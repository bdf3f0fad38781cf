/** The medicine stock page (`medicinestock.jsx`): the list kept on screen,
    its updates after an add, a save and a delete, the edit validation and
    the update payload, and the low-stock flag. Backend calls become
    parameters: the session's parent id and whether the update or delete
    succeeded. */
module MedicineStock {
  import opened Base
  import opened Text
  import opened MedicineRules
  import IntakeTimes
  import HeaderForms

  /** A numeric field of a row on this page: a `null` read from the table, a
      number, or the text of an edit-modal input. For text only what
      JavaScript's `Number` makes of it matters (`None` for `NaN`; blank text
      reads as 0). */
  datatype NumberField = Null | Number(amount: real) | Typed(number: Option<real>)

  /** JavaScript's `Number(v)`: `null` becomes 0; `None` is `NaN`. */
  function ToNumber(v: NumberField): Option<real> {
    match v
    case Null => Some(0.0)
    case Number(x) => Some(x)
    case Typed(n) => n
  }

  /** A medicine row as the page holds it. `childUsername` is the joined
      `child_users.username`. The quantity left has no input in the modal,
      so it is a stored number or `null` (`None`). */
  datatype Medicine = Medicine(id: string, childId: string, childUsername: Option<string>, name: string,
                               dosage: NumberField, expiryDate: string, intakeTimes: Option<seq<string>>,
                               totalQuantity: NumberField, quantityLeft: Option<real>,
                               refillThreshold: NumberField)

  // ---------------------------------------------------------------------
  // The list on screen.
  // ---------------------------------------------------------------------

  /** `handleMedicineAdded`: the new row goes first. */
  function Prepend(list: seq<Medicine>, m: Medicine): (r: seq<Medicine>)
    ensures |r| == |list| + 1 && r[0] == m && r[1..] == list
  {
    [m] + list
  }

  function IdIsNot(id: string): Medicine -> bool {
    (m: Medicine) => m.id != id
  }

  /** The delete update `prev.filter((m) => m.id !== id)`. */
  function RemoveById(list: seq<Medicine>, id: string): (r: seq<Medicine>)
    ensures forall m :: m in r <==> m in list && m.id != id
    ensures |r| <= |list|
  {
    Filter(list, IdIsNot(id))
  }

  /** The save update `prev.map((m) => (m.id === id ? updated : m))`. */
  function ReplaceById(list: seq<Medicine>, id: string, updated: Medicine): (r: seq<Medicine>)
    ensures |r| == |list|
    ensures forall i :: 0 <= i < |list| ==> r[i] == if list[i].id == id then updated else list[i]
  {
    seq(|list|, i requires 0 <= i < |list| => if list[i].id == id then updated else list[i])
  }

  /** Removing the rows of an id twice removes nothing more. */
  lemma {:induction false} RemoveByIdIdempotent(list: seq<Medicine>, id: string)
    ensures RemoveById(RemoveById(list, id), id) == RemoveById(list, id)
  {
    if |list| > 0 {
      RemoveByIdIdempotent(list[1..], id);
      var rest := RemoveById(list[1..], id);
      if list[0].id != id {
        var once := [list[0]] + rest;
        assert RemoveById(list, id) == once;
        assert once[0] == list[0] && once[1..] == rest;
        assert RemoveById(once, id) == [list[0]] + RemoveById(rest, id);
      } else {
        assert RemoveById(list, id) == rest;
      }
    }
  }

  lemma RemoveByIdCons(x: Medicine, rest: seq<Medicine>, id: string)
    ensures RemoveById([x] + rest, id) == (if x.id != id then [x] else []) + RemoveById(rest, id)
  {
    assert ([x] + rest)[0] == x && ([x] + rest)[1..] == rest;
  }

  /** Delete keeps the other rows in their order: removing one id commutes
      with removing another. */
  lemma {:induction false} RemoveByIdCommutes(list: seq<Medicine>, a: string, b: string)
    ensures RemoveById(RemoveById(list, a), b) == RemoveById(RemoveById(list, b), a)
  {
    if |list| > 0 {
      var x := list[0];
      var rest := list[1..];
      assert list == [x] + rest;
      var ra, rb := RemoveById(rest, a), RemoveById(rest, b);
      RemoveByIdCommutes(rest, a, b);
      RemoveByIdCons(x, rest, a);
      RemoveByIdCons(x, rest, b);
      if x.id != a && x.id != b {
        RemoveByIdCons(x, ra, b);
        RemoveByIdCons(x, rb, a);
      } else if x.id != a {
        assert RemoveById(list, b) == rb;
        RemoveByIdCons(x, ra, b);
        assert RemoveById(RemoveById(list, a), b) == RemoveById(ra, b);
      } else if x.id != b {
        assert RemoveById(list, a) == ra;
        RemoveByIdCons(x, rb, a);
        assert RemoveById(RemoveById(list, b), a) == RemoveById(rb, a);
      } else {
        assert RemoveById(list, a) == ra && RemoveById(list, b) == rb;
      }
    }
  }

  /** Deleting a row that was just added leaves the list as it was with the
      same deletion, so adding does not disturb the rows already there. */
  lemma RemoveAfterPrepend(list: seq<Medicine>, m: Medicine)
    ensures RemoveById(Prepend(list, m), m.id) == RemoveById(list, m.id)
  {
    assert Prepend(list, m)[1..] == list;
  }

  /** Replacing the rows of an id does not touch the rest: with those rows
      deleted, the list before and after the replacement is the same. */
  lemma {:induction false} ReplaceOnlyTouchesId(list: seq<Medicine>, id: string, updated: Medicine)
    requires updated.id == id
    ensures RemoveById(ReplaceById(list, id, updated), id) == RemoveById(list, id)
  {
    if |list| > 0 {
      ReplaceOnlyTouchesId(list[1..], id, updated);
      var r := ReplaceById(list, id, updated);
      assert r[1..] == ReplaceById(list[1..], id, updated);
    }
  }

  /** `medicines.find((m) => m.id === id)?.child_users`: the joined user of
      the first row with that id, if any. */
  function ChildUserOf(list: seq<Medicine>, id: string): (u: Option<string>)
    ensures (forall m :: m in list ==> m.id != id) ==> u.None?
    ensures forall k :: 0 <= k < |list| && list[k].id == id && (forall j :: 0 <= j < k ==> list[j].id != id)
                        ==> u == list[k].childUsername
  {
    if |list| == 0 then None
    else if list[0].id == id then list[0].childUsername
    else ChildUserOf(list[1..], id)
  }

  // ---------------------------------------------------------------------
  // Saving an edit.
  // ---------------------------------------------------------------------

  /** What the edit checks see: the trimmed name and `Number` of each
      numeric field, so a stored `null` reads as 0. */
  function FieldsOf(m: Medicine): Fields {
    Fields(m.childId, Trim(m.name), ToNumber(m.dosage), ToNumber(m.totalQuantity), ToNumber(m.refillThreshold))
  }

  /** The edit modal runs the chain without the child check. */
  function ValidateEdit(m: Medicine): (error: Option<Check>)
    ensures IsFirstFailure(error, FieldsOf(m), 1)
    ensures error != Some(ChildSelected)
  {
    CheckFieldsIsFirstFailure(FieldsOf(m));
    CheckFields(FieldsOf(m))
  }

  /** The body of the update request: exactly these seven fields. The child
      and the quantity left are not among them. */
  datatype UpdatePayload = UpdatePayload(name: string, dosage: real, expiryDate: string,
                                         intakeTimes: Option<seq<string>>, totalQuantity: real,
                                         refillThreshold: real, parentId: Option<string>)

  /** The payload built from a row that passed the edit checks. */
  function PayloadOf(m: Medicine, parentId: Option<string>): (p: UpdatePayload)
    requires ValidateEdit(m).None?
    ensures p.name == Trim(m.name) && Utf16Length(p.name) >= 2
    ensures Some(p.dosage) == ToNumber(m.dosage) && p.dosage > 0.0
    ensures Some(p.totalQuantity) == ToNumber(m.totalQuantity)
    ensures Some(p.refillThreshold) == ToNumber(m.refillThreshold)
    ensures 0.0 <= p.refillThreshold <= p.totalQuantity
    ensures p.expiryDate == m.expiryDate && p.intakeTimes == m.intakeTimes && p.parentId == parentId
  {
    PassingFieldsAreSound(FieldsOf(m));
    UpdatePayload(Trim(m.name), ToNumber(m.dosage).value, m.expiryDate, m.intakeTimes,
                  ToNumber(m.totalQuantity).value, ToNumber(m.refillThreshold).value, parentId)
  }

  /** Changing the child, the joined user or the quantity left in the modal
      changes nothing in what is sent. */
  lemma PayloadIgnoresChildAndStock(m: Medicine, parentId: Option<string>, child: string,
                                    user: Option<string>, left: Option<real>)
    requires ValidateEdit(m).None?
    ensures ValidateEdit(m.(childId := child, childUsername := user, quantityLeft := left)).None?
    ensures PayloadOf(m.(childId := child, childUsername := user, quantityLeft := left), parentId)
            == PayloadOf(m, parentId)
  {
    var m' := m.(childId := child, childUsername := user, quantityLeft := left);
    assert FieldsOf(m') == FieldsOf(m).(childId := child);
    CheckFieldsIgnoresChild(FieldsOf(m), child);
  }

  /** What `saveMedicine` leaves behind: the update it sent (if any), the
      check it reported (if any), the list on screen and the row still open
      in the modal (`None` once the modal is closed). */
  datatype SaveOutcome = SaveOutcome(sent: Option<UpdatePayload>, reported: Option<Check>,
                                     medicines: seq<Medicine>, open: Option<Medicine>)

  /** `saveMedicine`. After a successful update every row with the edited
      id becomes the edited row (carrying the joined user of the row it
      replaces) and the modal closes; otherwise the list is unchanged. */
  function SaveMedicine(list: seq<Medicine>, selected: Option<Medicine>, parentId: Option<string>,
                        updateSucceeds: bool): (o: SaveOutcome)
    ensures o.sent.Some? <==> selected.Some? && ValidateEdit(selected.value).None?
    ensures o.sent.Some? ==> o.sent.value == PayloadOf(selected.value, parentId)
    ensures o.reported.Some? <==> selected.Some? && ValidateEdit(selected.value).Some?
    ensures o.reported.Some? ==> o.reported == ValidateEdit(selected.value)
    ensures !(o.sent.Some? && updateSucceeds) ==> o.medicines == list && o.open == selected
    ensures o.sent.Some? && updateSucceeds ==>
      && o.open.None?
      && |o.medicines| == |list|
      && forall i :: 0 <= i < |list| ==>
           o.medicines[i] == if list[i].id == selected.value.id
                             then selected.value.(childUsername := ChildUserOf(list, selected.value.id))
                             else list[i]
  {
    match selected
    case None => SaveOutcome(None, None, list, None)
    case Some(m) =>
      match ValidateEdit(m)
      case Some(c) => SaveOutcome(None, Some(c), list, selected)
      case None =>
        var payload := PayloadOf(m, parentId);
        if updateSucceeds then
          var updated := m.(childUsername := ChildUserOf(list, m.id));
          SaveOutcome(Some(payload), None, ReplaceById(list, m.id, updated), None)
        else SaveOutcome(Some(payload), None, list, selected)
  }

  /** `deleteMedicine`: only a confirmed, successful delete changes the list,
      and then it drops exactly the rows with that id and closes the modal. */
  function DeleteMedicine(list: seq<Medicine>, open: Option<Medicine>, id: string, confirmed: bool,
                          deleteSucceeds: bool): (r: (seq<Medicine>, Option<Medicine>))
    ensures confirmed && deleteSucceeds ==> r == (RemoveById(list, id), None)
    ensures !(confirmed && deleteSucceeds) ==> r == (list, open)
  {
    if confirmed && deleteSucceeds then (RemoveById(list, id), None) else (list, open)
  }

  /** The edit modal's checkbox handler: only the intake times change, a
      missing list counting as empty. */
  function ToggleEditTime(m: Medicine, t: string): (r: Medicine)
    ensures r.intakeTimes == Some(IntakeTimes.ToggleOrStart(m.intakeTimes, t))
    ensures r.(intakeTimes := m.intakeTimes) == m
  {
    m.(intakeTimes := Some(IntakeTimes.ToggleOrStart(m.intakeTimes, t)))
  }

  // ---------------------------------------------------------------------
  // Low stock.
  // ---------------------------------------------------------------------

  /** The status column: the row is low when what is left does not exceed
      the threshold. JavaScript's `<=` reads `null` as 0 and is false when
      either side is `NaN`. */
  predicate IsLow(m: Medicine) {
    match ToNumber(m.refillThreshold)
    case None => false
    case Some(t) => m.quantityLeft.GetOr(0.0) <= t
  }

  /** With both numbers `null` a row is low; with only the threshold `null`
      it is low exactly when nothing (or less) is left; with only the
      quantity left `null` it is low exactly when the threshold is not
      negative; a threshold that is not a number never makes it low. */
  lemma LowStockDefaults(m: Medicine)
    ensures m.quantityLeft.None? && m.refillThreshold.Null? ==> IsLow(m)
    ensures m.quantityLeft.Some? && m.refillThreshold.Null? ==> (IsLow(m) <==> m.quantityLeft.value <= 0.0)
    ensures m.quantityLeft.None? && ToNumber(m.refillThreshold).Some? ==>
              (IsLow(m) <==> ToNumber(m.refillThreshold).value >= 0.0)
    ensures ToNumber(m.refillThreshold).None? ==> !IsLow(m)
  {
  }

  /** The row the page shows for a medicine just inserted by the add form. */
  function RowOf(id: string, user: Option<string>, n: HeaderForms.NewMedicine): Medicine {
    Medicine(id, n.childId, user, n.name, Number(n.dosage), n.expiryDate, Some(n.intakeTimes),
             Number(n.totalQuantity), Some(n.quantityLeft), Number(n.refillThreshold))
  }

  /** A freshly added medicine starts full, so it shows as low only when its
      refill threshold equals its total quantity. */
  lemma FreshMedicineLowIffThresholdIsTotal(form: HeaderForms.MedicineForm,
                                            existing: Lookup<HeaderForms.ExistingMedicine>,
                                            id: string, user: Option<string>)
    requires HeaderForms.PrepareMedicine(form, existing).Success?
    ensures var n := HeaderForms.PrepareMedicine(form, existing).value;
            IsLow(RowOf(id, user, n)) <==> n.refillThreshold == n.totalQuantity
  {
  }

  /** A freshly added medicine passes the edit checks unchanged: the add
      form never stores a row the edit modal would refuse. */
  lemma FreshMedicinePassesEdit(form: HeaderForms.MedicineForm,
                                existing: Lookup<HeaderForms.ExistingMedicine>,
                                id: string, user: Option<string>)
    requires HeaderForms.PrepareMedicine(form, existing).Success?
    ensures ValidateEdit(RowOf(id, user, HeaderForms.PrepareMedicine(form, existing).value)).None?
  {
    var n := HeaderForms.PrepareMedicine(form, existing).value;
    var f := FieldsOf(RowOf(id, user, n));
    TrimIdempotent(form.name);
    SoundFieldsPass(f);
  }

  /** A stored row whose refill threshold is `null` passes the edit checks
      when its other fields do, and the update sends the threshold as 0. */
  lemma NullThresholdIsSentAsZero(m: Medicine, parentId: Option<string>)
    requires Utf16Length(Trim(m.name)) >= 2
    requires ToNumber(m.dosage).Some? && ToNumber(m.dosage).value > 0.0
    requires ToNumber(m.totalQuantity).Some? && ToNumber(m.totalQuantity).value >= 0.0
    requires m.refillThreshold.Null?
    ensures ValidateEdit(m).None?
    ensures PayloadOf(m, parentId).refillThreshold == 0.0
  {
    SoundFieldsPass(FieldsOf(m));
  }

  /** A stored row whose total quantity is `null` has a total of 0, so a
      positive threshold fails the last check rather than the total's. */
  lemma NullTotalFailsThresholdCheck(m: Medicine)
    requires Utf16Length(Trim(m.name)) >= 2
    requires ToNumber(m.dosage).Some? && ToNumber(m.dosage).value > 0.0
    requires m.totalQuantity.Null?
    requires ToNumber(m.refillThreshold).Some? && ToNumber(m.refillThreshold).value > 0.0
    ensures ValidateEdit(m) == Some(ThresholdWithinTotal)
  {
  }
}

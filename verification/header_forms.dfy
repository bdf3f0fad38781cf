/** The two submit handlers of `header.jsx`: adding a family member
    (`handleAddChildUser`) and adding a medicine (`handleSubmit`). Backend
    calls become parameters: the signed-in user, the rows a lookup returned
    (or its failure) and whether the insert succeeded. */
module HeaderForms {
  import opened Base
  import opened Text
  import opened MedicineRules
  import IntakeTimes

  // ---------------------------------------------------------------------
  // Adding a member.
  // ---------------------------------------------------------------------

  /** The member form: name, the age as `parseInt` read it (`None` for
      `NaN`), and the phone text. */
  datatype MemberForm = MemberForm(username: string, age: Option<int>, phone: string)

  /** The form after a successful insert: every field cleared. */
  const BlankMemberForm := MemberForm("", None, "")

  /** A row of the `child_users` table, as far as the phone lookup sees it. */
  datatype ChildRow = ChildRow(parentId: string, phone: string)

  /** The row `handleAddChildUser` inserts. */
  datatype NewChild = NewChild(parentId: string, username: string, age: int, phone: string)

  /** Why a member is not added, in the order the handler finds out. */
  datatype MemberError = NotSignedIn | EmptyName | InvalidAge | InvalidPhone | PhoneTaken | AddMemberFailed

  /** The rows of `parent`'s children that carry `phone`: what the
      `.eq("parent_id", …).eq("child_phone", …)` query returns. */
  function PhoneMatches(rows: seq<ChildRow>, parent: string, phone: string): (m: seq<ChildRow>)
    ensures forall c :: c in m <==> c in rows && c.parentId == parent && c.phone == phone
  {
    Filter(rows, (c: ChildRow) => c.parentId == parent && c.phone == phone)
  }

  predicate AgeInRange(age: Option<int>) {
    age.Some? && 1 <= age.value <= 100
  }

  /** Validation, the duplicate-phone check and the record to insert. The
      lookup uses `maybeSingle`, which fails when more than one row matches;
      the failure is caught and reported as a failed add. */
  function PrepareMember(user: Option<string>, form: MemberForm, children: Lookup<ChildRow>)
    : (r: Result<NewChild, MemberError>)
    ensures r == Failure(NotSignedIn) <==> user.None?
    ensures r == Failure(EmptyName) <==> user.Some? && |Trim(form.username)| == 0
    ensures r == Failure(InvalidAge) <==>
      user.Some? && |Trim(form.username)| > 0 && !AgeInRange(form.age)
    ensures r == Failure(InvalidPhone) <==>
      user.Some? && |Trim(form.username)| > 0 && AgeInRange(form.age) && !IsTenDigits(Trim(form.phone))
    ensures r == Failure(PhoneTaken) ==>
      children.Rows? && exists c :: c in children.rows && c.parentId == user.value && c.phone == Trim(form.phone)
    ensures r.Success? ==>
      && user.Some? && children.Rows?
      && r.value == NewChild(user.value, Trim(form.username), form.age.value, Trim(form.phone))
      && |r.value.username| > 0 && 1 <= r.value.age <= 100 && IsTenDigits(r.value.phone)
      && forall c :: c in children.rows && c.parentId == user.value ==> c.phone != r.value.phone
  {
    if user.None? then Failure(NotSignedIn)
    else if |Trim(form.username)| == 0 then Failure(EmptyName)
    else if form.age.None? || form.age.value < 1 || form.age.value > 100 then Failure(InvalidAge)
    else if |Trim(form.phone)| == 0 || !IsTenDigits(Trim(form.phone)) then Failure(InvalidPhone)
    else match children
      case LookupFailed => Failure(AddMemberFailed)
      case Rows(rows) =>
        var existing := PhoneMatches(rows, user.value, Trim(form.phone));
        if |existing| > 1 then Failure(AddMemberFailed)
        else if |existing| == 1 then
          assert existing[0] in existing;
          Failure(PhoneTaken)
        else Success(NewChild(user.value, Trim(form.username), form.age.value, Trim(form.phone)))
  }

  /** With valid fields, the number of the parent's children using the phone
      decides: none lets the add go ahead, exactly one is reported as a taken
      phone, and more than one makes `maybeSingle` fail, which the handler
      reports as a failed add. */
  lemma PhoneTakenIffUsedOnce(user: string, form: MemberForm, rows: seq<ChildRow>)
    requires |Trim(form.username)| > 0 && AgeInRange(form.age) && IsTenDigits(Trim(form.phone))
    ensures PrepareMember(Some(user), form, Rows(rows)) == Failure(PhoneTaken) <==>
      |PhoneMatches(rows, user, Trim(form.phone))| == 1
    ensures PrepareMember(Some(user), form, Rows(rows)) == Failure(AddMemberFailed) <==>
      |PhoneMatches(rows, user, Trim(form.phone))| > 1
    ensures PrepareMember(Some(user), form, Rows(rows)).Success? <==>
      |PhoneMatches(rows, user, Trim(form.phone))| == 0
  {
    assert |Trim(form.phone)| == 10;
    assert !(form.age.None? || form.age.value < 1 || form.age.value > 100);
  }

  /** The handler's visible outcome, the form it leaves and whether it
      closes the new-member modal. */
  datatype MemberSubmit = MemberSubmit(result: Result<NewChild, MemberError>, form: MemberForm, closesModal: bool)

  /** `handleAddChildUser` as a whole: the insert is only attempted for a
      prepared record; after it succeeds the form is cleared and the modal
      closes, otherwise the form keeps what the user typed and the modal
      stays open. */
  function SubmitMember(user: Option<string>, form: MemberForm, children: Lookup<ChildRow>, insertSucceeds: bool)
    : (s: MemberSubmit)
    ensures s.result.Success? <==> PrepareMember(user, form, children).Success? && insertSucceeds
    ensures s.result.Success? ==> s.result == PrepareMember(user, form, children) && s.form == BlankMemberForm
    ensures s.result.Failure? ==> s.form == form
    ensures s.closesModal <==> s.result.Success?
    ensures PrepareMember(user, form, children).Failure? ==> s.result == PrepareMember(user, form, children)
    ensures PrepareMember(user, form, children).Success? && !insertSucceeds ==> s.result == Failure(AddMemberFailed)
  {
    match PrepareMember(user, form, children)
    case Failure(e) => MemberSubmit(Failure(e), form, false)
    case Success(child) =>
      if insertSucceeds then MemberSubmit(Success(child), BlankMemberForm, true)
      else MemberSubmit(Failure(AddMemberFailed), form, false)
  }

  // ---------------------------------------------------------------------
  // Adding a medicine.
  // ---------------------------------------------------------------------

  /** The medicine form (`formData`). Each number is what JavaScript's
      `Number` makes of the input's text: blank text gives 0, and `None` is
      `NaN`. */
  datatype MedicineForm = MedicineForm(childId: string, name: string, dosage: Option<real>, expiryDate: string,
                                       intakeTimes: seq<string>, totalQuantity: Option<real>,
                                       quantityLeft: Option<real>, refillThreshold: Option<real>)

  /** The form after a successful insert: empty texts, so every number reads
      as 0, and no intake times. */
  const BlankMedicineForm := MedicineForm("", "", Some(0.0), "", [], Some(0.0), Some(0.0), Some(0.0))

  function FieldsOf(form: MedicineForm): Fields {
    Fields(form.childId, Trim(form.name), form.dosage, form.totalQuantity, form.refillThreshold)
  }

  /** A row of the `medicine` table, as far as the duplicate check sees it. */
  datatype ExistingMedicine = ExistingMedicine(childId: string, name: string)

  /** The row `handleSubmit` inserts. */
  datatype NewMedicine = NewMedicine(childId: string, name: string, dosage: real, expiryDate: string,
                                     intakeTimes: seq<string>, totalQuantity: real, quantityLeft: real,
                                     refillThreshold: real)

  /** Why a medicine is not added. */
  datatype MedicineError = Invalid(check: Check) | AlreadyExists | AddMedicineFailed

  /** The `.eq("child_id", …).ilike("name", trimmed)` lookup finds a row: a
      medicine of the same child whose name equals the trimmed name up to
      letter case. The name is compared literally, apart from pattern
      metacharacters (`%`, `_`, `*`, `\`), which this model does not give
      their `ilike` meaning. */
  predicate IsDuplicate(existing: seq<ExistingMedicine>, childId: string, name: string) {
    exists m :: m in existing && m.childId == childId && EqualsIgnoringCase(m.name, Trim(name))
  }

  /** Validation, the duplicate check and the record to insert. */
  function PrepareMedicine(form: MedicineForm, existing: Lookup<ExistingMedicine>)
    : (r: Result<NewMedicine, MedicineError>)
    ensures forall c :: r == Failure(Invalid(c)) <==> CheckAll(FieldsOf(form)) == Some(c)
    ensures r == Failure(AlreadyExists) <==>
      CheckAll(FieldsOf(form)).None? && existing.Rows? && IsDuplicate(existing.rows, form.childId, form.name)
    ensures r == Failure(AddMedicineFailed) <==> CheckAll(FieldsOf(form)).None? && existing.LookupFailed?
    ensures r.Success? ==>
      && form.childId != "" && r.value.childId == form.childId
      && r.value.name == Trim(form.name) && Utf16Length(r.value.name) >= 2
      && r.value.dosage > 0.0
      && 0.0 <= r.value.refillThreshold <= r.value.totalQuantity
      && r.value.quantityLeft == r.value.totalQuantity
      && r.value.intakeTimes == form.intakeTimes && r.value.expiryDate == form.expiryDate
      && Some(r.value.dosage) == form.dosage && Some(r.value.totalQuantity) == form.totalQuantity
      && Some(r.value.refillThreshold) == form.refillThreshold
  {
    match CheckAll(FieldsOf(form))
    case Some(c) => Failure(Invalid(c))
    case None =>
      match existing
      case LookupFailed => Failure(AddMedicineFailed)
      case Rows(rows) =>
        if IsDuplicate(rows, form.childId, form.name) then Failure(AlreadyExists)
        else
          PassingFieldsAreSound(FieldsOf(form));
          Success(NewMedicine(form.childId, Trim(form.name), form.dosage.value, form.expiryDate,
                              form.intakeTimes, form.totalQuantity.value, form.totalQuantity.value,
                              form.refillThreshold.value))
  }

  /** The duplicate check ignores letter case and surrounding blanks of the
      typed name: a form naming an existing medicine of the same child in
      another case is refused. */
  lemma CaseVariantIsDuplicate(form: MedicineForm, rows: seq<ExistingMedicine>, m: ExistingMedicine)
    requires CheckAll(FieldsOf(form)).None?
    requires m in rows && m.childId == form.childId && EqualsIgnoringCase(m.name, Trim(form.name))
    ensures PrepareMedicine(form, Rows(rows)) == Failure(AlreadyExists)
  {
  }

  /** The handler's visible outcome, the form it leaves and whether it
      closes the add-medicine modal. */
  datatype MedicineSubmit = MedicineSubmit(result: Result<NewMedicine, MedicineError>, form: MedicineForm,
                                           closesModal: bool)

  /** `handleSubmit` as a whole: after a successful insert every field is
      reset, the intake times become `[]` and the modal closes; any failure
      leaves the form as it was and the modal open. */
  function SubmitMedicine(form: MedicineForm, existing: Lookup<ExistingMedicine>, insertSucceeds: bool)
    : (s: MedicineSubmit)
    ensures s.result.Success? <==> PrepareMedicine(form, existing).Success? && insertSucceeds
    ensures s.result.Success? ==> s.result == PrepareMedicine(form, existing) && s.form == BlankMedicineForm
    ensures s.result.Failure? ==> s.form == form
    ensures s.closesModal <==> s.result.Success?
    ensures PrepareMedicine(form, existing).Failure? ==> s.result == PrepareMedicine(form, existing)
    ensures PrepareMedicine(form, existing).Success? && !insertSucceeds ==> s.result == Failure(AddMedicineFailed)
  {
    match PrepareMedicine(form, existing)
    case Failure(e) => MedicineSubmit(Failure(e), form, false)
    case Success(m) =>
      if insertSucceeds then MedicineSubmit(Success(m), BlankMedicineForm, true)
      else MedicineSubmit(Failure(AddMedicineFailed), form, false)
  }

  /** A cleared form cannot be submitted as it stands: its first failing
      check is the missing child. */
  lemma BlankFormIsRejected(existing: Lookup<ExistingMedicine>)
    ensures PrepareMedicine(BlankMedicineForm, existing) == Failure(Invalid(ChildSelected))
  {
  }

  /** `handleIntakeTimeToggle`: only the intake times change. */
  function ToggleIntakeTime(form: MedicineForm, t: string): (f: MedicineForm)
    ensures f.intakeTimes == IntakeTimes.Toggle(form.intakeTimes, t)
    ensures f.(intakeTimes := form.intakeTimes) == form
  {
    form.(intakeTimes := IntakeTimes.Toggle(form.intakeTimes, t))
  }
}

/** The ordered validation chain both medicine forms run before writing to
    the backend: the add form of `header.jsx` runs all six checks, the edit
    modal of `medicinestock.jsx` the last five. The first failing check is
    the one reported. Each number is what JavaScript's `Number` makes of the
    field (blank text and `null` give 0); `None` is `NaN`. */
module MedicineRules {
  import opened Base
  import opened Text

  /** The checks, in the order the handlers run them. */
  datatype Check = ChildSelected | NameLength | DosagePositive | TotalNonNegative
                 | ThresholdNonNegative | ThresholdWithinTotal

  /** The position of a check in the chain. */
  function Rank(c: Check): nat {
    match c
    case ChildSelected => 0
    case NameLength => 1
    case DosagePositive => 2
    case TotalNonNegative => 3
    case ThresholdNonNegative => 4
    case ThresholdWithinTotal => 5
  }

  /** The text shown when a check fails. */
  function Message(c: Check): string {
    match c
    case ChildSelected => "Please select a child."
    case NameLength => "Medicine name must be at least 2 characters."
    case DosagePositive => "Dosage must be a valid number greater than 0."
    case TotalNonNegative => "Total quantity must be a non-negative number."
    case ThresholdNonNegative => "Refill threshold must be a non-negative number."
    case ThresholdWithinTotal => "Refill threshold cannot be greater than total quantity."
  }

  /** The values the chain inspects. `name` is the name after `trim()`. */
  datatype Fields = Fields(childId: string, name: string, dosage: Option<real>,
                           totalQuantity: Option<real>, refillThreshold: Option<real>)

  /** What each check demands, on its own. The name's length is JavaScript's
      `.length`, in UTF-16 code units. The last check compares with
      JavaScript's `>`, which is false when either side is not a number. */
  predicate Holds(c: Check, f: Fields) {
    match c
    case ChildSelected => f.childId != ""
    case NameLength => Utf16Length(f.name) >= 2
    case DosagePositive => f.dosage.Some? && f.dosage.value > 0.0
    case TotalNonNegative => f.totalQuantity.Some? && f.totalQuantity.value >= 0.0
    case ThresholdNonNegative => f.refillThreshold.Some? && f.refillThreshold.value >= 0.0
    case ThresholdWithinTotal =>
      !(f.refillThreshold.Some? && f.totalQuantity.Some? && f.refillThreshold.value > f.totalQuantity.value)
  }

  /** `error` is what an ordered chain starting at rank `from` reports:
      nothing when every check from there on holds, otherwise a failing check
      of the chain all of whose predecessors in the chain hold. */
  ghost predicate IsFirstFailure(error: Option<Check>, f: Fields, from: nat) {
    && (error.None? <==> forall c :: Rank(c) >= from ==> Holds(c, f))
    && (error.Some? ==>
          && Rank(error.value) >= from
          && !Holds(error.value, f)
          && forall c :: from <= Rank(c) < Rank(error.value) ==> Holds(c, f))
  }

  /** The chain without the child check: name, dosage, total quantity,
      refill threshold, threshold against total. */
  function CheckFields(f: Fields): Option<Check> {
    if Utf16Length(f.name) < 2 then Some(NameLength)
    else if f.dosage.None? || f.dosage.value <= 0.0 then Some(DosagePositive)
    else if f.totalQuantity.None? || f.totalQuantity.value < 0.0 then Some(TotalNonNegative)
    else if f.refillThreshold.None? || f.refillThreshold.value < 0.0 then Some(ThresholdNonNegative)
    else if f.refillThreshold.value > f.totalQuantity.value then Some(ThresholdWithinTotal)
    else None
  }

  /** The field chain reports its first failing check, or nothing when
      every check holds. */
  lemma CheckFieldsIsFirstFailure(f: Fields)
    ensures IsFirstFailure(CheckFields(f), f, 1)
  {
    var e := CheckFields(f);
    forall c | Rank(c) >= 1 && (e.None? || Rank(c) < Rank(e.value))
      ensures Holds(c, f)
    {
      match c
      case ChildSelected =>
      case NameLength =>
      case DosagePositive =>
      case TotalNonNegative =>
      case ThresholdNonNegative =>
      case ThresholdWithinTotal =>
    }
    if e.Some? {
      assert !Holds(e.value, f);
    }
  }

  /** The full chain of the add form: a child must be chosen first. */
  function CheckAll(f: Fields): (error: Option<Check>)
    ensures IsFirstFailure(error, f, 0)
  {
    if f.childId == "" then
      ChildCheckFailsFirst(f);
      Some(ChildSelected)
    else
      CheckFieldsIsFirstFailure(f);
      ChildCheckExtendsChain(CheckFields(f), f);
      CheckFields(f)
  }

  lemma ChildCheckFailsFirst(f: Fields)
    requires !Holds(ChildSelected, f)
    ensures IsFirstFailure(Some(ChildSelected), f, 0)
  {
    assert !forall c :: Rank(c) >= 0 ==> Holds(c, f) by {
      assert Rank(ChildSelected) >= 0;
    }
  }

  /** Putting a passing child check in front of a chain does not change what
      the chain reports. */
  lemma ChildCheckExtendsChain(error: Option<Check>, f: Fields)
    requires Holds(ChildSelected, f)
    requires IsFirstFailure(error, f, 1)
    ensures IsFirstFailure(error, f, 0)
  {
    forall c | Rank(c) < 1
      ensures c == ChildSelected
    {
    }
  }

  /** The edit chain is the add chain with the child check removed: with a
      child chosen the two report the same thing, and without one the add
      chain stops at the child check. */
  lemma EditChainIsAddChainWithoutChild(f: Fields)
    ensures f.childId != "" ==> CheckAll(f) == CheckFields(f)
    ensures f.childId == "" ==> CheckAll(f) == Some(ChildSelected)
    ensures CheckFields(f).Some? ==> CheckAll(f).Some?
  {
  }

  /** A value that passes the chain is fit to store: a name of at least two
      code units after trimming, a positive dosage, and a threshold between
      zero and the total quantity. */
  lemma PassingFieldsAreSound(f: Fields)
    requires CheckFields(f).None?
    ensures Utf16Length(f.name) >= 2
    ensures f.dosage.Some? && f.dosage.value > 0.0
    ensures f.totalQuantity.Some? && f.refillThreshold.Some?
    ensures 0.0 <= f.refillThreshold.value <= f.totalQuantity.value
  {
    assert Holds(NameLength, f) && Holds(DosagePositive, f) && Holds(TotalNonNegative, f);
    assert Holds(ThresholdNonNegative, f) && Holds(ThresholdWithinTotal, f);
  }

  /** The converse: values meeting those conditions pass the chain. */
  lemma SoundFieldsPass(f: Fields)
    requires Utf16Length(f.name) >= 2
    requires f.dosage.Some? && f.dosage.value > 0.0
    requires f.totalQuantity.Some? && f.refillThreshold.Some?
    requires 0.0 <= f.refillThreshold.value <= f.totalQuantity.value
    ensures CheckFields(f).None?
  {
  }

  /** The chain without the child check does not look at the child. */
  lemma CheckFieldsIgnoresChild(f: Fields, child: string)
    ensures CheckFields(f.(childId := child)) == CheckFields(f)
  {
    assert f.(childId := child).name == f.name;
  }

  /** Each check has its own message, so the text shown tells the user which
      check failed. */
  lemma MessagesIdentifyChecks(a: Check, b: Check)
    ensures Message(a) == Message(b) <==> a == b
  {
  }

  /** A name of one character outside the Basic Multilingual Plane passes the
      length check, as JavaScript counts it as two code units. */
  lemma AstralNamePassesLengthCheck(f: Fields)
    requires |f.name| == 1 && f.name[0] as int > 0xFFFF
    ensures Holds(NameLength, f)
  {
    assert f.name == [f.name[0]];
    AstralCharacterCountsTwice(f.name[0]);
  }
}

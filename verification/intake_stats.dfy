/** The medicine-intake report of `medicinestats.jsx`: the month's dose
    records grouped by medicine name, with taken / missed / late counters, a
    detail list per medicine, global totals, the three-slot pie series, the
    details table and the PDF rows, and the way an empty or failed fetch is
    shown. */
module IntakeStats {
  import opened Base
  import opened Text

  /** One dose record as the backend returns it. */
  datatype IntakeRecord = IntakeRecord(medicineName: string, date: string, time: string, status: string)

  /** The part of a record kept in a medicine's detail list. */
  datatype Detail = Detail(date: string, time: string, status: string)

  /** How the aggregation reads a status text: the three values it counts,
      and everything else, which it keeps in the details but never counts. */
  datatype StatusKind = Taken | Missed | TakenLate | Unrecognised

  /** The counters and detail list kept for one medicine name. */
  datatype MedicineCounts = MedicineCounts(taken: nat, missed: nat, late: nat, details: seq<Detail>)

  /** One key of the aggregation with its value; the aggregation is a list of
      entries in the order their names were first met. */
  datatype Entry = Entry(name: string, counts: MedicineCounts)

  type Aggregation = seq<Entry>

  /** The exact, case-sensitive comparisons `status === "taken"`,
      `=== "missed"` and `=== "takenLate"`. */
  function KindOf(status: string): StatusKind {
    if status == "taken" then Taken
    else if status == "missed" then Missed
    else if status == "takenLate" then TakenLate
    else Unrecognised
  }

  function DetailOf(r: IntakeRecord): Detail {
    Detail(r.date, r.time, r.status)
  }

  const NoCounts := MedicineCounts(0, 0, 0, [])

  /** The counter of `c` that a status of kind `k` increments; an
      unrecognised status has none, so it reads as zero. */
  function CounterOf(c: MedicineCounts, k: StatusKind): nat {
    match k
    case Taken => c.taken
    case Missed => c.missed
    case TakenLate => c.late
    case Unrecognised => 0
  }

  /** One step of the per-medicine fold: the record's detail is appended and
      the counter its status selects, if any, goes up by one. */
  function Tally(c: MedicineCounts, r: IntakeRecord): (t: MedicineCounts)
    ensures t.details == c.details + [DetailOf(r)]
    ensures forall k :: k != Unrecognised ==>
      CounterOf(t, k) == CounterOf(c, k) + (if KindOf(r.status) == k then 1 else 0)
  {
    var withDetail := c.(details := c.details + [DetailOf(r)]);
    match KindOf(r.status)
    case Taken => withDetail.(taken := c.taken + 1)
    case Missed => withDetail.(missed := c.missed + 1)
    case TakenLate => withDetail.(late := c.late + 1)
    case Unrecognised => withDetail
  }

  /** The keys of an aggregation, in order. */
  function Names(agg: Aggregation): (ns: seq<string>)
    ensures |ns| == |agg|
    ensures forall i :: 0 <= i < |agg| ==> ns[i] == agg[i].name
  {
    seq(|agg|, i requires 0 <= i < |agg| => agg[i].name)
  }

  /** The position of the entry named `name`, if there is one: the first
      such position. */
  function Find(agg: Aggregation, name: string): (r: Option<nat>)
    ensures r.Some? ==> r.value < |agg| && agg[r.value].name == name
    ensures r.Some? ==> forall i :: 0 <= i < r.value ==> agg[i].name != name
    ensures r.None? <==> name !in Names(agg)
  {
    if |agg| == 0 then None
    else if agg[0].name == name then Some(0)
    else match Find(agg[1..], name)
      case Some(j) => Some(j + 1)
      case None => None
  }

  /** The body of `history.forEach`: create the entry on first sight of a
      name, then append the detail and bump the counter. */
  function AddRecord(agg: Aggregation, r: IntakeRecord): Aggregation {
    match Find(agg, r.medicineName)
    case Some(j) => agg[j := Entry(r.medicineName, Tally(agg[j].counts, r))]
    case None => agg + [Entry(r.medicineName, Tally(NoCounts, r))]
  }

  /** The aggregation of a record list, folded in input order. */
  function Aggregate(rs: seq<IntakeRecord>): Aggregation {
    if |rs| == 0 then [] else AddRecord(Aggregate(rs[..|rs| - 1]), rs[|rs| - 1])
  }

  // ---------------------------------------------------------------------
  // Reference definitions: what each part of the aggregation should be,
  // stated directly over the input list.
  // ---------------------------------------------------------------------

  /** The distinct medicine names of `rs`, each at the place it first
      occurs. */
  function FirstOccurrences(rs: seq<IntakeRecord>): seq<string> {
    if |rs| == 0 then []
    else
      var earlier := FirstOccurrences(rs[..|rs| - 1]);
      if rs[|rs| - 1].medicineName in earlier then earlier
      else earlier + [rs[|rs| - 1].medicineName]
  }

  /** The details of the records named `name`, in input order. */
  function DetailsFor(rs: seq<IntakeRecord>, name: string): seq<Detail> {
    if |rs| == 0 then []
    else
      var earlier := DetailsFor(rs[..|rs| - 1], name);
      if rs[|rs| - 1].medicineName == name then earlier + [DetailOf(rs[|rs| - 1])] else earlier
  }

  /** How many records named `name` have a status of kind `k`. */
  function CountFor(rs: seq<IntakeRecord>, name: string, k: StatusKind): nat {
    if |rs| == 0 then 0
    else
      CountFor(rs[..|rs| - 1], name, k)
      + (if rs[|rs| - 1].medicineName == name && KindOf(rs[|rs| - 1].status) == k then 1 else 0)
  }

  /** How many records, of any medicine, have a status of kind `k`. */
  function CountKind(rs: seq<IntakeRecord>, k: StatusKind): nat {
    if |rs| == 0 then 0
    else CountKind(rs[..|rs| - 1], k) + (if KindOf(rs[|rs| - 1].status) == k then 1 else 0)
  }

  /** The value the entry for `name` should hold after reading `rs`. */
  function Expected(rs: seq<IntakeRecord>, name: string): MedicineCounts {
    MedicineCounts(CountFor(rs, name, Taken), CountFor(rs, name, Missed),
                   CountFor(rs, name, TakenLate), DetailsFor(rs, name))
  }

  /** The aggregation agrees with the reference definitions: its keys are
      the first occurrences and every value is the expected one. */
  ghost predicate Faithful(agg: Aggregation, rs: seq<IntakeRecord>) {
    && Names(agg) == FirstOccurrences(rs)
    && forall i :: 0 <= i < |agg| ==> agg[i].counts == Expected(rs, agg[i].name)
  }

  // ---------------------------------------------------------------------
  // Grouping: keys, order, details and counters.
  // ---------------------------------------------------------------------

  /** The first-occurrence list holds every name of the input, exactly
      once, and nothing else. */
  lemma {:induction false} FirstOccurrencesExact(rs: seq<IntakeRecord>)
    ensures Distinct(FirstOccurrences(rs))
    ensures forall n :: n in FirstOccurrences(rs) <==> exists i :: 0 <= i < |rs| && rs[i].medicineName == n
  {
    if |rs| > 0 {
      var pre := rs[..|rs| - 1];
      FirstOccurrencesExact(pre);
      forall n
        ensures n in FirstOccurrences(rs) <==> exists i :: 0 <= i < |rs| && rs[i].medicineName == n
      {
        if n in FirstOccurrences(pre) {
          var i :| 0 <= i < |pre| && pre[i].medicineName == n;
          assert rs[i].medicineName == n;
        }
        if exists i :: 0 <= i < |rs| && rs[i].medicineName == n {
          var i :| 0 <= i < |rs| && rs[i].medicineName == n;
          if i < |pre| {
            assert pre[i].medicineName == n;
          }
        }
      }
    }
  }

  /** A name absent from the input has no details and no counts. */
  lemma {:induction false} ExpectedOfAbsent(rs: seq<IntakeRecord>, name: string)
    requires forall i :: 0 <= i < |rs| ==> rs[i].medicineName != name
    ensures Expected(rs, name) == NoCounts
  {
    if |rs| > 0 {
      var pre := rs[..|rs| - 1];
      assert forall i :: 0 <= i < |pre| ==> pre[i].medicineName == rs[i].medicineName;
      ExpectedOfAbsent(pre, name);
    }
  }

  /** Reading one more record changes only the expected value of its own
      name, by exactly one tally step. */
  lemma ExpectedStep(rs: seq<IntakeRecord>, name: string)
    requires |rs| > 0
    ensures rs[|rs| - 1].medicineName == name ==>
      Expected(rs, name) == Tally(Expected(rs[..|rs| - 1], name), rs[|rs| - 1])
    ensures rs[|rs| - 1].medicineName != name ==>
      Expected(rs, name) == Expected(rs[..|rs| - 1], name)
  {
    var pre := rs[..|rs| - 1];
    var r := rs[|rs| - 1];
    if r.medicineName == name {
      var t := Tally(Expected(pre, name), r);
      assert CounterOf(t, Taken) == CounterOf(Expected(rs, name), Taken);
      assert CounterOf(t, Missed) == CounterOf(Expected(rs, name), Missed);
      assert CounterOf(t, TakenLate) == CounterOf(Expected(rs, name), TakenLate);
    }
  }

  /** The aggregation is exactly the grouping the reference definitions
      describe: keys are the distinct names in first-occurrence order, each
      entry's details are that medicine's records in input order (including
      unrecognised statuses) and its counters count that medicine's records
      of each recognised status. */
  lemma {:induction false} AggregateIsFaithful(rs: seq<IntakeRecord>)
    ensures Faithful(Aggregate(rs), rs)
  {
    if |rs| > 0 {
      var pre := rs[..|rs| - 1];
      var r := rs[|rs| - 1];
      var n := r.medicineName;
      var agg := Aggregate(pre);
      AggregateIsFaithful(pre);
      FirstOccurrencesExact(pre);
      var agg' := Aggregate(rs);
      assert agg' == AddRecord(agg, r);
      match Find(agg, n)
      case Some(j) =>
        assert n in FirstOccurrences(pre);
        assert Names(agg') == Names(agg);
        forall i | 0 <= i < |agg'|
          ensures agg'[i].counts == Expected(rs, agg'[i].name)
        {
          ExpectedStep(rs, agg'[i].name);
          if i != j {
            assert Names(agg)[i] != Names(agg)[j];
          }
        }
      case None =>
        assert n !in FirstOccurrences(pre);
        assert forall i :: 0 <= i < |pre| ==> pre[i].medicineName != n;
        ExpectedOfAbsent(pre, n);
        assert Names(agg') == Names(agg) + [n];
        forall i | 0 <= i < |agg'|
          ensures agg'[i].counts == Expected(rs, agg'[i].name)
        {
          ExpectedStep(rs, agg'[i].name);
        }
    }
  }

  /** Completeness of grouping: every name of the input is a key exactly
      once, and every key is a name of the input. */
  lemma AggregateKeys(rs: seq<IntakeRecord>)
    ensures Distinct(Names(Aggregate(rs)))
    ensures forall n :: n in Names(Aggregate(rs)) <==> exists i :: 0 <= i < |rs| && rs[i].medicineName == n
    ensures Names(Aggregate(rs)) == FirstOccurrences(rs)
  {
    AggregateIsFaithful(rs);
    FirstOccurrencesExact(rs);
  }

  /** The value stored under each key, stated through the reference
      definitions. */
  lemma AggregateEntry(rs: seq<IntakeRecord>, i: nat)
    requires i < |Aggregate(rs)|
    ensures Aggregate(rs)[i].counts.details == DetailsFor(rs, Aggregate(rs)[i].name)
    ensures Aggregate(rs)[i].counts.taken == CountFor(rs, Aggregate(rs)[i].name, Taken)
    ensures Aggregate(rs)[i].counts.missed == CountFor(rs, Aggregate(rs)[i].name, Missed)
    ensures Aggregate(rs)[i].counts.late == CountFor(rs, Aggregate(rs)[i].name, TakenLate)
  {
    AggregateIsFaithful(rs);
  }

  /** Every detail list of the reference is the subsequence of the input
      with that name, so its length is the number of such records. */
  lemma {:induction false} DetailsForIsSubsequence(rs: seq<IntakeRecord>, name: string)
    ensures DetailsFor(rs, name) == MapDetails(Filter(rs, NamedAs(name)))
  {
    if |rs| > 0 {
      var pre := rs[..|rs| - 1];
      var r := rs[|rs| - 1];
      var keep := NamedAs(name);
      DetailsForIsSubsequence(pre, name);
      assert rs == pre + [r];
      FilterAppend(pre, [r], keep);
      var tail := Filter([r], keep);
      assert tail == if r.medicineName == name then [r] else [];
      MapDetailsAppend(Filter(pre, keep), tail);
    }
  }

  function NamedAs(name: string): IntakeRecord -> bool {
    (r: IntakeRecord) => r.medicineName == name
  }

  function MapDetails(rs: seq<IntakeRecord>): (ds: seq<Detail>)
    ensures |ds| == |rs|
    ensures forall i :: 0 <= i < |rs| ==> ds[i] == DetailOf(rs[i])
  {
    seq(|rs|, i requires 0 <= i < |rs| => DetailOf(rs[i]))
  }

  lemma MapDetailsAppend(a: seq<IntakeRecord>, b: seq<IntakeRecord>)
    ensures MapDetails(a + b) == MapDetails(a) + MapDetails(b)
  {
  }

  /** Per medicine, the three counters plus the unrecognised records make up
      the whole detail list. */
  lemma {:induction false} CountersCoverDetails(rs: seq<IntakeRecord>, name: string)
    ensures CountFor(rs, name, Taken) + CountFor(rs, name, Missed) + CountFor(rs, name, TakenLate)
            + CountFor(rs, name, Unrecognised) == |DetailsFor(rs, name)|
  {
    if |rs| > 0 {
      CountersCoverDetails(rs[..|rs| - 1], name);
    }
  }

  // ---------------------------------------------------------------------
  // Totals and the pie series.
  // ---------------------------------------------------------------------

  /** `Object.values(counts).reduce((a, c) => a + c.<counter>, 0)`. */
  function Total(agg: Aggregation, k: StatusKind): nat {
    if |agg| == 0 then 0 else Total(agg[..|agg| - 1], k) + CounterOf(agg[|agg| - 1].counts, k)
  }

  lemma {:induction false} TotalAppend(agg: Aggregation, e: Entry, k: StatusKind)
    ensures Total(agg + [e], k) == Total(agg, k) + CounterOf(e.counts, k)
  {
    assert (agg + [e])[..|agg|] == agg;
  }

  lemma {:induction false} TotalUpdate(agg: Aggregation, j: nat, e: Entry, k: StatusKind)
    requires j < |agg|
    ensures Total(agg[j := e], k) + CounterOf(agg[j].counts, k) == Total(agg, k) + CounterOf(e.counts, k)
  {
    var last := |agg| - 1;
    if j == last {
      assert agg[j := e][..last] == agg[..last];
    } else {
      assert agg[j := e][..last] == agg[..last][j := e];
      TotalUpdate(agg[..last], j, e, k);
    }
  }

  /** Each global total is the number of input records with that status:
      every recognised record is counted once, under its own medicine. */
  lemma {:induction false} TotalCountsStatus(rs: seq<IntakeRecord>, k: StatusKind)
    requires k != Unrecognised
    ensures Total(Aggregate(rs), k) == CountKind(rs, k)
  {
    if |rs| > 0 {
      var pre := rs[..|rs| - 1];
      var r := rs[|rs| - 1];
      var agg := Aggregate(pre);
      TotalCountsStatus(pre, k);
      match Find(agg, r.medicineName)
      case Some(j) =>
        TotalUpdate(agg, j, Entry(r.medicineName, Tally(agg[j].counts, r)), k);
      case None =>
        TotalAppend(agg, Entry(r.medicineName, Tally(NoCounts, r)), k);
    }
  }

  function IsRecognised(r: IntakeRecord): bool {
    KindOf(r.status) != Unrecognised
  }

  lemma {:induction false} CountKindsPartition(rs: seq<IntakeRecord>)
    ensures CountKind(rs, Taken) + CountKind(rs, Missed) + CountKind(rs, TakenLate)
            == |Filter(rs, IsRecognised)|
  {
    if |rs| > 0 {
      var pre := rs[..|rs| - 1];
      CountKindsPartition(pre);
      assert rs == pre + [rs[|rs| - 1]];
      FilterAppend(pre, [rs[|rs| - 1]], IsRecognised);
    }
  }

  /** Conservation: the three totals add up to the number of records whose
      status is recognised. */
  lemma Conservation(rs: seq<IntakeRecord>)
    ensures Total(Aggregate(rs), Taken) + Total(Aggregate(rs), Missed) + Total(Aggregate(rs), TakenLate)
            == |Filter(rs, IsRecognised)|
  {
    TotalCountsStatus(rs, Taken);
    TotalCountsStatus(rs, Missed);
    TotalCountsStatus(rs, TakenLate);
    CountKindsPartition(rs);
  }

  /** The chart data: fixed labels and one value per label. */
  datatype Pie = Pie(labels: seq<string>, series: seq<nat>)

  const PieLabels: seq<string> := ["Taken", "Missed", "Late"]

  /** The pie series of the month: taken, missed, late, in that order, each
      the number of records with that status. */
  function PieFor(rs: seq<IntakeRecord>): (p: Pie)
    ensures p.labels == PieLabels
    ensures p.series == [CountKind(rs, Taken), CountKind(rs, Missed), CountKind(rs, TakenLate)]
  {
    var agg := Aggregate(rs);
    TotalCountsStatus(rs, Taken);
    TotalCountsStatus(rs, Missed);
    TotalCountsStatus(rs, TakenLate);
    Pie(PieLabels, [Total(agg, Taken), Total(agg, Missed), Total(agg, TakenLate)])
  }

  // ---------------------------------------------------------------------
  // Fetch handling and the page shown.
  // ---------------------------------------------------------------------

  /** The state the month fetch leaves behind: `hasHistory`,
      `aggregatedCounts` and `pieData` (`None` standing for `{}`). */
  datatype MonthStats = MonthStats(hasHistory: bool, counts: Aggregation, pie: Option<Pie>)

  /** The outcome of the month query: an error and an empty (or null)
      answer both clear the report; any row gives the full report. */
  function ApplyMonthFetch(answer: Lookup<IntakeRecord>): (s: MonthStats)
    ensures s.hasHistory <==> answer.Rows? && |answer.rows| > 0
    ensures !s.hasHistory ==> s.counts == [] && s.pie == None
    ensures s.hasHistory ==> Faithful(s.counts, answer.rows)
    ensures s.hasHistory ==> s.pie == Some(Pie(PieLabels,
      [CountKind(answer.rows, Taken), CountKind(answer.rows, Missed), CountKind(answer.rows, TakenLate)]))
  {
    match answer
    case LookupFailed => MonthStats(false, [], None)
    case Rows(rs) =>
      if |rs| == 0 then MonthStats(false, [], None)
      else
        AggregateIsFaithful(rs);
        MonthStats(true, Aggregate(rs), Some(PieFor(rs)))
  }

  /** The answer of the head-only existence count query. */
  datatype CountAnswer = CountFailed | Counted(count: Option<int>)

  /** `hasAnyHistory`: false on error, otherwise `(count || 0) > 0`. */
  function HasAnyHistory(a: CountAnswer): bool {
    match a
    case CountFailed => false
    case Counted(c) => c.GetOr(0) > 0
  }

  /** What the stats section shows once both queries have answered. */
  datatype Page = NoHistoryEver | NoHistoryThisMonth | Report(stats: MonthStats)

  /** The page for one child and month: the existence check first, then (only
      if it found history) the month query. */
  function PageFor(existence: CountAnswer, month: Lookup<IntakeRecord>): (p: Page)
    ensures p.NoHistoryEver? <==> !HasAnyHistory(existence)
    ensures p.NoHistoryThisMonth? <==> HasAnyHistory(existence) && !(month.Rows? && |month.rows| > 0)
    ensures p.Report? ==> p.stats.hasHistory && Faithful(p.stats.counts, month.rows)
    ensures p.Report? ==> p.stats == ApplyMonthFetch(month)
  {
    if !HasAnyHistory(existence) then NoHistoryEver
    else
      var stats := ApplyMonthFetch(month);
      if stats.hasHistory then Report(stats) else NoHistoryThisMonth
  }

  /** Without any history the month query's answer is never looked at. */
  lemma NoHistoryIgnoresMonth(existence: CountAnswer, m1: Lookup<IntakeRecord>, m2: Lookup<IntakeRecord>)
    requires !HasAnyHistory(existence)
    ensures PageFor(existence, m1) == PageFor(existence, m2) == NoHistoryEver
  {
  }

  // ---------------------------------------------------------------------
  // The details table and the PDF rows.
  // ---------------------------------------------------------------------

  function HasStatus(s: string): Detail -> bool {
    (d: Detail) => d.status == s
  }

  /** One row of the details table: name, taken counter, and the missed and
      late details (each shown with its count). */
  datatype TableRow = TableRow(name: string, taken: nat, missed: seq<Detail>, late: seq<Detail>)

  function TableRowOf(e: Entry): TableRow {
    TableRow(e.name, e.counts.taken,
             Filter(e.counts.details, HasStatus("missed")),
             Filter(e.counts.details, HasStatus("takenLate")))
  }

  function TableRows(agg: Aggregation): (rows: seq<TableRow>)
    ensures |rows| == |agg|
    ensures forall i :: 0 <= i < |agg| ==> rows[i] == TableRowOf(agg[i])
  {
    seq(|agg|, i requires 0 <= i < |agg| => TableRowOf(agg[i]))
  }

  /** Filtering a medicine's details by a status counts exactly the records
      that the matching counter counted. */
  lemma {:induction false} FilterDetailsCounts(rs: seq<IntakeRecord>, name: string, s: string, k: StatusKind)
    requires (s, k) == ("missed", Missed) || (s, k) == ("takenLate", TakenLate)
    ensures |Filter(DetailsFor(rs, name), HasStatus(s))| == CountFor(rs, name, k)
  {
    if |rs| > 0 {
      var pre := rs[..|rs| - 1];
      var r := rs[|rs| - 1];
      FilterDetailsCounts(pre, name, s, k);
      if r.medicineName == name {
        FilterAppend(DetailsFor(pre, name), [DetailOf(r)], HasStatus(s));
      }
    }
  }

  /** In the table the missed (late) list of a medicine has exactly as many
      entries as its missed (late) counter, and rows follow the keys. */
  lemma TableMatchesCounters(rs: seq<IntakeRecord>, i: nat)
    requires i < |Aggregate(rs)|
    ensures |FirstOccurrences(rs)| == |Aggregate(rs)|
    ensures TableRows(Aggregate(rs))[i].name == FirstOccurrences(rs)[i]
    ensures TableRows(Aggregate(rs))[i].taken == Aggregate(rs)[i].counts.taken
    ensures |TableRows(Aggregate(rs))[i].missed| == Aggregate(rs)[i].counts.missed
    ensures |TableRows(Aggregate(rs))[i].late| == Aggregate(rs)[i].counts.late
  {
    var e := Aggregate(rs)[i];
    AggregateIsFaithful(rs);
    FilterDetailsCounts(rs, e.name, "missed", Missed);
    FilterDetailsCounts(rs, e.name, "takenLate", TakenLate);
  }

  /** `${d.date} ${d.time}` */
  function Stamp(d: Detail): string {
    d.date + " " + d.time
  }

  function Stamps(ds: seq<Detail>): (ss: seq<string>)
    ensures |ss| == |ds|
    ensures forall i :: 0 <= i < |ds| ==> ss[i] == Stamp(ds[i])
  {
    seq(|ds|, i requires 0 <= i < |ds| => Stamp(ds[i]))
  }

  /** `....map(stamp).join("\n") || "-"`: the dash appears exactly when there
      is nothing to list. */
  function ListText(ds: seq<Detail>): (t: string)
    ensures t == "-" <==> |ds| == 0
  {
    var joined := Join(Stamps(ds), "\n");
    StampsJoinIsNotDash(ds);
    if joined == "" then "-" else joined
  }

  /** A joined list of stamps is never empty and never a lone dash, since
      every stamp holds a space. */
  lemma StampsJoinIsNotDash(ds: seq<Detail>)
    ensures |ds| > 0 ==> Join(Stamps(ds), "\n") != "" && Join(Stamps(ds), "\n") != "-"
  {
    if |ds| > 0 {
      var joined := Join(Stamps(ds), "\n");
      JoinHoldsFirst(Stamps(ds), "\n");
      assert joined[|ds[0].date|] == Stamp(ds[0])[|ds[0].date|] == ' ';
    }
  }

  /** One PDF row: name, taken count, and the two "count\nlist" cells. */
  datatype PdfRow = PdfRow(name: string, taken: nat, missedCell: string, lateCell: string)

  function CountCell(ds: seq<Detail>): string {
    NatToDecimal(|ds|) + "\n" + ListText(ds)
  }

  function PdfRowOf(e: Entry): PdfRow {
    PdfRow(e.name, e.counts.taken,
           CountCell(Filter(e.counts.details, HasStatus("missed"))),
           CountCell(Filter(e.counts.details, HasStatus("takenLate"))))
  }

  function PdfRows(agg: Aggregation): (rows: seq<PdfRow>)
    ensures |rows| == |agg|
    ensures forall i :: 0 <= i < |agg| ==> rows[i] == PdfRowOf(agg[i])
  {
    seq(|agg|, i requires 0 <= i < |agg| => PdfRowOf(agg[i]))
  }

  /** The PDF cells print the medicine's own missed and late counters, and
      the list part is "-" exactly when that counter is zero. */
  lemma PdfMatchesCounters(rs: seq<IntakeRecord>, i: nat)
    requires i < |Aggregate(rs)|
    ensures |FirstOccurrences(rs)| == |Aggregate(rs)|
    ensures PdfRows(Aggregate(rs))[i].name == FirstOccurrences(rs)[i]
    ensures PdfRows(Aggregate(rs))[i].taken == Aggregate(rs)[i].counts.taken
    ensures PdfRows(Aggregate(rs))[i].missedCell
            == NatToDecimal(Aggregate(rs)[i].counts.missed) + "\n"
               + ListText(TableRows(Aggregate(rs))[i].missed)
    ensures PdfRows(Aggregate(rs))[i].lateCell
            == NatToDecimal(Aggregate(rs)[i].counts.late) + "\n"
               + ListText(TableRows(Aggregate(rs))[i].late)
    ensures ListText(TableRows(Aggregate(rs))[i].missed) == "-" <==> Aggregate(rs)[i].counts.missed == 0
    ensures ListText(TableRows(Aggregate(rs))[i].late) == "-" <==> Aggregate(rs)[i].counts.late == 0
  {
    TableMatchesCounters(rs, i);
  }
}

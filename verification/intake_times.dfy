/** The daily-intake-time checkboxes shared by the add-medicine form
    (`handleIntakeTimeToggle` in `header.jsx`) and the edit modal of
    `medicinestock.jsx`: clicking a time removes it if present and appends it
    otherwise. */
module IntakeTimes {
  import opened Base

  /** `intakeTimesOptions`, the labels the checkboxes offer. */
  const TimeOptions: seq<string> := ["06:00 AM", "09:00 AM", "12:00 PM", "03:00 PM", "06:00 PM", "09:00 PM"]

  function Other(t: string): string -> bool {
    (x: string) => x != t
  }

  /** The times other than `t`, in their order. */
  function Others(times: seq<string>, t: string): seq<string> {
    Filter(times, Other(t))
  }

  /** `currentTimes.includes(time) ? currentTimes.filter((t) => t !== time)
      : [...currentTimes, time]`. */
  function Toggle(times: seq<string>, t: string): (r: seq<string>)
    ensures t in r <==> t !in times
    ensures forall u :: u != t ==> (u in r <==> u in times)
    ensures t !in times ==> r == times + [t]
  {
    if t in times then Others(times, t) else times + [t]
  }

  lemma {:induction false} OthersOfOthers(times: seq<string>, t: string)
    ensures Others(Others(times, t), t) == Others(times, t)
  {
    if |times| > 0 {
      OthersOfOthers(times[1..], t);
      var rest := Others(times[1..], t);
      if times[0] != t {
        var once := [times[0]] + rest;
        assert Others(times, t) == once;
        assert once[0] == times[0] && once[1..] == rest;
        assert Others(once, t) == [times[0]] + Others(rest, t);
      } else {
        assert Others(times, t) == rest;
      }
    }
  }

  lemma {:induction false} OthersOfFree(times: seq<string>, t: string)
    requires t !in times
    ensures Others(times, t) == times
  {
    if |times| > 0 {
      OthersOfFree(times[1..], t);
      assert [times[0]] + times[1..] == times;
    }
  }

  /** The times other than the toggled one keep their relative order. */
  lemma ToggleKeepsOthers(times: seq<string>, t: string)
    ensures Others(Toggle(times, t), t) == Others(times, t)
  {
    if t in times {
      OthersOfOthers(times, t);
    } else {
      FilterAppend(times, [t], Other(t));
      assert Filter([t], Other(t)) == [];
    }
  }

  lemma {:induction false} FilterKeepsDistinct(s: seq<string>, keep: string -> bool)
    requires Distinct(s)
    ensures Distinct(Filter(s, keep))
  {
    if |s| > 0 {
      FilterKeepsDistinct(s[1..], keep);
      var rest := Filter(s[1..], keep);
      if keep(s[0]) {
        assert s[0] !in s[1..];
        assert s[0] !in rest;
        var r := [s[0]] + rest;
        forall i, j | 0 <= i < j < |r|
          ensures r[i] != r[j]
        {
          if i == 0 {
            assert r[j] == rest[j - 1];
          }
        }
      }
    }
  }

  /** A list without repeated times keeps that property. */
  lemma ToggleKeepsDistinct(times: seq<string>, t: string)
    requires Distinct(times)
    ensures Distinct(Toggle(times, t))
  {
    if t in times {
      FilterKeepsDistinct(times, Other(t));
    }
  }

  /** Two clicks on a time that was not selected leave the list as it was. */
  lemma ToggleTwiceRestores(times: seq<string>, t: string)
    requires t !in times
    ensures Toggle(Toggle(times, t), t) == times
  {
    FilterAppend(times, [t], Other(t));
    assert Filter([t], Other(t)) == [];
    OthersOfFree(times, t);
  }

  /** Two clicks on a selected time move it to the end, deleting any other
      copies of it. */
  lemma ToggleTwiceMovesToEnd(times: seq<string>, t: string)
    requires t in times
    ensures Toggle(Toggle(times, t), t) == Others(times, t) + [t]
  {
  }

  /** The edit modal's handler: a missing (`null`) list is treated as empty
      before toggling. */
  function ToggleOrStart(times: Option<seq<string>>, t: string): (r: seq<string>)
    ensures times.None? ==> r == [t]
    ensures times.Some? ==> r == Toggle(times.value, t)
  {
    Toggle(times.GetOr([]), t)
  }

  /** The selection after clicking the given times in order. */
  function Clicks(times: seq<string>, clicked: seq<string>): seq<string>
    decreases |clicked|
  {
    if |clicked| == 0 then times else Clicks(Toggle(times, clicked[0]), clicked[1..])
  }

  /** Starting from the empty selection of a fresh or reset form, any clicks
      on the offered checkboxes give a selection of offered times without
      repeats. */
  lemma {:induction false} ClicksStayWithinOptions(times: seq<string>, clicked: seq<string>)
    decreases |clicked|
    requires Distinct(times) && forall x :: x in times ==> x in TimeOptions
    requires forall i :: 0 <= i < |clicked| ==> clicked[i] in TimeOptions
    ensures Distinct(Clicks(times, clicked))
    ensures forall x :: x in Clicks(times, clicked) ==> x in TimeOptions
  {
    if |clicked| > 0 {
      ToggleKeepsDistinct(times, clicked[0]);
      ClicksStayWithinOptions(Toggle(times, clicked[0]), clicked[1..]);
    }
  }
}

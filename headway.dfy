/** Headway arithmetic over lists of arrival times (main.py:132-150):
    the midday window, the largest gap and the average gap. */
module Headway {
  import opened Wrappers
  import opened Sorting
  import opened Timetable

  /** The midday window is the open interval from 10:00:00 to 14:00:00. */
  const MiddayStart: int := Timedelta(10)
  const MiddayEnd: int := Timedelta(14)

  function IntLe(x: int, y: int): bool {
    x <= y
  }

  /** The times strictly inside `(begin, end)`, in their original order. */
  function Window(times: seq<int>, begin: int, end: int): seq<int> {
    if times == [] then []
    else (if begin < times[0] < end then [times[0]] else []) + Window(times[1..], begin, end)
  }

  /** The window keeps every time inside it as often as it occurs, and no
      other time. */
  lemma {:induction false} WindowCount(times: seq<int>, begin: int, end: int, x: int)
    ensures multiset(Window(times, begin, end))[x] == if begin < x < end then multiset(times)[x] else 0
  {
    if times != [] {
      assert times == [times[0]] + times[1..];
      WindowCount(times[1..], begin, end, x);
    }
  }

  /** `slice_times`: the times strictly between `begin` and `end`, sorted. */
  function SliceTimes(times: seq<int>, begin: int, end: int): seq<int> {
    SortBy(Window(times, begin, end), IntLe)
  }

  /** The slice is sorted, and every time strictly between `begin` and
      `end` is kept as often as it occurs, and no other. */
  lemma SliceTimesSpec(times: seq<int>, begin: int, end: int)
    ensures forall i, j :: 0 <= i < j < |SliceTimes(times, begin, end)| ==>
              SliceTimes(times, begin, end)[i] <= SliceTimes(times, begin, end)[j]
    ensures forall x :: multiset(SliceTimes(times, begin, end))[x] == if begin < x < end then multiset(times)[x] else 0
  {
    assert TotalPreorder(IntLe);
    SortBySorted(Window(times, begin, end), IntLe);
    forall x ensures multiset(SliceTimes(times, begin, end))[x] == if begin < x < end then multiset(times)[x] else 0 {
      WindowCount(times, begin, end, x);
    }
  }

  /** The gap between the `i`-th time and the next. */
  function Gap(times: seq<int>, i: nat): int
    requires i + 1 < |times|
  {
    times[i + 1] - times[i]
  }

  /** The largest of 0 and the first `k` gaps. */
  function GapMax(times: seq<int>, k: nat): (m: int)
    requires k < |times|
    ensures m >= 0
    ensures forall i :: 0 <= i < k ==> Gap(times, i) <= m
    ensures m == 0 || exists i :: 0 <= i < k && Gap(times, i) == m
  {
    if k == 0 then 0
    else
      var m := GapMax(times, k - 1);
      var t := Gap(times, k - 1);
      if m < t then t else m
  }

  /** The headway `max_headway` promises: None for fewer than two times,
      otherwise the largest gap between consecutive times, and 0 when no
      gap is positive. */
  function MaxGap(times: seq<int>): Option<int> {
    if |times| < 2 then None else Some(GapMax(times, |times| - 1))
  }

  /** The headway is defined exactly for two times or more; it is then
      at least 0, no gap exceeds it, and a positive headway is one of the
      gaps. */
  lemma MaxGapSpec(times: seq<int>)
    ensures MaxGap(times).None? <==> |times| < 2
    ensures MaxGap(times).Some? ==> MaxGap(times).value >= 0
    ensures MaxGap(times).Some? ==> forall i :: 0 <= i < |times| - 1 ==> Gap(times, i) <= MaxGap(times).value
    ensures MaxGap(times).Some? && MaxGap(times).value != 0 ==>
              exists i :: 0 <= i < |times| - 1 && Gap(times, i) == MaxGap(times).value
  {
  }

  /** `max_headway`. */
  method MaxHeadway(times: seq<int>) returns (h: Option<int>)
    ensures h == MaxGap(times)
  {
    if |times| < 2 {
      return None;
    }
    var m := Timedelta(0, 0);
    for i := 0 to |times| - 1
      invariant m == GapMax(times, i)
    {
      var t := times[i + 1] - times[i];
      if m < t {
        m := t;
      }
    }
    return Some(m);
  }

  /** Python's `_divide_and_round`: `a / b` rounded to the nearest
      integer, ties to even (used by `timedelta / int`). */
  function DivideAndRound(a: int, b: int): (q: int)
    requires b > 0
    ensures -b <= 2 * (a - q * b) <= b
    ensures 2 * (a - q * b) == b || 2 * (a - q * b) == -b ==> q % 2 == 0
  {
    var q, r := a / b, a % b;
    assert a == q * b + r && 0 <= r < b;
    if 2 * r > b || (2 * r == b && q % 2 == 1) then
      assert a - (q + 1) * b == r - b;
      q + 1
    else q
  }

  /** `avg_headway`, in microseconds (the unit `timedelta / int` rounds
      to): None for fewer than two times, otherwise the span from the
      first time to the last divided by the number of gaps. */
  method AvgHeadway(times: seq<int>) returns (avg: Option<int>)
    ensures avg.None? <==> |times| < 2
    ensures avg.Some? ==> avg.value == DivideAndRound((times[|times| - 1] - times[0]) * 1000000, |times| - 1)
  {
    if |times| < 2 {
      return None;
    }
    var acc := Timedelta(0);
    for i := 0 to |times| - 1
      invariant acc == times[i] - times[0]
    {
      acc := acc + (times[i + 1] - times[i]);
    }
    return Some(DivideAndRound(acc * 1000000, |times| - 1));
  }
}

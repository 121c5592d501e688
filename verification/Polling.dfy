/** The polling schedule after a manifest is applied, and the length of the pass it is part of. */
module Polling {

  const SHORTEST: int := 120

  // The budget for readiness polling: three quarters of the effective check interval.
  function Budget(configInterval: int): int {
    3 * (if configInterval < SHORTEST then SHORTEST else configInterval) / 4
  }

  // An even share of what is left.
  function Share(rest: int, parts: int): int
    requires parts > 0
  {
    rest / parts
  }

  // A share, but at most twice the wait before it.
  function Capped(previous: int, share: int): int {
    if share > previous * 2 then previous * 2 else share
  }

  function Intervals(configInterval: int): (waits: seq<int>)
    ensures |waits| == 5
  {
    var w := Budget(configInterval);
    var each := w / 5;
    if each <= SHORTEST then [each, each, each, each, each]
    else
      var b := Capped(SHORTEST, Share(w - SHORTEST, 4));
      var c := Capped(b, Share(w - SHORTEST - b, 3));
      var d := Capped(c, Share(w - SHORTEST - b - c, 2));
      [SHORTEST, b, c, d, w - SHORTEST - b - c - d]
  }

  // The total of the first n waits.
  function Total(waits: seq<int>, n: nat): int
    requires n <= |waits|
  {
    if n == 0 then 0 else Total(waits, n - 1) + waits[n - 1]
  }

  // The long schedule, wait by wait: from 120 each wait is a capped even share of what is
  // left, and the last takes the rest.
  lemma LongSchedule(configInterval: int, i: nat)
    requires Budget(configInterval) / 5 > SHORTEST && 0 < i < 4
    ensures var x, w := Intervals(configInterval), Budget(configInterval);
      && x[0] == SHORTEST == Total(x, 1)
      && x[i] == Capped(x[i - 1], Share(w - Total(x, i), 5 - i))
      && Total(x, i + 1) == Total(x, i) + x[i]
      && x[4] == w - Total(x, 4)
  {
    var x := Intervals(configInterval);
    TotalsUnfold(x);
    hide Total;
  }

  lemma TotalsUnfold(waits: seq<int>)
    requires |waits| == 5
    ensures Total(waits, 0) == 0 && Total(waits, 1) == waits[0]
    ensures Total(waits, 2) == waits[0] + waits[1]
    ensures Total(waits, 3) == waits[0] + waits[1] + waits[2]
    ensures Total(waits, 4) == waits[0] + waits[1] + waits[2] + waits[3]
    ensures Total(waits, 5) == waits[0] + waits[1] + waits[2] + waits[3] + waits[4]
  {
    assert Total(waits, 0) == 0;
    assert Total(waits, 1) == waits[0];
    assert Total(waits, 2) == waits[0] + waits[1];
    assert Total(waits, 3) == waits[0] + waits[1] + waits[2];
  }

  // The growing waits, filled in place.
  method FillLongSchedule(configInterval: int, checkIntervals: array<int>)
    requires Budget(configInterval) / 5 > SHORTEST && checkIntervals.Length == 5
    modifies checkIntervals
    ensures checkIntervals[..] == Intervals(configInterval)
  {
    ghost var model := Intervals(configInterval);
    var waitApplyingTimeSeconds := Budget(configInterval);
    checkIntervals[0] := 120;
    var totalWait := checkIntervals[0];
    LongSchedule(configInterval, 1);
    hide Intervals, Total, Share, Budget;
    for i := 1 to 4
      invariant forall k :: 0 <= k < i ==> checkIntervals[k] == model[k]
      invariant totalWait == Total(model, i)
    {
      LongSchedule(configInterval, i);
      var restWait := waitApplyingTimeSeconds - totalWait;
      var newInterval := Share(restWait, 5 - i);
      if newInterval > checkIntervals[i - 1] * 2 {
        checkIntervals[i] := checkIntervals[i - 1] * 2;
      } else {
        checkIntervals[i] := newInterval;
      }
      totalWait := totalWait + checkIntervals[i];
    }
    checkIntervals[4] := waitApplyingTimeSeconds - totalWait;
  }

  method GetIntervals(configInterval: int) returns (checkIntervals: array<int>)
    ensures fresh(checkIntervals)
    ensures checkIntervals[..] == Intervals(configInterval)
  {
    var waitApplyingTimeSeconds := Budget(configInterval);
    var each := waitApplyingTimeSeconds / 5;
    checkIntervals := new int[] [each, each, each, each, each];
    if each > 120 {
      FillLongSchedule(configInterval, checkIntervals);
    }
  }

  // Conservation, in the effective interval c: the waits add up to exactly three quarters of it
  // in the long schedule, and miss that by less than five seconds in the even one.
  lemma IntervalsConserveBudget(configInterval: int)
    ensures var c, total := if configInterval < 120 then 120 else configInterval, Total(Intervals(configInterval), 5);
      && total == (if 3 * c / 4 / 5 > 120 then 3 * c / 4 else 3 * c / 4 / 5 * 5)
      && 3 * c - 19 <= 4 * total <= 3 * c
  {
    TotalsUnfold(Intervals(configInterval));
  }

  // The schedule, for every interval: even when a fifth of the budget is at most 120; else
  // 120 seconds, then three times the longest wait that is at most twice the one before and
  // at most an even share of what is left, and last the rest.
  lemma IntervalsAreLongest(configInterval: int)
    ensures var c, x := if configInterval < 120 then 120 else configInterval, Intervals(configInterval);
      var w := 3 * c / 4;
      if w / 5 <= 120 then forall i :: 0 <= i < 5 ==> x[i] == w / 5
      else
        && x[0] == 120 && x[0] + x[1] + x[2] + x[3] + x[4] == w
        && IsLongest(x[1], 2 * x[0], w - x[0], 4)
        && IsLongest(x[2], 2 * x[1], w - x[0] - x[1], 3)
        && IsLongest(x[3], 2 * x[2], w - x[0] - x[1] - x[2], 2)
  {
    var w := Budget(configInterval);
    if w / 5 > SHORTEST {
      var x := Intervals(configInterval);
      CappedShareIsLongest(x[0], w - x[0], 4);
      CappedShareIsLongest(x[1], w - x[0] - x[1], 3);
      CappedShareIsLongest(x[2], w - x[0] - x[1] - x[2], 2);
    }
  }

  // The longest wait of at most `most` that `parts` times fits into `rest`.
  predicate IsLongest(wait: int, most: int, rest: int, parts: int) {
    && wait <= most && wait * parts <= rest
    && (wait == most || (wait + 1) * parts > rest)
  }

  lemma CappedShareIsLongest(previous: int, rest: int, parts: int)
    requires parts > 0
    ensures IsLongest(Capped(previous, Share(rest, parts)), 2 * previous, rest, parts)
  {
    var share := Share(rest, parts);
    assert rest == share * parts + rest % parts;
    assert (share + 1) * parts == share * parts + parts;
    var wait := Capped(previous, share);
    assert wait * parts <= share * parts;
  }

  // Shape: no wait is shorter than 18 seconds, the waits never shrink, and none but the
  // last is more than twice the one before it.
  lemma IntervalsShape(configInterval: int)
    ensures var x := Intervals(configInterval);
      && 18 <= x[0] <= SHORTEST
      && (forall i :: 0 < i < 5 ==> x[i - 1] <= x[i])
      && (forall i :: 0 < i < 4 ==> x[i] <= 2 * x[i - 1])
  {
    var x, w := Intervals(configInterval), Budget(configInterval);
    assert w >= 90;
    if w / 5 > SHORTEST {
      assert x[1] <= (w - x[0]) / 4;
      assert x[2] <= (w - x[0] - x[1]) / 3;
      assert x[3] <= (w - x[0] - x[1] - x[2]) / 2;
    }
  }

  // In the long schedule the last four waits are an even split of what the first leaves,
  // exactly when the doubling cap does not bind at once.
  lemma EvenSplitExactlyWithoutCap(configInterval: int)
    requires 3 * configInterval / 4 / 5 > 120
    ensures var x := Intervals(configInterval);
      x[4] - x[1] <= 1 <==> (3 * configInterval / 4 - 120) / 4 <= 240
  {
  }

  // Every partial total of the waits is within the budget.
  lemma PartialTotals(configInterval: int, n: nat)
    requires n <= 5
    ensures 0 <= Total(Intervals(configInterval), n) <= Total(Intervals(configInterval), 5) <= Budget(configInterval)
  {
    var x := Intervals(configInterval);
    IntervalsShape(configInterval);
    IntervalsConserveBudget(configInterval);
    TotalsUnfold(x);
    hide Intervals, Total;
    assert forall i :: 0 <= i < 5 ==> x[i] >= 18;
    assert n == 0 || n == 1 || n == 2 || n == 3 || n == 4 || n == 5;
  }

  // time.Sleep returns at once on a negative duration.
  function Slept(seconds: int): nat {
    if seconds < 0 then 0 else seconds
  }

  // The length of a pass that polled n times: the polling waits and the final sleep.
  function PassLength(configInterval: int, n: nat): int
    requires n <= 5
  {
    var polled := Total(Intervals(configInterval), n);
    polled + Slept(configInterval - polled)
  }

  // A pass that may poll lasts exactly the check interval however early the polling stops, if
  // and only if that interval is at least 90 seconds. A reloaded interval is at least 120
  // outside development mode; development mode does not raise it.
  lemma CadenceExactlyFrom90(configInterval: int)
    ensures (forall n: nat :: n <= 5 ==> PassLength(configInterval, n) == configInterval)
       <==> configInterval >= 90
  {
    if configInterval >= 90 {
      forall n: nat | n <= 5 ensures PassLength(configInterval, n) == configInterval {
        PartialTotals(configInterval, n);
      }
    } else {
      IntervalsConserveBudget(configInterval);
      assert Budget(configInterval) == 90;
      assert PassLength(configInterval, 5) > configInterval;
    }
  }

  // With an interval of at least 120 a quarter of it is always left for the final sleep.
  lemma FinalSleepIsAQuarter(configInterval: int, n: nat)
    requires configInterval >= SHORTEST && n <= 5
    ensures var rest := Slept(configInterval - Total(Intervals(configInterval), n));
      4 * rest >= configInterval && rest >= 30
  {
    PartialTotals(configInterval, n);
  }
}

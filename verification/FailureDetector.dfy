/** The accrual failure detector. Times are nanoseconds after Go's zero time. */
module FailureDetector {
  import opened Strconv

  // ---------- A plain sliding window ----------

  function Sum(s: seq<int>): int {
    if s == [] then 0 else Sum(s[..|s| - 1]) + s[|s| - 1]
  }

  /** The last `size` elements, or all of them if there are fewer. */
  function Window(s: seq<int>, size: nat): seq<int> {
    if |s| <= size then s else s[|s| - size..]
  }

  lemma {:induction false} SumHead(s: seq<int>)
    requires s != []
    ensures Sum(s) == s[0] + Sum(s[1..])
    decreases |s|
  {
    if |s| > 1 {
      SumHead(s[..|s| - 1]);
      assert s[..|s| - 1][1..] == s[1..][..|s[1..]| - 1];
    } else {
      assert s[..0] == s[1..] == [];
    }
  }

  /** Sliding the window on takes in the new element and lets go of the oldest. */
  lemma WindowSlides(s: seq<int>, x: int, size: nat)
    requires size >= 1
    ensures Sum(Window(s + [x], size)) == Sum(Window(s, size)) + x - if |s| >= size then s[|s| - size] else 0
  {
    var w := Window(s, size);
    if |s| >= size {
      assert w[0] == s[|s| - size] && Window(s + [x], size) == w[1..] + [x];
      SumHead(w);
      assert (w[1..] + [x])[..size - 1] == w[1..];
    } else {
      assert (s + [x])[..|s|] == s;
    }
  }

  /** The mean and the suspicion level are exact fractions. */
  datatype Fraction = Fraction(num: int, den: nat)

  /** The mean over the window; 0 before anything was added. */
  function Mean(s: seq<int>, size: nat): Fraction {
    var w := Window(s, size);
    if w == [] then Fraction(0, 1) else Fraction(Sum(w), |w|)
  }

  // ---------- The ring buffer ----------

  /** The buffer holds the last elements of `added`, the newest just before `index`. */
  ghost predicate Ring(buf: seq<int>, index: nat, isFull: bool, added: seq<int>) {
    var n, h := |buf|, |added|;
    && index <= n && index <= h && (if isFull then n <= h else index == h)
    && (forall i :: 0 <= i < index ==> buf[i] == added[h - index + i])
    && (isFull ==> forall i :: index <= i < n ==> buf[i] == added[h - n - index + i])
  }

  lemma RingWraps(buf: seq<int>, isFull: bool, added: seq<int>)
    requires Ring(buf, |buf|, isFull, added)
    ensures Ring(buf, 0, true, added)
  {
  }

  lemma RingAdds(buf: seq<int>, index: nat, isFull: bool, added: seq<int>, x: int)
    requires Ring(buf, index, isFull, added) && index < |buf|
    ensures Ring(buf[index := x], index + 1, isFull, added + [x])
    ensures isFull ==> |added| >= |buf| && buf[index] == added[|added| - |buf|]
  {
  }

  /** Adding at the end of the buffer wraps around first. */
  lemma RingNext(buf: seq<int>, index: nat, isFull: bool, added: seq<int>, x: int)
    requires Ring(buf, index, isFull, added) && |buf| >= 1
    ensures var i, f := if index == |buf| then 0 else index, isFull || index == |buf|;
      && Ring(buf[i := x], i + 1, f, added + [x])
      && f == (|added| >= |buf|) && (f ==> buf[i] == added[|added| - |buf|])
      && |Window(added + [x], |buf|)| == if f then |buf| else i + 1
  {
    if index == |buf| {
      RingWraps(buf, isFull, added);
      RingAdds(buf, 0, true, added, x);
    } else {
      RingAdds(buf, index, isFull, added, x);
    }
  }

  /** The totals are the window's. */
  ghost predicate Totals(sum: int, mean: Fraction, added: seq<int>, size: nat) {
    sum == Sum(Window(added, size)) && mean == Mean(added, size)
  }

  lemma TotalsNext(sum: int, mean: Fraction, added: seq<int>, size: nat, x: int, sum': int, count: nat)
    requires Totals(sum, mean, added, size) && size >= 1
    requires sum' == sum + x - if |added| >= size then added[|added| - size] else 0
    requires count == |Window(added + [x], size)|
    ensures count > 0 && Totals(sum', Fraction(sum', count), added + [x], size)
  {
    WindowSlides(added, x, size);
  }

  class ArrivalIntervals {
    const intervals: array<int>
    var index: nat
    var isFull: bool
    var sum: int
    var mean: Fraction
    /** Everything added so far. */
    ghost var added: seq<int>

    /** The buffer holds the window, and the totals are the window's. */
    ghost predicate Valid()
      reads this, intervals
    {
      && Ring(intervals[..], index, isFull, added)
      && Totals(sum, mean, added, intervals.Length)
    }

    constructor (sampleSize: nat)
      ensures Valid() && fresh(intervals) && intervals.Length == sampleSize && added == []
    {
      intervals := new int[sampleSize];
      index, isFull, sum, mean, added := 0, false, 0, Fraction(0, 1), [];
    }

    method Add(interval: int)
      requires Valid() && intervals.Length >= 1
      modifies this, intervals
      ensures Valid() && added == old(added) + [interval]
    {
      Put(interval);
      TotalsNext(old(sum), mean, old(added), intervals.Length, interval, sum, Size());
      mean := Fraction(sum, Size());
    }

    /** Everything but the mean. */
    method Put(interval: int)
      requires Ring(intervals[..], index, isFull, added) && intervals.Length >= 1
      modifies this, intervals
      ensures Ring(intervals[..], index, isFull, added) && added == old(added) + [interval]
      ensures Size() == |Window(added, intervals.Length)| && mean == old(mean)
      ensures var h, n := |old(added)|, intervals.Length;
        sum == old(sum) + interval - if h >= n then old(added)[h - n] else 0
    {
      ghost var buf := intervals[..];
      RingNext(buf, index, isFull, added, interval);
      if index == intervals.Length {
        index, isFull := 0, true;
      }
      if isFull {
        sum := sum - intervals[index];
      }
      intervals[index] := interval;
      assert intervals[..] == buf[index := interval];
      index := index + 1;
      sum := sum + interval;
      added := added + [interval];
    }

    function Size(): nat
      reads this
    {
      if isFull then intervals.Length else index
    }
  }

  // ---------- The arrival window of one node ----------

  /** The latest report, or the zero time. */
  function Last(ts: seq<int>): int {
    if ts == [] then 0 else ts[|ts| - 1]
  }

  /** The intervals recorded for a node whose messages arrived at `ts`: the first is the bootstrap interval,
      and so is every interval after a zero timestamp. */
  function Intervals(boot: int, ts: seq<int>): seq<int> {
    seq(|ts|, i requires 0 <= i < |ts| => if i > 0 && ts[i - 1] > 0 then ts[i] - ts[i - 1] else boot)
  }

  lemma IntervalsNext(boot: int, ts: seq<int>, t: int)
    ensures Last(ts + [t]) == t
    ensures Intervals(boot, ts + [t]) == Intervals(boot, ts) + [if Last(ts) > 0 then t - Last(ts) else boot]
  {
  }

  /** The suspicion level at `t`; None where the program panics. */
  function Level(boot: int, size: nat, ts: seq<int>, t: int): Option<Fraction> {
    var mean := Mean(Intervals(boot, ts), size);
    if Last(ts) > 0 && mean.num > 0 then Some(Fraction((t - Last(ts)) * mean.den, mean.num)) else None
  }

  class ArrivalWindow {
    var lastTimestamp: int
    const intervals: ArrivalIntervals
    const bootstrapInterval: int
    /** The reports so far. */
    ghost var reports: seq<int>

    ghost function Repr(): set<object> {
      {this, intervals, intervals.intervals}
    }

    ghost predicate Valid()
      reads Repr()
    {
      && intervals.Valid() && lastTimestamp == Last(reports)
      && intervals.added == Intervals(bootstrapInterval, reports)
    }

    constructor (bootstrapInterval: int, sampleSize: nat)
      ensures fresh(intervals) && fresh(intervals.intervals) && reports == []
      ensures Valid()
      ensures this.bootstrapInterval == bootstrapInterval && intervals.intervals.Length == sampleSize
    {
      var fresh' := new ArrivalIntervals(sampleSize);
      intervals := fresh';
      lastTimestamp, reports := 0, [];
      this.bootstrapInterval := bootstrapInterval;
      new;
      assert intervals.Valid() && intervals.added == [];
    }

    /** Panics before any sample arrived, and whenever the mean is not positive. */
    function Phi(timestamp: int): (level: Option<Fraction>)
      requires Valid()
      reads this, intervals, intervals.intervals
      ensures level == Level(bootstrapInterval, intervals.intervals.Length, reports, timestamp)
    {
      if !(lastTimestamp > 0 && intervals.mean.num > 0) then None
      else
        var deltaSinceLast := timestamp - lastTimestamp;
        Some(Fraction(deltaSinceLast * intervals.mean.den, intervals.mean.num))
    }

    lemma Next(timestamp: int, interval: int) returns (next: seq<int>, gaps: seq<int>)
      requires Valid() && interval == if lastTimestamp > 0 then timestamp - lastTimestamp else bootstrapInterval
      ensures next == reports + [timestamp] && gaps == intervals.added + [interval]
      ensures gaps == Intervals(bootstrapInterval, next) && Last(next) == timestamp
    {
      next, gaps := reports + [timestamp], intervals.added + [interval];
      IntervalsNext(bootstrapInterval, reports, timestamp);
    }

    method Add(timestamp: int)
      requires Valid() && intervals.intervals.Length >= 1
      modifies Repr()
      ensures Valid() && reports == old(reports) + [timestamp]
    {
      var interval := if lastTimestamp > 0 then timestamp - lastTimestamp else bootstrapInterval;
      ghost var next, gaps := Next(timestamp, interval);
      intervals.Add(interval);
      assert intervals.added == gaps;
      lastTimestamp := timestamp;
      reports := next;
    }
  }

  // ---------- The detector ----------

  type Reports = map<string, seq<int>>

  function Reported(rs: Reports, id: string, t: int): Reports {
    rs[id := (if id in rs then rs[id] else []) + [t]]
  }

  /** Asking about a node that was never heard of starts a window for it. */
  function Asked(rs: Reports, id: string, t: int): Reports {
    if id in rs then rs else Reported(rs, id, t)
  }

  class AccrualFailureDetector {
    var windows: map<string, ArrivalWindow>
    const bootstrapInterval: int
    const sampleSize: nat
    /** When each node in `windows` was heard of. */
    ghost var reports: Reports

    ghost function Footprint(): set<object>
      reads this
    {
      set id, o | id in windows && o in windows[id].Repr() :: o
    }

    /** The windows were made by this detector and share nothing. */
    ghost predicate Shaped(id: string)
      reads this
    {
      id in windows ==>
        && this !in windows[id].Repr() && windows[id].bootstrapInterval == bootstrapInterval
        && windows[id].intervals.intervals.Length == sampleSize
    }

    ghost predicate Apart(id: string, other: string)
      reads this
    {
      id in windows && other in windows && id != other ==> windows[id].Repr() !! windows[other].Repr()
    }

    ghost predicate Holds(id: string)
      reads this, Footprint()
    {
      id in windows ==> windows[id].Valid() && id in reports && windows[id].reports == reports[id]
    }

    ghost predicate Valid()
      reads this, Footprint()
    {
      && reports.Keys == windows.Keys && sampleSize >= 1
      && (forall id :: Shaped(id)) && (forall id, other :: Apart(id, other)) && (forall id :: Holds(id))
    }

    /** The sample size must be positive: adding to an empty buffer panics. */
    constructor (bootstrapInterval: int, sampleSize: nat)
      requires sampleSize >= 1
      ensures Valid() && reports == map[]
      ensures this.bootstrapInterval == bootstrapInterval && this.sampleSize == sampleSize
    {
      windows, reports := map[], map[];
      this.bootstrapInterval, this.sampleSize := bootstrapInterval, sampleSize;
    }

    method ReportWithTimestamp(nodeID: string, timestamp: int)
      requires Valid()
      modifies this, Footprint()
      ensures Valid() && reports == Reported(old(reports), nodeID, timestamp)
    {
      if nodeID !in windows {
        Track(nodeID);
      }
      Record(nodeID, timestamp);
    }

    /** Starts a window for a node that has none. */
    method Track(nodeID: string)
      requires Valid() && nodeID !in windows
      modifies this
      ensures Valid() && reports == old(reports)[nodeID := []]
      ensures windows.Keys == old(windows).Keys + {nodeID} && fresh(windows[nodeID])
      ensures fresh(windows[nodeID].intervals) && fresh(windows[nodeID].intervals.intervals)
      ensures forall id :: id in old(windows) ==> windows[id] == old(windows)[id]
    {
      var window := new ArrivalWindow(bootstrapInterval, sampleSize);
      windows, reports := windows[nodeID := window], reports[nodeID := []];
      forall id ensures Shaped(id) && Holds(id) { assert old(Shaped(id)) && old(Holds(id)); }
      forall id, other ensures Apart(id, other) { assert old(Apart(id, other)); }
    }

    /** Adds to the window of a node that has one. */
    method Record(nodeID: string, timestamp: int)
      requires Valid() && nodeID in windows
      modifies this`reports, windows[nodeID].Repr()
      ensures Valid() && reports == Reported(old(reports), nodeID, timestamp)
    {
      assert Shaped(nodeID) && Holds(nodeID);
      windows[nodeID].Add(timestamp);
      reports := reports[nodeID := reports[nodeID] + [timestamp]];
      forall id ensures Shaped(id) && Holds(id) {
        assert old(Shaped(id)) && old(Holds(id)) && old(Apart(id, nodeID));
      }
      forall id, other ensures Apart(id, other) { assert old(Apart(id, other)); }
    }

    method SuspicionLevelAt(nodeID: string, timestamp: int) returns (level: Option<Fraction>)
      requires Valid()
      modifies this, Footprint()
      ensures Valid() && reports == Asked(old(reports), nodeID, timestamp)
      ensures level == Level(bootstrapInterval, sampleSize, reports[nodeID], timestamp)
    {
      if nodeID !in windows {
        ReportWithTimestamp(nodeID, timestamp);
      }
      assert Shaped(nodeID) && Holds(nodeID);
      level := windows[nodeID].Phi(timestamp);
    }

    method Remove(nodeID: string)
      requires Valid()
      modifies this
      ensures Valid() && reports == old(reports) - {nodeID}
    {
      windows, reports := windows - {nodeID}, reports - {nodeID};
      forall id ensures Shaped(id) && Holds(id) { assert old(Shaped(id)) && old(Holds(id)); }
      forall id, other ensures Apart(id, other) { assert old(Apart(id, other)); }
    }
  }

  // ---------- When the level panics ----------

  predicate Positive(ts: seq<int>) {
    forall i :: 0 <= i < |ts| ==> ts[i] > 0
  }

  /** What the window adds up to. */
  function Span(boot: int, ts: seq<int>, size: nat): int
    requires ts != []
  {
    if |ts| <= size then boot + Last(ts) - ts[0] else Last(ts) - ts[|ts| - 1 - size]
  }

  lemma SpanNext(boot: int, ts: seq<int>, t: int, size: nat)
    requires size >= 1 && ts != [] && Positive(ts)
    ensures var gaps, h := Intervals(boot, ts), |ts|;
      Span(boot, ts + [t], size) == Span(boot, ts, size) + t - Last(ts) - if h >= size then gaps[h - size] else 0
  {
  }

  /** The intervals in the window telescope to the time since the report before it, or to the time since the
      first report and the bootstrap interval. */
  lemma {:induction false} Telescopes(boot: int, ts: seq<int>, size: nat)
    requires size >= 1 && ts != [] && Positive(ts)
    ensures Sum(Window(Intervals(boot, ts), size)) == Span(boot, ts, size)
    decreases |ts|
  {
    var init, t := ts[..|ts| - 1], ts[|ts| - 1];
    assert ts == init + [t];
    IntervalsNext(boot, init, t);
    WindowSlides(Intervals(boot, init), if Last(init) > 0 then t - Last(init) else boot, size);
    if init == [] {
      assert Window(Intervals(boot, init), size) == [];
    } else {
      Telescopes(boot, init, size);
      SpanNext(boot, init, t, size);
    }
  }

  /** With positive timestamps, asking panics exactly when the window adds up to nothing: when it is full and
      the latest report came no later than the one before the window, or, while it is filling, when the clock
      went back by at least the bootstrap interval. */
  lemma PanicsIff(boot: int, size: nat, ts: seq<int>, t: int)
    requires size >= 1 && ts != [] && Positive(ts)
    ensures Level(boot, size, ts, t).None? <==>
      if |ts| <= size then boot + Last(ts) <= ts[0] else Last(ts) <= ts[|ts| - 1 - size]
  {
    Telescopes(boot, ts, size);
    assert Window(Intervals(boot, ts), size) != [];
  }

  /** Two reports at the same time, with a sample size of one. */
  lemma EqualTimestampsPanic(boot: int, t: int)
    requires t > 0
    ensures Level(boot, 1, [t, t], t).None?
  {
    PanicsIff(boot, 1, [t, t], t);
  }

  // ---------- What the level is ----------

  lemma MeanIs(boot: int, size: nat, ts: seq<int>)
    requires size >= 1 && ts != [] && Positive(ts)
    ensures Mean(Intervals(boot, ts), size) == Fraction(Span(boot, ts, size), if |ts| <= size then |ts| else size)
  {
    Telescopes(boot, ts, size);
    assert |Window(Intervals(boot, ts), size)| == if |ts| <= size then |ts| else size;
  }

  /** The level is the time since the last report, over the mean: what the window adds up to, divided by how many
      intervals it holds. */
  lemma LevelIs(boot: int, size: nat, ts: seq<int>, t: int)
    requires size >= 1 && ts != [] && Positive(ts) && Level(boot, size, ts, t).Some?
    ensures var l, n := Level(boot, size, ts, t).value, if |ts| <= size then |ts| else size;
      l.den > 0 && l.num * Span(boot, ts, size) == (t - Last(ts)) * n * l.den
  {
    MeanIs(boot, size, ts);
  }

  /** The fraction is above `n`. */
  predicate Exceeds(f: Fraction, n: int) {
    f.num > n * f.den
  }

  /** The reports came `p` apart. */
  predicate Steady(ts: seq<int>, p: int) {
    forall i :: 0 < i < |ts| ==> ts[i] - ts[i - 1] == p
  }

  lemma {:induction false} SteadyApart(ts: seq<int>, p: int, i: nat, n: nat)
    requires Steady(ts, p) && i + n < |ts|
    ensures ts[i + n] - ts[i] == n * p
  {
    if n > 0 { SteadyApart(ts, p, i, n - 1); }
  }

  lemma Cancel(k: int, a: int, b: int)
    requires k > 0 && k * a == k * b
    ensures a == b
  {
  }

  lemma TimesLess(k: int, a: int, b: int)
    requires k > 0
    ensures a < b <==> a * k < b * k
  {
  }

  lemma CrossLess(num: int, den: nat, gap: int, p: int, n: int)
    requires den > 0 && p > 0 && num * p == gap * den
    ensures num > n * den <==> gap > n * p
  {
    TimesLess(p, n * den, num);
    TimesLess(den, n * p, gap);
    assert n * den * p == n * p * den;
  }

  lemma CrossMultiplied(num: int, den: nat, gap: int, span: int, p: int, size: nat, n: int)
    requires den > 0 && size > 0 && p > 0 && span == size * p && num * span == gap * size * den
    ensures num > n * den <==> gap > n * p
  {
    assert size * (num * p) == num * span && size * (gap * den) == gap * size * den;
    Cancel(size, num * p, gap * den);
    CrossLess(num, den, gap, p, n);
  }

  lemma SteadySpan(boot: int, size: nat, ts: seq<int>, p: int)
    requires size >= 1 && |ts| > size && Steady(ts, p) && p > 0
    ensures Span(boot, ts, size) == size * p > 0
  {
    SteadyApart(ts, p, |ts| - 1 - size, size);
  }

  lemma FullLevel(boot: int, size: nat, ts: seq<int>, t: int)
    requires size >= 1 && |ts| > size && Positive(ts) && Span(boot, ts, size) > 0
    ensures var l := Level(boot, size, ts, t);
      l.Some? && l.value.den > 0 && l.value.num * Span(boot, ts, size) == (t - Last(ts)) * size * l.value.den
  {
    PanicsIff(boot, size, ts, t);
    LevelIs(boot, size, ts, t);
  }

  /** When the reports come `p` apart and the window is full, the level exceeds `n` exactly when nothing was heard
      for more than `n` such times. */
  lemma SteadyExceedsIff(boot: int, size: nat, ts: seq<int>, t: int, p: int, n: int)
    requires size >= 1 && |ts| > size && Positive(ts) && Steady(ts, p) && p > 0
    ensures var l := Level(boot, size, ts, t); l.Some? && (Exceeds(l.value, n) <==> t - Last(ts) > n * p)
  {
    SteadySpan(boot, size, ts, p);
    FullLevel(boot, size, ts, t);
    var l := Level(boot, size, ts, t).value;
    CrossMultiplied(l.num, l.den, t - Last(ts), Span(boot, ts, size), p, size, n);
  }

  lemma CrossOrdered(n1: int, d1: nat, n2: int, d2: nat, g1: int, g2: int, span: int, k: nat)
    requires d1 > 0 && d2 > 0 && span > 0 && k > 0 && g1 < g2
    requires n1 * span == g1 * k * d1 && n2 * span == g2 * k * d2
    ensures n1 * d2 < n2 * d1
  {
    assert span * (n1 * d2) == (g1 * k) * (d1 * d2) && span * (n2 * d1) == (g2 * k) * (d1 * d2);
    assert g1 * k < g2 * k && d1 * d2 > 0;
    assert (g1 * k) * (d1 * d2) < (g2 * k) * (d1 * d2);
  }

  /** The longer a node is silent the higher its level. */
  lemma LevelRises(boot: int, size: nat, ts: seq<int>, t: int, later: int)
    requires size >= 1 && ts != [] && Positive(ts) && t < later && Level(boot, size, ts, t).Some?
    ensures var l := Level(boot, size, ts, later);
      l.Some? && Level(boot, size, ts, t).value.num * l.value.den < l.value.num * Level(boot, size, ts, t).value.den
  {
    PanicsIff(boot, size, ts, t);
    PanicsIff(boot, size, ts, later);
    LevelIs(boot, size, ts, t);
    LevelIs(boot, size, ts, later);
    var l, l' := Level(boot, size, ts, t).value, Level(boot, size, ts, later).value;
    CrossOrdered(l.num, l.den, l'.num, l'.den, t - Last(ts), later - Last(ts), Span(boot, ts, size),
                 if |ts| <= size then |ts| else size);
  }

  // ---------- Whole runs ----------

  datatype Call = Report(id: string, at: int) | Ask(id: string, at: int) | Remove(id: string)

  function After(rs: Reports, c: Call): Reports {
    match c
    case Report(id, t) => Reported(rs, id, t)
    case Ask(id, t) => Asked(rs, id, t)
    case Remove(id) => rs - {id}
  }

  /** Every time that is recorded for a node is later than the one recorded before it. Questions about a node
      that is already tracked may come at any time. */
  predicate Ticks(rs: Reports, calls: seq<Call>)
    decreases |calls|
  {
    calls == [] || (Later(rs, calls[0]) && Ticks(After(rs, calls[0]), calls[1..]))
  }

  predicate Later(rs: Reports, c: Call) {
    match c
    case Report(id, t) => t > if id in rs then Last(rs[id]) else 0
    case Ask(id, t) => id in rs || t > 0
    case Remove(_) => true
  }

  predicate NeverPanics(boot: int, size: nat, rs: Reports, calls: seq<Call>)
    decreases |calls|
  {
    calls == [] ||
    var rs' := After(rs, calls[0]);
    && (calls[0].Ask? ==> Level(boot, size, rs'[calls[0].id], calls[0].at).Some?)
    && NeverPanics(boot, size, rs', calls[1..])
  }

  predicate Increasing(ts: seq<int>) {
    forall i, j :: 0 <= i < j < |ts| ==> ts[i] < ts[j]
  }

  predicate Heard(rs: Reports) {
    forall id :: id in rs ==> rs[id] != [] && Positive(rs[id]) && Increasing(rs[id])
  }

  lemma IncreasingIsSafe(boot: int, size: nat, ts: seq<int>, t: int)
    requires boot > 0 && size >= 1 && ts != [] && Positive(ts) && Increasing(ts)
    ensures Level(boot, size, ts, t).Some?
  {
    PanicsIff(boot, size, ts, t);
    assert |ts| > 1 ==> ts[0] < Last(ts);
  }

  lemma HeardAfter(rs: Reports, c: Call)
    requires Heard(rs) && Later(rs, c)
    ensures Heard(After(rs, c))
  {
  }

  /** With a positive bootstrap interval and reports that move on for each node, no run of calls panics. */
  lemma {:induction false} RunsNeverPanic(boot: int, size: nat, rs: Reports, calls: seq<Call>)
    requires boot > 0 && size >= 1 && Heard(rs) && Ticks(rs, calls)
    ensures NeverPanics(boot, size, rs, calls)
    decreases |calls|
  {
    if calls != [] {
      var c, rs' := calls[0], After(rs, calls[0]);
      HeardAfter(rs, c);
      if c.Ask? { IncreasingIsSafe(boot, size, rs'[c.id], c.at); }
      RunsNeverPanic(boot, size, rs', calls[1..]);
    }
  }
}

/** Which ticks a replay asks for, and which packets of the demo it gets them from. */
module Sampling {
  import opened Bytes
  import opened Results
  import opened Sets

  const MAX_FRAMES := 100_000
  const MAX_ROUND_FRAMES := 2_048
  const SAMPLE_INTERVAL := 16
  const HIGHLIGHT_INTERVAL := 8
  const PACKET_DISTANCE := 16

  // --- ordered tick sets ---------------------------------------------------------------

  ghost predicate Strict(xs: seq<u64>) {
    forall i, j :: 0 <= i < j < |xs| ==> xs[i] < xs[j]
  }

  ghost function Elements(xs: seq<u64>): set<u64> {
    set x | x in xs
  }

  function InsertTick(xs: seq<u64>, t: u64): (r: seq<u64>)
    ensures forall x :: x in r <==> x in xs || x == t
  {
    if xs == [] || t < xs[0] then [t] + xs
    else if t == xs[0] then xs
    else
      assert xs == [xs[0]] + xs[1..];
      [xs[0]] + InsertTick(xs[1..], t)
  }

  lemma {:induction false} InsertKeepsStrict(xs: seq<u64>, t: u64)
    requires Strict(xs)
    ensures Strict(InsertTick(xs, t))
  {
    if xs != [] && t > xs[0] {
      InsertKeepsStrict(xs[1..], t);
      var rest := InsertTick(xs[1..], t);
      forall j | 0 <= j < |rest|
        ensures xs[0] < rest[j]
      {
        assert rest[j] in xs[1..] || rest[j] == t;
      }
    }
  }

  lemma Inserted(xs: seq<u64>, t: u64)
    ensures Elements(InsertTick(xs, t)) == Elements(xs) + {t}
    ensures Strict(xs) ==> Strict(InsertTick(xs, t))
  {
    if Strict(xs) {
      InsertKeepsStrict(xs, t);
    }
  }

  lemma {:induction false} StrictSize(xs: seq<u64>)
    requires Strict(xs)
    ensures |Elements(xs)| == |xs|
  {
    if xs != [] {
      StrictSize(xs[1..]);
      assert xs == [xs[0]] + xs[1..];
      assert Elements(xs) == {xs[0]} + Elements(xs[1..]);
      assert xs[0] !in Elements(xs[1..]);
    }
  }

  /** A strictly ascending list is determined by its elements. */
  lemma {:induction false} StrictIsUnique(xs: seq<u64>, ys: seq<u64>)
    requires Strict(xs) && Strict(ys) && Elements(xs) == Elements(ys)
    ensures xs == ys
  {
    StrictSize(xs);
    StrictSize(ys);
    if xs != [] {
      assert xs[0] in Elements(ys) && ys[0] in Elements(xs);
      assert xs[0] == ys[0];
      assert Elements(xs[1..]) == Elements(xs) - {xs[0]};
      assert Elements(ys[1..]) == Elements(ys) - {ys[0]};
      StrictIsUnique(xs[1..], ys[1..]);
    }
  }

  // --- the grid ---------------------------------------------------------------------------

  predicate StepOf(t: nat, start: nat, step: nat)
    requires step > 0
  {
    t >= start && (t - start) % step == 0
  }

  /** Every step-th tick from the start, and the end. */
  ghost function Grid(start: u64, end: u64, step: nat): set<u64>
    requires step > 0
  {
    set t: u64 | start <= t <= end && (StepOf(t, start, step) || t == end)
  }

  ghost function GridBelow(start: u64, bound: nat, step: nat): set<u64>
    requires step > 0
  {
    set t: u64 | start <= t < bound && StepOf(t, start, step)
  }

  lemma MulAtLeast(k: int, step: nat)
    requires k >= 1
    ensures k * step >= step
  {
  }

  lemma MulAtMost(k: int, step: nat)
    requires k <= -1
    ensures k * step + step <= 0
  {
    MulAtLeast(-k, step);
  }

  lemma {:induction false} UniqueQuotient(step: nat, q: int, r: int, q': int, r': int)
    requires step > 0 && q * step + r == q' * step + r' && 0 <= r < step && 0 <= r' < step
    ensures r == r'
  {
    var d := q - q';
    assert d * step == r' - r;
    if d >= 1 {
      MulAtLeast(d, step);
    } else if d <= -1 {
      MulAtMost(d, step);
    }
  }

  /** Every tick has a step at or before it, less than one step away. */
  lemma FloorStep(t: nat, start: nat, step: nat) returns (below: nat)
    requires step > 0 && start <= t
    ensures StepOf(below, start, step) && below <= t < below + step
  {
    var x := t - start;
    var q, r := x / step, x % step;
    below := start + q * step;
    Divides(q, step);
  }

  lemma {:induction false} Divides(q: nat, step: nat)
    requires step > 0
    ensures (q * step) % step == 0
  {
    var x := q * step;
    UniqueQuotient(step, q, 0, x / step, x % step);
  }

  lemma {:induction false} NextStep(t: nat, start: nat, step: nat)
    requires step > 0 && StepOf(t, start, step)
    ensures StepOf(t + step, start, step)
    ensures forall u: nat :: t < u < t + step ==> !StepOf(u, start, step)
  {
    var q := (t - start) / step;
    assert t - start == q * step;
    assert t + step - start == (q + 1) * step;
    Divides(q + 1, step);
    forall u: nat | t < u < t + step
      ensures !StepOf(u, start, step)
    {
      var x := u - start;
      UniqueQuotient(step, q, u - t, x / step, x % step);
    }
  }

  lemma {:induction false} GridBelowNext(start: u64, t: u64, step: nat)
    requires step > 0 && StepOf(t, start, step)
    ensures GridBelow(start, t + step, step) == GridBelow(start, t, step) + {t}
    ensures StepOf(t + step, start, step)
  {
    NextStep(t, start, step);
    hide StepOf;
  }

  lemma {:induction false} GridIsBelow(start: u64, last: u64, end: u64, step: nat)
    requires step > 0 && StepOf(last, start, step) && start <= last <= end < last + step
    ensures GridBelow(start, last + step, step) + {end} == Grid(start, end, step)
  {
    NextStep(last, start, step);
    hide StepOf;
  }

  /** A tick of the range is at most half a step from the grid. */
  lemma GridIsNear(start: u64, end: u64, half: nat, t: u64) returns (g: u64)
    requires half > 0 && start <= t <= end
    ensures g in Grid(start, end, 2 * half) && t - half <= g <= t + half
  {
    hide StepOf;
    var step := 2 * half;
    var below := FloorStep(t, start, step);
    StepsStart(below, start, step);
    if t - below <= half {
      g := below;
    } else if below + step <= end {
      NextStep(below, start, step);
      g := below + step;
    } else {
      g := end;
    }
  }

  lemma StepsStart(t: nat, start: nat, step: nat)
    requires step > 0 && StepOf(t, start, step)
    ensures t >= start
  {
  }

  // --- the whole-match sampler ----------------------------------------------------------------

  datatype SampleError = OutsideVerifiedTicks | TooManyFrames | NoRanges

  datatype Request = Request(totalTicks: u32, rounds: seq<(u64, u64)>, highlights: seq<(u64, u64)>, eventTicks: seq<u64>)

  predicate ValidRange(start: u64, end: u64, total: u32) {
    start <= end <= total
  }

  method AddRange(ticks0: seq<u64>, start: u64, end: u64, step: nat, total: u32) returns (r: Result<seq<u64>, SampleError>)
    requires Strict(ticks0) && |ticks0| <= MAX_FRAMES && step > 0
    ensures r.Ok? ==> Strict(r.value) && Elements(r.value) == Elements(ticks0) + Grid(start, end, step)
    ensures r.Ok? ==> |r.value| <= MAX_FRAMES
    ensures r.Ok? <==> (ValidRange(start, end, total) && |Elements(ticks0) + Grid(start, end, step)| <= MAX_FRAMES)
    ensures r.Err? ==> r.error == if ValidRange(start, end, total) then TooManyFrames else OutsideVerifiedTicks
  {
    hide StepOf, Strict, Elements, Grid, GridBelow, InsertTick;
    if start > end || end > total {
      return Err(OutsideVerifiedTicks);
    }
    var ticks := ticks0;
    ghost var goal := Elements(ticks0) + Grid(start, end, step);
    StepsFrom(start, end, step);
    var tick: nat := start;
    while tick <= end
      invariant start <= tick && StepOf(tick, start, step)
      invariant tick > start ==> start <= tick - step <= end && StepOf(tick - step, start, step)
      invariant Strict(ticks) && |ticks| <= MAX_FRAMES
      invariant Elements(ticks) == Elements(ticks0) + GridBelow(start, tick, step)
      decreases end + step - tick
    {
      StepInserted(Elements(ticks0), ticks, start, tick, end, step);
      ticks := InsertTick(ticks, tick);
      if |ticks| > MAX_FRAMES {
        TooMany(ticks, goal);
        return Err(TooManyFrames);
      }
      tick := tick + step;
    }
    GridIsBelow(start, tick - step, end, step);
    Inserted(ticks, end);
    ticks := InsertTick(ticks, end);
    assert Elements(ticks) == goal;
    if |ticks| > MAX_FRAMES {
      TooMany(ticks, goal);
      return Err(TooManyFrames);
    }
    StrictSize(ticks);
    return Ok(ticks);
  }

  lemma {:induction false} StepInserted(base: set<u64>, ticks: seq<u64>, start: u64, tick: u64, end: u64, step: nat)
    requires step > 0 && start <= tick <= end && StepOf(tick, start, step) && Strict(ticks)
    requires Elements(ticks) == base + GridBelow(start, tick, step)
    ensures var next := InsertTick(ticks, tick);
            && Strict(next) && Elements(next) == base + GridBelow(start, tick + step, step)
            && Elements(next) <= base + Grid(start, end, step) && StepOf(tick + step, start, step)
  {
    hide StepOf, Strict, Elements, Grid, GridBelow;
    Inserted(ticks, tick);
    GridBelowNext(start, tick, step);
    InGrid(start, tick, end, step);
  }

  lemma StepsFrom(start: u64, end: u64, step: nat)
    requires step > 0
    ensures StepOf(start, start, step) && GridBelow(start, start, step) == {}
  {
  }

  lemma InGrid(start: u64, tick: u64, end: u64, step: nat)
    requires step > 0 && start <= tick <= end && StepOf(tick, start, step)
    ensures GridBelow(start, tick, step) + {tick} <= Grid(start, end, step)
  {
  }

  lemma TooMany(ticks: seq<u64>, goal: set<u64>)
    requires Strict(ticks) && Elements(ticks) <= goal
    ensures |goal| >= |ticks|
  {
    StrictSize(ticks);
    SubsetSize(Elements(ticks), goal);
  }

  ghost function GridOf(ranges: seq<(u64, u64)>, step: nat): set<u64>
    requires step > 0
  {
    if ranges == [] then {}
    else GridOf(ranges[..|ranges| - 1], step) + Grid(ranges[|ranges| - 1].0, ranges[|ranges| - 1].1, step)
  }

  ghost predicate AllValid(ranges: seq<(u64, u64)>, total: u32) {
    forall i :: 0 <= i < |ranges| ==> ValidRange(ranges[i].0, ranges[i].1, total)
  }

  method AddRanges(ticks0: seq<u64>, ranges: seq<(u64, u64)>, step: nat, total: u32) returns (r: Result<seq<u64>, SampleError>)
    requires Strict(ticks0) && |ticks0| <= MAX_FRAMES && step > 0
    ensures r.Ok? ==> Strict(r.value) && Elements(r.value) == Elements(ticks0) + GridOf(ranges, step)
    ensures r.Ok? ==> |r.value| <= MAX_FRAMES
    ensures r.Ok? <==> (AllValid(ranges, total) && |Elements(ticks0) + GridOf(ranges, step)| <= MAX_FRAMES)
    ensures r.Err? && r.error.OutsideVerifiedTicks? ==> !AllValid(ranges, total)
    ensures r.Err? && r.error.TooManyFrames? ==> |Elements(ticks0) + GridOf(ranges, step)| > MAX_FRAMES
    ensures r.Err? ==> !r.error.NoRanges?
  {
    hide Grid, Strict, Elements;
    var ticks := ticks0;
    for i := 0 to |ranges|
      invariant Strict(ticks) && |ticks| <= MAX_FRAMES && AllValid(ranges[..i], total)
      invariant Elements(ticks) == Elements(ticks0) + GridOf(ranges[..i], step)
    {
      assert ranges[..i + 1][..i] == ranges[..i];
      var added := AddRange(ticks, ranges[i].0, ranges[i].1, step, total);
      if added.Err? {
        assert Elements(ticks) + Grid(ranges[i].0, ranges[i].1, step) == Elements(ticks0) + GridOf(ranges[..i + 1], step);
        GridsGrow(ranges, i + 1, step);
        SubsetSize(Elements(ticks0) + GridOf(ranges[..i + 1], step), Elements(ticks0) + GridOf(ranges, step));
        return Err(added.error);
      }
      ticks := added.value;
    }
    assert ranges[..|ranges|] == ranges;
    StrictSize(ticks);
    return Ok(ticks);
  }

  lemma {:induction false} GridsGrow(ranges: seq<(u64, u64)>, n: nat, step: nat)
    requires n <= |ranges| && step > 0
    ensures GridOf(ranges[..n], step) <= GridOf(ranges, step)
  {
    if n == |ranges| {
      assert ranges[..n] == ranges;
    } else {
      GridsGrow(ranges[..|ranges| - 1], n, step);
      assert ranges[..|ranges| - 1][..n] == ranges[..n];
    }
  }

  function Points(ticks: seq<u64>): (r: seq<(u64, u64)>)
    ensures |r| == |ticks| && forall i :: 0 <= i < |r| ==> r[i] == (ticks[i], ticks[i])
  {
    seq(|ticks|, i requires 0 <= i < |ticks| => (ticks[i], ticks[i]))
  }

  lemma {:induction false} PointsAreElements(ticks: seq<u64>)
    ensures GridOf(Points(ticks), 1) == Elements(ticks)
  {
    if ticks != [] {
      var before, last := ticks[..|ticks| - 1], ticks[|ticks| - 1];
      PointsAreElements(before);
      assert Points(ticks)[..|ticks| - 1] == Points(before);
      assert Grid(last, last, 1) == {last} by { assert StepOf(last, last, 1); }
      assert ticks == before + [last];
      assert Elements(ticks) == Elements(before) + {last};
    }
  }

  ghost function Wanted(q: Request): set<u64> {
    GridOf(q.rounds, SAMPLE_INTERVAL) + GridOf(q.highlights, HIGHLIGHT_INTERVAL) + Elements(q.eventTicks)
  }

  ghost predicate InVerifiedTicks(q: Request) {
    && AllValid(q.rounds, q.totalTicks) && AllValid(q.highlights, q.totalTicks)
    && forall i :: 0 <= i < |q.eventTicks| ==> q.eventTicks[i] <= q.totalTicks
  }

  /** The wanted ticks in order, if all are verified ones and their number is in bounds. */
  method ReplayTicks(q: Request) returns (r: Result<seq<u64>, SampleError>)
    ensures r.Ok? ==> Strict(r.value) && Elements(r.value) == Wanted(q)
    ensures r.Ok? <==> (InVerifiedTicks(q) && 0 < |Wanted(q)| <= 100_000)
    ensures r == Err(NoRanges) <==> InVerifiedTicks(q) && Wanted(q) == {}
    ensures r == Err(OutsideVerifiedTicks) ==> !InVerifiedTicks(q)
    ensures r == Err(TooManyFrames) ==> |Wanted(q)| > 100_000
  {
    hide Strict, Elements, GridOf, Grid;
    assert Strict([]) && Elements([]) == {} by { NoTicks(); }
    ghost var a, b, c := GridOf(q.rounds, SAMPLE_INTERVAL), GridOf(q.highlights, HIGHLIGHT_INTERVAL), Elements(q.eventTicks);
    assert Elements([]) + a == a && a <= Wanted(q) && a + b <= Wanted(q);
    SubsetSize(a, Wanted(q));
    SubsetSize(a + b, Wanted(q));
    PointsAreElements(q.eventTicks);
    var ticks :- AddRanges([], q.rounds, SAMPLE_INTERVAL, q.totalTicks);
    ticks :- AddRanges(ticks, q.highlights, HIGHLIGHT_INTERVAL, q.totalTicks);
    ticks :- AddRanges(ticks, Points(q.eventTicks), 1, q.totalTicks);
    StrictSize(ticks);
    if |ticks| == 0 {
      return Err(NoRanges);
    }
    return Ok(ticks);
  }

  lemma NoTicks()
    ensures Strict([]) && Elements([]) == {}
  {
  }

  // --- the selected-round sampler ------------------------------------------------------------------

  datatype RoundRequest = RoundRequest(startTick: u64, endTick: u64, eventTicks: seq<u64>)

  ghost function WantedInRound(q: RoundRequest): set<u64> {
    (if q.startTick <= q.endTick then Grid(q.startTick, q.endTick, SAMPLE_INTERVAL) else {q.startTick, q.endTick})
    + Elements(q.eventTicks)
  }

  method RequestedTicks(q: RoundRequest) returns (r: Result<seq<u64>, SampleError>)
    ensures r.Ok? ==> Strict(r.value) && Elements(r.value) == WantedInRound(q)
    ensures r.Ok? <==> |WantedInRound(q)| <= 2_048
    ensures r.Err? ==> r.error == TooManyFrames
  {
    hide StepOf, Strict, Elements, Grid, GridBelow;
    var start, end := q.startTick, q.endTick;
    var ticks: seq<u64> := [];
    var tick := start;
    NoTicks();
    StepsFrom(start, end, SAMPLE_INTERVAL);
    ghost var last: u64 := start;  // the step at or before tick
    while true
      invariant Strict(ticks) && (start <= end ==> tick <= end)
      invariant start > end ==> tick == start == last
      invariant StepOf(last, start, SAMPLE_INTERVAL) && start <= last <= tick
      invariant if tick == last then Elements(ticks) == GridBelow(start, tick, SAMPLE_INTERVAL)
                else tick == end < last + SAMPLE_INTERVAL
                     && Elements(ticks) == GridBelow(start, last + SAMPLE_INTERVAL, SAMPLE_INTERVAL)
      decreases if tick < end then end - tick else 0
    {
      Inserted(ticks, tick);
      ticks := InsertTick(ticks, tick);
      if tick >= end {
        break;
      }
      GridBelowNext(start, tick, SAMPLE_INTERVAL);
      var next := if tick + SAMPLE_INTERVAL <= U64_MAX then tick + SAMPLE_INTERVAL else end;
      tick := if next < end then next else end;
      if last + SAMPLE_INTERVAL <= end {
        last := last + SAMPLE_INTERVAL;
      }
    }
    GridBelowNext(start, last, SAMPLE_INTERVAL);
    if start <= end {
      GridIsBelow(start, last, end, SAMPLE_INTERVAL);
    }
    Inserted(ticks, end);
    ticks := InsertTick(ticks, end);
    assert Elements(ticks) == if start <= end then Grid(start, end, SAMPLE_INTERVAL) else {start, end};
    ticks := ExtendTicks(ticks, q.eventTicks);
    StrictSize(ticks);
    if |ticks| > MAX_ROUND_FRAMES {
      return Err(TooManyFrames);
    }
    return Ok(ticks);
  }

  method ExtendTicks(ticks0: seq<u64>, more: seq<u64>) returns (ticks: seq<u64>)
    requires Strict(ticks0)
    ensures Strict(ticks) && Elements(ticks) == Elements(ticks0) + Elements(more)
  {
    hide Strict;
    ticks := ticks0;
    for i := 0 to |more|
      invariant Strict(ticks) && Elements(ticks) == Elements(ticks0) + Elements(more[..i])
    {
      assert more[..i + 1] == more[..i] + [more[i]];
      Inserted(ticks, more[i]);
      ticks := InsertTick(ticks, more[i]);
    }
    assert more[..|more|] == more;
  }

  /** t is a whole number of steps from the start of some range, or the end of it. */
  predicate OnGrid(ranges: seq<(u64, u64)>, step: nat, t: u64)
    requires step > 0
  {
    exists i :: 0 <= i < |ranges| && ranges[i].0 <= t <= ranges[i].1
                && ((t - ranges[i].0) % step == 0 || t == ranges[i].1)
  }

  lemma {:induction false} GridOfMeans(ranges: seq<(u64, u64)>, step: nat, t: u64)
    requires step > 0
    ensures t in GridOf(ranges, step) <==> OnGrid(ranges, step, t)
  {
    if ranges != [] {
      var before, last := ranges[..|ranges| - 1], ranges[|ranges| - 1];
      GridOfMeans(before, step, t);
      assert forall i :: 0 <= i < |before| ==> before[i] == ranges[i];
      assert t in Grid(last.0, last.1, step) <==> last.0 <= t <= last.1 && ((t - last.0) % step == 0 || t == last.1);
      if OnGrid(before, step, t) {
        var i :| 0 <= i < |before| && before[i].0 <= t <= before[i].1
                 && ((t - before[i].0) % step == 0 || t == before[i].1);
        assert ranges[i] == before[i];
      }
    }
  }

  /** Wanted are every sixteenth tick of a round and every eighth of a highlight from its start on, the ends
      of both, and the ticks of events. */
  lemma WantedMeans(q: Request, t: u64)
    ensures t in Wanted(q) <==> OnGrid(q.rounds, 16, t) || OnGrid(q.highlights, 8, t) || t in q.eventTicks
  {
    GridOfMeans(q.rounds, 16, t);
    GridOfMeans(q.highlights, 8, t);
    hide GridOf, OnGrid;
  }

  /** For one round, every sixteenth tick from its start, its end, and the ticks of events. A round that ends
      before it starts has these two ticks only. */
  lemma WantedInRoundMeans(q: RoundRequest, t: u64)
    ensures t in WantedInRound(q) <==>
            || t == q.startTick || t == q.endTick || t in q.eventTicks
            || (q.startTick <= t <= q.endTick && (t - q.startTick) % 16 == 0)
  {
  }

  /** For one round and the same event ticks the two samplers want the same ticks. */
  lemma SamplersAgree(q: RoundRequest, total: u32, dense: seq<u64>, round: seq<u64>)
    requires q.startTick <= q.endTick
    requires Strict(dense) && Elements(dense) == Wanted(Request(total, [(q.startTick, q.endTick)], [], q.eventTicks))
    requires Strict(round) && Elements(round) == WantedInRound(q)
    ensures dense == round
  {
    hide Grid, Strict;
    var ranges := [(q.startTick, q.endTick)];
    assert ranges[..0] == [];
    assert GridOf([], SAMPLE_INTERVAL) == {};
    assert GridOf(ranges, SAMPLE_INTERVAL) == Grid(q.startTick, q.endTick, SAMPLE_INTERVAL);
    hide Elements;
    StrictIsUnique(dense, round);
  }

  // --- alignment to the packets of the demo -----------------------------------------------------------

  function Distance(a: u64, b: u64): nat {
    if a < b then b - a else a - b
  }

  ghost predicate Ascending(xs: seq<u64>) {
    forall i, j :: 0 <= i <= j < |xs| ==> xs[i] <= xs[j]
  }

  /** The packets of the requested span; a negative tick is none. */
  function Available(packets: seq<int>, start: u64, end: u64): (r: seq<u64>)
    ensures forall p :: p in r <==> p in packets && start <= p <= end
  {
    if packets == [] then []
    else if start <= packets[0] <= end then [packets[0]] + Available(packets[1..], start, end)
    else Available(packets[1..], start, end)
  }

  lemma {:induction false} AvailableAscends(packets: seq<int>, start: u64, end: u64)
    requires forall i, j :: 0 <= i <= j < |packets| ==> packets[i] <= packets[j]
    ensures Ascending(Available(packets, start, end))
  {
    if packets != [] {
      AvailableAscends(packets[1..], start, end);
      var rest := Available(packets[1..], start, end);
      forall j | 0 <= j < |rest|
        ensures packets[0] <= rest[j]
      {
        assert rest[j] in packets[1..];
      }
    }
  }

  /** c is a packet, none is nearer to the tick, and none before it is as near. */
  ghost predicate Nearest(available: seq<u64>, tick: u64, c: u64) {
    c in available && forall p <- available ::
      Distance(p, tick) > Distance(c, tick) || (Distance(p, tick) == Distance(c, tick) && c <= p)
  }

  lemma NearestIsUnique(available: seq<u64>, tick: u64, c: u64, d: u64)
    requires Nearest(available, tick, c) && Nearest(available, tick, d)
    ensures c == d
  {
  }

  /** So it is the packet fewest ticks away, and of two as near the earlier; a tick is served only by one at
      most sixteen ticks away. */
  lemma NearestMeans(available: seq<u64>, tick: u64, c: u64)
    ensures Nearest(available, tick, c) <==>
            c in available && forall p <- available ::
              var (far, near) := (if p < tick then tick - p else p - tick, if c < tick then tick - c else c - tick);
              near < far || (near == far && c <= p)
    ensures Distance(c, tick) <= PACKET_DISTANCE <==> tick - 16 <= c <= tick + 16
  {
  }

  method PartitionPoint(available: seq<u64>, tick: u64) returns (next: nat)
    requires Ascending(available)
    ensures next <= |available|
    ensures forall i :: 0 <= i < next ==> available[i] < tick
    ensures forall i :: next <= i < |available| ==> available[i] >= tick
  {
    var low, high := 0, |available|;
    while low < high
      invariant 0 <= low <= high <= |available|
      invariant forall i :: 0 <= i < low ==> available[i] < tick
      invariant forall i :: high <= i < |available| ==> available[i] >= tick
    {
      var middle := (low + high) / 2;
      if available[middle] < tick {
        low := middle + 1;
      } else {
        high := middle;
      }
    }
    next := low;
  }

  /** The nearer of the two neighbours of a tick, the earlier if they are level. */
  method Align(available: seq<u64>, tick: u64) returns (r: Option<u64>)
    requires Ascending(available)
    ensures r.None? <==> forall c <- available :: Distance(c, tick) > PACKET_DISTANCE
    ensures r.Some? ==> Nearest(available, tick, r.value) && Distance(r.value, tick) <= PACKET_DISTANCE
  {
    var next := PartitionPoint(available, tick);
    var candidate: Option<u64> := None;
    if next > 0 {
      candidate := Some(available[next - 1]);
    }
    if next < |available| && (candidate.None? || Distance(available[next], tick) < Distance(candidate.value, tick)) {
      candidate := Some(available[next]);
    }
    forall p | p in available
      ensures candidate.Some? && (Distance(p, tick) > Distance(candidate.value, tick)
                                  || (Distance(p, tick) == Distance(candidate.value, tick) && candidate.value <= p))
    {
      var i :| 0 <= i < |available| && available[i] == p;
      if i < next {
        assert available[i] <= available[next - 1];
      } else {
        assert available[next] <= available[i];
      }
    }
    if candidate.Some? && Distance(candidate.value, tick) <= PACKET_DISTANCE {
      return candidate;
    }
    return None;
  }

  ghost predicate NearEnough(available: seq<u64>, tick: u64) {
    exists c :: c in available && Distance(c, tick) <= PACKET_DISTANCE
  }

  function Span(packets: seq<int>, requested: seq<u64>): seq<u64> {
    if requested == [] then [] else Available(packets, requested[0], requested[|requested| - 1])
  }

  ghost predicate Comes(available: seq<u64>, requested: seq<u64>, c: u64) {
    exists t :: t in requested && Nearest(available, t, c)
  }

  ghost predicate Served(available: seq<u64>, selected: seq<u64>, t: u64) {
    exists c :: c in selected && Nearest(available, t, c) && Distance(c, t) <= PACKET_DISTANCE
  }

  /** selected lists, once each and in order, the nearest packets of the requested ticks. */
  ghost predicate Selects(packets: seq<int>, requested: seq<u64>, selected: seq<u64>) {
    && Strict(selected)
    && (forall c <- selected :: Comes(Span(packets, requested), requested, c))
    && (forall t <- requested :: Served(Span(packets, requested), selected, t))
  }

  method SelectSnapshotTicks(packets: seq<int>, requested: seq<u64>) returns (r: Option<seq<u64>>)
    requires forall i, j :: 0 <= i <= j < |packets| ==> packets[i] <= packets[j]
    ensures r.Some? ==> Selects(packets, requested, r.value)
    ensures r.Some? <==> forall t <- requested :: NearEnough(Span(packets, requested), t)
  {
    hide Strict, Nearest, Available, Distance, Comes, Served, Ascending;
    NoTicks();
    if requested == [] {
      return Some([]);
    }
    AvailableAscends(packets, requested[0], requested[|requested| - 1]);
    var available := Available(packets, requested[0], requested[|requested| - 1]);
    var selected: seq<u64> := [];
    for i := 0 to |requested|
      invariant Strict(selected)
      invariant forall c <- selected :: Comes(available, requested, c)
      invariant forall k :: 0 <= k < i ==> Served(available, selected, requested[k])
    {
      var tick := requested[i];
      var candidate := Align(available, tick);
      if candidate.None? {
        assert tick in requested && !NearEnough(available, tick);
        return None;
      }
      Inserted(selected, candidate.value);
      ComesFrom(available, requested, tick, candidate.value);
      ServedBy(available, InsertTick(selected, candidate.value), tick, candidate.value);
      forall k | 0 <= k < i
        ensures Served(available, InsertTick(selected, candidate.value), requested[k])
      {
        ServedStill(available, selected, InsertTick(selected, candidate.value), requested[k]);
      }
      selected := InsertTick(selected, candidate.value);
    }
    forall t | t in requested
      ensures NearEnough(available, t) && Served(available, selected, t)
    {
      var k :| 0 <= k < |requested| && requested[k] == t;
      ServedIsNear(available, selected, t);
    }
    return Some(selected);
  }

  lemma ComesFrom(available: seq<u64>, requested: seq<u64>, t: u64, c: u64)
    requires t in requested && Nearest(available, t, c)
    ensures Comes(available, requested, c)
  {
    hide Nearest;
  }

  lemma ServedBy(available: seq<u64>, selected: seq<u64>, t: u64, c: u64)
    requires c in selected && Nearest(available, t, c) && Distance(c, t) <= PACKET_DISTANCE
    ensures Served(available, selected, t)
  {
    hide Nearest;
  }

  lemma ServedStill(available: seq<u64>, selected: seq<u64>, more: seq<u64>, t: u64)
    requires Served(available, selected, t) && forall c <- selected :: c in more
    ensures Served(available, more, t)
  {
    hide Nearest, Distance;
    var c :| c in selected && Nearest(available, t, c) && Distance(c, t) <= PACKET_DISTANCE;
    assert c in more;
  }

  lemma ServedIsNear(available: seq<u64>, selected: seq<u64>, t: u64)
    requires Served(available, selected, t)
    ensures NearEnough(available, t)
  {
    var c :| c in selected && Nearest(available, t, c) && Distance(c, t) <= PACKET_DISTANCE;
    assert c in available;
  }

  /** Every tick of a range sampled at even steps is near a selected packet: at most half a step
      from the grid, and the grid at most sixteen ticks from a packet. */
  lemma {:induction false} EveryTickIsNear(packets: seq<int>, requested: seq<u64>, selected: seq<u64>, start: u64, end: u64, half: nat, t: u64)
    returns (c: u64)
    requires half > 0 && Selects(packets, requested, selected) && Grid(start, end, 2 * half) <= Elements(requested)
    requires start <= t <= end
    ensures c in selected && Distance(c, t) <= half + PACKET_DISTANCE
  {
    hide Grid, Strict, Span, Served, Comes;
    var g := GridIsNear(start, end, half, t);
    assert g in requested;
    c := Server(Span(packets, requested), selected, g);
  }

  lemma Server(available: seq<u64>, selected: seq<u64>, t: u64) returns (c: u64)
    requires Served(available, selected, t)
    ensures c in selected && Nearest(available, t, c) && Distance(c, t) <= PACKET_DISTANCE
  {
    hide Nearest, Distance;
    c :| c in selected && Nearest(available, t, c) && Distance(c, t) <= PACKET_DISTANCE;
  }

  /** So no tick of a round is more than 24 ticks from a selected packet. */
  lemma {:induction false} RoundTicksAreNear(q: Request, packets: seq<int>, requested: seq<u64>, selected: seq<u64>, i: nat, t: u64)
    returns (c: u64)
    requires Elements(requested) == Wanted(q) && Selects(packets, requested, selected)
    requires i < |q.rounds| && q.rounds[i].0 <= t <= q.rounds[i].1
    ensures c in selected && Distance(c, t) <= 24
  {
    hide Grid, Elements, Selects, Distance;
    GridIsPart(q.rounds, i, SAMPLE_INTERVAL);
    c := EveryTickIsNear(packets, requested, selected, q.rounds[i].0, q.rounds[i].1, SAMPLE_INTERVAL / 2, t);
  }

  /** And none of a highlight more than 20. */
  lemma {:induction false} HighlightTicksAreNear(q: Request, packets: seq<int>, requested: seq<u64>, selected: seq<u64>, i: nat, t: u64)
    returns (c: u64)
    requires Elements(requested) == Wanted(q) && Selects(packets, requested, selected)
    requires i < |q.highlights| && q.highlights[i].0 <= t <= q.highlights[i].1
    ensures c in selected && Distance(c, t) <= 20
  {
    hide Grid, Elements, Selects, Distance;
    GridIsPart(q.highlights, i, HIGHLIGHT_INTERVAL);
    c := EveryTickIsNear(packets, requested, selected, q.highlights[i].0, q.highlights[i].1, HIGHLIGHT_INTERVAL / 2, t);
  }

  lemma {:induction false} GridIsPart(ranges: seq<(u64, u64)>, i: nat, step: nat)
    requires step > 0 && i < |ranges|
    ensures Grid(ranges[i].0, ranges[i].1, step) <= GridOf(ranges, step)
  {
    hide Grid;
    if i < |ranges| - 1 {
      GridIsPart(ranges[..|ranges| - 1], i, step);
    }
  }

  /** Aligning what was selected again succeeds and changes nothing. */
  lemma AlignmentIsIdempotent(packets: seq<int>, requested: seq<u64>, selected: seq<u64>, again: seq<u64>)
    requires Selects(packets, requested, selected)
    ensures forall t <- selected :: NearEnough(Span(packets, selected), t)
    ensures Selects(packets, selected, again) ==> again == selected
  {
    hide Strict, Served, Nearest, Span;
    var available := Span(packets, selected);
    forall t | t in selected
      ensures Nearest(available, t, t) && NearEnough(available, t)
    {
      SelectedIsAvailable(packets, requested, selected, t);
      ItselfIsNearest(available, t);
    }
    if Selects(packets, selected, again) {
      hide Elements;
      forall c | c in again
        ensures c in selected
      {
        var t :| t in selected && Nearest(available, t, c);
        NearestIsUnique(available, t, c, t);
      }
      forall t | t in selected
        ensures t in again
      {
        var c := Server(available, again, t);
        NearestIsUnique(available, t, c, t);
      }
      SameElements(again, selected);
      StrictIsUnique(again, selected);
    }
  }

  lemma SameElements(xs: seq<u64>, ys: seq<u64>)
    requires (forall x <- xs :: x in ys) && (forall y <- ys :: y in xs)
    ensures Elements(xs) == Elements(ys)
  {
  }

  lemma ItselfIsNearest(available: seq<u64>, t: u64)
    requires t in available
    ensures Nearest(available, t, t) && NearEnough(available, t)
  {
    assert Distance(t, t) == 0;
  }

  lemma {:induction false} SelectedIsAvailable(packets: seq<int>, requested: seq<u64>, selected: seq<u64>, t: u64)
    requires Selects(packets, requested, selected) && t in selected
    ensures t in Span(packets, selected)
  {
    hide Served;
    assert Comes(Span(packets, requested), requested, t);
    ComesIsPacket(packets, requested, t);
    WithinSpan(selected, t);
  }

  lemma ComesIsPacket(packets: seq<int>, requested: seq<u64>, c: u64)
    requires Comes(Span(packets, requested), requested, c)
    ensures c in packets
  {
    var r :| r in requested && Nearest(Span(packets, requested), r, c);
  }

  lemma WithinSpan(xs: seq<u64>, t: u64)
    requires Strict(xs) && t in xs
    ensures xs[0] <= t <= xs[|xs| - 1]
  {
  }
}

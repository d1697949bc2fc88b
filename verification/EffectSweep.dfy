/** The frames of a replay get, in place, the effects that show at their tick and the state of
    the bomb, in one sweep over start-sorted intervals and one over the events. */
module EffectSweep {
  import opened Bytes
  import opened Results
  import opened Sorting
  import opened Texts
  import opened UtilityLifecycles

  const MAXIMUM_EFFECTS_PER_FRAME := 512
  const MAXIMUM_EFFECT_RECORDS := 1_000_000

  datatype Tag = Flight(flight: string) | Effect(effect: EffectId)

  datatype Projectile = Projectile(tag: Tag, owner: Option<string>, kind: string, position: Position,
                                   startTick: u64, endTick: u64, active: bool, radius: Option<int>, masksVision: bool)

  datatype Bomb = Bomb(position: Position, state: string)

  /** content stands for the players, which the sweeps do not touch. */
  datatype Frame = Frame(tick: u64, content: nat, projectiles: seq<Projectile>, bomb: Option<Bomb>)

  datatype LimitError = PerFrame(actual: nat) | Records(actual: nat)

  // --- orders ------------------------------------------------------------------------

  predicate ByTick(a: Frame, b: Frame) { a.tick <= b.tick }

  predicate ByStart(a: Interval, b: Interval) { a.startTick <= b.startTick }

  predicate CoordLeq(a: Coord, b: Coord) {
    b.Nowhere? || (a.At? && a.rank <= b.rank)
  }

  /** Kind, then x, then y. */
  predicate DrawnBefore(a: Projectile, b: Projectile) {
    if a.kind != b.kind then AtMost(a.kind, b.kind)
    else if a.position.x != b.position.x then CoordLeq(a.position.x, b.position.x)
    else CoordLeq(a.position.y, b.position.y)
  }

  lemma DrawnBeforeIsTotal()
    ensures TotalOrder(DrawnBefore)
  {
    hide AtMost;
    forall a, b
      ensures DrawnBefore(a, b) || DrawnBefore(b, a)
    {
      AtMostIsTotal(a.kind, b.kind);
    }
    forall a, b, c | DrawnBefore(a, b) && DrawnBefore(b, c)
      ensures DrawnBefore(a, c)
    {
      if AtMost(a.kind, b.kind) && AtMost(b.kind, c.kind) {
        AtMostIsTransitive(a.kind, b.kind, c.kind);
      }
      AtMostIsTotal(a.kind, b.kind);
      AtMostIsTotal(b.kind, c.kind);
    }
  }

  ghost predicate FramesAscend(fs: seq<Frame>) {
    forall i, j :: 0 <= i < j < |fs| ==> fs[i].tick <= fs[j].tick
  }

  ghost predicate StartsAscend(xs: seq<Interval>) {
    forall i, j :: 0 <= i < j < |xs| ==> xs[i].startTick <= xs[j].startTick
  }

  ghost predicate TicksAscend(o: seq<Event>) {
    forall i, j :: 0 <= i < j < |o| ==> o[i].tick <= o[j].tick
  }

  lemma {:induction false} FramesInOrder(fs: seq<Frame>)
    ensures FramesAscend(SortBy(fs, ByTick))
  {
    SortBySorts(fs, ByTick);
    var sorted := SortBy(fs, ByTick);
    assert forall i, j :: 0 <= i < j < |sorted| ==> ByTick(sorted[i], sorted[j]);
  }

  lemma {:induction false} StartsInOrder(xs: seq<Interval>)
    ensures StartsAscend(SortBy(xs, ByStart))
  {
    SortBySorts(xs, ByStart);
    var sorted := SortBy(xs, ByStart);
    assert forall i, j :: 0 <= i < j < |sorted| ==> ByStart(sorted[i], sorted[j]);
  }

  lemma EventsInOrder(events: seq<Event>)
    ensures TicksAscend(SortBy(events, Earlier))
  {
    EarlierIsTotal();
    SortBySorts(events, Earlier);
    var o := SortBy(events, Earlier);
    assert forall i, j :: 0 <= i < j < |o| ==> Earlier(o[i], o[j]);
  }

  // --- what a frame gains ---------------------------------------------------------------

  predicate Shows(e: Interval, tick: u64) {
    e.startTick <= tick <= e.endTick
  }

  /** The simple form: the intervals around a tick, in their order. */
  function Showing(xs: seq<Interval>, tick: u64): seq<Interval> {
    if xs == [] then []
    else if Shows(xs[0], tick) then [xs[0]] + Showing(xs[1..], tick)
    else Showing(xs[1..], tick)
  }

  function AsProjectile(e: Interval): Projectile {
    Projectile(Effect(e.id), e.owner, e.kind, e.position, e.startTick, e.endTick, true,
               if e.radius.Some? then e.radius
               else if e.kind == "smoke" then Some(144) else if e.kind == "inferno" then Some(150) else None,
               e.masksVision)
  }

  function Projected(xs: seq<Interval>): (r: seq<Projectile>)
    ensures |r| == |xs|
  {
    seq(|xs|, i requires 0 <= i < |xs| => AsProjectile(xs[i]))
  }

  function Swept(f: Frame, intervals: seq<Interval>): Frame {
    f.(projectiles := SortBy(f.projectiles + Projected(Showing(intervals, f.tick)), DrawnBefore))
  }

  function RecordCount(f: Frame, intervals: seq<Interval>): nat {
    |Showing(intervals, f.tick)| + |f.projectiles|
  }

  function Total(fs: seq<Frame>, intervals: seq<Interval>): nat {
    if fs == [] then 0 else Total(fs[..|fs| - 1], intervals) + RecordCount(fs[|fs| - 1], intervals)
  }

  predicate OverLimit(fs: seq<Frame>, i: nat, intervals: seq<Interval>)
    requires i < |fs|
  {
    RecordCount(fs[i], intervals) > MAXIMUM_EFFECTS_PER_FRAME || Total(fs[..i + 1], intervals) > MAXIMUM_EFFECT_RECORDS
  }

  // --- the active list ------------------------------------------------------------------

  function Retain(xs: seq<Interval>, tick: u64): seq<Interval> {
    if xs == [] then []
    else if xs[0].endTick >= tick then [xs[0]] + Retain(xs[1..], tick)
    else Retain(xs[1..], tick)
  }

  lemma {:induction false} RetainConcat(a: seq<Interval>, b: seq<Interval>, tick: u64)
    ensures Retain(a + b, tick) == Retain(a, tick) + Retain(b, tick)
  {
    if a == [] {
      assert a + b == b;
    } else {
      assert (a + b)[0] == a[0] && (a + b)[1..] == a[1..] + b;
      RetainConcat(a[1..], b, tick);
    }
  }

  lemma {:induction false} RetainTwice(xs: seq<Interval>, earlier: u64, tick: u64)
    requires earlier <= tick
    ensures Retain(Retain(xs, earlier), tick) == Retain(xs, tick)
  {
    if xs != [] {
      RetainTwice(xs[1..], earlier, tick);
      var kept := Retain(xs[1..], earlier);
      assert ([xs[0]] + kept)[1..] == kept;
    }
  }

  /** The two-step form is the simple form: what started by tick and has not ended before it. */
  lemma {:induction false} RetainedIsShowing(xs: seq<Interval>, n: nat, tick: u64)
    requires n <= |xs|
    requires forall i :: 0 <= i < n ==> xs[i].startTick <= tick
    requires forall i :: n <= i < |xs| ==> xs[i].startTick > tick
    ensures Showing(xs, tick) == Retain(xs[..n], tick)
  {
    if n > 0 {
      assert xs[..n][0] == xs[0] && xs[..n][1..] == xs[1..][..n - 1];
      RetainedIsShowing(xs[1..], n - 1, tick);
    } else if xs != [] {
      assert xs[1..][..0] == [] == xs[..0];
      RetainedIsShowing(xs[1..], 0, tick);
    }
  }

  lemma ActiveListStep(xs: seq<Interval>, before: nat, n: nat, earlier: u64, tick: u64, active: seq<Interval>)
    requires before <= n <= |xs| && earlier <= tick
    requires active == Retain(xs[..before], earlier) + xs[before..n]
    ensures Retain(active, tick) == Retain(xs[..n], tick)
  {
    assert xs[..n] == xs[..before] + xs[before..n];
    RetainConcat(Retain(xs[..before], earlier), xs[before..n], tick);
    RetainTwice(xs[..before], earlier, tick);
    RetainConcat(xs[..before], xs[before..n], tick);
  }

  /** frames and intervals are already in order. */
  method SweepFrames(frames: array<Frame>, intervals: seq<Interval>) returns (r: Option<LimitError>)
    requires FramesAscend(frames[..]) && StartsAscend(intervals)
    modifies frames
    ensures r.None? ==> forall i :: 0 <= i < frames.Length ==>
      !OverLimit(old(frames[..]), i, intervals) && frames[i] == Swept(old(frames[i]), intervals)
    ensures r.Some? ==>
      exists i :: 0 <= i < frames.Length && StoppedAt(old(frames[..]), frames[..], i, intervals)
                  && IsReported(old(frames[..]), i, intervals, r.value)
  {
    hide SortBy, Swept, OverLimit, Retain, Showing, Projected, Total, RecordCount;
    ghost var fs := frames[..];
    var next, effectRecords := 0, 0;
    var active: seq<Interval> := [];
    ghost var earlier: u64 := 0;
    NothingYet(fs, intervals);
    for i := 0 to frames.Length
      invariant 0 <= next <= |intervals| && (i < frames.Length ==> earlier <= fs[i].tick)
      invariant frames[i..] == fs[i..]
      invariant forall k :: 0 <= k < i ==> frames[k] == Swept(fs[k], intervals) && !OverLimit(fs, k, intervals)
      invariant forall k :: 0 <= k < next ==> intervals[k].startTick <= earlier
      invariant active == Retain(intervals[..next], earlier)
      invariant effectRecords == Total(fs[..i], intervals) <= MAXIMUM_EFFECT_RECORDS
    {
      assert frames[i] == frames[i..][0] == fs[i];
      var frame := frames[i];
      active, next := Activate(intervals, active, next, frame.tick, earlier);
      RetainedIsShowing(intervals, next, frame.tick);
      var count := |active| + |frame.projectiles|;
      Counted(fs, i, intervals, count);
      if count > MAXIMUM_EFFECTS_PER_FRAME {
        assert StoppedAt(fs, frames[..], i, intervals) && IsReported(fs, i, intervals, PerFrame(count));
        return Some(PerFrame(count));
      }
      if effectRecords + count > MAXIMUM_EFFECT_RECORDS {
        assert StoppedAt(fs, frames[..], i, intervals) && IsReported(fs, i, intervals, Records(effectRecords + count));
        return Some(Records(effectRecords + count));
      }
      effectRecords := effectRecords + count;
      SweptIs(frame, intervals, active);
      frames[i] := frame.(projectiles := SortBy(frame.projectiles + Projected(active), DrawnBefore));
      earlier := frame.tick;
      assert i + 1 < frames.Length ==> fs[i].tick <= fs[i + 1].tick;
      assert frames[i + 1..] == fs[i + 1..];
    }
    return None;
  }

  lemma NothingYet(fs: seq<Frame>, intervals: seq<Interval>)
    ensures Total(fs[..0], intervals) == 0 && Retain(intervals[..0], 0) == []
  {
  }

  lemma SweptIs(f: Frame, intervals: seq<Interval>, active: seq<Interval>)
    requires active == Showing(intervals, f.tick)
    ensures Swept(f, intervals) == f.(projectiles := SortBy(f.projectiles + Projected(active), DrawnBefore))
  {
  }

  lemma Counted(fs: seq<Frame>, i: nat, intervals: seq<Interval>, count: nat)
    requires i < |fs| && count == |Showing(intervals, fs[i].tick)| + |fs[i].projectiles|
    ensures Total(fs[..i + 1], intervals) == Total(fs[..i], intervals) + count
    ensures OverLimit(fs, i, intervals) <==>
      count > MAXIMUM_EFFECTS_PER_FRAME || Total(fs[..i], intervals) + count > MAXIMUM_EFFECT_RECORDS
    ensures RecordCount(fs[i], intervals) == count
  {
    assert fs[..i + 1][..i] == fs[..i];
  }

  /** The limit that frame i exceeds, that of a frame before that of all, and by how many records. */
  predicate IsReported(fs: seq<Frame>, i: nat, intervals: seq<Interval>, e: LimitError)
    requires i < |fs|
  {
    var count := RecordCount(fs[i], intervals);
    e == if count > MAXIMUM_EFFECTS_PER_FRAME then PerFrame(count) else Records(Total(fs[..i + 1], intervals))
  }

  /** Frame i is the first over a limit; those before it are done and the others as they were. */
  ghost predicate StoppedAt(before: seq<Frame>, after: seq<Frame>, i: nat, intervals: seq<Interval>) {
    && i < |before| == |after| && OverLimit(before, i, intervals)
    && (forall k :: 0 <= k < i ==> !OverLimit(before, k, intervals) && after[k] == Swept(before[k], intervals))
    && (forall k :: i <= k < |before| ==> after[k] == before[k])
  }

  method Activate(intervals: seq<Interval>, active0: seq<Interval>, next0: nat, tick: u64, ghost earlier: u64)
    returns (active: seq<Interval>, next: nat)
    requires StartsAscend(intervals) && next0 <= |intervals| && earlier <= tick
    requires forall k :: 0 <= k < next0 ==> intervals[k].startTick <= earlier
    requires active0 == Retain(intervals[..next0], earlier)
    ensures next <= |intervals| && active == Retain(intervals[..next], tick)
    ensures forall k :: 0 <= k < next ==> intervals[k].startTick <= tick
    ensures forall k :: next <= k < |intervals| ==> intervals[k].startTick > tick
  {
    active, next := active0, next0;
    while next < |intervals| && intervals[next].startTick <= tick
      invariant next0 <= next <= |intervals|
      invariant active == active0 + intervals[next0..next]
      invariant forall k :: 0 <= k < next ==> intervals[k].startTick <= tick
    {
      active := active + [intervals[next]];
      next := next + 1;
    }
    ActiveListStep(intervals, next0, next, earlier, tick, active);
    active := Retain(active, tick);
    forall k | next <= k < |intervals|
      ensures intervals[k].startTick > tick
    {
      assert intervals[next].startTick <= intervals[k].startTick;
    }
  }

  // --- conservation -----------------------------------------------------------------------

  function Gain(xs: seq<Interval>, tick: u64): multiset<Projectile> {
    if xs == [] then multiset{}
    else (if Shows(xs[0], tick) then multiset{AsProjectile(xs[0])} else multiset{}) + Gain(xs[1..], tick)
  }

  lemma {:induction false} GainIsShowing(xs: seq<Interval>, tick: u64)
    ensures multiset(Projected(Showing(xs, tick))) == Gain(xs, tick)
  {
    if xs == [] {
      assert Projected([]) == [];
    } else {
      GainIsShowing(xs[1..], tick);
      var rest := Showing(xs[1..], tick);
      assert Projected([xs[0]] + rest) == [AsProjectile(xs[0])] + Projected(rest);
    }
  }

  lemma {:induction false} GainOfInsert(x: Interval, xs: seq<Interval>, leq: (Interval, Interval) -> bool, tick: u64)
    ensures Gain(Insert(x, xs, leq), tick)
         == (if Shows(x, tick) then multiset{AsProjectile(x)} else multiset{}) + Gain(xs, tick)
  {
    hide AsProjectile, Shows;
    if xs == [] || !leq(xs[0], x) {
      assert ([x] + xs)[1..] == xs;
    } else {
      GainOfInsert(x, xs[1..], leq, tick);
      var r := Insert(x, xs[1..], leq);
      assert ([xs[0]] + r)[1..] == r;
    }
  }

  lemma {:induction false} GainOfLast(xs: seq<Interval>, x: Interval, tick: u64)
    ensures Gain(xs + [x], tick) == (if Shows(x, tick) then multiset{AsProjectile(x)} else multiset{}) + Gain(xs, tick)
  {
    hide AsProjectile, Shows;
    if xs != [] {
      assert (xs + [x])[1..] == xs[1..] + [x] && (xs + [x])[0] == xs[0];
      GainOfLast(xs[1..], x, tick);
    } else {
      assert [x][1..] == [] && xs + [x] == [x];
    }
  }

  lemma {:induction false} GainOfSorted(xs: seq<Interval>, leq: (Interval, Interval) -> bool, tick: u64)
    ensures Gain(SortBy(xs, leq), tick) == Gain(xs, tick)
  {
    hide Gain, Insert;
    if xs != [] {
      var before, x := xs[..|xs| - 1], xs[|xs| - 1];
      GainOfSorted(before, leq, tick);
      GainOfInsert(x, SortBy(before, leq), leq, tick);
      GainOfLast(before, x, tick);
      assert xs == before + [x];
    }
  }

  /** A swept frame holds what it held and, once each, the effects with start <= tick <= end,
      in drawing order, level ones in the order of their starts behind what was there. */
  lemma FrameGainsItsEffects(f: Frame, intervals: seq<Interval>, y: Projectile)
    ensures var swept := Swept(f, SortBy(intervals, ByStart));
            var shown := Projected(Showing(SortBy(intervals, ByStart), f.tick));
            && multiset(swept.projectiles) == multiset(f.projectiles) + multiset(Projected(Showing(intervals, f.tick)))
            && Sorted(swept.projectiles, DrawnBefore)
            && Peers(swept.projectiles, y, DrawnBefore) == Peers(f.projectiles, y, DrawnBefore) + Peers(shown, y, DrawnBefore)
            && swept.tick == f.tick && swept.content == f.content && swept.bomb == f.bomb
  {
    hide SortBy, Projected, Showing, Gain, DrawnBefore, Peers, Sorted;
    var sorted := SortBy(intervals, ByStart);
    var shown := Projected(Showing(sorted, f.tick));
    GainOfSorted(intervals, ByStart, f.tick);
    GainIsShowing(sorted, f.tick);
    GainIsShowing(intervals, f.tick);
    DrawnBeforeIsTotal();
    SortBySorts(f.projectiles + shown, DrawnBefore);
    SortByIsStable(f.projectiles + shown, y, DrawnBefore);
    PeersConcat(f.projectiles, shown, y, DrawnBefore);
  }

  // --- the bomb ----------------------------------------------------------------------------

  function BombAfter(bomb: Option<Bomb>, e: Event): Option<Bomb> {
    match e.kind
    case RoundStart => None
    case BombPlant => if ValidPosition(e).Some? then Some(Bomb(e.position.value, "planted")) else bomb
    case BombDefuse => if bomb.Some? then Some(Bomb(bomb.value.position, "defused")) else None
    case BombExplode => if bomb.Some? then Some(Bomb(bomb.value.position, "exploded")) else None
    case _ => bomb
  }

  function BombFold(o: seq<Event>): Option<Bomb> {
    if o == [] then None else BombAfter(BombFold(o[..|o| - 1]), o[|o| - 1])
  }

  /** o[n..] is later than tick, and o[..n] is not. */
  ghost predicate Splits(o: seq<Event>, n: nat, tick: u64) {
    && n <= |o|
    && (forall i :: 0 <= i < n ==> o[i].tick <= tick)
    && (forall i :: n <= i < |o| ==> o[i].tick > tick)
  }

  /** How many events come no later than tick. */
  function Until(o: seq<Event>, tick: u64): (n: nat)
    ensures n <= |o|
  {
    if o == [] || o[0].tick > tick then 0 else 1 + Until(o[1..], tick)
  }

  lemma {:induction false} UntilSplits(o: seq<Event>, tick: u64)
    requires TicksAscend(o)
    ensures Splits(o, Until(o, tick), tick)
  {
    if o != [] {
      UntilSplits(o[1..], tick);
      assert forall i :: 0 < i < |o| ==> o[0].tick <= o[i].tick && o[i] == o[1..][i - 1];
    }
  }

  function BombAt(o: seq<Event>, tick: u64): Option<Bomb> {
    BombFold(o[..Until(o, tick)])
  }

  method ApplyBombState(frames: array<Frame>, events: seq<Event>)
    requires FramesAscend(frames[..])
    modifies frames
    ensures forall i :: 0 <= i < frames.Length ==>
      frames[i] == old(frames[i]).(bomb := BombAt(SortBy(events, Earlier), old(frames[i]).tick))
  {
    var ordered := SortBy(events, Earlier);
    hide SortBy, BombFold, BombAt, Splits, TicksAscend;
    EventsInOrder(events);
    ghost var fs := frames[..];
    var next := 0;
    var bomb: Option<Bomb> := None;
    NoBombYet(ordered);
    for i := 0 to frames.Length
      invariant 0 <= next <= |ordered| && bomb == BombFold(ordered[..next])
      invariant i < frames.Length ==> forall k :: 0 <= k < next ==> ordered[k].tick <= fs[i].tick
      invariant frames[i..] == fs[i..]
      invariant forall k :: 0 <= k < i ==> frames[k] == fs[k].(bomb := BombAt(ordered, fs[k].tick))
    {
      assert frames[i] == frames[i..][0] == fs[i];
      var frame := frames[i];
      bomb, next := AdvanceBomb(ordered, bomb, next, frame.tick);
      frames[i] := frame.(bomb := bomb);
      EarlierThan(ordered, next, fs[i].tick);
      assert i + 1 < frames.Length ==> fs[i].tick <= fs[i + 1].tick;
      assert frames[i + 1..] == fs[i + 1..];
    }
  }

  lemma NoBombYet(o: seq<Event>)
    ensures BombFold(o[..0]) == None
  {
  }

  lemma SplitsOnce(o: seq<Event>, n: nat, n': nat, tick: u64)
    requires Splits(o, n, tick) && Splits(o, n', tick)
    ensures n == n'
  {
    assert n < |o| ==> o[n].tick > tick;
    assert n' < |o| ==> o[n'].tick > tick;
  }

  lemma EarlierThan(o: seq<Event>, n: nat, tick: u64)
    requires Splits(o, n, tick)
    ensures n <= |o| && forall k :: 0 <= k < n ==> o[k].tick <= tick
  {
  }

  method ObserveBomb(bomb: Option<Bomb>, event: Event) returns (r: Option<Bomb>)
    ensures r == BombAfter(bomb, event)
  {
    r := bomb;
    match event.kind {
      case RoundStart => r := None;
      case BombPlant =>
        if ValidPosition(event).Some? {
          r := Some(Bomb(event.position.value, "planted"));
        }
      case BombDefuse =>
        if bomb.Some? {
          r := Some(Bomb(bomb.value.position, "defused"));
        }
      case BombExplode =>
        if bomb.Some? {
          r := Some(Bomb(bomb.value.position, "exploded"));
        }
      case _ =>
    }
  }

  method AdvanceBomb(ordered: seq<Event>, bomb0: Option<Bomb>, next0: nat, tick: u64) returns (bomb: Option<Bomb>, next: nat)
    requires TicksAscend(ordered) && next0 <= |ordered| && bomb0 == BombFold(ordered[..next0])
    requires forall k :: 0 <= k < next0 ==> ordered[k].tick <= tick
    ensures Splits(ordered, next, tick) && bomb == BombFold(ordered[..next]) == BombAt(ordered, tick)
  {
    hide BombAfter, Until, Splits, BombAt;
    bomb, next := bomb0, next0;
    while next < |ordered| && ordered[next].tick <= tick
      invariant next <= |ordered| && bomb == BombFold(ordered[..next])
      invariant forall k :: 0 <= k < next ==> ordered[k].tick <= tick
    {
      bomb := ObserveBomb(bomb, ordered[next]);
      assert ordered[..next + 1][..next] == ordered[..next];
      next := next + 1;
    }
    forall k | next <= k < |ordered|
      ensures ordered[k].tick > tick
    {
      assert ordered[next].tick <= ordered[k].tick;
    }
    IsBombAt(ordered, next, tick);
  }

  lemma IsBombAt(o: seq<Event>, n: nat, tick: u64)
    requires TicksAscend(o) && n <= |o|
    requires forall i :: 0 <= i < n ==> o[i].tick <= tick
    requires forall i :: n <= i < |o| ==> o[i].tick > tick
    ensures Splits(o, n, tick) && BombFold(o[..n]) == BombAt(o, tick)
  {
    UntilSplits(o, tick);
    SplitsOnce(o, n, Until(o, tick), tick);
  }

  predicate Plants(e: Event) {
    e.kind.BombPlant? && ValidPosition(e).Some?
  }

  predicate EndsBomb(e: Event) {
    e.kind.BombDefuse? || e.kind.BombExplode?
  }

  /** The bomb was planted last by event p, in the running round, and what happened to it last since
      was event e, or nothing. */
  ghost predicate BombIs(o: seq<Event>, bomb: Bomb, p: nat, e: nat) {
    && p <= e < |o| && Plants(o[p]) && bomb.position == o[p].position.value
    && (forall i :: p < i < |o| ==> !o[i].kind.RoundStart? && !Plants(o[i]))
    && (p < e ==> EndsBomb(o[e])) && (forall i :: e < i < |o| ==> !EndsBomb(o[i]))
    && bomb.state == if e == p then "planted" else if o[e].kind.BombDefuse? then "defused" else "exploded"
  }

  /** Every planted bomb was cleared by a later round start. */
  ghost predicate NoBomb(o: seq<Event>) {
    forall i :: 0 <= i < |o| && Plants(o[i]) ==> exists r :: i < r < |o| && o[r].kind.RoundStart?
  }

  lemma BombIsNext(o: seq<Event>, bomb: Bomb, p: nat, e: nat, last: Event)
    requires BombIs(o, bomb, p, e) && BombAfter(Some(bomb), last).Some? && !Plants(last)
    ensures BombIs(o + [last], BombAfter(Some(bomb), last).value, p, if EndsBomb(last) then |o| else e)
  {
    var all := o + [last];
    assert all[|o|] == last && forall i :: 0 <= i < |o| ==> all[i] == o[i];
  }

  lemma NoBombNext(o: seq<Event>, last: Event)
    requires last.kind.RoundStart? || (NoBomb(o) && !Plants(last))
    ensures NoBomb(o + [last])
  {
    var all := o + [last];
    assert all[|o|] == last && forall i :: 0 <= i < |o| ==> all[i] == o[i];
    forall i | 0 <= i < |all| && Plants(all[i])
      ensures exists r :: i < r < |all| && all[r].kind.RoundStart?
    {
      if last.kind.RoundStart? {
        assert all[|o|].kind.RoundStart?;
      } else {
        var r :| i < r < |o| && o[r].kind.RoundStart?;
        assert all[r].kind.RoundStart?;
      }
    }
  }

  /** A bomb is there exactly if one was planted, at a usable place, in the running round; it lies
      where it was planted last, and its state is what happened to it last since. */
  lemma {:induction false} BombMeans(o: seq<Event>) returns (p: nat, e: nat)
    ensures BombFold(o).Some? ==> BombIs(o, BombFold(o).value, p, e)
    ensures BombFold(o).None? ==> NoBomb(o)
  {
    hide BombIs, NoBomb;
    p, e := 0, 0;
    if o == [] {
      NothingPlanted();
    } else {
      var before, last := o[..|o| - 1], o[|o| - 1];
      assert o == before + [last];
      p, e := BombMeans(before);
      if Plants(last) {
        p, e := |o| - 1, |o| - 1;
        JustPlanted(before, last);
      } else if BombFold(o).Some? {
        BombIsNext(before, BombFold(before).value, p, e, last);
        e := if EndsBomb(last) then |before| else e;
      } else {
        NoBombNext(before, last);
      }
    }
  }

  lemma NothingPlanted()
    ensures NoBomb([])
  {
  }

  lemma JustPlanted(o: seq<Event>, last: Event)
    requires Plants(last)
    ensures BombIs(o + [last], Bomb(last.position.value, "planted"), |o|, |o|)
  {
  }

  // --- both sweeps -----------------------------------------------------------------------------

  ghost predicate Rendered(before: seq<Frame>, after: seq<Frame>, intervals: seq<Interval>, o: seq<Event>) {
    && |after| == |before|
    && forall i :: 0 <= i < |before| ==>
         after[i] == Swept(before[i], intervals).(bomb := BombAt(o, before[i].tick))
  }

  /** Frame i is the first over a limit. */
  ghost predicate FirstOver(fs: seq<Frame>, i: nat, intervals: seq<Interval>, e: LimitError) {
    && i < |fs| && OverLimit(fs, i, intervals) && IsReported(fs, i, intervals, e)
    && forall k :: 0 <= k < i ==> !OverLimit(fs, k, intervals)
  }

  ghost predicate WithinLimits(fs: seq<Frame>, intervals: seq<Interval>) {
    forall i :: 0 <= i < |fs| ==> !OverLimit(fs, i, intervals)
  }

  /** The frames come out sorted, with effects and bomb; or a limit was exceeded. */
  method ApplyReplayState(frames: array<Frame>, events: seq<Event>)
    returns (r: Option<LimitError>, ghost intervals: seq<Interval>, ghost m: map<nat, nat>, ghost from: seq<nat>)
    modifies frames
    ensures IntervalsOf(events, intervals, m, from)
    ensures r.None? <==> WithinLimits(SortBy(old(frames[..]), ByTick), SortBy(intervals, ByStart))
    ensures r.Some? ==> exists i :: FirstOver(SortBy(old(frames[..]), ByTick), i, SortBy(intervals, ByStart), r.value)
    ensures r.None? ==>
      Rendered(SortBy(old(frames[..]), ByTick), frames[..], SortBy(intervals, ByStart), SortBy(events, Earlier))
  {
    hide SortBy, OverLimit, Swept, IsReported, IntervalsOf, Matching, Emitted, BombAt, EvidenceTickRate, FramesAscend, StartsAscend;
    var before := SortBy(frames[..], ByTick);
    FramesInOrder(frames[..]);
    Restore(frames, before);
    var found;
    found := EffectIntervals(events);
    intervals := found;
    m, from :| IntervalsOf(events, intervals, m, from);
    var sorted := SortBy(found, ByStart);
    StartsInOrder(found);
    r := SweepFrames(frames, sorted);
    if r.Some? {
      ghost var i :| 0 <= i < frames.Length && StoppedAt(before, frames[..], i, sorted) && IsReported(before, i, sorted, r.value);
      assert FirstOver(before, i, sorted, r.value);
      return;
    }
    SweptKeepsTicks(before, frames[..], sorted);
    ApplyBombState(frames, events);
  }

  method Restore(frames: array<Frame>, values: seq<Frame>)
    requires |values| == frames.Length
    modifies frames
    ensures frames[..] == values
  {
    forall i | 0 <= i < frames.Length {
      frames[i] := values[i];
    }
  }

  lemma SweptKeepsTicks(before: seq<Frame>, after: seq<Frame>, intervals: seq<Interval>)
    requires |before| == |after| && FramesAscend(before)
    requires forall i :: 0 <= i < |before| ==> after[i] == Swept(before[i], intervals)
    ensures FramesAscend(after)
    ensures forall i :: 0 <= i < |before| ==> after[i].tick == before[i].tick
  {
  }
}

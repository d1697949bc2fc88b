/** What the frames of a replay show of utility effects, told from the intervals. */
module RenderedFrames {
  import opened Bytes
  import opened Results
  import opened Sorting
  import opened Texts
  import opened UtilityLifecycles
  import opened EffectSweep

  /** The projectile stands for the effect. Where the event gave no radius, a smoke has 144 units and a
      fire 150. */
  predicate StandsFor(p: Projectile, e: Interval) {
    && p.tag == Effect(e.id) && p.owner == e.owner && p.kind == e.kind && p.position == e.position
    && p.startTick == e.startTick && p.endTick == e.endTick && p.active && (p.masksVision <==> e.masksVision)
    && match e.radius
       case Some(r) => p.radius == Some(r)
       case None => p.radius == if e.kind == "smoke" then Some(144) else if e.kind == "inferno" then Some(150) else None
  }

  /** at lists, in order, the intervals around the tick, and effects stand for them. */
  ghost predicate AreEffects(intervals: seq<Interval>, tick: u64, at: seq<nat>, effects: seq<Projectile>) {
    && |effects| == |at| && (forall j, k :: 0 <= j < k < |at| ==> at[j] < at[k])
    && (forall j :: 0 <= j < |at| ==> at[j] < |intervals| && StandsFor(effects[j], intervals[at[j]]))
    && forall i :: 0 <= i < |intervals| ==> (i in at <==> intervals[i].startTick <= tick <= intervals[i].endTick)
  }

  lemma {:induction false} EffectsMean(intervals: seq<Interval>, n: nat, tick: u64) returns (at: seq<nat>)
    requires n <= |intervals|
    ensures AreEffects(intervals[..n], tick, at, Projected(Showing(intervals[..n], tick)))
  {
    hide Showing, AsProjectile, StandsFor;
    at := [];
    if n == 0 {
      NothingShows(tick);
    } else {
      var e := intervals[n - 1];
      at := EffectsMean(intervals, n - 1, tick);
      assert intervals[..n] == intervals[..n - 1] + [e];
      ShowingLast(intervals[..n - 1], e, tick);
      AsProjectileMeans(e);
      if e.startTick <= tick <= e.endTick {
        at := at + [n - 1];
      }
    }
  }

  lemma AsProjectileMeans(e: Interval)
    ensures StandsFor(AsProjectile(e), e)
  {
  }

  lemma NothingShows(tick: u64)
    ensures Showing([], tick) == []
  {
  }

  lemma {:induction false} ShowingLast(xs: seq<Interval>, e: Interval, tick: u64)
    ensures Showing(xs + [e], tick) == Showing(xs, tick) + if e.startTick <= tick <= e.endTick then [e] else []
  {
    if xs == [] {
      assert xs + [e] == [e] && [e][1..] == [];
    } else {
      ShowingLast(xs[1..], e, tick);
      assert (xs + [e])[0] == xs[0] && (xs + [e])[1..] == xs[1..] + [e];
    }
  }

  /** Text order of the kinds, then x, then y; a coordinate that is no number comes last. */
  predicate InDrawingOrder(p: Projectile, q: Projectile) {
    if p.kind != q.kind then AtMost(p.kind, q.kind)
    else if p.position.x != q.position.x then q.position.x.Nowhere? || (p.position.x.At? && p.position.x.rank <= q.position.x.rank)
    else q.position.y.Nowhere? || (p.position.y.At? && p.position.y.rank <= q.position.y.rank)
  }

  /** Frame g is frame f with the effects around its tick, and nothing else, in drawing order. */
  lemma FrameShows(f: Frame, intervals: seq<Interval>, g: Frame) returns (at: seq<nat>, effects: seq<Projectile>)
    requires g.(bomb := f.bomb) == Swept(f, SortBy(intervals, ByStart))
    ensures g.tick == f.tick && g.content == f.content
    ensures AreEffects(intervals, f.tick, at, effects)
    ensures multiset(g.projectiles) == multiset(f.projectiles) + multiset(effects)
    ensures forall i, j :: 0 <= i < j < |g.projectiles| ==> InDrawingOrder(g.projectiles[i], g.projectiles[j])
  {
    hide Swept, SortBy, Showing, AreEffects, DrawnBefore, Peers;
    at := EffectsMean(intervals, |intervals|, f.tick);
    assert intervals[..|intervals|] == intervals;
    effects := Projected(Showing(intervals, f.tick));
    var swept := Swept(f, SortBy(intervals, ByStart));
    FrameGainsItsEffects(f, intervals, Projectile(Flight(""), None, "", Position(Nowhere, Nowhere, Nowhere), 0, 0, false, None, false));
    forall i, j | 0 <= i < j < |g.projectiles|
      ensures InDrawingOrder(g.projectiles[i], g.projectiles[j])
    {
      assert DrawnBefore(swept.projectiles[i], swept.projectiles[j]);
      OrderMeans(swept.projectiles[i], swept.projectiles[j]);
    }
  }

  lemma OrderMeans(p: Projectile, q: Projectile)
    ensures DrawnBefore(p, q) <==> InDrawingOrder(p, q)
  {
    hide AtMost;
  }

  // --- the limits -----------------------------------------------------------------------------------

  /** What a frame would hold. */
  ghost function Load(f: Frame, intervals: seq<Interval>): nat {
    |f.projectiles| + |set i | 0 <= i < |intervals| && intervals[i].startTick <= f.tick <= intervals[i].endTick|
  }

  ghost function Loads(fs: seq<Frame>, intervals: seq<Interval>): nat {
    if fs == [] then 0 else Loads(fs[..|fs| - 1], intervals) + Load(fs[|fs| - 1], intervals)
  }

  lemma {:induction false} LoadMeans(f: Frame, intervals: seq<Interval>, n: nat)
    requires n <= |intervals|
    ensures |Showing(intervals[..n], f.tick)|
         == |set i | 0 <= i < n && intervals[i].startTick <= f.tick <= intervals[i].endTick|
  {
    hide Showing;
    var now := set i | 0 <= i < n && intervals[i].startTick <= f.tick <= intervals[i].endTick;
    if n == 0 {
      NothingShows(f.tick);
      assert now == {};
    } else {
      var e := intervals[n - 1];
      LoadMeans(f, intervals, n - 1);
      assert intervals[..n] == intervals[..n - 1] + [e];
      ShowingLast(intervals[..n - 1], e, f.tick);
      var before := set i | 0 <= i < n - 1 && intervals[i].startTick <= f.tick <= intervals[i].endTick;
      if e.startTick <= f.tick <= e.endTick {
        assert now == before + {n - 1};
      } else {
        assert now == before;
      }
    }
  }

  lemma {:induction false} LoadsMean(fs: seq<Frame>, intervals: seq<Interval>)
    ensures Total(fs, intervals) == Loads(fs, intervals)
  {
    hide RecordCount, Load;
    if fs != [] {
      LoadsMean(fs[..|fs| - 1], intervals);
      RecordsMean(fs[|fs| - 1], intervals);
    }
  }

  lemma RecordsMean(f: Frame, intervals: seq<Interval>)
    ensures RecordCount(f, intervals) == Load(f, intervals)
  {
    LoadMeans(f, intervals, |intervals|);
    assert intervals[..|intervals|] == intervals;
  }

  /** A frame is over a limit if it would hold more than 512 projectiles, or all up to it more than a million;
      the first is what is reported if both are so. */
  lemma LimitMeans(fs: seq<Frame>, i: nat, intervals: seq<Interval>, e: LimitError)
    requires i < |fs|
    ensures OverLimit(fs, i, intervals) <==> Load(fs[i], intervals) > 512 || Loads(fs[..i + 1], intervals) > 1_000_000
    ensures IsReported(fs, i, intervals, e) <==>
            e == if Load(fs[i], intervals) > 512 then PerFrame(Load(fs[i], intervals))
                 else Records(Loads(fs[..i + 1], intervals))
  {
    LoadsMean(fs[..i + 1], intervals);
    RecordsMean(fs[i], intervals);
  }
}

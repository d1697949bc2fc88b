/** From utility events to the tick intervals in which their effects show: starts and ends of
    smokes, fires and decoys are paired first in, first out, and never across a round start. */
module UtilityLifecycles {
  import opened Bytes
  import opened Results
  import opened ReplayPayloads
  import opened Sorting

  datatype EventKind = RoundStart | Grenade | BombPlant | BombDefuse | BombExplode | OtherKind

  type i64 = x: int | -0x8000_0000_0000_0000 <= x < 0x8000_0000_0000_0000

  /** A coordinate by its rank in the total order of 64-bit floats; NaN and the infinities are not finite. */
  datatype Coord = At(rank: i64) | Nowhere

  datatype Position = Position(x: Coord, y: Coord, z: Coord)

  /** entity is the first usable projectile id among the details, radius the first usable
      radius, and weaponKind what the weapon's name stands for. */
  datatype Event = Event(id: string, tick: u64, seconds: Float, kind: EventKind, actor: Option<string>,
                         position: Option<Position>, entity: Option<string>, radius: Option<int>, weaponKind: string)

  datatype Key = ById(entity: string) | ByPosition(position: Position)

  datatype Source = FromKey(key: Key) | FromEvent(id: string)

  datatype EffectId = EffectId(kind: string, source: Source, tick: u64)

  datatype Interval = Interval(id: EffectId, owner: Option<string>, kind: string, position: Position,
                               startTick: u64, endTick: u64, radius: Option<int>, masksVision: bool)

  datatype Signal = PersistentStart(kind: string) | PersistentEnd(kind: string) | Instant(kind: string, seconds: real)
                  | Ignore | Exact

  function EffectSignal(id: string): Signal {
    if "smokegrenade_detonate-" <= id then PersistentStart("smoke")
    else if "smokegrenade_expired-" <= id then PersistentEnd("smoke")
    else if "inferno_startburn-" <= id then PersistentStart("inferno")
    else if "inferno_expire-" <= id then PersistentEnd("inferno")
    else if "decoy_started-" <= id then PersistentStart("decoy")
    else if "decoy_detonate-" <= id then PersistentEnd("decoy")
    else if "hegrenade_detonate-" <= id then Instant("he", 0.35)
    else if "flashbang_detonate-" <= id then Instant("flash", 0.45)
    else if "grenade_thrown-" <= id || "player_blind-" <= id then Ignore
    else Exact
  }

  function ValidPosition(e: Event): Option<Position> {
    if e.position.Some? && e.position.value.x.At? && e.position.value.y.At? && e.position.value.z.At?
    then e.position else None
  }

  function LifecycleKey(e: Event): Option<Key> {
    if e.entity.Some? then Some(ById(e.entity.value))
    else if ValidPosition(e).Some? then Some(ByPosition(e.position.value))
    else None
  }

  function IdOf(e: Event, kind: string): EffectId {
    EffectId(kind, if LifecycleKey(e).Some? then FromKey(LifecycleKey(e).value) else FromEvent(e.id), e.tick)
  }

  /** Ticks over seconds of the events that have both, if plausible. */
  function Rates(events: seq<Event>): (r: seq<real>)
    ensures forall x <- r :: 8.0 <= x <= 1024.0
  {
    if events == [] then []
    else
      var e := events[0];
      (if 0 < e.tick < 0x1_0000_0000 && e.seconds.Finite? && e.seconds.value > 0.0
          && 8.0 <= e.tick as real / e.seconds.value <= 1024.0
       then [e.tick as real / e.seconds.value] else []) + Rates(events[1..])
  }

  /** The common tick rate, if all evidence agrees within half a percent. */
  function EvidenceTickRate(events: seq<Event>): (r: Option<real>)
    ensures r.Some? ==> 8.0 <= r.value <= 1024.0
  {
    var rates := Rates(events);
    if rates == [] then None
    else
      var first := rates[0];
      assert first in rates;
      if forall x <- rates :: -0.005 <= (x - first) / first <= 0.005 then Some(first) else None
  }

  function WindowTicks(rate: Option<real>, seconds: real): u64
    requires rate.Some? ==> 0.0 <= rate.value <= 1024.0
    requires 0.0 <= seconds <= 1.0
  {
    if rate.None? then 0
    else
      WindowFits(rate.value, seconds);
      RoundAway(rate.value * seconds)
  }

  lemma WindowFits(rate: real, seconds: real)
    requires 0.0 <= rate <= 1024.0 && 0.0 <= seconds <= 1.0
    ensures 0 <= RoundAway(rate * seconds) <= 1024
  {
    assert 0.0 <= rate * seconds <= rate;
    var x := rate * seconds;
    assert (x + 0.5).Floor as real <= x + 0.5 < (x + 0.5).Floor as real + 1.0;
  }

  /** Round starts come first within their tick. */
  predicate Earlier(a: Event, b: Event) {
    a.tick < b.tick || (a.tick == b.tick && (a.kind.RoundStart? || !b.kind.RoundStart?))
  }

  // --- what an event contributes --------------------------------------------------

  type PairKey = (string, Key)

  function StartKey(e: Event): (r: Option<PairKey>)
    ensures r.Some? ==> e.kind.Grenade? && EndKey(e).None?
  {
    if e.kind.Grenade? && EffectSignal(e.id).PersistentStart? && LifecycleKey(e).Some?
    then Some((EffectSignal(e.id).kind, LifecycleKey(e).value)) else None
  }

  function EndKey(e: Event): (r: Option<PairKey>)
    ensures r.Some? ==> e.kind.Grenade?
  {
    if e.kind.Grenade? && EffectSignal(e.id).PersistentEnd? && LifecycleKey(e).Some?
    then Some((EffectSignal(e.id).kind, LifecycleKey(e).value)) else None
  }

  function PairedInterval(start: Event, end: Event, kind: string): (r: Interval)
    requires ValidPosition(start).Some?
    ensures r.startTick == start.tick && r.startTick <= r.endTick
    ensures r.endTick == start.tick || r.endTick + 1 == end.tick
  {
    Interval(IdOf(start, kind), start.actor, kind, start.position.value, start.tick,
             if SaturatingSub(end.tick, 1) > start.tick then SaturatingSub(end.tick, 1) else start.tick,
             start.radius, kind == "smoke")
  }

  function SingleTick(start: Event, kind: string): (r: Interval)
    requires ValidPosition(start).Some?
    ensures r.startTick == start.tick == r.endTick
  {
    Interval(IdOf(start, kind), start.actor, kind + "_event", start.position.value, start.tick, start.tick,
             start.radius, false)
  }

  function Momentary(e: Event, kind: string, window: u64): Interval
    requires ValidPosition(e).Some?
  {
    Interval(IdOf(e, kind), e.actor, kind, e.position.value, e.tick, SaturatingAdd(e.tick, window), e.radius, false)
  }

  /** The interval an event stands for once its fate is known: end is what a persistent start
      was paired with, if anything. */
  function Item(e: Event, rate: Option<real>, end: Option<Event>): (r: Option<Interval>)
    requires rate.Some? ==> 0.0 <= rate.value <= 1024.0
    ensures StartKey(e).Some? && r.Some? ==> r.value.startTick == e.tick && r.value.startTick <= r.value.endTick
    ensures StartKey(e).Some? ==> (r.Some? <==> ValidPosition(e).Some?)
    ensures !e.kind.Grenade? || EndKey(e).Some? ==> r.None?
  {
    if !e.kind.Grenade? || ValidPosition(e).None? then None
    else
      match EffectSignal(e.id)
      case PersistentStart(kind) =>
        Some(if end.Some? then PairedInterval(e, end.value, kind) else SingleTick(e, kind))
      case PersistentEnd(_) => None
      case Instant(kind, seconds) => Some(Momentary(e, kind, WindowTicks(rate, seconds)))
      case Ignore => None
      case Exact => Some(Momentary(e, e.weaponKind, 0))
  }

  function EndOf(o: seq<Event>, m: map<nat, nat>, i: nat): Option<Event>
    requires i in m ==> m[i] < |o|
  {
    if i in m then Some(o[m[i]]) else None
  }

  /** from names, for each interval, the one event it stands for; and the first n events have
      all got theirs, leaving out those whose fate is open. */
  ghost predicate Emitted(o: seq<Event>, rate: Option<real>, n: nat, m: map<nat, nat>, open: set<nat>,
                          intervals: seq<Interval>, from: seq<nat>)
    requires n <= |o| && (rate.Some? ==> 0.0 <= rate.value <= 1024.0)
    requires forall i <- m :: m[i] < |o|
  {
    && |from| == |intervals|
    && NoRepeats(from)
    && (forall q :: 0 <= q < |from| ==> Settled(o, rate, n, m, open, from[q], Some(intervals[q])))
    && (forall i: nat :: i < n && i !in open && i !in from ==> Settled(o, rate, n, m, open, i, None))
  }

  predicate NoRepeats(from: seq<nat>) {
    forall a, b :: 0 <= a < b < |from| ==> from[a] != from[b]
  }

  ghost predicate Settled(o: seq<Event>, rate: Option<real>, n: nat, m: map<nat, nat>, open: set<nat>, i: nat,
                          interval: Option<Interval>)
    requires n <= |o| && (rate.Some? ==> 0.0 <= rate.value <= 1024.0)
    requires forall k <- m :: m[k] < |o|
  {
    i < n && i !in open && Item(o[i], rate, EndOf(o, m, i)) == interval
  }

  /** Deciding the fate of one event, open or just read, adds its interval if it stands for one. */
  lemma EmittedNext(o: seq<Event>, rate: Option<real>, n: nat, n': nat, m: map<nat, nat>, m': map<nat, nat>,
                    open: set<nat>, open': set<nat>, intervals: seq<Interval>, from: seq<nat>, i: nat)
    requires n <= n' <= |o| && (rate.Some? ==> 0.0 <= rate.value <= 1024.0)
    requires (forall k <- m :: m[k] < |o|) && (forall k <- m' :: m'[k] < |o|)
    requires Emitted(o, rate, n, m, open, intervals, from)
    requires i < n' && (i in open || i >= n)
    requires forall k: nat :: k < n' ==> (k in open' || k == i <==> k in open || k >= n)
    requires i !in open'
    requires forall k: nat :: k < n && k != i ==> EndOf(o, m, k) == EndOf(o, m', k)
    ensures var item := Item(o[i], rate, EndOf(o, m', i));
            if item.Some? then Emitted(o, rate, n', m', open', intervals + [item.value], from + [i])
            else Emitted(o, rate, n', m', open', intervals, from)
  {
    hide Item, EndOf;
    var item := Item(o[i], rate, EndOf(o, m', i));
    forall q | 0 <= q < |from|
      ensures from[q] != i
    {
      assert Settled(o, rate, n, m, open, from[q], Some(intervals[q]));
    }
    forall q | 0 <= q < |from|
      ensures Settled(o, rate, n', m', open', from[q], Some(intervals[q]))
    {
      assert Settled(o, rate, n, m, open, from[q], Some(intervals[q]));
    }
    forall k: nat | k < n' && k !in open' && k !in from && k != i
      ensures Settled(o, rate, n', m', open', k, None)
    {
      assert Settled(o, rate, n, m, open, k, None);
    }
    assert item.Some? ==> forall q :: 0 <= q < |from| ==> (from + [i])[q] == from[q] && (intervals + [item.value])[q] == intervals[q];
  }

  // --- which pairs are formed --------------------------------------------------------

  predicate NoRoundStart(o: seq<Event>, i: int, j: int)
    requires 0 <= i && j <= |o|
  {
    forall k :: i < k < j ==> !o[k].kind.RoundStart?
  }

  /** i and j are a start and a later end of one thing in one round. */
  predicate Pairable(o: seq<Event>, i: nat, j: nat) {
    i < j < |o| && StartKey(o[i]).Some? && StartKey(o[i]) == EndKey(o[j]) && NoRoundStart(o, i, j)
  }

  /** Only pairable events are paired, each once, in order; and an end passes a start by only
      for one that came before it. */
  ghost predicate Matching(o: seq<Event>, n: nat, m: map<nat, nat>)
    requires n <= |o|
  {
    && PairsOnly(o, n, m)
    && (forall i <- m, i' <- m :: i < i' && StartKey(o[i]) == StartKey(o[i']) ==> m[i] < m[i'])
    && FirstComeFirst(o, n, m)
  }

  ghost predicate PairsOnly(o: seq<Event>, n: nat, m: map<nat, nat>)
    requires n <= |o|
  {
    forall i <- m :: m[i] < n && Pairable(o, i, m[i])
  }

  ghost predicate FirstComeFirst(o: seq<Event>, n: nat, m: map<nat, nat>)
    requires n <= |o|
  {
    forall i: nat, j: nat :: j < n && Pairable(o, i, j) && (i !in m || m[i] > j) ==>
      exists i' :: i' in m && i' < i && m[i'] == j
  }

  /** Starts that are still in a queue. */
  ghost predicate Waiting(o: seq<Event>, n: nat, m: map<nat, nat>, i: nat, k: PairKey)
    requires n <= |o|
  {
    i < n && StartKey(o[i]) == Some(k) && i !in m && NoRoundStart(o, i, n)
  }

  ghost predicate QueuesOk(o: seq<Event>, n: nat, m: map<nat, nat>, pending: map<PairKey, seq<nat>>)
    requires n <= |o|
  {
    && (forall k <- pending :: pending[k] != [] && forall a, b :: 0 <= a < b < |pending[k]| ==> pending[k][a] < pending[k][b])
    && (forall i: nat, k :: Queued(pending, i, k) <==> Waiting(o, n, m, i, k))
  }

  predicate Queued(pending: map<PairKey, seq<nat>>, i: nat, k: PairKey) {
    k in pending && i in pending[k]
  }

  function Open(pending: map<PairKey, seq<nat>>): (r: set<nat>)
    ensures forall i: nat :: i in r <==> exists k :: Queued(pending, i, k)
  {
    set k, i | k in pending && i in pending[k] && Queued(pending, i, k) :: i
  }

  /** A start that waits while a later one is paired has been passed by for an earlier one. */
  lemma PassedBy(o: seq<Event>, n: nat, m: map<nat, nat>, first: nat, later: nat, k: PairKey) returns (i: nat)
    requires n <= |o| && PairsOnly(o, n, m) && FirstComeFirst(o, n, m)
    requires Waiting(o, n, m, first, k) && first < later && later in m && StartKey(o[later]) == Some(k)
    ensures i in m && i < first && m[i] == m[later] && StartKey(o[i]) == Some(k)
  {
    hide StartKey, EndKey;
    assert Pairable(o, later, m[later]);
    assert Pairable(o, first, m[later]);
    i :| i in m && i < first && m[i] == m[later];
    assert Pairable(o, i, m[i]);
  }

  lemma WaitingIsQueued(o: seq<Event>, n: nat, m: map<nat, nat>, pending: map<PairKey, seq<nat>>, i: nat, k: PairKey)
    requires n <= |o| && QueuesOk(o, n, m, pending) && Waiting(o, n, m, i, k)
    ensures Queued(pending, i, k)
  {
  }

  /** An end that finds its queue takes the front. */
  lemma PopKeepsMatching(o: seq<Event>, n: nat, m: map<nat, nat>, pending: map<PairKey, seq<nat>>, k: PairKey)
    requires n < |o| && Matching(o, n, m) && QueuesOk(o, n, m, pending)
    requires EndKey(o[n]) == Some(k) && k in pending
    ensures Matching(o, n + 1, m[pending[k][0] := n])
  {
    hide StartKey, EndKey;
    var first := pending[k][0];
    assert Queued(pending, first, k);
    assert Waiting(o, n, m, first, k);
    var m' := m[first := n];
    forall i, i' | i in m' && i' in m' && i < i' && StartKey(o[i]) == StartKey(o[i'])
      ensures m'[i] < m'[i']
    {
      if i == first {
        var i1 := PassedBy(o, n, m, first, i', k);
        assert false;
      }
    }
    forall i: nat, j: nat | j < n + 1 && Pairable(o, i, j) && (i !in m' || m'[i] > j)
      ensures exists i' :: i' in m' && i' < i && m'[i'] == j
    {
      if j == n {
        assert Waiting(o, n, m, i, k);
        assert Queued(pending, i, k);
        assert first in m' && m'[first] == j;
      } else {
        var i' :| i' in m && i' < i && m[i'] == j;
        assert i' in m' && m'[i'] == j;
      }
    }
  }

  /** Every other event leaves the pairs alone; an end is one of those if nothing waits for it. */
  lemma OthersKeepMatching(o: seq<Event>, n: nat, m: map<nat, nat>, pending: map<PairKey, seq<nat>>)
    requires n < |o| && Matching(o, n, m) && QueuesOk(o, n, m, pending)
    requires EndKey(o[n]).None? || EndKey(o[n]).value !in pending
    ensures Matching(o, n + 1, m)
  {
    hide StartKey, EndKey;
    forall i: nat, j: nat | j < n + 1 && Pairable(o, i, j) && (i !in m || m[i] > j)
      ensures exists i' :: i' in m && i' < i && m[i'] == j
    {
      if j == n {
        WaitingIsQueued(o, n, m, pending, i, StartKey(o[i]).value);
        assert false;
      }
    }
  }

  lemma PushKeepsQueues(o: seq<Event>, n: nat, m: map<nat, nat>, pending: map<PairKey, seq<nat>>, k: PairKey)
    requires n < |o| && Matching(o, n, m) && QueuesOk(o, n, m, pending) && StartKey(o[n]) == Some(k)
    ensures var queue := if k in pending then pending[k] else [];
            QueuesOk(o, n + 1, m, pending[k := queue + [n]]) && Open(pending[k := queue + [n]]) == Open(pending) + {n}
  {
    hide StartKey, EndKey;
    var queue := if k in pending then pending[k] else [];
    var after := pending[k := queue + [n]];
    assert forall i <- queue :: Queued(pending, i, k);
    forall i: nat, k'
      ensures Queued(after, i, k') <==> Waiting(o, n + 1, m, i, k')
      ensures Queued(after, i, k') <==> Queued(pending, i, k') || (i == n && k' == k)
    {
      assert Queued(pending, i, k') <==> Waiting(o, n, m, i, k');
    }
    forall k', a, b | k' in after && 0 <= a < b < |after[k']|
      ensures after[k'][a] < after[k'][b]
    {
      if k' == k && b == |queue| {
        assert Queued(pending, queue[a], k);
      }
    }
    OpenAfterPush(pending, after, n, k);
  }

  lemma OpenAfterPush(pending: map<PairKey, seq<nat>>, after: map<PairKey, seq<nat>>, n: nat, k: PairKey)
    requires forall i: nat, k' :: Queued(after, i, k') <==> Queued(pending, i, k') || (i == n && k' == k)
    ensures Open(after) == Open(pending) + {n}
  {
    hide Queued;
    assert Queued(after, n, k);
  }

  function Popped(pending: map<PairKey, seq<nat>>, k: PairKey): map<PairKey, seq<nat>>
    requires k in pending && pending[k] != []
  {
    if pending[k][1..] == [] then pending - {k} else pending[k := pending[k][1..]]
  }

  lemma PopRemovesFirst(pending: map<PairKey, seq<nat>>, k: PairKey, i: nat, k': PairKey)
    requires k in pending && pending[k] != []
    requires forall a, b :: 0 <= a < b < |pending[k]| ==> pending[k][a] < pending[k][b]
    ensures Queued(Popped(pending, k), i, k') <==> Queued(pending, i, k') && !(k' == k && i == pending[k][0])
  {
    var first, rest := pending[k][0], pending[k][1..];
    assert pending[k] == [first] + rest;
    forall b | 0 <= b < |rest|
      ensures rest[b] != first
    {
      assert pending[k][b + 1] == rest[b];
    }
  }

  lemma PopKeepsQueues(o: seq<Event>, n: nat, m: map<nat, nat>, pending: map<PairKey, seq<nat>>, k: PairKey)
    requires n < |o| && Matching(o, n, m) && QueuesOk(o, n, m, pending)
    requires EndKey(o[n]) == Some(k) && k in pending
    ensures var first := pending[k][0];
            QueuesOk(o, n + 1, m[first := n], Popped(pending, k))
            && Open(Popped(pending, k)) == Open(pending) - {first} && first in Open(pending)
  {
    hide StartKey, EndKey;
    var first := pending[k][0];
    var after := Popped(pending, k);
    assert Queued(pending, first, k);
    forall i: nat, k'
      ensures Queued(after, i, k') <==> Waiting(o, n + 1, m[first := n], i, k')
      ensures Queued(after, i, k') <==> Queued(pending, i, k') && i != first
    {
      PopRemovesFirst(pending, k, i, k');
      assert Queued(pending, first, k') <==> Waiting(o, n, m, first, k');
      assert Queued(pending, i, k') <==> Waiting(o, n, m, i, k');
    }
    hide Popped;
    assert Open(after) == Open(pending) - {first};
  }

  lemma OthersKeepQueues(o: seq<Event>, n: nat, m: map<nat, nat>, pending: map<PairKey, seq<nat>>)
    requires n < |o| && QueuesOk(o, n, m, pending) && Matching(o, n, m)
    requires !o[n].kind.RoundStart? && StartKey(o[n]).None?
    ensures QueuesOk(o, n + 1, m, pending)
  {
    hide StartKey, EndKey;
    forall i: nat, k
      ensures Queued(pending, i, k) <==> Waiting(o, n + 1, m, i, k)
    {
      assert Queued(pending, i, k) <==> Waiting(o, n, m, i, k);
    }
  }

  lemma RoundStartEmptiesQueues(o: seq<Event>, n: nat, m: map<nat, nat>)
    requires n < |o| && o[n].kind.RoundStart? && Matching(o, n, m)
    ensures QueuesOk(o, n + 1, m, map[])
  {
    hide StartKey, EndKey;
    forall i: nat, k: PairKey
      ensures !Queued(map[], i, k) && !Waiting(o, n + 1, m, i, k)
    {
    }
  }

  // --- the loop ----------------------------------------------------------------------

  /** Where the pass stands before event n. */
  ghost predicate Standing(o: seq<Event>, rate: Option<real>, n: nat, m: map<nat, nat>,
                           pending: map<PairKey, seq<nat>>, intervals: seq<Interval>, from: seq<nat>)
    requires n <= |o| && (rate.Some? ==> 0.0 <= rate.value <= 1024.0)
  {
    && Matching(o, n, m) && QueuesOk(o, n, m, pending)
    && (forall i <- m :: m[i] < |o|)
    && Emitted(o, rate, n, m, Open(pending), intervals, from)
  }

  function Added<T>(xs: seq<T>, x: Option<T>): seq<T> {
    if x.Some? then xs + [x.value] else xs
  }

  lemma NotPairedYet(o: seq<Event>, n: nat, m: map<nat, nat>)
    requires n <= |o| && PairsOnly(o, n, m)
    ensures forall i <- m :: i < m[i] < n
  {
    forall i | i in m
      ensures i < m[i] < n
    {
      assert Pairable(o, i, m[i]);
    }
  }

  lemma {:induction false} StandingAfterOther(o: seq<Event>, rate: Option<real>, n: nat, m: map<nat, nat>,
                           pending: map<PairKey, seq<nat>>, intervals: seq<Interval>, from: seq<nat>)
    requires n < |o| && (rate.Some? ==> 0.0 <= rate.value <= 1024.0)
    requires Standing(o, rate, n, m, pending, intervals, from)
    requires !o[n].kind.RoundStart? && StartKey(o[n]).None?
    requires EndKey(o[n]).None? || EndKey(o[n]).value !in pending
    ensures var item := Item(o[n], rate, None);
            Standing(o, rate, n + 1, m, pending, Added(intervals, item), if item.Some? then from + [n] else from)
  {
    hide Item, StartKey, EndKey, Matching, QueuesOk, Emitted, EndOf;
    OthersKeepMatching(o, n, m, pending);
    OthersKeepQueues(o, n, m, pending);
    OpenIsEarlier(o, n, m, pending);
    NothingEnds(o, n, m);
    EmittedNext(o, rate, n, n + 1, m, m, Open(pending), Open(pending), intervals, from, n);
  }

  lemma OpenIsEarlier(o: seq<Event>, n: nat, m: map<nat, nat>, pending: map<PairKey, seq<nat>>)
    requires n <= |o| && QueuesOk(o, n, m, pending)
    ensures forall i <- Open(pending) :: i < n
  {
  }

  lemma NothingEnds(o: seq<Event>, n: nat, m: map<nat, nat>)
    requires n <= |o| && Matching(o, n, m)
    ensures forall i <- m :: i < m[i] < n
    ensures (forall i <- m :: m[i] < |o|) && EndOf(o, m, n) == None
  {
    NotPairedYet(o, n, m);
  }

  lemma StandingAfterStart(o: seq<Event>, rate: Option<real>, n: nat, m: map<nat, nat>,
                           pending: map<PairKey, seq<nat>>, intervals: seq<Interval>, from: seq<nat>, k: PairKey)
    requires n < |o| && (rate.Some? ==> 0.0 <= rate.value <= 1024.0)
    requires Standing(o, rate, n, m, pending, intervals, from)
    requires StartKey(o[n]) == Some(k)
    ensures var queue := if k in pending then pending[k] else [];
            Standing(o, rate, n + 1, m, pending[k := queue + [n]], intervals, from)
  {
    OthersKeepMatching(o, n, m, pending);
    PushKeepsQueues(o, n, m, pending, k);
    OpenIsEarlier(o, n, m, pending);
    hide Matching, QueuesOk, Item, StartKey, EndKey, EndOf;
    EmittedLater(o, rate, n, m, Open(pending), intervals, from);
  }

  lemma EmittedLater(o: seq<Event>, rate: Option<real>, n: nat, m: map<nat, nat>, open: set<nat>,
                     intervals: seq<Interval>, from: seq<nat>)
    requires n < |o| && (rate.Some? ==> 0.0 <= rate.value <= 1024.0) && (forall i <- m :: m[i] < |o|)
    requires Emitted(o, rate, n, m, open, intervals, from)
    ensures Emitted(o, rate, n + 1, m, open + {n}, intervals, from)
  {
    hide Settled, NoRepeats;
    forall q | 0 <= q < |from|
      ensures Settled(o, rate, n + 1, m, open + {n}, from[q], Some(intervals[q]))
    {
      SettledLater(o, rate, n, m, open, from[q], Some(intervals[q]));
    }
    forall i: nat | i < n && i !in open && i !in from
      ensures Settled(o, rate, n + 1, m, open + {n}, i, None)
    {
      SettledLater(o, rate, n, m, open, i, None);
    }
  }

  lemma SettledLater(o: seq<Event>, rate: Option<real>, n: nat, m: map<nat, nat>, open: set<nat>, i: nat,
                     interval: Option<Interval>)
    requires n < |o| && (rate.Some? ==> 0.0 <= rate.value <= 1024.0) && (forall k <- m :: m[k] < |o|)
    requires Settled(o, rate, n, m, open, i, interval)
    ensures Settled(o, rate, n + 1, m, open + {n}, i, interval)
  {
  }

  lemma {:induction false} StandingAfterEnd(o: seq<Event>, rate: Option<real>, n: nat, m: map<nat, nat>,
                         pending: map<PairKey, seq<nat>>, intervals: seq<Interval>, from: seq<nat>, k: PairKey)
    requires n < |o| && (rate.Some? ==> 0.0 <= rate.value <= 1024.0)
    requires Standing(o, rate, n, m, pending, intervals, from)
    requires EndKey(o[n]) == Some(k) && k in pending && pending[k] != [] && pending[k][0] < |o|
    ensures var first := pending[k][0];
            var item := Item(o[first], rate, Some(o[n]));
            && StartKey(o[first]) == Some(k)
            && Standing(o, rate, n + 1, m[first := n], Popped(pending, k), Added(intervals, item),
                        if item.Some? then from + [first] else from)
  {
    hide Item, StartKey, EndKey, Matching, Emitted, EndOf, Popped;
    var first := pending[k][0];
    var m' := m[first := n];
    assert Queued(pending, first, k) && Waiting(o, n, m, first, k);
    PopKeepsMatching(o, n, m, pending, k);
    PopKeepsQueues(o, n, m, pending, k);
    OpenIsEarlier(o, n, m, pending);
    NothingEnds(o, n, m);
    NothingEnds(o, n + 1, m');
    hide QueuesOk;
    EndsMoved(o, n, m, first);
    var item := Item(o[first], rate, Some(o[n]));
    assert Item(o[n], rate, None) == None;
    EmittedNext(o, rate, n, n, m, m', Open(pending), Open(Popped(pending, k)), intervals, from, first);
    EmittedNext(o, rate, n, n + 1, m', m', Open(Popped(pending, k)), Open(Popped(pending, k)), Added(intervals, item),
                if item.Some? then from + [first] else from, n);
  }

  lemma EndsMoved(o: seq<Event>, n: nat, m: map<nat, nat>, first: nat)
    requires n < |o| && first < n && (forall i <- m :: i < m[i] < n)
    ensures var m' := m[first := n];
            && (forall i <- m' :: m'[i] < |o|)
            && EndOf(o, m', first) == Some(o[n]) && EndOf(o, m', n) == None
            && forall i: nat :: i < n && i != first ==> EndOf(o, m, i) == EndOf(o, m', i)
  {
  }

  lemma RoundStartKeepsMatching(o: seq<Event>, n: nat, m: map<nat, nat>)
    requires n < |o| && o[n].kind.RoundStart? && Matching(o, n, m)
    ensures Matching(o, n + 1, m)
  {
    hide StartKey, EndKey;
    assert EndKey(o[n]).None?;
  }

  lemma {:induction false} StandingAfterRoundStart(o: seq<Event>, rate: Option<real>, n: nat, m: map<nat, nat>,
                                intervals: seq<Interval>, from: seq<nat>)
    requires n < |o| && (rate.Some? ==> 0.0 <= rate.value <= 1024.0)
    requires Matching(o, n, m) && (forall i <- m :: m[i] < |o|) && o[n].kind.RoundStart?
    requires Emitted(o, rate, n, m, {}, intervals, from)
    ensures Standing(o, rate, n + 1, m, map[], intervals, from)
  {
    hide Item, Matching, QueuesOk, Emitted, EndOf, StartKey, EndKey;
    RoundStartEmptiesQueues(o, n, m);
    NothingEnds(o, n, m);
    RoundStartKeepsMatching(o, n, m);
    assert Open(map[]) == {};
    EmittedNext(o, rate, n, n + 1, m, m, {}, {}, intervals, from, n);
  }

  function Elements(queue: seq<nat>): set<nat> {
    set i | i in queue
  }

  /** Starts that nothing ends become single-tick effects. */
  method DrainQueue(o: seq<Event>, k: PairKey, queue: seq<nat>, intervals: seq<Interval>, ghost rate: Option<real>,
                    ghost n: nat, ghost m: map<nat, nat>, ghost rest: set<nat>, ghost from: seq<nat>)
    returns (drained: seq<Interval>)
    requires n <= |o| && (rate.Some? ==> 0.0 <= rate.value <= 1024.0) && (forall i <- m :: m[i] < |o|)
    requires forall i <- queue :: i < n && i !in m && i !in rest && StartKey(o[i]) == Some(k)
    requires forall a, b :: 0 <= a < b < |queue| ==> queue[a] < queue[b]
    requires Emitted(o, rate, n, m, rest + Elements(queue), intervals, from)
    ensures exists from' :: Emitted(o, rate, n, m, rest, drained, from')
  {
    hide Emitted;
    drained := intervals;
    ghost var from' := from;
    for q := 0 to |queue|
      invariant Emitted(o, rate, n, m, rest + Elements(queue[q..]), drained, from')
    {
      var i := queue[q];
      assert i in queue;
      var start := o[i];
      ghost var open := rest + Elements(queue[q..]);
      assert open - {i} == rest + Elements(queue[q + 1..]) && i in open by {
        assert queue[q..] == [i] + queue[q + 1..];
      }
      assert EndOf(o, m, i) == None;
      EmittedNext(o, rate, n, n, m, m, open, open - {i}, drained, from', i);
      if ValidPosition(start).Some? {
        assert Item(start, rate, None) == Some(SingleTick(start, k.0));
        drained := drained + [SingleTick(start, k.0)];
        from' := from' + [i];
      }
    }
    assert queue[|queue|..] == [] && rest + Elements([]) == rest;
  }

  lemma OneQueueEach(o: seq<Event>, n: nat, m: map<nat, nat>, pending: map<PairKey, seq<nat>>, i: nat, k: PairKey,
                     k': PairKey)
    requires n <= |o| && QueuesOk(o, n, m, pending) && Queued(pending, i, k)
    ensures Queued(pending, i, k') ==> k' == k
  {
    assert Waiting(o, n, m, i, k);
    assert Queued(pending, i, k') <==> Waiting(o, n, m, i, k');
  }

  lemma OpenWithout(remaining: map<PairKey, seq<nat>>, k: PairKey)
    requires k in remaining
    ensures Open(remaining) == Open(remaining - {k}) + Elements(remaining[k])
  {
    forall i: nat
      ensures i in Open(remaining) <==> i in Open(remaining - {k}) + Elements(remaining[k])
    {
      assert i in remaining[k] <==> Queued(remaining, i, k);
      assert forall k' :: k' != k ==> (Queued(remaining - {k}, i, k') <==> Queued(remaining, i, k'));
    }
  }

  /** The hash map is drained in an order of its own. */
  method DrainPendingEffects(o: seq<Event>, pending: map<PairKey, seq<nat>>, intervals: seq<Interval>,
                             ghost rate: Option<real>, ghost n: nat, ghost m: map<nat, nat>, ghost from: seq<nat>)
    returns (drained: seq<Interval>)
    requires n <= |o| && (rate.Some? ==> 0.0 <= rate.value <= 1024.0) && (forall i <- m :: m[i] < |o|)
    requires QueuesOk(o, n, m, pending)
    requires forall i <- Open(pending) :: i < n
    requires Emitted(o, rate, n, m, Open(pending), intervals, from)
    ensures exists from' :: Emitted(o, rate, n, m, {}, drained, from')
  {
    hide Emitted, StartKey, EndKey;
    drained := intervals;
    ghost var from' := from;
    var remaining := pending;
    while remaining.Keys != {}
      invariant forall k <- remaining :: k in pending && remaining[k] == pending[k]
      invariant Emitted(o, rate, n, m, Open(remaining), drained, from')
      decreases remaining.Keys
    {
      var k :| k in remaining.Keys;
      var queue := remaining[k];
      ghost var rest := Open(remaining - {k});
      forall i | i in queue
        ensures i < n && i !in m && i !in rest && StartKey(o[i]) == Some(k)
      {
        assert Queued(pending, i, k) && Waiting(o, n, m, i, k);
        forall k'
          ensures !Queued(remaining - {k}, i, k')
        {
          OneQueueEach(o, n, m, pending, i, k, k');
        }
      }
      OpenWithout(remaining, k);
      drained := DrainQueue(o, k, queue, drained, rate, n, m, rest, from');
      from' :| Emitted(o, rate, n, m, rest, drained, from');
      remaining := remaining - {k};
    }
    assert Open(remaining) == {};
  }

  /** m is the first-in-first-out pairing that no round start comes between, and interval q is
      that of event from[q]. */
  ghost predicate IntervalsOf(events: seq<Event>, intervals: seq<Interval>, m: map<nat, nat>, from: seq<nat>) {
    var o := SortBy(events, Earlier);
    && Matching(o, |o|, m) && (forall i <- m :: m[i] < |o|)
    && Emitted(o, EvidenceTickRate(events), |o|, m, {}, intervals, from)
  }

  /** The intervals are those of the events, one for one. */
  method EffectIntervals(events: seq<Event>) returns (intervals: seq<Interval>)
    ensures exists m, from :: IntervalsOf(events, intervals, m, from)
  {
    var rate := EvidenceTickRate(events);
    var o := SortBy(events, Earlier);
    var pending: map<PairKey, seq<nat>> := map[];
    ghost var m: map<nat, nat>, from: seq<nat> := map[], [];
    intervals := [];
    hide Standing, Matching, QueuesOk, Emitted, Popped, Open, SortBy, EvidenceTickRate;
    StandingAtStart(o, rate);
    for n := 0 to |o|
      invariant Standing(o, rate, n, m, pending, intervals, from)
    {
      intervals, pending, m, from := Advance(o, rate, n, pending, intervals, m, from);
    }
    StandingParts(o, rate, |o|, m, pending, intervals, from);
    intervals := DrainPendingEffects(o, pending, intervals, rate, |o|, m, from);
    from :| Emitted(o, rate, |o|, m, {}, intervals, from);
    assert IntervalsOf(events, intervals, m, from);
  }

  lemma StandingAtStart(o: seq<Event>, rate: Option<real>)
    requires rate.Some? ==> 0.0 <= rate.value <= 1024.0
    ensures Standing(o, rate, 0, map[], map[], [], [])
  {
    hide StartKey, EndKey, Item;
  }

  lemma StandingParts(o: seq<Event>, rate: Option<real>, n: nat, m: map<nat, nat>, pending: map<PairKey, seq<nat>>,
                      intervals: seq<Interval>, from: seq<nat>)
    requires n <= |o| && (rate.Some? ==> 0.0 <= rate.value <= 1024.0)
    requires Standing(o, rate, n, m, pending, intervals, from)
    ensures Matching(o, n, m) && QueuesOk(o, n, m, pending) && (forall i <- m :: m[i] < |o|)
    ensures forall i <- Open(pending) :: i < n
    ensures Emitted(o, rate, n, m, Open(pending), intervals, from)
    ensures forall k <- pending :: pending[k] != [] && forall i <- pending[k] :: i < |o|
  {
    OpenIsEarlier(o, n, m, pending);
    forall k, i | k in pending && i in pending[k]
      ensures i < |o|
    {
      assert Queued(pending, i, k);
    }
  }

  /** One turn of the loop. */
  method Advance(o: seq<Event>, rate: Option<real>, n: nat, pending0: map<PairKey, seq<nat>>,
                 intervals0: seq<Interval>, ghost m0: map<nat, nat>, ghost from0: seq<nat>)
    returns (intervals: seq<Interval>, pending: map<PairKey, seq<nat>>, ghost m: map<nat, nat>, ghost from: seq<nat>)
    requires n < |o| && (rate.Some? ==> 0.0 <= rate.value <= 1024.0)
    requires Standing(o, rate, n, m0, pending0, intervals0, from0)
    ensures Standing(o, rate, n + 1, m, pending, intervals, from)
  {
    hide Standing, Matching, QueuesOk, Emitted, Popped, Open;
    StandingParts(o, rate, n, m0, pending0, intervals0, from0);
    intervals, pending, m, from := intervals0, pending0, m0, from0;
    var event := o[n];
    if event.kind.RoundStart? {
      intervals := DrainPendingEffects(o, pending, intervals, rate, n, m, from);
      from :| Emitted(o, rate, n, m, {}, intervals, from);
      StandingAfterRoundStart(o, rate, n, m, intervals, from);
      pending := map[];
      return;
    }
    ghost var item := Item(event, rate, None);
    if !event.kind.Grenade? {
      StandingAfterOther(o, rate, n, m, pending, intervals, from);
      return;
    }
    var key := LifecycleKey(event);
    match EffectSignal(event.id) {
      case PersistentStart(kind) =>
        if key.Some? {
          var queue := if (kind, key.value) in pending then pending[(kind, key.value)] else [];
          StandingAfterStart(o, rate, n, m, pending, intervals, from, (kind, key.value));
          pending := pending[(kind, key.value) := queue + [n]];
        } else {
          StandingAfterOther(o, rate, n, m, pending, intervals, from);
        }
      case PersistentEnd(kind) =>
        if key.None? || (kind, key.value) !in pending {
          StandingAfterOther(o, rate, n, m, pending, intervals, from);
          return;
        }
        var k := (kind, key.value);
        var first := pending[k][0];
        assert first in pending[k] && first < |o|;
        StandingAfterEnd(o, rate, n, m, pending, intervals, from, k);
        var start := o[first];
        if ValidPosition(start).Some? {
          intervals := intervals + [PairedInterval(start, event, kind)];
          from := from + [first];
        }
        m := m[first := n];
        pending := Popped(pending, k);
      case Instant(kind, seconds) =>
        StandingAfterOther(o, rate, n, m, pending, intervals, from);
        if ValidPosition(event).Some? {
          intervals, from := intervals + [Momentary(event, kind, WindowTicks(rate, seconds))], from + [n];
        }
      case Exact =>
        StandingAfterOther(o, rate, n, m, pending, intervals, from);
        if ValidPosition(event).Some? {
          intervals, from := intervals + [Momentary(event, event.weaponKind, 0)], from + [n];
        }
      case Ignore =>
        StandingAfterOther(o, rate, n, m, pending, intervals, from);
    }
  }

  // --- what the result means -------------------------------------------------------------

  lemma EarlierIsTotal()
    ensures TotalOrder(Earlier)
  {
  }

  lemma PairAndRoundStart(o: seq<Event>, i: nat, j: nat, r: nat)
    requires Sorted(o, Earlier) && Pairable(o, i, j) && r < |o| && o[r].kind.RoundStart?
    ensures !(o[i].tick < o[r].tick <= o[j].tick)
  {
    hide StartKey, EndKey;
    if r < i {
      assert Earlier(o[r], o[i]);
    } else if r > j {
      assert Earlier(o[j], o[r]) && !o[j].kind.RoundStart?;
    }
  }

  /** No round starts in a tick after the start's and up to the end's. */
  lemma NoPairSpansARoundStart(events: seq<Event>, m: map<nat, nat>, i: nat, e: Event)
    requires var o := SortBy(events, Earlier); Matching(o, |o|, m) && i in m
    requires e in events && e.kind.RoundStart?
    ensures var o := SortBy(events, Earlier);
            && i < m[i] < |o| && !(o[i].tick < e.tick <= o[m[i]].tick)
  {
    hide SortBy, StartKey, EndKey, Sorted, Earlier;
    var o := SortBy(events, Earlier);
    EarlierIsTotal();
    SortBySorts(events, Earlier);
    assert e in multiset(o);
    var r :| 0 <= r < |o| && o[r] == e;
    assert Pairable(o, i, m[i]);
    PairAndRoundStart(o, i, m[i], r);
  }

  /** Every persistent start with a usable position has exactly one interval: that of its pair,
      or a single tick; and it starts where the event is. */
  lemma EachStartOnce(o: seq<Event>, rate: Option<real>, m: map<nat, nat>, intervals: seq<Interval>, from: seq<nat>, i: nat)
    returns (q: nat)
    requires (rate.Some? ==> 0.0 <= rate.value <= 1024.0) && (forall k <- m :: m[k] < |o|)
    requires Emitted(o, rate, |o|, m, {}, intervals, from)
    requires i < |o| && StartKey(o[i]).Some? && ValidPosition(o[i]).Some?
    ensures q < |intervals| && from[q] == i && forall p :: 0 <= p < |from| && from[p] == i ==> p == q
    ensures intervals[q] == if i in m then PairedInterval(o[i], o[m[i]], StartKey(o[i]).value.0)
                            else SingleTick(o[i], StartKey(o[i]).value.0)
    ensures intervals[q].startTick == o[i].tick && intervals[q].startTick <= intervals[q].endTick
  {
    assert i in from;
    q :| 0 <= q < |from| && from[q] == i;
    assert Settled(o, rate, |o|, m, {}, from[q], Some(intervals[q]));
  }

  /** The persistent effects with the events that begin and end them. */
  const LIFECYCLES: seq<(string, string, string)> :=
    [("smoke", "smokegrenade_detonate-", "smokegrenade_expired-"),
     ("inferno", "inferno_startburn-", "inferno_expire-"),
     ("decoy", "decoy_started-", "decoy_detonate-")]

  lemma SignalsByName(id: string, c: nat)
    requires c < |LIFECYCLES|
    ensures EffectSignal(id) == PersistentStart(LIFECYCLES[c].0) <==> LIFECYCLES[c].1 <= id
    ensures EffectSignal(id) == PersistentEnd(LIFECYCLES[c].0) <==> LIFECYCLES[c].2 <= id
  {
    OnlyOne(id, "smokegrenade_detonate-", "smokegrenade_expired-", 13);
    OnlyOne(id, "inferno_startburn-", "inferno_expire-", 8);
    OnlyOne(id, "decoy_started-", "decoy_detonate-", 6);
    assert "smokegrenade_detonate-" <= id || "smokegrenade_expired-" <= id ==> id[0] == 's';
    assert "inferno_startburn-" <= id || "inferno_expire-" <= id ==> id[0] == 'i';
    assert "decoy_started-" <= id || "decoy_detonate-" <= id ==> id[0] == 'd';
    assert "smoke"[0] == 's' && "inferno"[0] == 'i' && "decoy"[0] == 'd';
  }

  /** An event begins, or ends, an effect of a kind by its name, and knows which thing it is about. */
  lemma BeginsAndEnds(e: Event, c: nat)
    requires e.kind.Grenade? && c < |LIFECYCLES|
    ensures StartKey(e).Some? && StartKey(e).value.0 == LIFECYCLES[c].0 <==>
            LIFECYCLES[c].1 <= e.id && LifecycleKey(e).Some?
    ensures EndKey(e).Some? && EndKey(e).value.0 == LIFECYCLES[c].0 <==>
            LIFECYCLES[c].2 <= e.id && LifecycleKey(e).Some?
    ensures StartKey(e).Some? ==> StartKey(e).value.1 == LifecycleKey(e).value
    ensures EndKey(e).Some? ==> EndKey(e).value.1 == LifecycleKey(e).value
  {
    hide LifecycleKey, EffectSignal, LIFECYCLES;
    SignalsByName(e.id, c);
  }

  /** Names that differ somewhere do not begin the same text. */
  lemma OnlyOne(id: string, a: string, b: string, k: nat)
    requires k < |a| && k < |b| && a[k] != b[k]
    ensures !(a <= id && b <= id)
  {
  }

  /** A thing is known by its entity, or else by where it is. */
  lemma KeyMeans(e: Event)
    ensures e.entity.Some? ==> LifecycleKey(e) == Some(ById(e.entity.value))
    ensures e.entity.None? && e.position.Some? && (exists x, y, z :: e.position.value == Position(At(x), At(y), At(z))) ==>
      LifecycleKey(e) == Some(ByPosition(e.position.value))
    ensures e.entity.None? && (forall x, y, z :: e.position != Some(Position(At(x), At(y), At(z)))) ==> LifecycleKey(e).None?
    ensures LifecycleKey(e).None? ==> ValidPosition(e).None?
    ensures ValidPosition(e).Some? ==> ValidPosition(e) == e.position
  {
    if ValidPosition(e).Some? {
      var p := e.position.value;
      assert e.position == Some(Position(At(p.x.rank), At(p.y.rank), At(p.z.rank)));
    }
  }

  predicate Covers(x: Interval, tick: u64) {
    x.startTick <= tick <= x.endTick
  }

  /** A paired effect shows from its start up to, but not at, its end, and at least in its first tick; one
      that nothing ends shows in its first tick only. It is of the kind, the owner, the place and the
      size of its start, and blocks the view exactly if it is a smoke that was ended. */
  lemma EffectShows(events: seq<Event>, intervals: seq<Interval>, m: map<nat, nat>, from: seq<nat>, q: nat, t: u64)
    requires IntervalsOf(events, intervals, m, from) && q < |intervals|
    requires var o := SortBy(events, Earlier); from[q] < |o| && StartKey(o[from[q]]).Some?
    ensures var o := SortBy(events, Earlier);
            var (e, x, kind) := (o[from[q]], intervals[q], StartKey(o[from[q]]).value.0);
            && (from[q] in m ==>
                  && (Covers(x, t) <==> t == e.tick || e.tick <= t < o[m[from[q]]].tick)
                  && x.kind == kind && (x.masksVision <==> kind == "smoke"))
            && (from[q] !in m ==>
                  && (Covers(x, t) <==> t == e.tick)
                  && x.kind == kind + "_event" && !x.masksVision)
            && x.owner == e.actor && Some(x.position) == e.position && x.radius == e.radius
            && x.id == EffectId(kind, FromKey(LifecycleKey(e).value), e.tick)
  {
    hide SortBy, EvidenceTickRate, Matching, NoRepeats, EffectSignal;
    var o, rate := SortBy(events, Earlier), EvidenceTickRate(events);
    assert Settled(o, rate, |o|, m, {}, from[q], Some(intervals[q]));
    assert Item(o[from[q]], rate, EndOf(o, m, from[q])) == Some(intervals[q]);
  }

  /** An event that says something of the tick rate, and what: it gives a time, and 8 to 1024 ticks a second
      up to it. */
  predicate Tells(e: Event, rate: real) {
    && 0 < e.tick < 0x1_0000_0000 && e.seconds.Finite? && e.seconds.value > 0.0
    && rate == e.tick as real / e.seconds.value && 8.0 <= rate <= 1024.0
  }

  predicate WithinHalfAPercent(rate: real, first: real) {
    0.995 * first <= rate <= 1.005 * first
  }

  /** The rates are those that the first n events tell, in their order; at says which events these are. */
  ghost predicate AreTold(events: seq<Event>, n: nat, rates: seq<real>, at: seq<nat>)
    requires n <= |events|
  {
    && |at| == |rates| && (forall j, k :: 0 <= j < k < |at| ==> at[j] < at[k])
    && (forall j :: 0 <= j < |at| ==> at[j] < n && Tells(events[at[j]], rates[j]))
    && forall i, x :: 0 <= i < n && Tells(events[i], x) ==> i in at
  }

  lemma {:induction false} RatesAreTold(events: seq<Event>, n: nat) returns (at: seq<nat>)
    requires n <= |events|
    ensures AreTold(events, n, Rates(events[..n]), at)
  {
    hide Tells, Rates;
    at := [];
    if n == 0 {
      NoRates();
    } else {
      var e := events[n - 1];
      at := RatesAreTold(events, n - 1);
      var own := RateOf(e);
      RatesLast(events[..n - 1], e, own);
      assert events[..n] == events[..n - 1] + [e];
      if own.Some? {
        at := at + [n - 1];
      }
    }
  }

  lemma NoRates()
    ensures Rates([]) == []
  {
  }

  lemma RateOf(e: Event) returns (own: Option<real>)
    ensures own.Some? ==> Tells(e, own.value)
    ensures own.None? ==> forall x :: !Tells(e, x)
  {
    own := None;
    if e.seconds.Finite? && e.seconds.value > 0.0 && Tells(e, e.tick as real / e.seconds.value) {
      own := Some(e.tick as real / e.seconds.value);
    }
  }

  lemma RatesCons(first: Event, rest: seq<Event>)
    ensures Rates([first] + rest) == Rates([first]) + Rates(rest)
  {
    var all := [first] + rest;
    assert all[0] == first && all[1..] == rest && [first][1..] == [];
    assert Rates([]) == [];
  }

  lemma {:induction false} RatesLast(events: seq<Event>, e: Event, own: Option<real>)
    requires (own.Some? ==> Tells(e, own.value)) && (own.None? ==> forall x :: !Tells(e, x))
    ensures Rates(events + [e]) == Rates(events) + if own.Some? then [own.value] else []
  {
    hide Rates, Tells;
    RatesOfOne(e, own);
    if events == [] {
      NoRates();
      assert events + [e] == [e];
    } else {
      var first, rest := events[0], events[1..];
      RatesLast(rest, e, own);
      RatesCons(first, rest);
      RatesCons(first, rest + [e]);
      assert events == [first] + rest && events + [e] == [first] + (rest + [e]);
    }
  }

  lemma RatesOfOne(e: Event, own: Option<real>)
    requires (own.Some? ==> Tells(e, own.value)) && (own.None? ==> forall x :: !Tells(e, x))
    ensures Rates([e]) == if own.Some? then [own.value] else []
  {
    assert [e][1..] == [] && Rates([]) == [];
    assert e.seconds.Finite? && e.seconds.value > 0.0 && own.None? ==> !Tells(e, e.tick as real / e.seconds.value);
  }

  /** The tick rate is what the first event tells that tells any, if every other tells the same within half
      a percent; if none does, or they differ, it is not known. */
  lemma EvidenceMeans(events: seq<Event>) returns (rates: seq<real>, at: seq<nat>)
    ensures AreTold(events, |events|, rates, at)
    ensures EvidenceTickRate(events) ==
            if rates != [] && forall x <- rates :: WithinHalfAPercent(x, rates[0]) then Some(rates[0]) else None
  {
    rates := Rates(events);
    at := RatesAreTold(events, |events|);
    assert events[..|events|] == events;
    if rates != [] {
      var first := rates[0];
      assert first in rates;
      forall x: real
        ensures -0.005 <= (x - first) / first <= 0.005 <==> WithinHalfAPercent(x, first)
      {
        Quotient(x - first, first);
      }
    }
    hide AreTold, Rates, WithinHalfAPercent;
  }

  lemma Quotient(d: real, first: real)
    requires first > 0.0
    ensures -0.005 <= d / first <= 0.005 <==> -0.005 * first <= d <= 0.005 * first
  {
    var q := d / first;
    assert q * first == d;
    if q > 0.005 {
      assert (q - 0.005) * first > 0.0;
    }
    if q < -0.005 {
      assert (q + 0.005) * first < 0.0;
    }
  }

  /** What happens at once shows for a third to half a second if the tick rate is known, rounded to
      ticks, and anything else for its tick. */
  lemma MomentShows(events: seq<Event>, intervals: seq<Interval>, m: map<nat, nat>, from: seq<nat>, q: nat)
    requires IntervalsOf(events, intervals, m, from) && q < |intervals|
    requires var o := SortBy(events, Earlier); from[q] < |o| && StartKey(o[from[q]]).None?
    ensures var o := SortBy(events, Earlier);
            var (e, x, rate) := (o[from[q]], intervals[q], EvidenceTickRate(events));
            var instant := "hegrenade_detonate-" <= e.id || "flashbang_detonate-" <= e.id;
            var seconds := if "hegrenade_detonate-" <= e.id then 0.35 else 0.45;
            && e.kind.Grenade? && x.startTick == e.tick && !x.masksVision
            && x.owner == e.actor && Some(x.position) == e.position && x.radius == e.radius
            && (instant ==> x.kind == if "hegrenade_detonate-" <= e.id then "he" else "flash")
            && (!instant ==> x.kind == e.weaponKind && x.endTick == e.tick)
            && (instant && rate.None? ==> x.endTick == e.tick)
            && (instant && rate.Some? && e.tick + 1024 <= U64_MAX ==>
                  NearestTo(x.endTick - e.tick, rate.value, seconds))
  {
    hide SortBy, EvidenceTickRate, Matching, NoRepeats, EffectSignal, WindowTicks, NearestTo;
    var o, rate := SortBy(events, Earlier), EvidenceTickRate(events);
    var e := o[from[q]];
    assert Settled(o, rate, |o|, m, {}, from[q], Some(intervals[q]));
    assert Item(e, rate, EndOf(o, m, from[q])) == Some(intervals[q]);
    InstantSignals(e.id);
    if EffectSignal(e.id).Instant? {
      SecondsAreShort(e.id);
      NoWindow(EffectSignal(e.id).seconds);
      if rate.Some? {
        MomentWindow(e, rate);
      }
    }
  }

  lemma NoWindow(seconds: real)
    requires 0.0 <= seconds <= 1.0
    ensures WindowTicks(None, seconds) == 0
  {
  }

  lemma InstantSignals(id: string)
    ensures EffectSignal(id).Instant? <==> "hegrenade_detonate-" <= id || "flashbang_detonate-" <= id
    ensures EffectSignal(id) ==
            if "hegrenade_detonate-" <= id then Instant("he", 0.35)
            else if "flashbang_detonate-" <= id then Instant("flash", 0.45) else EffectSignal(id)
  {
    assert "hegrenade_detonate-" <= id ==> id[0] == 'h';
    assert "flashbang_detonate-" <= id ==> id[0] == 'f';
    assert "smokegrenade_detonate-" <= id || "smokegrenade_expired-" <= id ==> id[0] == 's';
    assert "inferno_startburn-" <= id || "inferno_expire-" <= id ==> id[0] == 'i';
    assert "decoy_started-" <= id || "decoy_detonate-" <= id ==> id[0] == 'd';
  }

  lemma MomentWindow(e: Event, rate: Option<real>)
    requires (rate.Some? ==> 0.0 <= rate.value <= 1024.0) && EffectSignal(e.id).Instant? && rate.Some?
    ensures 0.0 <= EffectSignal(e.id).seconds <= 1.0
    ensures 0 <= WindowTicks(rate, EffectSignal(e.id).seconds) <= 1024
    ensures NearestTo(WindowTicks(rate, EffectSignal(e.id).seconds), rate.value, EffectSignal(e.id).seconds)
  {
    SecondsAreShort(e.id);
    hide EffectSignal, WindowTicks, NearestTo;
    WindowIsNear(rate.value, EffectSignal(e.id).seconds);
  }

  lemma SecondsAreShort(id: string)
    ensures EffectSignal(id).Instant? ==> 0.0 <= EffectSignal(id).seconds <= 1.0
  {
  }

  /** The ticks, at most 1024, nearest to so many seconds at a rate. */
  predicate NearestTo(ticks: int, rate: real, seconds: real) {
    ticks <= 1024 && -0.5 <= ticks as real - rate * seconds <= 0.5
  }

  lemma WindowIsNear(rate: real, seconds: real)
    requires 0.0 <= rate <= 1024.0 && 0.0 <= seconds <= 1.0
    ensures NearestTo(WindowTicks(Some(rate), seconds), rate, seconds) && WindowTicks(Some(rate), seconds) <= 1024
  {
    WindowFits(rate, seconds);
    var x := rate * seconds;
    NearestIsNear(x);
    hide RoundAway;
    assert WindowTicks(Some(rate), seconds) == RoundAway(x);
  }

  lemma NearestIsNear(x: real)
    ensures -0.5 <= RoundAway(x) as real - x <= 0.5
  {
  }

  predicate Paired(m: map<nat, nat>, i: nat, j: nat) {
    i in m && m[i] == j
  }

  /** Which pairs are formed is settled by the events alone: two matchings agree on the partner
      of every end, looked at in order. */
  lemma {:induction false} MatchingIsUnique(o: seq<Event>, m: map<nat, nat>, m': map<nat, nat>, n: nat)
    requires n <= |o| && Matching(o, |o|, m) && Matching(o, |o|, m')
    ensures forall i: nat, j: nat :: j < n ==> (Paired(m, i, j) <==> Paired(m', i, j))
  {
    hide Matching;
    if n > 0 {
      var last := n - 1;
      MatchingIsUnique(o, m, m', last);
      forall i: nat
        ensures Paired(m, i, last) <==> Paired(m', i, last)
      {
        if Paired(m, i, last) {
          SamePartner(o, m, m', i, last);
        }
        if Paired(m', i, last) {
          SamePartner(o, m', m, i, last);
        }
      }
    }
  }

  /** If m' gave j to another, earlier start, then that one waited under m as well, and m would
      have passed it by for i. */
  lemma {:induction false} SamePartner(o: seq<Event>, m: map<nat, nat>, m': map<nat, nat>, i: nat, j: nat)
    requires Matching(o, |o|, m) && Matching(o, |o|, m') && Paired(m, i, j)
    requires forall k: nat, l: nat :: l < j ==> (Paired(m, k, l) <==> Paired(m', k, l))
    ensures Paired(m', i, j)
  {
    PartnerIsPairable(o, m, i);
    hide Matching, Pairable;
    if !Paired(m', i, j) {
      assert i in m' ==> Paired(m', i, m'[i]);
      var i' := Overtaker(o, m', i, j);
      assert i' in m ==> Paired(m, i', m[i']);
      if !Paired(m, i', j) {
        var i'' := Overtaker(o, m, i', j);
        OnePartner(o, m, i'', i, j);
      } else {
        OnePartner(o, m, i', i, j);
      }
    }
  }

  lemma PartnerIsPairable(o: seq<Event>, m: map<nat, nat>, i: nat)
    requires PairsOnly(o, |o|, m) && i in m
    ensures Pairable(o, i, m[i])
  {
  }

  lemma {:induction false} OnePartner(o: seq<Event>, m: map<nat, nat>, i: nat, i': nat, j: nat)
    requires Matching(o, |o|, m) && Paired(m, i, j) && Paired(m, i', j)
    ensures i == i'
  {
    hide StartKey, EndKey;
    assert Pairable(o, i, j) && Pairable(o, i', j);
  }

  lemma {:induction false} Overtaker(o: seq<Event>, m: map<nat, nat>, i: nat, j: nat) returns (i': nat)
    requires Matching(o, |o|, m) && Pairable(o, i, j) && (i !in m || m[i] > j)
    ensures Paired(m, i', j) && i' < i && Pairable(o, i', j)
  {
    hide StartKey, EndKey;
    i' :| i' in m && i' < i && m[i'] == j;
  }
}

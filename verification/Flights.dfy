/** Projectiles in flight, from the snapshots of their entities and the detonations. An entity slot
    is used again under another serial. */
module Flights {
  import opened Bytes
  import opened Texts
  import opened Results

  datatype Sample = Sample(tick: u64, entity: u64, serial: u64, owner: Option<string>, kind: string, position: nat)

  /** entity is the entity id among the details, if there is one. */
  datatype Event = Event(id: string, tick: u64, entity: Option<u64>)

  /** What tells projectiles apart: an entity slot and its serial. */
  datatype Key = Key(entity: u64, serial: u64)

  datatype Flight = Flight(id: string, owner: Option<string>, kind: string, startTick: u64, endTick: u64, position: nat)

  function KeyOf(s: Sample): Key {
    Key(s.entity, s.serial)
  }

  /** The id a viewer gets. */
  function IdText(key: Key): string {
    "projectile" + [':'] + Decimal(key.entity) + [':'] + Decimal(key.serial)
  }

  /** Ids tell entity slots, and the serials of one slot, apart. */
  lemma IdsTellApart(a: Key, b: Key)
    requires IdText(a) == IdText(b)
    ensures a == b
  {
    hide Decimal;
    NoSeparator(a.entity, ':');
    NoSeparator(b.entity, ':');
    NoSeparator(a.serial, ':');
    NoSeparator(b.serial, ':');
    SplitAtLast("projectile" + [':'] + Decimal(a.entity), Decimal(a.serial),
                "projectile" + [':'] + Decimal(b.entity), Decimal(b.serial), ':');
    SplitAtLast("projectile", Decimal(a.entity), "projectile", Decimal(b.entity), ':');
    DecimalIsInjective(a.entity, b.entity);
    DecimalIsInjective(a.serial, b.serial);
  }

  function Lookup<K, V>(m: map<K, V>, k: K): Option<V> {
    if k in m then Some(m[k]) else None
  }

  function OrEmpty<K, V>(m: map<K, seq<V>>, k: K): seq<V> {
    if k in m then m[k] else []
  }

  // --- lifetimes -----------------------------------------------------------------------------

  function Min(a: u64, b: u64): u64 { if a <= b then a else b }

  function Max(a: u64, b: u64): u64 { if a <= b then b else a }

  /** First and last tick at which an entity was seen. */
  function Observed(samples: seq<Sample>, key: Key): (r: Option<(u64, u64)>)
    ensures r.Some? ==> r.value.0 <= r.value.1
  {
    if samples == [] then None
    else
      var before, last := Observed(samples[..|samples| - 1], key), samples[|samples| - 1];
      if KeyOf(last) != key then before
      else if before.None? then Some((last.tick, last.tick))
      else Some((Min(before.value.0, last.tick), Max(before.value.1, last.tick)))
  }

  /** The observed lifetime is tight around all snapshots of the entity. */
  lemma {:induction false} ObservedMeans(samples: seq<Sample>, key: Key)
    ensures Observed(samples, key).None? <==> forall i :: 0 <= i < |samples| ==> KeyOf(samples[i]) != key
    ensures Observed(samples, key).Some? ==>
      var (first, last) := Observed(samples, key).value;
      && (forall i :: 0 <= i < |samples| && KeyOf(samples[i]) == key ==> first <= samples[i].tick <= last)
      && (exists i :: 0 <= i < |samples| && KeyOf(samples[i]) == key && samples[i].tick == first)
      && (exists i :: 0 <= i < |samples| && KeyOf(samples[i]) == key && samples[i].tick == last)
  {
    if samples != [] {
      var before, n := samples[..|samples| - 1], |samples| - 1;
      ObservedMeans(before, key);
      assert forall i :: 0 <= i < n ==> before[i] == samples[i];
      if KeyOf(samples[n]) == key && Observed(before, key).Some? {
        var (first, last) := Observed(before, key).value;
        var i :| 0 <= i < n && KeyOf(before[i]) == key && before[i].tick == first;
        assert KeyOf(samples[i]) == key && samples[i].tick == first;
        var j :| 0 <= j < n && KeyOf(before[j]) == key && before[j].tick == last;
        assert KeyOf(samples[j]) == key && samples[j].tick == last;
      } else if Observed(before, key).Some? {
        var (first, last) := Observed(before, key).value;
        var i :| 0 <= i < n && KeyOf(before[i]) == key && before[i].tick == first;
        assert KeyOf(samples[i]) == key && samples[i].tick == first;
        var j :| 0 <= j < n && KeyOf(before[j]) == key && before[j].tick == last;
        assert KeyOf(samples[j]) == key && samples[j].tick == last;
      }
    }
  }

  // --- detonations ---------------------------------------------------------------------------

  predicate Detonates(e: Event, entity: u64) {
    && ("smokegrenade_detonate-" <= e.id || "flashbang_detonate-" <= e.id || "hegrenade_detonate-" <= e.id
        || "decoy_started-" <= e.id)
    && e.entity == Some(entity)
  }

  function DetonationTicks(events: seq<Event>, entity: u64): (r: seq<u64>)
    ensures forall t :: t in r <==> exists i :: 0 <= i < |events| && Detonates(events[i], entity) && events[i].tick == t
  {
    if events == [] then []
    else
      var before, last := events[..|events| - 1], events[|events| - 1];
      assert forall i :: 0 <= i < |before| ==> before[i] == events[i];
      DetonationTicks(before, entity) + if Detonates(last, entity) then [last.tick] else []
  }

  /** The least of the ticks in a range. */
  function Earliest(ticks: seq<u64>, first: u64, last: u64): (r: Option<u64>)
    ensures r.Some? ==> r.value in ticks && first <= r.value <= last
    ensures r.Some? ==> forall t <- ticks :: first <= t <= last ==> r.value <= t
    ensures r.None? ==> forall t <- ticks :: !(first <= t <= last)
  {
    if ticks == [] then None
    else
      var rest := Earliest(ticks[1..], first, last);
      assert ticks == [ticks[0]] + ticks[1..];
      if first <= ticks[0] <= last then
        if rest.Some? && rest.value < ticks[0] then rest else Some(ticks[0])
      else rest
  }

  /** The earliest matching detonation inside the observed lifetime. */
  function Detonation(events: seq<Event>, key: Key, life: (u64, u64)): Option<u64> {
    Earliest(DetonationTicks(events, key.entity), life.0, life.1)
  }

  function Lifetime(samples: seq<Sample>, events: seq<Event>, key: Key): (r: Option<(u64, u64)>)
    ensures r.Some? <==> Observed(samples, key).Some?
  {
    var life :- Observed(samples, key);
    var detonation := Detonation(events, key, life);
    Some((life.0, if detonation.Some? then SaturatingSub(detonation.value, 1) else life.1))
  }

  // --- the frames --------------------------------------------------------------------------------

  predicate NoDuplicates(samples: seq<Sample>) {
    forall i, j :: 0 <= i < j < |samples| ==> !(KeyOf(samples[i]) == KeyOf(samples[j]) && samples[i].tick == samples[j].tick)
  }

  function FlightOf(s: Sample, life: (u64, u64)): Flight {
    Flight(IdText(KeyOf(s)), s.owner, s.kind, life.0, life.1, s.position)
  }

  /** What the first n snapshots put into the frame of a tick. */
  function InFrame(samples: seq<Sample>, n: nat, lives: map<Key, (u64, u64)>, tick: u64): seq<Flight>
    requires n <= |samples|
  {
    if n == 0 then []
    else
      var s := samples[n - 1];
      InFrame(samples, n - 1, lives, tick)
      + if s.tick == tick && KeyOf(s) in lives && tick <= lives[KeyOf(s)].1 then [FlightOf(s, lives[KeyOf(s)])] else []
  }

  ghost predicate AreLifetimes(samples: seq<Sample>, events: seq<Event>, lives: map<Key, (u64, u64)>) {
    forall key :: Lookup(lives, key) == Lifetime(samples, events, key)
  }

  method CollectDetonations(events: seq<Event>) returns (detonations: map<u64, seq<u64>>)
    ensures forall entity :: OrEmpty(detonations, entity) == DetonationTicks(events, entity)
  {
    detonations := map[];
    for i := 0 to |events|
      invariant forall entity ::
        OrEmpty(detonations, entity) == DetonationTicks(events[..i], entity)
    {
      var event := events[i];
      assert events[..i + 1][..i] == events[..i];
      if event.entity.Some? && Detonates(event, event.entity.value) {
        var entity := event.entity.value;
        detonations := detonations[entity := OrEmpty(detonations, entity) + [event.tick]];
      }
    }
    assert events[..|events|] == events;
  }

  method CollectLifetimes(samples: seq<Sample>) returns (r: Option<map<Key, (u64, u64)>>)
    ensures r.Some? <==> NoDuplicates(samples)
    ensures r.Some? ==> forall key :: Lookup(r.value, key) == Observed(samples, key)
  {
    var lifetimes: map<Key, (u64, u64)> := map[];
    var unique: set<(u64, u64, u64)> := {};
    for i := 0 to |samples|
      invariant NoDuplicates(samples[..i])
      invariant forall k :: 0 <= k < i ==> (samples[k].entity, samples[k].serial, samples[k].tick) in unique
      invariant forall u <- unique :: Taken(samples, i, u)
      invariant forall key :: Lookup(lifetimes, key) == Observed(samples[..i], key)
    {
      var sample := samples[i];
      assert samples[..i + 1][..i] == samples[..i];
      if (sample.entity, sample.serial, sample.tick) in unique {
        assert Taken(samples, i, (sample.entity, sample.serial, sample.tick));
        return None;
      }
      unique := unique + {(sample.entity, sample.serial, sample.tick)};
      var key := KeyOf(sample);
      var entry := if key in lifetimes then lifetimes[key] else (sample.tick, sample.tick);
      lifetimes := lifetimes[key := (Min(entry.0, sample.tick), Max(entry.1, sample.tick))];
    }
    assert samples[..|samples|] == samples;
    return Some(lifetimes);
  }

  ghost predicate Taken(samples: seq<Sample>, n: nat, u: (u64, u64, u64))
    requires n <= |samples|
  {
    exists k :: 0 <= k < n && u == (samples[k].entity, samples[k].serial, samples[k].tick)
  }

  /** Cuts every lifetime short at its detonation, in any order. */
  method CutLifetimes(observed: map<Key, (u64, u64)>, detonations: map<u64, seq<u64>>) returns (lives: map<Key, (u64, u64)>)
    ensures lives.Keys == observed.Keys
    ensures forall key <- lives :: lives[key] == Cut(observed[key], OrEmpty(detonations, key.entity))
  {
    lives := observed;
    var remaining := observed.Keys;
    while remaining != {}
      invariant remaining <= observed.Keys == lives.Keys
      invariant forall key <- lives ::
        lives[key] == if key in remaining then observed[key] else Cut(observed[key], OrEmpty(detonations, key.entity))
      decreases remaining
    {
      var key :| key in remaining;
      remaining := remaining - {key};
      if key.entity in detonations {
        var (start, end) := lives[key];
        var tick := Earliest(detonations[key.entity], start, end);
        if tick.Some? {
          lives := lives[key := (start, SaturatingSub(tick.value, 1))];
        }
      }
    }
  }

  function Cut(life: (u64, u64), ticks: seq<u64>): (u64, u64) {
    var detonation := Earliest(ticks, life.0, life.1);
    (life.0, if detonation.Some? then SaturatingSub(detonation.value, 1) else life.1)
  }

  method BuildFrames(samples: seq<Sample>, lifetimes: map<Key, (u64, u64)>) returns (frames: map<u64, seq<Flight>>)
    requires forall i :: 0 <= i < |samples| ==> KeyOf(samples[i]) in lifetimes
    ensures forall tick :: OrEmpty(frames, tick) == InFrame(samples, |samples|, lifetimes, tick)
  {
    hide FlightOf, InFrame;
    frames := map[];
    NothingInFrame(samples, lifetimes);
    for i := 0 to |samples|
      invariant forall tick :: OrEmpty(frames, tick) == InFrame(samples, i, lifetimes, tick)
    {
      var sample := samples[i];
      var life := lifetimes[KeyOf(sample)];
      ghost var before := frames;
      if sample.tick <= life.1 {
        frames := frames[sample.tick := OrEmpty(frames, sample.tick) + [FlightOf(sample, life)]];
      }
      forall tick
        ensures OrEmpty(frames, tick) == InFrame(samples, i + 1, lifetimes, tick)
      {
        InFrameNext(samples, i, lifetimes, tick);
        assert OrEmpty(before, tick) == InFrame(samples, i, lifetimes, tick);
      }
    }
  }

  lemma NothingInFrame(samples: seq<Sample>, lives: map<Key, (u64, u64)>)
    ensures forall tick :: InFrame(samples, 0, lives, tick) == []
  {
  }

  lemma InFrameNext(samples: seq<Sample>, i: nat, lives: map<Key, (u64, u64)>, tick: u64)
    requires i < |samples| && KeyOf(samples[i]) in lives
    ensures var s, life := samples[i], lives[KeyOf(samples[i])];
            InFrame(samples, i + 1, lives, tick) ==
              if s.tick == tick && tick <= life.1 then InFrame(samples, i, lives, tick) + [FlightOf(s, life)]
              else InFrame(samples, i, lives, tick)
  {
    hide FlightOf;
  }

  method Materialize(samples: seq<Sample>, events: seq<Event>)
    returns (r: Option<map<u64, seq<Flight>>>, ghost lives: map<Key, (u64, u64)>)
    ensures r.Some? <==> NoDuplicates(samples)
    ensures r.Some? ==> AreLifetimes(samples, events, lives)
    ensures r.Some? ==> forall tick :: OrEmpty(r.value, tick) == InFrame(samples, |samples|, lives, tick)
  {
    hide NoDuplicates, Observed, DetonationTicks, Earliest, InFrame, AreLifetimes;
    lives := map[];
    var detonations := CollectDetonations(events);
    var observed := CollectLifetimes(samples);
    if observed.None? {
      return None, lives;
    }
    var lifetimes := CutLifetimes(observed.value, detonations);
    lives := lifetimes;
    TheseAreLifetimes(samples, events, observed.value, detonations, lives);
    forall i | 0 <= i < |samples|
      ensures KeyOf(samples[i]) in lifetimes
    {
      SampleHasLife(samples, i);
      assert Lookup(observed.value, KeyOf(samples[i])) == Observed(samples, KeyOf(samples[i]));
    }
    var frames := BuildFrames(samples, lifetimes);
    r := Some(frames);
  }

  lemma TheseAreLifetimes(samples: seq<Sample>, events: seq<Event>, observed: map<Key, (u64, u64)>,
                          detonations: map<u64, seq<u64>>, lives: map<Key, (u64, u64)>)
    requires forall key :: Lookup(observed, key) == Observed(samples, key)
    requires forall entity :: OrEmpty(detonations, entity) == DetonationTicks(events, entity)
    requires lives.Keys == observed.Keys
    requires forall key <- lives :: lives[key] == Cut(observed[key], OrEmpty(detonations, key.entity))
    ensures AreLifetimes(samples, events, lives)
  {
    hide Observed, DetonationTicks, Earliest;
    forall key
      ensures Lookup(lives, key) == Lifetime(samples, events, key)
    {
      assert Lookup(observed, key) == Observed(samples, key);
      assert OrEmpty(detonations, key.entity) == DetonationTicks(events, key.entity);
    }
  }

  lemma SampleHasLife(samples: seq<Sample>, i: nat)
    requires i < |samples|
    ensures Observed(samples, KeyOf(samples[i])).Some?
  {
    ObservedMeans(samples, KeyOf(samples[i]));
  }

  // --- what the frames hold -------------------------------------------------------------------------

  ghost predicate Emits(samples: seq<Sample>, lives: map<Key, (u64, u64)>, i: nat, tick: u64, f: Flight)
    requires i < |samples|
  {
    var s := samples[i];
    s.tick == tick && KeyOf(s) in lives && tick <= lives[KeyOf(s)].1 && f == FlightOf(s, lives[KeyOf(s)])
  }

  /** A frame holds exactly the snapshots of its tick that come no later than their end. */
  lemma {:induction false} EmittedExactly(samples: seq<Sample>, n: nat, lives: map<Key, (u64, u64)>, tick: u64, f: Flight)
    requires n <= |samples|
    ensures f in InFrame(samples, n, lives, tick) <==> exists i :: 0 <= i < n && Emits(samples, lives, i, tick, f)
  {
    if n > 0 {
      EmittedExactly(samples, n - 1, lives, tick, f);
      assert f in InFrame(samples, n, lives, tick) <==>
        f in InFrame(samples, n - 1, lives, tick) || Emits(samples, lives, n - 1, tick, f);
    }
  }

  /** An emitted flight is within its lifetime, and before the detonation that ends it, unless both
      are at tick 0, where the end cannot be put before the detonation. */
  lemma WithinLifetime(samples: seq<Sample>, events: seq<Event>, lives: map<Key, (u64, u64)>, tick: u64, f: Flight, key: Key)
    requires AreLifetimes(samples, events, lives) && f in InFrame(samples, |samples|, lives, tick)
    requires f.id == IdText(key)
    ensures f.startTick <= tick <= f.endTick
    ensures Observed(samples, key).Some? && Lifetime(samples, events, key) == Some((f.startTick, f.endTick))
    ensures var detonation := Detonation(events, key, Observed(samples, key).value);
            detonation.Some? ==> (tick >= detonation.value <==> tick == 0 == detonation.value)
  {
    hide Observed, Detonation, InFrame, IdText;
    EmittedExactly(samples, |samples|, lives, tick, f);
    var i :| 0 <= i < |samples| && Emits(samples, lives, i, tick, f);
    IdsTellApart(key, KeyOf(samples[i]));
    assert Lookup(lives, key) == Lifetime(samples, events, key);
    ObservedMeans(samples, key);
    DetonationIsWithin(events, key, Observed(samples, key).value);
  }

  lemma DetonationIsWithin(events: seq<Event>, key: Key, life: (u64, u64))
    ensures var d := Detonation(events, key, life); d.Some? ==> life.0 <= d.value <= life.1
  {
  }

  /** A snapshot at tick 0 of an entity that detonates at tick 0: it is in flight in the frame of the
      tick of its detonation. */
  lemma ShownAtItsDetonation(s: Sample, e: Event, lives: map<Key, (u64, u64)>)
    requires s.tick == 0 && e == Event("smokegrenade_detonate-", 0, Some(s.entity))
    requires AreLifetimes([s], [e], lives)
    ensures Observed([s], KeyOf(s)) == Some((0, 0)) && Detonation([e], KeyOf(s), (0, 0)) == Some(0)
    ensures InFrame([s], 1, lives, 0) == [FlightOf(s, (0, 0))]
  {
    hide AreLifetimes, FlightOf;
    var key := KeyOf(s);
    assert [s][..0] == [] && Observed([], key).None?;
    assert Detonates(e, s.entity) && DetonationTicks([e], s.entity) == [0] by {
      assert [e][..0] == [] && DetonationTicks([], s.entity) == [];
    }
    assert Earliest([], 0, 0) == None && [0][1..] == [];
    LifetimeOf([s], [e], lives, key);
    assert InFrame([s], 0, lives, 0) == [];
  }

  lemma LifetimeOf(samples: seq<Sample>, events: seq<Event>, lives: map<Key, (u64, u64)>, key: Key)
    requires AreLifetimes(samples, events, lives)
    ensures Lookup(lives, key) == Lifetime(samples, events, key)
  {
  }

  /** A snapshot after the end of its lifetime is in no frame, and one up to it is in that of its tick. */
  lemma EmittedIffInTime(samples: seq<Sample>, events: seq<Event>, lives: map<Key, (u64, u64)>, i: nat)
    requires AreLifetimes(samples, events, lives) && i < |samples|
    ensures KeyOf(samples[i]) in lives
    ensures (exists f :: f in InFrame(samples, |samples|, lives, samples[i].tick) && f.id == IdText(KeyOf(samples[i])))
            <==> samples[i].tick <= lives[KeyOf(samples[i])].1
  {
    hide InFrame, Lifetime, IdText;
    var key, tick := KeyOf(samples[i]), samples[i].tick;
    SampleHasLife(samples, i);
    assert Lookup(lives, key) == Lifetime(samples, events, key);
    var f := FlightOf(samples[i], lives[key]);
    EmittedExactly(samples, |samples|, lives, tick, f);
    if tick <= lives[key].1 {
      assert Emits(samples, lives, i, tick, f);
    }
    forall g | g in InFrame(samples, |samples|, lives, tick) && g.id == IdText(key)
      ensures tick <= lives[key].1
    {
      EmittedExactly(samples, |samples|, lives, tick, g);
      var k :| 0 <= k < |samples| && Emits(samples, lives, k, tick, g);
      IdsTellApart(key, KeyOf(samples[k]));
    }
  }

  /** No two flights of a frame have the same id. */
  lemma {:induction false} IdsAreUnique(samples: seq<Sample>, n: nat, lives: map<Key, (u64, u64)>, tick: u64, a: nat, b: nat)
    requires n <= |samples| && NoDuplicates(samples)
    requires a < b < |InFrame(samples, n, lives, tick)|
    ensures InFrame(samples, n, lives, tick)[a].id != InFrame(samples, n, lives, tick)[b].id
  {
    hide IdText;
    if n > 0 {
      var before, last := InFrame(samples, n - 1, lives, tick), samples[n - 1];
      if b < |before| {
        IdsAreUnique(samples, n - 1, lives, tick, a, b);
      } else {
        EmittedExactly(samples, n - 1, lives, tick, before[a]);
        var i :| 0 <= i < n - 1 && Emits(samples, lives, i, tick, before[a]);
        assert samples[i].tick == last.tick;
        if IdText(KeyOf(samples[i])) == IdText(KeyOf(last)) {
          IdsTellApart(KeyOf(samples[i]), KeyOf(last));
        }
      }
    }
  }
}

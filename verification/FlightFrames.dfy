/** What the frames of a replay show of projectiles in flight, told from the snapshots and the events. */
module FlightFrames {
  import opened Bytes
  import opened Results
  import opened Texts
  import opened Flights

  predicate Same(s: Sample, t: Sample) {
    s.entity == t.entity && s.serial == t.serial
  }

  /** The projectile of snapshot i was seen first and last at these ticks. */
  ghost predicate SeenFrom(samples: seq<Sample>, i: nat, first: u64, last: u64)
    requires i < |samples|
  {
    && (exists k :: 0 <= k < |samples| && Same(samples[k], samples[i]) && samples[k].tick == first)
    && (exists k :: 0 <= k < |samples| && Same(samples[k], samples[i]) && samples[k].tick == last)
    && forall k :: 0 <= k < |samples| && Same(samples[k], samples[i]) ==> first <= samples[k].tick <= last
  }

  /** A smoke, flash or high-explosive grenade of the entity goes off, or a decoy starts. */
  predicate GoesOff(e: Event, entity: u64) {
    && e.entity == Some(entity)
    && ("smokegrenade_detonate-" <= e.id || "flashbang_detonate-" <= e.id || "hegrenade_detonate-" <= e.id
        || "decoy_started-" <= e.id)
  }

  /** Event d is the first to set the entity off between two ticks. */
  predicate SetsOff(events: seq<Event>, entity: u64, first: u64, last: u64, d: int) {
    && 0 <= d < |events| && GoesOff(events[d], entity) && first <= events[d].tick <= last
    && forall k :: 0 <= k < |events| && GoesOff(events[k], entity) && first <= events[k].tick <= last ==>
         events[d].tick <= events[k].tick
  }

  /** Snapshot i's projectile lives from start to end: from where it was seen first to where it was seen last,
      or to just before it went off in between. */
  ghost predicate Lives(samples: seq<Sample>, events: seq<Event>, i: nat, start: u64, end: u64)
    requires i < |samples|
  {
    exists last :: SeenFrom(samples, i, start, last)
      && if exists d :: SetsOff(events, samples[i].entity, start, last, d)
         then exists d :: SetsOff(events, samples[i].entity, start, last, d)
                          && end == if events[d].tick == 0 then 0 else events[d].tick - 1
         else end == last
  }

  /** Snapshot i comes no later than the end of its projectile. */
  ghost predicate InTime(samples: seq<Sample>, events: seq<Event>, i: nat)
    requires i < |samples|
  {
    exists start, end :: Lives(samples, events, i, start, end) && samples[i].tick <= end
  }

  /** The flight shows snapshot i. */
  ghost predicate ShowsSnapshot(samples: seq<Sample>, events: seq<Event>, i: nat, f: Flight)
    requires i < |samples|
  {
    var s := samples[i];
    && f.id == "projectile:" + Decimal(s.entity) + ":" + Decimal(s.serial)
    && f.owner == s.owner && f.kind == s.kind && f.position == s.position
    && Lives(samples, events, i, f.startTick, f.endTick)
  }

  lemma SeenMeans(samples: seq<Sample>, i: nat, first: u64, last: u64)
    requires i < |samples|
    ensures SeenFrom(samples, i, first, last) <==> Observed(samples, KeyOf(samples[i])) == Some((first, last))
  {
    var key := KeyOf(samples[i]);
    ObservedMeans(samples, key);
    forall k | 0 <= k < |samples|
      ensures Same(samples[k], samples[i]) <==> KeyOf(samples[k]) == key
    {
    }
    hide Observed;
  }

  lemma SetsOffMeans(events: seq<Event>, entity: u64, serial: u64, first: u64, last: u64)
    ensures var r := Detonation(events, Key(entity, serial), (first, last));
            && (r.None? ==> forall d :: !SetsOff(events, entity, first, last, d))
            && (r.Some? ==> (exists d :: SetsOff(events, entity, first, last, d))
                            && forall d :: SetsOff(events, entity, first, last, d) ==> events[d].tick == r.value)
  {
    hide DetonationTicks, Earliest;
    var ticks := DetonationTicks(events, entity);
    forall k | 0 <= k < |events|
      ensures Detonates(events[k], entity) <==> GoesOff(events[k], entity)
    {
    }
    hide Detonates, GoesOff;
    assert forall k :: 0 <= k < |events| && GoesOff(events[k], entity) ==> events[k].tick in ticks;
    var r := Detonation(events, Key(entity, serial), (first, last));
    if r.Some? {
      var d :| 0 <= d < |events| && Detonates(events[d], entity) && events[d].tick == r.value;
      assert SetsOff(events, entity, first, last, d);
    }
  }

  lemma LivesMeans(samples: seq<Sample>, events: seq<Event>, i: nat, start: u64, end: u64)
    requires i < |samples|
    ensures Lives(samples, events, i, start, end) <==> Lifetime(samples, events, KeyOf(samples[i])) == Some((start, end))
  {
    hide Observed, Detonation, SeenFrom, SetsOff;
    var key := KeyOf(samples[i]);
    SampleHasLife(samples, i);
    var life := Observed(samples, key).value;
    forall first: u64, last: u64
      ensures SeenFrom(samples, i, first, last) <==> Observed(samples, key) == Some((first, last))
    {
      SeenMeans(samples, i, first, last);
    }
    assert SeenFrom(samples, i, life.0, life.1);
    SetsOffMeans(events, key.entity, key.serial, life.0, life.1);
  }

  /** The flights of a tick show, in their order, the snapshots of that tick that come within the lives of
      their projectiles, and no others; at says which. */
  lemma {:induction false} FlightsMean(samples: seq<Sample>, events: seq<Event>, lives: map<Key, (u64, u64)>, tick: u64, n: nat)
    returns (at: seq<nat>)
    requires AreLifetimes(samples, events, lives) && n <= |samples|
    ensures var fs := InFrame(samples, n, lives, tick);
            && |fs| == |at| && (forall j, k :: 0 <= j < k < |at| ==> at[j] < at[k])
            && (forall j :: 0 <= j < |at| ==> at[j] < n && ShowsSnapshot(samples, events, at[j], fs[j]))
            && forall i :: 0 <= i < n ==>
                 (i in at <==> samples[i].tick == tick && InTime(samples, events, i))
  {
    hide Lifetime, InFrame, FlightOf, ShowsSnapshot, InTime;
    at := [];
    if n == 0 {
      NothingInFrame(samples, lives);
    } else {
      at := FlightsMean(samples, events, lives, tick, n - 1);
      var key := KeyOf(samples[n - 1]);
      LifetimeOf(samples, events, lives, key);
      hide AreLifetimes;
      SampleHasLife(samples, n - 1);
      LifeIsThere(samples, events, key);
      InTimeMeans(samples, events, n - 1, lives[key]);
      InFrameNext(samples, n - 1, lives, tick);
      FlightShows(samples, events, n - 1, lives[key]);
      if samples[n - 1].tick == tick && tick <= lives[key].1 {
        at := at + [n - 1];
      }
    }
  }

  lemma FlightShows(samples: seq<Sample>, events: seq<Event>, i: nat, life: (u64, u64))
    requires i < |samples| && Lives(samples, events, i, life.0, life.1)
    ensures ShowsSnapshot(samples, events, i, FlightOf(samples[i], life))
  {
    hide Lives;
  }

  lemma InTimeMeans(samples: seq<Sample>, events: seq<Event>, i: nat, life: (u64, u64))
    requires i < |samples| && Lifetime(samples, events, KeyOf(samples[i])) == Some(life)
    ensures Lives(samples, events, i, life.0, life.1)
    ensures InTime(samples, events, i) <==> samples[i].tick <= life.1
  {
    hide Lives, Lifetime;
    forall start: u64, end: u64
      ensures Lives(samples, events, i, start, end) <==> Lifetime(samples, events, KeyOf(samples[i])) == Some((start, end))
    {
      LivesMeans(samples, events, i, start, end);
    }
    assert Lives(samples, events, i, life.0, life.1);
  }

  lemma LifeIsThere(samples: seq<Sample>, events: seq<Event>, key: Key)
    requires Observed(samples, key).Some?
    ensures Lifetime(samples, events, key).Some?
  {
    hide Observed;
  }
}

/** Multi-kill highlights: per actor, two indices move over the kills in tick order. */
module MultiKills {
  import opened Bytes
  import opened Texts
  import opened Results
  import opened Sorting

  datatype Event = Event(tick: u64, kill: bool, actor: Option<string>, target: Option<string>)

  datatype Highlight = Highlight(id: string, actor: string, round: u32, startTick: u64, endTick: u64, count: nat,
                                 victims: seq<string>)

  function IdText(round: u32, actor: string, tick: u64): string {
    Decimal(round) + [':'] + (actor + [':'] + Decimal(tick)) + "-multikill"
  }

  /** An id tells round, actor and first tick, whatever characters the actor's id is made of. */
  lemma IdsTellApart(round: u32, actor: string, tick: u64, round': u32, actor': string, tick': u64)
    requires IdText(round, actor, tick) == IdText(round', actor', tick')
    ensures round == round' && actor == actor' && tick == tick'
  {
    hide Decimal;
    var a, b := Decimal(round) + [':'] + (actor + [':'] + Decimal(tick)), Decimal(round') + [':'] + (actor' + [':'] + Decimal(tick'));
    assert a == IdText(round, actor, tick)[..|a|] && |a| == |b| && b == IdText(round', actor', tick')[..|a|];
    NoSeparator(round, ':');
    NoSeparator(round', ':');
    NoSeparator(tick, ':');
    NoSeparator(tick', ':');
    SplitAtFirst(Decimal(round), actor + [':'] + Decimal(tick), Decimal(round'), actor' + [':'] + Decimal(tick'), ':');
    SplitAtLast(actor, Decimal(tick), actor', Decimal(tick'), ':');
    DecimalIsInjective(round, round');
    DecimalIsInjective(tick, tick');
  }

  predicate Earlier(a: Event, b: Event) { a.tick <= b.tick }

  ghost predicate Ascending(kills: seq<Event>) {
    forall i, j :: 0 <= i <= j < |kills| ==> kills[i].tick <= kills[j].tick
  }

  // --- windows ------------------------------------------------------------------------

  predicate Fits(kills: seq<Event>, window: u64, s: nat, e: nat)
    requires s < |kills| && e < |kills|
  {
    kills[e].tick <= kills[s].tick + window
  }

  /** A run of kills within the window that cannot be extended on either side. */
  predicate Maximal(kills: seq<Event>, window: u64, s: nat, e: nat) {
    && s <= e < |kills| && Fits(kills, window, s, e)
    && (s > 0 ==> !Fits(kills, window, s - 1, e))
    && (e + 1 < |kills| ==> !Fits(kills, window, s, e + 1))
  }

  predicate Emitted(kills: seq<Event>, window: u64, count: nat, s: nat, e: nat): (r: bool)
    ensures r ==> s <= e < |kills|
  {
    Maximal(kills, window, s, e) && e - s + 1 >= count
  }

  /** The scan over one actor's kills finds exactly the maximal runs of at least count kills, one
      after the other. */
  method ScanKills(kills: seq<Event>, window: u64, count: nat) returns (runs: seq<(nat, nat)>)
    requires Ascending(kills)
    ensures forall s: nat, e: nat :: (s, e) in runs <==> Emitted(kills, window, count, s, e)
    ensures forall i, j :: 0 <= i < j < |runs| ==> runs[i].0 < runs[j].0 && runs[i].1 < runs[j].1
  {
    runs := [];
    var start := 0;
    for end := 0 to |kills|
      invariant 0 <= start && (end > 0 ==> start < end) && (end == 0 ==> start == 0)
      invariant end > 0 ==> Leftmost(kills, window, start, end - 1)
      invariant forall s: nat, e: nat :: (s, e) in runs <==> Emitted(kills, window, count, s, e) && e < end
      invariant forall i, j :: 0 <= i < j < |runs| ==> runs[i].0 < runs[j].0 && runs[i].1 < runs[j].1
    {
      while SaturatingSub(kills[end].tick, kills[start].tick) > window
        invariant 0 <= start <= end
        invariant start > 0 ==> !Fits(kills, window, start - 1, end)
        decreases end - start
      {
        start := start + 1;
      }
      assert Leftmost(kills, window, start, end);
      var size := end - start + 1;
      var nextExtends := end + 1 < |kills| && SaturatingSub(kills[end + 1].tick, kills[start].tick) <= window;
      forall s: nat | Maximal(kills, window, s, end)
        ensures s == start
      {
        LeftmostIsUnique(kills, window, s, start, end);
      }
      if size < count {
        continue;
      }
      if nextExtends {
        continue;
      }
      assert Emitted(kills, window, count, start, end);
      forall i | 0 <= i < |runs|
        ensures runs[i].0 < start && runs[i].1 < end
      {
        assert runs[i] in runs && (runs[i].0, runs[i].1) == runs[i];
        assert Emitted(kills, window, count, runs[i].0, runs[i].1);
        StartsAdvance(kills, window, runs[i].0, runs[i].1, start, end);
      }
      runs := runs + [(start, end)];
    }
  }

  predicate Leftmost(kills: seq<Event>, window: u64, s: nat, e: nat) {
    s <= e < |kills| && Fits(kills, window, s, e) && (s > 0 ==> !Fits(kills, window, s - 1, e))
  }

  lemma LeftmostIsUnique(kills: seq<Event>, window: u64, s: nat, s': nat, e: nat)
    requires Ascending(kills) && Leftmost(kills, window, s, e) && Leftmost(kills, window, s', e)
    ensures s == s'
  {
  }

  /** A later run starts later, in index and in tick. */
  lemma StartsAdvance(kills: seq<Event>, window: u64, s: nat, e: nat, s': nat, e': nat)
    requires Ascending(kills) && Maximal(kills, window, s, e) && Leftmost(kills, window, s', e') && e < e'
    ensures s < s' && kills[s].tick < kills[s'].tick
  {
    assert kills[s].tick + window < kills[e + 1].tick <= kills[e'].tick <= kills[s'].tick + window;
  }

  /** Every qualifying run lies inside an emitted one. */
  lemma {:induction false} QualifyingIsCovered(kills: seq<Event>, window: u64, count: nat, s: nat, e: nat)
    returns (s': nat, e': nat)
    requires Ascending(kills) && s <= e < |kills| && Fits(kills, window, s, e) && e - s + 1 >= count
    ensures s' <= s && e <= e' && Emitted(kills, window, count, s', e')
    decreases s + |kills| - e
  {
    if s > 0 && Fits(kills, window, s - 1, e) {
      s', e' := QualifyingIsCovered(kills, window, count, s - 1, e);
    } else if e + 1 < |kills| && Fits(kills, window, s, e + 1) {
      s', e' := QualifyingIsCovered(kills, window, count, s, e + 1);
    } else {
      s', e' := s, e;
    }
  }

  // --- all actors ------------------------------------------------------------------------

  function KillsBy(events: seq<Event>, actor: string): (r: seq<Event>)
    ensures forall x <- r :: x.kill && x.actor == Some(actor)
  {
    if events == [] then []
    else
      var last := events[|events| - 1];
      KillsBy(events[..|events| - 1], actor) + if last.kill && last.actor == Some(actor) then [last] else []
  }

  /** An actor's kills in tick order. */
  function Timeline(events: seq<Event>, actor: string): seq<Event> {
    SortBy(KillsBy(events, actor), Earlier)
  }

  lemma TimelineAscends(events: seq<Event>, actor: string)
    ensures Ascending(Timeline(events, actor))
  {
    var kills := Timeline(events, actor);
    SortBySorts(KillsBy(events, actor), Earlier);
    assert forall i, j :: 0 <= i < j < |kills| ==> Earlier(kills[i], kills[j]);
  }

  function Targets(kills: seq<Event>): seq<string> {
    if kills == [] then []
    else (if kills[0].target.Some? then [kills[0].target.value] else []) + Targets(kills[1..])
  }

  function Describe(round: u32, actor: string, kills: seq<Event>, s: nat, e: nat): (r: Highlight)
    requires s <= e < |kills|
    ensures r.actor == actor && r.id == IdText(round, actor, kills[s].tick)
  {
    Highlight(IdText(round, actor, kills[s].tick), actor, round, SaturatingSub(kills[s].tick, 128),
              SaturatingAdd(kills[e].tick, 192), e - s + 1, Targets(kills[s..e + 1]))
  }

  /** h shows a maximal run of its actor. */
  ghost predicate Shows(round: u32, events: seq<Event>, window: u64, count: nat, h: Highlight) {
    var kills := Timeline(events, h.actor);
    exists s: nat, e: nat :: Emitted(kills, window, count, s, e) && h == Describe(round, h.actor, kills, s, e)
  }

  method GroupByActor(events: seq<Event>) returns (byActor: map<string, seq<Event>>)
    ensures forall a :: (a in byActor <==> KillsBy(events, a) != []) && (a in byActor ==> byActor[a] == KillsBy(events, a))
  {
    byActor := map[];
    for i := 0 to |events|
      invariant forall a :: (a in byActor <==> KillsBy(events[..i], a) != [])
                            && (a in byActor ==> byActor[a] == KillsBy(events[..i], a))
    {
      var event := events[i];
      assert events[..i + 1][..i] == events[..i];
      if event.kill && event.actor.Some? {
        var actor := event.actor.value;
        byActor := byActor[actor := (if actor in byActor then byActor[actor] else []) + [event]];
      }
    }
    assert events[..|events|] == events;
  }

  /** All highlights are of maximal runs, all of those are there, and no two share an id. */
  method ClassifyMultiKills(round: u32, events: seq<Event>, window: u64, count: nat) returns (output: seq<Highlight>)
    ensures count < 2 ==> output == []
    ensures count >= 2 ==> forall h :: h in output <==> Shows(round, events, window, count, h)
    ensures DistinctIds(output)
  {
    hide Shows, KillsBy, DistinctIds, SortBy;
    output := [];
    NoIds();
    if count < 2 {
      return;
    }
    var byActor := GroupByActor(events);
    var remaining := byActor;
    while remaining.Keys != {}
      invariant forall a <- remaining :: a in byActor && remaining[a] == byActor[a]
      invariant forall h :: h in output <==> Shows(round, events, window, count, h) && h.actor in byActor && h.actor !in remaining
      invariant DistinctIds(output)
      decreases remaining.Keys
    {
      var actor :| actor in remaining.Keys;
      var shown := HighlightsOf(round, events, actor, SortBy(remaining[actor], Earlier), window, count);
      remaining := remaining - {actor};
      forall h | h in output + shown
        ensures HasId(round, h)
      {
        ShownHasId(round, events, window, count, h);
      }
      MergeIds(round, output, shown, actor);
      output := output + shown;
    }
    forall h | Shows(round, events, window, count, h)
      ensures h.actor in byActor
    {
      ShownActors(round, events, window, count, h);
    }
  }

  lemma NoIds()
    ensures DistinctIds([])
  {
  }

  lemma {:induction false} ShownActors(round: u32, events: seq<Event>, window: u64, count: nat, h: Highlight)
    requires Shows(round, events, window, count, h)
    ensures KillsBy(events, h.actor) != []
  {
  }

  ghost predicate HasId(round: u32, h: Highlight) {
    exists tick: u64 :: h.id == IdText(round, h.actor, tick)
  }

  lemma MergeIds(round: u32, a: seq<Highlight>, b: seq<Highlight>, actor: string)
    requires DistinctIds(a) && DistinctIds(b)
    requires (forall h <- a :: HasId(round, h) && h.actor != actor) && (forall h <- b :: HasId(round, h) && h.actor == actor)
    ensures DistinctIds(a + b)
  {
    hide IdText;
    assert forall i :: 0 <= i < |b| ==> b[i] in b;
    forall i, j | 0 <= i < |a| && 0 <= j < |b|
      ensures a[i].id != b[j].id
    {
      assert a[i] in a && b[j] in b;
      var t: u64 :| a[i].id == IdText(round, a[i].actor, t);
      var u: u64 :| b[j].id == IdText(round, b[j].actor, u);
      if a[i].id == b[j].id {
        IdsTellApart(round, a[i].actor, t, round, b[j].actor, u);
      }
    }
    var all := a + b;
    forall i, j | 0 <= i < j < |all|
      ensures all[i].id != all[j].id
    {
      if i < |a| <= j {
        assert all[i] == a[i] && all[j] == b[j - |a|];
      }
    }
  }

  lemma ShownHasId(round: u32, events: seq<Event>, window: u64, count: nat, h: Highlight)
    requires Shows(round, events, window, count, h)
    ensures HasId(round, h)
  {
    hide IdText;
    var kills := Timeline(events, h.actor);
    var s: nat, e: nat :| Emitted(kills, window, count, s, e) && h == Describe(round, h.actor, kills, s, e);
    assert h.id == IdText(round, h.actor, kills[s].tick);
  }

  ghost predicate DistinctIds(hs: seq<Highlight>) {
    forall i, j :: 0 <= i < j < |hs| ==> hs[i].id != hs[j].id
  }

  method HighlightsOf(round: u32, events: seq<Event>, actor: string, kills: seq<Event>, window: u64, count: nat)
    returns (shown: seq<Highlight>)
    requires kills == Timeline(events, actor)
    ensures forall h :: h in shown <==> h.actor == actor && Shows(round, events, window, count, h)
    ensures DistinctIds(shown)
  {
    hide Timeline, Targets, Describe, Emitted, Ascending;
    TimelineAscends(events, actor);
    var runs := ScanKills(kills, window, count);
    shown := [];
    for i := 0 to |runs|
      invariant |shown| == i
      invariant forall k :: 0 <= k < i ==> shown[k] == DescribeRun(round, actor, kills, runs[k])
    {
      assert runs[i] in runs;
      RunIsEmitted(kills, window, count, runs[i], runs);
      shown := shown + [Describe(round, actor, kills, runs[i].0, runs[i].1)];
    }
    ShownIsExact(round, events, actor, kills, window, count, runs, shown);
    ShownIsDistinct(round, actor, kills, window, count, runs, shown);
  }

  function DescribeRun(round: u32, actor: string, kills: seq<Event>, run: (nat, nat)): Highlight {
    if run.0 <= run.1 < |kills| then Describe(round, actor, kills, run.0, run.1) else Highlight("", actor, round, 0, 0, 0, [])
  }

  lemma RunIsEmitted(kills: seq<Event>, window: u64, count: nat, run: (nat, nat), runs: seq<(nat, nat)>)
    requires forall s: nat, e: nat :: (s, e) in runs <==> Emitted(kills, window, count, s, e)
    requires run in runs
    ensures Emitted(kills, window, count, run.0, run.1) && run.0 <= run.1 < |kills|
  {
    assert (run.0, run.1) in runs;
  }

  lemma ShownIsExact(round: u32, events: seq<Event>, actor: string, kills: seq<Event>, window: u64, count: nat,
                     runs: seq<(nat, nat)>, shown: seq<Highlight>)
    requires kills == Timeline(events, actor)
    requires forall s: nat, e: nat :: (s, e) in runs <==> Emitted(kills, window, count, s, e)
    requires |shown| == |runs| && forall k :: 0 <= k < |runs| ==> shown[k] == DescribeRun(round, actor, kills, runs[k])
    ensures forall h :: h in shown <==> h.actor == actor && Shows(round, events, window, count, h)
  {
    hide Timeline, Targets, Emitted, Describe;
    forall h | h in shown
      ensures h.actor == actor && Shows(round, events, window, count, h)
    {
      var k :| 0 <= k < |shown| && shown[k] == h;
      RunIsEmitted(kills, window, count, runs[k], runs);
    }
    forall h: Highlight | h.actor == actor && Shows(round, events, window, count, h)
      ensures h in shown
    {
      var s: nat, e: nat :| Emitted(kills, window, count, s, e) && h == Describe(round, actor, kills, s, e);
      assert (s, e) in runs;
      var k :| 0 <= k < |runs| && runs[k] == (s, e);
      assert shown[k] == h;
    }
  }

  lemma ShownIsDistinct(round: u32, actor: string, kills: seq<Event>, window: u64, count: nat, runs: seq<(nat, nat)>,
                        shown: seq<Highlight>)
    requires Ascending(kills)
    requires forall s: nat, e: nat :: (s, e) in runs <==> Emitted(kills, window, count, s, e)
    requires forall i, j :: 0 <= i < j < |runs| ==> runs[i].0 < runs[j].0 && runs[i].1 < runs[j].1
    requires |shown| == |runs| && forall k :: 0 <= k < |runs| ==> shown[k] == DescribeRun(round, actor, kills, runs[k])
    ensures DistinctIds(shown)
  {
    hide Describe, Ascending, IdText;
    forall i, j | 0 <= i < j < |shown|
      ensures shown[i].id != shown[j].id
    {
      RunIsEmitted(kills, window, count, runs[i], runs);
      RunIsEmitted(kills, window, count, runs[j], runs);
      StartsAdvance(kills, window, runs[i].0, runs[i].1, runs[j].0, runs[j].1);
      if shown[i].id == shown[j].id {
        IdsTellApart(round, actor, kills[runs[i].0].tick, round, actor, kills[runs[j].0].tick);
      }
    }
  }
}

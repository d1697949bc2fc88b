/** From the sweep to the encoder: whether the ids and lifetimes of a swept frame pass the encoder's
    first pass. */
module EffectIds {
  import opened Bytes
  import opened EffectSweep
  import opened Results
  import opened Sorting
  import opened Texts
  import opened UtilityLifecycles
  import Acceptance = ReplayAcceptance
  import Flying = Flights
  import Payloads = ReplayPayloads
  import Tables = ReplayTables

  // --- ids as text ------------------------------------------------------------------------------

  /** The bits of a finite coordinate: negative numbers rank the other way round. */
  function BitsOf(rank: i64): u64 {
    if rank >= 0 then rank else 0x7FFF_FFFF_FFFF_FFFF - rank
  }

  function CoordText(c: Coord): string {
    Padded(Hex(if c.At? then BitsOf(c.rank) else 0), 16)
  }

  function PositionText(p: Position): string {
    CoordText(p.x) + [':'] + (CoordText(p.y) + [':'] + CoordText(p.z))
  }

  function SourceText(source: Source): string {
    match source
    case FromKey(ById(entity)) => "id:" + entity
    case FromKey(ByPosition(position)) => "position:" + PositionText(position)
    case FromEvent(id) => id
  }

  function IdText(id: EffectId): string {
    "effect:" + (id.kind + [':'] + (SourceText(id.source) + [':'] + Decimal(id.tick)))
  }

  function TagText(tag: Tag): string {
    match tag
    case Flight(id) => id
    case Effect(id) => IdText(id)
  }

  predicate FinitePosition(p: Position) {
    p.x.At? && p.y.At? && p.z.At?
  }

  /** What an id is made of that stands for an interval. */
  predicate IsKeyed(id: EffectId) {
    && ':' !in id.kind && id.source.FromKey?
    && (id.source.key.ByPosition? ==> FinitePosition(id.source.key.position))
  }

  lemma CoordTellsApart(a: Coord, b: Coord)
    requires a.At? && b.At? && CoordText(a) == CoordText(b)
    ensures a == b
  {
    hide Hex, Padded;
    PaddedHexIsInjective(BitsOf(a.rank), BitsOf(b.rank), 16);
  }

  lemma PositionTellsApart(p: Position, q: Position)
    requires FinitePosition(p) && FinitePosition(q) && PositionText(p) == PositionText(q)
    ensures p == q
  {
    SplitAtFirst(CoordText(p.x), CoordText(p.y) + [':'] + CoordText(p.z),
                 CoordText(q.x), CoordText(q.y) + [':'] + CoordText(q.z), ':');
    SplitAtFirst(CoordText(p.y), CoordText(p.z), CoordText(q.y), CoordText(q.z), ':');
    hide CoordText;
    CoordTellsApart(p.x, q.x);
    CoordTellsApart(p.y, q.y);
    CoordTellsApart(p.z, q.z);
  }

  lemma PrefixedTellsApart(prefix: string, a: string, b: string)
    requires prefix + a == prefix + b
    ensures a == b
  {
    assert a == (prefix + a)[|prefix|..] && b == (prefix + b)[|prefix|..];
  }

  lemma SourceStart(id: EffectId)
    requires IsKeyed(id)
    ensures SourceText(id.source) != ""
    ensures SourceText(id.source)[0] == if id.source.key.ById? then 'i' else 'p'
  {
  }

  lemma SourceTellsApart(a: EffectId, b: EffectId)
    requires IsKeyed(a) && IsKeyed(b) && SourceText(a.source) == SourceText(b.source)
    ensures a.source == b.source
  {
    hide PositionText;
    SourceStart(a);
    SourceStart(b);
    var x, y := a.source.key, b.source.key;
    if x.ById? {
      PrefixedTellsApart("id:", x.entity, y.entity);
    } else {
      PrefixedTellsApart("position:", PositionText(x.position), PositionText(y.position));
      PositionTellsApart(x.position, y.position);
    }
  }

  /** The text of an effect's id tells its kind, its key and its tick. */
  lemma IdTellsApart(a: EffectId, b: EffectId)
    requires IsKeyed(a) && IsKeyed(b) && IdText(a) == IdText(b)
    ensures a == b
  {
    hide SourceText, Decimal;
    var x, y := SourceText(a.source) + [':'] + Decimal(a.tick), SourceText(b.source) + [':'] + Decimal(b.tick);
    PrefixedTellsApart("effect:", a.kind + [':'] + x, b.kind + [':'] + y);
    SplitAtFirst(a.kind, x, b.kind, y, ':');
    NoSeparator(a.tick, ':');
    NoSeparator(b.tick, ':');
    SplitAtLast(SourceText(a.source), Decimal(a.tick), SourceText(b.source), Decimal(b.tick), ':');
    SourceTellsApart(a, b);
    DecimalIsInjective(a.tick, b.tick);
  }

  // --- the intervals of events ------------------------------------------------------------------

  /** What a weapon's name stands for is one word. */
  predicate OneWord(events: seq<Event>) {
    forall i :: 0 <= i < |events| ==> ':' !in events[i].weaponKind
  }

  lemma SignalsAreWords(id: string)
    ensures EffectSignal(id).PersistentStart? || EffectSignal(id).Instant? ==> ':' !in EffectSignal(id).kind
  {
  }

  lemma ItemIsKeyed(e: Event, rate: Option<real>, end: Option<Event>)
    requires (rate.Some? ==> 0.0 <= rate.value <= 1024.0) && ':' !in e.weaponKind
    requires Item(e, rate, end).Some?
    ensures var item := Item(e, rate, end).value;
            && IsKeyed(item.id) && item.id.tick == item.startTick == e.tick && item.startTick <= item.endTick
            && LifecycleKey(e).Some? && item.id.source == FromKey(LifecycleKey(e).value)
  {
    hide WindowTicks, EffectSignal;
    SignalsAreWords(e.id);
  }

  /** Intervals are keyed, begin at the tick of their id and end no earlier; and those of one id are of
      events of one tick and one key. */
  lemma IntervalsAreKeyed(events: seq<Event>, intervals: seq<Interval>, m: map<nat, nat>, from: seq<nat>, q: nat)
    requires IntervalsOf(events, intervals, m, from) && OneWord(events) && q < |intervals|
    ensures var o := SortBy(events, Earlier);
            && |from| == |intervals| && from[q] < |o| && LifecycleKey(o[from[q]]).Some?
            && IsKeyed(intervals[q].id) && intervals[q].startTick <= intervals[q].endTick
            && intervals[q].id.tick == intervals[q].startTick == o[from[q]].tick
            && intervals[q].id.source == FromKey(LifecycleKey(o[from[q]]).value)
  {
    hide SortBy, Item, Matching, EvidenceTickRate, NoRepeats;
    var o, rate := SortBy(events, Earlier), EvidenceTickRate(events);
    assert Settled(o, rate, |o|, m, {}, from[q], Some(intervals[q]));
    var e := o[from[q]];
    assert e in multiset(o) && e in events;
    ItemIsKeyed(e, rate, EndOf(o, m, from[q]));
  }

  // --- what the encoder asks of a frame ----------------------------------------------------------

  /** Interning the strings of the effects, without any other check. */
  function InternEffects(strings: seq<Payloads.Text>, es: seq<Payloads.Projectile<Payloads.Float>>):
    Option<seq<Payloads.Text>>
    decreases |es|
  {
    if es == [] then Some(strings)
    else
      var withId :- Tables.Intern(strings, es[0].id);
      var withKind :- Tables.Intern(withId, es[0].kind);
      var withOwner :- Tables.InternOptional(withKind, es[0].ownerId);
      InternEffects(withOwner, es[1..])
  }

  /** The encoder's check is that ids differ and lifetimes are in order, beside the interning. */
  lemma {:induction false} ScanEffectsIff(strings: seq<Payloads.Text>, seen: set<Payloads.Text>,
                                          es: seq<Payloads.Projectile<Payloads.Float>>)
    ensures Tables.ScanEffects(strings, seen, es).Some? <==> Acceptance.EffectsFit(seen, es) && InternEffects(strings, es).Some?
    decreases |es|
  {
    hide Tables.Intern, Tables.InternOptional;
    if es != [] {
      var rest := es[1..];
      Acceptance.EffectsFitNext(seen, es);
      var interned := Tables.ScanEffect(strings, seen, es[0]);
      if interned.Some? {
        ScanEffectsIff(interned.value, seen + {es[0].id}, rest);
      }
    }
  }

  /** The payload carries ids, in UTF-8, and lifetimes over from the frame. */
  ghost predicate CarriedOver(utf8: string -> Payloads.Text, ps: seq<Projectile>,
                              es: seq<Payloads.Projectile<Payloads.Float>>) {
    && |es| == |ps|
    && forall i :: 0 <= i < |ps| ==>
         es[i].id == utf8(TagText(ps[i].tag)) && es[i].startTick == ps[i].startTick && es[i].endTick == ps[i].endTick
  }

  ghost predicate Injective(utf8: string -> Payloads.Text) {
    forall a, b :: utf8(a) == utf8(b) ==> a == b
  }

  /** The projectiles in flight that a frame holds before the sweep. */
  ghost predicate InFlight(ps: seq<Projectile>) {
    && (forall i :: 0 <= i < |ps| ==> IsFlight(ps[i]))
    && (forall i, j :: 0 <= i < j < |ps| ==> ps[i].tag != ps[j].tag)
  }

  /** The flights of a tick, as the frame holds them. */
  ghost predicate HoldsFlights(flights: seq<Flying.Flight>, ps: seq<Projectile>) {
    && |ps| == |flights|
    && forall i :: 0 <= i < |ps| ==>
         ps[i].tag == Flight(flights[i].id) && ps[i].startTick == flights[i].startTick && ps[i].endTick == flights[i].endTick
  }

  /** What the flight materializer puts into a frame is in flight. */
  lemma FlightsAreInFlight(samples: seq<Flying.Sample>, events: seq<Flying.Event>,
                           lives: map<Flying.Key, (u64, u64)>, tick: u64, ps: seq<Projectile>)
    requires Flying.NoDuplicates(samples) && Flying.AreLifetimes(samples, events, lives)
    requires HoldsFlights(Flying.InFrame(samples, |samples|, lives, tick), ps)
    ensures InFlight(ps)
  {
    hide Flying.InFrame, Flying.NoDuplicates, Flying.AreLifetimes, Decimal;
    var flights := Flying.InFrame(samples, |samples|, lives, tick);
    forall i | 0 <= i < |ps|
      ensures IsFlight(ps[i])
    {
      Flying.EmittedExactly(samples, |samples|, lives, tick, flights[i]);
      var k :| 0 <= k < |samples| && Flying.Emits(samples, lives, k, tick, flights[i]);
      var key := Flying.KeyOf(samples[k]);
      Flying.WithinLifetime(samples, events, lives, tick, flights[i], key);
    }
    forall i, j | 0 <= i < j < |ps|
      ensures ps[i].tag != ps[j].tag
    {
      Flying.IdsAreUnique(samples, |samples|, lives, tick, i, j);
    }
  }

  predicate IsFlight(p: Projectile) {
    p.tag.Flight? && "projectile:" <= p.tag.flight && p.startTick <= p.endTick
  }

  predicate IsEffect(p: Projectile) {
    p.tag.Effect? && IsKeyed(p.tag.effect) && p.startTick <= p.endTick
  }

  ghost predicate DistinctEffects(xs: seq<Interval>) {
    forall i, j :: 0 <= i < j < |xs| ==> xs[i].id != xs[j].id
  }

  lemma TagStart(p: Projectile)
    requires IsFlight(p) || IsEffect(p)
    ensures TagText(p.tag) != "" && TagText(p.tag)[0] == if p.tag.Flight? then 'p' else 'e'
  {
  }

  lemma TagTellsApart(p: Projectile, q: Projectile)
    requires (IsFlight(p) || IsEffect(p)) && (IsFlight(q) || IsEffect(q))
    ensures TagText(p.tag) == TagText(q.tag) <==> p.tag == q.tag
  {
    hide IsKeyed, IdText;
    TagStart(p);
    TagStart(q);
    if TagText(p.tag) == TagText(q.tag) && p.tag.Effect? {
      IdTellsApart(p.tag.effect, q.tag.effect);
    }
  }

  ghost predicate DistinctTags(ps: seq<Projectile>) {
    forall i, j :: 0 <= i < j < |ps| ==> ps[i].tag != ps[j].tag
  }

  lemma ShowingAre(xs: seq<Interval>, tick: u64)
    ensures forall e <- Showing(xs, tick) :: e in xs
  {
  }

  /** Before the sort: flights and effects do not share tags. */
  lemma TagsBeforeSort(flights: seq<Projectile>, shown: seq<Interval>)
    requires InFlight(flights)
    ensures DistinctTags(flights + Projected(shown)) <==> DistinctEffects(shown)
  {
    var effects := Projected(shown);
    var all := flights + effects;
    assert forall i :: 0 <= i < |effects| ==> effects[i].tag == Effect(shown[i].id);
    if DistinctTags(all) {
      forall i, j | 0 <= i < j < |shown|
        ensures shown[i].id != shown[j].id
      {
        assert all[|flights| + i] == effects[i] && all[|flights| + j] == effects[j];
      }
    }
    if DistinctEffects(shown) {
      forall i, j | 0 <= i < j < |all|
        ensures all[i].tag != all[j].tag
      {
        if j < |flights| {
          assert all[i] == flights[i] && all[j] == flights[j];
        } else if i < |flights| {
          assert IsFlight(flights[i]) && all[i] == flights[i] && all[j] == effects[j - |flights|];
        } else {
          assert all[i] == effects[i - |flights|] && all[j] == effects[j - |flights|];
        }
      }
    }
  }

  lemma TagsInAnyOrder(ps: seq<Projectile>, qs: seq<Projectile>)
    requires multiset(ps) == multiset(qs)
    ensures DistinctTags(ps) <==> DistinctTags(qs)
  {
    var key := (p: Projectile) => p.tag;
    KeysDifferInAnyOrder(ps, qs, key);
  }

  /** A swept frame passes the encoder's check of ids and lifetimes exactly if no two effects of one
      kind, key and start show at its tick; flights never stand in the way. */
  lemma SweptFramePassesIff(utf8: string -> Payloads.Text, f: Frame, intervals: seq<Interval>,
                            es: seq<Payloads.Projectile<Payloads.Float>>, strings: seq<Payloads.Text>)
    requires Injective(utf8) && InFlight(f.projectiles)
    requires forall e <- intervals :: IsKeyed(e.id) && e.startTick <= e.endTick
    requires CarriedOver(utf8, Swept(f, SortBy(intervals, ByStart)).projectiles, es)
    ensures Tables.ScanEffects(strings, {}, es).Some? <==>
      DistinctEffects(Showing(intervals, f.tick)) && InternEffects(strings, es).Some?
  {
    hide Swept, SortBy, Showing, IsKeyed, Projected, DistinctTags, DistinctEffects, TagText, InternEffects, Acceptance.EffectsFit,
         InFlight, Injective;
    ScanEffectsIff(strings, {}, es);
    var shown := Showing(intervals, f.tick);
    var after := Swept(f, SortBy(intervals, ByStart)).projectiles;
    SweptTags(f, intervals);
    FreshIffDistinct(utf8, after, es);
  }

  lemma SweptTags(f: Frame, intervals: seq<Interval>)
    requires InFlight(f.projectiles)
    requires forall e <- intervals :: IsKeyed(e.id) && e.startTick <= e.endTick
    ensures var after := Swept(f, SortBy(intervals, ByStart)).projectiles;
            && (DistinctTags(after) <==> DistinctEffects(Showing(intervals, f.tick)))
            && forall i :: 0 <= i < |after| ==> IsFlight(after[i]) || IsEffect(after[i])
  {
    hide Swept, SortBy, Showing, IsKeyed, DistinctTags, DistinctEffects, IsFlight, Peers, Sorted;
    var shown := Showing(intervals, f.tick);
    var after := Swept(f, SortBy(intervals, ByStart)).projectiles;
    if after != [] {
      FrameGainsItsEffects(f, intervals, after[0]);
    } else {
      EmptySwept(f, intervals);
    }
    var before := f.projectiles + Projected(shown);
    assert multiset(before) == multiset(after);
    TagsBeforeSort(f.projectiles, shown);
    TagsInAnyOrder(before, after);
    ShowingAre(intervals, f.tick);
    forall i | 0 <= i < |after|
      ensures IsFlight(after[i]) || IsEffect(after[i])
    {
      assert after[i] in multiset(before);
      var k :| 0 <= k < |before| && before[k] == after[i];
      if k >= |f.projectiles| {
        assert shown[k - |f.projectiles|] in shown;
      }
    }
  }

  lemma EmptySwept(f: Frame, intervals: seq<Interval>)
    requires Swept(f, SortBy(intervals, ByStart)).projectiles == []
    ensures multiset(f.projectiles) + multiset(Projected(Showing(intervals, f.tick))) == multiset{}
  {
    hide SortBy, Showing;
    FrameGainsItsEffects(f, intervals, Projectile(Flight(""), None, "", Position(Nowhere, Nowhere, Nowhere), 0, 0, false, None, false));
  }

  lemma FreshIffDistinct(utf8: string -> Payloads.Text, ps: seq<Projectile>, es: seq<Payloads.Projectile<Payloads.Float>>)
    requires Injective(utf8) && CarriedOver(utf8, ps, es)
    requires forall i :: 0 <= i < |ps| ==> IsFlight(ps[i]) || IsEffect(ps[i])
    ensures Acceptance.EffectsFit({}, es) <==> DistinctTags(ps)
  {
    hide TagText, IsKeyed;
    forall i, j | 0 <= i < j < |ps|
      ensures es[i].id != es[j].id <==> ps[i].tag != ps[j].tag
    {
      TagTellsApart(ps[i], ps[j]);
    }
    assert forall i :: 0 <= i < |es| ==> es[i].startTick <= es[i].endTick;
  }

  /** So for every frame of the replay. */
  lemma RenderedFramePassesIff(utf8: string -> Payloads.Text, events: seq<Event>, intervals: seq<Interval>,
                               m: map<nat, nat>, from: seq<nat>, before: seq<Frame>, after: seq<Frame>, i: nat,
                               es: seq<Payloads.Projectile<Payloads.Float>>, strings: seq<Payloads.Text>)
    requires IntervalsOf(events, intervals, m, from) && OneWord(events) && Injective(utf8)
    requires Rendered(before, after, SortBy(intervals, ByStart), SortBy(events, Earlier))
    requires i < |before| && InFlight(before[i].projectiles) && CarriedOver(utf8, after[i].projectiles, es)
    ensures Tables.ScanEffects(strings, {}, es).Some? <==>
      DistinctEffects(Showing(intervals, after[i].tick)) && InternEffects(strings, es).Some?
  {
    hide IntervalsOf, SortBy, InFlight, Showing, IsKeyed, Injective, DistinctEffects, CarriedOver, InternEffects,
         BombAt, OneWord;
    forall e | e in intervals
      ensures IsKeyed(e.id) && e.startTick <= e.endTick
    {
      var q :| 0 <= q < |intervals| && intervals[q] == e;
      IntervalsAreKeyed(events, intervals, m, from, q);
    }
    SweptFramePassesIff(utf8, before[i], intervals, es, strings);
  }

  /** Two detonations of one thing in one tick, different events neither of which is ended: both show,
      under one id. */
  lemma TwoDetonationsClash(e: Event, f: Event)
    requires e.kind.Grenade? && "smokegrenade_detonate-" <= e.id && ValidPosition(e).Some?
    requires f == e.(id := f.id) && "smokegrenade_detonate-" <= f.id && f.id != e.id
    ensures var shown := [SingleTick(e, "smoke"), SingleTick(f, "smoke")];
            && IntervalsOf([e, f], shown, map[], [0, 1])
            && !DistinctEffects(Showing(shown, e.tick))
  {
    hide EvidenceTickRate;
    var shown := [SingleTick(e, "smoke"), SingleTick(f, "smoke")];
    var rate := EvidenceTickRate([e, f]);
    SortByOfSorted([e, f], Earlier);
    var o := SortBy([e, f], Earlier);
    assert o == [e, f];
    assert StartKey(e).Some? && EndKey(e).None? && StartKey(f).Some? && EndKey(f).None?;
    assert Item(e, rate, None) == Some(shown[0]) && Item(f, rate, None) == Some(shown[1]);
    hide StartKey, EndKey, Item;
    ShowingTwo(shown[0], shown[1], e.tick);
  }

  lemma ShowingTwo(x: Interval, y: Interval, tick: u64)
    requires Shows(x, tick) && Shows(y, tick)
    ensures Showing([x, y], tick) == [x, y]
  {
    assert [x, y][1..] == [y] && [y][1..] == [];
    assert Showing([y], tick) == [y] + Showing([], tick);
  }
}

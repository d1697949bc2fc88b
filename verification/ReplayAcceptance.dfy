/** Which recordings the encoder takes, told from the recording alone. */
module ReplayAcceptance {
  import opened Bytes
  import opened Results
  import opened ReplayPayloads
  import opened ReplayTables
  import opened Sorting
  import opened Sets
  import opened ReplayWire
  import opened ReplayCodec

  // --- tables as sets -------------------------------------------------------------------------------

  function Members<T>(xs: seq<T>): set<T> {
    set x | x in xs
  }

  /** Texts of at most 512 bytes, at most 16384 of them. */
  predicate TextsFit(texts: set<Text>) {
    (forall t <- texts :: |t| <= 512) && |texts| <= 16_384
  }

  /** At most 64 players, each under one name and in one of the two teams. */
  predicate PeopleFit(people: set<Identity>) {
    && (forall a <- people, b <- people :: a.id == b.id ==> a == b)
    && (forall a <- people :: a.team == [65] || a.team == [66])
    && |people| <= 64
  }

  lemma SmallerFits(texts: set<Text>, people: set<Identity>, moreTexts: set<Text>, morePeople: set<Identity>)
    requires texts <= moreTexts && people <= morePeople
    ensures TextsFit(moreTexts) ==> TextsFit(texts)
    ensures PeopleFit(morePeople) ==> PeopleFit(people)
  {
    SubsetSize(texts, moreTexts);
    SubsetSize(people, morePeople);
  }

  lemma {:induction false} MembersSize<T>(xs: seq<T>)
    requires Distinct(xs)
    ensures |Members(xs)| == |xs|
  {
    if xs != [] {
      var before, last := xs[..|xs| - 1], xs[|xs| - 1];
      MembersSize(before);
      assert Members(xs) == Members(before) + {last};
    }
  }

  lemma MembersNext<T>(xs: seq<T>, x: T)
    ensures Members(xs + [x]) == Members(xs) + {x}
  {
  }

  // --- interning ------------------------------------------------------------------------------------

  predicate Interned(strings: seq<Text>) {
    Distinct(strings) && TextsFit(Members(strings))
  }

  lemma InternIff(strings: seq<Text>, t: Text)
    requires Interned(strings)
    ensures Intern(strings, t).Some? <==> TextsFit(Members(strings) + {t})
    ensures Intern(strings, t).Some? ==>
              Interned(Intern(strings, t).value) && Members(Intern(strings, t).value) == Members(strings) + {t}
  {
    MembersSize(strings);
    MembersNext(strings, t);
    if t in strings {
      assert Members(strings) + {t} == Members(strings);
    } else {
      assert |Members(strings) + {t}| == |strings| + 1;
    }
  }

  function Maybe(t: Option<Text>): set<Text> {
    if t.Some? then {t.value} else {}
  }

  lemma InternOptionalIff(strings: seq<Text>, t: Option<Text>)
    requires Interned(strings)
    ensures var r := InternOptional(strings, t);
            && (r.Some? <==> TextsFit(Members(strings) + Maybe(t)))
            && (r.Some? ==> Interned(r.value) && Members(r.value) == Members(strings) + Maybe(t))
  {
    if t.Some? {
      InternIff(strings, t.value);
    }
  }

  /** Two texts one after the other. */
  lemma BothIff(strings: seq<Text>, a: Text, b: Text)
    requires Interned(strings)
    ensures var r := Both(strings, a, b);
            && (r.Some? <==> TextsFit(Members(strings) + {a, b}))
            && (r.Some? ==> Interned(r.value) && Members(r.value) == Members(strings) + {a, b})
  {
    hide Intern, TextsFit;
    InternIff(strings, a);
    var all := Members(strings) + {a, b};
    SmallerFits(Members(strings) + {a}, {}, all, {});
    if Intern(strings, a).Some? {
      InternIff(Intern(strings, a).value, b);
      assert Members(strings) + {a} + {b} == all;
    }
  }

  function Both(strings: seq<Text>, a: Text, b: Text): Option<seq<Text>> {
    var withA :- Intern(strings, a);
    Intern(withA, b)
  }

  // --- players --------------------------------------------------------------------------------------

  function PersonOf(p: Player<Float>): Identity {
    Identity(p.id, p.name, p.team)
  }

  /** Both tables are as the first pass builds them. */
  ghost predicate Built(s: Scan) {
    && Interned(s.strings)
    && Distinct(s.roster) && PeopleFit(Members(s.roster))
    && (forall i <- s.roster :: i.id in s.strings && i.name in s.strings)
  }

  /** r is s with more texts and more people. */
  ghost predicate Grown(s: Scan, r: Scan, texts: set<Text>, people: set<Identity>) {
    && Built(r) && Members(r.strings) == Members(s.strings) + texts && Members(r.roster) == Members(s.roster) + people
    && r.players == s.players && r.effects == s.effects && r.lastTick == s.lastTick
  }

  lemma RosterMeans(s: Scan, p: Player<Float>)
    requires Built(s)
    ensures var index := RosterIndex(s.roster, p.id);
            if index == |s.roster| then forall i <- s.roster :: i.id != p.id
            else s.roster[index].id == p.id && (PersonOf(p) in s.roster <==> s.roster[index] == PersonOf(p))
  {
    var index := RosterIndex(s.roster, p.id);
    if index < |s.roster| {
      assert s.roster[index] in Members(s.roster);
      assert PersonOf(p) in s.roster ==> PersonOf(p) in Members(s.roster);
    }
  }

  lemma IdentityIff(s: Scan, p: Player<Float>)
    requires Built(s) && (p.team == [65] || p.team == [66])
    ensures var r := ScanIdentity(s, p);
            && (r.Some? <==> TextsFit(Members(s.strings) + {p.id, p.name}) && PeopleFit(Members(s.roster) + {PersonOf(p)}))
            && (r.Some? ==> Grown(s, r.value, {p.id, p.name}, {PersonOf(p)}))
  {
    hide RosterIndex, Intern, TextsFit;
    RosterMeans(s, p);
    var index := RosterIndex(s.roster, p.id);
    if index == |s.roster| {
      NewIdentity(s, p);
    } else if s.roster[index] == PersonOf(p) {
      assert Members(s.strings) + {p.id, p.name} == Members(s.strings);
      assert Members(s.roster) + {PersonOf(p)} == Members(s.roster);
    } else {
      assert !PeopleFit(Members(s.roster) + {PersonOf(p)}) by {
        assert s.roster[index] in Members(s.roster);
      }
    }
  }

  lemma NewIdentity(s: Scan, p: Player<Float>)
    requires Built(s) && (p.team == [65] || p.team == [66]) && forall i <- s.roster :: i.id != p.id
    ensures var r := AddIdentity(s, p);
            && (r.Some? <==> TextsFit(Members(s.strings) + {p.id, p.name}) && PeopleFit(Members(s.roster) + {PersonOf(p)}))
            && (r.Some? ==> Grown(s, r.value, {p.id, p.name}, {PersonOf(p)}))
  {
    hide Intern, TextsFit, PeopleFit;
    PersonFits(s.roster, PersonOf(p));
    BothIff(s.strings, p.id, p.name);
    var r := AddIdentity(s, p);
    if r.Some? {
      assert r.value.strings == Both(s.strings, p.id, p.name).value;
      assert forall t :: t in r.value.strings <==> t in Members(r.value.strings);
      assert forall t :: t in s.strings <==> t in Members(s.strings);
    }
  }

  lemma PersonFits(roster: seq<Identity>, x: Identity)
    requires Distinct(roster) && PeopleFit(Members(roster)) && (x.team == [65] || x.team == [66])
    requires forall i <- roster :: i.id != x.id
    ensures Members(roster + [x]) == Members(roster) + {x} && Distinct(roster + [x])
    ensures PeopleFit(Members(roster) + {x}) <==> |roster| != 64
    ensures |roster| <= 64
  {
    MembersSize(roster);
    MembersNext(roster, x);
    assert x !in Members(roster);
    assert |Members(roster) + {x}| == |roster| + 1;
  }

  /** The people and the texts of some player records. */
  function PeopleIn(ps: seq<Player<Float>>): set<Identity> {
    set p | p in ps :: PersonOf(p)
  }

  function PlayerTexts(ps: seq<Player<Float>>): set<Text> {
    (set p | p in ps :: p.id) + (set p | p in ps :: p.name) + (set p | p in ps :: p.weapon)
  }

  lemma PlayersSplit(ps: seq<Player<Float>>)
    requires ps != []
    ensures PeopleIn(ps) == {PersonOf(ps[0])} + PeopleIn(ps[1..])
    ensures PlayerTexts(ps) == {ps[0].id, ps[0].name, ps[0].weapon} + PlayerTexts(ps[1..])
  {
    assert ps == [ps[0]] + ps[1..];
    assert forall t :: t in PlayerTexts(ps) <==> t in {ps[0].id, ps[0].name, ps[0].weapon} || t in PlayerTexts(ps[1..]);
  }

  lemma PlayerIff(s: Scan, seen: set<Text>, p: Player<Float>)
    requires Built(s)
    ensures var r, texts, people := ScanPlayer(s, seen, p), {p.id, p.name, p.weapon}, {PersonOf(p)};
            && (r.Some? <==> p.id !in seen && TextsFit(Members(s.strings) + texts) && PeopleFit(Members(s.roster) + people))
            && (r.Some? ==> Grown(s, r.value, texts, people))
  {
    hide Intern, TextsFit, ScanIdentity, Interned;
    if p.team == TEAM_A || p.team == TEAM_B {
      IdentityIff(s, p);
      hide PeopleFit;
      var all := Members(s.strings) + {p.id, p.name, p.weapon};
      SmallerFits(Members(s.strings) + {p.id, p.name}, {}, all, {});
      if ScanIdentity(s, p).Some? {
        var known := ScanIdentity(s, p).value;
        InternIff(known.strings, p.weapon);
        assert Members(known.strings) + {p.weapon} == all;
        if ScanPlayer(s, seen, p).Some? {
          MoreTexts(known, ScanPlayer(s, seen, p).value);
        }
      }
    } else {
      assert PersonOf(p) in Members(s.roster) + {PersonOf(p)};
    }
  }

  lemma MoreTexts(s: Scan, r: Scan)
    requires Built(s) && Interned(r.strings) && Members(s.strings) <= Members(r.strings) && r.roster == s.roster
    ensures Built(r)
  {
    assert forall t :: t in r.strings <==> t in Members(r.strings);
    assert forall t :: t in s.strings <==> t in Members(s.strings);
    hide Interned, PeopleFit;
  }

  predicate DifferentIds(seen: set<Text>, ps: seq<Player<Float>>) {
    && (forall i :: 0 <= i < |ps| ==> ps[i].id !in seen)
    && forall i, j :: 0 <= i < j < |ps| ==> ps[i].id != ps[j].id
  }

  lemma DifferentIdsNext(seen: set<Text>, ps: seq<Player<Float>>)
    requires ps != []
    ensures DifferentIds(seen, ps) <==> ps[0].id !in seen && DifferentIds(seen + {ps[0].id}, ps[1..])
  {
    var rest := ps[1..];
    if DifferentIds(seen + {ps[0].id}, rest) && ps[0].id !in seen {
      forall i, j | 0 <= i < j < |ps|
        ensures ps[i].id != ps[j].id
      {
        assert ps[j] == rest[j - 1] && (i > 0 ==> ps[i] == rest[i - 1]);
      }
      forall i | 0 <= i < |ps|
        ensures ps[i].id !in seen
      {
        assert i > 0 ==> ps[i] == rest[i - 1];
      }
    }
  }

  lemma {:induction false} PlayersIff(s: Scan, seen: set<Text>, ps: seq<Player<Float>>)
    requires Built(s)
    ensures var r, texts, people := ScanPlayers(s, seen, ps), PlayerTexts(ps), PeopleIn(ps);
            && (r.Some? <==> DifferentIds(seen, ps) && TextsFit(Members(s.strings) + texts)
                             && PeopleFit(Members(s.roster) + people))
            && (r.Some? ==> Grown(s, r.value, texts, people))
    decreases |ps|
  {
    hide TextsFit, PeopleFit, ScanPlayer, Interned, PlayerTexts, PeopleIn, DifferentIds;
    if ps == [] {
      NoPlayers(seen);
      BuiltFits(s);
      assert Members(s.strings) + {} == Members(s.strings) && Members(s.roster) + {} == Members(s.roster);
    } else {
      var p := ps[0];
      var texts, people := {p.id, p.name, p.weapon}, {PersonOf(p)};
      PlayerIff(s, seen, p);
      PlayersSplit(ps);
      DifferentIdsNext(seen, ps);
      SmallerFits(Members(s.strings) + texts, Members(s.roster) + people,
                  Members(s.strings) + PlayerTexts(ps), Members(s.roster) + PeopleIn(ps));
      if ScanPlayer(s, seen, p).Some? {
        var next := ScanPlayer(s, seen, p).value;
        PlayersIff(next, seen + {p.id}, ps[1..]);
        assert Members(next.strings) + PlayerTexts(ps[1..]) == Members(s.strings) + PlayerTexts(ps);
        assert Members(next.roster) + PeopleIn(ps[1..]) == Members(s.roster) + PeopleIn(ps);
      }
    }
  }

  lemma NoPlayers(seen: set<Text>)
    ensures DifferentIds(seen, []) && PlayerTexts([]) == {} && PeopleIn([]) == {}
  {
  }

  lemma BuiltFits(s: Scan)
    requires Built(s)
    ensures TextsFit(Members(s.strings)) && PeopleFit(Members(s.roster))
  {
  }

  // --- effects and the bomb -------------------------------------------------------------------------

  function EffectTexts(es: seq<Projectile<Float>>): set<Text> {
    (set e | e in es :: e.id) + (set e | e in es :: e.kind) + (set e | e in es && e.ownerId.Some? :: e.ownerId.value)
  }

  lemma EffectsSplit(es: seq<Projectile<Float>>)
    requires es != []
    ensures EffectTexts(es) == {es[0].id, es[0].kind} + Maybe(es[0].ownerId) + EffectTexts(es[1..])
  {
    assert es == [es[0]] + es[1..];
    assert forall t :: t in EffectTexts(es) <==>
      t in {es[0].id, es[0].kind} + Maybe(es[0].ownerId) || t in EffectTexts(es[1..]);
  }

  /** Effects have different ids, none of them seen before, and end no earlier than they start. */
  predicate EffectsFit(seen: set<Text>, es: seq<Projectile<Float>>) {
    && (forall i :: 0 <= i < |es| ==> es[i].id !in seen && es[i].startTick <= es[i].endTick)
    && forall i, j :: 0 <= i < j < |es| ==> es[i].id != es[j].id
  }

  lemma EffectsFitNext(seen: set<Text>, es: seq<Projectile<Float>>)
    requires es != []
    ensures EffectsFit(seen, es) <==>
            es[0].id !in seen && es[0].startTick <= es[0].endTick && EffectsFit(seen + {es[0].id}, es[1..])
  {
    var rest := es[1..];
    if EffectsFit(seen + {es[0].id}, rest) && es[0].id !in seen && es[0].startTick <= es[0].endTick {
      forall i, j | 0 <= i < j < |es|
        ensures es[i].id != es[j].id
      {
        assert es[j] == rest[j - 1] && (i > 0 ==> es[i] == rest[i - 1]);
      }
      forall i | 0 <= i < |es|
        ensures es[i].id !in seen && es[i].startTick <= es[i].endTick
      {
        assert i > 0 ==> es[i] == rest[i - 1];
      }
    }
  }

  /** The table has grown by some texts, and no further check has failed. */
  ghost predicate Grows(strings: seq<Text>, r: Option<seq<Text>>, texts: set<Text>, checks: bool) {
    && (r.Some? <==> checks && TextsFit(Members(strings) + texts))
    && (r.Some? ==> Interned(r.value) && Members(r.value) == Members(strings) + texts)
  }

  lemma EffectIff(strings: seq<Text>, seen: set<Text>, e: Projectile<Float>)
    requires Interned(strings)
    ensures Grows(strings, ScanEffect(strings, seen, e), {e.id, e.kind} + Maybe(e.ownerId),
                  e.id !in seen && e.startTick <= e.endTick)
  {
    hide Intern, TextsFit, InternOptional;
    BothIff(strings, e.id, e.kind);
    var all := Members(strings) + ({e.id, e.kind} + Maybe(e.ownerId));
    SmallerFits(Members(strings) + {e.id, e.kind}, {}, all, {});
    var both := Both(strings, e.id, e.kind);
    if both.Some? {
      InternOptionalIff(both.value, e.ownerId);
      assert Members(both.value) + Maybe(e.ownerId) == all;
    }
  }

  lemma {:induction false} EffectsIff(strings: seq<Text>, seen: set<Text>, es: seq<Projectile<Float>>)
    requires Interned(strings)
    ensures Grows(strings, ScanEffects(strings, seen, es), EffectTexts(es), EffectsFit(seen, es))
    decreases |es|
  {
    hide TextsFit, ScanEffect, Interned, EffectTexts, EffectsFit;
    if es == [] {
      NoEffects(seen);
      TableFits(strings);
      assert Members(strings) + {} == Members(strings);
    } else {
      var e := es[0];
      var texts := {e.id, e.kind} + Maybe(e.ownerId);
      EffectIff(strings, seen, e);
      EffectsSplit(es);
      EffectsFitNext(seen, es);
      SmallerFits(Members(strings) + texts, {}, Members(strings) + EffectTexts(es), {});
      if ScanEffect(strings, seen, e).Some? {
        var next := ScanEffect(strings, seen, e).value;
        EffectsIff(next, seen + {e.id}, es[1..]);
        assert Members(next) + EffectTexts(es[1..]) == Members(strings) + EffectTexts(es);
      }
    }
  }

  lemma NoEffects(seen: set<Text>)
    ensures EffectsFit(seen, []) && EffectTexts([]) == {}
  {
  }

  lemma TableFits(strings: seq<Text>)
    requires Interned(strings)
    ensures TextsFit(Members(strings))
  {
  }

  function BombTexts(bomb: Option<Bomb<Float>>): set<Text> {
    if bomb.None? then {} else {bomb.value.state} + Maybe(bomb.value.carrierId)
  }

  lemma BombIff(strings: seq<Text>, bomb: Option<Bomb<Float>>)
    requires Interned(strings)
    ensures Grows(strings, ScanBomb(strings, bomb), BombTexts(bomb), true)
  {
    hide Intern, TextsFit, InternOptional;
    var all := Members(strings) + BombTexts(bomb);
    if bomb.None? {
      TableFits(strings);
      assert all == Members(strings);
    } else {
      InternIff(strings, bomb.value.state);
      SmallerFits(Members(strings) + {bomb.value.state}, {}, all, {});
      if Intern(strings, bomb.value.state).Some? {
        var withState := Intern(strings, bomb.value.state).value;
        InternOptionalIff(withState, bomb.value.carrierId);
        assert Members(withState) + Maybe(bomb.value.carrierId) == all;
      }
    }
  }

  // --- frames ---------------------------------------------------------------------------------------

  function FrameTexts(f: Frame<Float>): set<Text> {
    PlayerTexts(f.players) + EffectTexts(f.projectiles) + BombTexts(f.bomb)
  }

  /** What a frame is checked for by itself. */
  predicate FrameFits(f: Frame<Float>) {
    && |f.players| <= 64 && |f.projectiles| <= 512
    && DifferentIds({}, f.players) && EffectsFit({}, f.projectiles)
  }

  /** The frame keeps the order of ticks and the two budgets of records. */
  predicate InLine(s: Scan, f: Frame<Float>) {
    && (s.lastTick.Some? ==> s.lastTick.value < f.tick)
    && s.players + |f.players| <= 1_000_000 && s.effects + |f.projectiles| <= 1_000_000
  }

  /** s with one frame more. */
  ghost predicate Advanced(s: Scan, r: Scan, f: Frame<Float>) {
    && Built(r) && Members(r.strings) == Members(s.strings) + FrameTexts(f)
    && Members(r.roster) == Members(s.roster) + PeopleIn(f.players)
    && r.players == s.players + |f.players| && r.effects == s.effects + |f.projectiles| && r.lastTick == Some(f.tick)
  }

  /** Effects and bomb together. */
  function ScanScene(strings: seq<Text>, f: Frame<Float>): Option<seq<Text>> {
    var withEffects :- ScanEffects(strings, {}, f.projectiles);
    ScanBomb(withEffects, f.bomb)
  }

  lemma SceneIff(strings: seq<Text>, f: Frame<Float>)
    requires Interned(strings)
    ensures Grows(strings, ScanScene(strings, f), EffectTexts(f.projectiles) + BombTexts(f.bomb), EffectsFit({}, f.projectiles))
  {
    hide TextsFit, ScanEffects, ScanBomb, Interned, EffectTexts, BombTexts, EffectsFit;
    var all := Members(strings) + (EffectTexts(f.projectiles) + BombTexts(f.bomb));
    EffectsIff(strings, {}, f.projectiles);
    SmallerFits(Members(strings) + EffectTexts(f.projectiles), {}, all, {});
    if ScanEffects(strings, {}, f.projectiles).Some? {
      var withEffects := ScanEffects(strings, {}, f.projectiles).value;
      BombIff(withEffects, f.bomb);
      assert Members(withEffects) + BombTexts(f.bomb) == all;
    }
  }

  lemma FrameIff(s: Scan, f: Frame<Float>)
    requires Built(s)
    ensures var r := ScanFrame(s, f);
            && (r.Some? <==> FrameFits(f) && InLine(s, f) && TextsFit(Members(s.strings) + FrameTexts(f))
                             && PeopleFit(Members(s.roster) + PeopleIn(f.players)))
            && (r.Some? ==> Advanced(s, r.value, f))
  {
    hide TextsFit, PeopleFit, ScanPlayers, ScanEffects, ScanBomb, Interned, PlayerTexts, EffectTexts, BombTexts, PeopleIn,
         DifferentIds, EffectsFit;
    var counted := s.(lastTick := Some(f.tick), players := s.players + |f.players|, effects := s.effects + |f.projectiles|);
    var all, everyone := Members(s.strings) + FrameTexts(f), Members(s.roster) + PeopleIn(f.players);
    PlayersIff(counted, {}, f.players);
    SmallerFits(Members(s.strings) + PlayerTexts(f.players), everyone, all, everyone);
    if ScanPlayers(counted, {}, f.players).Some? {
      var withPlayers := ScanPlayers(counted, {}, f.players).value;
      SceneIff(withPlayers.strings, f);
      assert Members(withPlayers.strings) + (EffectTexts(f.projectiles) + BombTexts(f.bomb)) == all;
      var scene := ScanScene(withPlayers.strings, f);
      if scene.Some? {
        MoreTexts(withPlayers, withPlayers.(strings := scene.value));
      }
    }
  }

  // --- the whole recording --------------------------------------------------------------------------

  function TextsOf(fs: seq<Frame<Float>>): set<Text> {
    set f, t | f in fs && t in FrameTexts(f) :: t
  }

  function PeopleOf(fs: seq<Frame<Float>>): set<Identity> {
    set f, i | f in fs && i in PeopleIn(f.players) :: i
  }

  function PlayerRecords(fs: seq<Frame<Float>>): nat {
    if fs == [] then 0 else |fs[0].players| + PlayerRecords(fs[1..])
  }

  function EffectRecords(fs: seq<Frame<Float>>): nat {
    if fs == [] then 0 else |fs[0].projectiles| + EffectRecords(fs[1..])
  }

  lemma FramesSplit(fs: seq<Frame<Float>>)
    requires fs != []
    ensures TextsOf(fs) == FrameTexts(fs[0]) + TextsOf(fs[1..]) && PeopleOf(fs) == PeopleIn(fs[0].players) + PeopleOf(fs[1..])
  {
    hide FrameTexts, PeopleIn;
    assert fs == [fs[0]] + fs[1..];
    assert forall t :: t in TextsOf(fs) <==> t in FrameTexts(fs[0]) || t in TextsOf(fs[1..]);
    assert forall i :: i in PeopleOf(fs) <==> i in PeopleIn(fs[0].players) || i in PeopleOf(fs[1..]);
  }

  predicate TicksFit(last: Option<u64>, fs: seq<Frame<Float>>) {
    && (forall i, j :: 0 <= i < j < |fs| ==> fs[i].tick < fs[j].tick)
    && (last.Some? && fs != [] ==> last.value < fs[0].tick)
  }

  lemma TicksFitNext(last: Option<u64>, fs: seq<Frame<Float>>)
    requires fs != []
    ensures TicksFit(last, fs) <==> (last.Some? ==> last.value < fs[0].tick) && TicksFit(Some(fs[0].tick), fs[1..])
  {
    var rest := fs[1..];
    if TicksFit(Some(fs[0].tick), rest) && (last.Some? ==> last.value < fs[0].tick) {
      forall i, j | 0 <= i < j < |fs|
        ensures fs[i].tick < fs[j].tick
      {
        assert fs[j] == rest[j - 1] && (i > 0 ==> fs[i] == rest[i - 1]);
        assert rest[0].tick <= rest[j - 1].tick;
      }
    }
  }

  /** What the frames are checked for, beside their texts and people. */
  predicate FramesFit(s: Scan, fs: seq<Frame<Float>>) {
    && (forall f <- fs :: FrameFits(f)) && TicksFit(s.lastTick, fs)
    && s.players + PlayerRecords(fs) <= 1_000_000 && s.effects + EffectRecords(fs) <= 1_000_000
  }

  lemma FramesFitNext(s: Scan, r: Scan, fs: seq<Frame<Float>>)
    requires fs != [] && r.players == s.players + |fs[0].players| && r.effects == s.effects + |fs[0].projectiles|
    requires r.lastTick == Some(fs[0].tick)
    ensures FramesFit(s, fs) <==> FrameFits(fs[0]) && InLine(s, fs[0]) && FramesFit(r, fs[1..])
  {
    hide FrameFits, TicksFit;
    TicksFitNext(s.lastTick, fs);
    assert fs == [fs[0]] + fs[1..];
  }

  lemma {:induction false} FramesIff(s: Scan, fs: seq<Frame<Float>>)
    requires Built(s) && s.players <= 1_000_000 && s.effects <= 1_000_000
    ensures ScanFrames(s, fs).Some? <==>
            FramesFit(s, fs) && TextsFit(Members(s.strings) + TextsOf(fs)) && PeopleFit(Members(s.roster) + PeopleOf(fs))
    decreases |fs|
  {
    hide TextsFit, PeopleFit, ScanFrame, Interned, FrameTexts, PeopleIn, TextsOf, PeopleOf, FrameFits, FramesFit;
    if fs == [] {
      NoFrames(s);
      BuiltFits(s);
      assert Members(s.strings) + {} == Members(s.strings) && Members(s.roster) + {} == Members(s.roster);
    } else {
      var f := fs[0];
      FrameIff(s, f);
      FramesSplit(fs);
      SmallerFits(Members(s.strings) + FrameTexts(f), Members(s.roster) + PeopleIn(f.players),
                  Members(s.strings) + TextsOf(fs), Members(s.roster) + PeopleOf(fs));
      var counted := s.(lastTick := Some(f.tick), players := s.players + |f.players|, effects := s.effects + |f.projectiles|);
      FramesFitNext(s, counted, fs);
      if ScanFrame(s, f).Some? {
        var next := ScanFrame(s, f).value;
        FramesFitNext(s, next, fs);
        FramesIff(next, fs[1..]);
        assert Members(next.strings) + TextsOf(fs[1..]) == Members(s.strings) + TextsOf(fs);
        assert Members(next.roster) + PeopleOf(fs[1..]) == Members(s.roster) + PeopleOf(fs);
      }
    }
  }

  lemma NoFrames(s: Scan)
    requires s.players <= 1_000_000 && s.effects <= 1_000_000
    ensures FramesFit(s, []) && TextsOf([]) == {} && PeopleOf([]) == {}
  {
  }

  // --- what is accepted -----------------------------------------------------------------------------

  predicate IsCoordinate(c: Float) {
    c.Finite? && -1000000.0 <= c.value <= 1000000.0
  }

  predicate IsPlace(v: Vec<Float>) {
    IsCoordinate(v.x) && IsCoordinate(v.y) && IsCoordinate(v.z)
  }

  predicate IsAngle(a: Float) {
    a.Finite? && -360.0 <= a.value <= 360.0
  }

  /** Coordinates, angles, counters and ticks have room in the format. A radius is a 32-bit float from 0 to
      4096. */
  predicate HasRoom(f: Frame<Float>) {
    && f.tick < 0x1_0000_0000
    && (forall p <- f.players ::
          IsPlace(p.position) && IsAngle(p.yaw) && IsAngle(p.pitch) && p.health <= 255 && p.armor <= 255)
    && (forall e <- f.projectiles ::
          IsPlace(e.position) && e.startTick < 0x1_0000_0000 && e.endTick < 0x1_0000_0000
          && (e.radius.Some? ==> e.radius.value <= 0x4580_0000 || e.radius.value == 0x8000_0000))
    && (f.bomb.Some? ==> IsPlace(f.bomb.value.position))
  }

  /** The metadata describes the frames. */
  predicate IsDescribed(p: Payload) {
    && p.fidelity.frameCount == |p.frames| <= 100_000
    && p.fidelity.tickRate.Finite? && 8.0 <= p.fidelity.tickRate.value <= 1024.0
    && p.fidelity.positionedEventCount <= 1_000_000
    && p.fidelity.startTick == (if p.frames == [] then 0 else p.frames[0].tick)
    && p.fidelity.endTick == (if p.frames == [] then 0 else p.frames[|p.frames| - 1].tick)
    && |p.cacheJson| <= 0x1_0000 && |p.fidelityJson| <= 0x1_0000
  }

  /** A recording that the format can carry. */
  predicate Sendable(p: Payload) {
    && IsDescribed(p)
    && (forall i, j :: 0 <= i < j < |p.frames| ==> p.frames[i].tick < p.frames[j].tick)
    && (forall f <- p.frames :: FrameFits(f) && HasRoom(f))
    && PlayerRecords(p.frames) <= 1_000_000 && EffectRecords(p.frames) <= 1_000_000
    && TextsFit(TextsOf(p.frames)) && PeopleFit(PeopleOf(p.frames))
  }

  lemma ScansIff(fs: seq<Frame<Float>>)
    ensures ScanFrames(EMPTY_SCAN, fs).Some? <==>
            (forall f <- fs :: FrameFits(f)) && (forall i, j :: 0 <= i < j < |fs| ==> fs[i].tick < fs[j].tick)
            && PlayerRecords(fs) <= 1_000_000 && EffectRecords(fs) <= 1_000_000
            && TextsFit(TextsOf(fs)) && PeopleFit(PeopleOf(fs))
  {
    hide ScanFrames, TextsOf, PeopleOf, FrameFits;
    FramesIff(EMPTY_SCAN, fs);
    assert Members<Text>([]) + TextsOf(fs) == TextsOf(fs) && Members<Identity>([]) + PeopleOf(fs) == PeopleOf(fs);
  }

  lemma RoomMeans(fs: seq<Frame<Float>>)
    ensures ValuesOk(fs) <==> forall f <- fs :: HasRoom(f)
  {
    forall f
      ensures FrameValuesOk(f) <==> HasRoom(f)
    {
    }
    hide FrameValuesOk, HasRoom;
  }

  /** The encoder takes exactly the recordings that the format can carry, as long as the body stays within
      128 MiB. */
  lemma AcceptedIff(p: Payload, s: Scan)
    ensures Sendable(p) ==> ScanFrames(EMPTY_SCAN, p.frames).Some?
    ensures Accepts(p, s) <==>
            Sendable(p) && ScanFrames(EMPTY_SCAN, p.frames) == Some(s) && |Body(p, s)| <= 0x800_0000
  {
    hide ScanFrames, Body, TextsFit, PeopleFit, TextsOf, PeopleOf, FrameFits, HasRoom, ValuesOk;
    ScansIff(p.frames);
    RoomMeans(p.frames);
  }
}

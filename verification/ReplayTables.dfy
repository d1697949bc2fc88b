/** The first pass of the encoder: intern every string, build the roster, and check
    identities, limits and tick order. */
module ReplayTables {
  import opened Bytes
  import opened Results
  import opened ReplayPayloads
  import opened Sorting

  const MAX_TEXT := 512
  const MAX_STRINGS := 16_384
  const MAX_ROSTER := 64
  const MAX_FRAMES := 100_000
  const MAX_PLAYER_RECORDS := 1_000_000
  const MAX_EFFECT_RECORDS := 1_000_000

  datatype Identity = Identity(id: Text, name: Text, team: Text)

  /** What the first pass has collected so far. */
  datatype Scan = Scan(
    roster: seq<Identity>, strings: seq<Text>, players: nat, effects: nat, lastTick: Option<u64>)

  const EMPTY_SCAN := Scan([], [], 0, 0, None)

  /** The first position of x, or the length when x is absent. */
  function IndexOf<T(==)>(s: seq<T>, x: T): (i: nat)
    ensures i <= |s|
    ensures i < |s| <==> x in s
    ensures i < |s| ==> s[i] == x
    ensures forall k :: 0 <= k < i ==> s[k] != x
  {
    if s == [] then 0 else if s[0] == x then 0 else 1 + IndexOf(s[1..], x)
  }

  function IdsOf(roster: seq<Identity>): (ids: seq<Text>)
    ensures |ids| == |roster|
    ensures forall i :: 0 <= i < |roster| ==> ids[i] == roster[i].id
  {
    Map((identity: Identity) => identity.id, roster)
  }

  function RosterIndex(roster: seq<Identity>, id: Text): (i: nat)
    ensures i <= |roster|
    ensures i < |roster| <==> id in IdsOf(roster)
    ensures i < |roster| ==> roster[i].id == id
    ensures forall k :: 0 <= k < i ==> roster[k].id != id
  {
    IndexOf(IdsOf(roster), id)
  }

  function Intern(strings: seq<Text>, t: Text): (r: Option<seq<Text>>)
    ensures r.Some? ==> strings <= r.value && t in r.value
  {
    if |t| > MAX_TEXT then None
    else if t in strings then Some(strings)
    else if |strings| >= MAX_STRINGS then None
    else Some(strings + [t])
  }

  function InternOptional(strings: seq<Text>, t: Option<Text>): (r: Option<seq<Text>>)
    ensures r.Some? ==> strings <= r.value && (t.Some? ==> t.value in r.value)
  {
    if t.None? then Some(strings) else Intern(strings, t.value)
  }

  function AddIdentity(s: Scan, p: Player<Float>): (r: Option<Scan>) {
    if |s.roster| == MAX_ROSTER then None
    else
      var withId :- Intern(s.strings, p.id);
      var withName :- Intern(withId, p.name);
      Some(s.(strings := withName, roster := s.roster + [Identity(p.id, p.name, p.team)]))
  }

  function ScanIdentity(s: Scan, p: Player<Float>): (r: Option<Scan>) {
    var index := RosterIndex(s.roster, p.id);
    if index == |s.roster| then AddIdentity(s, p)
    else if s.roster[index].name != p.name || s.roster[index].team != p.team then None
    else Some(s)
  }

  function ScanPlayer(s: Scan, seen: set<Text>, p: Player<Float>): (r: Option<Scan>) {
    if (p.team != TEAM_A && p.team != TEAM_B) || p.id in seen then None
    else
      var known :- ScanIdentity(s, p);
      var strings :- Intern(known.strings, p.weapon);
      Some(known.(strings := strings))
  }

  function ScanPlayers(s: Scan, seen: set<Text>, ps: seq<Player<Float>>): (r: Option<Scan>)
    decreases |ps|
  {
    if ps == [] then Some(s)
    else
      var s' :- ScanPlayer(s, seen, ps[0]);
      ScanPlayers(s', seen + {ps[0].id}, ps[1..])
  }

  function ScanEffect(strings: seq<Text>, seen: set<Text>, e: Projectile<Float>): (r: Option<seq<Text>>) {
    if e.id in seen || e.startTick > e.endTick then None
    else
      var withId :- Intern(strings, e.id);
      var withKind :- Intern(withId, e.kind);
      InternOptional(withKind, e.ownerId)
  }

  function ScanEffects(strings: seq<Text>, seen: set<Text>, es: seq<Projectile<Float>>): (r: Option<seq<Text>>)
    decreases |es|
  {
    if es == [] then Some(strings)
    else
      var strings' :- ScanEffect(strings, seen, es[0]);
      ScanEffects(strings', seen + {es[0].id}, es[1..])
  }

  function ScanBomb(strings: seq<Text>, bomb: Option<Bomb<Float>>): (r: Option<seq<Text>>) {
    if bomb.None? then Some(strings)
    else
      var withState :- Intern(strings, bomb.value.state);
      InternOptional(withState, bomb.value.carrierId)
  }

  function ScanFrame(s: Scan, f: Frame<Float>): (r: Option<Scan>) {
    if (s.lastTick.Some? && f.tick <= s.lastTick.value) || |f.players| > 64 || |f.projectiles| > 512 then None
    else
      var counted := s.(lastTick := Some(f.tick), players := s.players + |f.players|,
                        effects := s.effects + |f.projectiles|);
      if counted.players > MAX_PLAYER_RECORDS || counted.effects > MAX_EFFECT_RECORDS then None
      else
        var withPlayers :- ScanPlayers(counted, {}, f.players);
        var withEffects :- ScanEffects(withPlayers.strings, {}, f.projectiles);
        var withBomb :- ScanBomb(withEffects, f.bomb);
        Some(withPlayers.(strings := withBomb))
  }

  function ScanFrames(s: Scan, fs: seq<Frame<Float>>): (r: Option<Scan>)
    decreases |fs|
  {
    if fs == [] then Some(s)
    else
      var s' :- ScanFrame(s, fs[0]);
      ScanFrames(s', fs[1..])
  }

  // --- what a successful first pass guarantees --------------------------------

  /** The invariant of the tables. */
  predicate Consistent(s: Scan) {
    && Distinct(s.strings) && |s.strings| <= MAX_STRINGS
    && (forall t <- s.strings :: |t| <= MAX_TEXT)
    && Distinct(IdsOf(s.roster)) && |s.roster| <= MAX_ROSTER
    && (forall i <- s.roster :: i.id in s.strings && i.name in s.strings && (i.team == TEAM_A || i.team == TEAM_B))
  }

  /** Tables only ever grow at the end. */
  predicate Extends(small: Scan, large: Scan) {
    small.strings <= large.strings && small.roster <= large.roster
  }

  /** Every table lookup the second pass makes for this player is defined. */
  predicate PlayerCovered<C>(s: Scan, p: Player<C>) {
    var index := RosterIndex(s.roster, p.id);
    && index < |s.roster|
    && s.roster[index] == Identity(p.id, p.name, p.team)
    && p.weapon in s.strings
  }

  predicate OptionalCovered(strings: seq<Text>, t: Option<Text>) {
    t.Some? ==> t.value in strings
  }

  predicate EffectCovered<C>(strings: seq<Text>, e: Projectile<C>) {
    e.id in strings && e.kind in strings && OptionalCovered(strings, e.ownerId) && e.startTick <= e.endTick
  }

  predicate BombCovered<C>(strings: seq<Text>, b: Option<Bomb<C>>) {
    b.Some? ==> b.value.state in strings && OptionalCovered(strings, b.value.carrierId)
  }

  /** Covered, and no id repeats or lies in seen. */
  predicate PlayersCovered<C>(s: Scan, seen: set<Text>, ps: seq<Player<C>>)
    decreases |ps|
  {
    ps == [] || (ps[0].id !in seen && PlayerCovered(s, ps[0]) && PlayersCovered(s, seen + {ps[0].id}, ps[1..]))
  }

  predicate EffectsCovered<C>(strings: seq<Text>, seen: set<Text>, es: seq<Projectile<C>>)
    decreases |es|
  {
    es == []
    || (es[0].id !in seen && EffectCovered(strings, es[0]) && EffectsCovered(strings, seen + {es[0].id}, es[1..]))
  }

  predicate FrameCovered<C>(s: Scan, f: Frame<C>) {
    && |f.players| <= 64 && |f.projectiles| <= 512
    && PlayersCovered(s, {}, f.players)
    && EffectsCovered(s.strings, {}, f.projectiles)
    && BombCovered(s.strings, f.bomb)
  }

  predicate FramesCovered<C>(s: Scan, fs: seq<Frame<C>>)
    decreases |fs|
  {
    fs == [] || (FrameCovered(s, fs[0]) && FramesCovered(s, fs[1..]))
  }

  function LastTick(s: Scan): int {
    if s.lastTick.None? then -1 else s.lastTick.value
  }

  /** Strictly increasing ticks, within the record budgets. */
  predicate FramesOrdered<C>(last: int, players: nat, effects: nat, fs: seq<Frame<C>>)
    decreases |fs|
  {
    fs == []
    || (var f := fs[0];
        && last < f.tick
        && players + |f.players| <= MAX_PLAYER_RECORDS
        && effects + |f.projectiles| <= MAX_EFFECT_RECORDS
        && FramesOrdered(f.tick, players + |f.players|, effects + |f.projectiles|, fs[1..]))
  }

  lemma RosterIndexPrefix(small: seq<Identity>, large: seq<Identity>, id: Text)
    requires small <= large && RosterIndex(small, id) < |small|
    ensures RosterIndex(small, id) == RosterIndex(large, id)
  {
    var i := RosterIndex(small, id);
    assert large[i].id == id;
    assert forall k :: 0 <= k < i ==> large[k].id == small[k].id;
    assert IdsOf(large)[i] == id;
  }

  lemma PlayerCoveredExtends<C>(s: Scan, t: Scan, p: Player<C>)
    requires Extends(s, t) && PlayerCovered(s, p)
    ensures PlayerCovered(t, p)
  {
    RosterIndexPrefix(s.roster, t.roster, p.id);
    var i := RosterIndex(s.roster, p.id);
    assert t.roster[i] == s.roster[i];
  }

  lemma ExtendsTransitive(a: Scan, b: Scan, c: Scan)
    requires Extends(a, b) && Extends(b, c)
    ensures Extends(a, c)
  {
  }

  lemma {:induction false} PlayersCoveredExtends<C>(s: Scan, t: Scan, seen: set<Text>, ps: seq<Player<C>>)
    requires Extends(s, t) && PlayersCovered(s, seen, ps)
    ensures PlayersCovered(t, seen, ps)
    decreases |ps|
  {
    if ps != [] {
      PlayerCoveredExtends(s, t, ps[0]);
      PlayersCoveredExtends(s, t, seen + {ps[0].id}, ps[1..]);
    }
  }

  lemma {:induction false} EffectsCoveredExtends<C>(s: seq<Text>, t: seq<Text>, seen: set<Text>, es: seq<Projectile<C>>)
    requires s <= t && EffectsCovered(s, seen, es)
    ensures EffectsCovered(t, seen, es)
    decreases |es|
  {
    if es != [] {
      EffectsCoveredExtends(s, t, seen + {es[0].id}, es[1..]);
    }
  }

  lemma FrameCoveredExtends<C>(s: Scan, t: Scan, f: Frame<C>)
    requires Extends(s, t) && FrameCovered(s, f)
    ensures FrameCovered(t, f)
  {
    PlayersCoveredExtends(s, t, {}, f.players);
    EffectsCoveredExtends(s.strings, t.strings, {}, f.projectiles);
  }

  lemma InternKeeps(s: Scan, t: Text)
    requires Consistent(s) && Intern(s.strings, t).Some?
    ensures Consistent(s.(strings := Intern(s.strings, t).value))
  {
  }

  lemma AddIdentityKeeps(s: Scan, p: Player<Float>)
    requires Consistent(s) && AddIdentity(s, p).Some? && p.id !in IdsOf(s.roster)
    requires p.team == TEAM_A || p.team == TEAM_B
    ensures Consistent(AddIdentity(s, p).value)
    ensures Extends(s, AddIdentity(s, p).value)
  {
    hide Consistent;
    var withId := Intern(s.strings, p.id).value;
    InternKeeps(s, p.id);
    InternKeeps(s.(strings := withId), p.name);
    RosterGrows(s.(strings := Intern(withId, p.name).value), Identity(p.id, p.name, p.team));
  }

  lemma RosterGrows(s: Scan, i: Identity)
    requires Consistent(s) && i.id !in IdsOf(s.roster) && |s.roster| < MAX_ROSTER
    requires i.id in s.strings && i.name in s.strings && (i.team == TEAM_A || i.team == TEAM_B)
    ensures Consistent(s.(roster := s.roster + [i]))
  {
    var roster := s.roster + [i];
    assert forall k :: 0 <= k < |s.roster| ==> IdsOf(s.roster)[k] != i.id && IdsOf(roster)[k] == IdsOf(s.roster)[k];
    forall a, b | 0 <= a < b < |roster|
      ensures IdsOf(roster)[a] != IdsOf(roster)[b]
    {
      if b < |s.roster| {
        assert IdsOf(s.roster)[a] != IdsOf(s.roster)[b];
      }
    }
  }

  predicate IdentityKnown<C>(s: Scan, p: Player<C>) {
    var index := RosterIndex(s.roster, p.id);
    index < |s.roster| && s.roster[index] == Identity(p.id, p.name, p.team)
  }

  lemma ScanIdentityKeeps(s: Scan, p: Player<Float>, r: Scan)
    requires Consistent(s) && ScanIdentity(s, p) == Some(r)
    requires p.team == TEAM_A || p.team == TEAM_B
    ensures Consistent(r) && Extends(s, r) && IdentityKnown(r, p)
    ensures r.players == s.players && r.effects == s.effects && r.lastTick == s.lastTick
  {
    hide Consistent;
    var index := RosterIndex(s.roster, p.id);
    if index == |s.roster| {
      AddIdentityKeeps(s, p);
      assert r.roster[index] == Identity(p.id, p.name, p.team);
      assert forall k :: 0 <= k < index ==> r.roster[k] == s.roster[k];
      assert IdsOf(r.roster)[index] == p.id;
      assert RosterIndex(r.roster, p.id) == index;
    }
  }

  lemma {:induction false} ScanPlayerKeeps(s: Scan, seen: set<Text>, p: Player<Float>)
    requires Consistent(s) && ScanPlayer(s, seen, p).Some?
    ensures var r := ScanPlayer(s, seen, p).value;
      && Consistent(r) && Extends(s, r) && PlayerCovered(r, p) && p.id !in seen
      && r.players == s.players && r.effects == s.effects && r.lastTick == s.lastTick
  {
    hide Consistent, ScanIdentity, RosterIndex, IdsOf;
    var known := ScanIdentity(s, p).value;
    ScanIdentityKeeps(s, p, known);
    InternKeeps(known, p.weapon);
  }

  lemma {:induction false} ScanPlayersKeeps(s: Scan, seen: set<Text>, ps: seq<Player<Float>>, r: Scan)
    requires Consistent(s) && ScanPlayers(s, seen, ps) == Some(r)
    ensures Consistent(r) && Extends(s, r)
    ensures r.players == s.players && r.effects == s.effects && r.lastTick == s.lastTick
    ensures PlayersCovered(r, seen, ps)
    decreases |ps|
  {
    if ps != [] {
      ScanPlayerKeeps(s, seen, ps[0]);
      var s' := ScanPlayer(s, seen, ps[0]).value;
      ScanPlayersKeeps(s', seen + {ps[0].id}, ps[1..], r);
      PlayerCoveredExtends(s', r, ps[0]);
    }
  }

  lemma ScanEffectKeeps(s: Scan, seen: set<Text>, e: Projectile<Float>, strings: seq<Text>)
    requires Consistent(s) && ScanEffect(s.strings, seen, e) == Some(strings)
    ensures Consistent(s.(strings := strings)) && s.strings <= strings
    ensures EffectCovered(strings, e) && e.id !in seen
  {
    var withId := Intern(s.strings, e.id).value;
    InternKeeps(s, e.id);
    var withKind := Intern(withId, e.kind).value;
    InternKeeps(s.(strings := withId), e.kind);
    if e.ownerId.Some? {
      InternKeeps(s.(strings := withKind), e.ownerId.value);
    }
  }

  lemma {:induction false} ScanEffectsKeeps(
    s: Scan, seen: set<Text>, es: seq<Projectile<Float>>, strings: seq<Text>)
    requires Consistent(s) && ScanEffects(s.strings, seen, es) == Some(strings)
    ensures Consistent(s.(strings := strings)) && s.strings <= strings
    ensures EffectsCovered(strings, seen, es)
    decreases |es|
  {
    if es != [] {
      var strings' := ScanEffect(s.strings, seen, es[0]).value;
      ScanEffectKeeps(s, seen, es[0], strings');
      ScanEffectsKeeps(s.(strings := strings'), seen + {es[0].id}, es[1..], strings);
      assert EffectCovered(strings, es[0]);
    }
  }

  lemma ScanBombKeeps(s: Scan, bomb: Option<Bomb<Float>>, strings: seq<Text>)
    requires Consistent(s) && ScanBomb(s.strings, bomb) == Some(strings)
    ensures Consistent(s.(strings := strings)) && s.strings <= strings
    ensures BombCovered(strings, bomb)
  {
    if bomb.Some? {
      InternKeeps(s, bomb.value.state);
      if bomb.value.carrierId.Some? {
        InternKeeps(s.(strings := Intern(s.strings, bomb.value.state).value), bomb.value.carrierId.value);
      }
    }
  }

  lemma {:induction false} ScanFrameParts(s: Scan, f: Frame<Float>, r: Scan) returns (counted: Scan, withPlayers: Scan, withEffects: seq<Text>)
    requires ScanFrame(s, f) == Some(r)
    ensures counted == s.(lastTick := Some(f.tick), players := s.players + |f.players|,
                          effects := s.effects + |f.projectiles|)
    ensures counted.players <= MAX_PLAYER_RECORDS && counted.effects <= MAX_EFFECT_RECORDS
    ensures s.lastTick.Some? ==> s.lastTick.value < f.tick
    ensures |f.players| <= 64 && |f.projectiles| <= 512
    ensures ScanPlayers(counted, {}, f.players) == Some(withPlayers)
    ensures ScanEffects(withPlayers.strings, {}, f.projectiles) == Some(withEffects)
    ensures ScanBomb(withEffects, f.bomb) == Some(r.strings)
    ensures r == withPlayers.(strings := r.strings)
  {
    hide ScanPlayers, ScanEffects, ScanBomb;
    counted := s.(lastTick := Some(f.tick), players := s.players + |f.players|,
                  effects := s.effects + |f.projectiles|);
    withPlayers := ScanPlayers(counted, {}, f.players).value;
    withEffects := ScanEffects(withPlayers.strings, {}, f.projectiles).value;
  }

  lemma ScanFrameKeeps(s: Scan, f: Frame<Float>, r: Scan)
    requires Consistent(s) && ScanFrame(s, f) == Some(r)
    ensures Consistent(r) && Extends(s, r)
    ensures FrameCovered(r, f)
    ensures r.lastTick == Some(f.tick) && (s.lastTick.Some? ==> s.lastTick.value < f.tick)
    ensures s.players + |f.players| == r.players <= MAX_PLAYER_RECORDS
    ensures s.effects + |f.projectiles| == r.effects <= MAX_EFFECT_RECORDS
  {
    var counted, withPlayers, withEffects := ScanFrameParts(s, f, r);
    ScanPlayersKeeps(counted, {}, f.players, withPlayers);
    ScanEffectsKeeps(withPlayers, {}, f.projectiles, withEffects);
    ScanBombKeeps(withPlayers.(strings := withEffects), f.bomb, r.strings);
    PlayersCoveredExtends(withPlayers, r, {}, f.players);
    EffectsCoveredExtends(withEffects, r.strings, {}, f.projectiles);
  }

  lemma ScanFramesStep(s: Scan, fs: seq<Frame<Float>>, r: Scan) returns (s': Scan)
    requires fs != [] && ScanFrames(s, fs) == Some(r)
    ensures ScanFrame(s, fs[0]) == Some(s') && ScanFrames(s', fs[1..]) == Some(r)
  {
    s' := ScanFrame(s, fs[0]).value;
  }

  /** Everything the second pass looks up is in the tables the first pass returns. */
  lemma {:induction false} ScanFramesKeeps(s: Scan, fs: seq<Frame<Float>>, r: Scan)
    requires Consistent(s) && ScanFrames(s, fs) == Some(r)
    ensures Consistent(r) && Extends(s, r)
    ensures FramesCovered(r, fs)
    decreases |fs|
  {
    if fs != [] {
      var s' := ScanFramesStep(s, fs, r);
      ScanFrameKeeps(s, fs[0], s');
      ScanFramesKeeps(s', fs[1..], r);
      FrameCoveredExtends(s', r, fs[0]);
      ExtendsTransitive(s, s', r);
    }
  }

  lemma {:induction false} ScanFramesOrder(s: Scan, fs: seq<Frame<Float>>, r: Scan)
    requires Consistent(s) && ScanFrames(s, fs) == Some(r)
    ensures FramesOrdered(LastTick(s), s.players, s.effects, fs)
    decreases |fs|
  {
    if fs != [] {
      var s' := ScanFramesStep(s, fs, r);
      ScanFrameKeeps(s, fs[0], s');
      ScanFramesOrder(s', fs[1..], r);
      FramesOrderedStep(s, s', fs);
    }
  }

  lemma FramesOrderedStep<C>(s: Scan, s': Scan, fs: seq<Frame<C>>)
    requires fs != [] && FramesOrdered(LastTick(s'), s'.players, s'.effects, fs[1..])
    requires LastTick(s) < LastTick(s') == fs[0].tick
    requires s.players + |fs[0].players| == s'.players <= MAX_PLAYER_RECORDS
    requires s.effects + |fs[0].projectiles| == s'.effects <= MAX_EFFECT_RECORDS
    ensures FramesOrdered(LastTick(s), s.players, s.effects, fs)
  {
  }

  lemma {:induction false} PlayerIsCovered<C>(s: Scan, ids: set<Text>, ps: seq<Player<C>>, i: nat)
    requires PlayersCovered(s, ids, ps) && i < |ps|
    ensures PlayerCovered(s, ps[i])
    decreases |ps|
  {
    if i > 0 {
      PlayerIsCovered(s, ids + {ps[0].id}, ps[1..], i - 1);
    }
  }

  lemma {:induction false} FrameIsCovered<C>(s: Scan, fs: seq<Frame<C>>, i: nat)
    requires FramesCovered(s, fs) && i < |fs|
    ensures FrameCovered(s, fs[i])
    decreases |fs|
  {
    hide FrameCovered;
    if i > 0 {
      FrameIsCovered(s, fs[1..], i - 1);
    }
  }

  lemma {:induction false} EffectIsCovered<C>(strings: seq<Text>, ids: set<Text>, es: seq<Projectile<C>>, i: nat)
    requires EffectsCovered(strings, ids, es) && i < |es|
    ensures EffectCovered(strings, es[i])
    decreases |es|
  {
    if i > 0 {
      EffectIsCovered(strings, ids + {es[0].id}, es[1..], i - 1);
    }
  }

  lemma SentinelIsFree(s: Scan, t: Text)
    requires Consistent(s) && t in s.strings
    ensures IndexOf(s.strings, t) < 0xFFFF
  {
  }
}

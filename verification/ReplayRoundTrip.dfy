/** Reading back what the second pass wrote. */
module ReplayRoundTrip {
  import opened Bytes
  import opened Results
  import opened ReplayPayloads
  import opened ReplayTables
  import opened ReplayWire

  // --- what the reader makes of each record ------------------------------------

  function DecodedOptional(d: Reading, t: Option<Text>): Option<Text> {
    if t.None? then None else Some(d.decode(t.value))
  }

  function DecodedIdentity(d: Reading, i: Identity): Identity {
    Identity(d.decode(i.id), d.decode(i.name), i.team)
  }

  function DecodedPlayer(d: Reading, p: Player<int>): Player<int> {
    p.(id := d.decode(p.id), name := d.decode(p.name), weapon := d.decode(p.weapon))
  }

  function DecodedProjectile(d: Reading, e: Projectile<int>): Projectile<int> {
    e.(id := d.decode(e.id), kind := d.decode(e.kind), ownerId := DecodedOptional(d, e.ownerId))
  }

  function DecodedBomb(d: Reading, b: Option<Bomb<int>>): Option<Bomb<int>> {
    match b
    case None => None
    case Some(b) => Some(Bomb(b.position, d.decode(b.state), DecodedOptional(d, b.carrierId)))
  }

  function DecodedFrame(d: Reading, f: Frame<int>): Frame<int> {
    Frame(f.tick, Map(PlayerDecoder(d), f.players), Map(ProjectileDecoder(d), f.projectiles), DecodedBomb(d, f.bomb))
  }

  function IdentityDecoder(d: Reading): Identity -> Identity {
    (i: Identity) => DecodedIdentity(d, i)
  }

  function PlayerDecoder(d: Reading): Player<int> -> Player<int> {
    (p: Player<int>) => DecodedPlayer(d, p)
  }

  function ProjectileDecoder(d: Reading): Projectile<int> -> Projectile<int> {
    (e: Projectile<int>) => DecodedProjectile(d, e)
  }

  function FrameDecoder(d: Reading): Frame<int> -> Frame<int> {
    (f: Frame<int>) => DecodedFrame(d, f)
  }

  function DecodedTables(d: Reading, s: Scan): Tables {
    Tables(Map(d.decode, s.strings), Map(IdentityDecoder(d), s.roster))
  }

  // --- ranges of sent values ---------------------------------------------------

  predicate InWorld(v: Vec<int>) {
    && -16_000_000 <= v.x <= 16_000_000
    && -16_000_000 <= v.y <= 16_000_000
    && -16_000_000 <= v.z <= 16_000_000
  }

  predicate PlayerSendable(p: Player<int>) {
    && InWorld(p.position)
    && -180 * 128 <= p.yaw <= 180 * 128 && -180 * 128 <= p.pitch <= 180 * 128
    && p.health < 0x100 && p.armor < 0x100
  }

  predicate ProjectileSendable(e: Projectile<int>) {
    && InWorld(e.position)
    && (e.radius.Some? ==> RadiusOk(e.radius.value))
    && e.startTick < 0x1_0000_0000 && e.endTick < 0x1_0000_0000
  }

  predicate FrameSendable(f: Frame<int>) {
    && f.tick < 0x1_0000_0000
    && (forall i :: 0 <= i < |f.players| ==> PlayerSendable(f.players[i]))
    && (forall i :: 0 <= i < |f.projectiles| ==> ProjectileSendable(f.projectiles[i]))
    && (f.bomb.Some? ==> InWorld(f.bomb.value.position))
  }

  predicate AllInWorld(seen: seq<Vec<int>>) {
    forall i :: 0 <= i < |seen| ==> InWorld(seen[i])
  }

  predicate MapInWorld(seen: map<nat, Vec<int>>) {
    forall k <- seen :: InWorld(seen[k])
  }

  // --- single values -----------------------------------------------------------

  lemma Peel(a: seq<byte>, b: seq<byte>, rest: seq<byte>)
    ensures (a + b) + rest == a + (b + rest)
  {
  }

  function GroupCap(k: nat): nat
    requires k <= 4
    decreases 4 - k
  {
    if k == 4 then 16 else 0x80 * GroupCap(k + 1)
  }

  lemma {:induction false} GroupsRoundTrip(v: nat, k: nat, rest: seq<byte>)
    requires k <= 4 && v < GroupCap(k) && (k == 0 || v > 0)
    ensures ReadGroups(VarBytes(v) + rest, k) == Got(v, rest)
    decreases 4 - k
  {
    if v < 0x80 {
      U8RoundTrip(v, rest);
    } else {
      var head, tail: seq<byte> := 0x80 + v % 0x80, VarBytes(v / 0x80);
      Peel([head], tail, rest);
      U8RoundTrip(head, tail + rest);
      GroupsRoundTrip(v / 0x80, k + 1, rest);
    }
  }

  /** A coordinate step always fits four bytes, so the encoder's delta overflow cannot occur. */
  lemma DeltaFits(value: int, previous: int)
    requires -16_000_000 <= value <= 16_000_000 && -16_000_000 <= previous <= 16_000_000
    ensures ZigZag(value - previous) < 0x1_0000_0000
    ensures 1 <= |DeltaBytes(value, previous)| <= 4
  {
    assert Pow128(4) == 0x1000_0000 by { assert Pow128(2) == 0x4000; }
    VarBytesLength(ZigZag(value - previous), 4);
  }

  lemma StepRoundTrip(value: int, previous: int, rest: seq<byte>)
    requires -16_000_000 <= value <= 16_000_000 && -16_000_000 <= previous <= 16_000_000
    ensures ReadStep(previous, DeltaBytes(value, previous) + rest) == Got(value, rest)
  {
    DeltaFits(value, previous);
    var z := ZigZag(value - previous);
    assert GroupCap(0) == 0x1_0000_0000 by { assert GroupCap(2) == 0x80 * (0x80 * 16); }
    GroupsRoundTrip(z, 0, rest);
    ZigZagRoundTrip(value - previous, 0);
  }

  lemma PositionRoundTrip(p: Vec<int>, previous: Vec<int>, rest: seq<byte>)
    requires InWorld(p) && InWorld(previous)
    ensures ReadPosition(previous, PositionBytes(p, previous) + rest) == Got(p, rest)
  {
    var x, y, z := DeltaBytes(p.x, previous.x), DeltaBytes(p.y, previous.y), DeltaBytes(p.z, previous.z);
    Peel(x, y + z, rest);
    Peel(y, z, rest);
    StepRoundTrip(p.x, previous.x, y + (z + rest));
    StepRoundTrip(p.y, previous.y, z + rest);
    StepRoundTrip(p.z, previous.z, rest);
  }

  lemma Low8RoundTrip(v: int, rest: seq<byte>)
    requires 0 <= v < 0x100
    ensures ReadU8(Low8(v) + rest) == Got(v, rest)
  {
    U8RoundTrip(v, rest);
  }

  lemma Low16RoundTrip(v: int, rest: seq<byte>)
    requires 0 <= v < 0x1_0000
    ensures ReadU16(Low16(v) + rest) == Got(v, rest)
  {
    hide ReadU16, U16Le;
    assert v % 0x1_0000 == v;
    U16RoundTrip(v, rest);
  }

  lemma LowSigned16RoundTrip(v: int, rest: seq<byte>)
    requires -0x8000 <= v < 0x8000
    ensures ReadI16(Low16(v) + rest) == Got(v, rest)
  {
    assert Low16(v) == I16Le(v);
    I16RoundTrip(v, rest);
  }

  lemma {:induction false} Low32RoundTrip(v: int, rest: seq<byte>)
    requires 0 <= v < 0x1_0000_0000
    ensures ReadU32(Low32(v) + rest) == Got(v, rest)
  {
    hide ReadU32, U32Le;
    assert v % 0x1_0000_0000 == v;
    U32RoundTrip(v, rest);
  }

  lemma {:induction false} JsonRoundTrip(json: seq<byte>, rest: seq<byte>)
    requires |json| <= MAX_JSON
    ensures ReadJson(JsonBytes(json) + rest) == Got(json, rest)
  {
    hide Low8, Low16, Low32, ReadU8, ReadU16, ReadI16, ReadU32;
    Peel(Low32(|json|), json, rest);
    Low32RoundTrip(|json|, json + rest);
    RawRoundTrip(json, rest);
  }

  lemma TextRoundTrip(d: Reading, t: Text, rest: seq<byte>)
    requires |t| <= MAX_TEXT
    ensures ReadText(d, TextBytes(t) + rest) == Got(d.decode(t), rest)
  {
    hide Low8, Low16, Low32, ReadU8, ReadU16, ReadI16, ReadU32;
    Peel(Low16(|t|), t, rest);
    Low16RoundTrip(|t|, t + rest);
    RawRoundTrip(t, rest);
  }

  lemma {:induction false} TextsRoundTrip(d: Reading, ts: seq<Text>, rest: seq<byte>)
    requires forall i :: 0 <= i < |ts| ==> |ts[i]| <= MAX_TEXT
    ensures ReadTexts(d, |ts|, TextsBytes(ts) + rest) == Got(Map(d.decode, ts), rest)
  {
    hide ReadText, TextBytes;
    if ts == [] {
      assert TextsBytes(ts) + rest == rest;
    } else {
      var tail := TextsBytes(ts[1..]);
      Peel(TextBytes(ts[0]), tail, rest);
      TextRoundTrip(d, ts[0], tail + rest);
      TextsRoundTrip(d, ts[1..], rest);
      assert [d.decode(ts[0])] + Map(d.decode, ts[1..]) == Map(d.decode, ts);
    }
  }

  lemma {:induction false} StringRoundTrip(d: Reading, strings: seq<Text>, t: Text, rest: seq<byte>)
    requires |strings| <= MAX_STRINGS && t in strings
    ensures ReadString(Map(d.decode, strings), Low16(IndexOf(strings, t)) + rest) == Got(d.decode(t), rest)
  {
    hide Low8, Low16, Low32, ReadU8, ReadU16, ReadI16, ReadU32;
    Low16RoundTrip(IndexOf(strings, t), rest);
  }

  lemma OptionalStringRoundTrip(d: Reading, strings: seq<Text>, t: Option<Text>, rest: seq<byte>)
    requires |strings| <= MAX_STRINGS && OptionalCovered(strings, t)
    ensures ReadOptionalString(Map(d.decode, strings), Low16(OptionalIndex(strings, t)) + rest)
         == Got(DecodedOptional(d, t), rest)
  {
    hide Low8, Low16, Low32, ReadU8, ReadU16, ReadI16, ReadU32;
    Low16RoundTrip(OptionalIndex(strings, t), rest);
  }

  // --- tables ------------------------------------------------------------------

  predicate IdentityCovered(strings: seq<Text>, i: Identity) {
    i.id in strings && i.name in strings && (i.team == TEAM_A || i.team == TEAM_B)
  }

  lemma {:induction false} IdentityRoundTrip(d: Reading, strings: seq<Text>, i: Identity, rest: seq<byte>)
    requires |strings| <= MAX_STRINGS && IdentityCovered(strings, i)
    ensures ReadIdentity(d, Map(d.decode, strings), IdentityBytes(strings, i) + rest)
         == if d.decode(i.id) == [] && !d.emptyIds then Reject else Got(DecodedIdentity(d, i), rest)
  {
    hide Low8, Low16, Low32, ReadU8, ReadU16, ReadI16, ReadU32;
    var id, name := Low16(IndexOf(strings, i.id)), Low16(IndexOf(strings, i.name));
    var side := if i.team == TEAM_B then 1 else 0;
    Peel(id, name + Low8(side), rest);
    Peel(name, Low8(side), rest);
    StringRoundTrip(d, strings, i.id, name + (Low8(side) + rest));
    StringRoundTrip(d, strings, i.name, Low8(side) + rest);
    Low8RoundTrip(side, rest);
  }

  predicate IdsReadable(d: Reading, roster: seq<Identity>) {
    forall i :: 0 <= i < |roster| ==> d.emptyIds || d.decode(roster[i].id) != []
  }

  lemma {:induction false} RosterRoundTrip(d: Reading, strings: seq<Text>, roster: seq<Identity>, rest: seq<byte>)
    requires |strings| <= MAX_STRINGS
    requires forall i :: 0 <= i < |roster| ==> IdentityCovered(strings, roster[i])
    ensures ReadRoster(d, Map(d.decode, strings), |roster|, RosterBytes(strings, roster) + rest)
         == if IdsReadable(d, roster) then Got(Map(IdentityDecoder(d), roster), rest) else Reject
  {
    hide ReadIdentity, IdentityBytes;
    if roster == [] {
      assert RosterBytes(strings, roster) + rest == rest;
    } else {
      var tail := RosterBytes(strings, roster[1..]);
      Peel(IdentityBytes(strings, roster[0]), tail, rest);
      IdentityRoundTrip(d, strings, roster[0], tail + rest);
      RosterRoundTrip(d, strings, roster[1..], rest);
      assert IdsReadable(d, roster) <==> (d.emptyIds || d.decode(roster[0].id) != []) && IdsReadable(d, roster[1..]) by {
        assert forall i :: 0 < i < |roster| ==> roster[i] == roster[1..][i - 1];
      }
      assert [DecodedIdentity(d, roster[0])] + Map(IdentityDecoder(d), roster[1..]) == Map(IdentityDecoder(d), roster);
    }
  }

  // --- players -----------------------------------------------------------------

  lemma {:induction false} PlayerStateRoundTrip(d: Reading, s: Scan, p: Player<int>, i: Identity, rest: seq<byte>)
    requires |s.strings| <= MAX_STRINGS && p.weapon in s.strings && PlayerSendable(p)
    requires i == DecodedIdentity(d, Identity(p.id, p.name, p.team))
    ensures ReadPlayerState(DecodedTables(d, s), i, p.position,
                            PlayerStateBytes(IndexOf(s.strings, p.weapon), p) + rest)
         == Got(DecodedPlayer(d, p), rest)
  {
    hide Low8, Low16, Low32, ReadU8, ReadU16, ReadI16, ReadU32;
    var mask := Low16(InputMask(p.input));
    var weapon := Low16(IndexOf(s.strings, p.weapon));
    var r5 := mask + rest;
    var r4 := weapon + r5;
    var r3 := Low8(Bit(p.alive)) + r4;
    var r2 := Low8(p.armor) + r3;
    var r1 := Low8(p.health) + r2;
    var r0 := Low16(p.pitch) + r1;
    assert PlayerStateBytes(IndexOf(s.strings, p.weapon), p) + rest == Low16(p.yaw) + r0;
    LowSigned16RoundTrip(p.yaw, r0);
    LowSigned16RoundTrip(p.pitch, r1);
    Low8RoundTrip(p.health, r2);
    Low8RoundTrip(p.armor, r3);
    Low8RoundTrip(Bit(p.alive), r4);
    StringRoundTrip(d, s.strings, p.weapon, r5);
    Low16RoundTrip(InputMask(p.input), rest);
    InputMaskRoundTrip(p.input);
  }

  lemma {:induction false} PlayerRoundTrip(
    d: Reading, s: Scan, seen: seq<Vec<int>>, used: set<nat>, p: Player<int>, rest: seq<byte>)
    requires Consistent(s) && PlayerCovered(s, p) && PlayerSendable(p)
    requires |seen| == |s.roster| && AllInWorld(seen) && RosterIndex(s.roster, p.id) !in used
    ensures ReadPlayer(DecodedTables(d, s), seen, used, PlayerBytes(s, seen, p) + rest)
         == Got((RosterIndex(s.roster, p.id), DecodedPlayer(d, p)), rest)
  {
    hide Low8, Low16, Low32, ReadU8, ReadU16, ReadI16, ReadU32;
    var index := RosterIndex(s.roster, p.id);
    var position := PositionBytes(p.position, seen[index]);
    var state := PlayerStateBytes(IndexOf(s.strings, p.weapon), p);
    assert PlayerBytes(s, seen, p) + rest == Low8(index) + (position + (state + rest));
    Low8RoundTrip(index, position + (state + rest));
    PositionRoundTrip(p.position, seen[index], state + rest);
    PlayerStateRoundTrip(d, s, p, DecodedTables(d, s).roster[index], rest);
  }

  function Indices(roster: seq<Identity>, ids: set<Text>): set<nat> {
    set id <- ids :: RosterIndex(roster, id)
  }

  lemma UnusedIndex(roster: seq<Identity>, ids: set<Text>, id: Text)
    requires id !in ids && RosterIndex(roster, id) < |roster|
    ensures RosterIndex(roster, id) !in Indices(roster, ids)
  {
  }

  lemma UsedIndices(roster: seq<Identity>, ids: set<Text>, id: Text)
    ensures Indices(roster, ids + {id}) == Indices(roster, ids) + {RosterIndex(roster, id)}
  {
  }

  lemma MovedInWorld(s: Scan, seen: seq<Vec<int>>, p: Player<int>)
    requires AllInWorld(seen) && PlayerSendable(p)
    ensures AllInWorld(MovePlayer(s, seen, p))
  {
  }

  lemma PlayerIsKnown(d: Reading, s: Scan, p: Player<int>)
    requires PlayerCovered(s, p)
    ensures RosterIndex(s.roster, p.id) < |s.roster| && DecodedPlayer(d, p).position == p.position
  {
  }

  lemma {:induction false} PlayersRoundTrip(
    d: Reading, s: Scan, seen: seq<Vec<int>>, ids: set<Text>, ps: seq<Player<int>>, rest: seq<byte>)
    requires Consistent(s) && PlayersCovered(s, ids, ps)
    requires forall i :: 0 <= i < |ps| ==> PlayerSendable(ps[i])
    requires |seen| == |s.roster| && AllInWorld(seen)
    ensures ReadPlayers(DecodedTables(d, s), seen, Indices(s.roster, ids), |ps|, PlayersBytes(s, seen, ps) + rest)
         == Got((Map(PlayerDecoder(d), ps), MovePlayers(s, seen, ps)), rest)
    ensures AllInWorld(MovePlayers(s, seen, ps))
    decreases |ps|
  {
    hide ReadPlayer, PlayerBytes, Consistent, Indices, AllInWorld, DecodedTables, DecodedPlayer, PlayerSendable, PlayerCovered;
    if ps == [] {
      assert PlayersBytes(s, seen, ps) + rest == rest;
    } else {
      var p, seen' := ps[0], MovePlayer(s, seen, ps[0]);
      var tail := PlayersBytes(s, seen', ps[1..]);
      Peel(PlayerBytes(s, seen, p), tail, rest);
      PlayerIsKnown(d, s, p);
      UnusedIndex(s.roster, ids, p.id);
      MovedInWorld(s, seen, p);
      UsedIndices(s.roster, ids, p.id);
      PlayerRoundTrip(d, s, seen, Indices(s.roster, ids), p, tail + rest);
      PlayersRoundTrip(d, s, seen', ids + {p.id}, ps[1..], rest);
      assert [DecodedPlayer(d, p)] + Map(PlayerDecoder(d), ps[1..]) == Map(PlayerDecoder(d), ps);
    }
  }

  // --- projectiles -------------------------------------------------------------

  lemma FlagsRoundTrip(e: Projectile<int>)
    ensures ProjectileFlags(e) % 2 == 1 <==> e.active
    ensures ProjectileFlags(e) / 2 % 2 == 1 <==> e.masksVision
    ensures ProjectileFlags(e) / 4 % 2 == 1 <==> e.effect
  {
  }

  lemma {:induction false} LifetimeRoundTrip(e: Projectile<int>, rest: seq<byte>)
    requires ProjectileSendable(e) && e.startTick <= e.endTick
    ensures ReadLifetime(LifetimeBytes(e) + rest) == Got((e.radius, e.startTick, e.endTick), rest)
  {
    hide Low32, ReadU32;
    var bits := if e.radius.Some? then e.radius.value else RADIUS_ABSENT;
    var r1 := Low32(e.endTick) + rest;
    var r0 := Low32(e.startTick) + r1;
    assert LifetimeBytes(e) + rest == Low32(bits) + r0;
    Low32RoundTrip(bits, r0);
    Low32RoundTrip(e.startTick, r1);
    Low32RoundTrip(e.endTick, rest);
  }

  lemma ProjectileThenRest(strings: seq<Text>, seen: map<nat, Vec<int>>, e: Projectile<int>, rest: seq<byte>)
    ensures ProjectileBytes(strings, seen, e) + rest ==
      Low16(IndexOf(strings, e.id))
      + (Low16(IndexOf(strings, e.kind))
         + (Low16(OptionalIndex(strings, e.ownerId))
            + (Low8(ProjectileFlags(e))
               + (PositionBytes(e.position, Lookup(seen, IndexOf(strings, e.id))) + (LifetimeBytes(e) + rest)))))
  {
    hide Low8, Low16, PositionBytes, ProjectileFlags, LifetimeBytes, IndexOf, OptionalIndex;
  }

  lemma {:induction false} ProjectileRoundTrip(
    d: Reading, strings: seq<Text>, seen: map<nat, Vec<int>>, used: set<nat>, e: Projectile<int>, rest: seq<byte>)
    requires |strings| <= MAX_STRINGS && EffectCovered(strings, e) && ProjectileSendable(e)
    requires MapInWorld(seen) && IndexOf(strings, e.id) !in used
    ensures ReadProjectile(Map(d.decode, strings), seen, used, ProjectileBytes(strings, seen, e) + rest)
         == Got((IndexOf(strings, e.id), DecodedProjectile(d, e)), rest)
  {
    hide Low8, Low16, Low32, ReadU8, ReadU16, ReadI16, ReadU32;
    hide PositionBytes, ReadPosition, ProjectileFlags, ReadString, ReadOptionalString, LifetimeBytes, ReadLifetime;
    hide ProjectileBytes;
    var index := IndexOf(strings, e.id);
    var position := PositionBytes(e.position, Lookup(seen, index));
    var r4 := LifetimeBytes(e) + rest;
    var r3 := position + r4;
    var r2 := Low8(ProjectileFlags(e)) + r3;
    var r1 := Low16(OptionalIndex(strings, e.ownerId)) + r2;
    var r0 := Low16(IndexOf(strings, e.kind)) + r1;
    ProjectileThenRest(strings, seen, e, rest);
    Low16RoundTrip(index, r0);
    StringRoundTrip(d, strings, e.kind, r1);
    OptionalStringRoundTrip(d, strings, e.ownerId, r2);
    Low8RoundTrip(ProjectileFlags(e), r3);
    FlagsRoundTrip(e);
    PositionRoundTrip(e.position, Lookup(seen, index), r4);
    LifetimeRoundTrip(e, rest);
  }

  function StringIndices(strings: seq<Text>, ids: set<Text>): set<nat> {
    set id <- ids :: IndexOf(strings, id)
  }

  lemma UnusedStringIndex(strings: seq<Text>, ids: set<Text>, id: Text)
    requires id !in ids && id in strings
    ensures IndexOf(strings, id) !in StringIndices(strings, ids)
  {
  }

  lemma UsedStringIndices(strings: seq<Text>, ids: set<Text>, id: Text)
    ensures StringIndices(strings, ids + {id}) == StringIndices(strings, ids) + {IndexOf(strings, id)}
  {
  }

  lemma MovedProjectileInWorld(strings: seq<Text>, seen: map<nat, Vec<int>>, e: Projectile<int>)
    requires MapInWorld(seen) && ProjectileSendable(e)
    ensures MapInWorld(MoveProjectile(strings, seen, e))
  {
  }

  lemma EffectIsKnown(d: Reading, strings: seq<Text>, e: Projectile<int>)
    requires EffectCovered(strings, e)
    ensures e.id in strings && DecodedProjectile(d, e).position == e.position
  {
  }

  lemma {:induction false} ProjectilesRoundTrip(
    d: Reading, strings: seq<Text>, seen: map<nat, Vec<int>>, ids: set<Text>, es: seq<Projectile<int>>, rest: seq<byte>)
    requires |strings| <= MAX_STRINGS && EffectsCovered(strings, ids, es)
    requires forall i :: 0 <= i < |es| ==> ProjectileSendable(es[i])
    requires MapInWorld(seen)
    ensures ReadProjectiles(Map(d.decode, strings), seen, StringIndices(strings, ids), |es|,
                            ProjectilesBytes(strings, seen, es) + rest)
         == Got((Map(ProjectileDecoder(d), es), MoveProjectiles(strings, seen, es)), rest)
    ensures MapInWorld(MoveProjectiles(strings, seen, es))
    decreases |es|
  {
    hide ReadProjectile, ProjectileBytes, StringIndices, MapInWorld, DecodedProjectile, IndexOf, ProjectileSendable,
         EffectCovered;
    if es == [] {
      assert ProjectilesBytes(strings, seen, es) + rest == rest;
    } else {
      var e, seen' := es[0], MoveProjectile(strings, seen, es[0]);
      var tail := ProjectilesBytes(strings, seen', es[1..]);
      Peel(ProjectileBytes(strings, seen, e), tail, rest);
      EffectIsKnown(d, strings, e);
      UnusedStringIndex(strings, ids, e.id);
      MovedProjectileInWorld(strings, seen, e);
      UsedStringIndices(strings, ids, e.id);
      ProjectileRoundTrip(d, strings, seen, StringIndices(strings, ids), e, tail + rest);
      ProjectilesRoundTrip(d, strings, seen', ids + {e.id}, es[1..], rest);
      assert [DecodedProjectile(d, e)] + Map(ProjectileDecoder(d), es[1..]) == Map(ProjectileDecoder(d), es);
    }
  }

  lemma {:induction false} BombRoundTrip(
    d: Reading, strings: seq<Text>, seen: Vec<int>, bomb: Option<Bomb<int>>, rest: seq<byte>)
    requires |strings| <= MAX_STRINGS && BombCovered(strings, bomb) && InWorld(seen)
    requires bomb.Some? ==> InWorld(bomb.value.position)
    ensures ReadBomb(Map(d.decode, strings), seen, BombBytes(strings, seen, bomb) + rest)
         == Got(DecodedBomb(d, bomb), rest)
  {
    hide Low8, Low16, Low32, ReadU8, ReadU16, ReadI16, ReadU32;
    match bomb
    case None => Low8RoundTrip(0, rest);
    case Some(b) =>
      var r2 := Low16(OptionalIndex(strings, b.carrierId)) + rest;
      var r1 := Low16(IndexOf(strings, b.state)) + r2;
      var r0 := PositionBytes(b.position, seen) + r1;
      assert BombBytes(strings, seen, bomb) + rest == Low8(1) + r0;
      Low8RoundTrip(1, r0);
      PositionRoundTrip(b.position, seen, r1);
      StringRoundTrip(d, strings, b.state, r2);
      OptionalStringRoundTrip(d, strings, b.carrierId, rest);
  }

  // --- frames ------------------------------------------------------------------

  lemma {:induction false} SetOfSeqSize<T>(s: seq<T>, xs: set<T>)
    requires forall x <- xs :: x in s
    ensures |xs| <= |s|
  {
    if s == [] {
      assert xs == {};
    } else {
      forall x | x in xs - {s[0]}
        ensures x in s[1..]
      {
      }
      SetOfSeqSize(s[1..], xs - {s[0]});
    }
  }

  /** No frame has more players than the roster. */
  lemma {:induction false} PlayersFit(s: Scan, ids: set<Text>, ps: seq<Player<int>>)
    requires PlayersCovered(s, ids, ps)
    requires forall id <- ids :: id in IdsOf(s.roster)
    ensures |ids| + |ps| <= |s.roster|
    decreases |ps|
  {
    if ps == [] {
      SetOfSeqSize(IdsOf(s.roster), ids);
    } else {
      PlayersFit(s, ids + {ps[0].id}, ps[1..]);
    }
  }

  predicate PredictorsOk(s: Scan, seen: Predictors) {
    |seen.players| == |s.roster| && AllInWorld(seen.players) && MapInWorld(seen.projectiles) && InWorld(seen.bomb)
  }

  lemma {:induction false} FrameRoundTrip(d: Reading, s: Scan, seen: Predictors, f: Frame<int>, rest: seq<byte>)
    requires Consistent(s) && FrameCovered(s, f) && FrameSendable(f) && PredictorsOk(s, seen)
    ensures ReadFrame(DecodedTables(d, s), seen, FrameBytes(s, seen, f) + rest)
         == Got((DecodedFrame(d, f), MoveFrame(s, seen, f)), rest)
    ensures PredictorsOk(s, MoveFrame(s, seen, f))
  {
    hide Low8, Low16, Low32, ReadU8, ReadU16, ReadU32, ReadBomb, BombBytes;
    hide ReadPlayers, PlayersBytes, MovePlayers, PlayersCovered;
    hide ReadProjectiles, ProjectilesBytes, MoveProjectiles, EffectsCovered, BombCovered;
    var r4 := BombBytes(s.strings, seen.bomb, f.bomb) + rest;
    var r3 := ProjectilesBytes(s.strings, seen.projectiles, f.projectiles) + r4;
    var r2 := Low16(|f.projectiles|) + r3;
    var r1 := PlayersBytes(s, seen.players, f.players) + r2;
    var r0 := Low8(|f.players|) + r1;
    assert EffectsBytes(s.strings, seen, f) + rest == r2;
    hide EffectsBytes;
    assert FrameBytes(s, seen, f) + rest == Low32(f.tick) + r0;
    Low32RoundTrip(f.tick, r0);
    Low8RoundTrip(|f.players|, r1);
    PlayersFit(s, {}, f.players);
    assert Indices(s.roster, {}) == {} && StringIndices(s.strings, {}) == {};
    PlayersRoundTrip(d, s, seen.players, {}, f.players, r2);
    Low16RoundTrip(|f.projectiles|, r3);
    ProjectilesRoundTrip(d, s.strings, seen.projectiles, {}, f.projectiles, r4);
    BombRoundTrip(d, s.strings, seen.bomb, f.bomb, rest);
  }

  lemma {:induction false} FramesRoundTrip(
    d: Reading, s: Scan, seen: Predictors, last: int, players: nat, effects: nat, fs: seq<Frame<int>>, rest: seq<byte>)
    requires Consistent(s) && FramesCovered(s, fs) && PredictorsOk(s, seen)
    requires FramesOrdered(last, players, effects, fs)
    requires forall i :: 0 <= i < |fs| ==> FrameSendable(fs[i])
    ensures ReadFrames(DecodedTables(d, s), seen, last, players, effects, |fs|, FramesBytes(s, seen, fs) + rest)
         == Got(Map(FrameDecoder(d), fs), rest)
    decreases |fs|
  {
    hide ReadFrame, FrameBytes, MoveFrame, Consistent, FrameCovered, FrameSendable, PredictorsOk;
    if fs == [] {
      assert FramesBytes(s, seen, fs) + rest == rest;
    } else {
      var f, seen' := fs[0], MoveFrame(s, seen, fs[0]);
      var tail := FramesBytes(s, seen', fs[1..]);
      Peel(FrameBytes(s, seen, f), tail, rest);
      FrameRoundTrip(d, s, seen, f, tail + rest);
      FramesRoundTrip(d, s, seen', f.tick, players + |f.players|, effects + |f.projectiles|, fs[1..], rest);
      assert [DecodedFrame(d, f)] + Map(FrameDecoder(d), fs[1..]) == Map(FrameDecoder(d), fs);
    }
  }
}

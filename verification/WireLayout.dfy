/** Where the bytes of an ARPL v2 body are, field by field. */
module WireLayout {
  import opened Bytes
  import opened Results
  import opened ReplayPayloads
  import opened ReplayTables
  import opened ReplayWire

  /** Two or four bytes at i, the first the least. */
  predicate Holds16(b: seq<byte>, i: int, v: int) {
    0 <= i <= |b| - 2 && (b[i] as int) + 0x100 * (b[i + 1] as int) == v
  }

  predicate Holds32(b: seq<byte>, i: int, v: int) {
    && 0 <= i <= |b| - 4
    && (b[i] as int) + 0x100 * (b[i + 1] as int) + 0x1_0000 * (b[i + 2] as int) + 0x100_0000 * (b[i + 3] as int) == v
  }

  /** The same for a number between -32768 and 32767. */
  predicate HoldsSigned16(b: seq<byte>, i: int, v: int) {
    Holds16(b, i, if v < 0 then v + 0x1_0000 else v)
  }

  lemma Low16Holds(v: int)
    requires 0 <= v < 0x1_0000
    ensures Holds16(Low16(v), 0, v)
  {
  }

  lemma Low16HoldsSigned(v: int)
    requires -0x8000 <= v < 0x8000
    ensures HoldsSigned16(Low16(v), 0, v)
  {
    assert v % 0x1_0000 == if v < 0 then v + 0x1_0000 else v;
  }

  lemma Low32Holds(v: int)
    requires 0 <= v < 0x1_0000_0000
    ensures Holds32(Low32(v), 0, v)
  {
    hide U32Le;
    U32RoundTrip(v, []);
    InRange32(v);
    assert U32Le(v) + [] == U32Le(v);
  }

  lemma InRange32(v: int)
    requires 0 <= v < 0x1_0000_0000
    ensures Low32(v) == U32Le(v)
  {
    assert v % 0x1_0000_0000 == v;
    hide U32Le;
  }

  /** Yaw, pitch, health, armor, alive, weapon and input. */
  lemma StateLayout(weapon: u16, p: Player<int>)
    requires -0x8000 <= p.yaw < 0x8000 && -0x8000 <= p.pitch < 0x8000 && p.health < 0x100 && p.armor < 0x100
    ensures var b := PlayerStateBytes(weapon, p);
            && |b| == 11 && HoldsSigned16(b, 0, p.yaw) && HoldsSigned16(b, 2, p.pitch)
            && b[4] == p.health && b[5] == p.armor && b[6] == (if p.alive then 1 else 0)
            && Holds16(b, 7, weapon) && Holds16(b, 9, InputMask(p.input))
  {
    hide Low16, InputMask;
    var mask := InputMask(p.input);
    Low16HoldsSigned(p.yaw);
    Low16HoldsSigned(p.pitch);
    Low16Holds(weapon);
    Low16Holds(mask);
    StateIs(Low16(p.yaw), Low16(p.pitch), p.health, p.armor, Bit(p.alive), Low16(weapon), Low16(mask));
  }

  lemma StateIs(yaw: seq<byte>, pitch: seq<byte>, health: byte, armor: byte, alive: byte, weapon: seq<byte>, mask: seq<byte>)
    requires |yaw| == |pitch| == |weapon| == |mask| == 2
    ensures yaw + (pitch + ([health] + ([armor] + ([alive] + (weapon + mask))))) ==
            [yaw[0], yaw[1], pitch[0], pitch[1], health, armor, alive, weapon[0], weapon[1], mask[0], mask[1]]
  {
  }

  /** The three coordinates' differences from where the thing was last, each a zigzag base-128 number. */
  predicate IsMove(b: seq<byte>, p: Vec<int>, previous: Vec<int>) {
    b == VarBytes(ZigZag(p.x - previous.x)) + VarBytes(ZigZag(p.y - previous.y)) + VarBytes(ZigZag(p.z - previous.z))
  }

  lemma MoveLayout(p: Vec<int>, previous: Vec<int>)
    ensures IsMove(PositionBytes(p, previous), p, previous)
  {
  }

  /** The roster index, the move, and the state. */
  lemma PlayerLayout(index: byte, weapon: u16, previous: Vec<int>, p: Player<int>)
    requires -0x8000 <= p.yaw < 0x8000 && -0x8000 <= p.pitch < 0x8000 && p.health < 0x100 && p.armor < 0x100
    ensures var b := PlayerRecord(index, weapon, previous, p);
            && |b| >= 12 && b[0] == index && IsMove(b[1..|b| - 11], p.position, previous)
            && b[|b| - 11..] == PlayerStateBytes(weapon, p)
  {
    hide PositionBytes, PlayerStateBytes, IsMove;
    MoveLayout(p.position, previous);
    var move, state := PositionBytes(p.position, previous), PlayerStateBytes(weapon, p);
    var b := PlayerRecord(index, weapon, previous, p);
    assert b == [index] + (move + state);
    assert b[1..|b| - 11] == move && b[|b| - 11..] == state;
  }

  /** Ids, flags, the move, and the lifetime. The flags are active, masks the view, and is an effect, from the
      lowest bit up. A projectile without a radius has the bits of a quiet NaN. */
  lemma ProjectileLayout(id: u16, kind: u16, owner: u16, previous: Vec<int>, e: Projectile<int>)
    requires e.startTick < 0x1_0000_0000 && e.endTick < 0x1_0000_0000
    ensures var b := ProjectileRecord(id, kind, owner, previous, e);
            var n := |b| - 12;
            && n >= 7 && Holds16(b, 0, id) && Holds16(b, 2, kind) && Holds16(b, 4, owner)
            && b[6] == (if e.active then 1 else 0) + (if e.masksVision then 2 else 0) + (if e.effect then 4 else 0)
            && IsMove(b[7..n], e.position, previous)
            && Holds32(b, n, if e.radius.Some? then e.radius.value else 0x7FC0_0000)
            && Holds32(b, n + 4, e.startTick) && Holds32(b, n + 8, e.endTick)
  {
    hide PositionBytes, IsMove, ProjectileRecord, Holds16, Holds32, ProjectileFlags;
    ProjectileFront(id, kind, owner, previous, e);
    ProjectileBack(id, kind, owner, previous, e);
    FlagsAre(e);
  }

  lemma FlagsAre(e: Projectile<int>)
    ensures ProjectileFlags(e) == (if e.active then 1 else 0) + (if e.masksVision then 2 else 0) + (if e.effect then 4 else 0)
  {
  }

  lemma ProjectileFront(id: u16, kind: u16, owner: u16, previous: Vec<int>, e: Projectile<int>)
    ensures var b := ProjectileRecord(id, kind, owner, previous, e);
            && |b| >= 19 && Holds16(b, 0, id) && Holds16(b, 2, kind) && Holds16(b, 4, owner) && b[6] == ProjectileFlags(e)
            && IsMove(b[7..|b| - 12], e.position, previous)
  {
    hide PositionBytes, Low16, Low32, IsMove, ProjectileFlags;
    Low16Holds(id);
    Low16Holds(kind);
    Low16Holds(owner);
    MoveLayout(e.position, previous);
    HeadIs(Low16(id), Low16(kind), Low16(owner), ProjectileFlags(e), PositionBytes(e.position, previous), LifetimeBytes(e));
  }

  lemma ProjectileBack(id: u16, kind: u16, owner: u16, previous: Vec<int>, e: Projectile<int>)
    requires e.startTick < 0x1_0000_0000 && e.endTick < 0x1_0000_0000
    ensures var b := ProjectileRecord(id, kind, owner, previous, e);
            var n := |b| - 12;
            && n >= 0 && Holds32(b, n, if e.radius.Some? then e.radius.value else 0x7FC0_0000)
            && Holds32(b, n + 4, e.startTick) && Holds32(b, n + 8, e.endTick)
  {
    hide PositionBytes, Low16, Low32, ProjectileFlags;
    var radius := if e.radius.Some? then e.radius.value else RADIUS_ABSENT;
    Low32Holds(radius);
    Low32Holds(e.startTick);
    Low32Holds(e.endTick);
    HeadIs(Low16(id), Low16(kind), Low16(owner), ProjectileFlags(e), PositionBytes(e.position, previous), LifetimeBytes(e));
    LifetimeIs(Low32(radius), Low32(e.startTick), Low32(e.endTick));
  }

  lemma LifetimeIs(radius: seq<byte>, start: seq<byte>, end: seq<byte>)
    requires |radius| == |start| == |end| == 4
    ensures radius + (start + end) ==
            [radius[0], radius[1], radius[2], radius[3], start[0], start[1], start[2], start[3], end[0], end[1], end[2], end[3]]
  {
  }

  lemma HeadIs(id: seq<byte>, kind: seq<byte>, owner: seq<byte>, flags: byte, move: seq<byte>, lifetime: seq<byte>)
    requires |id| == |kind| == |owner| == 2 && |lifetime| == 12
    ensures var b := id + (kind + (owner + ([flags] + (move + lifetime))));
            var n := |b| - 12;
            && n == 7 + |move|
            && b[..7] == [id[0], id[1], kind[0], kind[1], owner[0], owner[1], flags]
            && b[7..n] == move && b[n..] == lifetime
  {
  }

  /** One, the move, the state, and the carrier. */
  lemma BombLayout(state: u16, carrier: u16, previous: Vec<int>, bomb: Bomb<int>)
    ensures var b := BombRecord(state, carrier, previous, bomb);
            var n := |b| - 4;
            && n >= 1 && b[0] == 1 && IsMove(b[1..n], bomb.position, previous)
            && Holds16(b, n, state) && Holds16(b, n + 2, carrier)
  {
    hide PositionBytes, Low16, IsMove;
    Low16Holds(state);
    Low16Holds(carrier);
    MoveLayout(bomb.position, previous);
    var move := PositionBytes(bomb.position, previous);
    var b := BombRecord(state, carrier, previous, bomb);
    assert b == [1] + move + [Low16(state)[0], Low16(state)[1], Low16(carrier)[0], Low16(carrier)[1]];
  }

  /** The tick and the number of players; the players; the number of projectiles; these; and the bomb, or a zero. */
  lemma FrameLayout(s: Scan, seen: Predictors, f: Frame<int>)
    requires f.tick < 0x1_0000_0000 && |f.players| < 0x100 && |f.projectiles| < 0x1_0000
    ensures var b := FrameBytes(s, seen, f);
            var n := 5 + |PlayersBytes(s, seen.players, f.players)|;
            var m := n + 2 + |ProjectilesBytes(s.strings, seen.projectiles, f.projectiles)|;
            && Holds32(b, 0, f.tick) && m <= |b| && b[4] == |f.players|
            && b[5..n] == PlayersBytes(s, seen.players, f.players) && Holds16(b, n, |f.projectiles|)
            && b[n + 2..m] == ProjectilesBytes(s.strings, seen.projectiles, f.projectiles)
            && b[m..] == (if f.bomb.None? then [0] else BombBytes(s.strings, seen.bomb, f.bomb))
  {
    hide Low16, Low32, PlayersBytes, ProjectilesBytes, BombRecord;
    Low16Holds(|f.projectiles|);
    Low32Holds(f.tick);
    var players := PlayersBytes(s, seen.players, f.players);
    var projectiles := ProjectilesBytes(s.strings, seen.projectiles, f.projectiles);
    FrameIs(Low32(f.tick), |f.players|, players, Low16(|f.projectiles|), projectiles, BombBytes(s.strings, seen.bomb, f.bomb));
  }

  lemma FrameIs(tick: seq<byte>, count: byte, players: seq<byte>, effects: seq<byte>, projectiles: seq<byte>, bomb: seq<byte>)
    requires |tick| == 4 && |effects| == 2
    ensures var b := tick + ([count] + (players + (effects + (projectiles + bomb))));
            var n := 5 + |players|;
            var m := n + 2 + |projectiles|;
            && |b| == m + |bomb| && b[..5] == [tick[0], tick[1], tick[2], tick[3], count] && b[5..n] == players
            && b[n..n + 2] == [effects[0], effects[1]] && b[n + 2..m] == projectiles && b[m..] == bomb
  {
  }

  /** The two metadata texts, each behind its length, come first. */
  lemma BodyLayout(p: Payload, s: Scan)
    requires |p.cacheJson| < 0x1_0000_0000 && |p.fidelityJson| < 0x1_0000_0000
    ensures var b := Body(p, s);
            var n := 4 + |p.cacheJson|;
            && n + 4 + |p.fidelityJson| <= |b|
            && Holds32(b, 0, |p.cacheJson|) && b[4..n] == p.cacheJson
            && Holds32(b, n, |p.fidelityJson|) && b[n + 4..n + 4 + |p.fidelityJson|] == p.fidelityJson
            && b[n + 4 + |p.fidelityJson|..] ==
               TablesBytes(s) + (Low32(|p.frames|) + FramesBytes(s, Initial(|s.roster|), Map(QuantizeFrame, p.frames)))
  {
    hide Low32, TablesBytes, FramesBytes, Initial;
    Low32Holds(|p.cacheJson|);
    Low32Holds(|p.fidelityJson|);
    BodyIs(Low32(|p.cacheJson|), p.cacheJson, Low32(|p.fidelityJson|), p.fidelityJson,
           TablesBytes(s) + (Low32(|p.frames|) + FramesBytes(s, Initial(|s.roster|), Map(QuantizeFrame, p.frames))));
  }

  lemma BodyIs(a: seq<byte>, cache: seq<byte>, b: seq<byte>, fidelity: seq<byte>, rest: seq<byte>)
    requires |a| == |b| == 4
    ensures var all := (a + cache) + ((b + fidelity) + rest);
            var n := 4 + |cache|;
            && |all| == n + 4 + |fidelity| + |rest|
            && all[..4] == [a[0], a[1], a[2], a[3]] && all[4..n] == cache
            && all[n..n + 4] == [b[0], b[1], b[2], b[3]] && all[n + 4..n + 4 + |fidelity|] == fidelity
            && all[n + 4 + |fidelity|..] == rest
  {
  }

  /** The ten inputs, from the lowest bit up; all bits set if the inputs are not known. */
  lemma InputLayout(input: Option<Input>)
    ensures InputMask(input) ==
            if input.None? then 0xFFFF
            else
              var i := input.value;
              Bit(i.forward) + 2 * Bit(i.left) + 4 * Bit(i.backward) + 8 * Bit(i.right) + 16 * Bit(i.jump)
              + 32 * Bit(i.crouch) + 64 * Bit(i.walk) + 128 * Bit(i.reload) + 256 * Bit(i.fire)
              + 512 * Bit(i.secondaryFire)
  {
    hide Bit, FromBits, InputBits, InputMask;
    NoInput();
    if input.Some? {
      MaskIs(input.value);
      FirstBits(input.value);
      MiddleBits(input.value);
      LastBits(input.value);
      TenBits(InputBits(input.value));
    }
  }

  lemma NoInput()
    ensures InputMask(None) == 0xFFFF
  {
  }

  lemma MaskIs(i: Input)
    ensures InputMask(Some(i)) == FromBits(InputBits(i)) && |InputBits(i)| == 10
  {
    hide FromBits, Pow2;
  }

  lemma FirstBits(i: Input)
    ensures var b := InputBits(i);
            && |b| == 10 && Bit(b[0]) == Bit(i.forward) && Bit(b[1]) == Bit(i.left) && Bit(b[2]) == Bit(i.backward)
  {
    hide Bit;
    var b := InputBits(i);
    assert b[0] == i.forward && b[1] == i.left && b[2] == i.backward;
  }

  lemma MiddleBits(i: Input)
    ensures var b := InputBits(i);
            && |b| == 10 && Bit(b[3]) == Bit(i.right) && Bit(b[4]) == Bit(i.jump) && Bit(b[5]) == Bit(i.crouch)
            && Bit(b[6]) == Bit(i.walk)
  {
    hide Bit;
    var b := InputBits(i);
    assert b[3] == i.right && b[4] == i.jump && b[5] == i.crouch && b[6] == i.walk;
  }

  lemma LastBits(i: Input)
    ensures var b := InputBits(i);
            && |b| == 10 && Bit(b[7]) == Bit(i.reload) && Bit(b[8]) == Bit(i.fire)
            && Bit(b[9]) == Bit(i.secondaryFire)
  {
    hide Bit;
    var b := InputBits(i);
    assert b[7] == i.reload && b[8] == i.fire && b[9] == i.secondaryFire;
  }

  lemma TenBits(b: seq<bool>)
    requires |b| == 10
    ensures FromBits(b) == Bit(b[0]) + 2 * Bit(b[1]) + 4 * Bit(b[2]) + 8 * Bit(b[3]) + 16 * Bit(b[4])
                           + 32 * Bit(b[5]) + 64 * Bit(b[6]) + 128 * Bit(b[7]) + 256 * Bit(b[8]) + 512 * Bit(b[9])
  {
    hide Bit, FromBits;
    Tail(b, 0);
    Tail(b, 1);
    Tail(b, 2);
    Tail(b, 3);
    Tail(b, 4);
    FiveBits(b);
    assert b[0..] == b;
  }

  lemma FiveBits(b: seq<bool>)
    requires |b| == 10
    ensures FromBits(b[5..]) == Bit(b[5]) + 2 * Bit(b[6]) + 4 * Bit(b[7]) + 8 * Bit(b[8]) + 16 * Bit(b[9])
  {
    hide Bit, FromBits;
    Tail(b, 5);
    Tail(b, 6);
    Tail(b, 7);
    Tail(b, 8);
    Tail(b, 9);
    assert b[10..] == [];
  }

  lemma Tail(b: seq<bool>, k: nat)
    requires k < |b|
    ensures FromBits(b[k..]) == Bit(b[k]) + 2 * FromBits(b[k + 1..])
    ensures FromBits([]) == 0
  {
    assert b[k..][1..] == b[k + 1..];
  }

  /** The tables: how many texts, these, how many players, and these. */
  lemma TablesLayout(s: Scan)
    requires |s.strings| < 0x1_0000 && |s.roster| < 0x1_0000
    ensures var b := TablesBytes(s);
            var n := 2 + |TextsBytes(s.strings)|;
            && n + 2 <= |b| && Holds16(b, 0, |s.strings|) && b[2..n] == TextsBytes(s.strings)
            && Holds16(b, n, |s.roster|) && b[n + 2..] == RosterBytes(s.strings, s.roster)
  {
    hide Low16, TextsBytes, RosterBytes;
    Low16Holds(|s.strings|);
    Low16Holds(|s.roster|);
    TablesAre(Low16(|s.strings|), TextsBytes(s.strings), Low16(|s.roster|), RosterBytes(s.strings, s.roster));
  }

  lemma TablesAre(a: seq<byte>, texts: seq<byte>, b: seq<byte>, roster: seq<byte>)
    requires |a| == |b| == 2
    ensures var all := a + (texts + (b + roster));
            var n := 2 + |texts|;
            && |all| == n + 2 + |roster| && all[..2] == [a[0], a[1]] && all[2..n] == texts
            && all[n..n + 2] == [b[0], b[1]] && all[n + 2..] == roster
  {
  }

  /** A text is its length and its bytes. */
  lemma TextLayout(t: Text)
    requires |t| < 0x1_0000
    ensures Holds16(TextBytes(t), 0, |t|) && TextBytes(t)[2..] == t
  {
    hide Low16;
    Low16Holds(|t|);
  }

  /** A player's identity is where the id is in the table, where the name is, and a zero for team A. */
  lemma IdentityLayout(strings: seq<Text>, i: Identity)
    requires |strings| < 0xFFFF && (i.team == [65] || i.team == [66])
    ensures var b := IdentityBytes(strings, i);
            && Holds16(b, 0, IndexOf(strings, i.id)) && Holds16(b, 2, IndexOf(strings, i.name))
            && b[4] == if i.team == [65] then 0 else 1
  {
    hide Low16, IndexOf;
    Low16Holds(IndexOf(strings, i.id));
    Low16Holds(IndexOf(strings, i.name));
  }

  // --- what moves are measured from -----------------------------------------------------------------

  /** What the encoder knows after some frames. */
  function Moved(s: Scan, seen: Predictors, fs: seq<Frame<int>>): Predictors
    decreases |fs|
  {
    if fs == [] then seen else Moved(s, MoveFrame(s, seen, fs[0]), fs[1..])
  }

  /** A frame is written against what the encoder knows after all frames before it. */
  lemma {:induction false} FrameIsWrittenAgainst(s: Scan, seen: Predictors, before: seq<Frame<int>>, f: Frame<int>)
    ensures FramesBytes(s, seen, before + [f]) == FramesBytes(s, seen, before) + FrameBytes(s, Moved(s, seen, before), f)
    decreases |before|
  {
    hide FrameBytes, MoveFrame;
    var all := before + [f];
    if before == [] {
      assert all == [f] && all[1..] == [];
      assert FramesBytes(s, MoveFrame(s, seen, f), []) == [];
    } else {
      assert all[0] == before[0] && all[1..] == before[1..] + [f];
      FrameIsWrittenAgainst(s, MoveFrame(s, seen, before[0]), before[1..], f);
    }
  }

  predicate IsPlayerAt(s: Scan, f: Frame<int>, j: int, k: nat) {
    0 <= j < |f.players| && RosterIndex(s.roster, f.players[j].id) == k
  }

  /** Player k was last seen in record j of frame i. */
  ghost predicate PlayerLastSeen(s: Scan, fs: seq<Frame<int>>, k: nat, i: int, j: int) {
    && 0 <= i < |fs| && IsPlayerAt(s, fs[i], j, k) && (forall j' :: j < j' ==> !IsPlayerAt(s, fs[i], j', k))
    && forall i', j' :: i < i' < |fs| ==> !IsPlayerAt(s, fs[i'], j', k)
  }

  lemma {:induction false} MovedPlayers(s: Scan, seen: seq<Vec<int>>, f: Frame<int>, n: nat, k: nat)
    requires n <= |f.players| && k < |seen|
    ensures forall j :: n <= j && IsPlayerAt(s, f, j, k) && (forall j' :: j < j' ==> !IsPlayerAt(s, f, j', k)) ==>
              MovePlayers(s, seen, f.players[n..])[k] == f.players[j].position
    ensures (forall j :: n <= j ==> !IsPlayerAt(s, f, j, k)) ==> MovePlayers(s, seen, f.players[n..])[k] == seen[k]
    decreases |f.players| - n
  {
    hide RosterIndex;
    if n < |f.players| {
      assert f.players[n..][1..] == f.players[n + 1..];
      MovedPlayers(s, MovePlayer(s, seen, f.players[n]), f, n + 1, k);
      assert IsPlayerAt(s, f, n, k) <==> RosterIndex(s.roster, f.players[n].id) == k;
    }
  }

  lemma FrameMoves(s: Scan, seen: Predictors, f: Frame<int>, k: nat)
    requires k < |seen.players|
    ensures forall j :: IsPlayerAt(s, f, j, k) && (forall j' :: j < j' ==> !IsPlayerAt(s, f, j', k)) ==>
              MoveFrame(s, seen, f).players[k] == f.players[j].position
    ensures (forall j :: !IsPlayerAt(s, f, j, k)) ==> MoveFrame(s, seen, f).players[k] == seen.players[k]
  {
    hide IsPlayerAt;
    MovedPlayers(s, seen.players, f, 0, k);
    assert f.players[0..] == f.players;
    assert forall j :: IsPlayerAt(s, f, j, k) ==> 0 <= j by { PlacesAreNatural(s, f, k); }
  }

  lemma PlacesAreNatural(s: Scan, f: Frame<int>, k: nat)
    ensures forall j :: IsPlayerAt(s, f, j, k) ==> 0 <= j
  {
  }

  /** A player's move is measured from where he was last seen, and at first from where he was set out. */
  lemma {:induction false} PlayerIsMeasuredFrom(s: Scan, seen: Predictors, fs: seq<Frame<int>>, k: nat)
    requires k < |seen.players|
    ensures |Moved(s, seen, fs).players| == |seen.players|
    ensures forall i, j :: PlayerLastSeen(s, fs, k, i, j) ==> Moved(s, seen, fs).players[k] == fs[i].players[j].position
    ensures (forall i, j :: 0 <= i < |fs| ==> !IsPlayerAt(s, fs[i], j, k)) ==> Moved(s, seen, fs).players[k] == seen.players[k]
    decreases |fs|
  {
    hide MoveFrame, RosterIndex;
    if fs != [] {
      var rest := fs[1..];
      FrameMoves(s, seen, fs[0], k);
      PlayerIsMeasuredFrom(s, MoveFrame(s, seen, fs[0]), rest, k);
      assert forall i :: 0 < i < |fs| ==> fs[i] == rest[i - 1];
      assert forall i :: 0 <= i < |rest| ==> rest[i] == fs[i + 1];
      forall i, j | PlayerLastSeen(s, fs, k, i, j)
        ensures IsPlayerAt(s, fs[i], j, k) && Moved(s, seen, fs).players[k] == fs[i].players[j].position
      {
        if i > 0 {
          assert PlayerLastSeen(s, rest, k, i - 1, j);
        }
      }
    }
  }

  predicate IsProjectileAt(strings: seq<Text>, f: Frame<int>, j: int, k: nat) {
    0 <= j < |f.projectiles| && IndexOf(strings, f.projectiles[j].id) == k
  }

  /** The projectile whose id is string k was last seen in record j of frame i. */
  ghost predicate ProjectileLastSeen(strings: seq<Text>, fs: seq<Frame<int>>, k: nat, i: int, j: int) {
    && 0 <= i < |fs| && IsProjectileAt(strings, fs[i], j, k) && (forall j' :: j < j' ==> !IsProjectileAt(strings, fs[i], j', k))
    && forall i', j' :: i < i' < |fs| ==> !IsProjectileAt(strings, fs[i'], j', k)
  }

  lemma {:induction false} MovedProjectiles(strings: seq<Text>, seen: map<nat, Vec<int>>, f: Frame<int>, n: nat, k: nat)
    requires n <= |f.projectiles|
    ensures forall j :: n <= j && IsProjectileAt(strings, f, j, k)
                        && (forall j' :: j < j' ==> !IsProjectileAt(strings, f, j', k)) ==>
              Lookup(MoveProjectiles(strings, seen, f.projectiles[n..]), k) == f.projectiles[j].position
    ensures (forall j :: n <= j ==> !IsProjectileAt(strings, f, j, k)) ==>
              Lookup(MoveProjectiles(strings, seen, f.projectiles[n..]), k) == Lookup(seen, k)
    decreases |f.projectiles| - n
  {
    hide IndexOf;
    if n < |f.projectiles| {
      assert f.projectiles[n..][1..] == f.projectiles[n + 1..];
      MovedProjectiles(strings, MoveProjectile(strings, seen, f.projectiles[n]), f, n + 1, k);
      assert IsProjectileAt(strings, f, n, k) <==> IndexOf(strings, f.projectiles[n].id) == k;
    }
  }

  lemma FrameMovesProjectile(s: Scan, seen: Predictors, f: Frame<int>, k: nat)
    ensures forall j :: IsProjectileAt(s.strings, f, j, k) && (forall j' :: j < j' ==> !IsProjectileAt(s.strings, f, j', k)) ==>
              Lookup(MoveFrame(s, seen, f).projectiles, k) == f.projectiles[j].position
    ensures (forall j :: !IsProjectileAt(s.strings, f, j, k)) ==>
              Lookup(MoveFrame(s, seen, f).projectiles, k) == Lookup(seen.projectiles, k)
  {
    hide IndexOf, MoveProjectiles, Lookup;
    MovedProjectiles(s.strings, seen.projectiles, f, 0, k);
    assert f.projectiles[0..] == f.projectiles;
  }

  /** And so for a projectile; one that was not seen yet is measured from the origin. */
  lemma {:induction false} ProjectileIsMeasuredFrom(s: Scan, seen: Predictors, fs: seq<Frame<int>>, k: nat)
    ensures forall i, j :: ProjectileLastSeen(s.strings, fs, k, i, j) ==>
              Lookup(Moved(s, seen, fs).projectiles, k) == fs[i].projectiles[j].position
    ensures (forall i, j :: 0 <= i < |fs| ==> !IsProjectileAt(s.strings, fs[i], j, k)) ==>
              Lookup(Moved(s, seen, fs).projectiles, k) == Lookup(seen.projectiles, k)
    ensures Lookup(Initial(|s.roster|).projectiles, k) == Vec(0, 0, 0)
    decreases |fs|
  {
    hide MoveFrame, IndexOf;
    if fs != [] {
      var rest := fs[1..];
      FrameMovesProjectile(s, seen, fs[0], k);
      ProjectileIsMeasuredFrom(s, MoveFrame(s, seen, fs[0]), rest, k);
      assert forall i :: 0 < i < |fs| ==> fs[i] == rest[i - 1];
      assert forall i :: 0 <= i < |rest| ==> rest[i] == fs[i + 1];
      forall i, j | ProjectileLastSeen(s.strings, fs, k, i, j)
        ensures Lookup(Moved(s, seen, fs).projectiles, k) == fs[i].projectiles[j].position
      {
        if i > 0 {
          assert ProjectileLastSeen(s.strings, rest, k, i - 1, j);
        }
      }
    }
  }

  /** The bomb is measured from where it was in the last frame that had one, whatever bomb that was. */
  lemma {:induction false} BombIsMeasuredFrom(s: Scan, seen: Predictors, fs: seq<Frame<int>>)
    ensures forall i :: 0 <= i < |fs| && fs[i].bomb.Some? && (forall i' :: i < i' < |fs| ==> fs[i'].bomb.None?) ==>
              Moved(s, seen, fs).bomb == fs[i].bomb.value.position
    ensures (forall i :: 0 <= i < |fs| ==> fs[i].bomb.None?) ==> Moved(s, seen, fs).bomb == seen.bomb
    decreases |fs|
  {
    if fs != [] {
      var rest := fs[1..];
      BombIsMeasuredFrom(s, MoveFrame(s, seen, fs[0]), rest);
      assert forall i :: 0 < i < |fs| ==> fs[i] == rest[i - 1];
      assert forall i :: 0 <= i < |rest| ==> rest[i] == fs[i + 1];
    }
  }
}

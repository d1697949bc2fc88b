/** The payload handed to the ARPL v2 encoder, and the fixed-point grid it is sent on:
    1/16 of a unit for coordinates, 1/128 of a degree for angles. */
module ReplayPayloads {
  import opened Bytes
  import opened Results

  /** The UTF-8 bytes of a string. */
  type Text = seq<byte>

  /** A 64-bit float: exact values are reals, and every NaN or infinity is NonFinite. */
  datatype Float = Finite(value: real) | NonFinite

  datatype Vec<+C> = Vec(x: C, y: C, z: C)

  datatype Input = Input(
    forward: bool, left: bool, backward: bool, right: bool, jump: bool,
    crouch: bool, walk: bool, reload: bool, fire: bool, secondaryFire: bool)

  /** C is Float before and int (grid steps) after quantization. */
  datatype Player<+C> = Player(
    id: Text, name: Text, team: Text, position: Vec<C>, yaw: C, pitch: C,
    health: u32, armor: u32, alive: bool, weapon: Text, input: Option<Input>)

  /** A radius is carried as the bits of its 32-bit float. */
  datatype Projectile<+C> = Projectile(
    id: Text, ownerId: Option<Text>, kind: Text, effect: bool, startTick: u64, endTick: u64,
    position: Vec<C>, active: bool, masksVision: bool, radius: Option<u32>)

  datatype Bomb<+C> = Bomb(position: Vec<C>, state: Text, carrierId: Option<Text>)

  datatype Frame<+C> = Frame(
    tick: u64, players: seq<Player<C>>, projectiles: seq<Projectile<C>>, bomb: Option<Bomb<C>>)

  datatype Fidelity = Fidelity(
    tickRate: Float, frameCount: u64, positionedEventCount: u64, startTick: u64, endTick: u64)

  /** The two metadata objects are carried as the JSON text the serializer made of them. cacheBytes is
      the one number of the cache metadata. */
  datatype Payload = Payload(
    cacheBytes: u64, cacheJson: seq<byte>, fidelity: Fidelity, fidelityJson: seq<byte>, frames: seq<Frame<Float>>)

  const TEAM_A: Text := [65]
  const TEAM_B: Text := [66]

  // --- rounding ----------------------------------------------------------------

  /** Nearest integer, halves away from zero. */
  function RoundAway(x: real): int {
    if x >= 0.0 then (x + 0.5).Floor else -((-x + 0.5).Floor)
  }

  predicate CoordinateOk(c: Float) {
    c.Finite? && -1000000.0 <= c.value <= 1000000.0
  }

  predicate AngleOk(a: Float) {
    a.Finite? && -360.0 <= a.value <= 360.0
  }

  /** The representative of an angle in [-180, 180). */
  function Normalized(a: real): real {
    var shifted := a + 180.0;
    shifted - 360.0 * ((shifted / 360.0).Floor as real) - 180.0
  }

  /** Values the encoder refuses are sent nowhere; they are mapped to 0 to keep this total. */
  function Sixteenths(c: Float): (steps: int)
    ensures -16_000_000 <= steps <= 16_000_000
  {
    if CoordinateOk(c) then RoundAway(c.value * 16.0) else 0
  }

  function Degrees128(a: Float): (steps: int)
    ensures -180 * 128 <= steps <= 180 * 128
  {
    if AngleOk(a) then NormalizedRange(a.value); RoundAway(Normalized(a.value) * 128.0) else 0
  }

  lemma NormalizedRange(a: real)
    ensures -180.0 <= Normalized(a) < 180.0
  {
    var shifted := a + 180.0;
    var turns := (shifted / 360.0).Floor as real;
    assert turns <= shifted / 360.0 < turns + 1.0;
    assert shifted == (shifted / 360.0) * 360.0;
  }

  /** A sent coordinate is within 1/32 of the original. */
  lemma CoordinateError(c: Float)
    requires CoordinateOk(c)
    ensures -1.0 / 32.0 <= Sixteenths(c) as real / 16.0 - c.value <= 1.0 / 32.0
  {
    var x := c.value * 16.0;
    assert -0.5 <= RoundAway(x) as real - x <= 0.5;
  }

  /** A sent angle is within 1/256 of a degree of the original, up to whole turns. */
  lemma AngleError(a: Float) returns (turns: int)
    requires AngleOk(a)
    ensures -1.0 / 256.0
         <= Degrees128(a) as real / 128.0 - (a.value - 360.0 * turns as real)
         <= 1.0 / 256.0
  {
    turns := ((a.value + 180.0) / 360.0).Floor;
    var x := Normalized(a.value) * 128.0;
    assert -0.5 <= RoundAway(x) as real - x <= 0.5;
    assert Normalized(a.value) == a.value - 360.0 * turns as real;
  }

  /** 0.0 ..= 4096.0 among the bit patterns of a 32-bit float; -0.0 compares equal to 0.0. */
  predicate RadiusOk(bits: u32) {
    bits <= 0x4580_0000 || bits == 0x8000_0000
  }

  predicate RadiusIsNaN(bits: u32) {
    bits % 0x8000_0000 > 0x7F80_0000
  }

  const RADIUS_ABSENT: u32 := 0x7FC0_0000

  // --- quantization ------------------------------------------------------------

  function QuantizeVec(v: Vec<Float>): Vec<int> {
    Vec(Sixteenths(v.x), Sixteenths(v.y), Sixteenths(v.z))
  }

  function QuantizePlayer(p: Player<Float>): Player<int> {
    Player(p.id, p.name, p.team, QuantizeVec(p.position), Degrees128(p.yaw), Degrees128(p.pitch),
           p.health, p.armor, p.alive, p.weapon, p.input)
  }

  function QuantizeProjectile(e: Projectile<Float>): Projectile<int> {
    Projectile(e.id, e.ownerId, e.kind, e.effect, e.startTick, e.endTick,
               QuantizeVec(e.position), e.active, e.masksVision, e.radius)
  }

  function QuantizeBomb(b: Option<Bomb<Float>>): Option<Bomb<int>> {
    match b
    case None => None
    case Some(b) => Some(Bomb(QuantizeVec(b.position), b.state, b.carrierId))
  }

  function Map<S, T>(f: S -> T, s: seq<S>): (r: seq<T>)
    ensures |r| == |s|
    ensures forall i :: 0 <= i < |s| ==> r[i] == f(s[i])
  {
    seq(|s|, i requires 0 <= i < |s| => f(s[i]))
  }

  function QuantizeFrame(f: Frame<Float>): Frame<int> {
    Frame(f.tick, Map(QuantizePlayer, f.players), Map(QuantizeProjectile, f.projectiles), QuantizeBomb(f.bomb))
  }

  // --- value checks ------------------------------------------------------------

  predicate VecOk(v: Vec<Float>) {
    CoordinateOk(v.x) && CoordinateOk(v.y) && CoordinateOk(v.z)
  }

  predicate PlayerValuesOk(p: Player<Float>) {
    VecOk(p.position) && AngleOk(p.yaw) && AngleOk(p.pitch) && p.health < 0x100 && p.armor < 0x100
  }

  predicate ProjectileValuesOk(e: Projectile<Float>) {
    && VecOk(e.position)
    && (e.radius.Some? ==> RadiusOk(e.radius.value))
    && e.startTick < 0x1_0000_0000
    && e.endTick < 0x1_0000_0000
  }

  predicate FrameValuesOk(f: Frame<Float>) {
    && f.tick < 0x1_0000_0000
    && (forall p <- f.players :: PlayerValuesOk(p))
    && (forall e <- f.projectiles :: ProjectileValuesOk(e))
    && (f.bomb.Some? ==> VecOk(f.bomb.value.position))
  }

  // --- input mask --------------------------------------------------------------

  function Bit(b: bool): (v: nat)
    ensures v <= 1
  {
    if b then 1 else 0
  }

  /** Least significant first. */
  function InputBits(i: Input): seq<bool> {
    [i.forward, i.left, i.backward, i.right, i.jump, i.crouch, i.walk, i.reload, i.fire, i.secondaryFire]
  }

  function Pow2(n: nat): (p: nat)
    ensures p >= 1
  {
    if n == 0 then 1 else 2 * Pow2(n - 1)
  }

  function FromBits(bits: seq<bool>): (mask: nat)
    ensures mask < Pow2(|bits|)
  {
    if bits == [] then 0 else Bit(bits[0]) + 2 * FromBits(bits[1..])
  }

  function InputMask(input: Option<Input>): (mask: u16)
    ensures input.None? ==> mask == 0xFFFF
    ensures input.Some? ==> mask < 0x400
  {
    match input
    case None => 0xFFFF
    case Some(i) =>
      assert Pow2(10) == 0x400 by { assert Pow2(8) == 4 * Pow2(6); assert Pow2(4) == 4 * Pow2(2); }
      FromBits(InputBits(i))
  }

  /** Bit k of a mask. */
  predicate HasBit(mask: nat, k: nat) {
    if k == 0 then mask % 2 == 1 else HasBit(mask / 2, k - 1)
  }

  /** What the reader makes of a mask; None for a mask it refuses. */
  function MaskInput(mask: u16): Option<Option<Input>> {
    if mask == 0xFFFF then Some(None)
    else if mask >= 0x400 then None
    else Some(Some(InputOf(seq(10, k requires 0 <= k < 10 => HasBit(mask, k)))))
  }

  lemma {:induction false} HasBitOfBits(bits: seq<bool>, k: nat)
    requires k < |bits|
    ensures HasBit(FromBits(bits), k) == bits[k]
  {
    assert FromBits(bits) / 2 == FromBits(bits[1..]);
    if k > 0 {
      HasBitOfBits(bits[1..], k - 1);
    }
  }

  lemma InputMaskRoundTrip(input: Option<Input>)
    ensures MaskInput(InputMask(input)) == Some(input)
  {
    if input.Some? {
      var bits := InputBits(input.value);
      var mask := InputMask(input);
      assert mask == FromBits(bits) && |bits| == 10;
      forall k | 0 <= k < 10
        ensures HasBit(mask, k) == bits[k]
      {
        HasBitOfBits(bits, k);
      }
      assert seq(10, k requires 0 <= k < 10 => HasBit(mask, k)) == bits;
    }
  }

  function InputOf(b: seq<bool>): Input
    requires |b| == 10
  {
    Input(b[0], b[1], b[2], b[3], b[4], b[5], b[6], b[7], b[8], b[9])
  }
}

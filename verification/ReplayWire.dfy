/** The uncompressed ARPL v2 body: what the second pass writes, and what the web client reads. */
module ReplayWire {
  import opened Bytes
  import opened Results
  import opened ReplayPayloads
  import opened ReplayTables
  import opened Sorting

  const MAX_JSON := 64 * 1024
  const ORIGIN := Vec(0, 0, 0)

  // --- the layout --------------------------------------------------------------

  // Each field is cut to its width, so that the layout is total; the encoder refuses values
  // that do not fit.
  function Low8(v: int): (s: seq<byte>)
    ensures |s| == 1
  {
    [v % 0x100]
  }

  function Low16(v: int): (s: seq<byte>)
    ensures |s| == 2
  {
    U16Le(v % 0x1_0000)
  }

  function Low32(v: int): (s: seq<byte>)
    ensures |s| == 4
  {
    U32Le(v % 0x1_0000_0000)
  }

  function DeltaBytes(value: int, previous: int): seq<byte> {
    VarBytes(ZigZag(value - previous))
  }

  function PositionBytes(p: Vec<int>, previous: Vec<int>): seq<byte> {
    DeltaBytes(p.x, previous.x) + (DeltaBytes(p.y, previous.y) + DeltaBytes(p.z, previous.z))
  }

  function OptionalIndex(strings: seq<Text>, t: Option<Text>): nat {
    if t.None? then 0xFFFF else IndexOf(strings, t.value)
  }

  function JsonBytes(json: seq<byte>): seq<byte> {
    Low32(|json|) + json
  }

  function TextBytes(t: Text): seq<byte> {
    Low16(|t|) + t
  }

  function TextsBytes(ts: seq<Text>): seq<byte> {
    if ts == [] then [] else TextBytes(ts[0]) + TextsBytes(ts[1..])
  }

  function IdentityBytes(strings: seq<Text>, i: Identity): (s: seq<byte>)
    ensures |s| == 5
  {
    Low16(IndexOf(strings, i.id)) + (Low16(IndexOf(strings, i.name)) + Low8(if i.team == TEAM_B then 1 else 0))
  }

  function RosterBytes(strings: seq<Text>, roster: seq<Identity>): seq<byte> {
    if roster == [] then [] else IdentityBytes(strings, roster[0]) + RosterBytes(strings, roster[1..])
  }

  /** Where every moving thing was last seen: one entry per roster index, one per projectile
      string index, and one for the bomb. */
  datatype Predictors = Predictors(players: seq<Vec<int>>, projectiles: map<nat, Vec<int>>, bomb: Vec<int>)

  function At<T>(s: seq<T>, i: nat, default: T): T {
    if i < |s| then s[i] else default
  }

  function Set<T>(s: seq<T>, i: nat, x: T): (r: seq<T>)
    ensures |r| == |s|
  {
    if i < |s| then s[i := x] else s
  }

  function Lookup(m: map<nat, Vec<int>>, key: nat): Vec<int> {
    if key in m then m[key] else ORIGIN
  }

  function PlayerBytes(s: Scan, seen: seq<Vec<int>>, p: Player<int>): seq<byte> {
    var index := RosterIndex(s.roster, p.id);
    PlayerRecord(index, IndexOf(s.strings, p.weapon), At(seen, index, ORIGIN), p)
  }

  function PlayerRecord(index: nat, weapon: nat, previous: Vec<int>, p: Player<int>): seq<byte> {
    Low8(index) + (PositionBytes(p.position, previous) + PlayerStateBytes(weapon, p))
  }

  function PlayerStateBytes(weapon: nat, p: Player<int>): (s: seq<byte>)
    ensures |s| == 11
  {
    Low16(p.yaw) + (Low16(p.pitch) + (Low8(p.health) + (Low8(p.armor) + (Low8(Bit(p.alive))
    + (Low16(weapon) + Low16(InputMask(p.input)))))))
  }

  function MovePlayer(s: Scan, seen: seq<Vec<int>>, p: Player<int>): (r: seq<Vec<int>>)
    ensures |r| == |seen|
  {
    Set(seen, RosterIndex(s.roster, p.id), p.position)
  }

  function PlayersBytes(s: Scan, seen: seq<Vec<int>>, ps: seq<Player<int>>): seq<byte>
    decreases |ps|
  {
    if ps == [] then [] else PlayerBytes(s, seen, ps[0]) + PlayersBytes(s, MovePlayer(s, seen, ps[0]), ps[1..])
  }

  function MovePlayers(s: Scan, seen: seq<Vec<int>>, ps: seq<Player<int>>): (r: seq<Vec<int>>)
    ensures |r| == |seen|
    decreases |ps|
  {
    if ps == [] then seen else MovePlayers(s, MovePlayer(s, seen, ps[0]), ps[1..])
  }

  function ProjectileFlags<C>(e: Projectile<C>): (flags: nat)
    ensures flags < 8
  {
    Bit(e.active) + 2 * Bit(e.masksVision) + 4 * Bit(e.effect)
  }

  function ProjectileBytes(strings: seq<Text>, seen: map<nat, Vec<int>>, e: Projectile<int>): seq<byte> {
    var id := IndexOf(strings, e.id);
    ProjectileRecord(id, IndexOf(strings, e.kind), OptionalIndex(strings, e.ownerId), Lookup(seen, id), e)
  }

  function ProjectileRecord(id: nat, kind: nat, owner: nat, previous: Vec<int>, e: Projectile<int>): seq<byte> {
    Low16(id) + (Low16(kind) + (Low16(owner) + (Low8(ProjectileFlags(e)) + (PositionBytes(e.position, previous)
    + LifetimeBytes(e)))))
  }

  function LifetimeBytes<C>(e: Projectile<C>): (s: seq<byte>)
    ensures |s| == 12
  {
    Low32(if e.radius.Some? then e.radius.value else RADIUS_ABSENT) + (Low32(e.startTick) + Low32(e.endTick))
  }

  function MoveProjectile(strings: seq<Text>, seen: map<nat, Vec<int>>, e: Projectile<int>): map<nat, Vec<int>> {
    seen[IndexOf(strings, e.id) := e.position]
  }

  function ProjectilesBytes(strings: seq<Text>, seen: map<nat, Vec<int>>, es: seq<Projectile<int>>): seq<byte>
    decreases |es|
  {
    if es == [] then []
    else ProjectileBytes(strings, seen, es[0]) + ProjectilesBytes(strings, MoveProjectile(strings, seen, es[0]), es[1..])
  }

  function MoveProjectiles(strings: seq<Text>, seen: map<nat, Vec<int>>, es: seq<Projectile<int>>): map<nat, Vec<int>>
    decreases |es|
  {
    if es == [] then seen else MoveProjectiles(strings, MoveProjectile(strings, seen, es[0]), es[1..])
  }

  function BombBytes(strings: seq<Text>, seen: Vec<int>, bomb: Option<Bomb<int>>): seq<byte> {
    match bomb
    case None => Low8(0)
    case Some(b) => BombRecord(IndexOf(strings, b.state), OptionalIndex(strings, b.carrierId), seen, b)
  }

  function BombRecord(state: nat, carrier: nat, previous: Vec<int>, b: Bomb<int>): seq<byte> {
    Low8(1) + (PositionBytes(b.position, previous) + (Low16(state) + Low16(carrier)))
  }

  function FrameBytes(s: Scan, seen: Predictors, f: Frame<int>): seq<byte> {
    Low32(f.tick) + (Low8(|f.players|) + (PlayersBytes(s, seen.players, f.players)
    + EffectsBytes(s.strings, seen, f)))
  }

  function EffectsBytes(strings: seq<Text>, seen: Predictors, f: Frame<int>): seq<byte> {
    Low16(|f.projectiles|) + (ProjectilesBytes(strings, seen.projectiles, f.projectiles)
    + BombBytes(strings, seen.bomb, f.bomb))
  }

  function MoveFrame(s: Scan, seen: Predictors, f: Frame<int>): (r: Predictors)
    ensures |r.players| == |seen.players|
  {
    Predictors(MovePlayers(s, seen.players, f.players), MoveProjectiles(s.strings, seen.projectiles, f.projectiles),
               if f.bomb.Some? then f.bomb.value.position else seen.bomb)
  }

  function FramesBytes(s: Scan, seen: Predictors, fs: seq<Frame<int>>): seq<byte>
    decreases |fs|
  {
    if fs == [] then [] else FrameBytes(s, seen, fs[0]) + FramesBytes(s, MoveFrame(s, seen, fs[0]), fs[1..])
  }

  function Initial(roster: nat): Predictors {
    Predictors(seq(roster, _ => ORIGIN), map[], ORIGIN)
  }

  /** The body for a payload whose first pass returned s. */
  function Body(p: Payload, s: Scan): seq<byte> {
    JsonBytes(p.cacheJson) + (JsonBytes(p.fidelityJson) + (TablesBytes(s)
    + (Low32(|p.frames|) + FramesBytes(s, Initial(|s.roster|), Map(QuantizeFrame, p.frames)))))
  }

  function TablesBytes(s: Scan): seq<byte> {
    Low16(|s.strings|) + (TextsBytes(s.strings) + (Low16(|s.roster|) + RosterBytes(s.strings, s.roster)))
  }

  // --- the reader --------------------------------------------------------------

  /** TextDecoder drops a leading byte-order mark. */
  function Decoded(t: Text): (r: Text)
    ensures |r| <= |t|
  {
    if HasMark(t) then t[3..] else t
  }

  predicate HasMark(t: Text) {
    |t| >= 3 && t[..3] == [0xEF, 0xBB, 0xBF]
  }

  /** Reads group k of at most five, refusing padding and a value above 32 bits. */
  function ReadGroups(s: seq<byte>, k: nat): Parsed<nat>
    requires k <= 4
    decreases 4 - k
  {
    var (b, rest) :- ReadU8(s);
    if k == 4 && b > 15 then Reject
    else if b < 0x80 then if k != 0 && b == 0 then Reject else Got(b, rest)
    else if k == 4 then Reject
    else
      var (high, rest) :- ReadGroups(rest, k + 1);
      Got(b - 0x80 + 0x80 * high, rest)
  }

  function ReadStep(previous: int, s: seq<byte>): Parsed<int> {
    var (z, rest) :- ReadGroups(s, 0);
    var value := previous + UnZigZag(z);
    if value < -16_000_000 || value > 16_000_000 then Reject else Got(value, rest)
  }

  function ReadPosition(previous: Vec<int>, s: seq<byte>): Parsed<Vec<int>> {
    var (x, s) :- ReadStep(previous.x, s);
    var (y, s) :- ReadStep(previous.y, s);
    var (z, s) :- ReadStep(previous.z, s);
    Got(Vec(x, y, z), s)
  }

  function ReadJson(s: seq<byte>): Parsed<seq<byte>> {
    var (length, s) :- ReadU32(s);
    if length > MAX_JSON then Reject else ReadRaw(s, length)
  }

  /** What a reader makes of the bytes of a text, and whether it takes an empty player id. */
  datatype Reading = Reading(decode: Text -> Text, emptyIds: bool)

  /** The web client, and a reader that takes texts as they were sent. */
  const BROWSER := Reading(Decoded, false)
  const VERBATIM := Reading((t: Text) => t, true)

  function ReadText(d: Reading, s: seq<byte>): Parsed<Text> {
    var (length, s) :- ReadU16(s);
    if length > MAX_TEXT then Reject
    else
      var (raw, s) :- ReadRaw(s, length);
      Got(d.decode(raw), s)
  }

  function ReadTexts(d: Reading, count: nat, s: seq<byte>): Parsed<seq<Text>> {
    if count == 0 then Got([], s)
    else
      var (t, s) :- ReadText(d, s);
      var (ts, s) :- ReadTexts(d, count - 1, s);
      Got([t] + ts, s)
  }

  function ReadString(strings: seq<Text>, s: seq<byte>): Parsed<Text> {
    var (index, s) :- ReadU16(s);
    if index >= |strings| then Reject else Got(strings[index], s)
  }

  function ReadOptionalString(strings: seq<Text>, s: seq<byte>): Parsed<Option<Text>> {
    var (index, s) :- ReadU16(s);
    if index == 0xFFFF then Got(None, s)
    else if index >= |strings| then Reject
    else Got(Some(strings[index]), s)
  }

  function ReadIdentity(d: Reading, strings: seq<Text>, s: seq<byte>): Parsed<Identity> {
    var (id, s) :- ReadString(strings, s);
    var (name, s) :- ReadString(strings, s);
    var (side, s) :- ReadU8(s);
    if (|id| == 0 && !d.emptyIds) || side > 1 then Reject
    else Got(Identity(id, name, if side == 0 then TEAM_A else TEAM_B), s)
  }

  function ReadRoster(d: Reading, strings: seq<Text>, count: nat, s: seq<byte>): Parsed<seq<Identity>> {
    if count == 0 then Got([], s)
    else
      var (i, s) :- ReadIdentity(d, strings, s);
      var (others, s) :- ReadRoster(d, strings, count - 1, s);
      Got([i] + others, s)
  }

  datatype Tables = Tables(strings: seq<Text>, roster: seq<Identity>)

  function ReadPlayerState(t: Tables, i: Identity, position: Vec<int>, s: seq<byte>): Parsed<Player<int>> {
    var (yaw, s) :- ReadI16(s);
    var (pitch, s) :- ReadI16(s);
    if yaw < -180 * 128 || yaw > 180 * 128 || pitch < -180 * 128 || pitch > 180 * 128 then Reject
    else
      var (health, s) :- ReadU8(s);
      var (armor, s) :- ReadU8(s);
      var (alive, s) :- ReadU8(s);
      var (weapon, s) :- ReadString(t.strings, s);
      var (mask, s) :- ReadU16(s);
      var input := MaskInput(mask);
      if alive > 1 || input.None? then Reject
      else Got(Player(i.id, i.name, i.team, position, yaw, pitch, health, armor, alive == 1, weapon, input.value), s)
  }

  /** A player and the roster index it was sent under. */
  function ReadPlayer(t: Tables, seen: seq<Vec<int>>, used: set<nat>, s: seq<byte>): Parsed<(nat, Player<int>)> {
    var (index, s) :- ReadU8(s);
    if index >= |t.roster| || index in used then Reject
    else
      var (position, s) :- ReadPosition(At(seen, index, ORIGIN), s);
      var (player, s) :- ReadPlayerState(t, t.roster[index], position, s);
      Got((index, player), s)
  }

  function ReadPlayers(t: Tables, seen: seq<Vec<int>>, used: set<nat>, count: nat, s: seq<byte>)
    : Parsed<(seq<Player<int>>, seq<Vec<int>>)>
    decreases count
  {
    if count == 0 then Got(([], seen), s)
    else
      var (first, s) :- ReadPlayer(t, seen, used, s);
      var (others, s) :- ReadPlayers(t, Set(seen, first.0, first.1.position), used + {first.0}, count - 1, s);
      Got(([first.1] + others.0, others.1), s)
  }

  /** A projectile and the string index its id was sent under. */
  function ReadProjectile(strings: seq<Text>, seen: map<nat, Vec<int>>, used: set<nat>, s: seq<byte>)
    : Parsed<(nat, Projectile<int>)>
  {
    var (index, s) :- ReadU16(s);
    if index >= |strings| then Reject
    else
      var (kind, s) :- ReadString(strings, s);
      var (owner, s) :- ReadOptionalString(strings, s);
      var (flags, s) :- ReadU8(s);
      if flags > 7 || index in used then Reject
      else
        var (position, s) :- ReadPosition(Lookup(seen, index), s);
        var (lifetime, s) :- ReadLifetime(s);
        var (radius, startTick, endTick) := lifetime;
        Got((index, Projectile(strings[index], owner, kind, flags / 4 % 2 == 1, startTick, endTick, position,
                               flags % 2 == 1, flags / 2 % 2 == 1, radius)), s)
  }

  function ReadLifetime(s: seq<byte>): Parsed<(Option<u32>, u64, u64)> {
    var (bits, s) :- ReadU32(s);
    if !RadiusIsNaN(bits) && !RadiusOk(bits) then Reject
    else
      var (startTick, s) :- ReadU32(s);
      var (endTick, s) :- ReadU32(s);
      if startTick > endTick then Reject
      else Got((if RadiusIsNaN(bits) then None else Some(bits), startTick, endTick), s)
  }

  function ReadProjectiles(strings: seq<Text>, seen: map<nat, Vec<int>>, used: set<nat>, count: nat, s: seq<byte>)
    : Parsed<(seq<Projectile<int>>, map<nat, Vec<int>>)>
    decreases count
  {
    if count == 0 then Got(([], seen), s)
    else
      var (first, s) :- ReadProjectile(strings, seen, used, s);
      var (others, s) :- ReadProjectiles(strings, seen[first.0 := first.1.position], used + {first.0}, count - 1, s);
      Got(([first.1] + others.0, others.1), s)
  }

  function ReadBomb(strings: seq<Text>, seen: Vec<int>, s: seq<byte>): Parsed<Option<Bomb<int>>> {
    var (present, s) :- ReadU8(s);
    if present > 1 then Reject
    else if present == 0 then Got(None, s)
    else
      var (position, s) :- ReadPosition(seen, s);
      var (state, s) :- ReadString(strings, s);
      var (carrier, s) :- ReadOptionalString(strings, s);
      Got(Some(Bomb(position, state, carrier)), s)
  }

  function ReadFrame(t: Tables, seen: Predictors, s: seq<byte>): Parsed<(Frame<int>, Predictors)> {
    var (tick, s) :- ReadU32(s);
    var (playerCount, s) :- ReadU8(s);
    if playerCount > |t.roster| then Reject
    else
      var (players, s) :- ReadPlayers(t, seen.players, {}, playerCount, s);
      var (effectCount, s) :- ReadU16(s);
      if effectCount > 512 then Reject
      else
        var (projectiles, s) :- ReadProjectiles(t.strings, seen.projectiles, {}, effectCount, s);
        var (bomb, s) :- ReadBomb(t.strings, seen.bomb, s);
        Got((Frame(tick, players.0, projectiles.0, bomb),
             Predictors(players.1, projectiles.1, if bomb.Some? then bomb.value.position else seen.bomb)), s)
  }

  /** Reads the remaining frames; last, players and effects are the running checks. */
  function ReadFrames(t: Tables, seen: Predictors, last: int, players: nat, effects: nat, count: nat, s: seq<byte>)
    : Parsed<seq<Frame<int>>>
    decreases count
  {
    if count == 0 then Got([], s)
    else
      var (first, s) :- ReadFrame(t, seen, s);
      var f := first.0;
      var players', effects' := players + |f.players|, effects + |f.projectiles|;
      if f.tick <= last || players' > MAX_PLAYER_RECORDS || effects' > MAX_EFFECT_RECORDS then Reject
      else
        var (others, s) :- ReadFrames(t, first.1, f.tick, players', effects', count - 1, s);
        Got([f] + others, s)
  }

  predicate FidelityOk(f: Fidelity) {
    && f.tickRate.Finite? && 8.0 <= f.tickRate.value <= 1024.0
    && f.positionedEventCount <= MAX_EFFECT_RECORDS
    && f.startTick <= f.endTick
  }

  datatype Replay = Replay(cacheJson: seq<byte>, fidelityJson: seq<byte>, frames: seq<Frame<int>>)

  function ReadTables(d: Reading, s: seq<byte>): Parsed<Tables> {
    var (stringCount, s) :- ReadU16(s);
    if stringCount > MAX_STRINGS then Reject
    else
      var (strings, s) :- ReadTexts(d, stringCount, s);
      if !Distinct(strings) then Reject
      else
        var (rosterCount, s) :- ReadU16(s);
        if rosterCount > MAX_ROSTER then Reject
        else
          var (roster, s) :- ReadRoster(d, strings, rosterCount, s);
          if !Distinct(IdsOf(roster)) then Reject else Got(Tables(strings, roster), s)
  }

  predicate CountOk(fidelity: Fidelity, count: nat) {
    && count <= MAX_FRAMES && count == fidelity.frameCount
    && (count == 0 ==> fidelity.startTick == 0 && fidelity.endTick == 0)
  }

  predicate TicksOk(fidelity: Fidelity, frames: seq<Frame<int>>) {
    |frames| > 0 ==> frames[0].tick == fidelity.startTick && frames[|frames| - 1].tick == fidelity.endTick
  }

  function ReadAllFrames(fidelity: Fidelity, t: Tables, s: seq<byte>): Parsed<seq<Frame<int>>> {
    var (count, s) :- ReadU32(s);
    if !CountOk(fidelity, count) then Reject
    else
      var (frames, s) :- ReadFrames(t, Initial(|t.roster|), -1, 0, 0, count, s);
      if !TicksOk(fidelity, frames) then Reject else Got(frames, s)
  }

  /** The largest integer below which the browser's numbers are exact. */
  const MAX_SAFE_INTEGER: u64 := 0x1F_FFFF_FFFF_FFFF

  /** What JSON.parse makes of the two metadata texts. */
  datatype JsonReader = JsonReader(cacheBytesOf: seq<byte> -> u64, fidelityOf: seq<byte> -> Fidelity)

  function ReadBody(d: Reading, s: seq<byte>, json: JsonReader): Parsed<Replay> {
    var (cacheJson, s) :- ReadJson(s);
    if json.cacheBytesOf(cacheJson) > MAX_SAFE_INTEGER then Reject
    else
      var (fidelityJson, s) :- ReadJson(s);
      if !FidelityOk(json.fidelityOf(fidelityJson)) then Reject
      else
        var (tables, s) :- ReadTables(d, s);
        var (frames, s) :- ReadAllFrames(json.fidelityOf(fidelityJson), tables, s);
        Got(Replay(cacheJson, fidelityJson, frames), s)
  }

  /** The whole body, nothing left over. */
  function Decode(d: Reading, s: seq<byte>, json: JsonReader): Option<Replay> {
    match ReadBody(d, s, json)
    case Reject => None
    case Got(replay, rest) => if rest == [] then Some(replay) else None
  }
}

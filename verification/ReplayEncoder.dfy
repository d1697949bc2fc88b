/** The encoder itself: a growing byte buffer, a growing string table, and two passes over the
    frames. Its result is proved to be the body of ReplayWire, for exactly the payloads of
    ReplayCodec.Accepts. */
module ReplayEncoder {
  import opened Bytes
  import opened Results
  import opened ReplayPayloads
  import opened ReplayTables
  import opened ReplayWire
  import opened ReplayCodec
  import opened ReplayRoundTrip

  /** Every method takes, as a ghost, the bytes that are to follow, and says that what is
      written and what is to follow still add up. */
  class Writer {
    var bytes: seq<byte>

    constructor ()
      ensures bytes == []
    {
      bytes := [];
    }

    /** data fits after start. */
    static predicate Fits(start: seq<byte>, data: seq<byte>) {
      |start| + |data| <= MAX_BYTES
    }

    method Push(data: seq<byte>, ghost rest: seq<byte> := []) returns (o: Outcome)
      modifies this
      ensures o.Pass? <==> Fits(old(bytes), data)
      ensures bytes == if o.Pass? then old(bytes) + data else old(bytes)
      ensures o.Pass? ==> bytes + rest == old(bytes) + (data + rest)
    {
      if |bytes| + |data| > MAX_BYTES {
        return Fail;
      }
      bytes := bytes + data;
      return Pass;
    }

    method U8(value: byte, ghost rest: seq<byte> := []) returns (o: Outcome)
      modifies this
      ensures o.Pass? <==> Fits(old(bytes), Low8(value))
      ensures o.Pass? ==> bytes == old(bytes) + Low8(value) && bytes + rest == old(bytes) + (Low8(value) + rest)
    {
      o := Push([value], rest);
    }

    method U16(value: u16, ghost rest: seq<byte> := []) returns (o: Outcome)
      modifies this
      ensures o.Pass? <==> Fits(old(bytes), Low16(value))
      ensures o.Pass? ==> bytes == old(bytes) + Low16(value) && bytes + rest == old(bytes) + (Low16(value) + rest)
    {
      assert U16Le(value) == Low16(value);
      o := Push(U16Le(value), rest);
    }

    method Tick(value: int, ghost rest: seq<byte> := []) returns (o: Outcome)
      requires value >= 0
      modifies this
      ensures o.Pass? <==> value < 0x1_0000_0000 && Fits(old(bytes), Low32(value))
      ensures o.Pass? ==> bytes == old(bytes) + Low32(value) && bytes + rest == old(bytes) + (Low32(value) + rest)
    {
      if value >= 0x1_0000_0000 {
        return Fail;
      }
      assert value % 0x1_0000_0000 == value;
      o := Push(U32Le(value), rest);
    }

    method WriteText(value: Text, ghost rest: seq<byte> := []) returns (o: Outcome)
      modifies this
      ensures o.Pass? <==> |value| <= MAX_TEXT && Fits(old(bytes), TextBytes(value))
      ensures o.Pass? ==> bytes + rest == old(bytes) + (TextBytes(value) + rest)
    {
      hide Low16;
      if |value| > MAX_TEXT {
        return Fail;
      }
      Peel(Low16(|value|), value, rest);
      :- U16(|value|, value + rest);
      o := Push(value, rest);
    }

    method Json(json: seq<byte>, ghost rest: seq<byte>) returns (o: Outcome)
      modifies this
      ensures o.Pass? <==> |json| <= MAX_JSON && Fits(old(bytes), JsonBytes(json))
      ensures o.Pass? ==> bytes + rest == old(bytes) + (JsonBytes(json) + rest)
    {
      hide Low32;
      if |json| > MAX_JSON {
        return Fail;
      }
      Peel(Low32(|json|), json, rest);
      :- Tick(|json|, json + rest);
      o := Push(json, rest);
    }

    /** Returns the new predictor: the value itself. */
    method Delta(value: int, previous: int, ghost rest: seq<byte>) returns (o: Outcome, next: int)
      modifies this
      ensures next == value
      ensures o.Pass? <==> ZigZag(value - previous) < 0x1_0000_0000 && Fits(old(bytes), DeltaBytes(value, previous))
      ensures o.Pass? ==> bytes + rest == old(bytes) + (DeltaBytes(value, previous) + rest)
    {
      next := value;
      var encoded := ZigZag(value - previous);
      if encoded >= 0x1_0000_0000 {
        return Fail, next;
      }
      while encoded >= 0x80
        invariant bytes + VarBytes(encoded) == old(bytes) + DeltaBytes(value, previous)
      {
        o := U8(0x80 + encoded % 0x80, VarBytes(encoded / 0x80));
        if o.Fail? {
          return o, next;
        }
        encoded := encoded / 0x80;
      }
      o := U8(encoded);
      if o.Pass? {
        Peel(old(bytes), DeltaBytes(value, previous), rest);
      }
    }

    method Axis(value: Float, previous: int, ghost rest: seq<byte>) returns (o: Outcome, next: int)
      requires -16_000_000 <= previous <= 16_000_000
      modifies this
      ensures -16_000_000 <= next <= 16_000_000
      ensures o.Pass? <==> CoordinateOk(value) && Fits(old(bytes), DeltaBytes(Sixteenths(value), previous))
      ensures o.Pass? ==>
        bytes + rest == old(bytes) + (DeltaBytes(Sixteenths(value), previous) + rest) && next == Sixteenths(value)
    {
      if value.NonFinite? || value.value < -1000000.0 || value.value > 1000000.0 {
        return Fail, previous;
      }
      o, next := Delta(RoundAway(value.value * 16.0), previous, rest);
    }

    method Position(position: Vec<Float>, previous: Vec<int>, ghost rest: seq<byte>) returns (o: Outcome, next: Vec<int>)
      requires InWorld(previous)
      modifies this
      ensures InWorld(next)
      ensures o.Pass? <==> VecOk(position) && Fits(old(bytes), PositionBytes(QuantizeVec(position), previous))
      ensures o.Pass? ==>
        && bytes + rest == old(bytes) + (PositionBytes(QuantizeVec(position), previous) + rest)
        && next == QuantizeVec(position)
    {
      hide DeltaBytes, Sixteenths, CoordinateOk;
      next := previous;
      var q := QuantizeVec(position);
      ghost var dx, dy, dz := DeltaBytes(q.x, previous.x), DeltaBytes(q.y, previous.y), DeltaBytes(q.z, previous.z);
      Peel(dx, dy + dz, rest);
      Peel(dy, dz, rest);
      var x, y, z;
      o, x := Axis(position.x, previous.x, dy + (dz + rest));
      if o.Fail? { return; }
      o, y := Axis(position.y, previous.y, dz + rest);
      if o.Fail? { return; }
      o, z := Axis(position.z, previous.z, rest);
      next := Vec(x, y, z);
    }

    method Angle(value: Float, ghost rest: seq<byte>) returns (o: Outcome)
      modifies this
      ensures o.Pass? <==> AngleOk(value) && Fits(old(bytes), Low16(Degrees128(value)))
      ensures o.Pass? ==> bytes + rest == old(bytes) + (Low16(Degrees128(value)) + rest)
    {
      if value.NonFinite? || value.value < -360.0 || value.value > 360.0 {
        return Fail;
      }
      var steps := Degrees128(value);
      assert I16Le(steps) == Low16(steps) by {
        assert steps % 0x1_0000 == if steps < 0 then steps + 0x1_0000 else steps;
      }
      o := Push(I16Le(steps), rest);
    }

    /** Yaw to input mask of a player record. */
    method State(p: Player<Float>, weapon: u16, ghost rest: seq<byte>) returns (o: Outcome)
      modifies this
      ensures o.Pass? <==>
        (AngleOk(p.yaw) && AngleOk(p.pitch) && p.health < 0x100 && p.armor < 0x100
         && Fits(old(bytes), PlayerStateBytes(weapon, QuantizePlayer(p))))
      ensures o.Pass? ==> bytes + rest == old(bytes) + (PlayerStateBytes(weapon, QuantizePlayer(p)) + rest)
    {
      hide Low8, Low16, Degrees128, InputMask, AngleOk;
      ghost var t6 := Low16(InputMask(p.input));
      ghost var t5 := Low16(weapon) + t6;
      ghost var t4 := Low8(Bit(p.alive)) + t5;
      ghost var t3 := Low8(p.armor) + t4;
      ghost var t2 := Low8(p.health) + t3;
      ghost var t1 := Low16(Degrees128(p.pitch)) + t2;
      ghost var start := bytes;
      :- Angle(p.yaw, t1);
      :- Angle(p.pitch, t2);
      if p.health >= 0x100 {
        return Fail;
      }
      :- U8(p.health, t3);
      if p.armor >= 0x100 {
        return Fail;
      }
      :- U8(p.armor, t4);
      :- U8(Bit(p.alive), t5);
      :- U16(weapon, t6);
      o := U16(InputMask(p.input));
      Peel(start, PlayerStateBytes(weapon, QuantizePlayer(p)), rest);
    }

    method Lifetime(e: Projectile<Float>, ghost rest: seq<byte>) returns (o: Outcome)
      modifies this
      ensures o.Pass? <==>
        ((e.radius.Some? ==> RadiusOk(e.radius.value)) && e.startTick < 0x1_0000_0000
         && e.endTick < 0x1_0000_0000 && Fits(old(bytes), LifetimeBytes(e)))
      ensures o.Pass? ==> bytes + rest == old(bytes) + (LifetimeBytes(e) + rest)
    {
      hide Low32, RadiusOk;
      if e.radius.Some? && !RadiusOk(e.radius.value) {
        return Fail;
      }
      ghost var t2 := Low32(e.endTick);
      ghost var t1 := Low32(e.startTick) + t2;
      ghost var start := bytes;
      :- Tick(if e.radius.Some? then e.radius.value else RADIUS_ABSENT, t1);
      :- Tick(e.startTick, t2);
      o := Tick(e.endTick);
      Peel(start, LifetimeBytes(e), rest);
    }

    method Player(p: Player<Float>, index: byte, weapon: u16, previous: Vec<int>, ghost rest: seq<byte>)
      returns (o: Outcome, next: Vec<int>)
      requires InWorld(previous)
      modifies this
      ensures InWorld(next)
      ensures o.Pass? <==>
        (PlayerValuesOk(p) && Fits(old(bytes), PlayerRecord(index, weapon, previous, QuantizePlayer(p))))
      ensures o.Pass? ==>
        && bytes + rest == old(bytes) + (PlayerRecord(index, weapon, previous, QuantizePlayer(p)) + rest)
        && next == QuantizeVec(p.position)
    {
      hide Low8, PositionBytes, PlayerStateBytes, VecOk, AngleOk, QuantizeVec, Degrees128, InWorld;
      var q := QuantizePlayer(p);
      ghost var t2 := PlayerStateBytes(weapon, q);
      ghost var t1 := PositionBytes(q.position, previous) + t2;
      ghost var start := bytes;
      next := previous;
      :- U8(index, t1);
      o, next := Position(p.position, previous, t2);
      if o.Fail? {
        return;
      }
      o := State(p, weapon, []);
      assert t2 + [] == t2 && bytes + [] == bytes;
      Peel(start, Low8(index) + t1, rest);
    }

    method Projectile(e: Projectile<Float>, id: u16, kind: u16, owner: u16, previous: Vec<int>, ghost rest: seq<byte>)
      returns (o: Outcome, next: Vec<int>)
      requires InWorld(previous)
      modifies this
      ensures InWorld(next)
      ensures o.Pass? <==>
        (ProjectileValuesOk(e) && Fits(old(bytes), ProjectileRecord(id, kind, owner, previous, QuantizeProjectile(e))))
      ensures o.Pass? ==>
        && bytes + rest == old(bytes) + (ProjectileRecord(id, kind, owner, previous, QuantizeProjectile(e)) + rest)
        && next == QuantizeVec(e.position)
    {
      hide Low8, Low16, PositionBytes, VecOk, RadiusOk, QuantizeVec, InWorld;
      var q := QuantizeProjectile(e);
      assert LifetimeBytes(q) == LifetimeBytes(e);
      assert ProjectileFlags(q) == ProjectileFlags(e);
      hide LifetimeBytes, ProjectileFlags;
      ghost var t5 := LifetimeBytes(e);
      ghost var t4 := PositionBytes(q.position, previous) + t5;
      ghost var t3 := Low8(ProjectileFlags(e)) + t4;
      ghost var t2 := Low16(owner) + t3;
      ghost var t1 := Low16(kind) + t2;
      ghost var start := bytes;
      next := previous;
      :- U16(id, t1);
      :- U16(kind, t2);
      :- U16(owner, t3);
      :- U8(ProjectileFlags(e), t4);
      o, next := Position(e.position, previous, t5);
      if o.Fail? {
        return;
      }
      o := Lifetime(e, []);
      assert t5 + [] == t5 && bytes + [] == bytes;
      Peel(start, Low16(id) + t1, rest);
    }

    method Bomb(b: Bomb<Float>, state: u16, carrier: u16, previous: Vec<int>, ghost rest: seq<byte>)
      returns (o: Outcome, next: Vec<int>)
      requires InWorld(previous)
      modifies this
      ensures InWorld(next)
      ensures o.Pass? <==>
        (VecOk(b.position) && Fits(old(bytes), BombRecord(state, carrier, previous, QuantizeBomb(Some(b)).value)))
      ensures o.Pass? ==>
        && bytes + rest == old(bytes) + (BombRecord(state, carrier, previous, QuantizeBomb(Some(b)).value) + rest)
        && next == QuantizeVec(b.position)
    {
      hide Low8, Low16, PositionBytes, VecOk, QuantizeVec, InWorld;
      ghost var t3 := Low16(carrier);
      ghost var t2 := Low16(state) + t3;
      ghost var t1 := PositionBytes(QuantizeVec(b.position), previous) + t2;
      ghost var start := bytes;
      next := previous;
      :- U8(1, t1);
      o, next := Position(b.position, previous, t2);
      if o.Fail? {
        return;
      }
      :- U16(state, t3);
      o := U16(carrier);
      Peel(start, Low8(1) + t1, rest);
    }

    method FrameHead(tick: u64, players: byte, ghost rest: seq<byte>) returns (o: Outcome)
      modifies this
      ensures o.Pass? <==> tick < 0x1_0000_0000 && Fits(old(bytes), Low32(tick) + Low8(players))
      ensures o.Pass? ==> bytes + rest == old(bytes) + (Low32(tick) + (Low8(players) + rest))
    {
      hide Low8, Low32;
      :- Tick(tick, Low8(players) + rest);
      o := U8(players, rest);
    }

    method IdentityRecord(id: u16, name: u16, team: Text, ghost rest: seq<byte>) returns (o: Outcome)
      modifies this
      ensures o.Pass? <==> |old(bytes)| + 5 <= MAX_BYTES
      ensures o.Pass? ==>
        bytes + rest == old(bytes) + (Low16(id) + (Low16(name) + Low8(if team == TEAM_B then 1 else 0)) + rest)
    {
      hide Low8, Low16;
      ghost var side := Low8(if team == TEAM_B then 1 else 0);
      ghost var start := bytes;
      :- U16(id, Low16(name) + side);
      :- U16(name, side);
      o := U8(if team == TEAM_B then 1 else 0);
      Peel(start, Low16(id) + (Low16(name) + side), rest);
    }
  }

  class Strings {
    var values: seq<Text>
    var indices: map<Text, nat>

    predicate Valid()
      reads this
    {
      && |values| <= MAX_STRINGS
      && (forall t <- indices :: indices[t] < |values| && values[indices[t]] == t)
      && (forall i :: 0 <= i < |values| ==> values[i] in indices && indices[values[i]] == i)
    }

    constructor ()
      ensures Valid() && values == []
    {
      values, indices := [], map[];
    }

    method Add(value: Text) returns (o: Outcome)
      requires Valid()
      modifies this
      ensures Valid()
      ensures Intern(old(values), value) == if o.Pass? then Some(values) else None
      ensures o.Fail? ==> values == old(values)
    {
      if |value| > MAX_TEXT {
        return Fail;
      }
      if value !in indices {
        if |values| >= MAX_STRINGS {
          return Fail;
        }
        indices := indices[value := |values|];
        values := values + [value];
      }
      return Pass;
    }

    method Index(value: Text) returns (index: u16)
      requires Valid() && value in values
      ensures index == IndexOf(values, value) < 0xFFFF
    {
      index := indices[value];
    }

    method OptionalIndexOf(value: Option<Text>) returns (index: u16)
      requires Valid() && OptionalCovered(values, value)
      ensures index == OptionalIndex(values, value)
    {
      if value.None? {
        return 0xFFFF;
      }
      index := Index(value.value);
    }
  }

  /** The tables the first pass fills. */
  class FirstPass {
    const strings: Strings
    var roster: seq<Identity>
    var identities: map<Text, nat>
    var players: nat
    var effects: nat
    var lastTick: Option<u64>

    predicate Valid()
      reads this, strings
    {
      && strings.Valid()
      && (forall id <- identities :: identities[id] < |roster| && roster[identities[id]].id == id)
      && (forall i :: 0 <= i < |roster| ==> roster[i].id in identities && identities[roster[i].id] == i)
    }

    function View(): Scan
      reads this, strings
    {
      Scan(roster, strings.values, players, effects, lastTick)
    }

    constructor ()
      ensures Valid() && fresh(strings) && View() == EMPTY_SCAN
    {
      strings := new Strings();
      roster, identities := [], map[];
      players, effects, lastTick := 0, 0, None;
    }

    /** The roster index of a known player. */
    method Lookup(id: Text) returns (index: nat)
      requires Valid() && id in IdsOf(roster)
      ensures index == RosterIndex(roster, id) < |roster|
    {
      assert roster[RosterIndex(roster, id)].id == id;
      index := identities[id];
    }

    method AddPlayer(seen: set<Text>, p: Player<Float>) returns (o: Outcome)
      requires Valid()
      modifies this, strings
      ensures Valid()
      ensures ScanPlayer(old(View()), seen, p) == if o.Pass? then Some(View()) else None
    {
      if (p.team != TEAM_A && p.team != TEAM_B) || p.id in seen {
        return Fail;
      }
      if p.id in identities {
        var known := roster[identities[p.id]];
        assert p.id in IdsOf(roster) by { assert IdsOf(roster)[identities[p.id]] == p.id; }
        assert known == roster[RosterIndex(roster, p.id)];
        if known.name != p.name || known.team != p.team {
          return Fail;
        }
      } else {
        assert RosterIndex(roster, p.id) == |roster|;
        :- RegisterPlayer(p);
      }
      o := strings.Add(p.weapon);
    }

    method RegisterPlayer(p: Player<Float>) returns (o: Outcome)
      requires Valid() && p.id !in identities
      modifies this, strings
      ensures Valid()
      ensures AddIdentity(old(View()), p) == if o.Pass? then Some(View()) else None
    {
      if |roster| == MAX_ROSTER {
        return Fail;
      }
      :- strings.Add(p.id);
      :- strings.Add(p.name);
      identities := identities[p.id := |roster|];
      roster := roster + [Identity(p.id, p.name, p.team)];
      return Pass;
    }

    method AddPlayers(ps: seq<Player<Float>>) returns (o: Outcome)
      requires Valid()
      modifies this, strings
      ensures Valid()
      ensures ScanPlayers(old(View()), {}, ps) == if o.Pass? then Some(View()) else None
    {
      hide ScanPlayer;
      var unique: set<Text> := {};
      for i := 0 to |ps|
        invariant Valid()
        invariant ScanPlayers(old(View()), {}, ps) == ScanPlayers(View(), unique, ps[i..])
      {
        assert ps[i..][0] == ps[i] && ps[i..][1..] == ps[i + 1..];
        :- AddPlayer(unique, ps[i]);
        unique := unique + {ps[i].id};
      }
      return Pass;
    }

    method AddOptional(t: Option<Text>) returns (o: Outcome)
      requires Valid()
      modifies strings
      ensures Valid()
      ensures InternOptional(old(strings.values), t) == if o.Pass? then Some(strings.values) else None
    {
      if t.None? {
        return Pass;
      }
      o := strings.Add(t.value);
    }

    method AddEffects(es: seq<Projectile<Float>>) returns (o: Outcome)
      requires Valid()
      modifies strings
      ensures Valid()
      ensures ScanEffects(old(strings.values), {}, es) == if o.Pass? then Some(strings.values) else None
    {
      hide Intern;
      var unique: set<Text> := {};
      for i := 0 to |es|
        invariant Valid()
        invariant ScanEffects(old(strings.values), {}, es) == ScanEffects(strings.values, unique, es[i..])
      {
        assert es[i..][0] == es[i] && es[i..][1..] == es[i + 1..];
        if es[i].id in unique || es[i].startTick > es[i].endTick {
          return Fail;
        }
        :- strings.Add(es[i].id);
        :- strings.Add(es[i].kind);
        :- AddOptional(es[i].ownerId);
        unique := unique + {es[i].id};
      }
      return Pass;
    }

    method AddFrame(f: Frame<Float>) returns (o: Outcome)
      requires Valid()
      modifies this, strings
      ensures Valid()
      ensures ScanFrame(old(View()), f) == if o.Pass? then Some(View()) else None
    {
      hide ScanPlayers, ScanEffects, Intern;
      if (lastTick.Some? && f.tick <= lastTick.value) || |f.players| > 64 || |f.projectiles| > 512 {
        return Fail;
      }
      lastTick := Some(f.tick);
      players := players + |f.players|;
      effects := effects + |f.projectiles|;
      if players > MAX_PLAYER_RECORDS || effects > MAX_EFFECT_RECORDS {
        return Fail;
      }
      :- AddPlayers(f.players);
      :- AddEffects(f.projectiles);
      if f.bomb.Some? {
        :- strings.Add(f.bomb.value.state);
        :- AddOptional(f.bomb.value.carrierId);
      }
      return Pass;
    }

    method AddFrames(fs: seq<Frame<Float>>) returns (o: Outcome)
      requires Valid() && View() == EMPTY_SCAN
      modifies this, strings
      ensures Valid()
      ensures ScanFrames(EMPTY_SCAN, fs) == if o.Pass? then Some(View()) else None
    {
      hide ScanFrame;
      for i := 0 to |fs|
        invariant Valid()
        invariant ScanFrames(EMPTY_SCAN, fs) == ScanFrames(View(), fs[i..])
      {
        assert fs[i..][0] == fs[i] && fs[i..][1..] == fs[i + 1..];
        :- AddFrame(fs[i]);
      }
      return Pass;
    }
  }

  /** The second pass: it looks up the tables and appends to the buffer. The predictors are the
      encoder's local variables, handed in and back. */
  class SecondPass {
    const tables: FirstPass
    const writer: Writer

    /** The first pass returned s, and nothing has touched the tables since. */
    predicate TablesAre(s: Scan)
      reads this, tables, tables.strings
    {
      tables.Valid() && tables.View() == s
    }

    constructor (tables: FirstPass, writer: Writer)
      requires tables.Valid()
      ensures this.tables == tables && this.writer == writer
      ensures TablesAre(tables.View())
    {
      this.tables, this.writer := tables, writer;
    }

    method WritePlayer(p: Player<Float>, positions: seq<Vec<int>>, ghost s: Scan, ghost rest: seq<byte>)
      returns (o: Outcome, moved: seq<Vec<int>>)
      requires TablesAre(s) && Consistent(s) && PlayerCovered(s, p)
      requires |positions| == |s.roster| && AllInWorld(positions)
      modifies writer
      ensures |moved| == |s.roster| && AllInWorld(moved)
      ensures o.Pass? <==>
        (PlayerValuesOk(p) && Writer.Fits(old(writer.bytes), PlayerBytes(s, positions, QuantizePlayer(p))))
      ensures o.Pass? ==>
        && writer.bytes + rest == old(writer.bytes) + (PlayerBytes(s, positions, QuantizePlayer(p)) + rest)
        && moved == MovePlayer(s, positions, QuantizePlayer(p))
    {
      hide PlayerRecord, PlayerValuesOk, InWorld, QuantizePlayer, QuantizeVec;
      var index := tables.Lookup(p.id);
      var weapon := tables.strings.Index(p.weapon);
      QuantizedFields(p);
      hide Consistent, PlayerCovered, FirstPass.Valid, Strings.Valid;
      var next;
      o, next := writer.Player(p, index, weapon, positions[index], rest);
      moved := positions[index := next];
    }

    lemma QuantizedFields(p: Player<Float>)
      ensures var q := QuantizePlayer(p); q.id == p.id && q.weapon == p.weapon && q.position == QuantizeVec(p.position)
    {
    }

    method WritePlayers(ps: seq<Player<Float>>, positions: seq<Vec<int>>, ghost s: Scan, ghost rest: seq<byte>)
      returns (o: Outcome, moved: seq<Vec<int>>)
      requires TablesAre(s) && Consistent(s) && |writer.bytes| <= MAX_BYTES
      requires forall i :: 0 <= i < |ps| ==> PlayerCovered(s, ps[i])
      requires |positions| == |s.roster| && AllInWorld(positions)
      modifies writer
      ensures |moved| == |s.roster| && AllInWorld(moved)
      ensures o.Pass? <==>
        ((forall i :: 0 <= i < |ps| ==> PlayerValuesOk(ps[i]))
         && Writer.Fits(old(writer.bytes), PlayersBytes(s, positions, Map(QuantizePlayer, ps))))
      ensures o.Pass? ==>
        && writer.bytes + rest == old(writer.bytes) + (PlayersBytes(s, positions, Map(QuantizePlayer, ps)) + rest)
        && moved == MovePlayers(s, positions, Map(QuantizePlayer, ps))
    {
      hide PlayerBytes, MovePlayer, PlayerValuesOk, Consistent, PlayerCovered, AllInWorld, TablesAre;
      ghost var q := Map(QuantizePlayer, ps);
      moved := positions;
      for i := 0 to |ps|
        invariant |moved| == |s.roster| && AllInWorld(moved) && |writer.bytes| <= MAX_BYTES
        invariant forall k :: 0 <= k < i ==> PlayerValuesOk(ps[k])
        invariant writer.bytes + PlayersBytes(s, moved, q[i..]) == old(writer.bytes) + PlayersBytes(s, positions, q)
        invariant MovePlayers(s, moved, q[i..]) == MovePlayers(s, positions, q)
      {
        assert q[i..][0] == QuantizePlayer(ps[i]) && q[i..][1..] == q[i + 1..];
        ghost var tail := PlayersBytes(s, MovePlayer(s, moved, q[i]), q[i + 1..]);
        assert PlayersBytes(s, moved, q[i..]) == PlayerBytes(s, moved, q[i]) + tail;
        o, moved := WritePlayer(ps[i], moved, s, tail);
        if o.Fail? {
          return;
        }
      }
      Peel(old(writer.bytes), PlayersBytes(s, positions, q), rest);
      o := Pass;
    }

    method WriteProjectile(e: Projectile<Float>, positions: map<nat, Vec<int>>, ghost s: Scan, ghost rest: seq<byte>)
      returns (o: Outcome, moved: map<nat, Vec<int>>)
      requires TablesAre(s) && EffectCovered(s.strings, e) && MapInWorld(positions)
      modifies writer
      ensures MapInWorld(moved)
      ensures o.Pass? <==>
        (ProjectileValuesOk(e)
         && Writer.Fits(old(writer.bytes), ProjectileBytes(s.strings, positions, QuantizeProjectile(e))))
      ensures o.Pass? ==>
        && writer.bytes + rest
           == old(writer.bytes) + (ProjectileBytes(s.strings, positions, QuantizeProjectile(e)) + rest)
        && moved == MoveProjectile(s.strings, positions, QuantizeProjectile(e))
    {
      hide ProjectileRecord, ProjectileValuesOk, QuantizeVec, InWorld;
      var id := tables.strings.Index(e.id);
      var kind := tables.strings.Index(e.kind);
      var owner := tables.strings.OptionalIndexOf(e.ownerId);
      hide FirstPass.Valid, Strings.Valid, EffectCovered;
      LookupInWorld(positions, id);
      var next;
      o, next := writer.Projectile(e, id, kind, owner, ReplayWire.Lookup(positions, id), rest);
      moved := positions[id := next];
    }

    lemma LookupInWorld(seen: map<nat, Vec<int>>, key: nat)
      requires MapInWorld(seen)
      ensures InWorld(ReplayWire.Lookup(seen, key))
    {
    }

    method WriteProjectiles(es: seq<Projectile<Float>>, positions: map<nat, Vec<int>>, ghost s: Scan, ghost rest: seq<byte>)
      returns (o: Outcome, moved: map<nat, Vec<int>>)
      requires TablesAre(s) && MapInWorld(positions) && |writer.bytes| <= MAX_BYTES
      requires forall i :: 0 <= i < |es| ==> EffectCovered(s.strings, es[i])
      modifies writer
      ensures MapInWorld(moved)
      ensures o.Pass? <==>
        ((forall i :: 0 <= i < |es| ==> ProjectileValuesOk(es[i]))
         && Writer.Fits(old(writer.bytes), ProjectilesBytes(s.strings, positions, Map(QuantizeProjectile, es))))
      ensures o.Pass? ==>
        && writer.bytes + rest
           == old(writer.bytes) + (ProjectilesBytes(s.strings, positions, Map(QuantizeProjectile, es)) + rest)
        && moved == MoveProjectiles(s.strings, positions, Map(QuantizeProjectile, es))
    {
      hide ProjectileBytes, MoveProjectile, ProjectileValuesOk, EffectCovered, MapInWorld, TablesAre;
      ghost var q := Map(QuantizeProjectile, es);
      moved := positions;
      for i := 0 to |es|
        invariant MapInWorld(moved) && |writer.bytes| <= MAX_BYTES
        invariant forall k :: 0 <= k < i ==> ProjectileValuesOk(es[k])
        invariant writer.bytes + ProjectilesBytes(s.strings, moved, q[i..])
               == old(writer.bytes) + ProjectilesBytes(s.strings, positions, q)
        invariant MoveProjectiles(s.strings, moved, q[i..]) == MoveProjectiles(s.strings, positions, q)
      {
        assert q[i..][0] == QuantizeProjectile(es[i]) && q[i..][1..] == q[i + 1..];
        ghost var tail := ProjectilesBytes(s.strings, MoveProjectile(s.strings, moved, q[i]), q[i + 1..]);
        assert ProjectilesBytes(s.strings, moved, q[i..]) == ProjectileBytes(s.strings, moved, q[i]) + tail;
        o, moved := WriteProjectile(es[i], moved, s, tail);
        if o.Fail? {
          return;
        }
      }
      Peel(old(writer.bytes), ProjectilesBytes(s.strings, positions, q), rest);
      o := Pass;
    }

    method WriteBomb(bomb: Option<Bomb<Float>>, position: Vec<int>, ghost s: Scan, ghost rest: seq<byte>)
      returns (o: Outcome, moved: Vec<int>)
      requires TablesAre(s) && BombCovered(s.strings, bomb) && InWorld(position)
      modifies writer
      ensures InWorld(moved)
      ensures o.Pass? <==>
        ((bomb.Some? ==> VecOk(bomb.value.position))
         && Writer.Fits(old(writer.bytes), BombBytes(s.strings, position, QuantizeBomb(bomb))))
      ensures o.Pass? ==>
        && writer.bytes + rest == old(writer.bytes) + (BombBytes(s.strings, position, QuantizeBomb(bomb)) + rest)
        && moved == if bomb.Some? then QuantizeVec(bomb.value.position) else position
    {
      hide BombRecord, VecOk, QuantizeVec, InWorld;
      moved := position;
      if bomb.None? {
        o := writer.U8(0, rest);
        return;
      }
      var b := bomb.value;
      var state := tables.strings.Index(b.state);
      var carrier := tables.strings.OptionalIndexOf(b.carrierId);
      hide FirstPass.Valid, Strings.Valid;
      o, moved := writer.Bomb(b, state, carrier, position, rest);
    }

    method WriteEffects(f: Frame<Float>, seen: Predictors, ghost s: Scan, ghost rest: seq<byte>)
      returns (o: Outcome, moved: Predictors)
      requires TablesAre(s) && PredictorsOk(s, seen) && |writer.bytes| <= MAX_BYTES
      requires |f.projectiles| <= 512 && BombCovered(s.strings, f.bomb)
      requires forall i :: 0 <= i < |f.projectiles| ==> EffectCovered(s.strings, f.projectiles[i])
      modifies writer
      ensures PredictorsOk(s, moved)
      ensures o.Pass? <==>
        ((forall i :: 0 <= i < |f.projectiles| ==> ProjectileValuesOk(f.projectiles[i]))
         && (f.bomb.Some? ==> VecOk(f.bomb.value.position))
         && Writer.Fits(old(writer.bytes), EffectsBytes(s.strings, seen, QuantizeFrame(f))))
      ensures o.Pass? ==>
        && writer.bytes + rest == old(writer.bytes) + (EffectsBytes(s.strings, seen, QuantizeFrame(f)) + rest)
        && moved == MoveFrame(s, seen, QuantizeFrame(f)).(players := seen.players)
    {
      hide Low16, ProjectilesBytes, BombBytes, MovePlayers, MoveProjectiles, ProjectileValuesOk, VecOk;
      hide TablesAre, MapInWorld, AllInWorld, InWorld, EffectCovered, BombCovered, QuantizeVec;
      ghost var q := QuantizeFrame(f);
      ghost var t2 := BombBytes(s.strings, seen.bomb, q.bomb);
      ghost var t1 := ProjectilesBytes(s.strings, seen.projectiles, q.projectiles) + t2;
      moved := seen;
      Peel(Low16(|f.projectiles|), t1, rest);
      Peel(ProjectilesBytes(s.strings, seen.projectiles, q.projectiles), t2, rest);
      :- writer.U16(|f.projectiles|, t1 + rest);
      var projectiles, bomb;
      o, projectiles := WriteProjectiles(f.projectiles, seen.projectiles, s, t2 + rest);
      if o.Fail? {
        return;
      }
      o, bomb := WriteBomb(f.bomb, seen.bomb, s, rest);
      moved := Predictors(seen.players, projectiles, bomb);
    }

    method WriteFramePlayers(f: Frame<Float>, positions: seq<Vec<int>>, ghost s: Scan, ghost rest: seq<byte>)
      returns (o: Outcome, moved: seq<Vec<int>>)
      requires TablesAre(s) && Consistent(s) && |writer.bytes| <= MAX_BYTES && |f.players| <= 64
      requires forall i :: 0 <= i < |f.players| ==> PlayerCovered(s, f.players[i])
      requires |positions| == |s.roster| && AllInWorld(positions)
      modifies writer
      ensures |moved| == |s.roster| && AllInWorld(moved)
      ensures o.Pass? <==>
        (f.tick < 0x1_0000_0000 && (forall i :: 0 <= i < |f.players| ==> PlayerValuesOk(f.players[i]))
         && Writer.Fits(old(writer.bytes),
                        FramePlayersBytes(f.tick, |f.players|, PlayersBytes(s, positions, QuantizeFrame(f).players))))
      ensures o.Pass? ==>
        && writer.bytes + rest == old(writer.bytes)
             + FramePlayersBytes(f.tick, |f.players|, PlayersBytes(s, positions, QuantizeFrame(f).players) + rest)
        && moved == MovePlayers(s, positions, QuantizeFrame(f).players)
    {
      hide Low8, Low32, PlayersBytes, MovePlayers, PlayerValuesOk, Consistent, PlayerCovered, TablesAre, AllInWorld;
      moved := positions;
      :- writer.FrameHead(f.tick, |f.players|, PlayersBytes(s, positions, QuantizeFrame(f).players) + rest);
      o, moved := WritePlayers(f.players, positions, s, rest);
    }

    method WriteFrame(f: Frame<Float>, seen: Predictors, ghost s: Scan, ghost rest: seq<byte>)
      returns (o: Outcome, moved: Predictors)
      requires TablesAre(s) && Consistent(s) && FrameCovered(s, f) && PredictorsOk(s, seen)
      requires |writer.bytes| <= MAX_BYTES
      modifies writer
      ensures PredictorsOk(s, moved)
      ensures o.Pass? <==>
        (FrameValuesOk(f) && Writer.Fits(old(writer.bytes), FrameBytes(s, seen, QuantizeFrame(f))))
      ensures o.Pass? ==>
        && writer.bytes + rest == old(writer.bytes) + (FrameBytes(s, seen, QuantizeFrame(f)) + rest)
        && moved == MoveFrame(s, seen, QuantizeFrame(f))
    {
      hide FrameCovered, FrameValuesOk, PlayerValuesOk, ProjectileValuesOk, VecOk, FrameBytes, FramePlayersBytes;
      hide PlayersBytes, EffectsBytes, MovePlayers, MoveFrame, Consistent;
      hide TablesAre, AllInWorld, MapInWorld, InWorld, PlayerCovered, EffectCovered, BombCovered;
      RecordsCovered(s, f);
      ValuesOkByIndex(f);
      ghost var q := QuantizeFrame(f);
      FrameInTwoParts(s, seen, q, rest);
      moved := seen;
      var players;
      o, players := WriteFramePlayers(f, seen.players, s, EffectsBytes(s.strings, seen, q) + rest);
      moved := seen.(players := players);
      if o.Fail? {
        return;
      }
      MovedPlayersThenRest(s, seen, players, q);
      o, moved := WriteEffects(f, moved, s, rest);
    }

    lemma MovedPlayersThenRest(s: Scan, seen: Predictors, players: seq<Vec<int>>, f: Frame<int>)
      requires players == MovePlayers(s, seen.players, f.players)
      ensures MoveFrame(s, seen.(players := players), f).(players := players) == MoveFrame(s, seen, f)
      ensures EffectsBytes(s.strings, seen.(players := players), f) == EffectsBytes(s.strings, seen, f)
    {
    }

    method WriteFrames(fs: seq<Frame<Float>>, ghost s: Scan) returns (o: Outcome)
      requires TablesAre(s) && Consistent(s) && |writer.bytes| <= MAX_BYTES
      requires forall i :: 0 <= i < |fs| ==> FrameCovered(s, fs[i])
      modifies writer
      ensures o.Pass? <==>
        (ValuesOk(fs) && Writer.Fits(old(writer.bytes), FramesBytes(s, Initial(|s.roster|), Map(QuantizeFrame, fs))))
      ensures o.Pass? ==>
        writer.bytes == old(writer.bytes) + FramesBytes(s, Initial(|s.roster|), Map(QuantizeFrame, fs))
    {
      hide FrameBytes, MoveFrame, FrameValuesOk, FrameCovered, Consistent, PredictorsOk;
      ghost var q := Map(QuantizeFrame, fs);
      var seen := Initial(|tables.roster|);
      InitialOk(s);
      for i := 0 to |fs|
        invariant PredictorsOk(s, seen) && |writer.bytes| <= MAX_BYTES
        invariant forall k :: 0 <= k < i ==> FrameValuesOk(fs[k])
        invariant writer.bytes + FramesBytes(s, seen, q[i..])
               == old(writer.bytes) + FramesBytes(s, Initial(|s.roster|), q)
      {
        assert q[i..][0] == QuantizeFrame(fs[i]) && q[i..][1..] == q[i + 1..];
        ghost var tail := FramesBytes(s, MoveFrame(s, seen, q[i]), q[i + 1..]);
        assert FramesBytes(s, seen, q[i..]) == FrameBytes(s, seen, q[i]) + tail;
        o, seen := WriteFrame(fs[i], seen, s, tail);
        if o.Fail? {
          return;
        }
      }
      assert writer.bytes + [] == writer.bytes;
      o := Pass;
    }

    method WriteTables(ghost s: Scan, ghost rest: seq<byte>) returns (o: Outcome)
      requires TablesAre(s) && Consistent(s) && |writer.bytes| <= MAX_BYTES
      modifies writer
      ensures o.Pass? <==> Writer.Fits(old(writer.bytes), TablesBytes(s))
      ensures o.Pass? ==> writer.bytes + rest == old(writer.bytes) + (TablesBytes(s) + rest)
    {
      hide Low16, TextsBytes, RosterBytes;
      var strings := tables.strings.values;
      assert forall i :: 0 <= i < |strings| ==> strings[i] in s.strings;
      assert |s.roster| <= MAX_ROSTER && |s.strings| <= MAX_STRINGS;
      RosterCovered(s);
      hide Consistent, FirstPass.Valid, Strings.Valid, IdentityCovered;
      ghost var t3 := RosterBytes(s.strings, s.roster);
      ghost var t2 := Low16(|s.roster|) + t3;
      ghost var t1 := TextsBytes(s.strings) + t2;
      ghost var start := writer.bytes;
      :- writer.U16(|strings|, t1);
      :- WriteTexts(strings, t2);
      :- writer.U16(|tables.roster|, t3);
      o := WriteRoster(tables.roster, s, []);
      assert t3 + [] == t3 && writer.bytes + [] == writer.bytes;
      Peel(start, Low16(|strings|) + t1, rest);
    }

    method WriteTexts(ts: seq<Text>, ghost rest: seq<byte>) returns (o: Outcome)
      requires forall i :: 0 <= i < |ts| ==> |ts[i]| <= MAX_TEXT
      requires |writer.bytes| <= MAX_BYTES
      modifies writer
      ensures o.Pass? <==> Writer.Fits(old(writer.bytes), TextsBytes(ts))
      ensures o.Pass? ==> writer.bytes + rest == old(writer.bytes) + (TextsBytes(ts) + rest)
    {
      hide TextBytes;
      for i := 0 to |ts|
        invariant |writer.bytes| <= MAX_BYTES
        invariant writer.bytes + TextsBytes(ts[i..]) == old(writer.bytes) + TextsBytes(ts)
      {
        assert ts[i..][0] == ts[i] && ts[i..][1..] == ts[i + 1..];
        assert TextsBytes(ts[i..]) == TextBytes(ts[i]) + TextsBytes(ts[i + 1..]);
        :- writer.WriteText(ts[i], TextsBytes(ts[i + 1..]));
      }
      Peel(old(writer.bytes), TextsBytes(ts), rest);
      return Pass;
    }

    method WriteIdentity(i: Identity, ghost s: Scan, ghost rest: seq<byte>) returns (o: Outcome)
      requires TablesAre(s) && |s.strings| <= MAX_STRINGS && IdentityCovered(s.strings, i)
      modifies writer
      ensures o.Pass? <==> Writer.Fits(old(writer.bytes), IdentityBytes(s.strings, i))
      ensures o.Pass? ==> writer.bytes + rest == old(writer.bytes) + (IdentityBytes(s.strings, i) + rest)
    {
      hide Low8, Low16;
      var id := tables.strings.Index(i.id);
      var name := tables.strings.Index(i.name);
      o := writer.IdentityRecord(id, name, i.team, rest);
    }

    method WriteRoster(roster: seq<Identity>, ghost s: Scan, ghost rest: seq<byte>) returns (o: Outcome)
      requires TablesAre(s) && |s.strings| <= MAX_STRINGS && |writer.bytes| <= MAX_BYTES
      requires forall i :: 0 <= i < |roster| ==> IdentityCovered(s.strings, roster[i])
      modifies writer
      ensures o.Pass? <==> Writer.Fits(old(writer.bytes), RosterBytes(s.strings, roster))
      ensures o.Pass? ==> writer.bytes + rest == old(writer.bytes) + (RosterBytes(s.strings, roster) + rest)
    {
      hide IdentityBytes, IdentityCovered, TablesAre;
      for i := 0 to |roster|
        invariant |writer.bytes| <= MAX_BYTES
        invariant writer.bytes + RosterBytes(s.strings, roster[i..]) == old(writer.bytes) + RosterBytes(s.strings, roster)
      {
        assert roster[i..][0] == roster[i] && roster[i..][1..] == roster[i + 1..];
        ghost var tail := RosterBytes(s.strings, roster[i + 1..]);
        assert RosterBytes(s.strings, roster[i..]) == IdentityBytes(s.strings, roster[i]) + tail;
        o := WriteIdentity(roster[i], s, tail);
        if o.Fail? {
          return;
        }
      }
      Peel(old(writer.bytes), RosterBytes(s.strings, roster), rest);
      o := Pass;
    }
  }

  /** The first part of a frame, up to its player records, then rest. */
  ghost function FramePlayersBytes(tick: int, count: int, rest: seq<byte>): seq<byte> {
    Low32(tick) + (Low8(count) + rest)
  }

  lemma {:induction false} FrameInTwoParts(s: Scan, seen: Predictors, f: Frame<int>, rest: seq<byte>)
    ensures var players := PlayersBytes(s, seen.players, f.players);
            var effects := EffectsBytes(s.strings, seen, f);
            && FramePlayersBytes(f.tick, |f.players|, players + (effects + rest)) == FrameBytes(s, seen, f) + rest
            && |FramePlayersBytes(f.tick, |f.players|, players)| + |effects| == |FrameBytes(s, seen, f)|
            && |FramePlayersBytes(f.tick, |f.players|, players + (effects + rest))| ==
               |FramePlayersBytes(f.tick, |f.players|, players)| + |effects| + |rest|
  {
    hide PlayersBytes, EffectsBytes, Low32, Low8;
    var players, effects := PlayersBytes(s, seen.players, f.players), EffectsBytes(s.strings, seen, f);
    Peel(Low32(f.tick), Low8(|f.players|) + (players + effects), rest);
    Peel(Low8(|f.players|), players + effects, rest);
    Peel(players, effects, rest);
  }

  lemma {:induction false} RosterCovered(s: Scan)
    requires Consistent(s)
    ensures |s.strings| <= MAX_STRINGS
    ensures forall i :: 0 <= i < |s.roster| ==> IdentityCovered(s.strings, s.roster[i])
  {
    assert forall i :: 0 <= i < |s.roster| ==> s.roster[i] in s.roster;
  }

  lemma {:induction false} ValuesOkByIndex(f: Frame<Float>)
    ensures FrameValuesOk(f) <==>
      (f.tick < 0x1_0000_0000
       && (forall i :: 0 <= i < |f.players| ==> PlayerValuesOk(f.players[i]))
       && (forall i :: 0 <= i < |f.projectiles| ==> ProjectileValuesOk(f.projectiles[i]))
       && (f.bomb.Some? ==> VecOk(f.bomb.value.position)))
  {
  }

  lemma {:induction false} RecordsCovered<C>(s: Scan, f: Frame<C>)
    requires FrameCovered(s, f)
    ensures |f.players| <= 64 && |f.projectiles| <= 512 && BombCovered(s.strings, f.bomb)
    ensures forall i :: 0 <= i < |f.players| ==> PlayerCovered(s, f.players[i])
    ensures forall i :: 0 <= i < |f.projectiles| ==> EffectCovered(s.strings, f.projectiles[i])
  {
    forall i | 0 <= i < |f.players|
      ensures PlayerCovered(s, f.players[i])
    {
      PlayerIsCovered(s, {}, f.players, i);
    }
    forall i | 0 <= i < |f.projectiles|
      ensures EffectCovered(s.strings, f.projectiles[i])
    {
      EffectIsCovered(s.strings, {}, f.projectiles, i);
    }
  }

  lemma {:induction false} ScanFramesCovered(fs: seq<Frame<Float>>, s: Scan)
    requires ScanFrames(EMPTY_SCAN, fs) == Some(s)
    ensures Consistent(s)
    ensures forall i :: 0 <= i < |fs| ==> FrameCovered(s, fs[i])
  {
    hide ScanFrames, FrameCovered, FramesCovered;
    ScanFramesKeeps(EMPTY_SCAN, fs, s);
    forall i | 0 <= i < |fs|
      ensures FrameCovered(s, fs[i])
    {
      FrameIsCovered(s, fs, i);
    }
  }

  method WriteBody(pass: SecondPass, p: Payload, ghost s: Scan) returns (o: Outcome)
    requires pass.TablesAre(s) && Consistent(s)
    requires |p.frames| <= MAX_FRAMES && pass.writer.bytes == []
    requires forall i :: 0 <= i < |p.frames| ==> FrameCovered(s, p.frames[i])
    modifies pass.writer
    ensures o.Pass? <==>
      (|p.cacheJson| <= MAX_JSON && |p.fidelityJson| <= MAX_JSON && ValuesOk(p.frames) && |Body(p, s)| <= MAX_BYTES)
    ensures o.Pass? ==> pass.writer.bytes == Body(p, s)
  {
    hide Low32, JsonBytes, TablesBytes, FramesBytes, FrameCovered, ValuesOk, Initial, Consistent;
    hide SecondPass.TablesAre;
    var writer := pass.writer;
    ghost var t3 := FramesBytes(s, Initial(|s.roster|), Quantized(p));
    ghost var t2 := Low32(|p.frames|) + t3;
    ghost var t1 := TablesBytes(s) + t2;
    :- writer.Json(p.cacheJson, JsonBytes(p.fidelityJson) + t1);
    :- writer.Json(p.fidelityJson, t1);
    :- pass.WriteTables(s, t2);
    :- writer.Tick(|p.frames|, t3);
    o := pass.WriteFrames(p.frames, s);
    assert [] + Body(p, s) == Body(p, s);
  }

  /** A body comes back exactly for the accepted payloads, and it is the one the round trip
      of ReplayExactness.RecoversExactly is about. The first pass is returned for reference. */
  method EncodeBinaryReplay(p: Payload) returns (r: Option<seq<byte>>, ghost s: Scan)
    ensures r.Some? <==> Accepts(p, s)
    ensures r.Some? ==> r.value == Body(p, s)
    ensures r.None? ==> forall t: Scan :: !Accepts(p, t)
  {
    hide ScanFrames, ValuesOk, Body, Consistent, FrameCovered, Initial;
    s := EMPTY_SCAN;
    var fidelity := p.fidelity;
    if |p.frames| > MAX_FRAMES || fidelity.frameCount != |p.frames| || fidelity.tickRate.NonFinite?
       || fidelity.tickRate.value < 8.0 || fidelity.tickRate.value > 1024.0
       || fidelity.positionedEventCount > MAX_EFFECT_RECORDS
       || FirstTick(p.frames) != fidelity.startTick || LastFrameTick(p.frames) != fidelity.endTick
    {
      return None, s;
    }
    var tables := new FirstPass();
    var scanned := tables.AddFrames(p.frames);
    if scanned.Fail? {
      return None, s;
    }
    s := tables.View();
    ScanFramesCovered(p.frames, s);
    var writer := new Writer();
    var pass := new SecondPass(tables, writer);
    var o := WriteBody(pass, p, s);
    r := if o.Pass? then Some(writer.bytes) else None;
  }
}

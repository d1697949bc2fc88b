/** What the viewer sees, set against what was recorded. No grid of steps comes between the two. */
module ReplayFidelity {
  import opened Bytes
  import opened Results
  import opened ReplayPayloads
  import opened ReplayTables
  import opened ReplayWire
  import opened ReplayRoundTrip
  import opened ReplayCodec
  import opened ReplayExactness

  /** A coordinate shown in sixteenths of a unit. */
  predicate NearCoordinate(c: Float, shown: int) {
    c.Finite? && -1.0 / 32.0 <= shown as real / 16.0 - c.value <= 1.0 / 32.0
  }

  predicate NearPosition(v: Vec<Float>, shown: Vec<int>) {
    NearCoordinate(v.x, shown.x) && NearCoordinate(v.y, shown.y) && NearCoordinate(v.z, shown.z)
  }

  predicate OffByTurns(a: real, shown: int, turns: int) {
    -1.0 / 256.0 <= shown as real / 128.0 - (a - 360.0 * turns as real) <= 1.0 / 256.0
  }

  /** An angle shown in 1/128 of a degree, between -180 and 180. */
  ghost predicate NearAngle(a: Float, shown: int) {
    a.Finite? && -180.0 <= shown as real / 128.0 <= 180.0 && exists turns :: OffByTurns(a.value, shown, turns)
  }

  ghost predicate SamePlayer(p: Player<Float>, q: Player<int>) {
    && q.id == p.id && q.name == p.name && q.team == p.team && q.weapon == p.weapon
    && NearPosition(p.position, q.position) && NearAngle(p.yaw, q.yaw) && NearAngle(p.pitch, q.pitch)
    && q.health == p.health && q.armor == p.armor && q.alive == p.alive && q.input == p.input
  }

  predicate SameProjectile(e: Projectile<Float>, g: Projectile<int>) {
    && g.id == e.id && g.kind == e.kind && g.ownerId == e.ownerId && g.effect == e.effect
    && g.startTick == e.startTick && g.endTick == e.endTick && NearPosition(e.position, g.position)
    && g.active == e.active && g.masksVision == e.masksVision && g.radius == e.radius
  }

  predicate SameBomb(b: Option<Bomb<Float>>, c: Option<Bomb<int>>) {
    && (b.Some? <==> c.Some?)
    && (b.Some? ==> c.value.state == b.value.state && c.value.carrierId == b.value.carrierId
                    && NearPosition(b.value.position, c.value.position))
  }

  ghost predicate SameFrame(f: Frame<Float>, g: Frame<int>) {
    && g.tick == f.tick && |g.players| == |f.players| && |g.projectiles| == |f.projectiles|
    && (forall i :: 0 <= i < |f.players| ==> SamePlayer(f.players[i], g.players[i]))
    && (forall i :: 0 <= i < |f.projectiles| ==> SameProjectile(f.projectiles[i], g.projectiles[i]))
    && SameBomb(f.bomb, g.bomb)
  }

  ghost predicate SameRecording(p: Payload, r: Replay) {
    && r.cacheJson == p.cacheJson && r.fidelityJson == p.fidelityJson && |r.frames| == |p.frames|
    && forall i :: 0 <= i < |p.frames| ==> SameFrame(p.frames[i], r.frames[i])
  }

  lemma PositionIsNear(v: Vec<Float>)
    requires VecOk(v)
    ensures NearPosition(v, QuantizeVec(v))
  {
    CoordinateError(v.x);
    CoordinateError(v.y);
    CoordinateError(v.z);
  }

  lemma AngleIsNear(a: Float)
    requires AngleOk(a)
    ensures NearAngle(a, Degrees128(a))
  {
    var turns := AngleError(a);
    assert OffByTurns(a.value, Degrees128(a), turns);
  }

  lemma PlayerIsSame(p: Player<Float>)
    requires PlayerValuesOk(p)
    ensures SamePlayer(p, QuantizePlayer(p))
  {
    hide NearPosition, NearAngle, QuantizeVec, Degrees128;
    PositionIsNear(p.position);
    AngleIsNear(p.yaw);
    AngleIsNear(p.pitch);
  }

  lemma ProjectileIsSame(e: Projectile<Float>)
    requires ProjectileValuesOk(e)
    ensures SameProjectile(e, QuantizeProjectile(e))
  {
    PositionIsNear(e.position);
  }

  lemma FrameIsSame(f: Frame<Float>)
    requires FrameValuesOk(f)
    ensures SameFrame(f, QuantizeFrame(f))
  {
    hide SamePlayer, SameProjectile;
    forall i | 0 <= i < |f.players|
      ensures SamePlayer(f.players[i], QuantizeFrame(f).players[i])
    {
      PlayerIsSame(f.players[i]);
    }
    forall i | 0 <= i < |f.projectiles|
      ensures SameProjectile(f.projectiles[i], QuantizeFrame(f).projectiles[i])
    {
      ProjectileIsSame(f.projectiles[i]);
    }
    if f.bomb.Some? {
      PositionIsNear(f.bomb.value.position);
    }
  }

  /** If the decoded frame shows the texts that were recorded, decoding has changed none of them. */
  lemma SameFrameIsUndisturbed(f: Frame<Float>)
    requires SameFrame(f, DecodedFrame(BROWSER, QuantizeFrame(f)))
    ensures DecodedFrame(BROWSER, QuantizeFrame(f)) == QuantizeFrame(f)
  {
    hide NearPosition, NearAngle, QuantizeVec, Degrees128, BROWSER;
    var q := QuantizeFrame(f);
    var g := DecodedFrame(BROWSER, q);
    forall i | 0 <= i < |q.players|
      ensures g.players[i] == q.players[i]
    {
      assert SamePlayer(f.players[i], g.players[i]);
      assert g.players[i] == DecodedPlayer(BROWSER, q.players[i]);
    }
    forall i | 0 <= i < |q.projectiles|
      ensures g.projectiles[i] == q.projectiles[i]
    {
      assert SameProjectile(f.projectiles[i], g.projectiles[i]);
      assert g.projectiles[i] == DecodedProjectile(BROWSER, q.projectiles[i]);
    }
    assert g.players == q.players && g.projectiles == q.projectiles && g.bomb == q.bomb;
  }

  /** The viewer sees the recording exactly if no text begins with a byte-order mark, no player id is
      empty, and the browser can represent the size in the cache metadata. */
  lemma ViewerSeesTheRecording(p: Payload, s: Scan, json: JsonReader)
    requires Accepts(p, s) && ReadsMetadata(json, p)
    ensures var seen := Decode(BROWSER, Body(p, s), json);
            seen.Some? && SameRecording(p, seen.value) <==>
              p.cacheBytes <= MAX_SAFE_INTEGER && forall i :: 0 <= i < |p.frames| ==> FrameClean(p.frames[i])
  {
    hide Decode, Body, HeaderOk, FrameClean, SameFrame, TablesReadable, ScanFrames, DecodedFrame, QuantizeFrame;
    RecoversExactly(p, s, json);
    DecodeOfBody(BROWSER, p, s, json);
    forall i | 0 <= i < |p.frames|
      ensures SameFrame(p.frames[i], Quantized(p)[i])
    {
      FrameIsSame(p.frames[i]);
    }
    var seen := Decode(BROWSER, Body(p, s), json);
    if seen.Some? && SameRecording(p, seen.value) {
      forall i | 0 <= i < |p.frames|
        ensures seen.value.frames[i] == Quantized(p)[i]
      {
        assert SameFrame(p.frames[i], seen.value.frames[i]);
        SameFrameIsUndisturbed(p.frames[i]);
      }
      assert seen.value.frames == Quantized(p);
    }
  }
}

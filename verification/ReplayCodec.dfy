/** The whole-replay result: exactly which payloads the encoder sends, and exactly what the
    web client reads back. */
module ReplayCodec {
  import opened Bytes
  import opened Results
  import opened ReplayPayloads
  import opened ReplayTables
  import opened ReplayWire
  import opened ReplayRoundTrip
  import opened Sorting

  const MAX_BYTES := 128 * 1024 * 1024

  function FirstTick(fs: seq<Frame<Float>>): u64 {
    if fs == [] then 0 else fs[0].tick
  }

  function LastFrameTick(fs: seq<Frame<Float>>): u64 {
    if fs == [] then 0 else fs[|fs| - 1].tick
  }

  predicate HeaderOk(p: Payload) {
    && |p.frames| <= MAX_FRAMES
    && p.fidelity.frameCount == |p.frames|
    && p.fidelity.tickRate.Finite? && 8.0 <= p.fidelity.tickRate.value <= 1024.0
    && p.fidelity.positionedEventCount <= MAX_EFFECT_RECORDS
    && FirstTick(p.frames) == p.fidelity.startTick
    && LastFrameTick(p.frames) == p.fidelity.endTick
  }

  predicate ValuesOk(fs: seq<Frame<Float>>) {
    forall i :: 0 <= i < |fs| ==> FrameValuesOk(fs[i])
  }

  /** The payloads the encoder accepts, s being what its first pass collects. */
  predicate Accepts(p: Payload, s: Scan) {
    && HeaderOk(p)
    && ScanFrames(EMPTY_SCAN, p.frames) == Some(s)
    && |p.cacheJson| <= MAX_JSON && |p.fidelityJson| <= MAX_JSON
    && ValuesOk(p.frames)
    && |Body(p, s)| <= MAX_BYTES
  }

  function Quantized(p: Payload): seq<Frame<int>> {
    Map(QuantizeFrame, p.frames)
  }

  /** The string table stays duplicate-free after decoding, and no decoded player id is empty. */
  predicate TablesReadable(d: Reading, s: Scan) {
    Distinct(Map(d.decode, s.strings)) && IdsReadable(d, s.roster)
  }

  // --- quantization keeps what the first pass established -----------------------

  lemma {:induction false} QuantizedPlayersCovered(s: Scan, ids: set<Text>, ps: seq<Player<Float>>)
    requires PlayersCovered(s, ids, ps)
    ensures PlayersCovered(s, ids, Map(QuantizePlayer, ps))
    decreases |ps|
  {
    if ps != [] {
      QuantizedPlayersCovered(s, ids + {ps[0].id}, ps[1..]);
      assert Map(QuantizePlayer, ps)[1..] == Map(QuantizePlayer, ps[1..]);
      assert PlayerCovered(s, ps[0]);
    }
  }

  lemma {:induction false} QuantizedEffectsCovered(strings: seq<Text>, ids: set<Text>, es: seq<Projectile<Float>>)
    requires EffectsCovered(strings, ids, es)
    ensures EffectsCovered(strings, ids, Map(QuantizeProjectile, es))
    decreases |es|
  {
    if es != [] {
      QuantizedEffectsCovered(strings, ids + {es[0].id}, es[1..]);
      assert Map(QuantizeProjectile, es)[1..] == Map(QuantizeProjectile, es[1..]);
    }
  }

  lemma QuantizedFrameCovered(s: Scan, f: Frame<Float>)
    requires FrameCovered(s, f)
    ensures FrameCovered(s, QuantizeFrame(f))
  {
    hide PlayersCovered, EffectsCovered;
    QuantizedPlayersCovered(s, {}, f.players);
    QuantizedEffectsCovered(s.strings, {}, f.projectiles);
  }

  lemma {:induction false} QuantizedFramesCovered(s: Scan, fs: seq<Frame<Float>>)
    requires FramesCovered(s, fs)
    ensures FramesCovered(s, Map(QuantizeFrame, fs))
    decreases |fs|
  {
    hide FrameCovered;
    if fs != [] {
      QuantizedFrameCovered(s, fs[0]);
      QuantizedFramesCovered(s, fs[1..]);
      assert Map(QuantizeFrame, fs)[1..] == Map(QuantizeFrame, fs[1..]);
    }
  }

  lemma {:induction false} QuantizedFramesOrdered(last: int, players: nat, effects: nat, fs: seq<Frame<Float>>)
    requires FramesOrdered(last, players, effects, fs)
    ensures FramesOrdered(last, players, effects, Map(QuantizeFrame, fs))
    decreases |fs|
  {
    if fs != [] {
      QuantizedFramesOrdered(fs[0].tick, players + |fs[0].players|, effects + |fs[0].projectiles|, fs[1..]);
      assert Map(QuantizeFrame, fs)[1..] == Map(QuantizeFrame, fs[1..]);
    }
  }

  lemma QuantizedFrameSendable(f: Frame<Float>)
    requires FrameValuesOk(f)
    ensures FrameSendable(QuantizeFrame(f))
  {
    var q := QuantizeFrame(f);
    forall i | 0 <= i < |q.players|
      ensures PlayerSendable(q.players[i])
    {
      assert PlayerValuesOk(f.players[i]);
    }
    forall i | 0 <= i < |q.projectiles|
      ensures ProjectileSendable(q.projectiles[i])
    {
      assert ProjectileValuesOk(f.projectiles[i]);
    }
  }

  /** Ticks between the first and last frame are in order. */
  lemma {:induction false} OrderedTicks<C>(last: int, players: nat, effects: nat, fs: seq<Frame<C>>)
    requires FramesOrdered(last, players, effects, fs) && fs != []
    ensures last < fs[0].tick <= fs[|fs| - 1].tick
    decreases |fs|
  {
    if |fs| > 1 {
      OrderedTicks(fs[0].tick, players + |fs[0].players|, effects + |fs[0].projectiles|, fs[1..]);
    }
  }

  // --- reading the tables --------------------------------------------------------

  lemma DecodedIdsDistinct(d: Reading, s: Scan)
    requires Consistent(s) && Distinct(Map(d.decode, s.strings))
    ensures Distinct(IdsOf(Map(IdentityDecoder(d), s.roster)))
  {
    var ids := IdsOf(Map(IdentityDecoder(d), s.roster));
    forall i, j | 0 <= i < j < |ids|
      ensures ids[i] != ids[j]
    {
      var x, y := s.roster[i].id, s.roster[j].id;
      assert IdsOf(s.roster)[i] == x && IdsOf(s.roster)[j] == y;
      var a, b := IndexOf(s.strings, x), IndexOf(s.strings, y);
      assert a != b;
      assert Map(d.decode, s.strings)[a] != Map(d.decode, s.strings)[b];
    }
  }

  lemma {:induction false} TablesRoundTrip(d: Reading, s: Scan, rest: seq<byte>)
    requires Consistent(s)
    ensures ReadTables(d, TablesBytes(s) + rest)
         == if TablesReadable(d, s) then Got(DecodedTables(d, s), rest) else Reject
  {
    hide Low16, ReadU16, ReadTexts, TextsBytes, ReadRoster, RosterBytes, IdsReadable;
    var r2 := RosterBytes(s.strings, s.roster) + rest;
    var r1 := Low16(|s.roster|) + r2;
    var r0 := TextsBytes(s.strings) + r1;
    assert TablesBytes(s) + rest == Low16(|s.strings|) + r0;
    Low16RoundTrip(|s.strings|, r0);
    TextsRoundTrip(d, s.strings, r1);
    if Distinct(Map(d.decode, s.strings)) {
      DecodedIdsDistinct(d, s);
      Low16RoundTrip(|s.roster|, r2);
      RosterRoundTrip(d, s.strings, s.roster, rest);
    }
  }

  lemma {:induction false} ScanCovers(fs: seq<Frame<Float>>, s: Scan)
    requires ScanFrames(EMPTY_SCAN, fs) == Some(s)
    ensures Consistent(s)
    ensures FramesCovered(s, Map(QuantizeFrame, fs))
    ensures FramesOrdered(-1, 0, 0, Map(QuantizeFrame, fs)) && FramesOrdered(-1, 0, 0, fs)
  {
    hide FramesCovered, FramesOrdered;
    ScanFramesKeeps(EMPTY_SCAN, fs, s);
    ScanFramesOrder(EMPTY_SCAN, fs, s);
    QuantizedFramesCovered(s, fs);
    QuantizedFramesOrdered(-1, 0, 0, fs);
  }

  lemma QuantizedSendable(fs: seq<Frame<Float>>)
    requires ValuesOk(fs)
    ensures forall i :: 0 <= i < |fs| ==> FrameSendable(Map(QuantizeFrame, fs)[i])
  {
    hide FrameSendable, FrameValuesOk, QuantizeFrame;
    forall i | 0 <= i < |fs|
      ensures FrameSendable(Map(QuantizeFrame, fs)[i])
    {
      QuantizedFrameSendable(fs[i]);
    }
  }

  lemma {:induction false} ScanResult(p: Payload, s: Scan)
    requires Accepts(p, s)
    ensures Consistent(s) && FramesCovered(s, Quantized(p)) && FramesOrdered(-1, 0, 0, Quantized(p))
    ensures forall i :: 0 <= i < |p.frames| ==> FrameSendable(Quantized(p)[i])
    ensures FidelityOk(p.fidelity)
  {
    hide Body, FramesCovered, FramesOrdered, FrameSendable, Consistent, ScanFrames, ValuesOk;
    ScanCovers(p.frames, s);
    QuantizedSendable(p.frames);
    if p.frames != [] {
      OrderedTicks(-1, 0, 0, p.frames);
    }
  }

  lemma InitialOk(s: Scan)
    ensures PredictorsOk(s, Initial(|s.roster|))
  {
  }

  lemma {:induction false} AllFramesRoundTrip(d: Reading, p: Payload, s: Scan)
    requires Accepts(p, s)
    ensures ReadAllFrames(p.fidelity, DecodedTables(d, s),
                          Low32(|p.frames|) + FramesBytes(s, Initial(|s.roster|), Quantized(p)))
         == Got(Map(FrameDecoder(d), Quantized(p)), [])
  {
    hide Low32, ReadU32, ReadFrames, FramesBytes, FramesCovered, FramesOrdered, FrameSendable, PredictorsOk;
    hide ScanFrames, Body, ValuesOk, Consistent, Initial;
    ScanResult(p, s);
    InitialOk(s);
    var frames := FramesBytes(s, Initial(|s.roster|), Quantized(p));
    Low32RoundTrip(|p.frames|, frames);
    FramesRoundTrip(d, s, Initial(|s.roster|), -1, 0, 0, Quantized(p), []);
    assert frames + [] == frames;
  }

  /** The two texts are read back as the metadata they were made of. */
  predicate ReadsMetadata(json: JsonReader, p: Payload) {
    json.cacheBytesOf(p.cacheJson) == p.cacheBytes && json.fidelityOf(p.fidelityJson) == p.fidelity
  }

  /** For every accepted payload: the client reads every frame on the fixed-point grid with its
      strings decoded, or refuses the body because the decoded tables are ambiguous or the cache
      metadata has a number that it cannot represent. */
  lemma {:induction false} DecodeOfBody(d: Reading, p: Payload, s: Scan, json: JsonReader)
    requires Accepts(p, s) && ReadsMetadata(json, p)
    ensures Decode(d, Body(p, s), json)
         == if TablesReadable(d, s) && p.cacheBytes <= MAX_SAFE_INTEGER
            then Some(Replay(p.cacheJson, p.fidelityJson, Map(FrameDecoder(d), Quantized(p))))
            else None
  {
    hide Low16, Low32, ReadJson, JsonBytes, ReadTables, ReadAllFrames, FramesBytes, TablesBytes;
    hide TablesReadable, ScanFrames, ValuesOk, FidelityOk, Consistent, FramesCovered, FramesOrdered, FrameSendable, HeaderOk;
    hide DecodedTables, Quantized, Initial;
    ScanResult(p, s);
    var r3 := Low32(|p.frames|) + FramesBytes(s, Initial(|s.roster|), Quantized(p));
    var r2 := TablesBytes(s) + r3;
    var r1 := JsonBytes(p.fidelityJson) + r2;
    assert Body(p, s) == JsonBytes(p.cacheJson) + r1 by { BodyParts(p, s); }
    JsonRoundTrip(p.cacheJson, r1);
    JsonRoundTrip(p.fidelityJson, r2);
    TablesRoundTrip(d, s, r3);
    AllFramesRoundTrip(d, p, s);
  }

  lemma BodyParts(p: Payload, s: Scan)
    ensures Body(p, s) == JsonBytes(p.cacheJson) + (JsonBytes(p.fidelityJson) + (TablesBytes(s)
            + (Low32(|p.frames|) + FramesBytes(s, Initial(|s.roster|), Quantized(p)))))
  {
  }
}

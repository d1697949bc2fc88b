/** When the client gets back precisely the quantized frames that were sent. */
module ReplayExactness {
  import opened Bytes
  import opened Results
  import opened ReplayPayloads
  import opened ReplayTables
  import opened ReplayWire
  import opened ReplayRoundTrip
  import opened ReplayCodec

  // --- texts the client reproduces -----------------------------------------------

  predicate OptionalClean(t: Option<Text>) {
    t.Some? ==> !HasMark(t.value)
  }

  predicate PlayerClean<C>(p: Player<C>) {
    p.id != [] && !HasMark(p.id) && !HasMark(p.name) && !HasMark(p.weapon)
  }

  predicate ProjectileClean<C>(e: Projectile<C>) {
    !HasMark(e.id) && !HasMark(e.kind) && OptionalClean(e.ownerId)
  }

  predicate BombClean<C>(b: Option<Bomb<C>>) {
    b.Some? ==> !HasMark(b.value.state) && OptionalClean(b.value.carrierId)
  }

  /** No text begins with a byte-order mark and no player id is empty. */
  predicate FrameClean<C>(f: Frame<C>) {
    && (forall i :: 0 <= i < |f.players| ==> PlayerClean(f.players[i]))
    && (forall i :: 0 <= i < |f.projectiles| ==> ProjectileClean(f.projectiles[i]))
    && BombClean(f.bomb)
  }

  predicate CleanStrings(strings: seq<Text>) {
    forall i :: 0 <= i < |strings| ==> !HasMark(strings[i])
  }

  predicate CleanScan(s: Scan) {
    CleanStrings(s.strings) && forall i :: 0 <= i < |s.roster| ==> s.roster[i].id != [] && !HasMark(s.roster[i].id)
  }

  // --- clean frames make clean tables --------------------------------------------

  lemma InternClean(strings: seq<Text>, t: Text)
    requires CleanStrings(strings) && !HasMark(t) && Intern(strings, t).Some?
    ensures CleanStrings(Intern(strings, t).value)
  {
  }

  lemma ScanPlayerClean(s: Scan, seen: set<Text>, p: Player<Float>, r: Scan)
    requires CleanScan(s) && PlayerClean(p) && ScanPlayer(s, seen, p) == Some(r)
    ensures CleanScan(r)
  {
    hide HasMark;
    var known := ScanIdentity(s, p).value;
    if RosterIndex(s.roster, p.id) == |s.roster| {
      InternClean(s.strings, p.id);
      InternClean(Intern(s.strings, p.id).value, p.name);
    }
    InternClean(known.strings, p.weapon);
  }

  lemma {:induction false} ScanPlayersClean(s: Scan, seen: set<Text>, ps: seq<Player<Float>>, r: Scan)
    requires CleanScan(s) && ScanPlayers(s, seen, ps) == Some(r)
    requires forall i :: 0 <= i < |ps| ==> PlayerClean(ps[i])
    ensures CleanScan(r)
    decreases |ps|
  {
    hide CleanScan, PlayerClean, ScanPlayer;
    if ps != [] {
      var s' := ScanPlayer(s, seen, ps[0]).value;
      ScanPlayerClean(s, seen, ps[0], s');
      ScanPlayersClean(s', seen + {ps[0].id}, ps[1..], r);
    }
  }

  lemma {:induction false} ScanEffectsClean(strings: seq<Text>, seen: set<Text>, es: seq<Projectile<Float>>, r: seq<Text>)
    requires CleanStrings(strings) && ScanEffects(strings, seen, es) == Some(r)
    requires forall i :: 0 <= i < |es| ==> ProjectileClean(es[i])
    ensures CleanStrings(r)
    decreases |es|
  {
    hide HasMark, CleanStrings;
    if es != [] {
      var e := es[0];
      InternClean(strings, e.id);
      var withId := Intern(strings, e.id).value;
      InternClean(withId, e.kind);
      if e.ownerId.Some? {
        InternClean(Intern(withId, e.kind).value, e.ownerId.value);
      }
      ScanEffectsClean(ScanEffect(strings, seen, e).value, seen + {e.id}, es[1..], r);
    }
  }

  lemma ScanBombClean(strings: seq<Text>, bomb: Option<Bomb<Float>>, r: seq<Text>)
    requires CleanStrings(strings) && BombClean(bomb) && ScanBomb(strings, bomb) == Some(r)
    ensures CleanStrings(r)
  {
    hide HasMark, CleanStrings;
    if bomb.Some? {
      InternClean(strings, bomb.value.state);
      if bomb.value.carrierId.Some? {
        InternClean(Intern(strings, bomb.value.state).value, bomb.value.carrierId.value);
      }
    }
  }

  lemma {:induction false} ScanFramesClean(s: Scan, fs: seq<Frame<Float>>, r: Scan)
    requires CleanScan(s) && ScanFrames(s, fs) == Some(r)
    requires forall i :: 0 <= i < |fs| ==> FrameClean(fs[i])
    ensures CleanScan(r)
    decreases |fs|
  {
    hide HasMark, ScanPlayers, ScanEffects, ScanBomb, CleanStrings, PlayerClean, ProjectileClean, BombClean;
    if fs != [] {
      var s' := ScanFramesStep(s, fs, r);
      var counted, withPlayers, withEffects := ScanFrameParts(s, fs[0], s');
      assert FrameClean(fs[0]);
      ScanPlayersClean(counted, {}, fs[0].players, withPlayers);
      ScanEffectsClean(withPlayers.strings, {}, fs[0].projectiles, withEffects);
      ScanBombClean(withEffects, fs[0].bomb, s'.strings);
      ScanFramesClean(s', fs[1..], r);
    }
  }

  // --- a frame is reproduced exactly when it is clean ------------------------------

  lemma CleanFrameReproduced(f: Frame<Float>)
    requires FrameClean(f)
    ensures DecodedFrame(BROWSER, QuantizeFrame(f)) == QuantizeFrame(f)
  {
    var q := QuantizeFrame(f);
    assert Map(PlayerDecoder(BROWSER), q.players) == q.players by {
      assert forall i :: 0 <= i < |f.players| ==> PlayerClean(f.players[i]);
    }
    assert Map(ProjectileDecoder(BROWSER), q.projectiles) == q.projectiles by {
      assert forall i :: 0 <= i < |f.projectiles| ==> ProjectileClean(f.projectiles[i]);
    }
  }

  lemma {:induction false} ReproducedFrameClean(s: Scan, f: Frame<Float>)
    requires Consistent(s) && IdsReadable(BROWSER, s.roster) && FrameCovered(s, f)
    requires DecodedFrame(BROWSER, QuantizeFrame(f)) == QuantizeFrame(f)
    ensures FrameClean(f)
  {
    var q := QuantizeFrame(f);
    forall i | 0 <= i < |f.players|
      ensures PlayerClean(f.players[i])
    {
      assert DecodedPlayer(BROWSER, q.players[i]) == q.players[i] by {
        assert DecodedFrame(BROWSER, q).players[i] == DecodedPlayer(BROWSER, q.players[i]);
      }
      PlayerIsCovered(s, {}, f.players, i);
    }
    forall i | 0 <= i < |f.projectiles|
      ensures ProjectileClean(f.projectiles[i])
    {
      assert DecodedProjectile(BROWSER, q.projectiles[i]) == q.projectiles[i] by {
        assert DecodedFrame(BROWSER, q).projectiles[i] == DecodedProjectile(BROWSER, q.projectiles[i]);
      }
    }
  }

  lemma CleanTablesReadable(s: Scan)
    requires Consistent(s) && CleanScan(s)
    ensures TablesReadable(BROWSER, s)
  {
    assert Map(BROWSER.decode, s.strings) == s.strings;
  }

  /** The round trip. What the client reads is what was sent, every coordinate on its 1/16 step
      and every angle on its 1/128 step, if and only if no text begins with a byte-order mark,
      no player id is empty, and the browser can represent the size in the cache metadata. */
  lemma {:induction false} RecoversExactly(p: Payload, s: Scan, json: JsonReader)
    requires Accepts(p, s) && ReadsMetadata(json, p)
    ensures Decode(BROWSER, Body(p, s), json) == Some(Replay(p.cacheJson, p.fidelityJson, Quantized(p)))
       <==> p.cacheBytes <= MAX_SAFE_INTEGER && forall i :: 0 <= i < |p.frames| ==> FrameClean(p.frames[i])
  {
    hide Decode, Body, FrameClean, CleanScan, TablesReadable, HeaderOk, ValuesOk, Consistent, FrameCovered, FramesCovered, ScanFrames;
    DecodeOfBody(BROWSER, p, s, json);
    ScanCovers(p.frames, s);
    var q := Quantized(p);
    var clean := forall i :: 0 <= i < |p.frames| ==> FrameClean(p.frames[i]);
    if clean {
      CleanImpliesReadable(p, s);
      forall i | 0 <= i < |q|
        ensures DecodedFrame(BROWSER, q[i]) == q[i]
      {
        CleanFrameReproduced(p.frames[i]);
      }
      assert Map(FrameDecoder(BROWSER), q) == q;
    }
    if TablesReadable(BROWSER, s) && Map(FrameDecoder(BROWSER), q) == q {
      ReadableImpliesClean(p, s);
    }
  }

  lemma {:induction false} CleanImpliesReadable(p: Payload, s: Scan)
    requires ScanFrames(EMPTY_SCAN, p.frames) == Some(s) && Consistent(s)
    requires forall i :: 0 <= i < |p.frames| ==> FrameClean(p.frames[i])
    ensures TablesReadable(BROWSER, s)
  {
    ScanFramesClean(EMPTY_SCAN, p.frames, s);
    CleanTablesReadable(s);
  }

  lemma {:induction false} ReadableImpliesClean(p: Payload, s: Scan)
    requires ScanFrames(EMPTY_SCAN, p.frames) == Some(s) && TablesReadable(BROWSER, s)
    requires Map(FrameDecoder(BROWSER), Quantized(p)) == Quantized(p)
    ensures forall i :: 0 <= i < |p.frames| ==> FrameClean(p.frames[i])
  {
    hide FrameClean, Consistent, FrameCovered, FramesCovered, ScanFrames, IdsReadable;
    ScanFramesKeeps(EMPTY_SCAN, p.frames, s) by { assert Consistent(EMPTY_SCAN) by { EmptyConsistent(); } }
    forall i | 0 <= i < |p.frames|
      ensures FrameClean(p.frames[i])
    {
      FrameIsCovered(s, p.frames, i);
      assert Quantized(p)[i] == DecodedFrame(BROWSER, Quantized(p)[i]);
      ReproducedFrameClean(s, p.frames[i]);
    }
  }

  lemma EmptyConsistent()
    ensures Consistent(EMPTY_SCAN)
  {
  }

  /** A reader that takes texts as they are leaves every frame as it was sent. */
  lemma VerbatimFrame(q: Frame<int>)
    ensures DecodedFrame(VERBATIM, q) == q
  {
    assert Map(PlayerDecoder(VERBATIM), q.players) == q.players;
    assert Map(ProjectileDecoder(VERBATIM), q.projectiles) == q.projectiles;
  }

  /** The layout itself loses nothing: from the body of any accepted payload, texts taken as they are,
      every frame comes back on the grid. */
  lemma {:induction false} VerbatimRecovers(p: Payload, s: Scan, json: JsonReader)
    requires Accepts(p, s) && ReadsMetadata(json, p) && p.cacheBytes <= MAX_SAFE_INTEGER
    ensures Decode(VERBATIM, Body(p, s), json) == Some(Replay(p.cacheJson, p.fidelityJson, Quantized(p)))
  {
    hide Decode, Body, HeaderOk, ValuesOk, ScanFrames, DecodedFrame, FramesCovered;
    DecodeOfBody(VERBATIM, p, s, json);
    ScanCovers(p.frames, s);
    assert Map(VERBATIM.decode, s.strings) == s.strings;
    forall i | 0 <= i < |Quantized(p)|
      ensures DecodedFrame(VERBATIM, Quantized(p)[i]) == Quantized(p)[i]
    {
      VerbatimFrame(Quantized(p)[i]);
    }
    assert Map(FrameDecoder(VERBATIM), Quantized(p)) == Quantized(p);
  }

  /** Any two accepted payloads of one body are equal on the grid. */
  lemma {:induction false} BodyDeterminesFrames(p: Payload, s: Scan, p': Payload, s': Scan, json: JsonReader)
    requires Accepts(p, s) && ReadsMetadata(json, p)
    requires Accepts(p', s') && ReadsMetadata(json, p')
    requires Body(p, s) == Body(p', s')
    ensures Quantized(p) == Quantized(p') && p.cacheJson == p'.cacheJson && p.fidelityJson == p'.fidelityJson
  {
    hide Decode, Body, Accepts, Quantized;
    var lenient := JsonReader(text => 0, json.fidelityOf);
    SizeIsNoPart(p, s);
    SizeIsNoPart(p', s');
    VerbatimRecovers(p.(cacheBytes := 0), s, lenient);
    VerbatimRecovers(p'.(cacheBytes := 0), s', lenient);
  }

  /** The size is sent within the cache metadata only. */
  lemma SizeIsNoPart(p: Payload, s: Scan)
    ensures Body(p.(cacheBytes := 0), s) == Body(p, s) && Quantized(p.(cacheBytes := 0)) == Quantized(p)
    ensures Accepts(p.(cacheBytes := 0), s) == Accepts(p, s)
  {
    hide FramesBytes, TablesBytes, JsonBytes, Low32, ScanFrames, ValuesOk, Initial, Map;
  }
}

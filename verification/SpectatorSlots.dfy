/** Which spectator slot belongs to which player, from the userinfo updates of a demo. */
module SpectatorSlots {
  import opened Bytes
  import opened Results
  import opened Sets

  /** Identities are stored under textual keys: numbers in decimal, and userid:n. */
  datatype Key = Num(n: nat) | UserId(n: nat)

  /** Without a name, the text of the stable id serves as one. */
  datatype Identity = Identity(stable: Key, name: Option<string>, slot: Option<nat>, conflicted: bool)

  type Identities = map<Key, Identity>

  /** name, if any, is trimmed and not empty. */
  datatype Info = Info(userId: Option<int>, steamId: Option<u64>, xuid: Option<u64>, name: Option<string>)

  /** The low byte of the id, plus one, if that is a slot. */
  function SlotOf(userId: int): (r: Option<nat>)
    ensures r.Some? ==> 1 <= r.value <= 64
  {
    var slot := userId % 256 + 1;
    if 1 <= slot <= 64 then Some(slot) else None
  }

  /** The user id an update is also filed under. */
  function FiledUser(info: Info): Option<nat> {
    if info.userId.Some? && info.userId.value % 256 > 0 then Some(info.userId.value % 256) else None
  }

  function Positive(n: Option<u64>): Option<u64> {
    if n.Some? && n.value > 0 then n else None
  }

  function StableOf(info: Info): Option<Key> {
    if Positive(info.steamId).Some? then Some(Num(info.steamId.value))
    else if Positive(info.xuid).Some? then Some(Num(info.xuid.value))
    else if FiledUser(info).Some? then Some(UserId(FiledUser(info).value))
    else None
  }

  function UserKeys(userId: Option<nat>): set<Key> {
    if userId.Some? then {Num(userId.value), UserId(userId.value)} else {}
  }

  function IdKeys(id: Option<u64>): set<Key> {
    if Positive(id).Some? then {Num(id.value)} else {}
  }

  /** Every key an update is filed under, its stable id among them. */
  function KeysOf(info: Info): set<Key>
    requires StableOf(info).Some?
  {
    {StableOf(info).value} + UserKeys(FiledUser(info)) + IdKeys(info.xuid) + IdKeys(info.steamId)
  }

  /** The slot evidence after an update, given what was on file under the stable id. */
  function Evidence(previous: Option<Identity>, userId: Option<int>): (r: (Option<nat>, bool))
    ensures previous.Some? && previous.value.conflicted ==> r.1
    ensures r.0.Some? ==> !r.1 || userId.None?
  {
    if userId.None? then
      if previous.Some? then (previous.value.slot, previous.value.conflicted) else (None, false)
    else
      match SlotOf(userId.value)
      case None => (None, true)
      case Some(slot) =>
        if previous.Some? && previous.value.conflicted then (None, true)
        else if previous.Some? && previous.value.slot.Some? && previous.value.slot.value != slot then (None, true)
        else (Some(slot), false)
  }

  function Lookup(ids: Identities, key: Key): Option<Identity> {
    if key in ids then Some(ids[key]) else None
  }

  function IdentityOf(ids: Identities, info: Info): (r: Identity)
    requires StableOf(info).Some?
    ensures r.stable == StableOf(info).value
  {
    var stable := StableOf(info).value;
    var (slot, conflicted) := Evidence(Lookup(ids, stable), info.userId);
    Identity(stable, info.name, slot, conflicted)
  }

  /** All that is on file for the player is replaced, and filed under the update's keys. */
  function Registered(ids: Identities, info: Info): Identities {
    if StableOf(info).None? then ids
    else
      var identity := IdentityOf(ids, info);
      map k | k in ids.Keys + KeysOf(info) ::
        if k in KeysOf(info) || ids[k].stable == identity.stable then identity else ids[k]
  }

  ghost predicate FiledUnder(before: Identities, after: Identities, identity: Identity, filed: set<Key>) {
    && after.Keys == before.Keys + filed
    && forall k <- after ::
         after[k] == if k in filed || before[k].stable == identity.stable then identity else before[k]
  }

  lemma FiledUnderNone(before: Identities, after: Identities, identity: Identity)
    requires after.Keys == before.Keys
    requires forall k <- after :: after[k] == if before[k].stable == identity.stable then identity else before[k]
    ensures FiledUnder(before, after, identity, {})
  {
  }

  lemma Unfiled(ids: Identities, info: Info)
    requires StableOf(info).None?
    ensures Registered(ids, info) == ids
  {
  }

  lemma FiledNext(before: Identities, after: Identities, identity: Identity, filed: set<Key>, key: Key)
    requires FiledUnder(before, after, identity, filed)
    ensures FiledUnder(before, after[key := identity], identity, filed + {key})
  {
  }

  lemma FiledIsRegistered(before: Identities, after: Identities, info: Info)
    requires StableOf(info).Some? && FiledUnder(before, after, IdentityOf(before, info), KeysOf(info))
    ensures after == Registered(before, info)
  {
    hide IdentityOf, KeysOf;
  }

  class PlayerIdentities {
    var entries: Identities

    constructor ()
      ensures entries == map[]
    {
      entries := map[];
    }

    method RegisterPlayerInfo(info: Info)
      modifies this
      ensures entries == Registered(old(entries), info)
    {
      hide IdentityOf, FiledUnder, Registered, FiledUser, UserKeys, IdKeys;
      var userId := FiledUser(info);
      var stable: Key;
      if info.steamId.Some? && info.steamId.value > 0 {
        stable := Num(info.steamId.value);
      } else if info.xuid.Some? && info.xuid.value > 0 {
        stable := Num(info.xuid.value);
      } else if userId.Some? {
        stable := UserId(userId.value);
      } else {
        Unfiled(entries, info);
        return;
      }
      var identity := IdentityOf(entries, info);
      ghost var before := entries;
      ReplaceAll(identity);
      FiledUnderNone(before, entries, identity);
      FiledNext(before, entries, identity, {}, stable);
      entries := entries[stable := identity];
      assert {} + {stable} == {stable};
      FileUser(userId, identity, before, {stable});
      FileId(info.xuid, identity, before, {stable} + UserKeys(userId));
      FileId(info.steamId, identity, before, {stable} + UserKeys(userId) + IdKeys(info.xuid));
      FiledIsRegistered(before, entries, info);
    }

    method FileUser(userId: Option<nat>, identity: Identity, ghost before: Identities, ghost filed: set<Key>)
      requires FiledUnder(before, entries, identity, filed)
      modifies this
      ensures FiledUnder(before, entries, identity, filed + UserKeys(userId))
    {
      hide FiledUnder;
      if userId.Some? {
        var decimal, prefixed := Num(userId.value), UserId(userId.value);
        FiledNext(before, entries, identity, filed, decimal);
        entries := entries[decimal := identity];
        FiledNext(before, entries, identity, filed + {decimal}, prefixed);
        entries := entries[prefixed := identity];
        assert filed + {decimal} + {prefixed} == filed + UserKeys(userId);
      } else {
        assert filed + UserKeys(userId) == filed;
      }
    }

    method FileId(id: Option<u64>, identity: Identity, ghost before: Identities, ghost filed: set<Key>)
      requires FiledUnder(before, entries, identity, filed)
      modifies this
      ensures FiledUnder(before, entries, identity, filed + IdKeys(id))
    {
      hide FiledUnder;
      if id.Some? && id.value > 0 {
        FiledNext(before, entries, identity, filed, Num(id.value));
        entries := entries[Num(id.value) := identity];
      } else {
        assert filed + IdKeys(id) == filed;
      }
    }

    method ReplaceAll(identity: Identity)
      modifies this
      ensures entries.Keys == old(entries).Keys
      ensures forall k <- entries :: entries[k] == if old(entries)[k].stable == identity.stable then identity else old(entries)[k]
    {
      var keys := entries.Keys;
      while keys != {}
        invariant keys <= entries.Keys == old(entries).Keys
        invariant forall k <- entries ::
          entries[k] == if k !in keys && old(entries)[k].stable == identity.stable then identity else old(entries)[k]
        decreases keys
      {
        var k :| k in keys;
        keys := keys - {k};
        if entries[k].stable == identity.stable {
          entries := entries[k := identity];
        }
      }
    }

    /** The slot of every player that has exactly one, unconflicted, which no other such player has. */
    method ResolvedSlots() returns (slots: map<Key, nat>)
      ensures forall p, slot :: (p in slots && slots[p] == slot) <==> SoleClaim(entries, p, slot)
    {
      hide SoleClaim, Claims;
      var byPlayer := GroupByPlayer(entries);
      var claims: map<Key, nat> := map[];
      var remaining := byPlayer.Keys;
      while remaining != {}
        invariant remaining <= byPlayer.Keys
        invariant forall p :: p in claims <==> p in byPlayer && p !in remaining && Single(byPlayer[p])
        invariant forall p <- claims :: byPlayer[p].1 == {claims[p]}
        decreases remaining
      {
        var p :| p in remaining;
        remaining := remaining - {p};
        var (conflicted, observed) := byPlayer[p];
        if !conflicted && |observed| == 1 {
          var slot :| slot in observed;
          Singleton(observed, slot);
          claims := claims[p := slot];
        }
      }
      forall p, slot
        ensures (p in claims && claims[p] == slot) <==> Claims(entries, p, slot)
      {
        ClaimIsSingle(entries, byPlayer, p, slot);
      }
      slots := map p | p in claims && Unshared(claims, p) :: claims[p];
      forall p, slot
        ensures (p in slots && slots[p] == slot) <==> SoleClaim(entries, p, slot)
      {
        SoleClaimIsUnshared(entries, claims, p, slot);
      }
    }
  }

  predicate Single(seen: (bool, set<nat>)) {
    !seen.0 && |seen.1| == 1
  }

  predicate Unshared(claims: map<Key, nat>, p: Key)
    requires p in claims
  {
    forall q <- claims :: claims[q] == claims[p] ==> q == p
  }

  // --- what is on file for a player ------------------------------------------------------------

  ghost predicate AnyConflict(ids: Identities, p: Key) {
    exists k :: k in ids && ids[k].stable == p && ids[k].conflicted
  }

  ghost function Observed(ids: Identities, p: Key): set<nat> {
    set k | k in ids && ids[k].stable == p && ids[k].slot.Some? :: ids[k].slot.value
  }

  ghost predicate Known(ids: Identities, p: Key) {
    exists k :: k in ids && ids[k].stable == p
  }

  /** Exactly one slot is on file for the player, and no conflict. */
  ghost predicate Claims(ids: Identities, p: Key, slot: nat) {
    !AnyConflict(ids, p) && Observed(ids, p) == {slot}
  }

  ghost predicate SoleClaim(ids: Identities, p: Key, slot: nat) {
    Claims(ids, p, slot) && forall q :: Claims(ids, q, slot) ==> q == p
  }

  ghost predicate Grouped(ids: Identities, byPlayer: map<Key, (bool, set<nat>)>) {
    forall p :: (p in byPlayer <==> Known(ids, p))
                && (p in byPlayer ==> (byPlayer[p].0 <==> AnyConflict(ids, p)) && byPlayer[p].1 == Observed(ids, p))
  }

  method GroupByPlayer(ids: Identities) returns (byPlayer: map<Key, (bool, set<nat>)>)
    ensures Grouped(ids, byPlayer)
  {
    hide Grouped;
    byPlayer := map[];
    var remaining := ids.Keys;
    ghost var done: Identities := map[];
    NothingGrouped();
    while remaining != {}
      invariant remaining <= ids.Keys && done == map k | k in ids && k !in remaining :: ids[k]
      invariant Grouped(done, byPlayer)
      decreases remaining
    {
      var k :| k in remaining;
      remaining := remaining - {k};
      var identity := ids[k];
      var (conflicted, observed) := if identity.stable in byPlayer then byPlayer[identity.stable] else (false, {});
      GroupOne(done, byPlayer, k, identity);
      byPlayer := byPlayer[identity.stable :=
        (conflicted || identity.conflicted, observed + (if identity.slot.Some? then {identity.slot.value} else {}))];
      done := done[k := identity];
    }
    assert done == ids;
  }

  lemma NothingGrouped()
    ensures Grouped(map[], map[])
  {
  }

  lemma GroupOne(ids: Identities, byPlayer: map<Key, (bool, set<nat>)>, k: Key, identity: Identity)
    requires Grouped(ids, byPlayer) && k !in ids
    ensures var (conflicted, observed) := if identity.stable in byPlayer then byPlayer[identity.stable] else (false, {});
            Grouped(ids[k := identity], byPlayer[identity.stable :=
              (conflicted || identity.conflicted, observed + (if identity.slot.Some? then {identity.slot.value} else {}))])
  {
    var more := ids[k := identity];
    forall p
      ensures Known(more, p) <==> Known(ids, p) || p == identity.stable
      ensures AnyConflict(more, p) <==> AnyConflict(ids, p) || (p == identity.stable && identity.conflicted)
      ensures Observed(more, p) ==
        Observed(ids, p) + if p == identity.stable && identity.slot.Some? then {identity.slot.value} else {}
    {
      OnFileNext(ids, k, identity, p);
    }
    if identity.stable !in byPlayer {
      assert !Known(ids, identity.stable);
      NothingOnFile(ids, identity.stable);
    }
    hide Known, AnyConflict, Observed;
  }

  lemma NothingOnFile(ids: Identities, p: Key)
    requires !Known(ids, p)
    ensures !AnyConflict(ids, p) && Observed(ids, p) == {}
  {
  }

  lemma OnFileNext(ids: Identities, k: Key, identity: Identity, p: Key)
    requires k !in ids
    ensures var more := ids[k := identity];
            && (Known(more, p) <==> Known(ids, p) || p == identity.stable)
            && (AnyConflict(more, p) <==> AnyConflict(ids, p) || (p == identity.stable && identity.conflicted))
            && Observed(more, p) ==
               Observed(ids, p) + if p == identity.stable && identity.slot.Some? then {identity.slot.value} else {}
  {
    var more := ids[k := identity];
    assert forall j :: j in ids ==> j in more && more[j] == ids[j];
    assert more[k] == identity;
  }

  lemma ClaimIsSingle(ids: Identities, byPlayer: map<Key, (bool, set<nat>)>, p: Key, slot: nat)
    requires Grouped(ids, byPlayer)
    ensures Claims(ids, p, slot) <==> p in byPlayer && Single(byPlayer[p]) && byPlayer[p].1 == {slot}
  {
    if !Known(ids, p) {
      NothingOnFile(ids, p);
      assert slot in {slot};
    }
    hide Known, AnyConflict, Observed;
  }

  lemma SoleClaimIsUnshared(ids: Identities, claims: map<Key, nat>, p: Key, slot: nat)
    requires forall q, s :: (q in claims && claims[q] == s) <==> Claims(ids, q, s)
    ensures SoleClaim(ids, p, slot) <==> p in claims && claims[p] == slot && Unshared(claims, p)
  {
    hide Claims;
    if SoleClaim(ids, p, slot) {
      forall q | q in claims && claims[q] == claims[p]
        ensures q == p
      {
        assert Claims(ids, q, slot);
      }
    }
  }

  /** No two players are given the same slot, and every slot is one of the sixty-four. */
  lemma ResolvedIsInjective(ids: Identities, slots: map<Key, nat>, p: Key, q: Key)
    requires forall r, slot :: (r in slots && slots[r] == slot) <==> SoleClaim(ids, r, slot)
    requires p in slots && q in slots && InRange(ids)
    ensures slots[p] == slots[q] ==> p == q
    ensures 1 <= slots[p] <= 64
  {
    assert SoleClaim(ids, p, slots[p]) && SoleClaim(ids, q, slots[q]);
    assert slots[p] in Observed(ids, p);
  }

  // --- what every sequence of updates keeps -------------------------------------------------------

  ghost predicate InRange(ids: Identities) {
    forall k <- ids :: ids[k].slot.Some? ==> 1 <= ids[k].slot.value <= 64
  }

  /** All that is on file for a player says the same. */
  ghost predicate Agree(ids: Identities) {
    forall j, k :: j in ids && k in ids && ids[j].stable == ids[k].stable ==> ids[j] == ids[k]
  }

  function RegisterAll(ids: Identities, infos: seq<Info>): Identities
    decreases |infos|
  {
    if infos == [] then ids else RegisterAll(Registered(ids, infos[0]), infos[1..])
  }

  lemma RegisteredAgrees(ids: Identities, info: Info)
    requires Agree(ids) && InRange(ids)
    ensures Agree(Registered(ids, info)) && InRange(Registered(ids, info))
  {
    if StableOf(info).Some? {
      assert IdentityOf(ids, info).slot.Some? ==> 1 <= IdentityOf(ids, info).slot.value <= 64;
      hide IdentityOf, KeysOf;
    }
  }

  /** Whatever updates come, in whatever order, all aliases of a player carry the same evidence. */
  lemma {:induction false} AliasesAgree(ids: Identities, infos: seq<Info>)
    requires Agree(ids) && InRange(ids)
    ensures Agree(RegisterAll(ids, infos)) && InRange(RegisterAll(ids, infos))
    decreases |infos|
  {
    hide Registered;
    if infos != [] {
      RegisteredAgrees(ids, infos[0]);
      AliasesAgree(Registered(ids, infos[0]), infos[1..]);
    }
  }

  // --- whether a conflict is remembered --------------------------------------------------------------

  /** The player's own record, which is what the next update looks up, is a conflict. */
  predicate Remembered(ids: Identities, p: Key) {
    p in ids && ids[p].stable == p && ids[p].conflicted
  }

  /** The update is the player's own, or is filed under other keys than the player's id. */
  predicate Harmless(info: Info, p: Key) {
    StableOf(info).Some? && StableOf(info).value != p ==> p !in KeysOf(info)
  }

  function Aliases(ids: Identities, p: Key): set<Key> {
    set k | k in ids && ids[k].stable == p
  }

  /** The player's own update clears a conflict: what is on file under the player's id, be it another
      player's record, is no conflict, and the update brings no slot that is out of range or other
      than the one on file there. */
  predicate Clears(ids: Identities, info: Info, p: Key) {
    && (p in ids ==> !ids[p].conflicted)
    && (info.userId.Some? ==>
          && SlotOf(info.userId.value).Some?
          && (p in ids && ids[p].slot.Some? ==> ids[p].slot == SlotOf(info.userId.value)))
  }

  /** What the resolver sees of a conflict after one more update: it is gone exactly if the player's
      own update clears it, or another player's is filed under every alias of the player. */
  lemma ConflictSurvivesIff(ids: Identities, info: Info, p: Key)
    requires Agree(ids) && AnyConflict(ids, p)
    ensures AnyConflict(Registered(ids, info), p) <==>
      if StableOf(info).None? then true
      else if StableOf(info).value == p then !Clears(ids, info, p)
      else !(Aliases(ids, p) <= KeysOf(info))
  {
    var k :| k in ids && ids[k].stable == p && ids[k].conflicted;
    var after := Registered(ids, info);
    if StableOf(info).Some? {
      assert StableOf(info).value in KeysOf(info);
      hide KeysOf;
      if StableOf(info).value == p {
        OwnUpdate(ids, info, p, k);
      } else {
        hide IdentityOf;
        if AnyConflict(after, p) {
          var j :| j in after && after[j].stable == p && after[j].conflicted;
          assert j in Aliases(ids, p) && j !in KeysOf(info);
        }
        if !(Aliases(ids, p) <= KeysOf(info)) {
          var j :| j in Aliases(ids, p) && j !in KeysOf(info);
          assert ids[j] == ids[k] && j in after && after[j] == ids[j];
        }
      }
    }
  }

  lemma OwnUpdate(ids: Identities, info: Info, p: Key, k: Key)
    requires StableOf(info) == Some(p) && k in ids && ids[k].stable == p
    ensures AnyConflict(Registered(ids, info), p) <==> !Clears(ids, info, p)
  {
    hide KeysOf, StableOf, SlotOf;
    var after := Registered(ids, info);
    assert k in after && after[k] == IdentityOf(ids, info);
    assert forall j <- after :: after[j].stable == p ==> after[j] == IdentityOf(ids, info);
    assert IdentityOf(ids, info).conflicted <==> !Clears(ids, info, p);
  }

  /** While the record under the player's own id is a conflict, his own updates clear nothing; an update
      takes that record away exactly if it is not harmless. */
  lemma RecordKeptIff(ids: Identities, info: Info, p: Key)
    requires Remembered(ids, p)
    ensures Remembered(Registered(ids, info), p) <==> Harmless(info, p)
  {
    if StableOf(info).Some? {
      assert Lookup(ids, p) == Some(ids[p]);
      assert StableOf(info).value == p ==> IdentityOf(ids, info).conflicted;
      assert StableOf(info).value in KeysOf(info);
      hide IdentityOf, KeysOf;
    }
  }

  /** Over any run of harmless updates a conflict stays, and the player gets no slot. */
  lemma {:induction false} ConflictsStay(ids: Identities, infos: seq<Info>, p: Key, slot: nat)
    requires Remembered(ids, p) && forall i :: 0 <= i < |infos| ==> Harmless(infos[i], p)
    ensures Remembered(RegisterAll(ids, infos), p)
    ensures !Claims(RegisterAll(ids, infos), p, slot)
    decreases |infos|
  {
    hide Registered, Harmless;
    if infos == [] {
      assert AnyConflict(ids, p) by { assert ids[p].conflicted; }
    } else {
      RecordKeptIff(ids, infos[0], p);
      ConflictsStay(Registered(ids, infos[0]), infos[1..], p, slot);
    }
  }

  /** Updates of Steam players are harmless to each other as long as the two Steam ids of an update
      are the same, and larger than any user id. */
  lemma OrdinaryUpdatesAreHarmless(info: Info, p: Key)
    requires p.Num? && p.n > 255
    requires Positive(info.steamId).Some? && (Positive(info.xuid).Some? ==> info.xuid == info.steamId)
    ensures Harmless(info, p)
  {
  }

  lemma OwnRecordDecides(ids: Identities, p: Key, slot: nat)
    requires Agree(ids) && p in ids && ids[p].stable == p
    ensures Claims(ids, p, slot) <==> !ids[p].conflicted && ids[p].slot == Some(slot)
  {
    assert ids[p].slot.Some? ==> Observed(ids, p) == {ids[p].slot.value};
    assert slot in {slot};
  }

  lemma RecordAfter(ids: Identities, info: Info, k: Key)
    requires StableOf(info).Some? && k in KeysOf(info)
    ensures k in Registered(ids, info) && Registered(ids, info)[k] == IdentityOf(ids, info)
    ensures forall j :: j in Registered(ids, info) <==> j in ids || j in KeysOf(info)
  {
    hide IdentityOf, KeysOf;
  }

  function SteamUpdate(userId: int, steamId: u64): Info {
    Info(Some(userId), Some(steamId), None, None)
  }

  lemma AfterSteamUpdate(ids: Identities, userId: int, steamId: u64)
    requires steamId > 0
    ensures var (slot, conflicted) := Evidence(Lookup(ids, Num(steamId)), Some(userId));
            var after := Registered(ids, SteamUpdate(userId, steamId));
            && Num(steamId) in after && after[Num(steamId)] == Identity(Num(steamId), None, slot, conflicted)
            && (forall n :: n > 255 && n != steamId && Num(n) !in ids ==> Num(n) !in after)
  {
    RecordAfter(ids, SteamUpdate(userId, steamId), Num(steamId));
  }

  const PASSER_BY := Info(None, Some(1000), Some(2000), None)

  lemma AfterPasserBy(ids: Identities)
    requires Num(1000) !in ids
    ensures var after := Registered(ids, PASSER_BY);
            Num(2000) in after && after[Num(2000)] == Identity(Num(1000), None, None, false)
  {
    RecordAfter(ids, PASSER_BY, Num(2000));
  }

  /** They need not be. Two updates of player 2000 conflict; one of player 1000 that carries 2000 as
      its other id takes the record; and the next update of 2000 clears the conflict. */
  lemma ConflictForgotten() returns (infos: seq<Info>, more: seq<Info>)
    ensures var before := RegisterAll(map[], infos);
            var after := RegisterAll(before, more);
            && Remembered(before, Num(2000)) && !Claims(before, Num(2000), 3)
            && !Remembered(after, Num(2000)) && Claims(after, Num(2000), 3)
  {
    hide Registered, Claims, RegisterAll, Agree;
    var p, a, b := Num(2000), SteamUpdate(2, 2000), SteamUpdate(3, 2000);
    infos, more := [a, b], [PASSER_BY, a];
    AfterSteamUpdate(map[], 2, 2000);
    var ids1 := Registered(map[], a);
    AfterSteamUpdate(ids1, 3, 2000);
    var ids2 := Registered(ids1, b);
    AfterPasserBy(ids2);
    var ids3 := Registered(ids2, PASSER_BY);
    AfterSteamUpdate(ids3, 2, 2000);
    var ids4 := Registered(ids3, a);
    RegisterTwo(map[], a, b);
    RegisterTwo(ids2, PASSER_BY, a);
    NothingDisagrees();
    AliasesAgree(map[], infos);
    AliasesAgree(ids2, more);
    OwnRecordDecides(ids2, p, 3);
    OwnRecordDecides(ids4, p, 3);
  }

  lemma NothingDisagrees()
    ensures Agree(map[]) && InRange(map[])
  {
  }

  lemma RegisterTwo(ids: Identities, a: Info, b: Info)
    ensures RegisterAll(ids, [a, b]) == Registered(Registered(ids, a), b)
  {
    hide Registered;
    assert [a, b][1..] == [b] && [b][1..] == [];
    assert RegisterAll(Registered(ids, a), [b]) == RegisterAll(Registered(Registered(ids, a), b), []);
  }
}

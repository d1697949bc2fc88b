/** Whose slot a spectator finds in the end, told from the userinfo updates alone. */
module SlotHistory {
  import opened Bytes
  import opened Results
  import opened SpectatorSlots

  /** The update is the player's: it names the Steam id, or if it has none the other id, or if it has
      neither the low byte of the user id. */
  predicate IsOf(info: Info, p: Key) {
    match p
    case Num(n) =>
      n > 0 && (info.steamId == Some(n) || ((info.steamId.None? || info.steamId.value == 0) && info.xuid == Some(n)))
    case UserId(n) =>
      n > 0 && (info.steamId.None? || info.steamId.value == 0) && (info.xuid.None? || info.xuid.value == 0)
      && info.userId.Some? && info.userId.value % 256 == n
  }

  /** The update is filed under the key. */
  predicate Touches(info: Info, k: Key) {
    match k
    case Num(n) =>
      n > 0 && (info.steamId == Some(n) || info.xuid == Some(n) || (info.userId.Some? && info.userId.value % 256 == n))
    case UserId(n) => n > 0 && info.userId.Some? && info.userId.value % 256 == n
  }

  /** The slots, existing or not, that the player's own updates among the first n point to. */
  ghost function Hints(infos: seq<Info>, n: nat, p: Key): set<nat>
    requires n <= |infos|
  {
    set i | 0 <= i < n && IsOf(infos[i], p) && infos[i].userId.Some? :: infos[i].userId.value % 256 + 1
  }

  ghost predicate Seen(infos: seq<Info>, n: nat, p: Key)
    requires n <= |infos|
  {
    exists i :: 0 <= i < n && IsOf(infos[i], p)
  }

  /** They are different slots, or none of the sixty-four. */
  ghost predicate Disagree(hints: set<nat>) {
    exists s, t :: s in hints && t in hints && (s != t || s > 64)
  }

  /** What is on file says whether the player's own updates disagree and, if they do not, the slot they
      point to, if any. */
  ghost predicate Recorded(hints: set<nat>, r: Identity) {
    && (r.conflicted <==> Disagree(hints))
    && (r.conflicted ==> r.slot.None?)
    && (!r.conflicted ==> hints == if r.slot.Some? then {r.slot.value} else {})
  }

  /** The name is that of the player's last update. */
  ghost predicate LastName(infos: seq<Info>, n: nat, p: Key, name: Option<string>)
    requires n <= |infos|
  {
    forall i :: 0 <= i < n && IsOf(infos[i], p) && (forall k :: i < k < n ==> !IsOf(infos[k], p)) ==>
      name == infos[i].name
  }

  /** No other player's update is filed under the player's own id. */
  predicate Alone(infos: seq<Info>, p: Key) {
    forall i :: 0 <= i < |infos| && Touches(infos[i], p) ==> IsOf(infos[i], p)
  }

  lemma KeysMean(info: Info, p: Key)
    ensures StableOf(info) == Some(p) <==> IsOf(info, p)
    ensures StableOf(info).Some? ==> (p in KeysOf(info) <==> Touches(info, p))
    ensures StableOf(info).None? ==> !Touches(info, p)
    ensures IsOf(info, p) ==> Touches(info, p)
  {
  }

  /** One update, whoever else's record is in its way. Everything filed under a key of the update, or on
      file for its player, becomes the player's one new record; all else stays. Only a user id brings
      evidence: it settles the slot if the player's record so far names no other and is no conflict. */
  lemma UpdateMeans(ids: Identities, info: Info, p: Key, k: Key)
    requires IsOf(info, p)
    ensures var after := Registered(ids, info);
            && p in after && after[p].stable == p && after[p].name == info.name
            && (k in after <==> k in ids || Touches(info, k))
            && (k in after ==>
                  after[k] == if Touches(info, k) || ids[k].stable == p then after[p] else ids[k])
            && if info.userId.None? then
                 if p in ids then after[p].slot == ids[p].slot && after[p].conflicted == ids[p].conflicted
                 else after[p].slot.None? && !after[p].conflicted
               else
                 var slot := info.userId.value % 256 + 1;
                 if slot <= 64 && (p in ids ==> !ids[p].conflicted && (ids[p].slot.Some? ==> ids[p].slot.value == slot))
                 then after[p].slot == Some(slot) && !after[p].conflicted
                 else after[p].slot.None? && after[p].conflicted
  {
    KeysMean(info, p);
    KeysMean(info, k);
    RecordAfter(ids, info, p);
    hide StableOf, KeysOf, IsOf, Touches;
  }

  /** An update that is nobody's changes nothing. */
  lemma NobodysUpdate(ids: Identities, info: Info)
    requires forall p :: !IsOf(info, p)
    ensures Registered(ids, info) == ids
  {
    if StableOf(info).Some? {
      KeysMean(info, StableOf(info).value);
    }
  }

  lemma {:induction false} RegisterLast(ids: Identities, infos: seq<Info>, info: Info)
    ensures RegisterAll(ids, infos + [info]) == Registered(RegisterAll(ids, infos), info)
    decreases |infos|
  {
    hide Registered;
    var all := infos + [info];
    if infos == [] {
      assert all == [info] && all[1..] == [];
      assert RegisterAll(Registered(ids, info), []) == Registered(ids, info);
    } else {
      assert all[0] == infos[0] && all[1..] == infos[1..] + [info];
      RegisterLast(Registered(ids, infos[0]), infos[1..], info);
    }
  }

  ghost predicate OnFile(infos: seq<Info>, n: nat, p: Key, ids: Identities)
    requires n <= |infos|
  {
    && (p in ids <==> Seen(infos, n, p))
    && (p in ids ==> ids[p].stable == p && Recorded(Hints(infos, n, p), ids[p]) && LastName(infos, n, p, ids[p].name))
    && ((exists k :: k in ids && ids[k].stable == p) ==> Seen(infos, n, p))
  }

  lemma HintsNext(infos: seq<Info>, n: nat, p: Key)
    requires n < |infos|
    ensures Hints(infos, n + 1, p) == Hints(infos, n, p)
      + if IsOf(infos[n], p) && infos[n].userId.Some? then {infos[n].userId.value % 256 + 1} else {}
    ensures Seen(infos, n + 1, p) <==> Seen(infos, n, p) || IsOf(infos[n], p)
    ensures !IsOf(infos[n], p) ==> forall name :: LastName(infos, n, p, name) ==> LastName(infos, n + 1, p, name)
    ensures IsOf(infos[n], p) ==> LastName(infos, n + 1, p, infos[n].name)
    ensures !Seen(infos, n, p) ==> Hints(infos, n, p) == {}
  {
    hide IsOf;
  }

  /** One more update. */
  lemma OnFileNext(infos: seq<Info>, n: nat, p: Key, ids: Identities)
    requires n < |infos| && OnFile(infos, n, p, ids) && Alone(infos, p)
    ensures OnFile(infos, n + 1, p, Registered(ids, infos[n]))
  {
    hide Recorded, LastName, Disagree, Hints, Seen, KeysOf, IdentityOf, IsOf, Touches, StableOf;
    var info, after := infos[n], Registered(ids, infos[n]);
    KeysMean(info, p);
    HintsNext(infos, n, p);
    if IsOf(info, p) {
      RecordAfter(ids, info, p);
      NewRecord(ids, info, p, Hints(infos, n, p));
    } else {
      assert Hints(infos, n + 1, p) == Hints(infos, n, p);
      assert p in after <==> p in ids;
      assert p in ids ==> after[p] == ids[p];
      assert forall k <- after :: after[k].stable == p ==> k in ids && ids[k].stable == p;
    }
  }

  lemma NewRecord(ids: Identities, info: Info, p: Key, hints: set<nat>)
    requires StableOf(info) == Some(p)
    requires if p in ids then Recorded(hints, ids[p]) else hints == {}
    ensures var r := IdentityOf(ids, info);
            && r.stable == p && r.name == info.name
            && Recorded(hints + (if info.userId.Some? then {info.userId.value % 256 + 1} else {}), r)
  {
    hide StableOf;
  }

  lemma NothingOnFileYet(infos: seq<Info>, p: Key)
    ensures OnFile(infos, 0, p, map[])
  {
  }

  lemma {:induction false} OnFileAfter(infos: seq<Info>, n: nat, p: Key)
    requires n <= |infos| && Alone(infos, p)
    ensures OnFile(infos, n, p, RegisterAll(map[], infos[..n]))
  {
    hide OnFile, Registered, Alone, RegisterAll;
    if n == 0 {
      NothingOnFileYet(infos, p);
      RegisterNone();
    } else {
      OnFileAfter(infos, n - 1, p);
      RegisterLast(map[], infos[..n - 1], infos[n - 1]);
      assert infos[..n] == infos[..n - 1] + [infos[n - 1]];
      OnFileNext(infos, n - 1, p, RegisterAll(map[], infos[..n - 1]));
    }
  }

  lemma RegisterNone()
    ensures RegisterAll(map[], []) == map[]
  {
  }

  /** The player's own updates all point to this one slot, and at least one does. */
  ghost predicate PointTo(infos: seq<Info>, p: Key, slot: nat) {
    && 1 <= slot <= 64
    && (exists i :: 0 <= i < |infos| && IsOf(infos[i], p) && infos[i].userId.Some?)
    && forall i :: 0 <= i < |infos| && IsOf(infos[i], p) && infos[i].userId.Some? ==>
         infos[i].userId.value % 256 == slot - 1
  }

  /** A player whose id no other player's update is filed under claims a slot exactly if the player's own
      updates all point to it. Updates without a user id change nothing about that. */
  lemma ClaimMeans(infos: seq<Info>, p: Key, slot: nat)
    requires Alone(infos, p)
    ensures Claims(RegisterAll(map[], infos), p, slot) <==> PointTo(infos, p, slot)
  {
    hide Alone, IsOf, Registered, RegisterAll, Claims;
    var ids, hints := RegisterAll(map[], infos), Hints(infos, |infos|, p);
    OnFileAfter(infos, |infos|, p);
    assert infos[..|infos|] == infos;
    NothingDisagrees();
    AliasesAgree(map[], infos);
    assert PointTo(infos, p, slot) <==> hints == {slot} && slot <= 64 by { PointedTo(infos, p, slot); }
    if p in ids {
      OwnRecordDecides(ids, p, slot);
      if hints == {slot} {
        assert Disagree(hints) <==> slot > 64;
      }
    } else {
      assert !Seen(infos, |infos|, p) && hints == {};
      Unclaimed(ids, p, slot);
    }
  }

  lemma PointedTo(infos: seq<Info>, p: Key, slot: nat)
    ensures PointTo(infos, p, slot) <==> Hints(infos, |infos|, p) == {slot} && slot <= 64
  {
    hide IsOf;
    var hints := Hints(infos, |infos|, p);
    if PointTo(infos, p, slot) {
      var i :| 0 <= i < |infos| && IsOf(infos[i], p) && infos[i].userId.Some?;
      assert infos[i].userId.value % 256 + 1 in hints;
    }
    if hints == {slot} {
      assert slot in hints;
      forall i | 0 <= i < |infos| && IsOf(infos[i], p) && infos[i].userId.Some?
        ensures infos[i].userId.value % 256 == slot - 1
      {
        assert infos[i].userId.value % 256 + 1 in hints;
      }
    }
  }

  lemma Unclaimed(ids: Identities, p: Key, slot: nat)
    requires !(exists k :: k in ids && ids[k].stable == p)
    ensures !Claims(ids, p, slot)
  {
    assert Observed(ids, p) == {};
    assert slot in {slot};
  }

  lemma {:induction false} NeverSeen(infos: seq<Info>, n: nat, q: Key, slot: nat)
    requires n <= |infos| && !Seen(infos, n, q)
    ensures forall k <- RegisterAll(map[], infos[..n]) :: RegisterAll(map[], infos[..n])[k].stable != q
    ensures !Claims(RegisterAll(map[], infos[..n]), q, slot)
  {
    hide IsOf, StableOf, KeysOf, Registered, RegisterAll, Claims;
    if n == 0 {
      RegisterNone();
    } else {
      NeverSeen(infos, n - 1, q, slot);
      RegisterLast(map[], infos[..n - 1], infos[n - 1]);
      assert infos[..n] == infos[..n - 1] + [infos[n - 1]];
      KeysMean(infos[n - 1], q);
      NotAsSomebodyElse(RegisterAll(map[], infos[..n - 1]), infos[n - 1], q);
    }
    Unclaimed(RegisterAll(map[], infos[..n]), q, slot);
  }

  lemma NotAsSomebodyElse(ids: Identities, info: Info, q: Key)
    requires StableOf(info) != Some(q) && forall k <- ids :: ids[k].stable != q
    ensures forall k <- Registered(ids, info) :: Registered(ids, info)[k].stable != q
  {
    hide StableOf, KeysOf;
  }

  /** Where no player's id is shared, a player is given a slot exactly if the player's own updates all
      point to it and those of no other player do. */
  lemma SlotMeans(infos: seq<Info>, p: Key, slot: nat)
    requires forall q :: Alone(infos, q) || !Seen(infos, |infos|, q)
    ensures SoleClaim(RegisterAll(map[], infos), p, slot) <==>
            PointTo(infos, p, slot) && forall q :: PointTo(infos, q, slot) ==> q == p
  {
    forall q
      ensures Claims(RegisterAll(map[], infos), q, slot) <==> PointTo(infos, q, slot)
    {
      if Alone(infos, q) {
        ClaimMeans(infos, q, slot);
      } else {
        assert !PointTo(infos, q, slot);
        NeverSeen(infos, |infos|, q, slot);
        assert infos[..|infos|] == infos;
      }
    }
  }
}

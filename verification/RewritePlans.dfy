/** What CosmeticPlan plans for an entity, told from its fields and the patches. */
module RewritePlans {
  import opened Bytes
  import opened Results
  import opened ReplayPayloads
  import opened CosmeticPlan

  /** The entity has this natural number at a path, in whatever number type. */
  predicate Has(s: Snapshot, path: Path, n: nat) {
    path in s && s[path].Whole? && s[path].value == n
  }

  predicate AccountIs(s: Snapshot, p: Patch) {
    Has(s, AccountId, p.owner.accountId)
  }

  /** The two halves of the original owner are 32-bit numbers, and make the patch's owner. */
  predicate OriginalOwnerIs(s: Snapshot, p: Patch) {
    Has(s, OwnerLow, p.owner.steamId % 0x1_0000_0000) && Has(s, OwnerHigh, p.owner.steamId / 0x1_0000_0000)
  }

  predicate ItemIs(s: Snapshot, p: Patch) {
    p.item.None? || Has(s, ItemDefinition, p.item.value)
  }

  predicate Applies(s: Snapshot, p: Patch) {
    (AccountIs(s, p) || OriginalOwnerIs(s, p)) && ItemIs(s, p)
  }

  /** The plan leaves a field alone, and does not report it. */
  predicate Ignores(r: Plan, f: Field) {
    f !in r.incompatible && forall w <- r.replacements :: w.field != f
  }

  predicate Reports(r: Plan, f: Field) {
    f in r.incompatible && forall w <- r.replacements :: w.field != f
  }

  /** The plan replaces a field. */
  predicate Replaces(r: Plan, f: Field, current: Value, replacement: Value) {
    && f !in r.incompatible && Rewrite(f, current, replacement) in r.replacements
    && forall w <- r.replacements :: w.field == f ==> w == Rewrite(f, current, replacement)
  }

  /** A number is asked for: what has a number type that reaches so far gets it, in that type. */
  predicate NumberIsSet(s: Snapshot, r: Plan, f: Field, asked: Option<u32>) {
    if asked.None? || Cosmetic(f) !in s then Ignores(r, f)
    else
      var current := s[Cosmetic(f)];
      if current.Whole? && asked.value <= MaxOf(current.kind)
      then Replaces(r, f, current, Whole(current.kind, asked.value))
      else Reports(r, f)
  }

  /** A fraction is asked for. */
  predicate FractionIsSet(s: Snapshot, r: Plan, f: Field, asked: Option<Float>) {
    if asked.None? || Cosmetic(f) !in s then Ignores(r, f)
    else if s[Cosmetic(f)].Fraction? then Replaces(r, f, s[Cosmetic(f)], Fraction(asked.value))
    else Reports(r, f)
  }

  function Rank(f: Field): nat {
    match f
    case PaintKit => 0
    case Seed => 1
    case Wear => 2
    case StatTrak => 3
  }

  predicate InFieldOrder(w: seq<Rewrite>) {
    forall j, k :: 0 <= j < k < |w| ==> Rank(w[j].field) < Rank(w[k].field)
  }

  /** The plan is that of the first patch that applies: it names the patch and which of the two identities
      it matched by, settles each of its four fields, and lists the replacements in the order of the fields. */
  ghost predicate Fulfils(s: Snapshot, patches: seq<Patch>, i: nat, r: Plan)
    requires i < |patches|
  {
    var p := patches[i];
    && r.patch == Some(i) && Applies(s, p) && (forall k :: 0 <= k < i ==> !Applies(s, patches[k]))
    && r.basis == Some(if AccountIs(s, p) then if OriginalOwnerIs(s, p) then ByBoth else ByAccount else BySteamId)
    && NumberIsSet(s, r, PaintKit, p.values.paintKit) && NumberIsSet(s, r, Seed, p.values.seed)
    && FractionIsSet(s, r, Wear, p.values.wear) && NumberIsSet(s, r, StatTrak, p.values.statTrak)
    && InFieldOrder(r.replacements)
  }

  lemma AppliesMeans(s: Snapshot, p: Patch)
    ensures Matches(s, p) <==> Applies(s, p)
    ensures BasisOf(s, p) == if AccountIs(s, p) then Some(if OriginalOwnerIs(s, p) then ByBoth else ByAccount)
                             else if OriginalOwnerIs(s, p) then Some(BySteamId) else None
  {
    assert OriginalOwnerIs(s, p) <==> SteamIdOf(s) == Some(p.owner.steamId) by {
      if SteamIdOf(s) == Some(p.owner.steamId) {
        Halves(NumberAt(s, OwnerHigh).value, NumberAt(s, OwnerLow).value);
      }
    }
  }

  lemma Halves(high: nat, low: nat)
    requires low < 0x1_0000_0000
    ensures (high * 0x1_0000_0000 + low) / 0x1_0000_0000 == high && (high * 0x1_0000_0000 + low) % 0x1_0000_0000 == low
  {
  }

  lemma InOrderCons(first: Rewrite, rest: seq<Rewrite>)
    requires InFieldOrder(rest) && forall w <- rest :: Rank(first.field) < Rank(w.field)
    ensures InFieldOrder([first] + rest)
  {
    hide Rank;
    var all := [first] + rest;
    assert forall k :: 0 < k < |all| ==> all[k] == rest[k - 1] && all[k] in rest;
  }

  lemma {:induction false} RewritesAscend(s: Snapshot, v: Values, fields: seq<Field>)
    requires forall j, k :: 0 <= j < k < |fields| ==> Rank(fields[j]) < Rank(fields[k])
    ensures InFieldOrder(Rewrites(s, v, fields))
    ensures forall w <- Rewrites(s, v, fields) :: w.field in fields
  {
    hide Requested, Replacement, Rank, InFieldOrder;
    if fields == [] {
      NothingInOrder();
    } else {
      var f, rest := fields[0], Rewrites(s, v, fields[1..]);
      RewritesAscend(s, v, fields[1..]);
      assert fields == [f] + fields[1..];
      if Fate(s, v, f).Some? {
        InOrderCons(Rewrite(f, s[Cosmetic(f)], Fate(s, v, f).value), rest);
      }
    }
  }

  lemma NothingInOrder()
    ensures InFieldOrder([])
  {
  }

  lemma {:induction false} RewriteOf(s: Snapshot, v: Values, fields: seq<Field>, f: Field)
    ensures forall w <- Rewrites(s, v, fields) :: w.field == f ==>
              f in fields && Fate(s, v, f).Some? && w == Rewrite(f, s[Cosmetic(f)], Fate(s, v, f).value)
    ensures f in fields && Fate(s, v, f).Some? ==>
              Rewrite(f, s[Cosmetic(f)], Fate(s, v, f).value) in Rewrites(s, v, fields)
  {
    hide Requested, Replacement;
    if fields != [] {
      RewriteOf(s, v, fields[1..], f);
      assert fields == [fields[0]] + fields[1..];
    }
  }

  /** What PlanEntityRewrite answers: nothing exactly if no patch applies. */
  lemma PlanMeans(s: Snapshot, patches: seq<Patch>, r: Plan)
    requires IsPlan(s, patches, r)
    ensures r.patch.None? <==> forall p <- patches :: !Applies(s, p)
    ensures r.patch.None? ==> r == Plan(None, None, [], {})
    ensures r.patch.Some? ==> r.patch.value < |patches| && Fulfils(s, patches, r.patch.value, r)
  {
    forall p
      ensures Matches(s, p) <==> Applies(s, p)
    {
      AppliesMeans(s, p);
    }
    hide Matches, Applies, Rewrites, Incompatible, BasisOf, NumberIsSet, FractionIsSet;
    if r.patch.Some? {
      var p := patches[r.patch.value];
      AppliesMeans(s, p);
      Ranked();
      RewritesAscend(s, p.values, ALL);
      EveryField(PaintKit);
      FieldIsSet(s, p, r, PaintKit);
      FieldIsSet(s, p, r, Seed);
      FieldIsSet(s, p, r, Wear);
      FieldIsSet(s, p, r, StatTrak);
    }
  }

  lemma Ranked()
    ensures forall j, k :: 0 <= j < k < |ALL| ==> Rank(ALL[j]) < Rank(ALL[k])
  {
  }

  lemma FieldIsSet(s: Snapshot, p: Patch, r: Plan, f: Field)
    requires r.replacements == Rewrites(s, p.values, ALL) && r.incompatible == Incompatible(s, p.values, ALL)
    ensures match f
            case PaintKit => NumberIsSet(s, r, f, p.values.paintKit)
            case Seed => NumberIsSet(s, r, f, p.values.seed)
            case Wear => FractionIsSet(s, r, f, p.values.wear)
            case StatTrak => NumberIsSet(s, r, f, p.values.statTrak)
  {
    hide Rewrites;
    EveryField(f);
    RewriteOf(s, p.values, ALL, f);
    assert f in ALL;
  }

  /** When a request passes: bounds that can be met, at least one patch and not too many; owners with an
      account and a prefix that go together; usable items and values; and no owner's item asked for twice. */
  lemma ValidMeans(patches: seq<Patch>, limits: Limits)
    ensures ValidRequest(patches, limits) <==>
            && limits.maxInputBytes >= 16 && limits.maxOutputBytes >= 16 && limits.maxDemoMessages >= 1
            && limits.maxEntityUpdates >= 1 && limits.maxDistinctEntities >= 1 && limits.maxPatches >= 1
            && 1 <= |patches| <= limits.maxPatches
            && (forall p <- patches :: IsUsable(p))
            && (forall i, j :: 0 <= i < j < |patches| && patches[i].owner.steamId == patches[j].owner.steamId ==>
                  patches[i].item.Some? && patches[j].item.Some? && patches[i].item.value != patches[j].item.value)
  {
    forall p
      ensures PatchOk(p) <==> IsUsable(p)
    {
      UsableMeans(p);
    }
    hide PatchOk, IsUsable;
    if forall i :: 0 <= i < |patches| ==> PatchOk(patches[i]) {
      forall i, j | 0 <= i < j < |patches|
        ensures patches[i].owner == patches[j].owner <==> patches[i].owner.steamId == patches[j].owner.steamId
      {
        if patches[i].owner.steamId == patches[j].owner.steamId {
          SameAccount(patches[i], patches[j]);
        }
      }
    }
  }

  predicate IsUsable(p: Patch) {
    var v := p.values;
    && p.owner.steamId >= 0x1_0000_0000 && p.owner.accountId > 0 && p.owner.steamId % 0x1_0000_0000 == p.owner.accountId
    && (p.item.Some? ==> p.item.value > 0)
    && (v.paintKit.Some? || v.seed.Some? || v.wear.Some? || v.statTrak.Some?)
    && (v.seed.Some? ==> v.seed.value <= 1000)
    && (v.wear.Some? ==> v.wear.value.Finite? && 0.0 <= v.wear.value.value <= 1.0)
  }

  lemma SameAccount(p: Patch, q: Patch)
    requires IsUsable(p) && IsUsable(q) && p.owner.steamId == q.owner.steamId
    ensures p.owner == q.owner
  {
  }

  lemma UsableMeans(p: Patch)
    ensures PatchOk(p) <==> IsUsable(p)
  {
    assert p.values.paintKit.Some? <==> Requested(p.values, PaintKit).Some?;
    assert p.values.seed.Some? <==> Requested(p.values, Seed).Some?;
    assert p.values.wear.Some? <==> Requested(p.values, Wear).Some?;
    assert p.values.statTrak.Some? <==> Requested(p.values, StatTrak).Some?;
  }
}

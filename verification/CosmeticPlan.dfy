/** Planning the rewrite of one entity: which patch of a request applies to it, and what happens to
    each field that the patch asks for. */
module CosmeticPlan {
  import opened Bytes
  import opened Results
  import opened ReplayPayloads

  // --- values ------------------------------------------------------------------------------

  datatype IntKind = I8 | I16 | I32 | I64 | U8 | U16 | U32 | U64

  datatype Value = Whole(kind: IntKind, value: int) | Fraction(float: Float) | Unsupported(name: string)

  function MaxOf(kind: IntKind): nat {
    match kind
    case I8 => 0x7F
    case I16 => 0x7FFF
    case I32 => 0x7FFF_FFFF
    case I64 => 0x7FFF_FFFF_FFFF_FFFF
    case U8 => 0xFF
    case U16 => 0xFFFF
    case U32 => 0xFFFF_FFFF
    case U64 => 0xFFFF_FFFF_FFFF_FFFF
  }

  function AsU64(v: Value): Option<nat> {
    if v.Whole? && v.value >= 0 then Some(v.value) else None
  }

  /** The same number type with another number, if it fits. */
  function ReplaceUnsignedLike(v: Value, replacement: u32): (r: Option<Value>)
    ensures r.Some? <==> v.Whole? && replacement <= MaxOf(v.kind)
    ensures r.Some? ==> r.value.Whole? && r.value.kind == v.kind && r.value.value == replacement
  {
    match v
    case Whole(I8, _) => if replacement < 0x80 then Some(Whole(I8, replacement)) else None
    case Whole(I16, _) => if replacement < 0x8000 then Some(Whole(I16, replacement)) else None
    case Whole(I32, _) => if replacement < 0x8000_0000 then Some(Whole(I32, replacement)) else None
    case Whole(I64, _) => Some(Whole(I64, replacement))
    case Whole(U8, _) => if replacement < 0x100 then Some(Whole(U8, replacement)) else None
    case Whole(U16, _) => if replacement < 0x1_0000 then Some(Whole(U16, replacement)) else None
    case Whole(U32, _) => Some(Whole(U32, replacement))
    case Whole(U64, _) => Some(Whole(U64, replacement))
    case Fraction(_) => None
    case Unsupported(_) => None
  }

  function MinOf(kind: IntKind): int {
    match kind
    case I8 => -0x80
    case I16 => -0x8000
    case I32 => -0x8000_0000
    case I64 => -0x8000_0000_0000_0000
    case U8 => 0
    case U16 => 0
    case U32 => 0
    case U64 => 0
  }

  /** A value of v's number type that is read as n. */
  predicate ReadsAs(v: Value, w: Value, n: u32) {
    v.Whole? && w.Whole? && w.kind == v.kind && MinOf(w.kind) <= w.value <= MaxOf(w.kind) && AsU64(w) == Some(n)
  }

  /** A replacement is the one value of the same type that is read as the number asked for; there is
      none exactly if the type has no such value. */
  lemma ReplacementReadsBack(v: Value, n: u32, w: Value)
    ensures ReplaceUnsignedLike(v, n) == Some(w) <==> ReadsAs(v, w, n)
  {
  }

  // --- requests ------------------------------------------------------------------------------

  datatype Owner = Owner(steamId: u64, accountId: u32)

  datatype Field = PaintKit | Seed | Wear | StatTrak

  const ALL: seq<Field> := [PaintKit, Seed, Wear, StatTrak]

  datatype Values = Values(paintKit: Option<u32>, seed: Option<u32>, wear: Option<Float>, statTrak: Option<u32>)

  datatype Patch = Patch(owner: Owner, item: Option<u16>, values: Values)

  function Requested(v: Values, f: Field): Option<Value> {
    match f
    case PaintKit => if v.paintKit.Some? then Some(Whole(U32, v.paintKit.value)) else None
    case Seed => if v.seed.Some? then Some(Whole(U32, v.seed.value)) else None
    case Wear => if v.wear.Some? then Some(Fraction(v.wear.value)) else None
    case StatTrak => if v.statTrak.Some? then Some(Whole(U32, v.statTrak.value)) else None
  }

  datatype Limits = Limits(maxInputBytes: u64, maxOutputBytes: u64, maxDemoMessages: u64, maxEntityUpdates: u64,
                           maxDistinctEntities: u64, maxPatches: u64)

  /** Every bound is usable; a demo header has 16 bytes. */
  predicate LimitsOk(limits: Limits) {
    && limits.maxInputBytes >= 16 && limits.maxOutputBytes >= 16
    && limits.maxDemoMessages > 0 && limits.maxEntityUpdates > 0 && limits.maxDistinctEntities > 0
    && limits.maxPatches > 0
  }

  datatype RequestError = BadLimits | Empty | TooMany | BadOwner | BadItem | NoValues | BadSeed | BadWear | Overlap

  predicate OwnerOk(o: Owner) {
    o.steamId / 0x1_0000_0000 != 0 && o.accountId != 0 && o.steamId % 0x1_0000_0000 == o.accountId
  }

  predicate PatchOk(p: Patch) {
    && OwnerOk(p.owner) && p.item != Some(0)
    && (exists f :: Requested(p.values, f).Some?)
    && (p.values.seed.Some? ==> p.values.seed.value <= 1000)
    && (p.values.wear.Some? ==> p.values.wear.value.Finite? && 0.0 <= p.values.wear.value.value <= 1.0)
  }

  /** The targets have an item in common. */
  predicate Overlapping(p: Patch, q: Patch) {
    p.owner == q.owner && (p.item.None? || q.item.None? || p.item == q.item)
  }

  ghost predicate ValidRequest(patches: seq<Patch>, limits: Limits) {
    && LimitsOk(limits) && 0 < |patches| <= limits.maxPatches
    && (forall i :: 0 <= i < |patches| ==> PatchOk(patches[i]))
    && (forall i, j :: 0 <= i < j < |patches| ==> !Overlapping(patches[i], patches[j]))
  }

  method ValidateLimits(limits: Limits) returns (r: Option<RequestError>)
    ensures r == if LimitsOk(limits) then None else Some(BadLimits)
  {
    if limits.maxInputBytes < 16 {
      return Some(BadLimits);
    }
    if limits.maxOutputBytes < 16 {
      return Some(BadLimits);
    }
    var counts :=
      [limits.maxDemoMessages, limits.maxEntityUpdates, limits.maxDistinctEntities, limits.maxPatches];
    for i := 0 to |counts|
      invariant forall k :: 0 <= k < i ==> counts[k] > 0
    {
      if counts[i] == 0 {
        return Some(BadLimits);
      }
    }
    assert counts[0] > 0 && counts[1] > 0 && counts[2] > 0 && counts[3] > 0;
    return None;
  }

  /** Why a patch is refused: for the first of these that is wrong. */
  predicate FirstFault(p: Patch, e: RequestError) {
    var item := p.item != Some(0);
    var ids := p.owner.steamId >= 0x1_0000_0000 && p.owner.accountId != 0
               && p.owner.steamId % 0x1_0000_0000 == p.owner.accountId;
    var some := p.values.paintKit.Some? || p.values.seed.Some? || p.values.wear.Some? || p.values.statTrak.Some?;
    var seed := p.values.seed.Some? ==> p.values.seed.value <= 1000;
    match e
    case BadOwner => !ids
    case BadItem => ids && !item
    case NoValues => ids && item && !some
    case BadSeed => ids && item && some && !seed
    case BadWear =>
      ids && item && some && seed && p.values.wear.Some?
      && !(p.values.wear.value.Finite? && 0.0 <= p.values.wear.value.value <= 1.0)
    case _ => false
  }

  method Validate(patches: seq<Patch>, limits: Limits) returns (r: Option<RequestError>)
    ensures r.None? <==> ValidRequest(patches, limits)
    ensures r == Some(BadLimits) <==> !LimitsOk(limits)
    ensures r == Some(Empty) <==> LimitsOk(limits) && patches == []
    ensures r == Some(TooMany) <==> LimitsOk(limits) && |patches| > limits.maxPatches
    ensures r == Some(Overlap) <==>
            LimitsOk(limits) && 0 < |patches| <= limits.maxPatches
            && (forall i :: 0 <= i < |patches| ==> PatchOk(patches[i])) && !ValidRequest(patches, limits)
    ensures r.Some? && r.value !in {BadLimits, Empty, TooMany, Overlap} ==>
              exists i :: 0 <= i < |patches| && FirstFault(patches[i], r.value) && forall k :: 0 <= k < i ==> PatchOk(patches[k])
  {
    var unusable := ValidateLimits(limits);
    if unusable.Some? {
      return unusable;
    }
    if |patches| == 0 {
      return Some(Empty);
    }
    if |patches| > limits.maxPatches {
      return Some(TooMany);
    }
    for i := 0 to |patches|
      invariant forall k :: 0 <= k < i ==> PatchOk(patches[k])
    {
      var error := ValidatePatch(patches[i]);
      if error.Some? {
        return error;
      }
    }
    for left := 0 to |patches|
      invariant forall i, j :: 0 <= i < left && i < j < |patches| ==> !Overlapping(patches[i], patches[j])
    {
      for right := left + 1 to |patches|
        invariant forall j :: left < j < right ==> !Overlapping(patches[left], patches[j])
      {
        if Overlapping(patches[left], patches[right]) {
          return Some(Overlap);
        }
      }
    }
    return None;
  }

  method ValidatePatch(p: Patch) returns (r: Option<RequestError>)
    ensures r.None? <==> PatchOk(p)
    ensures r.Some? ==> FirstFault(p, r.value)
  {
    if p.owner.steamId / 0x1_0000_0000 == 0 || p.owner.accountId == 0
       || p.owner.steamId % 0x1_0000_0000 != p.owner.accountId {
      return Some(BadOwner);
    }
    if p.item == Some(0) {
      return Some(BadItem);
    }
    if p.values.paintKit.None? && p.values.seed.None? && p.values.wear.None? && p.values.statTrak.None? {
      assert forall f :: Requested(p.values, f).None?;
      return Some(NoValues);
    }
    assert exists f :: Requested(p.values, f).Some? by {
      assert p.values.paintKit.Some? ==> Requested(p.values, PaintKit).Some?;
      assert p.values.seed.Some? ==> Requested(p.values, Seed).Some?;
      assert p.values.wear.Some? ==> Requested(p.values, Wear).Some?;
      assert p.values.statTrak.Some? ==> Requested(p.values, StatTrak).Some?;
    }
    if p.values.seed.Some? && p.values.seed.value > 1000 {
      return Some(BadSeed);
    }
    if p.values.wear.Some?
       && (p.values.wear.value.NonFinite? || p.values.wear.value.value < 0.0 || p.values.wear.value.value > 1.0) {
      return Some(BadWear);
    }
    return None;
  }

  // --- matching --------------------------------------------------------------------------------

  /** The allowlisted field paths, and any other. */
  datatype Path = AccountId | OwnerLow | OwnerHigh | ItemDefinition | Cosmetic(field: Field) | Other(path: string)

  type Snapshot = map<Path, Value>

  function NumberAt(s: Snapshot, p: Path): Option<nat> {
    if p in s then AsU64(s[p]) else None
  }

  /** The original owner, if both halves are there and are 32-bit numbers. */
  function SteamIdOf(s: Snapshot): (r: Option<nat>)
    ensures r.Some? ==> r.value <= U64_MAX
  {
    var low :- NumberAt(s, OwnerLow);
    var high :- NumberAt(s, OwnerHigh);
    if low < 0x1_0000_0000 && high < 0x1_0000_0000 then Some(high * 0x1_0000_0000 + low) else None
  }

  datatype Basis = ByAccount | BySteamId | ByBoth

  function BasisOf(s: Snapshot, p: Patch): Option<Basis> {
    var account, steam := NumberAt(s, AccountId) == Some(p.owner.accountId), SteamIdOf(s) == Some(p.owner.steamId);
    if account && steam then Some(ByBoth)
    else if account then Some(ByAccount)
    else if steam then Some(BySteamId)
    else None
  }

  predicate Matches(s: Snapshot, p: Patch) {
    BasisOf(s, p).Some? && (p.item.Some? ==> NumberAt(s, ItemDefinition) == Some(p.item.value))
  }

  /** Both identities are there, could be those of two owners, and name different accounts. */
  predicate IdentitiesConflict(s: Snapshot) {
    && SteamIdOf(s).Some? && NumberAt(s, AccountId).Some?
    && var (steam, account) := (SteamIdOf(s).value, NumberAt(s, AccountId).value);
       && 0 < account < 0x1_0000_0000
       && steam / 0x1_0000_0000 != 0 && steam % 0x1_0000_0000 != 0
       && steam % 0x1_0000_0000 != account
  }

  predicate AccountsTellOwnersApart(patches: seq<Patch>) {
    forall p <- patches, q <- patches :: p.owner.accountId == q.owner.accountId ==> p.owner == q.owner
  }

  /** The entity names an account that could be an owner's. */
  predicate AccountNamed(s: Snapshot) {
    NumberAt(s, AccountId).Some? && 0 < NumberAt(s, AccountId).value < 0x1_0000_0000
  }

  /** Nobody can match by account, or all that match have one owner. */
  predicate OneOwner(s: Snapshot, patches: seq<Patch>) {
    !AccountNamed(s) || (AccountsTellOwnersApart(patches) && !IdentitiesConflict(s))
  }

  /** At most one patch of a valid request matches an entity that names no account; or, if accounts tell
      the owners of the request apart, an entity whose identities do not conflict. */
  lemma MatchIsUnique(patches: seq<Patch>, limits: Limits, s: Snapshot, i: nat, j: nat)
    requires ValidRequest(patches, limits) && OneOwner(s, patches)
    requires i < |patches| && j < |patches| && Matches(s, patches[i]) && Matches(s, patches[j])
    ensures i == j
  {
    var p, q := patches[i], patches[j];
    assert PatchOk(p) && PatchOk(q) && p in patches && q in patches;
    SameOwner(s, patches, p, q);
    assert Overlapping(p, q) && Overlapping(q, p);
  }

  lemma SameOwner(s: Snapshot, patches: seq<Patch>, p: Patch, q: Patch)
    requires OneOwner(s, patches) && p in patches && q in patches
    requires Matches(s, p) && Matches(s, q) && OwnerOk(p.owner) && OwnerOk(q.owner)
    ensures p.owner == q.owner
  {
    hide SteamIdOf, NumberAt;
    if AccountNamed(s) {
      assert p.owner.accountId == q.owner.accountId;
    }
  }

  ghost predicate TwoMatch(s: Snapshot, patches: seq<Patch>, limits: Limits) {
    && ValidRequest(patches, limits)
    && exists i, j :: 0 <= i < j < |patches| && Matches(s, patches[i]) && Matches(s, patches[j])
  }

  /** A patch that asks for one field. */
  function PatchOfOwner(steamId: u64, f: Field): Patch {
    Patch(Owner(steamId, steamId % 0x1_0000_0000), None, OnlyValue(f))
  }

  function OnlyValue(f: Field): Values {
    match f
    case PaintKit => Values(Some(1), None, None, None)
    case Seed => Values(None, Some(1), None, None)
    case Wear => Values(None, None, Some(Finite(0.5)), None)
    case StatTrak => Values(None, None, None, Some(1))
  }

  /** An owner of the account that the entity names. */
  function AccountOwner(s: Snapshot, prefix: u32): (r: u64)
    requires AccountNamed(s) && prefix > 0
    ensures r / 0x1_0000_0000 == prefix && r % 0x1_0000_0000 == NumberAt(s, AccountId).value
  {
    prefix * 0x1_0000_0000 + NumberAt(s, AccountId).value
  }

  function OriginalOwner(s: Snapshot): (r: u64)
    requires IdentitiesConflict(s)
    ensures r / 0x1_0000_0000 != 0 && r % 0x1_0000_0000 !in {0, NumberAt(s, AccountId).value}
  {
    SteamIdOf(s).value
  }

  /** The owner could be one, and the entity names its account or the owner itself. */
  predicate Named(s: Snapshot, steamId: u64) {
    && steamId / 0x1_0000_0000 != 0 && steamId % 0x1_0000_0000 != 0
    && (NumberAt(s, AccountId) == Some(steamId % 0x1_0000_0000) || SteamIdOf(s) == Some(steamId))
  }

  const TWO_PATCHES := Limits(16, 16, 1, 1, 1, 2)

  lemma BothOwnersMatch(s: Snapshot, x: u64, y: u64, f: Field, g: Field)
    requires Named(s, x) && Named(s, y) && x != y
    ensures var a, b := PatchOfOwner(x, f), PatchOfOwner(y, g);
            && ValidRequest([a, b], TWO_PATCHES) && Matches(s, a) && Matches(s, b)
            && (x % 0x1_0000_0000 != y % 0x1_0000_0000 ==> AccountsTellOwnersApart([a, b]))
  {
    hide NumberAt, SteamIdOf, Requested, OnlyValue;
    PatchIsOk(x, f);
    PatchIsOk(y, g);
  }

  lemma PatchIsOk(steamId: u64, f: Field)
    requires steamId / 0x1_0000_0000 != 0 && steamId % 0x1_0000_0000 != 0
    ensures PatchOk(PatchOfOwner(steamId, f))
  {
    AsksFor(f);
    assert Requested(OnlyValue(f), f).Some?;
  }

  lemma AsksFor(f: Field)
    ensures forall x :: Requested(OnlyValue(f), x).Some? <==> x == f
  {
  }

  lemma TheyMatch(s: Snapshot, x: u64, y: u64)
    requires Named(s, x) && Named(s, y) && x != y
    ensures var patches := [PatchOfOwner(x, PaintKit), PatchOfOwner(y, Seed)];
            && TwoMatch(s, patches, TWO_PATCHES)
            && (x % 0x1_0000_0000 != y % 0x1_0000_0000 ==> AccountsTellOwnersApart(patches))
  {
    hide ValidRequest, Matches, AccountsTellOwnersApart, Named;
    BothOwnersMatch(s, x, y, PaintKit, Seed);
    var patches := [PatchOfOwner(x, PaintKit), PatchOfOwner(y, Seed)];
    assert Matches(s, patches[0]) && Matches(s, patches[1]);
  }

  lemma OwnersAreNamed(s: Snapshot)
    ensures AccountNamed(s) ==> Named(s, AccountOwner(s, 1)) && Named(s, AccountOwner(s, 2))
    ensures IdentitiesConflict(s) ==> AccountNamed(s) && Named(s, OriginalOwner(s))
  {
    hide SteamIdOf, NumberAt;
  }

  /** Two patches of some valid request match an entity exactly if it names an account: two owners can
      have one account. */
  lemma TwoMatchIff(s: Snapshot)
    ensures (exists patches, limits :: TwoMatch(s, patches, limits)) <==> AccountNamed(s)
  {
    hide ValidRequest, Matches, AccountNamed, IdentitiesConflict, AccountsTellOwnersApart, TwoMatch;
    OwnersAreNamed(s);
    if AccountNamed(s) {
      TheyMatch(s, AccountOwner(s, 1), AccountOwner(s, 2));
    } else if patches, limits :| TwoMatch(s, patches, limits) {
      NoTwoMatch(s, patches, limits);
    }
  }

  lemma NoTwoMatch(s: Snapshot, patches: seq<Patch>, limits: Limits)
    requires OneOwner(s, patches)
    ensures !TwoMatch(s, patches, limits)
  {
    hide ValidRequest, Matches, OneOwner;
    if TwoMatch(s, patches, limits) {
      var i, j :| 0 <= i < j < |patches| && Matches(s, patches[i]) && Matches(s, patches[j]);
      MatchIsUnique(patches, limits, s, i, j);
    }
  }

  ghost predicate TwoApartMatch(s: Snapshot, patches: seq<Patch>, limits: Limits) {
    TwoMatch(s, patches, limits) && AccountsTellOwnersApart(patches)
  }

  /** Among the requests whose owners differ in their accounts, it takes conflicting identities. */
  lemma TwoMatchIffConflict(s: Snapshot)
    ensures (exists patches, limits :: TwoApartMatch(s, patches, limits)) <==> IdentitiesConflict(s)
  {
    hide ValidRequest, Matches, IdentitiesConflict, AccountsTellOwnersApart, TwoMatch;
    OwnersAreNamed(s);
    if IdentitiesConflict(s) {
      var patches := [PatchOfOwner(AccountOwner(s, 1), PaintKit), PatchOfOwner(OriginalOwner(s), Seed)];
      TheyMatch(s, AccountOwner(s, 1), OriginalOwner(s));
      assert TwoApartMatch(s, patches, TWO_PATCHES);
    } else if patches, limits :| TwoApartMatch(s, patches, limits) {
      NoTwoMatch(s, patches, limits);
    }
  }

  // --- the plan ------------------------------------------------------------------------------------

  datatype Rewrite = Rewrite(field: Field, current: Value, replacement: Value)

  datatype Plan = Plan(patch: Option<nat>, basis: Option<Basis>, replacements: seq<Rewrite>, incompatible: set<Field>)

  const NO_PLAN := Plan(None, None, [], {})

  /** What a requested field that is there becomes, if its type allows it. */
  function Replacement(current: Value, wanted: Value): (r: Option<Value>) {
    match wanted
    case Whole(_, n) => if 0 <= n <= 0xFFFF_FFFF then ReplaceUnsignedLike(current, n) else None
    case Fraction(_) => if current.Fraction? then Some(wanted) else None
    case Unsupported(_) => None
  }

  /** The fields of some list, in its order. */
  function Rewrites(s: Snapshot, v: Values, fields: seq<Field>): seq<Rewrite> {
    if fields == [] then []
    else
      var f := fields[0];
      var rest := Rewrites(s, v, fields[1..]);
      if Requested(v, f).Some? && Cosmetic(f) in s && Replacement(s[Cosmetic(f)], Requested(v, f).value).Some?
      then [Rewrite(f, s[Cosmetic(f)], Replacement(s[Cosmetic(f)], Requested(v, f).value).value)] + rest
      else rest
  }

  function Incompatible(s: Snapshot, v: Values, fields: seq<Field>): set<Field> {
    set f | f in fields && Requested(v, f).Some? && Cosmetic(f) in s
            && Replacement(s[Cosmetic(f)], Requested(v, f).value).None?
  }

  function PlanFor(s: Snapshot, p: Patch, index: nat): Plan {
    Plan(Some(index), BasisOf(s, p), Rewrites(s, p.values, ALL), Incompatible(s, p.values, ALL))
  }

  method PlanFields(s: Snapshot, v: Values) returns (replacements: seq<Rewrite>, incompatible: set<Field>)
    ensures replacements == Rewrites(s, v, ALL) && incompatible == Incompatible(s, v, ALL)
  {
    hide Requested, Replacement;
    replacements, incompatible := [], {};
    for i := 0 to |ALL|
      invariant replacements + Rewrites(s, v, ALL[i..]) == Rewrites(s, v, ALL)
      invariant incompatible == Incompatible(s, v, ALL[..i])
    {
      var field := ALL[i];
      assert ALL[i..][0] == field && ALL[i..][1..] == ALL[i + 1..];
      assert ALL[..i + 1] == ALL[..i] + [field];
      var wanted := Requested(v, field);
      if wanted.None? { continue; }
      if Cosmetic(field) !in s { continue; }
      var current := s[Cosmetic(field)];
      var replacement := Replacement(current, wanted.value);
      if replacement.Some? {
        replacements := replacements + [Rewrite(field, current, replacement.value)];
      } else {
        incompatible := incompatible + {field};
      }
    }
    assert ALL[..|ALL|] == ALL && ALL[|ALL|..] == [];
  }

  /** r is the plan of the first patch that matches. */
  ghost predicate IsPlan(s: Snapshot, patches: seq<Patch>, r: Plan) {
    if r.patch.None? then r == NO_PLAN && forall i :: 0 <= i < |patches| ==> !Matches(s, patches[i])
    else
      && r.patch.value < |patches| && Matches(s, patches[r.patch.value])
      && (forall i :: 0 <= i < r.patch.value ==> !Matches(s, patches[i]))
      && r == PlanFor(s, patches[r.patch.value], r.patch.value)
  }

  method PlanEntityRewrite(s: Snapshot, patches: seq<Patch>) returns (r: Plan)
    ensures IsPlan(s, patches, r)
  {
    for i := 0 to |patches|
      invariant forall k :: 0 <= k < i ==> !Matches(s, patches[k])
    {
      var patch := patches[i];
      var accountMatches := NumberAt(s, AccountId) == Some(patch.owner.accountId);
      var steamMatches := SteamIdOf(s) == Some(patch.owner.steamId);
      if !accountMatches && !steamMatches {
        continue;
      }
      if patch.item.Some? && NumberAt(s, ItemDefinition) != Some(patch.item.value) {
        continue;
      }
      var basis := if accountMatches && steamMatches then ByBoth else if accountMatches then ByAccount else BySteamId;
      var replacements, incompatible := PlanFields(s, patch.values);
      return Plan(Some(i), Some(basis), replacements, incompatible);
    }
    return NO_PLAN;
  }

  // --- what a plan means -------------------------------------------------------------------------------

  /** Where at most one patch can match, reordering the patches of a request leaves the rewrite as it is;
      only the index follows the matching patch. */
  lemma OrderDoesNotMatter(s: Snapshot, patches: seq<Patch>, limits: Limits, reordered: seq<Patch>, r: Plan, r': Plan)
    requires ValidRequest(patches, limits) && OneOwner(s, patches)
    requires multiset(patches) == multiset(reordered)
    requires IsPlan(s, patches, r) && IsPlan(s, reordered, r')
    ensures r.(patch := None) == r'.(patch := None)
    ensures r.patch.Some? <==> r'.patch.Some?
    ensures r.patch.Some? ==> patches[r.patch.value] == reordered[r'.patch.value]
  {
    hide Matches, ValidRequest, OneOwner, Rewrites, Incompatible, BasisOf;
    assert forall p :: p in multiset(patches) <==> p in patches;
    assert forall p :: p in multiset(reordered) <==> p in reordered;
    assert r.patch.Some? ==> patches[r.patch.value] in reordered;
    if r'.patch.Some? {
      var q := reordered[r'.patch.value];
      assert q in patches;
      var j :| 0 <= j < |patches| && patches[j] == q;
      if r.patch.Some? {
        MatchIsUnique(patches, limits, s, r.patch.value, j);
      }
    }
  }

  /** Two orders of the patches of one valid request rewrite the entity differently. */
  ghost predicate OrderDecides(s: Snapshot, patches: seq<Patch>, limits: Limits, reordered: seq<Patch>) {
    && ValidRequest(patches, limits) && multiset(patches) == multiset(reordered)
    && exists r, r' :: IsPlan(s, patches, r) && IsPlan(s, reordered, r')
                       && (r.replacements != r'.replacements || r.incompatible != r'.incompatible)
  }

  predicate HasField(s: Snapshot) {
    exists f :: Cosmetic(f) in s
  }

  /** Whether the order of some valid request decides about an entity: exactly if it names an account and
      has one of the fields at all. */
  lemma OrderDecidesIff(s: Snapshot)
    ensures (exists patches, limits, reordered :: OrderDecides(s, patches, limits, reordered)) <==>
            AccountNamed(s) && HasField(s)
  {
    hide AccountNamed, AccountsTellOwnersApart, IdentitiesConflict, OrderDecides;
    OwnersAreNamed(s);
    if AccountNamed(s) && HasField(s) {
      var a, b := OrderDecidesBetween(s, AccountOwner(s, 1), AccountOwner(s, 2));
      assert OrderDecides(s, a, TWO_PATCHES, b);
    }
    if patches, limits, reordered :| OrderDecides(s, patches, limits, reordered) {
      DecidesOnlyIf(s, patches, limits, reordered);
    }
  }

  ghost predicate ApartOrderDecides(s: Snapshot, patches: seq<Patch>, limits: Limits, reordered: seq<Patch>) {
    OrderDecides(s, patches, limits, reordered) && AccountsTellOwnersApart(patches)
  }

  /** Among the requests whose owners differ in their accounts: exactly if the identities conflict. */
  lemma OrderDecidesIffConflict(s: Snapshot)
    ensures (exists patches, limits, reordered :: ApartOrderDecides(s, patches, limits, reordered)) <==>
            IdentitiesConflict(s) && HasField(s)
  {
    hide AccountNamed, AccountsTellOwnersApart, IdentitiesConflict, OrderDecides;
    OwnersAreNamed(s);
    if IdentitiesConflict(s) && HasField(s) {
      var a, b := OrderDecidesBetween(s, AccountOwner(s, 1), OriginalOwner(s));
      assert ApartOrderDecides(s, a, TWO_PATCHES, b);
    }
    if patches, limits, reordered :| ApartOrderDecides(s, patches, limits, reordered) {
      DecidesOnlyIf(s, patches, limits, reordered);
    }
  }

  lemma DecidesOnlyIf(s: Snapshot, patches: seq<Patch>, limits: Limits, reordered: seq<Patch>)
    requires OrderDecides(s, patches, limits, reordered)
    ensures !OneOwner(s, patches) && HasField(s)
  {
    hide ValidRequest, OneOwner, IsPlan;
    var r, r' :| IsPlan(s, patches, r) && IsPlan(s, reordered, r')
                 && (r.replacements != r'.replacements || r.incompatible != r'.incompatible);
    if OneOwner(s, patches) {
      OrderDoesNotMatter(s, patches, limits, reordered, r, r');
    }
    if !HasField(s) {
      NothingToRewrite(s, patches, r);
      NothingToRewrite(s, reordered, r');
    }
  }

  lemma NothingToRewrite(s: Snapshot, patches: seq<Patch>, r: Plan)
    requires IsPlan(s, patches, r) && !HasField(s)
    ensures r.replacements == [] && r.incompatible == {}
  {
    hide Matches, BasisOf, Requested, Replacement;
    if r.patch.Some? {
      var v := patches[r.patch.value].values;
      NoRewrites(s, v, ALL);
    }
  }

  lemma {:induction false} NoRewrites(s: Snapshot, v: Values, fields: seq<Field>)
    requires forall f <- fields :: Cosmetic(f) !in s || Requested(v, f).None?
    ensures Rewrites(s, v, fields) == [] && Incompatible(s, v, fields) == {}
  {
    hide Requested, Replacement;
    if fields != [] {
      assert fields == [fields[0]] + fields[1..];
      NoRewrites(s, v, fields[1..]);
    }
  }

  lemma FirstDecides(s: Snapshot, a: Patch, b: Patch)
    requires Matches(s, a)
    ensures IsPlan(s, [a, b], PlanFor(s, a, 0))
  {
  }

  lemma OrderDecidesBetween(s: Snapshot, x: u64, y: u64) returns (patches: seq<Patch>, reordered: seq<Patch>)
    requires Named(s, x) && Named(s, y) && x != y && HasField(s)
    ensures OrderDecides(s, patches, TWO_PATCHES, reordered)
    ensures x % 0x1_0000_0000 != y % 0x1_0000_0000 ==> AccountsTellOwnersApart(patches)
  {
    hide OrderDecides, AccountsTellOwnersApart, Named;
    var f :| Cosmetic(f) in s;
    var g := if f == PaintKit then Seed else PaintKit;
    BothOwnersMatch(s, x, y, f, g);
    OrderDecidesOnField(s, x, y, f, g);
    patches, reordered := [PatchOfOwner(x, f), PatchOfOwner(y, g)], [PatchOfOwner(y, g), PatchOfOwner(x, f)];
  }

  /** The patch of the one owner asks for field f only, that of the other for field g only. */
  lemma OrderDecidesOnField(s: Snapshot, x: u64, y: u64, f: Field, g: Field)
    requires Named(s, x) && Named(s, y) && x != y && Cosmetic(f) in s && f != g
    ensures var a, b := PatchOfOwner(x, f), PatchOfOwner(y, g);
            OrderDecides(s, [a, b], TWO_PATCHES, [b, a])
  {
    hide ValidRequest, Named, AccountsTellOwnersApart, IsPlan, Matches, Requested, Replacement, Rewrites, Incompatible,
         BasisOf;
    BothOwnersMatch(s, x, y, f, g);
    var a, b := PatchOfOwner(x, f), PatchOfOwner(y, g);
    FirstDecides(s, a, b);
    FirstDecides(s, b, a);
    var r, r' := PlanFor(s, a, 0), PlanFor(s, b, 0);
    AsksFor(f);
    AsksFor(g);
    EveryField(f);
    FieldsAreSettled(s, a.values, f);
    FieldsAreSettled(s, b.values, f);
    assert r.replacements != r'.replacements || r.incompatible != r'.incompatible;
    assert multiset([a, b]) == multiset([b, a]);
  }

  /** The value is asked for, in the type that the entity has it in. */
  predicate SameTyped(current: Value, wanted: Value, replacement: Value) {
    match wanted
    case Whole(_, n) => current.Whole? && replacement == Whole(current.kind, n) && n <= MaxOf(current.kind)
    case Fraction(x) => current.Fraction? && replacement == Fraction(x)
    case Unsupported(_) => false
  }

  /** What a plan replaces a field by. */
  function Find(rewrites: seq<Rewrite>, f: Field): Option<Value> {
    if rewrites == [] then None
    else if rewrites[0].field == f then Some(rewrites[0].replacement)
    else Find(rewrites[1..], f)
  }

  /** What the request does to a field of the entity. */
  function Fate(s: Snapshot, v: Values, f: Field): Option<Value> {
    if Requested(v, f).Some? && Cosmetic(f) in s then Replacement(s[Cosmetic(f)], Requested(v, f).value) else None
  }

  lemma {:induction false} FindInRewrites(s: Snapshot, v: Values, fields: seq<Field>, f: Field)
    ensures Find(Rewrites(s, v, fields), f) == if f in fields then Fate(s, v, f) else None
    ensures forall w <- Rewrites(s, v, fields) ::
      w.field in fields && Cosmetic(w.field) in s && w.current == s[Cosmetic(w.field)]
      && Fate(s, v, w.field) == Some(w.replacement)
  {
    hide Requested, Replacement;
    if fields != [] {
      FindInRewrites(s, v, fields[1..], f);
      assert fields == [fields[0]] + fields[1..];
      var rest := Rewrites(s, v, fields[1..]);
      assert Rewrites(s, v, fields) != rest ==> Rewrites(s, v, fields)[1..] == rest;
    }
  }

  ghost predicate FieldsDiffer(rewrites: seq<Rewrite>) {
    forall i, j :: 0 <= i < j < |rewrites| ==> rewrites[i].field != rewrites[j].field
  }

  lemma {:induction false} RewritesDiffer(s: Snapshot, v: Values, fields: seq<Field>)
    requires forall i, j :: 0 <= i < j < |fields| ==> fields[i] != fields[j]
    ensures FieldsDiffer(Rewrites(s, v, fields))
  {
    hide Requested, Replacement;
    if fields != [] {
      RewritesDiffer(s, v, fields[1..]);
      FindInRewrites(s, v, fields[1..], fields[0]);
      var rest := Rewrites(s, v, fields[1..]);
      forall w | w in rest
        ensures w.field != fields[0]
      {
        assert w.field in fields[1..];
      }
    }
  }

  lemma EveryField(f: Field)
    ensures f in ALL && forall i, j :: 0 <= i < j < |ALL| ==> ALL[i] != ALL[j]
  {
    assert ALL[0] == PaintKit && ALL[1] == Seed && ALL[2] == Wear && ALL[3] == StatTrak;
  }

  /** Every field that is asked for and is there is either replaced, once, by the value asked for in
      the type it has, or reported as incompatible, namely if its type has no such value. A field
      that is not asked for or not there is neither. */
  lemma FieldsAreSettled(s: Snapshot, v: Values, f: Field)
    ensures var rewrites, incompatible := Rewrites(s, v, ALL), Incompatible(s, v, ALL);
            && FieldsDiffer(rewrites)
            && (forall w <- rewrites :: Cosmetic(w.field) in s && w.current == s[Cosmetic(w.field)])
            && if Requested(v, f).None? || Cosmetic(f) !in s then
                 f !in incompatible && Find(rewrites, f) == None
               else
                 && (f in incompatible <==> Find(rewrites, f).None?)
                 && (f in incompatible <==> forall x :: !SameTyped(s[Cosmetic(f)], Requested(v, f).value, x))
                 && (Find(rewrites, f).Some? ==>
                       SameTyped(s[Cosmetic(f)], Requested(v, f).value, Find(rewrites, f).value))
  {
    EveryField(f);
    RewritesDiffer(s, v, ALL);
    FindInRewrites(s, v, ALL, f);
    if Requested(v, f).Some? && Cosmetic(f) in s {
      ReplacementMeans(s[Cosmetic(f)], Requested(v, f).value);
    }
  }

  lemma ReplacementMeans(current: Value, wanted: Value)
    requires wanted.Whole? ==> 0 <= wanted.value <= 0xFFFF_FFFF
    ensures Replacement(current, wanted).Some? ==> SameTyped(current, wanted, Replacement(current, wanted).value)
    ensures Replacement(current, wanted).None? <==> forall x :: !SameTyped(current, wanted, x)
  {
    if Replacement(current, wanted).Some? {
      assert SameTyped(current, wanted, Replacement(current, wanted).value);
    }
  }

  // --- planning again -----------------------------------------------------------------------------------

  /** The entity after the rewrite. */
  function Applied(s: Snapshot, rewrites: seq<Rewrite>): Snapshot {
    map p | p in s ::
      if p.Cosmetic? && Find(rewrites, p.field).Some? then Find(rewrites, p.field).value else s[p]
  }

  function Kept(rewrites: seq<Rewrite>): (r: seq<Rewrite>)
    ensures |r| == |rewrites|
  {
    seq(|rewrites|, i requires 0 <= i < |rewrites| => rewrites[i].(current := rewrites[i].replacement))
  }

  lemma {:induction false} RewritesAgain(s: Snapshot, s': Snapshot, v: Values, fields: seq<Field>)
    requires forall f :: Cosmetic(f) in s' <==> Cosmetic(f) in s
    requires forall f :: Cosmetic(f) in s ==>
      s'[Cosmetic(f)] == if Fate(s, v, f).Some? then Fate(s, v, f).value else s[Cosmetic(f)]
    ensures Rewrites(s', v, fields) == Kept(Rewrites(s, v, fields))
    ensures Incompatible(s', v, fields) == Incompatible(s, v, fields)
  {
    forall f
      ensures Fate(s', v, f) == Fate(s, v, f)
    {
      if Fate(s, v, f).Some? {
        ReplacementStays(s[Cosmetic(f)], Requested(v, f).value);
      }
    }
    hide Requested, Replacement;
    if fields != [] {
      RewritesAgain(s, s', v, fields[1..]);
      var f, rest := fields[0], Rewrites(s, v, fields[1..]);
      if Fate(s, v, f).Some? {
        assert Kept([Rewrite(f, s[Cosmetic(f)], Fate(s, v, f).value)] + rest)
            == [Rewrite(f, Fate(s, v, f).value, Fate(s, v, f).value)] + Kept(rest);
      }
    }
  }

  lemma ReplacementStays(current: Value, wanted: Value)
    requires Replacement(current, wanted).Some?
    ensures Replacement(Replacement(current, wanted).value, wanted) == Replacement(current, wanted)
  {
  }

  /** Planning for the rewritten entity matches the same patch in the same way, asks for the same
      replacements and reports the same fields; so applying it again changes nothing. */
  lemma ReplanningIsStable(s: Snapshot, patches: seq<Patch>, r: Plan, r': Plan)
    requires IsPlan(s, patches, r) && IsPlan(Applied(s, r.replacements), patches, r')
    ensures r' == r.(replacements := Kept(r.replacements))
    ensures Applied(Applied(s, r.replacements), r'.replacements) == Applied(s, r.replacements)
  {
    var s' := Applied(s, r.replacements);
    forall p
      ensures BasisOf(s', p) == BasisOf(s, p) && Matches(s', p) == Matches(s, p)
    {
      IdentityIsKept(s, r.replacements, p);
    }
    hide Matches, BasisOf;
    if r.patch.Some? {
      var v := patches[r.patch.value].values;
      forall f
        ensures Find(r.replacements, f) == Fate(s, v, f)
      {
        EveryField(f);
        FindInRewrites(s, v, ALL, f);
      }
      hide Fate, Rewrites, Incompatible;
      RewritesAgain(s, s', v, ALL);
      FindKept(r.replacements);
    } else {
      assert Kept([]) == [];
    }
  }

  lemma IdentityIsKept(s: Snapshot, rewrites: seq<Rewrite>, p: Patch)
    ensures BasisOf(Applied(s, rewrites), p) == BasisOf(s, p)
    ensures Matches(Applied(s, rewrites), p) == Matches(s, p)
  {
    hide Find;
    assert forall q: Path :: !q.Cosmetic? ==> NumberAt(Applied(s, rewrites), q) == NumberAt(s, q);
  }

  lemma {:induction false} FindKept(rewrites: seq<Rewrite>)
    ensures forall f :: Find(Kept(rewrites), f) == Find(rewrites, f)
  {
    if rewrites != [] {
      FindKept(rewrites[1..]);
      assert Kept(rewrites)[1..] == Kept(rewrites[1..]);
    }
  }
}

/** The selected-round replay: a verified five-against-five roster, the reader of player snapshots,
    and frames that show exactly those ten players. */
module RoundFrames {
  import opened Bytes
  import opened Texts
  import opened Results
  import opened Sorting

  datatype Team = A | B | OtherTeam

  datatype Side = T | CT | OtherSide

  datatype Player = Player(steamId: string, name: string, team: Team, side: Side)

  datatype Snapshot = Snapshot(steamId: u64, tick: u64, side: Side, state: nat)

  /** The player as the roster has it, with the state of the snapshot. */
  datatype Shown = Shown(player: Player, state: nat)

  datatype Frame = Frame(tick: u64, players: seq<Shown>)

  datatype ReplayError = Size | Noncanonical | ConflictingSides | NotFiveOnFive
                       | TickOutOfRange | NoProperty | NoTickColumn | InvalidField | DuplicateSnapshot
                       | ExtraPlayer | SideConflict | IncompleteTick

  // --- the roster ------------------------------------------------------------------------------

  /** Universe, account type and instance 1, and an account that is not 0. */
  predicate IsSteamId(value: string) {
    && |value| == 17 && AllDigits(value) && Value(value) <= U64_MAX
    && var id := Value(value);
       && id / 0x100_0000_0000_0000 % 0x100 == 1
       && id / 0x10_0000_0000_0000 % 0x10 == 1
       && id / 0x1_0000_0000 % 0x10_0000 == 1
       && id % 0x1_0000_0000 != 0
  }

  const FIRST_ACCOUNT: u64 := 0x0110_0001_0000_0001
  const LAST_ACCOUNT: u64 := 0x0110_0001_FFFF_FFFF

  /** The four fields leave one range of numbers. */
  lemma SteamIdRange(value: string)
    requires |value| == 17 && AllDigits(value)
    ensures IsSteamId(value) <==> FIRST_ACCOUNT <= Value(value) <= LAST_ACCOUNT
  {
  }

  predicate IsWhitespace(c: char) {
    '\t' <= c <= '\r' || c in " \U{85}\U{a0}\U{1680}\U{2028}\U{2029}\U{202f}\U{205f}\U{3000}"
    || '\U{2000}' <= c <= '\U{200a}'
  }

  function TrimStart(s: string): string {
    if s != "" && IsWhitespace(s[0]) then TrimStart(s[1..]) else s
  }

  function TrimEnd(s: string): string {
    if s != "" && IsWhitespace(s[|s| - 1]) then TrimEnd(s[..|s| - 1]) else s
  }

  predicate IsBoundedText(value: string, maximumChars: nat) {
    var text := TrimEnd(TrimStart(value));
    text != "" && |text| <= maximumChars && '\r' !in text && '\n' !in text && '\0' !in text
  }

  predicate Canonical(p: Player) {
    IsSteamId(p.steamId) && IsBoundedText(p.name, 128) && (p.team.A? || p.team.B?) && (p.side.T? || p.side.CT?)
  }

  predicate DistinctIds(roster: seq<Player>) {
    forall i, j :: 0 <= i < j < |roster| ==> roster[i].steamId != roster[j].steamId
  }

  function OnTeam(roster: seq<Player>, team: Team): nat {
    if roster == [] then 0
    else OnTeam(roster[..|roster| - 1], team) + if roster[|roster| - 1].team == team then 1 else 0
  }

  function OnSide(roster: seq<Player>, side: Side): nat {
    if roster == [] then 0
    else OnSide(roster[..|roster| - 1], side) + if roster[|roster| - 1].side == side then 1 else 0
  }

  function Opposite(side: Side): Side {
    if side.T? then CT else T
  }

  /** Team A plays on one side, team B on the other. */
  predicate Split(roster: seq<Player>, sideOfA: Side) {
    forall i :: 0 <= i < |roster| ==> roster[i].side == if roster[i].team.A? then sideOfA else Opposite(sideOfA)
  }

  /** Ten different canonical players, five of each team, and each team on its own side. */
  ghost predicate FiveOnFive(roster: seq<Player>) {
    && |roster| == 10 && DistinctIds(roster)
    && (forall i :: 0 <= i < |roster| ==> Canonical(roster[i]))
    && OnTeam(roster, A) == 5 && OnTeam(roster, B) == 5
    && (Split(roster, T) || Split(roster, CT))
  }

  /** Then the sides are five against five as well: the check of their counts adds nothing. */
  lemma {:induction false} SplitCounts(roster: seq<Player>, sideOfA: Side)
    requires Split(roster, sideOfA) && (sideOfA.T? || sideOfA.CT?)
    requires forall i :: 0 <= i < |roster| ==> Canonical(roster[i])
    ensures OnSide(roster, sideOfA) == OnTeam(roster, A) && OnSide(roster, Opposite(sideOfA)) == OnTeam(roster, B)
  {
    if roster != [] {
      var before, last := roster[..|roster| - 1], roster[|roster| - 1];
      assert forall i :: 0 <= i < |before| ==> before[i] == roster[i];
      SplitCounts(before, sideOfA);
      assert last == roster[|roster| - 1] && Canonical(last);
    }
  }

  /** What the loop knows of the sides of the teams. */
  ghost predicate SidesSeen(roster: seq<Player>, sides: map<Team, Side>) {
    && (forall i :: 0 <= i < |roster| ==> roster[i].team in sides && sides[roster[i].team] == roster[i].side)
    && (forall t <- sides :: OnTeam(roster, t) > 0)
  }

  lemma OnTeamNext(roster: seq<Player>, p: Player, t: Team)
    ensures OnTeam(roster + [p], t) == OnTeam(roster, t) + if p.team == t then 1 else 0
  {
    assert (roster + [p])[..|roster|] == roster;
  }

  lemma OnSideNext(roster: seq<Player>, p: Player, s: Side)
    ensures OnSide(roster + [p], s) == OnSide(roster, s) + if p.side == s then 1 else 0
  {
    assert (roster + [p])[..|roster|] == roster;
  }

  /** Player i is not canonical, or a player before him has his id. */
  ghost predicate Unfit(roster: seq<Player>, i: nat)
    requires i < |roster|
  {
    !Canonical(roster[i]) || exists k :: 0 <= k < i && roster[k].steamId == roster[i].steamId
  }

  /** A player of his team is on another side. */
  ghost predicate Clashes(roster: seq<Player>, i: nat)
    requires i < |roster|
  {
    exists k :: 0 <= k < i && roster[k].team == roster[i].team && roster[k].side != roster[i].side
  }

  /** The first i players are in order. */
  ghost predicate SoFarSoGood(roster: seq<Player>, i: nat)
    requires i <= |roster|
  {
    forall k :: 0 <= k < i ==> !Unfit(roster, k) && !Clashes(roster, k)
  }

  /** What a roster is refused for: its size, the first player at whom something is wrong, or all together. */
  ghost predicate IsRefused(roster: seq<Player>, e: ReplayError) {
    match e
    case Size => |roster| != 10
    case Noncanonical => |roster| == 10 && exists i :: 0 <= i < 10 && SoFarSoGood(roster, i) && Unfit(roster, i)
    case ConflictingSides =>
      |roster| == 10 && exists i :: 0 <= i < 10 && SoFarSoGood(roster, i) && !Unfit(roster, i) && Clashes(roster, i)
    case NotFiveOnFive => |roster| == 10 && SoFarSoGood(roster, 10) && !FiveOnFive(roster)
    case _ => false
  }

  method ValidateRoster(roster: seq<Player>) returns (r: Option<ReplayError>)
    ensures r.None? <==> FiveOnFive(roster)
    ensures r.Some? ==> IsRefused(roster, r.value)
  {
    hide OnTeam, OnSide, IsSteamId, IsBoundedText, Unfit, Clashes, SoFarSoGood, Canonical, SidesSeen, FiveOnFive, Split;
    if |roster| != 10 {
      RosterSizeIs(roster);
      return Some(Size);
    }
    var ids: set<string> := {};
    var teamA, teamB, sideT, sideCt := 0, 0, 0, 0;
    var teamSides: map<Team, Side> := map[];
    NobodyYet(roster[..0]);
    NothingWrongYet(roster);
    for i := 0 to |roster|
      invariant forall k :: 0 <= k < i ==> roster[k].steamId in ids
      invariant forall id <- ids :: exists k :: 0 <= k < i && roster[k].steamId == id
      invariant teamA == OnTeam(roster[..i], A) && teamB == OnTeam(roster[..i], B)
      invariant sideT == OnSide(roster[..i], T) && sideCt == OnSide(roster[..i], CT)
      invariant SidesSeen(roster[..i], teamSides)
      invariant SoFarSoGood(roster, i)
    {
      var player := roster[i];
      assert roster[..i + 1] == roster[..i] + [player];
      UnfitIff(roster, i, ids);
      if !IsSteamId(player.steamId) || player.steamId in ids || !IsBoundedText(player.name, 128)
         || (player.team != A && player.team != B)
         || (player.side != T && player.side != CT) {
        FaultAt(roster, i);
        return Some(Noncanonical);
      }
      OnTeamNext(roster[..i], player, A);
      OnTeamNext(roster[..i], player, B);
      OnSideNext(roster[..i], player, T);
      OnSideNext(roster[..i], player, CT);
      ids := ids + {player.steamId};
      if player.team.A? { teamA := teamA + 1; } else { teamB := teamB + 1; }
      if player.side.T? { sideT := sideT + 1; } else { sideCt := sideCt + 1; }
      ClashIff(roster, i, teamSides);
      if player.team in teamSides && teamSides[player.team] != player.side {
        FaultAt(roster, i);
        return Some(ConflictingSides);
      }
      SideSeenNext(roster[..i], player, teamSides);
      GoodNext(roster, i);
      teamSides := teamSides[player.team := player.side];
    }
    assert roster[..|roster|] == roster;
    AllGood(roster);
    if teamA != 5 || teamB != 5 || sideT != 5 || sideCt != 5
       || (if A in teamSides then Some(teamSides[A]) else None) == (if B in teamSides then Some(teamSides[B]) else None) {
      NotSplit(roster, teamSides);
      return Some(NotFiveOnFive);
    }
    TeamsAreThere(roster, teamSides);
    FiveOnFiveIs(roster);
    return None;
  }

  lemma RosterSizeIs(roster: seq<Player>)
    requires |roster| != 10
    ensures !FiveOnFive(roster)
  {
  }

  lemma NothingWrongYet(roster: seq<Player>)
    ensures SoFarSoGood(roster, 0) && SidesSeen([], map[])
  {
  }

  lemma UnfitIff(roster: seq<Player>, i: nat, ids: set<string>)
    requires i < |roster|
    requires forall k :: 0 <= k < i ==> roster[k].steamId in ids
    requires forall id <- ids :: exists k :: 0 <= k < i && roster[k].steamId == id
    ensures var p := roster[i];
            Unfit(roster, i) <==>
              !IsSteamId(p.steamId) || p.steamId in ids || !IsBoundedText(p.name, 128)
              || (p.team != A && p.team != B) || (p.side != T && p.side != CT)
  {
    hide IsSteamId, IsBoundedText;
  }

  lemma ClashIff(roster: seq<Player>, i: nat, sides: map<Team, Side>)
    requires i < |roster| && SidesSeen(roster[..i], sides)
    ensures Clashes(roster, i) <==> roster[i].team in sides && sides[roster[i].team] != roster[i].side
  {
    hide OnTeam;
    if roster[i].team in sides {
      var k := SomeoneOnTeam(roster[..i], roster[i].team);
      assert roster[..i][k] == roster[k];
    }
    if Clashes(roster, i) {
      var k :| 0 <= k < i && roster[k].team == roster[i].team && roster[k].side != roster[i].side;
      assert roster[..i][k] == roster[k];
    }
  }

  lemma SideSeenNext(roster: seq<Player>, p: Player, sides: map<Team, Side>)
    requires SidesSeen(roster, sides) && (p.team in sides ==> sides[p.team] == p.side)
    ensures SidesSeen(roster + [p], sides[p.team := p.side])
  {
    hide OnTeam;
    var all := roster + [p];
    forall t
      ensures OnTeam(all, t) == OnTeam(roster, t) + if p.team == t then 1 else 0
    {
      OnTeamNext(roster, p, t);
    }
    assert forall i :: 0 <= i < |roster| ==> all[i] == roster[i];
  }

  lemma GoodNext(roster: seq<Player>, i: nat)
    requires i < |roster| && SoFarSoGood(roster, i) && !Unfit(roster, i) && !Clashes(roster, i)
    ensures SoFarSoGood(roster, i + 1)
  {
    hide Unfit, Clashes;
  }

  lemma FaultAt(roster: seq<Player>, i: nat)
    requires i < |roster| && (Unfit(roster, i) || Clashes(roster, i))
    ensures !FiveOnFive(roster)
  {
    hide IsSteamId, IsBoundedText, OnTeam;
    if Clashes(roster, i) {
      var k :| 0 <= k < i && roster[k].team == roster[i].team && roster[k].side != roster[i].side;
    }
  }

  lemma AllGood(roster: seq<Player>)
    requires SoFarSoGood(roster, |roster|)
    ensures DistinctIds(roster) && forall i :: 0 <= i < |roster| ==> Canonical(roster[i])
  {
    hide Canonical, Clashes;
    forall i | 0 <= i < |roster|
      ensures Canonical(roster[i])
    {
      assert !Unfit(roster, i);
    }
    forall i, j | 0 <= i < j < |roster|
      ensures roster[i].steamId != roster[j].steamId
    {
      assert !Unfit(roster, j);
    }
  }

  lemma FiveOnFiveIs(roster: seq<Player>)
    requires |roster| == 10 && DistinctIds(roster) && forall i :: 0 <= i < |roster| ==> Canonical(roster[i])
    requires OnTeam(roster, A) == 5 && OnTeam(roster, B) == 5 && (Split(roster, T) || Split(roster, CT))
    ensures FiveOnFive(roster)
  {
    hide Canonical;
  }

  lemma NobodyYet(roster: seq<Player>)
    requires roster == []
    ensures OnTeam(roster, A) == 0 && OnTeam(roster, B) == 0 && OnSide(roster, T) == 0 && OnSide(roster, CT) == 0
  {
  }

  lemma {:induction false} SomeoneOnTeam(roster: seq<Player>, t: Team) returns (i: nat)
    requires OnTeam(roster, t) > 0
    ensures i < |roster| && roster[i].team == t
  {
    i := |roster| - 1;
    if roster[i].team != t {
      i := SomeoneOnTeam(roster[..i], t);
    }
  }

  lemma NotSplit(roster: seq<Player>, sides: map<Team, Side>)
    requires SidesSeen(roster, sides) && forall i :: 0 <= i < |roster| ==> Canonical(roster[i])
    requires OnTeam(roster, A) != 5 || OnTeam(roster, B) != 5 || OnSide(roster, T) != 5 || OnSide(roster, CT) != 5
      || (if A in sides then Some(sides[A]) else None) == (if B in sides then Some(sides[B]) else None)
    ensures !FiveOnFive(roster)
  {
    if FiveOnFive(roster) {
      if Split(roster, T) {
        SplitCounts(roster, T);
      } else {
        SplitCounts(roster, CT);
      }
      var a := SomeoneOnTeam(roster, A);
      var b := SomeoneOnTeam(roster, B);
    }
  }

  lemma TeamsAreThere(roster: seq<Player>, sides: map<Team, Side>)
    requires SidesSeen(roster, sides) && forall i :: 0 <= i < |roster| ==> Canonical(roster[i])
    requires OnTeam(roster, A) > 0 && OnTeam(roster, B) > 0
    requires (if A in sides then Some(sides[A]) else None) != (if B in sides then Some(sides[B]) else None)
    ensures Split(roster, T) || Split(roster, CT)
  {
    var a := SomeoneOnTeam(roster, A);
    var b := SomeoneOnTeam(roster, B);
    assert Canonical(roster[a]) && Canonical(roster[b]);
    assert Split(roster, roster[a].side);
  }

  // --- the frames ------------------------------------------------------------------------------

  /** The number of a player's account; every validated Steam id parses. */
  function Number(p: Player): nat {
    if AllDigits(p.steamId) then Value(p.steamId) else 0
  }

  lemma NumbersTellApart(roster: seq<Player>, i: nat, j: nat)
    requires FiveOnFive(roster) && i < |roster| && j < |roster|
    ensures Number(roster[i]) == Number(roster[j]) ==> i == j
    ensures AtMost(roster[i].steamId, roster[j].steamId) <==> Number(roster[i]) <= Number(roster[j])
  {
    hide OnTeam, Split, IsBoundedText, Value, AtMost;
    assert Canonical(roster[i]) && Canonical(roster[j]);
    SameLengthOrder(roster[i].steamId, roster[j].steamId);
  }

  function PlayerOf(roster: seq<Player>, steamId: u64): (r: Option<Player>)
    ensures r.Some? ==> r.value in roster && Number(r.value) == steamId
    ensures r.None? ==> forall i :: 0 <= i < |roster| ==> Number(roster[i]) != steamId
  {
    if roster == [] then None
    else if Number(roster[0]) == steamId then Some(roster[0])
    else PlayerOf(roster[1..], steamId)
  }

  predicate Belongs(roster: seq<Player>, s: Snapshot) {
    PlayerOf(roster, s.steamId).Some? && PlayerOf(roster, s.steamId).value.side == s.side
  }

  /** What the snapshots of a tick show, in their order. */
  function At(roster: seq<Player>, snapshots: seq<Snapshot>, tick: u64): (r: seq<Shown>)
    requires forall i :: 0 <= i < |snapshots| ==> Belongs(roster, snapshots[i])
    ensures forall x <- r :: x.player in roster
  {
    if snapshots == [] then []
    else
      var before, last := snapshots[..|snapshots| - 1], snapshots[|snapshots| - 1];
      assert Belongs(roster, last);
      At(roster, before, tick)
      + if last.tick == tick then [Shown(PlayerOf(roster, last.steamId).value, last.state)] else []
  }

  predicate BySteamId(x: Shown, y: Shown) { AtMost(x.player.steamId, y.player.steamId) }

  ghost predicate AllBelong(roster: seq<Player>, snapshots: seq<Snapshot>) {
    forall i :: 0 <= i < |snapshots| ==> Belongs(roster, snapshots[i])
  }

  lemma AtNext(roster: seq<Player>, snapshots: seq<Snapshot>, s: Snapshot)
    requires AllBelong(roster, snapshots) && Belongs(roster, s)
    ensures AllBelong(roster, snapshots + [s])
    ensures forall tick ::
      At(roster, snapshots + [s], tick) ==
        At(roster, snapshots, tick)
        + (if tick == s.tick then [Shown(PlayerOf(roster, s.steamId).value, s.state)] else [])
  {
    hide PlayerOf;
    assert (snapshots + [s])[..|snapshots|] == snapshots;
  }

  lemma AtNone(roster: seq<Player>)
    ensures AllBelong(roster, []) && forall tick :: At(roster, [], tick) == []
  {
  }

  /** Some snapshot is of nobody, or of a player on the other side. */
  ghost predicate Strays(roster: seq<Player>, snapshots: seq<Snapshot>, e: ReplayError) {
    match e
    case ExtraPlayer => exists i :: 0 <= i < |snapshots| && PlayerOf(roster, snapshots[i].steamId).None?
    case SideConflict =>
      exists i :: 0 <= i < |snapshots| && PlayerOf(roster, snapshots[i].steamId).Some?
                  && PlayerOf(roster, snapshots[i].steamId).value.side != snapshots[i].side
    case _ => false
  }

  method GroupByTick(snapshots: seq<Snapshot>, roster: seq<Player>, ticks: seq<u64>)
    returns (r: Result<map<u64, seq<Shown>>, ReplayError>)
    requires forall i :: 0 <= i < |snapshots| ==> snapshots[i].tick in ticks
    ensures r.Ok? <==> AllBelong(roster, snapshots)
    ensures r.Err? ==> Strays(roster, snapshots, r.error)
    ensures r.Ok? ==> forall t <- ticks :: t in r.value && r.value[t] == At(roster, snapshots, t)
  {
    hide PlayerOf, At;
    var byTick: map<u64, seq<Shown>> := map t | t in ticks :: [];
    AtNone(roster);
    assert snapshots[..0] == [];
    for i := 0 to |snapshots|
      invariant forall t <- ticks :: t in byTick
      invariant AllBelong(roster, snapshots[..i])
      invariant forall t <- ticks :: byTick[t] == At(roster, snapshots[..i], t)
    {
      var snapshot := snapshots[i];
      assert snapshots[..i + 1] == snapshots[..i] + [snapshot];
      var player := PlayerOf(roster, snapshot.steamId);
      if player.None? {
        return Err(ExtraPlayer);
      }
      if snapshot.side != player.value.side {
        return Err(SideConflict);
      }
      AtNext(roster, snapshots[..i], snapshot);
      assert snapshot.tick in ticks;
      byTick := byTick[snapshot.tick := byTick[snapshot.tick] + [Shown(player.value, snapshot.state)]];
    }
    assert snapshots[..|snapshots|] == snapshots;
    return Ok(byTick);
  }

  /** The frame of a tick shows its ten snapshots, by Steam id. */
  ghost predicate IsFrame(roster: seq<Player>, snapshots: seq<Snapshot>, tick: u64, f: Frame)
    requires AllBelong(roster, snapshots)
  {
    |At(roster, snapshots, tick)| == 10 && f == Frame(tick, SortBy(At(roster, snapshots, tick), BySteamId))
  }

  ghost predicate AreFrames(roster: seq<Player>, snapshots: seq<Snapshot>, ticks: seq<u64>, frames: seq<Frame>)
    requires AllBelong(roster, snapshots)
  {
    |frames| == |ticks| && forall i :: 0 <= i < |ticks| ==> IsFrame(roster, snapshots, ticks[i], frames[i])
  }

  method MaterializeFrames(snapshots: seq<Snapshot>, roster: seq<Player>, ticks: seq<u64>)
    returns (r: Result<seq<Frame>, ReplayError>)
    requires FiveOnFive(roster)
    requires forall i, j :: 0 <= i < j < |ticks| ==> ticks[i] != ticks[j]
    requires forall i :: 0 <= i < |snapshots| ==> snapshots[i].tick in ticks
    ensures r.Ok? <==>
      (AllBelong(roster, snapshots) && forall i :: 0 <= i < |ticks| ==> |At(roster, snapshots, ticks[i])| == 10)
    ensures r.Err? && r.error != IncompleteTick ==> Strays(roster, snapshots, r.error)
    ensures r == Err(IncompleteTick) ==> AllBelong(roster, snapshots)
    ensures r.Ok? ==> AreFrames(roster, snapshots, ticks, r.value)
  {
    hide At, SortBy, AllBelong, FiveOnFive;
    var byTick :- GroupByTick(snapshots, roster, ticks);
    var frames: seq<Frame> := [];
    for i := 0 to |ticks|
      invariant |frames| == i
      invariant forall k :: 0 <= k < i ==> IsFrame(roster, snapshots, ticks[k], frames[k])
    {
      assert ticks[i] in ticks;
      var players := SortBy(byTick[ticks[i]], BySteamId);
      if |players| != 10 {
        return Err(IncompleteTick);
      }
      frames := frames + [Frame(ticks[i], players)];
    }
    return Ok(frames);
  }

  // --- the reader of player snapshots ------------------------------------------------------------

  type i32 = x: int | -0x8000_0000 <= x < 0x8000_0000

  /** One row of a player's columns. There is no state if a required field is absent or out of bounds. */
  datatype Row = Row(tick: Option<i32>, team: Option<int>, state: Option<nat>)

  /** By Steam id; without rows if the tick column is absent. */
  type Columns = map<u64, Option<seq<Row>>>

  function SideOf(row: Row): Option<Side> {
    if row.team == Some(2) then Some(T) else if row.team == Some(3) then Some(CT) else None
  }

  predicate Wanted(row: Row, ticks: seq<u64>) {
    row.tick.Some? && row.tick.value >= 0 && row.tick.value in ticks && SideOf(row).Some?
  }

  predicate AllValid(rows: seq<Row>, ticks: seq<u64>) {
    forall i :: 0 <= i < |rows| && Wanted(rows[i], ticks) ==> rows[i].state.Some?
  }

  /** The snapshots of the wanted rows of one player. */
  function SnapshotsOf(steamId: u64, rows: seq<Row>, ticks: seq<u64>): (r: seq<Snapshot>)
    ensures forall s <- r :: s.steamId == steamId && s.tick in ticks
  {
    if rows == [] then []
    else
      var before, last := SnapshotsOf(steamId, rows[..|rows| - 1], ticks), rows[|rows| - 1];
      if Wanted(last, ticks) && last.state.Some?
      then before + [Snapshot(steamId, last.tick.value, SideOf(last).value, last.state.value)] else before
  }

  predicate Twins(a: Snapshot, b: Snapshot) {
    a.tick == b.tick && a.steamId == b.steamId
  }

  predicate NoTwins(xs: seq<Snapshot>) {
    forall i, j :: 0 <= i < j < |xs| ==> !Twins(xs[i], xs[j])
  }

  /** The order of the reader's sort key. */
  predicate ByKey(a: Snapshot, b: Snapshot) {
    a.tick < b.tick || (a.tick == b.tick && a.steamId <= b.steamId)
  }

  const PROPERTIES: seq<string> := [
    "X", "Y", "Z", "yaw", "pitch", "health", "armor", "life_state", "team_num", "balance", "current_equip_value",
    "round_start_equip_value", "has_helmet", "active_weapon_name", "buttons"]

  /** The parser can be asked for the ticks, and knows every property. */
  predicate Requestable(properties: set<string>, ticks: seq<u64>) {
    && (forall i :: 0 <= i < |ticks| ==> ticks[i] < 0x8000_0000)
    && (forall i :: 0 <= i < |PROPERTIES| ==> PROPERTIES[i] in properties)
  }

  method CheckRequest(properties: set<string>, ticks: seq<u64>) returns (r: Option<ReplayError>)
    ensures r.None? <==> Requestable(properties, ticks)
    ensures r.Some? ==> r.value == if exists i :: 0 <= i < |ticks| && ticks[i] >= 0x8000_0000 then TickOutOfRange else NoProperty
  {
    for i := 0 to |ticks|
      invariant forall k :: 0 <= k < i ==> ticks[k] < 0x8000_0000
    {
      if ticks[i] >= 0x8000_0000 {
        return Some(TickOutOfRange);
      }
    }
    for i := 0 to |PROPERTIES|
      invariant forall k :: 0 <= k < i ==> PROPERTIES[k] in properties
    {
      if PROPERTIES[i] !in properties {
        return Some(NoProperty);
      }
    }
    return None;
  }

  /** Every player but number 0 has a tick column, every wanted row its fields, and no tick two of them. */
  ghost predicate Readable(columns: Columns, ticks: seq<u64>) {
    forall id <- columns :: id != 0 ==>
      columns[id].Some? && AllValid(columns[id].value, ticks) && NoTwins(SnapshotsOf(id, columns[id].value, ticks))
  }

  predicate IsRead(columns: Columns, ticks: seq<u64>, s: Snapshot) {
    && s.steamId != 0 && s.steamId in columns && columns[s.steamId].Some?
    && s in SnapshotsOf(s.steamId, columns[s.steamId].value, ticks)
  }

  /** Why nothing is read. Of several players at fault any may be the one that is met first. */
  ghost predicate IsUnread(properties: set<string>, columns: Columns, ticks: seq<u64>, e: ReplayError) {
    if !Requestable(properties, ticks) then
      e == if exists i :: 0 <= i < |ticks| && ticks[i] >= 0x8000_0000 then TickOutOfRange else NoProperty
    else
      match e
      case NoTickColumn => exists id :: id in columns && id != 0 && columns[id].None?
      case InvalidField => exists id :: id in columns && id != 0 && columns[id].Some? && !AllValid(columns[id].value, ticks)
      case DuplicateSnapshot =>
        && (forall id <- columns :: id != 0 ==> columns[id].Some? && AllValid(columns[id].value, ticks))
        && exists id :: id in columns && id != 0 && !NoTwins(SnapshotsOf(id, columns[id].value, ticks))
      case _ => false
  }

  method ReadPlayer(steamId: u64, rows: seq<Row>, ticks: seq<u64>, snapshots0: seq<Snapshot>)
    returns (r: Result<seq<Snapshot>, ReplayError>)
    ensures r.Ok? <==> AllValid(rows, ticks)
    ensures r.Err? ==> r.error == InvalidField
    ensures r.Ok? ==> r.value == snapshots0 + SnapshotsOf(steamId, rows, ticks)
  {
    var snapshots := snapshots0;
    for index := 0 to |rows|
      invariant AllValid(rows[..index], ticks)
      invariant snapshots == snapshots0 + SnapshotsOf(steamId, rows[..index], ticks)
    {
      var row := rows[index];
      assert rows[..index + 1][..index] == rows[..index];
      if row.tick.None? || row.tick.value < 0 {
        continue;
      }
      var tick: u64 := row.tick.value;
      if tick !in ticks {
        continue;
      }
      var side := SideOf(row);
      if side.None? {
        continue;
      }
      assert Wanted(row, ticks);
      if row.state.None? {
        return Err(InvalidField);
      }
      snapshots := snapshots + [Snapshot(steamId, tick, side.value, row.state.value)];
    }
    assert rows[..|rows|] == rows;
    return Ok(snapshots);
  }

  predicate AdjacentTwins(xs: seq<Snapshot>) {
    exists i :: 0 <= i < |xs| - 1 && Twins(xs[i], xs[i + 1])
  }

  /** Whatever the order of the hash map of players: the snapshots read are those of all wanted rows,
      in ascending order of tick and Steam id, no two of one player and tick. */
  method ReadPlayerSnapshots(properties: set<string>, columns: Columns, ticks: seq<u64>)
    returns (r: Result<seq<Snapshot>, ReplayError>)
    ensures r.Ok? <==> Requestable(properties, ticks) && Readable(columns, ticks)
    ensures r.Err? ==> IsUnread(properties, columns, ticks, r.error)
    ensures r.Ok? ==> (forall s :: s in r.value <==> IsRead(columns, ticks, s)) && Sorted(r.value, ByKey) && NoTwins(r.value)
  {
    hide Requestable, SnapshotsOf, SortBy, NoTwins, AdjacentTwins, AllValid, ByKey, Sorted, Twins, IsUnread, Readable;
    var refused := CheckRequest(properties, ticks);
    if refused.Some? {
      UnreadRequest(properties, columns, ticks, refused.value);
      return Err(refused.value);
    }
    var snapshots: seq<Snapshot> := [];
    var remaining := columns;
    NoTwinsOfNone();
    while remaining.Keys != {}
      invariant forall id <- remaining :: id in columns && remaining[id] == columns[id]
      invariant forall s :: s in snapshots <==> IsRead(columns, ticks, s) && s.steamId !in remaining
      invariant forall id <- columns :: id != 0 && id !in remaining ==>
        columns[id].Some? && AllValid(columns[id].value, ticks)
      invariant NoTwins(snapshots) <==> forall id <- columns :: id != 0 && id !in remaining ==>
        columns[id].Some? && NoTwins(SnapshotsOf(id, columns[id].value, ticks))
      decreases remaining.Keys
    {
      var steamId :| steamId in remaining.Keys;
      var rows := remaining[steamId];
      remaining := remaining - {steamId};
      if steamId == 0 {
        continue;
      }
      if rows.None? {
        UnreadColumn(properties, columns, ticks, steamId);
        return Err(NoTickColumn);
      }
      ghost var added := SnapshotsOf(steamId, rows.value, ticks);
      TwinsShareAPlayer(snapshots, added, steamId);
      var more := ReadPlayer(steamId, rows.value, ticks, snapshots);
      if more.Err? {
        UnreadField(properties, columns, ticks, steamId);
        return more;
      }
      snapshots := more.value;
    }
    var sorted := SortBy(snapshots, ByKey);
    SortedByKey(snapshots);
    TwinsAreAdjacent(sorted);
    SameTwins(snapshots, sorted);
    assert forall s :: s in snapshots <==> s in multiset(snapshots);
    assert forall s :: s in sorted <==> s in multiset(sorted);
    ReadableIff(properties, columns, ticks, snapshots);
    if AdjacentTwins(sorted) {
      return Err(DuplicateSnapshot);
    }
    return Ok(sorted);
  }

  lemma UnreadRequest(properties: set<string>, columns: Columns, ticks: seq<u64>, e: ReplayError)
    requires !Requestable(properties, ticks)
    requires e == if exists i :: 0 <= i < |ticks| && ticks[i] >= 0x8000_0000 then TickOutOfRange else NoProperty
    ensures IsUnread(properties, columns, ticks, e)
  {
    hide Requestable;
  }

  lemma UnreadColumn(properties: set<string>, columns: Columns, ticks: seq<u64>, id: u64)
    requires Requestable(properties, ticks) && id in columns && id != 0 && columns[id].None?
    ensures IsUnread(properties, columns, ticks, NoTickColumn) && !Readable(columns, ticks)
  {
    hide Requestable;
  }

  lemma UnreadField(properties: set<string>, columns: Columns, ticks: seq<u64>, id: u64)
    requires Requestable(properties, ticks)
    requires id in columns && id != 0 && columns[id].Some? && !AllValid(columns[id].value, ticks)
    ensures IsUnread(properties, columns, ticks, InvalidField) && !Readable(columns, ticks)
  {
    hide Requestable, AllValid;
  }

  lemma ReadableIff(properties: set<string>, columns: Columns, ticks: seq<u64>, snapshots: seq<Snapshot>)
    requires Requestable(properties, ticks)
    requires forall id <- columns :: id != 0 ==> columns[id].Some? && AllValid(columns[id].value, ticks)
    requires NoTwins(snapshots) <==>
             forall id <- columns :: id != 0 ==> columns[id].Some? && NoTwins(SnapshotsOf(id, columns[id].value, ticks))
    ensures Readable(columns, ticks) <==> NoTwins(snapshots)
    ensures !NoTwins(snapshots) ==> IsUnread(properties, columns, ticks, DuplicateSnapshot)
  {
    hide Requestable, AllValid, NoTwins, SnapshotsOf;
  }

  lemma NoTwinsOfNone()
    ensures NoTwins([])
  {
  }

  lemma TwinsShareAPlayer(xs: seq<Snapshot>, added: seq<Snapshot>, steamId: u64)
    requires (forall s <- xs :: s.steamId != steamId) && (forall s <- added :: s.steamId == steamId)
    ensures NoTwins(xs + added) <==> NoTwins(xs) && NoTwins(added)
  {
    var all := xs + added;
    forall i, j | 0 <= i < |xs| && |xs| <= j < |all|
      ensures !Twins(all[i], all[j])
    {
      assert all[i] in xs && all[j] in added;
    }
    if NoTwins(all) {
      forall i, j | 0 <= i < j < |xs|
        ensures !Twins(xs[i], xs[j])
      {
        assert !Twins(all[i], all[j]);
      }
      forall i, j | 0 <= i < j < |added|
        ensures !Twins(added[i], added[j])
      {
        assert !Twins(all[|xs| + i], all[|xs| + j]);
      }
    }
  }

  lemma SortedByKey(xs: seq<Snapshot>)
    ensures Sorted(SortBy(xs, ByKey), ByKey)
  {
    assert TotalOrder(ByKey);
    SortBySorts(xs, ByKey);
  }

  lemma TwinsAreAdjacent(xs: seq<Snapshot>)
    requires Sorted(xs, ByKey)
    ensures AdjacentTwins(xs) <==> !NoTwins(xs)
  {
    if !NoTwins(xs) {
      var i, j :| 0 <= i < j < |xs| && Twins(xs[i], xs[j]);
      assert ByKey(xs[i], xs[i + 1]) && (i + 1 < j ==> ByKey(xs[i + 1], xs[j]));
      assert Twins(xs[i], xs[i + 1]);
    }
  }

  lemma SameTwins(xs: seq<Snapshot>, ys: seq<Snapshot>)
    requires multiset(xs) == multiset(ys)
    ensures NoTwins(xs) <==> NoTwins(ys)
  {
    var key := (s: Snapshot) => (s.tick, s.steamId);
    assert forall zs: seq<Snapshot> :: NoTwins(zs) <==> KeysDiffer(zs, key) by {
      assert forall a, b :: Twins(a, b) <==> key(a) == key(b);
    }
    KeysDifferInAnyOrder(xs, ys, key);
  }

  // --- every frame shows the roster ------------------------------------------------------------

  predicate NoTwice(shown: seq<Shown>) {
    forall i, j :: 0 <= i < j < |shown| ==> shown[i].player != shown[j].player
  }

  /** Different snapshots of a tick are of different players. */
  lemma {:induction false} ShownOnce(roster: seq<Player>, snapshots: seq<Snapshot>, tick: u64)
    requires AllBelong(roster, snapshots) && NoTwins(snapshots)
    ensures NoTwice(At(roster, snapshots, tick))
  {
    hide PlayerOf;
    if snapshots != [] {
      var before, last := snapshots[..|snapshots| - 1], snapshots[|snapshots| - 1];
      ShownOnce(roster, before, tick);
      var shown := At(roster, before, tick);
      forall i | 0 <= i < |shown| && last.tick == tick
        ensures shown[i].player != PlayerOf(roster, last.steamId).value
      {
        ShownIff(roster, before, tick, shown[i]);
        var k :| 0 <= k < |before| && Shows(roster, before[k], tick, shown[i]);
        assert !Twins(snapshots[k], last);
      }
    }
  }

  predicate Shows(roster: seq<Player>, s: Snapshot, tick: u64, x: Shown)
    requires Belongs(roster, s)
  {
    s.tick == tick && x == Shown(PlayerOf(roster, s.steamId).value, s.state)
  }

  lemma {:induction false} ShownIff(roster: seq<Player>, snapshots: seq<Snapshot>, tick: u64, x: Shown)
    requires AllBelong(roster, snapshots)
    ensures x in At(roster, snapshots, tick) <==> exists k :: 0 <= k < |snapshots| && Shows(roster, snapshots[k], tick, x)
  {
    hide PlayerOf;
    if snapshots != [] {
      var before, n := snapshots[..|snapshots| - 1], |snapshots| - 1;
      ShownIff(roster, before, tick, x);
      assert x in At(roster, snapshots, tick) <==> x in At(roster, before, tick) || Shows(roster, snapshots[n], tick, x);
      assert forall k :: 0 <= k < n ==> before[k] == snapshots[k];
    }
  }

  /** The player has a snapshot of the tick, on his side. */
  ghost predicate SeenAt(columns: Columns, ticks: seq<u64>, p: Player, tick: u64, state: nat) {
    Number(p) <= U64_MAX && IsRead(columns, ticks, Snapshot(Number(p), tick, p.side, state))
  }

  ghost predicate AllSeenAt(columns: Columns, roster: seq<Player>, ticks: seq<u64>, tick: u64) {
    forall p <- roster :: exists state :: SeenAt(columns, ticks, p, tick, state)
  }

  /** Everyone seen belongs to the roster, on his side, and at every tick all of the roster is seen. */
  ghost predicate CompleteEvidence(columns: Columns, roster: seq<Player>, ticks: seq<u64>) {
    && (forall s :: IsRead(columns, ticks, s) ==> Belongs(roster, s))
    && (forall t <- ticks :: AllSeenAt(columns, roster, ticks, t))
  }

  /** The players of a frame in their order. */
  function Lineup(shown: seq<Shown>): seq<Player> {
    seq(|shown|, i requires 0 <= i < |shown| => shown[i].player)
  }

  predicate ById(a: Player, b: Player) { AtMost(a.steamId, b.steamId) }

  /** The roster in the order of the Steam ids, each player with what was seen of him at the tick. */
  ghost predicate IsRosterFrame(columns: Columns, roster: seq<Player>, ticks: seq<u64>, tick: u64, f: Frame) {
    && f.tick == tick && Lineup(f.players) == SortBy(roster, ById)
    && forall k :: 0 <= k < |f.players| ==> SeenAt(columns, ticks, f.players[k].player, tick, f.players[k].state)
  }

  /** Someone who is seen is not of the roster, or not on his side; or everyone is, and someone is missing. */
  ghost predicate IsMismatch(columns: Columns, roster: seq<Player>, ticks: seq<u64>, e: ReplayError) {
    match e
    case ExtraPlayer => exists s :: IsRead(columns, ticks, s) && PlayerOf(roster, s.steamId).None?
    case SideConflict =>
      exists s :: IsRead(columns, ticks, s) && PlayerOf(roster, s.steamId).Some?
                  && PlayerOf(roster, s.steamId).value.side != s.side
    case IncompleteTick => forall s :: IsRead(columns, ticks, s) ==> Belongs(roster, s)
    case _ => false
  }

  /** Frames come out exactly if the evidence is complete, and each shows the roster: all ten players,
      once each. */
  method ParseSelectedTicks(properties: set<string>, columns: Columns, roster: seq<Player>, ticks: seq<u64>)
    returns (r: Result<seq<Frame>, ReplayError>)
    requires FiveOnFive(roster)
    requires forall i, j :: 0 <= i < j < |ticks| ==> ticks[i] != ticks[j]
    ensures r.Ok? <==>
      Requestable(properties, ticks) && Readable(columns, ticks) && CompleteEvidence(columns, roster, ticks)
    ensures r.Err? && !(Requestable(properties, ticks) && Readable(columns, ticks)) ==>
      IsUnread(properties, columns, ticks, r.error)
    ensures r.Err? && Requestable(properties, ticks) && Readable(columns, ticks) ==>
      IsMismatch(columns, roster, ticks, r.error)
    ensures r.Ok? ==>
      |r.value| == |ticks| && forall i :: 0 <= i < |ticks| ==> IsRosterFrame(columns, roster, ticks, ticks[i], r.value[i])
  {
    hide FiveOnFive, Requestable, Readable, AllBelong, CompleteEvidence, IsRosterFrame, At, NoTwins, AreFrames, IsRead,
         Sorted, IsUnread, IsMismatch, Strays;
    var snapshots :- ReadPlayerSnapshots(properties, columns, ticks);
    ReadAreWanted(columns, ticks, snapshots);
    r := MaterializeFrames(snapshots, roster, ticks);
    if r.Err? {
      StraysAreRead(columns, roster, ticks, snapshots, r.error);
    }
    CompleteIff(columns, roster, ticks, snapshots);
    if r.Ok? {
      AreFramesAt(roster, snapshots, ticks, r.value, 0);
      forall i | 0 <= i < |ticks|
        ensures IsRosterFrame(columns, roster, ticks, ticks[i], r.value[i])
      {
        AreFramesAt(roster, snapshots, ticks, r.value, i);
        FrameIsTheRoster(columns, roster, ticks, snapshots, ticks[i], r.value[i]);
      }
    }
  }

  lemma StraysAreRead(columns: Columns, roster: seq<Player>, ticks: seq<u64>, snapshots: seq<Snapshot>, e: ReplayError)
    requires forall s :: s in snapshots <==> IsRead(columns, ticks, s)
    requires (e == IncompleteTick && AllBelong(roster, snapshots)) || Strays(roster, snapshots, e)
    ensures IsMismatch(columns, roster, ticks, e)
  {
    hide IsRead, PlayerOf;
    forall i | 0 <= i < |snapshots|
      ensures IsRead(columns, ticks, snapshots[i])
    {
    }
    if e == IncompleteTick {
      forall s | IsRead(columns, ticks, s)
        ensures Belongs(roster, s)
      {
        var i :| 0 <= i < |snapshots| && snapshots[i] == s;
      }
    }
  }

  lemma AreFramesAt(roster: seq<Player>, snapshots: seq<Snapshot>, ticks: seq<u64>, frames: seq<Frame>, i: nat)
    requires AllBelong(roster, snapshots) && AreFrames(roster, snapshots, ticks, frames)
    ensures |frames| == |ticks|
    ensures i < |ticks| ==> IsFrame(roster, snapshots, ticks[i], frames[i])
  {
  }

  lemma ReadAreWanted(columns: Columns, ticks: seq<u64>, snapshots: seq<Snapshot>)
    requires forall s :: s in snapshots <==> IsRead(columns, ticks, s)
    ensures forall i :: 0 <= i < |snapshots| ==> snapshots[i].tick in ticks
  {
    forall i | 0 <= i < |snapshots|
      ensures snapshots[i].tick in ticks
    {
      assert IsRead(columns, ticks, snapshots[i]);
    }
  }

  lemma MembersAreFound(roster: seq<Player>, p: Player)
    requires FiveOnFive(roster) && p in roster
    ensures Number(p) <= U64_MAX && PlayerOf(roster, Number(p)) == Some(p)
  {
    hide OnTeam, Split, IsBoundedText;
    var i :| 0 <= i < |roster| && roster[i] == p;
    assert Canonical(roster[i]);
    assert Number(p) <= U64_MAX;
    var found := PlayerOf(roster, Number(p));
    hide Number;
    var j :| 0 <= j < |roster| && roster[j] == found.value;
    NumbersTellApart(roster, i, j);
  }

  function Everyone(roster: seq<Player>): set<Player> {
    set p | p in roster
  }

  lemma {:induction false} RosterSize(roster: seq<Player>)
    requires Distinct(roster)
    ensures |Everyone(roster)| == |roster|
  {
    if roster != [] {
      var before, last := roster[..|roster| - 1], roster[|roster| - 1];
      RosterSize(before);
      assert Everyone(roster) == Everyone(before) + {last} by {
        assert roster == before + [last];
      }
    }
  }

  lemma SubsetOfSize<T>(a: set<T>, b: set<T>)
    requires a <= b
    ensures |a| <= |b| && (|a| == |b| <==> a == b)
  {
    var rest := b - a;
    assert b == a + rest;
    assert rest == {} <==> a == b;
  }

  lemma RosterIsTen(roster: seq<Player>)
    requires FiveOnFive(roster)
    ensures |roster| == 10 && Distinct(roster)
  {
  }

  /** A tick that shows nobody twice shows ten exactly if it shows everyone. */
  lemma TenIsEveryone(roster: seq<Player>, shown: seq<Shown>)
    requires FiveOnFive(roster) && NoTwice(shown) && forall x <- shown :: x.player in roster
    ensures |shown| == 10 <==> Everyone(Lineup(shown)) == Everyone(roster)
  {
    hide FiveOnFive;
    var players := Lineup(shown);
    RosterIsTen(roster);
    RosterSize(roster);
    RosterSize(players);
    forall p | p in players
      ensures p in roster
    {
      var i :| 0 <= i < |players| && players[i] == p;
      assert shown[i] in shown;
    }
    SubsetOfSize(Everyone(players), Everyone(roster));
  }

  lemma CompleteIff(columns: Columns, roster: seq<Player>, ticks: seq<u64>, snapshots: seq<Snapshot>)
    requires FiveOnFive(roster) && NoTwins(snapshots)
    requires forall s :: s in snapshots <==> IsRead(columns, ticks, s)
    ensures CompleteEvidence(columns, roster, ticks) <==>
      AllBelong(roster, snapshots) && forall i :: 0 <= i < |ticks| ==> |At(roster, snapshots, ticks[i])| == 10
  {
    hide FiveOnFive, At, NoTwins, IsRead, Belongs, AllSeenAt;
    assert AllBelong(roster, snapshots) <==> forall s :: IsRead(columns, ticks, s) ==> Belongs(roster, s) by {
      assert forall i :: 0 <= i < |snapshots| ==> IsRead(columns, ticks, snapshots[i]);
    }
    if AllBelong(roster, snapshots) {
      forall t
        ensures |At(roster, snapshots, t)| == 10 <==> AllSeenAt(columns, roster, ticks, t)
      {
        ShownOnce(roster, snapshots, t);
        TenIsEveryone(roster, At(roster, snapshots, t));
        EveryoneSeen(columns, roster, ticks, snapshots, t);
      }
      assert forall i :: 0 <= i < |ticks| ==> ticks[i] in ticks;
    }
  }

  lemma EveryoneSeen(columns: Columns, roster: seq<Player>, ticks: seq<u64>, snapshots: seq<Snapshot>, t: u64)
    requires FiveOnFive(roster) && AllBelong(roster, snapshots)
    requires forall s :: s in snapshots <==> IsRead(columns, ticks, s)
    ensures Everyone(Lineup(At(roster, snapshots, t))) == Everyone(roster) <==> AllSeenAt(columns, roster, ticks, t)
  {
    hide FiveOnFive, At, IsRead, PlayerOf, Number;
    var shown := At(roster, snapshots, t);
    forall p
      ensures p in Lineup(shown) <==> p in roster && exists state :: SeenAt(columns, ticks, p, t, state)
    {
      if p in Lineup(shown) {
        var i :| 0 <= i < |shown| && shown[i].player == p;
        ShownWasSeen(columns, roster, ticks, snapshots, t, shown[i]);
      }
      if p in roster && exists state :: SeenAt(columns, ticks, p, t, state) {
        var state :| SeenAt(columns, ticks, p, t, state);
        var s := Snapshot(Number(p), t, p.side, state);
        var k :| 0 <= k < |snapshots| && snapshots[k] == s;
        MembersAreFound(roster, p);
        assert Shows(roster, snapshots[k], t, Shown(p, state));
        ShownIff(roster, snapshots, t, Shown(p, state));
        var i :| 0 <= i < |shown| && shown[i] == Shown(p, state);
        assert Lineup(shown)[i] == p;
      }
    }
    assert forall p :: p in Everyone(Lineup(shown)) <==> p in Lineup(shown);
    assert forall p :: p in Everyone(roster) <==> p in roster;
    if AllSeenAt(columns, roster, ticks, t) {
      assert Everyone(Lineup(shown)) == Everyone(roster);
    }
  }

  lemma ShownWasSeen(columns: Columns, roster: seq<Player>, ticks: seq<u64>, snapshots: seq<Snapshot>, t: u64, x: Shown)
    requires AllBelong(roster, snapshots) && x in At(roster, snapshots, t)
    requires forall s :: s in snapshots <==> IsRead(columns, ticks, s)
    ensures x.player in roster && SeenAt(columns, ticks, x.player, t, x.state)
  {
    hide At, IsRead, PlayerOf, Number;
    ShownIff(roster, snapshots, t, x);
    var k :| 0 <= k < |snapshots| && Shows(roster, snapshots[k], t, x);
    assert IsRead(columns, ticks, snapshots[k]);
  }

  // --- the order of a frame -------------------------------------------------------------------

  ghost predicate Climbs(players: seq<Player>) {
    forall i, j :: 0 <= i < j < |players| ==> Number(players[i]) < Number(players[j])
  }

  lemma {:induction false} ClimbIsUnique(a: seq<Player>, b: seq<Player>)
    requires Climbs(a) && Climbs(b) && Everyone(a) == Everyone(b)
    ensures a == b
  {
    hide Number;
    if a != [] {
      assert a[0] in Everyone(b);
    }
    if b != [] {
      assert b[0] in Everyone(a);
      assert a[0] == b[0];
      TailOfClimb(a);
      TailOfClimb(b);
      ClimbIsUnique(a[1..], b[1..]);
    }
  }

  lemma TailOfClimb(a: seq<Player>)
    requires a != [] && Climbs(a)
    ensures Climbs(a[1..]) && Everyone(a[1..]) == Everyone(a) - {a[0]}
  {
    hide Number;
    assert a == [a[0]] + a[1..];
    assert forall i :: 0 <= i < |a| - 1 ==> a[1..][i] == a[i + 1];
  }

  /** Sorted by id, different players of a roster climb. */
  lemma SortedClimbs(roster: seq<Player>, players: seq<Player>)
    requires FiveOnFive(roster) && forall p <- players :: p in roster
    requires forall i, j :: 0 <= i < j < |players| ==> ById(players[i], players[j]) && players[i] != players[j]
    ensures Climbs(players)
  {
    hide FiveOnFive, Number, AtMost;
    forall i, j | 0 <= i < j < |players|
      ensures Number(players[i]) < Number(players[j])
    {
      assert players[i] in players && players[j] in players;
      var k :| 0 <= k < |roster| && roster[k] == players[i];
      var l :| 0 <= l < |roster| && roster[l] == players[j];
      NumbersTellApart(roster, k, l);
    }
  }

  lemma OrdersAreTotal()
    ensures TotalOrder(ById) && TotalOrder(BySteamId)
  {
    hide AtMost;
    forall a, b
      ensures ById(a, b) || ById(b, a)
    {
      AtMostIsTotal(a.steamId, b.steamId);
    }
    forall a, b, c | ById(a, b) && ById(b, c)
      ensures ById(a, c)
    {
      AtMostIsTransitive(a.steamId, b.steamId, c.steamId);
    }
    forall x, y
      ensures BySteamId(x, y) <==> ById(x.player, y.player)
    {
    }
  }

  lemma FrameIsTheRoster(columns: Columns, roster: seq<Player>, ticks: seq<u64>, snapshots: seq<Snapshot>, tick: u64, f: Frame)
    requires FiveOnFive(roster) && AllBelong(roster, snapshots) && NoTwins(snapshots)
    requires forall s :: s in snapshots <==> IsRead(columns, ticks, s)
    requires IsFrame(roster, snapshots, tick, f)
    ensures IsRosterFrame(columns, roster, ticks, tick, f)
  {
    hide FiveOnFive, At, NoTwins, IsRead, SortBy, SeenAt, AtMost;
    var shown := At(roster, snapshots, tick);
    var players := f.players;
    ShownOnce(roster, snapshots, tick);
    TenIsEveryone(roster, shown);
    forall x | x in players
      ensures x in shown && x.player in roster && SeenAt(columns, ticks, x.player, tick, x.state)
    {
      assert x in multiset(players);
      ShownWasSeen(columns, roster, ticks, snapshots, tick, x);
    }
    LineupIsSorted(roster, shown);
  }

  lemma SortedRosterClimbs(roster: seq<Player>)
    requires FiveOnFive(roster)
    ensures Climbs(SortBy(roster, ById)) && Everyone(SortBy(roster, ById)) == Everyone(roster)
  {
    hide FiveOnFive, SortBy, AtMost;
    var sorted := SortBy(roster, ById);
    RosterIsTen(roster);
    OrdersAreTotal();
    SortBySorts(roster, ById);
    DistinctInAnyOrder(roster, sorted);
    assert forall p :: p in sorted <==> p in multiset(sorted);
    assert forall p :: p in roster <==> p in multiset(roster);
    SortedClimbs(roster, sorted);
  }

  lemma LineupOfSorted(shown: seq<Shown>, players: seq<Shown>)
    requires multiset(shown) == multiset(players) && NoTwice(shown)
    ensures NoTwice(players) && Everyone(Lineup(players)) == Everyone(Lineup(shown))
  {
    assert Distinct(shown);
    DistinctInAnyOrder(shown, players);
    forall i, j | 0 <= i < j < |players|
      ensures players[i].player != players[j].player
    {
      assert players[i] in multiset(shown) && players[j] in multiset(shown);
      var k :| 0 <= k < |shown| && shown[k] == players[i];
      var l :| 0 <= l < |shown| && shown[l] == players[j];
    }
    SameLineup(shown, players);
    SameLineup(players, shown);
  }

  lemma SameLineup(a: seq<Shown>, b: seq<Shown>)
    requires multiset(a) == multiset(b)
    ensures Everyone(Lineup(a)) <= Everyone(Lineup(b))
  {
    forall p | p in Everyone(Lineup(a))
      ensures p in Everyone(Lineup(b))
    {
      var i :| 0 <= i < |a| && a[i].player == p;
      assert a[i] in multiset(b);
      var k :| 0 <= k < |b| && b[k] == a[i];
      assert Lineup(b)[k] == p;
    }
  }

  lemma LineupIsSorted(roster: seq<Player>, shown: seq<Shown>)
    requires FiveOnFive(roster) && NoTwice(shown) && (forall x <- shown :: x.player in roster)
    requires Everyone(Lineup(shown)) == Everyone(roster)
    ensures Lineup(SortBy(shown, BySteamId)) == SortBy(roster, ById)
  {
    hide FiveOnFive, SortBy, AtMost;
    var players := SortBy(shown, BySteamId);
    OrdersAreTotal();
    SortBySorts(shown, BySteamId);
    assert forall i, j :: 0 <= i < j < |players| ==> BySteamId(players[i], players[j]);
    LineupOfSorted(shown, players);
    SortedRosterClimbs(roster);
    assert forall p <- Lineup(players) :: p in Everyone(Lineup(players));
    SortedClimbs(roster, Lineup(players));
    ClimbIsUnique(Lineup(players), SortBy(roster, ById));
  }
}

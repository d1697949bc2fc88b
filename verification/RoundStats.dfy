/** From decoded events to rounds with scores and to player totals. */
module RoundStats {
  import opened Bytes
  import opened Results

  const U32_MAX := 0xFFFF_FFFF

  datatype Side = T | CT

  datatype Kind = RoundStart | RoundEnd | Kill | Damage | Other  // Other: bombs, purchases, grenades
                | TeamChange | Irrelevant

  /** A decoded event with its canonical player ids. team is what a team change says: a side, or
      none of the two; the three sides below are those a kill or damage event carries. */
  datatype Event = Event(tick: u64, kind: Kind, winner: Option<Side>, actor: Option<string>, target: Option<string>,
                         assister: Option<string>, headshot: bool, damage: u32, player: Option<string>,
                         team: Option<Option<Side>>, actorSide: Option<Side>, targetSide: Option<Side>,
                         assisterSide: Option<Side>)

  datatype Round = Round(number: u32, startTick: u64, endTick: u64, winner: Option<Side>, tScore: u32, ctScore: u32,
                         events: seq<Event>)

  datatype Player = Player(team: Option<Side>, kills: u32, deaths: u32, assists: u32, headshots: u32, damage: u32)

  const NOBODY := Player(None, 0, 0, 0, 0, 0)

  type Players = map<string, Player>
  type Teams = map<string, Side>

  function Cap(n: nat): u32 {
    if n <= U32_MAX then n else U32_MAX
  }

  function Of(players: Players, id: string): Player {
    if id in players then players[id] else NOBODY
  }

  // --- the reference: counting events ----------------------------------------------------

  /** Whether a round runs after these events. */
  predicate Open(events: seq<Event>) {
    events != [] && match events[|events| - 1].kind
                    case RoundStart => true
                    case RoundEnd => false
                    case _ => Open(events[..|events| - 1])
  }

  datatype Stat = Kills | Deaths | Assists | Headshots | Harm

  function ByActor(e: Event, stat: Stat, id: string): nat {
    if e.actor != Some(id) then 0
    else
      match stat
      case Kills => if e.kind.Kill? then 1 else 0
      case Headshots => if e.kind.Kill? && e.headshot then 1 else 0
      case Harm => if e.kind.Damage? then e.damage else 0
      case _ => 0
  }

  function ByTarget(e: Event, stat: Stat, id: string): nat {
    if e.kind.Kill? && e.target == Some(id) && stat.Deaths? then 1 else 0
  }

  function ByAssister(e: Event, stat: Stat, id: string): nat {
    if e.kind.Kill? && e.assister == Some(id) && stat.Assists? then 1 else 0
  }

  /** What one event in a round adds to a player. */
  function Points(e: Event, stat: Stat, id: string): nat {
    ByActor(e, stat, id) + ByTarget(e, stat, id) + ByAssister(e, stat, id)
  }

  function Earned(events: seq<Event>, stat: Stat, id: string): nat {
    if events == [] then 0
    else
      var before, last := events[..|events| - 1], events[|events| - 1];
      Earned(before, stat, id) + if Open(before) then Points(last, stat, id) else 0
  }

  function Shown(p: Player, stat: Stat): u32 {
    match stat
    case Kills => p.kills
    case Deaths => p.deaths
    case Assists => p.assists
    case Headshots => p.headshots
    case Harm => p.damage
  }

  ghost predicate Tallied(players: Players, events: seq<Event>) {
    forall stat, id :: Shown(Of(players, id), stat) == Cap(Earned(events, stat, id))
  }

  /** The events a round keeps: its start and what counts until it ends. */
  function Kept(events: seq<Event>): seq<Event> {
    if events == [] then []
    else
      var before, last := events[..|events| - 1], events[|events| - 1];
      Kept(before) + if last.kind.RoundStart? || (Open(before) && Counts(last.kind)) then [last] else []
  }

  predicate Counts(kind: Kind) {
    !kind.RoundStart? && !kind.TeamChange? && !kind.Irrelevant?
  }

  function Flatten(rounds: seq<Round>): seq<Event> {
    if rounds == [] then [] else Flatten(rounds[..|rounds| - 1]) + rounds[|rounds| - 1].events
  }

  function Wins(rounds: seq<Round>, side: Side): nat {
    if rounds == [] then 0
    else Wins(rounds[..|rounds| - 1], side) + if rounds[|rounds| - 1].winner == Some(side) then 1 else 0
  }

  /** Numbered from one, and every round carries the wins up to and including itself. */
  ghost predicate Scored(rounds: seq<Round>) {
    forall i :: 0 <= i < |rounds| ==> ScoredAt(rounds, i)
  }

  ghost predicate ScoredAt(rounds: seq<Round>, i: nat)
    requires i < |rounds|
  {
    && rounds[i].number == Cap(i + 1)
    && rounds[i].tScore == Cap(Wins(rounds[..i + 1], T)) && rounds[i].ctScore == Cap(Wins(rounds[..i + 1], CT))
  }

  predicate Ended(events: seq<Event>) {
    events != [] && events[|events| - 1].kind.RoundEnd?
  }

  /** A round runs from its one start to its one end, if that came before the next start; ticks and
      winner are those of its events. */
  predicate Shaped(round: Round) {
    && round.events != [] && round.events[0].kind.RoundStart?
    && (forall i :: 0 < i < |round.events| ==> !round.events[i].kind.RoundStart?)
    && (forall i :: 0 <= i < |round.events| - 1 ==> !round.events[i].kind.RoundEnd?)
    && round.startTick == round.events[0].tick && round.endTick == round.events[|round.events| - 1].tick
    && round.winner == if Ended(round.events) then round.events[|round.events| - 1].winner else None
  }

  ghost predicate AllShaped(rounds: seq<Round>) {
    forall i :: 0 <= i < |rounds| ==> Shaped(rounds[i])
  }

  /** The rounds of the events. */
  ghost predicate AreRounds(events: seq<Event>, rounds: seq<Round>) {
    AllShaped(rounds) && Scored(rounds) && Flatten(rounds) == Kept(events)
  }

  // --- sides ---------------------------------------------------------------------------------

  function TeamOf(teams: Teams, id: string): Option<Side> {
    if id in teams then Some(teams[id]) else None
  }

  /** The side that a kill or another counted event shows a player on, the last role deciding. */
  function SideShown(e: Event, id: string): Option<Side> {
    if e.kind.Kill? && e.assister == Some(id) && e.assisterSide.Some? then e.assisterSide
    else if e.kind.Kill? && e.target == Some(id) && e.targetSide.Some? then e.targetSide
    else if e.actor == Some(id) then e.actorSide
    else None
  }

  predicate Moves(e: Event, id: string) {
    e.kind.TeamChange? && e.player == Some(id) && e.team.Some?
  }

  /** The side of a player after some events: what the last of them says that says anything. */
  function SideAfter(events: seq<Event>, id: string): Option<Side> {
    if events == [] then None
    else
      var before, last := events[..|events| - 1], events[|events| - 1];
      if Moves(last, id) then last.team.value
      else if Open(before) && Counts(last.kind) && SideShown(last, id).Some? then SideShown(last, id)
      else SideAfter(before, id)
  }

  function Mention(id: Option<string>): set<string> {
    if id.Some? then {id.value} else {}
  }

  /** Whom a counted event gets onto the list of players. */
  function Mentioned(e: Event): set<string> {
    Mention(e.actor) + if e.kind.Kill? then Mention(e.target) + Mention(e.assister) else {}
  }

  /** Everybody on the list of players after some events. */
  function Listed(events: seq<Event>): set<string> {
    if events == [] then {}
    else
      var before, last := events[..|events| - 1], events[|events| - 1];
      Listed(before)
      + if last.kind.TeamChange? then if last.team.Some? && last.team.value.Some? then Mention(last.player) else {}
        else if Open(before) && Counts(last.kind) then Mentioned(last)
        else {}
  }

  /** A player shows the side that is on file for him. */
  ghost predicate OnFile(players: Players, teams: Teams) {
    forall id :: Of(players, id).team == TeamOf(teams, id)
  }

  ghost predicate Sided(players: Players, teams: Teams, events: seq<Event>) {
    OnFile(players, teams) && forall id :: TeamOf(teams, id) == SideAfter(events, id)
  }

  // --- players -------------------------------------------------------------------------------

  function Add(a: u32, b: nat): u32 {
    Cap(a + b)
  }

  /** The side an event gives a player, or the one the player is known to be on. */
  method AssignSide(players0: Players, teams0: Teams, id: string, side: Option<Side>)
    returns (players: Players, teams: Teams)
    requires OnFile(players0, teams0)
    ensures forall stat, p :: Shown(Of(players, p), stat) == Shown(Of(players0, p), stat)
    ensures players.Keys == players0.Keys + {id} && OnFile(players, teams)
    ensures forall p :: TeamOf(teams, p) == if p == id && side.Some? then side else TeamOf(teams0, p)
  {
    var player := Of(players0, id);
    assert player.team == TeamOf(teams0, id);
    teams := teams0;
    if side.Some? {
      player := player.(team := side);
      teams := teams[id := side.value];
    } else if id in teams {
      player := player.(team := Some(teams[id]));
    }
    players := players0[id := player];
    forall p
      ensures Of(players, p).team == TeamOf(teams, p)
    {
      assert Of(players0, p).team == TeamOf(teams0, p);
    }
  }

  method CreditActor(players0: Players, teams0: Teams, e: Event) returns (players: Players, teams: Teams)
    requires OnFile(players0, teams0)
    ensures forall stat, p :: Shown(Of(players, p), stat) == Add(Shown(Of(players0, p), stat), ByActor(e, stat, p))
    ensures players.Keys == players0.Keys + Mention(e.actor) && OnFile(players, teams)
    ensures forall p ::
      TeamOf(teams, p) == if e.actor == Some(p) && e.actorSide.Some? then e.actorSide else TeamOf(teams0, p)
  {
    players, teams := players0, teams0;
    if e.actor.Some? {
      var actor := e.actor.value;
      players, teams := AssignSide(players, teams, actor, e.actorSide);
      var player := players[actor];
      match e.kind {
        case Kill =>
          player := player.(kills := Add(player.kills, 1));
          if e.headshot {
            player := player.(headshots := Add(player.headshots, 1));
          }
        case Damage => player := player.(damage := Add(player.damage, e.damage));
        case _ =>
      }
      players := players[actor := player];
    }
  }

  method CreditTarget(players0: Players, teams0: Teams, e: Event) returns (players: Players, teams: Teams)
    requires e.kind.Kill?
    requires OnFile(players0, teams0)
    ensures forall stat, p :: Shown(Of(players, p), stat) == Add(Shown(Of(players0, p), stat), ByTarget(e, stat, p))
    ensures players.Keys == players0.Keys + Mention(e.target) && OnFile(players, teams)
    ensures forall p ::
      TeamOf(teams, p) == if e.target == Some(p) && e.targetSide.Some? then e.targetSide else TeamOf(teams0, p)
  {
    players, teams := players0, teams0;
    if e.target.Some? {
      var target := e.target.value;
      players, teams := AssignSide(players, teams, target, e.targetSide);
      players := players[target := players[target].(deaths := Add(players[target].deaths, 1))];
    }
  }

  method CreditAssister(players0: Players, teams0: Teams, e: Event) returns (players: Players, teams: Teams)
    requires e.kind.Kill?
    requires OnFile(players0, teams0)
    ensures forall stat, p :: Shown(Of(players, p), stat) == Add(Shown(Of(players0, p), stat), ByAssister(e, stat, p))
    ensures players.Keys == players0.Keys + Mention(e.assister) && OnFile(players, teams)
    ensures forall p ::
      TeamOf(teams, p) == if e.assister == Some(p) && e.assisterSide.Some? then e.assisterSide else TeamOf(teams0, p)
  {
    players, teams := players0, teams0;
    if e.assister.Some? {
      var assister := e.assister.value;
      players, teams := AssignSide(players, teams, assister, e.assisterSide);
      players := players[assister := players[assister].(assists := Add(players[assister].assists, 1))];
    }
  }

  method UpdatePlayers(players0: Players, teams0: Teams, e: Event) returns (players: Players, teams: Teams)
    requires OnFile(players0, teams0)
    ensures forall stat, p :: Shown(Of(players, p), stat) == Add(Shown(Of(players0, p), stat), Points(e, stat, p))
    ensures players.Keys == players0.Keys + Mentioned(e) && OnFile(players, teams)
    ensures forall p :: TeamOf(teams, p) == if SideShown(e, p).Some? then SideShown(e, p) else TeamOf(teams0, p)
  {
    hide Shown, ByActor, Of, OnFile, TeamOf;
    players, teams := CreditActor(players0, teams0, e);
    if e.kind.Kill? {
      players, teams := CreditTarget(players, teams, e);
      players, teams := CreditAssister(players, teams, e);
    }
  }

  /** A team change moves the player it names, to a side or to none, and touches nothing else. */
  method UpdateTeamAssignment(players0: Players, teams0: Teams, e: Event) returns (players: Players, teams: Teams)
    ensures forall p ::
      Of(players, p) == if Moves(e, p) then Of(players0, p).(team := e.team.value) else Of(players0, p)
    ensures forall p :: TeamOf(teams, p) == if Moves(e, p) then e.team.value else TeamOf(teams0, p)
    ensures forall p :: p in players <==> p in players0 || (Moves(e, p) && e.team.value.Some?)
  {
    players, teams := players0, teams0;
    if !e.kind.TeamChange? || e.player.None? || e.team.None? {
      return;
    }
    var id := e.player.value;
    if e.team.value.Some? {
      teams := teams[id := e.team.value.value];
      players := players[id := Of(players, id).(team := e.team.value)];
    } else {
      teams := teams - {id};
      if id in players {
        players := players[id := players[id].(team := None)];
      }
    }
  }

  // --- the fold ----------------------------------------------------------------------------------

  function AllRounds(rounds: seq<Round>, current: Option<Round>): seq<Round> {
    if current.Some? then rounds + [current.value] else rounds
  }

  /** The round that runs has the next number and the scores so far. */
  predicate Running(rounds: seq<Round>, round: Round, tScore: u32, ctScore: u32) {
    round.number == Cap(|rounds| + 1) && round.tScore == tScore && round.ctScore == ctScore && round.winner.None?
  }

  lemma WinsNext(rounds: seq<Round>, round: Round, side: Side)
    ensures Wins(rounds + [round], side) == Wins(rounds, side) + if round.winner == Some(side) then 1 else 0
  {
    assert (rounds + [round])[..|rounds|] == rounds;
  }

  lemma {:induction false} AppendRound(rounds: seq<Round>, round: Round)
    requires Scored(rounds) && round.number == Cap(|rounds| + 1)
    requires round.tScore == Cap(Wins(rounds, T) + if round.winner == Some(T) then 1 else 0)
    requires round.ctScore == Cap(Wins(rounds, CT) + if round.winner == Some(CT) then 1 else 0)
    ensures Scored(rounds + [round])
    ensures round.tScore == Cap(Wins(rounds + [round], T)) && round.ctScore == Cap(Wins(rounds + [round], CT))
  {
    hide Wins;
    WinsNext(rounds, round, T);
    WinsNext(rounds, round, CT);
    var all := rounds + [round];
    forall i | 0 <= i < |all|
      ensures ScoredAt(all, i)
    {
      if i < |rounds| {
        assert ScoredAt(rounds, i) && all[..i + 1] == rounds[..i + 1];
      } else {
        assert all[..i + 1] == all;
      }
    }
  }

  lemma AtFirst()
    ensures Tallied(map[], []) && Sided(map[], map[], []) && Listed([]) == {} && Scored([]) && Wins([], T) == 0 && Wins([], CT) == 0
  {
  }

  lemma KeptNext(before: seq<Event>, e: Event)
    ensures Kept(before + [e]) == Kept(before) + if e.kind.RoundStart? || (Open(before) && Counts(e.kind)) then [e] else []
    ensures Open(before + [e]) <==> e.kind.RoundStart? || (!e.kind.RoundEnd? && Open(before))
  {
    assert (before + [e])[..|before|] == before;
  }

  lemma EarnedNext(before: seq<Event>, e: Event, stat: Stat, id: string)
    ensures Earned(before + [e], stat, id) == Earned(before, stat, id) + if Open(before) then Points(e, stat, id) else 0
  {
    assert (before + [e])[..|before|] == before;
  }

  lemma TallyMoved(players: Players, after: Players, events: seq<Event>, e: Event)
    requires Tallied(players, events)
    requires forall p :: Of(after, p) == if Moves(e, p) then Of(players, p).(team := e.team.value) else Of(players, p)
    ensures Tallied(after, events)
  {
    hide Of, Earned;
    forall stat, id
      ensures Shown(Of(after, id), stat) == Cap(Earned(events, stat, id))
    {
      assert Shown(Of(players, id), stat) == Cap(Earned(events, stat, id));
    }
  }

  lemma SideNext(before: seq<Event>, e: Event, id: string)
    ensures SideAfter(before + [e], id) ==
            if Moves(e, id) then e.team.value
            else if Open(before) && Counts(e.kind) && SideShown(e, id).Some? then SideShown(e, id)
            else SideAfter(before, id)
  {
    assert (before + [e])[..|before|] == before;
  }

  lemma ListedNext(before: seq<Event>, e: Event)
    ensures Listed(before + [e]) == Listed(before)
      + if e.kind.TeamChange? then if e.team.Some? && e.team.value.Some? then Mention(e.player) else {}
        else if Open(before) && Counts(e.kind) then Mentioned(e)
        else {}
    ensures Listed([]) == {}
  {
    assert (before + [e])[..|before|] == before;
  }

  lemma MovedAreListed(players: Players, after: Players, e: Event)
    requires forall p :: p in after <==> p in players || (Moves(e, p) && e.team.value.Some?)
    ensures after.Keys == players.Keys
      + if e.kind.TeamChange? && e.team.Some? && e.team.value.Some? then Mention(e.player) else {}
  {
  }

  /** After a possible team change: what is on file is that of the next prefix, unless the event is one
      that counts in a round. */
  ghost predicate SidedBut(players: Players, teams: Teams, events: seq<Event>, e: Event) {
    && OnFile(players, teams)
    && (if Open(events) && Counts(e.kind) then forall id :: TeamOf(teams, id) == SideAfter(events, id)
        else forall id :: TeamOf(teams, id) == SideAfter(events + [e], id))
  }

  lemma SidesMoved(players: Players, teams: Teams, players': Players, teams': Teams, events: seq<Event>, e: Event)
    requires Sided(players, teams, events)
    requires forall p ::
      Of(players', p) == if Moves(e, p) then Of(players, p).(team := e.team.value) else Of(players, p)
    requires forall p :: TeamOf(teams', p) == if Moves(e, p) then e.team.value else TeamOf(teams, p)
    ensures SidedBut(players', teams', events, e)
    ensures !(Open(events) && Counts(e.kind)) ==> Sided(players', teams', events + [e])
  {
    hide Of, TeamOf, SideAfter, Open, SideShown;
    forall id
      ensures Of(players', id).team == TeamOf(teams', id)
      ensures SideAfter(events + [e], id) == if Moves(e, id) then e.team.value
                else if Open(events) && Counts(e.kind) && SideShown(e, id).Some? then SideShown(e, id)
                else SideAfter(events, id)
    {
      SideNext(events, e, id);
      assert TeamOf(teams, id) == SideAfter(events, id) && Of(players, id).team == TeamOf(teams, id);
    }
    assert forall id :: TeamOf(teams, id) == SideAfter(events, id);
  }

  lemma NowOnFile(players: Players, teams: Teams, events: seq<Event>, e: Event)
    requires SidedBut(players, teams, events, e)
    ensures OnFile(players, teams)
  {
  }

  lemma SidesShown(players: Players, teams: Teams, players': Players, teams': Teams, events: seq<Event>, e: Event)
    requires SidedBut(players, teams, events, e) && Open(events) && Counts(e.kind) && OnFile(players', teams')
    requires forall p :: TeamOf(teams', p) == if SideShown(e, p).Some? then SideShown(e, p) else TeamOf(teams, p)
    ensures Sided(players', teams', events + [e])
  {
    hide Of, TeamOf, SideAfter, Open, SideShown, OnFile;
    forall id
      ensures TeamOf(teams', id) == SideAfter(events + [e], id)
    {
      SideNext(events, e, id);
      assert TeamOf(teams, id) == SideAfter(events, id);
    }
  }

  lemma SidesAreShown(players: Players, teams: Teams, events: seq<Event>)
    requires Sided(players, teams, events)
    ensures forall id :: Of(players, id).team == SideAfter(events, id)
  {
    hide Of, TeamOf, SideAfter;
  }

  lemma TallyIdle(players: Players, events: seq<Event>, e: Event)
    requires Tallied(players, events)
    requires !Open(events) || (!e.kind.Kill? && !e.kind.Damage?)
    ensures Tallied(players, events + [e])
  {
    hide Shown, Of, Earned, Open;
    forall stat, id
      ensures Shown(Of(players, id), stat) == Cap(Earned(events + [e], stat, id))
    {
      EarnedNext(events, e, stat, id);
    }
  }

  lemma TallyCredited(players: Players, after: Players, events: seq<Event>, e: Event)
    requires Tallied(players, events) && Open(events)
    requires forall stat, p :: Shown(Of(after, p), stat) == Add(Shown(Of(players, p), stat), Points(e, stat, p))
    ensures Tallied(after, events + [e])
  {
    hide Shown, Of, Earned, Open, Points;
    forall stat, id
      ensures Shown(Of(after, id), stat) == Cap(Earned(events + [e], stat, id))
    {
      EarnedNext(events, e, stat, id);
      assert Shown(Of(players, id), stat) == Cap(Earned(events, stat, id));
    }
  }

  predicate Started(events: seq<Event>) {
    exists i :: 0 <= i < |events| && events[i].kind.RoundStart?
  }

  /** Where the rounds stand after some events. */
  ghost predicate Standing(events: seq<Event>, rounds: seq<Round>, current: Option<Round>, tScore: u32, ctScore: u32) {
    && (current.Some? <==> Open(events))
    && (AllRounds(rounds, current) != [] <==> Started(events))
    && Scored(rounds) && tScore == Cap(Wins(rounds, T)) && ctScore == Cap(Wins(rounds, CT))
    && (current.Some? ==> Running(rounds, current.value, tScore, ctScore))
    && AllShaped(rounds) && (current.Some? ==> Shaped(current.value) && !Ended(current.value.events))
    && Flatten(AllRounds(rounds, current)) == Kept(events)
  }

  lemma FlattenNext(rounds: seq<Round>, round: Round)
    ensures Flatten(rounds + [round]) == Flatten(rounds) + round.events
  {
    assert (rounds + [round])[..|rounds|] == rounds;
  }

  lemma StartedNext(events: seq<Event>, e: Event)
    ensures Started(events + [e]) <==> Started(events) || e.kind.RoundStart?
  {
    var all := events + [e];
    assert all[|events|] == e;
    assert forall i :: 0 <= i < |events| ==> all[i] == events[i];
  }

  lemma StandingAtFirst(events: seq<Event>)
    requires events == []
    ensures Standing(events, [], None, 0, 0)
  {
  }

  lemma StandingIdle(events: seq<Event>, rounds: seq<Round>, current: Option<Round>, tScore: u32, ctScore: u32, e: Event)
    requires Standing(events, rounds, current, tScore, ctScore) && !e.kind.RoundStart?
    requires current.None? || e.kind.TeamChange? || e.kind.Irrelevant?
    ensures Standing(events + [e], rounds, current, tScore, ctScore)
  {
    hide Open, Started, Scored, Wins, Flatten, Kept;
    KeptNext(events, e);
    StartedNext(events, e);
  }

  lemma StandingStarted(events: seq<Event>, rounds: seq<Round>, current: Option<Round>, tScore: u32, ctScore: u32,
                        e: Event, next: Round)
    requires Standing(events, rounds, current, tScore, ctScore) && e.kind.RoundStart?
    requires Running(AllRounds(rounds, current), next, tScore, ctScore) && next.events == [e]
    requires next.startTick == next.endTick == e.tick
    ensures Standing(events + [e], AllRounds(rounds, current), Some(next), tScore, ctScore)
  {
    hide Open, Started, Scored, Wins, Flatten, Kept, Shaped, AllShaped, Ended;
    KeptNext(events, e);
    StartedNext(events, e);
    FlattenNext(AllRounds(rounds, current), next);
    ShapedFirst(e, next);
    if current.Some? {
      AppendRound(rounds, current.value);
      AllShapedMore(rounds, current.value);
    }
  }

  lemma ShapedMore(round: Round, e: Event, next: Round)
    requires Shaped(round) && !Ended(round.events) && Counts(e.kind) && next.events == round.events + [e]
    requires next.startTick == round.startTick && next.endTick == e.tick
    requires next.winner == if e.kind.RoundEnd? then e.winner else None
    ensures Shaped(next) && (Ended(next.events) <==> e.kind.RoundEnd?)
  {
  }

  lemma ShapedFirst(e: Event, next: Round)
    requires e.kind.RoundStart? && next.events == [e] && next.startTick == next.endTick == e.tick && next.winner.None?
    ensures Shaped(next) && !Ended(next.events)
  {
  }

  lemma AllShapedMore(rounds: seq<Round>, round: Round)
    requires AllShaped(rounds) && Shaped(round)
    ensures AllShaped(rounds + [round])
  {
  }

  lemma StandingCounted(events: seq<Event>, rounds: seq<Round>, round: Round, tScore: u32, ctScore: u32, e: Event,
                        next: Round)
    requires Standing(events, rounds, Some(round), tScore, ctScore) && Counts(e.kind) && !e.kind.RoundEnd?
    requires Running(rounds, next, tScore, ctScore) && next.events == round.events + [e]
    requires next.startTick == round.startTick && next.endTick == e.tick
    ensures Standing(events + [e], rounds, Some(next), tScore, ctScore)
  {
    hide Open, Started, Scored, Wins, Flatten, Kept, Shaped, AllShaped, Ended;
    KeptNext(events, e);
    StartedNext(events, e);
    FlattenNext(rounds, round);
    FlattenNext(rounds, next);
    ShapedMore(round, e, next);
    assert Flatten(rounds) + (round.events + [e]) == (Flatten(rounds) + round.events) + [e];
  }

  lemma StandingEnded(events: seq<Event>, rounds: seq<Round>, round: Round, tScore: u32, ctScore: u32, e: Event,
                      next: Round)
    requires Standing(events, rounds, Some(round), tScore, ctScore) && e.kind.RoundEnd?
    requires next.number == round.number && next.winner == e.winner && next.events == round.events + [e]
    requires next.startTick == round.startTick && next.endTick == e.tick
    requires next.tScore == (if e.winner == Some(T) then Add(tScore, 1) else tScore)
    requires next.ctScore == (if e.winner == Some(CT) then Add(ctScore, 1) else ctScore)
    ensures Standing(events + [e], rounds + [next], None, next.tScore, next.ctScore)
  {
    hide Open, Started, Scored, Wins, Flatten, Kept, Shaped, AllShaped, Ended;
    KeptNext(events, e);
    StartedNext(events, e);
    FlattenNext(rounds, round);
    FlattenNext(rounds, next);
    AppendRound(rounds, next);
    ShapedMore(round, e, next);
    AllShapedMore(rounds, next);
    assert Flatten(rounds) + (round.events + [e]) == (Flatten(rounds) + round.events) + [e];
  }

  lemma StandingAtLast(events: seq<Event>, rounds: seq<Round>, current: Option<Round>, tScore: u32, ctScore: u32)
    requires Standing(events, rounds, current, tScore, ctScore)
    ensures var all := AllRounds(rounds, current);
            && AreRounds(events, all) && (all != [] <==> Started(events))
  {
    hide Open, Started, Scored, Wins, Flatten, Kept, Shaped, AllShaped, Ended;
    if current.Some? {
      AppendRound(rounds, current.value);
      AllShapedMore(rounds, current.value);
    }
  }

  /** Rounds exist exactly if one starts. They run from start to end, are numbered and scored, and hold
      between them every event that counts, in order. The players' totals are what the events in
      rounds earn, and their sides what the events said last. */
  method BuildRoundsAndPlayers(parsed: seq<Event>) returns (r: Option<(seq<Round>, Players)>)
    ensures r.Some? <==> Started(parsed)
    ensures r.Some? ==> AreRounds(parsed, r.value.0)
    ensures r.Some? ==> Tallied(r.value.1, parsed)
    ensures r.Some? ==> forall id :: Of(r.value.1, id).team == SideAfter(parsed, id)
    ensures r.Some? ==> r.value.1.Keys == Listed(parsed)
  {
    hide Standing, Scored, Wins, Tallied, Of, Shown, Points, Kept, Open, Flatten, Started, AllShaped, Sided, OnFile,
         TeamOf, SideAfter, SideShown, Moves, AreRounds, Listed, Mentioned, Mention;
    var players: Players, teams: Teams := map[], map[];
    var rounds: seq<Round> := [];
    var current: Option<Round> := None;
    var tScore: u32, ctScore: u32 := 0, 0;
    AtFirst();
    StandingAtFirst(parsed[..0]);
    for i := 0 to |parsed|
      invariant Standing(parsed[..i], rounds, current, tScore, ctScore)
      invariant Tallied(players, parsed[..i])
      invariant Sided(players, teams, parsed[..i])
      invariant players.Keys == Listed(parsed[..i])
    {
      var raw := parsed[i];
      assert parsed[..i + 1] == parsed[..i] + [raw];
      StandingMeans(parsed[..i], rounds, current, tScore, ctScore);
      ListedNext(parsed[..i], raw);
      ghost var before, onFile := players, teams;
      players, teams := UpdateTeamAssignment(players, teams, raw);
      TallyMoved(before, players, parsed[..i], raw);
      SidesMoved(before, onFile, players, teams, parsed[..i], raw);
      MovedAreListed(before, players, raw);
      if raw.kind.RoundStart? {
        TallyIdle(players, parsed[..i], raw);
        var number := Cap(|AllRounds(rounds, current)| + 1);
        var next := Round(number, raw.tick, raw.tick, None, tScore, ctScore, [raw]);
        StandingStarted(parsed[..i], rounds, current, tScore, ctScore, raw, next);
        rounds := AllRounds(rounds, current);
        current := Some(next);
        continue;
      }
      if current.None? || raw.kind.TeamChange? || raw.kind.Irrelevant? {
        TallyIdle(players, parsed[..i], raw);
        StandingIdle(parsed[..i], rounds, current, tScore, ctScore, raw);
        continue;
      }
      var round := current.value;
      before, onFile := players, teams;
      NowOnFile(players, teams, parsed[..i], raw);
      players, teams := UpdatePlayers(players, teams, raw);
      TallyCredited(before, players, parsed[..i], raw);
      SidesShown(before, onFile, players, teams, parsed[..i], raw);
      round := round.(endTick := raw.tick);
      if !raw.kind.RoundEnd? {
        round := round.(events := round.events + [raw]);
        StandingCounted(parsed[..i], rounds, current.value, tScore, ctScore, raw, round);
        current := Some(round);
        continue;
      }
      ghost var t0, ct0 := tScore, ctScore;
      round := round.(winner := raw.winner);
      match raw.winner {
        case Some(T) => tScore := Add(tScore, 1);
        case Some(CT) => ctScore := Add(ctScore, 1);
        case None =>
      }
      round := round.(tScore := tScore, ctScore := ctScore);
      round := round.(events := round.events + [raw]);
      StandingEnded(parsed[..i], rounds, current.value, t0, ct0, raw, round);
      rounds := rounds + [round];
      current := None;
    }
    assert parsed[..|parsed|] == parsed;
    StandingAtLast(parsed, rounds, current, tScore, ctScore);
    SidesAreShown(players, teams, parsed);
    rounds := AllRounds(rounds, current);
    if |rounds| == 0 {
      return None;
    }
    return Some((rounds, players));
  }

  lemma StandingMeans(events: seq<Event>, rounds: seq<Round>, current: Option<Round>, tScore: u32, ctScore: u32)
    requires Standing(events, rounds, current, tScore, ctScore)
    ensures current.Some? <==> Open(events)
    ensures current.Some? ==> Running(rounds, current.value, tScore, ctScore)
  {
  }

  // --- totals --------------------------------------------------------------------------------------

  lemma {:induction false} WinsGrow(rounds: seq<Round>, i: nat, j: nat, side: Side)
    requires i <= j <= |rounds|
    ensures Wins(rounds[..i], side) <= Wins(rounds[..j], side)
    decreases j
  {
    hide Wins;
    if i < j {
      WinsGrow(rounds, i, j - 1, side);
      assert rounds[..j] == rounds[..j - 1] + [rounds[j - 1]];
      WinsNext(rounds[..j - 1], rounds[j - 1], side);
    }
  }

  /** Scores never fall from one round to a later one. */
  lemma ScoresAscend(rounds: seq<Round>, i: nat, j: nat)
    requires Scored(rounds) && i <= j < |rounds|
    ensures rounds[i].tScore <= rounds[j].tScore && rounds[i].ctScore <= rounds[j].ctScore
  {
    hide Wins;
    assert ScoredAt(rounds, i) && ScoredAt(rounds, j);
    WinsGrow(rounds, i + 1, j + 1, T);
    WinsGrow(rounds, i + 1, j + 1, CT);
  }

  function Decided(rounds: seq<Round>): nat {
    if rounds == [] then 0
    else Decided(rounds[..|rounds| - 1]) + if rounds[|rounds| - 1].winner.Some? then 1 else 0
  }

  lemma {:induction false} DecidedAreWins(rounds: seq<Round>)
    ensures Wins(rounds, T) + Wins(rounds, CT) == Decided(rounds) <= |rounds|
  {
    if rounds != [] {
      DecidedAreWins(rounds[..|rounds| - 1]);
      match rounds[|rounds| - 1].winner {
        case Some(T) =>
        case Some(CT) =>
        case None =>
      }
    }
  }

  /** The ends of rounds that a side has won. */
  function Won(events: seq<Event>, side: Side): nat {
    if events == [] then 0
    else
      var before, last := events[..|events| - 1], events[|events| - 1];
      Won(before, side) + if Open(before) && last.kind.RoundEnd? && last.winner == Some(side) then 1 else 0
  }

  function Starts(events: seq<Event>): nat {
    if events == [] then 0
    else Starts(events[..|events| - 1]) + if events[|events| - 1].kind.RoundStart? then 1 else 0
  }

  /** Ends won by a side, whether or not a round runs. */
  function EndsFor(events: seq<Event>, side: Side): nat {
    if events == [] then 0
    else
      EndsFor(events[..|events| - 1], side)
      + if events[|events| - 1].kind.RoundEnd? && events[|events| - 1].winner == Some(side) then 1 else 0
  }

  lemma {:induction false} CountsConcat(a: seq<Event>, b: seq<Event>, side: Side)
    ensures EndsFor(a + b, side) == EndsFor(a, side) + EndsFor(b, side)
    ensures Starts(a + b) == Starts(a) + Starts(b)
  {
    if b == [] {
      assert a + b == a;
    } else {
      assert (a + b)[..|a + b| - 1] == a + b[..|b| - 1];
      CountsConcat(a, b[..|b| - 1], side);
    }
  }

  lemma {:induction false} KeptCounts(events: seq<Event>, side: Side)
    ensures EndsFor(Kept(events), side) == Won(events, side) && Starts(Kept(events)) == Starts(events)
  {
    hide Open;
    if events != [] {
      var before, last := events[..|events| - 1], events[|events| - 1];
      KeptCounts(before, side);
      CountsConcat(Kept(before), [last], side);
      CountsConcat(Kept(before), [], side);
      assert [last][..0] == [];
    }
  }

  lemma {:induction false} NoEnds(events: seq<Event>, side: Side)
    requires forall i :: 0 <= i < |events| ==> !events[i].kind.RoundEnd?
    ensures EndsFor(events, side) == 0
  {
    if events != [] {
      NoEnds(events[..|events| - 1], side);
    }
  }

  lemma {:induction false} OneStart(events: seq<Event>)
    requires events != [] && events[0].kind.RoundStart?
    requires forall i :: 0 < i < |events| ==> !events[i].kind.RoundStart?
    ensures Starts(events) == 1
  {
    if |events| > 1 {
      OneStart(events[..|events| - 1]);
    } else {
      assert events[..0] == [] && Starts([]) == 0;
    }
  }

  /** A round has the start and the win that its events have. */
  lemma ShapedCounts(round: Round, side: Side)
    requires Shaped(round)
    ensures Starts(round.events) == 1 && EndsFor(round.events, side) == if round.winner == Some(side) then 1 else 0
  {
    OneStart(round.events);
    NoEnds(round.events[..|round.events| - 1], side);
  }

  lemma {:induction false} FlattenCounts(rounds: seq<Round>, side: Side)
    requires AllShaped(rounds)
    ensures EndsFor(Flatten(rounds), side) == Wins(rounds, side) && Starts(Flatten(rounds)) == |rounds|
  {
    hide Shaped, EndsFor, Starts;
    if rounds == [] {
      NothingCounts(side);
    } else {
      var before, last := rounds[..|rounds| - 1], rounds[|rounds| - 1];
      FlattenCounts(before, side);
      ShapedCounts(last, side);
      CountsConcat(Flatten(before), last.events, side);
    }
  }

  lemma NothingCounts(side: Side)
    ensures EndsFor([], side) == 0 && Starts([]) == 0
  {
  }

  /** There are as many rounds as starts; and the scores of the last round are the round ends that
      either side has won. */
  lemma {:induction false} FinalScore(events: seq<Event>, rounds: seq<Round>)
    requires AreRounds(events, rounds) && 0 < |rounds| <= U32_MAX
    ensures rounds[|rounds| - 1].number == |rounds| == Starts(events)
    ensures rounds[|rounds| - 1].tScore == Won(events, T) && rounds[|rounds| - 1].ctScore == Won(events, CT)
    ensures Won(events, T) + Won(events, CT) == Decided(rounds)
  {
    hide Shaped, Flatten, Kept, Wins, Won, Starts, EndsFor, Decided;
    DecidedAreWins(rounds);
    assert ScoredAt(rounds, |rounds| - 1);
    assert rounds[..|rounds| - 1 + 1] == rounds;
    FlattenCounts(rounds, T);
    FlattenCounts(rounds, CT);
    KeptCounts(events, T);
    KeptCounts(events, CT);
  }

  /** The events have one sequence of rounds. */
  lemma {:induction false} RoundsAreUnique(a: seq<Round>, b: seq<Round>)
    requires AllShaped(a) && Scored(a) && AllShaped(b) && Scored(b) && Flatten(a) == Flatten(b)
    ensures a == b
  {
    hide Shaped, AllShaped, Scored, Flatten, Starts, EndsFor, Wins;
    FlattenCounts(a, T);
    FlattenCounts(b, T);
    if a != [] {
      LastApart(a);
      LastApart(b);
      var n := |a| - 1;
      LastRound(Flatten(a[..n]), a[n], Flatten(b[..n]), b[n]);
      RoundsAreUnique(a[..n], b[..n]);
      LastIsSame(a, b);
    }
  }

  lemma LastApart(rounds: seq<Round>)
    requires rounds != [] && AllShaped(rounds) && Scored(rounds)
    ensures var n := |rounds| - 1;
            && AllShaped(rounds[..n]) && Scored(rounds[..n]) && Shaped(rounds[n])
            && Flatten(rounds) == Flatten(rounds[..n]) + rounds[n].events && rounds == rounds[..n] + [rounds[n]]
  {
    hide Shaped, Scored;
    FirstScored(rounds);
  }

  lemma FirstScored(rounds: seq<Round>)
    requires rounds != [] && Scored(rounds)
    ensures Scored(rounds[..|rounds| - 1])
  {
    hide Wins;
    var before := rounds[..|rounds| - 1];
    forall i | 0 <= i < |before|
      ensures ScoredAt(before, i)
    {
      assert ScoredAt(rounds, i) && before[..i + 1] == rounds[..i + 1];
    }
  }

  lemma LastRound(before: seq<Event>, x: Round, before': seq<Event>, y: Round)
    requires Shaped(x) && Shaped(y) && before + x.events == before' + y.events
    ensures before == before' && x.events == y.events
    ensures x.startTick == y.startTick && x.endTick == y.endTick && x.winner == y.winner
  {
    var all := before + x.events;
    assert all[|before|] == x.events[0] && all[|before'|] == y.events[0];
    assert |before| == |before'|;
    assert before == all[..|before|] && before' == all[..|before|];
    assert x.events == all[|before|..] && y.events == all[|before|..];
  }

  lemma LastIsSame(a: seq<Round>, b: seq<Round>)
    requires a != [] && |a| == |b| && Scored(a) && Scored(b)
    requires a[..|a| - 1] == b[..|a| - 1]
    requires var (x, y) := (a[|a| - 1], b[|a| - 1]);
             x == y.(number := x.number, tScore := x.tScore, ctScore := x.ctScore)
    ensures a[|a| - 1] == b[|b| - 1]
  {
    hide Wins;
    var n := |a| - 1;
    assert ScoredAt(a, n) && ScoredAt(b, n);
    assert a[..n + 1] == a && b[..n + 1] == b && a == a[..n] + [a[n]] && b == b[..n] + [b[n]];
    WinsNext(a[..n], a[n], T);
    WinsNext(b[..n], b[n], T);
    WinsNext(a[..n], a[n], CT);
    WinsNext(b[..n], b[n], CT);
  }

  /** Nobody has more headshots than kills, whatever saturates. */
  lemma {:induction false} HeadshotsAreKills(players: Players, events: seq<Event>, id: string)
    requires Tallied(players, events)
    ensures Of(players, id).headshots <= Of(players, id).kills
  {
    EarnedHeadshots(events, id);
    assert Shown(Of(players, id), Headshots) == Cap(Earned(events, Headshots, id));
    assert Shown(Of(players, id), Kills) == Cap(Earned(events, Kills, id));
  }

  lemma {:induction false} EarnedHeadshots(events: seq<Event>, id: string)
    ensures Earned(events, Headshots, id) <= Earned(events, Kills, id)
  {
    if events != [] {
      EarnedHeadshots(events[..|events| - 1], id);
    }
  }

  ghost function Sum(ids: set<string>, f: string -> nat): nat {
    if ids == {} then 0 else var id :| id in ids; f(id) + Sum(ids - {id}, f)
  }

  lemma {:induction false} SumWithout(ids: set<string>, f: string -> nat, x: string)
    requires x in ids
    ensures Sum(ids, f) == f(x) + Sum(ids - {x}, f)
  {
    var id :| id in ids && Sum(ids, f) == f(id) + Sum(ids - {id}, f);
    if id != x {
      SumWithout(ids - {id}, f, x);
      SumWithout(ids - {x}, f, id);
      assert ids - {id} - {x} == ids - {x} - {id};
    }
  }

  lemma {:induction false} SumSame(ids: set<string>, f: string -> nat, g: string -> nat)
    requires forall id <- ids :: f(id) == g(id)
    ensures Sum(ids, f) == Sum(ids, g)
  {
    if ids != {} {
      var id :| id in ids;
      SumWithout(ids, f, id);
      SumWithout(ids, g, id);
      SumSame(ids - {id}, f, g);
    }
  }

  lemma SumBump(ids: set<string>, f: string -> nat, g: string -> nat, x: string, w: nat)
    requires x in ids && g(x) == f(x) + w && forall id <- ids :: id != x ==> g(id) == f(id)
    ensures Sum(ids, g) == Sum(ids, f) + w
  {
    SumWithout(ids, f, x);
    SumWithout(ids, g, x);
    SumSame(ids - {x}, f, g);
  }

  lemma {:induction false} SumOfNothing(ids: set<string>, f: string -> nat)
    requires forall id <- ids :: f(id) == 0
    ensures Sum(ids, f) == 0
  {
    if ids != {} {
      var id :| id in ids;
      SumWithout(ids, f, id);
      SumOfNothing(ids - {id}, f);
    }
  }

  /** Whom an event can give points of a kind to, and how many. */
  function Earner(e: Event, stat: Stat): Option<string> {
    match stat
    case Deaths => e.target
    case Assists => e.assister
    case _ => e.actor
  }

  function Worth(e: Event, stat: Stat): nat {
    if Earner(e, stat).None? then 0 else Points(e, stat, Earner(e, stat).value)
  }

  function Total(events: seq<Event>, stat: Stat): nat {
    if events == [] then 0
    else
      var before, last := events[..|events| - 1], events[|events| - 1];
      Total(before, stat) + if Open(before) then Worth(last, stat) else 0
  }

  lemma OnlyTheEarner(e: Event, stat: Stat, id: string)
    ensures Points(e, stat, id) == if Earner(e, stat) == Some(id) then Worth(e, stat) else 0
  {
  }

  function EarnedBy(events: seq<Event>, stat: Stat): string -> nat {
    id => Earned(events, stat, id)
  }

  function ShownBy(players: Players, stat: Stat): string -> nat {
    id => Shown(Of(players, id), stat)
  }

  lemma {:induction false} SumOfEarned(ids: set<string>, events: seq<Event>, stat: Stat)
    requires forall id :: Earned(events, stat, id) > 0 ==> id in ids
    ensures Sum(ids, EarnedBy(events, stat)) == Total(events, stat)
    ensures forall id :: Earned(events, stat, id) <= Total(events, stat)
  {
    hide Points, Worth, Earner, Open, Sum;
    if events == [] {
      SumOfNothing(ids, EarnedBy(events, stat));
    } else {
      var before, last := events[..|events| - 1], events[|events| - 1];
      SumOfEarned(ids, before, stat);
      forall id
        ensures Points(last, stat, id) == if Earner(last, stat) == Some(id) then Worth(last, stat) else 0
      {
        OnlyTheEarner(last, stat, id);
      }
      var f, g := EarnedBy(before, stat), EarnedBy(events, stat);
      if Open(before) && Earner(last, stat).Some? && Worth(last, stat) > 0 {
        SumBump(ids, f, g, Earner(last, stat).value, Worth(last, stat));
      } else {
        assert Open(before) ==> Worth(last, stat) == 0 by { WorthOfNobody(last, stat); }
        SumSame(ids, f, g);
      }
    }
  }

  lemma WorthOfNobody(e: Event, stat: Stat)
    ensures Earner(e, stat).None? ==> Worth(e, stat) == 0
  {
  }

  /** Short of 32-bit saturation, the players' totals add up to what happened in rounds: kills to
      the kills that had an actor, deaths to those that had a target, and so on. */
  lemma TotalsAreConserved(players: Players, events: seq<Event>, stat: Stat)
    requires Tallied(players, events) && Total(events, stat) <= U32_MAX
    ensures Sum(players.Keys, ShownBy(players, stat)) == Total(events, stat)
  {
    hide Sum, Total, Earned;
    forall id | Earned(events, stat, id) > 0
      ensures id in players
    {
      assert Shown(Of(players, id), stat) == Cap(Earned(events, stat, id));
    }
    SumOfEarned(players.Keys, events, stat);
    forall id | id in players
      ensures ShownBy(players, stat)(id) == EarnedBy(events, stat)(id)
    {
      assert Shown(Of(players, id), stat) == Cap(Earned(events, stat, id));
    }
    SumSame(players.Keys, ShownBy(players, stat), EarnedBy(events, stat));
  }
}

/** Clutch situations: the last of a team against two or more. */
module Clutches {
  import opened Bytes
  import opened Results
  import opened Sorting
  import opened Sets

  datatype Kill = Kill(tick: u64, actor: Option<string>, target: Option<string>)

  datatype Candidate = Candidate(player: string, team: string, opponents: nat, startTick: u64)

  datatype Highlight = Highlight(player: string, startTick: u64, endTick: u64, won: bool, opponents: nat,
                                 victims: seq<string>)

  /** team and winner of a round, end of the round. */
  datatype Round = Round(winner: string, endTick: u64)

  function Lower(c: char): char {
    if 'A' <= c <= 'Z' then (c as int + 32) as char else c
  }

  predicate EqIgnoreCase(a: string, b: string) {
    |a| == |b| && forall i :: 0 <= i < |a| ==> Lower(a[i]) == Lower(b[i])
  }

  predicate Earlier(a: Kill, b: Kill) { a.tick <= b.tick }

  // --- who is alive -------------------------------------------------------------------------

  function Members(teams: map<string, string>, team: string): set<string> {
    set p | p in teams && teams[p] == team
  }

  function Dead(kills: seq<Kill>): set<string> {
    set i | 0 <= i < |kills| && kills[i].target.Some? :: kills[i].target.value
  }

  function Alive(teams: map<string, string>, team: string, kills: seq<Kill>): set<string> {
    Members(teams, team) - Dead(kills)
  }

  lemma DeadGrows(kills: seq<Kill>, n: nat, m: nat)
    requires n <= m <= |kills|
    ensures Dead(kills[..n]) <= Dead(kills[..m])
  {
    forall p | p in Dead(kills[..n])
      ensures p in Dead(kills[..m])
    {
      var i :| 0 <= i < n && kills[..n][i].target == Some(p);
      assert kills[..m][i].target == Some(p);
    }
  }

  lemma AliveShrinks(teams: map<string, string>, team: string, kills: seq<Kill>, n: nat, m: nat)
    requires n <= m <= |kills|
    ensures Alive(teams, team, kills[..m]) <= Alive(teams, team, kills[..n])
    ensures |Alive(teams, team, kills[..m])| <= |Alive(teams, team, kills[..n])|
  {
    DeadGrows(kills, n, m);
    SubsetSize(Alive(teams, team, kills[..m]), Alive(teams, team, kills[..n]));
  }

  lemma DeadNext(kills: seq<Kill>, n: nat)
    requires n < |kills|
    ensures Dead(kills[..n + 1]) == Dead(kills[..n]) + (if kills[n].target.Some? then {kills[n].target.value} else {})
  {
    var next := kills[..n + 1];
    assert next == kills[..n] + [kills[n]];
    forall p
      ensures p in Dead(next) <==> p in Dead(kills[..n]) || kills[n].target == Some(p)
    {
      if p in Dead(next) {
        var i :| 0 <= i < n + 1 && next[i].target == Some(p);
        assert i < n ==> kills[..n][i].target == Some(p);
      }
      if p in Dead(kills[..n]) {
        var i :| 0 <= i < n && kills[..n][i].target == Some(p);
        assert next[i].target == Some(p);
      }
      if kills[n].target == Some(p) {
        assert next[n].target == Some(p);
      }
    }
  }

  // --- the situation --------------------------------------------------------------------------

  /** After the first n kills, team is down to one against at least two of other. */
  ghost predicate Outnumbered(teams: map<string, string>, team: string, other: string, kills: seq<Kill>, n: nat)
    requires n <= |kills|
  {
    |Alive(teams, team, kills[..n])| == 1 && |Alive(teams, other, kills[..n])| >= 2
  }

  /** c describes the first such moment after a kill. */
  ghost predicate FirstMoment(teams: map<string, string>, team: string, other: string, kills: seq<Kill>, n: nat,
                              c: Candidate)
  {
    && 1 <= n <= |kills| && Outnumbered(teams, team, other, kills, n)
    && (forall k :: 1 <= k < n ==> !Outnumbered(teams, team, other, kills, k))
    && Alive(teams, team, kills[..n]) == {c.player} && c.team == team
    && c.opponents == |Alive(teams, other, kills[..n])| && c.startTick == kills[n - 1].tick
  }

  /** A team has the candidate of its first moment among the first n kills, or none if there is
      no such moment. */
  ghost predicate CandidateIs(teams: map<string, string>, team: string, other: string, kills: seq<Kill>, n: nat,
                              c: Option<Candidate>)
    requires n <= |kills|
  {
    if c.Some? then exists k: nat :: k <= n && FirstMoment(teams, team, other, kills, k, c.value)
    else forall k :: 1 <= k <= n ==> !Outnumbered(teams, team, other, kills, k)
  }

  /** Two teams cannot both be down to one against two: alive sets only shrink. */
  lemma NotBoth(teams: map<string, string>, a: string, b: string, kills: seq<Kill>, n: nat, m: nat)
    requires n <= |kills| && m <= |kills| && Outnumbered(teams, a, b, kills, n)
    ensures !Outnumbered(teams, b, a, kills, m)
  {
    hide Alive;
    if n <= m {
      AliveShrinks(teams, a, kills, n, m);
    } else {
      AliveShrinks(teams, b, kills, m, n);
    }
  }

  /** The opponents are the other team without its distinct dead. */
  lemma OpponentsAreTheRest(teams: map<string, string>, other: string, kills: seq<Kill>, n: nat)
    requires n <= |kills|
    ensures |Alive(teams, other, kills[..n])|
         == |Members(teams, other)| - |Members(teams, other) * Dead(kills[..n])|
  {
    var members, dead := Members(teams, other), Dead(kills[..n]);
    assert members == (members - dead) + (members * dead);
  }

  // --- the classification -----------------------------------------------------------------------

  predicate TwoTeams(teams: map<string, string>, a: string, b: string) {
    a != b && teams.Values == {a, b}
  }

  /** The check of one team after a kill. */
  method Consider(alive: map<string, set<string>>, candidates: map<string, Candidate>, team: string, other: string,
                  kills: seq<Kill>, n: nat, ghost teams: map<string, string>) returns (r: map<string, Candidate>)
    requires team != other && alive.Keys == {team, other} && n < |kills|
    requires alive[team] == Alive(teams, team, kills[..n + 1]) && alive[other] == Alive(teams, other, kills[..n + 1])
    requires CandidateIs(teams, team, other, kills, n, Lookup(candidates, team))
    ensures CandidateIs(teams, team, other, kills, n + 1, Lookup(r, team))
    ensures forall t :: t != team ==> Lookup(r, t) == Lookup(candidates, t)
  {
    hide Alive;
    r := candidates;
    if team in candidates {
      return;
    }
    var teamAlive := alive[team];
    if |teamAlive| != 1 {
      return;
    }
    var opponents := |alive[other]|;
    if opponents < 2 {
      return;
    }
    var player :| player in teamAlive;
    Singleton(teamAlive, player);
    r := candidates[team := Candidate(player, team, opponents, kills[n].tick)];
    assert FirstMoment(teams, team, other, kills, n + 1, r[team]);
  }

  function Lookup(candidates: map<string, Candidate>, team: string): Option<Candidate> {
    if team in candidates then Some(candidates[team]) else None
  }

  /** The candidates after all kills, which are in tick order. */
  method FindCandidates(teams: map<string, string>, a: string, b: string, kills: seq<Kill>)
    returns (candidates: map<string, Candidate>)
    requires TwoTeams(teams, a, b)
    requires |Members(teams, a)| >= 2 && |Members(teams, b)| >= 2
    ensures CandidateIs(teams, a, b, kills, |kills|, Lookup(candidates, a))
    ensures CandidateIs(teams, b, a, kills, |kills|, Lookup(candidates, b))
  {
    hide CandidateIs, Alive, Members, Dead;
    var alive := map[a := Members(teams, a), b := Members(teams, b)];
    candidates := map[];
    AtFirst(teams, a, b, kills);
    AtFirst(teams, b, a, kills);
    for n := 0 to |kills|
      invariant alive.Keys == {a, b}
      invariant alive[a] == Alive(teams, a, kills[..n]) && alive[b] == Alive(teams, b, kills[..n])
      invariant CandidateIs(teams, a, b, kills, n, Lookup(candidates, a))
      invariant CandidateIs(teams, b, a, kills, n, Lookup(candidates, b))
    {
      var event := kills[n];
      OneDies(teams, a, kills, n);
      OneDies(teams, b, kills, n);
      if event.target.Some? && event.target.value in teams {
        var team := teams[event.target.value];
        TeamIsOneOfTwo(teams, a, b, event.target.value);
        alive := alive[team := alive[team] - {event.target.value}];
      }
      candidates := Consider(alive, candidates, a, b, kills, n, teams);
      candidates := Consider(alive, candidates, b, a, kills, n, teams);
    }
  }

  lemma AtFirst(teams: map<string, string>, team: string, other: string, kills: seq<Kill>)
    ensures Alive(teams, team, kills[..0]) == Members(teams, team)
    ensures CandidateIs(teams, team, other, kills, 0, None)
  {
    assert Dead(kills[..0]) == {};
  }

  lemma OneDies(teams: map<string, string>, team: string, kills: seq<Kill>, n: nat)
    requires n < |kills|
    ensures var target := kills[n].target;
            Alive(teams, team, kills[..n + 1]) ==
              if target.Some? && target.value in teams && teams[target.value] == team
              then Alive(teams, team, kills[..n]) - {target.value} else Alive(teams, team, kills[..n])
  {
    DeadNext(kills, n);
  }

  lemma TeamIsOneOfTwo(teams: map<string, string>, a: string, b: string, player: string)
    requires TwoTeams(teams, a, b) && player in teams
    ensures teams[player] == a || teams[player] == b
  {
    assert teams[player] in teams.Values;
  }

  function Victims(kills: seq<Kill>, player: string, from: u64): seq<string> {
    if kills == [] then []
    else
      (if kills[0].tick >= from && kills[0].actor == Some(player) && kills[0].target.Some?
       then [kills[0].target.value] else []) + Victims(kills[1..], player, from)
  }

  function Shown(round: Round, kills: seq<Kill>, c: Candidate): Option<Highlight> {
    var won, victims := EqIgnoreCase(round.winner, c.team), Victims(kills, c.player, c.startTick);
    if won && victims == [] then None
    else Some(Highlight(c.player, SaturatingSub(c.startTick, 128), SaturatingAdd(round.endTick, 96), won, c.opponents, victims))
  }

  predicate FullTeams(teams: map<string, string>, a: string, b: string) {
    TwoTeams(teams, a, b) && |Members(teams, a)| >= 2 && |Members(teams, b)| >= 2
  }

  ghost predicate Never(teams: map<string, string>, team: string, other: string, kills: seq<Kill>) {
    forall k :: 1 <= k <= |kills| ==> !Outnumbered(teams, team, other, kills, k)
  }

  ghost predicate Somewhere(teams: map<string, string>, team: string, other: string, kills: seq<Kill>, c: Candidate) {
    exists n: nat :: FirstMoment(teams, team, other, kills, n, c)
  }

  /** There is a candidate exactly if some team is ever outnumbered; it is of the first such
      moment, and the other team never is. */
  ghost predicate OneClutch(teams: map<string, string>, a: string, b: string, kills: seq<Kill>, c: Option<Candidate>) {
    match c
    case None => Never(teams, a, b, kills) && Never(teams, b, a, kills)
    case Some(c) =>
      || (Somewhere(teams, a, b, kills, c) && Never(teams, b, a, kills))
      || (Somewhere(teams, b, a, kills, c) && Never(teams, a, b, kills))
  }

  lemma {:induction false} OnlyOne(teams: map<string, string>, a: string, b: string, kills: seq<Kill>, ca: Option<Candidate>, cb: Option<Candidate>)
    requires CandidateIs(teams, a, b, kills, |kills|, ca) && CandidateIs(teams, b, a, kills, |kills|, cb)
    ensures ca.None? || cb.None?
    ensures OneClutch(teams, a, b, kills, if ca.Some? then ca else cb)
  {
    hide Outnumbered;
    if ca.Some? {
      var n: nat :| n <= |kills| && FirstMoment(teams, a, b, kills, n, ca.value);
      OtherNever(teams, a, b, kills, n);
    }
    if cb.Some? {
      var n: nat :| n <= |kills| && FirstMoment(teams, b, a, kills, n, cb.value);
      OtherNever(teams, b, a, kills, n);
    }
  }

  lemma OtherNever(teams: map<string, string>, a: string, b: string, kills: seq<Kill>, n: nat)
    requires n <= |kills| && Outnumbered(teams, a, b, kills, n)
    ensures Never(teams, b, a, kills)
  {
    forall k | 1 <= k <= |kills|
      ensures !Outnumbered(teams, b, a, kills, k)
    {
      NotBoth(teams, a, b, kills, n, k);
    }
  }

  lemma LabelsAre(teams: map<string, string>, a: string, b: string)
    requires |teams.Values| == 2 && a in teams.Values && b in teams.Values - {a}
    ensures TwoTeams(teams, a, b)
  {
    Singleton(teams.Values - {a}, b);
    assert teams.Values == {a} + (teams.Values - {a});
  }

  lemma SameLabels(teams: map<string, string>, a: string, b: string, a': string, b': string)
    requires TwoTeams(teams, a, b) && TwoTeams(teams, a', b')
    ensures (a == a' && b == b') || (a == b' && b == a')
  {
    assert a in {a', b'} && b in {a', b'} && a' in {a, b};
  }

  method Render(round: Round, kills: seq<Kill>, c: Candidate) returns (output: seq<Highlight>)
    ensures output == if Shown(round, kills, c).Some? then [Shown(round, kills, c).value] else []
  {
    var won := EqIgnoreCase(round.winner, c.team);
    var victims := Victims(kills, c.player, c.startTick);
    if won && |victims| == 0 {
      return [];
    }
    return [Highlight(c.player, SaturatingSub(c.startTick, 128), SaturatingAdd(round.endTick, 96), won, c.opponents, victims)];
  }

  /** In a round with two full teams there is at most one clutch: the sole survivor of one team,
      at the first kill that left it against at least two of the other. Other rounds have none. */
  method ClassifyClutchAttempts(round: Round, teams: map<string, string>, events: seq<Kill>)
    returns (output: seq<Highlight>, ghost c: Option<Candidate>)
    ensures |output| <= 1
    ensures var kills := SortBy(events, Earlier);
            output == if c.Some? && Shown(round, kills, c.value).Some? then [Shown(round, kills, c.value).value] else []
    ensures (forall a, b :: !FullTeams(teams, a, b)) ==> c == None
    ensures forall a, b :: FullTeams(teams, a, b) ==> OneClutch(teams, a, b, SortBy(events, Earlier), c)
  {
    hide CandidateIs, OneClutch, Never, Somewhere, Members, Shown, SortBy;
    var kills := SortBy(events, Earlier);
    output, c := [], None;
    var labels := teams.Values;
    if |labels| != 2 {
      forall a, b | TwoTeams(teams, a, b)
        ensures false
      {
        PairSize(a, b);
      }
      return;
    }
    var a :| a in labels;
    assert |labels - {a}| == 1;
    var b :| b in labels - {a};
    LabelsAre(teams, a, b);
    if |Members(teams, a)| < 2 || |Members(teams, b)| < 2 {
      forall a', b' | TwoTeams(teams, a', b')
        ensures !FullTeams(teams, a', b')
      {
        SameLabels(teams, a, b, a', b');
      }
      return;
    }
    assert FullTeams(teams, a, b);
    var candidates := FindCandidates(teams, a, b, kills);
    var ca, cb := Lookup(candidates, a), Lookup(candidates, b);
    OnlyOne(teams, a, b, kills, ca, cb);
    if a in candidates {
      c := ca;
      output := Render(round, kills, candidates[a]);
    } else if b in candidates {
      c := cb;
      output := Render(round, kills, candidates[b]);
    }
    forall a', b' | FullTeams(teams, a', b')
      ensures OneClutch(teams, a', b', kills, c)
    {
      SameLabels(teams, a, b, a', b');
      ClutchIsSymmetric(teams, a, b, kills, c);
    }
  }

  lemma PairSize(a: string, b: string)
    ensures a != b ==> |{a, b}| == 2
  {
  }

  lemma ClutchIsSymmetric(teams: map<string, string>, a: string, b: string, kills: seq<Kill>, c: Option<Candidate>)
    requires OneClutch(teams, a, b, kills, c)
    ensures OneClutch(teams, b, a, kills, c)
  {
    hide Never, Somewhere;
  }
}

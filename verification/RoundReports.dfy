/** Rounds and player totals, told from the decoded events alone: which events happen within a round,
    and how often. */
module RoundReports {
  import opened Bytes
  import opened Results
  import opened RoundStats

  /** A round runs when event i comes: one has started before, and none has ended since. */
  ghost predicate InRound(events: seq<Event>, i: nat)
    requires i <= |events|
  {
    exists s :: 0 <= s < i && events[s].kind.RoundStart? && forall k :: s < k < i ==> !events[k].kind.RoundEnd?
  }

  lemma {:induction false} OpenMeans(events: seq<Event>, i: nat)
    requires i <= |events|
    ensures Open(events[..i]) <==> InRound(events, i)
  {
    if i > 0 {
      OpenMeans(events, i - 1);
      assert events[..i][..i - 1] == events[..i - 1];
      if s :| 0 <= s < i && events[s].kind.RoundStart? && forall k :: s < k < i ==> !events[k].kind.RoundEnd? {
        assert s < i - 1 ==> InRound(events, i - 1);
      }
      if events[i - 1].kind.RoundStart? {
        assert InRound(events, i);
      }
    }
  }

  lemma InRoundOfPrefix(events: seq<Event>, n: nat, i: nat)
    requires i <= n <= |events|
    ensures InRound(events[..n], i) <==> InRound(events, i)
  {
    OpenMeans(events, i);
    OpenMeans(events[..n], i);
    assert events[..n][..i] == events[..i];
  }

  // --- counts -------------------------------------------------------------------------------------

  /** The events within rounds for which something is true. */
  ghost function Where(events: seq<Event>, what: Event -> bool): set<nat> {
    set i: nat | i < |events| && InRound(events, i) && what(events[i])
  }

  /** The damage of those events. */
  ghost function DamageWhere(events: seq<Event>, what: Event -> bool): nat {
    if events == [] then 0
    else
      var n := |events| - 1;
      DamageWhere(events[..n], what) + if InRound(events, n) && what(events[n]) then events[n].damage else 0
  }

  function Saturated(n: nat): u32 {
    if n < 0x1_0000_0000 then n else 0xFFFF_FFFF
  }

  lemma WhereNext(events: seq<Event>, what: Event -> bool)
    requires events != []
    ensures var n := |events| - 1;
            && |Where(events, what)| == |Where(events[..n], what)| + (if Open(events[..n]) && what(events[n]) then 1 else 0)
            && (InRound(events, n) <==> Open(events[..n]))
  {
    var n := |events| - 1;
    var before, now := Where(events[..n], what), Where(events, what);
    OpenMeans(events, n);
    forall i: nat | i < n
      ensures i in before <==> i in now
    {
      InRoundOfPrefix(events, n, i);
    }
    assert now == before + if Open(events[..n]) && what(events[n]) then {n} else {};
  }

  /** What each of a player's totals counts. */
  function Feat(stat: Stat, id: string): Event -> bool {
    match stat
    case Kills => (e: Event) => e.kind.Kill? && e.actor == Some(id)
    case Deaths => (e: Event) => e.kind.Kill? && e.target == Some(id)
    case Assists => (e: Event) => e.kind.Kill? && e.assister == Some(id)
    case Headshots => (e: Event) => e.kind.Kill? && e.headshot && e.actor == Some(id)
    case Harm => (e: Event) => e.kind.Damage? && e.actor == Some(id)
  }

  /** The same of any player. */
  function AnyFeat(stat: Stat): Event -> bool {
    match stat
    case Kills => (e: Event) => e.kind.Kill? && e.actor.Some?
    case Deaths => (e: Event) => e.kind.Kill? && e.target.Some?
    case Assists => (e: Event) => e.kind.Kill? && e.assister.Some?
    case Headshots => (e: Event) => e.kind.Kill? && e.headshot && e.actor.Some?
    case Harm => (e: Event) => e.kind.Damage? && e.actor.Some?
  }

  lemma {:induction false} EarnedMeans(events: seq<Event>, stat: Stat, id: string)
    ensures Earned(events, stat, id) ==
            if stat.Harm? then DamageWhere(events, Feat(stat, id)) else |Where(events, Feat(stat, id))|
  {
    hide InRound, Open, Where;
    if events == [] {
      assert Where([], Feat(stat, id)) == {} by { NowhereInNothing(Feat(stat, id)); }
    } else {
      EarnedMeans(events[..|events| - 1], stat, id);
      WhereNext(events, Feat(stat, id));
    }
  }

  lemma NowhereInNothing(what: Event -> bool)
    ensures Where([], what) == {}
  {
  }

  lemma {:induction false} TotalMeans(events: seq<Event>, stat: Stat)
    ensures Total(events, stat) == if stat.Harm? then DamageWhere(events, AnyFeat(stat)) else |Where(events, AnyFeat(stat))|
  {
    hide InRound, Open, Where;
    if events == [] {
      assert Where([], AnyFeat(stat)) == {} by { NowhereInNothing(AnyFeat(stat)); }
    } else {
      TotalMeans(events[..|events| - 1], stat);
      WhereNext(events, AnyFeat(stat));
    }
  }

  /** A player's totals are how often, within rounds, he killed, was killed, helped, and killed by a
      headshot, and how much damage he dealt, each up to the largest 32-bit number. */
  lemma TotalsMean(players: Players, events: seq<Event>, id: string)
    requires Tallied(players, events)
    ensures var p := if id in players then players[id] else Player(None, 0, 0, 0, 0, 0);
            && p.kills == Saturated(|set i: nat | i < |events| && InRound(events, i)
                                                  && events[i].kind.Kill? && events[i].actor == Some(id)|)
            && p.deaths == Saturated(|set i: nat | i < |events| && InRound(events, i)
                                                   && events[i].kind.Kill? && events[i].target == Some(id)|)
            && p.assists == Saturated(|set i: nat | i < |events| && InRound(events, i)
                                                    && events[i].kind.Kill? && events[i].assister == Some(id)|)
            && p.headshots == Saturated(|set i: nat | i < |events| && InRound(events, i)
                                                      && events[i].kind.Kill? && events[i].headshot
                                                      && events[i].actor == Some(id)|)
            && p.damage == Saturated(DamageWhere(events, (e: Event) => e.kind.Damage? && e.actor == Some(id)))
  {
    forall stat
      ensures Shown(Of(players, id), stat) ==
              Saturated(if stat.Harm? then DamageWhere(events, Feat(stat, id)) else |Where(events, Feat(stat, id))|)
    {
      EarnedMeans(events, stat, id);
    }
    hide Earned, InRound, DamageWhere, Where, Feat;
    var p := Of(players, id);
    assert p.kills == Shown(p, Kills) && p.deaths == Shown(p, Deaths) && p.assists == Shown(p, Assists)
        && p.headshots == Shown(p, Headshots) && p.damage == Shown(p, Harm);
    KillsOf(events, id);
    DeathsAndAssistsOf(events, id);
    SameDamage(events, Feat(Harm, id), (e: Event) => e.kind.Damage? && e.actor == Some(id));
  }

  lemma KillsOf(events: seq<Event>, id: string)
    ensures Where(events, Feat(Kills, id)) ==
            set i: nat | i < |events| && InRound(events, i) && events[i].kind.Kill? && events[i].actor == Some(id)
    ensures Where(events, Feat(Headshots, id)) ==
            set i: nat | i < |events| && InRound(events, i) && events[i].kind.Kill? && events[i].headshot
                         && events[i].actor == Some(id)
  {
    hide InRound;
  }

  lemma DeathsAndAssistsOf(events: seq<Event>, id: string)
    ensures Where(events, Feat(Deaths, id)) ==
            set i: nat | i < |events| && InRound(events, i) && events[i].kind.Kill? && events[i].target == Some(id)
    ensures Where(events, Feat(Assists, id)) ==
            set i: nat | i < |events| && InRound(events, i) && events[i].kind.Kill? && events[i].assister == Some(id)
  {
    hide InRound;
  }

  lemma {:induction false} SameDamage(events: seq<Event>, p: Event -> bool, q: Event -> bool)
    requires forall e :: p(e) == q(e)
    ensures DamageWhere(events, p) == DamageWhere(events, q)
  {
    hide InRound;
    if events != [] {
      SameDamage(events[..|events| - 1], p, q);
    }
  }

  /** All kills together are how often anyone killed within rounds, as long as that is a 32-bit number. */
  lemma KillsAddUp(players: Players, events: seq<Event>)
    requires Tallied(players, events)
    ensures var n := |set i: nat | i < |events| && InRound(events, i) && events[i].kind.Kill? && events[i].actor.Some?|;
            n <= 0xFFFF_FFFF ==> Sum(players.Keys, (id: string) => Of(players, id).kills) == n
  {
    hide InRound, Sum, Tallied, Of;
    assert Where(events, AnyFeat(Kills)) ==
           set i: nat | i < |events| && InRound(events, i) && events[i].kind.Kill? && events[i].actor.Some?;
    OneSum(players, events, Kills, (id: string) => Of(players, id).kills);
  }

  /** And so for deaths, assists, headshots and damage. */
  lemma DeathsAddUp(players: Players, events: seq<Event>)
    requires Tallied(players, events)
    ensures var n := |set i: nat | i < |events| && InRound(events, i) && events[i].kind.Kill? && events[i].target.Some?|;
            n <= 0xFFFF_FFFF ==> Sum(players.Keys, (id: string) => Of(players, id).deaths) == n
  {
    hide InRound, Sum, Tallied, Of;
    assert Where(events, AnyFeat(Deaths)) ==
           set i: nat | i < |events| && InRound(events, i) && events[i].kind.Kill? && events[i].target.Some?;
    OneSum(players, events, Deaths, (id: string) => Of(players, id).deaths);
  }

  lemma AssistsAddUp(players: Players, events: seq<Event>)
    requires Tallied(players, events)
    ensures var n := |set i: nat | i < |events| && InRound(events, i) && events[i].kind.Kill? && events[i].assister.Some?|;
            n <= 0xFFFF_FFFF ==> Sum(players.Keys, (id: string) => Of(players, id).assists) == n
  {
    hide InRound, Sum, Tallied, Of;
    assert Where(events, AnyFeat(Assists)) ==
           set i: nat | i < |events| && InRound(events, i) && events[i].kind.Kill? && events[i].assister.Some?;
    OneSum(players, events, Assists, (id: string) => Of(players, id).assists);
  }

  lemma HeadshotsAddUp(players: Players, events: seq<Event>)
    requires Tallied(players, events)
    ensures var n := |set i: nat | i < |events| && InRound(events, i) && events[i].kind.Kill? && events[i].headshot
                                   && events[i].actor.Some?|;
            n <= 0xFFFF_FFFF ==> Sum(players.Keys, (id: string) => Of(players, id).headshots) == n
  {
    hide InRound, Sum, Tallied, Of;
    assert Where(events, AnyFeat(Headshots)) ==
           set i: nat | i < |events| && InRound(events, i) && events[i].kind.Kill? && events[i].headshot
                                   && events[i].actor.Some?;
    OneSum(players, events, Headshots, (id: string) => Of(players, id).headshots);
  }

  lemma DamageAddsUp(players: Players, events: seq<Event>)
    requires Tallied(players, events)
    ensures var n := DamageWhere(events, (e: Event) => e.kind.Damage? && e.actor.Some?);
            n <= 0xFFFF_FFFF ==> Sum(players.Keys, (id: string) => Of(players, id).damage) == n
  {
    hide DamageWhere, Sum, Tallied, Of;
    SameDamage(events, AnyFeat(Harm), (e: Event) => e.kind.Damage? && e.actor.Some?);
    OneSum(players, events, Harm, (id: string) => Of(players, id).damage);
  }

  lemma OneSum(players: Players, events: seq<Event>, stat: Stat, f: string -> nat)
    requires Tallied(players, events) && forall id :: f(id) == Shown(Of(players, id), stat)
    ensures var n := if stat.Harm? then DamageWhere(events, AnyFeat(stat)) else |Where(events, AnyFeat(stat))|;
            n <= 0xFFFF_FFFF ==> Sum(players.Keys, f) == n
  {
    TotalMeans(events, stat);
    hide Total, Sum, Where, DamageWhere, Shown, Of;
    SumSame(players.Keys, f, ShownBy(players, stat));
    if Total(events, stat) <= U32_MAX {
      TotalsAreConserved(players, events, stat);
    }
  }

  // --- sides --------------------------------------------------------------------------------------

  /** Event i says that the player is on a side, or on none: a team change that names him, or an event
      within a round that shows him as its assister, target or actor, in this order. */
  ghost predicate Says(events: seq<Event>, i: nat, id: string, side: Option<Side>)
    requires i < |events|
  {
    var e := events[i];
    match e.kind
    case TeamChange => e.player == Some(id) && e.team == Some(side)
    case Kill =>
      var assister := if e.assister == Some(id) then e.assisterSide else None;
      var target := if e.target == Some(id) then e.targetSide else None;
      var actor := if e.actor == Some(id) then e.actorSide else None;
      InRound(events, i) && side.Some?
      && (side == assister || (assister.None? && side == target) || (assister.None? && target.None? && side == actor))
    case RoundEnd => InRound(events, i) && side.Some? && e.actor == Some(id) && e.actorSide == side
    case Damage => InRound(events, i) && side.Some? && e.actor == Some(id) && e.actorSide == side
    case Other => InRound(events, i) && side.Some? && e.actor == Some(id) && e.actorSide == side
    case RoundStart => false
    case Irrelevant => false
  }

  /** Before event n, event i is the last that says anything of the player. */
  ghost predicate SaysLast(events: seq<Event>, n: nat, i: nat, id: string)
    requires n <= |events|
  {
    && i < n && (exists side :: Says(events, i, id, side))
    && forall k, side :: i < k < n ==> !Says(events, k, id, side)
  }

  lemma SaysMeans(events: seq<Event>, i: nat, id: string, side: Option<Side>)
    requires i < |events|
    ensures Says(events, i, id, side) <==>
            var e := events[i];
            (Moves(e, id) && e.team == Some(side))
            || (Open(events[..i]) && Counts(e.kind) && SideShown(e, id).Some? && SideShown(e, id) == side)
  {
    OpenMeans(events, i);
    hide InRound, Open;
  }

  lemma NoSideYet(id: string)
    ensures SideAfter([], id).None?
  {
  }

  /** A player is on the side that the last event to say anything of him says, and on none if no event
      does. */
  lemma {:induction false} SideMeans(events: seq<Event>, n: nat, id: string)
    requires n <= |events|
    ensures forall i, side :: 0 <= i < n && SaysLast(events, n, i, id) && Says(events, i, id, side) ==>
              SideAfter(events[..n], id) == side
    ensures (forall i, side :: 0 <= i < n ==> !Says(events, i, id, side)) ==> SideAfter(events[..n], id).None?
  {
    hide InRound, Open, Says, SideAfter, SideShown;
    if n == 0 {
      NoSideYet(id);
    } else {
      var m: nat := n - 1;
      var e := events[m];
      SideMeans(events, m, id);
      SideNext(events[..m], e, id);
      assert events[..n] == events[..m] + [e];
      forall side
        ensures Says(events, m, id, side) <==>
                (Moves(e, id) && e.team == Some(side))
                || (Open(events[..m]) && Counts(e.kind) && SideShown(e, id).Some? && SideShown(e, id) == side)
      {
        SaysMeans(events, m, id, side);
      }
      var said := if Moves(e, id) then e.team.value else SideShown(e, id);
      assert Says(events, m, id, said) <==> Moves(e, id) || (Open(events[..m]) && Counts(e.kind) && said.Some?);
      forall i, side | 0 <= i < n && SaysLast(events, n, i, id) && Says(events, i, id, side)
        ensures SideAfter(events[..n], id) == side
      {
        if i < m {
          assert SaysLast(events, m, i, id) && !Says(events, m, id, said);
        } else {
          assert Says(events, m, id, side);
        }
      }
    }
  }

  /** Event i gets a player onto the list: a change to a side, or an event within a round in one of its roles. */
  ghost predicate Names(events: seq<Event>, i: nat, id: string)
    requires i < |events|
  {
    var e := events[i];
    match e.kind
    case TeamChange => e.player == Some(id) && e.team.Some? && e.team.value.Some?
    case Kill => InRound(events, i) && (e.actor == Some(id) || e.target == Some(id) || e.assister == Some(id))
    case RoundEnd => InRound(events, i) && e.actor == Some(id)
    case Damage => InRound(events, i) && e.actor == Some(id)
    case Other => InRound(events, i) && e.actor == Some(id)
    case RoundStart => false
    case Irrelevant => false
  }

  lemma NobodyListed()
    ensures Listed([]) == {}
  {
  }

  /** The players listed are those that an event names. */
  lemma {:induction false} ListMeans(events: seq<Event>, n: nat, id: string)
    requires n <= |events|
    ensures id in Listed(events[..n]) <==> exists i :: 0 <= i < n && Names(events, i, id)
  {
    hide InRound, Open, Listed;
    if n == 0 {
      NobodyListed();
    } else {
      var m: nat := n - 1;
      ListMeans(events, m, id);
      ListedNext(events[..m], events[m]);
      assert events[..n] == events[..m] + [events[m]];
      OpenMeans(events, m);
      assert id in Listed(events[..n]) <==> id in Listed(events[..m]) || Names(events, m, id);
      assert (exists i :: 0 <= i < n && Names(events, i, id)) <==>
             (exists i :: 0 <= i < m && Names(events, i, id)) || Names(events, m, id);
    }
  }

  // --- rounds -------------------------------------------------------------------------------------

  /** Event i belongs to a round: it starts one, or comes within one and is neither a team change nor
      of a kind of no interest. */
  ghost predicate Belongs(events: seq<Event>, i: nat)
    requires i < |events|
  {
    match events[i].kind
    case RoundStart => true
    case RoundEnd => InRound(events, i)
    case Kill => InRound(events, i)
    case Damage => InRound(events, i)
    case Other => InRound(events, i)
    case TeamChange => false
    case Irrelevant => false
  }

  /** at lists, in order, where the events that belong to rounds are. */
  ghost predicate Lists(events: seq<Event>, at: seq<nat>) {
    && (forall j, k :: 0 <= j < k < |at| ==> at[j] < at[k])
    && (forall j :: 0 <= j < |at| ==> at[j] < |events|)
    && forall i :: 0 <= i < |events| ==> (i in at <==> Belongs(events, i))
  }

  lemma {:induction false} KeptMeans(events: seq<Event>, n: nat) returns (at: seq<nat>)
    requires n <= |events|
    ensures forall j, k :: 0 <= j < k < |at| ==> at[j] < at[k]
    ensures forall j :: 0 <= j < |at| ==> at[j] < n
    ensures forall i :: 0 <= i < n ==> (i in at <==> Belongs(events, i))
    ensures |Kept(events[..n])| == |at| && forall j :: 0 <= j < |at| ==> Kept(events[..n])[j] == events[at[j]]
  {
    hide InRound, Open;
    at := [];
    if n > 0 {
      at := KeptMeans(events, n - 1);
      assert events[..n][..n - 1] == events[..n - 1];
      OpenMeans(events, n - 1);
      if Belongs(events, n - 1) {
        at := at + [n - 1];
      }
    }
  }

  /** The rounds hold, one after the other, exactly the events that belong to rounds. */
  lemma {:induction false} RoundsHold(events: seq<Event>, rounds: seq<Round>) returns (at: seq<nat>)
    requires AreRounds(events, rounds)
    ensures Lists(events, at)
    ensures |Flatten(rounds)| == |at| && forall j :: 0 <= j < |at| ==> Flatten(rounds)[j] == events[at[j]]
  {
    hide Belongs, AllShaped, Scored, Kept, Flatten;
    assert events[..|events|] == events;
    at := KeptMeans(events, |events|);
  }

  lemma {:induction false} WinsMean(rounds: seq<Round>, n: nat, side: Side)
    requires n <= |rounds|
    ensures Wins(rounds[..n], side) == |set j: nat | j < n && rounds[j].winner == Some(side)|
  {
    hide Wins;
    var now := set j: nat | j < n && rounds[j].winner == Some(side);
    if n == 0 {
      assert now == {};
      NoWins(side);
    } else {
      WinsMean(rounds, n - 1, side);
      assert rounds[..n] == rounds[..n - 1] + [rounds[n - 1]];
      WinsNext(rounds[..n - 1], rounds[n - 1], side);
      var before := set j: nat | j < n - 1 && rounds[j].winner == Some(side);
      if rounds[n - 1].winner == Some(side) {
        assert now == before + {n - 1};
      } else {
        assert now == before;
      }
    }
  }

  lemma NoWins(side: Side)
    ensures Wins([], side) == 0
  {
  }

  /** Round i is number i + 1, spans its events, and shows how many of the rounds up to it either side
      has won. */
  lemma RoundMeans(events: seq<Event>, rounds: seq<Round>, i: nat)
    requires AreRounds(events, rounds) && i < |rounds|
    ensures var r := rounds[i];
            && r.number == Saturated(i + 1)
            && r.tScore == Saturated(|set j: nat | j < i + 1 && rounds[j].winner == Some(T)|)
            && r.ctScore == Saturated(|set j: nat | j < i + 1 && rounds[j].winner == Some(CT)|)
            && r.events != [] && r.startTick == r.events[0].tick && r.endTick == r.events[|r.events| - 1].tick
            && (forall k :: 0 <= k < |r.events| ==> (r.events[k].kind.RoundStart? <==> k == 0))
            && (forall k :: 0 <= k < |r.events| && r.events[k].kind.RoundEnd? ==> k == |r.events| - 1)
            && r.winner == if r.events[|r.events| - 1].kind.RoundEnd? then r.events[|r.events| - 1].winner else None
  {
    WinsMean(rounds, i + 1, T);
    WinsMean(rounds, i + 1, CT);
    assert ScoredAt(rounds, i) && Shaped(rounds[i]);
    hide Kept, Flatten, Wins;
  }
}

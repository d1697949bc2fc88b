/** What the highlights of a round say, told from its kills. */
module Highlights {
  import opened Bytes
  import opened Results
  import opened Sorting
  import opened Texts
  import Multi = MultiKills
  import Clutch = Clutches

  // --- what both have in common ---------------------------------------------------------------------

  /** 128 ticks before, or the first tick. */
  predicate LeadsIn(tick: u64, shown: u64) {
    shown == if tick < 128 then 0 else tick - 128
  }

  /** Some ticks later, as far as 64 bits reach. */
  predicate LeadsOut(tick: u64, ticks: nat, shown: u64) {
    shown == if tick + ticks < 0x1_0000_0000_0000_0000 then tick + ticks else 0xFFFF_FFFF_FFFF_FFFF
  }

  /** The names are those that are there, in their order. */
  predicate AreNames(names: seq<string>, all: seq<Option<string>>) {
    if all == [] then names == []
    else if all[0].Some? then names != [] && names[0] == all[0].value && AreNames(names[1..], all[1..])
    else AreNames(names, all[1..])
  }

  // --- multi-kills ----------------------------------------------------------------------------------

  /** Kills from s to e lie within the window, and neither the one before nor the one after does too; the
      highlight shows them. */
  ghost predicate IsMultiKill(round: u32, kills: seq<Multi.Event>, window: u64, count: nat, s: nat, e: nat, h: Multi.Highlight) {
    && s <= e < |kills| && e - s + 1 >= count
    && kills[e].tick - kills[s].tick <= window
    && (s > 0 ==> kills[e].tick - kills[s - 1].tick > window)
    && (e + 1 < |kills| ==> kills[e + 1].tick - kills[s].tick > window)
    && h.round == round && h.count == e - s + 1
    && LeadsIn(kills[s].tick, h.startTick) && LeadsOut(kills[e].tick, 192, h.endTick)
    && h.id == Decimal(round) + ":" + h.actor + ":" + Decimal(kills[s].tick) + "-multikill"
    && AreNames(h.victims, seq(e - s + 1, k requires 0 <= k < e - s + 1 => kills[s + k].target))
  }

  function TargetsOf(kills: seq<Multi.Event>): seq<Option<string>> {
    seq(|kills|, k requires 0 <= k < |kills| => kills[k].target)
  }

  lemma {:induction false} TargetsMean(names: seq<string>, kills: seq<Multi.Event>)
    ensures AreNames(names, TargetsOf(kills)) <==> names == Multi.Targets(kills)
  {
    if kills != [] {
      assert TargetsOf(kills)[1..] == TargetsOf(kills[1..]);
      if kills[0].target.Some? {
        if names != [] {
          TargetsMean(names[1..], kills[1..]);
          assert names == [names[0]] + names[1..];
        }
      } else {
        TargetsMean(names, kills[1..]);
      }
    }
  }

  lemma DescribeMeans(round: u32, kills: seq<Multi.Event>, window: u64, count: nat, s: nat, e: nat, h: Multi.Highlight)
    requires Multi.Ascending(kills)
    ensures IsMultiKill(round, kills, window, count, s, e, h) <==>
            Multi.Emitted(kills, window, count, s, e) && h == Multi.Describe(round, h.actor, kills, s, e)
  {
    hide Decimal, Multi.Targets, AreNames;
    if s <= e < |kills| {
      var run := kills[s..e + 1];
      TargetsMean(h.victims, run);
      assert TargetsOf(run) == seq(e - s + 1, k requires 0 <= k < e - s + 1 => kills[s + k].target);
      assert Multi.IdText(round, h.actor, kills[s].tick) ==
             Decimal(round) + ":" + h.actor + ":" + Decimal(kills[s].tick) + "-multikill";
    }
  }

  /** A highlight is shown exactly if it is a multi-kill of its actor's kills in tick order. */
  lemma MultiKillMeans(round: u32, events: seq<Multi.Event>, window: u64, count: nat, h: Multi.Highlight)
    ensures Multi.Shows(round, events, window, count, h) <==>
            exists s, e :: IsMultiKill(round, Multi.Timeline(events, h.actor), window, count, s, e, h)
  {
    hide Multi.Timeline, Multi.Emitted, Multi.Describe;
    Multi.TimelineAscends(events, h.actor);
    var kills := Multi.Timeline(events, h.actor);
    forall s: nat, e: nat
      ensures IsMultiKill(round, kills, window, count, s, e, h) <==>
              Multi.Emitted(kills, window, count, s, e) && h == Multi.Describe(round, h.actor, kills, s, e)
    {
      DescribeMeans(round, kills, window, count, s, e, h);
    }
    hide IsMultiKill;
  }

  /** The actor's kills in tick order, those of one tick as they came: at says where they were. */
  lemma TimelineMeans(events: seq<Multi.Event>, actor: string) returns (at: seq<nat>)
    ensures var kills := Multi.Timeline(events, actor);
            && |at| == |kills|
            && (forall j :: 0 <= j < |at| ==> at[j] < |events| && kills[j] == events[at[j]])
            && (forall i :: 0 <= i < |events| ==> (i in at <==> events[i].kill && events[i].actor == Some(actor)))
            && forall j, k :: 0 <= j < k < |at| ==>
                 kills[j].tick < kills[k].tick || (kills[j].tick == kills[k].tick && at[j] < at[k])
  {
    hide Multi.KillsBy, SortBy;
    var those := Multi.KillsBy(events, actor);
    var from := KillsMean(events, actor, |events|);
    assert events[..|events|] == events;
    var places := SortPlaces(those, Multi.Earlier);
    assert Multi.Timeline(events, actor) == SortBy(those, Multi.Earlier);
    at := Composed(from, places);
    forall i | 0 <= i < |events|
      ensures i in at <==> events[i].kill && events[i].actor == Some(actor)
    {
      if i in from {
        var f :| 0 <= f < |from| && from[f] == i;
        assert f in places;
        var j :| 0 <= j < |places| && places[j] == f;
        assert at[j] == i;
      }
    }
  }

  function Composed(from: seq<nat>, places: seq<nat>): (at: seq<nat>)
    requires forall j :: 0 <= j < |places| ==> places[j] < |from|
    ensures |at| == |places| && forall j :: 0 <= j < |at| ==> at[j] == from[places[j]]
  {
    seq(|places|, j requires 0 <= j < |places| => from[places[j]])
  }

  lemma {:induction false} KillsMean(events: seq<Multi.Event>, actor: string, n: nat) returns (at: seq<nat>)
    requires n <= |events|
    ensures |at| == |Multi.KillsBy(events[..n], actor)|
    ensures forall j :: 0 <= j < |at| ==> at[j] < n && Multi.KillsBy(events[..n], actor)[j] == events[at[j]]
    ensures forall j, k :: 0 <= j < k < |at| ==> at[j] < at[k]
    ensures forall i :: 0 <= i < n ==> (i in at <==> events[i].kill && events[i].actor == Some(actor))
  {
    at := [];
    if n > 0 {
      at := KillsMean(events, actor, n - 1);
      assert events[..n][..n - 1] == events[..n - 1];
      if events[n - 1].kill && events[n - 1].actor == Some(actor) {
        at := at + [n - 1];
      }
    }
  }

  // --- clutches -------------------------------------------------------------------------------------

  /** The same letter, in either case. */
  predicate SameLetter(x: char, y: char) {
    x == y || ('A' <= x <= 'Z' && y as int == x as int + 32) || ('A' <= y <= 'Z' && x as int == y as int + 32)
  }

  predicate SameName(a: string, b: string) {
    |a| == |b| && forall i :: 0 <= i < |a| ==> SameLetter(a[i], b[i])
  }

  /** Whom the player killed from a tick on. */
  function KilledBy(kills: seq<Clutch.Kill>, player: string, from: u64): seq<Option<string>> {
    seq(|kills|, k requires 0 <= k < |kills| =>
      if kills[k].actor == Some(player) && kills[k].tick >= from then kills[k].target else None)
  }

  lemma {:induction false} VictimsMean(names: seq<string>, kills: seq<Clutch.Kill>, player: string, from: u64)
    ensures AreNames(names, KilledBy(kills, player, from)) <==> names == Clutch.Victims(kills, player, from)
  {
    if kills != [] {
      assert KilledBy(kills, player, from)[1..] == KilledBy(kills[1..], player, from);
      var first := KilledBy(kills, player, from)[0];
      assert first == if kills[0].actor == Some(player) && kills[0].tick >= from then kills[0].target else None;
      if first.Some? {
        if names != [] {
          VictimsMean(names[1..], kills[1..], player, from);
          assert names == [names[0]] + names[1..];
        }
      } else {
        VictimsMean(names, kills[1..], player, from);
      }
    }
  }

  lemma NameMeans(a: string, b: string)
    ensures Clutch.EqIgnoreCase(a, b) <==> SameName(a, b)
  {
    forall x: char, y: char
      ensures Clutch.Lower(x) == Clutch.Lower(y) <==> SameLetter(x, y)
    {
    }
    hide Clutch.Lower, SameLetter;
  }

  /** How a clutch is shown: from before its first moment until after the round, as won if the round was won
      by the player's team, with those he killed from then on. A won one without a kill is not shown. */
  lemma ClutchMeans(round: Clutch.Round, kills: seq<Clutch.Kill>, c: Clutch.Candidate)
    ensures var r := Clutch.Shown(round, kills, c);
            && (r.None? <==> SameName(round.winner, c.team) && AreNames([], KilledBy(kills, c.player, c.startTick)))
            && (r.Some? ==>
                  var h := r.value;
                  && h.player == c.player && h.opponents == c.opponents && (h.won <==> SameName(round.winner, c.team))
                  && LeadsIn(c.startTick, h.startTick) && LeadsOut(round.endTick, 96, h.endTick)
                  && AreNames(h.victims, KilledBy(kills, c.player, c.startTick)))
  {
    hide AreNames, SameName, Clutch.EqIgnoreCase, Clutch.Victims;
    NameMeans(round.winner, c.team);
    VictimsMean(Clutch.Victims(kills, c.player, c.startTick), kills, c.player, c.startTick);
    VictimsMean([], kills, c.player, c.startTick);
  }

  /** A moment at which a team is down to one against at least two: of its members just one was no target of
      the first n kills, and of the other's at least two. */
  lemma OutnumberedMeans(teams: map<string, string>, team: string, other: string, kills: seq<Clutch.Kill>, n: nat)
    requires n <= |kills|
    ensures Clutch.Outnumbered(teams, team, other, kills, n) <==>
            && |set p | p in teams && teams[p] == team && Survives(kills, n, p)| == 1
            && |set p | p in teams && teams[p] == other && Survives(kills, n, p)| >= 2
  {
    forall t
      ensures Clutch.Alive(teams, t, kills[..n]) == set p | p in teams && teams[p] == t && Survives(kills, n, p)
    {
      forall p
        ensures p in Clutch.Dead(kills[..n]) <==> !Survives(kills, n, p)
      {
        if !Survives(kills, n, p) {
          var i :| 0 <= i < n && kills[i].target == Some(p);
          assert kills[..n][i].target == Some(p);
        }
      }
      hide Survives, Clutch.Dead;
    }
  }

  /** Two full teams: all players are of one of two teams, which have at least two each. */
  lemma FullTeamsMean(teams: map<string, string>, a: string, b: string)
    ensures Clutch.FullTeams(teams, a, b) <==>
            && a != b && (forall p <- teams :: teams[p] == a || teams[p] == b)
            && |set p | p in teams && teams[p] == a| >= 2 && |set p | p in teams && teams[p] == b| >= 2
  {
    forall t
      ensures Clutch.Members(teams, t) == set p | p in teams && teams[p] == t
    {
    }
    if Clutch.FullTeams(teams, a, b) {
      assert forall p <- teams :: teams[p] in teams.Values;
    }
    if |set p | p in teams && teams[p] == a| >= 2 && |set p | p in teams && teams[p] == b| >= 2 {
      var p :| p in Clutch.Members(teams, a);
      var q :| q in Clutch.Members(teams, b);
      assert teams[p] in teams.Values && teams[q] in teams.Values;
    }
  }

  predicate Survives(kills: seq<Clutch.Kill>, n: nat, p: string)
    requires n <= |kills|
  {
    forall i :: 0 <= i < n ==> kills[i].target != Some(p)
  }
}

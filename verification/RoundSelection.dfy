/** Which events CompetitiveRounds selects, told from ticks, sequence numbers and round counters. */
module RoundSelection {
  import opened Bytes
  import opened Results
  import opened Sorting
  import opened CompetitiveRounds

  // --- the rounds -----------------------------------------------------------------------------------

  /** Event i starts round n: one more than it says were played, as far as 64 bits reach. */
  predicate IsStart(events: seq<Event>, i: int, n: u64)
    requires 0 <= i < |events|
  {
    var e := events[i];
    e.name.RoundStart? && e.played.Some?
    && n == if e.played.value < 0xFFFF_FFFF_FFFF_FFFF then e.played.value + 1 else 0xFFFF_FFFF_FFFF_FFFF
  }

  /** Event i ends round n: it says n were played, and that somebody won. */
  predicate IsEnd(events: seq<Event>, i: int, n: u64)
    requires 0 <= i < |events|
  {
    events[i].name.RoundEnd? && events[i].played == Some(n) && n > 0 && events[i].winner
  }

  /** Round n starts with event s and ends with event e, each the first to do so, in order of ticks. */
  ghost predicate IsRound(events: seq<Event>, n: u64, s: int, e: int) {
    && 0 <= s < |events| && 0 <= e < |events|
    && IsStart(events, s, n) && (forall i :: 0 <= i < s ==> !IsStart(events, i, n))
    && IsEnd(events, e, n) && (forall i :: 0 <= i < e ==> !IsEnd(events, i, n))
    && events[s].tick <= events[e].tick
  }

  lemma {:induction false} FirstStartMeans(events: seq<Event>, n: u64, m: nat) returns (s: int)
    requires m <= |events|
    ensures -1 <= s < m
    ensures FirstStart(events[..m], n).Some? <==> 0 <= s < m
    ensures 0 <= s < m ==> FirstStart(events[..m], n) == Some(events[s]) && IsStart(events, s, n)
    ensures forall i :: 0 <= i < m && (i < s || s < 0) ==> !IsStart(events, i, n)
  {
    s := -1;
    if m > 0 {
      s := FirstStartMeans(events, n, m - 1);
      assert events[..m][..m - 1] == events[..m - 1];
      if s < 0 && IsStart(events, m - 1, n) {
        s := m - 1;
      }
    }
  }

  lemma {:induction false} FirstEndMeans(events: seq<Event>, n: u64, m: nat) returns (s: int)
    requires m <= |events|
    ensures -1 <= s < m
    ensures FirstEnd(events[..m], n).Some? <==> 0 <= s < m
    ensures 0 <= s < m ==> FirstEnd(events[..m], n) == Some(events[s]) && IsEnd(events, s, n)
    ensures forall i :: 0 <= i < m && (i < s || s < 0) ==> !IsEnd(events, i, n)
  {
    s := -1;
    if m > 0 {
      s := FirstEndMeans(events, n, m - 1);
      assert events[..m][..m - 1] == events[..m - 1];
      if s < 0 && IsEnd(events, m - 1, n) {
        s := m - 1;
      }
    }
  }

  lemma RoundOfMeans(events: seq<Event>, n: u64) returns (s: int, e: int)
    ensures RoundOf(events, n).Some? <==> IsRound(events, n, s, e)
    ensures RoundOf(events, n).Some? ==> RoundOf(events, n).value == Boundary(n, events[s], events[e])
    ensures forall s', e' :: IsRound(events, n, s', e') ==> s' == s && e' == e
  {
    s := FirstStartMeans(events, n, |events|);
    e := FirstEndMeans(events, n, |events|);
    assert events[..|events|] == events;
    hide FirstStart, FirstEnd, IsStart, IsEnd;
  }

  /** The boundaries are the first start and the first end of their number, in order of ticks. */
  ghost predicate Paired(events: seq<Event>, b: Boundary) {
    exists s, e :: IsRound(events, b.number, s, e) && b.start == events[s] && b.end == events[e]
  }

  /** The rounds are exactly those that are paired, in the order of their numbers. */
  lemma RoundsMean(events: seq<Event>, rounds: seq<Boundary>)
    requires AreRounds(events, rounds)
    ensures forall i, j :: 0 <= i < j < |rounds| ==> rounds[i].number < rounds[j].number
    ensures forall b :: b in rounds <==> Paired(events, b)
  {
    hide RoundOf, IsStart, IsEnd;
    forall b
      ensures b in rounds <==> Paired(events, b)
    {
      var s, e := RoundOfMeans(events, b.number);
      if b in rounds {
        assert IsRound(events, b.number, s, e);
      }
    }
  }

  /** No events are selected exactly if no round has both its boundaries, or if there are more than 128. */
  lemma RefusedIff(events: seq<Event>, rounds: seq<Boundary>, r: Result<seq<Event>, SelectError>)
    requires IsSelection(events, rounds, r)
    ensures r == Err(NoPairedRounds) <==> forall b :: !Paired(events, b)
    ensures r == Err(TooManyRounds) <==> |rounds| > 128
    ensures r.Ok? ==> r.value == Output(events, rounds) && 1 <= |rounds| <= 128
  {
    hide AreRounds, Paired, Output;
    RoundsMean(events, rounds);
    if |rounds| > 0 {
      assert Paired(events, rounds[0]);
    }
  }

  // --- the events between them ----------------------------------------------------------------------

  /** a comes strictly before b, by tick and then by sequence number. */
  predicate Precedes(a: Event, b: Event) {
    if a.tick == b.tick then a.sequence < b.sequence else a.tick < b.tick
  }

  /** Round i has e: it comes from the start of the round on, before its end, and from both boundaries of
      every round of a smaller number on. */
  ghost predicate Has(rounds: seq<Boundary>, i: nat, e: Event)
    requires i < |rounds|
  {
    && e.name.Other? && !Precedes(e, rounds[i].start) && Precedes(e, rounds[i].end)
    && forall j :: 0 <= j < i ==> !Precedes(e, rounds[j].start) && !Precedes(e, rounds[j].end)
  }

  lemma HasMeans(rounds: seq<Boundary>, i: nat, e: Event)
    requires i < |rounds|
    ensures Has(rounds, i, e) <==> IsOther(e) && Takes(rounds, i, e)
  {
    if Takes(rounds, i, e) {
      assert forall j :: 0 <= j < i ==> Passed(e, rounds[j]);
    }
    if Has(rounds, i, e) {
      assert forall j :: 0 <= j < i ==> !Precedes(e, rounds[j].start);
    }
  }

  /** Every other event is selected as often as it occurs if a round has it, and else not at all; and what
      is selected is in order. */
  lemma SelectedIff(events: seq<Event>, rounds: seq<Boundary>, e: Event)
    requires AreRounds(events, rounds) && e.name.Other?
    ensures multiset(Output(events, rounds))[e] ==
            if exists i :: 0 <= i < |rounds| && Has(rounds, i, e) then multiset(events)[e] else 0
    ensures forall j, k :: 0 <= j < k < |Output(events, rounds)| ==>
              !Precedes(Output(events, rounds)[k], Output(events, rounds)[j])
  {
    hide AreRounds, Output, Has, Takes;
    OthersAreConserved(events, rounds, e);
    forall i | 0 <= i < |rounds|
      ensures Has(rounds, i, e) <==> Takes(rounds, i, e)
    {
      HasMeans(rounds, i, e);
    }
  }

  // --- the boundaries and their rosters -------------------------------------------------------------

  /** Where the sweep stands when it comes to round i. */
  function Cursor(o: seq<Event>, rounds: seq<Boundary>, i: nat): (n: nat)
    requires i <= |rounds|
    ensures n <= |o|
  {
    if i == 0 then 0 else Next(o, rounds[i - 1], Cursor(o, rounds, i - 1))
  }

  lemma {:induction false} CursorMeans(o: seq<Event>, rounds: seq<Boundary>, i: nat, k: nat)
    requires Ordered(o) && i <= |rounds| && k < |o|
    ensures Cursor(o, rounds, i) <= k <==> forall j :: 0 <= j < i ==> Passed(o[k], rounds[j])
  {
    hide Ordered, Before, Next;
    if i > 0 {
      CursorMeans(o, rounds, i - 1, k);
      NextMeans(o, rounds[i - 1], Cursor(o, rounds, i - 1), k);
    }
  }

  lemma NextMeans(o: seq<Event>, round: Boundary, cursor: nat, k: nat)
    requires Ordered(o) && cursor <= |o| && k < |o|
    ensures Next(o, round, cursor) <= k <==> cursor <= k && Passed(o[k], round)
    ensures Skip(o, cursor, round.start) <= k < Next(o, round, cursor) <==> cursor <= k && Within(o[k], round)
  {
    hide Ordered, Before;
    var from := Skip(o, cursor, round.start);
    if from <= k {
      SkippedTo(o, cursor, round.start, k);
    }
    if Next(o, round, cursor) <= k {
      SkippedTo(o, from, round.end, k);
    }
  }

  /** The stretch of the sorted events that round i takes. */
  lemma StretchMeans(o: seq<Event>, rounds: seq<Boundary>, i: nat, k: nat)
    requires Ordered(o) && i < |rounds| && k < |o|
    ensures Skip(o, Cursor(o, rounds, i), rounds[i].start) <= k < Cursor(o, rounds, i + 1) <==> Takes(rounds, i, o[k])
  {
    hide Ordered, Before, Next, Skip, Within, Passed;
    CursorMeans(o, rounds, i, k);
    NextMeans(o, rounds[i], Cursor(o, rounds, i), k);
  }

  function Interval(o: seq<Event>, rounds: seq<Boundary>, i: nat): seq<Event>
    requires i < |rounds|
  {
    var from := Skip(o, Cursor(o, rounds, i), rounds[i].start);
    Others(o[from..Skip(o, from, rounds[i].end)])
  }

  /** x ends round i, or starts it with the roster of its interval. */
  predicate Delimits(o: seq<Event>, rounds: seq<Boundary>, i: nat, x: Event)
    requires i < |rounds|
  {
    x == rounds[i].end || x == WithRoster(rounds[i].start, Interval(o, rounds, i))
  }

  lemma {:induction false} LaidDelimits(o: seq<Event>, rounds: seq<Boundary>, i: nat, x: Event)
    requires i <= |rounds| && x in Laid(o, rounds[i..], Cursor(o, rounds, i)) && !IsOther(x)
    ensures exists j :: i <= j < |rounds| && Delimits(o, rounds, j, x)
    decreases |rounds| - i
  {
    hide Skip, Others, WithRoster, Laid;
    var cursor := Cursor(o, rounds, i);
    if i == |rounds| {
      NothingLaid(o, rounds[i..], cursor);
    } else {
      LaidIsPieces(o, rounds[i..], cursor);
      assert rounds[i..][1..] == rounds[i + 1..];
      if x in Piece(o, rounds[i], cursor) {
        assert Piece(o, rounds[i], cursor) ==
               [WithRoster(rounds[i].start, Interval(o, rounds, i))] + Interval(o, rounds, i) + [rounds[i].end];
        assert Delimits(o, rounds, i, x);
      } else {
        LaidDelimits(o, rounds, i + 1, x);
      }
    }
  }

  predicate LastAt(players: seq<(u64, Side)>, m: int, p: u64) {
    0 <= m < |players| && players[m].0 == p && forall k :: m < k < |players| ==> players[k].0 != p
  }

  predicate Unmentioned(players: seq<(u64, Side)>, p: u64) {
    forall k :: 0 <= k < |players| ==> players[k].0 != p
  }

  /** The last mention of a player counts. */
  lemma {:induction false} AddPlayersMeans(roster: Roster, players: seq<(u64, Side)>, p: u64)
    ensures var r := AddPlayers(roster, players);
            && (Unmentioned(players, p) ==> (p in r <==> p in roster) && (p in r ==> r[p] == roster[p]))
            && (!Unmentioned(players, p) ==> exists m :: LastAt(players, m, p))
            && forall m :: LastAt(players, m, p) ==> p in r && r[p] == players[m].1
    decreases |players|
  {
    if players != [] {
      var rest, next := players[1..], roster[players[0].0 := players[0].1];
      AddPlayersMeans(next, rest, p);
      assert forall k :: 0 < k < |players| ==> players[k] == rest[k - 1];
      assert forall k :: 0 <= k < |rest| ==> rest[k] == players[k + 1];
      assert Unmentioned(players, p) <==> Unmentioned(rest, p) && players[0].0 != p;
      if m :| LastAt(rest, m, p) {
        assert LastAt(players, m + 1, p);
      }
      if Unmentioned(rest, p) && players[0].0 == p {
        assert LastAt(players, 0, p);
      }
      forall m | LastAt(players, m, p)
        ensures p in AddPlayers(roster, players) && AddPlayers(roster, players)[p] == players[m].1
      {
        if m > 0 {
          assert LastAt(rest, m - 1, p);
        } else {
          assert Unmentioned(rest, p);
        }
      }
    }
  }

  /** The k-th of the sorted events is another event between the two places and mentions p last. */
  ghost predicate MentionsLast(o: seq<Event>, from: nat, until: nat, k: int, p: u64)
    requires until <= |o|
  {
    && from <= k < until && IsOther(o[k]) && !Unmentioned(o[k].players, p)
    && forall k' :: k < k' < until ==> !IsOther(o[k']) || Unmentioned(o[k'].players, p)
  }

  lemma {:induction false} RosterOfStretch(o: seq<Event>, from: nat, until: nat, p: u64)
    requires from <= until <= |o|
    ensures var all := RosterOf(Others(o[from..until]));
            && (p in all ==> exists k :: MentionsLast(o, from, until, k, p))
            && (forall k, m :: MentionsLast(o, from, until, k, p) && LastAt(o[k].players, m, p) ==>
                  p in all && all[p] == o[k].players[m].1)
    decreases until
  {
    hide Unmentioned, LastAt, AddPlayers, Others, RosterOf, MentionsLast, IsOther;
    if from == until {
      NoOthers(o[from..until]);
      NobodyListed(o, from, p);
    } else {
      RosterOfStretch(o, from, until - 1, p);
      RosterGrows(o, from, until, p);
      MentionsGrow(o, from, until, p);
      var last := until - 1;
      AddPlayersMeans(RosterOf(Others(o[from..last])), o[last].players, p);
      if IsOther(o[last]) && !Unmentioned(o[last].players, p) {
        assert MentionsLast(o, from, until, last, p);
      }
    }
  }

  lemma NobodyListed(o: seq<Event>, from: nat, p: u64)
    requires from <= |o|
    ensures RosterOf([]) == map[] && forall k :: !MentionsLast(o, from, from, k, p)
  {
  }

  lemma RosterGrows(o: seq<Event>, from: nat, until: nat, p: u64)
    requires from < until <= |o|
    ensures var e, before := o[until - 1], RosterOf(Others(o[from..until - 1]));
            RosterOf(Others(o[from..until])) == if IsOther(e) then AddPlayers(before, e.players) else before
  {
    hide AddPlayers, Others, RosterOf;
    var e, xs := o[until - 1], o[from..until - 1];
    assert o[from..until] == xs + [e];
    OthersNext(xs, e);
    RosterNext(Others(xs), e);
  }

  lemma MentionsGrow(o: seq<Event>, from: nat, until: nat, p: u64)
    requires from < until <= |o|
    ensures var last := until - 1;
            if IsOther(o[last]) && !Unmentioned(o[last].players, p) then
              forall k :: MentionsLast(o, from, until, k, p) <==> k == last
            else forall k :: MentionsLast(o, from, until, k, p) <==> MentionsLast(o, from, last, k, p)
  {
    hide Unmentioned, IsOther;
  }

  lemma RosterNext(xs: seq<Event>, e: Event)
    ensures RosterOf(xs + [e]) == AddPlayers(RosterOf(xs), e.players)
    ensures xs + [] == xs
  {
    assert (xs + [e])[..|xs|] == xs;
  }

  /** Among the sorted events that round i has, the k-th of all is the last to mention p, and does so last
      with its m-th player. */
  ghost predicate LastMentions(o: seq<Event>, rounds: seq<Boundary>, i: nat, k: int, m: int, p: u64)
    requires i < |rounds|
  {
    && 0 <= k < |o| && Has(rounds, i, o[k]) && LastAt(o[k].players, m, p)
    && forall k' :: k < k' < |o| && Has(rounds, i, o[k']) ==> Unmentioned(o[k'].players, p)
  }

  /** Every player that round i's events mention is on the side that they mention last. */
  ghost predicate Mentioned(o: seq<Event>, rounds: seq<Boundary>, i: nat, all: Roster)
    requires i < |rounds|
  {
    && (forall p <- all :: exists k, m :: LastMentions(o, rounds, i, k, m, p))
    && forall k, m, p :: LastMentions(o, rounds, i, k, m, p) ==> p in all && all[p] == o[k].players[m].1
  }

  predicate FiveASide(all: Roster) {
    |set p | p in all && all[p] == T| == 5 && |set p | p in all && all[p] == CT| == 5
  }

  /** The roster is all the players mentioned, if these are five on either side, and nobody otherwise. */
  ghost predicate IsRoster(o: seq<Event>, rounds: seq<Boundary>, i: nat, roster: Roster)
    requires i < |rounds|
  {
    exists all: Roster :: Mentioned(o, rounds, i, all) && roster == if FiveASide(all) then all else map[]
  }

  lemma IntervalMentions(o: seq<Event>, rounds: seq<Boundary>, i: nat)
    requires Ordered(o) && i < |rounds|
    ensures Mentioned(o, rounds, i, RosterOf(Interval(o, rounds, i)))
  {
    hide Ordered, Skip, Next, Others, RosterOf, Unmentioned, Takes, IsOther, Has;
    var from, until := Skip(o, Cursor(o, rounds, i), rounds[i].start), Cursor(o, rounds, i + 1);
    CursorNext(o, rounds, i);
    forall k | 0 <= k < |o|
      ensures Has(rounds, i, o[k]) <==> from <= k < until && IsOther(o[k])
    {
      StretchMeans(o, rounds, i, k);
      HasMeans(rounds, i, o[k]);
    }
    var all := RosterOf(Interval(o, rounds, i));
    forall p
      ensures forall k, m :: LastMentions(o, rounds, i, k, m, p) ==> p in all && all[p] == o[k].players[m].1
      ensures p in all ==> exists k, m :: LastMentions(o, rounds, i, k, m, p)
    {
      RosterOfStretch(o, from, until, p);
      forall k, m | 0 <= k < |o|
        ensures LastMentions(o, rounds, i, k, m, p) <==> MentionsLast(o, from, until, k, p) && LastAt(o[k].players, m, p)
      {
        LastIsMention(o, k, m, p);
      }
      if k :| MentionsLast(o, from, until, k, p) {
        var m := SomeMention(o[k].players, p);
        assert LastMentions(o, rounds, i, k, m, p);
      }
    }
  }

  lemma LastIsMention(o: seq<Event>, k: int, m: int, p: u64)
    ensures 0 <= k < |o| && LastAt(o[k].players, m, p) ==> !Unmentioned(o[k].players, p)
  {
  }

  lemma SomeMention(players: seq<(u64, Side)>, p: u64) returns (m: int)
    requires !Unmentioned(players, p)
    ensures LastAt(players, m, p)
  {
    AddPlayersMeans(map[], players, p);
    m :| LastAt(players, m, p);
  }

  lemma CursorNext(o: seq<Event>, rounds: seq<Boundary>, i: nat)
    requires i < |rounds|
    ensures var from := Skip(o, Cursor(o, rounds, i), rounds[i].start);
            from <= Cursor(o, rounds, i + 1) <= |o|
            && Interval(o, rounds, i) == Others(o[from..Cursor(o, rounds, i + 1)])
  {
    hide Skip, Others;
  }

  lemma RosterIs(o: seq<Event>, rounds: seq<Boundary>, i: nat)
    requires Ordered(o) && i < |rounds|
    ensures WithRoster(rounds[i].start, Interval(o, rounds, i)).roster.Some?
    ensures IsRoster(o, rounds, i, WithRoster(rounds[i].start, Interval(o, rounds, i)).roster.value)
  {
    hide Ordered, Interval, Mentioned, RosterOf, FiveASide;
    IntervalMentions(o, rounds, i);
    FiveASideMeans(RosterOf(Interval(o, rounds, i)));
    assert Mentioned(o, rounds, i, RosterOf(Interval(o, rounds, i)));
  }

  lemma FiveASideMeans(all: Roster)
    ensures CompleteRoster(all) == if FiveASide(all) then all else map[]
  {
    TwoSides(all);
    assert OnSide(all, T) == set p | p in all && all[p] == T;
    assert OnSide(all, CT) == set p | p in all && all[p] == CT;
  }

  lemma TwoSides(all: Roster)
    ensures |all| == |OnSide(all, T)| + |OnSide(all, CT)|
  {
    assert all.Keys == OnSide(all, T) + OnSide(all, CT);
    assert OnSide(all, T) !! OnSide(all, CT);
  }

  /** A selected boundary is the end of a round as it came, or the start of a round with its roster. */
  lemma BoundariesMean(events: seq<Event>, rounds: seq<Boundary>, x: Event) returns (i: nat, roster: Roster)
    requires AreRounds(events, rounds) && x in Output(events, rounds) && !x.name.Other?
    ensures i < |rounds|
    ensures x == rounds[i].end || (x == rounds[i].start.(roster := Some(roster))
                                   && IsRoster(SortBy(events, NotAfter), rounds, i, roster))
  {
    hide AreRounds, SortBy, Laid, Interval, Ordered, IsRoster, CompleteRoster, RosterOf;
    var o := SortBy(events, NotAfter);
    SortIsOrdered(events);
    assert x in multiset(Output(events, rounds));
    assert rounds[0..] == rounds;
    LaidDelimits(o, rounds, 0, x);
    i :| 0 <= i < |rounds| && Delimits(o, rounds, i, x);
    RosterIs(o, rounds, i);
    roster := WithRoster(rounds[i].start, Interval(o, rounds, i)).roster.value;
  }

  function Places(xs: seq<Event>, n: u64, starts: bool): set<int> {
    if starts then set k | 0 <= k < |xs| && IsStart(xs, k, n) else set k | 0 <= k < |xs| && IsEnd(xs, k, n)
  }

  lemma PlacesNext(xs: seq<Event>, x: Event, n: u64, starts: bool)
    ensures Places(xs + [x], n, starts) == Places(xs, n, starts) + if Bounds(x, n, starts) then {|xs|} else {}
  {
    var all := xs + [x];
    assert all[|xs|] == x && forall k :: 0 <= k < |xs| ==> all[k] == xs[k];
  }

  lemma {:induction false} CountIsNumber(xs: seq<Event>, n: u64, starts: bool)
    ensures Count(xs, n, starts) == |Places(xs, n, starts)|
  {
    if xs != [] {
      var before, x := xs[..|xs| - 1], xs[|xs| - 1];
      assert xs == before + [x];
      CountIsNumber(before, n, starts);
      CountConcat(before, [x], n, starts);
      CountOne(x, n, starts);
      PlacesNext(before, x, n, starts);
      assert |before| !in Places(before, n, starts);
    }
  }

  /** Every paired round has one start and one end among what is selected, and no other number has any. */
  lemma OneOfEach(events: seq<Event>, rounds: seq<Boundary>, n: u64)
    requires AreRounds(events, rounds)
    ensures var out := Output(events, rounds);
            var paired := if exists b :: Paired(events, b) && b.number == n then 1 else 0;
            && |set k | 0 <= k < |out| && IsStart(out, k, n)| == paired
            && |set k | 0 <= k < |out| && IsEnd(out, k, n)| == paired
  {
    hide Output, Paired, RoundOf, Count, IsStart, IsEnd;
    var out := Output(events, rounds);
    OneBoundaryEach(events, rounds, n, true);
    OneBoundaryEach(events, rounds, n, false);
    CountIsNumber(out, n, true);
    CountIsNumber(out, n, false);
    RoundsMean(events, rounds);
    if b :| Paired(events, b) && b.number == n {
      assert b in rounds;
    }
    if RoundOf(events, n).Some? {
      assert RoundOf(events, n).value in rounds && Paired(events, RoundOf(events, n).value);
    }
  }
}

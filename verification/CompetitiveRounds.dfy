/** Which events of a demo belong to its competitive rounds. */
module CompetitiveRounds {
  import opened Bytes
  import opened Results
  import opened Sorting

  const MAXIMUM_ROUNDS := 128

  datatype Name = RoundStart | RoundEnd | Other(name: string)

  datatype Side = T | CT

  type Roster = map<u64, Side>

  /** played is the total of rounds played that the event carries, winner whether it names one,
      and players the decoded identities and sides of its roles. roster is filled in here. */
  datatype Event = Event(sequence: u64, tick: u64, name: Name, played: Option<u64>, winner: bool,
                         players: seq<(u64, Side)>, roster: Option<Roster>)

  datatype Boundary = Boundary(number: u64, start: Event, end: Event)

  datatype SelectError = NoPairedRounds | TooManyRounds

  predicate Before(a: Event, b: Event) {
    a.tick < b.tick || (a.tick == b.tick && a.sequence < b.sequence)
  }

  /** Ordered by tick, then sequence. */
  predicate NotAfter(a: Event, b: Event) {
    !Before(b, a)
  }

  // --- rounds: the first start and the first decided end of each number -----------------------

  function StartNumber(e: Event): Option<u64> {
    if e.name.RoundStart? && e.played.Some? then Some(SaturatingAdd(e.played.value, 1)) else None
  }

  function EndNumber(e: Event): Option<u64> {
    if e.name.RoundEnd? && e.played.Some? && e.played.value > 0 && e.winner then e.played else None
  }

  function FirstStart(events: seq<Event>, number: u64): (r: Option<Event>)
    ensures r.Some? ==> r.value in events && StartNumber(r.value) == Some(number)
  {
    if events == [] then None
    else
      var before := FirstStart(events[..|events| - 1], number);
      if before.Some? then before
      else if StartNumber(events[|events| - 1]) == Some(number) then Some(events[|events| - 1])
      else None
  }

  function FirstEnd(events: seq<Event>, number: u64): (r: Option<Event>)
    ensures r.Some? ==> r.value in events && EndNumber(r.value) == Some(number)
  {
    if events == [] then None
    else
      var before := FirstEnd(events[..|events| - 1], number);
      if before.Some? then before
      else if EndNumber(events[|events| - 1]) == Some(number) then Some(events[|events| - 1])
      else None
  }

  /** The round of a number, if both its boundaries are there and in order. */
  function RoundOf(events: seq<Event>, number: u64): (r: Option<Boundary>)
    ensures r.Some? ==> r.value.number == number && r.value.start.tick <= r.value.end.tick
  {
    var start, end := FirstStart(events, number), FirstEnd(events, number);
    if start.Some? && end.Some? && start.value.tick <= end.value.tick
    then Some(Boundary(number, start.value, end.value)) else None
  }

  method IndexBoundaries(events: seq<Event>) returns (starts: map<u64, Event>, ends: map<u64, Event>)
    ensures forall n :: (if n in starts then Some(starts[n]) else None) == FirstStart(events, n)
    ensures forall n :: (if n in ends then Some(ends[n]) else None) == FirstEnd(events, n)
  {
    hide StartNumber, EndNumber;
    starts, ends := map[], map[];
    for i := 0 to |events|
      invariant forall n :: (if n in starts then Some(starts[n]) else None) == FirstStart(events[..i], n)
      invariant forall n :: (if n in ends then Some(ends[n]) else None) == FirstEnd(events[..i], n)
    {
      var event := events[i];
      assert events[..i + 1][..i] == events[..i];
      var start, end := StartNumber(event), EndNumber(event);
      if start.Some? && start.value !in starts {
        starts := starts[start.value := event];
      }
      if end.Some? && end.value !in ends {
        ends := ends[end.value := event];
      }
    }
    assert events[..|events|] == events;
  }

  predicate ByNumber(a: Boundary, b: Boundary) { a.number <= b.number }

  /** Exactly the rounds of the events, in the order of their numbers. */
  ghost predicate AreRounds(events: seq<Event>, rounds: seq<Boundary>) {
    && (forall i, j :: 0 <= i < j < |rounds| ==> rounds[i].number < rounds[j].number)
    && (forall i :: 0 <= i < |rounds| ==> RoundOf(events, rounds[i].number) == Some(rounds[i]))
    && (forall n :: RoundOf(events, n).Some? ==> RoundOf(events, n).value in rounds)
  }

  method PairBoundaries(events: seq<Event>) returns (rounds: seq<Boundary>)
    ensures AreRounds(events, rounds)
  {
    hide FirstStart, FirstEnd, SortBy;
    var starts, ends := IndexBoundaries(events);
    var pairs: seq<Boundary> := [];
    var remaining := starts;
    while remaining.Keys != {}
      invariant forall n <- remaining :: n in starts && remaining[n] == starts[n]
      invariant forall b <- pairs :: b.number !in remaining && RoundOf(events, b.number) == Some(b)
      invariant forall n :: RoundOf(events, n).Some? && n !in remaining ==> RoundOf(events, n).value in pairs
      invariant forall b :: multiset(pairs)[b] <= 1
      decreases remaining.Keys
    {
      var number :| number in remaining.Keys;
      var start := remaining[number];
      remaining := remaining - {number};
      assert RoundOf(events, number).Some? <==> number in ends && start.tick <= ends[number].tick;
      if number in ends && start.tick <= ends[number].tick {
        var pair := Boundary(number, start, ends[number]);
        assert RoundOf(events, number) == Some(pair) && multiset(pairs)[pair] == 0;
        pairs := pairs + [pair];
      }
    }
    rounds := SortBy(pairs, ByNumber);
    RoundsInOrder(events, pairs);
  }

  lemma {:induction false} RoundsInOrder(events: seq<Event>, pairs: seq<Boundary>)
    requires forall b <- pairs :: RoundOf(events, b.number) == Some(b)
    requires forall n :: RoundOf(events, n).Some? ==> RoundOf(events, n).value in pairs
    requires forall b :: multiset(pairs)[b] <= 1
    ensures AreRounds(events, SortBy(pairs, ByNumber))
  {
    hide RoundOf, SortBy;
    var rounds := SortBy(pairs, ByNumber);
    SortBySorts(pairs, ByNumber);
    assert forall b :: b in multiset(pairs) <==> b in pairs;
    assert forall b :: b in multiset(rounds) <==> b in rounds;
    forall i, j | 0 <= i < j < |rounds|
      ensures rounds[i].number < rounds[j].number
    {
      assert ByNumber(rounds[i], rounds[j]);
      if rounds[i].number == rounds[j].number {
        assert rounds[i] in rounds && rounds[j] in rounds;
        Twice(rounds, i, j);
      }
    }
  }

  // --- the sweep ---------------------------------------------------------------------------------

  function RosterOf(events: seq<Event>): Roster {
    if events == [] then map[]
    else AddPlayers(RosterOf(events[..|events| - 1]), events[|events| - 1].players)
  }

  function AddPlayers(roster: Roster, players: seq<(u64, Side)>): Roster
    decreases |players|
  {
    if players == [] then roster
    else AddPlayers(roster[players[0].0 := players[0].1], players[1..])
  }

  function OnSide(roster: Roster, side: Side): set<u64> {
    set p | p in roster && roster[p] == side
  }

  /** A roster counts only if it is five against five. */
  function CompleteRoster(roster: Roster): (r: Roster)
    ensures r == map[] || (r == roster && |OnSide(r, T)| == 5 && |OnSide(r, CT)| == 5)
  {
    if |roster| == 10 && |OnSide(roster, T)| == 5 && |OnSide(roster, CT)| == 5 then roster else map[]
  }

  predicate IsOther(e: Event) {
    e.name.Other?
  }

  function Others(events: seq<Event>): (r: seq<Event>)
    ensures forall e <- r :: IsOther(e) && e in events
  {
    if events == [] then []
    else Others(events[..|events| - 1]) + if IsOther(events[|events| - 1]) then [events[|events| - 1]] else []
  }

  /** The first position from cursor on that is not before the key. */
  function Skip(o: seq<Event>, cursor: nat, key: Event): (n: nat)
    requires cursor <= |o|
    ensures cursor <= n <= |o|
    ensures forall i :: cursor <= i < n ==> Before(o[i], key)
    ensures n < |o| ==> !Before(o[n], key)
    decreases |o| - cursor
  {
    if cursor < |o| && Before(o[cursor], key) then Skip(o, cursor + 1, key) else cursor
  }

  function WithRoster(start: Event, interval: seq<Event>): Event {
    start.(roster := Some(CompleteRoster(RosterOf(interval))))
  }

  /** The selected events, round after round, before they are sorted. */
  function Laid(o: seq<Event>, rounds: seq<Boundary>, cursor: nat): seq<Event>
    requires cursor <= |o|
    decreases |rounds|
  {
    if rounds == [] then []
    else
      var from := Skip(o, cursor, rounds[0].start);
      var to := Skip(o, from, rounds[0].end);
      var interval := Others(o[from..to]);
      ([WithRoster(rounds[0].start, interval)] + interval + [rounds[0].end]) + Laid(o, rounds[1..], to)
  }

  method CollectInterval(o: seq<Event>, cursor0: nat, key: Event) returns (interval: seq<Event>, cursor: nat)
    requires cursor0 <= |o|
    ensures cursor == Skip(o, cursor0, key) && interval == Others(o[cursor0..cursor])
  {
    hide Others;
    interval, cursor := [], cursor0;
    NoOthers(o[cursor0..cursor0]);
    while cursor < |o| && Before(o[cursor], key)
      invariant cursor0 <= cursor <= |o| && Skip(o, cursor0, key) == Skip(o, cursor, key)
      invariant interval == Others(o[cursor0..cursor])
      decreases |o| - cursor
    {
      OthersNext(o[cursor0..cursor], o[cursor]);
      assert o[cursor0..cursor + 1] == o[cursor0..cursor] + [o[cursor]];
      if o[cursor].name != RoundStart && o[cursor].name != RoundEnd {
        interval := interval + [o[cursor]];
      }
      cursor := cursor + 1;
    }
  }

  lemma NoOthers(xs: seq<Event>)
    requires xs == []
    ensures Others(xs) == []
  {
  }

  lemma OthersNext(xs: seq<Event>, e: Event)
    ensures Others(xs + [e]) == Others(xs) + if IsOther(e) then [e] else []
  {
    assert (xs + [e])[..|xs|] == xs;
  }

  /** What is selected for the rounds. */
  function Output(events: seq<Event>, rounds: seq<Boundary>): seq<Event> {
    SortBy(Laid(SortBy(events, NotAfter), rounds, 0), NotAfter)
  }

  /** r is what is selected for the rounds of the events. */
  ghost predicate IsSelection(events: seq<Event>, rounds: seq<Boundary>, r: Result<seq<Event>, SelectError>) {
    && AreRounds(events, rounds)
    && r == if rounds == [] then Err(NoPairedRounds)
            else if |rounds| > MAXIMUM_ROUNDS then Err(TooManyRounds)
            else Ok(Output(events, rounds))
  }

  /** The events have one sequence of rounds, so one selection. */
  lemma RoundsAreUnique(events: seq<Event>, a: seq<Boundary>, b: seq<Boundary>)
    requires AreRounds(events, a) && AreRounds(events, b)
    ensures a == b
  {
    hide RoundOf;
    IncreasingIsUnique(a, b);
  }

  lemma {:induction false} IncreasingIsUnique(a: seq<Boundary>, b: seq<Boundary>)
    requires forall i, j :: 0 <= i < j < |a| ==> a[i].number < a[j].number
    requires forall i, j :: 0 <= i < j < |b| ==> b[i].number < b[j].number
    requires forall x :: x in a <==> x in b
    ensures a == b
  {
    if a != [] {
      assert a[0] in b;
    }
    if b != [] {
      assert b[0] in a;
      assert a[0].number == b[0].number && a[0] == b[0];
      forall x
        ensures x in a[1..] <==> x in b[1..]
      {
        TailMembers(a, x);
        TailMembers(b, x);
      }
      IncreasingIsUnique(a[1..], b[1..]);
    }
  }

  lemma TailMembers(a: seq<Boundary>, x: Boundary)
    requires a != [] && forall i, j :: 0 <= i < j < |a| ==> a[i].number < a[j].number
    ensures x in a[1..] <==> x in a && x != a[0]
  {
    if x in a && x != a[0] {
      var i :| 0 <= i < |a| && a[i] == x;
      assert a[1..][i - 1] == x;
    }
  }

  method CompetitiveEvents(events: seq<Event>) returns (r: Result<seq<Event>, SelectError>)
    ensures exists rounds :: IsSelection(events, rounds, r)
  {
    hide SortBy, AreRounds, Skip, Others, Laid, WithRoster;
    var boundaries := PairBoundaries(events);
    if |boundaries| == 0 {
      assert IsSelection(events, boundaries, Err(NoPairedRounds));
      return Err(NoPairedRounds);
    }
    if |boundaries| > MAXIMUM_ROUNDS {
      assert IsSelection(events, boundaries, Err(TooManyRounds));
      return Err(TooManyRounds);
    }
    var o := SortBy(events, NotAfter);
    var selected: seq<Event> := [];
    var cursor: nat := 0;
    for i := 0 to |boundaries|
      invariant cursor <= |o|
      invariant selected + Laid(o, boundaries[i..], cursor) == Laid(o, boundaries, 0)
    {
      var boundary := boundaries[i];
      assert boundaries[i..][0] == boundary && boundaries[i..][1..] == boundaries[i + 1..];
      LaidIsPieces(o, boundaries[i..], cursor);
      var interval, to := CollectInterval(o, Skip(o, cursor, boundary.start), boundary.end);
      var start := WithRoster(boundary.start, interval);
      assert Piece(o, boundary, cursor) == [start] + interval + [boundary.end];
      ThreeAtATime(selected, [start], interval, [boundary.end], Laid(o, boundaries[i + 1..], to));
      selected := selected + [start];
      selected := selected + interval;
      selected := selected + [boundary.end];
      cursor := to;
    }
    NothingLaid(o, boundaries[|boundaries|..], cursor);
    assert selected == Laid(o, boundaries, 0);
    r := Ok(SortBy(selected, NotAfter));
    assert IsSelection(events, boundaries, r);
  }

  lemma NothingLaid(o: seq<Event>, rounds: seq<Boundary>, cursor: nat)
    requires rounds == [] && cursor <= |o|
    ensures Laid(o, rounds, cursor) == []
  {
  }

  lemma ThreeAtATime<T>(a: seq<T>, b: seq<T>, c: seq<T>, d: seq<T>, rest: seq<T>)
    ensures a + ((b + c + d) + rest) == (a + b + c + d) + rest
  {
  }

  // --- conservation -----------------------------------------------------------------------------

  /** What one round contributes. */
  function Piece(o: seq<Event>, round: Boundary, cursor: nat): seq<Event>
    requires cursor <= |o|
  {
    var from := Skip(o, cursor, round.start);
    var interval := Others(o[from..Skip(o, from, round.end)]);
    [WithRoster(round.start, interval)] + interval + [round.end]
  }

  function Next(o: seq<Event>, round: Boundary, cursor: nat): (n: nat)
    requires cursor <= |o|
    ensures cursor <= n <= |o|
  {
    Skip(o, Skip(o, cursor, round.start), round.end)
  }

  lemma LaidIsPieces(o: seq<Event>, rounds: seq<Boundary>, cursor: nat)
    requires cursor <= |o| && rounds != []
    ensures Laid(o, rounds, cursor) == Piece(o, rounds[0], cursor) + Laid(o, rounds[1..], Next(o, rounds[0], cursor))
  {
  }

  predicate IsNumbered(round: Boundary) {
    StartNumber(round.start) == Some(round.number) && EndNumber(round.end) == Some(round.number)
  }

  /** e starts, or ends, round number n. */
  predicate Bounds(e: Event, n: u64, starts: bool) {
    if starts then StartNumber(e) == Some(n) else EndNumber(e) == Some(n)
  }

  function Count(xs: seq<Event>, n: u64, starts: bool): nat {
    if xs == [] then 0 else (if Bounds(xs[0], n, starts) then 1 else 0) + Count(xs[1..], n, starts)
  }

  lemma {:induction false} CountConcat(a: seq<Event>, b: seq<Event>, n: u64, starts: bool)
    ensures Count(a + b, n, starts) == Count(a, n, starts) + Count(b, n, starts)
  {
    if a == [] {
      assert a + b == b;
    } else {
      assert (a + b)[0] == a[0] && (a + b)[1..] == a[1..] + b;
      CountConcat(a[1..], b, n, starts);
    }
  }

  lemma CountOne(e: Event, n: u64, starts: bool)
    ensures Count([e], n, starts) == if Bounds(e, n, starts) then 1 else 0
  {
    assert [e][1..] == [];
  }

  lemma {:induction false} CountOfInsert(x: Event, xs: seq<Event>, n: u64, starts: bool)
    ensures Count(Insert(x, xs, NotAfter), n, starts) == Count([x], n, starts) + Count(xs, n, starts)
  {
    hide Bounds, Count, NotAfter;
    if xs == [] || !NotAfter(xs[0], x) {
      CountConcat([x], xs, n, starts);
    } else {
      CountOfInsert(x, xs[1..], n, starts);
      CountConcat([xs[0]], Insert(x, xs[1..], NotAfter), n, starts);
      CountConcat([xs[0]], xs[1..], n, starts);
      assert xs == [xs[0]] + xs[1..];
    }
  }

  lemma {:induction false} CountOfSort(xs: seq<Event>, n: u64, starts: bool)
    ensures Count(SortBy(xs, NotAfter), n, starts) == Count(xs, n, starts)
  {
    hide Insert, Bounds, Count;
    if xs != [] {
      var before, x := xs[..|xs| - 1], xs[|xs| - 1];
      CountOfSort(before, n, starts);
      CountOfInsert(x, SortBy(before, NotAfter), n, starts);
      CountConcat(before, [x], n, starts);
      assert xs == before + [x];
    }
  }

  lemma {:induction false} NoBoundsAmongOthers(xs: seq<Event>, n: u64, starts: bool)
    requires forall e <- xs :: IsOther(e)
    ensures Count(xs, n, starts) == 0
  {
    if xs != [] {
      assert xs[0] in xs;
      NoBoundsAmongOthers(xs[1..], n, starts);
    }
  }

  lemma PieceBounds(o: seq<Event>, round: Boundary, cursor: nat, n: u64, starts: bool)
    requires cursor <= |o| && IsNumbered(round)
    ensures Count(Piece(o, round, cursor), n, starts) == if round.number == n then 1 else 0
  {
    hide Skip, Others, CompleteRoster, RosterOf, Count;
    var from := Skip(o, cursor, round.start);
    var interval := Others(o[from..Skip(o, from, round.end)]);
    var first, last := [WithRoster(round.start, interval)], [round.end];
    CountConcat(first + interval, last, n, starts);
    CountConcat(first, interval, n, starts);
    NoBoundsAmongOthers(interval, n, starts);
    CountOne(first[0], n, starts);
    CountOne(round.end, n, starts);
  }

  lemma {:induction false} LaidBounds(o: seq<Event>, rounds: seq<Boundary>, cursor: nat, n: u64, starts: bool)
    requires cursor <= |o| && forall i :: 0 <= i < |rounds| ==> IsNumbered(rounds[i])
    requires forall i, j :: 0 <= i < j < |rounds| ==> rounds[i].number < rounds[j].number
    ensures Count(Laid(o, rounds, cursor), n, starts)
         == if exists i :: 0 <= i < |rounds| && rounds[i].number == n then 1 else 0
    decreases |rounds|
  {
    hide Piece, Next, Count, IsNumbered;
    if rounds == [] {
      assert Count([], n, starts) == 0 by { NothingCounts(n, starts); }
    } else {
      var next := Next(o, rounds[0], cursor);
      var rest := rounds[1..];
      LaidIsPieces(o, rounds, cursor);
      hide Laid;
      PieceBounds(o, rounds[0], cursor, n, starts);
      LaidBounds(o, rest, next, n, starts);
      CountConcat(Piece(o, rounds[0], cursor), Laid(o, rest, next), n, starts);
      if i :| 0 <= i < |rounds| && rounds[i].number == n && i > 0 {
        assert rest[i - 1].number == n;
      }
      if i :| 0 <= i < |rest| && rest[i].number == n {
        assert rounds[i + 1].number == n;
      }
    }
  }

  lemma NothingCounts(n: u64, starts: bool)
    ensures Count([], n, starts) == 0
  {
  }

  lemma RoundsAreNumbered(events: seq<Event>, rounds: seq<Boundary>, i: nat)
    requires AreRounds(events, rounds) && i < |rounds|
    ensures IsNumbered(rounds[i]) && rounds[i].start.tick <= rounds[i].end.tick
    ensures rounds[i].start in events && rounds[i].end in events
  {
  }

  /** Every paired round has exactly one start and one end in the output; other rounds have none. */
  lemma {:induction false} OneBoundaryEach(events: seq<Event>, rounds: seq<Boundary>, n: u64, starts: bool)
    requires AreRounds(events, rounds)
    ensures Count(Output(events, rounds), n, starts) == if RoundOf(events, n).Some? then 1 else 0
  {
    hide Count, Laid, IsNumbered, SortBy;
    forall i | 0 <= i < |rounds|
      ensures IsNumbered(rounds[i])
    {
      RoundsAreNumbered(events, rounds, i);
    }
    var o := SortBy(events, NotAfter);
    CountOfSort(Laid(o, rounds, 0), n, starts);
    LaidBounds(o, rounds, 0, n, starts);
    hide RoundOf;
    if RoundOf(events, n).Some? {
      var round := RoundOf(events, n).value;
      assert round in rounds;
    }
  }

  predicate Within(e: Event, round: Boundary) {
    !Before(e, round.start) && Before(e, round.end)
  }

  ghost predicate Ordered(xs: seq<Event>) {
    forall i, j :: 0 <= i < j < |xs| ==> NotAfter(xs[i], xs[j])
  }

  lemma SortIsOrdered(xs: seq<Event>)
    ensures Ordered(SortBy(xs, NotAfter))
  {
    SortBySorts(xs, NotAfter);
    var sorted := SortBy(xs, NotAfter);
    assert forall i, j :: 0 <= i < j < |sorted| ==> NotAfter(sorted[i], sorted[j]);
  }

  lemma {:induction false} OthersAreAmong(xs: seq<Event>, e: Event)
    ensures multiset(Others(xs))[e] == if IsOther(e) then multiset(xs)[e] else 0
  {
    if xs != [] {
      OthersAreAmong(xs[..|xs| - 1], e);
      assert xs == xs[..|xs| - 1] + [xs[|xs| - 1]];
    }
  }

  lemma SkippedTo(o: seq<Event>, cursor: nat, key: Event, i: nat)
    requires Ordered(o) && cursor <= |o| && Skip(o, cursor, key) <= i < |o|
    ensures !Before(o[i], key)
  {
    var n := Skip(o, cursor, key);
    assert n == i || NotAfter(o[n], o[i]);
  }

  /** Whether the sweep takes e in round i: e is from within it, and not before a boundary that the
      cursor has passed. */
  predicate Takes(rounds: seq<Boundary>, i: nat, e: Event)
    requires i < |rounds|
  {
    Within(e, rounds[i]) && forall j :: 0 <= j < i ==> Passed(e, rounds[j])
  }

  predicate Passed(e: Event, round: Boundary) {
    !Before(e, round.start) && !Before(e, round.end)
  }

  predicate Taken(rounds: seq<Boundary>, e: Event) {
    exists i :: 0 <= i < |rounds| && Takes(rounds, i, e)
  }

  lemma TakenFirst(rounds: seq<Boundary>, e: Event)
    requires rounds != []
    ensures Taken(rounds, e) <==> Within(e, rounds[0]) || (Passed(e, rounds[0]) && Taken(rounds[1..], e))
  {
    hide Within, Passed;
    var rest := rounds[1..];
    if Within(e, rounds[0]) {
      assert Takes(rounds, 0, e);
    }
    if Passed(e, rounds[0]) && Taken(rest, e) {
      var i :| 0 <= i < |rest| && Takes(rest, i, e);
      assert Takes(rounds, i + 1, e) by {
        assert forall j :: 0 <= j < i + 1 ==> j == 0 || rounds[j] == rest[j - 1];
      }
    }
    if Taken(rounds, e) && !Within(e, rounds[0]) {
      var i :| 0 <= i < |rounds| && Takes(rounds, i, e);
      assert Takes(rest, i - 1, e) by {
        assert forall j :: 0 <= j < i - 1 ==> rest[j] == rounds[j + 1];
      }
    }
  }

  /** Where e can be among the sorted events, seen from the stretches of one round. */
  lemma WhereItIs(o: seq<Event>, round: Boundary, cursor: nat, e: Event)
    requires Ordered(o) && cursor <= |o|
    ensures var from, to := Skip(o, cursor, round.start), Next(o, round, cursor);
            && (!Before(e, round.start) ==> multiset(o[cursor..from])[e] == 0)
            && (Before(e, round.start) ==> multiset(o[from..to])[e] == multiset(o[to..])[e] == 0)
            && (!Before(e, round.end) ==> multiset(o[from..to])[e] == 0)
            && (Before(e, round.end) ==> multiset(o[to..])[e] == 0)
  {
    hide Before, Ordered;
    var from, to := Skip(o, cursor, round.start), Next(o, round, cursor);
    forall k | from <= k < |o|
      ensures !Before(o[k], round.start)
    {
      SkippedTo(o, cursor, round.start, k);
    }
    forall k | to <= k < |o|
      ensures !Before(o[k], round.end)
    {
      SkippedTo(o, from, round.end, k);
    }
    if e in o[cursor..from] {
      var k :| cursor <= k < from && o[k] == e;
    }
    if e in o[from..to] {
      var k :| from <= k < to && o[k] == e;
    }
    if e in o[to..] {
      var k :| to <= k < |o| && o[k] == e;
    }
  }

  lemma Occurrences(a: seq<Event>, b: seq<Event>, e: Event)
    ensures multiset(a + b)[e] == multiset(a)[e] + multiset(b)[e]
  {
  }

  /** The interval of a round holds the other events of its stretch, as often as they occur there. */
  lemma PieceOthers(o: seq<Event>, round: Boundary, cursor: nat, e: Event)
    requires cursor <= |o| && IsNumbered(round) && IsOther(e)
    ensures multiset(Piece(o, round, cursor))[e] ==
            multiset(o[Skip(o, cursor, round.start)..Next(o, round, cursor)])[e]
  {
    hide Others, Skip, CompleteRoster, RosterOf, Before;
    var from := Skip(o, cursor, round.start);
    var stretch := o[from..Skip(o, from, round.end)];
    var interval := Others(stretch);
    OthersAreAmong(stretch, e);
    var first, last := [WithRoster(round.start, interval)], [round.end];
    assert !IsOther(first[0]) && !IsOther(round.end);
    Occurrences(first, interval, e);
    Occurrences(first + interval, last, e);
  }

  lemma {:induction false} LaidOthers(o: seq<Event>, rounds: seq<Boundary>, cursor: nat, e: Event)
    requires Ordered(o) && cursor <= |o| && IsOther(e)
    requires forall i :: 0 <= i < |rounds| ==> IsNumbered(rounds[i])
    ensures multiset(Laid(o, rounds, cursor))[e] == if Taken(rounds, e) then multiset(o[cursor..])[e] else 0
    decreases |rounds|
  {
    hide Piece, IsNumbered, Laid, Ordered, IsOther, Taken, Next, Skip, Before, Within, Passed;
    if rounds == [] {
      NothingLaid(o, rounds, cursor);
      NothingTaken(e);
    } else {
      var next := Next(o, rounds[0], cursor);
      InBetween(o, rounds[0], cursor);
      LaidIsPieces(o, rounds, cursor);
      LaidOthers(o, rounds[1..], next, e);
      TakenFirst(rounds, e);
      PieceTakes(o, rounds[0], cursor, e);
      Occurrences(Piece(o, rounds[0], cursor), Laid(o, rounds[1..], next), e);
    }
  }

  /** Of the events not before the cursor, those from within the round are in its piece, and those that
      have passed it are left for the next. */
  lemma PieceTakes(o: seq<Event>, round: Boundary, cursor: nat, e: Event)
    requires Ordered(o) && cursor <= |o| && IsNumbered(round) && IsOther(e)
    ensures Next(o, round, cursor) <= |o|
    ensures multiset(Piece(o, round, cursor))[e] == if Within(e, round) then multiset(o[cursor..])[e] else 0
    ensures Within(e, round) ==> multiset(o[Next(o, round, cursor)..])[e] == 0
    ensures !Within(e, round) && !Passed(e, round) ==> multiset(o[Next(o, round, cursor)..])[e] == 0
    ensures Passed(e, round) ==> multiset(o[Next(o, round, cursor)..])[e] == multiset(o[cursor..])[e]
  {
    hide Piece, IsNumbered, Ordered, IsOther, Next, Skip, Before;
    var from, next := Skip(o, cursor, round.start), Next(o, round, cursor);
    InBetween(o, round, cursor);
    PieceOthers(o, round, cursor, e);
    WhereItIs(o, round, cursor, e);
    ThreeStretches(o, cursor, from, next, e);
  }

  lemma ThreeStretches(o: seq<Event>, cursor: nat, from: nat, next: nat, e: Event)
    requires cursor <= from <= next <= |o|
    ensures multiset(o[cursor..])[e] ==
            multiset(o[cursor..from])[e] + multiset(o[from..next])[e] + multiset(o[next..])[e]
  {
    assert o[cursor..] == o[cursor..from] + o[from..] && o[from..] == o[from..next] + o[next..];
    Occurrences(o[cursor..from], o[from..], e);
    Occurrences(o[from..next], o[next..], e);
  }

  lemma NothingTaken(e: Event)
    ensures !Taken([], e)
  {
  }

  lemma InBetween(o: seq<Event>, round: Boundary, cursor: nat)
    requires cursor <= |o|
    ensures cursor <= Skip(o, cursor, round.start) <= Next(o, round, cursor) <= |o|
  {
  }

  /** Events that are no boundaries are selected as often as they occur, if a round takes them, and else
      not at all; so only from within a paired round. The output is in order. */
  lemma {:induction false} OthersAreConserved(events: seq<Event>, rounds: seq<Boundary>, e: Event)
    requires AreRounds(events, rounds) && IsOther(e)
    ensures multiset(Output(events, rounds))[e] == if Taken(rounds, e) then multiset(events)[e] else 0
    ensures e in Output(events, rounds) ==> exists i :: 0 <= i < |rounds| && Within(e, rounds[i])
    ensures Ordered(Output(events, rounds))
  {
    hide SortBy, Laid, IsNumbered, Within, Ordered, Passed;
    forall i | 0 <= i < |rounds|
      ensures IsNumbered(rounds[i])
    {
      RoundsAreNumbered(events, rounds, i);
    }
    var o := SortBy(events, NotAfter);
    SortIsOrdered(events);
    SortIsOrdered(Laid(o, rounds, 0));
    LaidOthers(o, rounds, 0, e);
    assert o[0..] == o;
    if e in Output(events, rounds) {
      assert e in multiset(Output(events, rounds));
      var i :| 0 <= i < |rounds| && Takes(rounds, i, e);
    }
  }

  function OrElse(a: Option<Event>, found: bool, e: Event): Option<Event> {
    if a.Some? then a else if found then Some(e) else None
  }

  lemma BoundariesNext(xs: seq<Event>, e: Event, n: u64)
    ensures FirstStart(xs + [e], n) == OrElse(FirstStart(xs, n), StartNumber(e) == Some(n), e)
    ensures FirstEnd(xs + [e], n) == OrElse(FirstEnd(xs, n), EndNumber(e) == Some(n), e)
  {
    assert (xs + [e])[..|xs|] == xs;
  }

  // Round 2 comes before round 1 in time, and an event lies within it.
  const START_2 := Event(0, 0, RoundStart, Some(1), false, [], None)
  const WITHIN_2 := Event(1, 1, Other("player_death"), None, false, [], None)
  const END_2 := Event(2, 2, RoundEnd, Some(2), true, [], None)
  const START_1 := Event(3, 3, RoundStart, Some(0), false, [], None)
  const END_1 := Event(4, 4, RoundEnd, Some(1), true, [], None)
  const TWO_ROUNDS: seq<Event> := [START_2] + [WITHIN_2] + [END_2] + [START_1] + [END_1]
  const ROUND_1 := Boundary(1, START_1, END_1)
  const ROUND_2 := Boundary(2, START_2, END_2)

  lemma RoundsOfTwo(n: u64)
    ensures RoundOf(TWO_ROUNDS, n) == if n == 1 then Some(ROUND_1) else if n == 2 then Some(ROUND_2) else None
  {
    hide FirstStart, FirstEnd;
    assert [] + [START_2] == [START_2];
    assert FirstStart([], n) == None && FirstEnd([], n) == None by { NoBoundariesYet(n); }
    BoundariesNext([], START_2, n);
    BoundariesNext([START_2], WITHIN_2, n);
    BoundariesNext([START_2] + [WITHIN_2], END_2, n);
    BoundariesNext([START_2] + [WITHIN_2] + [END_2], START_1, n);
    BoundariesNext([START_2] + [WITHIN_2] + [END_2] + [START_1], END_1, n);
  }

  lemma NoBoundariesYet(n: u64)
    ensures FirstStart([], n) == None && FirstEnd([], n) == None
  {
  }

  lemma AreTheTwo()
    ensures AreRounds(TWO_ROUNDS, [ROUND_1, ROUND_2])
  {
    hide RoundOf;
    forall n
      ensures RoundOf(TWO_ROUNDS, n) == if n == 1 then Some(ROUND_1) else if n == 2 then Some(ROUND_2) else None
    {
      RoundsOfTwo(n);
    }
  }

  /** The cursor has passed round 2 when it gets there, and the event from within it is lost. */
  lemma LostEvent()
    ensures AreRounds(TWO_ROUNDS, [ROUND_1, ROUND_2])
    ensures WITHIN_2 in TWO_ROUNDS && IsOther(WITHIN_2) && Within(WITHIN_2, ROUND_2)
    ensures WITHIN_2 !in Output(TWO_ROUNDS, [ROUND_1, ROUND_2])
  {
    hide AreRounds, Output;
    var rounds := [ROUND_1, ROUND_2];
    AreTheTwo();
    OthersAreConserved(TWO_ROUNDS, rounds, WITHIN_2);
    assert !Takes(rounds, 0, WITHIN_2) && !Takes(rounds, 1, WITHIN_2) by {
      assert !Passed(WITHIN_2, rounds[0]);
    }
    assert TWO_ROUNDS[1] == WITHIN_2;
    assert WITHIN_2 in Output(TWO_ROUNDS, rounds) <==> WITHIN_2 in multiset(Output(TWO_ROUNDS, rounds));
  }

  // --- rounds that follow each other ---------------------------------------------------------------

  /** Round i ends after it starts, and before the next one starts. */
  predicate Follows(rounds: seq<Boundary>, i: nat)
    requires i < |rounds|
  {
    && NotAfter(rounds[i].start, rounds[i].end)
    && (i + 1 < |rounds| ==> NotAfter(rounds[i].end, rounds[i + 1].start))
  }

  predicate InOrder(rounds: seq<Boundary>) {
    forall i :: 0 <= i < |rounds| ==> Follows(rounds, i)
  }

  lemma RestInOrder(rounds: seq<Boundary>)
    requires rounds != []
    ensures InOrder(rounds) <==> Follows(rounds, 0) && InOrder(rounds[1..])
  {
    var rest := rounds[1..];
    if InOrder(rounds) {
      forall i | 0 <= i < |rest|
        ensures Follows(rest, i)
      {
        assert Follows(rounds, i + 1);
      }
    }
    if Follows(rounds, 0) && InOrder(rest) {
      forall i | 0 <= i < |rounds|
        ensures Follows(rounds, i)
      {
        if i > 0 {
          assert Follows(rest, i - 1);
        }
      }
    }
  }

  lemma PieceIsOrdered(o: seq<Event>, round: Boundary, cursor: nat)
    requires Ordered(o) && cursor <= |o| && NotAfter(round.start, round.end)
    ensures Ordered(Piece(o, round, cursor))
    ensures forall e <- Piece(o, round, cursor) :: NotAfter(round.start, e) && NotAfter(e, round.end)
  {
    var from := Skip(o, cursor, round.start);
    var to := Skip(o, from, round.end);
    var interval := Others(o[from..to]);
    OthersStayOrdered(o[from..to]);
    forall e | e in interval
      ensures NotAfter(round.start, e) && NotAfter(e, round.end)
    {
      var i :| from <= i < to && o[i] == e;
      SkippedTo(o, cursor, round.start, i);
    }
    hide Others, Skip, CompleteRoster, RosterOf;
    OrderedConcat([WithRoster(round.start, interval)], interval, round.start);
    OrderedConcat([WithRoster(round.start, interval)] + interval, [round.end], round.end);
  }

  lemma {:induction false} OthersStayOrdered(xs: seq<Event>)
    requires Ordered(xs)
    ensures Ordered(Others(xs))
  {
    if xs != [] {
      var others, last := Others(xs[..|xs| - 1]), xs[|xs| - 1];
      OthersStayOrdered(xs[..|xs| - 1]);
      forall e | e in others
        ensures NotAfter(e, last)
      {
        var i :| 0 <= i < |xs| - 1 && xs[i] == e;
      }
    }
  }

  lemma {:induction false} LaidInOrder(o: seq<Event>, rounds: seq<Boundary>, cursor: nat)
    requires Ordered(o) && cursor <= |o| && InOrder(rounds)
    ensures Ordered(Laid(o, rounds, cursor))
    ensures forall e <- Laid(o, rounds, cursor) :: rounds != [] && NotAfter(rounds[0].start, e)
    decreases |rounds|
  {
    hide Piece, Next, Laid;
    if rounds == [] {
      NothingLaid(o, rounds, cursor);
    } else {
      var next := Next(o, rounds[0], cursor);
      var rest := rounds[1..];
      LaidIsPieces(o, rounds, cursor);
      assert Follows(rounds, 0);
      PieceIsOrdered(o, rounds[0], cursor);
      RestInOrder(rounds);
      LaidInOrder(o, rest, next);
      var piece, laid := Piece(o, rounds[0], cursor), Laid(o, rest, next);
      forall e | e in laid
        ensures NotAfter(rounds[0].end, e) && NotAfter(rounds[0].start, e)
      {
        assert rest[0] == rounds[1];
      }
      OrderedConcat(piece, laid, rounds[0].end);
    }
  }

  lemma OrderedConcat(a: seq<Event>, b: seq<Event>, middle: Event)
    requires Ordered(a) && Ordered(b)
    requires (forall e <- a :: NotAfter(e, middle)) && (forall e <- b :: NotAfter(middle, e))
    ensures Ordered(a + b)
  {
    assert forall i :: 0 <= i < |a| ==> a[i] in a;
    assert forall i :: 0 <= i < |b| ==> b[i] in b;
  }

  lemma OrderedParts(a: seq<Event>, b: seq<Event>)
    requires Ordered(a + b)
    ensures Ordered(a) && Ordered(b)
    ensures a != [] && b != [] ==> NotAfter(a[|a| - 1], b[0])
  {
    var all := a + b;
    assert forall i :: 0 <= i < |a| ==> all[i] == a[i];
    assert forall i :: 0 <= i < |b| ==> all[|a| + i] == b[i];
  }

  lemma PieceEnds(o: seq<Event>, round: Boundary, cursor: nat)
    requires cursor <= |o|
    ensures var piece := Piece(o, round, cursor);
            && |piece| >= 2 && piece[|piece| - 1] == round.end
            && piece[0].tick == round.start.tick && piece[0].sequence == round.start.sequence
    ensures Ordered(Piece(o, round, cursor)) ==> NotAfter(round.start, round.end)
  {
  }

  lemma {:induction false} OrderedMeansInOrder(o: seq<Event>, rounds: seq<Boundary>, cursor: nat)
    requires cursor <= |o| && Ordered(Laid(o, rounds, cursor))
    ensures InOrder(rounds)
    decreases |rounds|
  {
    hide Next, Laid, Piece, Ordered, InOrder;
    if rounds == [] {
      NoRoundsInOrder(rounds);
    } else {
      var next := Next(o, rounds[0], cursor);
      var rest := rounds[1..];
      LaidIsPieces(o, rounds, cursor);
      OrderedParts(Piece(o, rounds[0], cursor), Laid(o, rest, next));
      PieceEnds(o, rounds[0], cursor);
      OrderedMeansInOrder(o, rest, next);
      if rest != [] {
        LaidIsPieces(o, rest, next);
        PieceEnds(o, rest[0], next);
      }
      RestInOrder(rounds);
    }
  }

  lemma NoRoundsInOrder(rounds: seq<Boundary>)
    requires rounds == []
    ensures InOrder(rounds)
  {
  }

  /** The sort leaves what the sweep laid out as it is exactly if the rounds follow each other in
      time in the order of their numbers. */
  lemma {:induction false} LaidOutIffInOrder(events: seq<Event>, rounds: seq<Boundary>)
    requires AreRounds(events, rounds)
    ensures var laid := Laid(SortBy(events, NotAfter), rounds, 0);
            SortBy(laid, NotAfter) == laid <==> InOrder(rounds)
  {
    hide SortBy, Laid, AreRounds, Ordered;
    var o := SortBy(events, NotAfter);
    var laid := Laid(o, rounds, 0);
    SortIsOrdered(events);
    SortIsOrdered(laid);
    if InOrder(rounds) {
      LaidInOrder(o, rounds, 0);
      OrderedIsSorted(laid);
      SortByOfSorted(laid, NotAfter);
    }
    if SortBy(laid, NotAfter) == laid {
      OrderedMeansInOrder(o, rounds, 0);
    }
  }

  lemma OrderedIsSorted(xs: seq<Event>)
    requires Ordered(xs)
    ensures Sorted(xs, NotAfter)
  {
  }

  /** And then nothing is missing: every event from within a round is selected, as often as it occurs. */
  lemma InOrderIsComplete(events: seq<Event>, rounds: seq<Boundary>, i: nat, e: Event)
    requires AreRounds(events, rounds) && InOrder(rounds) && i < |rounds| && IsOther(e) && Within(e, rounds[i])
    ensures multiset(Output(events, rounds))[e] == multiset(events)[e]
  {
    hide Output, AreRounds;
    OthersAreConserved(events, rounds, e);
    forall j | 0 <= j < i
      ensures Passed(e, rounds[j])
    {
      EndsBefore(rounds, j, i);
      assert Follows(rounds, j);
    }
    assert Takes(rounds, i, e);
  }

  lemma {:induction false} EndsBefore(rounds: seq<Boundary>, j: nat, i: nat)
    requires InOrder(rounds) && j < i < |rounds|
    ensures NotAfter(rounds[j].end, rounds[i].start)
    decreases i - j
  {
    assert Follows(rounds, j);
    if j + 1 < i {
      EndsBefore(rounds, j + 1, i);
      assert Follows(rounds, j + 1);
    }
  }
}

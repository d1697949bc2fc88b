/** When the boundaries of the selected events are start and end in turn. */
module RoundAlternation {
  import opened Bytes
  import opened CompetitiveRounds
  import opened Results
  import opened Sorting

  /** A boundary in the output. */
  datatype Mark = Mark(number: Option<u64>, opens: bool, tick: u64, sequence: u64)

  function MarkOf(e: Event): Mark {
    Mark(if e.name.RoundStart? then StartNumber(e) else EndNumber(e), e.name.RoundStart?, e.tick, e.sequence)
  }

  function MarksOf(events: seq<Event>): seq<Mark> {
    if events == [] then []
    else (if IsOther(events[0]) then [] else [MarkOf(events[0])]) + MarksOf(events[1..])
  }

  /** Each start is followed by the end of the same round, before the next start. */
  ghost predicate Alternates(marks: seq<Mark>) {
    && |marks| % 2 == 0
    && forall k: nat :: 2 * k < |marks| ==> IsPair(marks, k)
  }

  predicate IsPair(marks: seq<Mark>, k: nat)
    requires |marks| % 2 == 0 && 2 * k < |marks|
  {
    marks[2 * k].opens && !marks[2 * k + 1].opens && marks[2 * k].number == marks[2 * k + 1].number
  }

  /** One of the rounds is over when the other starts; if they touch, it is the one of the lower number. */
  predicate Apart(a: Boundary, b: Boundary) {
    NotAfter(a.end, b.start) || Before(b.end, a.start)
  }

  /** No round ends before it starts, and any two are apart, in whatever order. */
  ghost predicate Disjoint(rounds: seq<Boundary>) {
    && (forall i :: 0 <= i < |rounds| ==> NotAfter(rounds[i].start, rounds[i].end))
    && (forall i, j :: 0 <= i < j < |rounds| ==> Apart(rounds[i], rounds[j]))
  }

  // --- the marks of the rounds ----------------------------------------------------------------

  function Opening(round: Boundary): Mark {
    Mark(Some(round.number), true, round.start.tick, round.start.sequence)
  }

  function Closing(round: Boundary): Mark {
    Mark(Some(round.number), false, round.end.tick, round.end.sequence)
  }

  function Marks(rounds: seq<Boundary>): (r: seq<Mark>)
    ensures |r| == 2 * |rounds|
  {
    if rounds == [] then []
    else Marks(rounds[..|rounds| - 1]) + [Opening(rounds[|rounds| - 1]), Closing(rounds[|rounds| - 1])]
  }

  lemma {:induction false} MarksFromTheFront(rounds: seq<Boundary>)
    requires rounds != []
    ensures Marks(rounds) == [Opening(rounds[0]), Closing(rounds[0])] + Marks(rounds[1..])
  {
    var before, last := rounds[..|rounds| - 1], rounds[|rounds| - 1];
    if before == [] {
      assert Marks(before) == [] && rounds[1..] == [];
    } else {
      MarksFromTheFront(before);
      assert rounds[1..][..|rounds| - 2] == before[1..];
    }
  }

  lemma {:induction false} MarksOfConcat(a: seq<Event>, b: seq<Event>)
    ensures MarksOf(a + b) == MarksOf(a) + MarksOf(b)
  {
    hide MarkOf;
    if a == [] {
      assert a + b == b;
    } else {
      assert (a + b)[0] == a[0] && (a + b)[1..] == a[1..] + b;
      MarksOfConcat(a[1..], b);
    }
  }

  lemma {:induction false} NoMarks(xs: seq<Event>)
    requires forall e <- xs :: IsOther(e)
    ensures MarksOf(xs) == []
  {
    if xs != [] {
      assert xs[0] in xs;
      NoMarks(xs[1..]);
    }
  }

  lemma MarksOfOne(e: Event)
    requires !IsOther(e)
    ensures MarksOf([e]) == [MarkOf(e)]
  {
    assert [e][1..] == [];
  }

  lemma MarksOfPiece(o: seq<Event>, round: Boundary, cursor: nat)
    requires cursor <= |o| && IsNumbered(round)
    ensures MarksOf(Piece(o, round, cursor)) == [Opening(round), Closing(round)]
  {
    hide MarksOf, Skip, Others, RosterOf, CompleteRoster;
    var from := Skip(o, cursor, round.start);
    var interval := Others(o[from..Skip(o, from, round.end)]);
    var first := WithRoster(round.start, interval);
    MarksOfConcat([first] + interval, [round.end]);
    MarksOfConcat([first], interval);
    MarksOfOne(first);
    MarksOfOne(round.end);
    NoMarks(interval);
  }

  lemma NoMarksYet(rounds: seq<Boundary>)
    requires rounds == []
    ensures MarksOf([]) == Marks(rounds) == SortedMarks(rounds) == [] && InTurn(SortedMarks(rounds))
  {
  }

  lemma {:induction false} MarksOfLaid(o: seq<Event>, rounds: seq<Boundary>, cursor: nat)
    requires cursor <= |o| && forall i :: 0 <= i < |rounds| ==> IsNumbered(rounds[i])
    ensures MarksOf(Laid(o, rounds, cursor)) == Marks(rounds)
    decreases |rounds|
  {
    hide MarksOf, Marks, Laid, Piece, Next, IsNumbered;
    if rounds == [] {
      NothingLaid(o, rounds, cursor);
      NoMarksYet(rounds);
    } else {
      var next := Next(o, rounds[0], cursor);
      LaidIsPieces(o, rounds, cursor);
      MarksOfPiece(o, rounds[0], cursor);
      MarksOfLaid(o, rounds[1..], next);
      MarksOfConcat(Piece(o, rounds[0], cursor), Laid(o, rounds[1..], next));
      MarksFromTheFront(rounds);
    }
  }

  // --- sorting ---------------------------------------------------------------------------------

  predicate NoLater(a: Mark, b: Mark) {
    a.tick < b.tick || (a.tick == b.tick && a.sequence <= b.sequence)
  }

  lemma FirstMark(xs: seq<Event>, x: Event)
    requires Ordered(xs) && xs != [] && !NotAfter(xs[0], x) && MarksOf(xs) != []
    ensures !NoLater(MarksOf(xs)[0], MarkOf(x))
    decreases |xs|
  {
    if IsOther(xs[0]) {
      assert NotAfter(xs[0], xs[1]);
      assert Ordered(xs[1..]);
      FirstMark(xs[1..], x);
    }
  }

  lemma MarksOfCons(e: Event, xs: seq<Event>)
    ensures MarksOf([e] + xs) == if IsOther(e) then MarksOf(xs) else [MarkOf(e)] + MarksOf(xs)
  {
    assert ([e] + xs)[1..] == xs;
  }

  lemma SameOrder(a: Event, b: Event)
    ensures NotAfter(a, b) <==> NoLater(MarkOf(a), MarkOf(b))
  {
  }

  lemma InsertHere<T>(x: T, xs: seq<T>, leq: (T, T) -> bool)
    requires xs == [] || !leq(xs[0], x)
    ensures Insert(x, xs, leq) == [x] + xs
  {
  }

  lemma InsertPast<T>(x: T, a: T, rest: seq<T>, leq: (T, T) -> bool)
    requires leq(a, x)
    ensures Insert(x, [a] + rest, leq) == [a] + Insert(x, rest, leq)
  {
    assert ([a] + rest)[1..] == rest;
  }

  lemma {:induction false} MarksOfInsert(x: Event, xs: seq<Event>)
    requires Ordered(xs)
    ensures MarksOf(Insert(x, xs, NotAfter)) ==
      if IsOther(x) then MarksOf(xs) else Insert(MarkOf(x), MarksOf(xs), NoLater)
  {
    hide MarksOf, MarkOf, NotAfter, NoLater, Insert, IsOther;
    if xs == [] || !NotAfter(xs[0], x) {
      InsertHere(x, xs, NotAfter);
      MarksOfCons(x, xs);
      NoFirstMark(xs, x);
      InsertHere(MarkOf(x), MarksOf(xs), NoLater);
    } else {
      var first, rest := xs[0], xs[1..];
      assert Ordered(rest);
      MarksOfInsert(x, rest);
      assert xs == [first] + rest;
      InsertPast(x, first, rest, NotAfter);
      MarksOfCons(first, Insert(x, rest, NotAfter));
      MarksOfCons(first, rest);
      SameOrder(first, x);
      if !IsOther(x) && !IsOther(first) {
        InsertPast(MarkOf(x), MarkOf(first), MarksOf(rest), NoLater);
      }
    }
  }

  lemma NoFirstMark(xs: seq<Event>, x: Event)
    requires Ordered(xs) && (xs == [] || !NotAfter(xs[0], x))
    ensures MarksOf(xs) == [] || !NoLater(MarksOf(xs)[0], MarkOf(x))
  {
    if MarksOf(xs) != [] {
      FirstMark(xs, x);
    }
  }

  lemma SortOfOneMore<T>(xs: seq<T>, x: T, leq: (T, T) -> bool)
    ensures SortBy(xs + [x], leq) == Insert(x, SortBy(xs, leq), leq)
  {
    hide Insert;
    assert (xs + [x])[..|xs|] == xs;
  }

  lemma NothingToSort()
    ensures MarksOf([]) == [] && SortBy<Event>([], NotAfter) == [] && SortBy<Mark>([], NoLater) == []
  {
  }

  lemma {:induction false} MarksOfSort(xs: seq<Event>)
    ensures MarksOf(SortBy(xs, NotAfter)) == SortBy(MarksOf(xs), NoLater)
  {
    hide MarksOf, MarkOf, Insert, Ordered, NotAfter, NoLater, SortBy;
    if xs == [] {
      NothingToSort();
    } else {
      var before, last := xs[..|xs| - 1], xs[|xs| - 1];
      assert xs == before + [last];
      MarksOfSort(before);
      SortIsOrdered(before);
      SortOfOneMore(before, last, NotAfter);
      MarksOfInsert(last, SortBy(before, NotAfter));
      MarksOfConcat(before, [last]);
      MarksOfCons(last, []);
      NothingToSort();
      assert [last] + [] == [last];
      if IsOther(last) {
        assert MarksOf(xs) == MarksOf(before);
      } else {
        assert MarksOf(xs) == MarksOf(before) + [MarkOf(last)];
        SortOfOneMore(MarksOf(before), MarkOf(last), NoLater);
      }
    }
  }

  function Rank(m: Mark): nat {
    if m.number.Some? then m.number.value else 0
  }

  /** The order in which the sort leaves the marks. */
  predicate Comes(a: Mark, b: Mark) {
    NoLater(a, b) && (NoLater(b, a) ==> Rank(a) < Rank(b) || (Rank(a) == Rank(b) && a.opens && !b.opens))
  }

  ghost predicate InTurn(marks: seq<Mark>) {
    forall i, j :: 0 <= i < j < |marks| ==> Comes(marks[i], marks[j])
  }

  predicate Below(a: Mark, b: Mark) {
    Rank(a) < Rank(b) || (Rank(a) == Rank(b) && a.opens && !b.opens)
  }

  lemma {:induction false} InsertInTurn(x: Mark, marks: seq<Mark>)
    requires InTurn(marks) && forall m <- marks :: Below(m, x)
    ensures InTurn(Insert(x, marks, NoLater))
  {
    if marks == [] || !NoLater(marks[0], x) {
      assert forall i :: 0 < i < |marks| ==> Comes(marks[0], marks[i]);
    } else {
      InsertInTurn(x, marks[1..]);
      var r := Insert(x, marks[1..], NoLater);
      forall j | 0 <= j < |r|
        ensures Comes(marks[0], r[j])
      {
        assert r[j] in multiset(r);
        assert marks[0] in marks;
        assert r[j] == x || r[j] in marks[1..];
      }
    }
  }

  ghost predicate Numbered(rounds: seq<Boundary>) {
    forall i, j :: 0 <= i < j < |rounds| ==> rounds[i].number < rounds[j].number
  }

  lemma {:induction false} MarkIsOfARound(rounds: seq<Boundary>, m: Mark)
    ensures m in Marks(rounds) <==> exists i :: 0 <= i < |rounds| && (m == Opening(rounds[i]) || m == Closing(rounds[i]))
  {
    hide Opening, Closing;
    if rounds != [] {
      var before, n := rounds[..|rounds| - 1], |rounds| - 1;
      MarkIsOfARound(before, m);
      assert forall i :: 0 <= i < n ==> before[i] == rounds[i];
      if i :| 0 <= i < n && (m == Opening(before[i]) || m == Closing(before[i])) {
        assert rounds[i] == before[i];
      }
    }
  }

  function SortedMarks(rounds: seq<Boundary>): seq<Mark> {
    SortBy(Marks(rounds), NoLater)
  }

  lemma SortedMarksNext(rounds: seq<Boundary>)
    requires rounds != []
    ensures var before, last := rounds[..|rounds| - 1], rounds[|rounds| - 1];
            SortedMarks(rounds) == Insert(Closing(last), Insert(Opening(last), SortedMarks(before), NoLater), NoLater)
  {
    hide Insert, Opening, Closing, SortBy, NoLater;
    var before, last := Marks(rounds[..|rounds| - 1]), rounds[|rounds| - 1];
    SortOfOneMore(before, Opening(last), NoLater);
    SortOfOneMore(before + [Opening(last)], Closing(last), NoLater);
    assert Marks(rounds) == (before + [Opening(last)]) + [Closing(last)];
  }

  lemma SortedMarksAre(rounds: seq<Boundary>, m: Mark)
    ensures m in SortedMarks(rounds) <==> m in Marks(rounds)
  {
    hide Marks, SortBy;
    assert m in SortedMarks(rounds) <==> m in multiset(SortedMarks(rounds));
    assert m in Marks(rounds) <==> m in multiset(Marks(rounds));
  }

  lemma {:induction false} SortedMarksAreInTurn(rounds: seq<Boundary>)
    requires Numbered(rounds)
    ensures InTurn(SortedMarks(rounds))
  {
    hide SortBy, Insert, Marks, InTurn, SortedMarks;
    if rounds == [] {
      NoMarksYet(rounds);
    } else {
      var before, last := rounds[..|rounds| - 1], rounds[|rounds| - 1];
      SortedMarksAreInTurn(before);
      SortedMarksNext(rounds);
      var marks := SortedMarks(before);
      forall m | m in marks
        ensures Below(m, Opening(last))
      {
        SortedMarksAre(before, m);
        MarkIsOfARound(before, m);
      }
      InsertInTurn(Opening(last), marks);
      var grown := Insert(Opening(last), marks, NoLater);
      forall m | m in grown
        ensures Below(m, Closing(last))
      {
        assert m in multiset(grown);
        assert m in marks || m == Opening(last);
      }
      InsertInTurn(Closing(last), grown);
    }
  }

  // --- the boundaries alternate exactly if the rounds are disjoint --------------------------------

  /** A round goes in front of the first pair that comes after it. */
  lemma {:induction false} InsertPair(marks: seq<Mark>, open: Mark, close: Mark)
    requires Alternates(marks) && open.opens && !close.opens && open.number == close.number && NoLater(open, close)
    requires forall i, j :: 0 <= i < j < |marks| ==> NoLater(marks[i], marks[j])
    requires forall k: nat :: 2 * k < |marks| ==> PairApart(marks, k, open, close)
    ensures Alternates(Insert(close, Insert(open, marks, NoLater), NoLater))
  {
    if marks == [] {
      assert Insert(open, marks, NoLater) == [open] && [open][1..] == [];
      assert Insert(close, [open], NoLater) == [open, close];
    } else {
      assert IsPair(marks, 0) && PairApart(marks, 0, open, close);
      var a, b, rest := marks[0], marks[1], marks[2..];
      TwoFirst(marks);
      if NoLater(b, open) {
        PairsOfRest(marks, open, close);
        InsertPair(rest, open, close);
        var inserted := Insert(open, rest, NoLater);
        InsertPastTwo(open, a, b, rest);
        InsertPastTwo(close, a, b, inserted);
        PairInFront(a, b, Insert(close, inserted, NoLater));
      } else {
        assert Insert(open, marks, NoLater) == [open] + marks;
        assert ([open] + marks)[1..] == marks;
        assert Insert(close, [open] + marks, NoLater) == [open, close] + marks;
        PairInFront(open, close, marks);
      }
    }
  }

  predicate PairApart(marks: seq<Mark>, k: nat, open: Mark, close: Mark)
    requires |marks| % 2 == 0 && 2 * k < |marks|
  {
    NoLater(marks[2 * k + 1], open) || !NoLater(marks[2 * k], close)
  }

  lemma TwoFirst(marks: seq<Mark>)
    requires |marks| >= 2
    ensures marks == [marks[0], marks[1]] + marks[2..]
  {
  }

  lemma PairsOfRest(marks: seq<Mark>, open: Mark, close: Mark)
    requires Alternates(marks) && marks != []
    requires forall k: nat :: 2 * k < |marks| ==> PairApart(marks, k, open, close)
    ensures Alternates(marks[2..])
    ensures forall k: nat :: 2 * k < |marks[2..]| ==> PairApart(marks[2..], k, open, close)
  {
    forall k: nat | 2 * k < |marks| - 2
      ensures IsPair(marks[2..], k) && PairApart(marks[2..], k, open, close)
    {
      assert IsPair(marks, k + 1) && PairApart(marks, k + 1, open, close);
    }
  }

  lemma InsertPastTwo(x: Mark, a: Mark, b: Mark, rest: seq<Mark>)
    requires NoLater(a, x) && NoLater(b, x)
    ensures Insert(x, [a, b] + rest, NoLater) == [a, b] + Insert(x, rest, NoLater)
  {
    hide NoLater, Insert;
    assert [a, b] + rest == [a] + ([b] + rest);
    InsertPast(x, a, [b] + rest, NoLater);
    InsertPast(x, b, rest, NoLater);
    assert [a] + ([b] + Insert(x, rest, NoLater)) == [a, b] + Insert(x, rest, NoLater);
  }

  lemma PairInFront(open: Mark, close: Mark, marks: seq<Mark>)
    requires Alternates(marks) && open.opens && !close.opens && open.number == close.number
    ensures Alternates([open, close] + marks)
  {
    var all := [open, close] + marks;
    forall k: nat | 2 * k < |all|
      ensures IsPair(all, k)
    {
      if k > 0 {
        assert IsPair(marks, k - 1);
      }
    }
  }

  lemma {:induction false} DisjointAlternates(rounds: seq<Boundary>)
    requires Numbered(rounds) && Disjoint(rounds)
    ensures Alternates(SortedMarks(rounds))
  {
    hide SortedMarks, Insert, Alternates, InTurn;
    if rounds == [] {
      NoMarksYet(rounds);
      NothingAlternates();
    } else {
      var before, last := rounds[..|rounds| - 1], rounds[|rounds| - 1];
      DisjointAlternates(before);
      var marks := SortedMarks(before);
      SortedMarksNext(rounds);
      MarksAreOrdered(before);
      PairsAreApart(rounds);
      InsertPair(marks, Opening(last), Closing(last));
    }
  }

  lemma NothingAlternates()
    ensures Alternates([])
  {
  }

  lemma MarksAreOrdered(rounds: seq<Boundary>)
    requires Numbered(rounds)
    ensures forall i, j :: 0 <= i < j < |SortedMarks(rounds)| ==> NoLater(SortedMarks(rounds)[i], SortedMarks(rounds)[j])
  {
    hide SortedMarks;
    SortedMarksAreInTurn(rounds);
  }

  lemma PairIsARound(rounds: seq<Boundary>, k: nat) returns (i: nat)
    requires Numbered(rounds) && Alternates(SortedMarks(rounds)) && 2 * k < |SortedMarks(rounds)|
    ensures i < |rounds| && 2 * k + 1 < |SortedMarks(rounds)|
    ensures SortedMarks(rounds)[2 * k] == Opening(rounds[i]) && SortedMarks(rounds)[2 * k + 1] == Closing(rounds[i])
  {
    hide SortedMarks, Marks;
    var marks := SortedMarks(rounds);
    assert IsPair(marks, k);
    SortedMarksAre(rounds, marks[2 * k]);
    SortedMarksAre(rounds, marks[2 * k + 1]);
    MarkIsOfARound(rounds, marks[2 * k]);
    MarkIsOfARound(rounds, marks[2 * k + 1]);
    i :| 0 <= i < |rounds| && marks[2 * k] == Opening(rounds[i]);
    var j :| 0 <= j < |rounds| && marks[2 * k + 1] == Closing(rounds[j]);
    SameNumber(rounds, i, j);
  }

  lemma PairsAreApart(rounds: seq<Boundary>)
    requires rounds != [] && Numbered(rounds) && Disjoint(rounds) && Alternates(SortedMarks(rounds[..|rounds| - 1]))
    ensures |SortedMarks(rounds[..|rounds| - 1])| % 2 == 0
    ensures forall k: nat :: 2 * k < |SortedMarks(rounds[..|rounds| - 1])| ==>
      PairApart(SortedMarks(rounds[..|rounds| - 1]), k, Opening(rounds[|rounds| - 1]), Closing(rounds[|rounds| - 1]))
  {
    hide SortedMarks, Marks, IsPair;
    var before, last := rounds[..|rounds| - 1], rounds[|rounds| - 1];
    forall k: nat | 2 * k < |SortedMarks(before)|
      ensures PairApart(SortedMarks(before), k, Opening(last), Closing(last))
    {
      var i := PairIsARound(before, k);
      assert before[i] == rounds[i] && Apart(rounds[i], last);
    }
  }

  lemma SameNumber(rounds: seq<Boundary>, i: nat, j: nat)
    requires Numbered(rounds) && i < |rounds| && j < |rounds| && rounds[i].number == rounds[j].number
    ensures i == j
  {
  }

  /** Where a round is among alternating marks. */
  lemma PlaceOf(rounds: seq<Boundary>, i: nat) returns (k: nat)
    requires Numbered(rounds) && i < |rounds| && Alternates(SortedMarks(rounds))
    ensures |SortedMarks(rounds)| % 2 == 0 && 2 * k < |SortedMarks(rounds)|
    ensures SortedMarks(rounds)[2 * k] == Opening(rounds[i]) && SortedMarks(rounds)[2 * k + 1] == Closing(rounds[i])
  {
    hide SortedMarks, Marks;
    var marks := SortedMarks(rounds);
    MarkIsOfARound(rounds, Opening(rounds[i]));
    SortedMarksAre(rounds, Opening(rounds[i]));
    var p :| 0 <= p < |marks| && marks[p] == Opening(rounds[i]);
    k := p / 2;
    assert IsPair(marks, k);
    var j := PairIsARound(rounds, k);
    SameNumber(rounds, i, j);
  }

  lemma AlternatingAreDisjoint(rounds: seq<Boundary>)
    requires Numbered(rounds) && Alternates(SortedMarks(rounds))
    ensures Disjoint(rounds)
  {
    hide SortedMarks, Alternates;
    var marks := SortedMarks(rounds);
    SortedMarksAreInTurn(rounds);
    forall i | 0 <= i < |rounds|
      ensures NotAfter(rounds[i].start, rounds[i].end)
    {
      var k := PlaceOf(rounds, i);
      assert Comes(marks[2 * k], marks[2 * k + 1]);
    }
    forall i, j | 0 <= i < j < |rounds|
      ensures Apart(rounds[i], rounds[j])
    {
      var k := PlaceOf(rounds, i);
      var l := PlaceOf(rounds, j);
      assert k != l;
      if k < l {
        assert Comes(marks[2 * k + 1], marks[2 * l]);
      } else {
        assert Comes(marks[2 * l + 1], marks[2 * k]);
      }
    }
  }

  /** The boundaries of the output are those of the paired rounds. */
  lemma OutputMarks(events: seq<Event>, rounds: seq<Boundary>)
    requires AreRounds(events, rounds)
    ensures Numbered(rounds) && MarksOf(Output(events, rounds)) == SortedMarks(rounds)
  {
    hide SortBy, MarksOf, Laid, Marks, IsNumbered;
    var o := SortBy(events, NotAfter);
    forall i | 0 <= i < |rounds|
      ensures IsNumbered(rounds[i])
    {
      RoundsAreNumbered(events, rounds, i);
    }
    MarksOfSort(Laid(o, rounds, 0));
    MarksOfLaid(o, rounds, 0);
  }

  /** In the output every start is followed by the end of its round, and only then by the next start,
      exactly if the paired rounds are disjoint in time, whatever the order of their numbers. */
  lemma AlternatesIffDisjoint(events: seq<Event>, rounds: seq<Boundary>)
    requires AreRounds(events, rounds)
    ensures Alternates(MarksOf(Output(events, rounds))) <==> Disjoint(rounds)
  {
    hide AreRounds, Output, MarksOf, SortedMarks, Alternates, Disjoint;
    OutputMarks(events, rounds);
    if Disjoint(rounds) {
      DisjointAlternates(rounds);
    }
    if Alternates(SortedMarks(rounds)) {
      AlternatingAreDisjoint(rounds);
    }
  }

  // --- starts and ends without their numbers ----------------------------------------------------

  /** A start and an end in turn, of whatever rounds. */
  ghost predicate KindsAlternate(marks: seq<Mark>) {
    |marks| % 2 == 0 && forall p :: 0 <= p < |marks| ==> (marks[p].opens <==> p % 2 == 0)
  }

  ghost predicate Forward(rounds: seq<Boundary>) {
    forall i :: 0 <= i < |rounds| ==> NotAfter(rounds[i].start, rounds[i].end)
  }

  lemma ClosedRound(rounds: seq<Boundary>, p: nat) returns (j: nat)
    requires p < |SortedMarks(rounds)| && !SortedMarks(rounds)[p].opens
    ensures j < |rounds| && SortedMarks(rounds)[p] == Closing(rounds[j])
  {
    hide SortedMarks, Marks;
    var close := SortedMarks(rounds)[p];
    SortedMarksAre(rounds, close);
    MarkIsOfARound(rounds, close);
    j :| 0 <= j < |rounds| && close == Closing(rounds[j]);
  }

  /** If no round ends before it starts, starts and ends in turn are those of the same rounds. */
  lemma {:induction false} KindsSuffice(rounds: seq<Boundary>, n: nat)
    requires Numbered(rounds) && Forward(rounds) && KindsAlternate(SortedMarks(rounds)) && 2 * n <= |SortedMarks(rounds)|
    ensures forall k: nat :: k < n ==> IsPair(SortedMarks(rounds), k)
  {
    hide SortedMarks, Marks, InTurn;
    if n > 0 {
      var k, marks := n - 1, SortedMarks(rounds);
      KindsSuffice(rounds, k);
      var close := 2 * k + 1;
      var j := ClosedRound(rounds, close);
      MarkIsOfARound(rounds, Opening(rounds[j]));
      SortedMarksAre(rounds, Opening(rounds[j]));
      var p :| 0 <= p < |marks| && marks[p] == Opening(rounds[j]);
      SortedMarksAreInTurn(rounds);
      ComesBefore(marks, p, close);
      if p / 2 < k {
        assert IsPair(marks, p / 2);
        var i := ClosedRound(rounds, 2 * (p / 2) + 1);
        SameNumber(rounds, i, j);
        ComesBefore(marks, 2 * (p / 2) + 1, close);
      }
    }
  }

  lemma ComesBefore(marks: seq<Mark>, p: nat, q: nat)
    requires InTurn(marks) && p < |marks| && q < |marks| && p != q
    ensures p < q <==> Comes(marks[p], marks[q])
  {
    if q < p {
      assert Comes(marks[q], marks[p]);
    } else {
      assert Comes(marks[p], marks[q]);
    }
  }

  /** For rounds that do not end before they start, the kinds alone alternate exactly if the rounds
      are disjoint. */
  lemma KindsAlternateIffDisjoint(events: seq<Event>, rounds: seq<Boundary>)
    requires AreRounds(events, rounds) && Forward(rounds)
    ensures KindsAlternate(MarksOf(Output(events, rounds))) <==> Disjoint(rounds)
  {
    hide AreRounds, Output, MarksOf, SortedMarks, Disjoint;
    OutputMarks(events, rounds);
    var marks := SortedMarks(rounds);
    if KindsAlternate(marks) {
      KindsSuffice(rounds, |marks| / 2);
      AlternatingAreDisjoint(rounds);
    }
    if Disjoint(rounds) {
      DisjointAlternates(rounds);
      forall p | 0 <= p < |marks|
        ensures marks[p].opens <==> p % 2 == 0
      {
        assert IsPair(marks, p / 2);
      }
    }
  }
}

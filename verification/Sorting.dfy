/** The library's stable sort, as a function of the sequence and the order. */
module Sorting {
  ghost predicate TotalOrder<T(!new)>(leq: (T, T) -> bool) {
    && (forall x, y :: leq(x, y) || leq(y, x))
    && (forall x, y, z :: leq(x, y) && leq(y, z) ==> leq(x, z))
  }

  predicate Sorted<T>(xs: seq<T>, leq: (T, T) -> bool) {
    forall i, j :: 0 <= i < j < |xs| ==> leq(xs[i], xs[j])
  }

  /** x comes to stand after everything that is not greater. */
  function Insert<T>(x: T, xs: seq<T>, leq: (T, T) -> bool): (r: seq<T>)
    ensures |r| == |xs| + 1
    ensures multiset(r) == multiset(xs) + multiset{x}
  {
    if xs == [] || !leq(xs[0], x) then
      [x] + xs
    else
      assert xs == [xs[0]] + xs[1..];
      [xs[0]] + Insert(x, xs[1..], leq)
  }

  function SortBy<T>(xs: seq<T>, leq: (T, T) -> bool): (r: seq<T>)
    ensures |r| == |xs|
    ensures multiset(r) == multiset(xs)
  {
    if xs == [] then []
    else
      assert xs == xs[..|xs| - 1] + [xs[|xs| - 1]];
      Insert(xs[|xs| - 1], SortBy(xs[..|xs| - 1], leq), leq)
  }

  lemma {:induction false} InsertKeepsSorted<T(!new)>(x: T, xs: seq<T>, leq: (T, T) -> bool)
    requires TotalOrder(leq) && Sorted(xs, leq)
    ensures Sorted(Insert(x, xs, leq), leq)
  {
    if xs != [] && leq(xs[0], x) {
      InsertKeepsSorted(x, xs[1..], leq);
      var r := Insert(x, xs[1..], leq);
      forall j | 0 <= j < |r|
        ensures leq(xs[0], r[j])
      {
        assert r[j] in multiset(r);
        assert r[j] == x || r[j] in xs[1..];
      }
    }
  }

  lemma {:induction false} SortBySorts<T(!new)>(xs: seq<T>, leq: (T, T) -> bool)
    requires TotalOrder(leq)
    ensures Sorted(SortBy(xs, leq), leq)
  {
    if xs != [] {
      SortBySorts(xs[..|xs| - 1], leq);
      InsertKeepsSorted(xs[|xs| - 1], SortBy(xs[..|xs| - 1], leq), leq);
    }
  }

  /** ys is xs in the order of leq, and at says where in xs its elements were: what compares equal stays in
      the order it had. */
  ghost predicate IsStableOrder<T(!new)>(xs: seq<T>, ys: seq<T>, at: seq<nat>, leq: (T, T) -> bool) {
    && |xs| == |ys| == |at|
    && (forall j :: 0 <= j < |at| ==> at[j] < |xs| && ys[j] == xs[at[j]])
    && (forall i :: 0 <= i < |xs| ==> i in at)
    && forall j, k :: 0 <= j < k < |at| ==> at[j] != at[k] && leq(ys[j], ys[k]) && (leq(ys[k], ys[j]) ==> at[j] < at[k])
  }

  /** The sort yields that order. */
  lemma {:induction false} SortPlaces<T(!new)>(xs: seq<T>, leq: (T, T) -> bool) returns (at: seq<nat>)
    requires TotalOrder(leq)
    ensures IsStableOrder(xs, SortBy(xs, leq), at, leq)
  {
    hide TotalOrder, Insert, IsStableOrder, Sorted;
    if xs == [] {
      at := [];
      NothingIsStable(leq);
    } else {
      var n := |xs| - 1;
      var before := SortBy(xs[..n], leq);
      var places := SortPlaces(xs[..n], leq);
      SortBySorts(xs[..n], leq);
      var p := InsertPlace(xs[n], before, leq);
      BehindPlace(xs[n], before, p, leq);
      PlacesFit(xs[..n], before, places, leq);
      at := places[..p] + [n] + places[p..];
      InsertedIsStable(xs, before, places, p, leq);
    }
  }

  lemma NothingIsStable<T(!new)>(leq: (T, T) -> bool)
    ensures IsStableOrder([], [], [], leq)
  {
  }

  lemma PlacesFit<T(!new)>(xs: seq<T>, ys: seq<T>, at: seq<nat>, leq: (T, T) -> bool)
    requires IsStableOrder(xs, ys, at, leq)
    ensures |at| == |ys|
  {
  }

  lemma {:induction false} InsertPlace<T(!new)>(x: T, ys: seq<T>, leq: (T, T) -> bool) returns (p: nat)
    ensures p <= |ys| && Insert(x, ys, leq) == ys[..p] + [x] + ys[p..]
    ensures (forall k :: 0 <= k < p ==> leq(ys[k], x)) && (p < |ys| ==> !leq(ys[p], x))
  {
    if ys == [] || !leq(ys[0], x) {
      p := 0;
    } else {
      var y, rest := ys[0], ys[1..];
      var q := InsertPlace(x, rest, leq);
      var inserted := Insert(x, ys, leq);
      assert inserted == [y] + Insert(x, rest, leq);
      hide Insert;
      p := q + 1;
      InsertBehind(y, rest, q, x);
      assert ys == [y] + rest;
      forall k | 0 <= k < p
        ensures leq(ys[k], x)
      {
        if k > 0 {
          assert ys[k] == rest[k - 1];
        }
      }
    }
  }

  lemma InsertBehind<T>(y: T, rest: seq<T>, q: nat, x: T)
    requires q <= |rest|
    ensures [y] + (rest[..q] + [x] + rest[q..]) == ([y] + rest)[..q + 1] + [x] + ([y] + rest)[q + 1..]
  {
    var ys := [y] + rest;
    assert ys[..q + 1] == [y] + rest[..q] && ys[q + 1..] == rest[q..];
  }

  lemma BehindPlace<T(!new)>(x: T, ys: seq<T>, p: nat, leq: (T, T) -> bool)
    requires TotalOrder(leq) && Sorted(ys, leq) && p <= |ys| && (p < |ys| ==> !leq(ys[p], x))
    ensures forall k :: p <= k < |ys| ==> !leq(ys[k], x) && leq(x, ys[k])
  {
    forall k | p <= k < |ys|
      ensures !leq(ys[k], x) && leq(x, ys[k])
    {
      assert k == p || leq(ys[p], ys[k]);
    }
  }

  lemma InsertedIsStable<T(!new)>(xs: seq<T>, before: seq<T>, at: seq<nat>, p: nat, leq: (T, T) -> bool)
    requires xs != [] && IsStableOrder(xs[..|xs| - 1], before, at, leq) && p <= |before|
    requires forall k :: 0 <= k < p ==> leq(before[k], xs[|xs| - 1])
    requires forall k :: p <= k < |before| ==> !leq(before[k], xs[|xs| - 1]) && leq(xs[|xs| - 1], before[k])
    ensures IsStableOrder(xs, before[..p] + [xs[|xs| - 1]] + before[p..], at[..p] + [|xs| - 1] + at[p..], leq)
  {
    var n := |xs| - 1;
    var ys, places := before[..p] + [xs[n]] + before[p..], at[..p] + [n] + at[p..];
    Spliced(before, p, xs[n]);
    Spliced(at, p, n);
    Stable(xs, before, at, ys, places, p, leq);
  }

  lemma Spliced<T>(a: seq<T>, p: nat, x: T)
    requires p <= |a|
    ensures var b := a[..p] + [x] + a[p..];
            && |b| == |a| + 1 && b[p] == x
            && (forall j :: 0 <= j < p ==> b[j] == a[j]) && (forall j :: p < j < |b| ==> b[j] == a[j - 1])
            && (forall y :: y in b <==> y == x || y in a)
  {
    assert a == a[..p] + a[p..];
  }

  lemma Stable<T(!new)>(xs: seq<T>, before: seq<T>, at: seq<nat>, ys: seq<T>, places: seq<nat>, p: nat, leq: (T, T) -> bool)
    requires xs != [] && IsStableOrder(xs[..|xs| - 1], before, at, leq) && p <= |before|
    requires forall k :: 0 <= k < p ==> leq(before[k], xs[|xs| - 1])
    requires forall k :: p <= k < |before| ==> !leq(before[k], xs[|xs| - 1]) && leq(xs[|xs| - 1], before[k])
    requires |ys| == |places| == |before| + 1 && ys[p] == xs[|xs| - 1] && places[p] == |xs| - 1
    requires forall i :: i in places <==> i == |xs| - 1 || i in at
    requires forall j :: 0 <= j < p ==> ys[j] == before[j] && places[j] == at[j]
    requires forall j :: p < j < |ys| ==> ys[j] == before[j - 1] && places[j] == at[j - 1]
    ensures IsStableOrder(xs, ys, places, leq)
  {
    forall j, k | 0 <= j < k < |places|
      ensures places[j] != places[k] && leq(ys[j], ys[k]) && (leq(ys[k], ys[j]) ==> places[j] < places[k])
    {
      var j', k' := if j < p then j else j - 1, if k < p then k else k - 1;
      if j != p && k != p {
        assert at[j'] != at[k'] && leq(before[j'], before[k']) && (leq(before[k'], before[j']) ==> at[j'] < at[k']);
      }
    }
  }

  predicate Level<T>(x: T, y: T, leq: (T, T) -> bool) {
    leq(x, y) && leq(y, x)
  }

  /** The elements that rank with y, in their order. */
  function Peers<T>(xs: seq<T>, y: T, leq: (T, T) -> bool): seq<T> {
    if xs == [] then []
    else if Level(xs[0], y, leq) then [xs[0]] + Peers(xs[1..], y, leq)
    else Peers(xs[1..], y, leq)
  }

  lemma {:induction false} PeersConcat<T>(a: seq<T>, b: seq<T>, y: T, leq: (T, T) -> bool)
    ensures Peers(a + b, y, leq) == Peers(a, y, leq) + Peers(b, y, leq)
  {
    hide Level;
    if a == [] {
      assert a + b == b;
    } else {
      assert (a + b)[0] == a[0] && (a + b)[1..] == a[1..] + b;
      PeersConcat(a[1..], b, y, leq);
    }
  }

  lemma {:induction false} NoPeersAbove<T(!new)>(xs: seq<T>, x: T, y: T, leq: (T, T) -> bool)
    requires TotalOrder(leq) && Sorted(xs, leq) && leq(x, y) && leq(y, x)
    requires xs != [] ==> !leq(xs[0], x)
    ensures Peers(xs, y, leq) == []
  {
    if xs != [] {
      assert !leq(xs[0], y) && !Level(xs[0], y, leq);
      if |xs| > 1 {
        assert leq(xs[0], xs[1]);
      }
      NoPeersAbove(xs[1..], x, y, leq);
    }
  }

  lemma {:induction false} InsertIsStable<T(!new)>(x: T, xs: seq<T>, y: T, leq: (T, T) -> bool)
    requires TotalOrder(leq) && Sorted(xs, leq)
    ensures Peers(Insert(x, xs, leq), y, leq) == Peers(xs + [x], y, leq)
  {
    PeersConcat(xs, [x], y, leq);
    if xs == [] || !leq(xs[0], x) {
      PeersConcat([x], xs, y, leq);
      if leq(x, y) && leq(y, x) {
        NoPeersAbove(xs, x, y, leq);
      }
      assert Peers([x], y, leq) == if leq(x, y) && leq(y, x) then [x] else [];
    } else {
      InsertIsStable(x, xs[1..], y, leq);
      PeersConcat(xs[1..], [x], y, leq);
      var r := Insert(x, xs[1..], leq);
      assert ([xs[0]] + r)[1..] == r;
    }
  }

  /** Equal elements keep their order. */
  lemma {:induction false} SortByIsStable<T(!new)>(xs: seq<T>, y: T, leq: (T, T) -> bool)
    requires TotalOrder(leq)
    ensures Peers(SortBy(xs, leq), y, leq) == Peers(xs, y, leq)
  {
    if xs != [] {
      var before, x := xs[..|xs| - 1], xs[|xs| - 1];
      SortBySorts(before, leq);
      SortByIsStable(before, y, leq);
      InsertIsStable(x, SortBy(before, leq), y, leq);
      PeersConcat(SortBy(before, leq), [x], y, leq);
      PeersConcat(before, [x], y, leq);
      assert xs == before + [x];
    }
  }

  /** What is sorted already stays as it is. */
  lemma {:induction false} SortByOfSorted<T(!new)>(xs: seq<T>, leq: (T, T) -> bool)
    requires Sorted(xs, leq)
    ensures SortBy(xs, leq) == xs
  {
    hide Insert;
    if xs != [] {
      var before, x := xs[..|xs| - 1], xs[|xs| - 1];
      SortByOfSorted(before, leq);
      assert forall i :: 0 <= i < |before| ==> leq(before[i], x);
      hide Sorted;
      InsertLast(x, before, leq);
      assert xs == before + [x];
    }
  }

  lemma {:induction false} InsertLast<T(!new)>(x: T, xs: seq<T>, leq: (T, T) -> bool)
    requires forall i :: 0 <= i < |xs| ==> leq(xs[i], x)
    ensures Insert(x, xs, leq) == xs + [x]
  {
    if xs != [] {
      InsertLast(x, xs[1..], leq);
    }
  }

  // --- elements that occur once -----------------------------------------------------------------

  predicate Distinct<T(==)>(xs: seq<T>) {
    forall i, j :: 0 <= i < j < |xs| ==> xs[i] != xs[j]
  }

  lemma Twice<T>(xs: seq<T>, i: nat, j: nat)
    requires i < j < |xs| && xs[i] == xs[j]
    ensures multiset(xs)[xs[i]] >= 2
  {
    assert xs == xs[..j] + xs[j..];
    assert xs[..j][i] in multiset(xs[..j]);
    assert xs[j..][0] in multiset(xs[j..]);
  }

  lemma {:induction false} Once<T>(xs: seq<T>, x: T)
    requires Distinct(xs)
    ensures multiset(xs)[x] <= 1
  {
    if xs != [] {
      var before, last := xs[..|xs| - 1], xs[|xs| - 1];
      Once(before, x);
      assert xs == before + [last];
      if last == x {
        assert x !in before;
      }
    }
  }

  /** What is different stays different in any order. */
  lemma {:induction false} DistinctInAnyOrder<T>(xs: seq<T>, ys: seq<T>)
    requires multiset(xs) == multiset(ys) && Distinct(xs)
    ensures Distinct(ys)
  {
    forall i, j | 0 <= i < j < |ys|
      ensures ys[i] != ys[j]
    {
      if ys[i] == ys[j] {
        Twice(ys, i, j);
        Once(xs, ys[i]);
      }
    }
  }

  // --- elements that differ in a key -----------------------------------------------------------

  ghost predicate KeysDiffer<T, K>(xs: seq<T>, key: T -> K) {
    forall i, j :: 0 <= i < j < |xs| ==> key(xs[i]) != key(xs[j])
  }

  lemma {:induction false} TwoPlaces<T>(xs: seq<T>, x: T) returns (i: nat, j: nat)
    requires multiset(xs)[x] >= 2
    ensures i < j < |xs| && xs[i] == xs[j] == x
  {
    var before, last := xs[..|xs| - 1], xs[|xs| - 1];
    assert xs == before + [last];
    if last == x {
      assert x in multiset(before);
      i, j :| i < |xs| - 1 && before[i] == x && j == |xs| - 1;
    } else {
      i, j := TwoPlaces(before, x);
    }
  }

  lemma SharedKeyInAnyOrder<T, K>(xs: seq<T>, ys: seq<T>, key: T -> K)
    requires multiset(xs) == multiset(ys) && !KeysDiffer(xs, key)
    ensures !KeysDiffer(ys, key)
  {
    var i, j :| 0 <= i < j < |xs| && key(xs[i]) == key(xs[j]);
    assert xs[i] in multiset(ys) && xs[j] in multiset(ys);
    if xs[i] == xs[j] {
      Twice(xs, i, j);
      var k, l := TwoPlaces(ys, xs[i]);
    } else {
      var k: nat, l: nat :| k < |ys| && l < |ys| && ys[k] == xs[i] && ys[l] == xs[j];
      assert key(ys[k]) == key(ys[l]);
    }
  }

  /** Whether all keys differ does not depend on the order. */
  lemma KeysDifferInAnyOrder<T, K>(xs: seq<T>, ys: seq<T>, key: T -> K)
    requires multiset(xs) == multiset(ys)
    ensures KeysDiffer(xs, key) <==> KeysDiffer(ys, key)
  {
    hide KeysDiffer;
    if !KeysDiffer(xs, key) {
      SharedKeyInAnyOrder(xs, ys, key);
    }
    if !KeysDiffer(ys, key) {
      SharedKeyInAnyOrder(ys, xs, key);
    }
  }
}

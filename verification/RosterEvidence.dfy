/** What the selected-round replay needs from the demo's columns, row by row. */
module RosterEvidence {
  import opened Bytes
  import opened Results
  import opened Sorting
  import opened Texts
  import opened RoundFrames

  /** Row r of the player's columns is of a requested tick, and puts him on a side. */
  predicate Places(rows: seq<Row>, ticks: seq<u64>, r: int, tick: int, side: Side) {
    && 0 <= r < |rows| && rows[r].tick == Some(tick) && tick in ticks
    && ((rows[r].team == Some(2) && side.T?) || (rows[r].team == Some(3) && side.CT?))
  }

  predicate HasRows(columns: Columns, id: u64) {
    id != 0 && id in columns && columns[id].Some?
  }

  lemma WantedMeans(rows: seq<Row>, ticks: seq<u64>, r: nat)
    requires r < |rows|
    ensures Wanted(rows[r], ticks) <==> exists tick, side :: Places(rows, ticks, r, tick, side)
    ensures Wanted(rows[r], ticks) ==> Places(rows, ticks, r, rows[r].tick.value, SideOf(rows[r]).value)
    ensures forall tick, side :: Places(rows, ticks, r, tick, side) ==>
              rows[r].tick == Some(tick) && SideOf(rows[r]) == Some(side)
  {
    if Wanted(rows[r], ticks) {
      assert Places(rows, ticks, r, rows[r].tick.value, SideOf(rows[r]).value);
    }
  }

  /** The snapshots of a player are the rows that place him and have their fields; at says which. */
  lemma {:induction false} SnapshotsMean(id: u64, rows: seq<Row>, ticks: seq<u64>, n: nat) returns (at: seq<nat>)
    requires n <= |rows|
    ensures var xs := SnapshotsOf(id, rows[..n], ticks);
            && |xs| == |at| && (forall j, k :: 0 <= j < k < |at| ==> at[j] < at[k])
            && (forall j :: 0 <= j < |at| ==>
                  at[j] < n && rows[at[j]].state.Some? && Places(rows, ticks, at[j], xs[j].tick, xs[j].side)
                  && xs[j] == Snapshot(id, xs[j].tick, xs[j].side, rows[at[j]].state.value))
            && forall r :: 0 <= r < n && Wanted(rows[r], ticks) && rows[r].state.Some? ==> r in at
  {
    at := [];
    if n > 0 {
      at := SnapshotsMean(id, rows, ticks, n - 1);
      assert rows[..n][..n - 1] == rows[..n - 1];
      WantedMeans(rows, ticks, n - 1);
      hide Wanted, SideOf, Places;
      if Wanted(rows[n - 1], ticks) && rows[n - 1].state.Some? {
        at := at + [n - 1];
      }
    }
  }

  /** A snapshot is read exactly if it is a row of its player. */
  lemma ReadMeans(columns: Columns, ticks: seq<u64>, s: Snapshot)
    ensures IsRead(columns, ticks, s) <==>
            HasRows(columns, s.steamId)
            && exists r :: Places(columns[s.steamId].value, ticks, r, s.tick, s.side)
                           && columns[s.steamId].value[r].state == Some(s.state)
  {
    if HasRows(columns, s.steamId) {
      var rows := columns[s.steamId].value;
      var at := SnapshotsMean(s.steamId, rows, ticks, |rows|);
      assert rows[..|rows|] == rows;
      hide SnapshotsOf, Wanted;
      if r :| Places(rows, ticks, r, s.tick, s.side) && rows[r].state == Some(s.state) {
        WantedMeans(rows, ticks, r);
        var j :| 0 <= j < |at| && at[j] == r;
        WantedMeans(rows, ticks, at[j]);
      }
    }
  }

  /** Everything of a player can be read: the rows that place him have their fields, and no two of them are
      of one tick. */
  ghost predicate RowsAreGood(rows: seq<Row>, ticks: seq<u64>) {
    && (forall r, tick, side :: Places(rows, ticks, r, tick, side) ==> rows[r].state.Some?)
    && forall r, r', tick, side, side' :: Places(rows, ticks, r, tick, side) && Places(rows, ticks, r', tick, side') ==> r == r'
  }

  lemma GoodMeans(id: u64, rows: seq<Row>, ticks: seq<u64>)
    ensures AllValid(rows, ticks) && NoTwins(SnapshotsOf(id, rows, ticks)) <==> RowsAreGood(rows, ticks)
  {
    forall r | 0 <= r < |rows|
      ensures Wanted(rows[r], ticks) <==> exists tick, side :: Places(rows, ticks, r, tick, side)
      ensures Wanted(rows[r], ticks) ==> Places(rows, ticks, r, rows[r].tick.value, SideOf(rows[r]).value)
    {
      WantedMeans(rows, ticks, r);
    }
    var at := SnapshotsMean(id, rows, ticks, |rows|);
    assert rows[..|rows|] == rows;
    hide SnapshotsOf, Wanted, SideOf;
    var xs := SnapshotsOf(id, rows, ticks);
    if AllValid(rows, ticks) {
      if RowsAreGood(rows, ticks) {
        forall j, k | 0 <= j < k < |xs|
          ensures !Twins(xs[j], xs[k])
        {
          assert Places(rows, ticks, at[j], xs[j].tick, xs[j].side) && Places(rows, ticks, at[k], xs[k].tick, xs[k].side);
        }
      }
      if NoTwins(xs) {
        forall r, r', tick, side, side' | Places(rows, ticks, r, tick, side) && Places(rows, ticks, r', tick, side')
          ensures r == r'
        {
          assert r in at && r' in at;
          var j :| 0 <= j < |at| && at[j] == r;
          var k :| 0 <= k < |at| && at[k] == r';
          assert Places(rows, ticks, at[j], xs[j].tick, xs[j].side) && Places(rows, ticks, at[k], xs[k].tick, xs[k].side);
          assert xs[j].tick == tick == xs[k].tick && Twins(xs[j], xs[k]) && Twins(xs[k], xs[j]);
        }
      }
    }
  }

  /** Every player that the columns know, other than number 0, can be read. */
  ghost predicate ColumnsAreGood(columns: Columns, ticks: seq<u64>) {
    forall id <- columns :: id != 0 ==> columns[id].Some? && RowsAreGood(columns[id].value, ticks)
  }

  /** Row r places a player with a column. */
  predicate PlacesPlayer(columns: Columns, ticks: seq<u64>, id: u64, r: int, tick: u64, side: Side) {
    HasRows(columns, id) && Places(columns[id].value, ticks, r, tick, side)
  }

  predicate IsMember(roster: seq<Player>, id: u64, side: Side) {
    exists p :: p in roster && Number(p) == id && p.side == side
  }

  /** At the tick, a row places the member on his side. */
  ghost predicate IsPlaced(columns: Columns, ticks: seq<u64>, p: Player, tick: u64) {
    Number(p) <= U64_MAX && exists r :: PlacesPlayer(columns, ticks, Number(p), r, tick, p.side)
  }

  /** Nobody but the roster's members is placed, each on his side, and all of them at all ticks. */
  ghost predicate RosterIsPlaced(columns: Columns, roster: seq<Player>, ticks: seq<u64>) {
    && (forall id, r, tick, side :: PlacesPlayer(columns, ticks, id, r, tick, side) ==> IsMember(roster, id, side))
    && (forall t, p :: t in ticks && p in roster ==> IsPlaced(columns, ticks, p, t))
  }

  lemma MemberMeans(roster: seq<Player>, s: Snapshot)
    requires FiveOnFive(roster)
    ensures Belongs(roster, s) <==> IsMember(roster, s.steamId, s.side)
  {
    hide FiveOnFive, Number;
    if p :| p in roster && Number(p) == s.steamId && p.side == s.side {
      MembersAreFound(roster, p);
    }
  }

  lemma ReadableMeans(columns: Columns, ticks: seq<u64>)
    ensures Readable(columns, ticks) <==> ColumnsAreGood(columns, ticks)
  {
    forall id | id in columns && id != 0 && columns[id].Some?
      ensures AllValid(columns[id].value, ticks) && NoTwins(SnapshotsOf(id, columns[id].value, ticks)) <==>
              RowsAreGood(columns[id].value, ticks)
    {
      GoodMeans(id, columns[id].value, ticks);
    }
    hide RowsAreGood, AllValid, NoTwins, SnapshotsOf;
  }

  /** If the columns can be read, a row that places someone is read as a snapshot. */
  lemma PlacedIsRead(columns: Columns, ticks: seq<u64>, id: u64, r: int, tick: u64, side: Side) returns (s: Snapshot)
    requires ColumnsAreGood(columns, ticks) && PlacesPlayer(columns, ticks, id, r, tick, side)
    ensures s.steamId == id && s.tick == tick && s.side == side && IsRead(columns, ticks, s)
  {
    hide IsRead;
    var rows := columns[id].value;
    assert RowsAreGood(rows, ticks) && rows[r].state.Some?;
    s := Snapshot(id, tick, side, rows[r].state.value);
    ReadMeans(columns, ticks, s);
  }

  lemma ReadIsPlaced(columns: Columns, ticks: seq<u64>, s: Snapshot) returns (r: int)
    requires IsRead(columns, ticks, s)
    ensures PlacesPlayer(columns, ticks, s.steamId, r, s.tick, s.side)
  {
    hide IsRead;
    ReadMeans(columns, ticks, s);
    r :| Places(columns[s.steamId].value, ticks, r, s.tick, s.side) && columns[s.steamId].value[r].state == Some(s.state);
  }

  /** The selected-round replay has all it needs exactly if the columns can be read and place the roster, and
      nobody else, at all the ticks. */
  lemma EvidenceMeans(columns: Columns, roster: seq<Player>, ticks: seq<u64>)
    requires FiveOnFive(roster)
    ensures Readable(columns, ticks) && CompleteEvidence(columns, roster, ticks) <==>
            ColumnsAreGood(columns, ticks) && RosterIsPlaced(columns, roster, ticks)
  {
    hide FiveOnFive, Readable, IsRead, Number, ColumnsAreGood, PlacesPlayer, Belongs, IsMember;
    ReadableMeans(columns, ticks);
    forall s
      ensures Belongs(roster, s) <==> IsMember(roster, s.steamId, s.side)
    {
      MemberMeans(roster, s);
    }
    if ColumnsAreGood(columns, ticks) {
      OnlyMembers(columns, roster, ticks);
      forall p, t
        ensures (exists state :: SeenAt(columns, ticks, p, t, state)) <==> IsPlaced(columns, ticks, p, t)
      {
        SeenMeansPlaced(columns, ticks, p, t);
      }
      hide SeenAt, IsPlaced;
    }
  }

  lemma OnlyMembers(columns: Columns, roster: seq<Player>, ticks: seq<u64>)
    requires ColumnsAreGood(columns, ticks)
    ensures (forall s :: IsRead(columns, ticks, s) ==> IsMember(roster, s.steamId, s.side)) <==>
            (forall id, r, tick, side :: PlacesPlayer(columns, ticks, id, r, tick, side) ==> IsMember(roster, id, side))
  {
    hide IsRead, PlacesPlayer, ColumnsAreGood, IsMember;
    if forall s :: IsRead(columns, ticks, s) ==> IsMember(roster, s.steamId, s.side) {
      forall id, r, tick, side | PlacesPlayer(columns, ticks, id, r, tick, side)
        ensures IsMember(roster, id, side)
      {
        var s := PlacedIsRead(columns, ticks, id, r, tick, side);
      }
    }
    if forall id, r, tick, side :: PlacesPlayer(columns, ticks, id, r, tick, side) ==> IsMember(roster, id, side) {
      forall s | IsRead(columns, ticks, s)
        ensures IsMember(roster, s.steamId, s.side)
      {
        var r := ReadIsPlaced(columns, ticks, s);
      }
    }
  }

  lemma SeenMeansPlaced(columns: Columns, ticks: seq<u64>, p: Player, t: u64)
    requires ColumnsAreGood(columns, ticks)
    ensures (exists state :: SeenAt(columns, ticks, p, t, state)) <==> IsPlaced(columns, ticks, p, t)
  {
    hide IsRead, PlacesPlayer, ColumnsAreGood, Number;
    if state :| SeenAt(columns, ticks, p, t, state) {
      var r := ReadIsPlaced(columns, ticks, Snapshot(Number(p), t, p.side, state));
    }
    if IsPlaced(columns, ticks, p, t) {
      var r :| PlacesPlayer(columns, ticks, Number(p), r, t, p.side);
      var s := PlacedIsRead(columns, ticks, Number(p), r, t, p.side);
      assert SeenAt(columns, ticks, p, t, s.state);
    }
  }

  // --- names ----------------------------------------------------------------------------------------

  /** From a up to b lies what is left of a text without the white space around it. */
  predicate IsCore(value: string, a: nat, b: nat) {
    && a <= b <= |value|
    && (forall k :: 0 <= k < a ==> IsWhitespace(value[k])) && (forall k :: b <= k < |value| ==> IsWhitespace(value[k]))
    && (a < b ==> !IsWhitespace(value[a]) && !IsWhitespace(value[b - 1]))
  }

  lemma {:induction false} TrimStartMeans(value: string) returns (a: nat)
    ensures a <= |value| && TrimStart(value) == value[a..]
    ensures (forall k :: 0 <= k < a ==> IsWhitespace(value[k])) && (a < |value| ==> !IsWhitespace(value[a]))
  {
    hide IsWhitespace;
    a := 0;
    if value != "" && IsWhitespace(value[0]) {
      var rest := TrimStartMeans(value[1..]);
      a := rest + 1;
      assert forall k :: 0 < k < |value| ==> value[k] == value[1..][k - 1];
    }
  }

  lemma {:induction false} TrimEndMeans(value: string) returns (b: nat)
    ensures b <= |value| && TrimEnd(value) == value[..b]
    ensures (forall k :: b <= k < |value| ==> IsWhitespace(value[k])) && (b > 0 ==> !IsWhitespace(value[b - 1]))
  {
    hide IsWhitespace;
    b := |value|;
    if value != "" && IsWhitespace(value[|value| - 1]) {
      b := TrimEndMeans(value[..|value| - 1]);
    }
  }

  /** A name is usable if, without the white space around it, it has 1 to so many characters, and none of them
      is a line end or a zero. */
  lemma BoundedTextMeans(value: string, maximum: nat) returns (a: nat, b: nat)
    ensures IsCore(value, a, b)
    ensures IsBoundedText(value, maximum) <==>
            a < b <= a + maximum && forall k :: a <= k < b ==> value[k] != '\r' && value[k] != '\n' && value[k] != '\0'
  {
    hide IsWhitespace;
    a := TrimStartMeans(value);
    var trimmed := value[a..];
    var length := TrimEndMeans(trimmed);
    b := a + length;
    assert forall k :: a <= k < |value| ==> value[k] == trimmed[k - a];
    var text := trimmed[..length];
    assert forall k :: a <= k < b ==> value[k] == text[k - a];
    assert forall k :: 0 <= k < length ==> text[k] == value[k + a];
  }
}

/** What DemoEnvelope's scanners and its repair do, told from the bytes of the file. */
module DemoFiles {
  import opened Bytes
  import opened Results
  import opened DemoEnvelope

  // --- numbers and frames ---------------------------------------------------------------------------

  /** The k-th group of seven bits of the l bytes at i. */
  function Group(file: seq<byte>, i: nat, l: nat, k: nat): nat
    requires i + l <= |file|
  {
    if k < l then file[i + k] % 0x80 else 0
  }

  /** One to five bytes at i make a number: all but the last have their high bit set, and seven bits of each
      count, the first the least. */
  predicate IsNumber(file: seq<byte>, i: nat, l: nat, v: nat) {
    && 1 <= l <= 5 && i + l <= |file|
    && file[i + l - 1] < 0x80 && (forall k :: i <= k < i + l - 1 ==> file[k] >= 0x80)
    && v == Group(file, i, l, 0) + 0x80 * Group(file, i, l, 1) + 0x4000 * Group(file, i, l, 2)
            + 0x20_0000 * Group(file, i, l, 3) + 0x1000_0000 * Group(file, i, l, 4)
  }

  lemma NumberIsUnique(file: seq<byte>, i: nat, l: nat, v: nat, l': nat, v': nat)
    requires IsNumber(file, i, l, v) && IsNumber(file, i, l', v')
    ensures l == l' && v == v'
  {
  }

  /** The value of the first l groups at i. */
  function Sum(file: seq<byte>, i: nat, l: nat): nat
    requires i + l <= |file|
    decreases l
  {
    if l == 0 then 0 else file[i] % 0x80 + 0x80 * Sum(file, i + 1, l - 1)
  }

  lemma SumMeans(file: seq<byte>, i: nat, l: nat)
    requires i + l <= |file| && l <= 5
    ensures Sum(file, i, l) == Group(file, i, l, 0) + 0x80 * Group(file, i, l, 1) + 0x4000 * Group(file, i, l, 2)
                               + 0x20_0000 * Group(file, i, l, 3) + 0x1000_0000 * Group(file, i, l, 4)
  {
    if l > 0 {
      SumFrom(file, i, l, 0);
      SumFrom(file, i, l, 1);
      SumFrom(file, i, l, 2);
      SumFrom(file, i, l, 3);
      SumFrom(file, i, l, 4);
    }
    hide Sum;
  }

  lemma SumFrom(file: seq<byte>, i: nat, l: nat, k: nat)
    requires i + l <= |file|
    ensures k < l ==> Sum(file, i + k, l - k) == Group(file, i, l, k) + 0x80 * Sum(file, i + k + 1, l - k - 1)
    ensures k == l ==> Sum(file, i + k, l - k) == 0
  {
  }

  predicate Terminated(file: seq<byte>, i: nat, l: int) {
    l >= 1 && i + l <= |file| && file[i + l - 1] < 0x80 && forall k :: i <= k < i + l - 1 ==> file[k] >= 0x80
  }

  lemma {:induction false} VarintMeans(file: seq<byte>, i: nat, n: nat)
    requires i <= |file|
    ensures Varint(file[i..], n).Some? ==>
              var (v, l) := Varint(file[i..], n).value; Terminated(file, i, l) && l <= n && v == Sum(file, i, l)
    ensures Varint(file[i..], n).None? ==> forall l :: l <= n ==> !Terminated(file, i, l)
    decreases n
  {
    if n > 0 && i < |file| && file[i] >= 0x80 {
      assert file[i..][1..] == file[i + 1..];
      VarintMeans(file, i + 1, n - 1);
      forall l | l <= n && Terminated(file, i, l)
        ensures Terminated(file, i + 1, l - 1)
      {
        assert l > 1;
      }
    }
  }

  lemma NumberMeans(file: seq<byte>, i: nat, l: nat, v: nat)
    requires i <= |file|
    ensures IsNumber(file, i, l, v) <==> Varint(file[i..], 5) == Some((v, l))
  {
    VarintMeans(file, i, 5);
    hide Sum;
    if IsNumber(file, i, l, v) {
      assert Terminated(file, i, l);
    }
    if Varint(file[i..], 5).Some? {
      var (v', l') := Varint(file[i..], 5).value;
      SumMeans(file, i, l');
      assert IsNumber(file, i, l', v');
      if IsNumber(file, i, l, v) {
        NumberIsUnique(file, i, l, v, l', v');
      }
    }
  }

  /** Three numbers of a, b and c bytes at offset are the head of a frame. */
  predicate HasLengths(file: seq<byte>, offset: nat, h: Head, a: nat, b: nat, c: nat) {
    && IsNumber(file, offset, a, h.command) && IsNumber(file, offset + a, b, h.tick)
    && IsNumber(file, offset + a + b, c, h.size) && h.payload == offset + a + b + c
  }

  ghost predicate IsHead(file: seq<byte>, offset: nat, h: Head) {
    exists a, b, c :: HasLengths(file, offset, h, a, b, c)
  }

  lemma NumberEnds(file: seq<byte>, i: nat, l: nat, v: nat)
    requires IsNumber(file, i, l, v)
    ensures i + l <= |file|
  {
  }

  lemma LengthsMean(file: seq<byte>, offset: nat, h: Head, a: nat, b: nat, c: nat)
    requires offset <= |file| && HasLengths(file, offset, h, a, b, c)
    ensures HeadAt(file, offset) == Some(h)
  {
    hide Varint, IsNumber;
    NumberEnds(file, offset, a, h.command);
    NumberEnds(file, offset + a, b, h.tick);
    NumberMeans(file, offset, a, h.command);
    NumberMeans(file, offset + a, b, h.tick);
    NumberMeans(file, offset + a + b, c, h.size);
  }

  lemma HeadMeans(file: seq<byte>, offset: nat, h: Head)
    requires offset <= |file|
    ensures IsHead(file, offset, h) <==> HeadAt(file, offset) == Some(h)
  {
    hide Varint, IsNumber;
    if a, b, c :| HasLengths(file, offset, h, a, b, c) {
      LengthsMean(file, offset, h, a, b, c);
    }
    if HeadAt(file, offset) == Some(h) {
      var (command, a) := Varint(file[offset..], 5).value;
      var (tick, b) := Varint(file[offset + a..], 5).value;
      var (size, c) := Varint(file[offset + a + b..], 5).value;
      NumberMeans(file, offset, a, command);
      NumberMeans(file, offset + a, b, tick);
      NumberMeans(file, offset + a + b, c, size);
      assert HasLengths(file, offset, h, a, b, c);
    }
  }

  /** A complete frame of this command lies from offset up to end. */
  ghost predicate IsFrame(file: seq<byte>, offset: nat, end: nat, command: nat) {
    exists h :: IsHead(file, offset, h) && h.command == command && h.payload + h.size == end <= |file|
  }

  ghost predicate Stops(file: seq<byte>, offset: nat) {
    forall end, command :: !IsFrame(file, offset, end, command)
  }

  lemma FrameMeans(file: seq<byte>, offset: nat, end: nat, command: nat)
    requires offset <= |file|
    ensures IsFrame(file, offset, end, command) <==>
            FrameFits(file, offset) && HeadAt(file, offset).value.command == command
            && End(HeadAt(file, offset).value) == end
    ensures Stops(file, offset) <==> !FrameFits(file, offset)
  {
    forall h
      ensures IsHead(file, offset, h) <==> HeadAt(file, offset) == Some(h)
    {
      HeadMeans(file, offset, h);
    }
    hide IsHead, HeadAt;
    if FrameFits(file, offset) {
      var h := HeadAt(file, offset).value;
      assert IsFrame(file, offset, End(h), h.command);
    }
  }

  // --- the repair -----------------------------------------------------------------------------------

  /** Complete frames lie end to end between the given offsets, the first right behind the header. */
  ghost predicate IsChain(file: seq<byte>, at: seq<nat>) {
    && at != [] && at[0] == 16
    && forall i :: 0 <= i < |at| - 1 ==> Linked(file, at[i], at[i + 1])
  }

  ghost predicate Linked(file: seq<byte>, a: nat, b: nat) {
    exists command :: IsFrame(file, a, b, command)
  }

  /** The offset that the header gives for the file-info frame: its bytes 8 to 11, the first the least. */
  predicate PointsTo(file: seq<byte>, infoOffset: nat) {
    |file| >= 16
    && infoOffset == (file[8] as int) + 0x100 * (file[9] as int) + 0x1_0000 * (file[10] as int) + 0x100_0000 * (file[11] as int)
  }

  /** The file is of 16 bytes to 2 GiB, begins with its eight magic bytes, and points into itself. */
  predicate HeaderIsGood(file: seq<byte>, infoOffset: nat) {
    && 16 <= |file| <= 0x8000_0000 && file[..8] == [80, 66, 68, 69, 77, 83, 50, 0]
    && PointsTo(file, infoOffset) && 16 <= infoOffset < |file|
  }

  lemma LinkMeans(file: seq<byte>, a: nat, b: nat)
    requires a <= |file|
    ensures Linked(file, a, b) <==> FrameFits(file, a) && End(HeadAt(file, a).value) == b
  {
    if FrameFits(file, a) {
      FrameMeans(file, a, b, HeadAt(file, a).value.command);
    }
    if command :| IsFrame(file, a, b, command) {
      FrameMeans(file, a, b, command);
    }
  }

  lemma BoundariesMean(file: seq<byte>)
    requires 16 <= |file|
    ensures IsChain(file, Boundaries(file, 16)) && Stops(file, LastOf(Boundaries(file, 16)))
  {
    var at := Boundaries(file, 16);
    FrameMeans(file, LastOf(at), 0, 0);
    hide Stops, HeadAt, FrameFits, Linked, Boundaries;
    forall i | 0 <= i < |at| - 1
      ensures Linked(file, at[i], at[i + 1])
    {
      LinkMeans(file, at[i], at[i + 1]);
    }
  }

  lemma {:induction false} ChainAgrees(file: seq<byte>, at: seq<nat>, i: nat)
    requires 16 <= |file| && IsChain(file, at) && i < |at|
    ensures i < |Boundaries(file, 16)| && Boundaries(file, 16)[i] == at[i]
  {
    hide FrameFits, HeadAt, Boundaries, Linked;
    if i > 0 {
      ChainAgrees(file, at, i - 1);
      LinkMeans(file, at[i - 1], at[i]);
    }
  }

  /** Complete frames from the header on can be lined up in one way only. */
  lemma ChainIsUnique(file: seq<byte>, at: seq<nat>)
    requires 16 <= |file| && IsChain(file, at) && Stops(file, at[|at| - 1])
    ensures at == Boundaries(file, 16)
  {
    forall i | 0 <= i < |at|
      ensures i < |Boundaries(file, 16)| && Boundaries(file, 16)[i] == at[i]
    {
      ChainAgrees(file, at, i);
    }
    FrameMeans(file, at[|at| - 1], 0, 0);
    hide Stops, FrameFits, HeadAt, Boundaries, Linked;
  }

  /** One of the frames of the chain is a file-info frame, compressed or not, where the header says. */
  ghost predicate InfoIsAmong(file: seq<byte>, at: seq<nat>, infoOffset: nat) {
    exists i :: 0 <= i < |at| - 1 && at[i] == infoOffset
                && (IsFrame(file, at[i], at[i + 1], 2) || IsFrame(file, at[i], at[i + 1], 66))
  }

  lemma InfoFrameMeans(file: seq<byte>, a: nat, b: nat, infoOffset: nat)
    requires a <= |file| && FrameFits(file, a) && b == End(HeadAt(file, a).value)
    ensures a == infoOffset && (IsFrame(file, a, b, 2) || IsFrame(file, a, b, 66)) <==> IsFileInfo(file, a, infoOffset)
  {
    FrameMeans(file, a, b, 2);
    FrameMeans(file, a, b, 66);
    hide HeadAt, IsFrame, Kind;
    KindMeans(HeadAt(file, a).value.command);
  }

  lemma KindMeans(command: nat)
    ensures Kind(command) == 2 <==> command == 2 || command == 66
  {
  }

  lemma FileInfoMeans(file: seq<byte>, infoOffset: nat)
    requires 16 <= |file|
    ensures InfoIsAmong(file, Boundaries(file, 16), infoOffset) <==> HasFileInfo(file, 16, infoOffset)
  {
    hide IsFrame, HeadAt, FrameFits, Boundaries, IsFileInfo;
    var at := Boundaries(file, 16);
    forall i | 0 <= i < |at| - 1
      ensures at[i] == infoOffset && (IsFrame(file, at[i], at[i + 1], 2) || IsFrame(file, at[i], at[i + 1], 66)) <==>
              IsFileInfo(file, at[i], infoOffset)
    {
      InfoFrameMeans(file, at[i], at[i + 1], infoOffset);
    }
    if i :| 0 <= i < |at| && IsFileInfo(file, at[i], infoOffset) {
      FileInfoIsThere(file, at[i], infoOffset);
      assert i < |at| - 1;
      assert IsFrame(file, at[i], at[i + 1], 2) || IsFrame(file, at[i], at[i + 1], 66);
    }
  }

  lemma PointerMeans(file: seq<byte>, infoOffset: nat)
    requires |file| >= 16
    ensures PointsTo(file, infoOffset) <==> infoOffset == InfoOffset(file)
  {
  }

  lemma InfoIsBefore(file: seq<byte>, infoOffset: nat)
    requires 16 <= |file| && HasFileInfo(file, 16, infoOffset)
    ensures infoOffset < LastBoundary(file)
  {
    hide HeadAt, Boundaries, FrameFits, IsFileInfo;
    var r := Boundaries(file, HEADER);
    BoundariesAscend(file, HEADER);
    var i :| 0 <= i < |r| && IsFileInfo(file, r[i], infoOffset);
    FileInfoIsThere(file, r[i], infoOffset);
    assert r[i + 1] in r;
  }

  /** What the repair does to any file whose complete frames, lined up from the header on, stop at the last
      of the offsets. */
  lemma RepairMeans(file: seq<byte>, infoOffset: nat, at: seq<nat>)
    requires PointsTo(file, infoOffset) && IsChain(file, at) && Stops(file, at[|at| - 1])
    ensures var r, last := Repaired(file), at[|at| - 1];
            && last <= |file|
            && (HeaderIsGood(file, infoOffset) && last == |file| ==> r == Ok(None))
            && (HeaderIsGood(file, infoOffset) && last < |file| ==>
                  r == if InfoIsAmong(file, at, infoOffset) then Ok(Some(file[..last])) else Err(NotTerminal))
            && (r.Ok? || r.error.NotTerminal? <==> HeaderIsGood(file, infoOffset))
  {
    hide Boundaries, HasFileInfo, InfoIsAmong, IsChain, Stops, InfoOffset;
    ChainIsUnique(file, at);
    FileInfoMeans(file, infoOffset);
    PointerMeans(file, infoOffset);
    if HasFileInfo(file, HEADER, infoOffset) {
      InfoIsBefore(file, infoOffset);
    }
  }

  /** Why a file is refused before its frames are looked at. */
  lemma RefusalMeans(file: seq<byte>)
    ensures Repaired(file) == Err(OutsideLimits) <==> |file| < 16 || |file| > 0x8000_0000
    ensures Repaired(file) == Err(InvalidMagic) <==> 16 <= |file| <= 0x8000_0000 && file[..8] != [80, 66, 68, 69, 77, 83, 50, 0]
    ensures Repaired(file) == Err(InfoOutsideFile) <==>
            16 <= |file| <= 0x8000_0000 && file[..8] == [80, 66, 68, 69, 77, 83, 50, 0]
            && forall infoOffset: nat :: PointsTo(file, infoOffset) ==> infoOffset < 16 || infoOffset >= |file|
  {
    hide Boundaries, HasFileInfo, InfoOffset, PointsTo;
    if |file| >= 16 {
      forall infoOffset: nat
        ensures PointsTo(file, infoOffset) <==> infoOffset == InfoOffset(file)
      {
        PointerMeans(file, infoOffset);
      }
      assert PointsTo(file, InfoOffset(file));
    }
  }

  // --- undoing a write that was cut short -----------------------------------------------------------

  /** Bytes read the same wherever they lie. */
  lemma NumberElsewhere(file: seq<byte>, i: nat, other: seq<byte>, j: nat, l: nat, v: nat)
    requires IsNumber(file, i, l, v) && j + l <= |other|
    requires forall k :: i <= k < i + l ==> file[k] == other[j + (k - i)]
    ensures IsNumber(other, j, l, v)
  {
    forall k | j <= k < j + l
      ensures other[k] == file[i + (k - j)]
    {
      assert file[i + (k - j)] == other[j + (i + (k - j) - i)];
    }
    assert Group(file, i, l, 0) == Group(other, j, l, 0) && Group(file, i, l, 1) == Group(other, j, l, 1);
    assert Group(file, i, l, 2) == Group(other, j, l, 2) && Group(file, i, l, 3) == Group(other, j, l, 3);
    assert Group(file, i, l, 4) == Group(other, j, l, 4);
  }

  lemma HeadElsewhere(file: seq<byte>, i: nat, other: seq<byte>, j: nat, h: Head)
    requires IsHead(file, i, h) && h.payload <= |file|
    requires j + (h.payload - i) <= |other| && forall k :: i <= k < h.payload ==> file[k] == other[j + (k - i)]
    ensures i < h.payload && IsHead(other, j, h.(payload := j + (h.payload - i)))
  {
    hide IsNumber;
    var a, b, c :| HasLengths(file, i, h, a, b, c);
    NumberEnds(file, i, a, h.command);
    NumberEnds(file, i + a, b, h.tick);
    NumberElsewhere(file, i, other, j, a, h.command);
    NumberElsewhere(file, i + a, other, j + a, b, h.tick);
    NumberElsewhere(file, i + a + b, other, j + a + b, c, h.size);
    assert HasLengths(other, j, h.(payload := j + (h.payload - i)), a, b, c);
  }

  lemma FrameInLonger(file: seq<byte>, tail: seq<byte>, a: nat, b: nat, command: nat)
    requires IsFrame(file, a, b, command)
    ensures IsFrame(file + tail, a, b, command)
  {
    hide IsHead;
    var h :| IsHead(file, a, h) && h.command == command && h.payload + h.size == b <= |file|;
    HeadElsewhere(file, a, file + tail, a, h);
  }

  lemma ChainInLonger(file: seq<byte>, tail: seq<byte>, at: seq<nat>, infoOffset: nat)
    requires IsChain(file, at)
    ensures IsChain(file + tail, at) && (InfoIsAmong(file, at, infoOffset) ==> InfoIsAmong(file + tail, at, infoOffset))
  {
    forall a, b, command | IsFrame(file, a, b, command)
      ensures IsFrame(file + tail, a, b, command)
    {
      FrameInLonger(file, tail, a, b, command);
    }
    hide IsFrame;
    forall i | 0 <= i < |at| - 1
      ensures Linked(file + tail, at[i], at[i + 1])
    {
      assert Linked(file, at[i], at[i + 1]);
    }
  }

  lemma NoPartOfAFrame(file: seq<byte>, frame: seq<byte>, command: nat, k: nat)
    requires IsFrame(frame, 0, |frame|, command) && k < |frame|
    ensures Stops(file + frame[..k], |file|)
  {
    hide IsHead;
    var torn := file + frame[..k];
    var whole :| IsHead(frame, 0, whole) && whole.payload + whole.size == |frame|;
    forall end: nat, other: nat | IsFrame(torn, |file|, end, other)
      ensures false
    {
      var h :| IsHead(torn, |file|, h) && h.payload + h.size == end <= |torn|;
      HeadElsewhere(torn, |file|, frame, 0, h);
      HeadMeans(frame, 0, whole);
      HeadMeans(frame, 0, h.(payload := h.payload - |file|));
      hide HeadAt;
    }
  }

  /** The frames of a complete file, file-info frame and all, survive: whatever part of one more frame got
      written behind it, the repair gives the file back. */
  lemma TornWriteIsUndone(file: seq<byte>, infoOffset: nat, at: seq<nat>, frame: seq<byte>, command: nat, k: nat)
    requires HeaderIsGood(file, infoOffset) && IsChain(file, at) && at[|at| - 1] == |file| && InfoIsAmong(file, at, infoOffset)
    requires IsFrame(frame, 0, |frame|, command) && 0 < k < |frame| && |file| + k <= 0x8000_0000
    ensures Repaired(file + frame[..k]) == Ok(Some(file))
  {
    hide IsChain, InfoIsAmong, IsFrame, Stops, Repaired;
    var torn := file + frame[..k];
    ChainInLonger(file, frame[..k], at, infoOffset);
    NoPartOfAFrame(file, frame, command, k);
    assert torn[..8] == file[..8] && HeaderIsGood(torn, infoOffset);
    RepairMeans(torn, infoOffset, at);
    assert torn[..|file|] == file;
  }

  // --- the rewriter's scanner -----------------------------------------------------------------------

  /** A number of at most 32 bits. */
  predicate IsShort(file: seq<byte>, i: nat, l: nat, v: nat) {
    IsNumber(file, i, l, v) && v < 0x1_0000_0000
  }

  /** No such number is at i: the file ends before its last byte, or it does not end by its fifth byte, or
      exceeds 32 bits there. */
  predicate IsBad(file: seq<byte>, i: nat, e: VarError) {
    match e
    case Truncated => i <= |file| <= i + 4 && forall k :: i <= k < |file| ==> file[k] >= 0x80
    case Overflow => i + 5 <= |file| && (forall k :: i <= k < i + 4 ==> file[k] >= 0x80) && file[i + 4] >= 0x10
    case Unterminated => false
  }

  lemma {:induction false} BadMeans(file: seq<byte>, i: nat, group: nat, e: VarError)
    requires group <= 4 && i <= |file|
    ensures VarU32(file[i..], group) == Err(e) <==>
            match e
            case Truncated => |file| <= i + 4 - group && forall k :: i <= k < |file| ==> file[k] >= 0x80
            case Overflow =>
              i + 5 - group <= |file| && (forall k :: i <= k < i + 4 - group ==> file[k] >= 0x80) && file[i + 4 - group] >= 0x10
            case Unterminated => false
    decreases 4 - group
  {
    if i < |file| && group < 4 && file[i] >= 0x80 {
      assert file[i..][1..] == file[i + 1..];
      BadMeans(file, i + 1, group + 1, e);
    }
  }

  lemma ShortMeans(file: seq<byte>, i: nat)
    requires i <= |file|
    ensures forall l: nat, v: nat :: IsShort(file, i, l, v) <==> VarU32(file[i..], 0) == Ok((v, l))
    ensures forall e :: IsBad(file, i, e) <==> VarU32(file[i..], 0) == Err(e)
  {
    hide IsNumber, Varint, VarU32;
    ReadersAgree(file[i..], 0);
    TwoToThe32();
    forall l: nat, v: nat
      ensures IsShort(file, i, l, v) <==> VarU32(file[i..], 0) == Ok((v, l))
    {
      NumberMeans(file, i, l, v);
    }
    forall e
      ensures IsBad(file, i, e) <==> VarU32(file[i..], 0) == Err(e)
    {
      BadMeans(file, i, 0, e);
    }
  }

  /** A short number lies from i up to j. */
  ghost predicate Spans(file: seq<byte>, i: nat, j: nat) {
    exists l, v :: IsShort(file, i, l, v) && i + l == j
  }

  /** The three numbers of a head are short. */
  ghost predicate IsShortHead(file: seq<byte>, offset: nat, h: Head) {
    IsHead(file, offset, h) && h.command < 0x1_0000_0000 && h.tick < 0x1_0000_0000 && h.size < 0x1_0000_0000
  }

  /** The first of the three numbers that is bad is so for this reason. */
  ghost predicate IsBadHead(file: seq<byte>, offset: nat, e: VarError) {
    || IsBad(file, offset, e)
    || (exists i :: Spans(file, offset, i) && IsBad(file, i, e))
    || (exists i, j :: Spans(file, offset, i) && Spans(file, i, j) && IsBad(file, j, e))
  }

  lemma ShortHeadMeans(file: seq<byte>, offset: nat, h: Head)
    requires offset <= |file|
    ensures IsShortHead(file, offset, h) <==> NarrowHeadAt(file, offset) == Ok(h)
  {
    HeadMeans(file, offset, h);
    HeadsAgree(file, offset);
    hide IsHead, HeadAt, NarrowHeadAt;
  }

  lemma SpansMeans(file: seq<byte>, i: nat, j: nat)
    requires i <= |file|
    ensures Spans(file, i, j) <==> VarU32(file[i..], 0).Ok? && j == i + VarU32(file[i..], 0).value.1
  {
    hide IsShort, VarU32;
    ShortMeans(file, i);
    if VarU32(file[i..], 0).Ok? && j == i + VarU32(file[i..], 0).value.1 {
      assert IsShort(file, i, VarU32(file[i..], 0).value.1, VarU32(file[i..], 0).value.0);
    }
  }

  lemma BadHeadMeans(file: seq<byte>, offset: nat, e: VarError)
    requires offset <= |file|
    ensures IsBadHead(file, offset, e) <==> NarrowHeadAt(file, offset) == Err(e)
  {
    hide IsShort, IsBad, VarU32, Spans;
    ShortMeans(file, offset);
    forall i: nat
      ensures Spans(file, offset, i) <==> VarU32(file[offset..], 0).Ok? && i == offset + VarU32(file[offset..], 0).value.1
    {
      SpansMeans(file, offset, i);
    }
    if VarU32(file[offset..], 0).Ok? {
      var i := offset + VarU32(file[offset..], 0).value.1;
      assert Spans(file, offset, i);
      ShortMeans(file, i);
      forall j: nat
        ensures Spans(file, i, j) <==> VarU32(file[i..], 0).Ok? && j == i + VarU32(file[i..], 0).value.1
      {
        SpansMeans(file, i, j);
      }
      if VarU32(file[i..], 0).Ok? {
        var j := i + VarU32(file[i..], 0).value.1;
        assert Spans(file, i, j);
        ShortMeans(file, j);
      }
    }
  }

  /** Complete frames of short numbers lie end to end between the given offsets. */
  ghost predicate IsShortChain(file: seq<byte>, from: nat, at: seq<nat>) {
    && at != [] && at[0] == from
    && forall i :: 0 <= i < |at| - 1 ==> ShortLink(file, at[i], at[i + 1])
  }

  ghost predicate ShortLink(file: seq<byte>, a: nat, b: nat) {
    exists h :: IsShortHead(file, a, h) && h.payload + h.size == b <= |file|
  }

  ghost predicate NoShortLink(file: seq<byte>, a: nat) {
    forall b :: !ShortLink(file, a, b)
  }

  lemma ShortLinkMeans(file: seq<byte>, a: nat, b: nat)
    requires a <= |file|
    ensures ShortLink(file, a, b) <==> NarrowHeadAt(file, a).Ok? && End(NarrowHeadAt(file, a).value) == b <= |file|
  {
    hide IsShortHead, NarrowHeadAt;
    if h :| IsShortHead(file, a, h) && h.payload + h.size == b <= |file| {
      ShortHeadMeans(file, a, h);
    }
    if NarrowHeadAt(file, a).Ok? {
      ShortHeadMeans(file, a, NarrowHeadAt(file, a).value);
    }
  }

  /** How the scanner answers where the short frames, lined up from an offset on, stop at the last of the
      offsets. More of them than are allowed outweigh whatever stops them. */
  lemma {:induction false} ScanMeans(file: seq<byte>, from: nat, at: seq<nat>, messages: nat, max: nat)
    requires IsShortChain(file, from, at) && from <= |file| && NoShortLink(file, at[|at| - 1])
    requires messages <= max
    ensures var r, last, n := EnvelopeScan(file, from, messages, max), at[|at| - 1], messages + |at| - 1;
            && last <= |file|
            && if n > max then r == Err(TooManyMessages)
               else if last == |file| then r == Ok(n)
               else (r == Err(PayloadTooLong) <==> exists h :: IsShortHead(file, last, h) && h.payload + h.size > |file|)
                    && (forall e :: r == Err(BadNumber(e)) <==> IsBadHead(file, last, e))
                    && r.Err? && !r.error.TooManyMessages?
    decreases |at|
  {
    hide IsShortHead, IsBadHead, NarrowHeadAt, ShortLink;
    if |at| == 1 {
      StopMeans(file, from);
    } else {
      ShortLinkMeans(file, from, at[1]);
      var rest := at[1..];
      assert rest[|rest| - 1] == at[|at| - 1];
      forall i | 0 <= i < |rest| - 1
        ensures ShortLink(file, rest[i], rest[i + 1])
      {
        assert ShortLink(file, at[i + 1], at[i + 1 + 1]);
      }
      if messages < max {
        ScanMeans(file, at[1], rest, messages + 1, max);
      } else {
        ChainStays(file, at[1], rest);
      }
    }
  }

  lemma {:induction false} ChainStays(file: seq<byte>, from: nat, at: seq<nat>)
    requires IsShortChain(file, from, at) && from <= |file|
    ensures at[|at| - 1] <= |file|
  {
    if |at| > 1 {
      assert ShortLink(file, at[|at| - 2], at[|at| - 2 + 1]);
    }
  }

  lemma StopMeans(file: seq<byte>, offset: nat)
    requires offset <= |file| && NoShortLink(file, offset)
    ensures forall e :: NarrowHeadAt(file, offset) == Err(e) <==> IsBadHead(file, offset, e)
    ensures NarrowHeadAt(file, offset).Ok? ==> End(NarrowHeadAt(file, offset).value) > |file|
    ensures NarrowHeadAt(file, offset).Ok? <==> exists h :: IsShortHead(file, offset, h) && h.payload + h.size > |file|
  {
    hide IsShortHead, IsBadHead, NarrowHeadAt, ShortLink;
    forall e
      ensures NarrowHeadAt(file, offset) == Err(e) <==> IsBadHead(file, offset, e)
    {
      BadHeadMeans(file, offset, e);
    }
    if NarrowHeadAt(file, offset).Ok? {
      var h := NarrowHeadAt(file, offset).value;
      ShortHeadMeans(file, offset, h);
      ShortLinkMeans(file, offset, End(h));
    }
    if h :| IsShortHead(file, offset, h) && h.payload + h.size > |file| {
      ShortHeadMeans(file, offset, h);
    }
  }

  // --- the staging file -----------------------------------------------------------------------------

  /** A write puts its bytes where the handle is, leaves all others, and fills a gap with zeros. */
  lemma WrittenMeans(s: Staging, data: seq<byte>, k: nat)
    requires k < |Written(s, data).content|
    ensures Written(s, data).content[k] ==
            if s.position <= k < s.position + |data| then data[k - s.position]
            else if k < |s.content| then s.content[k]
            else 0
  {
  }
}

/** A demo file is a 16-byte header and a chain of frames, each three base-128 numbers and a
    payload. Two scanners walk the chain independently; a repair cuts an incomplete tail off. */
module DemoEnvelope {
  import opened Bytes
  import opened Results

  const HEADER := 16
  const MAGIC: seq<byte> := [80, 66, 68, 69, 77, 83, 50, 0]  // PBDEMS2 and a zero
  const MAXIMUM_BYTES := 0x8000_0000
  const FILE_INFO := 2
  const COMPRESSED := 64

  // --- base-128 numbers, as both scanners read them --------------------------------------

  /** The value and length of a number of at most n bytes at the front, if one ends there. */
  function Varint(s: seq<byte>, n: nat): (r: Option<(nat, nat)>)
    ensures r.Some? ==> 1 <= r.value.1 <= n && r.value.1 <= |s|
  {
    if n == 0 || s == [] then None
    else if s[0] < 0x80 then Some((s[0], 1))
    else
      var (value, length) :- Varint(s[1..], n - 1);
      Some((s[0] - 0x80 + 0x80 * value, length + 1))
  }

  /** A number whose first i groups are value, continued by the groups at the front of s. */
  function Continued(value: nat, i: nat, s: seq<byte>, n: nat): Option<(nat, nat)> {
    var (high, length) :- Varint(s, n);
    Some((value + Pow128(i) * high, i + length))
  }

  lemma ContinueOne(value: nat, i: nat, s: seq<byte>, n: nat)
    requires n > 0 && s != [] && s[0] >= 0x80
    ensures Continued(value, i, s, n) == Continued(value + Pow128(i) * (s[0] - 0x80), i + 1, s[1..], n - 1)
  {
    var p := Pow128(i);
    if Varint(s[1..], n - 1).Some? {
      var (high, length) := Varint(s[1..], n - 1).value;
      assert Pow128(i + 1) == 0x80 * p;
      Distribute(p, s[0] - 0x80, high);
    }
  }

  lemma Distribute(p: nat, a: nat, b: nat)
    ensures p * (a + 0x80 * b) == p * a + (0x80 * p) * b
  {
  }

  lemma ContinueLast(value: nat, i: nat, s: seq<byte>, n: nat)
    requires n > 0 && s != [] && s[0] < 0x80
    ensures Continued(value, i, s, n) == Some((value + Pow128(i) * s[0], i + 1))
  {
  }

  /** Both scanners undo the shortest encoding. */
  lemma {:induction false} VarintInverts(v: nat, rest: seq<byte>, n: nat)
    requires |VarBytes(v)| <= n
    ensures Varint(VarBytes(v) + rest, n) == Some((v, |VarBytes(v)|))
  {
    if v >= 0x80 {
      VarintInverts(v / 0x80, rest, n - 1);
      assert (VarBytes(v) + rest)[1..] == VarBytes(v / 0x80) + rest;
    }
  }

  lemma {:induction false} VarintBounded(s: seq<byte>, n: nat)
    requires Varint(s, n).Some?
    ensures Varint(s, n).value.0 < Pow128(n)
  {
    if s[0] >= 0x80 {
      VarintBounded(s[1..], n - 1);
    }
  }

  /** What is read does not depend on what follows, and a number cut short is not read. */
  lemma {:induction false} VarintIsLocal(s: seq<byte>, k: nat, n: nat)
    requires k <= |s|
    ensures Varint(s[..k], n) == if Varint(s, n).Some? && Varint(s, n).value.1 <= k then Varint(s, n) else None
  {
    if n > 0 && k > 0 && s[0] >= 0x80 {
      VarintIsLocal(s[1..], k - 1, n - 1);
      assert s[..k][1..] == s[1..][..k - 1];
    }
  }

  /** The five-byte number at offset i of a file. */
  method ReadVarint(file: seq<byte>, offset: nat) returns (r: Option<(nat, nat)>)
    requires offset <= |file|
    ensures r == Varint(file[offset..], 5)
  {
    hide Varint, Continued, Pow128;
    var remaining := |file| - offset;
    var value: nat := 0;
    ghost var s := file[offset..];
    assert Continued(0, 0, s, 5) == Varint(s, 5) by { ContinuedFromNothing(s, 5); }
    for index := 0 to 5
      invariant index <= |s| && Continued(value, index, s[index..], 5 - index) == Varint(s, 5)
    {
      if index >= remaining {
        assert s[index..] == [];
        NothingToContinue(value, index, 5 - index);
        return None;
      }
      var b := file[offset + index];
      assert b == s[index..][0] && s[index..][1..] == s[index + 1..];
      if b < 0x80 {
        ContinueLast(value, index, s[index..], 5 - index);
      } else {
        ContinueOne(value, index, s[index..], 5 - index);
      }
      value := value + Pow128(index) * (b % 0x80);
      if b < 0x80 {
        return Some((value, index + 1));
      }
    }
    NoBytesAllowed(value, 5, s[5..]);
    return None;
  }

  lemma ContinuedFromNothing(s: seq<byte>, n: nat)
    ensures Continued(0, 0, s, n) == Varint(s, n)
  {
  }

  lemma NothingToContinue(value: nat, i: nat, n: nat)
    ensures Continued(value, i, [], n) == None
  {
  }

  lemma NoBytesAllowed(value: nat, i: nat, s: seq<byte>)
    ensures Continued(value, i, s, 0) == None
  {
  }

  // --- numbers below 2^32, as the rewriter reads them ------------------------------------------

  datatype VarError = Truncated | Overflow | Unterminated

  /** The number at the front, of which group groups were read before. */
  function VarU32(s: seq<byte>, group: nat): (r: Result<(nat, nat), VarError>)
    requires group <= 4
    ensures r.Ok? ==> 1 <= r.value.1 <= |s|
    decreases 4 - group
  {
    if s == [] then Err(Truncated)
    else if group == 4 && s[0] >= 0x10 then Err(Overflow)
    else if s[0] < 0x80 then Ok((s[0], 1))
    else
      var (value, length) :- VarU32(s[1..], group + 1);
      Ok((s[0] - 0x80 + 0x80 * value, length + 1))
  }

  /** The two readers agree, except that this one wants the value below 2^32. */
  lemma {:induction false} ReadersAgree(s: seq<byte>, group: nat)
    requires group <= 4
    ensures VarU32(s, group).Ok? <==>
      (Varint(s, 5 - group).Some? && Varint(s, 5 - group).value.0 < 0x10 * Pow128(4 - group))
    ensures VarU32(s, group).Ok? ==> Some(VarU32(s, group).value) == Varint(s, 5 - group)
    decreases 4 - group
  {
    if s != [] && group < 4 && s[0] >= 0x80 {
      ReadersAgree(s[1..], group + 1);
      assert Pow128(4 - group) == 0x80 * Pow128(3 - group);
    } else if s != [] && group == 4 {
      assert Varint(s[1..], 0) == None;
      assert Pow128(0) == 1;
    }
  }

  lemma TwoToThe32()
    ensures 0x10 * Pow128(4) == 0x1_0000_0000
  {
    assert Pow128(4) == 128 * Pow128(3) && Pow128(3) == 128 * Pow128(2) && Pow128(2) == 128 * Pow128(1)
        && Pow128(1) == 128 * Pow128(0);
  }

  /** Every 32-bit value, in its shortest form of at most five bytes, is read back. */
  lemma VarU32Inverts(v: u32, rest: seq<byte>)
    ensures |VarBytes(v)| <= 5
    ensures VarU32(VarBytes(v) + rest, 0) == Ok((v, |VarBytes(v)|))
  {
    hide Varint, VarU32, VarBytes;
    TwoToThe32();
    assert Pow128(5) == 128 * Pow128(4);
    VarBytesLength(v, 5);
    VarintInverts(v, rest, 5);
    ReadersAgree(VarBytes(v) + rest, 0);
  }

  function Widened(value: nat, i: nat, r: Result<(nat, nat), VarError>): Result<(nat, nat), VarError> {
    if r.Err? then r else Ok((value + Pow128(i) * r.value.0, i + r.value.1))
  }

  lemma WidenOne(value: nat, group: nat, s: seq<byte>)
    requires group < 4 && s != [] && s[0] >= 0x80
    ensures Widened(value, group, VarU32(s, group))
         == Widened(value + Pow128(group) * (s[0] - 0x80), group + 1, VarU32(s[1..], group + 1))
  {
    var p := Pow128(group);
    var r := VarU32(s[1..], group + 1);
    if r.Ok? {
      assert Pow128(group + 1) == 0x80 * p;
      Distribute(p, s[0] - 0x80, r.value.0);
    }
  }

  // --- frames ------------------------------------------------------------------------------------

  datatype Head = Head(command: nat, tick: nat, size: nat, payload: nat)

  /** The three numbers at an offset, and where the payload starts. */
  function HeadAt(file: seq<byte>, offset: nat): (r: Option<Head>)
    requires offset <= |file|
    ensures r.Some? ==> offset < r.value.payload <= |file|
  {
    var (command, a) :- Varint(file[offset..], 5);
    var (tick, b) :- Varint(file[offset + a..], 5);
    var (size, c) :- Varint(file[offset + a + b..], 5);
    Some(Head(command, tick, size, offset + a + b + c))
  }

  function End(h: Head): nat {
    h.payload + h.size
  }

  predicate FrameFits(file: seq<byte>, offset: nat)
    requires offset <= |file|
  {
    HeadAt(file, offset).Some? && End(HeadAt(file, offset).value) <= |file|
  }

  /** The offsets at which frames begin, up to where no frame fits. */
  function Boundaries(file: seq<byte>, offset: nat): (r: seq<nat>)
    requires offset <= |file|
    ensures |r| > 0 && r[0] == offset
    ensures forall i :: 0 <= i < |r| ==> offset <= r[i] <= |file|
    ensures forall i :: 0 <= i < |r| ==> (i < |r| - 1 <==> FrameFits(file, r[i]))
    ensures forall i :: 0 <= i < |r| - 1 ==> FrameFits(file, r[i]) && r[i] < r[i + 1] == End(HeadAt(file, r[i]).value)
    decreases |file| - offset
  {
    if FrameFits(file, offset) then [offset] + Boundaries(file, End(HeadAt(file, offset).value)) else [offset]
  }

  /** Where the chain of complete frames stops. */
  function LastBoundary(file: seq<byte>): nat
    requires HEADER <= |file|
  {
    var r := Boundaries(file, HEADER);
    r[|r| - 1]
  }

  function Kind(command: nat): nat {
    if command / COMPRESSED % 2 == 1 then command - COMPRESSED else command
  }

  predicate IsFileInfo(file: seq<byte>, offset: nat, infoOffset: nat)
    requires offset <= |file|
  {
    offset == infoOffset && FrameFits(file, offset) && Kind(HeadAt(file, offset).value.command) == FILE_INFO
  }

  /** One of the complete frames is a file-info frame at the offset the header gives. */
  ghost predicate HasFileInfo(file: seq<byte>, offset: nat, infoOffset: nat)
    requires offset <= |file|
  {
    var r := Boundaries(file, offset);
    exists i :: 0 <= i < |r| && IsFileInfo(file, r[i], infoOffset)
  }

  // --- the repair ----------------------------------------------------------------------------------

  datatype RepairError = OutsideLimits | InvalidMagic | InfoOutsideFile | NotTerminal

  function InfoOffset(file: seq<byte>): nat
    requires HEADER <= |file|
  {
    Combine(Combine(file[8], file[9], 0x100), Combine(file[10], file[11], 0x100), 0x1_0000)
  }

  /** Nothing to repair, the bytes to keep, or why the file is not repaired. */
  ghost function Repaired(file: seq<byte>): Result<Option<seq<byte>>, RepairError> {
    if |file| > MAXIMUM_BYTES || |file| < HEADER then Err(OutsideLimits)
    else if file[..8] != MAGIC then Err(InvalidMagic)
    else if !(HEADER <= InfoOffset(file) < |file|) then Err(InfoOutsideFile)
    else
      var cut := LastBoundary(file);
      if cut == |file| then Ok(None)
      else if !HasFileInfo(file, HEADER, InfoOffset(file)) || cut <= InfoOffset(file) then Err(NotTerminal)
      else Ok(Some(file[..cut]))
  }

  function LastOf(r: seq<nat>): nat
    requires r != []
  {
    r[|r| - 1]
  }

  lemma IncompleteHere(file: seq<byte>, offset: nat, infoOffset: nat)
    requires offset <= |file| && !FrameFits(file, offset)
    ensures Boundaries(file, offset) == [offset] && !HasFileInfo(file, offset, infoOffset)
  {
  }

  lemma FirstBoundary(file: seq<byte>, offset: nat)
    requires offset <= |file| && FrameFits(file, offset)
    ensures Boundaries(file, offset) == [offset] + Boundaries(file, End(HeadAt(file, offset).value))
  {
    hide HeadAt;
  }

  lemma {:induction false} CompleteHere(file: seq<byte>, offset: nat, infoOffset: nat)
    requires offset <= |file| && FrameFits(file, offset)
    ensures var end := End(HeadAt(file, offset).value);
            && Boundaries(file, offset) == [offset] + Boundaries(file, end)
            && LastOf(Boundaries(file, offset)) == LastOf(Boundaries(file, end))
            && (HasFileInfo(file, offset, infoOffset) <==>
                  IsFileInfo(file, offset, infoOffset) || HasFileInfo(file, end, infoOffset))
  {
    hide HeadAt, IsFileInfo, Boundaries;
    var end := End(HeadAt(file, offset).value);
    var rest := Boundaries(file, end);
    var all := Boundaries(file, offset);
    FirstBoundary(file, offset);
    hide FrameFits;
    if i :| 0 <= i < |rest| && IsFileInfo(file, rest[i], infoOffset) {
      assert all[i + 1] == rest[i];
    }
    if i :| 0 <= i < |all| && IsFileInfo(file, all[i], infoOffset) {
      assert i > 0 ==> all[i] == rest[i - 1];
    }
    assert all[0] == offset;
  }

  lemma NoFrameAtTheEnd(file: seq<byte>)
    ensures !FrameFits(file, |file|)
  {
    assert file[|file|..] == [];
  }

  method ReadHead(file: seq<byte>, frameStart: nat) returns (h: Option<Head>)
    requires frameStart <= |file|
    ensures h == HeadAt(file, frameStart)
  {
    hide Varint;
    var offset := frameStart;
    var command := ReadVarint(file, offset);
    if command.None? { return None; }
    offset := offset + command.value.1;
    var tick := ReadVarint(file, offset);
    if tick.None? { return None; }
    offset := offset + tick.value.1;
    var size := ReadVarint(file, offset);
    if size.None? { return None; }
    return Some(Head(command.value.0, tick.value.0, size.value.0, offset + size.value.1));
  }

  /** The walk of the repair: whether the file-info frame was seen, and where a frame is cut. */
  method WalkFrames(file: seq<byte>, infoOffset: nat) returns (info: bool, tail: Option<nat>)
    requires HEADER <= |file|
    ensures info <==> HasFileInfo(file, HEADER, infoOffset)
    ensures tail == if LastBoundary(file) == |file| then None else Some(LastBoundary(file))
  {
    hide HeadAt, Boundaries, HasFileInfo;
    var offset := HEADER;
    info := false;
    while offset < |file|
      invariant HEADER <= offset <= |file|
      invariant HasFileInfo(file, HEADER, infoOffset) <==> info || HasFileInfo(file, offset, infoOffset)
      invariant LastOf(Boundaries(file, HEADER)) == LastOf(Boundaries(file, offset))
      decreases |file| - offset
    {
      var head := ReadHead(file, offset);
      if head.None? || End(head.value) > |file| {
        IncompleteHere(file, offset, infoOffset);
        return info, Some(offset);
      }
      CompleteHere(file, offset, infoOffset);
      if offset == infoOffset && Kind(head.value.command) == FILE_INFO {
        info := true;
      }
      offset := End(head.value);
    }
    NoFrameAtTheEnd(file);
    IncompleteHere(file, offset, infoOffset);
    return info, None;
  }

  const BUFFER := 0x1_0000

  /** The copy loop; a read returns at least one and at most as many bytes as asked for. */
  method CopyPrefix(file: seq<byte>, length: nat) returns (output: seq<byte>)
    requires length <= |file|
    ensures output == file[..length]
  {
    output := [];
    var copied := 0;
    while copied < length
      invariant copied <= length && output == file[..copied]
    {
      var remaining := length - copied;
      var limit := if remaining < BUFFER then remaining else BUFFER;
      var read: nat :| 1 <= read <= limit;
      assert file[..copied + read] == file[..copied] + file[copied..copied + read];
      output := output + file[copied..copied + read];
      copied := copied + read;
    }
  }

  method CreateTerminalTailRepairCopy(file: seq<byte>) returns (r: Result<Option<seq<byte>>, RepairError>)
    ensures r == Repaired(file)
  {
    hide Boundaries, HasFileInfo;
    if |file| > MAXIMUM_BYTES || |file| < HEADER {
      return Err(OutsideLimits);
    }
    if file[..8] != MAGIC {
      return Err(InvalidMagic);
    }
    var infoOffset := InfoOffset(file);
    if !(HEADER <= infoOffset < |file|) {
      return Err(InfoOutsideFile);
    }
    var info, tail := WalkFrames(file, infoOffset);
    if tail.None? {
      return Ok(None);
    }
    if !info || tail.value <= infoOffset {
      return Err(NotTerminal);
    }
    var output := CopyPrefix(file, tail.value);
    return Ok(Some(output));
  }

  lemma {:induction false} KeptIs(file: seq<byte>, kept: seq<byte>)
    requires Repaired(file) == Ok(Some(kept))
    ensures HEADER <= |file| && |kept| == LastBoundary(file) && kept == file[..|kept|]
    ensures InfoOffset(file) < |kept| < |file| && HasFileInfo(file, HEADER, InfoOffset(file))
  {
    hide Boundaries, HasFileInfo, InfoOffset;
  }

  /** What is kept is everything up to the one offset where the chain of complete frames from the
      header on stops, with the file-info frame among them; at the cut no frame fits. */
  lemma {:induction false} RepairIsExact(file: seq<byte>, kept: seq<byte>) returns (i: nat)
    requires Repaired(file) == Ok(Some(kept))
    ensures kept == file[..|kept|] && HEADER <= |kept| < |file| && !FrameFits(file, |kept|)
    ensures var r := Boundaries(file, HEADER);
            && r[|r| - 1] == |kept|
            && (forall b <- r :: b <= |kept|)
            && i < |r| - 1 && IsFileInfo(file, r[i], InfoOffset(file))
  {
    KeptIs(file, kept);
    hide HeadAt, FrameFits, Boundaries, Repaired, InfoOffset, IsFileInfo;
    var r := Boundaries(file, HEADER);
    BoundariesAscend(file, HEADER);
    i :| 0 <= i < |r| && IsFileInfo(file, r[i], InfoOffset(file));
    FileInfoIsThere(file, r[i], InfoOffset(file));
  }

  lemma FileInfoIsThere(file: seq<byte>, offset: nat, infoOffset: nat)
    requires offset <= |file| && IsFileInfo(file, offset, infoOffset)
    ensures offset == infoOffset && FrameFits(file, offset)
  {
  }

  lemma {:induction false} BoundariesAscend(file: seq<byte>, offset: nat)
    requires offset <= |file|
    ensures forall b <- Boundaries(file, offset) :: offset <= b <= LastOf(Boundaries(file, offset))
    decreases |file| - offset
  {
    hide HeadAt;
    if FrameFits(file, offset) {
      BoundariesAscend(file, End(HeadAt(file, offset).value));
    }
  }

  /** Cutting behind a number does not change it. */
  lemma HeadIsLocal(file: seq<byte>, offset: nat, k: nat)
    requires offset <= k <= |file| && HeadAt(file, offset).Some? && HeadAt(file, offset).value.payload <= k
    ensures HeadAt(file[..k], offset) == HeadAt(file, offset)
  {
    hide Varint;
    var cut := file[..k];
    var (command, a) := Varint(file[offset..], 5).value;
    assert cut[offset..] == file[offset..][..k - offset];
    VarintIsLocal(file[offset..], k - offset, 5);
    var (tick, b) := Varint(file[offset + a..], 5).value;
    assert cut[offset + a..] == file[offset + a..][..k - offset - a];
    VarintIsLocal(file[offset + a..], k - offset - a, 5);
    assert cut[offset + a + b..] == file[offset + a + b..][..k - offset - a - b];
    VarintIsLocal(file[offset + a + b..], k - offset - a - b, 5);
  }

  lemma {:induction false} BoundariesOfKept(file: seq<byte>, offset: nat, k: nat, infoOffset: nat)
    requires offset <= |file| && k == LastOf(Boundaries(file, offset))
    ensures offset <= k && Boundaries(file[..k], offset) == Boundaries(file, offset)
    ensures HasFileInfo(file[..k], offset, infoOffset) <==> HasFileInfo(file, offset, infoOffset)
    decreases |file| - offset
  {
    hide HeadAt, HasFileInfo;
    if FrameFits(file, offset) {
      var end := End(HeadAt(file, offset).value);
      CompleteHere(file, offset, infoOffset);
      BoundariesOfKept(file, end, k, infoOffset);
      HeadIsLocal(file, offset, k);
      CompleteHere(file[..k], offset, infoOffset);
    } else {
      IncompleteHere(file, offset, infoOffset);
      NoFrameAtTheEnd(file[..k]);
      IncompleteHere(file[..k], offset, infoOffset);
    }
  }

  /** Running the repair on its own output finds nothing to repair. */
  lemma {:induction false} RepairIsIdempotent(file: seq<byte>, kept: seq<byte>)
    requires Repaired(file) == Ok(Some(kept))
    ensures Repaired(kept) == Ok(None)
  {
    hide Boundaries, HasFileInfo, FrameFits;
    var k := LastBoundary(file);
    BoundariesOfKept(file, HEADER, k, InfoOffset(file));
    assert kept == file[..k] && kept[..8] == file[..8];
  }

  // --- the rewriter's scanner --------------------------------------------------------------------

  datatype ScanError = BadNumber(error: VarError) | PayloadTooLong | TooManyMessages

  /** The three numbers, each below 2^32. */
  function NarrowHeadAt(file: seq<byte>, offset: nat): (r: Result<Head, VarError>)
    requires offset <= |file|
    ensures r.Ok? ==> offset < r.value.payload <= |file|
  {
    var (command, a) :- VarU32(file[offset..], 0);
    var (tick, b) :- VarU32(file[offset + a..], 0);
    var (size, c) :- VarU32(file[offset + a + b..], 0);
    Ok(Head(command, tick, size, offset + a + b + c))
  }

  function EnvelopeScan(file: seq<byte>, offset: nat, messages: nat, maxMessages: nat): Result<nat, ScanError>
    requires offset <= |file|
    decreases |file| - offset
  {
    if offset == |file| then Ok(messages)
    else
      match NarrowHeadAt(file, offset)
      case Err(error) => Err(BadNumber(error))
      case Ok(head) =>
        if End(head) > |file| then Err(PayloadTooLong)
        else if messages + 1 > maxMessages then Err(TooManyMessages)
        else EnvelopeScan(file, End(head), messages + 1, maxMessages)
  }

  /** The file handle of the rewriter: its position moves as it reads. */
  class DemoFile {
    const bytes: seq<byte>
    var position: nat

    constructor (bytes: seq<byte>)
      ensures this.bytes == bytes && position == 0
    {
      this.bytes, position := bytes, 0;
    }

    method ReadVarU32() returns (r: Result<u32, VarError>)
      requires position <= |bytes|
      modifies this
      ensures old(position) <= position <= |bytes|
      ensures var read := VarU32(bytes[old(position)..], 0);
              if r.Ok? then read == Ok((r.value, position - old(position))) else read == Err(r.error)
    {
      hide VarU32, Widened, Pow128;
      r := Err(Unterminated);
      var value: nat := 0;
      ghost var s := bytes[position..];
      ghost var start := position;
      Unwidened(s);
      var group := 0;
      while group <= 4
        invariant group <= 4 && position == start + group && group <= |s|
        invariant Widened(value, group, VarU32(s[group..], group)) == VarU32(s, 0)
        invariant 0 <= value < Pow128(group)
        decreases 4 - group
      {
        if position >= |bytes| {
          assert s[group..] == [];
          StopsHere(value, [], group);
          return Err(Truncated);
        }
        var b := bytes[position];
        assert b == s[group..][0] && s[group..][1..] == s[group + 1..];
        position := position + 1;
        StopsHere(value, s[group..], group);
        if group == 4 && b >= 0x10 {
          return Err(Overflow);
        }
        if b < 0x80 {
          StaysNarrow(value, group, b);
          return Ok(value + Pow128(group) * b);
        }
        WidenOne(value, group, s[group..]);
        StaysBelow(value, group, b - 0x80);
        value := value + Pow128(group) * (b - 0x80);
        group := group + 1;
      }
      // Not reached: a fifth byte that leaves the number unterminated overflows first.
      assert false;
    }

    /** Walks the frames and counts them. */
    method ScanEnvelope(maxMessages: nat) returns (r: Result<nat, ScanError>)
      requires HEADER <= |bytes|
      modifies this
      ensures r == EnvelopeScan(bytes, HEADER, 0, maxMessages)
    {
      hide VarU32;
      position := HEADER;
      var messages := 0;
      while position < |bytes|
        invariant HEADER <= position <= |bytes|
        invariant EnvelopeScan(bytes, HEADER, 0, maxMessages) == EnvelopeScan(bytes, position, messages, maxMessages)
        decreases |bytes| - position
      {
        ghost var start := position;
        var command := ReadVarU32();
        if command.Err? { return Err(BadNumber(command.error)); }
        var tick := ReadVarU32();
        if tick.Err? { return Err(BadNumber(tick.error)); }
        var size := ReadVarU32();
        if size.Err? { return Err(BadNumber(size.error)); }
        assert NarrowHeadAt(bytes, start) == Ok(Head(command.value, tick.value, size.value, position));
        var payloadEnd := position + size.value;
        if payloadEnd > |bytes| { return Err(PayloadTooLong); }
        position := payloadEnd;
        messages := messages + 1;
        if messages > maxMessages { return Err(TooManyMessages); }
      }
      return Ok(messages);
    }
  }

  lemma Unwidened(s: seq<byte>)
    ensures s[0..] == s && Widened(0, 0, VarU32(s, 0)) == VarU32(s, 0) && Pow128(0) == 1
  {
    assert s[0..] == s;
  }

  lemma StopsHere(value: nat, s: seq<byte>, group: nat)
    requires group <= 4
    ensures var r := Widened(value, group, VarU32(s, group));
            && (s == [] ==> r == Err(Truncated))
            && (s != [] && group == 4 && s[0] >= 0x10 ==> r == Err(Overflow))
            && (s != [] && !(group == 4 && s[0] >= 0x10) && s[0] < 0x80 ==> r == Ok((value + Pow128(group) * s[0], group + 1)))
  {
  }

  lemma StaysBelow(value: nat, group: nat, digit: nat)
    requires value < Pow128(group) && digit < 0x80
    ensures value + Pow128(group) * digit < Pow128(group + 1)
  {
    assert Pow128(group + 1) == 0x80 * Pow128(group);
    assert Pow128(group) * digit <= Pow128(group) * 0x7F;
  }

  lemma StaysNarrow(value: nat, group: nat, digit: nat)
    requires value < Pow128(group) && group <= 4 && digit < 0x80 && (group == 4 ==> digit < 0x10)
    ensures value + Pow128(group) * digit < 0x1_0000_0000
  {
    TwoToThe32();
    if group < 4 {
      StaysBelow(value, group, digit);
      Pow128Grows(group + 1, 4);
    } else {
      assert Pow128(4) * digit <= Pow128(4) * 0xF;
    }
  }

  lemma {:induction false} Pow128Grows(a: nat, b: nat)
    requires a <= b
    ensures Pow128(a) <= Pow128(b)
  {
    if a < b {
      Pow128Grows(a, b - 1);
    }
  }

  // --- the two scanners agree ------------------------------------------------------------------------

  predicate Narrow(h: Head) {
    h.command < 0x1_0000_0000 && h.tick < 0x1_0000_0000 && h.size < 0x1_0000_0000
  }

  lemma HeadsAgree(file: seq<byte>, offset: nat)
    requires offset <= |file|
    ensures NarrowHeadAt(file, offset).Ok? <==> (HeadAt(file, offset).Some? && Narrow(HeadAt(file, offset).value))
    ensures NarrowHeadAt(file, offset).Ok? ==> Some(NarrowHeadAt(file, offset).value) == HeadAt(file, offset)
  {
    hide Varint, VarU32;
    TwoToThe32();
    ReadersAgree(file[offset..], 0);
    if Varint(file[offset..], 5).Some? {
      var a := Varint(file[offset..], 5).value.1;
      ReadersAgree(file[offset + a..], 0);
      if Varint(file[offset + a..], 5).Some? {
        var b := Varint(file[offset + a..], 5).value.1;
        ReadersAgree(file[offset + a + b..], 0);
      }
    }
  }

  ghost predicate AllNarrow(file: seq<byte>, offset: nat)
    requires offset <= |file|
  {
    var r := Boundaries(file, offset);
    forall i :: 0 <= i < |r| - 1 ==> Narrow(HeadAt(file, r[i]).value)
  }

  /** The rewriter accepts a file of n messages exactly when the repair's walk, through the same
      boundaries, reaches the end of the file in n frames, none of whose numbers exceeds 32 bits. */
  lemma {:induction false} ScannersAgree(file: seq<byte>, offset: nat, messages: nat, maxMessages: nat, n: nat)
    requires offset <= |file| && messages <= maxMessages
    ensures var r := Boundaries(file, offset);
            EnvelopeScan(file, offset, messages, maxMessages) == Ok(n) <==>
              (LastOf(r) == |file| && AllNarrow(file, offset) && n == messages + |r| - 1 && n <= maxMessages)
    decreases |file| - offset
  {
    hide HeadAt, NarrowHeadAt, Narrow, Boundaries, AllNarrow, HasFileInfo;
    if offset == |file| {
      NoFrameAtTheEnd(file);
      AloneIsNarrow(file, offset);
    } else {
      HeadsAgree(file, offset);
      if FrameFits(file, offset) {
        var end := End(HeadAt(file, offset).value);
        CompleteHere(file, offset, 0);
        AllNarrowStep(file, offset);
        if messages + 1 <= maxMessages {
          ScannersAgree(file, end, messages + 1, maxMessages, n);
        }
      } else {
        AloneIsNarrow(file, offset);
      }
    }
  }

  lemma {:induction false} AloneIsNarrow(file: seq<byte>, offset: nat)
    requires offset <= |file| && !FrameFits(file, offset)
    ensures Boundaries(file, offset) == [offset] && AllNarrow(file, offset)
  {
  }

  lemma {:induction false} AllNarrowStep(file: seq<byte>, offset: nat)
    requires offset <= |file| && FrameFits(file, offset)
    ensures var end := End(HeadAt(file, offset).value);
            AllNarrow(file, offset) <==> (Narrow(HeadAt(file, offset).value) && AllNarrow(file, end))
  {
    hide HeadAt, Narrow;
    var end := End(HeadAt(file, offset).value);
    CompleteHere(file, offset, 0);
    var r, rest := Boundaries(file, offset), Boundaries(file, end);
    assert forall i :: 0 < i < |r| ==> r[i] == rest[i - 1];
    if AllNarrow(file, offset) {
      forall i | 0 <= i < |rest| - 1
        ensures Narrow(HeadAt(file, rest[i]).value)
      {
        assert r[i + 1] == rest[i];
      }
    }
  }

  /** So what the rewriter accepts needs no repair, if its header is in order. */
  lemma {:induction false} AcceptedNeedsNoRepair(file: seq<byte>, maxMessages: nat)
    requires HEADER <= |file| <= MAXIMUM_BYTES && file[..8] == MAGIC && HEADER <= InfoOffset(file) < |file|
    requires EnvelopeScan(file, HEADER, 0, maxMessages).Ok?
    ensures Repaired(file) == Ok(None)
  {
    hide Boundaries, HasFileInfo, AllNarrow;
    ScannersAgree(file, HEADER, 0, maxMessages, EnvelopeScan(file, HEADER, 0, maxMessages).value);
  }

  // --- the bounded output --------------------------------------------------------------------------

  /** The staging file: its bytes and the position of its handle. */
  datatype Staging = Staging(content: seq<byte>, position: nat)

  function Zeros(n: nat): (r: seq<byte>)
    ensures |r| == n
  {
    seq(n, _ => 0)
  }

  /** Bytes written behind the end leave a hole of zeros. */
  function Written(s: Staging, data: seq<byte>): (r: Staging)
    ensures |r.content| == if data == [] || s.position + |data| <= |s.content| then |s.content| else s.position + |data|
    ensures r.position == s.position + |data|
  {
    if data == [] then s
    else
      var padded := if s.position <= |s.content| then s.content else s.content + Zeros(s.position - |s.content|);
      var end := s.position + |data|;
      Staging(padded[..s.position] + data + (if end <= |padded| then padded[end..] else []), end)
  }

  /** What the backend asks for; the file takes taken of the bytes, and target is where the
      requested position resolves to, if anywhere. */
  datatype Request = Write(data: seq<byte>, taken: nat) | Seek(target: Option<nat>)

  predicate WellFormed(q: Request) {
    q.Write? ==> q.taken <= |q.data|
  }

  datatype WriterState = WriterState(inner: Staging, position: nat, limitExceeded: bool)

  function Unbounded(s: Staging, q: Request): Staging
    requires WellFormed(q)
  {
    match q
    case Write(data, taken) => Written(s, data[..taken])
    case Seek(target) => if target.Some? then s.(position := target.value) else s
  }

  function Bounded(w: WriterState, q: Request, max: nat): WriterState
    requires WellFormed(q)
  {
    match q
    case Write(data, taken) =>
      if w.position + |data| > max then w.(limitExceeded := true)
      else w.(inner := Unbounded(w.inner, q), position := w.position + taken)
    case Seek(target) =>
      if target.None? then w
      else
        var moved := w.(inner := Unbounded(w.inner, q));
        if target.value > max then moved.(limitExceeded := true) else moved.(position := target.value)
  }

  class BoundedWriter {
    const maxBytes: nat
    var inner: Staging
    var position: nat
    var limitExceeded: bool

    ghost function Now(): WriterState
      reads this
    {
      WriterState(inner, position, limitExceeded)
    }

    constructor (inner: Staging, maxBytes: nat)
      ensures this.maxBytes == maxBytes && Now() == WriterState(inner, 0, false)
    {
      this.inner, this.maxBytes, position, limitExceeded := inner, maxBytes, 0, false;
    }

    method Write(buffer: seq<byte>, taken: nat) returns (written: Option<nat>)
      requires taken <= |buffer|
      modifies this
      ensures Now() == Bounded(old(Now()), Request.Write(buffer, taken), maxBytes)
      ensures written == if old(position) + |buffer| > maxBytes then None else Some(taken)
    {
      var requestedEnd := position + |buffer|;
      if requestedEnd > maxBytes {
        limitExceeded := true;
        return None;
      }
      inner := Written(inner, buffer[..taken]);
      position := position + taken;
      return Some(taken);
    }

    method Seek(target: Option<nat>) returns (r: Option<nat>)
      modifies this
      ensures Now() == Bounded(old(Now()), Request.Seek(target), maxBytes)
      ensures r.Some? <==> target.Some? && target.value <= maxBytes
    {
      if target.None? {
        return None;
      }
      var next := target.value;
      inner := inner.(position := next);
      if next > maxBytes {
        limitExceeded := true;
        return None;
      }
      position := next;
      return Some(next);
    }
  }

  function RunUnbounded(s: Staging, requests: seq<Request>): Staging
    requires forall q <- requests :: WellFormed(q)
    decreases |requests|
  {
    if requests == [] then s else RunUnbounded(Unbounded(s, requests[0]), requests[1..])
  }

  function RunBounded(w: WriterState, requests: seq<Request>, max: nat): WriterState
    requires forall q <- requests :: WellFormed(q)
    decreases |requests|
  {
    if requests == [] then w else RunBounded(Bounded(w, requests[0], max), requests[1..], max)
  }

  /** Some write or seek goes beyond the bound, measured from where the accepted requests lead. */
  predicate Refuses(position: nat, requests: seq<Request>, max: nat)
    decreases |requests|
  {
    requests != [] &&
    match requests[0]
    case Write(data, taken) =>
      position + |data| > max || Refuses(position + taken, requests[1..], max)
    case Seek(target) =>
      if target.None? then Refuses(position, requests[1..], max)
      else target.value > max || Refuses(target.value, requests[1..], max)
  }

  /** The writer's flag tells whether a request was refused. */
  lemma {:induction false} FlagIsRefusal(w: WriterState, requests: seq<Request>, max: nat)
    requires forall q <- requests :: WellFormed(q)
    ensures RunBounded(w, requests, max).limitExceeded <==> w.limitExceeded || Refuses(w.position, requests, max)
    decreases |requests|
  {
    hide Written;
    if requests != [] {
      FlagIsRefusal(Bounded(w, requests[0], max), requests[1..], max);
      if w.limitExceeded || Bounded(w, requests[0], max).limitExceeded {
        ExceededStays(Bounded(w, requests[0], max), requests[1..], max);
      }
    }
  }

  lemma {:induction false} ExceededStays(w: WriterState, requests: seq<Request>, max: nat)
    requires (forall q <- requests :: WellFormed(q)) && w.limitExceeded
    ensures RunBounded(w, requests, max).limitExceeded
    decreases |requests|
  {
    if requests != [] {
      ExceededStays(Bounded(w, requests[0], max), requests[1..], max);
    }
  }

  /** If no request is refused, every one goes through as it would without a bound, and the output
      fits the bound. */
  lemma {:induction false} BoundedIsTransparent(w: WriterState, requests: seq<Request>, max: nat)
    requires forall q <- requests :: WellFormed(q)
    requires w.position == w.inner.position <= max && |w.inner.content| <= max
    requires !Refuses(w.position, requests, max)
    ensures RunBounded(w, requests, max).inner == RunUnbounded(w.inner, requests)
    ensures |RunUnbounded(w.inner, requests).content| <= max
    decreases |requests|
  {
    hide Written;
    if requests != [] {
      BoundedIsTransparent(Bounded(w, requests[0], max), requests[1..], max);
    }
  }

  /** A refused seek moves the file's handle but not the writer's position. Until a seek is accepted
      again the position is lost, and a write measured from the wrong place goes behind the bound.
      Some admitted write takes a byte while the position is lost. */
  predicate Breaks(position: nat, lost: bool, requests: seq<Request>, max: nat)
    decreases |requests|
  {
    requests != [] &&
    match requests[0]
    case Write(data, taken) =>
      if position + |data| > max then Breaks(position, lost, requests[1..], max)
      else (lost && taken > 0) || Breaks(position + taken, lost, requests[1..], max)
    case Seek(target) =>
      if target.None? then Breaks(position, lost, requests[1..], max)
      else if target.value > max then Breaks(position, true, requests[1..], max)
      else Breaks(target.value, false, requests[1..], max)
  }

  /** What holds between the writer and its file. */
  predicate Tracks(w: WriterState, lost: bool, max: nat) {
    w.position <= max && if lost then w.inner.position > max else w.inner.position == w.position
  }

  lemma {:induction false} ContentStays(w: WriterState, requests: seq<Request>, max: nat)
    requires forall q <- requests :: WellFormed(q)
    ensures |RunBounded(w, requests, max).inner.content| >= |w.inner.content|
    decreases |requests|
  {
    hide Written;
    if requests != [] {
      ContentStays(Bounded(w, requests[0], max), requests[1..], max);
    }
  }

  /** The output fits the bound exactly if no admitted write takes a byte after a refused seek, with
      no accepted seek in between. */
  lemma {:induction false} FitsIff(w: WriterState, lost: bool, requests: seq<Request>, max: nat)
    requires forall q <- requests :: WellFormed(q)
    requires Tracks(w, lost, max) && |w.inner.content| <= max
    ensures |RunBounded(w, requests, max).inner.content| <= max <==> !Breaks(w.position, lost, requests, max)
    decreases |requests|
  {
    hide Written;
    if requests != [] {
      var next := Bounded(w, requests[0], max);
      match requests[0]
      case Write(data, taken) =>
        if w.position + |data| <= max && lost && taken > 0 {
          ContentStays(next, requests[1..], max);
        } else {
          FitsIff(next, lost, requests[1..], max);
        }
      case Seek(target) =>
        FitsIff(next, if target.None? then lost else target.value > max, requests[1..], max);
    }
  }

  /** A new writer on an empty file. */
  lemma OutputFitsIff(requests: seq<Request>, max: nat)
    requires forall q <- requests :: WellFormed(q)
    ensures var w := RunBounded(WriterState(Staging([], 0), 0, false), requests, max);
            && (|w.inner.content| <= max <==> !Breaks(0, false, requests, max))
            && (Breaks(0, false, requests, max) ==> w.limitExceeded)
  {
    var w := WriterState(Staging([], 0), 0, false);
    FitsIff(w, false, requests, max);
    FlagIsRefusal(w, requests, max);
    if !Refuses(0, requests, max) {
      BoundedIsTransparent(w, requests, max);
    }
  }

  /** One seek and one write that break the bound. */
  lemma {:induction false} AfterARefusedSeek(max: nat)
    requires max > 0
    ensures var w := RunBounded(WriterState(Staging([], 0), 0, false), [Seek(Some(max + 1)), Write([7], 1)], max);
            w.limitExceeded && |w.inner.content| == max + 2
  {
    var w0 := WriterState(Staging([], 0), 0, false);
    var w1 := Bounded(w0, Seek(Some(max + 1)), max);
    var w2 := Bounded(w1, Write([7], 1), max);
    var requests := [Seek(Some(max + 1)), Write([7], 1)];
    assert requests[1..] == [Write([7], 1)] && requests[1..][1..] == [];
    assert RunBounded(w2, [], max) == w2;
  }
}

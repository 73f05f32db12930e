// The write-ahead log: records cut into checksummed fragments that never cross a block
// boundary, and the reader that puts them together again, from a whole file or a cut one.

module Logs {
  import opened Keys
  import opened Coding

  const BLOCK_SIZE: nat := 32768
  const HEADER_SIZE: nat := 7

  const ZERO_TYPE: byte := 0
  const FULL_TYPE: byte := 1
  const FIRST_TYPE: byte := 2
  const MIDDLE_TYPE: byte := 3
  const LAST_TYPE: byte := 4

  // ----- checksums -----

  /** The checksum function, the same for writer and reader. */
  type Checksum = Bytes -> u32

  const MASK_DELTA: u32 := 0xa282ead8

  /** Rotated right by 15 bits, plus a constant. */
  function Mask(crc: u32): u32 {
    (crc / 0x8000 + crc % 0x8000 * 0x2_0000 + MASK_DELTA) % TWO_32
  }

  function Unmask(masked: u32): u32 {
    var rot := (masked - MASK_DELTA) % TWO_32;
    rot / 0x2_0000 + rot % 0x2_0000 * 0x8000
  }

  lemma {:induction false} UnmaskMask(crc: u32)
    ensures Unmask(Mask(crc)) == crc
  {
    var rot := crc / 0x8000 + crc % 0x8000 * 0x2_0000;
    assert (Mask(crc) - MASK_DELTA) % TWO_32 == rot;
    assert rot / 0x2_0000 == crc % 0x8000 && rot % 0x2_0000 == crc / 0x8000;
  }

  // ----- the bytes of a record -----

  function Physical(crc: Checksum, typ: byte, data: Bytes): (r: Bytes)
    requires |data| < 0x1_0000
    ensures |r| == HEADER_SIZE + |data|
  {
    Fixed(Mask(crc([typ] + data)), 4) + [|data| % 256, |data| / 256, typ] + data
  }

  /** Zeros that fill up a block with no room for a header. */
  function Trailer(pos: nat): (n: nat)
    ensures n < HEADER_SIZE
  {
    var leftover := BLOCK_SIZE - pos % BLOCK_SIZE;
    if leftover < HEADER_SIZE then leftover else 0
  }

  lemma {:induction false} TrailerFits(pos: nat)
    ensures pos % BLOCK_SIZE + Trailer(pos) <= BLOCK_SIZE
    ensures Trailer(pos) > 0 ==> (pos + Trailer(pos)) % BLOCK_SIZE == 0
    ensures (pos + Trailer(pos)) % BLOCK_SIZE + HEADER_SIZE <= BLOCK_SIZE
  {
  }

  /** How much of `left` payload bytes the block that a record continues in at `pos` takes. */
  function FragmentLength(pos: nat, left: nat): (n: nat)
    ensures n <= left && n <= BLOCK_SIZE - HEADER_SIZE
  {
    TrailerFits(pos);
    var start := pos + Trailer(pos);
    var avail := BLOCK_SIZE - start % BLOCK_SIZE - HEADER_SIZE;
    if left < avail then left else avail
  }

  /** A fragment that does not end its record ends its block, and none crosses one. */
  lemma {:induction false} FragmentFits(pos: nat, left: nat)
    ensures var n := FragmentLength(pos, left);
            && (n == left || (pos + Trailer(pos) + HEADER_SIZE + n) % BLOCK_SIZE == 0)
            && (pos + Trailer(pos)) % BLOCK_SIZE + HEADER_SIZE + n <= BLOCK_SIZE
  {
  }

  function FragmentType(begin: bool, end: bool): byte {
    if begin && end then FULL_TYPE else if begin then FIRST_TYPE else if end then LAST_TYPE else MIDDLE_TYPE
  }

  /** Bytes to the end of the block: what decreases when a fragment comes out empty. */
  function ToBlockEnd(pos: nat): nat {
    (BLOCK_SIZE - pos % BLOCK_SIZE) % BLOCK_SIZE
  }

  lemma {:induction false} EmptyFragmentEndsBlock(pos: nat, left: nat)
    ensures FragmentLength(pos, left) == 0 < left ==>
              ToBlockEnd(pos + (Trailer(pos) + HEADER_SIZE)) < ToBlockEnd(pos)
  {
  }

  /** The next fragment of a record with `left` still to be written, its trailer first. */
  function FragmentBytes(crc: Checksum, pos: nat, left: Bytes, begin: bool): (r: Bytes)
    ensures |r| == Trailer(pos) + HEADER_SIZE + FragmentLength(pos, |left|)
  {
    var n := FragmentLength(pos, |left|);
    Zeros(Trailer(pos)) + Physical(crc, FragmentType(begin, n == |left|), left[..n])
  }

  /** The bytes that put `payload` in a file of `pos` bytes. */
  function Emission(crc: Checksum, pos: nat, payload: Bytes, begin: bool): (r: Bytes)
    decreases |payload|, ToBlockEnd(pos)
  {
    var n, first := FragmentLength(pos, |payload|), FragmentBytes(crc, pos, payload, begin);
    EmptyFragmentEndsBlock(pos, |payload|);
    if n == |payload| then first
    else first + Emission(crc, pos + |first|, payload[n..], false)
  }

  function Log(crc: Checksum, pos: nat, records: seq<Bytes>): Bytes
    decreases |records|
  {
    if records == [] then []
    else
      var first := Emission(crc, pos, records[0], true);
      first + Log(crc, pos + |first|, records[1..])
  }

  lemma {:induction false} EmissionStep(crc: Checksum, pos: nat, left: Bytes, begin: bool)
    ensures var n, first := FragmentLength(pos, |left|), FragmentBytes(crc, pos, left, begin);
            Emission(crc, pos, left, begin)
            == first + if n == |left| then [] else Emission(crc, pos + |first|, left[n..], false)
  {
  }

  // ----- the writer -----

  class Writer {
    const crc: Checksum
    var dest: Bytes
    var blockOffset: nat

    /** The offset in the block follows the length of the file; a full block may still be pending. */
    ghost predicate Valid()
      reads this
    {
      blockOffset <= BLOCK_SIZE && blockOffset % BLOCK_SIZE == |dest| % BLOCK_SIZE
    }

    constructor (crc: Checksum)
      ensures Valid() && this.crc == crc && dest == []
    {
      this.crc, dest, blockOffset := crc, [], 0;
    }

    /** Go on with a file that has contents already. */
    constructor Reopen(crc: Checksum, contents: Bytes)
      ensures Valid() && this.crc == crc && dest == contents
    {
      this.crc, dest, blockOffset := crc, contents, |contents| % BLOCK_SIZE;
    }

    /** What is appended depends on the length of the file only, so a writer that was closed and reopened
        goes on exactly like one that was not. */
    method AddRecord(payload: Bytes)
      requires Valid()
      modifies this
      ensures Valid()
      ensures dest == old(dest) + Emission(crc, |old(dest)|, payload, true)
    {
      hide *;
      var left, begin, more := payload, true, true;
      ghost var was, all := dest, Emission(crc, |dest|, payload, true);
      ghost var done: Bytes := [];
      ghost var rest := all;
      while more
        invariant Valid()
        invariant dest == was + done
        invariant all == done + rest
        invariant rest == if more then Emission(crc, |dest|, left, begin) else []
        decreases more, |left|, ToBlockEnd(|dest|)
      {
        ghost var pos, first := |dest|, FragmentBytes(crc, |dest|, left, begin);
        EmptyFragmentEndsBlock(pos, |left|);
        EmissionStep(crc, pos, left, begin);
        var n := AddFragment(left, begin);
        done := done + first;
        rest := rest[|first|..];
        more := |left| > n;
        left, begin := left[n..], false;
      }
    }

    /** One round of the loop: as much of `left` as fits in the block, in a block with room for it. */
    method AddFragment(left: Bytes, begin: bool) returns (n: nat)
      requires Valid()
      modifies this
      ensures Valid() && n == FragmentLength(|old(dest)|, |left|)
      ensures dest == old(dest) + FragmentBytes(crc, |old(dest)|, left, begin)
    {
      hide Trailer, Zeros, Physical;
      TrailerFits(|dest|);
      SwitchBlock();
      var avail := BLOCK_SIZE - blockOffset - HEADER_SIZE;
      n := if |left| < avail then |left| else avail;
      EmitPhysicalRecord(FragmentType(begin, |left| == n), left[..n]);
      assert dest == old(dest) + FragmentBytes(crc, |old(dest)|, left, begin);
    }

    /** Fills up a block with no room for a header; `blockOffset` may be the block size itself. */
    method SwitchBlock()
      requires Valid()
      modifies this
      ensures Valid() && blockOffset == (|old(dest)| + Trailer(|old(dest)|)) % BLOCK_SIZE
      ensures dest == old(dest) + Zeros(Trailer(|old(dest)|))
    {
      var leftover := BLOCK_SIZE - blockOffset;
      if leftover < HEADER_SIZE {
        if leftover > 0 {
          dest := dest + Zeros(leftover);
        }
        blockOffset := 0;
      }
    }

    method EmitPhysicalRecord(typ: byte, data: Bytes)
      requires Valid() && |data| < 0x1_0000 && blockOffset + HEADER_SIZE + |data| <= BLOCK_SIZE
      modifies this
      ensures Valid()
      ensures dest == old(dest) + Physical(crc, typ, data)
    {
      hide Fixed, Mask;
      var header := Fixed(Mask(crc([typ] + data)), 4) + [|data| % 256, |data| / 256, typ];
      assert Physical(crc, typ, data) == header + data;
      OffsetMoves(blockOffset, |dest|, HEADER_SIZE + |data|);
      dest := dest + header;
      dest := dest + data;
      blockOffset := blockOffset + HEADER_SIZE + |data|;
    }
  }

  lemma {:induction false} OffsetMoves(offset: nat, length: nat, more: nat)
    requires offset % BLOCK_SIZE == length % BLOCK_SIZE
    ensures (offset + more) % BLOCK_SIZE == (length + more) % BLOCK_SIZE
  {
  }

  // ----- what a reader makes of any file -----

  datatype Report = Report(bytes: nat, reason: string)

  datatype Piece =
    | Fragment(typ: byte, data: Bytes, next: nat)
    | EndOfFile
    | BadRecord(next: nat, reports: seq<Report>)

  /** Where the block that holds `pos` ends, in the file. */
  function BlockEnd(file: Bytes, pos: nat): (end: nat)
    ensures pos <= |file| ==> pos <= end <= |file|
  {
    var boundary := (pos / BLOCK_SIZE + 1) * BLOCK_SIZE;
    if boundary <= |file| then boundary else |file|
  }

  function Length(header: Bytes): nat
    requires |header| >= HEADER_SIZE
  {
    var low: nat, high: nat := header[4], header[5];
    low + 256 * high
  }

  /** One header and its payload, from what is left of a block; `end` is where the block ends and `last`
      says the file ends there too. */
  function Parse(crc: Checksum, checksum: bool, buffer: Bytes, end: nat, last: bool): Piece
    requires HEADER_SIZE <= |buffer| <= end
  {
    var length, typ := Length(buffer), buffer[6];
    if HEADER_SIZE + length > |buffer| then
      if last then EndOfFile else BadRecord(end, [Report(|buffer|, "bad record length")])
    else if typ == ZERO_TYPE && length == 0 then BadRecord(end, [])
    else if checksum && crc(buffer[6..HEADER_SIZE + length]) != Unmask(FixedValue(buffer[..4]) % TWO_32) then
      BadRecord(end, [Report(|buffer|, "checksum mismatch")])
    else Fragment(typ, buffer[HEADER_SIZE..HEADER_SIZE + length], end - |buffer| + HEADER_SIZE + length)
  }

  function NextPiece(crc: Checksum, checksum: bool, file: Bytes, pos: nat): (p: Piece)
    requires pos <= |file|
    ensures p.Fragment? ==> pos + HEADER_SIZE + |p.data| <= p.next <= |file|
    ensures p.BadRecord? ==> pos < p.next <= |file|
    decreases |file| - pos
  {
    var end := BlockEnd(file, pos);
    var last := end < (pos / BLOCK_SIZE + 1) * BLOCK_SIZE;
    if end - pos >= HEADER_SIZE then Parse(crc, checksum, file[pos..end], end, last)
    else if last then EndOfFile
    else NextPiece(crc, checksum, file, end)
  }

  /** A record being put together: whether one has begun, what of it there is, and where it began. */
  datatype Partial = Partial(inside: bool, scratch: Bytes, offset: nat)

  const NO_RECORD: Partial := Partial(false, [], 0)

  datatype Fed =
    | Complete(record: Bytes, offset: nat, reports: seq<Report>)
    | Incomplete(state: Partial, reports: seq<Report>)
    | Ends

  // What a physical record is taken for besides the four types there are.
  const EOF_TYPE: nat := 5
  const BAD_RECORD_TYPE: nat := 6

  /** The type the reader switches on.  A type byte read from the file is taken as it is, even if it is the
      number that stands for the end of the file or for a bad record. */
  function RecordType(p: Piece): nat {
    match p
    case Fragment(typ, _, _) => typ
    case EndOfFile => EOF_TYPE
    case BadRecord(_, _) => BAD_RECORD_TYPE
  }

  /** What one piece of the file does to the record being put together. */
  function Feed(p: Piece, state: Partial): (fed: Fed)
    requires p.Fragment? ==> p.next >= HEADER_SIZE + |p.data|
    ensures fed.Ends? <==> RecordType(p) == EOF_TYPE
  {
    if RecordType(p) == EOF_TYPE then Ends
    else if RecordType(p) == BAD_RECORD_TYPE then
      if state.inside then
        Incomplete(Partial(false, [], state.offset), [Report(|state.scratch|, "error in middle of record")])
      else
        Incomplete(state, [])
    else
      var typ, data, start := p.typ, p.data, p.next - HEADER_SIZE - |p.data|;
      var cutShort := state.inside && state.scratch != [];
      if typ == FULL_TYPE then
        Complete(data, start, if cutShort then [Report(|state.scratch|, "partial record without end(1)")] else [])
      else if typ == FIRST_TYPE then
        Incomplete(Partial(true, data, start),
                   if cutShort then [Report(|state.scratch|, "partial record without end(2)")] else [])
      else if typ == MIDDLE_TYPE then
        if state.inside then Incomplete(state.(scratch := state.scratch + data), [])
        else Incomplete(state, [Report(|data|, "missing start of fragmented record(1)")])
      else if typ == LAST_TYPE then
        if state.inside then Complete(state.scratch + data, state.offset, [])
        else Incomplete(state, [Report(|data|, "missing start of fragmented record(2)")])
      else
        Incomplete(Partial(false, [], state.offset),
                   [Report(|data| + if state.inside then |state.scratch| else 0, "unknown record type")])
  }

  datatype Logical = Got(record: Bytes, offset: nat, next: nat, reports: seq<Report>) | NoMore(next: nat, reports: seq<Report>)

  function Reported(reports: seq<Report>, rest: Logical): (r: Logical)
    ensures r.Got? <==> rest.Got?
    ensures r.next == rest.next
  {
    match rest
    case Got(record, offset, next, more) => Got(record, offset, next, reports + more)
    case NoMore(next, more) => NoMore(next, reports + more)
  }

  /** The next record of the file from `pos` on. */
  function NextRecord(crc: Checksum, checksum: bool, file: Bytes, pos: nat, state: Partial): (r: Logical)
    requires pos <= |file|
    ensures r.next <= |file| && (r.Got? ==> pos < r.next)
    decreases |file| - pos
  {
    var p := NextPiece(crc, checksum, file, pos);
    if p.EndOfFile? then NoMore(|file|, [])
    else
      match Feed(p, state)
      case Ends => NoMore(p.next, [])
      case Complete(record, offset, reports) => Got(record, offset, p.next, reports)
      case Incomplete(next, reports) =>
        Reported((if p.BadRecord? then p.reports else []) + reports, NextRecord(crc, checksum, file, p.next, next))
  }

  datatype Reading = Reading(records: seq<Bytes>, reports: seq<Report>)

  function Then(first: Reading, rest: Reading): Reading {
    Reading(first.records + rest.records, first.reports + rest.reports)
  }

  /** Everything a reader gets from `pos` on, and every corruption it reports on the way. */
  function ReadAll(crc: Checksum, checksum: bool, file: Bytes, pos: nat): Reading
    requires pos <= |file|
    decreases |file| - pos
  {
    match NextRecord(crc, checksum, file, pos, NO_RECORD)
    case NoMore(_, reports) => Reading([], reports)
    case Got(record, _, next, reports) => Then(Reading([record], reports), ReadAll(crc, checksum, file, next))
  }

  lemma {:induction false} ReadMore(crc: Checksum, checksum: bool, file: Bytes, pos: nat, records: seq<Bytes>, reports: seq<Report>)
    requires pos <= |file|
    ensures var r, rest := NextRecord(crc, checksum, file, pos, NO_RECORD), ReadAll(crc, checksum, file, pos);
            && (records == [] && reports == [] ==> Then(Reading(records, reports), rest) == rest)
            && Then(Reading(records, reports), rest)
               == if r.Got? then
                    Then(Reading(records + [r.record], reports + r.reports), ReadAll(crc, checksum, file, r.next))
                  else Reading(records, reports + r.reports)
  {
    hide NextRecord;
    var r := NextRecord(crc, checksum, file, pos, NO_RECORD);
    if r.Got? {
      var rest := ReadAll(crc, checksum, file, r.next);
      assert records + [r.record] + rest.records == records + ([r.record] + rest.records);
      assert reports + r.reports + rest.reports == reports + (r.reports + rest.reports);
    }
  }

  // ----- the reader -----

  lemma {:induction false} BoundaryAfter(pos: nat, end: nat)
    ensures (pos / BLOCK_SIZE + 1) * BLOCK_SIZE == pos - pos % BLOCK_SIZE + BLOCK_SIZE
    ensures pos < end <= (pos / BLOCK_SIZE + 1) * BLOCK_SIZE ==>
              (end % BLOCK_SIZE == 0 <==> end == (pos / BLOCK_SIZE + 1) * BLOCK_SIZE)
  {
  }

  lemma {:induction false} SameBlock(file: Bytes, pos: nat, k: nat)
    requires pos + k < BlockEnd(file, pos)
    ensures BlockEnd(file, pos + k) == BlockEnd(file, pos)
  {
  }

  lemma {:induction false} ReportedTwice(a: seq<Report>, b: seq<Report>, rest: Logical)
    ensures Reported(a, Reported(b, rest)) == Reported(a + b, rest)
    ensures Reported([], rest) == rest
    ensures Reported(a, rest).reports == a + rest.reports
    ensures rest.Got? ==> Reported(a, rest).record == rest.record && Reported(a, rest).offset == rest.offset
  {
    assert a + b + rest.reports == a + (b + rest.reports);
    assert [] + rest.reports == rest.reports;
  }

  lemma {:induction false} RecordStep(crc: Checksum, checksum: bool, file: Bytes, pos: nat, state: Partial)
    requires pos <= |file|
    ensures var p := NextPiece(crc, checksum, file, pos);
            NextRecord(crc, checksum, file, pos, state)
            == if p.EndOfFile? then NoMore(|file|, [])
               else if Feed(p, state).Ends? then NoMore(p.next, [])
               else if Feed(p, state).Complete? then
                 Got(Feed(p, state).record, Feed(p, state).offset, p.next, Feed(p, state).reports)
               else
                 Reported((if p.BadRecord? then p.reports else []) + Feed(p, state).reports,
                          NextRecord(crc, checksum, file, p.next, Feed(p, state).state))
  {
    hide Feed, NextPiece;
  }

  /** What one piece does to a scan that has reported `since` so far. */
  lemma {:induction false} ScanStep(crc: Checksum, checksum: bool, file: Bytes, pos: nat, state: Partial,
                                    since: seq<Report>, all: Logical)
    requires pos <= |file|
    requires all == Reported(since, NextRecord(crc, checksum, file, pos, state))
    ensures var p := NextPiece(crc, checksum, file, pos);
            if p.EndOfFile? then all == NoMore(|file|, since)
            else if Feed(p, state).Ends? then all == NoMore(p.next, since)
            else if Feed(p, state).Complete? then
              all == Got(Feed(p, state).record, Feed(p, state).offset, p.next, since + Feed(p, state).reports)
            else
              all == Reported(since + (if p.BadRecord? then p.reports else []) + Feed(p, state).reports,
                              NextRecord(crc, checksum, file, p.next, Feed(p, state).state))
  {
    hide Feed, NextPiece, NextRecord;
    RecordStep(crc, checksum, file, pos, state);
    var p := NextPiece(crc, checksum, file, pos);
    if !p.EndOfFile? && Feed(p, state).Incomplete? {
      var bad := if p.BadRecord? then p.reports else [];
      var more := Feed(p, state).reports;
      ReportedTwice(since, bad + more, NextRecord(crc, checksum, file, p.next, Feed(p, state).state));
      assert since + bad + more == since + (bad + more);
    }
  }

  class Reader {
    const crc: Checksum
    const checksum: bool
    const file: Bytes
    var filePos: nat
    var buffer: Bytes
    var eof: bool
    var endOfBufferOffset: nat
    var lastRecordOffset: nat
    var reports: seq<Report>

    /** How far the reader has got in the file. */
    ghost function Pos(): int
      reads this
    {
      endOfBufferOffset - |buffer|
    }

    ghost predicate Valid()
      reads this
    {
      && filePos == endOfBufferOffset <= |file| && |buffer| <= endOfBufferOffset
      && buffer == file[Pos()..endOfBufferOffset]
      && (buffer != [] ==> endOfBufferOffset == BlockEnd(file, Pos()))
      && (if eof then endOfBufferOffset == |file| && (buffer != [] ==> endOfBufferOffset % BLOCK_SIZE != 0)
          else endOfBufferOffset % BLOCK_SIZE == 0)
    }

    lemma {:induction false} PosInFile()
      requires Valid()
      ensures 0 <= Pos() <= |file|
    {
      hide BlockEnd;
    }

    constructor (crc: Checksum, checksum: bool, file: Bytes)
      ensures Valid() && this.crc == crc && this.checksum == checksum && this.file == file
      ensures Pos() == 0 && reports == []
    {
      hide BlockEnd, Valid, Pos;
      this.crc, this.checksum, this.file := crc, checksum, file;
      filePos, buffer, eof, endOfBufferOffset, lastRecordOffset, reports := 0, [], false, 0, 0, [];
      new;
      NothingRead();
    }

    lemma {:induction false} NothingRead()
      requires filePos == 0 && buffer == [] && !eof && endOfBufferOffset == 0
      ensures Valid() && Pos() == 0
    {
      hide BlockEnd;
    }

    /** Read up to one block; a short read means the end of the file. */
    method ReadBlock()
      requires Valid() && !eof && |buffer| < HEADER_SIZE
      modifies this
      ensures Valid() && reports == old(reports) && lastRecordOffset == old(lastRecordOffset)
      ensures Pos() == old(endOfBufferOffset)
      ensures eof || filePos > old(filePos)
      ensures |buffer| == BlockEnd(file, Pos()) - Pos()
      ensures eof <==> BlockEnd(file, Pos()) < (Pos() / BLOCK_SIZE + 1) * BLOCK_SIZE
    {
      var n := if |file| - filePos < BLOCK_SIZE then |file| - filePos else BLOCK_SIZE;
      buffer := file[filePos..filePos + n];
      filePos := filePos + n;
      endOfBufferOffset := endOfBufferOffset + |buffer|;
      if |buffer| < BLOCK_SIZE {
        eof := true;
      }
    }

    /** Read on until a header is in the buffer. */
    method FillBuffer() returns (more: bool)
      requires Valid()
      modifies this
      ensures Valid() && reports == old(reports) && lastRecordOffset == old(lastRecordOffset)
      ensures more ==> |buffer| >= HEADER_SIZE && Pos() >= old(Pos())
                       && NextPiece(crc, checksum, file, old(Pos()))
                       == Parse(crc, checksum, buffer, endOfBufferOffset, eof)
      ensures !more ==> NextPiece(crc, checksum, file, old(Pos())) == EndOfFile && Pos() == |file|
    {
      while |buffer| < HEADER_SIZE
        invariant Valid() && reports == old(reports) && lastRecordOffset == old(lastRecordOffset)
        invariant Pos() >= old(Pos())
        invariant NextPiece(crc, checksum, file, Pos()) == NextPiece(crc, checksum, file, old(Pos()))
        decreases !eof, |file| - filePos
      {
        AtShortBuffer();
        if eof {
          buffer := [];
          return false;
        }
        ReadBlock();
      }
      AtHeader();
      more := true;
    }

    lemma {:induction false} AtShortBuffer()
      requires Valid() && |buffer| < HEADER_SIZE
      ensures eof ==> NextPiece(crc, checksum, file, Pos()) == EndOfFile
      ensures !eof ==> NextPiece(crc, checksum, file, Pos()) == NextPiece(crc, checksum, file, endOfBufferOffset)
    {
      var pos := Pos();
      BoundaryAfter(pos, endOfBufferOffset);
    }

    lemma {:induction false} AtHeader()
      requires Valid() && |buffer| >= HEADER_SIZE
      ensures NextPiece(crc, checksum, file, Pos()) == Parse(crc, checksum, buffer, endOfBufferOffset, eof)
    {
      BoundaryAfter(Pos(), endOfBufferOffset);
    }

    method ReadPhysicalRecord() returns (p: Piece)
      requires Valid()
      modifies this
      ensures Valid() && lastRecordOffset == old(lastRecordOffset)
      ensures p == NextPiece(crc, checksum, file, old(Pos()))
      ensures Pos() == if p.EndOfFile? then |file| else p.next
      ensures reports == old(reports) + if p.BadRecord? then p.reports else []
    {
      var more := FillBuffer();
      if !more {
        return EndOfFile;
      }
      p := ParseHeader();
    }

    method ParseHeader() returns (p: Piece)
      requires Valid() && |buffer| >= HEADER_SIZE
      modifies this
      ensures Valid() && lastRecordOffset == old(lastRecordOffset)
      ensures p == Parse(crc, checksum, old(buffer), old(endOfBufferOffset), old(eof))
      ensures Pos() == if p.EndOfFile? then |file| else p.next
      ensures reports == old(reports) + if p.BadRecord? then p.reports else []
    {
      hide BlockEnd;
      var length, typ := Length(buffer), buffer[6];
      if HEADER_SIZE + length > |buffer| {
        var dropped := |buffer|;
        buffer := [];
        if !eof {
          p := BadRecord(endOfBufferOffset, [Report(dropped, "bad record length")]);
          reports := reports + p.reports;
          return;
        }
        return EndOfFile;
      }
      if typ == ZERO_TYPE && length == 0 {
        buffer := [];
        return BadRecord(endOfBufferOffset, []);
      }
      if checksum && crc(buffer[6..HEADER_SIZE + length]) != Unmask(FixedValue(buffer[..4]) % TWO_32) {
        p := BadRecord(endOfBufferOffset, [Report(|buffer|, "checksum mismatch")]);
        buffer := [];
        reports := reports + p.reports;
        return;
      }
      var data := buffer[HEADER_SIZE..HEADER_SIZE + length];
      if HEADER_SIZE + length < |buffer| {
        SameBlock(file, Pos(), HEADER_SIZE + length);
      }
      buffer := buffer[HEADER_SIZE + length..];
      p := Fragment(typ, data, endOfBufferOffset - |buffer|);
    }

    method ReadRecord() returns (ok: bool, record: Bytes)
      requires Valid()
      modifies this
      ensures Valid()
      ensures var r := NextRecord(crc, checksum, file, old(Pos()), NO_RECORD);
              && ok == r.Got? && reports == old(reports) + r.reports
              && (ok ==> record == r.record && lastRecordOffset == r.offset)
              && Pos() == r.next
    {
      hide Feed, Reported, BlockEnd, Parse, NextPiece, NextRecord, Valid, Pos;
      PosInFile();
      var scratch: Bytes, inside, prospective: nat := [], false, 0;
      ghost var all := NextRecord(crc, checksum, file, Pos(), NO_RECORD);
      ghost var scan := Reported(reports, all);
      ReportedTwice(reports, [], all);
      while true
        invariant Valid() && 0 <= Pos() <= |file|
        invariant scan == Reported(reports, NextRecord(crc, checksum, file, Pos(), Partial(inside, scratch, prospective)))
        decreases |file| - Pos()
      {
        ScanStep(crc, checksum, file, Pos(), Partial(inside, scratch, prospective), reports, scan);
        var p := ReadPhysicalRecord();
        if p.EndOfFile? {
          return false, [];
        }
        var done, ended;
        done, ended, record, inside, scratch, prospective := Take(p, inside, scratch, prospective);
        if ended {
          return false, [];
        }
        if done {
          return true, record;
        }
      }
    }

    /** The switch over record types. */
    method Take(p: Piece, inside0: bool, scratch0: Bytes, prospective0: nat)
      returns (done: bool, ended: bool, record: Bytes, inside: bool, scratch: Bytes, prospective: nat)
      requires Valid() && (p.BadRecord? || (p.Fragment? && p.next >= HEADER_SIZE + |p.data| && Pos() == p.next))
      modifies this`reports, this`lastRecordOffset
      ensures Valid() && Pos() == old(Pos())
      ensures var fed := Feed(p, Partial(inside0, scratch0, prospective0));
              && (done <==> fed.Complete?) && (ended <==> fed.Ends?)
              && reports == old(reports) + (if fed.Ends? then [] else fed.reports)
              && (done ==> p.Fragment? && fed.record == record && fed.offset == lastRecordOffset)
              && (!done ==> lastRecordOffset == old(lastRecordOffset))
              && (!done && !ended ==> fed.state == Partial(inside, scratch, prospective))
    {
      hide BlockEnd;
      done, ended, record, inside, scratch, prospective := false, false, [], inside0, scratch0, prospective0;
      match p
      case BadRecord(_, _) =>
        if inside {
          reports := reports + [Report(|scratch|, "error in middle of record")];
          inside, scratch := false, [];
        }
      case Fragment(typ, data, next) =>
        var start := endOfBufferOffset - |buffer| - HEADER_SIZE - |data|;
        if typ == FULL_TYPE {
          if inside {
            if scratch == [] {
              inside := false;
            } else {
              reports := reports + [Report(|scratch|, "partial record without end(1)")];
            }
          }
          done, record, lastRecordOffset := true, data, start;
        } else if typ == FIRST_TYPE {
          if inside {
            if scratch == [] {
              inside := false;
            } else {
              reports := reports + [Report(|scratch|, "partial record without end(2)")];
            }
          }
          prospective, scratch, inside := start, data, true;
        } else if typ == MIDDLE_TYPE {
          if !inside {
            reports := reports + [Report(|data|, "missing start of fragmented record(1)")];
          } else {
            scratch := scratch + data;
          }
        } else if typ == LAST_TYPE {
          if !inside {
            reports := reports + [Report(|data|, "missing start of fragmented record(2)")];
          } else {
            done, record, lastRecordOffset := true, scratch + data, prospective;
          }
        } else if typ == EOF_TYPE {
          ended := true;
        } else if typ == BAD_RECORD_TYPE {
          if inside {
            reports := reports + [Report(|scratch|, "error in middle of record")];
            inside, scratch := false, [];
          }
        } else {
          reports := reports + [Report(|data| + if inside then |scratch| else 0, "unknown record type")];
          inside, scratch := false, [];
        }
    }

    /** The recovery loop over a log: all the records there are. */
    method ReadToEnd() returns (records: seq<Bytes>)
      requires Valid()
      modifies this
      ensures Valid() && old(reports) <= reports
      ensures Reading(records, reports[|old(reports)|..]) == ReadAll(crc, checksum, file, old(Pos()))
    {
      hide NextRecord, ReadAll, Then, BlockEnd, NextPiece;
      ghost var since: seq<Report> := [];
      ghost var all := ReadAll(crc, checksum, file, Pos());
      records := [];
      ReadMore(crc, checksum, file, Pos(), [], []);
      while true
        invariant Valid() && reports == old(reports) + since && 0 <= Pos() <= |file|
        invariant all == Then(Reading(records, since), ReadAll(crc, checksum, file, Pos()))
        decreases |file| - Pos()
      {
        ghost var r := NextRecord(crc, checksum, file, Pos(), NO_RECORD);
        ReadMore(crc, checksum, file, Pos(), records, since);
        var ok, record := ReadRecord();
        since := since + r.reports;
        if !ok {
          return;
        }
        records := records + [record];
      }
    }
  }

  // ----- the reader gets back what the writer wrote -----

  lemma {:induction false} StoredChecksum(crc: u32)
    ensures Unmask(FixedValue(Fixed(Mask(crc), 4)) % TWO_32) == crc
  {
    hide *;
    FixedRoundTrip(Mask(crc), 4);
    Pow256Values();
    UnmaskMask(crc);
    CutTwice(Mask(crc));
  }

  lemma {:induction false} CutTwice(n: u32)
    ensures n % TWO_32 == n
  {
  }

  lemma {:induction false} PhysicalParses(crc: Checksum, checksum: bool, typ: byte, data: Bytes, buffer: Bytes, end: nat, last: bool)
    requires typ != ZERO_TYPE && |data| < 0x1_0000 && Physical(crc, typ, data) <= buffer && |buffer| <= end
    ensures Parse(crc, checksum, buffer, end, last) == Fragment(typ, data, end - |buffer| + HEADER_SIZE + |data|)
  {
    var bytes := Physical(crc, typ, data);
    StoredChecksum(crc([typ] + data));
    assert buffer[..4] == bytes[..4] == Fixed(Mask(crc([typ] + data)), 4);
    assert Length(buffer) == |data| by {
      assert buffer[4] == bytes[4] && buffer[5] == bytes[5];
    }
    assert buffer[6] == bytes[6];
    assert bytes[6..HEADER_SIZE + |data|] == [typ] + data;
    assert buffer[6..HEADER_SIZE + |data|] == bytes[6..HEADER_SIZE + |data|];
    assert buffer[HEADER_SIZE..HEADER_SIZE + |data|] == bytes[HEADER_SIZE..] == data;
  }

  lemma {:induction false} PhysicalCut(crc: Checksum, checksum: bool, typ: byte, data: Bytes, buffer: Bytes, end: nat)
    requires |data| < 0x1_0000 && buffer < Physical(crc, typ, data) && HEADER_SIZE <= |buffer| <= end
    ensures Parse(crc, checksum, buffer, end, true) == EndOfFile
  {
    var bytes := Physical(crc, typ, data);
    assert buffer[4] == bytes[4] && buffer[5] == bytes[5];
    assert Length(buffer) == |data|;
  }

  /** A file cut after `n` bytes of `whole`, which has `bytes` at `pos`. */
  ghost predicate CutOf(whole: Bytes, n: nat, file: Bytes, pos: nat, bytes: Bytes) {
    n <= |whole| && file == whole[..n] && pos <= n && pos + |bytes| <= |whole| && whole[pos..pos + |bytes|] == bytes
  }

  lemma {:induction false} CutSplit(whole: Bytes, n: nat, file: Bytes, pos: nat, a: Bytes, b: Bytes)
    requires CutOf(whole, n, file, pos, a + b)
    ensures CutOf(whole, n, file, pos, a)
    ensures pos + |a| <= n ==> CutOf(whole, n, file, pos + |a|, b)
  {
    var all := a + b;
    assert whole[pos..pos + |a|] == whole[pos..pos + |all|][..|a|] == a;
    assert whole[pos + |a|..pos + |all|] == whole[pos..pos + |all|][|a|..] == b;
  }

  /** A fragment is read back if all of it is there; otherwise the file ends, and nothing is reported. */
  lemma {:induction false} PhysicalRead(crc: Checksum, checksum: bool, whole: Bytes, n: nat, file: Bytes, pos: nat, typ: byte, data: Bytes)
    requires typ != ZERO_TYPE && pos % BLOCK_SIZE + HEADER_SIZE + |data| <= BLOCK_SIZE
    requires CutOf(whole, n, file, pos, Physical(crc, typ, data))
    ensures NextPiece(crc, checksum, file, pos)
            == if pos + HEADER_SIZE + |data| <= n then Fragment(typ, data, pos + HEADER_SIZE + |data|) else EndOfFile
  {
    hide Parse, Physical;
    var bytes := Physical(crc, typ, data);
    var end := BlockEnd(file, pos);
    BoundaryAfter(pos, pos + |bytes|);
    var buffer := file[pos..end];
    if pos + |bytes| <= n {
      assert pos + |bytes| <= end;
      TakenFromTheFront(file, pos, end, |bytes|);
      TakenFromTheFront(whole, 0, n, pos + |bytes|);
      assert file[pos..pos + |bytes|] == whole[pos..pos + |bytes|];
      PhysicalParses(crc, checksum, typ, data, buffer, end, end < (pos / BLOCK_SIZE + 1) * BLOCK_SIZE);
    } else {
      assert end == n;
      assert buffer == whole[pos..pos + |bytes|][..n - pos];
      if |buffer| >= HEADER_SIZE {
        PhysicalCut(crc, checksum, typ, data, buffer, end);
      }
    }
  }

  lemma {:induction false} TakenFromTheFront(file: Bytes, pos: nat, end: nat, k: nat)
    requires pos + k <= end <= |file|
    ensures file[pos..end][..k] == file[pos..pos + k]
  {
  }

  lemma {:induction false} FragmentRead(crc: Checksum, checksum: bool, whole: Bytes, n: nat, file: Bytes, pos: nat, left: Bytes, begin: bool)
    requires CutOf(whole, n, file, pos, FragmentBytes(crc, pos, left, begin))
    ensures var k, next := FragmentLength(pos, |left|), pos + |FragmentBytes(crc, pos, left, begin)|;
            NextPiece(crc, checksum, file, pos)
            == if next <= n then Fragment(FragmentType(begin, k == |left|), left[..k], next) else EndOfFile
  {
    hide Parse, Physical;
    var k, trailer := FragmentLength(pos, |left|), Trailer(pos);
    var typ, start := FragmentType(begin, k == |left|), pos + trailer;
    var bytes, physical := FragmentBytes(crc, pos, left, begin), Physical(crc, typ, left[..k]);
    FragmentFits(pos, |left|);
    TrailerFits(pos);
    assert physical == bytes[trailer..];
    assert whole[start..start + |physical|] == whole[pos..pos + |bytes|][trailer..];
    if start <= n {
      PhysicalRead(crc, checksum, whole, n, file, start, typ, left[..k]);
    }
    if trailer > 0 {
      TrailerSkipped(crc, checksum, file, pos);
    }
  }

  lemma {:induction false} TrailerSkipped(crc: Checksum, checksum: bool, file: Bytes, pos: nat)
    requires pos <= |file| && Trailer(pos) > 0
    ensures NextPiece(crc, checksum, file, pos)
            == if pos + Trailer(pos) <= |file| then NextPiece(crc, checksum, file, pos + Trailer(pos)) else EndOfFile
  {
    hide Parse;
    BoundaryAfter(pos, pos + Trailer(pos));
    TrailerFits(pos);
  }

  /** One record is put together from its fragments if all of it is there; otherwise reading ends,
      and nothing is reported. */
  lemma {:induction false} RecordRead(crc: Checksum, checksum: bool, whole: Bytes, n: nat, file: Bytes, pos: nat, left: Bytes,
                                      begin: bool, state: Partial)
    requires CutOf(whole, n, file, pos, Emission(crc, pos, left, begin))
    requires if begin then !state.inside && state.scratch == [] else state.inside
    ensures var next := pos + |Emission(crc, pos, left, begin)|;
            NextRecord(crc, checksum, file, pos, state)
            == if next > n then NoMore(n, [])
               else Got(state.scratch + left, if begin then pos + Trailer(pos) else state.offset, next, [])
    decreases |left|, ToBlockEnd(pos)
  {
    hide *;
    var k, first := FragmentLength(pos, |left|), FragmentBytes(crc, pos, left, begin);
    EmissionStep(crc, pos, left, begin);
    EmptyFragmentEndsBlock(pos, |left|);
    var rest := if k == |left| then [] else Emission(crc, pos + |first|, left[k..], false);
    CutSplit(whole, n, file, pos, first, rest);
    Within(whole, n, file, pos, first);
    FragmentRead(crc, checksum, whole, n, file, pos, left, begin);
    FragmentFed(crc, checksum, file, pos, left, k, begin, state);
    if k < |left| && pos + |first| <= n {
      var scratch := if begin then left[..k] else state.scratch + left[..k];
      var next := Partial(true, scratch, if begin then pos + Trailer(pos) else state.offset);
      RecordRead(crc, checksum, whole, n, file, pos + |first|, left[k..], false, next);
    }
    PiecesJoin(state.scratch, left, k);
  }

  lemma {:induction false} PiecesJoin(scratch: Bytes, left: Bytes, k: nat)
    requires k <= |left|
    ensures scratch + left[..k] + left[k..] == scratch + left
    ensures scratch == [] ==> left[..k] + left[k..] == scratch + left && left == scratch + left
    ensures k == |left| ==> left[..k] == left
  {
  }

  lemma {:induction false} Within(whole: Bytes, n: nat, file: Bytes, pos: nat, bytes: Bytes)
    requires CutOf(whole, n, file, pos, bytes)
    ensures pos <= |file| == n <= |whole|
  {
  }

  /** A fragment of the right type continues or completes the record. */
  lemma {:induction false} FragmentFed(crc: Checksum, checksum: bool, file: Bytes, pos: nat, left: Bytes, k: nat, begin: bool,
                                       state: Partial)
    requires pos <= |file| && k <= |left|
    requires if begin then !state.inside && state.scratch == [] else state.inside
    ensures var p := NextPiece(crc, checksum, file, pos);
            var scratch := if begin then left[..k] else state.scratch + left[..k];
            && (p.EndOfFile? ==> NextRecord(crc, checksum, file, pos, state) == NoMore(|file|, []))
            && (p.Fragment? && p.typ == FragmentType(begin, k == |left|) && p.data == left[..k] ==>
                  var offset := if begin then p.next - HEADER_SIZE - k else state.offset;
                  NextRecord(crc, checksum, file, pos, state)
                  == if k == |left| then Got(scratch, offset, p.next, [])
                     else NextRecord(crc, checksum, file, p.next, Partial(true, scratch, offset)))
  {
    hide NextPiece;
    var p := NextPiece(crc, checksum, file, pos);
    if p.Fragment? && k < |left| && p.data == left[..k] {
      var scratch := if begin then left[..k] else state.scratch + left[..k];
      var offset := if begin then p.next - HEADER_SIZE - k else state.offset;
      ReportedTwice([], [], NextRecord(crc, checksum, file, p.next, Partial(true, scratch, offset)));
    }
  }

  /** How many of the records lie wholly before the cut. */
  function WholeRecords(crc: Checksum, pos: nat, records: seq<Bytes>, n: nat): (k: nat)
    ensures k <= |records|
    decreases |records|
  {
    if records == [] then 0
    else
      var next := pos + |Emission(crc, pos, records[0], true)|;
      if next > n then 0 else 1 + WholeRecords(crc, next, records[1..], n)
  }

  lemma {:induction false} WholeRecordsEndBeforeTheCut(crc: Checksum, pos: nat, records: seq<Bytes>, n: nat, i: nat)
    requires i < |records|
    ensures i < WholeRecords(crc, pos, records, n) <==> pos + |Log(crc, pos, records[..i + 1])| <= n
    decreases |records|
  {
    hide Emission;
    var first := Emission(crc, pos, records[0], true);
    var some := records[..i + 1];
    assert some[0] == records[0] && some[1..] == records[1..][..i];
    if i > 0 && pos + |first| <= n {
      WholeRecordsEndBeforeTheCut(crc, pos + |first|, records[1..], n, i - 1);
    }
  }

  /** Round trip and truncation in one: from a log cut after any number of bytes the reader gets exactly
      the records that lie wholly before the cut, and reports no corruption. */
  lemma {:induction false} TruncatedLogReads(crc: Checksum, checksum: bool, whole: Bytes, n: nat, file: Bytes, pos: nat,
                                             records: seq<Bytes>)
    requires CutOf(whole, n, file, pos, Log(crc, pos, records)) && pos + |Log(crc, pos, records)| == |whole|
    ensures pos <= |file|
    ensures ReadAll(crc, checksum, file, pos) == Reading(records[..WholeRecords(crc, pos, records, n)], [])
    decreases |records|
  {
    hide Emission, NextRecord, CutOf;
    Within(whole, n, file, pos, Log(crc, pos, records));
    if records == [] {
      NothingLeft(crc, checksum, file);
    } else {
      var first := Emission(crc, pos, records[0], true);
      var next := pos + |first|;
      var rest := Log(crc, next, records[1..]);
      CutSplit(whole, n, file, pos, first, rest);
      RecordRead(crc, checksum, whole, n, file, pos, records[0], true, NO_RECORD);
      if next <= n {
        TruncatedLogReads(crc, checksum, whole, n, file, next, records[1..]);
        var k := WholeRecords(crc, next, records[1..], n);
        assert records[..k + 1] == [records[0]] + records[1..][..k];
        assert [] + records[0] == records[0];
      }
    }
  }

  lemma {:induction false} NothingLeft(crc: Checksum, checksum: bool, file: Bytes)
    ensures NextRecord(crc, checksum, file, |file|, NO_RECORD) == NoMore(|file|, [])
  {
    BoundaryAfter(|file|, |file|);
  }

  lemma {:induction false} CutLogReads(crc: Checksum, checksum: bool, records: seq<Bytes>, n: nat)
    requires n <= |Log(crc, 0, records)|
    ensures ReadAll(crc, checksum, Log(crc, 0, records)[..n], 0) == Reading(records[..WholeRecords(crc, 0, records, n)], [])
  {
    var whole := Log(crc, 0, records);
    assert whole[0..|whole|] == whole;
    TruncatedLogReads(crc, checksum, whole, n, whole[..n], 0, records);
  }

  lemma {:induction false} LogRoundTrip(crc: Checksum, checksum: bool, records: seq<Bytes>)
    ensures ReadAll(crc, checksum, Log(crc, 0, records), 0) == Reading(records, [])
  {
    var whole := Log(crc, 0, records);
    assert whole[..|whole|] == whole;
    CutLogReads(crc, checksum, records, |whole|);
    AllBeforeTheLast(crc, 0, records, |whole|);
    assert records[..|records|] == records;
  }

  lemma {:induction false} AllBeforeTheLast(crc: Checksum, pos: nat, records: seq<Bytes>, n: nat)
    requires pos + |Log(crc, pos, records)| <= n
    ensures WholeRecords(crc, pos, records, n) == |records|
    decreases |records|
  {
    hide Emission;
    if records != [] {
      AllBeforeTheLast(crc, pos + |Emission(crc, pos, records[0], true)|, records[1..], n);
    }
  }

  /** Writing the records one by one, closing and reopening the file wherever one likes, makes this log. */
  lemma {:induction false} LogOfAppended(crc: Checksum, pos: nat, records: seq<Bytes>, last: Bytes)
    ensures Log(crc, pos, records + [last])
            == Log(crc, pos, records) + Emission(crc, pos + |Log(crc, pos, records)|, last, true)
    decreases |records|
  {
    hide Emission;
    var all := records + [last];
    if records == [] {
      assert all[1..] == [];
    } else {
      var first := Emission(crc, pos, records[0], true);
      assert all[0] == records[0] && all[1..] == records[1..] + [last];
      LogOfAppended(crc, pos + |first|, records[1..], last);
    }
  }
}

// What the log reader makes of files that are damaged: which bytes it takes for a fragment, that it makes
// no record up, and that it finds its way again at the next block.

module DamagedLogs {
  import opened Keys
  import opened Coding
  import opened Logs

  // ----- pieces, by the bytes of the file -----

  /** Where the piece at `pos` starts: behind the zeros that fill up a block. */
  function Start(pos: nat): nat {
    pos + Trailer(pos)
  }

  /** The boundary after the block that holds `at`. */
  function Boundary(at: nat): (b: nat)
    ensures at < b <= at + BLOCK_SIZE && b % BLOCK_SIZE == 0
  {
    at - at % BLOCK_SIZE + BLOCK_SIZE
  }

  /** The length that the header at `at` says its payload has. */
  function LengthAt(file: Bytes, at: nat): nat
    requires at + HEADER_SIZE <= |file|
  {
    var low: nat, high: nat := file[at + 4], file[at + 5];
    low + 256 * high
  }

  /** The bytes at `at` are a fragment: a header within one block, a payload of the length it names, and the
      checksum of type and payload, if that is looked at. */
  ghost predicate Stands(crc: Checksum, checksum: bool, file: Bytes, at: nat, typ: byte, data: Bytes) {
    && at + HEADER_SIZE + |data| <= |file| && at % BLOCK_SIZE + HEADER_SIZE + |data| <= BLOCK_SIZE
    && LengthAt(file, at) == |data| && file[at + 6] == typ
    && file[at + HEADER_SIZE..at + HEADER_SIZE + |data|] == data
    && (checksum ==> Unmask(FixedValue(file[at..at + 4]) % TWO_32) == crc([typ] + data))
    && (typ == ZERO_TYPE ==> data != [])
  }

  lemma {:induction false} PieceStart(crc: Checksum, checksum: bool, file: Bytes, pos: nat)
    requires pos <= |file|
    ensures var at := Start(pos);
            if at + HEADER_SIZE > |file| then NextPiece(crc, checksum, file, pos) == EndOfFile
            else
              var end := if Boundary(at) <= |file| then Boundary(at) else |file|;
              && at + HEADER_SIZE <= end
              && NextPiece(crc, checksum, file, pos) == Parse(crc, checksum, file[at..end], end, |file| < Boundary(at))
  {
    hide Parse;
    TrailerFits(pos);
    BoundaryAfter(pos, pos);
    BoundaryAfter(Start(pos), Start(pos));
    if Trailer(pos) > 0 {
      TrailerSkipped(crc, checksum, file, pos);
    }
  }

  /** What the reader takes the bytes at `pos` for, for any file: the fragment that stands there; the end of the file, if
      that comes before the header or the payload is complete; and otherwise something bad, reported with all the
      bytes to the end of the block unless the header is one of zeros, and skipped to there. */
  lemma {:induction false} PieceIs(crc: Checksum, checksum: bool, file: Bytes, pos: nat)
    requires pos <= |file|
    ensures var p, at := NextPiece(crc, checksum, file, pos), Start(pos);
            && (p.Fragment? ==> Stands(crc, checksum, file, at, p.typ, p.data) && p.next == at + HEADER_SIZE + |p.data|)
            && (forall typ, data :: Stands(crc, checksum, file, at, typ, data) ==>
                  p == Fragment(typ, data, at + HEADER_SIZE + |data|))
            && (p.EndOfFile? <==> at + HEADER_SIZE > |file|
                                  || (|file| < Boundary(at) && at + HEADER_SIZE + LengthAt(file, at) > |file|))
            && (p.BadRecord? ==>
                  && at + HEADER_SIZE <= |file|
                  && p.next == (if Boundary(at) <= |file| then Boundary(at) else |file|)
                  && if file[at + 6] == ZERO_TYPE && LengthAt(file, at) == 0 then p.reports == []
                     else |p.reports| == 1 && p.reports[0].bytes == p.next - at)
  {
    hide Start, NextPiece, Stands;
    var p, at := NextPiece(crc, checksum, file, pos), Start(pos);
    PieceStart(crc, checksum, file, pos);
    if at + HEADER_SIZE <= |file| {
      var end := if Boundary(at) <= |file| then Boundary(at) else |file|;
      ParsedStands(crc, checksum, file, at, end);
      forall typ, data | Stands(crc, checksum, file, at, typ, data)
        ensures p == Fragment(typ, data, at + HEADER_SIZE + |data|)
      {
        StandingParses(crc, checksum, file, at, end, typ, data);
      }
    } else {
      forall typ, data
        ensures !Stands(crc, checksum, file, at, typ, data)
      {
        StandsInside(crc, checksum, file, at, typ, data);
      }
    }
  }

  lemma {:induction false} StandsInside(crc: Checksum, checksum: bool, file: Bytes, at: nat, typ: byte, data: Bytes)
    ensures Stands(crc, checksum, file, at, typ, data) ==> at + HEADER_SIZE <= |file|
  {
  }

  lemma {:induction false} SliceOfSlice(file: Bytes, a: nat, b: nat, i: nat, j: nat)
    requires a <= b <= |file| && i <= j <= b - a
    ensures file[a..b][i..j] == file[a + i..a + j]
  {
    var x, y := file[a..b][i..j], file[a + i..a + j];
    assert |x| == |y| && forall k :: 0 <= k < |x| ==> x[k] == file[a..b][i + k] == y[k];
  }

  lemma {:induction false} ParsedStands(crc: Checksum, checksum: bool, file: Bytes, at: nat, end: nat)
    requires at + HEADER_SIZE <= end == (if Boundary(at) <= |file| then Boundary(at) else |file|)
    ensures var p := Parse(crc, checksum, file[at..end], end, |file| < Boundary(at));
            && (p.Fragment? ==> Stands(crc, checksum, file, at, p.typ, p.data) && p.next == at + HEADER_SIZE + |p.data|)
            && (p.EndOfFile? <==> |file| < Boundary(at) && at + HEADER_SIZE + LengthAt(file, at) > |file|)
            && (p.BadRecord? ==>
                  && p.next == end
                  && if file[at + 6] == ZERO_TYPE && LengthAt(file, at) == 0 then p.reports == []
                     else |p.reports| == 1 && p.reports[0].bytes == end - at)
  {
    var buffer, length := file[at..end], LengthAt(file, at);
    SliceOfSlice(file, at, end, 0, 4);
    assert Length(buffer) == length && buffer[6] == file[at + 6] && buffer[..4] == buffer[0..4];
    if HEADER_SIZE + length <= |buffer| {
      var data := buffer[HEADER_SIZE..HEADER_SIZE + length];
      SliceOfSlice(file, at, end, HEADER_SIZE, HEADER_SIZE + length);
      assert buffer[6..HEADER_SIZE + length] == [buffer[6]] + data;
    }
  }

  lemma {:induction false} StandingParses(crc: Checksum, checksum: bool, file: Bytes, at: nat, end: nat, typ: byte, data: Bytes)
    requires at + HEADER_SIZE <= end == (if Boundary(at) <= |file| then Boundary(at) else |file|)
    requires Stands(crc, checksum, file, at, typ, data)
    ensures Parse(crc, checksum, file[at..end], end, |file| < Boundary(at)) == Fragment(typ, data, at + HEADER_SIZE + |data|)
  {
    var buffer := file[at..end];
    SliceOfSlice(file, at, end, 0, 4);
    SliceOfSlice(file, at, end, HEADER_SIZE, HEADER_SIZE + |data|);
    assert Length(buffer) == |data| && buffer[6] == typ && buffer[..4] == buffer[0..4];
    assert buffer[6..HEADER_SIZE + |data|] == [typ] + data;
  }

  // ----- no record is made up -----

  datatype Standing = Standing(at: nat, data: Bytes)

  function EndOf(s: Standing): nat {
    s.at + HEADER_SIZE + |s.data|
  }

  function Joined(chain: seq<Standing>): Bytes {
    if chain == [] then [] else Joined(chain[..|chain| - 1]) + chain[|chain| - 1].data
  }

  /** Fragments that stand in the file one right behind the other, the first of them as the first of a record, and the
      others as its middle. */
  ghost predicate Open(crc: Checksum, checksum: bool, file: Bytes, chain: seq<Standing>) {
    && chain != []
    && (forall i :: 0 <= i < |chain| ==>
          Stands(crc, checksum, file, chain[i].at, if i == 0 then FIRST_TYPE else MIDDLE_TYPE, chain[i].data))
    && (forall i :: 0 < i < |chain| ==> chain[i].at == Start(EndOf(chain[i - 1])))
  }

  /** All the fragments of one record: a full one, or a first one with others behind it that ends with a last one. */
  ghost predicate Whole(crc: Checksum, checksum: bool, file: Bytes, chain: seq<Standing>) {
    && chain != []
    && var n := |chain| - 1;
       if n == 0 then Stands(crc, checksum, file, chain[0].at, FULL_TYPE, chain[0].data)
       else
         && Open(crc, checksum, file, chain[..n])
         && Stands(crc, checksum, file, chain[n].at, LAST_TYPE, chain[n].data)
         && chain[n].at == Start(EndOf(chain[n - 1]))
  }

  lemma {:induction false} NotEmpty(crc: Checksum, checksum: bool, file: Bytes, chain: seq<Standing>)
    ensures Open(crc, checksum, file, chain) || Whole(crc, checksum, file, chain) ==> chain != []
  {
  }

  /** What is being put together stands in the file, right before `pos`. */
  ghost predicate Held(crc: Checksum, checksum: bool, file: Bytes, pos: nat, state: Partial, chain: seq<Standing>) {
    state.inside ==>
      && Open(crc, checksum, file, chain) && Joined(chain) == state.scratch
      && chain[0].at == state.offset && EndOf(chain[|chain| - 1]) == pos
  }

  lemma {:induction false} JoinedOne(chain: seq<Standing>, s: Standing)
    ensures Joined(chain + [s]) == Joined(chain) + s.data
    ensures Joined([s]) == s.data
  {
    assert (chain + [s])[..|chain|] == chain;
    assert [s][..0] == [] && [] + s.data == s.data;
  }

  /** A fragment right behind the ones before it. */
  lemma {:induction false} ChainGrows(crc: Checksum, checksum: bool, file: Bytes, chain: seq<Standing>, s: Standing)
    requires Open(crc, checksum, file, chain) && s.at == Start(EndOf(chain[|chain| - 1]))
    ensures Stands(crc, checksum, file, s.at, MIDDLE_TYPE, s.data) ==> Open(crc, checksum, file, chain + [s])
    ensures Stands(crc, checksum, file, s.at, LAST_TYPE, s.data) ==> Whole(crc, checksum, file, chain + [s])
    ensures (chain + [s])[0].at == chain[0].at <= chain[|chain| - 1].at < s.at
  {
    hide Stands;
    assert (chain + [s])[..|chain|] == chain;
    ChainAscends(crc, checksum, file, chain, 0);
  }

  lemma {:induction false} ChainBegins(crc: Checksum, checksum: bool, file: Bytes, s: Standing)
    ensures Stands(crc, checksum, file, s.at, FIRST_TYPE, s.data) ==> Open(crc, checksum, file, [s])
    ensures Stands(crc, checksum, file, s.at, FULL_TYPE, s.data) ==> Whole(crc, checksum, file, [s])
  {
    hide Stands;
  }

  /** One more fragment: what is completed, or still being put together, stands in the file. */
  lemma {:induction false} FedStands(crc: Checksum, checksum: bool, file: Bytes, pos: nat, state: Partial, chain: seq<Standing>)
    returns (more: seq<Standing>)
    requires pos <= |file| && Held(crc, checksum, file, pos, state, chain)
    ensures var p := NextPiece(crc, checksum, file, pos);
            && (p.Fragment? || p.BadRecord? ==> Feed(p, state).Incomplete? ==>
                  Held(crc, checksum, file, p.next, Feed(p, state).state, more)
                  && (Feed(p, state).state.inside ==> more != [] && more[0].at >= (if state.inside then chain[0].at else pos)))
            && (p.Fragment? || p.BadRecord? ==> Feed(p, state).Complete? ==>
                  more != [] && Whole(crc, checksum, file, more) && Joined(more) == Feed(p, state).record
                  && more[0].at == Feed(p, state).offset && EndOf(more[|more| - 1]) == p.next
                  && more[0].at >= (if state.inside then chain[0].at else pos))
    ensures state.inside ==> chain != [] && chain[0].at <= pos
  {
    hide NextPiece, Stands, Joined, Open, Whole, Start;
    var p := NextPiece(crc, checksum, file, pos);
    PieceIs(crc, checksum, file, pos);
    var s := Standing(Start(pos), if p.Fragment? then p.data else []);
    StartIs(pos);
    ChainBegins(crc, checksum, file, s);
    JoinedOne(chain, s);
    if state.inside {
      NotEmpty(crc, checksum, file, chain);
      ChainGrows(crc, checksum, file, chain, s);
    }
    more := if p.Fragment? && state.inside && (p.typ == MIDDLE_TYPE || p.typ == LAST_TYPE) then chain + [s] else [s];
  }

  lemma {:induction false} StartIs(pos: nat)
    ensures pos <= Start(pos)
  {
  }

  lemma {:induction false} ChainAscends(crc: Checksum, checksum: bool, file: Bytes, chain: seq<Standing>, i: nat)
    requires Open(crc, checksum, file, chain) && i < |chain|
    ensures chain[i].at <= chain[|chain| - 1].at < EndOf(chain[|chain| - 1])
    decreases |chain| - i
  {
    hide Stands;
    if i + 1 < |chain| {
      ChainAscends(crc, checksum, file, chain, i + 1);
    }
  }

  /** A record the reader returns, of any file, is one whose fragments stand in the file one behind the other. */
  lemma {:induction false} RecordStands(crc: Checksum, checksum: bool, file: Bytes, pos: nat, state: Partial, chain: seq<Standing>)
    returns (whole: seq<Standing>)
    requires pos <= |file| && Held(crc, checksum, file, pos, state, chain)
    ensures var r := NextRecord(crc, checksum, file, pos, state);
            r.Got? ==>
              && Whole(crc, checksum, file, whole) && Joined(whole) == r.record
              && whole[0].at == r.offset && EndOf(whole[|whole| - 1]) == r.next
              && whole[0].at >= (if state.inside then chain[0].at else pos)
    decreases |file| - pos
  {
    hide NextPiece, Feed, NextRecord, Whole, Joined, Open;
    var p := NextPiece(crc, checksum, file, pos);
    RecordStep(crc, checksum, file, pos, state);
    whole := FedStands(crc, checksum, file, pos, state, chain);
    if !p.EndOfFile? && Feed(p, state).Incomplete? {
      var next := Feed(p, state).state;
      whole := RecordStands(crc, checksum, file, p.next, next, whole);
      ReportedTwice((if p.BadRecord? then p.reports else []) + Feed(p, state).reports, [], NextRecord(crc, checksum, file, p.next, next));
    }
  }

  /** The records stand in the file from `from` on, whole, in order and apart from one another. */
  ghost predicate AllStand(crc: Checksum, checksum: bool, file: Bytes, from: nat, records: seq<Bytes>, chains: seq<seq<Standing>>)
    decreases |records|
  {
    && |chains| == |records|
    && (records != [] ==>
          && Whole(crc, checksum, file, chains[0]) && chains[0] != []
          && Joined(chains[0]) == records[0] && from <= chains[0][0].at
          && AllStand(crc, checksum, file, EndOf(chains[0][|chains[0]| - 1]), records[1..], chains[1..]))
  }

  /** The reader makes nothing up: the records it gets out of a file, damaged or not, stand in it. */
  lemma {:induction false} NothingIsMadeUp(crc: Checksum, checksum: bool, file: Bytes, pos: nat) returns (chains: seq<seq<Standing>>)
    requires pos <= |file|
    ensures AllStand(crc, checksum, file, pos, ReadAll(crc, checksum, file, pos).records, chains)
    decreases |file| - pos
  {
    hide NextRecord, Whole, Joined;
    var r := NextRecord(crc, checksum, file, pos, NO_RECORD);
    var whole := RecordStands(crc, checksum, file, pos, NO_RECORD, []);
    if r.Got? {
      var others := NothingIsMadeUp(crc, checksum, file, r.next);
      chains := [whole] + others;
      var records := ReadAll(crc, checksum, file, r.next).records;
      assert ReadAll(crc, checksum, file, pos).records == [r.record] + records;
      assert ([r.record] + records)[1..] == records && chains[1..] == others;
      NotEmpty(crc, checksum, file, whole);
    } else {
      chains := [];
    }
  }

  // ----- nothing is dropped without a report -----

  function Dropped(reports: seq<Report>): nat {
    if reports == [] then 0 else Dropped(reports[..|reports| - 1]) + reports[|reports| - 1].bytes
  }

  function Unfinished(state: Partial): nat {
    if state.inside then |state.scratch| else 0
  }

  /** Payload is returned, kept for the record being put together, or reported as dropped, byte for byte; except that of a
      fragment whose type happens to be the number that stands for a bad record. */
  lemma {:induction false} PayloadIsAccountedFor(p: Piece, state: Partial)
    requires (p.Fragment? ==> p.next >= HEADER_SIZE + |p.data|) && !Feed(p, state).Ends?
    ensures var fed := Feed(p, state);
            var came := Unfinished(state) + if p.Fragment? then |p.data| else 0;
            var went := Dropped(fed.reports) + if fed.Complete? then |fed.record| else Unfinished(fed.state);
            came == went <==> !(p.Fragment? && p.typ == BAD_RECORD_TYPE && p.data != [])
  {
    var reports := Feed(p, state).reports;
    assert |reports| <= 1;
    if reports != [] {
      assert reports[..|reports| - 1] == [];
    }
  }

  // ----- behind the damage -----

  function ReadFrom(crc: Checksum, checksum: bool, file: Bytes, pos: nat, state: Partial): seq<Bytes>
    requires pos <= |file|
  {
    match NextRecord(crc, checksum, file, pos, state)
    case NoMore(_, _) => []
    case Got(record, _, next, _) => [record] + ReadAll(crc, checksum, file, next).records
  }

  lemma {:induction false} FromFresh(crc: Checksum, checksum: bool, file: Bytes, pos: nat)
    requires pos <= |file|
    ensures ReadFrom(crc, checksum, file, pos, NO_RECORD) == ReadAll(crc, checksum, file, pos).records
  {
    hide NextRecord;
  }

  lemma {:induction false} FromStep(crc: Checksum, checksum: bool, file: Bytes, pos: nat, state: Partial)
    requires pos <= |file|
    ensures var p := NextPiece(crc, checksum, file, pos);
            ReadFrom(crc, checksum, file, pos, state)
            == if p.EndOfFile? || Feed(p, state).Ends? then []
               else if Feed(p, state).Complete? then [Feed(p, state).record] + ReadAll(crc, checksum, file, p.next).records
               else ReadFrom(crc, checksum, file, p.next, Feed(p, state).state)
  {
    hide NextPiece, Feed, NextRecord, ReadAll;
    RecordStep(crc, checksum, file, pos, state);
  }

  /** Reading from `pos` gets, unless a fragment whose type is taken for the end of the file stands before it, to the
      block boundary `b`. */
  lemma {:induction false} GetsThere(crc: Checksum, checksum: bool, file: Bytes, pos: nat, b: nat, state: Partial)
    returns (got: seq<Bytes>, next: Partial, stop: Option<Standing>)
    requires pos <= b <= |file| && b % BLOCK_SIZE == 0
    ensures stop.None? ==> ReadFrom(crc, checksum, file, pos, state) == got + ReadFrom(crc, checksum, file, b, next)
    ensures stop.Some? ==> stop.value.at < b && Stands(crc, checksum, file, stop.value.at, EOF_TYPE, stop.value.data)
    decreases b - pos
  {
    hide NextPiece, Feed, ReadFrom, Stands, ReadAll;
    if pos == b {
      got, next, stop := [], state, None;
    } else {
      var p := NextPiece(crc, checksum, file, pos);
      TrailerFits(pos);
      BoundaryBelow(pos, b);
      FromStep(crc, checksum, file, pos, state);
      if Trailer(pos) > 0 {
        TrailerSkipped(crc, checksum, file, pos);
        FromStep(crc, checksum, file, Start(pos), state);
        got, next, stop := GetsThere(crc, checksum, file, Start(pos), b, state);
      } else {
        PieceIs(crc, checksum, file, pos);
        PieceInBlock(crc, checksum, file, pos);
        if Feed(p, state).Ends? {
          EndsHow(p, state);
          got, next, stop := [], state, Some(Standing(pos, p.data));
        } else if Feed(p, state).Complete? {
          got, next, stop := GetsThere(crc, checksum, file, p.next, b, NO_RECORD);
          FromFresh(crc, checksum, file, p.next);
          got := [Feed(p, state).record] + got;
        } else {
          got, next, stop := GetsThere(crc, checksum, file, p.next, b, Feed(p, state).state);
        }
      }
    }
  }

  lemma {:induction false} EndsHow(p: Piece, state: Partial)
    requires (p.Fragment? ==> p.next >= HEADER_SIZE + |p.data|) && !p.EndOfFile? && Feed(p, state).Ends?
    ensures p.Fragment? && p.typ == EOF_TYPE
  {
  }

  lemma {:induction false} BoundaryBelow(pos: nat, b: nat)
    requires pos < b && b % BLOCK_SIZE == 0
    ensures Boundary(pos) <= b && Start(pos) <= b
    ensures Trailer(pos) > 0 ==> pos < Start(pos)
  {
  }

  lemma {:induction false} PieceInBlock(crc: Checksum, checksum: bool, file: Bytes, pos: nat)
    requires Boundary(pos) <= |file| && Trailer(pos) == 0
    ensures var p := NextPiece(crc, checksum, file, pos);
            !p.EndOfFile? && p.next <= Boundary(pos)
  {
    hide NextPiece;
    PieceIs(crc, checksum, file, pos);
    TrailerFits(pos);
  }

  /** A record that begins makes the reader forget what it was putting together. */
  lemma {:induction false} BeginningForgets(crc: Checksum, checksum: bool, file: Bytes, pos: nat, state: Partial)
    requires pos <= |file|
    requires var p := NextPiece(crc, checksum, file, pos); p.EndOfFile? || (p.Fragment? && (p.typ == FULL_TYPE || p.typ == FIRST_TYPE))
    ensures ReadFrom(crc, checksum, file, pos, state) == ReadFrom(crc, checksum, file, pos, NO_RECORD)
  {
    hide NextPiece, ReadFrom, ReadAll;
    FromStep(crc, checksum, file, pos, state);
    FromStep(crc, checksum, file, pos, NO_RECORD);
  }

  lemma {:induction false} LogBegins(crc: Checksum, checksum: bool, whole: Bytes, n: nat, file: Bytes, pos: nat, records: seq<Bytes>)
    requires CutOf(whole, n, file, pos, Log(crc, pos, records)) && pos + |Log(crc, pos, records)| == |whole|
    ensures pos <= |file|
    ensures var p := NextPiece(crc, checksum, file, pos); p.EndOfFile? || (p.Fragment? && (p.typ == FULL_TYPE || p.typ == FIRST_TYPE))
  {
    hide NextPiece, Emission, CutOf;
    Within(whole, n, file, pos, Log(crc, pos, records));
    if records == [] {
      PieceIs(crc, checksum, file, pos);
    } else {
      var first := Emission(crc, pos, records[0], true);
      var fragment := FragmentBytes(crc, pos, records[0], true);
      EmissionStep(crc, pos, records[0], true);
      CutSplit(whole, n, file, pos, first, Log(crc, pos + |first|, records[1..]));
      CutSplit(whole, n, file, pos, fragment, first[|fragment|..]);
      assert first == fragment + first[|fragment|..];
      FragmentRead(crc, checksum, whole, n, file, pos, records[0], true);
    }
  }

  /** Whatever is in the first blocks of a file, a log that begins at the next block boundary is read in full, up to
      where the file is cut, after whatever is made of those blocks; unless they hold a fragment with a correct
      checksum and the type that stands for the end of the file. */
  lemma {:induction false} FindsItsWay(crc: Checksum, checksum: bool, damaged: Bytes, records: seq<Bytes>, n: nat)
    requires |damaged| % BLOCK_SIZE == 0 && |damaged| <= n <= |damaged + Log(crc, |damaged|, records)|
    ensures var file := (damaged + Log(crc, |damaged|, records))[..n];
            || (exists got :: ReadAll(crc, checksum, file, 0).records == got + records[..WholeRecords(crc, |damaged|, records, n)])
            || (exists at: nat, data :: at < |damaged| && Stands(crc, checksum, file, at, EOF_TYPE, data))
  {
    hide ReadAll, ReadFrom, Log, NextPiece, Stands, WholeRecords;
    var b := |damaged|;
    var log := Log(crc, b, records);
    var whole := damaged + log;
    var file := whole[..n];
    assert whole[b..b + |log|] == log;
    var got, next, stop := GetsThere(crc, checksum, file, 0, b, NO_RECORD);
    if stop.None? {
      FromFresh(crc, checksum, file, 0);
      LogBegins(crc, checksum, whole, n, file, b, records);
      BeginningForgets(crc, checksum, file, b, next);
      FromFresh(crc, checksum, file, b);
      TruncatedLogReads(crc, checksum, whole, n, file, b, records);
      assert ReadAll(crc, checksum, file, 0).records == got + records[..WholeRecords(crc, b, records, n)];
    }
  }
}

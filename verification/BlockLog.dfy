/** The block-structured log: a writer that cuts records into fragments that never cross a
    32 KiB block, and a reader that reassembles them and survives a file cut at any byte. */
module BlockLog {
  import opened Coding
  import opened Options

  const BLOCK_SIZE: nat := 32768
  const HEADER_SIZE: nat := 7
  const MASK_DELTA: nat := 0xa282_ead8

  /** The byte-at-a-time update of the checksum; its bit mixing plays no part here. */
  type CrcStep = (Word, byte) -> Word

  const FULL: byte := 1
  const FIRST: byte := 2
  const MIDDLE: byte := 3
  const LAST: byte := 4

  /** The reader returns these where there is no record; on disk they would mean the same. */
  const EOF_TYPE: byte := 5
  const BAD_TYPE: byte := 6

  // ---------- checksums ----------

  function Extend(step: CrcStep, crc: Word, data: seq<byte>): Word
    decreases |data|
  {
    if data == [] then crc else Extend(step, step(crc, data[0]), data[1..])
  }

  lemma {:induction false} ExtendConcat(step: CrcStep, crc: Word, a: seq<byte>, b: seq<byte>)
    ensures Extend(step, crc, a + b) == Extend(step, Extend(step, crc, a), b)
    decreases |a|
  {
    if a == [] {
      assert a + b == b;
    } else {
      assert (a + b)[1..] == a[1..] + b;
      ExtendConcat(step, step(crc, a[0]), a[1..], b);
    }
  }

  /** Rotate right by 15 bits and add a constant. */
  function Mask(crc: Word): Word {
    (crc / 0x8000 + (crc % 0x8000) * 0x2_0000 + MASK_DELTA) % WORD
  }

  function Unmask(masked: Word): Word {
    var rot: Word := (masked + WORD - MASK_DELTA) % WORD;
    rot / 0x2_0000 + (rot % 0x2_0000) * 0x8000
  }

  lemma {:induction false} MaskRoundTrip(crc: Word)
    ensures Unmask(Mask(crc)) == crc
  {
    var hi, lo := crc / 0x8000, crc % 0x8000;
    var rot := hi + lo * 0x2_0000;
    assert 0 <= hi < 0x2_0000 && 0 <= rot < WORD;
    assert (Mask(crc) + WORD - MASK_DELTA) % WORD == rot;
    assert rot / 0x2_0000 == lo && rot % 0x2_0000 == hi;
  }

  // ---------- the writer ----------

  /** Checksum of the type byte and the payload, length, type. */
  function Header(step: CrcStep, t: byte, payload: seq<byte>): (s: seq<byte>)
    requires |payload| <= 0xffff
    ensures |s| == HEADER_SIZE
  {
    Fixed32(Mask(Extend(step, Extend(step, 0, [t]), payload))) + [|payload| % 256, |payload| / 256, t]
  }

  function Physical(step: CrcStep, t: byte, payload: seq<byte>): (s: seq<byte>)
    requires |payload| <= 0xffff
    ensures |s| == HEADER_SIZE + |payload|
  {
    Header(step, t, payload) + payload
  }

  /** Bytes of the trailer that a fragment at block offset `off` skips first. */
  function Gap(off: nat): (g: nat)
    requires off < BLOCK_SIZE
  {
    if BLOCK_SIZE - off < HEADER_SIZE then BLOCK_SIZE - off else 0
  }

  /** Payload bytes that fit into the block after the header. */
  function Room(off: nat): (r: nat)
    requires off < BLOCK_SIZE
  {
    (if BLOCK_SIZE - off < HEADER_SIZE then BLOCK_SIZE else BLOCK_SIZE - off) - HEADER_SIZE
  }

  function FragmentType(begin: bool, end: bool): byte {
    if begin && end then FULL else if begin then FIRST else if end then LAST else MIDDLE
  }

  function Fragment(step: CrcStep, off: nat, t: byte, payload: seq<byte>): (s: seq<byte>)
    requires off < BLOCK_SIZE && |payload| <= Room(off)
    ensures |s| == Gap(off) + HEADER_SIZE + |payload|
  {
    Zeros(Gap(off)) + Physical(step, t, payload)
  }

  /** What AddRecord appends at block offset `off`; `begin` is false after the first fragment. */
  function Emit(step: CrcStep, off: nat, data: seq<byte>, begin: bool): (s: seq<byte>)
    requires off < BLOCK_SIZE
    ensures |s| >= HEADER_SIZE
    decreases |data|, if Room(off) == 0 then 1 else 0
  {
    var room := Room(off);
    if |data| <= room then Fragment(step, off, FragmentType(begin, true), data)
    else Fragment(step, off, FragmentType(begin, false), data[..room]) + Emit(step, 0, data[room..], false)
  }

  /** What appending all records, one after the other, adds to a file of length `at`. */
  function Log(step: CrcStep, at: nat, records: seq<seq<byte>>): seq<byte>
    decreases |records|
  {
    if records == [] then []
    else
      var first := Emit(step, at % BLOCK_SIZE, records[0], true);
      first + Log(step, at + |first|, records[1..])
  }

  class Writer {
    const step: CrcStep
    var dest: seq<byte>
    var blockOffset: nat

    ghost predicate Valid()
      reads this
    {
      blockOffset <= BLOCK_SIZE && Offset() == |dest| % BLOCK_SIZE
    }

    /** A full block and an empty one are the same place. */
    ghost function Offset(): nat
      reads this
    {
      if blockOffset == BLOCK_SIZE then 0 else blockOffset
    }

    constructor (step: CrcStep, existing: seq<byte>)
      ensures Valid() && dest == existing && this.step == step
    {
      this.step := step;
      dest := existing;
      blockOffset := |existing| % BLOCK_SIZE;
    }

    method EmitPhysicalRecord(t: byte, payload: seq<byte>)
      requires Valid() && blockOffset + HEADER_SIZE + |payload| <= BLOCK_SIZE
      modifies this
      ensures Valid() && dest == old(dest) + Physical(step, t, payload)
      ensures blockOffset == old(blockOffset) + HEADER_SIZE + |payload|
    {
      hide Header;
      ghost var q := |dest| / BLOCK_SIZE;
      dest := dest + Header(step, t, payload);
      dest := dest + payload;
      blockOffset := blockOffset + HEADER_SIZE + |payload|;
      ModOf(|dest|, if blockOffset == BLOCK_SIZE then q + 1 else q, Offset());
    }

    /** Fill the trailer and switch to a new block when no header fits any more. */
    method SwitchBlock()
      requires Valid()
      modifies this
      ensures Valid() && dest == old(dest) + Zeros(Gap(old(Offset())))
      ensures blockOffset + HEADER_SIZE + Room(old(Offset())) == BLOCK_SIZE
    {
      var leftover := BLOCK_SIZE - blockOffset;
      if leftover < HEADER_SIZE {
        if leftover > 0 {
          dest := dest + Zeros(leftover);
        }
        blockOffset := 0;
      }
      assert old(dest) + Zeros(0) == old(dest);
    }

    /** One turn of the loop in AddRecord. */
    method EmitFragment(left: seq<byte>, begin: bool) returns (length: nat)
      requires Valid()
      modifies this
      ensures Valid()
      ensures length == if |left| < Room(old(Offset())) then |left| else Room(old(Offset()))
      ensures dest == old(dest) + Fragment(step, old(Offset()), FragmentType(begin, |left| == length), left[..length])
      ensures length < |left| ==> Offset() == 0
    {
      SwitchBlock();
      var avail := BLOCK_SIZE - blockOffset - HEADER_SIZE;
      length := if |left| < avail then |left| else avail;
      EmitPhysicalRecord(FragmentType(begin, |left| == length), left[..length]);
    }

    method AddRecord(data: seq<byte>)
      requires Valid()
      modifies this
      ensures Valid() && dest == old(dest) + Emit(step, old(|dest| % BLOCK_SIZE), data, true)
    {
      var left := data;
      var begin := true;
      var more := true;
      ghost var goal := dest + Emit(step, Offset(), data, true);
      while more
        invariant Valid()
        invariant more ==> dest + Emit(step, Offset(), left, begin) == goal
        invariant !more ==> dest == goal
        decreases more, |left|, if Room(Offset()) == 0 then 1 else 0
      {
        EmitUnfolds(step, Offset(), left, begin);
        ghost var before, off := dest, Offset();
        var length := EmitFragment(left, begin);
        ghost var fragment := Fragment(step, off, FragmentType(begin, |left| == length), left[..length]);
        if length < |left| {
          ghost var rest := Emit(step, 0, left[length..], false);
          assert goal == before + (fragment + rest);
          Reassociate(before, fragment, rest);
          assert dest + rest == goal;
        }
        left := left[length..];
        begin := false;
        more := |left| > 0;
      }
    }
  }

  /** The first fragment of a record, and what follows it. */
  lemma {:induction false} EmitUnfolds(step: CrcStep, off: nat, data: seq<byte>, begin: bool)
    requires off < BLOCK_SIZE
    ensures var room := Room(off);
      var n := if |data| < room then |data| else room;
      Emit(step, off, data, begin) == Fragment(step, off, FragmentType(begin, |data| == n), data[..n])
                                      + if |data| <= room then [] else Emit(step, 0, data[room..], false)
  {
    assert data[..|data|] == data;
  }

  /** A record takes as few fragments as its blocks allow, and adds nothing but their headers and the
      trailer of the first block. */
  lemma {:induction false} EmitSize(step: CrcStep, off: nat, data: seq<byte>, begin: bool)
    requires off < BLOCK_SIZE
    ensures var room, most := Room(off), BLOCK_SIZE - HEADER_SIZE;
      |Emit(step, off, data, begin)|
      == Gap(off) + |data| + HEADER_SIZE * if |data| <= room then 1 else 1 + (|data| - room + most - 1) / most
    decreases |data|, if Room(off) == 0 then 1 else 0
  {
    hide Fragment;
    if |data| > Room(off) {
      EmitSize(step, 0, data[Room(off)..], false);
    }
  }

  lemma {:induction false} Reassociate(a: seq<byte>, b: seq<byte>, c: seq<byte>)
    ensures (a + b) + c == a + (b + c)
  {
  }

  // ---------- the reader ----------

  /** `pos` is the end of the last block read, `buffer` what is left of that block, `reports`
      the number of corruptions reported so far. */
  datatype ReaderState = ReaderState(pos: nat, buffer: seq<byte>, eof: bool, reports: nat)

  datatype Outcome = Rec(t: byte, payload: seq<byte>) | Eof | Bad

  function Typed(t: byte, payload: seq<byte>): Outcome {
    if t == EOF_TYPE then Eof else if t == BAD_TYPE then Bad else Rec(t, payload)
  }

  function Refill(file: seq<byte>, r: ReaderState): ReaderState
    requires r.pos <= |file|
  {
    var end := if r.pos + BLOCK_SIZE <= |file| then r.pos + BLOCK_SIZE else |file|;
    ReaderState(end, file[r.pos..end], end - r.pos < BLOCK_SIZE, r.reports)
  }

  function LengthAt(buffer: seq<byte>): nat
    requires |buffer| >= HEADER_SIZE
  {
    buffer[4] as int + 256 * buffer[5] as int
  }

  predicate ChecksumOk(step: CrcStep, buffer: seq<byte>)
    requires |buffer| >= HEADER_SIZE && HEADER_SIZE + LengthAt(buffer) <= |buffer|
  {
    Extend(step, 0, buffer[6..HEADER_SIZE + LengthAt(buffer)]) == Unmask(DecodeFixed32(buffer[..4]))
  }

  /** Parse one physical record out of a buffer that has a whole header. */
  function Parse(step: CrcStep, checksum: bool, r: ReaderState): (Outcome, ReaderState)
    requires |r.buffer| >= HEADER_SIZE
  {
    var length, t := LengthAt(r.buffer), r.buffer[6];
    if HEADER_SIZE + length > |r.buffer| then
      if r.eof then (Eof, r.(buffer := [])) else (Bad, r.(buffer := [], reports := r.reports + 1))
    else if t == 0 && length == 0 then (Bad, r.(buffer := []))
    else if checksum && !ChecksumOk(step, r.buffer) then (Bad, r.(buffer := [], reports := r.reports + 1))
    else (Typed(t, r.buffer[HEADER_SIZE..HEADER_SIZE + length]), r.(buffer := r.buffer[HEADER_SIZE + length..]))
  }

  function ReadPhysical(step: CrcStep, checksum: bool, file: seq<byte>, r: ReaderState): (Outcome, ReaderState)
    requires r.pos <= |file|
  {
    var r' := if |r.buffer| < HEADER_SIZE && !r.eof then Refill(file, r) else r;
    if |r'.buffer| < HEADER_SIZE then (Eof, r'.(buffer := [])) else Parse(step, checksum, r')
  }

  function Remaining(file: seq<byte>, r: ReaderState): nat
    requires r.pos <= |file|
  {
    |file| - r.pos + |r.buffer|
  }

  function Report(r: ReaderState, when: bool): ReaderState {
    if when then r.(reports := r.reports + 1) else r
  }

  datatype Progress = Finished(record: Option<seq<byte>>, r: ReaderState)
                    | Continue(r: ReaderState, scratch: seq<byte>, inside: bool)

  /** What one physical record does to the record being put together. */
  function Assemble(o: Outcome, r: ReaderState, scratch: seq<byte>, inside: bool): Progress {
    match o
    case Eof => Finished(None, r)
    case Bad => if inside then Continue(Report(r, true), [], false) else Continue(r, scratch, false)
    case Rec(t, payload) =>
      if t == FULL then Finished(Some(payload), Report(r, inside && scratch != []))
      else if t == FIRST then Continue(Report(r, inside && scratch != []), payload, true)
      else if t == MIDDLE then
        if inside then Continue(r, scratch + payload, true) else Continue(Report(r, true), scratch, false)
      else if t == LAST then
        if inside then Finished(Some(scratch + payload), r) else Continue(Report(r, true), scratch, false)
      else Continue(Report(r, true), [], false)
  }

  lemma {:induction false} PhysicalProgress(step: CrcStep, checksum: bool, file: seq<byte>, r: ReaderState)
    requires r.pos <= |file|
    ensures var (o, r') := ReadPhysical(step, checksum, file, r);
      r'.pos <= |file| && (!o.Eof? ==> Remaining(file, r') < Remaining(file, r))
  {
  }

  /** Read one physical record and add it to the record being put together. */
  function Step(step: CrcStep, checksum: bool, file: seq<byte>, r: ReaderState, scratch: seq<byte>,
                inside: bool): (p: Progress)
    requires r.pos <= |file|
    ensures p.r.pos <= |file|
    ensures p.Continue? || p.record.Some? ==> Remaining(file, p.r) < Remaining(file, r)
  {
    PhysicalProgress(step, checksum, file, r);
    var (o, r') := ReadPhysical(step, checksum, file, r);
    Assemble(o, r', scratch, inside)
  }

  /** Reassemble one record; `scratch` holds the fragments seen so far. */
  function ReadRecord(step: CrcStep, checksum: bool, file: seq<byte>, r: ReaderState, scratch: seq<byte>, inside: bool)
    : (x: (Option<seq<byte>>, ReaderState))
    requires r.pos <= |file|
    ensures x.1.pos <= |file|
    ensures x.0.Some? ==> Remaining(file, x.1) < Remaining(file, r)
    decreases Remaining(file, r)
  {
    match Step(step, checksum, file, r, scratch, inside)
    case Finished(record, r'') => (record, r'')
    case Continue(r'', scratch', inside') => ReadRecord(step, checksum, file, r'', scratch', inside')
  }

  function ReadAll(step: CrcStep, checksum: bool, file: seq<byte>, r: ReaderState): (x: (seq<seq<byte>>, ReaderState))
    requires r.pos <= |file|
    decreases Remaining(file, r)
  {
    var (record, r') := ReadRecord(step, checksum, file, r, [], false);
    if record.None? then ([], r')
    else
      var (rest, r'') := ReadAll(step, checksum, file, r');
      ([record.value] + rest, r'')
  }

  /** The buffer is a suffix of one block of the file; reads happen at block boundaries. */
  ghost predicate Aligned(file: seq<byte>, r: ReaderState) {
    && |r.buffer| <= r.pos <= |file| && |r.buffer| <= BLOCK_SIZE
    && r.buffer == file[r.pos - |r.buffer|..r.pos]
    && (!r.eof ==> r.pos % BLOCK_SIZE == 0)
    && (r.eof ==> r.pos == |file| && |r.buffer| <= |file| % BLOCK_SIZE)
  }

  /** File position of the next unread byte. */
  function At(r: ReaderState): int {
    r.pos - |r.buffer|
  }

  /** In what is left of the block, or at the start of the next one. */
  function NextHeader(r: ReaderState): int {
    if |r.buffer| < HEADER_SIZE && !r.eof then r.pos else At(r)
  }

  /** What a read answers when the next header is at `p` and `r` is the state of the reader after it:
      the end of the file, damage, which drops the rest of the block, or a fragment. */
  ghost predicate Answers(step: CrcStep, checksum: bool, file: seq<byte>, p: int, reports: nat, o: Outcome,
                          r: ReaderState)
  {
    0 <= p <= r.pos <= |file|
    && if r.pos - p < HEADER_SIZE then o == Eof && r.buffer == [] && r.reports == reports
       else
         var n := file[p + 4] as int + 256 * file[p + 5] as int;
         var end := p + HEADER_SIZE + n;
         && (end > r.pos && r.eof ==> o == Eof && r.buffer == [] && r.reports == reports)
         && (end > r.pos && !r.eof ==> o == Bad && r.buffer == [] && r.reports == reports + 1)
         && (end <= r.pos && file[p + 6] == 0 && n == 0 ==> o == Bad && r.buffer == [] && r.reports == reports)
         && (end <= r.pos && (file[p + 6] != 0 || n != 0) ==>
               if checksum && Extend(step, 0, file[p + 6..end]) != Unmask(DecodeFixed32(file[p..p + 4])) then
                 o == Bad && r.buffer == [] && r.reports == reports + 1
               else
                 && r.buffer == file[end..r.pos] && r.reports == reports
                 && o == if file[p + 6] == EOF_TYPE then Eof else if file[p + 6] == BAD_TYPE then Bad
                         else Rec(file[p + 6], file[p + HEADER_SIZE..end]))
  }

  class Reader {
    const step: CrcStep
    const checksum: bool
    const file: seq<byte>
    var pos: nat
    var buffer: seq<byte>
    var eof: bool
    var reports: nat

    ghost predicate Valid()
      reads this
    {
      pos <= |file| && Aligned(file, State())
    }

    function State(): ReaderState
      reads this
    {
      ReaderState(pos, buffer, eof, reports)
    }

    constructor (step: CrcStep, checksum: bool, file: seq<byte>)
      ensures Valid() && State() == ReaderState(0, [], false, 0)
      ensures this.step == step && this.checksum == checksum && this.file == file
    {
      this.step, this.checksum, this.file := step, checksum, file;
      pos, buffer, eof, reports := 0, [], false, 0;
    }

    /** Read the next block when what is left cannot hold a header. */
    method FillBuffer()
      requires Valid()
      modifies this
      ensures Valid() && (|buffer| < HEADER_SIZE ==> eof)
      ensures if |old(buffer)| < HEADER_SIZE && !old(eof)
        then pos == (if old(pos) + BLOCK_SIZE <= |file| then old(pos) + BLOCK_SIZE else |file|)
             && buffer == file[old(pos)..pos] && eof == (pos < old(pos) + BLOCK_SIZE)
        else pos == old(pos) && buffer == old(buffer) && eof == old(eof)
      ensures reports == old(reports)
      ensures State() == if |old(buffer)| < HEADER_SIZE && !old(eof) then Refill(file, old(State())) else old(State())
    {
      while |buffer| < HEADER_SIZE && !eof
        invariant Valid()
        invariant
          || State() == old(State())
          || (State() == Refill(file, old(State())) && |old(buffer)| < HEADER_SIZE && !old(eof)
              && (|buffer| >= HEADER_SIZE || eof))
        decreases !eof, |buffer| < HEADER_SIZE
      {
        var end := if pos + BLOCK_SIZE <= |file| then pos + BLOCK_SIZE else |file|;
        buffer := file[pos..end];
        eof := end - pos < BLOCK_SIZE;
        pos := end;
      }
    }

    method ParseBuffer() returns (o: Outcome)
      requires Valid() && |buffer| >= HEADER_SIZE
      modifies this
      ensures Valid() && (o, State()) == Parse(step, checksum, old(State()))
    {
      var length, t := LengthAt(buffer), buffer[6];
      if HEADER_SIZE + length > |buffer| {
        buffer := [];
        if !eof {
          reports := reports + 1;
          return Bad;
        }
        return Eof;
      }
      if t == 0 && length == 0 {
        buffer := [];
        return Bad;
      }
      if checksum && !ChecksumOk(step, buffer) {
        buffer := [];
        reports := reports + 1;
        return Bad;
      }
      o := Typed(t, buffer[HEADER_SIZE..HEADER_SIZE + length]);
      buffer := buffer[HEADER_SIZE + length..];
    }

    method ReadPhysicalRecord() returns (o: Outcome)
      requires Valid()
      modifies this
      ensures Valid() && (o, State()) == ReadPhysical(step, checksum, file, old(State()))
      ensures Answers(step, checksum, file, NextHeader(old(State())), old(reports), o, State())
    {
      hide Parse, Answers, Aligned;
      PhysicalAnswers(step, checksum, file, State());
      FillBuffer();
      if |buffer| < HEADER_SIZE {
        buffer := [];
        return Eof;
      }
      o := ParseBuffer();
    }

    /** The switch over record types in ReadRecord. */
    method Take(o: Outcome, scratch: seq<byte>, inside: bool)
      returns (finished: bool, record: Option<seq<byte>>, scratch': seq<byte>, inside': bool)
      modifies this`reports
      ensures Assemble(o, old(State()), scratch, inside)
           == if finished then Finished(record, State()) else Continue(State(), scratch', inside')
      ensures old(Valid()) ==> Valid()
    {
      finished, record, scratch', inside' := false, None, scratch, inside;
      match o {
        case Eof =>
          finished := true;
        case Bad =>
          if inside {
            reports := reports + 1;
            inside', scratch' := false, [];
          }
        case Rec(t, payload) =>
          if t == FULL {
            if inside && scratch != [] {
              reports := reports + 1;
            }
            finished, record := true, Some(payload);
          } else if t == FIRST {
            if inside && scratch != [] {
              reports := reports + 1;
            }
            scratch', inside' := payload, true;
          } else if t == MIDDLE {
            if !inside {
              reports := reports + 1;
            } else {
              scratch' := scratch + payload;
            }
          } else if t == LAST {
            if !inside {
              reports := reports + 1;
            } else {
              finished, record := true, Some(scratch + payload);
            }
          } else {
            reports := reports + 1;
            inside', scratch' := false, [];
          }
      }
    }

    method NextRecord() returns (record: Option<seq<byte>>)
      requires Valid()
      modifies this
      ensures Valid() && (record, State()) == ReadRecord(step, checksum, file, old(State()), [], false)
      ensures record.Some? ==> Holds(step, checksum, file, At(old(State())), At(State()), record.value)
    {
      hide Aligned, Holds;
      AlignedWithin(file, State());
      RecordSound(step, checksum, file, At(State()), State(), [], false);
      var scratch: seq<byte> := [];
      var inside, finished := false, false;
      record := None;
      while !finished
        invariant Valid()
        invariant ReadRecord(step, checksum, file, old(State()), [], false)
               == if finished then (record, State()) else ReadRecord(step, checksum, file, State(), scratch, inside)
        decreases !finished, Remaining(file, State())
      {
        PhysicalProgress(step, checksum, file, State());
        var o := ReadPhysicalRecord();
        finished, record, scratch, inside := Take(o, scratch, inside);
      }
    }

    method ReadToEnd() returns (records: seq<seq<byte>>)
      requires Valid()
      modifies this
      ensures Valid() && (records, State()) == ReadAll(step, checksum, file, old(State()))
      ensures InOrder(step, checksum, file, At(old(State())), records)
    {
      hide ReadAll, ReadRecord, Aligned, InOrder, Holds;
      AllSound(step, checksum, file, State());
      AlignedWithin(file, State());
      records := [];
      assert [] + ReadAll(step, checksum, file, State()).0 == ReadAll(step, checksum, file, State()).0;
      while true
        invariant Valid()
        invariant var (rest, r) := ReadAll(step, checksum, file, State());
          (records + rest, r) == ReadAll(step, checksum, file, old(State()))
        decreases Remaining(file, State())
      {
        ReadAllUnfolds(step, checksum, file, State());
        var record := NextRecord();
        if record.None? {
          assert records + [] == records;
          return;
        }
        ghost var rest := ReadAll(step, checksum, file, State()).0;
        assert records + ([record.value] + rest) == (records + [record.value]) + rest;
        records := records + [record.value];
      }
    }
  }

  // ---------- reading back what was written ----------

  lemma {:induction false} HeaderDecodes(step: CrcStep, t: byte, payload: seq<byte>, buffer: seq<byte>)
    requires |payload| <= 0xffff && HEADER_SIZE <= |buffer|
    requires buffer[..HEADER_SIZE] == Header(step, t, payload)
    ensures LengthAt(buffer) == |payload| && buffer[6] == t
    ensures Unmask(DecodeFixed32(buffer[..4])) == Extend(step, Extend(step, 0, [t]), payload)
  {
    var h := Header(step, t, payload);
    var crc := Mask(Extend(step, Extend(step, 0, [t]), payload));
    assert buffer[4] == h[4] && buffer[5] == h[5] && buffer[6] == h[6];
    assert buffer[..4] == buffer[..HEADER_SIZE][..4] == Fixed32(crc);
    Fixed32RoundTrip(crc);
    MaskRoundTrip(Extend(step, Extend(step, 0, [t]), payload));
  }

  lemma {:induction false} ParseWhole(step: CrcStep, checksum: bool, r: ReaderState, t: byte, payload: seq<byte>)
    requires |payload| <= 0xffff && FULL <= t <= LAST
    requires Physical(step, t, payload) <= r.buffer
    ensures Parse(step, checksum, r) == (Rec(t, payload), r.(buffer := r.buffer[HEADER_SIZE + |payload|..]))
  {
    var b, n := r.buffer, HEADER_SIZE + |payload|;
    assert b[..n] == Header(step, t, payload) + payload;
    assert b[..HEADER_SIZE] == b[..n][..HEADER_SIZE] == Header(step, t, payload);
    assert b[HEADER_SIZE..n] == b[..n][HEADER_SIZE..] == payload;
    HeaderDecodes(step, t, payload, b);
    assert b[6..n] == [t] + payload;
    ExtendConcat(step, 0, [t], payload);
  }

  lemma {:induction false} ParseCut(step: CrcStep, checksum: bool, r: ReaderState, t: byte, payload: seq<byte>)
    requires |payload| <= 0xffff && r.eof
    requires HEADER_SIZE <= |r.buffer| < HEADER_SIZE + |payload|
    requires r.buffer <= Physical(step, t, payload)
    ensures Parse(step, checksum, r) == (Eof, r.(buffer := []))
  {
    var b := r.buffer;
    assert b[..HEADER_SIZE] == Physical(step, t, payload)[..HEADER_SIZE] == Header(step, t, payload);
    HeaderDecodes(step, t, payload, b);
  }

  /** The bytes `s` lie at position `at` of a file. */
  ghost predicate Lies(full: seq<byte>, at: nat, s: seq<byte>) {
    at + |s| <= |full| && full[at..at + |s|] == s
  }

  lemma {:induction false} LiesSplit(full: seq<byte>, at: nat, a: seq<byte>, b: seq<byte>)
    requires Lies(full, at, a + b)
    ensures Lies(full, at, a) && Lies(full, at + |a|, b)
  {
    var s := full[at..at + |a + b|];
    assert full[at..at + |a|] == s[..|a|];
    assert full[at + |a|..at + |a| + |b|] == s[|a|..];
  }

  /** A whole fragment lies at position `at` of the untruncated file. */
  ghost predicate FragmentAt(step: CrcStep, full: seq<byte>, at: nat, t: byte, payload: seq<byte>) {
    && |payload| <= Room(at % BLOCK_SIZE) && FULL <= t <= LAST
    && Lies(full, at + Gap(at % BLOCK_SIZE), Physical(step, t, payload))
  }

  function FragmentEnd(at: nat, payload: seq<byte>): nat {
    at + Gap(at % BLOCK_SIZE) + HEADER_SIZE + |payload|
  }

  /** A step that has the fragment in its buffer. */
  lemma {:induction false} ReadsBuffered(step: CrcStep, checksum: bool, file: seq<byte>, r: ReaderState, t: byte,
                                         payload: seq<byte>)
    requires Aligned(file, r) && |payload| <= 0xffff && FULL <= t <= LAST
    requires Physical(step, t, payload) <= r.buffer
    ensures var r' := r.(buffer := r.buffer[HEADER_SIZE + |payload|..]);
      ReadPhysical(step, checksum, file, r) == (Rec(t, payload), r') && Aligned(file, r')
  {
    ParseWhole(step, checksum, r, t, payload);
    var n := HEADER_SIZE + |payload|;
    assert r.buffer[n..] == file[At(r) + n..r.pos];
  }

  /** Where the buffer starts, a fragment either starts too or a trailer is left over. */
  lemma {:induction false} BufferOffset(file: seq<byte>, r: ReaderState)
    requires Aligned(file, r)
    ensures !r.eof ==> Gap(At(r) % BLOCK_SIZE) == if |r.buffer| < HEADER_SIZE then |r.buffer| else 0
    ensures !r.eof && |r.buffer| >= HEADER_SIZE ==> Room(At(r) % BLOCK_SIZE) == |r.buffer| - HEADER_SIZE
    ensures r.eof && |r.buffer| >= HEADER_SIZE ==> Gap(At(r) % BLOCK_SIZE) == 0
  {
    var q, n := r.pos / BLOCK_SIZE, |r.buffer|;
    assert r.pos == q * BLOCK_SIZE + r.pos % BLOCK_SIZE;
    if !r.eof {
      if 0 < n < BLOCK_SIZE {
        assert At(r) == (q - 1) * BLOCK_SIZE + (BLOCK_SIZE - n);
        ModOf(At(r), q - 1, BLOCK_SIZE - n);
      } else if n == BLOCK_SIZE {
        assert At(r) == (q - 1) * BLOCK_SIZE + 0;
        ModOf(At(r), q - 1, 0);
      }
    } else {
      assert At(r) == q * BLOCK_SIZE + (r.pos % BLOCK_SIZE - n);
      ModOf(At(r), q, r.pos % BLOCK_SIZE - n);
    }
  }

  lemma {:induction false} ModOf(x: int, q: int, m: int)
    requires 0 <= m < BLOCK_SIZE && x == q * BLOCK_SIZE + m
    ensures x % BLOCK_SIZE == m
  {
  }

  /** What one physical read does at a fragment that ends at `end`, in a file cut at |file|. */
  ghost predicate ReadsTo(step: CrcStep, checksum: bool, file: seq<byte>, r: ReaderState, end: nat, t: byte,
                          payload: seq<byte>)
    requires r.pos <= |file|
  {
    var (o, r') := ReadPhysical(step, checksum, file, r);
    r'.reports == r.reports
    && if end <= |file| then o == Rec(t, payload) && Aligned(file, r') && At(r') == end else o == Eof
  }

  /** The header is already buffered. */
  lemma {:induction false} ReadsInBuffer(step: CrcStep, checksum: bool, full: seq<byte>, n: nat, r: ReaderState,
                                         t: byte, payload: seq<byte>)
    requires n <= |full| && Aligned(full[..n], r) && |r.buffer| >= HEADER_SIZE
    requires FragmentAt(step, full, At(r), t, payload)
    ensures ReadsTo(step, checksum, full[..n], r, FragmentEnd(At(r), payload), t, payload)
  {
    var file, at, p := full[..n], At(r), Physical(step, t, payload);
    BufferOffset(file, r);
    assert r.buffer == full[at..r.pos];
    if at + |p| <= r.pos {
      assert r.buffer[..|p|] == full[at..at + |p|];
      ReadsBuffered(step, checksum, file, r, t, payload);
    } else {
      assert r.buffer == full[at..at + |p|][..|r.buffer|];
      ParseCut(step, checksum, r, t, payload);
    }
  }

  lemma {:induction false} RefillAligned(file: seq<byte>, r: ReaderState)
    requires r.pos <= |file| && r.pos % BLOCK_SIZE == 0
    ensures Aligned(file, Refill(file, r)) && At(Refill(file, r)) == r.pos
  {
    if r.pos + BLOCK_SIZE <= |file| {
      ModOf(r.pos + BLOCK_SIZE, r.pos / BLOCK_SIZE + 1, 0);
    } else {
      ModOf(|file|, r.pos / BLOCK_SIZE, |file| - r.pos);
    }
  }

  lemma {:induction false} ReadsFragment(step: CrcStep, checksum: bool, full: seq<byte>, n: nat, r: ReaderState,
                                         t: byte, payload: seq<byte>)
    requires n <= |full| && Aligned(full[..n], r)
    requires FragmentAt(step, full, At(r), t, payload)
    ensures ReadsTo(step, checksum, full[..n], r, FragmentEnd(At(r), payload), t, payload)
  {
    var file := full[..n];
    if |r.buffer| >= HEADER_SIZE {
      ReadsInBuffer(step, checksum, full, n, r, t, payload);
    } else if !r.eof {
      BufferOffset(file, r);
      RefillAligned(file, r);
      var r' := Refill(file, r);
      if |r'.buffer| >= HEADER_SIZE {
        ReadsInBuffer(step, checksum, full, n, r', t, payload);
      }
    }
  }

  /** A fragment that leaves something over fills its block. */
  lemma {:induction false} FragmentFills(at: nat, payload: seq<byte>)
    requires |payload| == Room(at % BLOCK_SIZE)
    ensures FragmentEnd(at, payload) % BLOCK_SIZE == 0
  {
    var q := at / BLOCK_SIZE;
    if Gap(at % BLOCK_SIZE) == 0 {
      ModOf(FragmentEnd(at, payload), q + 1, 0);
    } else {
      ModOf(FragmentEnd(at, payload), q + 2, 0);
    }
  }

  /** The first fragment of a record lies where the record lies, and the rest behind it. */
  lemma {:induction false} FirstFragment(step: CrcStep, full: seq<byte>, at: nat, data: seq<byte>, begin: bool)
    requires Lies(full, at, Emit(step, at % BLOCK_SIZE, data, begin))
    ensures var room := Room(at % BLOCK_SIZE);
      var n := if |data| < room then |data| else room;
      var end := FragmentEnd(at, data[..n]);
      && FragmentAt(step, full, at, FragmentType(begin, |data| == n), data[..n])
      && (|data| <= room ==> at + |Emit(step, at % BLOCK_SIZE, data, begin)| == end)
      && (|data| > room ==>
            && Lies(full, end, Emit(step, 0, data[room..], false))
            && at + |Emit(step, at % BLOCK_SIZE, data, begin)| == end + |Emit(step, 0, data[room..], false)|)
  {
    hide Emit, Header, Zeros;
    var off := at % BLOCK_SIZE;
    var room := Room(off);
    var n := if |data| < room then |data| else room;
    var t := FragmentType(begin, |data| == n);
    var rest := if |data| <= room then [] else Emit(step, 0, data[room..], false);
    EmitUnfolds(step, off, data, begin);
    LiesSplit(full, at, Fragment(step, off, t, data[..n]), rest);
    LiesSplit(full, at, Zeros(Gap(off)), Physical(step, t, data[..n]));
  }

  /** What reading one record does when its bytes end at `end`. */
  ghost predicate RecordReads(step: CrcStep, checksum: bool, file: seq<byte>, r: ReaderState, scratch: seq<byte>,
                              inside: bool, end: nat, record: seq<byte>)
    requires r.pos <= |file|
  {
    var (o, r') := ReadRecord(step, checksum, file, r, scratch, inside);
    r'.reports == r.reports
    && if end <= |file| then o == Some(record) && Aligned(file, r') && At(r') == end else o == None
  }

  lemma {:induction false} ReadsRecord(step: CrcStep, checksum: bool, full: seq<byte>, n: nat, r: ReaderState,
                                       scratch: seq<byte>, data: seq<byte>, begin: bool)
    requires n <= |full| && Aligned(full[..n], r) && (begin ==> scratch == [])
    requires Lies(full, At(r), Emit(step, At(r) % BLOCK_SIZE, data, begin))
    ensures RecordReads(step, checksum, full[..n], r, scratch, !begin,
                        At(r) + |Emit(step, At(r) % BLOCK_SIZE, data, begin)|, scratch + data)
    decreases |data|, if Room(At(r) % BLOCK_SIZE) == 0 then 1 else 0
  {
    hide Emit, ReadRecord, ReadPhysical, Physical;
    var file, room := full[..n], Room(At(r) % BLOCK_SIZE);
    var k := if |data| < room then |data| else room;
    FirstFragment(step, full, At(r), data, begin);
    ReadsFragment(step, checksum, full, n, r, FragmentType(begin, |data| == k), data[..k]);
    var end := FragmentEnd(At(r), data[..k]);
    var r' := ReadPhysical(step, checksum, file, r).1;
    if end > n {
      CutFragment(step, checksum, file, r, r', scratch, !begin);
    } else if |data| <= room {
      assert data[..k] == data;
      LastFragment(step, checksum, file, r, r', scratch, data, begin);
    } else {
      FragmentFills(At(r), data[..k]);
      ReadsRecord(step, checksum, full, n, r', scratch + data[..k], data[k..], false);
      NextFragment(step, checksum, file, r, r', scratch, data[..k], begin);
      assert (scratch + data[..k]) + data[k..] == scratch + data;
    }
  }

  lemma {:induction false} NextFragment(step: CrcStep, checksum: bool, file: seq<byte>, r: ReaderState, r': ReaderState,
                                        scratch: seq<byte>, payload: seq<byte>, begin: bool)
    requires r.pos <= |file| && (begin ==> scratch == [])
    requires r'.pos <= |file| && ReadPhysical(step, checksum, file, r) == (Rec(FragmentType(begin, false), payload), r')
    ensures ReadRecord(step, checksum, file, r, scratch, !begin)
         == ReadRecord(step, checksum, file, r', scratch + payload, true)
  {
    assert [] + payload == payload;
  }

  lemma {:induction false} LastFragment(step: CrcStep, checksum: bool, file: seq<byte>, r: ReaderState, r': ReaderState,
                                        scratch: seq<byte>, payload: seq<byte>, begin: bool)
    requires r.pos <= |file| && (begin ==> scratch == [])
    requires ReadPhysical(step, checksum, file, r) == (Rec(FragmentType(begin, true), payload), r')
    ensures ReadRecord(step, checksum, file, r, scratch, !begin) == (Some(scratch + payload), r')
  {
    assert [] + payload == payload;
  }

  lemma {:induction false} CutFragment(step: CrcStep, checksum: bool, file: seq<byte>, r: ReaderState, r': ReaderState,
                                       scratch: seq<byte>, inside: bool)
    requires r.pos <= |file| && ReadPhysical(step, checksum, file, r) == (Eof, r')
    ensures ReadRecord(step, checksum, file, r, scratch, inside) == (None, r')
  {
  }

  /** How many of the records end within the first n bytes of the file. */
  function Complete(step: CrcStep, at: nat, records: seq<seq<byte>>, n: nat): (k: nat)
    ensures k <= |records|
    decreases |records|
  {
    if records == [] then 0
    else
      var end := at + |Emit(step, at % BLOCK_SIZE, records[0], true)|;
      if end <= n then 1 + Complete(step, end, records[1..], n) else 0
  }

  lemma {:induction false} CompleteIsMaximal(step: CrcStep, at: nat, records: seq<seq<byte>>, n: nat)
    requires at <= n
    ensures var k := Complete(step, at, records, n);
      && at + |Log(step, at, records[..k])| <= n
      && (k < |records| ==> n < at + |Log(step, at, records[..k + 1])|)
    decreases |records|
  {
    hide Emit;
    var k := Complete(step, at, records, n);
    if records != [] {
      var end := at + |Emit(step, at % BLOCK_SIZE, records[0], true)|;
      if end <= n {
        CompleteIsMaximal(step, end, records[1..], n);
        assert records[..k][1..] == records[1..][..k - 1];
        if k < |records| {
          assert records[..k + 1][1..] == records[1..][..k];
        }
      }
    }
  }

  lemma {:induction false} AlignedWithin(file: seq<byte>, r: ReaderState)
    requires Aligned(file, r)
    ensures 0 <= At(r) <= |file| && r.pos <= |file|
  {
  }

  lemma {:induction false} EndOfFile(step: CrcStep, checksum: bool, file: seq<byte>, r: ReaderState)
    requires Aligned(file, r) && At(r) == |file|
    ensures var (all, r') := ReadAll(step, checksum, file, r); all == [] && r'.reports == r.reports
  {
    assert ReadPhysical(step, checksum, file, r).0 == Eof;
  }

  lemma {:induction false} ReadAllUnfolds(step: CrcStep, checksum: bool, file: seq<byte>, r: ReaderState)
    requires r.pos <= |file|
    ensures var (o, r') := ReadRecord(step, checksum, file, r, [], false);
      ReadAll(step, checksum, file, r)
      == if o.None? then ([], r')
         else ([o.value] + ReadAll(step, checksum, file, r').0, ReadAll(step, checksum, file, r').1)
  {
  }

  lemma {:induction false} ReadsLog(step: CrcStep, checksum: bool, full: seq<byte>, n: nat, r: ReaderState,
                                    records: seq<seq<byte>>)
    requires n <= |full| && Aligned(full[..n], r)
    requires Lies(full, At(r), Log(step, At(r), records)) && At(r) + |Log(step, At(r), records)| == |full|
    ensures var (all, r') := ReadAll(step, checksum, full[..n], r);
      all == records[..Complete(step, At(r), records, n)] && r'.reports == r.reports
    decreases |records|
  {
    hide Emit, ReadAll, ReadRecord, Lies, Aligned;
    AlignedWithin(full[..n], r);
    if records == [] {
      EndOfFile(step, checksum, full[..n], r);
    } else {
      var first := Emit(step, At(r) % BLOCK_SIZE, records[0], true);
      LiesSplit(full, At(r), first, Log(step, At(r) + |first|, records[1..]));
      ReadsRecord(step, checksum, full, n, r, [], records[0], true);
      assert [] + records[0] == records[0];
      var (o, r') := ReadRecord(step, checksum, full[..n], r, [], false);
      ReadAllUnfolds(step, checksum, full[..n], r);
      if At(r) + |first| <= n {
        ReadsLog(step, checksum, full, n, r', records[1..]);
        var k := Complete(step, At(r'), records[1..], n);
        assert [records[0]] + records[1..][..k] == records[..k + 1];
      }
    }
  }

  const START := ReaderState(0, [], false, 0)

  lemma {:induction false} StartAligned(file: seq<byte>)
    ensures Aligned(file, START) && At(START) == 0 && START.reports == 0
  {
    assert file[0..0] == [];
  }

  lemma {:induction false} LiesWhole(full: seq<byte>)
    ensures Lies(full, 0, full)
  {
    assert full[0..|full|] == full;
  }

  /** A log cut at any byte reads back as exactly the records that are whole in it, in order,
      with no corruption reported. */
  lemma {:induction false} TruncatedLogReadsBack(step: CrcStep, checksum: bool, records: seq<seq<byte>>, n: nat)
    requires n <= |Log(step, 0, records)|
    ensures var k := Complete(step, 0, records, n);
      var (all, r) := ReadAll(step, checksum, Log(step, 0, records)[..n], START);
      && all == records[..k] && r.reports == 0
      && |Log(step, 0, records[..k])| <= n
      && (k < |records| ==> n < |Log(step, 0, records[..k + 1])|)
  {
    hide *;
    var full := Log(step, 0, records);
    StartAligned(full[..n]);
    LiesWhole(full);
    ReadsLog(step, checksum, full, n, START, records);
    CompleteIsMaximal(step, 0, records, n);
  }

  /** The whole log reads back as the records that were written. */
  lemma {:induction false} LogReadsBack(step: CrcStep, checksum: bool, records: seq<seq<byte>>)
    ensures var (all, r) := ReadAll(step, checksum, Log(step, 0, records), START);
      all == records && r.reports == 0
  {
    hide ReadAll, ReadRecord, Log, Emit;
    var full := Log(step, 0, records);
    var k := Complete(step, 0, records, |full|);
    TruncatedLogReadsBack(step, checksum, records, |full|);
    assert full[..|full|] == full;
    if k < |records| {
      LogPrefix(step, 0, records, k + 1);
    }
    assert records[..|records|] == records;
  }

  lemma {:induction false} LogPrefix(step: CrcStep, at: nat, records: seq<seq<byte>>, k: nat)
    requires k <= |records|
    ensures Log(step, at, records)
      == Log(step, at, records[..k]) + Log(step, at + |Log(step, at, records[..k])|, records[k..])
    decreases |records|
  {
    hide Emit;
    if k > 0 {
      var first := Emit(step, at % BLOCK_SIZE, records[0], true);
      var head := Log(step, at + |first|, records[1..][..k - 1]);
      var tail := Log(step, at + |first| + |head|, records[1..][k - 1..]);
      LogPrefix(step, at + |first|, records[1..], k - 1);
      assert records[..k][1..] == records[1..][..k - 1] && records[1..][k - 1..] == records[k..];
      Reassociate(first, head, tail);
    }
  }

  /** Appending a record to a log that was written before, by this writer or an earlier one. */
  lemma {:induction false} LogAppend(step: CrcStep, records: seq<seq<byte>>, data: seq<byte>)
    ensures var log := Log(step, 0, records);
      Log(step, 0, records + [data]) == log + Emit(step, |log| % BLOCK_SIZE, data, true)
  {
    hide Emit;
    var all := records + [data];
    LogPrefix(step, 0, all, |records|);
    assert all[..|records|] == records && all[|records|..] == [data];
    var log := Log(step, 0, records);
    assert Log(step, |log|, [data]) == Emit(step, |log| % BLOCK_SIZE, data, true) + [];
  }

  // ---------- what a reader may return ----------

  /** A fragment found in a file. */
  datatype Piece = Piece(at: nat, t: byte, payload: seq<byte>) {
    function End(): nat {
      at + HEADER_SIZE + |payload|
    }
  }

  /** The fragment lies within one block and its header says its length, its type and, if checksums
      are verified, its checksum. */
  ghost predicate Intact(step: CrcStep, checksum: bool, file: seq<byte>, p: Piece) {
    && p.End() <= |file| && p.at % BLOCK_SIZE + HEADER_SIZE + |p.payload| <= BLOCK_SIZE
    && file[p.at + 4] as int + 256 * file[p.at + 5] as int == |p.payload|
    && file[p.at + 6] == p.t && file[p.at + HEADER_SIZE..p.End()] == p.payload
    && (checksum ==> Extend(step, 0, file[p.at + 6..p.End()]) == Unmask(DecodeFixed32(file[p.at..p.at + 4])))
  }

  ghost predicate Ascending(step: CrcStep, checksum: bool, file: seq<byte>, from: nat, to: int, pieces: seq<Piece>) {
    && (forall i :: 0 <= i < |pieces| ==>
          Intact(step, checksum, file, pieces[i]) && from <= pieces[i].at && pieces[i].End() <= to)
    && (forall i, j :: 0 <= i < j < |pieces| ==> pieces[i].End() <= pieces[j].at)
  }

  ghost predicate Opened(pieces: seq<Piece>) {
    pieces != [] && pieces[0].t == FIRST && forall i :: 0 < i < |pieces| ==> pieces[i].t == MIDDLE
  }

  /** One full fragment, or a first one, any number of middle ones and a last one. */
  ghost predicate Whole(pieces: seq<Piece>) {
    var n := |pieces|;
    n > 0 && if n == 1 then pieces[0].t == FULL else Opened(pieces[..n - 1]) && pieces[n - 1].t == LAST
  }

  ghost function Joined(pieces: seq<Piece>): seq<byte> {
    if pieces == [] then [] else Joined(pieces[..|pieces| - 1]) + pieces[|pieces| - 1].payload
  }

  /** The record consists of intact fragments between two positions of the file. */
  ghost predicate Holds(step: CrcStep, checksum: bool, file: seq<byte>, from: nat, to: int, record: seq<byte>) {
    exists pieces :: Ascending(step, checksum, file, from, to, pieces) && Whole(pieces) && Joined(pieces) == record
  }

  /** The records lie in the file one after the other. */
  ghost predicate InOrder(step: CrcStep, checksum: bool, file: seq<byte>, from: nat, records: seq<seq<byte>>)
    decreases |records|
  {
    records != [] ==>
      exists to: nat ::
        Holds(step, checksum, file, from, to, records[0]) && InOrder(step, checksum, file, to, records[1..])
  }

  lemma {:induction false} BufferInBlock(file: seq<byte>, r: ReaderState)
    requires Aligned(file, r) && r.buffer != []
    ensures At(r) % BLOCK_SIZE + |r.buffer| <= BLOCK_SIZE
  {
    var q, n := r.pos / BLOCK_SIZE, |r.buffer|;
    assert r.pos == q * BLOCK_SIZE + r.pos % BLOCK_SIZE;
    if !r.eof {
      ModOf(At(r), q - 1, BLOCK_SIZE - n);
    } else {
      ModOf(At(r), q, r.pos % BLOCK_SIZE - n);
    }
  }

  /** The buffer and the file hold the same header and the same payload. */
  lemma {:induction false} BufferIsFile(file: seq<byte>, r: ReaderState)
    requires Aligned(file, r) && |r.buffer| >= HEADER_SIZE
    ensures var b, at := r.buffer, At(r);
      && b[4] == file[at + 4] && b[5] == file[at + 5] && b[6] == file[at + 6] && b[..4] == file[at..at + 4]
      && var end := HEADER_SIZE + LengthAt(b);
         end <= |b| ==>
           && b[HEADER_SIZE..end] == file[at + HEADER_SIZE..at + end] && b[6..end] == file[at + 6..at + end]
           && b[end..] == file[at + end..r.pos]
  {
    var at := At(r);
    assert r.buffer == file[at..r.pos];
  }

  lemma {:induction false} TypedRec(t: byte, payload: seq<byte>)
    requires Typed(t, payload).Rec?
    ensures Typed(t, payload) == Rec(t, payload)
  {
  }

  lemma {:induction false} DropAligned(file: seq<byte>, r: ReaderState, n: nat, reports: nat)
    requires Aligned(file, r) && n <= |r.buffer|
    ensures var r' := r.(buffer := r.buffer[n..], reports := reports); Aligned(file, r') && At(r') == At(r) + n
  {
    assert r.buffer[n..] == file[At(r) + n..r.pos];
  }

  lemma {:induction false} ParseSound(step: CrcStep, checksum: bool, file: seq<byte>, r: ReaderState)
    requires Aligned(file, r) && |r.buffer| >= HEADER_SIZE
    ensures var (o, r') := Parse(step, checksum, r);
      && Aligned(file, r') && At(r) <= At(r')
      && (o.Rec? ==> Intact(step, checksum, file, Piece(At(r), o.t, o.payload))
                     && Piece(At(r), o.t, o.payload).End() == At(r'))
  {
    hide Aligned, Extend, Unmask, DecodeFixed32, Typed;
    BufferInBlock(file, r);
    BufferIsFile(file, r);
    AlignedWithin(file, r);
    var b, n := r.buffer, LengthAt(r.buffer);
    var (o, r') := Parse(step, checksum, r);
    assert b[|b|..] == [];
    DropAligned(file, r, if r'.buffer == [] then |b| else HEADER_SIZE + n, r'.reports);
    if o.Rec? {
      TypedRec(b[6], b[HEADER_SIZE..HEADER_SIZE + n]);
    }
  }

  lemma {:induction false} PhysicalSound(step: CrcStep, checksum: bool, file: seq<byte>, r: ReaderState)
    requires Aligned(file, r)
    ensures var (o, r') := ReadPhysical(step, checksum, file, r);
      && Aligned(file, r') && At(r) <= At(r')
      && (o.Rec? ==> var p := Piece(At(r') - HEADER_SIZE - |o.payload|, o.t, o.payload);
            Intact(step, checksum, file, p) && At(r) <= p.at && p.End() == At(r'))
  {
    hide Parse, Intact;
    var r1 := r;
    if |r.buffer| < HEADER_SIZE && !r.eof {
      RefillAligned(file, r);
      r1 := Refill(file, r);
    }
    assert file[r1.pos..r1.pos] == [];
    if |r1.buffer| >= HEADER_SIZE {
      ParseSound(step, checksum, file, r1);
    }
  }

  lemma {:induction false} ParseAnswers(step: CrcStep, checksum: bool, file: seq<byte>, r: ReaderState)
    requires Aligned(file, r) && |r.buffer| >= HEADER_SIZE
    ensures var (o, r') := Parse(step, checksum, r);
      Answers(step, checksum, file, At(r), r.reports, o, r') && r'.pos == r.pos && r'.eof == r.eof
  {
    hide Aligned, Extend, Unmask, DecodeFixed32;
    BufferIsFile(file, r);
    AlignedWithin(file, r);
  }

  lemma {:induction false} PhysicalAnswers(step: CrcStep, checksum: bool, file: seq<byte>, r: ReaderState)
    requires Aligned(file, r)
    ensures var (o, r') := ReadPhysical(step, checksum, file, r);
      Aligned(file, r') && Answers(step, checksum, file, NextHeader(r), r.reports, o, r')
  {
    hide Parse, Extend, Unmask, DecodeFixed32;
    PhysicalSound(step, checksum, file, r);
    var r1 := r;
    if |r.buffer| < HEADER_SIZE && !r.eof {
      RefillAligned(file, r);
      r1 := Refill(file, r);
    }
    if |r1.buffer| >= HEADER_SIZE {
      ParseAnswers(step, checksum, file, r1);
    }
  }

  /** The record that is being put together consists of intact fragments before the reader. */
  ghost predicate Gathering(step: CrcStep, checksum: bool, file: seq<byte>, from: nat, to: int, scratch: seq<byte>,
                            inside: bool)
  {
    inside ==> exists pieces :: Ascending(step, checksum, file, from, to, pieces) && Opened(pieces)
                                && Joined(pieces) == scratch
  }

  lemma {:induction false} JoinedAppend(pieces: seq<Piece>, p: Piece)
    ensures Joined(pieces + [p]) == Joined(pieces) + p.payload
  {
    assert (pieces + [p])[..|pieces|] == pieces;
  }

  /** A full or a first fragment starts afresh. */
  lemma {:induction false} StartsRecord(step: CrcStep, checksum: bool, file: seq<byte>, from: nat, p: Piece)
    requires Intact(step, checksum, file, p) && from <= p.at
    ensures p.t == FULL ==> Holds(step, checksum, file, from, p.End(), p.payload)
    ensures p.t == FIRST ==>
      exists pieces :: Ascending(step, checksum, file, from, p.End(), pieces) && Opened(pieces)
                       && Joined(pieces) == p.payload
  {
    hide Intact;
    JoinedAppend([], p);
    assert [] + [p] == [p] && [] + p.payload == p.payload;
    assert Ascending(step, checksum, file, from, p.End(), [p]) && Joined([p]) == p.payload;
    assert p.t == FULL ==> Whole([p]);
    assert p.t == FIRST ==> Opened([p]);
  }

  /** A middle or a last fragment goes on with what was gathered. */
  lemma {:induction false} ExtendsRecord(step: CrcStep, checksum: bool, file: seq<byte>, from: nat, to: int,
                                         pieces: seq<Piece>, p: Piece)
    requires Ascending(step, checksum, file, from, to, pieces) && Opened(pieces)
    requires Intact(step, checksum, file, p) && from <= p.at && to <= p.at
    ensures p.t == LAST ==> Holds(step, checksum, file, from, p.End(), Joined(pieces) + p.payload)
    ensures p.t == MIDDLE ==>
      exists longer :: Ascending(step, checksum, file, from, p.End(), longer) && Opened(longer)
                       && Joined(longer) == Joined(pieces) + p.payload
  {
    hide Intact;
    var longer := pieces + [p];
    JoinedAppend(pieces, p);
    assert longer[..|pieces|] == pieces;
    assert Ascending(step, checksum, file, from, p.End(), longer);
    assert p.t == LAST ==> Whole(longer);
    assert p.t == MIDDLE ==> Opened(longer);
  }

  lemma {:induction false} AssembleSound(step: CrcStep, checksum: bool, file: seq<byte>, from: nat, to: int, o: Outcome,
                                         r: ReaderState, scratch: seq<byte>, inside: bool)
    requires Gathering(step, checksum, file, from, to, scratch, inside) && to <= At(r)
    requires o.Rec? ==>
      var at := At(r) - HEADER_SIZE - |o.payload|;
      from <= at && to <= at && Intact(step, checksum, file, Piece(at, o.t, o.payload))
    ensures var p := Assemble(o, r, scratch, inside);
      && p.r == r.(reports := p.r.reports)
      && (p.Finished? && p.record.Some? ==> Holds(step, checksum, file, from, At(r), p.record.value))
      && (p.Continue? ==> Gathering(step, checksum, file, from, At(r), p.scratch, p.inside))
  {
    hide Intact, Holds, Ascending, Opened, Joined;
    if o.Rec? {
      var p := Piece(At(r) - HEADER_SIZE - |o.payload|, o.t, o.payload);
      StartsRecord(step, checksum, file, from, p);
      if inside && (o.t == MIDDLE || o.t == LAST) {
        var pieces :| Ascending(step, checksum, file, from, to, pieces) && Opened(pieces) && Joined(pieces) == scratch;
        ExtendsRecord(step, checksum, file, from, to, pieces, p);
      }
    }
  }

  lemma {:induction false} StepSound(step: CrcStep, checksum: bool, file: seq<byte>, from: nat, r: ReaderState,
                                     scratch: seq<byte>, inside: bool)
    requires Aligned(file, r) && from <= At(r) && Gathering(step, checksum, file, from, At(r), scratch, inside)
    ensures var p := Step(step, checksum, file, r, scratch, inside);
      && Aligned(file, p.r) && At(r) <= At(p.r)
      && (p.Finished? && p.record.Some? ==> Holds(step, checksum, file, from, At(p.r), p.record.value))
      && (p.Continue? ==> Gathering(step, checksum, file, from, At(p.r), p.scratch, p.inside))
  {
    hide ReadPhysical, Intact, Holds, Gathering, Assemble;
    PhysicalSound(step, checksum, file, r);
    var (o, r') := ReadPhysical(step, checksum, file, r);
    AssembleSound(step, checksum, file, from, At(r), o, r', scratch, inside);
  }

  lemma {:induction false} RecordSound(step: CrcStep, checksum: bool, file: seq<byte>, from: nat, r: ReaderState,
                                       scratch: seq<byte>, inside: bool)
    requires Aligned(file, r) && from <= At(r) && Gathering(step, checksum, file, from, At(r), scratch, inside)
    ensures var (o, r') := ReadRecord(step, checksum, file, r, scratch, inside);
      && Aligned(file, r') && At(r) <= At(r')
      && (o.Some? ==> Holds(step, checksum, file, from, At(r'), o.value))
    decreases Remaining(file, r)
  {
    hide Step, Aligned, Gathering, Holds;
    AlignedWithin(file, r);
    StepSound(step, checksum, file, from, r, scratch, inside);
    match Step(step, checksum, file, r, scratch, inside)
    case Finished(_, _) =>
    case Continue(r', scratch', inside') => RecordSound(step, checksum, file, from, r', scratch', inside');
  }

  lemma {:induction false} AllSound(step: CrcStep, checksum: bool, file: seq<byte>, r: ReaderState)
    requires Aligned(file, r)
    ensures InOrder(step, checksum, file, At(r), ReadAll(step, checksum, file, r).0)
    decreases Remaining(file, r)
  {
    hide Aligned, Holds, ReadRecord;
    AlignedWithin(file, r);
    assert Gathering(step, checksum, file, At(r), At(r), [], false);
    RecordSound(step, checksum, file, At(r), r, [], false);
    var (o, r') := ReadRecord(step, checksum, file, r, [], false);
    if o.Some? {
      AlignedWithin(file, r');
      AllSound(step, checksum, file, r');
      assert ReadAll(step, checksum, file, r).0[1..] == ReadAll(step, checksum, file, r').0;
      var to: nat := At(r');
      assert Holds(step, checksum, file, At(r), to, o.value);
    }
  }

  /** Whatever a file holds, every record read from it is put together from fragments that lie in it,
      in order, each with its own type, length and, if they are verified, checksum. */
  lemma {:induction false} OnlyIntactRecords(step: CrcStep, checksum: bool, file: seq<byte>)
    ensures InOrder(step, checksum, file, 0, ReadAll(step, checksum, file, START).0)
  {
    StartAligned(file);
    AllSound(step, checksum, file, START);
  }

  // ---------- reading on behind damage ----------

  /** What was gathered does not matter once a record was given up. */
  lemma {:induction false} ScratchForgotten(step: CrcStep, checksum: bool, file: seq<byte>, r: ReaderState,
                                            scratch: seq<byte>)
    requires r.pos <= |file|
    ensures ReadRecord(step, checksum, file, r, scratch, false) == ReadRecord(step, checksum, file, r, [], false)
    decreases Remaining(file, r)
  {
    hide ReadPhysical;
    var p, p' := Step(step, checksum, file, r, scratch, false), Step(step, checksum, file, r, [], false);
    if p.Continue? && !p.inside {
      ScratchForgotten(step, checksum, file, p.r, p.scratch);
      ScratchForgotten(step, checksum, file, p.r, p'.scratch);
    }
  }

  /** Damage ends the record that is being put together, which is reported, and the reader goes on. */
  lemma {:induction false} DamageEndsRecord(step: CrcStep, checksum: bool, file: seq<byte>, r: ReaderState,
                                            r': ReaderState, scratch: seq<byte>, inside: bool)
    requires r.pos <= |file| && r'.pos <= |file| && ReadPhysical(step, checksum, file, r) == (Bad, r')
    ensures ReadRecord(step, checksum, file, r, scratch, inside)
      == ReadRecord(step, checksum, file, r'.(reports := r'.reports + if inside then 1 else 0), [], false)
  {
    hide ReadPhysical;
    if !inside {
      ScratchForgotten(step, checksum, file, r', scratch);
    }
  }

  /** A fragment that goes on with a record of which nothing is known is reported and skipped. */
  lemma {:induction false} OrphanIsSkipped(step: CrcStep, checksum: bool, file: seq<byte>, r: ReaderState,
                                           r': ReaderState, t: byte, payload: seq<byte>, scratch: seq<byte>)
    requires r.pos <= |file| && r'.pos <= |file| && (t == MIDDLE || t == LAST)
    requires ReadPhysical(step, checksum, file, r) == (Rec(t, payload), r')
    ensures ReadRecord(step, checksum, file, r, scratch, false)
      == ReadRecord(step, checksum, file, r'.(reports := r'.reports + 1), [], false)
  {
    hide ReadPhysical;
    ScratchForgotten(step, checksum, file, r'.(reports := r'.reports + 1), scratch);
  }

  /** A record that ends without its last fragment is reported unless it is empty so far. */
  lemma {:induction false} UnfinishedIsReported(step: CrcStep, checksum: bool, file: seq<byte>, r: ReaderState,
                                                r': ReaderState, t: byte, payload: seq<byte>, scratch: seq<byte>)
    requires r.pos <= |file| && r'.pos <= |file| && (t == FULL || t == FIRST)
    requires ReadPhysical(step, checksum, file, r) == (Rec(t, payload), r')
    ensures var r'' := r'.(reports := r'.reports + if scratch != [] then 1 else 0);
      ReadRecord(step, checksum, file, r, scratch, true)
      == if t == FULL then (Some(payload), r'') else ReadRecord(step, checksum, file, r'', payload, true)
  {
    hide ReadPhysical;
  }

  /** A fragment of an unknown type is reported and ends the record. */
  lemma {:induction false} UnknownIsReported(step: CrcStep, checksum: bool, file: seq<byte>, r: ReaderState,
                                             r': ReaderState, t: byte, payload: seq<byte>, scratch: seq<byte>,
                                             inside: bool)
    requires r.pos <= |file| && r'.pos <= |file| && (t == 0 || t > LAST)
    requires ReadPhysical(step, checksum, file, r) == (Rec(t, payload), r')
    ensures ReadRecord(step, checksum, file, r, scratch, inside)
      == ReadRecord(step, checksum, file, r'.(reports := r'.reports + 1), [], false)
  {
    hide ReadPhysical;
  }

  /** Into how many fragments the rest of a record is cut. */
  function Pieces(off: nat, data: seq<byte>): nat
    requires off < BLOCK_SIZE
    decreases |data|, if Room(off) == 0 then 1 else 0
  {
    if |data| <= Room(off) then 1 else 1 + Pieces(0, data[Room(off)..])
  }

  lemma {:induction false} OrphansAreSkipped(step: CrcStep, checksum: bool, file: seq<byte>, r: ReaderState,
                                             data: seq<byte>)
    returns (r': ReaderState)
    requires Aligned(file, r) && Lies(file, At(r), Emit(step, At(r) % BLOCK_SIZE, data, false))
    ensures Aligned(file, r') && At(r') == At(r) + |Emit(step, At(r) % BLOCK_SIZE, data, false)|
    ensures r'.reports == r.reports + Pieces(At(r) % BLOCK_SIZE, data)
    ensures ReadRecord(step, checksum, file, r, [], false) == ReadRecord(step, checksum, file, r', [], false)
    decreases |data|, if Room(At(r) % BLOCK_SIZE) == 0 then 1 else 0
  {
    hide Emit, ReadRecord, ReadPhysical, Physical, Lies;
    var room := Room(At(r) % BLOCK_SIZE);
    var k := if |data| < room then |data| else room;
    FirstFragment(step, file, At(r), data, false);
    assert file[..|file|] == file;
    ReadsFragment(step, checksum, file, |file|, r, FragmentType(false, |data| == k), data[..k]);
    FragmentWithin(step, file, At(r), FragmentType(false, |data| == k), data[..k]);
    var r1 := ReadPhysical(step, checksum, file, r).1;
    OrphanIsSkipped(step, checksum, file, r, r1, FragmentType(false, |data| == k), data[..k], []);
    r' := r1.(reports := r1.reports + 1);
    if |data| > room {
      FragmentFills(At(r), data[..k]);
      r' := OrphansAreSkipped(step, checksum, file, r', data[k..]);
    }
  }

  lemma {:induction false} FragmentWithin(step: CrcStep, full: seq<byte>, at: nat, t: byte, payload: seq<byte>)
    requires FragmentAt(step, full, at, t, payload)
    ensures FragmentEnd(at, payload) <= |full|
  {
  }

  /** Records that lie in a file are read back, whatever lies behind them. */
  lemma {:induction false} ReadsPrefix(step: CrcStep, checksum: bool, file: seq<byte>, r: ReaderState,
                                       records: seq<seq<byte>>)
    returns (r': ReaderState)
    requires Aligned(file, r) && Lies(file, At(r), Log(step, At(r), records))
    ensures Aligned(file, r') && At(r') == At(r) + |Log(step, At(r), records)| && r'.reports == r.reports
    ensures ReadAll(step, checksum, file, r)
         == (records + ReadAll(step, checksum, file, r').0, ReadAll(step, checksum, file, r').1)
    decreases |records|
  {
    hide Emit, ReadAll, ReadRecord, Lies, Aligned;
    AlignedWithin(file, r);
    r' := r;
    var all := ReadAll(step, checksum, file, r);
    assert [] + all.0 == all.0;
    if records != [] {
      var first := Emit(step, At(r) % BLOCK_SIZE, records[0], true);
      LiesSplit(file, At(r), first, Log(step, At(r) + |first|, records[1..]));
      LiesWithin(file, At(r), first);
      assert file[..|file|] == file && [] + records[0] == records[0];
      ReadsRecord(step, checksum, file, |file|, r, [], records[0], true);
      ReadAllUnfolds(step, checksum, file, r);
      var r1 := ReadRecord(step, checksum, file, r, [], false).1;
      r' := ReadsPrefix(step, checksum, file, r1, records[1..]);
      AlignedWithin(file, r');
      var rest := ReadAll(step, checksum, file, r').0;
      assert [records[0]] + (records[1..] + rest) == records + rest;
    }
    AlignedWithin(file, r');
  }

  lemma {:induction false} LiesWithin(full: seq<byte>, at: nat, s: seq<byte>)
    requires Lies(full, at, s)
    ensures at + |s| <= |full|
  {
  }

  /** Where the block that holds position `p` ends. */
  function BlockEnd(file: seq<byte>, p: nat): nat {
    var end := (p / BLOCK_SIZE + 1) * BLOCK_SIZE;
    if end <= |file| then end else |file|
  }

  lemma {:induction false} BlockEndOf(file: seq<byte>, p: nat, q: nat, off: nat)
    requires off < BLOCK_SIZE && p == q * BLOCK_SIZE + off
    ensures BlockEnd(file, p) == if (q + 1) * BLOCK_SIZE <= |file| then (q + 1) * BLOCK_SIZE else |file|
  {
    assert p / BLOCK_SIZE == q;
  }

  lemma {:induction false} ParseKeeps(step: CrcStep, checksum: bool, r: ReaderState)
    requires |r.buffer| >= HEADER_SIZE
    ensures Parse(step, checksum, r).1.pos == r.pos && Parse(step, checksum, r).1.eof == r.eof
  {
  }

  /** A buffer that holds a header lies in one block up to its end. */
  lemma {:induction false} BufferEnds(file: seq<byte>, r: ReaderState)
    requires Aligned(file, r) && |r.buffer| >= HEADER_SIZE
    ensures Gap(At(r) % BLOCK_SIZE) == 0 && r.pos == BlockEnd(file, At(r))
    ensures r.eof <==> r.pos % BLOCK_SIZE != 0
  {
    BufferOffset(file, r);
    var q, n := r.pos / BLOCK_SIZE, |r.buffer|;
    if r.eof {
      BlockEndOf(file, At(r), q, r.pos % BLOCK_SIZE - n);
    } else {
      BlockEndOf(file, At(r), q - 1, BLOCK_SIZE - n);
    }
  }

  /** The header that a reader looks at next, and the block that it has in its buffer then. */
  lemma {:induction false} HeaderInBlock(step: CrcStep, checksum: bool, file: seq<byte>, r: ReaderState)
    requires Aligned(file, r) && At(r) + Gap(At(r) % BLOCK_SIZE) + HEADER_SIZE <= |file|
    ensures var (o, r') := ReadPhysical(step, checksum, file, r);
      && NextHeader(r) == At(r) + Gap(At(r) % BLOCK_SIZE)
      && r'.pos == BlockEnd(file, NextHeader(r)) && NextHeader(r) + HEADER_SIZE <= r'.pos
      && (r'.eof <==> BlockEnd(file, NextHeader(r)) % BLOCK_SIZE != 0)
  {
    hide Parse, BlockEnd;
    BufferOffset(file, r);
    var r1 := r;
    if |r.buffer| < HEADER_SIZE && !r.eof {
      RefillAligned(file, r);
      r1 := Refill(file, r);
    }
    if |r1.buffer| >= HEADER_SIZE {
      BufferEnds(file, r1);
      ParseKeeps(step, checksum, r1);
    }
  }

  lemma {:induction false} SameRecordSameRest(step: CrcStep, checksum: bool, file: seq<byte>, r: ReaderState,
                                              r': ReaderState)
    requires r.pos <= |file| && r'.pos <= |file|
    requires ReadRecord(step, checksum, file, r, [], false) == ReadRecord(step, checksum, file, r', [], false)
    ensures ReadAll(step, checksum, file, r) == ReadAll(step, checksum, file, r')
  {
    ReadAllUnfolds(step, checksum, file, r);
    ReadAllUnfolds(step, checksum, file, r');
  }

  /** The fragment whose header is at `p` does not fit into what the block holds, is blank, or does not
      have the checksum in its header. */
  ghost predicate Damaged(step: CrcStep, checksum: bool, file: seq<byte>, p: nat)
    requires p + HEADER_SIZE <= |file|
  {
    var n := file[p + 4] as int + 256 * file[p + 5] as int;
    var end := p + HEADER_SIZE + n;
    || end > BlockEnd(file, p)
    || (file[p + 6] == 0 && n == 0)
    || (checksum && Extend(step, 0, file[p + 6..end]) != Unmask(DecodeFixed32(file[p..p + 4])))
  }

  /** A blank fragment is not reported, and nor is one that is cut off by the end of the file. */
  function DamageReports(file: seq<byte>, p: nat): nat
    requires p + HEADER_SIZE <= |file|
  {
    var n := file[p + 4] as int + 256 * file[p + 5] as int;
    if p + HEADER_SIZE + n > BlockEnd(file, p) then if BlockEnd(file, p) % BLOCK_SIZE == 0 then 1 else 0
    else if file[p + 6] == 0 && n == 0 then 0 else 1
  }

  /** One read at a damaged fragment drops the rest of the block. */
  lemma {:induction false} DamageIsFound(step: CrcStep, checksum: bool, file: seq<byte>, r: ReaderState)
    requires Aligned(file, r)
    requires var p := At(r) + Gap(At(r) % BLOCK_SIZE); p + HEADER_SIZE <= |file| && Damaged(step, checksum, file, p)
    ensures var p := At(r) + Gap(At(r) % BLOCK_SIZE);
      var (o, r') := ReadPhysical(step, checksum, file, r);
      && Aligned(file, r') && At(r') == BlockEnd(file, p) && r'.buffer == []
      && r'.reports == r.reports + DamageReports(file, p)
      && (o == Bad || (o == Eof && BlockEnd(file, p) == |file|))
  {
    hide ReadPhysical, Aligned, Extend, Unmask, DecodeFixed32, BlockEnd;
    AlignedWithin(file, r);
    HeaderInBlock(step, checksum, file, r);
    PhysicalAnswers(step, checksum, file, r);
    AlignedAtEnd(file, ReadPhysical(step, checksum, file, r).1);
  }

  lemma {:induction false} AlignedAtEnd(file: seq<byte>, r: ReaderState)
    requires Aligned(file, r)
    ensures r.eof ==> r.pos == |file|
  {
  }

  /** Damage costs the records of its block and no others.  A file holds records, then a damaged
      fragment, anything up to the end of that block, perhaps the rest of a record that began in it, and
      more records.  All the other records are read back. */
  lemma {:induction false} DamageCostsOneBlock(step: CrcStep, checksum: bool, file: seq<byte>, before: seq<seq<byte>>,
                                               rest: Option<seq<byte>>, after: seq<seq<byte>>)
    requires Lies(file, 0, Log(step, 0, before))
    requires var at := |Log(step, 0, before)|;
      var p := at + Gap(at % BLOCK_SIZE);
      && p + HEADER_SIZE <= |file| && Damaged(step, checksum, file, p)
      && var end := BlockEnd(file, p);
         var orphans := if rest.Some? then Emit(step, 0, rest.value, false) else [];
         && Lies(file, end, orphans + Log(step, end + |orphans|, after))
         && |file| == end + |orphans| + |Log(step, end + |orphans|, after)|
    ensures var at := |Log(step, 0, before)|;
      var (all, r) := ReadAll(step, checksum, file, START);
      && all == before + after
      && r.reports == DamageReports(file, at + Gap(at % BLOCK_SIZE)) + if rest.Some? then Pieces(0, rest.value) else 0
  {
    hide ReadAll, Log, Emit, Lies, Damaged, DamageReports, Pieces, Aligned, Gap, BlockEnd;
    StartAligned(file);
    var r := ReadsPrefix(step, checksum, file, START, before);
    var p := At(r) + Gap(At(r) % BLOCK_SIZE);
    ReadsBehindDamage(step, checksum, file, r, p, rest, after);
  }

  lemma {:induction false} BlockEndAligned(file: seq<byte>, p: nat)
    requires p < |file|
    ensures BlockEnd(file, p) < |file| ==> BlockEnd(file, p) % BLOCK_SIZE == 0
  {
  }

  lemma {:induction false} ReadsBehindDamage(step: CrcStep, checksum: bool, file: seq<byte>, r: ReaderState, p: nat,
                                             rest: Option<seq<byte>>, after: seq<seq<byte>>)
    requires Aligned(file, r) && p == At(r) + Gap(At(r) % BLOCK_SIZE) && p + HEADER_SIZE <= |file|
    requires Damaged(step, checksum, file, p)
    requires var end := BlockEnd(file, p);
      var orphans := if rest.Some? then Emit(step, 0, rest.value, false) else [];
      && Lies(file, end, orphans + Log(step, end + |orphans|, after))
      && |file| == end + |orphans| + |Log(step, end + |orphans|, after)|
    ensures var (all, r') := ReadAll(step, checksum, file, r);
      && all == after
      && r'.reports == r.reports + DamageReports(file, p) + if rest.Some? then Pieces(0, rest.value) else 0
  {
    hide ReadAll, ReadRecord, ReadPhysical, Log, Emit, Lies, Damaged, DamageReports, Pieces, Aligned, Gap, BlockEnd,
      Complete;
    DamageIsFound(step, checksum, file, r);
    AlignedWithin(file, r);
    var (o, r1) := ReadPhysical(step, checksum, file, r);
    AlignedWithin(file, r1);
    var end := BlockEnd(file, p);
    var orphans := if rest.Some? then Emit(step, 0, rest.value, false) else [];
    LiesSplit(file, end, orphans, Log(step, end + |orphans|, after));
    if o == Eof {
      LogEmpty(step, end, after);
      CutFragment(step, checksum, file, r, r1, [], false);
      ReadAllUnfolds(step, checksum, file, r);
    } else {
      DamageEndsRecord(step, checksum, file, r, r1, [], false);
      var r2 := r1;
      if rest.Some? {
        BlockEndAligned(file, p);
        r2 := OrphansAreSkipped(step, checksum, file, r1, rest.value);
      }
      AlignedWithin(file, r2);
      SameRecordSameRest(step, checksum, file, r, r2);
      assert file[..|file|] == file;
      ReadsLog(step, checksum, file, |file|, r2, after);
      AllComplete(step, At(r2), after, |file|);
      assert after[..|after|] == after;
    }
  }

  lemma {:induction false} LogEmpty(step: CrcStep, at: nat, records: seq<seq<byte>>)
    requires |Log(step, at, records)| == 0
    ensures records == []
  {
  }

  lemma {:induction false} AllComplete(step: CrcStep, at: nat, records: seq<seq<byte>>, n: nat)
    requires at + |Log(step, at, records)| <= n
    ensures Complete(step, at, records, n) == |records|
    decreases |records|
  {
    hide Emit;
    if records != [] {
      AllComplete(step, at + |Emit(step, at % BLOCK_SIZE, records[0], true)|, records[1..], n);
    }
  }
}

/** The reference of coverage blocks: BED12 lines read into records whose
    blocks are absolute `[start, end)` intervals (`CoverageBlocks::loadRef`). */
module BedRecords {
  import opened Wrappers
  import opened Streams
  import opened Unsigned

  /** `std::pair<unsigned int, unsigned int>`: one block `[start, end)`. */
  datatype Block = Block(start: nat, end: nat)

  /** `BEDrecord`. */
  datatype BedRecord = BedRecord(
    chrName: string,
    start: nat,
    end: nat,
    name: string,
    direction: bool,
    blocks: seq<Block>)

  /** The string buffers `loadRef` declares once and reuses for every line
      (the record's name and chromosome, `myField`, `s_dir`, `sLengths`,
      `sOffsets`): a read from an exhausted line stream leaves in them the
      text of an earlier read. */
  datatype Buffers = Buffers(
    chrName: string,
    name: string,
    field: string,
    dir: string,
    lengths: string,
    offsets: string)

  const Fresh: Buffers := Buffers([], [], [], [], [], [])

  /** A line read up to its block lengths: the record's scalar fields, the
      block count, the rest of the line and the buffers afterwards. */
  datatype Head = Head(
    chrName: string,
    start: nat,
    end: nat,
    name: string,
    direction: bool,
    segments: nat,
    line: Stream,
    bufs: Buffers)

  /** The buffers the reads of a line go to, numbered for `Into`. */
  function Registers(bufs: Buffers): seq<string> {
    [bufs.chrName, bufs.field, bufs.name, bufs.dir, bufs.lengths]
  }

  const ChrBuf := 0
  const FieldBuf := 1
  const NameBuf := 2
  const DirBuf := 3
  const LengthsBuf := 4

  /** The eleven reads of a line up to the comma separated lengths:
      chromosome, start, end, name, score (ignored), strand, thick start,
      thick end and colour (ignored), block count and lengths. */
  const HeadScript: seq<Target> := [Into(ChrBuf), Into(FieldBuf), Into(FieldBuf), Into(NameBuf), Skip, Into(DirBuf),
                                    Skip, Skip, Skip, Into(FieldBuf), Into(LengthsBuf)]

  /** A line read up to its lengths.  `None` is the exception `stoul` throws
      on a start, end or count without a number; the reads do not throw, so
      whether they come before or after it does not matter. */
  function ReadHead(bufs: Buffers, myLine: string): Option<Head> {
    var r := ReadFields(Open(myLine), Registers(bufs), HeadScript, '\t');
    var start := Stoul(r.texts[1]);
    var end := Stoul(r.texts[2]);
    var segments := Stoul(r.texts[9]);
    if start.None? || end.None? || segments.None? then None
    else
      Some(Head(r.texts[0], U32(start.value), U32(end.value), r.texts[3], r.texts[5] == "+",
                U32(segments.value), r.stream,
                Buffers(r.texts[0], r.texts[3], r.texts[9], r.texts[5], r.texts[10], bufs.offsets)))
  }

  /** Times the block loop runs: its counter is a signed `int` initialised
      from the unsigned count, so a count of 2^31 or more runs no time. */
  function Iterations(segments: nat): nat {
    if segments < 0x8000_0000 then segments else 0
  }

  /** Blocks read and the last text read into `myField`. */
  datatype BlocksRead = BlocksRead(blocks: seq<Block>, field: string)

  /** The block loop: each pass reads an offset and a length, both through
      `myField`, and pushes `[start + offset, start + offset + length)` in
      32-bit arithmetic. */
  function ReadBlocks(offsets: Stream, lengths: Stream, field: string, start: nat, n: nat): Option<BlocksRead>
    decreases n
  {
    if n == 0 then Some(BlocksRead([], field))
    else
      var o := GetLine(offsets, field, ',');
      var offset := Stoul(o.field);
      if offset.None? then None
      else
        var blockStart := U32(start + offset.value);
        var l := GetLine(lengths, o.field, ',');
        var length := Stoul(l.field);
        if length.None? then None
        else
          var rest := ReadBlocks(o.stream, l.stream, l.field, start, n - 1);
          if rest.None? then None
          else Some(BlocksRead([Block(blockStart, U32(blockStart + length.value))] + rest.value.blocks,
                               rest.value.field))
  }

  /** Records read, and whether reading ended without an exception. */
  datatype Loaded = Loaded(records: seq<BedRecord>, ok: bool)

  function Prepend(recs: seq<BedRecord>, l: Loaded): Loaded {
    Loaded(recs + l.records, l.ok)
  }

  /** The reading loop of `loadRef` on what is left of the input.  A line is
      read with `getline`; its head is read; when that read exhausted the
      input the line is dropped and reading stops; otherwise the offsets and
      blocks are read and the record is kept. */
  function LoadText(src: Stream, bufs: Buffers): Loaded
    decreases Remaining(src)
  {
    if !src.good then Loaded([], true)
    else
      // the input stream is good, so the line buffer is always overwritten
      var line := GetLine(src, [], '\n');
      var head := ReadHead(bufs, line.field);
      if head.None? then Loaded([], false)
      else if !line.stream.good then Loaded([], true)
      else
        var h := head.value;
        var o := GetLine(h.line, h.bufs.offsets, '\t');
        var blocks := ReadBlocks(Open(o.field), Open(h.bufs.lengths), h.bufs.field, h.start, Iterations(h.segments));
        if blocks.None? then Loaded([], false)
        else
          var rec := BedRecord(h.chrName, h.start, h.end, h.name, h.direction, blocks.value.blocks);
          Prepend([rec], LoadText(line.stream, h.bufs.(field := blocks.value.field, offsets := o.field)))
  }

  /** `loadRef` on the text `text`: the records it appends, in input order,
      and `false` when it ended by an exception, records read before it kept. */
  method ParseReference(text: string) returns (recs: seq<BedRecord>, ok: bool)
    ensures Loaded(recs, ok) == LoadText(Open(text), Fresh)
  {
    hide GetLine, Stoul, ReadHead, ReadBlocks;
    var src := Open(text);
    var bufs := Fresh;
    recs := [];
    ok := true;
    while src.good
      invariant LoadText(Open(text), Fresh) == Prepend(recs, LoadText(src, bufs))
      decreases Remaining(src)
    {
      var line := GetLine(src, [], '\n');
      var head := ReadHead(bufs, line.field);
      if head.None? {
        ok := false;
        return;
      }
      if !line.stream.good {
        return;
      }
      var h := head.value;
      var o := GetLine(h.line, h.bufs.offsets, '\t');
      var blocks := ReadBlockList(Open(o.field), Open(h.bufs.lengths), h.bufs.field, h.start, Iterations(h.segments));
      if blocks.None? {
        ok := false;
        return;
      }
      LoadTextStep(src, bufs);
      recs := recs + [BedRecord(h.chrName, h.start, h.end, h.name, h.direction, blocks.value.blocks)];
      bufs := h.bufs.(field := blocks.value.field, offsets := o.field);
      src := line.stream;
    }
  }

  function AfterBlocks(done: seq<Block>, r: Option<BlocksRead>): Option<BlocksRead> {
    if r.None? then None else Some(BlocksRead(done + r.value.blocks, r.value.field))
  }

  /** The block loop of `loadRef`, run `n` times from the given streams. */
  method ReadBlockList(offsets0: Stream, lengths0: Stream, field0: string, start: nat, n: nat)
    returns (r: Option<BlocksRead>)
    ensures r == ReadBlocks(offsets0, lengths0, field0, start, n)
  {
    hide GetLine, Stoul, U32;
    var offsets, lengths, field := offsets0, lengths0, field0;
    var blocks: seq<Block> := [];
    var i := n;
    AfterBlocksEmpty(ReadBlocks(offsets0, lengths0, field0, start, n));
    while i > 0
      invariant ReadBlocks(offsets0, lengths0, field0, start, n) ==
                AfterBlocks(blocks, ReadBlocks(offsets, lengths, field, start, i))
    {
      ReadBlocksStep(offsets, lengths, field, start, i);
      var off := GetLine(offsets, field, ',');
      var offset := Stoul(off.field);
      if offset.None? {
        return None;
      }
      var blockStart := U32(start + offset.value);
      var len := GetLine(lengths, off.field, ',');
      var length := Stoul(len.field);
      if length.None? {
        return None;
      }
      var b := Block(blockStart, U32(blockStart + length.value));
      AfterBlocksTwice(blocks, [b], ReadBlocks(off.stream, len.stream, len.field, start, i - 1));
      blocks := blocks + [b];
      offsets, lengths, field := off.stream, len.stream, len.field;
      i := i - 1;
    }
    assert blocks + [] == blocks;
    r := Some(BlocksRead(blocks, field));
  }

  lemma ReadBlocksStep(offsets: Stream, lengths: Stream, field: string, start: nat, n: nat)
    requires n > 0
    ensures var o := GetLine(offsets, field, ',');
      var l := GetLine(lengths, o.field, ',');
      ReadBlocks(offsets, lengths, field, start, n) ==
        if Stoul(o.field).None? || Stoul(l.field).None? then None
        else
          var blockStart := U32(start + Stoul(o.field).value);
          AfterBlocks([Block(blockStart, U32(blockStart + Stoul(l.field).value))],
                      ReadBlocks(o.stream, l.stream, l.field, start, n - 1))
  {
    hide GetLine, Stoul, U32;
  }

  /** One pass of the block loop whose two reads are known. */
  lemma ReadBlocksCons(offsets: Stream, lengths: Stream, field: string, start: nat, n: nat,
                       o: Read, l: Read, offset: int, length: int)
    requires n > 0
    requires GetLine(offsets, field, ',') == o && Stoul(o.field) == Some(offset)
    requires GetLine(lengths, o.field, ',') == l && Stoul(l.field) == Some(length)
    ensures ReadBlocks(offsets, lengths, field, start, n) ==
      AfterBlocks([Block(U32(start + offset), U32(U32(start + offset) + length))],
                  ReadBlocks(o.stream, l.stream, l.field, start, n - 1))
  {
    hide GetLine, Stoul, U32;
  }

  lemma AfterBlocksEmpty(r: Option<BlocksRead>)
    ensures AfterBlocks([], r) == r
  {
    if r.Some? {
      assert [] + r.value.blocks == r.value.blocks;
    }
  }

  lemma AfterBlocksTwice(a: seq<Block>, b: seq<Block>, r: Option<BlocksRead>)
    ensures AfterBlocks(a, AfterBlocks(b, r)) == AfterBlocks(a + b, r)
  {
    if r.Some? {
      assert a + (b + r.value.blocks) == (a + b) + r.value.blocks;
    }
  }

  /** One pass of the reading loop, when the line read is kept. */
  lemma LoadTextStep(src: Stream, bufs: Buffers)
    requires src.good
    requires var line := GetLine(src, [], '\n');
      ReadHead(bufs, line.field).Some? && line.stream.good
    ensures var line := GetLine(src, [], '\n');
      var h := ReadHead(bufs, line.field).value;
      var o := GetLine(h.line, h.bufs.offsets, '\t');
      var blocks := ReadBlocks(Open(o.field), Open(h.bufs.lengths), h.bufs.field, h.start, Iterations(h.segments));
      blocks.Some? ==>
        LoadText(src, bufs) ==
          Prepend([BedRecord(h.chrName, h.start, h.end, h.name, h.direction, blocks.value.blocks)],
                  LoadText(line.stream, h.bufs.(field := blocks.value.field, offsets := o.field)))
  {
    hide GetLine, Stoul, ReadBlocks, ReadHead;
  }

  // ---------------------------------------------------------------------
  // Reading back what a BED12 writer writes

  /** One BED12 line as a writer produces it: the fields `loadRef` skips are
      kept as text, the numbers it reads as values. */
  datatype BedLine = BedLine(
    chrom: string,
    start: nat,
    end: nat,
    name: string,
    score: string,
    strand: string,
    thickStart: string,
    thickEnd: string,
    rgb: string,
    lengths: seq<nat>,
    offsets: seq<nat>)

  function ShowList(ns: seq<nat>): (ts: seq<string>)
    ensures |ts| == |ns|
  {
    seq(|ns|, i requires 0 <= i < |ns| => ShowNat(ns[i]))
  }

  /** The twelve tab separated fields of a line. */
  function Fields(l: BedLine): seq<string> {
    [l.chrom, ShowNat(l.start), ShowNat(l.end), l.name, l.score, l.strand,
     l.thickStart, l.thickEnd, l.rgb, ShowNat(|l.lengths|),
     Join(ShowList(l.lengths), ','), Join(ShowList(l.offsets), ',')]
  }

  function Text(l: BedLine): string {
    Join(Fields(l), '\t')
  }

  /** Lines each followed by a newline. */
  function Lines(ls: seq<BedLine>): string {
    if ls == [] then [] else Text(ls[0]) + ['\n'] + Lines(ls[1..])
  }

  predicate Plain(s: string) {
    FreeOf(s, '\t') && FreeOf(s, '\n')
  }

  /** A line `loadRef` can read: text fields without separators, numbers that
      `stoul` accepts, and as many offsets as lengths, fewer than 2^31. */
  predicate WellFormed(l: BedLine) {
    && Plain(l.chrom) && Plain(l.name) && Plain(l.score) && Plain(l.strand)
    && Plain(l.thickStart) && Plain(l.thickEnd) && Plain(l.rgb)
    && l.start <= ULongMax && l.end <= ULongMax
    && |l.lengths| == |l.offsets| < 0x8000_0000
    && (forall i :: 0 <= i < |l.lengths| ==> l.lengths[i] <= ULongMax)
    && (forall i :: 0 <= i < |l.offsets| ==> l.offsets[i] <= ULongMax)
  }

  /** Block `i` starts `offsets[i]` after `start` and is `lengths[i]` long,
      both in 32-bit arithmetic. */
  function ExpectedBlocks(start: nat, lengths: seq<nat>, offsets: seq<nat>): (bs: seq<Block>)
    requires |lengths| == |offsets|
    ensures |bs| == |lengths|
  {
    seq(|lengths|, i requires 0 <= i < |lengths| =>
      Block(U32(start + offsets[i]), U32(U32(start + offsets[i]) + lengths[i])))
  }

  /** The record `loadRef` should make of a line. */
  function Expected(l: BedLine): BedRecord
    requires |l.lengths| == |l.offsets|
  {
    BedRecord(l.chrom, U32(l.start), U32(l.end), l.name, l.strand == "+",
              ExpectedBlocks(U32(l.start), l.lengths, l.offsets))
  }

  function ExpectedAll(ls: seq<BedLine>): (rs: seq<BedRecord>)
    requires forall i :: 0 <= i < |ls| ==> WellFormed(ls[i])
    ensures |rs| == |ls|
  {
    seq(|ls|, i requires 0 <= i < |ls| && WellFormed(ls[i]) => Expected(ls[i]))
  }

  /** What is left in `myField` after a line: the last length read, or the
      block count when there is no block. */
  function LastField(l: BedLine): string {
    if l.lengths == [] then ShowNat(0) else ShowNat(l.lengths[|l.lengths| - 1])
  }

  function NextBuffers(l: BedLine, bufs: Buffers): Buffers {
    var fs := Fields(l);
    Buffers(l.chrom, l.name, LastField(l), l.strand, fs[10], fs[11])
  }

  /** Streams `ss[i]` from which `getline` reads, whatever the buffer held,
      the field `ts[i]` that `stoul` reads as `vs[i]`, leaving `ss[i + 1]`. */
  ghost predicate Delivers(ss: seq<Stream>, ts: seq<string>, vs: seq<nat>) {
    && Supplies(ss, ts, ',') && |ts| == |vs|
    && forall i :: 0 <= i < |ts| ==> Stoul(ts[i]) == Some(vs[i])
  }

  /** The block loop over streams that deliver the given offsets and lengths:
      its last `n` passes read the blocks from `k` on, and leave the last
      length text in `myField`. */
  lemma {:induction false} ReadBlocksJoin(os: seq<Stream>, ot: seq<string>, offsets: seq<nat>,
                                          ls: seq<Stream>, lt: seq<string>, lengths: seq<nat>,
                                          k: nat, n: nat, field: string, start: nat)
    requires Delivers(os, ot, offsets) && Delivers(ls, lt, lengths)
    requires |lengths| == |offsets| && k + n == |lengths|
    ensures ReadBlocks(os[k], ls[k], field, start, n)
      == Some(BlocksRead(ExpectedBlocks(start, lengths, offsets)[k..], if n > 0 then lt[|lt| - 1] else field))
    decreases n
  {
    hide GetLine, Stoul;
    if n > 0 {
      var o, l := Read(os[k + 1], ot[k]), Read(ls[k + 1], lt[k]);
      assert GetLine(os[k], field, ',') == o && Stoul(o.field) == Some(offsets[k]);
      assert GetLine(ls[k], o.field, ',') == l && Stoul(l.field) == Some(lengths[k]);
      ReadBlocksCons(os[k], ls[k], field, start, n, o, l, offsets[k], lengths[k]);
      ReadBlocksJoin(os, ot, offsets, ls, lt, lengths, k + 1, n - 1, lt[k], start);
      ExpectedBlocksFrom(start, lengths, offsets, k);
    } else {
      assert ExpectedBlocks(start, lengths, offsets)[k..] == [];
    }
  }

  /** A list of numbers written in decimal and joined by commas delivers
      them. */
  lemma CursorsDeliver(ns: seq<nat>)
    requires forall i :: 0 <= i < |ns| ==> ns[i] <= ULongMax
    ensures Delivers(Cursors(ShowList(ns), ','), ShowList(ns), ns)
  {
    var ts := ShowList(ns);
    forall i | 0 <= i < |ts| ensures FreeOf(ts[i], ',') && Stoul(ts[i]) == Some(ns[i]) {
      ShowNatFreeOf(ns[i], ',');
      StoulShow(ns[i]);
    }
    CursorsSupply(ts, ',');
  }

  lemma ExpectedBlocksFrom(start: nat, lengths: seq<nat>, offsets: seq<nat>, k: nat)
    requires |lengths| == |offsets| && k < |lengths|
    ensures ExpectedBlocks(start, lengths, offsets)[k..] ==
      [Block(U32(start + offsets[k]), U32(U32(start + offsets[k]) + lengths[k]))]
        + ExpectedBlocks(start, lengths, offsets)[k + 1..]
  {
    var bs := ExpectedBlocks(start, lengths, offsets);
    assert bs[k..] == [bs[k]] + bs[k + 1..];
  }

  /** Numbers written in decimal and joined by commas read back as blocks. */
  lemma WrittenBlocks(lengths: seq<nat>, offsets: seq<nat>, field: string, start: nat)
    requires |lengths| == |offsets|
    requires forall i :: 0 <= i < |lengths| ==> lengths[i] <= ULongMax
    requires forall i :: 0 <= i < |offsets| ==> offsets[i] <= ULongMax
    ensures ReadBlocks(Open(Join(ShowList(offsets), ',')), Open(Join(ShowList(lengths), ',')), field, start, |lengths|)
      == Some(BlocksRead(ExpectedBlocks(start, lengths, offsets),
                         if lengths != [] then ShowNat(lengths[|lengths| - 1]) else field))
  {
    hide GetLine, Stoul, U32, ShowNat;
    var lt, ot := ShowList(lengths), ShowList(offsets);
    CursorsDeliver(lengths);
    CursorsDeliver(offsets);
    ReadBlocksJoin(Cursors(ot, ','), ot, offsets, Cursors(lt, ','), lt, lengths, 0, |lengths|, field, start);
    if lengths != [] {
      RestStart(ot, ',');
      RestStart(lt, ',');
    } else {
      assert ExpectedBlocks(start, lengths, offsets)[0..] == [];
    }
  }

  lemma PlainFields(l: BedLine)
    requires WellFormed(l)
    ensures |Fields(l)| == 12
    ensures forall i :: 0 <= i < 12 ==> Plain(Fields(l)[i])
  {
    var fs := Fields(l);
    ShowNatFreeOf(l.start, '\t');
    ShowNatFreeOf(l.start, '\n');
    ShowNatFreeOf(l.end, '\t');
    ShowNatFreeOf(l.end, '\n');
    ShowNatFreeOf(|l.lengths|, '\t');
    ShowNatFreeOf(|l.lengths|, '\n');
    ListPlain(l.lengths);
    ListPlain(l.offsets);
  }

  lemma ListPlain(ns: seq<nat>)
    ensures Plain(Join(ShowList(ns), ','))
  {
    var ts := ShowList(ns);
    forall i | 0 <= i < |ts| ensures Plain(ts[i]) {
      ShowNatFreeOf(ns[i], '\t');
      ShowNatFreeOf(ns[i], '\n');
    }
    JoinFreeOf(ts, ',', '\t');
    JoinFreeOf(ts, ',', '\n');
  }

  /** The reads of a written line up to its lengths. */
  lemma ReadHeadText(l: BedLine, bufs: Buffers)
    requires WellFormed(l)
    ensures ReadHead(bufs, Text(l)) ==
      Some(Head(l.chrom, U32(l.start), U32(l.end), l.name, l.strand == "+", |l.lengths|,
                Rest(Fields(l), 11, '\t'),
                Buffers(l.chrom, l.name, ShowNat(|l.lengths|), l.strand, Fields(l)[10], bufs.offsets)))
  {
    hide GetLine, Stoul, ReadFields, Join, ShowNat;
    var fs := Fields(l);
    PlainFields(l);
    CursorsSupply(fs, '\t');
    RestStart(fs, '\t');
    ReadFieldsJoin(Cursors(fs, '\t'), fs, 0, Registers(bufs), HeadScript, '\t');
    var r := ReadFields(Open(Text(l)), Registers(bufs), HeadScript, '\t');
    assert r.texts == fs[..11] && r.stream == Rest(fs, 11, '\t');
    StoulShow(l.start);
    StoulShow(l.end);
    StoulShow(|l.lengths|);
    assert Stoul(r.texts[1]) == Some(l.start) && Stoul(r.texts[2]) == Some(l.end);
    assert Stoul(r.texts[9]) == Some(|l.lengths|) && U32(|l.lengths|) == |l.lengths|;
  }

  lemma TextPlain(l: BedLine)
    requires WellFormed(l)
    ensures FreeOf(Text(l), '\n') && Text(l) != []
  {
    hide ShowNat;
    PlainFields(l);
    JoinFreeOf(Fields(l), '\t', '\n');
    assert Text(l) == Fields(l)[0] + ['\t'] + Join(Fields(l)[1..], '\t');
  }

  /** A written line followed by a newline is read as the record it was
      written from, and leaves the buffers as `NextBuffers` says. */
  lemma LoadLine(l: BedLine, rest: string, bufs: Buffers)
    requires WellFormed(l)
    ensures LoadText(Open(Text(l) + ['\n'] + rest), bufs) ==
      Prepend([Expected(l)], LoadText(Open(rest), NextBuffers(l, bufs)))
  {
    hide GetLine, Stoul, ReadHead, ReadBlocks, Join, ShowNat, Text;
    var src := Open(Text(l) + ['\n'] + rest);
    var fs := Fields(l);
    TextPlain(l);
    GetLinePrefix(Text(l), rest, [], '\n');
    ReadHeadText(l, bufs);
    var h := ReadHead(bufs, Text(l)).value;
    PlainFields(l);
    GetLineJoin(fs, 11, h.bufs.offsets, '\t');
    assert Rest(fs, 12, '\t') == Stream([], false);
    var o := GetLine(h.line, h.bufs.offsets, '\t');
    assert o.field == Join(ShowList(l.offsets), ',');
    WrittenBlocks(l.lengths, l.offsets, ShowNat(|l.lengths|), U32(l.start));
    assert Iterations(h.segments) == |l.lengths|;
    LoadTextStep(src, bufs);
  }

  /** An empty input has one empty line, whose reads all fail after the
      first: `stoul` then reads the start from whatever `myField` held, and
      throws when that is not a number. */
  lemma LoadEmpty(bufs: Buffers)
    ensures LoadText(Open([]), bufs) == Loaded([], Stoul(bufs.field).Some?)
  {
    hide GetLine, Stoul, ReadFields, U32;
    GetLineAbsent([], [], '\n');
    EmptyLineHead(bufs);
  }

  /** On an empty line every read after the first finds the stream failed,
      so the start, end and block count are all the old `myField`. */
  lemma EmptyLineHead(bufs: Buffers)
    ensures var r := ReadFields(Open([]), Registers(bufs), HeadScript, '\t');
      r.texts[1] == bufs.field && r.texts[2] == bufs.field && r.texts[9] == bufs.field
  {
    hide GetLine, ReadFields;
    EmptyLineReads(Registers(bufs), HeadScript, '\t');
    assert Get(Set(Registers(bufs), Into(ChrBuf), []), Into(FieldBuf)) == bufs.field;
  }

  /** `myField` after a line holds a number. */
  lemma NextBuffersField(l: BedLine, bufs: Buffers)
    requires WellFormed(l)
    ensures Stoul(NextBuffers(l, bufs).field).Some?
  {
    hide Stoul;
    if l.lengths == [] {
      StoulShow(0);
    } else {
      StoulShow(l.lengths[|l.lengths| - 1]);
    }
  }

  /** Written lines, each ending in a newline, are read back as the records
      they were written from, in order, and without an exception -- unless
      there is no line and the old `myField` holds no number. */
  lemma {:induction false} LoadLines(ls: seq<BedLine>, bufs: Buffers)
    requires forall i :: 0 <= i < |ls| ==> WellFormed(ls[i])
    ensures LoadText(Open(Lines(ls)), bufs) == Loaded(ExpectedAll(ls), ls != [] || Stoul(bufs.field).Some?)
  {
    hide GetLine, Stoul, ReadHead, ReadBlocks, Text, LoadText;
    if ls == [] {
      LoadEmpty(bufs);
    } else {
      LoadLine(ls[0], Lines(ls[1..]), bufs);
      NextBuffersField(ls[0], bufs);
      LoadLines(ls[1..], NextBuffers(ls[0], bufs));
      assert ExpectedAll(ls) == [Expected(ls[0])] + ExpectedAll(ls[1..]);
    }
  }

  /** A file of written lines, read from the start: its records, in order;
      an empty file throws, since `stoul` then reads an empty `myField`. */
  lemma LoadFile(ls: seq<BedLine>)
    requires forall i :: 0 <= i < |ls| ==> WellFormed(ls[i])
    ensures LoadText(Open(Lines(ls)), Fresh) == Loaded(ExpectedAll(ls), ls != [])
  {
    hide GetLine, Stoul, ReadHead, ReadBlocks, Text, LoadText, Lines;
    LoadLines(ls, Fresh);
    StoulEmpty();
  }

  /** A last line without its newline is dropped: reading it exhausts the
      input, so the loop breaks before keeping it. */
  lemma {:induction false} LoadDropsUnterminated(ls: seq<BedLine>, l: BedLine, bufs: Buffers)
    requires forall i :: 0 <= i < |ls| ==> WellFormed(ls[i])
    requires WellFormed(l)
    ensures LoadText(Open(Lines(ls) + Text(l)), bufs) == Loaded(ExpectedAll(ls), true)
  {
    hide GetLine, Stoul, ReadHead, ReadBlocks, Text, LoadText;
    if ls == [] {
      assert Lines(ls) + Text(l) == Text(l);
      LoadUnterminated(l, bufs);
    } else {
      LinesAppend(ls, Text(l));
      LoadLine(ls[0], Lines(ls[1..]) + Text(l), bufs);
      LoadDropsUnterminated(ls[1..], l, NextBuffers(ls[0], bufs));
      assert ExpectedAll(ls) == [Expected(ls[0])] + ExpectedAll(ls[1..]);
    }
  }

  lemma LinesAppend(ls: seq<BedLine>, t: string)
    requires ls != []
    ensures Lines(ls) + t == Text(ls[0]) + ['\n'] + (Lines(ls[1..]) + t)
  {
    hide Text;
  }

  lemma LoadUnterminated(l: BedLine, bufs: Buffers)
    requires WellFormed(l)
    ensures LoadText(Open(Text(l)), bufs) == Loaded([], true)
  {
    hide GetLine, Stoul, ReadHead, ReadBlocks, Text;
    TextPlain(l);
    GetLineAbsent(Text(l), [], '\n');
    ReadHeadText(l, bufs);
  }
}

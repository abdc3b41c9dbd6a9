/** The intron reference and its per-intron report (`CoverageBlocks` and the
    `WriteOutput` of `CoverageBlocksIRFinder`).

    The reference is a list of BED records (module BedRecords).  A record
    whose name starts with `dir/` (directional runs) or `nd/`
    (non-directional runs) names an intron: its name packs the gene, the
    intron's coordinates, the number of excluded bases and a cleanliness tag,
    separated by `/`.  For each such intron the report gives depth statistics
    of the fragment map over the record's blocks and over 50-base flanks, the
    junction and span counts at its ends, the intron-retention ratio and a
    warning.  The records are cut into one contiguous shard per worker; each
    worker keeps its own cache of the last chromosome looked up, and the
    report concatenates the shards' rows in worker order.  Three totals of
    intron depth by cleanliness class are accumulated alongside. */
module CoverageBlocks {
  import opened Wrappers
  import opened Unsigned
  import opened Streams
  import opened Chromosomes
  import opened Tracks
  import opened Histograms
  import opened HistStats
  import opened BedRecords
  import opened FragmentsMaps

  /** A `double` result; `None` is NaN. */
  type Num = Option<real>

  function MaxNat(a: nat, b: nat): nat {
    if a < b then b else a
  }

  function MinNat(a: nat, b: nat): nat {
    if a < b then a else b
  }

  // ---------------------------------------------------------------------
  // The composite intron name

  /** The fields of an intron name that the report uses: gene name, intron
      ID, the intron's start and end, the excluded bases and the
      cleanliness tag (all numbers as `unsigned int`). */
  datatype NameFields = NameFields(
    name: string,
    id: string,
    intronStart: nat,
    intronEnd: nat,
    exclBases: nat,
    clean: string)

  /** The four strings read: `s_name`, `s_ID`, `s_buffer` (reused for the
      three numbers) and `s_clean`, all fresh for every record. */
  const NameBuf := 0
  const IdBuf := 1
  const NumberBuf := 2
  const CleanBuf := 3

  /** The reads from the name in order: an `ignore` up to a `/` is a read
      into no string. */
  const NameScript: seq<Target> := [
    Streams.Skip, Into(NameBuf), Into(IdBuf), Streams.Skip, Streams.Skip,
    Into(NumberBuf), Into(NumberBuf), Streams.Skip, Into(NumberBuf), Into(CleanBuf)]

  /** The name split at `/`: `None` when one of the three numbers is not a
      `long` (the `stol` exception, which skips the record).  The numbers
      are stored in `unsigned int`, so they wrap modulo 2^32. */
  function ParseName(name: string): Option<NameFields> {
    var r := ReadFields(Open(name), [[], [], [], []], NameScript, '/');
    var s := Stol(r.texts[5]);
    var e := Stol(r.texts[6]);
    var x := Stol(r.texts[8]);
    if s.None? || e.None? || x.None? then None
    else Some(NameFields(r.texts[1], r.texts[2], U32(s.value), U32(e.value), U32(x.value), r.texts[9]))
  }

  /** A name joined from `/`-free fields, with decimal numbers in fields
      5, 6 and 8, is read back as those fields; fields past the tenth are
      ignored. */
  lemma ParseNameText(fs: seq<string>, s: nat, e: nat, x: nat)
    requires |fs| >= 10
    requires forall i :: 0 <= i < |fs| ==> FreeOf(fs[i], '/')
    requires fs[5] == ShowNat(s) && fs[6] == ShowNat(e) && fs[8] == ShowNat(x)
    requires s <= LongMax && e <= LongMax && x <= LongMax
    ensures ParseName(Join(fs, '/')) == Some(NameFields(fs[1], fs[2], U32(s), U32(e), U32(x), fs[9]))
  {
    hide GetLine, Stol, ReadFields, Join, ShowNat;
    CursorsSupply(fs, '/');
    RestStart(fs, '/');
    ReadFieldsJoin(Cursors(fs, '/'), fs, 0, [[], [], [], []], NameScript, '/');
    var r := ReadFields(Open(Join(fs, '/')), [[], [], [], []], NameScript, '/');
    assert r.texts == fs[..10];
    StolShow(s);
    StolShow(e);
    StolShow(x);
    assert Stol(r.texts[5]) == Some(s) && Stol(r.texts[6]) == Some(e) && Stol(r.texts[8]) == Some(x);
  }

  /** A name with a non-numeric start field is refused. */
  lemma ParseNameRefuses(fs: seq<string>)
    requires |fs| >= 10
    requires forall i :: 0 <= i < |fs| ==> FreeOf(fs[i], '/')
    requires fs[5] == []
    ensures ParseName(Join(fs, '/')) == None
  {
    hide GetLine, Stol, ReadFields, Join;
    CursorsSupply(fs, '/');
    RestStart(fs, '/');
    ReadFieldsJoin(Cursors(fs, '/'), fs, 0, [[], [], [], []], NameScript, '/');
    var r := ReadFields(Open(Join(fs, '/')), [[], [], [], []], NameScript, '/');
    assert r.texts == fs[..10];
    StoulEmpty();
    assert Stol(r.texts[5]) == None;
  }

  // ---------------------------------------------------------------------
  // Which records are reported, and on which strand

  predicate HasPrefix(s: string, p: string) {
    |p| <= |s| && s[..|p|] == p
  }

  predicate OccursAt(s: string, t: string, i: nat) {
    i + |t| <= |s| && s[i..i + |t|] == t
  }

  /** `s.find(t) != npos`. */
  predicate Contains(s: string, t: string) {
    exists i: nat :: i <= |s| && OccursAt(s, t, i)
  }

  /** Directional runs report the `dir/` records, non-directional runs the
      `nd/` ones. */
  predicate Selected(name: string, directionality: int) {
    || (directionality != 0 && HasPrefix(name, "dir/"))
    || (directionality == 0 && HasPrefix(name, "nd/"))
  }

  /** The strand measured: the record's own, flipped when the library is
      reverse-stranded (`directionality == -1`). */
  function MeasureDir(direction: bool, directionality: int): bool {
    if directionality == -1 then !direction else direction
  }

  /** The strand class of the fragment map read: the combined class 2 for
      non-directional runs, otherwise 1 (forward) or 0 (reverse). */
  function TrackOf(directionality: int, measureDir: bool): (d: nat)
    ensures d < 3
    ensures d == 2 <==> directionality == 0
  {
    if directionality == 0 then 2 else if measureDir then 1 else 0
  }

  /** The strand passed to the junction and span lookups: none in a
      non-directional run. */
  function LookupStrand(directionality: int, measureDir: bool): (s: Option<bool>)
    ensures s.None? <==> directionality == 0
  {
    if directionality == 0 then None else Some(measureDir)
  }

  /** A reverse-stranded run measures the opposite strand of the record, any
      other directional run the record's own. */
  lemma MeasuredTrack(direction: bool, directionality: int)
    ensures directionality == -1 ==> TrackOf(directionality, MeasureDir(direction, directionality)) == (if direction then 0 else 1)
    ensures directionality != 0 && directionality != -1 ==>
      TrackOf(directionality, MeasureDir(direction, directionality)) == (if direction then 1 else 0)
  {
  }

  // ---------------------------------------------------------------------
  // Depth over a list of blocks (`fillHist`)

  /** One `updateCoverageHist` call: the depths of `[b.start, b.end)` added
      to `h`, or just the key 0 when the map has no track `refID`. */
  function BlockHist(tracks: seq<seq<Entry>>, refID: nat, h: Hist, b: Block): (r: Hist)
    requires Ascending(h)
    ensures Ascending(r)
  {
    if refID < |tracks| then CoverageHist(h, tracks[refID], b.start, b.end) else AddCount(h, 0, 0)
  }

  /** `fillHist`: the blocks added to `h` one after the other. */
  function BlocksHist(tracks: seq<seq<Entry>>, refID: nat, h: Hist, blocks: seq<Block>): (r: Hist)
    requires Ascending(h)
    ensures Ascending(r)
    decreases |blocks|
  {
    if |blocks| == 0 then h
    else BlocksHist(tracks, refID, BlockHist(tracks, refID, h, blocks[0]), blocks[1..])
  }

  /** Bases covered by a list of forward blocks. */
  function Length(blocks: seq<Block>): int {
    if |blocks| == 0 then 0 else blocks[0].end - blocks[0].start + Length(blocks[1..])
  }

  /** On a known chromosome every base of every forward block is counted
      once, at its depth. */
  lemma {:induction false} BlocksHistTotal(tracks: seq<seq<Entry>>, refID: nat, h: Hist, blocks: seq<Block>)
    requires Ascending(h) && refID < |tracks|
    requires forall i :: 0 <= i < |blocks| ==> blocks[i].start <= blocks[i].end < 0x1_0000_0000
    ensures Total(BlocksHist(tracks, refID, h, blocks)) == Total(h) + Length(blocks)
    decreases |blocks|
  {
    hide CoverageHist;
    if |blocks| > 0 {
      var h' := BlockHist(tracks, refID, h, blocks[0]);
      assert Total(h') == Total(h) + (blocks[0].end - blocks[0].start);
      BlocksHistTotal(tracks, refID, h', blocks[1..]);
    }
  }

  /** On a chromosome the map does not know, any non-empty block list only
      makes depth 0 a key, with no base counted. */
  lemma {:induction false} BlocksHistUnknown(tracks: seq<seq<Entry>>, refID: nat, h: Hist, blocks: seq<Block>)
    requires Ascending(h) && refID >= |tracks| && |blocks| > 0
    ensures BlocksHist(tracks, refID, h, blocks) == AddCount(h, 0, 0)
    decreases |blocks|
  {
    hide AddCount;
    var h' := BlockHist(tracks, refID, h, blocks[0]);
    if |blocks| > 1 {
      BlocksHistUnknown(tracks, refID, h', blocks[1..]);
      AddCountMerges(h, 0, 0, 0);
    }
  }

  /** So its depth statistics are all NaN. */
  lemma UnknownChromosomeStats(tracks: seq<seq<Entry>>, refID: nat, blocks: seq<Block>)
    requires refID >= |tracks| && |blocks| > 0
    ensures TrimmedMean(BlocksHist(tracks, refID, [], blocks), 40) == None
    ensures Coverage(BlocksHist(tracks, refID, [], blocks)) == None
  {
    BlocksHistUnknown(tracks, refID, [], blocks);
    var h := AddCount([], 0, 0);
    assert h == [Bucket(0, 0)];
    assert HasKey(h, 0);
    assert Total(h) == 0 by {
      assert h[1..] == [];
    }
  }

  // ---------------------------------------------------------------------
  // Retention ratio and warning

  /** `x / (x + m)`; NaN when `x` is NaN or the sum is 0. */
  function Fraction(x: Num, m: nat): Num {
    if x.None? || x.value + m as real == 0.0 then None else Some(x.value / (x.value + m as real))
  }

  /** The intron-retention ratio: 0 with no depth and no splice reads at
      either end; below depth 1 the covered fraction stands in for the depth;
      otherwise depth over depth plus the larger splice count.  Comparisons
      with NaN are false. */
  function IRRatio(depth: Num, coverage: Num, jl: nat, jr: nat): Num {
    if depth == Some(0.0) && jl == 0 && jr == 0 then Some(0.0)
    else if depth.Some? && depth.value < 1.0 then Fraction(coverage, MaxNat(jl, jr))
    else Fraction(depth, MaxNat(jl, jr))
  }

  lemma FractionBetween(x: real, m: nat)
    requires x >= 0.0 && x + m as real != 0.0
    ensures 0.0 <= x / (x + m as real) <= 1.0
    ensures x / (x + m as real) == 1.0 ==> m == 0
    ensures x > 0.0 ==> x / (x + m as real) > 0.0
  {
    var q := x / (x + m as real);
    assert q * (x + m as real) == x;
  }

  /** With non-negative depth and coverage the ratio is a fraction; it is 1
      only when no splice read crosses either end, and positive whenever the
      depth is at least 1. */
  lemma IRRatioBounds(depth: Num, coverage: Num, jl: nat, jr: nat)
    requires depth.Some? ==> depth.value >= 0.0
    requires coverage.Some? ==> coverage.value >= 0.0
    ensures var r := IRRatio(depth, coverage, jl, jr);
      && (r.Some? ==> 0.0 <= r.value <= 1.0)
      && (r.Some? && r.value == 1.0 ==> jl == 0 && jr == 0)
      && (depth.Some? && depth.value >= 1.0 ==> r.Some? && r.value > 0.0)
  {
    var m := MaxNat(jl, jr);
    if depth == Some(0.0) && jl == 0 && jr == 0 {
    } else if depth.Some? && depth.value < 1.0 {
      if coverage.Some? && coverage.value + m as real != 0.0 {
        FractionBetween(coverage.value, m);
      }
    } else if depth.Some? {
      FractionBetween(depth.value, m);
    }
  }

  /** The last column: not an inclusion call, only why a call is unsafe. */
  datatype Warning = LowCover | LowSplicing | MinorIsoform | NonUniformIntronCover | NoWarning

  /** `1.33333333`: how much more the larger end's splicing may exceed the
      exact splice count before the intron is called a minor isoform. */
  const MinorRatio: real := 1.33333333

  /** The warning: too little depth plus exact splicing, too little exact
      splicing, exact splicing a minor part of the splicing at an end, or
      span counts at the ends far from the depth (more than 2 and 50% above
      or below it; the `+ 2` is `unsigned int`).  Comparisons with a NaN
      depth are false. */
  function WarningOf(depth: Num, jl: nat, jr: nat, je: nat, sl: nat, sr: nat): Warning {
    if depth.Some? && je as real + depth.value < 10.0 then LowCover
    else if je < 4 then LowSplicing
    else if je as real * MinorRatio < MaxNat(jl, jr) as real then MinorIsoform
    else if depth.Some? &&
      (|| (MaxNat(sl, sr) as real > depth.value + 2.0 && MaxNat(sl, sr) as real > depth.value * 1.5)
       || (U32(MinNat(sl, sr) + 2) as real < depth.value && MinNat(sl, sr) as real * 1.5 < depth.value))
    then NonUniformIntronCover
    else NoWarning
  }

  /** What each warning implies about the counts. */
  lemma WarningMeaning(depth: Num, jl: nat, jr: nat, je: nat, sl: nat, sr: nat)
    ensures var w := WarningOf(depth, jl, jr, je, sl, sr);
      && (w == LowCover <==> depth.Some? && je as real + depth.value < 10.0)
      && (w == LowSplicing ==> je < 4 && (depth.Some? ==> depth.value >= 7.0))
      && (w == MinorIsoform ==> je >= 4 && MaxNat(jl, jr) >= 6)
      && (w == NonUniformIntronCover || w == NoWarning ==>
            je >= 4 && MaxNat(jl, jr) as real <= je as real * MinorRatio)
      && (w == NoWarning && depth.Some? ==> MaxNat(sl, sr) as real <= depth.value + 2.0 || MaxNat(sl, sr) as real <= depth.value * 1.5)
  {
    var w := WarningOf(depth, jl, jr, je, sl, sr);
    if w == MinorIsoform {
      assert je as real * MinorRatio >= 4.0 * MinorRatio;
    }
  }

  // ---------------------------------------------------------------------
  // One report row

  /** Junction and span counts, from services that are not part of this
      model: `spans(chr, pos, strand)` is `SP.lookup`, `junctionsLeft`,
      `junctionsRight` and `junctionsExact` are `JC.lookupLeft`,
      `JC.lookupRight` and `JC.lookup`; strand `None` is the
      non-directional overload. */
  datatype Lookups = Lookups(
    spans: (string, nat, Option<bool>) -> nat,
    junctionsLeft: (string, nat, Option<bool>) -> nat,
    junctionsRight: (string, nat, Option<bool>) -> nat,
    junctionsExact: (string, nat, nat, Option<bool>) -> nat)

  /** The columns of a report line, numbers unrendered. */
  datatype Row = Row(
    chrName: string,
    intronStart: nat,
    intronEnd: nat,
    name: string,
    id: string,
    clean: string,
    strand: bool,
    exclBases: nat,
    coverage: Num,
    depth: Num,
    depth25: Num,
    depth50: Num,
    depth75: Num,
    spansLeft: nat,
    spansRight: nat,
    depthFirst50: Num,
    depthLast50: Num,
    junctionsLeft: nat,
    junctionsRight: nat,
    junctionsExact: nat,
    irRatio: Num,
    warning: Warning)

  /** What a report reads: the chromosome registry, the finalised depth
      tracks of the fragment map, the counting services and the run's
      directionality (0 none, 1 forward, -1 reverse). */
  datatype Context = Context(chrs: seq<ChrEntry>, final: StrandTracks, look: Lookups, directionality: int)

  /** The 50 bases starting 5 bases into the intron, and the 50 bases ending
      5 bases before its end, in `unsigned int` arithmetic. */
  function FirstFlank(n: NameFields): Block {
    Block(U32(n.intronStart + 5), U32(n.intronStart + 55))
  }

  function LastFlank(n: NameFields): Block {
    Block(U32(n.intronEnd - 55), U32(n.intronEnd - 5))
  }

  /** The row of an intron record whose name parsed as `n`, on chromosome
      `refID`. */
  function Score(ctx: Context, rec: BedRecord, n: NameFields, refID: nat): Row
    requires |ctx.final| == 3
  {
    var measureDir := MeasureDir(rec.direction, ctx.directionality);
    var strand := LookupStrand(ctx.directionality, measureDir);
    var tracks := ctx.final[TrackOf(ctx.directionality, measureDir)];
    var h := BlocksHist(tracks, refID, [], rec.blocks);
    var depth := TrimmedMean(h, 40);
    var coverage := Coverage(h);
    var jl := ctx.look.junctionsLeft(rec.chrName, n.intronStart, strand);
    var jr := ctx.look.junctionsRight(rec.chrName, n.intronEnd, strand);
    var je := ctx.look.junctionsExact(rec.chrName, n.intronStart, n.intronEnd, strand);
    var sl := ctx.look.spans(rec.chrName, n.intronStart, strand);
    var sr := ctx.look.spans(rec.chrName, n.intronEnd, strand);
    Row(rec.chrName, n.intronStart, n.intronEnd, n.name, n.id, n.clean, rec.direction, n.exclBases,
        coverage, depth, Percentile(h, 25), Percentile(h, 50), Percentile(h, 75), sl, sr,
        TrimmedMean(BlocksHist(tracks, refID, [], [FirstFlank(n)]), 40),
        TrimmedMean(BlocksHist(tracks, refID, [], [LastFlank(n)]), 40),
        jl, jr, je, IRRatio(depth, coverage, jl, jr), WarningOf(depth, jl, jr, je, sl, sr))
  }

  /** Depth statistics are never negative. */
  lemma StatsNonneg(h: Hist)
    ensures TrimmedMean(h, 40).Some? ==> TrimmedMean(h, 40).value >= 0.0
    ensures Coverage(h).Some? ==> 0.0 <= Coverage(h).value <= 1.0
  {
    if Total(h) > 0 {
      CoverageBounds(h);
    }
  }

  /** Every row's retention ratio is a fraction, 1 only without splice
      reads at the intron's ends; rows with a depth of at least 1 have a
      positive ratio. */
  lemma ScoreRatio(ctx: Context, rec: BedRecord, n: NameFields, refID: nat)
    requires |ctx.final| == 3
    ensures var r := Score(ctx, rec, n, refID);
      && (r.irRatio.Some? ==> 0.0 <= r.irRatio.value <= 1.0)
      && (r.irRatio.Some? && r.irRatio.value == 1.0 ==> r.junctionsLeft == 0 && r.junctionsRight == 0)
      && (r.depth.Some? && r.depth.value >= 1.0 ==> r.irRatio.Some? && r.irRatio.value > 0.0)
  {
    hide TrimmedMean, Coverage, Percentile, BlocksHist, IRRatio, WarningOf;
    var r := Score(ctx, rec, n, refID);
    var measureDir := MeasureDir(rec.direction, ctx.directionality);
    var h := BlocksHist(ctx.final[TrackOf(ctx.directionality, measureDir)], refID, [], rec.blocks);
    StatsNonneg(h);
    IRRatioBounds(r.depth, r.coverage, r.junctionsLeft, r.junctionsRight);
  }

  // ---------------------------------------------------------------------
  // One worker's scan

  /** A worker's chromosome cache: the last chromosome name looked up and
      its `refID`; it starts at the empty name with `refID` 0. */
  datatype Cache = Cache(chrName: string, refID: nat)

  const NoChr: Cache := Cache([], 0)

  /** The cache after a record on `chrName`: looked up again only when the
      name differs from the cached one. */
  function Resolve(chrs: seq<ChrEntry>, c: Cache, chrName: string): Cache {
    if chrName != c.chrName then Cache(chrName, LookupRefID(chrs, chrName)) else c
  }

  /** The cache holds the registry's answer for its name (the starting
      cache, with no name, holds 0). */
  predicate Consistent(chrs: seq<ChrEntry>, c: Cache) {
    c.chrName == [] || c.refID == LookupRefID(chrs, c.chrName)
  }

  /** For a named chromosome the cache gives the registry's answer and
      stays consistent. */
  lemma ResolveLooksUp(chrs: seq<ChrEntry>, c: Cache, chrName: string)
    requires Consistent(chrs, c) && chrName != []
    ensures Resolve(chrs, c, chrName).refID == LookupRefID(chrs, chrName)
    ensures Consistent(chrs, Resolve(chrs, c, chrName))
  {
  }

  /** A record on the empty chromosome name at the start of a shard is
      given `refID` 0, whatever the registry says. */
  lemma ResolveEmptyName(chrs: seq<ChrEntry>)
    ensures Resolve(chrs, NoChr, []).refID == 0
  {
  }

  /** A record's result and the worker's cache after it. */
  datatype Outcome = Outcome(row: Option<Row>, cache: Cache)

  /** One record: skipped unless selected and its name parses; otherwise
      the cache is consulted and the row scored. */
  function Step(ctx: Context, c: Cache, rec: BedRecord): Outcome
    requires |ctx.final| == 3
  {
    if !Selected(rec.name, ctx.directionality) then Outcome(None, c)
    else
      var n := ParseName(rec.name);
      if n.None? then Outcome(None, c)
      else
        var c' := Resolve(ctx.chrs, c, rec.chrName);
        Outcome(Some(Score(ctx, rec, n.value, c'.refID)), c')
  }

  function Rows(r: Option<Row>): seq<Row> {
    if r.Some? then [r.value] else []
  }

  /** A worker's rows and its cache after a run of records. */
  datatype Shard = Shard(rows: seq<Row>, cache: Cache)

  function ScanShard(ctx: Context, c: Cache, recs: seq<BedRecord>): Shard
    requires |ctx.final| == 3
    decreases |recs|
  {
    if |recs| == 0 then Shard([], c)
    else
      var s := ScanShard(ctx, c, recs[..|recs| - 1]);
      var o := Step(ctx, s.cache, recs[|recs| - 1]);
      Shard(s.rows + Rows(o.row), o.cache)
  }

  lemma ScanShardEmpty(ctx: Context, c: Cache)
    requires |ctx.final| == 3
    ensures ScanShard(ctx, c, []) == Shard([], c)
  {
  }

  lemma ScanShardSnoc(ctx: Context, c: Cache, done: seq<BedRecord>, rec: BedRecord)
    requires |ctx.final| == 3
    ensures ScanShard(ctx, c, done + [rec]) ==
      var s := ScanShard(ctx, c, done);
      var o := Step(ctx, s.cache, rec);
      Shard(s.rows + Rows(o.row), o.cache)
  {
    hide Step;
    assert (done + [rec])[..|done|] == done;
  }

  /** A worker's state after the records `recs[lo..j]`: the rows scored,
      the cache, and the totals of the rows before and these. */
  ghost predicate Scanned(ctx: Context, recs: seq<BedRecord>, lo: nat, j: nat, earlier: seq<Row>,
                          rows: seq<Row>, cache: Cache, totals: Totals)
  {
    && |ctx.final| == 3 && lo <= j <= |recs|
    && Shard(rows, cache) == ScanShard(ctx, NoChr, recs[lo..j])
    && totals == TotalsOf(earlier + rows, ctx.directionality)
  }

  lemma ScannedStart(ctx: Context, recs: seq<BedRecord>, lo: nat, earlier: seq<Row>, totals: Totals)
    requires |ctx.final| == 3 && lo <= |recs| && totals == TotalsOf(earlier, ctx.directionality)
    ensures Scanned(ctx, recs, lo, lo, earlier, [], NoChr, totals)
  {
    assert recs[lo..lo] == [];
    assert earlier + [] == earlier;
  }

  /** One more record scanned. */
  lemma ScannedStep(ctx: Context, recs: seq<BedRecord>, lo: nat, j: nat, earlier: seq<Row>,
                    rows: seq<Row>, cache: Cache, totals: Totals, o: Outcome)
    requires Scanned(ctx, recs, lo, j, earlier, rows, cache, totals) && j < |recs|
    requires o == Step(ctx, cache, recs[j])
    ensures o.row.None? ==> Scanned(ctx, recs, lo, j + 1, earlier, rows, o.cache, totals)
    ensures o.row.Some? ==> Scanned(ctx, recs, lo, j + 1, earlier, rows + [o.row.value], o.cache,
                                    Sum(totals, Share(o.row.value, ctx.directionality)))
  {
    hide Step, Score, TotalsOf, Share, Sum, ScanShard;
    var done := recs[lo..j];
    assert recs[lo..j + 1] == done + [recs[j]];
    ScanShardSnoc(ctx, NoChr, done, recs[j]);
    assert ScanShard(ctx, NoChr, recs[lo..j + 1]) == Shard(rows + Rows(o.row), o.cache);
    if o.row.Some? {
      TotalsSnoc(earlier + rows, o.row.value, ctx.directionality);
      assert (earlier + rows) + [o.row.value] == earlier + (rows + [o.row.value]);
    } else {
      assert rows + Rows(o.row) == rows;
    }
  }

  /** The reference answer, without any cache: the row of a record whose
      chromosome is looked up in the registry. */
  function RowOf(ctx: Context, rec: BedRecord): Option<Row>
    requires |ctx.final| == 3
  {
    if !Selected(rec.name, ctx.directionality) then None
    else
      var n := ParseName(rec.name);
      if n.None? then None
      else Some(Score(ctx, rec, n.value, LookupRefID(ctx.chrs, rec.chrName)))
  }

  function AllRows(ctx: Context, recs: seq<BedRecord>): seq<Row>
    requires |ctx.final| == 3
    decreases |recs|
  {
    if |recs| == 0 then [] else AllRows(ctx, recs[..|recs| - 1]) + Rows(RowOf(ctx, recs[|recs| - 1]))
  }

  predicate Named(recs: seq<BedRecord>) {
    forall i :: 0 <= i < |recs| ==> recs[i].chrName != []
  }

  /** With named chromosomes the cache changes nothing: a scan from a
      consistent cache yields the reference rows. */
  lemma {:induction false} ScanShardRows(ctx: Context, c: Cache, recs: seq<BedRecord>)
    requires |ctx.final| == 3 && Consistent(ctx.chrs, c) && Named(recs)
    ensures ScanShard(ctx, c, recs).rows == AllRows(ctx, recs)
    ensures Consistent(ctx.chrs, ScanShard(ctx, c, recs).cache)
    decreases |recs|
  {
    hide Score, ParseName, LookupRefID;
    if |recs| > 0 {
      var init := recs[..|recs| - 1];
      var last := recs[|recs| - 1];
      assert Named(init) by {
        forall i | 0 <= i < |init| ensures init[i].chrName != [] {
          assert init[i] == recs[i];
        }
      }
      ScanShardRows(ctx, c, init);
      var s := ScanShard(ctx, c, init);
      ResolveLooksUp(ctx.chrs, s.cache, last.chrName);
    }
  }

  lemma {:induction false} AllRowsAppend(ctx: Context, a: seq<BedRecord>, b: seq<BedRecord>)
    requires |ctx.final| == 3
    ensures AllRows(ctx, a + b) == AllRows(ctx, a) + AllRows(ctx, b)
    decreases |b|
  {
    hide RowOf;
    if |b| == 0 {
      assert a + b == a;
    } else {
      assert (a + b)[..|a + b| - 1] == a + b[..|b| - 1];
      assert (a + b)[|a + b| - 1] == b[|b| - 1];
      AllRowsAppend(ctx, a, b[..|b| - 1]);
    }
  }

  // ---------------------------------------------------------------------
  // Shards

  /** Records per worker: `1 + size / n_threads`. */
  function JobSize(size: nat, nThreads: nat): nat
    requires nThreads >= 1
  {
    1 + size / nThreads
  }

  /** Worker `i`'s records: `[i·jobs, (i+1)·jobs)` cut to the list. */
  function ShardOf(recs: seq<BedRecord>, nThreads: nat, i: nat): seq<BedRecord>
    requires nThreads >= 1
  {
    var jobs := JobSize(|recs|, nThreads);
    recs[MinNat(i * jobs, |recs|)..MinNat((i + 1) * jobs, |recs|)]
  }

  /** The rows of workers `0 .. i-1`, in worker order. */
  function ShardedRows(ctx: Context, recs: seq<BedRecord>, nThreads: nat, i: nat): seq<Row>
    requires |ctx.final| == 3 && nThreads >= 1
  {
    if i == 0 then [] else ShardedRows(ctx, recs, nThreads, i - 1) + ScanShard(ctx, NoChr, ShardOf(recs, nThreads, i - 1)).rows
  }

  /** The workers together cover every record. */
  lemma JobsCover(size: nat, nThreads: nat)
    requires nThreads >= 1
    ensures nThreads * JobSize(size, nThreads) > size
  {
    var q := size / nThreads;
    assert size == nThreads * q + size % nThreads;
    assert nThreads * (1 + q) == nThreads + nThreads * q;
  }

  /** Worker `i`'s shard is the slice between its bounds, and it extends
      the records of the workers before it. */
  lemma ShardsJoin(recs: seq<BedRecord>, nThreads: nat, i: nat)
    requires nThreads >= 1
    ensures var jobs := JobSize(|recs|, nThreads);
      && MinNat(i * jobs, |recs|) <= MinNat((i + 1) * jobs, |recs|)
      && ShardOf(recs, nThreads, i) == recs[MinNat(i * jobs, |recs|)..MinNat((i + 1) * jobs, |recs|)]
      && recs[..MinNat(i * jobs, |recs|)] + ShardOf(recs, nThreads, i) == recs[..MinNat((i + 1) * jobs, |recs|)]
  {
    var jobs := JobSize(|recs|, nThreads);
    assert (i + 1) * jobs == i * jobs + jobs;
  }

  lemma NamedSlice(recs: seq<BedRecord>, a: nat, b: nat)
    requires Named(recs) && a <= b <= |recs|
    ensures Named(recs[a..b])
  {
    forall k | 0 <= k < b - a ensures recs[a..b][k].chrName != [] {
      assert recs[a..b][k] == recs[a + k];
    }
  }

  /** With named chromosomes the workers' rows, in worker order, are the
      reference rows of the records before worker `i`'s shard. */
  lemma {:induction false} ShardedPrefix(ctx: Context, recs: seq<BedRecord>, nThreads: nat, i: nat)
    requires |ctx.final| == 3 && nThreads >= 1 && Named(recs)
    ensures ShardedRows(ctx, recs, nThreads, i) == AllRows(ctx, recs[..MinNat(i * JobSize(|recs|, nThreads), |recs|)])
  {
    var jobs := JobSize(|recs|, nThreads);
    if i == 0 {
      assert recs[..MinNat(i * jobs, |recs|)] == [];
      assert AllRows(ctx, []) == [];
    } else {
      hide RowOf, ScanShard, AllRows, Score, ParseName, ShardOf, ShardedRows, JobSize;
      var k := i - 1;
      ShardedPrefix(ctx, recs, nThreads, k);
      ShardedRowsStep(ctx, recs, nThreads, k);
      ShardsJoin(recs, nThreads, k);
      assert k + 1 == i;
      var a := MinNat(k * jobs, |recs|);
      var b := MinNat(i * jobs, |recs|);
      var sh := ShardOf(recs, nThreads, k);
      assert sh == recs[a..b] && recs[..a] + sh == recs[..b];
      NamedSlice(recs, a, b);
      ScanShardRows(ctx, NoChr, sh);
      AllRowsAppend(ctx, recs[..a], sh);
    }
  }

  /** Record `j` belongs to worker `j / jobs` and to no other, and that
      worker exists. */
  lemma ShardIndex(recs: seq<BedRecord>, nThreads: nat, i: nat, j: nat)
    requires nThreads >= 1 && j < |recs|
    ensures var jobs := JobSize(|recs|, nThreads);
      && j / jobs < nThreads
      && (MinNat(i * jobs, |recs|) <= j < MinNat((i + 1) * jobs, |recs|) <==> i == j / jobs)
  {
    var jobs := JobSize(|recs|, nThreads);
    var q := j / jobs;
    assert j == q * jobs + j % jobs;
    JobsCover(|recs|, nThreads);
    if q >= nThreads {
      MulMono(nThreads, q, jobs);
    }
    assert (i + 1) * jobs == i * jobs + jobs;
    if i < q {
      MulMono(i + 1, q, jobs);
    } else if i > q {
      MulMono(q + 1, i, jobs);
      assert (q + 1) * jobs == q * jobs + jobs;
    }
  }

  /** Sharding is invisible when every record names its chromosome: the
      report's rows are the rows of one scan over all records, in record
      order. */
  lemma ShardedAsOne(ctx: Context, recs: seq<BedRecord>, nThreads: nat)
    requires |ctx.final| == 3 && nThreads >= 1 && Named(recs)
    ensures ShardedRows(ctx, recs, nThreads, nThreads) == AllRows(ctx, recs)
  {
    ShardedPrefix(ctx, recs, nThreads, nThreads);
    JobsCover(|recs|, nThreads);
    assert recs[..MinNat(nThreads * JobSize(|recs|, nThreads), |recs|)] == recs;
  }

  // ---------------------------------------------------------------------
  // The depth totals by cleanliness class

  /** Sums of intron depths: clean introns, introns overlapping a known
      exon, and (non-directional runs only) antisense-overlapping ones. */
  datatype Totals = Totals(clean: Num, knownExon: Num, antisense: Num)

  const NoTotals: Totals := Totals(Some(0.0), Some(0.0), Some(0.0))

  /** `a + b` in `double`: NaN absorbs. */
  function Plus(a: Num, b: Num): Num {
    if a.None? || b.None? then None else Some(a.value + b.value)
  }

  function Sum(a: Totals, b: Totals): Totals {
    Totals(Plus(a.clean, b.clean), Plus(a.knownExon, b.knownExon), Plus(a.antisense, b.antisense))
  }

  /** A row's contribution: its depth, to the first class its tag matches. */
  function Share(row: Row, directionality: int): Totals {
    if HasPrefix(row.clean, "clean") then Totals(row.depth, Some(0.0), Some(0.0))
    else if Contains(row.clean, "known-exon") then Totals(Some(0.0), row.depth, Some(0.0))
    else if directionality == 0 then Totals(Some(0.0), Some(0.0), row.depth)
    else NoTotals
  }

  function TotalsOf(rows: seq<Row>, directionality: int): Totals
    decreases |rows|
  {
    if |rows| == 0 then NoTotals
    else Sum(TotalsOf(rows[..|rows| - 1], directionality), Share(rows[|rows| - 1], directionality))
  }

  lemma TotalsSnoc(rows: seq<Row>, row: Row, directionality: int)
    ensures TotalsOf(rows + [row], directionality) == Sum(TotalsOf(rows, directionality), Share(row, directionality))
  {
    assert (rows + [row])[..|rows|] == rows;
  }

  /** The totals of two runs of rows are the sum of their totals. */
  lemma {:induction false} TotalsAppend(a: seq<Row>, b: seq<Row>, directionality: int)
    ensures TotalsOf(a + b, directionality) == Sum(TotalsOf(a, directionality), TotalsOf(b, directionality))
    decreases |b|
  {
    hide Share;
    if |b| == 0 {
      assert a + b == a;
    } else {
      assert (a + b)[..|a + b| - 1] == a + b[..|b| - 1];
      assert (a + b)[|a + b| - 1] == b[|b| - 1];
      TotalsAppend(a, b[..|b| - 1], directionality);
    }
  }

  /** The totals do not depend on the order in which the workers add to
      them. */
  lemma TotalsOrderFree(a: seq<Row>, b: seq<Row>, directionality: int)
    ensures TotalsOf(a + b, directionality) == TotalsOf(b + a, directionality)
  {
    TotalsAppend(a, b, directionality);
    TotalsAppend(b, a, directionality);
  }

  /** A directional run has no antisense total. */
  lemma {:induction false} TotalsNoAntisense(rows: seq<Row>, directionality: int)
    requires directionality != 0
    ensures TotalsOf(rows, directionality).antisense == Some(0.0)
    decreases |rows|
  {
    if |rows| > 0 {
      TotalsNoAntisense(rows[..|rows| - 1], directionality);
    }
  }

  // ---------------------------------------------------------------------
  // The report

  /** The title line (directional or not), the rows in worker order and the
      depth totals. */
  datatype Report = Report(directional: bool, rows: seq<Row>, totals: Totals)

  /** `WriteOutput` as a value: `None` when there is no worker (the `-1`
      return). */
  function Output(ctx: Context, recs: seq<BedRecord>, nThreads: int): Option<Report>
    requires |ctx.final| == 3
  {
    if nThreads < 1 then None
    else
      var rows := ShardedRows(ctx, recs, nThreads, nThreads);
      Some(Report(ctx.directionality != 0, rows, TotalsOf(rows, ctx.directionality)))
  }

  lemma OutputNone(ctx: Context, recs: seq<BedRecord>, nThreads: int)
    requires |ctx.final| == 3 && nThreads < 1
    ensures Output(ctx, recs, nThreads) == None
  {
  }

  lemma TotalsStart(ctx: Context, recs: seq<BedRecord>, nThreads: nat)
    requires |ctx.final| == 3 && nThreads >= 1
    ensures ShardedRows(ctx, recs, nThreads, 0) == [] && TotalsOf([], ctx.directionality) == NoTotals
  {
  }

  lemma ShardedRowsStep(ctx: Context, recs: seq<BedRecord>, nThreads: nat, i: nat)
    requires |ctx.final| == 3 && nThreads >= 1
    ensures ShardedRows(ctx, recs, nThreads, i + 1) ==
      ShardedRows(ctx, recs, nThreads, i) + ScanShard(ctx, NoChr, ShardOf(recs, nThreads, i)).rows
  {
    hide ScanShard, ShardOf;
  }

  lemma OutputGathered(ctx: Context, recs: seq<BedRecord>, nThreads: nat, rows: seq<Row>, totals: Totals)
    requires |ctx.final| == 3 && nThreads >= 1
    requires rows == ShardedRows(ctx, recs, nThreads, nThreads)
    requires totals == TotalsOf(rows, ctx.directionality)
    ensures Output(ctx, recs, nThreads) == Some(Report(ctx.directionality != 0, rows, totals))
  {
    hide ShardedRows, TotalsOf;
  }

  /** Every track of the map is ordered by position, as after finalising. */
  predicate TracksSorted(final: StrandTracks) {
    forall j, i :: 0 <= j < |final| && 0 <= i < |final[j]| ==> Increasing(final[j][i])
  }

  // ---------------------------------------------------------------------
  // The reference object

  class CoverageBlocks {
    /** The chromosome registry. */
    var chrs: seq<ChrEntry>
    /** The reference records, in file order. */
    var records: seq<BedRecord>

    constructor ()
      ensures chrs == [] && records == []
    {
      chrs := [];
      records := [];
    }

    /** `loadRef`: appends the records read from `text`; `false` when the
        read ended by an exception, with the records read before it kept. */
    method LoadRef(text: string) returns (ok: bool)
      modifies this
      ensures records == old(records) + LoadText(Open(text), Fresh).records
      ensures ok == LoadText(Open(text), Fresh).ok
      ensures chrs == old(chrs)
    {
      var recs;
      recs, ok := ParseReference(text);
      records := records + recs;
    }

    /** `ChrMapUpdate`: appends the entries of `chrmap` to the registry. */
    method ChrMapUpdate(chrmap: seq<ChrEntry>)
      modifies this
      ensures chrs == old(chrs) + chrmap
      ensures records == old(records)
    {
      var i := 0;
      while i < |chrmap|
        invariant 0 <= i <= |chrmap|
        invariant chrs == old(chrs) + chrmap[..i]
        invariant records == old(records)
      {
        chrs := chrs + [chrmap[i]];
        assert chrmap[..i + 1] == chrmap[..i] + [chrmap[i]];
        i := i + 1;
      }
      assert chrmap[..i] == chrmap;
    }

    /** `fillHist`: every block's depths added to `h` from strand class
        `dir` of the map. */
    method FillHist(fm: FragmentsMap, h: Hist, refID: nat, blocks: seq<Block>, dir: nat) returns (r: Hist)
      requires fm.Valid() && TracksSorted(fm.final) && dir < 3 && Ascending(h)
      ensures r == BlocksHist(fm.final[dir], refID, h, blocks)
    {
      hide CoverageHist, AddCount;
      r := h;
      var k := 0;
      while k < |blocks|
        invariant 0 <= k <= |blocks| && Ascending(r)
        invariant BlocksHist(fm.final[dir], refID, h, blocks) == BlocksHist(fm.final[dir], refID, r, blocks[k..])
      {
        assert blocks[k..][1..] == blocks[k + 1..];
        r := fm.UpdateCoverageHist(r, blocks[k].start, blocks[k].end, dir, refID);
        k := k + 1;
      }
    }

    /** The row of one intron record. */
    method ScoreRecord(fm: FragmentsMap, look: Lookups, directionality: int, rec: BedRecord, n: NameFields, refID: nat)
      returns (row: Row)
      requires fm.Valid() && TracksSorted(fm.final)
      ensures row == Score(Context(chrs, fm.final, look, directionality), rec, n, refID)
    {
      hide BlocksHist, TrimmedMean, Coverage, Percentile, IRRatio, WarningOf;
      var measureDir := MeasureDir(rec.direction, directionality);
      var strand := LookupStrand(directionality, measureDir);
      var dir := TrackOf(directionality, measureDir);
      var h := FillHist(fm, [], refID, rec.blocks, dir);
      var depth := TrimmedMeanFromHist(h, 40);
      var coverage := CoverageFromHist(h);
      var p25 := PercentileFromHist(h, 25);
      var p50 := PercentileFromHist(h, 50);
      var p75 := PercentileFromHist(h, 75);
      var sl := look.spans(rec.chrName, n.intronStart, strand);
      var sr := look.spans(rec.chrName, n.intronEnd, strand);
      var first := FillHist(fm, [], refID, [FirstFlank(n)], dir);
      var depthFirst := TrimmedMeanFromHist(first, 40);
      var last := FillHist(fm, [], refID, [LastFlank(n)], dir);
      var depthLast := TrimmedMeanFromHist(last, 40);
      var jl := look.junctionsLeft(rec.chrName, n.intronStart, strand);
      var jr := look.junctionsRight(rec.chrName, n.intronEnd, strand);
      var je := look.junctionsExact(rec.chrName, n.intronStart, n.intronEnd, strand);
      row := Row(rec.chrName, n.intronStart, n.intronEnd, n.name, n.id, n.clean, rec.direction, n.exclBases,
                 coverage, depth, p25, p50, p75, sl, sr, depthFirst, depthLast,
                 jl, jr, je, IRRatio(depth, coverage, jl, jr), WarningOf(depth, jl, jr, je, sl, sr));
    }

    /** `WriteOutput`: each worker scans its shard with its own chromosome
        cache, adding each row's depth to the totals as it goes; the rows
        are then gathered in worker order.  With fewer than one worker
        nothing is written (`None`, the `-1` return). */
    method WriteOutput(fm: FragmentsMap, look: Lookups, nThreads: int, directionality: int)
      returns (report: Option<Report>)
      requires fm.Valid() && TracksSorted(fm.final)
      ensures report == Output(Context(chrs, fm.final, look, directionality), records, nThreads)
    {
      hide ScanShard, TotalsOf, Score, Step, ShardOf, Share, Sum, Output, ShardedRows;
      var ctx := Context(chrs, fm.final, look, directionality);
      if nThreads < 1 {
        OutputNone(ctx, records, nThreads);
        return None;
      }
      var rows: seq<Row> := [];
      var totals := NoTotals;
      var i := 0;
      TotalsStart(ctx, records, nThreads);
      while i < nThreads
        invariant 0 <= i <= nThreads
        invariant rows == ShardedRows(ctx, records, nThreads, i)
        invariant totals == TotalsOf(rows, directionality)
      {
        var shard := ScanWorker(fm, look, directionality, nThreads, i, totals, rows);
        ShardedRowsStep(ctx, records, nThreads, i);
        rows := rows + shard.rows;
        totals := shard.totals;
        i := i + 1;
      }
      OutputGathered(ctx, records, nThreads, rows, totals);
      return Some(Report(directionality != 0, rows, totals));
    }

    /** One record of a worker's shard: skipped unless selected and its
        name parses (the `stol` exception); otherwise the cached `refID` is
        refreshed when the chromosome changes and the row is scored. */
    method ScanRecord(fm: FragmentsMap, look: Lookups, directionality: int, rec: BedRecord, cache: Cache)
      returns (o: Outcome)
      requires fm.Valid() && TracksSorted(fm.final)
      ensures o == Step(Context(chrs, fm.final, look, directionality), cache, rec)
    {
      hide Score, ParseName, LookupRefID;
      if !Selected(rec.name, directionality) {
        return Outcome(None, cache);
      }
      var n := ParseName(rec.name);
      if n.None? {
        return Outcome(None, cache);
      }
      var c := cache;
      if rec.chrName != c.chrName {
        c := Cache(rec.chrName, LookupRefID(chrs, rec.chrName));
      }
      var row := ScoreRecord(fm, look, directionality, rec, n.value, c.refID);
      return Outcome(Some(row), c);
    }

    /** Worker `i`: the records from `i·jobs` up to `(i+1)·jobs` or the
        end of the list. */
    method ScanWorker(fm: FragmentsMap, look: Lookups, directionality: int, nThreads: nat, i: nat,
                      before: Totals, ghost earlier: seq<Row>)
      returns (out: WorkerRows)
      requires fm.Valid() && TracksSorted(fm.final) && nThreads >= 1 && i < nThreads
      requires before == TotalsOf(earlier, directionality)
      ensures out.rows == ScanShard(Context(chrs, fm.final, look, directionality), NoChr, ShardOf(records, nThreads, i)).rows
      ensures out.totals == TotalsOf(earlier + out.rows, directionality)
    {
      var jobs := 1 + |records| / nThreads;
      assert (i + 1) * jobs == i * jobs + jobs;
      out := ScanRange(fm, look, directionality, i * jobs, (i + 1) * jobs, before, earlier);
    }

    /** The scan of the records from `first` while below `past` and the end
        of the list, with a fresh chromosome cache: its rows, and the totals
        `before` with their depths added. */
    method ScanRange(fm: FragmentsMap, look: Lookups, directionality: int, first: nat, past: nat,
                     before: Totals, ghost earlier: seq<Row>)
      returns (out: WorkerRows)
      requires fm.Valid() && TracksSorted(fm.final) && first <= past
      requires before == TotalsOf(earlier, directionality)
      ensures out.rows == ScanShard(Context(chrs, fm.final, look, directionality), NoChr,
                                    records[MinNat(first, |records|)..MinNat(past, |records|)]).rows
      ensures out.totals == TotalsOf(earlier + out.rows, directionality)
    {
      hide ScanShard, TotalsOf, Step, Share, Sum;
      ghost var ctx := Context(chrs, fm.final, look, directionality);
      ghost var lo := MinNat(first, |records|);
      var cache := NoChr;
      var rows: seq<Row> := [];
      var totals := before;
      var j := first;
      ScannedStart(ctx, records, lo, earlier, before);
      while j < past && j < |records|
        invariant first <= j <= past
        invariant Scanned(ctx, records, lo, MinNat(j, |records|), earlier, rows, cache, totals)
      {
        var o := ScanRecord(fm, look, directionality, records[j], cache);
        ScannedStep(ctx, records, lo, j, earlier, rows, cache, totals, o);
        if o.row.Some? {
          rows := rows + [o.row.value];
          totals := Sum(totals, Share(o.row.value, directionality));
        }
        cache := o.cache;
        j := j + 1;
      }
      return WorkerRows(rows, totals);
    }
  }

  /** A worker's rows and the running totals after them. */
  datatype WorkerRows = WorkerRows(rows: seq<Row>, totals: Totals)
}

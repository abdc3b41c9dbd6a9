/** The fragment depth accumulator (`FragmentsMap`) and its two readers.

    A fragment arrives as blocks of aligned bases; each block contributes a
    +1 event where it starts and a -1 event where it ends, on the track of its
    chromosome in its own strand class (0 reverse, 1 forward) and in the
    combined class 2.  Events are compacted now and then and finally collapsed
    into runs of constant depth (module Tracks).  The finalised runs are read
    back as a per-base depth histogram over an interval (`CoverageHist`, the
    walk of `updateCoverageHist`) and as the low-coverage intervals of each
    chromosome (`LowCoverIntervals`, the mappability exclusion output). */
module FragmentsMaps {
  import opened Wrappers
  import opened Chromosomes
  import opened Tracks
  import opened Histograms
  import opened HistStats
  import opened Unsigned

  // ---------------------------------------------------------------------
  // One fragment's blocks and the events they contribute

  /** The blocks of one fragment: `readCount` reads, read `i` starting at
      `readStart[i]` with blocks at offsets `rStarts[i]` of lengths `rLens[i]`. */
  datatype FragmentBlocks = FragmentBlocks(
    readCount: int,
    direction: bool,
    chrId: nat,
    readStart: seq<nat>,
    rStarts: seq<seq<nat>>,
    rLens: seq<seq<nat>>)

  /** Reads walked: the loop `index < readCount` runs no time for a negative count. */
  function ReadsUsed(b: FragmentBlocks): nat {
    if b.readCount < 0 then 0 else b.readCount
  }

  /** Every read walked has a start, and an offset for each of its block lengths. */
  predicate WellFormed(b: FragmentBlocks) {
    && ReadsUsed(b) <= |b.readStart|
    && ReadsUsed(b) <= |b.rStarts|
    && ReadsUsed(b) <= |b.rLens|
    && forall i :: 0 <= i < ReadsUsed(b) ==> |b.rLens[i]| <= |b.rStarts[i]|
  }

  /** Strand class of a stranded event. */
  function StrandIndex(direction: bool): nat {
    if direction then 1 else 0
  }

  function BlockStart(b: FragmentBlocks, i: nat, j: nat): nat
    requires WellFormed(b) && i < ReadsUsed(b) && j < |b.rLens[i]|
  {
    b.readStart[i] + b.rStarts[i][j]
  }

  function BlockEnd(b: FragmentBlocks, i: nat, j: nat): nat
    requires WellFormed(b) && i < ReadsUsed(b) && j < |b.rLens[i]|
  {
    BlockStart(b, i, j) + b.rLens[i][j]
  }

  /** The two events of one block, in the order they are pushed. */
  function BlockPair(b: FragmentBlocks, i: nat, j: nat): seq<Entry>
    requires WellFormed(b) && i < ReadsUsed(b) && j < |b.rLens[i]|
  {
    [Entry(BlockStart(b, i, j), 1), Entry(BlockEnd(b, i, j), -1)]
  }

  /** Events of the first `m` blocks of read `i`. */
  function BlockEvents(b: FragmentBlocks, i: nat, m: nat): seq<Entry>
    requires WellFormed(b) && i < ReadsUsed(b) && m <= |b.rLens[i]|
  {
    if m == 0 then [] else BlockEvents(b, i, m - 1) + BlockPair(b, i, m - 1)
  }

  /** Events of the first `n` reads. */
  function ReadEvents(b: FragmentBlocks, n: nat): seq<Entry>
    requires WellFormed(b) && n <= ReadsUsed(b)
  {
    if n == 0 then [] else ReadEvents(b, n - 1) + BlockEvents(b, n - 1, |b.rLens[n - 1]|)
  }

  /** All events one fragment adds to each of its two tracks. */
  function FragmentEvents(b: FragmentBlocks): seq<Entry>
    requires WellFormed(b)
  {
    ReadEvents(b, ReadsUsed(b))
  }

  /** 1 when block `j` of read `i` contains base `p`. */
  function Covers(b: FragmentBlocks, i: nat, j: nat, p: nat): nat
    requires WellFormed(b) && i < ReadsUsed(b) && j < |b.rLens[i]|
  {
    if BlockStart(b, i, j) <= p < BlockEnd(b, i, j) then 1 else 0
  }

  /** Number of the first `m` blocks of read `i` containing `p`. */
  function CoveringInRead(b: FragmentBlocks, i: nat, m: nat, p: nat): nat
    requires WellFormed(b) && i < ReadsUsed(b) && m <= |b.rLens[i]|
  {
    if m == 0 then 0 else CoveringInRead(b, i, m - 1, p) + Covers(b, i, m - 1, p)
  }

  /** Number of blocks of the first `n` reads containing `p`. */
  function BlocksCovering(b: FragmentBlocks, n: nat, p: nat): nat
    requires WellFormed(b) && n <= ReadsUsed(b)
  {
    if n == 0 then 0 else BlocksCovering(b, n - 1, p) + CoveringInRead(b, n - 1, |b.rLens[n - 1]|, p)
  }

  /** The events of a read imply, at every base, the number of its blocks
      covering that base. */
  lemma {:induction false} BlockEventsDepth(b: FragmentBlocks, i: nat, m: nat, p: nat)
    requires WellFormed(b) && i < ReadsUsed(b) && m <= |b.rLens[i]|
    ensures DepthAt(BlockEvents(b, i, m), p) == CoveringInRead(b, i, m, p)
    ensures TotalDelta(BlockEvents(b, i, m)) == 0
  {
    if m > 0 {
      BlockEventsDepth(b, i, m - 1, p);
      var pair := BlockPair(b, i, m - 1);
      assert pair[1..] == [pair[1]] && pair[1..][1..] == [];
      assert DepthAt(pair[1..], p) == Contribution(pair[1], p);
      assert DepthAt(pair, p) == Covers(b, i, m - 1, p);
      assert TotalDelta(pair[1..]) == -1;
      DepthAtAppend(BlockEvents(b, i, m - 1), BlockPair(b, i, m - 1), p);
      TotalDeltaAppend(BlockEvents(b, i, m - 1), BlockPair(b, i, m - 1));
    }
  }

  /** The events of a fragment imply, at every base, the number of its blocks
      covering that base, and they cancel out in total. */
  lemma {:induction false} FragmentDepth(b: FragmentBlocks, n: nat, p: nat)
    requires WellFormed(b) && n <= ReadsUsed(b)
    ensures DepthAt(ReadEvents(b, n), p) == BlocksCovering(b, n, p)
    ensures TotalDelta(ReadEvents(b, n)) == 0
  {
    if n > 0 {
      var m := |b.rLens[n - 1]|;
      var prev := ReadEvents(b, n - 1);
      var blk := BlockEvents(b, n - 1, m);
      assert ReadEvents(b, n) == prev + blk;
      FragmentDepth(b, n - 1, p);
      BlockEventsDepth(b, n - 1, m, p);
      DepthAtAppend(prev, blk, p);
      TotalDeltaAppend(prev, blk);
      assert BlocksCovering(b, n, p) == BlocksCovering(b, n - 1, p) + CoveringInRead(b, n - 1, m, p);
    }
  }

  lemma {:induction false} TotalDeltaAppend(a: seq<Entry>, b: seq<Entry>)
    ensures TotalDelta(a + b) == TotalDelta(a) + TotalDelta(b)
  {
    if a != [] {
      assert (a + b)[1..] == a[1..] + b;
      TotalDeltaAppend(a[1..], b);
    } else {
      assert a + b == b;
    }
  }

  // ---------------------------------------------------------------------
  // Reading a finalised track back as a depth histogram

  /** Index of the first run from `i` on whose position is beyond `start`
      (`std::upper_bound` by position), or `|runs|` when there is none. */
  function FirstAfter(runs: seq<Entry>, start: nat, i: nat): (k: nat)
    requires i <= |runs|
    ensures i <= k <= |runs|
    ensures forall j :: i <= j < k ==> runs[j].pos <= start
    ensures k < |runs| ==> start < runs[k].pos
    decreases |runs| - i
  {
    if i == |runs| then i
    else if start < runs[i].pos then i
    else FirstAfter(runs, start, i + 1)
  }

  /** The first index past `start` is the only partition point. */
  lemma {:induction false} FirstAfterUnique(runs: seq<Entry>, start: nat, i: nat, k: nat)
    requires i <= k <= |runs|
    requires forall j :: i <= j < k ==> runs[j].pos <= start
    requires k < |runs| ==> start < runs[k].pos
    ensures FirstAfter(runs, start, i) == k
    decreases k - i
  {
    if i < k {
      FirstAfterUnique(runs, start, i + 1, k);
    }
  }

  /** Binary search for the first run positioned beyond `start`. */
  method UpperBound(runs: seq<Entry>, start: nat) returns (k: nat)
    requires Increasing(runs)
    ensures k == FirstAfter(runs, start, 0)
  {
    var lo, hi := 0, |runs|;
    while lo < hi
      invariant 0 <= lo <= hi <= |runs|
      invariant forall j :: 0 <= j < lo ==> runs[j].pos <= start
      invariant forall j :: hi <= j < |runs| ==> start < runs[j].pos
    {
      var mid := (lo + hi) / 2;
      if runs[mid].pos <= start {
        lo := mid + 1;
      } else {
        hi := mid;
      }
    }
    FirstAfterUnique(runs, start, 0, lo);
    k := lo;
  }

  /** Depth the walk assigns to base `x`: the depth of the run holding `x`,
      and the first run's depth for bases before the first run. */
  function WalkDepth(runs: seq<Entry>, x: nat): int
    requires runs != []
  {
    if x < runs[0].pos then runs[0].val else RunDepth(runs, x)
  }

  /** The histogram key the walk uses for each base. */
  function WalkKey(runs: seq<Entry>): nat -> nat {
    y => if runs == [] then 0 else U32(WalkDepth(runs, y))
  }

  /** Adds the bases `start .. x-1` one by one, base `y` under `key(y)`. */
  function AddKeys(h: Hist, key: nat -> nat, start: nat, x: nat): (r: Hist)
    requires Ascending(h) && start <= x
    ensures Ascending(r)
    ensures Total(r) == Total(h) + (x - start)
    decreases x - start
  {
    if x == start then h
    else
      var prev := AddKeys(h, key, start, x - 1);
      AddCountTotal(prev, key(x - 1), 1);
      AddCount(prev, key(x - 1), 1)
  }

  /** What `updateCoverageHist` adds for the bases `start .. end-1` of a
      finalised track: when no run lies beyond `start` every base goes to
      depth 0 (`end - start` in unsigned arithmetic, so a reversed interval
      adds nearly 2^32 bases), otherwise each base goes to its walk depth,
      and a reversed interval adds nothing. */
  function CoverageHist(h: Hist, runs: seq<Entry>, start: nat, end: nat): (r: Hist)
    requires Ascending(h)
    ensures Ascending(r)
    ensures start <= end < 0x1_0000_0000 ==> Total(r) == Total(h) + (end - start)
  {
    if FirstAfter(runs, start, 0) == |runs| then
      AddCountTotal(h, 0, U32(end - start));
      AddCount(h, 0, U32(end - start))
    else if end < start then h
    else AddKeys(h, WalkKey(runs), start, end)
  }

  /** Bases of one key added one by one are one addition of their number. */
  lemma {:induction false} AddKeysSegment(h: Hist, key: nat -> nat, start: nat, a: nat, b: nat, d: nat)
    requires Ascending(h) && start <= a < b
    requires forall y :: a <= y < b ==> key(y) == d
    ensures AddKeys(h, key, start, b) == AddCount(AddKeys(h, key, start, a), d, b - a)
    decreases b - a
  {
    var base := AddKeys(h, key, start, a);
    assert key(b - 1) == d;
    if b == a + 1 {
      assert AddKeys(h, key, start, b) == AddCount(base, d, 1);
    } else {
      var m: nat := b - 1 - a;
      var prev := AddKeys(h, key, start, b - 1);
      AddKeysSegment(h, key, start, a, b - 1, d);
      assert prev == AddCount(base, d, m);
      AddCountMerges(base, d, m, 1);
      assert m + 1 == b - a;
      assert AddKeys(h, key, start, b) == AddCount(prev, d, 1);
    }
  }

  /** Two key functions that agree on the bases added give the same histogram. */
  lemma {:induction false} AddKeysAgree(h: Hist, k1: nat -> nat, k2: nat -> nat, start: nat, x: nat)
    requires Ascending(h) && start <= x
    requires forall y :: start <= y < x ==> k1(y) == k2(y)
    ensures AddKeys(h, k1, start, x) == AddKeys(h, k2, start, x)
    decreases x - start
  {
    if x > start {
      AddKeysAgree(h, k1, k2, start, x - 1);
    }
  }

  /** Between the runs the walk has passed and the next run, the walk depth
      does not change. */
  lemma WalkDepthFlat(runs: seq<Entry>, idx: nat, cursor: nat, y: nat)
    requires Increasing(runs) && runs != [] && idx <= |runs| && cursor <= y
    requires forall j :: 0 <= j < idx ==> runs[j].pos <= cursor
    requires idx < |runs| ==> y < runs[idx].pos
    ensures WalkDepth(runs, y) == WalkDepth(runs, cursor)
  {
    if idx > 0 {
      assert runs[0].pos <= runs[idx - 1].pos;
      RunDepthInside(runs, idx - 1, y);
      RunDepthInside(runs, idx - 1, cursor);
    }
  }

  /** The stretch from `cursor` up to the next run not yet passed is added at
      the depth of `cursor`. */
  lemma SegmentAfter(h: Hist, runs: seq<Entry>, start: nat, idx: nat, cursor: nat, stop: nat)
    requires Ascending(h) && Increasing(runs) && runs != []
    requires start <= cursor < stop && idx <= |runs|
    requires forall j :: 0 <= j < idx ==> runs[j].pos <= cursor
    requires idx < |runs| ==> stop <= runs[idx].pos
    ensures AddKeys(h, WalkKey(runs), start, stop)
      == AddCount(AddKeys(h, WalkKey(runs), start, cursor), U32(WalkDepth(runs, cursor)), stop - cursor)
  {
    forall y | cursor <= y < stop
      ensures WalkKey(runs)(y) == U32(WalkDepth(runs, cursor))
    {
      WalkDepthFlat(runs, idx, cursor, y);
    }
    AddKeysSegment(h, WalkKey(runs), start, cursor, stop, U32(WalkDepth(runs, cursor)));
  }

  /** The walk of `updateCoverageHist` over one finalised track: find the first
      run beyond `start`, step back to the run holding `start`, then add each
      stretch between run boundaries under the depth of the run it lies in. */
  method AddRunCoverage(h: Hist, runs: seq<Entry>, start: nat, end: nat) returns (r: Hist)
    requires Ascending(h) && Increasing(runs)
    ensures r == CoverageHist(h, runs, start, end)
  {
    var k := UpperBound(runs, start);
    if k == |runs| {
      return AddCount(h, 0, U32(end - start));
    }
    var idx: nat := k;
    while start < runs[idx].pos && idx != 0
      invariant idx <= k < |runs|
      invariant idx < k ==> idx + 1 == k && runs[idx].pos <= start
      decreases idx
    {
      idx := idx - 1;
    }
    var depth := runs[idx].val;
    if idx < k {
      RunDepthInside(runs, idx, start);
      assert runs[0].pos <= runs[idx].pos;
    }
    var cursor := start;
    r := h;
    while cursor < end
      invariant start <= cursor && idx < |runs|
      invariant forall j :: 0 <= j < idx ==> runs[j].pos <= cursor
      invariant depth == WalkDepth(runs, cursor)
      invariant end < start ==> r == h
      invariant start <= end ==> r == AddKeys(h, WalkKey(runs), start, if cursor < end then cursor else end)
      decreases end - cursor
    {
      while idx < |runs| && runs[idx].pos <= cursor
        invariant idx <= |runs|
        invariant forall j :: 0 <= j < idx ==> runs[j].pos <= cursor
      {
        idx := idx + 1;
      }
      if idx == |runs| {
        SegmentAfter(h, runs, start, idx, cursor, end);
        return AddCount(r, U32(depth), end - cursor);
      }
      var next := if runs[idx].pos < end then runs[idx].pos else end;
      SegmentAfter(h, runs, start, idx, cursor, next);
      r := AddCount(r, U32(depth), next - cursor);
      cursor := runs[idx].pos;
      depth := runs[idx].val;
      RunDepthAtRun(runs, idx);
      assert runs[0].pos <= runs[idx].pos;
    }
  }

  /** The histogram key of the depth the events imply at each base. */
  function EventKey(es: seq<Entry>): nat -> nat {
    y => U32(DepthAt(es, y))
  }

  /** A position at or beyond every event. */
  function MaxPos(es: seq<Entry>): (m: nat)
    ensures forall k :: 0 <= k < |es| ==> es[k].pos <= m
  {
    if es == [] then 0
    else
      var t := MaxPos(es[1..]);
      assert forall k :: 1 <= k < |es| ==> es[k] == es[1..][k - 1];
      if es[0].pos > t then es[0].pos else t
  }

  lemma WalkDepthIsDepth(runs: seq<Entry>, es: seq<Entry>, y: nat)
    requires RunsOf(runs, es)
    ensures WalkDepth(runs, y) == DepthAt(es, y)
  {
    assert runs[0].pos == 0;
  }

  /** On a finalised track of balanced events (every block start has its
      end), the walk counts every base of a non-empty interval under the depth
      the events imply there. */
  lemma CoverageCountsDepths(h: Hist, runs: seq<Entry>, es: seq<Entry>, start: nat, end: nat)
    requires Ascending(h) && RunsOf(runs, es) && TotalDelta(es) == 0 && start < end < 0x1_0000_0000
    ensures CoverageHist(h, runs, start, end) == AddKeys(h, EventKey(es), start, end)
  {
    forall y | start <= y < end
      ensures WalkKey(runs)(y) == EventKey(es)(y)
    {
      WalkDepthIsDepth(runs, es, y);
    }
    AddKeysAgree(h, WalkKey(runs), EventKey(es), start, end);
    if FirstAfter(runs, start, 0) == |runs| {
      var last := |runs| - 1;
      var m := if MaxPos(es) < start then start else MaxPos(es);
      DepthAtBeyond(es, m);
      RunDepthInside(runs, last, m);
      forall y | start <= y < end
        ensures WalkKey(runs)(y) == 0
      {
        RunDepthInside(runs, last, y);
      }
      AddKeysSegment(h, WalkKey(runs), start, start, end, 0);
    }
  }

  // ---------------------------------------------------------------------
  // Reading a finalised track back as low-coverage intervals

  /** An interval of bases, `start` included and `end` excluded. */
  datatype Span = Span(start: nat, end: nat)

  /** Base `x` lies in one of the intervals. */
  predicate InSpans(spans: seq<Span>, x: nat) {
    exists i :: 0 <= i < |spans| && spans[i].start <= x < spans[i].end
  }

  lemma InSpansSnoc(spans: seq<Span>, sp: Span, x: nat)
    ensures InSpans(spans + [sp], x) <==> InSpans(spans, x) || sp.start <= x < sp.end
  {
    var s := spans + [sp];
    if InSpans(spans, x) {
      var i :| 0 <= i < |spans| && spans[i].start <= x < spans[i].end;
      assert s[i] == spans[i];
    }
    if sp.start <= x < sp.end {
      assert s[|spans|] == sp;
    }
  }

  /** State of the mappability sweep: whether the current position is
      covered above the threshold, where the open low interval started, and
      the intervals closed so far. */
  datatype ScanState = ScanState(covered: bool, openAt: nat, spans: seq<Span>)

  /** Before the first run: covered when the track starts at 0 above the
      threshold, otherwise a low interval is open at 0. */
  function ScanStart(runs: seq<Entry>, threshold: int): ScanState
    requires runs != []
  {
    ScanState(runs[0].pos == 0 && runs[0].val > threshold, 0, [])
  }

  /** One run: a run above the threshold closes the open interval at its
      position; a run at or below it opens one there. */
  function ScanStep(s: ScanState, e: Entry, threshold: int): ScanState {
    if e.val > threshold then
      if s.covered then s else ScanState(true, s.openAt, s.spans + [Span(s.openAt, e.pos)])
    else
      if s.covered then ScanState(false, e.pos, s.spans) else s
  }

  /** The sweep state after the first `n` runs. */
  function ScanRuns(runs: seq<Entry>, threshold: int, n: nat): ScanState
    requires runs != [] && n <= |runs|
  {
    if n == 0 then ScanStart(runs, threshold)
    else ScanStep(ScanRuns(runs, threshold, n - 1), runs[n - 1], threshold)
  }

  /** The intervals written for one chromosome: those closed by the sweep,
      and the one still open at the end closed at the chromosome's length. */
  function LowCoverIntervals(runs: seq<Entry>, threshold: int, chrLen: nat): seq<Span>
    requires runs != []
  {
    var s := ScanRuns(runs, threshold, |runs|);
    if s.covered then s.spans else s.spans + [Span(s.openAt, chrLen)]
  }

  /** What the sweep knows after `n` runs of a finalised track: it is covered
      exactly when the last run read is above the threshold, every closed
      interval ends by that run, and below that run a base is in a closed
      interval or the open one exactly when its depth is at most the threshold. */
  lemma {:induction false} ScanInvariant(runs: seq<Entry>, threshold: int, n: nat)
    requires IsRunList(runs) && 1 <= n <= |runs|
    ensures ScanRuns(runs, threshold, n).covered <==> runs[n - 1].val > threshold
    ensures !ScanRuns(runs, threshold, n).covered ==> ScanRuns(runs, threshold, n).openAt <= runs[n - 1].pos
    ensures forall i :: 0 <= i < |ScanRuns(runs, threshold, n).spans| ==>
      ScanRuns(runs, threshold, n).spans[i].end <= runs[n - 1].pos
    ensures forall x: nat :: x < runs[n - 1].pos ==>
      ((InSpans(ScanRuns(runs, threshold, n).spans, x)
        || (!ScanRuns(runs, threshold, n).covered && ScanRuns(runs, threshold, n).openAt <= x))
       <==> RunDepth(runs, x) <= threshold)
  {
    if n > 1 {
      ScanInvariant(runs, threshold, n - 1);
      var s0 := ScanRuns(runs, threshold, n - 1);
      var s := ScanRuns(runs, threshold, n);
      var e := runs[n - 1];
      var prev := runs[n - 2].pos;
      assert prev < e.pos;
      forall x: nat | x < e.pos
        ensures (InSpans(s.spans, x) || (!s.covered && s.openAt <= x)) <==> RunDepth(runs, x) <= threshold
      {
        InSpansSnoc(s0.spans, Span(s0.openAt, e.pos), x);
        if prev <= x {
          RunDepthInside(runs, n - 2, x);
          assert !InSpans(s0.spans, x);
        }
      }
    }
  }

  /** Below the chromosome's length, a base is in an excluded interval exactly
      when its depth is at most the threshold. */
  lemma LowCoverIntervalsExact(runs: seq<Entry>, threshold: int, chrLen: nat, x: nat)
    requires IsRunList(runs) && x < chrLen
    ensures InSpans(LowCoverIntervals(runs, threshold, chrLen), x) <==> RunDepth(runs, x) <= threshold
  {
    var n := |runs|;
    ScanInvariant(runs, threshold, n);
    var s := ScanRuns(runs, threshold, n);
    if !s.covered {
      InSpansSnoc(s.spans, Span(s.openAt, chrLen), x);
    }
    if runs[n - 1].pos <= x {
      RunDepthInside(runs, n - 1, x);
      assert !InSpans(s.spans, x);
    }
  }

  /** The mappability sweep over one chromosome's finalised track. */
  method LowCoverScan(runs: seq<Entry>, threshold: int, chrLen: nat) returns (spans: seq<Span>)
    requires runs != []
    ensures spans == LowCoverIntervals(runs, threshold, chrLen)
  {
    var covered := false;
    var openAt: nat := 0;
    spans := [];
    if runs[0].pos == 0 && runs[0].val > threshold {
      covered := true;
    }
    var i := 0;
    while i < |runs|
      invariant 0 <= i <= |runs|
      invariant ScanState(covered, openAt, spans) == ScanRuns(runs, threshold, i)
    {
      var coverage := runs[i].val;
      if coverage > threshold {
        if !covered {
          spans := spans + [Span(openAt, runs[i].pos)];
          covered := true;
        }
      } else {
        if covered {
          openAt := runs[i].pos;
          covered := false;
        }
      }
      i := i + 1;
    }
    if !covered {
      spans := spans + [Span(openAt, chrLen)];
    }
  }

  // ---------------------------------------------------------------------
  // The accumulator

  /** One list of tracks per strand class (0 reverse, 1 forward, 2 both),
      each holding one track per chromosome. */
  type StrandTracks = seq<seq<seq<Entry>>>

  /** Fragments between two compactions of the temporary lists. */
  const CompactEvery: nat := 1000000

  /** Three strand classes of `n` tracks each. */
  predicate Shaped(t: StrandTracks, n: nat) {
    |t| == 3 && forall j :: 0 <= j < 3 ==> |t[j]| == n
  }

  /** Three strand classes of `n` tracks, each holding only the pair (0, 0). */
  function Seeded(n: nat): (t: StrandTracks)
    ensures Shaped(t, n)
    ensures forall j, i :: 0 <= j < 3 && 0 <= i < n ==> t[j][i] == [Entry(0, 0)]
  {
    var row := seq(n, _ => [Entry(0, 0)]);
    [row, row, row]
  }

  /** Every one of the `3 * n` tracks is empty. */
  predicate AllEmpty(t: StrandTracks, n: nat)
    requires Shaped(t, n)
  {
    forall j, i :: 0 <= j < 3 && 0 <= i < n ==> t[j][i] == []
  }

  /** `ev` appended to track `c` of strand class `d`. */
  function WithEvents(t: StrandTracks, d: nat, c: nat, ev: seq<Entry>): StrandTracks
    requires d < |t| && c < |t[d]|
  {
    t[d := t[d][c := t[d][c] + ev]]
  }

  /** `ev` appended to track `c` of the stranded class `d` and of the combined class. */
  function Stamp(t: StrandTracks, n: nat, d: nat, c: nat, ev: seq<Entry>): (r: StrandTracks)
    requires Shaped(t, n) && d < 2 && c < n
    ensures Shaped(r, n)
  {
    WithEvents(WithEvents(t, d, c, ev), 2, c, ev)
  }

  lemma StampMore(t: StrandTracks, n: nat, d: nat, c: nat, x: seq<Entry>, y: seq<Entry>)
    requires Shaped(t, n) && d < 2 && c < n
    ensures WithEvents(WithEvents(Stamp(t, n, d, c, x), d, c, y), 2, c, y) == Stamp(t, n, d, c, x + y)
  {
    var a := Stamp(t, n, d, c, x);
    var r := WithEvents(WithEvents(a, d, c, y), 2, c, y);
    var want := Stamp(t, n, d, c, x + y);
    assert a[d][c] + y == t[d][c] + (x + y);
    assert a[2][c] + y == t[2][c] + (x + y);
    forall k | 0 <= k < 3
      ensures r[k] == want[k]
    {
      forall i | 0 <= i < |t[k]|
        ensures r[k][i] == want[k][i]
      {
      }
    }
  }

  /** One track after `CompactTrack`: the temporary list is empty, and when it
      held events, their compaction was appended to the pending list. */
  ghost predicate CompactedTrack(p': seq<Entry>, t': seq<Entry>, p: seq<Entry>, t: seq<Entry>) {
    && t' == []
    && (t == [] ==> p' == p)
    && (t != [] ==> |p'| > |p| && p'[..|p|] == p && Collapses(p'[|p|..], t))
  }

  /** Every track of `(P', T')` is the compaction of the same track of `(P, T)`. */
  ghost predicate CompactedAll(P': StrandTracks, T': StrandTracks, P: StrandTracks, T: StrandTracks, n: nat)
    requires Shaped(P', n) && Shaped(T', n) && Shaped(P, n) && Shaped(T, n)
  {
    forall j, i :: 0 <= j < 3 && 0 <= i < n ==> CompactedTrack(P'[j][i], T'[j][i], P[j][i], T[j][i])
  }

  /** Compaction keeps the depth of the pending and temporary events together. */
  lemma CompactedDepth(p': seq<Entry>, t': seq<Entry>, p: seq<Entry>, t: seq<Entry>, x: nat)
    requires CompactedTrack(p', t', p, t)
    ensures DepthAt(p' + t', x) == DepthAt(p + t, x)
  {
    assert p' + t' == p';
    DepthAtAppend(p, t, x);
    if t == [] {
      assert p + t == p;
    } else {
      assert p' == p + p'[|p|..];
      DepthAtAppend(p, p'[|p|..], x);
    }
  }

  /** After two collecting accumulators are merged, a track's events imply the
      sum of the depths both accumulators had collected for it. */
  lemma MergedDepth(m: seq<Entry>, q: seq<Entry>, p1: seq<Entry>, t1: seq<Entry>, p2: seq<Entry>, t2: seq<Entry>, x: nat)
    requires CompactedTrack(m, [], p1, t1) && CompactedTrack(q, [], p2, t2)
    ensures DepthAt(m + q, x) == DepthAt(p1 + t1, x) + DepthAt(p2 + t2, x)
  {
    CompactedDepth(m, [], p1, t1, x);
    CompactedDepth(q, [], p2, t2, x);
    assert m + [] == m && q + [] == q;
    DepthAtAppend(m, q, x);
  }

  /** The finalised list of no events at all is the single run (0, 0). */
  lemma RunsOfNothing(runs: seq<Entry>)
    requires RunsOf(runs, [])
    ensures runs == [Entry(0, 0)]
  {
    assert RunsOf([Entry(0, 0)], []) by {
      forall p: nat ensures RunDepth([Entry(0, 0)], p) == DepthAt([], p) {
        RunDepthInside([Entry(0, 0)], 0, p);
      }
    }
    RunListsUnique(runs, [Entry(0, 0)]);
  }

  /** `F` holds, track by track, the finalised runs of the events in `P` and
      `T` together. */
  ghost predicate FinalisedFrom(F: StrandTracks, P: StrandTracks, T: StrandTracks, n: nat)
    requires Shaped(F, n) && Shaped(P, n) && Shaped(T, n)
  {
    forall j, i :: 0 <= j < 3 && 0 <= i < n ==> RunsOf(F[j][i], P[j][i] + T[j][i])
  }

  /** `C` holds, track by track, the tracks of `A` followed by those of `B`. */
  method AppendTracks(A: StrandTracks, B: StrandTracks, n: nat) returns (C: StrandTracks)
    requires Shaped(A, n) && |B| == 3 && forall j :: 0 <= j < 3 ==> n <= |B[j]|
    ensures Shaped(C, n)
    ensures forall j, i :: 0 <= j < 3 && 0 <= i < n ==> C[j][i] == A[j][i] + B[j][i]
  {
    C := A;
    var j := 0;
    while j < 3
      invariant 0 <= j <= 3 && Shaped(C, n)
      invariant forall j', i :: 0 <= j' < j && 0 <= i < n ==> C[j'][i] == A[j'][i] + B[j'][i]
      invariant forall j', i :: j <= j' < 3 && 0 <= i < n ==> C[j'][i] == A[j'][i]
    {
      var row := C[j];
      var i := 0;
      while i < n
        invariant 0 <= i <= n && |row| == n
        invariant forall i' :: 0 <= i' < i ==> row[i'] == A[j][i'] + B[j][i']
        invariant forall i' :: i <= i' < n ==> row[i'] == A[j][i']
      {
        row := row[i := row[i] + B[j][i]];
        i := i + 1;
      }
      C := C[j := row];
      j := j + 1;
    }
  }

  /** The loops of `ProcessBlocks`: the two events of every block of every
      read, appended in order to the fragment's stranded and combined tracks. */
  method StampFragment(t0: StrandTracks, n: nat, b: FragmentBlocks) returns (t: StrandTracks)
    requires Shaped(t0, n) && WellFormed(b) && b.chrId < n
    ensures t == Stamp(t0, n, StrandIndex(b.direction), b.chrId, FragmentEvents(b))
  {
    var d := StrandIndex(b.direction);
    t := t0;
    assert t == Stamp(t0, n, d, b.chrId, []) by {
      var r := Stamp(t0, n, d, b.chrId, []);
      assert t0[d][b.chrId] + [] == t0[d][b.chrId];
      assert t0[2][b.chrId] + [] == t0[2][b.chrId];
      forall k | 0 <= k < 3
        ensures r[k] == t0[k]
      {
        forall i | 0 <= i < n
          ensures r[k][i] == t0[k][i]
        {
        }
      }
    }
    var index: nat := 0;
    while index < b.readCount
      invariant index <= ReadsUsed(b)
      invariant t == Stamp(t0, n, d, b.chrId, ReadEvents(b, index))
    {
      var j := 0;
      assert ReadEvents(b, index) + BlockEvents(b, index, 0) == ReadEvents(b, index);
      while j < |b.rLens[index]|
        invariant 0 <= j <= |b.rLens[index]|
        invariant t == Stamp(t0, n, d, b.chrId, ReadEvents(b, index) + BlockEvents(b, index, j))
      {
        var s := b.readStart[index] + b.rStarts[index][j];
        var e := s + b.rLens[index][j];
        StampMore(t0, n, d, b.chrId, ReadEvents(b, index) + BlockEvents(b, index, j), [Entry(s, 1), Entry(e, -1)]);
        t := WithEvents(t, d, b.chrId, [Entry(s, 1), Entry(e, -1)]);
        t := WithEvents(t, 2, b.chrId, [Entry(s, 1), Entry(e, -1)]);
        assert ReadEvents(b, index) + BlockEvents(b, index, j) + BlockPair(b, index, j)
          == ReadEvents(b, index) + BlockEvents(b, index, j + 1);
        j := j + 1;
      }
      index := index + 1;
    }
  }

  /** The loops of `sort_and_collapse_temp`: `CompactTrack` on every track of
      every strand class. */
  method CompactAll(P0: StrandTracks, T0: StrandTracks, n: nat) returns (P: StrandTracks, T: StrandTracks)
    requires Shaped(P0, n) && Shaped(T0, n)
    ensures Shaped(P, n) && Shaped(T, n)
    ensures CompactedAll(P, T, P0, T0, n)
  {
    P, T := P0, T0;
    var j := 0;
    while j < 3
      invariant 0 <= j <= 3 && Shaped(P, n) && Shaped(T, n)
      invariant forall j', i :: 0 <= j' < j && 0 <= i < n ==>
        CompactedTrack(P[j'][i], T[j'][i], P0[j'][i], T0[j'][i])
      invariant forall j', i :: j <= j' < 3 && 0 <= i < n ==>
        P[j'][i] == P0[j'][i] && T[j'][i] == T0[j'][i]
    {
      var rowP, rowT := P[j], T[j];
      var i := 0;
      while i < n
        invariant 0 <= i <= n && |rowP| == n && |rowT| == n
        invariant forall i' :: 0 <= i' < i ==> CompactedTrack(rowP[i'], rowT[i'], P0[j][i'], T0[j][i'])
        invariant forall i' :: i <= i' < n ==> rowP[i'] == P0[j][i'] && rowT[i'] == T0[j][i']
      {
        var p', t' := CompactTrack(rowP[i], rowT[i]);
        rowP, rowT := rowP[i := p'], rowT[i := t'];
        i := i + 1;
      }
      P, T := P[j := rowP], T[j := rowT];
      j := j + 1;
    }
  }

  /** `n` empty tracks in every strand class. */
  function Cleared(n: nat): (t: StrandTracks)
    ensures Shaped(t, n) && AllEmpty(t, n)
  {
    var row: seq<seq<Entry>> := seq(n, _ => []);
    [row, row, row]
  }

  /** Finalised runs of `b` are finalised runs of any events with the same depths. */
  lemma RunsOfSameDepth(runs: seq<Entry>, a: seq<Entry>, b: seq<Entry>)
    requires RunsOf(runs, a) && forall x: nat :: DepthAt(a, x) == DepthAt(b, x)
    ensures RunsOf(runs, b)
  {
  }

  /** The loop of `sort_and_collapse_final`: every pending track is finalised
      into runs and then cleared. */
  method FinaliseAll(P0: StrandTracks, n: nat) returns (F: StrandTracks, P: StrandTracks)
    requires Shaped(P0, n)
    ensures Shaped(F, n) && Shaped(P, n) && AllEmpty(P, n)
    ensures forall j, i :: 0 <= j < 3 && 0 <= i < n ==> RunsOf(F[j][i], P0[j][i])
  {
    F := Cleared(n);
    var j := 0;
    while j < 3
      invariant 0 <= j <= 3 && Shaped(F, n)
      invariant forall j', i :: 0 <= j' < j && 0 <= i < n ==> RunsOf(F[j'][i], P0[j'][i])
    {
      var row := F[j];
      var i := 0;
      while i < n
        invariant 0 <= i <= n && |row| == n
        invariant forall i' :: 0 <= i' < i ==> RunsOf(row[i'], P0[j][i'])
      {
        var runs := FinalizeTrack(P0[j][i]);
        row := row[i := runs];
        i := i + 1;
      }
      F := F[j := row];
      j := j + 1;
    }
    P := Cleared(n);
  }

  /** One excluded interval as written: chromosome name, start, end. */
  datatype Exclusion = Exclusion(chrName: string, start: nat, end: nat)

  function Named(name: string, spans: seq<Span>): seq<Exclusion> {
    seq(|spans|, i requires 0 <= i < |spans| => Exclusion(name, spans[i].start, spans[i].end))
  }

  /** Every chromosome's reference index names a non-empty combined track. */
  predicate RefsResolve(chrs: seq<ChrEntry>, tracks: seq<seq<Entry>>) {
    forall i :: 0 <= i < |chrs| ==> chrs[i].refID < |tracks| && tracks[chrs[i].refID] != []
  }

  /** The exclusions written for the first `k` chromosomes, each read from the
      combined-class track of its reference index. */
  function Exclusions(chrs: seq<ChrEntry>, tracks: seq<seq<Entry>>, threshold: int, k: nat): seq<Exclusion>
    requires k <= |chrs| && RefsResolve(chrs, tracks)
  {
    if k == 0 then []
    else
      var c := chrs[k - 1];
      Exclusions(chrs, tracks, threshold, k - 1) + Named(c.name, LowCoverIntervals(tracks[c.refID], threshold, c.len))
  }

  /** The loop of the mappability output over the chromosomes. */
  method ExclusionScan(chrs: seq<ChrEntry>, tracks: seq<seq<Entry>>, threshold: int) returns (out: seq<Exclusion>)
    requires RefsResolve(chrs, tracks)
    ensures out == Exclusions(chrs, tracks, threshold, |chrs|)
  {
    out := [];
    var i := 0;
    while i < |chrs|
      invariant 0 <= i <= |chrs|
      invariant out == Exclusions(chrs, tracks, threshold, i)
    {
      var spans := LowCoverScan(tracks[chrs[i].refID], threshold, chrs[i].len);
      out := out + Named(chrs[i].name, spans);
      i := i + 1;
    }
  }

  // ---------------------------------------------------------------------
  // A worked example: two overlapping fragments

  /** The seed pair, then the events of the fragments [100, 200) and [150, 250). */
  function ExampleEvents(): seq<Entry> {
    [Entry(0, 0), Entry(100, 1), Entry(200, -1), Entry(150, 1), Entry(250, -1)]
  }

  function ExampleRuns(): seq<Entry> {
    [Entry(0, 0), Entry(100, 1), Entry(150, 2), Entry(200, 1), Entry(250, 0)]
  }

  lemma ExampleDepth(p: nat)
    ensures DepthAt(ExampleEvents(), p) ==
      if p < 100 then 0 else if p < 150 then 1 else if p < 200 then 2 else if p < 250 then 1 else 0
  {
    var es := ExampleEvents();
    var e0 := [es[0]];
    assert e0[1..] == [];
    assert es == e0 + [es[1]] + [es[2]] + [es[3]] + [es[4]];
    DepthAtSnoc(e0, es[1], p);
    DepthAtSnoc(e0 + [es[1]], es[2], p);
    DepthAtSnoc(e0 + [es[1]] + [es[2]], es[3], p);
    DepthAtSnoc(e0 + [es[1]] + [es[2]] + [es[3]], es[4], p);
  }

  /** The finalised track of the example has a run of depth 2 where the two
      fragments overlap and returns to depth 0 after both. */
  lemma ExampleFinalRuns(runs: seq<Entry>)
    requires RunsOf(runs, ExampleEvents())
    ensures runs == ExampleRuns()
  {
    var r := ExampleRuns();
    assert IsRunList(r);
    forall p: nat
      ensures RunDepth(r, p) == RunDepth(runs, p)
    {
      ExampleDepth(p);
      if p < 100 {
        RunDepthInside(r, 0, p);
      } else if p < 150 {
        RunDepthInside(r, 1, p);
      } else if p < 200 {
        RunDepthInside(r, 2, p);
      } else if p < 250 {
        RunDepthInside(r, 3, p);
      } else {
        RunDepthInside(r, 4, p);
      }
    }
    RunListsUnique(runs, r);
  }

  /** Querying [100, 250) on the example counts 100 bases at depth 1 and 50 at
      depth 2, a mean depth of 4/3. */
  lemma ExampleCoverage()
    ensures CoverageHist([], ExampleRuns(), 100, 250) == [Bucket(1, 100), Bucket(2, 50)]
    ensures Mean([Bucket(1, 100), Bucket(2, 50)]) == Some(4.0 / 3.0)
  {
    var r := ExampleRuns();
    assert Increasing(r);
    FirstAfterUnique(r, 100, 0, 2);
    forall y | 100 <= y < 150
      ensures WalkKey(r)(y) == 1
    {
      RunDepthInside(r, 1, y);
    }
    forall y | 150 <= y < 200
      ensures WalkKey(r)(y) == 2
    {
      RunDepthInside(r, 2, y);
    }
    forall y | 200 <= y < 250
      ensures WalkKey(r)(y) == 1
    {
      RunDepthInside(r, 3, y);
    }
    AddKeysSegment([], WalkKey(r), 100, 100, 150, 1);
    AddKeysSegment([], WalkKey(r), 100, 150, 200, 2);
    AddKeysSegment([], WalkKey(r), 100, 200, 250, 1);
    ExampleCounts();
    ExampleMean();
  }

  lemma ExampleCounts()
    ensures AddCount(AddCount(AddCount([], 1, 50), 2, 50), 1, 50) == [Bucket(1, 100), Bucket(2, 50)]
  {
    var a := AddCount([], 1, 50);
    assert a == [Bucket(1, 50)];
    var b := AddCount(a, 2, 50);
    assert b == [Bucket(1, 50), Bucket(2, 50)];
  }

  lemma ExampleMean()
    ensures Mean([Bucket(1, 100), Bucket(2, 50)]) == Some(4.0 / 3.0)
  {
    assert WeightedSum([Bucket(1, 100), Bucket(2, 50)]) == 200;
  }

  /** The fragment depth accumulator.  `pending` is `chrName_vec_new` (compacted
      events), `temp` is `temp_chrName_vec_new` (raw events of recent
      fragments) and `final` is `chrName_vec_final` (finalised runs). */
  class FragmentsMap {
    var chrs: seq<ChrEntry>
    var final: StrandTracks
    var pending: StrandTracks
    var temp: StrandTracks
    var finalIsSorted: bool
    var fragCount: nat

    /** One track per chromosome in every strand class; a final track is never
        empty, and it is a run list while the final tracks are marked sorted. */
    ghost predicate Valid()
      reads this
    {
      && Shaped(final, |chrs|) && Shaped(pending, |chrs|) && Shaped(temp, |chrs|)
      && (forall j, i :: 0 <= j < 3 && 0 <= i < |chrs| ==> final[j][i] != [])
      && (finalIsSorted ==> forall j, i :: 0 <= j < 3 && 0 <= i < |chrs| ==> IsRunList(final[j][i]))
    }

    constructor ()
      ensures Valid()
      ensures chrs == [] && final == Seeded(0) && pending == Seeded(0) && temp == Seeded(0)
      ensures !finalIsSorted && fragCount == 0
    {
      chrs := [];
      final, pending, temp := Seeded(0), Seeded(0), Seeded(0);
      finalIsSorted := false;
      fragCount := 0;
    }

    /** Sets the chromosome list: every track of every class is reset to the
        single pair (0, 0), one track per chromosome. */
    method ChrMapUpdate(chrmap: seq<ChrEntry>)
      requires Valid() && chrs == []
      modifies this
      ensures Valid()
      ensures chrs == chrmap
      ensures final == Seeded(|chrmap|) && pending == Seeded(|chrmap|) && temp == Seeded(|chrmap|)
      ensures finalIsSorted == old(finalIsSorted) && fragCount == old(fragCount)
    {
      var seed := [Entry(0, 0)];
      var row: seq<seq<Entry>> := [];
      var i := 0;
      while i < |chrmap|
        invariant 0 <= i <= |chrmap|
        invariant row == seq(i, _ => seed)
      {
        row := row + [seed];
        i := i + 1;
      }
      final, pending, temp := [row, row, row], [row, row, row], [row, row, row];
      chrs := chrs + chrmap;
      assert IsRunList(seed);
    }

    /** Records one fragment: the events of all its blocks are appended to its
        chromosome's track in its own strand class and in the combined class;
        every millionth fragment triggers a compaction. */
    method ProcessBlocks(b: FragmentBlocks)
      requires Valid() && WellFormed(b) && b.chrId < |chrs|
      modifies this
      ensures Valid()
      ensures chrs == old(chrs) && final == old(final) && finalIsSorted == old(finalIsSorted)
      ensures fragCount == old(fragCount) + 1
      ensures fragCount % CompactEvery != 0 ==>
        pending == old(pending) && temp == Stamp(old(temp), |chrs|, StrandIndex(b.direction), b.chrId, FragmentEvents(b))
      ensures fragCount % CompactEvery == 0 ==>
        CompactedAll(pending, temp, old(pending), Stamp(old(temp), |chrs|, StrandIndex(b.direction), b.chrId, FragmentEvents(b)), |chrs|)
    {
      temp := StampFragment(temp, |chrs|, b);
      fragCount := fragCount + 1;
      if fragCount % CompactEvery == 0 {
        SortAndCollapseTemp();
      }
    }

    /** `sort_and_collapse_temp`: every temporary track is compacted onto its
        pending track. */
    method SortAndCollapseTemp()
      requires Valid()
      modifies this
      ensures Valid()
      ensures chrs == old(chrs) && final == old(final)
      ensures finalIsSorted == old(finalIsSorted) && fragCount == old(fragCount)
      ensures CompactedAll(pending, temp, old(pending), old(temp), |chrs|)
    {
      pending, temp := CompactAll(pending, temp, |chrs|);
    }
  
    /** `sort_and_collapse_final`: unless already done, compacts the temporary
        tracks, finalises every pending track into runs, clears the pending
        tracks and marks the final tracks sorted. */
    method SortAndCollapseFinal()
      requires Valid()
      modifies this
      ensures Valid() && finalIsSorted
      ensures chrs == old(chrs) && fragCount == old(fragCount)
      ensures old(finalIsSorted) ==> final == old(final) && pending == old(pending) && temp == old(temp)
      ensures !old(finalIsSorted) ==>
        && AllEmpty(pending, |chrs|) && AllEmpty(temp, |chrs|)
        && FinalisedFrom(final, old(pending), old(temp), |chrs|)
    {
      if !finalIsSorted {
        ghost var P0, T0 := pending, temp;
        SortAndCollapseTemp();
        var F, P := FinaliseAll(pending, |chrs|);
        forall j, i | 0 <= j < 3 && 0 <= i < |chrs|
          ensures RunsOf(F[j][i], P0[j][i] + T0[j][i])
        {
          forall x: nat
            ensures DepthAt(pending[j][i], x) == DepthAt(P0[j][i] + T0[j][i], x)
          {
            CompactedDepth(pending[j][i], [], P0[j][i], T0[j][i], x);
            assert pending[j][i] + [] == pending[j][i];
          }
          RunsOfSameDepth(F[j][i], pending[j][i], P0[j][i] + T0[j][i]);
        }
        final, pending := F, P;
        finalIsSorted := true;
      }
    }

    /** Merges `child` into this accumulator.  Both first compact their
        temporary tracks; when neither is finalised the child's pending tracks
        are appended to this one's, when both are the child's final tracks are
        appended to this one's and this one is marked unsorted, and otherwise
        nothing more happens.  `mine` is this accumulator's pending tracks
        after its own compaction. */
    method Combine(child: FragmentsMap) returns (ghost mine: StrandTracks)
      requires this != child && Valid() && child.Valid() && |chrs| <= |child.chrs|
      modifies this, child
      ensures Valid() && child.Valid()
      ensures chrs == old(chrs) && fragCount == old(fragCount)
      ensures child.chrs == old(child.chrs) && child.fragCount == old(child.fragCount)
      ensures child.final == old(child.final) && child.finalIsSorted == old(child.finalIsSorted)
      ensures Shaped(mine, |chrs|)
      ensures CompactedAll(mine, temp, old(pending), old(temp), |chrs|)
      ensures CompactedAll(child.pending, child.temp, old(child.pending), old(child.temp), |child.chrs|)
      ensures !old(finalIsSorted) && !old(child.finalIsSorted) ==>
        && final == old(final) && !finalIsSorted
        && forall j, i :: 0 <= j < 3 && 0 <= i < |chrs| ==> pending[j][i] == mine[j][i] + child.pending[j][i]
      ensures old(finalIsSorted) && old(child.finalIsSorted) ==>
        && pending == mine && !finalIsSorted
        && forall j, i :: 0 <= j < 3 && 0 <= i < |chrs| ==> final[j][i] == old(final[j][i]) + child.final[j][i]
      ensures old(finalIsSorted) != old(child.finalIsSorted) ==>
        pending == mine && final == old(final) && finalIsSorted == old(finalIsSorted)
    {
      SortAndCollapseTemp();
      mine := pending;
      child.SortAndCollapseTemp();
      if !finalIsSorted && !child.finalIsSorted {
        pending := AppendTracks(pending, child.pending, |chrs|);
      } else if finalIsSorted && child.finalIsSorted {
        final := AppendTracks(final, child.final, |chrs|);
        finalIsSorted := false;
      }
    }

    /** `updateCoverageHist`: adds the bases `start .. end-1` of chromosome
        `refID` in strand class `dir` to the histogram; an unknown chromosome
        only makes sure depth 0 is a key. */
    method UpdateCoverageHist(h: Hist, start: nat, end: nat, dir: nat, refID: nat) returns (r: Hist)
      requires Valid() && dir < 3 && Ascending(h)
      requires refID < |final[dir]| ==> Increasing(final[dir][refID])
      ensures refID >= |final[dir]| ==> r == AddCount(h, 0, 0)
      ensures refID < |final[dir]| ==> r == CoverageHist(h, final[dir][refID], start, end)
    {
      if refID >= |final[dir]| {
        return AddCount(h, 0, 0);
      }
      r := AddRunCoverage(h, final[dir][refID], start, end);
    }

    /** The mappability output: finalises if needed, then for each chromosome
        in order writes the intervals where the combined depth is at most
        `threshold`. */
    method WriteMappability(threshold: int) returns (out: seq<Exclusion>)
      requires Valid() && forall i :: 0 <= i < |chrs| ==> chrs[i].refID < |chrs|
      modifies this
      ensures Valid() && finalIsSorted
      ensures chrs == old(chrs) && fragCount == old(fragCount)
      ensures old(finalIsSorted) ==> final == old(final) && pending == old(pending) && temp == old(temp)
      ensures !old(finalIsSorted) ==>
        && AllEmpty(pending, |chrs|) && AllEmpty(temp, |chrs|)
        && FinalisedFrom(final, old(pending), old(temp), |chrs|)
      ensures RefsResolve(chrs, final[2])
      ensures out == Exclusions(chrs, final[2], threshold, |chrs|)
    {
      if !finalIsSorted {
        SortAndCollapseFinal();
      }
      out := ExclusionScan(chrs, final[2], threshold);
    }
  }
}

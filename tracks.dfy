/** Per-chromosome, per-strand-class tracks of the depth accumulator.

    A track is a list of (position, value) pairs.  In the pending lists the value
    is a delta (+1 where a block starts, -1 where it ends, or a collapsed sum of
    several deltas at one position); in a finalised list it is the depth of a
    run that holds from its position up to the next run's position.  This module
    gives both readings a meaning (`DepthAt`, `RunDepth`) and models the two
    per-track sweeps of the accumulator: the incremental compaction and the
    final collapse into runs. */
module Tracks {

  /** One pair of a track: a position and a delta or a depth. */
  datatype Entry = Entry(pos: nat, val: int)

  // ---------------------------------------------------------------------
  // Meaning of a list of delta events

  /** What one delta event adds to the depth at `p`. */
  function Contribution(e: Entry, p: nat): int {
    if e.pos <= p then e.val else 0
  }

  /** Depth at `p` implied by delta events: the sum of the deltas at positions <= p. */
  function DepthAt(es: seq<Entry>, p: nat): int {
    if es == [] then 0 else Contribution(es[0], p) + DepthAt(es[1..], p)
  }

  /** Sum of all deltas, whatever their position. */
  function TotalDelta(es: seq<Entry>): int {
    if es == [] then 0 else es[0].val + TotalDelta(es[1..])
  }

  lemma {:induction false} DepthAtAppend(a: seq<Entry>, b: seq<Entry>, p: nat)
    ensures DepthAt(a + b, p) == DepthAt(a, p) + DepthAt(b, p)
  {
    if a != [] {
      assert (a + b)[1..] == a[1..] + b;
      DepthAtAppend(a[1..], b, p);
    } else {
      assert a + b == b;
    }
  }

  lemma DepthAtSnoc(s: seq<Entry>, e: Entry, p: nat)
    ensures DepthAt(s + [e], p) == DepthAt(s, p) + Contribution(e, p)
  {
    DepthAtAppend(s, [e], p);
  }

  /** Past the last event every delta counts. */
  lemma {:induction false} DepthAtBeyond(es: seq<Entry>, p: nat)
    requires forall k :: 0 <= k < |es| ==> es[k].pos <= p
    ensures DepthAt(es, p) == TotalDelta(es)
  {
    if es != [] {
      DepthAtBeyond(es[1..], p);
    }
  }

  /** Depth does not depend on the order of the events (the accumulator may
      ingest and merge shards in any order). */
  lemma {:induction false} DepthAtPermutation(a: seq<Entry>, b: seq<Entry>, p: nat)
    requires multiset(a) == multiset(b)
    ensures DepthAt(a, p) == DepthAt(b, p)
    decreases |a|
  {
    if a == [] {
      assert |b| == |multiset(b)| == 0;
    } else {
      var x := a[0];
      assert x in multiset(b);
      var k :| 0 <= k < |b| && b[k] == x;
      var rest := b[..k] + b[k + 1..];
      assert b == b[..k] + [x] + b[k + 1..];
      assert a == [x] + a[1..];
      calc {
        multiset(a[1..]);
        multiset(a) - multiset{x};
        multiset(b[..k]) + multiset{x} + multiset(b[k + 1..]) - multiset{x};
        multiset(rest);
      }
      DepthAtPermutation(a[1..], rest, p);
      DepthAtAppend(b[..k], b[k + 1..], p);
      DepthAtAppend(b[..k] + [x], b[k + 1..], p);
      DepthAtSnoc(b[..k], x, p);
    }
  }

  // ---------------------------------------------------------------------
  // Meaning of a finalised run list

  /** Depth given by a run list at `p`: the value of the last run at or before
      `p`, and 0 before the first run. */
  function RunDepth(runs: seq<Entry>, p: nat): int {
    if runs == [] then 0
    else if runs[|runs| - 1].pos <= p then runs[|runs| - 1].val
    else RunDepth(runs[..|runs| - 1], p)
  }

  /** Positions strictly increase along the list. */
  predicate Increasing(s: seq<Entry>) {
    forall i, j :: 0 <= i < j < |s| ==> s[i].pos < s[j].pos
  }

  /** The shape of a finalised list: starts at position 0, positions strictly
      increase, and two adjacent runs never have the same depth. */
  predicate IsRunList(runs: seq<Entry>) {
    && |runs| > 0
    && runs[0].pos == 0
    && Increasing(runs)
    && forall i :: 0 < i < |runs| ==> runs[i].val != runs[i - 1].val
  }

  /** `runs` is the finalised form of the delta events `es`. */
  ghost predicate RunsOf(runs: seq<Entry>, es: seq<Entry>) {
    IsRunList(runs) && forall p: nat :: RunDepth(runs, p) == DepthAt(es, p)
  }

  /** `c` is a compaction of the delta events `es`: at most one entry per
      position, in increasing order, implying the same depth everywhere. */
  ghost predicate Collapses(c: seq<Entry>, es: seq<Entry>) {
    Increasing(c) && forall p: nat :: DepthAt(c, p) == DepthAt(es, p)
  }

  lemma RunDepthSnoc(runs: seq<Entry>, e: Entry, p: nat)
    ensures RunDepth(runs + [e], p) == if e.pos <= p then e.val else RunDepth(runs, p)
  {
    assert (runs + [e])[..|runs|] == runs;
  }

  /** In an increasing list the depth at a run's own position is that run's value. */
  lemma {:induction false} RunDepthAtRun(runs: seq<Entry>, k: nat)
    requires Increasing(runs) && k < |runs|
    ensures RunDepth(runs, runs[k].pos) == runs[k].val
    decreases |runs|
  {
    var n := |runs|;
    if k < n - 1 {
      var pre := runs[..n - 1];
      assert runs[n - 1].pos > runs[k].pos;
      assert pre[k] == runs[k];
      RunDepthAtRun(pre, k);
    }
  }

  /** Between run k and run k + 1 the depth is run k's value. */
  lemma {:induction false} RunDepthInside(runs: seq<Entry>, k: nat, p: nat)
    requires Increasing(runs) && k < |runs|
    requires runs[k].pos <= p && (k + 1 < |runs| ==> p < runs[k + 1].pos)
    ensures RunDepth(runs, p) == runs[k].val
    decreases |runs|
  {
    var n := |runs|;
    if k < n - 1 {
      var pre := runs[..n - 1];
      assert runs[n - 1].pos >= runs[k + 1].pos > p;
      assert pre[k] == runs[k];
      RunDepthInside(pre, k, p);
    }
  }

  /** Before the first run the depth is 0. */
  lemma {:induction false} RunDepthBefore(runs: seq<Entry>, p: nat)
    requires Increasing(runs) && |runs| > 0 && p < runs[0].pos
    ensures RunDepth(runs, p) == 0
    decreases |runs|
  {
    var n := |runs|;
    if n > 1 {
      RunDepthBefore(runs[..n - 1], p);
    } else {
      assert runs[..n - 1] == [];
    }
  }

  /** Each run of a finalised list carries the depth of the events at its
      position: the sum of all deltas at positions <= it. */
  lemma RunValueIsDepth(runs: seq<Entry>, es: seq<Entry>, k: nat)
    requires RunsOf(runs, es) && k < |runs|
    ensures runs[k].val == DepthAt(es, runs[k].pos)
  {
    RunDepthAtRun(runs, k);
  }

  /** Helper of `RunListsUnique`: a run list without its last run is a run list. */
  lemma RunListPrefix(r: seq<Entry>)
    requires IsRunList(r) && |r| > 1
    ensures IsRunList(r[..|r| - 1])
  {
    var q := r[..|r| - 1];
    assert forall i :: 0 <= i < |q| ==> q[i] == r[i];
  }

  /** A run list is determined by the depth it describes. */
  lemma {:induction false} RunListsUnique(r1: seq<Entry>, r2: seq<Entry>)
    requires IsRunList(r1) && IsRunList(r2)
    requires forall p: nat :: RunDepth(r1, p) == RunDepth(r2, p)
    ensures r1 == r2
    decreases |r1| + |r2|
  {
    var n1, n2 := |r1|, |r2|;
    var a, b := r1[n1 - 1], r2[n2 - 1];
    if a.pos < b.pos {
      LastRunIsChangePoint(r2, r1);
    } else if b.pos < a.pos {
      LastRunIsChangePoint(r1, r2);
    } else {
      RunDepthAtRun(r1, n1 - 1);
      RunDepthAtRun(r2, n2 - 1);
      if n1 == 1 || n2 == 1 {
        assert r1[0].pos == 0 && r2[0].pos == 0;
        assert n1 == 1 && n2 == 1;
      } else {
        var p1, p2 := r1[..n1 - 1], r2[..n2 - 1];
        RunListPrefix(r1);
        RunListPrefix(r2);
        PrefixesAgree(r1, r2, p1, p2);
        RunListsUnique(p1, p2);
        assert r1 == p1 + [a] && r2 == p2 + [b];
      }
    }
  }

  /** Helper of `RunListsUnique`: two run lists that agree everywhere and end
      at the same position still agree everywhere once that last run is dropped. */
  lemma PrefixesAgree(r1: seq<Entry>, r2: seq<Entry>, p1: seq<Entry>, p2: seq<Entry>)
    requires IsRunList(r1) && IsRunList(r2) && |r1| > 1 && |r2| > 1
    requires p1 == r1[..|r1| - 1] && p2 == r2[..|r2| - 1]
    requires r1[|r1| - 1].pos == r2[|r2| - 1].pos
    requires forall p: nat :: RunDepth(r1, p) == RunDepth(r2, p)
    ensures forall p: nat :: RunDepth(p1, p) == RunDepth(p2, p)
  {
    var n1, n2 := |r1|, |r2|;
    var last := r1[n1 - 1].pos;
    assert last > 0;
    var q: nat := last - 1;
    assert p1[n1 - 2] == r1[n1 - 2] && p2[n2 - 2] == r2[n2 - 2];
    assert Increasing(p1) && Increasing(p2);
    RunDepthInside(p1, n1 - 2, q);
    RunDepthInside(p2, n2 - 2, q);
    assert RunDepth(r1, q) == RunDepth(p1, q);
    assert RunDepth(r2, q) == RunDepth(p2, q);
    forall p: nat ensures RunDepth(p1, p) == RunDepth(p2, p) {
      if p < last {
        assert RunDepth(r1, p) == RunDepth(p1, p);
        assert RunDepth(r2, p) == RunDepth(p2, p);
      } else {
        RunDepthInside(p1, n1 - 2, p);
        RunDepthInside(p2, n2 - 2, p);
      }
    }
  }

  /** Helper of `RunListsUnique`: if the last run of `r` lies strictly past
      the last run of `s`, the two lists describe different depths. */
  lemma LastRunIsChangePoint(r: seq<Entry>, s: seq<Entry>)
    requires IsRunList(r) && IsRunList(s)
    requires s[|s| - 1].pos < r[|r| - 1].pos
    ensures exists p: nat :: RunDepth(r, p) != RunDepth(s, p)
  {
    var n := |r|;
    var b := r[n - 1];
    assert r[0].pos == 0 < b.pos;
    var q: nat := b.pos - 1;
    RunDepthAtRun(r, n - 1);
    RunDepthInside(r, n - 2, q);
    RunDepthInside(s, |s| - 1, q);
    RunDepthInside(s, |s| - 1, b.pos);
    if RunDepth(r, b.pos) == RunDepth(s, b.pos) {
      assert RunDepth(r, q) != RunDepth(s, q);
    }
  }

  /** Finalised lists of two event lists that imply the same depth everywhere
      are identical: how the events were split into shards, in which order
      they were merged and how often they were compacted is not observable. */
  lemma FinalRunsDetermined(r1: seq<Entry>, e1: seq<Entry>, r2: seq<Entry>, e2: seq<Entry>)
    requires RunsOf(r1, e1) && RunsOf(r2, e2)
    requires forall p: nat :: DepthAt(e1, p) == DepthAt(e2, p)
    ensures r1 == r2
  {
    RunListsUnique(r1, r2);
  }

  /** In particular the finalised list does not depend on the order of the events. */
  lemma FinalRunsOrderFree(r1: seq<Entry>, e1: seq<Entry>, r2: seq<Entry>, e2: seq<Entry>)
    requires RunsOf(r1, e1) && RunsOf(r2, e2)
    requires multiset(e1) == multiset(e2)
    ensures r1 == r2
  {
    forall p: nat ensures DepthAt(e1, p) == DepthAt(e2, p) {
      DepthAtPermutation(e1, e2, p);
    }
    FinalRunsDetermined(r1, e1, r2, e2);
  }

  // ---------------------------------------------------------------------
  // std::sort on (position, value) pairs

  /** The order `std::sort` uses on pairs: by position, then by value. */
  predicate EntryLe(a: Entry, b: Entry) {
    a.pos < b.pos || (a.pos == b.pos && a.val <= b.val)
  }

  predicate SortedEntries(s: seq<Entry>) {
    forall i, j :: 0 <= i < j < |s| ==> EntryLe(s[i], s[j])
  }

  lemma ConsSorted(x: Entry, t: seq<Entry>)
    requires SortedEntries(t) && (t == [] || EntryLe(x, t[0]))
    ensures SortedEntries([x] + t)
  {
    var r := [x] + t;
    forall i, j | 0 <= i < j < |r| ensures EntryLe(r[i], r[j]) {
      assert r[j] == t[j - 1];
      if i > 0 {
        assert r[i] == t[i - 1];
      } else if j > 1 {
        assert EntryLe(t[0], t[j - 1]);
      }
    }
  }

  /** Insertion of one entry into a sorted list; the result starts with the
      smaller of `e` and the old head. */
  function Insert(e: Entry, s: seq<Entry>): (r: seq<Entry>)
    requires SortedEntries(s)
    ensures SortedEntries(r) && multiset(r) == multiset(s) + multiset{e}
    ensures r != [] && r[0] == if s == [] || EntryLe(e, s[0]) then e else s[0]
  {
    if s == [] || EntryLe(e, s[0]) then
      ConsSorted(e, s);
      [e] + s
    else
      assert SortedEntries(s[1..]) by {
        assert forall k :: 0 <= k < |s[1..]| ==> s[1..][k] == s[k + 1];
      }
      var t := Insert(e, s[1..]);
      assert s == [s[0]] + s[1..];
      assert |s| > 1 ==> EntryLe(s[0], s[1]);
      ConsSorted(s[0], t);
      [s[0]] + t
  }

  /** The sorted permutation of a track. */
  function Sort(s: seq<Entry>): (r: seq<Entry>)
    ensures SortedEntries(r) && multiset(r) == multiset(s)
  {
    if s == [] then []
    else
      assert s == [s[0]] + s[1..];
      Insert(s[0], Sort(s[1..]))
  }

  // ---------------------------------------------------------------------
  // Steps of the compaction sweep

  /** `c` and `es` imply the same depth everywhere. */
  ghost predicate SameDepth(c: seq<Entry>, es: seq<Entry>) {
    forall p: nat :: DepthAt(c, p) == DepthAt(es, p)
  }

  /** Reading one more event: it becomes the open (position, sum) pair. */
  lemma CompactOpen(out: seq<Entry>, open: Entry, es: seq<Entry>, e: Entry)
    requires SameDepth(out + [open], es)
    ensures open.val != 0 ==> SameDepth(out + [open] + [e], es + [e])
    ensures open.val == 0 ==> SameDepth(out + [e], es + [e])
  {
    forall p: nat ensures DepthAt(out + [open] + [e], p) == DepthAt(es + [e], p)
                      && DepthAt(out + [e], p) == DepthAt(out + [open] + [e], p) - Contribution(open, p) {
      DepthAtSnoc(out + [open], e, p);
      DepthAtSnoc(out, open, p);
      DepthAtSnoc(out, e, p);
      DepthAtSnoc(es, e, p);
    }
  }

  /** Reading one more event at the open position: its delta joins the open sum. */
  lemma CompactMerge(out: seq<Entry>, loci: nat, accum: int, es: seq<Entry>, v: int)
    requires SameDepth(out + [Entry(loci, accum)], es)
    ensures SameDepth(out + [Entry(loci, accum + v)], es + [Entry(loci, v)])
  {
    forall p: nat ensures DepthAt(out + [Entry(loci, accum + v)], p) == DepthAt(es + [Entry(loci, v)], p) {
      DepthAtSnoc(out, Entry(loci, accum + v), p);
      DepthAtSnoc(out, Entry(loci, accum), p);
      DepthAtSnoc(es, Entry(loci, v), p);
    }
  }

  /** Sorting does not change the depth. */
  lemma SortSameDepth(s: seq<Entry>)
    ensures SameDepth(Sort(s), s)
  {
    forall p: nat ensures DepthAt(Sort(s), p) == DepthAt(s, p) {
      DepthAtPermutation(Sort(s), s, p);
    }
  }

  // ---------------------------------------------------------------------
  // Steps of the final sweep

  /** Below `bound` the run list `cur` gives the depth of the events `es`. */
  ghost predicate AgreesBelow(cur: seq<Entry>, es: seq<Entry>, bound: nat) {
    forall p: nat :: p < bound ==> RunDepth(cur, p) == DepthAt(es, p)
  }

  /** From `bound` on, the events `es` imply the constant depth `d`. */
  ghost predicate FlatFrom(es: seq<Entry>, bound: nat, d: int) {
    forall p: nat :: p >= bound ==> DepthAt(es, p) == d
  }

  lemma FlatStep(es: seq<Entry>, bound: nat, d: int, e: Entry)
    requires FlatFrom(es, bound, d) && bound <= e.pos
    ensures FlatFrom(es + [e], e.pos, d + e.val)
  {
    forall p: nat | p >= e.pos ensures DepthAt(es + [e], p) == d + e.val {
      DepthAtSnoc(es, e, p);
    }
  }

  lemma AgreesLater(cur: seq<Entry>, es: seq<Entry>, bound: nat, e: Entry)
    requires AgreesBelow(cur, es, bound) && bound <= e.pos
    ensures AgreesBelow(cur, es + [e], bound)
  {
    forall p: nat | p < bound ensures RunDepth(cur, p) == DepthAt(es + [e], p) {
      DepthAtSnoc(es, e, p);
    }
  }

  /** Leaving position `loci` at the open run's depth: the open run extends. */
  lemma AgreesExtend(cur: seq<Entry>, es: seq<Entry>, loci: nat, next: nat)
    requires Increasing(cur) && |cur| > 0 && cur[|cur| - 1].pos <= loci <= next
    requires AgreesBelow(cur, es, loci) && FlatFrom(es, loci, cur[|cur| - 1].val)
    ensures AgreesBelow(cur, es, next)
  {
    forall p: nat | loci <= p < next ensures RunDepth(cur, p) == DepthAt(es, p) {
      RunDepthInside(cur, |cur| - 1, p);
    }
  }

  /** Leaving position `loci` at a new depth: a run opens at `loci`. */
  lemma AgreesPush(cur: seq<Entry>, es: seq<Entry>, loci: nat, d: int, next: nat)
    requires AgreesBelow(cur, es, loci) && FlatFrom(es, loci, d) && loci <= next
    ensures AgreesBelow(cur + [Entry(loci, d)], es, next)
  {
    forall p: nat | p < next ensures RunDepth(cur + [Entry(loci, d)], p) == DepthAt(es, p) {
      RunDepthSnoc(cur, Entry(loci, d), p);
    }
  }

  lemma RunListPush(cur: seq<Entry>, e: Entry)
    requires IsRunList(cur) && cur[|cur| - 1].pos < e.pos && cur[|cur| - 1].val != e.val
    ensures IsRunList(cur + [e])
  {
    assert forall k :: 0 <= k < |cur| ==> cur[k].pos <= cur[|cur| - 1].pos;
  }

  /** End of the final sweep: agreement below the last position and a flat
      tail from it make a complete run list. */
  lemma AgreesEverywhere(cur: seq<Entry>, es: seq<Entry>, loci: nat)
    requires IsRunList(cur) && cur[|cur| - 1].pos <= loci
    requires AgreesBelow(cur, es, loci) && FlatFrom(es, loci, cur[|cur| - 1].val)
    ensures RunsOf(cur, es)
  {
    forall p: nat ensures RunDepth(cur, p) == DepthAt(es, p) {
      if p >= loci {
        RunDepthInside(cur, |cur| - 1, p);
      }
    }
  }

  // ---------------------------------------------------------------------
  // The two per-track sweeps

  /** The sweep of `sort_and_collapse_temp` over a sorted track: entries at
      the same position are summed, and a position whose sum is zero is dropped
      unless it is the last one. */
  method CollapseSorted(sorted: seq<Entry>) returns (out: seq<Entry>)
    requires SortedEntries(sorted)
    ensures Collapses(out, sorted)
    ensures sorted != [] ==> |out| > 0
  {
    var loci: nat := 0;
    var accum: int := 0;
    out := [];
    var i := 0;
    while i < |sorted|
      invariant 0 <= i <= |sorted|
      invariant Increasing(out + [Entry(loci, accum)])
      invariant i == 0 ==> loci == 0
      invariant i > 0 ==> loci == sorted[i - 1].pos
      invariant SameDepth(out + [Entry(loci, accum)], sorted[..i])
    {
      var e := sorted[i];
      assert sorted[..i + 1] == sorted[..i] + [e];
      if e.pos != loci {
        assert i == 0 || EntryLe(sorted[i - 1], e);
        CompactOpen(out, Entry(loci, accum), sorted[..i], e);
        IncreasingStep(out, Entry(loci, accum), e);
        if accum != 0 {
          out := out + [Entry(loci, accum)];
        }
        loci, accum := e.pos, e.val;
      } else {
        CompactMerge(out, loci, accum, sorted[..i], e.val);
        IncreasingSame(out, loci, accum, accum + e.val);
        accum := accum + e.val;
      }
      i := i + 1;
    }
    out := out + [Entry(loci, accum)];
    assert sorted[..|sorted|] == sorted;
  }

  lemma IncreasingSnoc(s: seq<Entry>, e: Entry)
    requires Increasing(s) && forall k :: 0 <= k < |s| ==> s[k].pos < e.pos
    ensures Increasing(s + [e])
  {
    var c := s + [e];
    forall i, j | 0 <= i < j < |c| ensures c[i].pos < c[j].pos {
      assert c[i] == s[i];
      if j < |s| { assert c[j] == s[j]; }
    }
  }

  lemma IncreasingInit(s: seq<Entry>, e: Entry)
    requires Increasing(s + [e])
    ensures Increasing(s) && forall k :: 0 <= k < |s| ==> s[k].pos < e.pos
  {
    var c := s + [e];
    forall k | 0 <= k < |s| ensures s[k].pos < e.pos {
      assert s[k] == c[k] && e == c[|c| - 1];
    }
    forall i, j | 0 <= i < j < |s| ensures s[i].pos < s[j].pos {
      assert s[i] == c[i] && s[j] == c[j];
    }
  }

  lemma IncreasingStep(out: seq<Entry>, open: Entry, e: Entry)
    requires Increasing(out + [open]) && open.pos < e.pos
    ensures Increasing(out + [open] + [e]) && Increasing(out + [e])
  {
    IncreasingInit(out, open);
    IncreasingSnoc(out, e);
    var c := out + [open];
    forall k | 0 <= k < |c| ensures c[k].pos < e.pos {
      if k < |out| { assert c[k] == out[k]; }
    }
    IncreasingSnoc(c, e);
  }

  lemma IncreasingSame(out: seq<Entry>, loci: nat, a: int, b: int)
    requires Increasing(out + [Entry(loci, a)])
    ensures Increasing(out + [Entry(loci, b)])
  {
    IncreasingInit(out, Entry(loci, a));
    IncreasingSnoc(out, Entry(loci, b));
  }

  /** One track of `sort_and_collapse_temp`: when the temporary event list is
      not empty, it is sorted, equal positions are merged into one entry, the
      result is appended to the pending list and the temporary list is emptied. */
  method CompactTrack(pending: seq<Entry>, temp: seq<Entry>) returns (pending': seq<Entry>, temp': seq<Entry>)
    ensures temp' == []
    ensures temp == [] ==> pending' == pending
    ensures temp != [] ==> |pending'| > |pending| && pending'[..|pending|] == pending
    ensures temp != [] ==> Collapses(pending'[|pending|..], temp)
  {
    if |temp| == 0 {
      return pending, temp;
    }
    var sorted := Sort(temp);
    var out := CollapseSorted(sorted);
    SortSameDepth(temp);
    assert SameDepth(out, temp);
    pending' := pending + out;
    assert pending'[..|pending|] == pending && pending'[|pending|..] == out;
    temp' := [];
  }

  /** The state of the final sweep after reading `sorted[..i]`: `loci` is the
      position being accumulated with running depth `depth`, the open run
      starts at `oldLoci` with depth `oldDepth`, and `out` holds the closed runs. */
  ghost predicate Sweep(sorted: seq<Entry>, i: nat, loci: nat, oldLoci: nat, depth: int, oldDepth: int, out: seq<Entry>) {
    && i <= |sorted|
    && (if i == 0 then loci == 0 else loci == sorted[i - 1].pos)
    && oldLoci <= loci
    && (loci == 0 ==> out == [] && oldLoci == 0 && oldDepth == depth)
    && (loci > 0 ==> oldLoci < loci)
    && IsRunList(out + [Entry(oldLoci, oldDepth)])
    && FlatFrom(sorted[..i], loci, depth)
    && AgreesBelow(out + [Entry(oldLoci, oldDepth)], sorted[..i], loci)
  }

  /** One event of the final sweep keeps its state: a new position closes the
      open run when the depth changed, a position-0 event resets the open
      run's depth. */
  lemma SweepStep(sorted: seq<Entry>, i: nat, loci: nat, oldLoci: nat, depth: int, oldDepth: int, out: seq<Entry>)
    requires SortedEntries(sorted) && i < |sorted|
    requires Sweep(sorted, i, loci, oldLoci, depth, oldDepth, out)
    ensures var e := sorted[i];
      e.pos != loci && depth != oldDepth ==>
        Sweep(sorted, i + 1, e.pos, loci, depth + e.val, if e.pos == 0 then depth + e.val else depth,
              out + [Entry(oldLoci, oldDepth)])
    ensures var e := sorted[i];
      e.pos != loci && depth == oldDepth ==>
        Sweep(sorted, i + 1, e.pos, oldLoci, depth + e.val, if e.pos == 0 then depth + e.val else oldDepth, out)
    ensures var e := sorted[i];
      e.pos == loci ==>
        Sweep(sorted, i + 1, loci, oldLoci, depth + e.val, if e.pos == 0 then depth + e.val else oldDepth, out)
  {
    var e := sorted[i];
    assert sorted[..i + 1] == sorted[..i] + [e];
    assert i > 0 ==> EntryLe(sorted[i - 1], e);
    var cur := out + [Entry(oldLoci, oldDepth)];
    FlatStep(sorted[..i], loci, depth, e);
    if e.pos != loci {
      if depth != oldDepth {
        RunListPush(cur, Entry(loci, depth));
        AgreesPush(cur, sorted[..i], loci, depth, e.pos);
        AgreesLater(cur + [Entry(loci, depth)], sorted[..i], e.pos, e);
      } else {
        AgreesExtend(cur, sorted[..i], loci, e.pos);
        AgreesLater(cur, sorted[..i], e.pos, e);
      }
    } else {
      AgreesLater(cur, sorted[..i], loci, e);
    }
  }

  /** The end of the final sweep: closing the open run, and opening one more
      when the running depth differs from it, gives the run list of the events. */
  lemma SweepEnd(sorted: seq<Entry>, loci: nat, oldLoci: nat, depth: int, oldDepth: int, out: seq<Entry>)
    requires Sweep(sorted, |sorted|, loci, oldLoci, depth, oldDepth, out)
    ensures var closed := out + [Entry(oldLoci, oldDepth)];
      RunsOf(if depth != oldDepth then closed + [Entry(loci, depth)] else closed, sorted)
  {
    assert sorted[..|sorted|] == sorted;
    var closed := out + [Entry(oldLoci, oldDepth)];
    if depth != oldDepth {
      RunListPush(closed, Entry(loci, depth));
      AgreesPush(closed, sorted, loci, depth, loci);
      AgreesEverywhere(closed + [Entry(loci, depth)], sorted, loci);
    } else {
      AgreesEverywhere(closed, sorted, loci);
    }
  }

  /** One track of `sort_and_collapse_final`: the pending events are sorted and
      swept once, keeping a running depth and opening a new run only where the
      depth differs from the open run's.  The result is the finalised run list
      of the events. */
  method FinalizeTrack(pending: seq<Entry>) returns (runs: seq<Entry>)
    ensures RunsOf(runs, pending)
  {
    var sorted := Sort(pending);
    var loci: nat := 0;       // position being accumulated
    var oldLoci: nat := 0;    // position of the open run
    var depth: int := 0;      // depth after the events read so far
    var oldDepth: int := 0;   // depth of the open run
    var out: seq<Entry> := [];
    var i := 0;
    while i < |sorted|
      invariant Sweep(sorted, i, loci, oldLoci, depth, oldDepth, out)
    {
      var e := sorted[i];
      SweepStep(sorted, i, loci, oldLoci, depth, oldDepth, out);
      if e.pos != loci {
        if depth != oldDepth {
          out := out + [Entry(oldLoci, oldDepth)];
          oldDepth, oldLoci := depth, loci;
        }
        loci := e.pos;
      }
      depth := depth + e.val;
      if e.pos == 0 {
        oldDepth := depth;
      }
      i := i + 1;
    }
    SweepEnd(sorted, loci, oldLoci, depth, oldDepth, out);
    out := out + [Entry(oldLoci, oldDepth)];
    if depth != oldDepth {
      out := out + [Entry(loci, depth)];
    }
    SortSameDepth(pending);
    runs := out;
  }
}

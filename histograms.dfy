/** The depth histogram filled by the coverage queries: a
    `std::map<unsigned int, unsigned int>` from a coverage depth to the number
    of bases seen at that depth, kept as its ascending sequence of entries. */
module Histograms {

  /** One entry of the map: `count` bases were seen at coverage `depth`. */
  datatype Bucket = Bucket(depth: nat, count: nat)

  type Hist = seq<Bucket>

  /** Keys strictly ascending, as a `std::map` iterates them. */
  predicate Ascending(h: Hist) {
    |h| <= 1 || (h[0].depth < h[1].depth && Ascending(h[1..]))
  }

  lemma {:induction false} AscendingHead(h: Hist, i: nat)
    requires Ascending(h) && 0 < i < |h|
    ensures h[0].depth < h[i].depth
  {
    if i > 1 {
      AscendingHead(h[1..], i - 1);
    }
  }

  /** `hist.find(d) != hist.end()`. */
  predicate HasKey(h: Hist, d: nat) {
    exists i :: 0 <= i < |h| && h[i].depth == d
  }

  /** The count stored under `d`, or 0 when `d` is not a key. */
  function Count(h: Hist, d: nat): nat {
    if h == [] then 0
    else if h[0].depth == d then h[0].count
    else Count(h[1..], d)
  }

  /** Number of bases recorded: the sum of all counts. */
  function Total(h: Hist): nat {
    if h == [] then 0 else h[0].count + Total(h[1..])
  }

  lemma {:induction false} TotalAppend(a: Hist, b: Hist)
    ensures Total(a + b) == Total(a) + Total(b)
  {
    if a == [] {
      assert a + b == b;
    } else {
      assert (a + b)[1..] == a[1..] + b;
      TotalAppend(a[1..], b);
    }
  }

  /** The count of a bucket is what `Count` reads for its key. */
  lemma {:induction false} CountOfBucket(h: Hist, i: nat)
    requires Ascending(h) && i < |h|
    ensures Count(h, h[i].depth) == h[i].count
  {
    if i > 0 {
      AscendingHead(h, i);
      assert h[1..][i - 1] == h[i];
      CountOfBucket(h[1..], i - 1);
    }
  }

  lemma {:induction false} CountAbsent(h: Hist, d: nat)
    requires !HasKey(h, d)
    ensures Count(h, d) == 0
  {
    if h != [] {
      assert h[0].depth != d;
      assert !HasKey(h[1..], d) by {
        forall i | 0 <= i < |h[1..]| ensures h[1..][i].depth != d {
          assert h[1..][i] == h[i + 1];
        }
      }
      CountAbsent(h[1..], d);
    }
  }

  lemma {:induction false} CountLeTotal(h: Hist, d: nat)
    ensures Count(h, d) <= Total(h)
  {
    if h != [] {
      CountLeTotal(h[1..], d);
    }
  }

  lemma ConsKeys(x: Bucket, t: Hist)
    ensures forall k :: HasKey([x] + t, k) <==> k == x.depth || HasKey(t, k)
  {
    var r := [x] + t;
    forall k ensures HasKey(r, k) <==> k == x.depth || HasKey(t, k) {
      if HasKey(t, k) {
        var i :| 0 <= i < |t| && t[i].depth == k;
        assert r[i + 1] == t[i];
      }
      if HasKey(r, k) && k != x.depth {
        var i :| 0 <= i < |r| && r[i].depth == k;
        assert r[i] == t[i - 1];
      }
      if k == x.depth {
        assert r[0].depth == k;
      }
    }
  }

  /** A bucket below the first key of an ascending histogram keeps it ascending. */
  lemma ConsAscending(x: Bucket, t: Hist)
    requires Ascending(t) && (t == [] || x.depth < t[0].depth)
    ensures Ascending([x] + t)
  {
    assert ([x] + t)[1..] == t;
  }

  lemma TailAscending(h: Hist)
    requires Ascending(h) && h != []
    ensures Ascending(h[1..])
    ensures h[1..] != [] ==> h[0].depth < h[1..][0].depth
  {
  }

  /** `hist[d] += n`: inserts `d` with count `n` when it is not yet a key.
      The result starts with the smaller of `d` and the old first key. */
  function AddCount(h: Hist, d: nat, n: nat): (r: Hist)
    requires Ascending(h)
    ensures Ascending(r)
    ensures r != [] && r[0].depth == if h != [] && h[0].depth < d then h[0].depth else d
  {
    if h == [] then
      [Bucket(d, n)]
    else
      TailAscending(h);
      if d < h[0].depth then
        ConsAscending(Bucket(d, n), h);
        [Bucket(d, n)] + h
      else if d == h[0].depth then
        ConsAscending(Bucket(d, h[0].count + n), h[1..]);
        [Bucket(d, h[0].count + n)] + h[1..]
      else
        var t := AddCount(h[1..], d, n);
        ConsAscending(h[0], t);
        [h[0]] + t
  }

  /** After `hist[d] += n` the keys are the old keys and `d`. */
  lemma {:induction false} AddCountKeys(h: Hist, d: nat, n: nat)
    requires Ascending(h)
    ensures forall k :: HasKey(AddCount(h, d, n), k) <==> HasKey(h, k) || k == d
  {
    if h == [] {
      ConsKeys(Bucket(d, n), []);
    } else {
      TailAscending(h);
      assert h == [h[0]] + h[1..];
      ConsKeys(h[0], h[1..]);
      if d < h[0].depth {
        ConsKeys(Bucket(d, n), h);
      } else if d == h[0].depth {
        ConsKeys(Bucket(d, h[0].count + n), h[1..]);
      } else {
        AddCountKeys(h[1..], d, n);
        ConsKeys(h[0], AddCount(h[1..], d, n));
      }
    }
  }

  /** After `hist[d] += n` the count of `d` grew by `n` and no other count changed. */
  lemma {:induction false} AddCountCounts(h: Hist, d: nat, n: nat)
    requires Ascending(h)
    ensures Count(AddCount(h, d, n), d) == Count(h, d) + n
    ensures forall k :: k != d ==> Count(AddCount(h, d, n), k) == Count(h, k)
  {
    var r := AddCount(h, d, n);
    if h == [] {
      assert r[1..] == [];
    } else {
      TailAscending(h);
      if d < h[0].depth {
        assert r[1..] == h;
        CountAbsentBelow(h, d);
      } else if d == h[0].depth {
        assert r[1..] == h[1..];
        forall k | k != d ensures Count(r, k) == Count(h, k) {
        }
      } else {
        AddCountCounts(h[1..], d, n);
        assert r[1..] == AddCount(h[1..], d, n);
      }
    }
  }

  /** After `hist[d] += n` the histogram records `n` more bases. */
  lemma {:induction false} AddCountTotal(h: Hist, d: nat, n: nat)
    requires Ascending(h)
    ensures Total(AddCount(h, d, n)) == Total(h) + n
  {
    var r := AddCount(h, d, n);
    if h == [] {
      assert r[1..] == [];
    } else {
      TailAscending(h);
      if d < h[0].depth {
        assert r[1..] == h;
      } else if d == h[0].depth {
        assert r[1..] == h[1..];
      } else {
        AddCountTotal(h[1..], d, n);
        assert r[1..] == AddCount(h[1..], d, n);
      }
    }
  }

  lemma CountAbsentBelow(h: Hist, d: nat)
    requires Ascending(h) && (h == [] || d < h[0].depth)
    ensures !HasKey(h, d) && Count(h, d) == 0
  {
    forall i | 0 < i < |h| ensures h[i].depth != d {
      AscendingHead(h, i);
    }
    CountAbsent(h, d);
  }

  /** Keys are below or at the first key only when they are the first key. */
  lemma FirstKeyIsLeast(h: Hist, k: nat)
    requires Ascending(h) && HasKey(h, k)
    ensures h[0].depth <= k
  {
    var i :| 0 <= i < |h| && h[i].depth == k;
    if i > 0 {
      AscendingHead(h, i);
    }
  }

  lemma TailKeys(h: Hist)
    requires Ascending(h) && h != []
    ensures forall k :: HasKey(h[1..], k) <==> HasKey(h, k) && k != h[0].depth
    ensures forall k :: k != h[0].depth ==> Count(h[1..], k) == Count(h, k)
  {
    forall k ensures HasKey(h[1..], k) <==> HasKey(h, k) && k != h[0].depth {
      if HasKey(h[1..], k) {
        var i :| 0 <= i < |h[1..]| && h[1..][i].depth == k;
        assert h[i + 1] == h[1..][i];
        AscendingHead(h, i + 1);
      }
      if HasKey(h, k) && k != h[0].depth {
        var i :| 0 <= i < |h| && h[i].depth == k;
        assert h[1..][i - 1] == h[i];
      }
    }
  }

  /** A histogram is determined by its keys and their counts. */
  lemma {:induction false} HistExtensional(a: Hist, b: Hist)
    requires Ascending(a) && Ascending(b)
    requires forall k :: HasKey(a, k) <==> HasKey(b, k)
    requires forall k :: Count(a, k) == Count(b, k)
    ensures a == b
  {
    if a == [] || b == [] {
      if a != [] {
        assert HasKey(a, a[0].depth);
      }
      if b != [] {
        assert HasKey(b, b[0].depth);
      }
    } else {
      assert HasKey(a, a[0].depth) && HasKey(b, b[0].depth);
      FirstKeyIsLeast(a, b[0].depth);
      FirstKeyIsLeast(b, a[0].depth);
      CountOfBucket(a, 0);
      CountOfBucket(b, 0);
      assert a[0] == b[0];
      TailKeys(a);
      TailKeys(b);
      assert Ascending(a[1..]) && Ascending(b[1..]);
      forall k ensures Count(a[1..], k) == Count(b[1..], k) {
        if k == a[0].depth {
          CountAbsent(a[1..], k);
          CountAbsent(b[1..], k);
        }
      }
      HistExtensional(a[1..], b[1..]);
      assert a == [a[0]] + a[1..] && b == [b[0]] + b[1..];
    }
  }

  /** Two additions at one depth are one addition of their sum. */
  lemma AddCountMerges(h: Hist, d: nat, m: nat, n: nat)
    requires Ascending(h)
    ensures AddCount(AddCount(h, d, m), d, n) == AddCount(h, d, m + n)
  {
    AddCountKeys(h, d, m);
    AddCountKeys(AddCount(h, d, m), d, n);
    AddCountKeys(h, d, m + n);
    AddCountCounts(h, d, m);
    AddCountCounts(AddCount(h, d, m), d, n);
    AddCountCounts(h, d, m + n);
    HistExtensional(AddCount(AddCount(h, d, m), d, n), AddCount(h, d, m + n));
  }

  /** Additions commute: a histogram does not depend on the order in which
      bases were added to it. */
  lemma AddCountCommutes(h: Hist, d1: nat, n1: nat, d2: nat, n2: nat)
    requires Ascending(h)
    ensures AddCount(AddCount(h, d1, n1), d2, n2) == AddCount(AddCount(h, d2, n2), d1, n1)
  {
    AddCountKeys(h, d1, n1);
    AddCountKeys(AddCount(h, d1, n1), d2, n2);
    AddCountKeys(h, d2, n2);
    AddCountKeys(AddCount(h, d2, n2), d1, n1);
    AddCountCounts(h, d1, n1);
    AddCountCounts(AddCount(h, d1, n1), d2, n2);
    AddCountCounts(h, d2, n2);
    AddCountCounts(AddCount(h, d2, n2), d1, n1);
    HistExtensional(AddCount(AddCount(h, d1, n1), d2, n2), AddCount(AddCount(h, d2, n2), d1, n1));
  }
}

/** The text-stream operations the reference loader and the name parser are
    built from: `std::getline` and `istream::ignore` on a string stream, and
    the number conversions `std::stoul` and `std::stol`. */
module Streams {
  import opened Wrappers

  /** A string stream: the characters not yet read, and whether the stream is
      still good (no end-of-file or failure flag set). */
  datatype Stream = Stream(rest: string, good: bool)

  /** `istringstream s(text)`. */
  function Open(text: string): Stream {
    Stream(text, true)
  }

  /** How far a stream is from being exhausted: every read from a good stream
      lowers it. */
  function Remaining(s: Stream): nat {
    if s.good then |s.rest| + 1 else 0
  }

  /** Index of the first `delim` in `s`, or `|s|` when there is none. */
  function Find(s: string, delim: char): (k: nat)
    ensures k <= |s|
  {
    if |s| == 0 then 0
    else if s[0] == delim then 0
    else 1 + Find(s[1..], delim)
  }

  /** The outcome of one `getline`: the stream afterwards and the buffer. */
  datatype Read = Read(stream: Stream, field: string)

  /** `std::getline(in, buf, delim)`.  On a stream that is no longer good
      nothing is read and `buf` keeps its previous contents.  Otherwise `buf`
      receives the characters up to the delimiter, which is consumed; reaching
      the end instead sets end-of-file. */
  function GetLine(src: Stream, buf: string, delim: char): (r: Read)
    ensures Remaining(r.stream) < Remaining(src) || (!src.good && r == Read(src, buf))
  {
    if !src.good then Read(src, buf)
    else
      var k := Find(src.rest, delim);
      if k < |src.rest| then Read(Stream(src.rest[k + 1..], true), src.rest[..k])
      else Read(Stream([], false), src.rest)
  }

  /** The fields `fs` written one after another with `delim` between them. */
  function Join(fs: seq<string>, delim: char): string {
    if |fs| == 0 then []
    else if |fs| == 1 then fs[0]
    else fs[0] + [delim] + Join(fs[1..], delim)
  }

  predicate FreeOf(s: string, delim: char) {
    forall i :: 0 <= i < |s| ==> s[i] != delim
  }

  lemma {:induction false} FindPrefix(a: string, b: string, delim: char)
    requires FreeOf(a, delim)
    ensures Find(a + [delim] + b, delim) == |a|
    decreases |a|
  {
    if a != [] {
      assert (a + [delim] + b)[1..] == a[1..] + [delim] + b;
      FindPrefix(a[1..], b, delim);
    }
  }

  lemma {:induction false} FindAbsent(a: string, delim: char)
    requires FreeOf(a, delim)
    ensures Find(a, delim) == |a|
    decreases |a|
  {
    if a != [] {
      FindAbsent(a[1..], delim);
    }
  }

  /** A field free of the delimiter and followed by it is read whole, and the
      stream is left just after the delimiter. */
  lemma GetLinePrefix(a: string, b: string, buf: string, delim: char)
    requires FreeOf(a, delim)
    ensures GetLine(Open(a + [delim] + b), buf, delim) == Read(Open(b), a)
  {
    FindPrefix(a, b, delim);
    var s := a + [delim] + b;
    assert s[..|a|] == a && s[|a| + 1..] == b;
  }

  /** Text without the delimiter is read whole, and the stream ends. */
  lemma GetLineAbsent(a: string, buf: string, delim: char)
    requires FreeOf(a, delim)
    ensures GetLine(Open(a), buf, delim) == Read(Stream([], false), a)
  {
    FindAbsent(a, delim);
  }

  /** A string stream over the fields `fs[k..]` joined by `delim`; once
      every field has been read, an exhausted stream. */
  function Rest(fs: seq<string>, k: nat, delim: char): Stream {
    if k < |fs| then Open(Join(fs[k..], delim)) else Stream([], false)
  }

  lemma RestStart(fs: seq<string>, delim: char)
    requires fs != []
    ensures Rest(fs, 0, delim) == Open(Join(fs, delim))
  {
    assert fs[0..] == fs;
  }

  /** Reading joined fields back with `getline` yields them in order: each read
      returns field `k` and leaves the stream at field `k + 1`, and the last read
      ends the stream.  A stale buffer never shows through. */
  lemma {:induction false} GetLineJoin(fs: seq<string>, k: nat, buf: string, delim: char)
    requires k < |fs| && FreeOf(fs[k], delim)
    ensures GetLine(Rest(fs, k, delim), buf, delim) == Read(Rest(fs, k + 1, delim), fs[k])
  {
    var t := fs[k..];
    if k + 1 < |fs| {
      assert t[1..] == fs[k + 1..];
      GetLinePrefix(fs[k], Join(t[1..], delim), buf, delim);
    } else {
      assert Join(t, delim) == fs[k];
      GetLineAbsent(fs[k], buf, delim);
    }
  }

  /** Streams `ss[i]` from which `getline` reads, whatever the buffer held,
      the field `ts[i]`, leaving `ss[i + 1]`. */
  ghost predicate Supplies(ss: seq<Stream>, ts: seq<string>, delim: char) {
    && |ss| == |ts| + 1
    && forall i, buf: string :: 0 <= i < |ts| ==> GetLine(ss[i], buf, delim) == Read(ss[i + 1], ts[i])
  }

  /** The streams joined fields pass through as they are read. */
  function Cursors(ts: seq<string>, delim: char): (ss: seq<Stream>)
    ensures |ss| == |ts| + 1
  {
    seq(|ts| + 1, i requires 0 <= i <= |ts| => Rest(ts, i, delim))
  }

  lemma CursorsSupply(ts: seq<string>, delim: char)
    requires forall i :: 0 <= i < |ts| ==> FreeOf(ts[i], delim)
    ensures Supplies(Cursors(ts, delim), ts, delim)
  {
    forall i, buf: string | 0 <= i < |ts|
      ensures GetLine(Cursors(ts, delim)[i], buf, delim) == Read(Cursors(ts, delim)[i + 1], ts[i])
    {
      GetLineJoin(ts, i, buf, delim);
    }
  }

  // ---------------------------------------------------------------------
  // Runs of reads into string buffers

  /** Where one read of a run goes: string buffer number `k`, or nowhere --
      `ignore(numeric_limits<streamsize>::max(), delim)`, which moves the
      stream as `getline` does and keeps nothing. */
  datatype Target = Into(k: nat) | Skip

  function Get(bufs: seq<string>, t: Target): string {
    if t.Into? && t.k < |bufs| then bufs[t.k] else []
  }

  function Set(bufs: seq<string>, t: Target, v: string): seq<string> {
    if t.Into? && t.k < |bufs| then bufs[t.k := v] else bufs
  }

  /** The texts a run of reads leaves, one per read, and the stream after
      them. */
  datatype Reads = Reads(texts: seq<string>, stream: Stream)

  /** The reads `script` makes from `s`, each into its buffer: a read that
      finds the stream failed leaves what the buffer held. */
  function ReadFields(s: Stream, bufs: seq<string>, script: seq<Target>, delim: char): (r: Reads)
    ensures |r.texts| == |script|
    decreases |script|
  {
    if |script| == 0 then Reads([], s)
    else
      var r := GetLine(s, Get(bufs, script[0]), delim);
      var rest := ReadFields(r.stream, Set(bufs, script[0], r.field), script[1..], delim);
      Reads([r.field] + rest.texts, rest.stream)
  }

  /** Reads from streams that supply fields deliver the fields, whatever the
      buffers held. */
  lemma {:induction false} ReadFieldsJoin(ss: seq<Stream>, ts: seq<string>, k: nat, bufs: seq<string>,
                                          script: seq<Target>, delim: char)
    requires Supplies(ss, ts, delim) && k + |script| <= |ts|
    ensures ReadFields(ss[k], bufs, script, delim) == Reads(ts[k..k + |script|], ss[k + |script|])
    decreases |script|
  {
    hide GetLine, Get, Set;
    if |script| > 0 {
      var r := GetLine(ss[k], Get(bufs, script[0]), delim);
      assert r == Read(ss[k + 1], ts[k]);
      ReadFieldsJoin(ss, ts, k + 1, Set(bufs, script[0], r.field), script[1..], delim);
      SliceCons(ts, k, k + |script|);
    }
  }

  lemma SliceCons<T>(s: seq<T>, i: nat, j: nat)
    requires i < j <= |s|
    ensures s[i..j] == [s[i]] + s[i + 1..j]
  {
  }

  /** Every read from a failed stream leaves its buffer as it was. */
  lemma {:induction false} ReadFieldsFailed(bufs: seq<string>, script: seq<Target>, delim: char)
    ensures forall i :: 0 <= i < |script| ==>
      ReadFields(Stream([], false), bufs, script, delim).texts[i] == Get(bufs, script[i])
    ensures ReadFields(Stream([], false), bufs, script, delim).stream == Stream([], false)
    decreases |script|
  {
    if |script| > 0 {
      GetLineFailed(Get(bufs, script[0]), delim);
      var r := GetLine(Stream([], false), Get(bufs, script[0]), delim);
      assert Set(bufs, script[0], r.field) == bufs;
      ReadFieldsFailed(bufs, script[1..], delim);
    }
  }

  /** The first read of an empty text empties its buffer and fails the
      stream; the reads after it leave their buffers as they were. */
  lemma EmptyLineReads(bufs: seq<string>, script: seq<Target>, delim: char)
    requires |script| > 0
    ensures forall i :: 1 <= i < |script| ==>
      ReadFields(Open([]), bufs, script, delim).texts[i] == Get(Set(bufs, script[0], []), script[i])
  {
    hide GetLine;
    var b := Set(bufs, script[0], []);
    GetLineAbsent([], Get(bufs, script[0]), delim);
    ReadFieldsFailed(b, script[1..], delim);
    var t := ReadFields(Stream([], false), b, script[1..], delim);
    assert ReadFields(Open([]), bufs, script, delim).texts == [[]] + t.texts;
  }

  /** Fields free of a character other than the separator join into text
      free of it. */
  lemma {:induction false} JoinFreeOf(fs: seq<string>, delim: char, c: char)
    requires c != delim
    requires forall i :: 0 <= i < |fs| ==> FreeOf(fs[i], c)
    ensures FreeOf(Join(fs, delim), c)
  {
    if |fs| > 1 {
      JoinFreeOf(fs[1..], delim, c);
      var t := Join(fs[1..], delim);
      forall i | 0 <= i < |fs[0] + [delim] + t| ensures (fs[0] + [delim] + t)[i] != c {
        if i > |fs[0]| {
          assert (fs[0] + [delim] + t)[i] == t[i - |fs[0]| - 1];
        }
      }
    }
  }

  /** Reading any field from an exhausted stream keeps the stale buffer. */
  lemma GetLineFailed(buf: string, delim: char)
    ensures GetLine(Stream([], false), buf, delim) == Read(Stream([], false), buf)
  {
  }

  // ---------------------------------------------------------------------
  // Decimal numbers

  /** `isspace` in the C locale: space, tab, newline, vertical tab, form feed,
      carriage return. */
  predicate IsSpace(c: char) {
    c == ' ' || ('\t' <= c <= '\r')
  }

  predicate IsDigit(c: char) {
    '0' <= c <= '9'
  }

  predicate AllDigits(s: string) {
    forall i :: 0 <= i < |s| ==> IsDigit(s[i])
  }

  function DigitValue(c: char): nat
    requires IsDigit(c)
  {
    c as int - '0' as int
  }

  function DigitChar(d: nat): (c: char)
    requires d < 10
    ensures IsDigit(c) && DigitValue(c) == d
  {
    ('0' as int + d) as char
  }

  /** The value of a string of decimal digits. */
  function DigitsValue(s: string): nat
    requires AllDigits(s)
  {
    if |s| == 0 then 0 else DigitsValue(s[..|s| - 1]) * 10 + DigitValue(s[|s| - 1])
  }

  /** Number of leading decimal digits. */
  function DigitRun(s: string): (n: nat)
    ensures n <= |s|
  {
    if |s| > 0 && IsDigit(s[0]) then 1 + DigitRun(s[1..]) else 0
  }

  /** The leading run is made of digits and ends at a non-digit or the end. */
  lemma {:induction false} DigitRunDigits(s: string)
    ensures AllDigits(s[..DigitRun(s)])
    ensures DigitRun(s) < |s| ==> !IsDigit(s[DigitRun(s)])
  {
    if |s| > 0 && IsDigit(s[0]) {
      DigitRunDigits(s[1..]);
      var n := DigitRun(s);
      assert s[..n] == [s[0]] + s[1..][..n - 1];
    }
  }

  function SkipSpace(s: string): (t: string)
    ensures |t| <= |s|
  {
    if |s| > 0 && IsSpace(s[0]) then SkipSpace(s[1..]) else s
  }

  /** What `strtol`/`strtoul` read in base 10: leading white space, an
      optional sign, and then as many digits as follow.  Without a digit there
      is no conversion. */
  function ReadInteger(s: string): Option<int> {
    var t := SkipSpace(s);
    var signed := |t| > 0 && (t[0] == '-' || t[0] == '+');
    var u := if signed then t[1..] else t;
    var n := DigitRun(u);
    if n == 0 then None
    else
      DigitRunDigits(u);
      var v: int := DigitsValue(u[..n]);
      Some(if signed && t[0] == '-' then -v else v)
  }

  const ULongMax: int := 0xFFFF_FFFF_FFFF_FFFF
  const LongMin: int := -0x8000_0000_0000_0000
  const LongMax: int := 0x7FFF_FFFF_FFFF_FFFF

  /** `std::stoul(s)`: the value read, whose magnitude must fit an unsigned
      long; `None` stands for the `invalid_argument` or `out_of_range`
      exception.  A leading minus is kept in the value: the caller reduces it
      modulo the width it stores. */
  function Stoul(s: string): Option<int> {
    match ReadInteger(s)
    case None => None
    case Some(v) => if -ULongMax <= v <= ULongMax then Some(v) else None
  }

  /** `std::stol(s)`: the value read, which must fit a signed long. */
  function Stol(s: string): Option<int> {
    match ReadInteger(s)
    case None => None
    case Some(v) => if LongMin <= v <= LongMax then Some(v) else None
  }

  /** The decimal text of `n`, most significant digit first. */
  function ShowNat(n: nat): string
    decreases n
  {
    if n < 10 then [DigitChar(n)] else ShowNat(n / 10) + [DigitChar(n % 10)]
  }

  lemma {:induction false} ShowNatDigits(n: nat)
    ensures ShowNat(n) != [] && AllDigits(ShowNat(n))
    ensures DigitsValue(ShowNat(n)) == n
    decreases n
  {
    if n >= 10 {
      ShowNatDigits(n / 10);
      var s := ShowNat(n);
      assert s[..|s| - 1] == ShowNat(n / 10);
    }
  }

  /** A number written in decimal and followed by anything but a digit reads
      back as itself. */
  lemma ReadIntegerShow(n: nat, rest: string)
    requires rest == [] || !IsDigit(rest[0])
    ensures ReadInteger(ShowNat(n) + rest) == Some(n)
  {
    ShowNatDigits(n);
    var d := ShowNat(n);
    var s := d + rest;
    assert s[0] == d[0] && IsDigit(s[0]);
    assert SkipSpace(s) == s;
    DigitRunPrefix(d, rest);
    assert s[..|d|] == d;
  }

  lemma {:induction false} DigitRunPrefix(d: string, rest: string)
    requires AllDigits(d) && (rest == [] || !IsDigit(rest[0]))
    ensures DigitRun(d + rest) == |d|
  {
    if d != [] {
      assert (d + rest)[1..] == d[1..] + rest;
      DigitRunPrefix(d[1..], rest);
    } else {
      assert d + rest == rest;
    }
  }

  /** The decimal text of a number holds no separator. */
  lemma ShowNatFreeOf(n: nat, c: char)
    requires !IsDigit(c)
    ensures FreeOf(ShowNat(n), c)
  {
    ShowNatDigits(n);
  }

  /** `stoul` and `stol` read back every value they can hold. */
  lemma StoulShow(n: nat)
    requires n <= ULongMax
    ensures Stoul(ShowNat(n)) == Some(n)
  {
    ReadIntegerShow(n, []);
    assert ShowNat(n) + [] == ShowNat(n);
  }

  lemma StolShow(n: nat)
    requires n <= LongMax
    ensures Stol(ShowNat(n)) == Some(n)
  {
    ReadIntegerShow(n, []);
    assert ShowNat(n) + [] == ShowNat(n);
  }

  /** Text without any digit after its sign is rejected. */
  lemma StoulEmpty()
    ensures Stoul([]) == None && Stol([]) == None
  {
  }
}

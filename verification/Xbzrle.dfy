/**
 The XBZRLE delta codec of qemu/xbzrle.c: a page is sent as runs of bytes that
 did not change, skipped, and runs of bytes that did, spelled out.  Decoding onto
 the old page gives the new page.
 */
module Xbzrle {
  import opened Basics
  import opened Words

  // ---------- uleb128, small numbers ----------

  /** `uleb128_encode_small` */
  function Uleb(n: nat): (r: seq<byte>)
    requires n <= 0x3FFF
    ensures 1 <= |r| <= 2
  {
    if n < 0x80 then [n] else [n % 128 + 128, n / 128]
  }

  /** `uleb128_decode_small` on at least two bytes: the number and how many bytes it took. */
  function UnUleb(src: seq<byte>): (r: Option<(nat, nat)>)
    requires |src| >= 2
    ensures r.Some? ==> 1 <= r.value.1 <= 2
  {
    if src[0] < 128 then Some((src[0], 1))
    else if src[1] >= 128 then None
    else Some(((src[0] as int) % 128 + 128 * (src[1] as int), 2))
  }

  lemma UlebRoundTrip(n: nat, rest: seq<byte>)
    requires n <= 0x3FFF && |Uleb(n) + rest| >= 2
    ensures UnUleb(Uleb(n) + rest) == Some((n, |Uleb(n)|))
  {
  }

  // ---------- Decoding ----------

  /** `memcpy(dst + d, from, |from|)` */
  function Overwrite(dst: seq<byte>, d: nat, from: seq<byte>): (r: seq<byte>)
    requires d + |from| <= |dst|
    ensures |r| == |dst|
  {
    dst[..d] + from + dst[d + |from|..]
  }

  /** One zero run and one non-zero run off the front of the encoding. */
  datatype Pair = Pair(skip: nat, data: seq<byte>, rest: seq<byte>)

  /** The checks of one turn of `xbzrle_decode_buffer`; `first` is true at the start of the encoding. */
  function NextPair(src: seq<byte>, first: bool, d: nat, dlen: nat): (r: Option<Pair>)
    ensures r.Some? ==> |r.value.rest| < |src| && d + r.value.skip + |r.value.data| <= dlen
  {
    if |src| < 2 || UnUleb(src).None? then None
    else
      var (skip, n) := UnUleb(src).value;
      var s1 := src[n..];
      if (!first && skip == 0) || d + skip > dlen || |s1| < 2 || UnUleb(s1).None? then None
      else
        var (count, m) := UnUleb(s1).value;
        var s2 := s1[m..];
        if count == 0 || d + skip + count > dlen || count > |s2| then None
        else Some(Pair(skip, s2[..count], s2[count..]))
  }

  /** Decode onto dst from position d: the new buffer and the position after the last run. */
  function Decode(src: seq<byte>, first: bool, dst: seq<byte>, d: nat): (r: Option<(seq<byte>, nat)>)
    ensures r.Some? ==> |r.value.0| == |dst|
    decreases |src|
  {
    if src == [] then Some((dst, d))
    else
      var p := NextPair(src, first, d, |dst|);
      if p.None? then None
      else
        var at := d + p.value.skip;
        Decode(p.value.rest, false, Overwrite(dst, at, p.value.data), at + |p.value.data|)
  }

  method WriteRun(page: array<byte>, at: nat, data: seq<byte>)
    requires at + |data| <= page.Length
    modifies page
    ensures page[..] == Overwrite(old(page[..]), at, data)
  {
    forall k | 0 <= k < |data| {
      page[at + k] := data[k];
    }
  }

  /** `xbzrle_decode_buffer` in place on a page. */
  method DecodeBuffer(src: seq<byte>, page: array<byte>) returns (ret: int)
    modifies page
    ensures var r := Decode(src, true, old(page[..]), 0);
            if ret < 0 then r.None? else r == Some((page[..], ret))
  {
    hide NextPair, Overwrite;
    var i, d: nat := 0, 0;
    ghost var page0 := page[..];
    assert src[0..] == src;
    while i < |src|
      invariant 0 <= i <= |src|
      invariant Decode(src, true, page0, 0) == Decode(src[i..], i == 0, page[..], d)
      decreases |src| - i
    {
      assert src[i..] != [];
      var p := NextPair(src[i..], i == 0, d, page.Length);
      if p.None? {
        return -1;
      }
      WriteRun(page, d + p.value.skip, p.value.data);
      PairRest(src[i..], i == 0, d, page.Length);
      d := d + p.value.skip + |p.value.data|;
      i := |src| - |p.value.rest|;
      assert src[i..] == p.value.rest;
    }
    assert src[i..] == [];
    ret := d;
  }

  lemma PairRest(src: seq<byte>, first: bool, d: nat, dlen: nat)
    requires NextPair(src, first, d, dlen).Some?
    ensures var rest := NextPair(src, first, d, dlen).value.rest; rest == src[|src| - |rest|..]
  {
  }

  /** A first run is read the same whatever follows it. */
  lemma NextPairAppend(x: seq<byte>, y: seq<byte>, first: bool, d: nat, dlen: nat)
    requires NextPair(x, first, d, dlen).Some?
    ensures var p := NextPair(x, first, d, dlen).value;
            NextPair(x + y, first, d, dlen) == Some(Pair(p.skip, p.data, p.rest + y))
  {
    hide UnUleb;
    var (skip, n) := UnUleb(x).value;
    UnUlebAppend(x, y);
    var x1 := x[n..];
    assert (x + y)[n..] == x1 + y;
    UnUlebAppend(x1, y);
    var (count, m) := UnUleb(x1).value;
    var x2 := x1[m..];
    assert (x1 + y)[m..] == x2 + y;
    assert (x2 + y)[..count] == x2[..count] && (x2 + y)[count..] == x2[count..] + y;
  }

  lemma UnUlebAppend(x: seq<byte>, y: seq<byte>)
    requires |x| >= 2
    ensures UnUleb(x + y) == UnUleb(x)
  {
  }

  /** Decoding x and then y is decoding x + y. */
  lemma {:induction false} DecodeAppend(x: seq<byte>, y: seq<byte>, first: bool, dst: seq<byte>, d: nat)
    requires Decode(x, first, dst, d).Some?
    ensures var (dst', d') := Decode(x, first, dst, d).value;
            Decode(x + y, first, dst, d) == Decode(y, first && x == [], dst', d')
    decreases |x|
  {
    hide NextPair, Overwrite;
    if x == [] {
      assert x + y == y;
    } else {
      var p := NextPair(x, first, d, |dst|).value;
      NextPairAppend(x, y, first, d, |dst|);
      assert x + y != [];
      DecodeAppend(p.rest, y, false, Overwrite(dst, d + p.skip, p.data), d + p.skip + |p.data|);
    }
  }

  /** One pair, as the encoder writes it. */
  function PairBytes(skip: nat, data: seq<byte>): seq<byte>
    requires skip <= 0x3FFF && |data| <= 0x3FFF
  {
    Uleb(skip) + Uleb(|data|) + data
  }

  lemma DecodePair(skip: nat, data: seq<byte>, first: bool, dst: seq<byte>, d: nat)
    requires skip <= 0x3FFF && 0 < |data| <= 0x3FFF && d + skip + |data| <= |dst|
    requires first || skip > 0
    ensures Decode(PairBytes(skip, data), first, dst, d) ==
            Some((Overwrite(dst, d + skip, data), d + skip + |data|))
  {
    var src := PairBytes(skip, data);
    assert src == Uleb(skip) + (Uleb(|data|) + data);
    UlebRoundTrip(skip, Uleb(|data|) + data);
    var s1 := src[|Uleb(skip)|..];
    assert s1 == Uleb(|data|) + data;
    UlebRoundTrip(|data|, data);
    var s2 := s1[|Uleb(|data|)|..];
    assert s2 == data && s2[..|data|] == data && s2[|data|..] == [];
    assert NextPair(src, first, d, |dst|) == Some(Pair(skip, data, []));
  }

  // ---------- Encoding ----------

  ghost predicate EqualFrom(a: seq<byte>, b: seq<byte>, i: nat, j: nat)
    requires j <= |a| == |b|
  {
    forall k :: i <= k < j ==> a[k] == b[k]
  }

  ghost predicate DiffFrom(a: seq<byte>, b: seq<byte>, i: nat, j: nat)
    requires j <= |a| == |b|
  {
    forall k :: i <= k < j ==> a[k] != b[k]
  }

  lemma FromNone(a: seq<byte>, b: seq<byte>, i: nat)
    requires i <= |a| == |b|
    ensures EqualFrom(a, b, i, i) && DiffFrom(a, b, i, i)
  {
  }

  lemma FromNext(a: seq<byte>, b: seq<byte>, i: nat, j: nat)
    requires i <= j < |a| == |b|
    ensures EqualFrom(a, b, i, j) && a[j] == b[j] ==> EqualFrom(a, b, i, j + 1)
    ensures DiffFrom(a, b, i, j) && a[j] != b[j] ==> DiffFrom(a, b, i, j + 1)
  {
  }

  lemma FromWord(a: seq<byte>, b: seq<byte>, i: nat, j: nat)
    requires i <= j && j + 8 <= |a| == |b|
    ensures EqualFrom(a, b, i, j) && a[j..j + 8] == b[j..j + 8] ==> EqualFrom(a, b, i, j + 8)
    ensures DiffFrom(a, b, i, j) && !SomeCommon(a, b, j) ==> DiffFrom(a, b, i, j + 8)
  {
    assert forall k :: j <= k < j + 8 ==> a[k] == a[j..j + 8][k - j] && b[k] == b[j..j + 8][k - j];
  }

  /** The bytes left are whole words and some more. */
  function Odd(left: nat): (r: nat)
    ensures r < 8 && r <= left && (r == 0 && left > 0 ==> left >= 8)
  {
    left % 8
  }

  lemma OddLess(left: nat)
    ensures Odd(left) > 0 ==> Odd(left - 1) == Odd(left) - 1
    ensures Odd(left) == 0 && left > 0 ==> Odd(left - 8) == 0
  {
  }

  /** The first position from i on where the buffers differ, or the end. */
  ghost predicate ZeroRunEnds(a: seq<byte>, b: seq<byte>, i: nat, j: nat) {
    && i <= j <= |a| && |a| == |b|
    && EqualFrom(a, b, i, j)
    && (j < |a| ==> a[j] != b[j])
  }

  ghost predicate DiffRunEnds(a: seq<byte>, b: seq<byte>, i: nat, j: nat) {
    && i <= j <= |a| && |a| == |b|
    && DiffFrom(a, b, i, j)
    && (j < |a| ==> a[j] == b[j])
  }

  /** The end of the run of equal, or of different, bytes that starts at i. */
  function RunEnd(a: seq<byte>, b: seq<byte>, i: nat, equal: bool): (j: nat)
    requires i <= |a| == |b|
    ensures i <= j <= |a|
    ensures i < |a| && (a[i] == b[i]) == equal ==> i < j
    decreases |a| - i
  {
    if i < |a| && (a[i] == b[i]) == equal then RunEnd(a, b, i + 1, equal) else i
  }

  /**
   The encoding from i on: pairs of a run that is skipped and a run that is spelled out; a
   last equal run is left out.
   */
  function Runs(a: seq<byte>, b: seq<byte>, i: nat): seq<byte>
    requires i <= |a| == |b| <= 0x3FFF
    decreases |a| - i
  {
    var j := RunEnd(a, b, i, true);
    if j == |a| then []
    else
      var k := RunEnd(a, b, j, false);
      assert a[j] != b[j] by { EqualRunEnds(a, b, i); }
      PairBytes(j - i, b[j..k]) + Runs(a, b, k)
  }

  lemma {:induction false} EqualRunEnds(a: seq<byte>, b: seq<byte>, i: nat)
    requires i <= |a| == |b|
    ensures var j := RunEnd(a, b, i, true); j < |a| ==> a[j] != b[j]
    decreases |a| - i
  {
    if i < |a| && a[i] == b[i] {
      EqualRunEnds(a, b, i + 1);
    }
  }

  lemma {:induction false} EqualRun(a: seq<byte>, b: seq<byte>, i: nat, j: nat)
    requires ZeroRunEnds(a, b, i, j)
    ensures RunEnd(a, b, i, true) == j
    decreases j - i
  {
    if i < j {
      EqualRun(a, b, i + 1, j);
    }
  }

  lemma {:induction false} OtherRun(a: seq<byte>, b: seq<byte>, i: nat, j: nat)
    requires DiffRunEnds(a, b, i, j)
    ensures RunEnd(a, b, i, false) == j
    decreases j - i
  {
    if i < j {
      OtherRun(a, b, i + 1, j);
    }
  }

  /** Scan over equal bytes: singly up to a word boundary, then by words, then the rest. */
  method ZeroRun(a: seq<byte>, b: seq<byte>, i: nat) returns (j: nat)
    requires |a| == |b| && i <= |a|
    ensures ZeroRunEnds(a, b, i, j)
  {
    hide EqualFrom, DiffFrom, SomeCommon, Odd;
    j := i;
    var res := Odd(|a| - j);
    FromNone(a, b, i);
    while res != 0 && a[j] == b[j]
      invariant i <= j <= |a| && res == Odd(|a| - j) && EqualFrom(a, b, i, j)
      decreases res
    {
      FromNext(a, b, i, j);
      OddLess(|a| - j);
      j := j + 1;
      res := res - 1;
    }
    if res == 0 {
      while j < |a| && a[j..j + 8] == b[j..j + 8]
        invariant i <= j <= |a| && Odd(|a| - j) == 0 && EqualFrom(a, b, i, j)
        decreases |a| - j
      {
        FromWord(a, b, i, j);
        OddLess(|a| - j);
        j := j + 8;
      }
      while j < |a| && a[j] == b[j]
        invariant i <= j <= |a| && EqualFrom(a, b, i, j)
        decreases |a| - j
      {
        FromNext(a, b, i, j);
        j := j + 1;
      }
    }
  }

  /** Scan over different bytes, by words where possible. */
  method DiffRun(a: seq<byte>, b: seq<byte>, i: nat) returns (j: nat)
    requires |a| == |b| && i <= |a|
    ensures DiffRunEnds(a, b, i, j)
  {
    hide EqualFrom, DiffFrom, HasZero, Xor64, WordAt, Odd;
    j := i;
    var res := Odd(|a| - j);
    FromNone(a, b, i);
    while res != 0 && a[j] != b[j]
      invariant i <= j <= |a| && res == Odd(|a| - j) && DiffFrom(a, b, i, j)
      decreases res
    {
      FromNext(a, b, i, j);
      OddLess(|a| - j);
      j := j + 1;
      res := res - 1;
    }
    if res == 0 {
      while j < |a|
        invariant i <= j <= |a| && Odd(|a| - j) == 0 && DiffFrom(a, b, i, j)
        decreases |a| - j
      {
        WordsMeet(a, b, j);
        if HasZero(Xor64(WordAt(a, j), WordAt(b, j))) {
          ghost var end :| j <= end < j + 8 && a[end] == b[end];
          while a[j] != b[j]
            invariant i <= j <= end && DiffFrom(a, b, i, j)
            decreases end - j
          {
            FromNext(a, b, i, j);
            j := j + 1;
          }
          return;
        } else {
          FromWord(a, b, i, j);
          OddLess(|a| - j);
          j := j + 8;
        }
      }
    }
  }

  /** The encoding so far turns the old page into the new one up to i. */
  ghost predicate Encodes(out: seq<byte>, a: seq<byte>, b: seq<byte>, i: nat) {
    && |a| == |b| && i <= |a|
    && (out == [] <==> i == 0)
    && Decode(out, true, a, 0) == Some((b[..i] + a[i..], i))
  }

  /** One more pair: bytes i to j unchanged, bytes j to k spelled out. */
  lemma EncodesMore(out: seq<byte>, a: seq<byte>, b: seq<byte>, i: nat, j: nat, k: nat)
    requires Encodes(out, a, b, i) && |a| <= 0x3FFF && i <= j < k <= |a|
    requires EqualFrom(a, b, i, j) && (i == 0 || i < j)
    ensures Encodes(out + PairBytes(j - i, b[j..k]), a, b, k)
  {
    hide Decode, PairBytes, Overwrite;
    var dst := b[..i] + a[i..];
    DecodePair(j - i, b[j..k], out == [], dst, i);
    DecodeAppend(out, PairBytes(j - i, b[j..k]), true, a, 0);
    Spliced(a, b, i, j, k);
    PairNotEmpty(j - i, b[j..k]);
  }

  lemma Spliced(a: seq<byte>, b: seq<byte>, i: nat, j: nat, k: nat)
    requires |a| == |b| && i <= j <= k <= |a| && EqualFrom(a, b, i, j)
    ensures Overwrite(b[..i] + a[i..], j, b[j..k]) == b[..k] + a[k..]
  {
  }

  lemma PairNotEmpty(skip: nat, data: seq<byte>)
    requires skip <= 0x3FFF && |data| <= 0x3FFF
    ensures PairBytes(skip, data) != []
  {
  }

  /** Nothing differs from i on: the encoding is complete. */
  lemma EncodesAll(out: seq<byte>, a: seq<byte>, b: seq<byte>, i: nat)
    requires Encodes(out, a, b, i) && EqualFrom(a, b, i, |a|)
    ensures Decode(out, true, a, 0) == Some((b, i))
  {
    assert b[..i] + a[i..] == b;
  }

  /**
   `xbzrle_encode_buffer`: the encoding by runs, 0 for an unchanged page, and -1
   only when fewer than two bytes would be left behind the encoding.
   */
  method EncodeBuffer(a: seq<byte>, b: seq<byte>, dlen: nat) returns (ret: int, out: seq<byte>)
    requires |a| == |b| <= 0x3FFF && |a| % 8 == 0
    ensures ret >= -1
    ensures ret >= 0 ==> ret == |out| <= dlen && out == Runs(a, b, 0)
    ensures ret == -1 ==> |Runs(a, b, 0)| + 2 > dlen
    ensures (ret == 0 ==> a == b) && (a == b && dlen >= 2 ==> ret == 0)
    ensures ret > 0 ==> exists d :: Decode(out, true, a, 0) == Some((b, d))
  {
    hide Decode, PairBytes, Runs, RunEnd, Uleb, EqualFrom, DiffRunEnds, Encodes;
    var i: nat := 0;
    out := [];
    EncodesNothing(a, b);
    while i < |a|
      invariant i <= |a| && Encodes(out, a, b, i) && (i == 0 || i == |a| || a[i] == b[i])
      invariant i > 0 ==> a != b && 0 < |out| <= dlen
      invariant out + Runs(a, b, i) == Runs(a, b, 0)
      decreases |a| - i
    {
      if |out| + 2 > dlen {
        return -1, out;
      }
      var j := ZeroRun(a, b, i);
      if j - i == |a| {
        AllEqual(a, b);
        RunsLast(a, b, i);
        return 0, out;
      }
      if j == |a| {
        EncodesAll(out, a, b, i);
        RunsLast(a, b, i);
        return |out|, out;
      }
      var head := out + Uleb(j - i);
      if |head| + 2 > dlen {
        RunsHead(a, b, i, j);
        return -1, out;
      }
      var k := DiffRun(a, b, j);
      RunsStep(out, a, b, i, j, k, Runs(a, b, 0));
      head := head + Uleb(k - j);
      if |head| + (k - j) > dlen {
        return -1, out;
      }
      EncodesMore(out, a, b, i, j, k);
      out := head + b[j..k];
      i := k;
    }
    EncodesAll(out, a, b, i);
    RunsLast(a, b, i);
    return |out|, out;
  }

  lemma RunsNext(a: seq<byte>, b: seq<byte>, i: nat, j: nat, k: nat)
    requires |a| <= 0x3FFF && ZeroRunEnds(a, b, i, j) && j < |a| && DiffRunEnds(a, b, j, k)
    ensures Runs(a, b, i) == PairBytes(j - i, b[j..k]) + Runs(a, b, k)
  {
    hide PairBytes;
    EqualRun(a, b, i, j);
    OtherRun(a, b, j, k);
  }

  /** One more pair of the encoding. */
  lemma RunsStep(out: seq<byte>, a: seq<byte>, b: seq<byte>, i: nat, j: nat, k: nat, all: seq<byte>)
    requires |a| <= 0x3FFF && ZeroRunEnds(a, b, i, j) && j < |a| && DiffRunEnds(a, b, j, k)
    requires out + Runs(a, b, i) == all
    ensures j < k <= |a| && (k < |a| ==> a[k] == b[k])
    ensures out + Uleb(j - i) + Uleb(k - j) + b[j..k] == out + PairBytes(j - i, b[j..k])
    ensures out + PairBytes(j - i, b[j..k]) + Runs(a, b, k) == all
  {
    hide Runs;
    RunsNext(a, b, i, j, k);
    PairLength(out, j - i, b[j..k]);
  }

  lemma AllEqual(a: seq<byte>, b: seq<byte>)
    requires |a| == |b| && EqualFrom(a, b, 0, |a|)
    ensures a == b
  {
  }

  lemma RunsHead(a: seq<byte>, b: seq<byte>, i: nat, j: nat)
    requires |a| <= 0x3FFF && ZeroRunEnds(a, b, i, j) && j < |a|
    ensures |Runs(a, b, i)| >= |Uleb(j - i)|
  {
    hide Uleb;
    EqualRun(a, b, i, j);
  }

  lemma RunsLast(a: seq<byte>, b: seq<byte>, i: nat)
    requires i <= |a| == |b| <= 0x3FFF && EqualFrom(a, b, i, |a|)
    ensures Runs(a, b, i) == []
  {
    EqualRun(a, b, i, |a|);
  }

  lemma EncodesNothing(a: seq<byte>, b: seq<byte>)
    requires |a| == |b|
    ensures Encodes([], a, b, 0)
  {
    assert b[..0] + a[0..] == a;
  }

  lemma PairLength(out: seq<byte>, skip: nat, data: seq<byte>)
    requires skip <= 0x3FFF && |data| <= 0x3FFF
    ensures out + Uleb(skip) + Uleb(|data|) + data == out + PairBytes(skip, data)
  {
  }
}

/** Bytes, the little-endian 32-bit words of the wire format, and a few facts about sequences. */
module Bytes {

  type Byte = b: int | 0 <= b < 256
  type ByteString = seq<Byte>

  /** A read that delivers data delivers at least one byte. */
  type Pos = n: nat | 1 <= n witness 1

  const U16: nat := 0x1_0000
  const U32: nat := 0x1_0000_0000

  function Min(a: nat, b: nat): nat {
    if a <= b then a else b
  }

  // ---------- 32-bit little-endian words ----------

  /** The memory image of a uint32_t on the little-endian hosts the program runs on; struct.pack("<I"). */
  function LE32(v: nat): (w: ByteString)
    requires v < U32
    ensures |w| == 4
  {
    [v % 256, v / 256 % 256, v / 256 / 256 % 256, v / 256 / 256 / 256]
  }

  function FromLE32(w: ByteString): (v: nat)
    requires |w| == 4
    ensures v < U32
  {
    var b0: int, b1: int, b2: int, b3: int := w[0], w[1], w[2], w[3];
    b0 + 256 * (b1 + 256 * (b2 + 256 * b3))
  }

  lemma LE32RoundTrip(v: nat)
    requires v < U32
    ensures FromLE32(LE32(v)) == v
    ensures LE32(v)[0] == v % 256 && LE32(v)[1] == v / 256 % 256
    ensures LE32(v)[2] == v / 65536 % 256 && LE32(v)[3] == v / 16777216
  {
    var v1 := v / 256;
    var v2 := v1 / 256;
    assert v == 256 * v1 + v % 256;
    assert v1 == 256 * v2 + v1 % 256;
    assert v2 == 256 * (v2 / 256) + v2 % 256;
  }

  /** The other direction: every four bytes are the image of exactly one word. */
  lemma LE32Onto(w: ByteString)
    requires |w| == 4
    ensures LE32(FromLE32(w)) == w
  {
    var b0: int, b1: int, b2: int, b3: int := w[0], w[1], w[2], w[3];
    var h2 := b2 + 256 * b3;
    var h1 := b1 + 256 * h2;
    var v := b0 + 256 * h1;
    assert v / 256 == h1 && v % 256 == b0;
    assert h1 / 256 == h2 && h1 % 256 == b1;
    assert h2 / 256 == b3 && h2 % 256 == b2;
  }

  // ---------- Sequences ----------

  lemma Assoc<T>(a: seq<T>, b: seq<T>, c: seq<T>)
    ensures (a + b) + c == a + (b + c)
  {
  }

  lemma Nil<T>(a: seq<T>)
    ensures a + [] == a && [] + a == a
  {
  }

  lemma Prefix<T>(a: seq<T>, b: seq<T>)
    ensures a <= a + b
  {
  }

  /** Taking the next k elements off what is left of f. */
  lemma Cut<T>(f: seq<T>, n: nat, k: nat)
    requires n + k <= |f|
    ensures f[n..][..k] == f[n..n + k] && f[..n] + f[n..][..k] == f[..n + k] && f[n..][k..] == f[n + k..]
  {
  }

  // ---------- Subsequences ----------

  ghost predicate StrictlyIncreasing(xs: seq<nat>) {
    forall i, j :: 0 <= i < j < |xs| ==> xs[i] < xs[j]
  }

  /** idx embeds sub into full, keeping the order and using no position twice. */
  ghost predicate Embeds<T>(idx: seq<nat>, sub: seq<T>, full: seq<T>) {
    && |idx| == |sub|
    && StrictlyIncreasing(idx)
    && forall j :: 0 <= j < |idx| ==> idx[j] < |full| && sub[j] == full[idx[j]]
  }

  ghost predicate IsSubsequence<T(!new)>(sub: seq<T>, full: seq<T>) {
    exists idx: seq<nat> :: Embeds(idx, sub, full)
  }

  /** Strictly increasing numbers that all lie in lo..hi number at most hi - lo + 1. */
  lemma {:induction false} IncreasingFit(xs: seq<nat>, lo: nat, hi: int)
    requires StrictlyIncreasing(xs)
    requires forall i :: 0 <= i < |xs| ==> lo <= xs[i] <= hi
    ensures |xs| == 0 || lo + |xs| - 1 <= xs[|xs| - 1] <= hi
  {
    if |xs| > 1 {
      assert xs[0] < xs[|xs| - 1];
      IncreasingFit(xs[..|xs| - 1], lo, xs[|xs| - 1] - 1);
    }
  }
}

/**
 Bytes, the bits of a byte and little-endian words, as the kernel reads and
 writes them in bitmaps, page tables and disk blocks.
 */
module Bytes {

  type Byte = x: int | 0 <= x < 256

  /** `b & (1 << k)` is non-zero. */
  predicate Bit(b: nat, k: nat) {
    if k == 0 then b % 2 == 1 else Bit(b / 2, k - 1)
  }

  /** `b | (1 << k)` */
  function SetBit(b: nat, k: nat): nat {
    if k == 0 then b - b % 2 + 1 else b % 2 + 2 * SetBit(b / 2, k - 1)
  }

  /** `b & ~(1 << k)` */
  function ClearBit(b: nat, k: nat): nat {
    if k == 0 then b - b % 2 else b % 2 + 2 * ClearBit(b / 2, k - 1)
  }

  function Pow2(n: nat): (p: nat)
    ensures p > 0
  {
    if n == 0 then 1 else 2 * Pow2(n - 1)
  }

  lemma Half(r: nat, q: nat)
    requires r < 2
    ensures (r + 2 * q) / 2 == q && (r + 2 * q) % 2 == r
  {
  }

  /** Setting a bit sets that bit and no other. */
  lemma {:induction false} SetBitBits(b: nat, k: nat, j: nat)
    ensures Bit(SetBit(b, k), j) <==> j == k || Bit(b, j)
    decreases k
  {
    if k == 0 {
      Half(1, b / 2);
    } else {
      Half(b % 2, SetBit(b / 2, k - 1));
      if j > 0 { SetBitBits(b / 2, k - 1, j - 1); }
    }
  }

  /** Clearing a bit clears that bit and no other. */
  lemma {:induction false} ClearBitBits(b: nat, k: nat, j: nat)
    ensures Bit(ClearBit(b, k), j) <==> j != k && Bit(b, j)
    decreases k
  {
    if k == 0 {
      Half(0, b / 2);
    } else {
      Half(b % 2, ClearBit(b / 2, k - 1));
      if j > 0 { ClearBitBits(b / 2, k - 1, j - 1); }
    }
  }

  lemma {:induction false} BitOpsInRange(b: nat, k: nat, n: nat)
    requires b < Pow2(n) && k < n
    ensures SetBit(b, k) < Pow2(n) && ClearBit(b, k) < Pow2(n)
    decreases k
  {
    if k > 0 { BitOpsInRange(b / 2, k - 1, n - 1); }
  }

  /** A byte with every bit set is 255. */
  lemma FullByte(k: nat)
    requires k < 8
    ensures Bit(255, k)
  {
    assert Pow2(8) == 256;
    OnesHaveAllBits(8, k);
  }

  lemma {:induction false} OnesHaveAllBits(n: nat, k: nat)
    requires k < n
    ensures Bit(Pow2(n) - 1, k)
  {
    if k > 0 {
      OnesHaveAllBits(n - 1, k - 1);
      assert (Pow2(n) - 1) / 2 == Pow2(n - 1) - 1;
    }
  }

  /** Bit `i` of a bitmap stored eight bits to the byte; bits past the end read as clear. */
  predicate BitAt(bm: seq<Byte>, i: nat) {
    i / 8 < |bm| && Bit(bm[i / 8], i % 8)
  }

  function WithBit(bm: seq<Byte>, i: nat): (r: seq<Byte>)
    requires i / 8 < |bm|
    ensures |r| == |bm|
    ensures forall j: nat :: BitAt(r, j) <==> j == i || BitAt(bm, j)
  {
    assert Pow2(8) == 256;
    BitOpsInRange(bm[i / 8], i % 8, 8);
    var r := bm[i / 8 := SetBit(bm[i / 8], i % 8)];
    assert forall j: nat :: BitAt(r, j) <==> j == i || BitAt(bm, j) by {
      forall j: nat ensures BitAt(r, j) <==> j == i || BitAt(bm, j) {
        SetBitBits(bm[i / 8], i % 8, j % 8);
      }
    }
    r
  }

  function WithoutBit(bm: seq<Byte>, i: nat): (r: seq<Byte>)
    requires i / 8 < |bm|
    ensures |r| == |bm|
    ensures forall j: nat :: BitAt(r, j) <==> j != i && BitAt(bm, j)
  {
    assert Pow2(8) == 256;
    BitOpsInRange(bm[i / 8], i % 8, 8);
    var r := bm[i / 8 := ClearBit(bm[i / 8], i % 8)];
    assert forall j: nat :: BitAt(r, j) <==> j != i && BitAt(bm, j) by {
      forall j: nat ensures BitAt(r, j) <==> j != i && BitAt(bm, j) {
        ClearBitBits(bm[i / 8], i % 8, j % 8);
      }
    }
    r
  }

  /** The number of clear bits among the first `n`. */
  function ClearBits(bm: seq<Byte>, n: nat): (c: nat)
    ensures c <= n
  {
    if n == 0 then 0 else ClearBits(bm, n - 1) + if BitAt(bm, n - 1) then 0 else 1
  }

  /** A map that differs only by having `lo..hi` set, all clear before, has exactly `hi - lo` fewer clear bits. */
  lemma {:induction false} ClearBitsAfterMarking(bm: seq<Byte>, bm': seq<Byte>, lo: nat, hi: nat, n: nat)
    requires lo <= hi
    requires forall j: nat :: lo <= j < hi ==> !BitAt(bm, j)
    requires forall j: nat :: BitAt(bm', j) <==> lo <= j < hi || BitAt(bm, j)
    ensures ClearBits(bm, n) == ClearBits(bm', n) + if n <= lo then 0 else if n <= hi then n - lo else hi - lo
  {
    if n > 0 {
      ClearBitsAfterMarking(bm, bm', lo, hi, n - 1);
    }
  }

  /** There is a clear bit below `n` exactly when the count is positive. */
  lemma {:induction false} ClearBitsPositive(bm: seq<Byte>, n: nat)
    ensures ClearBits(bm, n) > 0 <==> exists j: nat :: j < n && !BitAt(bm, j)
  {
    if n > 0 {
      ClearBitsPositive(bm, n - 1);
      if exists j: nat :: j < n && !BitAt(bm, j) {
        var j: nat :| j < n && !BitAt(bm, j);
        assert j < n - 1 || !BitAt(bm, n - 1);
      }
    }
  }

  // Little-endian words

  /** The value of the `n` bytes of `s` from index `i`, least significant first; bytes past the end read as zero. */
  function Le(s: seq<Byte>, i: nat, n: nat): nat
    decreases n
  {
    if n == 0 then 0 else (if i < |s| then s[i] else 0) + 256 * Le(s, i + 1, n - 1)
  }

  /** The `n` low-order bytes of `v`, least significant first. */
  function LeBytes(v: nat, n: nat): (r: seq<Byte>)
    ensures |r| == n
  {
    if n == 0 then [] else [v % 256] + LeBytes(v / 256, n - 1)
  }

  function Pow256(n: nat): (p: nat)
    ensures p > 0
  {
    if n == 0 then 1 else 256 * Pow256(n - 1)
  }

  /** `s` with the `n` bytes from index `i` replaced by the word `v`. */
  function PutLe(s: seq<Byte>, i: nat, n: nat, v: nat): (r: seq<Byte>)
    requires i + n <= |s|
    ensures |r| == |s|
    ensures forall j :: 0 <= j < |s| && !(i <= j < i + n) ==> r[j] == s[j]
    ensures forall j :: i <= j < i + n ==> r[j] == LeBytes(v, n)[j - i]
  {
    s[..i] + LeBytes(v, n) + s[i + n..]
  }

  /** Words of two and four bytes, spelled out. */
  lemma Spelled(s: seq<Byte>, i: nat)
    requires i + 4 <= |s|
    ensures var x: nat, y: nat, z: nat, w: nat := s[i], s[i + 1], s[i + 2], s[i + 3];
            Le(s, i, 1) == x && Le(s, i, 2) == x + 256 * y &&
            Le(s, i, 4) == x + 256 * y + 65536 * z + 16777216 * w
  {
    var y: nat, z: nat, w: nat := s[i + 1], s[i + 2], s[i + 3];
    assert Le(s, i + 4, 0) == 0 && Le(s, i + 3, 1) == w;
    assert Le(s, i + 2, 2) == z + 256 * w;
    assert Le(s, i + 1, 3) == y + 256 * z + 65536 * w;
    assert Le(s, i + 2, 0) == 0 && Le(s, i + 1, 1) == y && Le(s, i + 1, 0) == 0;
  }

  lemma {:induction false} LeDependsOnBytes(s: seq<Byte>, t: seq<Byte>, i: nat, n: nat)
    requires i + n <= |s| && i + n <= |t|
    requires forall j :: i <= j < i + n ==> s[j] == t[j]
    ensures Le(s, i, n) == Le(t, i, n)
    decreases n
  {
    if n > 0 { LeDependsOnBytes(s, t, i + 1, n - 1); }
  }

  lemma {:induction false} ZeroWord(s: seq<Byte>, i: nat, n: nat)
    requires forall j :: i <= j < i + n && j < |s| ==> s[j] == 0
    ensures Le(s, i, n) == 0
    decreases n
  {
    if n > 0 { ZeroWord(s, i + 1, n - 1); }
  }

  lemma {:induction false} LeRange(s: seq<Byte>, i: nat, n: nat)
    ensures Le(s, i, n) < Pow256(n)
    decreases n
  {
    if n > 0 { LeRange(s, i + 1, n - 1); }
  }

  /** Reading back the bytes of a word gives the word. */
  lemma {:induction false} LeRoundTrip(s: seq<Byte>, i: nat, n: nat, v: nat)
    requires i + n <= |s| && v < Pow256(n)
    requires forall j :: i <= j < i + n ==> s[j] == LeBytes(v, n)[j - i]
    ensures Le(s, i, n) == v
    decreases n
  {
    if n > 0 {
      var tail := LeBytes(v / 256, n - 1);
      assert LeBytes(v, n) == [v % 256] + tail;
      assert s[i] == v % 256;
      forall j | i + 1 <= j < i + 1 + (n - 1) ensures s[j] == tail[j - (i + 1)] {
        assert s[j] == LeBytes(v, n)[j - i];
      }
      LeRoundTrip(s, i + 1, n - 1, v / 256);
      assert Le(s, i, n) == s[i] + 256 * Le(s, i + 1, n - 1);
    }
  }

  /** A stored word reads back, and every word outside the stored bytes is untouched. */
  lemma PutLeReads(s: seq<Byte>, i: nat, n: nat, v: nat)
    requires i + n <= |s| && v < Pow256(n)
    ensures Le(PutLe(s, i, n, v), i, n) == v
    ensures forall j: nat, k: nat ::
              j + k <= |s| && (j + k <= i || i + n <= j) ==> Le(PutLe(s, i, n, v), j, k) == Le(s, j, k)
  {
    var r := PutLe(s, i, n, v);
    LeRoundTrip(r, i, n, v);
    forall j: nat, k: nat | j + k <= |s| && (j + k <= i || i + n <= j) ensures Le(r, j, k) == Le(s, j, k) {
      LeDependsOnBytes(r, s, j, k);
    }
  }
}

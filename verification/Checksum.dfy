/**
 The Internet checksum (kernel/net/net.c) and its use for IPv4 headers and TCP
 segments: 16-bit words are read least significant byte first and summed in 32
 bits, and the sum is folded to 16 bits and complemented.
 */
module Checksum {
  import opened Bytes

  const U32: nat := 0x1_0000_0000

  function Word(lo: nat, hi: nat): nat { lo + 256 * hi }

  /** The sum of the words; an odd last byte counts as a word's low byte. */
  function WordSum(s: seq<Byte>): nat {
    if s == [] then 0
    else
      var n := |s| - 1;
      WordSum(s[..n]) + if n % 2 == 0 then Word(s[n], 0) else Word(0, s[n])
  }

  /** Carries added back until the sum fits 16 bits. */
  function Fold(x: nat): (r: nat)
    ensures r < 65536
    decreases x
  {
    if x < 65536 then x else Fold(x % 65536 + x / 65536)
  }

  /** `net_checksum` */
  function Sum(s: seq<Byte>): (c: nat)
    ensures c < 65536
  {
    65535 - Fold(WordSum(s) % U32)
  }

  /** The number between 1 and 65535 that is congruent to `x` modulo 65535; zero only for zero. */
  function Canonical(x: nat): nat { if x == 0 then 0 else (x - 1) % 65535 + 1 }

  /** Folding keeps the sum modulo 65535, and tells zero from its multiples. */
  lemma {:induction false} FoldIs(x: nat)
    ensures Fold(x) == Canonical(x)
    decreases x
  {
    if x >= 65536 {
      var y := x % 65536 + x / 65536;
      FoldIs(y);
      SameResidue(x, y, x / 65536);
    }
  }

  lemma SameResidue(x: nat, y: nat, q: nat)
    requires x == y + 65535 * q && y > 0
    ensures Canonical(x) == Canonical(y)
  {
  }

  /** What one word adds to the sum, wherever it stands. */
  lemma {:induction false} WordAdds(s: seq<Byte>, t: seq<Byte>, i: nat)
    requires i % 2 == 0 && i + 1 < |s| == |t| && (forall j :: 0 <= j < |s| && j != i && j != i + 1 ==> t[j] == s[j])
    ensures WordSum(t) == WordSum(s) - Word(s[i], s[i + 1]) + Word(t[i], t[i + 1])
  {
    var n := |s| - 1;
    if n > i + 1 {
      WordAdds(s[..n], t[..n], i);
    } else {
      assert t[..n][..i] == s[..n][..i];
      assert WordSum(s[..n]) == WordSum(s[..n][..i]) + s[i] && WordSum(t[..n]) == WordSum(t[..n][..i]) + t[i];
    }
  }

  // What is summed

  /** Word `i` of the buffer: two bytes, least significant first; past the end of an odd buffer comes a zero. */
  function WordAt(s: seq<Byte>, i: nat): nat
    requires 2 * i < |s|
  {
    var lo: nat, hi: nat := s[2 * i], if 2 * i + 1 < |s| then s[2 * i + 1] else 0;
    lo + 256 * hi
  }

  /** The sum of the first `n` words. */
  function Total(s: seq<Byte>, n: nat): nat
    requires 2 * n <= |s| + 1
  {
    if n == 0 then 0 else Total(s, n - 1) + WordAt(s, n - 1)
  }

  lemma {:induction false} TotalPrefix(s: seq<Byte>, k: nat, n: nat)
    requires 2 * n <= k <= |s|
    ensures Total(s[..k], n) == Total(s, n)
    decreases n
  {
    if n > 0 { TotalPrefix(s, k, n - 1); }
  }

  /** The sum is that of all words, the last one of an odd buffer included. */
  lemma {:induction false} WordSumIs(s: seq<Byte>)
    ensures WordSum(s) == Total(s, (|s| + 1) / 2)
  {
    if s != [] {
      var n := |s| - 1;
      WordSumIs(s[..n]);
      if n % 2 == 0 {
        TotalPrefix(s, n, n / 2);
        assert (|s| + 1) / 2 == n / 2 + 1;
      } else {
        TotalPrefix(s, n, n / 2);
        assert (n + 1) / 2 == n / 2 + 1 && 2 * (n / 2) == n - 1;
      }
    }
  }

  /** What one byte adds to the sum, wherever it stands. */
  lemma {:induction false} ByteAdds(s: seq<Byte>, t: seq<Byte>, i: nat)
    requires i < |s| == |t| && forall j :: 0 <= j < |s| && j != i ==> t[j] == s[j]
    ensures var was: int, now: int := s[i], t[i];
            WordSum(t) - WordSum(s) == (now - was) * if i % 2 == 0 then 1 else 256
  {
    var n := |s| - 1;
    if n > i {
      ByteAdds(s[..n], t[..n], i);
    } else {
      assert t[..n] == s[..n];
    }
  }

  /** A sum that is off by less than 65535 folds to another value, also where the 32 bits wrap. */
  lemma OffBy(x: nat, d: nat)
    requires 0 < d < 65535
    ensures Canonical((x + d) % U32) != Canonical(x % U32)
  {
    var r := x % U32;
    WrapStep(x, d);
    if r + d < U32 {
      if r > 0 { SmallShift(r, d); }
    } else {
      WrapsTo(r, d, r + d - U32);
    }
  }

  lemma WrapsTo(r: nat, d: nat, w: nat)
    requires 0 < d < 65535 && r < U32 && w == r + d - U32
    ensures (r + d) % U32 == w && Canonical(w) != Canonical(r)
  {
    if w > 0 {
      assert r == 65535 * 65536 + (65536 - d) + w;
      ShiftBy(w, 65536 - d, 65536);
    }
  }

  /** No change of a single byte goes unnoticed: any position, any length. */
  lemma OneByteDetected(s: seq<Byte>, t: seq<Byte>, i: nat)
    requires i < |s| == |t| && s[i] != t[i] && forall j :: 0 <= j < |s| && j != i ==> t[j] == s[j]
    ensures Sum(t) != Sum(s)
  {
    hide Canonical, Fold, WordSum;
    ByteAdds(s, t, i);
    var x, y := WordSum(s), WordSum(t);
    FoldIs(x % U32);
    FoldIs(y % U32);
    if x < y { OffBy(x, y - x); } else { OffBy(y, x - y); }
  }

  /** Adding the checksum makes the folded sum all ones, even where the 32-bit sum wrapped. */
  lemma ChecksumCompletes(r: nat)
    requires r < U32
    ensures r + (65535 - Fold(r)) < U32 && Fold(r + (65535 - Fold(r))) == 65535
  {
    FoldIs(r);
    FoldIs(r + (65535 - Fold(r)));
    NextMultiple(r);
  }

  /** A number and the complement of its canonical residue make the next multiple of 65535; 2^32 - 1 is one. */
  lemma NextMultiple(r: nat)
    requires r < U32
    ensures var c := 65535 - Canonical(r); r + c < U32 && Canonical(r + c) == 65535
  {
    if r > 0 {
      var q := (r - 1) / 65535;
      assert r + (65535 - Canonical(r)) == 65535 * (q + 1) && q <= 65536;
    }
  }

  /** The buffer with the word `c` stored at `i`. */
  function Store(s: seq<Byte>, i: nat, c: nat): (t: seq<Byte>)
    requires i + 1 < |s| && c < 65536
    ensures |t| == |s|
  {
    s[i := c % 256][i + 1 := c / 256]
  }

  /**
   Storing the checksum of a buffer in its zeroed, even field makes the checksum zero: every length, odd ones
   included.
   */
  lemma SelfVerifies(s: seq<Byte>, i: nat)
    requires i % 2 == 0 && i + 1 < |s| && s[i] == 0 && s[i + 1] == 0
    ensures Sum(Store(s, i, Sum(s))) == 0
  {
    var c := Sum(s);
    WordAdds(s, Store(s, i, c), i);
    ChecksumCompletes(WordSum(s) % U32);
    WrapAdds(WordSum(s), c);
  }

  lemma WrapAdds(x: nat, c: nat)
    requires x % U32 + c < U32
    ensures (x + c) % U32 == x % U32 + c
  {
  }

  // When the 32-bit sum is the true sum

  lemma {:induction false} WordSumBound(s: seq<Byte>, words: nat)
    requires |s| <= 2 * words
    ensures WordSum(s) <= words * 65535
  {
    if |s| == 1 {
      assert s[..0] == [];
    } else if |s| >= 2 {
      var n := |s| - 1;
      if n % 2 == 0 {
        WordSumBound(s[..n], words - 1);
      } else {
        assert s[..n][..n - 1] == s[..n - 1];
        WordSumBound(s[..n - 1], words - 1);
      }
    }
  }

  /** Up to 65537 words the sum never overflows, and the checksum is that of the true sum. */
  lemma NoOverflow(s: seq<Byte>)
    requires |s| <= 2 * 65537
    ensures WordSum(s) < U32 && Sum(s) == 65535 - Canonical(WordSum(s))
  {
    hide Canonical, WordSum, Fold;
    WordSumBound(s, 65537);
    FoldIs(WordSum(s));
    assert WordSum(s) % U32 == WordSum(s);
  }

  /** In general it is that of the true sum exactly when the carries lost out of 32 bits are a multiple of 65535. */
  lemma TrueSum(s: seq<Byte>)
    ensures var x := WordSum(s);
            Sum(s) == 65535 - Canonical(x) <==> x == 0 || (x % U32 > 0 && (x / U32) % 65535 == 0)
  {
    FoldIs(WordSum(s) % U32);
    LostCarries(WordSum(s), WordSum(s) / U32, WordSum(s) % U32);
  }

  /** 2^32 is one more than a multiple of 65535, so each carry lost is one off. */
  lemma LostCarries(x: nat, a: nat, r: nat)
    requires x == a * U32 + r && r < U32
    ensures Canonical(r) == Canonical(x) <==> x == 0 || (r > 0 && a % 65535 == 0)
  {
    assert a * U32 == 65535 * (65537 * a) + a;
    if r > 0 {
      ShiftBy(r, a, 65537 * a);
    }
  }

  lemma ShiftBy(r: nat, a: nat, m: nat)
    requires r > 0
    ensures Canonical(r) == Canonical(65535 * m + a + r) <==> a % 65535 == 0
  {
    var q, b := a / 65535, a % 65535;
    SameResidue(65535 * m + a + r, b + r, m + q);
    SmallShift(r, b);
  }

  lemma SmallShift(r: nat, b: nat)
    requires r > 0 && b < 65535
    ensures Canonical(b + r) == Canonical(r) <==> b == 0
  {
  }

  lemma {:induction false} AllOnes(s: seq<Byte>, n: nat)
    requires |s| == 2 * n && forall j :: 0 <= j < |s| ==> s[j] == 255
    ensures WordSum(s) == n * 65535
  {
    if n > 0 {
      AllOnes(s[..2 * n - 2], n - 1);
      assert s[..2 * n - 1][..2 * n - 2] == s[..2 * n - 2];
    }
  }

  /** One word more can overflow: 65538 words of all ones do, and their checksum is not that of the true sum. */
  lemma OverflowsAt65538(s: seq<Byte>)
    requires |s| == 2 * 65538 && forall j :: 0 <= j < |s| ==> s[j] == 255
    ensures WordSum(s) >= U32 && Sum(s) != 65535 - Canonical(WordSum(s))
  {
    AllOnes(s, 65538);
    TrueSum(s);
  }

  /** `net_checksum` */
  method NetChecksum(data: seq<Byte>) returns (c: nat)
    ensures c == Sum(data) == 65535 - Canonical(Total(data, (|data| + 1) / 2) % U32)
  {
    var sum := AddWords(data);
    WordSumIs(data);
    FoldIs(sum);
    sum := FoldCarries(sum);
    return 65535 - sum;
  }

  /** The summing loop, in 32 bits. */
  method AddWords(data: seq<Byte>) returns (sum: nat)
    ensures sum == WordSum(data) % U32
  {
    sum := 0;
    var i := 0;
    while |data| - i > 1
      invariant i <= |data| && i % 2 == 0 && sum == WordSum(data[..i]) % U32
    {
      NextWord(data, i);
      WrapStep(WordSum(data[..i]), Word(data[i], data[i + 1]));
      sum := (sum + Word(data[i], data[i + 1])) % U32;
      i := i + 2;
    }
    if |data| - i == 1 {
      assert data[..i + 1][..i] == data[..i];
      WrapStep(WordSum(data[..i]), data[i]);
      sum := (sum + data[i]) % U32;
      assert data[..i + 1] == data;
    } else {
      assert data[..i] == data;
    }
  }

  lemma WrapStep(x: nat, w: nat)
    ensures (x % U32 + w) % U32 == (x + w) % U32
  {
  }

  /** The folding loop. */
  method FoldCarries(total: nat) returns (sum: nat)
    ensures sum == Fold(total)
  {
    sum := total;
    while sum / 65536 != 0
      invariant Fold(sum) == Fold(total)
      decreases sum
    {
      sum := sum % 65536 + sum / 65536;
    }
  }

  lemma NextWord(data: seq<Byte>, i: nat)
    requires i % 2 == 0 && i + 1 < |data|
    ensures WordSum(data[..i + 2]) == WordSum(data[..i]) + Word(data[i], data[i + 1])
  {
    assert data[..i + 2][..i + 1] == data[..i + 1] && data[..i + 1][..i] == data[..i];
  }

  // IPv4 headers and TCP segments

  /** A 16-bit or 32-bit number in network byte order; addresses are kept in that order already. */
  function Net16(x: nat): seq<Byte> { [x / 256 % 256, x % 256] }

  /** The 20-byte header of `ipv4_send` with a zero checksum. */
  function Ipv4Header(len: nat, id: nat, protocol: Byte, src: seq<Byte>, dst: seq<Byte>): (h: seq<Byte>)
    requires |src| == |dst| == 4
    ensures |h| == 20 && h[10] == 0 && h[11] == 0
  {
    [0x45, 0] + Net16(20 + len) + Net16(id) + Net16(0x4000) + [64, protocol, 0, 0] + src + dst
  }

  /** Every header that `ipv4_send` writes passes the check of `ipv4_receive`. */
  lemma HeaderAccepted(len: nat, id: nat, protocol: Byte, src: seq<Byte>, dst: seq<Byte>)
    requires |src| == |dst| == 4
    ensures var h := Ipv4Header(len, id, protocol, src, dst); Sum(Store(h, 10, Sum(h))) == 0
  {
    SelfVerifies(Ipv4Header(len, id, protocol, src, dst), 10);
  }

  /** The pseudo header of `tcp_compute_checksum`. */
  function PseudoHeader(src: seq<Byte>, dst: seq<Byte>, len: nat): (h: seq<Byte>)
    requires |src| == |dst| == 4
    ensures |h| == 12
  {
    src + dst + [0, 6] + Net16(len)
  }

  /** `tcp_compute_checksum`: zero for a segment larger than its buffer. */
  function TcpSum(src: seq<Byte>, dst: seq<Byte>, segment: seq<Byte>): nat
    requires |src| == |dst| == 4
  {
    if |segment| > 2048 then 0 else Sum(PseudoHeader(src, dst, |segment|) + segment)
  }

  /** A segment with its checksum in place verifies under the same pseudo header, odd lengths included. */
  lemma SegmentVerifies(src: seq<Byte>, dst: seq<Byte>, segment: seq<Byte>)
    requires |src| == |dst| == 4 && 20 <= |segment| <= 2048 && segment[16] == 0 && segment[17] == 0
    ensures TcpSum(src, dst, segment) < 65536
    ensures TcpSum(src, dst, Store(segment, 16, TcpSum(src, dst, segment))) == 0
  {
    var h, c := PseudoHeader(src, dst, |segment|), TcpSum(src, dst, segment);
    SelfVerifies(h + segment, 28);
    assert h + Store(segment, 16, c) == Store(h + segment, 28, c);
  }
}

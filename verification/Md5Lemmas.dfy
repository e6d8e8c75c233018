/** Facts about packing, padding and folding that the collector relies on. */
module Md5Lemmas {
  import opened Md5Spec
  import opened Sequences

  // OR-ing a byte into an empty slot of a word: l |= b << 8k.

  function OrByte(l: Word, b: Word, k: nat): Word
    requires k < 4
  {
    match k case 0 => l | b case 1 => l | (b << 8) case 2 => l | (b << 16) case _ => l | (b << 24)
  }

  lemma OrSlot0(b0: Word, b1: Word, b2: Word, b3: Word)
    ensures OrByte(Join(0, b1, b2, b3), b0, 0) == Join(b0, b1, b2, b3)
  {
    calc {
      OrByte(Join(0, b1, b2, b3), b0, 0);
      (0 | (b1 << 8) | (b2 << 16) | (b3 << 24)) | b0;
      b0 | (b1 << 8) | (b2 << 16) | (b3 << 24);
      Join(b0, b1, b2, b3);
    }
  }

  lemma OrSlot1(b0: Word, b1: Word, b2: Word, b3: Word)
    ensures OrByte(Join(b0, 0, b2, b3), b1, 1) == Join(b0, b1, b2, b3)
  {
    calc {
      OrByte(Join(b0, 0, b2, b3), b1, 1);
      (b0 | (0 << 8) | (b2 << 16) | (b3 << 24)) | (b1 << 8);
      b0 | (b1 << 8) | (b2 << 16) | (b3 << 24);
      Join(b0, b1, b2, b3);
    }
  }

  lemma OrSlot2(b0: Word, b1: Word, b2: Word, b3: Word)
    ensures OrByte(Join(b0, b1, 0, b3), b2, 2) == Join(b0, b1, b2, b3)
  {
    calc {
      OrByte(Join(b0, b1, 0, b3), b2, 2);
      (b0 | (b1 << 8) | (0 << 16) | (b3 << 24)) | (b2 << 16);
      b0 | (b1 << 8) | (b2 << 16) | (b3 << 24);
      Join(b0, b1, b2, b3);
    }
  }

  lemma OrSlot3(b0: Word, b1: Word, b2: Word, b3: Word)
    ensures OrByte(Join(b0, b1, b2, 0), b3, 3) == Join(b0, b1, b2, b3)
  {
    calc {
      OrByte(Join(b0, b1, b2, 0), b3, 3);
      (b0 | (b1 << 8) | (b2 << 16) | (0 << 24)) | (b3 << 24);
      b0 | (b1 << 8) | (b2 << 16) | (b3 << 24);
      Join(b0, b1, b2, b3);
    }
  }

  lemma JoinLow(b: Word)
    ensures Join(b, 0, 0, 0) == b
  {
    assert b | (0 << 8) | (0 << 16) | (0 << 24) == b;
  }

  lemma SuffixSlice<X>(s: seq<X>, c: seq<X>, i: nat, j: nat)
    requires i <= j <= |c|
    ensures (s + c)[|s| + i..|s| + j] == c[i..j]
  {
  }

  /** Where a chunk falls relative to the 64-byte blocks of the message it extends. */
  lemma ChunkPlacement(m: seq<Byte>, c: seq<Byte>)
    ensures var b, n, all := |m| / 64, |m| % 64, m + c;
            if n + |c| < 64 then
              |all| / 64 == b && |all| % 64 == n + |c| && all[|all| - (n + |c|)..] == m[|m| - n..] + c
            else
              64 * (b + 1) <= |all| && all[64 * b..64 * (b + 1)] == m[|m| - n..] + c[..64 - n] &&
              all[64 * (b + 1)..] == c[64 - n..]
  {
    var b, n, all := |m| / 64, |m| % 64, m + c;
    BlockSplit(|m|, |c|);
    if n + |c| < 64 {
      assert all[64 * b..] == m[64 * b..] + c;
    } else {
      assert all[64 * b..64 * (b + 1)] == m[64 * b..] + c[..64 - n];
    }
  }

  lemma BlockSplit(m: nat, c: nat)
    ensures m == 64 * (m / 64) + m % 64
    ensures m % 64 + c < 64 ==> (m + c) / 64 == m / 64 && (m + c) % 64 == m % 64 + c
    ensures m % 64 + c >= 64 ==> 64 * (m / 64 + 1) <= m + c
  {
  }

  // A word depends on its own four bytes only.

  lemma SameWord(m: seq<Byte>, i: nat, m': seq<Byte>, i': nat)
    requires ByteAt(m, 4 * i) == ByteAt(m', 4 * i')
    requires ByteAt(m, 4 * i + 1) == ByteAt(m', 4 * i' + 1)
    requires ByteAt(m, 4 * i + 2) == ByteAt(m', 4 * i' + 2)
    requires ByteAt(m, 4 * i + 3) == ByteAt(m', 4 * i' + 3)
    ensures WordAt(m, i) == WordAt(m', i')
  {
  }

  /** Appending bytes changes no complete word; the last word keeps its low bytes. */
  lemma StableWords(t: seq<Byte>, m: seq<Byte>)
    requires t <= m
    ensures forall i :: 0 <= i < |t| / 4 ==> WordAt(t, i) == WordAt(m, i)
    ensures m[..4 * (|t| / 4) + |t| % 4] == t
  {
    hide WordAt;
    forall i | 0 <= i < |t| / 4
      ensures WordAt(t, i) == WordAt(m, i)
    {
      SameWord(t, i, m, i);
    }
  }

  lemma WordsOfSlice(m: seq<Byte>, j: nat, k: nat)
    requires 4 * j <= 4 * k <= |m|
    ensures Words(m[4 * j..4 * k]) == Words(m)[j..k]
  {
    hide WordAt;
    forall i: nat | i < k - j
      ensures WordAt(m[4 * j..4 * k], i) == WordAt(m, j + i)
    {
      SameWord(m[4 * j..4 * k], i, m, j + i);
    }
  }

  lemma WordsOfPrefix(m: seq<Byte>, n: nat, c: seq<Byte>)
    requires 4 * n <= |m|
    ensures Words(m)[..n] == Words(m + c)[..n]
  {
    WordsOfSlice(m, 0, n);
    WordsOfSlice(m + c, 0, n);
    assert m[..4 * n] == (m + c)[..4 * n];
  }

  // Folding m + n blocks is folding m, then n.

  lemma {:induction false} FoldPrefix(r: Regs, w: seq<Word>, w': seq<Word>, n: nat)
    requires 16 * n <= |w| && 16 * n <= |w'| && w[..16 * n] == w'[..16 * n]
    ensures Fold(r, w, n) == Fold(r, w', n)
  {
    hide Compress;
    if n > 0 {
      assert w[..16 * (n - 1)] == w[..16 * n][..16 * (n - 1)];
      assert w'[..16 * (n - 1)] == w'[..16 * n][..16 * (n - 1)];
      FoldPrefix(r, w, w', n - 1);
      assert w[16 * (n - 1)..16 * n] == w[..16 * n][16 * (n - 1)..];
      assert w'[16 * (n - 1)..16 * n] == w'[..16 * n][16 * (n - 1)..];
    }
  }

  lemma {:induction false} FoldSplit(r: Regs, w: seq<Word>, m: nat, n: nat)
    requires 16 * (m + n) <= |w|
    ensures Fold(r, w, m + n) == Fold(Fold(r, w, m), w[16 * m..], n)
  {
    hide Compress;
    if n > 0 {
      FoldSplit(r, w, m, n - 1);
      assert w[16 * m..][16 * (n - 1)..16 * n] == w[16 * (m + n - 1)..16 * (m + n)];
    }
  }

  /** The registers after the first n whole blocks of m. */
  function Chain(m: seq<Byte>, n: nat): Regs
    requires 64 * n <= |m|
  {
    Fold(INITIAL, Words(m), n)
  }

  lemma ChainOfPrefix(m: seq<Byte>, n: nat, c: seq<Byte>)
    requires 64 * n <= |m|
    ensures Chain(m + c, n) == Chain(m, n)
  {
    WordsOfPrefix(m, 16 * n, c);
    FoldPrefix(INITIAL, Words(m), Words(m + c), n);
  }

  lemma ChainOn(m: seq<Byte>, j: nat, k: nat)
    requires 64 * (j + k) <= |m|
    ensures Fold(Chain(m, j), Words(m[64 * j..64 * (j + k)]), k) == Chain(m, j + k)
  {
    hide Compress, Fold, Words;
    FoldSplit(INITIAL, Words(m), j, k);
    WordsOfSlice(m, 16 * j, 16 * (j + k));
    assert Words(m)[16 * j..][..16 * k] == Words(m)[16 * j..16 * (j + k)];
    FoldPrefix(Chain(m, j), Words(m)[16 * j..], Words(m[64 * j..64 * (j + k)]), k);
  }

  // The padded message, block by block.

  lemma PaddingFills(n: nat)
    ensures (n + 1 + (55 - n) % 64 + 3) / 4 + 2 == 16 * ((n + 72) / 64)
  {
    var q, r := n / 64, n % 64;
    assert n == 64 * q + r;
    if r <= 55 {
      assert (55 - n) % 64 == 55 - r;
    } else {
      assert (55 - n) % 64 == 119 - r;
    }
  }

  lemma PaddedLength(m: seq<Byte>)
    ensures |PaddedWords(m)| == 16 * ((|m| + 72) / 64)
  {
    PaddingFills(|m|);
    assert |Pad(m)| == |m| + 1 + (55 - |m|) % 64;
    hide WordAt, WordOf, Pad;
  }

  lemma PaddedWordAt(m: seq<Byte>, i: nat)
    requires i < |PaddedWords(m)| - 2
    ensures PaddedWords(m)[i] == WordAt(m + [0x80], i)
  {
    hide Join, WordOf;
    SameWord(Pad(m), i, m + [0x80], i);
  }

  lemma PastTheEnd(m: seq<Byte>, i: nat)
    requires |m| <= 4 * i
    ensures WordAt(m, i) == 0
  {
    hide Join;
    JoinLow(0);
  }

  lemma WordInTail(m: seq<Byte>, k: nat, i: nat)
    requires 4 * k <= |m|
    ensures WordAt(m[4 * k..], i) == WordAt(m, k + i)
  {
    hide Join;
    SameWord(m[4 * k..], i, m, k + i);
  }

  // The two 32-bit length counters.

  function Total(high: nat, low: nat): nat {
    high * TWO_TO_32 + low
  }

  lemma ProductGap(n: int, m: nat)
    requires n > 0
    ensures n * m >= m
  {
    assert n * m == m + (n - 1) * m;
  }

  lemma Residue(x: nat, q: nat, r: nat, m: nat)
    requires x == q * m + r && r < m
    ensures x % m == r && x / m == q
  {
    var d, e := x / m, x % m;
    assert x == d * m + e;
    assert (d - q) * m == d * m - q * m;
    assert (q - d) * m == q * m - d * m;
    if d > q {
      ProductGap(d - q, m);
    } else if d < q {
      ProductGap(q - d, m);
    }
  }

  function LowSum(low: nat, len: nat): nat {
    (low + 8 * len % TWO_TO_32) % TWO_TO_32
  }

  function HighSum(high: nat, low: nat, len: nat): nat {
    ((if LowSum(low, len) < low then (high + 1) % TWO_TO_32 else high) + len / 0x2000_0000) % TWO_TO_32
  }

  lemma LowCarries(low: nat, len: nat)
    requires low < TWO_TO_32
    ensures low + 8 * len % TWO_TO_32 == LowSum(low, len) + (if LowSum(low, len) < low then TWO_TO_32 else 0)
  {
    var sum := low + 8 * len % TWO_TO_32;
    if sum < TWO_TO_32 {
      Residue(sum, 0, sum, TWO_TO_32);
    } else {
      Residue(sum, 1, sum - TWO_TO_32, TWO_TO_32);
    }
  }

  lemma HighCarries(high: nat, low: nat, len: nat) returns (q: nat)
    requires high < TWO_TO_32 && low < TWO_TO_32
    ensures high + (if LowSum(low, len) < low then 1 else 0) + len / 0x2000_0000 == q * TWO_TO_32 + HighSum(high, low, len)
    ensures HighSum(high, low, len) < TWO_TO_32
  {
    var h := high + (if LowSum(low, len) < low then 1 else 0);
    var up := len / 0x2000_0000;
    if h < TWO_TO_32 {
      Residue(h, 0, h, TWO_TO_32);
      q := (h + up) / TWO_TO_32;
    } else {
      Residue(h, 1, 0, TWO_TO_32);
      q := 1 + up / TWO_TO_32;
    }
  }

  /** Adding 8 * len to the counters, with the carry of the low one found by comparing. */
  lemma CountersAdd(high: nat, low: nat, total: nat, len: nat)
    requires high < TWO_TO_32 && low < TWO_TO_32
    requires Total(high, low) == 8 * total % TWO_TO_64
    ensures LowSum(low, len) < TWO_TO_32 && HighSum(high, low, len) < TWO_TO_32
    ensures Total(HighSum(high, low, len), LowSum(low, len)) == 8 * (total + len) % TWO_TO_64
  {
    LowCarries(low, len);
    var q := HighCarries(high, low, len);
    var l, h := LowSum(low, len), HighSum(high, low, len);
    hide LowSum, HighSum;
    assert 8 * len == len / 0x2000_0000 * TWO_TO_32 + 8 * len % TWO_TO_32 by {
      Residue(8 * len, len / 0x2000_0000, 8 * (len % 0x2000_0000), TWO_TO_32);
    }
    assert Total(high, low) + 8 * len == q * TWO_TO_64 + Total(h, l);
    var p := 8 * total / TWO_TO_64;
    Residue(8 * (total + len), p + q, Total(h, l), TWO_TO_64);
  }

  lemma OperationsNone(r: Regs, x: seq<Word>)
    requires |x| == 16
    ensures Operations(0, r, x) == r
  {
  }

  lemma FoldOne(r: Regs, x: seq<Word>)
    requires |x| == 16
    ensures Fold(r, x, 1) == Compress(r, x)
  {
    hide Compress;
    assert x[0..16] == x;
    assert Fold(r, x, 0) == r;
  }

  lemma FoldNext(w: seq<Word>, n: nat, x: seq<Word>)
    requires 16 * n + 16 <= |w| && x == w[16 * n..16 * n + 16]
    ensures Fold(Fold(INITIAL, w, n), x, 1) == Fold(INITIAL, w, n + 1)
  {
    hide Compress;
    FoldOne(Fold(INITIAL, w, n), x);
  }

  lemma PaddedPrefix(m: seq<Byte>)
    requires 16 * (|m| / 64) <= |PaddedWords(m)|
    ensures Fold(INITIAL, PaddedWords(m), |m| / 64) == Chain(m, |m| / 64)
  {
    var n := |m| / 64;
    var padding := [0x80] + Zeros((55 - |m|) % 64);
    assert m + padding == Pad(m);
    hide Compress, Fold, WordAt, WordOf, Pad, Zeros, Words;
    WordsOfPrefix(m, 16 * n, padding);
    FoldPrefix(INITIAL, PaddedWords(m), Words(m), n);
  }

  /** The bytes after the last whole block of m, and the end mark. */
  function MarkedTail(m: seq<Byte>): (q: seq<Byte>)
    ensures |q| == |m| % 64 + 1
  {
    m[64 * (|m| / 64)..] + [0x80]
  }

  /** The words after the last whole block of m hold the tail of m, the 0x80 byte and zeros. */
  lemma TailWord(m: seq<Byte>, i: nat)
    requires 16 * (|m| / 64) + i < |PaddedWords(m)| - 2
    ensures PaddedWords(m)[16 * (|m| / 64) + i] == WordAt(MarkedTail(m), i)
  {
    hide WordAt, WordOf;
    var k := 16 * (|m| / 64);
    PaddedWordAt(m, k + i);
    WordInTail(m + [0x80], k, i);
    assert (m + [0x80])[4 * k..] == m[4 * k..] + [0x80];
  }

  lemma LengthWords(m: seq<Byte>, high: nat, low: nat)
    requires high < TWO_TO_32 && low < TWO_TO_32 && Total(high, low) == 8 * |m| % TWO_TO_64
    requires |PaddedWords(m)| >= 2
    ensures PaddedWords(m)[|PaddedWords(m)| - 2..] == [WordOf(low), WordOf(high)]
  {
    hide WordOf, Words;
    var bits := 8 * |m|;
    Residue(bits % TWO_TO_64, high, low, TWO_TO_32);
    Residue(bits, bits / TWO_TO_64 * TWO_TO_32 + high, low, TWO_TO_32);
    assert LowWord(bits) == WordOf(low) && HighWord(bits) == WordOf(high);
  }

  lemma ZeroFilled(t: seq<Byte>, n: nat, i: nat)
    ensures WordAt(t + Zeros(n), i) == WordAt(t, i)
  {
    SameWord(t + Zeros(n), i, t, i);
  }

  /** A tail too long for the length words fills a block of its own. */
  lemma FullTailBlock(m: seq<Byte>, d: seq<Word>)
    requires |m| % 64 >= 56 && |d| == 16
    requires forall k | 0 <= k < |m| % 64 / 4 + 1 :: d[k] == WordAt(MarkedTail(m), k)
    requires |m| % 64 / 4 + 1 < 16 ==> d[15] == 0
    ensures 16 * (|m| / 64) + 32 == |PaddedWords(m)|
    ensures d == PaddedWords(m)[16 * (|m| / 64)..16 * (|m| / 64) + 16]
  {
    hide WordAt, WordOf, PaddedWords;
    PaddedLength(m);
    forall k | 0 <= k < 16
      ensures d[k] == PaddedWords(m)[16 * (|m| / 64) + k]
    {
      TailWord(m, k);
      if |m| % 64 / 4 + 1 <= k {
        PastTheEnd(MarkedTail(m), k);
      }
    }
  }

  /** What is left of the tail from word skip on, and zeros. */
  lemma BeforeLength(m: seq<Byte>, d: seq<Word>, skip: nat)
    requires |d| == 16 && skip == (if |m| % 64 >= 56 then 16 else 0)
    requires forall k | 0 <= k < 14 :: d[k] == if skip + k < |m| % 64 / 4 + 1 then WordAt(MarkedTail(m), skip + k) else 0
    ensures 16 * (|m| / 64) + skip + 16 == |PaddedWords(m)|
    ensures d[..14] == PaddedWords(m)[16 * (|m| / 64) + skip..16 * (|m| / 64) + skip + 14]
  {
    hide WordAt, WordOf, PaddedWords, MarkedTail;
    PaddedLength(m);
    forall k | 0 <= k < 14
      ensures d[k] == PaddedWords(m)[16 * (|m| / 64) + skip + k]
    {
      TailWord(m, skip + k);
      if |m| % 64 / 4 + 1 <= skip + k {
        PastTheEnd(MarkedTail(m), skip + k);
      }
    }
  }

  /** The last block: the end of the tail, zeros, and the length. */
  lemma LengthBlock(m: seq<Byte>, d: seq<Word>, skip: nat, high: nat, low: nat)
    requires |d| == 16 && skip == (if |m| % 64 >= 56 then 16 else 0)
    requires forall k | 0 <= k < 14 :: d[k] == if skip + k < |m| % 64 / 4 + 1 then WordAt(MarkedTail(m), skip + k) else 0
    requires high < TWO_TO_32 && low < TWO_TO_32 && Total(high, low) == 8 * |m| % TWO_TO_64
    requires d[14] == WordOf(low) && d[15] == WordOf(high)
    ensures 16 * (|m| / 64) + skip + 16 == |PaddedWords(m)|
    ensures d == PaddedWords(m)[16 * (|m| / 64) + skip..]
  {
    BeforeLength(m, d, skip);
    LengthWords(m, high, low);
    hide *;
    var w, j := PaddedWords(m), 16 * (|m| / 64) + skip;
    assert d == d[..14] + [d[14], d[15]];
    assert w[j..] == w[j..j + 14] + w[|w| - 2..];
  }
}

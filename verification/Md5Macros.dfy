/** The little-endian byte-to-word macros of md32_common.h. */
module Md5Macros {
  import opened Md5Spec
  import opened Md5Lemmas

  // Each macro reads bytes of c from p on; they are bytes of word i of m.

  lemma SliceAt(c: seq<Byte>, p: nat, m: seq<Byte>, k: nat, n: nat, j: nat)
    requires p + n <= |c| && k + n <= |m| && c[p..p + n] == m[k..k + n] && j < n
    ensures c[p + j] as Word == ByteAt(m, k + j)
  {
    assert c[p..p + n][j] == m[k..k + n][j];
  }

  /** The bytes n to n + len of word i of m are in c at p. */
  lemma Slots(c: seq<Byte>, p: nat, m: seq<Byte>, i: nat, n: nat, len: nat)
    requires p + len <= |c| && 4 * i + n + len <= |m| && c[p..p + len] == m[4 * i + n..4 * i + n + len]
    ensures n <= 0 < n + len ==> c[p] as Word == ByteAt(m, 4 * i)
    ensures n <= 1 < n + len ==> c[p + 1 - n] as Word == ByteAt(m, 4 * i + 1)
    ensures n <= 2 < n + len ==> c[p + 2 - n] as Word == ByteAt(m, 4 * i + 2)
    ensures n <= 3 < n + len ==> c[p + 3 - n] as Word == ByteAt(m, 4 * i + 3)
  {
    if n <= 0 < n + len {
      SliceAt(c, p, m, 4 * i + n, len, 0);
    }
    if n <= 1 < n + len {
      SliceAt(c, p, m, 4 * i + n, len, 1 - n);
    }
    if n <= 2 < n + len {
      SliceAt(c, p, m, 4 * i + n, len, 2 - n);
    }
    if n <= 3 < n + len {
      SliceAt(c, p, m, 4 * i + n, len, 3 - n);
    }
  }

  method HostC2l(c: seq<Byte>, p: nat, ghost m: seq<Byte>, ghost i: nat) returns (l: Word, q: nat)
    requires p + 4 <= |c| && 4 * i + 4 <= |m| && c[p..p + 4] == m[4 * i..4 * i + 4]
    ensures l == WordAt(m, i) && q == p + 4
  {
    l, q := HostPC2l(c, p, 0, 0, m, i);
  }

  /** Completes a word whose low n bytes are in l0 already. */
  method HostPC2l(c: seq<Byte>, p: nat, l0: Word, n: nat, ghost m: seq<Byte>, ghost i: nat) returns (l: Word, q: nat)
    requires n < 4 && p + 4 - n <= |c| && 4 * i + 4 <= |m| && c[p..p + 4 - n] == m[4 * i + n..4 * i + 4]
    requires n > 0 ==> l0 == WordAt(m[..4 * i + n], i)
    ensures l == WordAt(m, i) && q == p + 4 - n
  {
    hide Join, OrByte;
    l, q := l0, p;
    ghost var b0, b1, b2, b3 := ByteAt(m, 4 * i), ByteAt(m, 4 * i + 1), ByteAt(m, 4 * i + 2), ByteAt(m, 4 * i + 3);
    Slots(c, p, m, i, n, 4 - n);
    if n == 0 {
      l, q := c[q] as Word, q + 1;
      JoinLow(b0);
    }
    assert n <= 1 ==> l == Join(b0, 0, 0, 0);
    if n <= 1 {
      l, q := OrByte(l, c[q] as Word, 1), q + 1;
      OrSlot1(b0, b1, 0, 0);
    }
    assert n <= 2 ==> l == Join(b0, b1, 0, 0);
    if n <= 2 {
      l, q := OrByte(l, c[q] as Word, 2), q + 1;
      OrSlot2(b0, b1, b2, 0);
    }
    assert l == Join(b0, b1, b2, 0);
    l, q := OrByte(l, c[q] as Word, 3), q + 1;
    OrSlot3(b0, b1, b2, b3);
  }

  /** Adds len bytes to a word that stays incomplete; its low sc bytes are in l0 already. */
  method HostPC2lP(c: seq<Byte>, p: nat, l0: Word, sc: nat, len0: nat, ghost m: seq<Byte>, ghost i: nat)
    returns (l: Word, q: nat)
    requires 0 < len0 && sc + len0 < 4 && p + len0 <= |c| && |m| == 4 * i + sc + len0
    requires c[p..p + len0] == m[4 * i + sc..]
    requires sc > 0 ==> l0 == WordAt(m[..4 * i + sc], i)
    ensures l == WordAt(m, i) && q == p + len0
  {
    hide Join, OrByte;
    l, q := l0, p;
    var len := len0;
    ghost var b0, b1, b2 := ByteAt(m, 4 * i), ByteAt(m, 4 * i + 1), ByteAt(m, 4 * i + 2);
    if sc == 0 {
      SliceAt(c, p, m, 4 * i + sc, len0, q - p);
      l, q := c[q] as Word, q + 1;
      JoinLow(b0);
      len := len - 1;
      if len == 0 { return; }
    }
    assert sc <= 1 ==> l == Join(b0, 0, 0, 0);
    if sc <= 1 {
      SliceAt(c, p, m, 4 * i + sc, len0, q - p);
      l, q := OrByte(l, c[q] as Word, 1), q + 1;
      OrSlot1(b0, b1, 0, 0);
      len := len - 1;
      if len == 0 { return; }
    }
    assert l == Join(b0, b1, 0, 0);
    SliceAt(c, p, m, 4 * i + sc, len0, q - p);
    l, q := OrByte(l, c[q] as Word, 2), q + 1;
    OrSlot2(b0, b1, b2, 0);
  }

  /** The last n bytes of the input, read backwards, as an incomplete word. */
  method HostC2lP(c: seq<Byte>, p: nat, n: nat, ghost m: seq<Byte>, ghost i: nat) returns (l: Word)
    requires n < 4 && p + n <= |c| && |m| == 4 * i + n && c[p..p + n] == m[4 * i..]
    ensures l == WordAt(m, i)
  {
    hide Join, OrByte;
    l := 0;
    var q := p + n;
    ghost var b0, b1, b2 := ByteAt(m, 4 * i), ByteAt(m, 4 * i + 1), ByteAt(m, 4 * i + 2);
    JoinLow(0);
    if n == 3 {
      q := q - 1;
      SliceAt(c, p, m, 4 * i, n, q - p);
      l := OrByte(0, c[q] as Word, 2);
      OrSlot2(0, 0, b2, 0);
    }
    assert l == Join(0, 0, b2, 0);
    if n >= 2 {
      q := q - 1;
      SliceAt(c, p, m, 4 * i, n, q - p);
      l := OrByte(l, c[q] as Word, 1);
      OrSlot1(0, b1, b2, 0);
    }
    assert l == Join(0, b1, b2, 0);
    if n >= 1 {
      q := q - 1;
      SliceAt(c, p, m, 4 * i, n, q - p);
      l := OrByte(l, c[q] as Word, 0);
      OrSlot0(b0, b1, b2, 0);
    }
  }

  /** HOST_l2c: the four bytes of a word, low-order byte first. */
  method HostL2c(l: Word) returns (c: seq<Byte>)
    ensures c == Bytes(l)
  {
    c := [(l & 0xff) as Byte];
    c := c + [((l >> 8) & 0xff) as Byte];
    c := c + [((l >> 16) & 0xff) as Byte];
    c := c + [((l >> 24) & 0xff) as Byte];
  }

  /** Loading the bytes of a word gives the word back. */
  lemma L2cThenC2l(l: Word)
    ensures WordAt(Bytes(l), 0) == l
  {
  }
}

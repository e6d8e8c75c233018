/** The optimised MD5 block function: the boolean forms, the four step macros and the unrolled rounds. */
module Md5Block {
  import opened Md5Spec

  // The boolean functions with one operation less than the standard's.

  function FastF(b: Word, c: Word, d: Word): Word { ((c ^ d) & b) ^ d }

  function FastG(b: Word, c: Word, d: Word): Word { ((b ^ c) & d) ^ c }

  function FastI(b: Word, c: Word, d: Word): Word { (!d | b) ^ c }

  lemma FastFIsF(b: Word, c: Word, d: Word)
    ensures FastF(b, c, d) == F(b, c, d)
  {
    assert ((c ^ d) & b) ^ d == (b & c) | (!b & d);
  }

  lemma FastGIsG(b: Word, c: Word, d: Word)
    ensures FastG(b, c, d) == G(b, c, d)
  {
    assert ((b ^ c) & d) ^ c == (b & d) | (c & !d);
  }

  lemma FastIIsI(b: Word, c: Word, d: Word)
    ensures FastI(b, c, d) == I(b, c, d)
  {
    assert (!d | b) ^ c == c ^ (b | !d);
  }

  lemma SumOrder(a: Word, f: Word, k: Word, t: Word)
    ensures a + (k + t + f) == Sum(a, f, k, t)
  {
  }

  lemma PlusOrder(x: Word, y: Word)
    ensures x + y == Plus(y, x)
  {
  }

  // One step of a round. In terms of the standard it is operation n on the registers in their current roles.

  method R0(a: Word, b: Word, c: Word, d: Word, k: Word, s: bv6, t: Word, ghost n: nat, ghost r: Regs, ghost x: seq<Word>)
    returns (v: Word)
    requires 0 <= n < 16 && |x| == 16 && Regs(a, b, c, d) == Operations(n, r, x)
    requires k == x[Index(n)] && s == Shift(n) && t == T(n)
    ensures Regs(d, v, b, c) == Operations(n + 1, r, x)
  {
    hide Sum, Plus, Rotate, F, G, H, I, FastF, Shift, T, Index;
    v := a + (k + t + FastF(b, c, d));
    SumOrder(a, FastF(b, c, d), k, t);
    FastFIsF(b, c, d);
    v := Rotate(v, s);
    PlusOrder(v, b);
    v := v + b;
  }

  method R1(a: Word, b: Word, c: Word, d: Word, k: Word, s: bv6, t: Word, ghost n: nat, ghost r: Regs, ghost x: seq<Word>)
    returns (v: Word)
    requires 16 <= n < 32 && |x| == 16 && Regs(a, b, c, d) == Operations(n, r, x)
    requires k == x[Index(n)] && s == Shift(n) && t == T(n)
    ensures Regs(d, v, b, c) == Operations(n + 1, r, x)
  {
    hide Sum, Plus, Rotate, F, G, H, I, FastG, Shift, T, Index;
    v := a + (k + t + FastG(b, c, d));
    SumOrder(a, FastG(b, c, d), k, t);
    FastGIsG(b, c, d);
    v := Rotate(v, s);
    PlusOrder(v, b);
    v := v + b;
  }

  method R2(a: Word, b: Word, c: Word, d: Word, k: Word, s: bv6, t: Word, ghost n: nat, ghost r: Regs, ghost x: seq<Word>)
    returns (v: Word)
    requires 32 <= n < 48 && |x| == 16 && Regs(a, b, c, d) == Operations(n, r, x)
    requires k == x[Index(n)] && s == Shift(n) && t == T(n)
    ensures Regs(d, v, b, c) == Operations(n + 1, r, x)
  {
    hide Sum, Plus, Rotate, F, G, H, I, Shift, T, Index;
    v := a + (k + t + H(b, c, d));
    SumOrder(a, H(b, c, d), k, t);
    v := Rotate(v, s);
    PlusOrder(v, b);
    v := v + b;
  }

  method R3(a: Word, b: Word, c: Word, d: Word, k: Word, s: bv6, t: Word, ghost n: nat, ghost r: Regs, ghost x: seq<Word>)
    returns (v: Word)
    requires 48 <= n < 64 && |x| == 16 && Regs(a, b, c, d) == Operations(n, r, x)
    requires k == x[Index(n)] && s == Shift(n) && t == T(n)
    ensures Regs(d, v, b, c) == Operations(n + 1, r, x)
  {
    hide Sum, Plus, Rotate, F, G, H, I, FastI, Shift, T, Index;
    v := a + (k + t + FastI(b, c, d));
    SumOrder(a, FastI(b, c, d), k, t);
    FastIIsI(b, c, d);
    v := Rotate(v, s);
    PlusOrder(v, b);
    v := v + b;
  }

  method Round0(a0: Word, b0: Word, c0: Word, d0: Word, x: seq<Word>, ghost r: Regs)
    returns (a: Word, b: Word, c: Word, d: Word)
    requires |x| == 16 && Regs(a0, b0, c0, d0) == Operations(0, r, x)
    ensures Regs(a, b, c, d) == Operations(16, r, x)
  {
    hide Operations, Plus, Sum, Rotate, Mix, T1, T2, T3;
    a, b, c, d := a0, b0, c0, d0;
    a := R0(a, b, c, d, x[0], 7, 0xd76aa478, 0, r, x);
    d := R0(d, a, b, c, x[1], 12, 0xe8c7b756, 1, r, x);
    c := R0(c, d, a, b, x[2], 17, 0x242070db, 2, r, x);
    b := R0(b, c, d, a, x[3], 22, 0xc1bdceee, 3, r, x);
    a := R0(a, b, c, d, x[4], 7, 0xf57c0faf, 4, r, x);
    d := R0(d, a, b, c, x[5], 12, 0x4787c62a, 5, r, x);
    c := R0(c, d, a, b, x[6], 17, 0xa8304613, 6, r, x);
    b := R0(b, c, d, a, x[7], 22, 0xfd469501, 7, r, x);
    a := R0(a, b, c, d, x[8], 7, 0x698098d8, 8, r, x);
    d := R0(d, a, b, c, x[9], 12, 0x8b44f7af, 9, r, x);
    c := R0(c, d, a, b, x[10], 17, 0xffff5bb1, 10, r, x);
    b := R0(b, c, d, a, x[11], 22, 0x895cd7be, 11, r, x);
    a := R0(a, b, c, d, x[12], 7, 0x6b901122, 12, r, x);
    d := R0(d, a, b, c, x[13], 12, 0xfd987193, 13, r, x);
    c := R0(c, d, a, b, x[14], 17, 0xa679438e, 14, r, x);
    b := R0(b, c, d, a, x[15], 22, 0x49b40821, 15, r, x);
  }

  /** The words and rotations of round 2. */
  lemma Schedule1()
    ensures Index(16) == 1 && Index(17) == 6 && Index(18) == 11 && Index(19) == 0
    ensures Shift(16) == 5 && Shift(17) == 9 && Shift(18) == 14 && Shift(19) == 20
    ensures Index(20) == 5 && Index(21) == 10 && Index(22) == 15 && Index(23) == 4
    ensures Shift(20) == 5 && Shift(21) == 9 && Shift(22) == 14 && Shift(23) == 20
    ensures Index(24) == 9 && Index(25) == 14 && Index(26) == 3 && Index(27) == 8
    ensures Shift(24) == 5 && Shift(25) == 9 && Shift(26) == 14 && Shift(27) == 20
    ensures Index(28) == 13 && Index(29) == 2 && Index(30) == 7 && Index(31) == 12
    ensures Shift(28) == 5 && Shift(29) == 9 && Shift(30) == 14 && Shift(31) == 20
  {
  }

  method Round1(a0: Word, b0: Word, c0: Word, d0: Word, x: seq<Word>, ghost r: Regs)
    returns (a: Word, b: Word, c: Word, d: Word)
    requires |x| == 16 && Regs(a0, b0, c0, d0) == Operations(16, r, x)
    ensures Regs(a, b, c, d) == Operations(32, r, x)
  {
    Schedule1();
    hide Operations, Plus, Sum, Rotate, Mix, T0, T2, T3, Index, Shift;
    a, b, c, d := a0, b0, c0, d0;
    a := R1(a, b, c, d, x[1], 5, 0xf61e2562, 16, r, x);
    d := R1(d, a, b, c, x[6], 9, 0xc040b340, 17, r, x);
    c := R1(c, d, a, b, x[11], 14, 0x265e5a51, 18, r, x);
    b := R1(b, c, d, a, x[0], 20, 0xe9b6c7aa, 19, r, x);
    a := R1(a, b, c, d, x[5], 5, 0xd62f105d, 20, r, x);
    d := R1(d, a, b, c, x[10], 9, 0x02441453, 21, r, x);
    c := R1(c, d, a, b, x[15], 14, 0xd8a1e681, 22, r, x);
    b := R1(b, c, d, a, x[4], 20, 0xe7d3fbc8, 23, r, x);
    a := R1(a, b, c, d, x[9], 5, 0x21e1cde6, 24, r, x);
    d := R1(d, a, b, c, x[14], 9, 0xc33707d6, 25, r, x);
    c := R1(c, d, a, b, x[3], 14, 0xf4d50d87, 26, r, x);
    b := R1(b, c, d, a, x[8], 20, 0x455a14ed, 27, r, x);
    a := R1(a, b, c, d, x[13], 5, 0xa9e3e905, 28, r, x);
    d := R1(d, a, b, c, x[2], 9, 0xfcefa3f8, 29, r, x);
    c := R1(c, d, a, b, x[7], 14, 0x676f02d9, 30, r, x);
    b := R1(b, c, d, a, x[12], 20, 0x8d2a4c8a, 31, r, x);
  }

  /** The words and rotations of round 3. */
  lemma Schedule2()
    ensures Index(32) == 5 && Index(33) == 8 && Index(34) == 11 && Index(35) == 14
    ensures Shift(32) == 4 && Shift(33) == 11 && Shift(34) == 16 && Shift(35) == 23
    ensures Index(36) == 1 && Index(37) == 4 && Index(38) == 7 && Index(39) == 10
    ensures Shift(36) == 4 && Shift(37) == 11 && Shift(38) == 16 && Shift(39) == 23
    ensures Index(40) == 13 && Index(41) == 0 && Index(42) == 3 && Index(43) == 6
    ensures Shift(40) == 4 && Shift(41) == 11 && Shift(42) == 16 && Shift(43) == 23
    ensures Index(44) == 9 && Index(45) == 12 && Index(46) == 15 && Index(47) == 2
    ensures Shift(44) == 4 && Shift(45) == 11 && Shift(46) == 16 && Shift(47) == 23
  {
  }

  method Round2(a0: Word, b0: Word, c0: Word, d0: Word, x: seq<Word>, ghost r: Regs)
    returns (a: Word, b: Word, c: Word, d: Word)
    requires |x| == 16 && Regs(a0, b0, c0, d0) == Operations(32, r, x)
    ensures Regs(a, b, c, d) == Operations(48, r, x)
  {
    Schedule2();
    hide Operations, Plus, Sum, Rotate, Mix, T0, T1, T3, Index, Shift;
    a, b, c, d := a0, b0, c0, d0;
    a := R2(a, b, c, d, x[5], 4, 0xfffa3942, 32, r, x);
    d := R2(d, a, b, c, x[8], 11, 0x8771f681, 33, r, x);
    c := R2(c, d, a, b, x[11], 16, 0x6d9d6122, 34, r, x);
    b := R2(b, c, d, a, x[14], 23, 0xfde5380c, 35, r, x);
    a := R2(a, b, c, d, x[1], 4, 0xa4beea44, 36, r, x);
    d := R2(d, a, b, c, x[4], 11, 0x4bdecfa9, 37, r, x);
    c := R2(c, d, a, b, x[7], 16, 0xf6bb4b60, 38, r, x);
    b := R2(b, c, d, a, x[10], 23, 0xbebfbc70, 39, r, x);
    a := R2(a, b, c, d, x[13], 4, 0x289b7ec6, 40, r, x);
    d := R2(d, a, b, c, x[0], 11, 0xeaa127fa, 41, r, x);
    c := R2(c, d, a, b, x[3], 16, 0xd4ef3085, 42, r, x);
    b := R2(b, c, d, a, x[6], 23, 0x04881d05, 43, r, x);
    a := R2(a, b, c, d, x[9], 4, 0xd9d4d039, 44, r, x);
    d := R2(d, a, b, c, x[12], 11, 0xe6db99e5, 45, r, x);
    c := R2(c, d, a, b, x[15], 16, 0x1fa27cf8, 46, r, x);
    b := R2(b, c, d, a, x[2], 23, 0xc4ac5665, 47, r, x);
  }

  /** The words and rotations of round 4. */
  lemma Schedule3()
    ensures Index(48) == 0 && Index(49) == 7 && Index(50) == 14 && Index(51) == 5
    ensures Shift(48) == 6 && Shift(49) == 10 && Shift(50) == 15 && Shift(51) == 21
    ensures Index(52) == 12 && Index(53) == 3 && Index(54) == 10 && Index(55) == 1
    ensures Shift(52) == 6 && Shift(53) == 10 && Shift(54) == 15 && Shift(55) == 21
    ensures Index(56) == 8 && Index(57) == 15 && Index(58) == 6 && Index(59) == 13
    ensures Shift(56) == 6 && Shift(57) == 10 && Shift(58) == 15 && Shift(59) == 21
    ensures Index(60) == 4 && Index(61) == 11 && Index(62) == 2 && Index(63) == 9
    ensures Shift(60) == 6 && Shift(61) == 10 && Shift(62) == 15 && Shift(63) == 21
  {
  }

  method Round3(a0: Word, b0: Word, c0: Word, d0: Word, x: seq<Word>, ghost r: Regs)
    returns (a: Word, b: Word, c: Word, d: Word)
    requires |x| == 16 && Regs(a0, b0, c0, d0) == Operations(48, r, x)
    ensures Regs(a, b, c, d) == Operations(64, r, x)
  {
    Schedule3();
    hide Operations, Plus, Sum, Rotate, Mix, T0, T1, T2, Index, Shift;
    a, b, c, d := a0, b0, c0, d0;
    a := R3(a, b, c, d, x[0], 6, 0xf4292244, 48, r, x);
    d := R3(d, a, b, c, x[7], 10, 0x432aff97, 49, r, x);
    c := R3(c, d, a, b, x[14], 15, 0xab9423a7, 50, r, x);
    b := R3(b, c, d, a, x[5], 21, 0xfc93a039, 51, r, x);
    a := R3(a, b, c, d, x[12], 6, 0x655b59c3, 52, r, x);
    d := R3(d, a, b, c, x[3], 10, 0x8f0ccc92, 53, r, x);
    c := R3(c, d, a, b, x[10], 15, 0xffeff47d, 54, r, x);
    b := R3(b, c, d, a, x[1], 21, 0x85845dd1, 55, r, x);
    a := R3(a, b, c, d, x[8], 6, 0x6fa87e4f, 56, r, x);
    d := R3(d, a, b, c, x[15], 10, 0xfe2ce6e0, 57, r, x);
    c := R3(c, d, a, b, x[6], 15, 0xa3014314, 58, r, x);
    b := R3(b, c, d, a, x[13], 21, 0x4e0811a1, 59, r, x);
    a := R3(a, b, c, d, x[4], 6, 0xf7537e82, 60, r, x);
    d := R3(d, a, b, c, x[11], 10, 0xbd3af235, 61, r, x);
    c := R3(c, d, a, b, x[2], 15, 0x2ad7d2bb, 62, r, x);
    b := R3(b, c, d, a, x[9], 21, 0xeb86d391, 63, r, x);
  }

}

/** The first round of the data-order block function, with its interleaved loads. */
module Md5DataOrder {
  import opened Md5Spec
  import opened Sequences
  import opened Md5Block
  import opened Md5Lemmas
  import opened Md5Macros

  /** x is the block of sixteen words at byte p of c. */
  ghost predicate BlockAt(c: seq<Byte>, p: nat, x: seq<Word>) {
    p + 64 <= |c| && x == Words(c[p..p + 64])
  }

  method LoadWord(c: seq<Byte>, q: nat, ghost p: nat, ghost i: nat, ghost x: seq<Word>) returns (l: Word, next: nat)
    requires i < 16 == |x| && BlockAt(c, p, x) && q == p + 4 * i
    ensures l == x[i] && next == p + 4 * (i + 1)
  {
    hide WordAt;
    ghost var m := c[p..p + 64];
    SliceOfSlice(c, p, p + 64, 4 * i, 4 * i + 4);
    l, next := HostC2l(c, q, m, i);
  }

  // Round 0 of the data-order block function, four steps at a time: the words are loaded between the steps.

  method LoadingSteps0(a0: Word, b0: Word, c0: Word, d0: Word, m: seq<Byte>, q0: nat,
    ghost p: nat, ghost r: Regs, ghost x: seq<Word>)
    returns (a: Word, b: Word, c: Word, d: Word, q: nat, x0: Word, x1: Word, x2: Word, x3: Word, x4: Word, x5: Word)
    requires |x| == 16 && BlockAt(m, p, x) && q0 == p + 0 && Regs(a0, b0, c0, d0) == Operations(0, r, x)
    ensures q == p + 24 && x0 == x[0] && x1 == x[1] && x2 == x[2] && x3 == x[3] && x4 == x[4] && x5 == x[5]
    ensures Regs(a, b, c, d) == Operations(4, r, x)
  {
    hide Operations, BlockAt;
    a, b, c, d, q := a0, b0, c0, d0, q0;
    x0, q := LoadWord(m, q, p, 0, x);
    x1, q := LoadWord(m, q, p, 1, x);
    a := R0(a, b, c, d, x0, 7, 0xd76aa478, 0, r, x);
    x2, q := LoadWord(m, q, p, 2, x);
    d := R0(d, a, b, c, x1, 12, 0xe8c7b756, 1, r, x);
    x3, q := LoadWord(m, q, p, 3, x);
    c := R0(c, d, a, b, x2, 17, 0x242070db, 2, r, x);
    x4, q := LoadWord(m, q, p, 4, x);
    b := R0(b, c, d, a, x3, 22, 0xc1bdceee, 3, r, x);
    x5, q := LoadWord(m, q, p, 5, x);
  }

  method LoadingSteps4(a0: Word, b0: Word, c0: Word, d0: Word, m: seq<Byte>, q0: nat, x4: Word, x5: Word,
    ghost p: nat, ghost r: Regs, ghost x: seq<Word>)
    returns (a: Word, b: Word, c: Word, d: Word, q: nat, x6: Word, x7: Word, x8: Word, x9: Word)
    requires |x| == 16 && BlockAt(m, p, x) && q0 == p + 24 && Regs(a0, b0, c0, d0) == Operations(4, r, x)
    requires x4 == x[4] && x5 == x[5]
    ensures q == p + 40 && x6 == x[6] && x7 == x[7] && x8 == x[8] && x9 == x[9]
    ensures Regs(a, b, c, d) == Operations(8, r, x)
  {
    hide Operations, BlockAt;
    a, b, c, d, q := a0, b0, c0, d0, q0;
    a := R0(a, b, c, d, x4, 7, 0xf57c0faf, 4, r, x);
    x6, q := LoadWord(m, q, p, 6, x);
    d := R0(d, a, b, c, x5, 12, 0x4787c62a, 5, r, x);
    x7, q := LoadWord(m, q, p, 7, x);
    c := R0(c, d, a, b, x6, 17, 0xa8304613, 6, r, x);
    x8, q := LoadWord(m, q, p, 8, x);
    b := R0(b, c, d, a, x7, 22, 0xfd469501, 7, r, x);
    x9, q := LoadWord(m, q, p, 9, x);
  }

  method LoadingSteps8(a0: Word, b0: Word, c0: Word, d0: Word, m: seq<Byte>, q0: nat, x8: Word, x9: Word,
    ghost p: nat, ghost r: Regs, ghost x: seq<Word>)
    returns (a: Word, b: Word, c: Word, d: Word, q: nat, x10: Word, x11: Word, x12: Word, x13: Word)
    requires |x| == 16 && BlockAt(m, p, x) && q0 == p + 40 && Regs(a0, b0, c0, d0) == Operations(8, r, x)
    requires x8 == x[8] && x9 == x[9]
    ensures q == p + 56 && x10 == x[10] && x11 == x[11] && x12 == x[12] && x13 == x[13]
    ensures Regs(a, b, c, d) == Operations(12, r, x)
  {
    hide Operations, BlockAt;
    a, b, c, d, q := a0, b0, c0, d0, q0;
    a := R0(a, b, c, d, x8, 7, 0x698098d8, 8, r, x);
    x10, q := LoadWord(m, q, p, 10, x);
    d := R0(d, a, b, c, x9, 12, 0x8b44f7af, 9, r, x);
    x11, q := LoadWord(m, q, p, 11, x);
    c := R0(c, d, a, b, x10, 17, 0xffff5bb1, 10, r, x);
    x12, q := LoadWord(m, q, p, 12, x);
    b := R0(b, c, d, a, x11, 22, 0x895cd7be, 11, r, x);
    x13, q := LoadWord(m, q, p, 13, x);
  }

  method LoadingSteps12(a0: Word, b0: Word, c0: Word, d0: Word, m: seq<Byte>, q0: nat, x12: Word, x13: Word,
    ghost p: nat, ghost r: Regs, ghost x: seq<Word>)
    returns (a: Word, b: Word, c: Word, d: Word, q: nat, x14: Word, x15: Word)
    requires |x| == 16 && BlockAt(m, p, x) && q0 == p + 56 && Regs(a0, b0, c0, d0) == Operations(12, r, x)
    requires x12 == x[12] && x13 == x[13]
    ensures q == p + 64 && x14 == x[14] && x15 == x[15]
    ensures Regs(a, b, c, d) == Operations(16, r, x)
  {
    hide Operations, BlockAt;
    a, b, c, d, q := a0, b0, c0, d0, q0;
    a := R0(a, b, c, d, x12, 7, 0x6b901122, 12, r, x);
    x14, q := LoadWord(m, q, p, 14, x);
    d := R0(d, a, b, c, x13, 12, 0xfd987193, 13, r, x);
    x15, q := LoadWord(m, q, p, 15, x);
    c := R0(c, d, a, b, x14, 17, 0xa679438e, 14, r, x);
    b := R0(b, c, d, a, x15, 22, 0x49b40821, 15, r, x);
  }
}

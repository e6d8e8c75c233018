/** A digest of appendix A.5 of RFC 1321, step by step: a message whose end needs a block of its own. */
module Md5Vectors {
  import opened Md5Lemmas
  import opened Md5Spec

  /** "A" to "Z", "a" to "z" and "0" to "9". */
  function Character(i: nat): Byte
    requires i < 62
  {
    (if i < 26 then 0x41 + i else if i < 52 then 0x61 + i - 26 else 0x30 + i - 52) as Byte
  }

  const MESSAGE := seq(62, i requires 0 <= i < 62 => Character(i))

  const AFTER_FIRST := Regs(0x83fd320b, 0xdefbe5cf, 0xa9b1642f, 0xfa6f932a)
  const AFTER_SECOND := Regs(0x98ab74d1, 0xf5d977d2, 0x2c1c61a5, 0x9f9d419f)

  /** The message and its end mark. */
  predicate IsFirst(x: seq<Word>) {
    |x| == 16
    && x[0] == 0x44434241 && x[1] == 0x48474645 && x[2] == 0x4c4b4a49 && x[3] == 0x504f4e4d
    && x[4] == 0x54535251 && x[5] == 0x58575655 && x[6] == 0x62615a59 && x[7] == 0x66656463
    && x[8] == 0x6a696867 && x[9] == 0x6e6d6c6b && x[10] == 0x7271706f && x[11] == 0x76757473
    && x[12] == 0x7a797877 && x[13] == 0x33323130 && x[14] == 0x37363534 && x[15] == 0x00803938
  }

  /** Zeros and the length. */
  predicate IsSecond(x: seq<Word>) {
    |x| == 16
    && x[0] == 0x00000000 && x[1] == 0x00000000 && x[2] == 0x00000000 && x[3] == 0x00000000
    && x[4] == 0x00000000 && x[5] == 0x00000000 && x[6] == 0x00000000 && x[7] == 0x00000000
    && x[8] == 0x00000000 && x[9] == 0x00000000 && x[10] == 0x00000000 && x[11] == 0x00000000
    && x[12] == 0x00000000 && x[13] == 0x00000000 && x[14] == 0x000001f0 && x[15] == 0x00000000
  }

  lemma Step(start: Regs, x: seq<Word>, i: nat, a: Word, b: Word, c: Word, d: Word, k: Word, t: Word, s: bv6, v: Word)
    requires i < 64 && |x| == 16 && Operations(i, start, x) == Regs(a, b, c, d)
    requires x[Index(i)] == k && T(i) == t && Shift(i) == s
    requires Plus(b, Rotate(Sum(a, Mix(i, b, c, d), k, t), s)) == v
    ensures Operations(i + 1, start, x) == Regs(d, v, b, c)
  {
    hide Plus, Rotate, Sum, Mix, T, Shift, Index;
  }

  lemma FirstRound0(x: seq<Word>)
    requires IsFirst(x)
    ensures Operations(16, INITIAL, x) == Regs(0x3cbdcd45, 0x5d38e690, 0xfa148c8a, 0xb8dec763)
  {
    hide Operations;
    OperationsNone(INITIAL, x);
    Step(INITIAL, x, 0, 0x67452301, 0xefcdab89, 0x98badcfe, 0x10325476, 0x44434241, 0xd76aa478, 7, 0xc6c10796);
    Step(INITIAL, x, 1, 0x10325476, 0xc6c10796, 0xefcdab89, 0x98badcfe, 0x48474645, 0xe8c7b756, 12, 0x99a09999);
    Step(INITIAL, x, 2, 0x98badcfe, 0x99a09999, 0xc6c10796, 0xefcdab89, 0x4c4b4a49, 0x242070db, 17, 0x11067980);
    Step(INITIAL, x, 3, 0xefcdab89, 0x11067980, 0x99a09999, 0xc6c10796, 0x504f4e4d, 0xc1bdceee, 22, 0x27bce07a);
    Step(INITIAL, x, 4, 0xc6c10796, 0x27bce07a, 0x11067980, 0x99a09999, 0x54535251, 0xf57c0faf, 7, 0xf22e6c4e);
    Step(INITIAL, x, 5, 0x99a09999, 0xf22e6c4e, 0x27bce07a, 0x11067980, 0x58575655, 0x4787c62a, 12, 0xb4ac9218);
    Step(INITIAL, x, 6, 0x11067980, 0xb4ac9218, 0xf22e6c4e, 0x27bce07a, 0x62615a59, 0xa8304613, 17, 0xa95a2fc0);
    Step(INITIAL, x, 7, 0x27bce07a, 0xa95a2fc0, 0xb4ac9218, 0xf22e6c4e, 0x66656463, 0xfd469501, 22, 0xa4799506);
    Step(INITIAL, x, 8, 0xf22e6c4e, 0xa4799506, 0xa95a2fc0, 0xb4ac9218, 0x6a696867, 0x698098d8, 7, 0x1eb3e7c1);
    Step(INITIAL, x, 9, 0xb4ac9218, 0x1eb3e7c1, 0xa4799506, 0xa95a2fc0, 0x6e6d6c6b, 0x8b44f7af, 12, 0xa6e70cfe);
    Step(INITIAL, x, 10, 0xa95a2fc0, 0xa6e70cfe, 0x1eb3e7c1, 0xa4799506, 0x7271706f, 0xffff5bb1, 17, 0xca27520b);
    Step(INITIAL, x, 11, 0xa4799506, 0xca27520b, 0xa6e70cfe, 0x1eb3e7c1, 0x76757473, 0x895cd7be, 22, 0x8a7612ec);
    Step(INITIAL, x, 12, 0x1eb3e7c1, 0x8a7612ec, 0xca27520b, 0xa6e70cfe, 0x7a797877, 0x6b901122, 7, 0x3cbdcd45);
    Step(INITIAL, x, 13, 0xa6e70cfe, 0x3cbdcd45, 0x8a7612ec, 0xca27520b, 0x33323130, 0xfd987193, 12, 0xb8dec763);
    Step(INITIAL, x, 14, 0xca27520b, 0xb8dec763, 0x3cbdcd45, 0x8a7612ec, 0x37363534, 0xa679438e, 17, 0xfa148c8a);
    Step(INITIAL, x, 15, 0x8a7612ec, 0xfa148c8a, 0xb8dec763, 0x3cbdcd45, 0x00803938, 0x49b40821, 22, 0x5d38e690);
  }

  lemma FirstRound1(x: seq<Word>)
    requires IsFirst(x)
    requires Operations(16, INITIAL, x) == Regs(0x3cbdcd45, 0x5d38e690, 0xfa148c8a, 0xb8dec763)
    ensures Operations(32, INITIAL, x) == Regs(0x9b085fa9, 0xdd789ecc, 0x5993248f, 0x4400a9bd)
  {
    hide Operations;
    Step(INITIAL, x, 16, 0x3cbdcd45, 0x5d38e690, 0xfa148c8a, 0xb8dec763, 0x48474645, 0xf61e2562, 5, 0x04b9d52a);
    Step(INITIAL, x, 17, 0xb8dec763, 0x04b9d52a, 0x5d38e690, 0xfa148c8a, 0x62615a59, 0xc040b340, 9, 0x783002eb);
    Step(INITIAL, x, 18, 0xfa148c8a, 0x783002eb, 0x04b9d52a, 0x5d38e690, 0x76757473, 0x265e5a51, 14, 0xd3ee3ed1);
    Step(INITIAL, x, 19, 0x5d38e690, 0xd3ee3ed1, 0x783002eb, 0x04b9d52a, 0x44434241, 0xe9b6c7aa, 20, 0x47ae7c81);
    Step(INITIAL, x, 20, 0x04b9d52a, 0x47ae7c81, 0xd3ee3ed1, 0x783002eb, 0x58575655, 0xd62f105d, 5, 0x2d7d8a3f);
    Step(INITIAL, x, 21, 0x783002eb, 0x2d7d8a3f, 0x47ae7c81, 0xd3ee3ed1, 0x7271706f, 0x02441453, 9, 0xd1210823);
    Step(INITIAL, x, 22, 0xd3ee3ed1, 0xd1210823, 0x2d7d8a3f, 0x47ae7c81, 0x00803938, 0xd8a1e681, 14, 0x4b534dc3);
    Step(INITIAL, x, 23, 0x47ae7c81, 0x4b534dc3, 0xd1210823, 0x2d7d8a3f, 0x54535251, 0xe7d3fbc8, 20, 0x75292030);
    Step(INITIAL, x, 24, 0x2d7d8a3f, 0x75292030, 0x4b534dc3, 0xd1210823, 0x6e6d6c6b, 0x21e1cde6, 5, 0x9d2a6e33);
    Step(INITIAL, x, 25, 0xd1210823, 0x9d2a6e33, 0x75292030, 0x4b534dc3, 0x37363534, 0xc33707d6, 9, 0x0e8d2e44);
    Step(INITIAL, x, 26, 0x4b534dc3, 0x0e8d2e44, 0x9d2a6e33, 0x75292030, 0x504f4e4d, 0xf4d50d87, 14, 0xd473b564);
    Step(INITIAL, x, 27, 0x75292030, 0xd473b564, 0x0e8d2e44, 0x9d2a6e33, 0x6a696867, 0x455a14ed, 20, 0xf2ff6ea0);
    Step(INITIAL, x, 28, 0x9d2a6e33, 0xf2ff6ea0, 0xd473b564, 0x0e8d2e44, 0x33323130, 0xa9e3e905, 5, 0x9b085fa9);
    Step(INITIAL, x, 29, 0x0e8d2e44, 0x9b085fa9, 0xf2ff6ea0, 0xd473b564, 0x4c4b4a49, 0xfcefa3f8, 9, 0x4400a9bd);
    Step(INITIAL, x, 30, 0xd473b564, 0x4400a9bd, 0x9b085fa9, 0xf2ff6ea0, 0x66656463, 0x676f02d9, 14, 0x5993248f);
    Step(INITIAL, x, 31, 0xf2ff6ea0, 0x5993248f, 0x4400a9bd, 0x9b085fa9, 0x7a797877, 0x8d2a4c8a, 20, 0xdd789ecc);
  }

  lemma FirstRound2(x: seq<Word>)
    requires IsFirst(x)
    requires Operations(32, INITIAL, x) == Regs(0x9b085fa9, 0xdd789ecc, 0x5993248f, 0x4400a9bd)
    ensures Operations(48, INITIAL, x) == Regs(0x2dbee21d, 0xf166f514, 0xee46e961, 0xe95c3a43)
  {
    hide Operations;
    Step(INITIAL, x, 32, 0x9b085fa9, 0xdd789ecc, 0x5993248f, 0x4400a9bd, 0x58575655, 0xfffa3942, 4, 0x21c8d2b7);
    Step(INITIAL, x, 33, 0x4400a9bd, 0x21c8d2b7, 0xdd789ecc, 0x5993248f, 0x6a696867, 0x8771f681, 11, 0x1d55a18e);
    Step(INITIAL, x, 34, 0x5993248f, 0x1d55a18e, 0x21c8d2b7, 0xdd789ecc, 0x76757473, 0x6d9d6122, 16, 0x056ec119);
    Step(INITIAL, x, 35, 0xdd789ecc, 0x056ec119, 0x1d55a18e, 0x21c8d2b7, 0x37363534, 0xfde5380c, 23, 0x1b9504f8);
    Step(INITIAL, x, 36, 0x21c8d2b7, 0x1b9504f8, 0x056ec119, 0x1d55a18e, 0x48474645, 0xa4beea44, 4, 0x436b7fe9);
    Step(INITIAL, x, 37, 0x1d55a18e, 0x436b7fe9, 0x1b9504f8, 0x056ec119, 0x54535251, 0x4bdecfa9, 11, 0x075800c1);
    Step(INITIAL, x, 38, 0x056ec119, 0x075800c1, 0x436b7fe9, 0x1b9504f8, 0x66656463, 0xf6bb4b60, 16, 0xf404c2f6);
    Step(INITIAL, x, 39, 0x1b9504f8, 0xf404c2f6, 0x075800c1, 0x436b7fe9, 0x7271706f, 0xbebfbc70, 23, 0xcf0341ed);
    Step(INITIAL, x, 40, 0x436b7fe9, 0xcf0341ed, 0xf404c2f6, 0x075800c1, 0x33323130, 0x289b7ec6, 4, 0x888e7d8a);
    Step(INITIAL, x, 41, 0x075800c1, 0x888e7d8a, 0xcf0341ed, 0xf404c2f6, 0x44434241, 0xeaa127fa, 11, 0xbbdaecd8);
    Step(INITIAL, x, 42, 0xf404c2f6, 0xbbdaecd8, 0x888e7d8a, 0xcf0341ed, 0x504f4e4d, 0xd4ef3085, 16, 0xce620273);
    Step(INITIAL, x, 43, 0xcf0341ed, 0xce620273, 0xbbdaecd8, 0x888e7d8a, 0x62615a59, 0x04881d05, 23, 0x047b9419);
    Step(INITIAL, x, 44, 0x888e7d8a, 0x047b9419, 0xce620273, 0xbbdaecd8, 0x6e6d6c6b, 0xd9d4d039, 4, 0x2dbee21d);
    Step(INITIAL, x, 45, 0xbbdaecd8, 0x2dbee21d, 0x047b9419, 0xce620273, 0x7a797877, 0xe6db99e5, 11, 0xe95c3a43);
    Step(INITIAL, x, 46, 0xce620273, 0xe95c3a43, 0x2dbee21d, 0x047b9419, 0x00803938, 0x1fa27cf8, 16, 0xee46e961);
    Step(INITIAL, x, 47, 0x047b9419, 0xee46e961, 0xe95c3a43, 0x2dbee21d, 0x4c4b4a49, 0xc4ac5665, 23, 0xf166f514);
  }

  lemma FirstRound3(x: seq<Word>)
    requires IsFirst(x)
    requires Operations(48, INITIAL, x) == Regs(0x2dbee21d, 0xf166f514, 0xee46e961, 0xe95c3a43)
    ensures Operations(64, INITIAL, x) == Regs(0x1cb80f0a, 0xef2e3a46, 0x10f68731, 0xea3d3eb4)
  {
    hide Operations;
    Step(INITIAL, x, 48, 0x2dbee21d, 0xf166f514, 0xee46e961, 0xe95c3a43, 0x44434241, 0xf4292244, 6, 0xe47fd4f3);
    Step(INITIAL, x, 49, 0xe95c3a43, 0xe47fd4f3, 0xf166f514, 0xee46e961, 0x66656463, 0x432aff97, 10, 0xfb887751);
    Step(INITIAL, x, 50, 0xee46e961, 0xfb887751, 0xe47fd4f3, 0xf166f514, 0x37363534, 0xab9423a7, 15, 0xf22aedcc);
    Step(INITIAL, x, 51, 0xf166f514, 0xf22aedcc, 0xfb887751, 0xe47fd4f3, 0x58575655, 0xfc93a039, 21, 0x7a13bc5c);
    Step(INITIAL, x, 52, 0xe47fd4f3, 0x7a13bc5c, 0xf22aedcc, 0xfb887751, 0x7a797877, 0x655b59c3, 6, 0xa691d430);
    Step(INITIAL, x, 53, 0xfb887751, 0xa691d430, 0x7a13bc5c, 0xf22aedcc, 0x504f4e4d, 0x8f0ccc92, 10, 0x528452f2);
    Step(INITIAL, x, 54, 0xf22aedcc, 0x528452f2, 0xa691d430, 0x7a13bc5c, 0x7271706f, 0xffeff47d, 15, 0x3fc23df6);
    Step(INITIAL, x, 55, 0x7a13bc5c, 0x3fc23df6, 0x528452f2, 0xa691d430, 0x48474645, 0x85845dd1, 21, 0xefb0e72f);
    Step(INITIAL, x, 56, 0xa691d430, 0xefb0e72f, 0x3fc23df6, 0x528452f2, 0x6a696867, 0x6fa87e4f, 6, 0x27145703);
    Step(INITIAL, x, 57, 0x528452f2, 0x27145703, 0xefb0e72f, 0x3fc23df6, 0x00803938, 0xfe2ce6e0, 10, 0x21a11069);
    Step(INITIAL, x, 58, 0x3fc23df6, 0x21a11069, 0x27145703, 0xefb0e72f, 0x62615a59, 0xa3014314, 15, 0x374fbe79);
    Step(INITIAL, x, 59, 0xefb0e72f, 0x374fbe79, 0x21a11069, 0x27145703, 0x33323130, 0x4e0811a1, 21, 0x49d9a5b4);
    Step(INITIAL, x, 60, 0x27145703, 0x49d9a5b4, 0x374fbe79, 0x21a11069, 0x54535251, 0xf7537e82, 6, 0x1cb80f0a);
    Step(INITIAL, x, 61, 0x21a11069, 0x1cb80f0a, 0x49d9a5b4, 0x374fbe79, 0x76757473, 0xbd3af235, 10, 0xea3d3eb4);
    Step(INITIAL, x, 62, 0x374fbe79, 0xea3d3eb4, 0x1cb80f0a, 0x49d9a5b4, 0x4c4b4a49, 0x2ad7d2bb, 15, 0x10f68731);
    Step(INITIAL, x, 63, 0x49d9a5b4, 0x10f68731, 0xea3d3eb4, 0x1cb80f0a, 0x6e6d6c6b, 0xeb86d391, 21, 0xef2e3a46);
  }

  lemma SecondRound0(x: seq<Word>)
    requires IsSecond(x)
    ensures Operations(16, AFTER_FIRST, x) == Regs(0xa70737da, 0xa36f556f, 0x96f6586e, 0x5473f8a7)
  {
    hide Operations;
    OperationsNone(AFTER_FIRST, x);
    Step(AFTER_FIRST, x, 0, 0x83fd320b, 0xdefbe5cf, 0xa9b1642f, 0xfa6f932a, 0x00000000, 0xd76aa478, 7, 0xeda23ed1);
    Step(AFTER_FIRST, x, 1, 0xfa6f932a, 0xeda23ed1, 0xdefbe5cf, 0xa9b1642f, 0x00000000, 0xe8c7b756, 12, 0x989939cf);
    Step(AFTER_FIRST, x, 2, 0xa9b1642f, 0x989939cf, 0xeda23ed1, 0xdefbe5cf, 0x00000000, 0x242070db, 17, 0x3c307338);
    Step(AFTER_FIRST, x, 3, 0xdefbe5cf, 0x3c307338, 0x989939cf, 0xeda23ed1, 0x00000000, 0xc1bdceee, 22, 0xddcf0634);
    Step(AFTER_FIRST, x, 4, 0xeda23ed1, 0xddcf0634, 0x3c307338, 0x989939cf, 0x00000000, 0xf57c0faf, 7, 0x75144433);
    Step(AFTER_FIRST, x, 5, 0x989939cf, 0x75144433, 0xddcf0634, 0x3c307338, 0x00000000, 0x4787c62a, 12, 0xc8875807);
    Step(AFTER_FIRST, x, 6, 0x3c307338, 0xc8875807, 0x75144433, 0xddcf0634, 0x00000000, 0xa8304613, 17, 0xc783cb60);
    Step(AFTER_FIRST, x, 7, 0xddcf0634, 0xc783cb60, 0xc8875807, 0x75144433, 0x00000000, 0xfd469501, 22, 0x99b6b699);
    Step(AFTER_FIRST, x, 8, 0x75144433, 0x99b6b699, 0xc783cb60, 0xc8875807, 0x00000000, 0x698098d8, 7, 0xa60a3f69);
    Step(AFTER_FIRST, x, 9, 0xc8875807, 0xa60a3f69, 0x99b6b699, 0xc783cb60, 0x00000000, 0x8b44f7af, 12, 0xaa6630be);
    Step(AFTER_FIRST, x, 10, 0xc783cb60, 0xaa6630be, 0xa60a3f69, 0x99b6b699, 0x00000000, 0xffff5bb1, 17, 0x64db26e9);
    Step(AFTER_FIRST, x, 11, 0x99b6b699, 0x64db26e9, 0xaa6630be, 0xa60a3f69, 0x00000000, 0x895cd7be, 22, 0x64cc7c5a);
    Step(AFTER_FIRST, x, 12, 0xa60a3f69, 0x64cc7c5a, 0x64db26e9, 0xaa6630be, 0x00000000, 0x6b901122, 7, 0xa70737da);
    Step(AFTER_FIRST, x, 13, 0xaa6630be, 0xa70737da, 0x64cc7c5a, 0x64db26e9, 0x00000000, 0xfd987193, 12, 0x5473f8a7);
    Step(AFTER_FIRST, x, 14, 0x64db26e9, 0x5473f8a7, 0xa70737da, 0x64cc7c5a, 0x000001f0, 0xa679438e, 17, 0x96f6586e);
    Step(AFTER_FIRST, x, 15, 0x64cc7c5a, 0x96f6586e, 0x5473f8a7, 0xa70737da, 0x00000000, 0x49b40821, 22, 0xa36f556f);
  }

  lemma SecondRound1(x: seq<Word>)
    requires IsSecond(x)
    requires Operations(16, AFTER_FIRST, x) == Regs(0xa70737da, 0xa36f556f, 0x96f6586e, 0x5473f8a7)
    ensures Operations(32, AFTER_FIRST, x) == Regs(0x24eba695, 0x9c03e2e8, 0x10c42a2f, 0x4bd0378b)
  {
    hide Operations;
    Step(AFTER_FIRST, x, 16, 0xa70737da, 0xa36f556f, 0x96f6586e, 0x5473f8a7, 0x00000000, 0xf61e2562, 5, 0xa5050ad3);
    Step(AFTER_FIRST, x, 17, 0x5473f8a7, 0xa5050ad3, 0xa36f556f, 0x96f6586e, 0x00000000, 0xc040b340, 9, 0x28776046);
    Step(AFTER_FIRST, x, 18, 0x96f6586e, 0x28776046, 0xa5050ad3, 0xa36f556f, 0x00000000, 0x265e5a51, 14, 0x27dcd8b4);
    Step(AFTER_FIRST, x, 19, 0xa36f556f, 0x27dcd8b4, 0x28776046, 0xa5050ad3, 0x00000000, 0xe9b6c7aa, 20, 0x82b8827c);
    Step(AFTER_FIRST, x, 20, 0xa5050ad3, 0x82b8827c, 0x27dcd8b4, 0x28776046, 0x00000000, 0xd62f105d, 5, 0xe04f070c);
    Step(AFTER_FIRST, x, 21, 0x28776046, 0xe04f070c, 0x82b8827c, 0x27dcd8b4, 0x00000000, 0x02441453, 9, 0x2f3cd2a2);
    Step(AFTER_FIRST, x, 22, 0x27dcd8b4, 0x2f3cd2a2, 0xe04f070c, 0x82b8827c, 0x00000000, 0xd8a1e681, 14, 0xc0d22b61);
    Step(AFTER_FIRST, x, 23, 0x82b8827c, 0xc0d22b61, 0x2f3cd2a2, 0xe04f070c, 0x00000000, 0xe7d3fbc8, 20, 0xdf35cb56);
    Step(AFTER_FIRST, x, 24, 0xe04f070c, 0xdf35cb56, 0xc0d22b61, 0x2f3cd2a2, 0x00000000, 0x21e1cde6, 5, 0x242dd210);
    Step(AFTER_FIRST, x, 25, 0x2f3cd2a2, 0x242dd210, 0xdf35cb56, 0xc0d22b61, 0x000001f0, 0xc33707d6, 9, 0x576ace33);
    Step(AFTER_FIRST, x, 26, 0xc0d22b61, 0x576ace33, 0x242dd210, 0xdf35cb56, 0x00000000, 0xf4d50d87, 14, 0x5c295967);
    Step(AFTER_FIRST, x, 27, 0xdf35cb56, 0x5c295967, 0x576ace33, 0x242dd210, 0x00000000, 0x455a14ed, 20, 0x2291191a);
    Step(AFTER_FIRST, x, 28, 0x242dd210, 0x2291191a, 0x5c295967, 0x576ace33, 0x00000000, 0xa9e3e905, 5, 0x24eba695);
    Step(AFTER_FIRST, x, 29, 0x576ace33, 0x24eba695, 0x2291191a, 0x5c295967, 0x00000000, 0xfcefa3f8, 9, 0x4bd0378b);
    Step(AFTER_FIRST, x, 30, 0x5c295967, 0x4bd0378b, 0x24eba695, 0x2291191a, 0x00000000, 0x676f02d9, 14, 0x10c42a2f);
    Step(AFTER_FIRST, x, 31, 0x2291191a, 0x10c42a2f, 0x4bd0378b, 0x24eba695, 0x00000000, 0x8d2a4c8a, 20, 0x9c03e2e8);
  }

  lemma SecondRound2(x: seq<Word>)
    requires IsSecond(x)
    requires Operations(32, AFTER_FIRST, x) == Regs(0x24eba695, 0x9c03e2e8, 0x10c42a2f, 0x4bd0378b)
    ensures Operations(48, AFTER_FIRST, x) == Regs(0x54c9eb3a, 0x79c0710a, 0x2ec86f72, 0xd4d9c6ac)
  {
    hide Operations;
    Step(AFTER_FIRST, x, 32, 0x24eba695, 0x9c03e2e8, 0x10c42a2f, 0x4bd0378b, 0x00000000, 0xfffa3942, 4, 0x5be1d526);
    Step(AFTER_FIRST, x, 33, 0x4bd0378b, 0x5be1d526, 0x9c03e2e8, 0x10c42a2f, 0x00000000, 0x8771f681, 11, 0x9e414279);
    Step(AFTER_FIRST, x, 34, 0x10c42a2f, 0x9e414279, 0x5be1d526, 0x9c03e2e8, 0x00000000, 0x6d9d6122, 16, 0x9f4a1a7e);
    Step(AFTER_FIRST, x, 35, 0x9c03e2e8, 0x9f4a1a7e, 0x9e414279, 0x5be1d526, 0x000001f0, 0xfde5380c, 23, 0xa2448453);
    Step(AFTER_FIRST, x, 36, 0x5be1d526, 0xa2448453, 0x9f4a1a7e, 0x9e414279, 0x00000000, 0xa4beea44, 4, 0xe14e403d);
    Step(AFTER_FIRST, x, 37, 0x9e414279, 0xe14e403d, 0xa2448453, 0x9f4a1a7e, 0x00000000, 0x4bdecfa9, 11, 0xe8cfd670);
    Step(AFTER_FIRST, x, 38, 0x9f4a1a7e, 0xe8cfd670, 0xe14e403d, 0xa2448453, 0x00000000, 0xf6bb4b60, 16, 0x60cc183a);
    Step(AFTER_FIRST, x, 39, 0xa2448453, 0x60cc183a, 0xe8cfd670, 0xe14e403d, 0x00000000, 0xbebfbc70, 23, 0xfe314121);
    Step(AFTER_FIRST, x, 40, 0xe14e403d, 0xfe314121, 0x60cc183a, 0xe8cfd670, 0x00000000, 0x289b7ec6, 4, 0xfff62809);
    Step(AFTER_FIRST, x, 41, 0xe8cfd670, 0xfff62809, 0xfe314121, 0x60cc183a, 0x00000000, 0xeaa127fa, 11, 0xe37209ac);
    Step(AFTER_FIRST, x, 42, 0x60cc183a, 0xe37209ac, 0xfff62809, 0xfe314121, 0x00000000, 0xd4ef3085, 16, 0x8cb5221c);
    Step(AFTER_FIRST, x, 43, 0xfe314121, 0x8cb5221c, 0xe37209ac, 0xfff62809, 0x00000000, 0x04881d05, 23, 0x7c7e974c);
    Step(AFTER_FIRST, x, 44, 0xfff62809, 0x7c7e974c, 0x8cb5221c, 0xe37209ac, 0x00000000, 0xd9d4d039, 4, 0x54c9eb3a);
    Step(AFTER_FIRST, x, 45, 0xe37209ac, 0x54c9eb3a, 0x7c7e974c, 0x8cb5221c, 0x00000000, 0xe6db99e5, 11, 0xd4d9c6ac);
    Step(AFTER_FIRST, x, 46, 0x8cb5221c, 0xd4d9c6ac, 0x54c9eb3a, 0x7c7e974c, 0x00000000, 0x1fa27cf8, 16, 0x2ec86f72);
    Step(AFTER_FIRST, x, 47, 0x7c7e974c, 0x2ec86f72, 0xd4d9c6ac, 0x54c9eb3a, 0x00000000, 0xc4ac5665, 23, 0x79c0710a);
  }

  lemma SecondRound3(x: seq<Word>)
    requires IsSecond(x)
    requires Operations(48, AFTER_FIRST, x) == Regs(0x54c9eb3a, 0x79c0710a, 0x2ec86f72, 0xd4d9c6ac)
    ensures Operations(64, AFTER_FIRST, x) == Regs(0x14ae42c6, 0x16dd9203, 0x826afd76, 0xa52dae75)
  {
    hide Operations;
    Step(AFTER_FIRST, x, 48, 0x54c9eb3a, 0x79c0710a, 0x2ec86f72, 0xd4d9c6ac, 0x00000000, 0xf4292244, 6, 0x02095af1);
    Step(AFTER_FIRST, x, 49, 0xd4d9c6ac, 0x02095af1, 0x79c0710a, 0x2ec86f72, 0x00000000, 0x432aff97, 10, 0x13d245fd);
    Step(AFTER_FIRST, x, 50, 0x2ec86f72, 0x13d245fd, 0x02095af1, 0x79c0710a, 0x000001f0, 0xab9423a7, 15, 0xa8dcfe26);
    Step(AFTER_FIRST, x, 51, 0x79c0710a, 0xa8dcfe26, 0x13d245fd, 0x02095af1, 0x00000000, 0xfc93a039, 21, 0x2ba98e3f);
    Step(AFTER_FIRST, x, 52, 0x02095af1, 0x2ba98e3f, 0xa8dcfe26, 0x13d245fd, 0x00000000, 0x655b59c3, 6, 0xe126c1aa);
    Step(AFTER_FIRST, x, 53, 0x13d245fd, 0xe126c1aa, 0x2ba98e3f, 0xa8dcfe26, 0x00000000, 0x8f0ccc92, 10, 0x96b00fa7);
    Step(AFTER_FIRST, x, 54, 0xa8dcfe26, 0x96b00fa7, 0xe126c1aa, 0x2ba98e3f, 0x00000000, 0xffeff47d, 15, 0x6f287ff5);
    Step(AFTER_FIRST, x, 55, 0x2ba98e3f, 0x6f287ff5, 0x96b00fa7, 0xe126c1aa, 0x00000000, 0x85845dd1, 21, 0xfb7bcee0);
    Step(AFTER_FIRST, x, 56, 0xe126c1aa, 0xfb7bcee0, 0x6f287ff5, 0x96b00fa7, 0x00000000, 0x6fa87e4f, 6, 0x452c1099);
    Step(AFTER_FIRST, x, 57, 0x96b00fa7, 0x452c1099, 0xfb7bcee0, 0x6f287ff5, 0x00000000, 0xfe2ce6e0, 10, 0xca801ba6);
    Step(AFTER_FIRST, x, 58, 0x6f287ff5, 0xca801ba6, 0x452c1099, 0xfb7bcee0, 0x00000000, 0xa3014314, 15, 0xc197ea8e);
    Step(AFTER_FIRST, x, 59, 0xfb7bcee0, 0xc197ea8e, 0xca801ba6, 0x452c1099, 0x00000000, 0x4e0811a1, 21, 0x5ac74608);
    Step(AFTER_FIRST, x, 60, 0x452c1099, 0x5ac74608, 0xc197ea8e, 0xca801ba6, 0x00000000, 0xf7537e82, 6, 0x14ae42c6);
    Step(AFTER_FIRST, x, 61, 0xca801ba6, 0x14ae42c6, 0x5ac74608, 0xc197ea8e, 0x00000000, 0xbd3af235, 10, 0xa52dae75);
    Step(AFTER_FIRST, x, 62, 0xc197ea8e, 0xa52dae75, 0x14ae42c6, 0x5ac74608, 0x00000000, 0x2ad7d2bb, 15, 0x826afd76);
    Step(AFTER_FIRST, x, 63, 0x5ac74608, 0x826afd76, 0xa52dae75, 0x14ae42c6, 0x00000000, 0xeb86d391, 21, 0x16dd9203);
  }

  lemma FirstBlock(x: seq<Word>)
    requires IsFirst(x)
    ensures Compress(INITIAL, x) == AFTER_FIRST
  {
    FirstRound0(x);
    FirstRound1(x);
    FirstRound2(x);
    FirstRound3(x);
    hide Operations;
  }

  lemma SecondBlock(x: seq<Word>)
    requires IsSecond(x)
    ensures Compress(AFTER_FIRST, x) == AFTER_SECOND
  {
    SecondRound0(x);
    SecondRound1(x);
    SecondRound2(x);
    SecondRound3(x);
    hide Operations;
  }

  /** The message with its end mark. */
  ghost predicate IsMarked(m: seq<Byte>) {
    |m| == 63 && m[62] == 0x80 && forall i :: 0 <= i < 62 ==> m[i] == Character(i)
  }

  lemma WordIs(m: seq<Byte>, i: nat, b0: Byte, b1: Byte, b2: Byte, b3: Byte, w: Word)
    requires 4 * i < |m| && m[4 * i] == b0
    requires if 4 * i + 1 < |m| then m[4 * i + 1] == b1 else b1 == 0
    requires if 4 * i + 2 < |m| then m[4 * i + 2] == b2 else b2 == 0
    requires if 4 * i + 3 < |m| then m[4 * i + 3] == b3 else b3 == 0
    requires Join(b0 as Word, b1 as Word, b2 as Word, b3 as Word) == w
    ensures WordAt(m, i) == w
  {
    hide Join;
  }

  lemma MarkedWords0(m: seq<Byte>)
    requires IsMarked(m)
    ensures WordAt(m, 0) == 0x44434241 && WordAt(m, 1) == 0x48474645
    ensures WordAt(m, 2) == 0x4c4b4a49 && WordAt(m, 3) == 0x504f4e4d
  {
    WordIs(m, 0, 0x41, 0x42, 0x43, 0x44, 0x44434241);
    WordIs(m, 1, 0x45, 0x46, 0x47, 0x48, 0x48474645);
    WordIs(m, 2, 0x49, 0x4a, 0x4b, 0x4c, 0x4c4b4a49);
    WordIs(m, 3, 0x4d, 0x4e, 0x4f, 0x50, 0x504f4e4d);
  }

  lemma MarkedWords1(m: seq<Byte>)
    requires IsMarked(m)
    ensures WordAt(m, 4) == 0x54535251 && WordAt(m, 5) == 0x58575655
    ensures WordAt(m, 6) == 0x62615a59 && WordAt(m, 7) == 0x66656463
  {
    WordIs(m, 4, 0x51, 0x52, 0x53, 0x54, 0x54535251);
    WordIs(m, 5, 0x55, 0x56, 0x57, 0x58, 0x58575655);
    WordIs(m, 6, 0x59, 0x5a, 0x61, 0x62, 0x62615a59);
    WordIs(m, 7, 0x63, 0x64, 0x65, 0x66, 0x66656463);
  }

  lemma MarkedWords2(m: seq<Byte>)
    requires IsMarked(m)
    ensures WordAt(m, 8) == 0x6a696867 && WordAt(m, 9) == 0x6e6d6c6b
    ensures WordAt(m, 10) == 0x7271706f && WordAt(m, 11) == 0x76757473
  {
    WordIs(m, 8, 0x67, 0x68, 0x69, 0x6a, 0x6a696867);
    WordIs(m, 9, 0x6b, 0x6c, 0x6d, 0x6e, 0x6e6d6c6b);
    WordIs(m, 10, 0x6f, 0x70, 0x71, 0x72, 0x7271706f);
    WordIs(m, 11, 0x73, 0x74, 0x75, 0x76, 0x76757473);
  }

  lemma MarkedWords3(m: seq<Byte>)
    requires IsMarked(m)
    ensures WordAt(m, 12) == 0x7a797877 && WordAt(m, 13) == 0x33323130
    ensures WordAt(m, 14) == 0x37363534 && WordAt(m, 15) == 0x00803938
  {
    WordIs(m, 12, 0x77, 0x78, 0x79, 0x7a, 0x7a797877);
    WordIs(m, 13, 0x30, 0x31, 0x32, 0x33, 0x33323130);
    WordIs(m, 14, 0x34, 0x35, 0x36, 0x37, 0x37363534);
    WordIs(m, 15, 0x38, 0x39, 0x80, 0, 0x00803938);
  }

  lemma FirstIs(x: seq<Word>, m: seq<Byte>)
    requires IsMarked(m) && |x| == 16 && forall i :: 0 <= i < 16 ==> x[i] == WordAt(m, i)
    ensures IsFirst(x)
  {
    hide WordAt, IsMarked;
    MarkedWords0(m);
    MarkedWords1(m);
    MarkedWords2(m);
    MarkedWords3(m);
  }

  lemma LengthOfMessage()
    ensures LowWord(8 * |MESSAGE|) == 0x1f0 && HighWord(8 * |MESSAGE|) == 0
  {
    assert 8 * |MESSAGE| == 0x1f0;
    assert WordOf(0x1f) == 0x1f;
    assert WordOf(0x1f0) == 0x1f0;
  }

  lemma Padded()
    ensures |PaddedWords(MESSAGE)| == 32
    ensures IsFirst(PaddedWords(MESSAGE)[..16]) && IsSecond(PaddedWords(MESSAGE)[16..])
  {
    hide WordAt, LowWord, HighWord, Character, IsFirst;
    PaddedLength(MESSAGE);
    var w, m := PaddedWords(MESSAGE), MESSAGE + [0x80];
    forall i | 0 <= i < 30
      ensures w[i] == WordAt(m, i) && (i >= 16 ==> w[i] == 0)
    {
      PaddedWordAt(MESSAGE, i);
      if i >= 16 {
        PastTheEnd(m, i);
      }
    }
    FirstIs(w[..16], m);
    LengthOfMessage();
  }

  /** Section 3.3: the low-order bytes of the registers first. */
  lemma InitialBytes()
    ensures Output(INITIAL) == [0x01, 0x23, 0x45, 0x67, 0x89, 0xab, 0xcd, 0xef,
                                0xfe, 0xdc, 0xba, 0x98, 0x76, 0x54, 0x32, 0x10]
  {
  }

  lemma LastBytes()
    ensures Output(AFTER_SECOND) == [0xd1, 0x74, 0xab, 0x98, 0xd2, 0x77, 0xd9, 0xf5,
                                         0xa5, 0x61, 0x1c, 0x2c, 0x9f, 0x41, 0x9d, 0x9f]
  {
  }

  lemma DigestOfMessage()
    ensures Digest(MESSAGE) == [0xd1, 0x74, 0xab, 0x98, 0xd2, 0x77, 0xd9, 0xf5,
                                 0xa5, 0x61, 0x1c, 0x2c, 0x9f, 0x41, 0x9d, 0x9f]
  {
    hide PaddedWords, Compress, Output;
    Padded();
    var w := PaddedWords(MESSAGE);
    FirstBlock(w[..16]);
    SecondBlock(w[16..]);
    assert w[0..16] == w[..16] && w[16..32] == w[16..];
    assert Fold(INITIAL, w, 1) == Compress(Fold(INITIAL, w, 0), w[0..16]);
    assert Fold(INITIAL, w, 2) == Compress(Fold(INITIAL, w, 1), w[16..32]);
    LastBytes();
  }
}

/** The MD5 digest as sections 2 and 3 of RFC 1321 define it. */
module Md5Spec {

  type Byte = bv8
  type Word = bv32

  const TWO_TO_32: nat := 0x1_0000_0000
  const TWO_TO_64: nat := 0x1_0000_0000_0000_0000

  /** The four registers of section 3.3. */
  datatype Regs = Regs(a: Word, b: Word, c: Word, d: Word)

  const INITIAL := Regs(0x67452301, 0xefcdab89, 0x98badcfe, 0x10325476)

  // Section 2: bytes as words, low-order byte first. Bytes past the end count as zero.

  function ByteAt(m: seq<Byte>, k: nat): Word {
    if k < |m| then m[k] as Word else 0
  }

  function Join(b0: Word, b1: Word, b2: Word, b3: Word): Word {
    b0 | (b1 << 8) | (b2 << 16) | (b3 << 24)
  }

  function WordAt(m: seq<Byte>, i: nat): Word {
    Join(ByteAt(m, 4 * i), ByteAt(m, 4 * i + 1), ByteAt(m, 4 * i + 2), ByteAt(m, 4 * i + 3))
  }

  function Words(m: seq<Byte>): (w: seq<Word>)
    ensures |w| == (|m| + 3) / 4
  {
    seq((|m| + 3) / 4, i requires 0 <= i => WordAt(m, i))
  }

  // Section 3.1: a one bit, then zero bits, up to 448 modulo 512.

  function Zeros(n: nat): seq<Byte> {
    seq(n, _ => 0)
  }

  function Pad(m: seq<Byte>): (p: seq<Byte>)
    ensures |p| % 64 == 56 && m < p
  {
    m + [0x80] + Zeros((55 - |m|) % 64)
  }

  // Section 3.2: the bit length, low-order word first, modulo 2^64.

  /** The word with the binary digits of n. */
  function WordOf(n: nat): Word {
    if n == 0 then 0 else (WordOf(n / 2) << 1) | (if n % 2 == 1 then 1 else 0)
  }

  function LowWord(bits: nat): Word {
    WordOf(bits % TWO_TO_32)
  }

  function HighWord(bits: nat): Word {
    WordOf(bits % TWO_TO_64 / TWO_TO_32)
  }

  function PaddedWords(m: seq<Byte>): seq<Word>
  {
    Words(Pad(m)) + [LowWord(8 * |m|), HighWord(8 * |m|)]
  }

  // Section 3.4: the auxiliary functions, the table and the 64 operations.

  function F(x: Word, y: Word, z: Word): Word { (x & y) | (!x & z) }

  function G(x: Word, y: Word, z: Word): Word { (x & z) | (y & !z) }

  function H(x: Word, y: Word, z: Word): Word { x ^ y ^ z }

  function I(x: Word, y: Word, z: Word): Word { y ^ (x | !z) }

  /** Addition modulo 2^32. */
  function Plus(x: Word, y: Word): Word {
    x + y
  }

  function Sum(a: Word, f: Word, x: Word, t: Word): Word {
    a + f + x + t
  }

  /** X <<< s. */
  function Rotate(x: Word, s: bv6): Word
    requires 0 < s < 32
  {
    (x << s) | (x >> (32 - s))
  }

  /** The table of section 3.4, counted from 0. */
  function T(i: nat): Word
    requires i < 64
  {
    if i < 16 then T0(i) else if i < 32 then T1(i - 16) else if i < 48 then T2(i - 32) else T3(i - 48)
  }

  function T0(i: nat): Word
    requires i < 16
  {
    match i
    case 0 => 0xd76aa478 case 1 => 0xe8c7b756 case 2 => 0x242070db case 3 => 0xc1bdceee
    case 4 => 0xf57c0faf case 5 => 0x4787c62a case 6 => 0xa8304613 case 7 => 0xfd469501
    case 8 => 0x698098d8 case 9 => 0x8b44f7af case 10 => 0xffff5bb1 case 11 => 0x895cd7be
    case 12 => 0x6b901122 case 13 => 0xfd987193 case 14 => 0xa679438e case _ => 0x49b40821
  }

  function T1(i: nat): Word
    requires i < 16
  {
    match i
    case 0 => 0xf61e2562 case 1 => 0xc040b340 case 2 => 0x265e5a51 case 3 => 0xe9b6c7aa
    case 4 => 0xd62f105d case 5 => 0x02441453 case 6 => 0xd8a1e681 case 7 => 0xe7d3fbc8
    case 8 => 0x21e1cde6 case 9 => 0xc33707d6 case 10 => 0xf4d50d87 case 11 => 0x455a14ed
    case 12 => 0xa9e3e905 case 13 => 0xfcefa3f8 case 14 => 0x676f02d9 case _ => 0x8d2a4c8a
  }

  function T2(i: nat): Word
    requires i < 16
  {
    match i
    case 0 => 0xfffa3942 case 1 => 0x8771f681 case 2 => 0x6d9d6122 case 3 => 0xfde5380c
    case 4 => 0xa4beea44 case 5 => 0x4bdecfa9 case 6 => 0xf6bb4b60 case 7 => 0xbebfbc70
    case 8 => 0x289b7ec6 case 9 => 0xeaa127fa case 10 => 0xd4ef3085 case 11 => 0x04881d05
    case 12 => 0xd9d4d039 case 13 => 0xe6db99e5 case 14 => 0x1fa27cf8 case _ => 0xc4ac5665
  }

  function T3(i: nat): Word
    requires i < 16
  {
    match i
    case 0 => 0xf4292244 case 1 => 0x432aff97 case 2 => 0xab9423a7 case 3 => 0xfc93a039
    case 4 => 0x655b59c3 case 5 => 0x8f0ccc92 case 6 => 0xffeff47d case 7 => 0x85845dd1
    case 8 => 0x6fa87e4f case 9 => 0xfe2ce6e0 case 10 => 0xa3014314 case 11 => 0x4e0811a1
    case 12 => 0xf7537e82 case 13 => 0xbd3af235 case 14 => 0x2ad7d2bb case _ => 0xeb86d391
  }

  /** The word that operation i (counted from 0) reads. */
  function Index(i: nat): (k: nat)
    ensures k < 16
  {
    if i < 16 then i else if i < 32 then (5 * i + 1) % 16 else if i < 48 then (3 * i + 5) % 16 else 7 * i % 16
  }

  function Shift(i: nat): (s: bv6)
    ensures 0 < s < 32
  {
    if i < 16 then (match i % 4 case 0 => 7 case 1 => 12 case 2 => 17 case _ => 22)
    else if i < 32 then (match i % 4 case 0 => 5 case 1 => 9 case 2 => 14 case _ => 20)
    else if i < 48 then (match i % 4 case 0 => 4 case 1 => 11 case 2 => 16 case _ => 23)
    else (match i % 4 case 0 => 6 case 1 => 10 case 2 => 15 case _ => 21)
  }

  function Mix(i: nat, x: Word, y: Word, z: Word): Word {
    if i < 16 then F(x, y, z) else if i < 32 then G(x, y, z) else if i < 48 then H(x, y, z) else I(x, y, z)
  }

  /** a = b + ((a + mix(b, c, d) + X[k] + T[i]) <<< s); the registers then change roles. */
  function Operation(i: nat, r: Regs, x: seq<Word>): Regs
    requires i < 64 && |x| == 16
  {
    Regs(r.d, Plus(r.b, Rotate(Sum(r.a, Mix(i, r.b, r.c, r.d), x[Index(i)], T(i)), Shift(i))), r.b, r.c)
  }

  function Operations(n: nat, r: Regs, x: seq<Word>): Regs
    requires n <= 64 && |x| == 16
  {
    if n == 0 then r else Operation(n - 1, Operations(n - 1, r, x), x)
  }

  function Compress(r: Regs, x: seq<Word>): Regs
    requires |x| == 16
  {
    var s := Operations(64, r, x);
    Regs(Plus(r.a, s.a), Plus(r.b, s.b), Plus(r.c, s.c), Plus(r.d, s.d))
  }

  /** The registers after the first n blocks of w. */
  function Fold(r: Regs, w: seq<Word>, n: nat): Regs
    requires 16 * n <= |w|
  {
    if n == 0 then r else Compress(Fold(r, w, n - 1), w[16 * (n - 1)..16 * n])
  }

  // Section 3.5: the registers as sixteen bytes, low-order byte of A first.

  function Bytes(w: Word): seq<Byte> {
    [(w & 0xff) as Byte, ((w >> 8) & 0xff) as Byte, ((w >> 16) & 0xff) as Byte, ((w >> 24) & 0xff) as Byte]
  }

  function Output(r: Regs): (md: seq<Byte>)
    ensures |md| == 16
  {
    Bytes(r.a) + Bytes(r.b) + Bytes(r.c) + Bytes(r.d)
  }

  function Digest(m: seq<Byte>): (md: seq<Byte>)
    ensures |md| == 16
  {
    Output(Fold(INITIAL, PaddedWords(m), |PaddedWords(m)| / 16))
  }
}

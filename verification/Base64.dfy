/** The encoder to64frombits of RopProxy.cpp against RFC 4648, section 4. */
module Base64 {
  import opened Options
  import opened Sequences

  type Byte = bv8

  function Upper(d: bv8): char {
    match d
    case 0 => 'A'
    case 1 => 'B'
    case 2 => 'C'
    case 3 => 'D'
    case 4 => 'E'
    case 5 => 'F'
    case 6 => 'G'
    case 7 => 'H'
    case 8 => 'I'
    case 9 => 'J'
    case 10 => 'K'
    case 11 => 'L'
    case 12 => 'M'
    case 13 => 'N'
    case 14 => 'O'
    case 15 => 'P'
    case 16 => 'Q'
    case 17 => 'R'
    case 18 => 'S'
    case 19 => 'T'
    case 20 => 'U'
    case 21 => 'V'
    case 22 => 'W'
    case 23 => 'X'
    case 24 => 'Y'
    case _ => 'Z'
  }

  function Lower(d: bv8): char {
    match d
    case 26 => 'a'
    case 27 => 'b'
    case 28 => 'c'
    case 29 => 'd'
    case 30 => 'e'
    case 31 => 'f'
    case 32 => 'g'
    case 33 => 'h'
    case 34 => 'i'
    case 35 => 'j'
    case 36 => 'k'
    case 37 => 'l'
    case 38 => 'm'
    case 39 => 'n'
    case 40 => 'o'
    case 41 => 'p'
    case 42 => 'q'
    case 43 => 'r'
    case 44 => 's'
    case 45 => 't'
    case 46 => 'u'
    case 47 => 'v'
    case 48 => 'w'
    case 49 => 'x'
    case 50 => 'y'
    case _ => 'z'
  }

  function Other(d: bv8): char {
    match d
    case 52 => '0'
    case 53 => '1'
    case 54 => '2'
    case 55 => '3'
    case 56 => '4'
    case 57 => '5'
    case 58 => '6'
    case 59 => '7'
    case 60 => '8'
    case 61 => '9'
    case 62 => '+'
    case _ => '/'
  }

  /** Table 1 of RFC 4648. */
  function Digit(d: bv8): char
    requires d < 64
  {
    if d < 26 then Upper(d) else if d < 52 then Lower(d) else Other(d)
  }

  function UpperValue(c: char): bv8 {
    match c
    case 'A' => 0
    case 'B' => 1
    case 'C' => 2
    case 'D' => 3
    case 'E' => 4
    case 'F' => 5
    case 'G' => 6
    case 'H' => 7
    case 'I' => 8
    case 'J' => 9
    case 'K' => 10
    case 'L' => 11
    case 'M' => 12
    case 'N' => 13
    case 'O' => 14
    case 'P' => 15
    case 'Q' => 16
    case 'R' => 17
    case 'S' => 18
    case 'T' => 19
    case 'U' => 20
    case 'V' => 21
    case 'W' => 22
    case 'X' => 23
    case 'Y' => 24
    case _ => 25
  }

  function LowerValue(c: char): bv8 {
    match c
    case 'a' => 26
    case 'b' => 27
    case 'c' => 28
    case 'd' => 29
    case 'e' => 30
    case 'f' => 31
    case 'g' => 32
    case 'h' => 33
    case 'i' => 34
    case 'j' => 35
    case 'k' => 36
    case 'l' => 37
    case 'm' => 38
    case 'n' => 39
    case 'o' => 40
    case 'p' => 41
    case 'q' => 42
    case 'r' => 43
    case 's' => 44
    case 't' => 45
    case 'u' => 46
    case 'v' => 47
    case 'w' => 48
    case 'x' => 49
    case 'y' => 50
    case _ => 51
  }

  function OtherValue(c: char): bv8 {
    match c
    case '0' => 52
    case '1' => 53
    case '2' => 54
    case '3' => 55
    case '4' => 56
    case '5' => 57
    case '6' => 58
    case '7' => 59
    case '8' => 60
    case '9' => 61
    case '+' => 62
    case _ => 63
  }

  predicate IsOther(c: char) {
    '0' <= c <= '9' || c == '+' || c == '/'
  }

  function Undigit(c: char): Option<bv8> {
    if 'A' <= c <= 'Z' then Some(UpperValue(c))
    else if 'a' <= c <= 'z' then Some(LowerValue(c))
    else if IsOther(c) then Some(OtherValue(c))
    else None
  }

  // The encoding as the RFC describes it: 24-bit groups read as four 6-bit numbers.

  function Group(b0: Byte, b1: Byte, b2: Byte): bv24 {
    ((b0 as bv24) << 16) | ((b1 as bv24) << 8) | (b2 as bv24)
  }

  function Sextet0(g: bv24): (d: bv8)
    ensures d < 64
  {
    ((g >> 18) & 0x3F) as bv8
  }

  function Sextet1(g: bv24): (d: bv8)
    ensures d < 64
  {
    ((g >> 12) & 0x3F) as bv8
  }

  function Sextet2(g: bv24): (d: bv8)
    ensures d < 64
  {
    ((g >> 6) & 0x3F) as bv8
  }

  function Sextet3(g: bv24): (d: bv8)
    ensures d < 64
  {
    (g & 0x3F) as bv8
  }

  function Whole(b0: Byte, b1: Byte, b2: Byte): seq<char> {
    var g := Group(b0, b1, b2);
    [Digit(Sextet0(g)), Digit(Sextet1(g)), Digit(Sextet2(g)), Digit(Sextet3(g))]
  }

  /** A final group of sixteen bits, padded with zero bits and one '='. */
  function TwoLeft(b0: Byte, b1: Byte): seq<char> {
    var g := Group(b0, b1, 0);
    [Digit(Sextet0(g)), Digit(Sextet1(g)), Digit(Sextet2(g)), '=']
  }

  /** A final group of eight bits, padded with zero bits and two '='. */
  function OneLeft(b0: Byte): seq<char> {
    var g := Group(b0, 0, 0);
    [Digit(Sextet0(g)), Digit(Sextet1(g)), '=', '=']
  }

  function Encode(s: seq<Byte>): seq<char> {
    if |s| >= 3 then Whole(s[0], s[1], s[2]) + Encode(s[3..])
    else if |s| == 2 then TwoLeft(s[0], s[1])
    else if |s| == 1 then OneLeft(s[0])
    else []
  }

  // A decoder.

  /** Four characters of input; padding is allowed only in the last quantum, and its spare bits must be zero. */
  function Quantum(c0: char, c1: char, c2: char, c3: char, last: bool): Option<seq<Byte>> {
    match (Undigit(c0), Undigit(c1), Undigit(c2), Undigit(c3))
    case (Some(d0), Some(d1), Some(d2), Some(d3)) =>
      Some([(d0 << 2) | (d1 >> 4), (d1 << 4) | (d2 >> 2), (d2 << 6) | d3])
    case (Some(d0), Some(d1), Some(d2), None) =>
      if last && c3 == '=' && d2 & 0x03 == 0 then Some([(d0 << 2) | (d1 >> 4), (d1 << 4) | (d2 >> 2)]) else None
    case (Some(d0), Some(d1), None, None) =>
      if last && c2 == c3 == '=' && d1 & 0x0F == 0 then Some([(d0 << 2) | (d1 >> 4)]) else None
    case _ => None
  }

  function Decode(c: seq<char>): Option<seq<Byte>> {
    if |c| == 0 then Some([])
    else if |c| < 4 then None
    else
      match (Quantum(c[0], c[1], c[2], c[3], |c| == 4), Decode(c[4..]))
      case (Some(q), Some(rest)) => Some(q + rest)
      case _ => None
  }

  // Bits.

  lemma UpperBack(d: bv8)
    requires d < 26
    ensures 'A' <= Upper(d) <= 'Z' && UpperValue(Upper(d)) == d
  {
  }

  lemma LowerBack(d: bv8)
    requires 26 <= d < 52
    ensures 'a' <= Lower(d) <= 'z' && LowerValue(Lower(d)) == d
  {
  }

  lemma OtherBack(d: bv8)
    requires 52 <= d < 64
    ensures IsOther(Other(d)) && OtherValue(Other(d)) == d
  {
  }

  lemma DigitBack(d: bv8)
    requires d < 64
    ensures Undigit(Digit(d)) == Some(d)
  {
    hide Upper, Lower, Other, UpperValue, LowerValue, OtherValue;
    if d < 26 {
      UpperBack(d);
    } else if d < 52 {
      LowerBack(d);
    } else {
      OtherBack(d);
    }
  }

  lemma PadIsNoDigit()
    ensures Undigit('=') == None
  {
  }

  lemma SextetBits(b0: Byte, b1: Byte, b2: Byte)
    ensures Sextet0(Group(b0, b1, b2)) == b0 >> 2
    ensures Sextet1(Group(b0, b1, b2)) == ((b0 << 4) & 0x30) | (b1 >> 4)
    ensures Sextet2(Group(b0, b1, b2)) == ((b1 << 2) & 0x3C) | (b2 >> 6)
    ensures Sextet3(Group(b0, b1, b2)) == b2 & 0x3F
  {
  }

  lemma BytesBack(b0: Byte, b1: Byte, b2: Byte)
    ensures var d1 := ((b0 << 4) & 0x30) | (b1 >> 4);
            var d2 := ((b1 << 2) & 0x3C) | (b2 >> 6);
            ((b0 >> 2) << 2) | (d1 >> 4) == b0 && (d1 << 4) | (d2 >> 2) == b1 && (d2 << 6) | (b2 & 0x3F) == b2
    ensures b2 == 0 ==> (((b1 << 2) & 0x3C) | (b2 >> 6)) & 0x03 == 0
    ensures b1 == 0 ==> (((b0 << 4) & 0x30) | (b1 >> 4)) & 0x0F == 0
  {
  }

  // Lengths and the round trip.

  /** Four characters for every three bytes or part of three. */
  lemma {:induction false} EncodedLength(s: seq<Byte>)
    ensures |Encode(s)| == 4 * ((|s| + 2) / 3)
  {
    if |s| >= 3 {
      EncodedLength(s[3..]);
    }
  }

  lemma WholeBack(b0: Byte, b1: Byte, b2: Byte, last: bool)
    ensures var c := Whole(b0, b1, b2);
            |c| == 4 && Quantum(c[0], c[1], c[2], c[3], last) == Some([b0, b1, b2])
  {
    hide Digit, Undigit, Group, Sextet0, Sextet1, Sextet2, Sextet3;
    var g := Group(b0, b1, b2);
    DigitBack(Sextet0(g));
    DigitBack(Sextet1(g));
    DigitBack(Sextet2(g));
    DigitBack(Sextet3(g));
    SextetBits(b0, b1, b2);
    BytesBack(b0, b1, b2);
  }

  lemma TwoBack(b0: Byte, b1: Byte)
    ensures var c := TwoLeft(b0, b1);
            |c| == 4 && Quantum(c[0], c[1], c[2], c[3], true) == Some([b0, b1])
  {
    hide Digit, Undigit, Group, Sextet0, Sextet1, Sextet2, Sextet3;
    var g := Group(b0, b1, 0);
    DigitBack(Sextet0(g));
    DigitBack(Sextet1(g));
    DigitBack(Sextet2(g));
    PadIsNoDigit();
    SextetBits(b0, b1, 0);
    BytesBack(b0, b1, 0);
  }

  lemma OneBack(b0: Byte)
    ensures var c := OneLeft(b0);
            |c| == 4 && Quantum(c[0], c[1], c[2], c[3], true) == Some([b0])
  {
    hide Digit, Undigit, Group, Sextet0, Sextet1, Sextet2, Sextet3;
    var g := Group(b0, 0, 0);
    DigitBack(Sextet0(g));
    DigitBack(Sextet1(g));
    PadIsNoDigit();
    SextetBits(b0, 0, 0);
    BytesBack(b0, 0, 0);
  }

  /** Decoding an encoding gives the bytes back. */
  lemma {:induction false} RoundTrip(s: seq<Byte>)
    ensures Decode(Encode(s)) == Some(s)
  {
    hide Whole, TwoLeft, OneLeft, Quantum;
    var c := Encode(s);
    if |s| >= 3 {
      RoundTrip(s[3..]);
      WholeBack(s[0], s[1], s[2], |c| == 4);
      assert c[4..] == Encode(s[3..]);
      assert s == [s[0], s[1], s[2]] + s[3..];
    } else if |s| == 2 {
      TwoBack(s[0], s[1]);
      assert c[4..] == [] && s == [s[0], s[1]] + [];
    } else if |s| == 1 {
      OneBack(s[0]);
      assert c[4..] == [] && s == [s[0]] + [];
    }
  }

  // Values of the RFC.

  /** Section 10 of RFC 4648: "f", "fo", "foo" and "foobar". */
  lemma TestVectors()
    ensures Encode([0x66]) == "Zg==" && Encode([0x66, 0x6f]) == "Zm8=" && Encode([0x66, 0x6f, 0x6f]) == "Zm9v"
    ensures Encode([0x66, 0x6f, 0x6f, 0x62, 0x61, 0x72]) == "Zm9vYmFy"
  {
  }

  lemma AToP()
    ensures Whole(0x00, 0x10, 0x83) == "ABCD" && Whole(0x10, 0x51, 0x87) == "EFGH"
    ensures Whole(0x20, 0x92, 0x8b) == "IJKL" && Whole(0x30, 0xd3, 0x8f) == "MNOP"
  {
  }

  lemma QToF()
    ensures Whole(0x41, 0x14, 0x93) == "QRST" && Whole(0x51, 0x55, 0x97) == "UVWX"
    ensures Whole(0x61, 0x96, 0x9b) == "YZab" && Whole(0x71, 0xd7, 0x9f) == "cdef"
  {
  }

  lemma GToV()
    ensures Whole(0x82, 0x18, 0xa3) == "ghij" && Whole(0x92, 0x59, 0xa7) == "klmn"
    ensures Whole(0xa2, 0x9a, 0xab) == "opqr" && Whole(0xb2, 0xdb, 0xaf) == "stuv"
  {
  }

  lemma WToSlash()
    ensures Whole(0xc3, 0x1c, 0xb3) == "wxyz" && Whole(0xd3, 0x5d, 0xb7) == "0123"
    ensures Whole(0xe3, 0x9e, 0xbb) == "4567" && Whole(0xf3, 0xdf, 0xbf) == "89+/"
  {
  }

  /** The numbers from 0 to 63, six bits each, give the alphabet in its order. */
  lemma AlphabetInOrder()
    ensures Whole(0x00, 0x10, 0x83) + Whole(0x10, 0x51, 0x87) + Whole(0x20, 0x92, 0x8b) + Whole(0x30, 0xd3, 0x8f)
         == "ABCDEFGHIJKLMNOP"
    ensures Whole(0x41, 0x14, 0x93) + Whole(0x51, 0x55, 0x97) + Whole(0x61, 0x96, 0x9b) + Whole(0x71, 0xd7, 0x9f)
         == "QRSTUVWXYZabcdef"
    ensures Whole(0x82, 0x18, 0xa3) + Whole(0x92, 0x59, 0xa7) + Whole(0xa2, 0x9a, 0xab) + Whole(0xb2, 0xdb, 0xaf)
         == "ghijklmnopqrstuv"
    ensures Whole(0xc3, 0x1c, 0xb3) + Whole(0xd3, 0x5d, 0xb7) + Whole(0xe3, 0x9e, 0xbb) + Whole(0xf3, 0xdf, 0xbf)
         == "wxyz0123456789+/"
  {
    hide Whole;
    AToP();
    QToF();
    GToV();
    WToSlash();
  }

  // The encoder.

  /** to64frombits: whole groups in a loop, then what is left, then the terminator. */
  method To64FromBits(output: array<char>, input: seq<Byte>, inlen: int) returns (r: int)
    requires inlen <= |input| && |Encode(Taken(input, inlen))| < output.Length
    modifies output
    ensures r == 0
    ensures var e := Encode(Taken(input, inlen));
            && output[..|e|] == e && output[|e|] == '\0'
            && forall i :: |e| < i < output.Length ==> output[i] == old(output[i])
  {
    ghost var s := Taken(input, inlen);
    ghost var e := Encode(s);
    hide *;
    TakenIs(input, inlen);
    var left, at, to := PutGroups(output, input, inlen);
    LastGroup(s, at);
    if left > 0 {
      PutRest(output, to, left, input[at], if left > 1 then input[at + 1] else 0);
      to := to + 4;
    }
    output[to] := '\0';
    r := 0;
  }

  /** The loop over the whole groups. */
  method PutGroups(output: array<char>, input: seq<Byte>, inlen: int) returns (left: int, at: nat, to: nat)
    requires inlen <= |input| && |Encode(Taken(input, inlen))| < output.Length
    modifies output
    ensures var s := Taken(input, inlen);
            && at <= |s| < at + 3 && (if inlen >= 0 then left == |s| - at else left < 0 && at == |s|)
            && to + |Encode(s[at..])| == |Encode(s)| && output[..to] + Encode(s[at..]) == Encode(s)
    ensures forall i :: |Encode(Taken(input, inlen))| < i < output.Length ==> output[i] == old(output[i])
  {
    ghost var s := Taken(input, inlen);
    ghost var e := Encode(s);
    ghost var before := output[..];
    hide *;
    TakenIs(input, inlen);
    left, at, to := inlen, 0, 0;
    while left >= 3
      invariant at <= |s| && (if inlen >= 0 then left == |s| - at else left < 0 && at == |s|)
      invariant to + |Encode(s[at..])| == |e| && output[..to] + Encode(s[at..]) == e
      invariant forall i :: |e| < i < output.Length ==> output[i] == before[i]
    {
      NextGroup(s, at);
      ghost var done, group, rest := output[..to], Whole(s[at], s[at + 1], s[at + 2]), Encode(s[at + 3..]);
      PutWhole(output, to, input[at], input[at + 1], input[at + 2]);
      Reassociate(done, group, rest);
      to, left, at := to + 4, left - 3, at + 3;
    }
  }

  /** One turn of the loop: three bytes become four characters. */
  method PutWhole(output: array<char>, to: nat, b0: Byte, b1: Byte, b2: Byte)
    requires to + 4 <= output.Length
    modifies output
    ensures output[..to + 4] == old(output[..to]) + Whole(b0, b1, b2)
    ensures forall i :: to + 4 <= i < output.Length ==> output[i] == old(output[i])
  {
    hide Digit, Group, Sextet0, Sextet1, Sextet2, Sextet3;
    SextetBits(b0, b1, b2);
    output[to] := Digit(b0 >> 2);
    output[to + 1] := Digit(((b0 << 4) & 0x30) | (b1 >> 4));
    output[to + 2] := Digit(((b1 << 2) & 0x3C) | (b2 >> 6));
    output[to + 3] := Digit(b2 & 0x3F);
  }

  /** The one or two bytes that are left; b1 counts only when there are two. */
  method PutRest(output: array<char>, to: nat, left: int, b0: Byte, b1: Byte)
    requires to + 4 <= output.Length && 1 <= left <= 2 && (left == 1 ==> b1 == 0)
    modifies output
    ensures output[..to + 4] == old(output[..to]) + if left == 2 then TwoLeft(b0, b1) else OneLeft(b0)
    ensures forall i :: to + 4 <= i < output.Length ==> output[i] == old(output[i])
  {
    hide Digit, Group, Sextet0, Sextet1, Sextet2, Sextet3;
    SextetBits(b0, b1, 0);
    NoThirdByte(b0, b1);
    output[to] := Digit(b0 >> 2);
    var fragment := (b0 << 4) & 0x30;
    if left > 1 {
      fragment := fragment | (b1 >> 4);
    }
    output[to + 1] := Digit(fragment);
    output[to + 2] := if left < 2 then '=' else Digit((b1 << 2) & 0x3C);
    output[to + 3] := '=';
  }

  lemma NoThirdByte(b0: Byte, b1: Byte)
    ensures ((b1 << 2) & 0x3C) | (0 >> 6) == (b1 << 2) & 0x3C
    ensures ((b0 << 4) & 0x30) | (0 >> 4) == (b0 << 4) & 0x30
    ensures ((b0 << 4) & 0x30) | (b1 >> 4) < 64 && (b0 << 4) & 0x30 < 64 && (b1 << 2) & 0x3C < 64 && b0 >> 2 < 64
  {
  }

  lemma TakenIs(b: seq<Byte>, n: int)
    requires n <= |b|
    ensures var s := Taken(b, n);
            && |s| == (if n <= 0 then 0 else n) && (forall i :: 0 <= i < |s| ==> s[i] == b[i]) && s[0..] == s
  {
  }

  lemma NextGroup(s: seq<Byte>, at: nat)
    requires at + 3 <= |s|
    ensures Encode(s[at..]) == Whole(s[at], s[at + 1], s[at + 2]) + Encode(s[at + 3..])
    ensures |Whole(s[at], s[at + 1], s[at + 2])| == 4
  {
    hide Digit, Group, Sextet0, Sextet1, Sextet2, Sextet3;
    assert s[at..][3..] == s[at + 3..];
  }

  lemma LastGroup(s: seq<Byte>, at: nat)
    requires at <= |s| < at + 3
    ensures Encode(s[at..]) == match |s| - at
                               case 0 => []
                               case 1 => OneLeft(s[at])
                               case _ => TwoLeft(s[at], s[at + 1])
    ensures |Encode(s[at..])| == if at == |s| then 0 else 4
  {
    hide Digit, Group, Sextet0, Sextet1, Sextet2, Sextet3;
  }

  /** The first n of the bytes, none of them for a negative count. */
  function Taken(s: seq<Byte>, n: int): seq<Byte>
    requires n <= |s|
  {
    if n <= 0 then [] else s[..n]
  }
}

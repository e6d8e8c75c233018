/** The length that ends a padded message, read back as a number. */
module Md5Length {
  import opened Md5Spec

  function Power(k: nat): nat { if k == 0 then 1 else 2 * Power(k - 1) }

  /** The number whose binary digits are the lowest k bits of w. */
  function Value(w: Word, k: nat): nat {
    if k == 0 then 0 else 2 * Value(w >> 1, k - 1) + (if w & 1 == 1 then 1 else 0)
  }

  /** x with a further digit behind. */
  function Append(x: Word, odd: bool): Word {
    (x << 1) | (if odd then 1 else 0)
  }

  /** The word of k ones. */
  function Ones(k: nat): Word {
    if k == 0 then 0 else Append(Ones(k - 1), true)
  }

  /** All ones of x are ones of l. */
  predicate Inside(x: Word, l: Word) {
    x & !l == 0
  }

  lemma ZeroInside(l: Word)
    ensures Inside(0, l)
  {
  }

  lemma Itself(x: Word)
    ensures Inside(x, x)
  {
  }

  lemma Within(x: Word, l: Word, m: Word)
    requires Inside(x, l) && Inside(l, m)
    ensures Inside(x, m)
  {
  }

  lemma Below(x: Word, b: Word, l: Word)
    requires x & !l == 0 && (b == 0 || b == 1)
    ensures ((x << 1) | b) & !((l << 1) | 1) == 0
  {
  }

  lemma AppendedInside(x: Word, odd: bool, l: Word)
    requires Inside(x, l)
    ensures Inside(Append(x, odd), Append(l, true))
  {
    if odd {
      Below(x, 1, l);
    } else {
      Below(x, 0, l);
    }
  }

  lemma {:induction false} OnesInside(k: nat)
    ensures Inside(Ones(k), Ones(k + 1))
  {
    hide Append, Inside;
    if k == 0 {
      ZeroInside(Ones(1));
    } else {
      OnesInside(k - 1);
      AppendedInside(Ones(k - 1), true, Ones(k));
    }
  }

  lemma {:induction false} OnesUpTo(k: nat, n: nat)
    requires k <= n
    ensures Inside(Ones(k), Ones(n))
    decreases n - k
  {
    hide *;
    if k == n {
      Itself(Ones(n));
    } else {
      OnesInside(k);
      OnesUpTo(k + 1, n);
      Within(Ones(k), Ones(k + 1), Ones(n));
    }
  }

  lemma Doubled(x: Word, b: Word)
    requires x & !0x7fff_ffff == 0 && (b == 0 || b == 1)
    ensures ((x << 1) | b) >> 1 == x && ((x << 1) | b) & 1 == b
  {
  }

  lemma ValueAppended(x: Word, odd: bool, k: nat)
    requires Inside(x, 0x7fff_ffff) && k > 0
    ensures Value(Append(x, odd), k) == 2 * Value(x, k - 1) + (if odd then 1 else 0)
  {
    if odd {
      Doubled(x, 1);
    } else {
      Doubled(x, 0);
    }
  }

  lemma WordOfIs(n: nat)
    requires n > 0
    ensures WordOf(n) == Append(WordOf(n / 2), n % 2 == 1)
  {
  }

  lemma AllOnes()
    ensures Ones(31) == 0x7fff_ffff
  {
    assert Ones(8) == 0xff;
    assert Ones(16) == 0xffff;
    assert Ones(24) == 0xff_ffff;
  }

  lemma Halved(n: nat, k: nat)
    requires 0 < n < Power(k)
    ensures k > 0 && n / 2 < Power(k - 1)
  {
  }

  lemma OnesNext(k: nat)
    requires k > 0
    ensures Ones(k) == Append(Ones(k - 1), true)
  {
  }

  lemma {:induction false} WordOfBelow(n: nat, k: nat)
    requires n < Power(k)
    ensures Inside(WordOf(n), Ones(k))
  {
    hide *;
    if n == 0 {
      WordOfZero();
      ZeroInside(Ones(k));
    } else {
      Halved(n, k);
      WordOfBelow(n / 2, k - 1);
      WordOfIs(n);
      OnesNext(k);
      AppendedInside(WordOf(n / 2), n % 2 == 1, Ones(k - 1));
    }
  }

  lemma WordOfZero()
    ensures WordOf(0) == 0
  {
  }

  lemma NoTopBit(n: nat, k: nat)
    requires n < Power(k) && k <= 31
    ensures Inside(WordOf(n), 0x7fff_ffff)
  {
    hide *;
    WordOfBelow(n, k);
    AllOnes();
    OnesUpTo(k, 31);
    Within(WordOf(n), Ones(k), Ones(31));
  }

  lemma {:induction false} WordOfValue(n: nat, k: nat)
    requires n < Power(k) && k <= 32
    ensures Value(WordOf(n), k) == n
  {
    hide *;
    if n == 0 {
      ValueZero(k);
    } else {
      Halved(n, k);
      WordOfValue(n / 2, k - 1);
      NoTopBit(n / 2, k - 1);
      WordOfIs(n);
      ValueAppended(WordOf(n / 2), n % 2 == 1, k);
    }
  }

  lemma {:induction false} ValueZero(k: nat)
    ensures WordOf(0) == 0 && Value(WordOf(0), k) == 0
  {
    if k > 0 {
      ValueZero(k - 1);
    }
  }

  lemma PowerOf32()
    ensures Power(32) == TWO_TO_32
  {
    assert Power(8) == 0x100;
    assert Power(16) == 0x1_0000;
    assert Power(24) == 0x100_0000;
  }

  /** The last two words are the length in bits. */
  lemma LengthValue(bits: nat)
    ensures Value(LowWord(bits), 32) + TWO_TO_32 * Value(HighWord(bits), 32) == bits % TWO_TO_64
  {
    hide WordOf, Value, Power;
    PowerOf32();
    var n := bits % TWO_TO_64;
    assert bits % TWO_TO_32 == n % TWO_TO_32;
    WordOfValue(n % TWO_TO_32, 32);
    WordOfValue(n / TWO_TO_32, 32);
  }
}

/** The MD5 collector: md32_common.h instantiated for MD5, over a context updated in place. */
module Md5Collector {
  import opened Md5Spec
  import opened Sequences
  import opened Md5Block
  import opened Md5DataOrder
  import opened Md5Lemmas
  import opened Md5Macros

  const BLOCK_BYTES := 64
  const BLOCK_WORDS := 16
  const CONTEXT_BYTES := 92 // sizeof(MD5_CTX): four registers, two counters, sixteen words, num

  /** The first words of d pack the bytes t; the unused bytes of the last such word are zero. */
  ghost predicate Packs(d: seq<Word>, t: seq<Byte>) {
    (|t| + 3) / 4 <= |d| && forall i :: 0 <= i < (|t| + 3) / 4 ==> d[i] == WordAt(t, i)
  }

  class Context {
    var regA: Word
    var regB: Word
    var regC: Word
    var regD: Word
    var countLow: nat
    var countHigh: nat
    const data: array<Word>
    var num: nat
    ghost var msg: seq<Byte> // all bytes absorbed so far

    function State(): Regs
      reads this
    {
      Regs(regA, regB, regC, regD)
    }

    ghost predicate Counted()
      reads this
    {
      countLow < TWO_TO_32 && countHigh < TWO_TO_32 && Total(countHigh, countLow) == 8 * |msg| % TWO_TO_64
    }

    ghost predicate Valid()
      reads this, data
    {
      && data.Length == BLOCK_WORDS
      && Counted()
      && num == |msg| % BLOCK_BYTES
      && State() == Chain(msg, |msg| / BLOCK_BYTES)
      && Packs(data[..], msg[|msg| - num..])
    }

    constructor ()
      ensures Valid() && fresh(data) && msg == []
    {
      regA, regB, regC, regD := 0x67452301, 0xefcdab89, 0x98badcfe, 0x10325476;
      countLow, countHigh, num := 0, 0, 0;
      data := new Word[BLOCK_WORDS];
      msg := [];
    }

    /** md5_block_host_order: x points at n blocks of words. */
    method BlockHostOrder(x: seq<Word>, n: nat)
      requires BLOCK_WORDS * n <= |x|
      modifies `regA, `regB, `regC, `regD
      ensures State() == Fold(old(State()), x, n)
    {
      hide Operations, Plus;
      var a, b, c, d := regA, regB, regC, regD;
      var i := 0;
      while i < n
        invariant 0 <= i <= n && Regs(a, b, c, d) == State() == Fold(old(State()), x, i)
      {
        a, b, c, d := HostRounds(a, b, c, d, x[BLOCK_WORDS * i..BLOCK_WORDS * (i + 1)]);
        AddState(a, b, c, d);
        a, b, c, d := regA, regB, regC, regD;
        i := i + 1;
      }
    }

    /** md5_block_data_order: n blocks of bytes of m from byte p on. */
    method BlockDataOrder(m: seq<Byte>, p: nat, n: nat)
      requires p + BLOCK_BYTES * n <= |m|
      modifies `regA, `regB, `regC, `regD
      ensures State() == Fold(old(State()), Words(m[p..p + BLOCK_BYTES * n]), n)
    {
      hide Operations, Plus, WordAt;
      var a, b, c, d, q := regA, regB, regC, regD, p;
      var i := 0;
      ghost var w := Words(m[p..p + BLOCK_BYTES * n]);
      while i < n
        invariant 0 <= i <= n && q == p + BLOCK_BYTES * i
        invariant Regs(a, b, c, d) == State() == Fold(old(State()), w, i)
      {
        ghost var x := w[BLOCK_WORDS * i..BLOCK_WORDS * (i + 1)];
        WordsOfSlice(m[p..p + BLOCK_BYTES * n], BLOCK_WORDS * i, BLOCK_WORDS * (i + 1));
        SliceOfSlice(m, p, p + BLOCK_BYTES * n, BLOCK_BYTES * i, BLOCK_BYTES * (i + 1));
        a, b, c, d, q := DataRounds(a, b, c, d, m, q, x);
        AddState(a, b, c, d);
        a, b, c, d := regA, regB, regC, regD;
        i := i + 1;
      }
    }

    /** The loop that fills whole words sw to ew of the buffer; they are words of m. */
    method StoreWords(c: seq<Byte>, p: nat, sw: nat, ew: nat, ghost m: seq<Byte>) returns (q: nat)
      requires sw <= ew <= data.Length && p + 4 * (ew - sw) <= |c| && 4 * ew <= |m|
      requires c[p..p + 4 * (ew - sw)] == m[4 * sw..4 * ew]
      modifies data
      ensures q == p + 4 * (ew - sw)
      ensures data[..sw] == old(data[..sw]) && forall i :: sw <= i < ew ==> data[i] == WordAt(m, i)
    {
      hide WordAt;
      q := p;
      var i := sw;
      while i < ew
        invariant sw <= i <= ew && q == p + 4 * (i - sw)
        invariant data[..sw] == old(data[..sw]) && forall j :: sw <= j < i ==> data[j] == WordAt(m, j)
      {
        SliceOfSlice(c, p, p + 4 * (ew - sw), 4 * (i - sw), 4 * (i - sw) + 4);
        SliceOfSlice(m, 4 * sw, 4 * ew, 4 * (i - sw), 4 * (i - sw) + 4);
        var l;
        l, q := HostC2l(c, q, m, i);
        data[i] := l;
        i := i + 1;
      }
    }

    method Count(len: nat)
      requires Counted() && len < TWO_TO_32
      modifies `countLow, `countHigh
      ensures countLow < TWO_TO_32 && countHigh < TWO_TO_32 && Total(countHigh, countLow) == 8 * (|msg| + len) % TWO_TO_64
    {
      CountersAdd(countHigh, countLow, |msg|, len);
      var l := (countLow + 8 * len % TWO_TO_32) % TWO_TO_32;
      if l < countLow {
        countHigh := (countHigh + 1) % TWO_TO_32;
      }
      countHigh := (countHigh + len / 0x2000_0000) % TWO_TO_32;
      countLow := l;
    }

    /** MD5_Update. A chunk and the context share a 32-bit address space, which bounds the length of the chunk. */
    method Update(chunk: seq<Byte>)
      requires Valid() && |chunk| + CONTEXT_BYTES <= TWO_TO_32
      modifies this, data
      ensures Valid() && msg == old(msg) + chunk
    {
      hide Words, WordAt, Chain, Fold, Total, Packs;
      if |chunk| == 0 {
        assert msg + chunk == msg;
        return;
      }
      Count(|chunk|);
      Absorb(chunk);
      msg := msg + chunk;
    }

    /** Update without its counters. */
    method Absorb(chunk: seq<Byte>)
      requires data.Length == BLOCK_WORDS && num == |msg| % BLOCK_BYTES && |chunk| > 0
      requires State() == Chain(msg, |msg| / BLOCK_BYTES) && Packs(data[..], msg[|msg| - num..])
      modifies `regA, `regB, `regC, `regD, `num, data
      ensures var all := msg + chunk;
              && num == |all| % BLOCK_BYTES && State() == Chain(all, |all| / BLOCK_BYTES)
              && Packs(data[..], all[|all| - num..])
    {
      hide Words, WordAt, Chain, Fold, Packs;
      var pos := 0;
      ghost var all := msg + chunk;
      ghost var blocks := |msg| / BLOCK_BYTES;
      ChainOfPrefix(msg, blocks, chunk);
      ChunkPlacement(msg, chunk);
      if num != 0 {
        if num + |chunk| < BLOCK_BYTES {
          AddToBuffer(chunk);
          return;
        }
        pos := CompleteBlock(chunk, all, blocks);
        blocks := blocks + 1;
      }
      WholeBlocksAndRest(chunk, pos, all, blocks);
    }

    /** The rest of Update once the buffer is empty: whole blocks straight from the input, then a new buffer. */
    method WholeBlocksAndRest(chunk: seq<Byte>, p: nat, ghost all: seq<Byte>, ghost blocks: nat)
      requires data.Length == BLOCK_WORDS && num == 0
      requires p <= |chunk| && BLOCK_BYTES * blocks <= |all| && chunk[p..] == all[BLOCK_BYTES * blocks..]
      requires State() == Chain(all, blocks)
      modifies `regA, `regB, `regC, `regD, `num, data
      ensures State() == Chain(all, |all| / BLOCK_BYTES) && num == |all| % BLOCK_BYTES
      ensures Packs(data[..], all[|all| - num..])
    {
      hide Words, WordAt, Chain, Fold;
      var pos, len := p, |chunk| - p;
      ghost var done := blocks;
      var sw := len / BLOCK_BYTES;
      if sw > 0 {
        assert chunk[pos..pos + BLOCK_BYTES * sw] == chunk[p..][..BLOCK_BYTES * sw];
        assert all[BLOCK_BYTES * blocks..BLOCK_BYTES * (blocks + sw)] == all[BLOCK_BYTES * blocks..][..BLOCK_BYTES * sw];
        BlockDataOrder(chunk, pos, sw);
        ChainOn(all, blocks, sw);
        pos := pos + BLOCK_BYTES * sw;
        len := len - BLOCK_BYTES * sw;
        done := blocks + sw;
      }
      assert done == |all| / BLOCK_BYTES;
      assert chunk[pos..] == all[BLOCK_BYTES * done..] by {
        assert chunk[pos..] == chunk[p..][pos - p..];
        assert all[BLOCK_BYTES * done..] == all[BLOCK_BYTES * blocks..][pos - p..];
      }
      if len != 0 {
        RestartBuffer(chunk, pos);
      }
    }

    /** Completes the partial word sw of the buffer t with the first bytes of chunk. */
    method CompleteWord(chunk: seq<Byte>, sw: nat, sc: nat, ghost t: seq<Byte>, ghost m: seq<Byte>) returns (pos: nat)
      requires data.Length == BLOCK_WORDS && sc < 4 <= sc + |chunk| && sw < BLOCK_WORDS
      requires |t| == 4 * sw + sc && Packs(data[..], t) && t <= m && t + chunk[..4 - sc] <= m
      modifies data
      ensures pos == 4 - sc && forall i :: 0 <= i <= sw ==> data[i] == WordAt(m, i)
    {
      hide WordAt;
      StableWords(t, m);
      SuffixSlice(t, chunk, 0, 4 - sc);
      assert m[4 * sw + sc..4 * sw + 4] == chunk[0..4 - sc];
      var l := 0;
      if sc != 0 {
        l := data[sw];
      }
      l, pos := HostPC2l(chunk, 0, l, sc, m, sw);
      data[sw] := l;
    }

    /** The path of Update that completes the buffered block and compresses it. */
    method CompleteBlock(chunk: seq<Byte>, ghost all: seq<Byte>, ghost blocks: nat) returns (pos: nat)
      requires 0 < num < BLOCK_BYTES <= num + |chunk| && data.Length == BLOCK_WORDS
      requires num <= |msg| && Packs(data[..], msg[|msg| - num..])
      requires BLOCK_BYTES * (blocks + 1) <= |all| && State() == Chain(all, blocks)
      requires all[BLOCK_BYTES * blocks..BLOCK_BYTES * (blocks + 1)] == msg[|msg| - num..] + chunk[..BLOCK_BYTES - num]
      modifies `regA, `regB, `regC, `regD, `num, data
      ensures num == 0 && pos == BLOCK_BYTES - old(num)
      ensures State() == Chain(all, blocks + 1)
    {
      hide Words, WordAt, Chain, Fold, Packs;
      pos := FillBuffer(chunk);
      BlockHostOrder(data[..], 1);
      ChainOn(all, blocks, 1);
      num := 0;
    }

    /** Fills the rest of the buffer. */
    method FillBuffer(chunk: seq<Byte>) returns (pos: nat)
      requires 0 < num < BLOCK_BYTES <= num + |chunk| && data.Length == BLOCK_WORDS
      requires num <= |msg| && Packs(data[..], msg[|msg| - num..])
      modifies data
      ensures pos == BLOCK_BYTES - num
      ensures data[..] == Words(msg[|msg| - num..] + chunk[..pos])
    {
      hide WordAt, Packs, Words;
      ghost var t := msg[|msg| - num..];
      ghost var n := BLOCK_BYTES - num;
      ghost var m := t + chunk[..n];
      var sw := num / 4;
      BeginsWith(t, chunk[..n], 4 - num % 4);
      assert chunk[..n][..4 - num % 4] == chunk[..4 - num % 4];
      SuffixSlice(t, chunk[..n], 4 - num % 4, n);
      pos := CompleteWord(chunk, sw, num % 4, t, m);
      sw := sw + 1;
      assert chunk[..n][pos..n] == chunk[pos..n];
      pos := StoreWords(chunk, pos, sw, BLOCK_WORDS, m);
      assert forall i :: 0 <= i < sw ==> data[i] == data[..sw][i];
      AllWords(data[..], m);
    }

    static lemma AllWords(d: seq<Word>, m: seq<Byte>)
      requires |m| == 4 * |d| && forall i :: 0 <= i < |d| ==> d[i] == WordAt(m, i)
      ensures d == Words(m)
    {
      hide WordAt;
    }

    /** The path of Update that leaves the block incomplete. */
    method AddToBuffer(chunk: seq<Byte>)
      requires 0 < num < num + |chunk| < BLOCK_BYTES && data.Length == BLOCK_WORDS
      requires num <= |msg| && Packs(data[..], msg[|msg| - num..])
      modifies `num, data
      ensures num == old(num) + |chunk|
      ensures Packs(data[..], msg[|msg| - old(num)..] + chunk)
    {
      hide WordAt;
      ghost var t := msg[|msg| - num..];
      var sw, sc := num / 4, num % 4;
      num := num + |chunk|;
      if sc + |chunk| < 4 {
        ghost var m := t + chunk;
        StableWords(t, m);
        var l := data[sw];
        var q;
        l, q := HostPC2lP(chunk, 0, l, sc, |chunk|, m, sw);
        data[sw] := l;
      } else {
        AddWords(chunk, t, sw, sc);
      }
    }

    /** Completes word sw, then stores whole words and an incomplete one, if any. */
    method AddWords(chunk: seq<Byte>, ghost t: seq<Byte>, sw0: nat, sc: nat)
      requires data.Length == BLOCK_WORDS && sc < 4 <= sc + |chunk|
      requires num == |t| + |chunk| < BLOCK_BYTES && |t| == 4 * sw0 + sc && Packs(data[..], t)
      modifies data
      ensures Packs(data[..], t + chunk)
    {
      hide WordAt, Packs;
      ghost var m := t + chunk;
      var sw, ew, ec := sw0, num / 4, num % 4;
      SuffixSlice(t, chunk, 4 - sc, 4 - sc + 4 * (ew - sw - 1));
      SuffixSlice(t, chunk, |chunk| - ec, |chunk|);
      BeginsWith(t, chunk, 4 - sc);
      var pos := CompleteWord(chunk, sw, sc, t, m);
      sw := sw + 1;
      pos := StoreWords(chunk, pos, sw, ew, m);
      assert forall i :: 0 <= i < sw ==> data[i] == data[..sw][i];
      if ec != 0 {
        var l := HostC2lP(chunk, pos, ec, m, ew);
        data[ew] := l;
      }
      PacksBy(data[..], m);
    }

    static lemma BeginsWith(t: seq<Byte>, chunk: seq<Byte>, k: nat)
      requires k <= |chunk|
      ensures t <= t + chunk && t + chunk[..k] <= t + chunk
    {
    }

    static lemma PacksBy(d: seq<Word>, m: seq<Byte>)
      requires (|m| + 3) / 4 <= |d| && forall i :: 0 <= i < (|m| + 3) / 4 ==> d[i] == WordAt(m, i)
      ensures Packs(d, m)
    {
    }

    /** The last part of Update: the remaining bytes become the new buffer. */
    method RestartBuffer(chunk: seq<Byte>, p: nat)
      requires p < |chunk| < p + BLOCK_BYTES && data.Length == BLOCK_WORDS
      modifies `num, data
      ensures num == |chunk| - p && Packs(data[..], chunk[p..])
    {
      hide WordAt;
      num := |chunk| - p;
      var ew, ec := num / 4, num % 4;
      ghost var m := chunk[p..];
      assert chunk[p..p + 4 * ew] == m[..4 * ew];
      var pos := StoreWords(chunk, p, 0, ew, m);
      var l := HostC2lP(chunk, pos, ec, m, ew);
      data[ew] := l;
    }

    /** MD5_Final. */
    method Final() returns (md: seq<Byte>)
      requires Valid()
      modifies this, data
      ensures md == Digest(msg) && msg == old(msg) && num == 0 && countLow == old(countLow) && countHigh == old(countHigh)
    {
      hide WordAt, WordOf, Words, Chain, Fold, PaddedWords, Output, Total, MarkedTail, Packs;
      ghost var w, n := PaddedWords(msg), |msg| / BLOCK_BYTES;
      PaddedLength(msg);
      PaddedPrefix(msg);
      var i := PutEndMark();
      ghost var skip := if i > BLOCK_WORDS - 2 then BLOCK_WORDS else 0;
      if i > BLOCK_WORDS - 2 {
        CompressFullTail(i);
        i, n := 0, n + 1;
      }
      CompressLength(i, skip, n);
      md := MakeString();
      num := 0;
    }

    /** The tail and its end mark leave no room for the length: they make a block of their own. */
    method CompressFullTail(i: nat)
      requires data.Length == BLOCK_WORDS && BLOCK_WORDS - 2 < i == |msg| % BLOCK_BYTES / 4 + 1
      requires forall k | 0 <= k < i :: data[k] == WordAt(MarkedTail(msg), k)
      requires 16 * (|msg| / BLOCK_BYTES) <= |PaddedWords(msg)|
      requires State() == Fold(INITIAL, PaddedWords(msg), |msg| / BLOCK_BYTES)
      modifies `regA, `regB, `regC, `regD, data
      ensures 16 * (|msg| / BLOCK_BYTES + 2) == |PaddedWords(msg)|
      ensures State() == Fold(INITIAL, PaddedWords(msg), |msg| / BLOCK_BYTES + 1)
    {
      hide WordAt, Fold, PaddedWords, MarkedTail;
      if i < BLOCK_WORDS {
        data[i] := 0;
      }
      FullTailBlock(msg, data[..]);
      BlockHostOrder(data[..], 1);
      FoldNext(PaddedWords(msg), |msg| / BLOCK_BYTES, data[..]);
    }

    /** The last block: zeros from word i on, and the length. */
    method CompressLength(i: nat, ghost skip: nat, ghost n: nat)
      requires data.Length == BLOCK_WORDS && Counted() && i <= BLOCK_WORDS - 2
      requires skip == (if |msg| % BLOCK_BYTES >= 56 then 16 else 0)
      requires i == if skip > 0 then 0 else |msg| % BLOCK_BYTES / 4 + 1
      requires skip == 0 ==> forall k | 0 <= k < i :: data[k] == WordAt(MarkedTail(msg), k)
      requires 16 * n == 16 * (|msg| / BLOCK_BYTES) + skip && 16 * n <= |PaddedWords(msg)|
      requires State() == Fold(INITIAL, PaddedWords(msg), n)
      modifies `regA, `regB, `regC, `regD, data
      ensures |PaddedWords(msg)| == 16 * (n + 1) && State() == Fold(INITIAL, PaddedWords(msg), n + 1)
    {
      hide WordAt, WordOf, Fold, PaddedWords, Total, MarkedTail;
      PutLength(i);
      LengthBlock(msg, data[..], skip, countHigh, countLow);
      hide *;
      BlockHostOrder(data[..], 1);
      FoldNext(PaddedWords(msg), n, data[..]);
    }

    /** HASH_MAKE_STRING. */
    method MakeString() returns (md: seq<Byte>)
      ensures md == Output(State())
    {
      hide Bytes;
      md := HostL2c(regA);
      var next := HostL2c(regB);
      md := md + next;
      next := HostL2c(regC);
      md := md + next;
      next := HostL2c(regD);
      md := md + next;
    }

    /** Clears the words from i up to the last two, which take the length. */
    method PutLength(i0: nat)
      requires i0 <= BLOCK_WORDS - 2 && data.Length == BLOCK_WORDS
      modifies data
      ensures data[..i0] == old(data[..i0]) && forall k | i0 <= k < BLOCK_WORDS - 2 :: data[k] == 0
      ensures data[BLOCK_WORDS - 2] == WordOf(countLow) && data[BLOCK_WORDS - 1] == WordOf(countHigh)
    {
      hide WordOf;
      var i := i0;
      while i < BLOCK_WORDS - 2
        invariant i0 <= i <= BLOCK_WORDS - 2
        invariant data[..i0] == old(data[..i0]) && forall k | i0 <= k < i :: data[k] == 0
      {
        data[i] := 0;
        i := i + 1;
      }
      data[BLOCK_WORDS - 2] := WordOf(countLow);
      data[BLOCK_WORDS - 1] := WordOf(countHigh);
    }

    /** Stores the byte 0x80 after the buffered bytes; the result is the next undefined word. */
    method PutEndMark() returns (i: nat)
      requires Valid()
      modifies data
      ensures i == num / 4 + 1
      ensures forall k | 0 <= k < i :: data[k] == WordAt(MarkedTail(msg), k)
    {
      hide WordAt, Counted, Chain, Fold, Packs;
      ghost var t := msg[|msg| - num..];
      i := num / 4;
      var j := num % 4;
      var end: seq<Byte> := [0x80, 0, 0, 0];
      ghost var m := t + end[..4 - j];
      MarkFollows(t, end, j);
      StoreMark(i, j, end, t, m);
      i := i + 1;
      assert t + [0x80] == MarkedTail(msg);
      MarkedWords(t, end, j);
    }

    static lemma MarkFollows(t: seq<Byte>, end: seq<Byte>, j: nat)
      requires j < 4 && |end| == 4
      ensures t <= t + end[..4 - j] && |t + end[..4 - j]| == |t| + 4 - j
      ensures (t + end[..4 - j])[|t|..|t| + 4 - j] == end[0..4 - j]
    {
    }

    /** The end mark and its zeros complete word i of the buffer. */
    method StoreMark(i: nat, j: nat, end: seq<Byte>, ghost t: seq<Byte>, ghost m: seq<Byte>)
      requires data.Length == BLOCK_WORDS && i < BLOCK_WORDS && j < 4 && |end| == 4
      requires |t| == 4 * i + j && Packs(data[..], t) && t <= m && |m| == |t| + 4 - j && m[|t|..|t| + 4 - j] == end[0..4 - j]
      modifies data
      ensures forall k | 0 <= k <= i :: data[k] == WordAt(m, k)
    {
      hide WordAt;
      StableWords(t, m);
      var l := if j == 0 then 0 else data[i];
      var p;
      l, p := HostPC2l(end, 0, l, j, m, i);
      data[i] := l;
    }

    static lemma MarkedWords(t: seq<Byte>, end: seq<Byte>, j: nat)
      requires j < 4 && end == [0x80, 0, 0, 0]
      ensures forall k :: k >= 0 ==> WordAt(t + end[..4 - j], k) == WordAt(t + [0x80], k)
    {
      hide WordAt;
      EndMarkIs(t, end, j);
      forall k: nat
        ensures WordAt(t + end[..4 - j], k) == WordAt(t + [0x80], k)
      {
        ZeroFilled(t + [0x80], 3 - j, k);
      }
    }

    static lemma EndMarkIs(t: seq<Byte>, end: seq<Byte>, j: nat)
      requires j < 4 && end == [0x80, 0, 0, 0]
      ensures t + end[..4 - j] == t + [0x80] + Zeros(3 - j)
    {
    }

    method AddState(a: Word, b: Word, c: Word, d: Word)
      modifies `regA, `regB, `regC, `regD
      ensures State() == var r := old(State()); Regs(Plus(r.a, a), Plus(r.b, b), Plus(r.c, c), Plus(r.d, d))
    {
      regA, regB, regC, regD := Plus(regA, a), Plus(regB, b), Plus(regC, c), Plus(regD, d);
    }
  }

  method HostRounds(a0: Word, b0: Word, c0: Word, d0: Word, x: seq<Word>) returns (a: Word, b: Word, c: Word, d: Word)
    requires |x| == BLOCK_WORDS
    ensures Regs(a, b, c, d) == Operations(64, Regs(a0, b0, c0, d0), x)
  {
    hide Operation, Operations;
    ghost var r := Regs(a0, b0, c0, d0);
    OperationsNone(r, x);
    a, b, c, d := Round0(a0, b0, c0, d0, x, r);
    a, b, c, d := Round1(a, b, c, d, x, r);
    a, b, c, d := Round2(a, b, c, d, x, r);
    a, b, c, d := Round3(a, b, c, d, x, r);
  }

  /** The loads of a block, interleaved with the first round on it. */
  method LoadingRound(a0: Word, b0: Word, c0: Word, d0: Word, m: seq<Byte>, p: nat, ghost x: seq<Word>)
    returns (a: Word, b: Word, c: Word, d: Word, q: nat, xs: seq<Word>)
    requires |x| == BLOCK_WORDS && BlockAt(m, p, x)
    ensures Regs(a, b, c, d) == Operations(16, Regs(a0, b0, c0, d0), x) && q == p + BLOCK_BYTES && xs == x
  {
    hide Operation, Operations, BlockAt;
    ghost var r := Regs(a0, b0, c0, d0);
    OperationsNone(r, x);
    var x0, x1, x2, x3, x4, x5, x6, x7, x8, x9, x10, x11, x12, x13, x14, x15;
    a, b, c, d, q, x0, x1, x2, x3, x4, x5 := LoadingSteps0(a0, b0, c0, d0, m, p, p, r, x);
    a, b, c, d, q, x6, x7, x8, x9 := LoadingSteps4(a, b, c, d, m, q, x4, x5, p, r, x);
    a, b, c, d, q, x10, x11, x12, x13 := LoadingSteps8(a, b, c, d, m, q, x8, x9, p, r, x);
    a, b, c, d, q, x14, x15 := LoadingSteps12(a, b, c, d, m, q, x12, x13, p, r, x);
    xs := [x0, x1, x2, x3, x4, x5, x6, x7, x8, x9, x10, x11, x12, x13, x14, x15];
  }

  method DataRounds(a0: Word, b0: Word, c0: Word, d0: Word, m: seq<Byte>, p: nat, ghost x: seq<Word>)
    returns (a: Word, b: Word, c: Word, d: Word, q: nat)
    requires |x| == BLOCK_WORDS && BlockAt(m, p, x)
    ensures Regs(a, b, c, d) == Operations(64, Regs(a0, b0, c0, d0), x) && q == p + BLOCK_BYTES
  {
    hide Operation, Operations, BlockAt;
    ghost var r := Regs(a0, b0, c0, d0);
    var xs;
    a, b, c, d, q, xs := LoadingRound(a0, b0, c0, d0, m, p, x);
    a, b, c, d := Round1(a, b, c, d, xs, r);
    a, b, c, d := Round2(a, b, c, d, xs, r);
    a, b, c, d := Round3(a, b, c, d, xs, r);
  }

  /** Init, one Update for each chunk, Final. */
  method DigestOfChunks(chunks: seq<seq<Byte>>) returns (md: seq<Byte>)
    requires forall k | 0 <= k < |chunks| :: |chunks[k]| + CONTEXT_BYTES <= TWO_TO_32
    ensures md == Digest(Joined(chunks))
  {
    hide Digest, Context.Valid;
    var c := new Context();
    var k := 0;
    while k < |chunks|
      invariant 0 <= k <= |chunks|
      invariant c.Valid() && fresh(c) && fresh(c.data) && c.msg == Joined(chunks[..k])
    {
      c.Update(chunks[k]);
      JoinedAppend(chunks, k);
      k := k + 1;
    }
    assert chunks[..k] == chunks;
    md := c.Final();
  }

  /** MD5(): the whole message in one Update. */
  method Md5(d: seq<Byte>) returns (md: seq<Byte>)
    requires |d| + CONTEXT_BYTES <= TWO_TO_32
    ensures md == Digest(d)
  {
    hide Digest, Context.Valid;
    var c := new Context();
    c.Update(d);
    assert [] + d == d;
    md := c.Final();
  }
}

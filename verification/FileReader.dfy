/** The stream operations of lib-file.c on character buffers, proved against the reads of the text. */
module FileReader {
  import opened Options
  import opened Sequences
  import opened TextLines

  /** buf holds s as a C string. */
  ghost predicate Holds(buf: array<char>, s: string)
    reads buf
  {
    |s| < buf.Length && buf[..|s|] == s && buf[|s|] == '\0' && '\0' !in s
  }

  /** Position pos of a text is where its read k begins. */
  ghost predicate AtRead(text: string, pos: nat, k: nat) {
    var rs := Reads(text);
    k <= |rs| && pos <= |text| && text[..pos] == Joined(rs[..k]) && text[pos..] == Joined(rs[k..])
  }

  lemma AtStart(text: string)
    ensures AtRead(text, 0, 0)
  {
    ReadsJoined(text);
    assert Reads(text)[0..] == Reads(text) && Reads(text)[..0] == [];
  }

  /** The end of the text is behind the last read, and only there. */
  lemma AtEnd(text: string, pos: nat, k: nat)
    requires AtRead(text, pos, k)
    ensures k == |Reads(text)| <==> pos == |text|
    ensures k <= |Reads(text)| && pos <= |text|
    ensures Reads(text[pos..]) == Reads(text)[k..]
  {
    ReadsFrom(text, k);
  }

  lemma NextRead(text: string, pos: nat, k: nat)
    requires AtRead(text, pos, k) && k < |Reads(text)|
    ensures var n := ReadLength(text[pos..]);
            && 0 < n && pos + n <= |text| && text[pos..pos + n] == Reads(text)[k] && AtRead(text, pos + n, k + 1)
  {
    hide Reads, Joined, ReadLength;
    AtEnd(text, pos, k);
    var rs, n := Reads(text), ReadLength(text[pos..]);
    ReadsHead(text[pos..]);
    JoinedAppend(rs, k);
    assert rs[k] == Reads(text[pos..])[0];
    assert text[pos..] == rs[k] + Joined(rs[k + 1..]);
    assert text[..pos + n] == text[..pos] + text[pos..pos + n];
    assert text[pos..pos + n] == text[pos..][..n];
    assert text[pos + n..] == text[pos..][n..];
  }

  lemma ReadsHead(text: string)
    requires Reads(text) != []
    ensures text != "" && Reads(text)[0] == text[..ReadLength(text)]
  {
  }

  /** Positions grow with the reads. */
  lemma PositionsGrow(text: string, p: nat, i: nat, q: nat, k: nat)
    requires AtRead(text, p, i) && AtRead(text, q, k) && i < k
    ensures p < q
  {
    var rs := Reads(text);
    JoinedSplit(rs[..k], i);
    assert rs[..k][..i] == rs[..i] && rs[..k][i..][0] == rs[i];
    EarlierComplete(text, i);
  }

  class Stream {
    const text: string
    var pos: nat

    constructor (text: string)
      ensures this.text == text && pos == 0
    {
      this.text, pos := text, 0;
    }

    /** fgets on characters: up to and with a newline, the end of the file, or the end of the buffer. */
    method Fill(buf: array<char>) returns (ghost n: nat)
      requires buf.Length == LINE_BUF_LEN && pos < |text|
      modifies `pos, buf
      ensures 0 < n <= READ && pos == old(pos) + n <= |text|
      ensures buf[..n] == text[old(pos)..pos] && buf[n] == '\0'
      ensures forall i :: old(pos) <= i < pos - 1 ==> text[i] != '\n'
      ensures n == READ || pos == |text| || text[pos - 1] == '\n'
    {
      var i := 0;
      while i < READ && pos < |text| && (i == 0 || buf[i - 1] != '\n')
        invariant i <= READ && pos == old(pos) + i <= |text|
        invariant i == 0 ==> pos < |text|
        invariant buf[..i] == text[old(pos)..pos]
        invariant i > 0 ==> buf[i - 1] == text[pos - 1]
        invariant forall j :: old(pos) <= j < pos - 1 ==> text[j] != '\n'
      {
        buf[i] := text[pos];
        i, pos := i + 1, pos + 1;
      }
      buf[i] := '\0';
      n := i;
    }

    /** fgets: the next read, terminated; false at the end of the file. */
    method Fgets(buf: array<char>, ghost k: nat) returns (ok: bool)
      requires buf.Length == LINE_BUF_LEN && '\0' !in text && AtRead(text, pos, k)
      modifies `pos, buf
      ensures ok <==> k < |Reads(text)|
      ensures ok ==> AtRead(text, pos, k + 1) && Holds(buf, Reads(text)[k])
      ensures !ok ==> pos == old(pos) == |text|
    {
      hide AtRead, Reads;
      AtEnd(text, pos, k);
      if pos == |text| {
        return false;
      }
      ghost var p0 := pos;
      ghost var n := Fill(buf);
      ReadTaken(text, p0, n, k);
      ok := true;
    }
  }

  lemma ReadTaken(text: string, p0: nat, n: nat, k: nat)
    requires AtRead(text, p0, k) && k < |Reads(text)| && 0 < n <= READ && p0 + n <= |text|
    requires forall i :: p0 <= i < p0 + n - 1 ==> text[i] != '\n'
    requires n == READ || p0 + n == |text| || text[p0 + n - 1] == '\n'
    ensures AtRead(text, p0 + n, k + 1) && text[p0..p0 + n] == Reads(text)[k] && |Reads(text)[k]| == n
    ensures '\0' !in text ==> '\0' !in Reads(text)[k]
  {
    hide AtRead, Reads, ReadLength;
    NextRead(text, p0, k);
    assert forall i :: 0 <= i < n - 1 ==> text[p0..][i] == text[p0 + i];
    ReadEnds(text[p0..], n);
    assert forall c <- text[p0..p0 + n] :: c in text;
  }

  /** Where a read ends. */
  lemma ReadEnds(text: string, n: nat)
    requires 0 < n <= |text| && n <= READ
    requires forall i :: 0 <= i < n - 1 ==> text[i] != '\n'
    requires n == READ || n == |text| || text[n - 1] == '\n'
    ensures ReadLength(text) == n
  {
    if text[n - 1] == '\n' {
      BeforeIs(text, IsNewline, n - 1);
    } else if n == |text| {
      BeforeIs(text, IsNewline, n);
    }
  }

  // One line in its buffer.

  lemma HeldChar(buf: array<char>, s: string, i: nat)
    requires Holds(buf, s) && i <= |s|
    ensures |s| < buf.Length && buf[i] == (if i < |s| then s[i] else '\0')
    ensures i < |s| ==> buf[i] != '\0'
  {
    if i < |s| {
      assert buf[..|s|][i] == s[i] && s[i] in s;
    }
  }

  lemma HeldSlice(buf: array<char>, s: string, p1: nat, p2: nat)
    requires Holds(buf, s) && p1 <= p2 <= |s|
    ensures p2 < buf.Length && buf[p1..p2] == s[p1..p2]
  {
    forall j | p1 <= j < p2
      ensures buf[j] == s[j]
    {
      HeldChar(buf, s, j);
    }
  }

  method NoteLine(buf: array<char>, ghost s: string) returns (note: bool)
    requires Holds(buf, s)
    ensures note <==> IsNote(s)
  {
    var at := 0;
    HeldChar(buf, s, 0);
    while buf[at] != '\0' && buf[at] == ' '
      invariant at <= |s| && forall i :: 0 <= i < at ==> !NotBlank(s[i])
      decreases |s| - at
    {
      HeldChar(buf, s, at);
      at := at + 1;
    }
    HeldChar(buf, s, at);
    BeforeIs(s, NotBlank, at);
    note := buf[at] == '#';
  }

  /** Cuts the line at its first line end and drops the blanks behind. */
  method CutTail(buf: array<char>, ghost s: string)
    requires Holds(buf, s) && s != "" && !IsEol(s[0])
    modifies buf
    ensures Holds(buf, CutSpaces(s[..Before(s, IsEol)]))
  {
    var p := 0;
    HeldChar(buf, s, 0);
    while !IsEol(buf[p])
      invariant Holds(buf, s) && 0 <= p <= |s| && forall i :: 0 <= i < p ==> !IsEol(s[i])
      decreases |s| - p
    {
      HeldChar(buf, s, p);
      p := p + 1;
      HeldChar(buf, s, p);
    }
    HeldChar(buf, s, p);
    BeforeIs(s, IsEol, p);
    ghost var t := s[..p];
    assert t[..|t|] == t;
    while p >= 0 && (IsSpace(buf[p]) || IsEol(buf[p]))
      invariant Holds(buf, s) && -1 <= p <= |t| && (p == |t| ==> IsEol(buf[p]))
      invariant CutSpaces(t) == CutSpaces(t[..if p < |t| then p + 1 else |t|])
      decreases p + 1
    {
      HeldChar(buf, s, p);
      if p < |t| {
        CutLast(t, p);
      }
      p := p - 1;
      assert p == |t| - 1 ==> t[..p + 1] == t;
    }
    if p >= 0 {
      HeldChar(buf, s, p);
    }
    CutDone(t, p);
    buf[p + 1] := '\0';
    assert forall c <- s[..p + 1] :: c in s;
    assert buf[..p + 1] == s[..p + 1] == t[..p + 1];
  }

  lemma CutLast(t: string, p: nat)
    requires p < |t| && IsSpace(t[p])
    ensures CutSpaces(t[..p + 1]) == CutSpaces(t[..p])
  {
    assert t[..p + 1][..p] == t[..p];
  }

  lemma CutDone(t: string, p: int)
    requires -1 <= p < |t| && (p >= 0 ==> !IsSpace(t[p]))
    ensures CutSpaces(t[..p + 1]) == t[..p + 1]
  {
    if p >= 0 {
      assert t[..p + 1][p] == t[p];
    }
  }

  /** Moves the line to the front of its buffer, over the blanks before it. */
  method DropHead(buf: array<char>, ghost c: string)
    requires Holds(buf, c)
    modifies buf
    ensures Holds(buf, DropSpaces(c))
  {
    var p := 0;
    HeldChar(buf, c, 0);
    while buf[p] != '\0' && IsSpace(buf[p])
      invariant Holds(buf, c) && p <= |c| && forall i :: 0 <= i < p ==> !NotSpace(c[i])
      decreases |c| - p
    {
      HeldChar(buf, c, p);
      p := p + 1;
    }
    HeldChar(buf, c, p);
    BeforeIs(c, NotSpace, p);
    ghost var q, r := p, c[p..];
    var i := 0;
    while buf[p] != '\0'
      invariant p == q + i <= |c| && buf[..i] == r[..i]
      invariant forall j :: p <= j < |c| ==> buf[j] == c[j]
      invariant buf[|c|] == '\0'
      decreases |c| - p
    {
      assert p < |c|;
      buf[i] := buf[p];
      assert r[..i + 1] == r[..i] + [c[p]];
      i, p := i + 1, p + 1;
    }
    NoNul(c, p);
    buf[i] := '\0';
    assert r[..i] == r;
    assert forall x <- r :: x in c;
  }

  lemma NoNul(c: string, p: nat)
    requires '\0' !in c
    ensures p < |c| ==> c[p] != '\0'
  {
    if p < |c| {
      assert c[p] in c;
    }
  }

  /** One turn of GetLine on the read in its buffer; false when the line is passed over. */
  method TidyLine(buf: array<char>, ghost r: string) returns (kept: bool)
    requires Holds(buf, r) && r != ""
    modifies buf
    ensures kept <==> Tidy(r).Some?
    ensures kept ==> Holds(buf, Tidy(r).value)
  {
    hide Before, Trim, CutSpaces, DropSpaces;
    var note := NoteLine(buf, r);
    if note {
      return false;
    }
    HeldChar(buf, r, 0);
    if IsEol(buf[0]) {
      return false;
    }
    CutTail(buf, r);
    ghost var c := CutSpaces(r[..Before(r, IsEol)]);
    DropHead(buf, c);
    TrimIs(r[..Before(r, IsEol)]);
    HeldChar(buf, DropSpaces(c), 0);
    kept := buf[0] != '\0';
  }

  // The fields of a line.

  /** The separators of a search: those given, or else the blanks and the line ends. */
  function Separators(spchar: Option<string>): char -> bool {
    if spchar.Some? && spchar.value != "" then (c: char) => c in spchar.value else IsSep
  }

  /** Word number f of a line, from 1; -1 stands for the last one. */
  function FieldOf(s: string, sep: char -> bool, f: int): Option<string> {
    var ws := Words(s, sep);
    if f == -1 && ws != [] then Some(ws[|ws| - 1])
    else if 1 <= f <= |ws| then Some(ws[f - 1])
    else None
  }

  /** Separators in front count for nothing, and a word ends where the next separator or the line does. */
  lemma WordsFollow(g: string, w: string, rest: string, sep: char -> bool)
    requires (forall c <- g :: sep(c)) && w != "" && (forall c <- w :: !sep(c)) && (rest == "" || sep(rest[0]))
    ensures Words(g + w + rest, sep) == [w] + Words(rest, sep)
    ensures Words(g, sep) == []
  {
    hide Words;
    var s, a := g + w + rest, |g|;
    forall i | 0 <= i < a
      ensures s[i] in g && sep(s[i])
    {
    }
    assert s[a] == w[0] && w[0] in w;
    BeforeIs(s, Not(sep), a);
    assert s[a..] == w + rest;
    forall i | 0 <= i < |w|
      ensures !sep((w + rest)[i])
    {
      assert w[i] in w;
    }
    BeforeIs(w + rest, sep, |w|);
    WordsStep(s, sep, a, |w|);
    assert s[a..a + |w|] == w && s[a + |w|..] == rest;
    assert g[|g|..] == "";
    BeforeIs(g, Not(sep), |g|);
    NoWords(g, sep);
  }

  /** As much of a field as has room in the static buffer. */
  function Fitted(field: Option<string>): Option<string> {
    if field.Some? && |field.value| > READ then Some(field.value[..READ]) else field
  }

  lemma {:induction false} WordsFit(s: string, sep: char -> bool, w: string)
    requires w in Words(s, sep)
    ensures |w| <= |s|
    decreases |s|
  {
    var t := s[Before(s, Not(sep))..];
    var n := Before(t, sep);
    if w != t[..n] {
      WordsFit(t[n..], sep, w);
    }
  }

  /** A field of a line that fits its buffer fits as well. */
  lemma FieldFits(s: string, sep: char -> bool, f: int)
    requires |s| <= READ
    ensures Fitted(FieldOf(s, sep, f)) == FieldOf(s, sep, f)
  {
    hide Words;
    if FieldOf(s, sep, f).Some? {
      WordsFit(s, sep, FieldOf(s, sep, f).value);
    }
  }

  /**
   * The last field is looked for from the end of the line. The source looks at a character before it asks whether it
   * is still in the line, which makes no difference to the outcome.
   */
  method GetField(buf: array<char>, spchar: Option<string>, f: int, ghost s: string) returns (r: Option<string>)
    requires Holds(buf, s)
    ensures r == Fitted(FieldOf(s, Separators(spchar), f))
  {
    hide InWords, Words, Holds, Separators;
    var sep := Separators(spchar);
    var i: int, p1: nat, p2: nat := 0, 0, 0;
    if f == -1 {
      p1, p2 := LastField(buf, sep, s);
      i := -1;
    } else {
      i, p1, p2 := CountFields(buf, sep, f, s);
    }
    HeldSlice(buf, s, p1, p2);
    if i != f || p2 == p1 {
      return None;
    }
    var n := if p2 - p1 < READ then p2 - p1 else READ;
    assert s[p1..p2][..n] == s[p1..p1 + n];
    HeldSlice(buf, s, p1, p1 + n);
    r := Some(buf[p1..p1 + n]);
  }

  method CountFields(buf: array<char>, sep: char -> bool, f: int, ghost s: string) returns (i: nat, p1: nat, p2: nat)
    requires Holds(buf, s) && f != -1
    ensures p1 <= p2 <= |s| && FieldOf(s, sep, f) == if i == f && p1 < p2 then Some(s[p1..p2]) else None
  {
    var at: nat := 0;
    i, p1, p2 := 0, 0, 0;
    hide InWords, Words, FieldOf, Holds;
    HeldChar(buf, s, 0);
    FirstWords(s, sep);
    while i < f && buf[at] != '\0'
      invariant (if f < 0 then i == 0 else i <= f) && p1 <= p2 <= at <= |s|
      invariant InWords(s, sep, i, at, p1, p2)
    {
      HeldChar(buf, s, at);
      at, p1, p2 := NextWord(buf, sep, s, i, at, p1, p2);
      HeldChar(buf, s, at);
      i := i + 1;
    }
    HeldChar(buf, s, at);
    if f >= 0 {
      AfterWords(s, sep, i, f, at, p1, p2);
    } else {
      NoSuchField(s, sep, f);
    }
  }

  method StringLength(buf: array<char>, ghost s: string) returns (n: nat)
    requires Holds(buf, s)
    ensures n == |s|
  {
    n := 0;
    HeldChar(buf, s, 0);
    while buf[n] != '\0'
      invariant n <= |s| && buf[n] == if n < |s| then s[n] else '\0'
      decreases |s| - n
    {
      HeldChar(buf, s, n);
      n := n + 1;
      HeldChar(buf, s, n);
    }
    HeldChar(buf, s, n);
  }

  /** The bounds of the last field; they are the same if the line consists of separators. */
  method LastField(buf: array<char>, sep: char -> bool, ghost s: string) returns (p1: nat, p2: nat)
    requires Holds(buf, s)
    ensures p1 <= p2 <= |s| && FieldOf(s, sep, -1) == if p1 < p2 then Some(s[p1..p2]) else None
  {
    hide Holds;
    p2 := StringLength(buf, s);
    while p2 > 0 && sep(Char(buf, s, p2 - 1))
      invariant p2 <= |s| && forall j :: p2 <= j < |s| ==> sep(s[j])
    {
      p2 := p2 - 1;
    }
    p1 := p2;
    while p1 > 0 && !sep(Char(buf, s, p1 - 1))
      invariant p1 <= p2 && forall j :: p1 <= j < p2 ==> !sep(s[j])
    {
      p1 := p1 - 1;
    }
    LastWord(s, sep, p1, p2);
  }

  function Char(buf: array<char>, ghost s: string, i: nat): (c: char)
    requires Holds(buf, s) && i < |s|
    reads buf
    ensures c == s[i]
  {
    HeldChar(buf, s, i);
    buf[i]
  }

  /** From p1 to p2 is the last word, or there is none; separators follow. */
  ghost predicate LastAt(s: string, sep: char -> bool, p1: nat, p2: nat) {
    && p1 <= p2 <= |s|
    && (forall j :: p2 <= j < |s| ==> sep(s[j])) && (forall j :: p1 <= j < p2 ==> !sep(s[j]))
    && if p1 == p2 then p1 == 0 else p1 > 0 ==> sep(s[p1 - 1])
  }

  /** The first word is the last one or ends before it. */
  lemma FirstWordAt(s: string, sep: char -> bool, p1: nat, p2: nat)
    requires p1 < p2 && LastAt(s, sep, p1, p2)
    ensures var a := Before(s, Not(sep));
            var n := Before(s[a..], sep);
            a <= p1 && if a == p1 then n == p2 - p1 else a + n < p1
  {
    var a := Before(s, Not(sep));
    assert Not(sep)(s[p1]);
    if a == p1 {
      BeforeIs(s[a..], sep, p2 - p1);
    } else {
      assert sep(s[a..][p1 - 1 - a]);
    }
  }

  lemma LastAtBehind(s: string, sep: char -> bool, k: nat, p1: nat, p2: nat)
    requires k < p1 < p2 && LastAt(s, sep, p1, p2)
    ensures k < |s| && LastAt(s[k..], sep, p1 - k, p2 - k) && s[k..][p1 - k..p2 - k] == s[p1..p2]
  {
  }

  /** So the last field is that word. */
  lemma {:induction false} LastWord(s: string, sep: char -> bool, p1: nat, p2: nat)
    requires p1 <= p2 <= |s| && LastAt(s, sep, p1, p2)
    ensures FieldOf(s, sep, -1) == if p1 < p2 then Some(s[p1..p2]) else None
    decreases |s|
  {
    hide Words, Before, LastAt;
    AllSeparators(s, sep, p1, p2);
    if p1 < p2 {
      FirstWordAt(s, sep, p1, p2);
      var a := Before(s, Not(sep));
      var n := Before(s[a..], sep);
      WordsStep(s, sep, a, n);
      if a < p1 {
        LastAtBehind(s, sep, a + n, p1, p2);
        LastWord(s[a + n..], sep, p1 - (a + n), p2 - (a + n));
      }
    }
  }

  /** There are no words behind the last. */
  lemma AllSeparators(s: string, sep: char -> bool, p1: nat, p2: nat)
    requires p2 <= |s| && LastAt(s, sep, p1, p2)
    ensures Words(s[p2..], sep) == []
    ensures p1 == p2 ==> s[p2..] == s
  {
    BeforeIs(s[p2..], Not(sep), |s| - p2);
  }

  /** After i words: the last one is s[p1..p2] and the others are behind at, or there was no i-th word. */
  ghost predicate InWords(s: string, sep: char -> bool, i: nat, at: nat, p1: nat, p2: nat)
    requires p1 <= p2 <= |s| && at <= |s|
  {
    || (i <= |Words(s, sep)| && Words(s[at..], sep) == Words(s, sep)[i..]
        && (if i == 0 then p1 == p2 else p1 < p2 && s[p1..p2] == Words(s, sep)[i - 1]))
    || (i == |Words(s, sep)| + 1 && at == |s| && p1 == p2)
  }

  lemma FirstWords(s: string, sep: char -> bool)
    ensures InWords(s, sep, 0, 0, 0, 0)
  {
    assert s[0..] == s && Words(s, sep)[0..] == Words(s, sep);
  }

  lemma AfterWords(s: string, sep: char -> bool, i: nat, f: nat, at: nat, p1: nat, p2: nat)
    requires p1 <= p2 <= |s| && at <= |s| && i <= f && (i == f || at == |s|) && InWords(s, sep, i, at, p1, p2)
    ensures FieldOf(s, sep, f) == if i == f && p1 < p2 then Some(s[p1..p2]) else None
  {
    if at == |s| {
      assert s[at..] == "";
      NoWords("", sep);
    }
  }

  lemma NoSuchField(s: string, sep: char -> bool, f: int)
    requires f < 1 && f != -1
    ensures FieldOf(s, sep, f) == None
  {
  }

  lemma NoWords(s: string, sep: char -> bool)
    ensures Before(s, Not(sep)) == |s| <==> Words(s, sep) == []
  {
  }

  lemma WordsSkip(x: string, sep: char -> bool)
    requires x != "" && sep(x[0])
    ensures Words(x, sep) == Words(x[1..], sep)
  {
    assert x[1..][Before(x[1..], Not(sep))..] == x[Before(x, Not(sep))..];
  }

  lemma WordsStep(u: string, sep: char -> bool, a: nat, n: nat)
    requires a == Before(u, Not(sep)) && n == Before(u[a..], sep)
    ensures u[a..] == "" ==> Words(u, sep) == []
    ensures u[a..] != "" ==> n > 0 && Words(u, sep) == [u[a..a + n]] + Words(u[a + n..], sep)
  {
    assert u[a..][..n] == u[a..a + n] && u[a..][n..] == u[a + n..];
  }

  /** One turn of the loop over the fields. */
  method NextWord(buf: array<char>, sep: char -> bool, ghost s: string, ghost i: nat, start: nat, ghost q1: nat, ghost q2: nat)
    returns (at: nat, p1: nat, p2: nat)
    requires Holds(buf, s) && start < |s| && q1 <= q2 <= |s| && InWords(s, sep, i, start, q1, q2)
    ensures p1 <= p2 <= at <= |s| && InWords(s, sep, i + 1, at, p1, p2)
  {
    var a := SkipSeps(buf, sep, s, start);
    p1 := a;
    p2 := SkipWord(buf, sep, s, p1);
    at := p2;
    HeldChar(buf, s, at);
    if buf[at] != '\0' {
      at := at + 1;
    }
    WordTaken(s, sep, i, start, q1, q2, p1, p2, at);
  }

  method SkipSeps(buf: array<char>, sep: char -> bool, ghost s: string, start: nat) returns (at: nat)
    requires Holds(buf, s) && start <= |s|
    ensures at <= |s| && at - start == Before(s[start..], Not(sep))
  {
    at := start;
    HeldChar(buf, s, at);
    while buf[at] != '\0' && sep(buf[at])
      invariant start <= at <= |s| && forall j :: start <= j < at ==> !Not(sep)(s[j])
      decreases |s| - at
    {
      HeldChar(buf, s, at);
      at := at + 1;
    }
    HeldChar(buf, s, at);
    BeforeIs(s[start..], Not(sep), at - start);
  }

  method SkipWord(buf: array<char>, sep: char -> bool, ghost s: string, start: nat) returns (at: nat)
    requires Holds(buf, s) && start <= |s|
    ensures start <= at <= |s| && at - start == Before(s[start..], sep)
  {
    at := start;
    HeldChar(buf, s, at);
    while buf[at] != '\0' && !sep(buf[at])
      invariant start <= at <= |s| && forall j :: start <= j < at ==> !sep(s[j])
      decreases |s| - at
    {
      HeldChar(buf, s, at);
      at := at + 1;
    }
    HeldChar(buf, s, at);
    BeforeIs(s[start..], sep, at - start);
  }

  lemma WordTaken(s: string, sep: char -> bool, i: nat, start: nat, q1: nat, q2: nat, p1: nat, p2: nat, at: nat)
    requires start < |s| && q1 <= q2 <= |s| && InWords(s, sep, i, start, q1, q2)
    requires start <= p1 <= p2 <= at <= |s| && at == if p2 < |s| then p2 + 1 else p2
    requires Before(s[start..], Not(sep)) == p1 - start && Before(s[p1..], sep) == p2 - p1
    ensures InWords(s, sep, i + 1, at, p1, p2)
  {
    hide Words, Before;
    WordsAlong(s, sep, start, p1, p2);
    var ws := Words(s, sep);
    assert i <= |ws| && Words(s[start..], sep) == ws[i..];
    if p1 < |s| {
      Following(ws, i, s[p1..p2], Words(s[p2..], sep));
      if p2 < |s| {
        WordsSkip(s[p2..], sep);
        assert s[p2..][1..] == s[at..];
      }
    }
  }

  lemma Following<T>(ws: seq<T>, i: nat, w: T, rest: seq<T>)
    requires i <= |ws| && ws[i..] == [w] + rest
    ensures i < |ws| && ws[i] == w && ws[i + 1..] == rest
  {
    assert ws[i..][0] == w && ws[i..][1..] == rest;
  }

  /** The words behind start, when the first of them is s[p1..p2]. */
  lemma WordsAlong(s: string, sep: char -> bool, start: nat, p1: nat, p2: nat)
    requires start <= p1 <= p2 <= |s|
    requires Before(s[start..], Not(sep)) == p1 - start && Before(s[p1..], sep) == p2 - p1
    ensures p1 == |s| ==> Words(s[start..], sep) == []
    ensures p1 < |s| ==> p1 < p2 && Words(s[start..], sep) == [s[p1..p2]] + Words(s[p2..], sep)
    ensures p2 < |s| ==> sep(s[p2])
  {
    hide Words, Before;
    var a, n := p1 - start, p2 - p1;
    Slices(s, start, a, n);
    WordsStep(s[start..], sep, a, n);
    BeforeEnds(s[p1..], sep);
  }

  lemma Slices(s: string, start: nat, a: nat, n: nat)
    requires start + a + n <= |s|
    ensures s[start..][a..] == s[start + a..] && s[start..][a + n..] == s[start + a + n..]
    ensures s[start..][a..a + n] == s[start + a..start + a + n]
  {
  }

  lemma BeforeEnds(t: string, sep: char -> bool)
    ensures Before(t, sep) < |t| ==> sep(t[Before(t, sep)])
  {
  }

  /** vgetw for field 0: everything behind the first word and its blanks, as far as the field has room. */
  method Value(buf: array<char>, ghost s: string) returns (field: string)
    requires Holds(buf, s) && buf.Length == LINE_BUF_LEN
    ensures field == ValueOn(s)
  {
    hide Before, DropSpaces, Words;
    var at := SkipWord(buf, IsSep, s, 0);
    assert s[0..] == s;
    var p := SkipBlanks(buf, s, at);
    HeldChar(buf, s, p);
    ghost var rest := s[p..];
    var i := p;
    while buf[i] != '\0' && i - p < LINE_BUF_LEN - 1
      invariant p <= i <= |s|
      decreases |s| - i
    {
      HeldChar(buf, s, i);
      i := i + 1;
      HeldChar(buf, s, i);
    }
    HeldChar(buf, s, i);
    HeldSlice(buf, s, p, i);
    field := buf[p..i];
    assert s[p..|s|] == s[p..];
    BlanksDropped(s, at, p);
  }

  method SkipBlanks(buf: array<char>, ghost s: string, start: nat) returns (at: nat)
    requires Holds(buf, s) && start <= |s|
    ensures start <= at <= |s| && at - start == Before(s[start..], NotSpace)
  {
    at := start;
    HeldChar(buf, s, at);
    while IsSpace(buf[at])
      invariant start <= at <= |s| && buf[at] == (if at < |s| then s[at] else '\0')
      invariant forall j :: start <= j < at ==> !NotSpace(s[j])
      decreases |s| - at
    {
      at := at + 1;
      HeldChar(buf, s, at);
    }
    BeforeIs(s[start..], NotSpace, at - start);
  }

  lemma BlanksDropped(s: string, at: nat, p: nat)
    requires at <= p <= |s| && at == Before(s, IsSep) && p - at == Before(s[at..], NotSpace)
    ensures ValueOn(s) == s[p..]
  {
    assert s[at..][p - at..] == s[p..];
  }
}

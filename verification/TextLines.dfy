/** Text files as lib-file.c reads them: lines, their tidied form, their words. */
module TextLines {
  import opened Options
  import opened Sequences

  /** fgets with a buffer of LINE_BUF_LEN characters reads at most one less. */
  const LINE_BUF_LEN: nat := 8192
  const READ: nat := LINE_BUF_LEN - 1

  predicate IsSpace(c: char) {
    c == ' ' || c == '\t'
  }

  predicate IsEol(c: char) {
    c == '\0' || c == '\n' || c == '\r'
  }

  /** The separators " \t\n\r". */
  predicate IsSep(c: char) {
    c == ' ' || c == '\t' || c == '\n' || c == '\r'
  }

  predicate IsNewline(c: char) {
    c == '\n'
  }

  predicate NotSpace(c: char) {
    !IsSpace(c)
  }

  predicate NotBlank(c: char) {
    c != ' '
  }

  /** How many characters of s come before the first one that satisfies p. */
  function Before(s: string, p: char -> bool): (n: nat)
    ensures n <= |s| && (n < |s| ==> p(s[n])) && forall i :: 0 <= i < n ==> !p(s[i])
  {
    if s == "" || p(s[0]) then 0 else 1 + Before(s[1..], p)
  }

  lemma BeforeIs(s: string, p: char -> bool, n: nat)
    requires n <= |s| && (n < |s| ==> p(s[n])) && forall i :: 0 <= i < n ==> !p(s[i])
    ensures Before(s, p) == n
  {
  }

  // Reads.

  /** What one fgets takes: up to and with the newline, but no more than fits. */
  function ReadLength(text: string): (n: nat)
    ensures n <= |text| && n <= READ && (text != "" ==> n > 0)
  {
    var n := Before(text, IsNewline);
    var line := if n < |text| then n + 1 else n;
    if line <= READ then line else READ
  }

  /** A line with its newline is one read up to 8191 characters; a longer one is cut there. */
  lemma LongestRead(line: string, rest: string)
    requires forall c <- line :: c != '\n'
    ensures |line| < 8191 ==> ReadLength(line + "\n" + rest) == |line| + 1
    ensures |line| >= 8191 ==> ReadLength(line + "\n" + rest) == 8191
  {
    var text := line + "\n" + rest;
    assert forall i :: 0 <= i < |line| ==> text[i] == line[i] && line[i] in line;
    BeforeIs(text, IsNewline, |line|);
  }

  /** The reads that take a whole text. */
  function Reads(text: string): (rs: seq<string>)
    decreases |text|
  {
    if text == "" then [] else [text[..ReadLength(text)]] + Reads(text[ReadLength(text)..])
  }

  lemma {:induction false} ReadsJoined(text: string)
    ensures Joined(Reads(text)) == text
    decreases |text|
  {
    if text != "" {
      ReadsJoined(text[ReadLength(text)..]);
      assert text == text[..ReadLength(text)] + text[ReadLength(text)..];
    }
  }

  /** A read after which another one starts afresh: it has its newline or is as long as can be. */
  predicate Complete(r: string) {
    0 < |r| <= READ && (forall i :: 0 <= i < |r| - 1 ==> r[i] != '\n') && (r[|r| - 1] == '\n' || |r| == READ)
  }

  /** A complete read stays one whatever follows it. */
  lemma ReadComplete(r: string, rest: string)
    requires Complete(r)
    ensures Reads(r + rest) == [r] + Reads(rest)
  {
    var text := r + rest;
    var n := Before(text, IsNewline);
    assert forall i :: 0 <= i < |r| ==> text[i] == r[i];
    assert n >= |r| - 1;
    assert ReadLength(text) == |r|;
    assert text[..|r|] == r && text[|r|..] == rest;
  }

  /** All reads but the last are complete. */
  lemma {:induction false} EarlierComplete(text: string, k: nat)
    requires k < |Reads(text)|
    ensures k + 1 < |Reads(text)| ==> Complete(Reads(text)[k])
    ensures 0 < |Reads(text)[k]| <= READ && forall i :: 0 <= i < |Reads(text)[k]| - 1 ==> Reads(text)[k][i] != '\n'
    decreases |text|
  {
    var n := ReadLength(text);
    if k > 0 {
      EarlierComplete(text[n..], k - 1);
    }
  }

  predicate AllComplete(rs: seq<string>) {
    forall i :: 0 <= i < |rs| ==> Complete(rs[i])
  }

  /** Complete reads in front of a text are its first reads. */
  lemma {:induction false} ReadsAfter(rs: seq<string>, text: string)
    requires AllComplete(rs)
    ensures Reads(Joined(rs) + text) == rs + Reads(text)
  {
    hide Reads, Complete;
    if rs == [] {
      assert Joined(rs) + text == text;
    } else {
      ReadsAfter(rs[1..], text);
      ReadComplete(rs[0], Joined(rs[1..]) + text);
      assert Joined(rs) + text == rs[0] + (Joined(rs[1..]) + text);
      assert rs + Reads(text) == [rs[0]] + (rs[1..] + Reads(text));
    }
  }

  /** A text cut at the start of one of its reads. */
  lemma {:induction false} ReadsFrom(text: string, k: nat)
    requires k <= |Reads(text)|
    ensures Reads(Joined(Reads(text)[k..])) == Reads(text)[k..]
    ensures text == Joined(Reads(text)[..k]) + Joined(Reads(text)[k..])
    decreases |text|
  {
    var rs := Reads(text);
    ReadsJoined(text);
    JoinedSplit(rs, k);
    if k == 0 {
      assert rs[0..] == rs;
    } else {
      var n := ReadLength(text);
      ReadsFrom(text[n..], k - 1);
      assert rs[k..] == Reads(text[n..])[k - 1..];
    }
  }

  // Tidied lines.

  function DropSpaces(s: string): (r: string) {
    s[Before(s, NotSpace)..]
  }

  function CutSpaces(s: string): (r: string)
  {
    if s != "" && IsSpace(s[|s| - 1]) then CutSpaces(s[..|s| - 1]) else s
  }

  function Trim(s: string): string {
    DropSpaces(CutSpaces(s))
  }

  /** Lines whose first character other than a blank is '#'. */
  predicate IsNote(line: string) {
    var n := Before(line, NotBlank);
    n < |line| && line[n] == '#'
  }

  /** The line as GetLine returns it; None when it is passed over. */
  function Tidy(line: string): Option<string> {
    if IsNote(line) || line == "" || IsEol(line[0]) then None
    else
      var t := Trim(line[..Before(line, IsEol)]);
      if t == "" then None else Some(t)
  }

  // Words.

  function Not(p: char -> bool): char -> bool {
    (c: char) => !p(c)
  }

  function Words(s: string, sep: char -> bool): (ws: seq<string>)
    decreases |s|
  {
    var t := s[Before(s, Not(sep))..];
    if t == "" then []
    else
      var n := Before(t, sep);
      [t[..n]] + Words(t[n..], sep)
  }

  /** The value on a tidied line: what follows the first word and the blanks behind it. */
  function ValueOn(s: string): string {
    DropSpaces(s[Before(s, IsSep)..])
  }

  // Facts about trimming.

  lemma TrimIs(s: string)
    ensures Trim(s) == DropSpaces(CutSpaces(s))
  {
  }

  lemma {:induction false} CutJoin(a: string, b: string)
    ensures CutSpaces(a + b) == if CutSpaces(b) == "" then CutSpaces(a) else a + CutSpaces(b)
    decreases |b|
  {
    if b == "" {
      assert a + b == a;
    } else if IsSpace(b[|b| - 1]) {
      CutJoin(a, b[..|b| - 1]);
      assert (a + b)[..|a + b| - 1] == a + b[..|b| - 1];
    }
  }

  lemma DropKeeps(s: string)
    requires s == "" || !IsSpace(s[0])
    ensures DropSpaces(s) == s
  {
  }

  lemma DropOne(s: string)
    ensures DropSpaces(" " + s) == DropSpaces(s)
  {
    assert (" " + s)[1..] == s;
  }

  lemma {:induction false} CutIsPrefix(s: string)
    ensures CutSpaces(s) <= s
    ensures CutSpaces(s) == s <==> s == "" || !IsSpace(s[|s| - 1])
    ensures CutSpaces(s) != "" ==> !IsSpace(CutSpaces(s)[|CutSpaces(s)| - 1])
    decreases |s|
  {
    if s != "" && IsSpace(s[|s| - 1]) {
      CutIsPrefix(s[..|s| - 1]);
    }
  }

  /** Trimming changes nothing exactly when there is no blank at either end. */
  lemma TrimChanges(s: string)
    ensures Trim(s) == s <==> s == "" || (!IsSpace(s[0]) && !IsSpace(s[|s| - 1]))
  {
    CutIsPrefix(s);
    var c := CutSpaces(s);
    if Trim(s) == s && s != "" {
      assert |c| == |s| && Before(c, NotSpace) == 0;
    }
  }
}

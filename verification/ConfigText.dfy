/** A configuration file as a value: what its lines mean, and what editing a line does to them. */
module ConfigText {
  import opened Options
  import opened Sequences
  import opened TextLines

  // Meaning.

  /** The tidied lines of a file, in order, without those that are passed over. */
  function Live(rs: seq<string>): seq<string> {
    if rs == [] then []
    else (if Tidy(rs[0]).Some? then [Tidy(rs[0]).value] else []) + Live(rs[1..])
  }

  predicate HasKey(s: string, name: string) {
    Words(s, IsSep) != [] && Words(s, IsSep)[0] == name
  }

  /** The value of the first line for a name. */
  function Lookup(live: seq<string>, name: string): Option<string> {
    if live == [] then None
    else if HasKey(live[0], name) then Some(ValueOn(live[0]))
    else Lookup(live[1..], name)
  }

  predicate Matches(r: string, name: string) {
    Tidy(r).Some? && HasKey(Tidy(r).value, name)
  }

  /** The position of the first read that matches, or the number of reads. */
  function FirstMatch(rs: seq<string>, name: string): (k: nat)
    ensures k <= |rs| && (k < |rs| ==> Matches(rs[k], name))
    ensures forall i :: 0 <= i < k ==> !Matches(rs[i], name)
  {
    if rs == [] || Matches(rs[0], name) then 0 else 1 + FirstMatch(rs[1..], name)
  }

  // Edits.

  /** How many reads stand in front of line ln; lines outside the file are taken for its ends. */
  function LineAt(text: string, ln: int): (k: nat)
    ensures k <= |Reads(text)|
  {
    if ln <= 1 then 0 else if ln - 1 <= |Reads(text)| then ln - 1 else |Reads(text)|
  }

  /** What stands behind n reads from read k on. */
  function Behind(text: string, k: nat, n: nat): string {
    if k + n < |Reads(text)| then Joined(Reads(text)[k + n..]) else ""
  }

  /** ReplaceLine behind k reads. */
  function Replaced(text: string, k: nat, line: string): string
    requires k <= |Reads(text)|
  {
    Joined(Reads(text)[..k]) + line + "\n" + Behind(text, k, 1)
  }

  /** DeleteLine behind k reads. */
  function Deleted(text: string, k: nat): string
    requires k <= |Reads(text)|
  {
    Joined(Reads(text)[..k]) + Behind(text, k, 1)
  }

  lemma BehindOne(text: string, k: nat)
    requires k < |Reads(text)|
    ensures Behind(text, k, 1) == Joined(Reads(text)[k + 1..])
  {
    hide Reads;
    if k + 1 == |Reads(text)| {
      assert Reads(text)[k + 1..] == [];
    }
  }

  /** AppendLine: an empty file and one without a line end at its end get a newline first. */
  function Appended(text: string, line: string): string {
    if text == "" || !IsEol(text[|text| - 1]) then text + "\n" + line + "\n"
    else text + line + "\n"
  }

  /** A name that can stand at the front of a line. */
  predicate IsName(name: string) {
    name != "" && name[0] != '#' && forall c <- name :: !IsSep(c) && !IsEol(c)
  }

  predicate OneLine(v: string) {
    forall c <- v :: !IsEol(c)
  }

  /** The line that stores a value. */
  function Entry(name: string, v: string): string {
    name + " " + v
  }

  /** The line that config_set prints has room in its buffer. */
  predicate Fits(name: string, v: string) {
    |Entry(name, v)| < LINE_BUF_LEN
  }

  // Lists of lines.

  function LiveHead(r: string): seq<string> {
    if Tidy(r).Some? then [Tidy(r).value] else []
  }

  lemma LiveStep(rs: seq<string>)
    requires rs != []
    ensures Live(rs) == LiveHead(rs[0]) + Live(rs[1..])
  {
  }

  lemma LiveNone()
    ensures Live([]) == []
  {
  }

  lemma {:induction false} LiveJoin(a: seq<string>, b: seq<string>)
    ensures Live(a + b) == Live(a) + Live(b)
  {
    hide *;
    if a == [] {
      LiveNone();
      assert a + b == b;
    } else {
      LiveJoin(a[1..], b);
      LiveStep(a);
      LiveStep(a + b);
      assert (a + b)[1..] == a[1..] + b;
      assert (a + b)[0] == a[0];
    }
  }

  lemma {:induction false} LookupJoin(a: seq<string>, b: seq<string>, name: string)
    ensures Lookup(a + b, name) == if Lookup(a, name).Some? then Lookup(a, name) else Lookup(b, name)
  {
    if a == [] {
      assert a + b == b;
    } else {
      LookupJoin(a[1..], b, name);
      assert (a + b)[1..] == a[1..] + b;
    }
  }

  lemma {:induction false} NoMatchNoValue(rs: seq<string>, name: string)
    requires forall i :: 0 <= i < |rs| ==> !Matches(rs[i], name)
    ensures Lookup(Live(rs), name) == None
  {
    if rs != [] {
      NoMatchNoValue(rs[1..], name);
      LookupJoin(if Tidy(rs[0]).Some? then [Tidy(rs[0]).value] else [], Live(rs[1..]), name);
      hide Tidy, HasKey, ValueOn;
    }
  }

  lemma LookupOne(s: string, name: string)
    ensures Lookup([s], name) == if HasKey(s, name) then Some(ValueOn(s)) else None
  {
    assert [s][1..] == [];
  }

  lemma LiveOne(r: string)
    ensures Live([r]) == if Tidy(r).Some? then [Tidy(r).value] else []
  {
    assert [r][1..] == [];
  }

  /** Looking up is finding the first read that matches. */
  lemma LookupIsFirstMatch(rs: seq<string>, name: string)
    ensures var k := FirstMatch(rs, name);
            Lookup(Live(rs), name) == if k < |rs| then Some(ValueOn(Tidy(rs[k]).value)) else None
  {
    hide Tidy, HasKey, ValueOn;
    var k := FirstMatch(rs, name);
    NoMatchNoValue(rs[..k], name);
    LiveJoin(rs[..k], rs[k..]);
    LookupJoin(Live(rs[..k]), Live(rs[k..]), name);
    assert rs == rs[..k] + rs[k..];
    assert k == |rs| ==> rs[k..] == [];
  }

  // Edits, read by read.

  /** A line that one read can take without its newline. */
  predicate NoNewline(line: string) {
    (forall c <- line :: c != '\n') && |line| <= READ
  }

  lemma LineComplete(line: string)
    requires NoNewline(line) && |line| < READ
    ensures Complete(line + "\n")
  {
    forall i | 0 <= i < |line|
      ensures (line + "\n")[i] != '\n'
    {
      assert line[i] in line;
    }
  }

  lemma LongLineComplete(line: string)
    requires NoNewline(line) && |line| == READ
    ensures Complete(line) && Complete("\n")
  {
    forall i | 0 <= i < |line|
      ensures line[i] != '\n'
    {
      assert line[i] in line;
    }
  }

  lemma OneComplete(r: string)
    requires Complete(r)
    ensures AllComplete([r]) && Reads(r) == [r]
  {
    hide Complete, Reads;
    ReadComplete(r, "");
    NothingRead();
    assert r + "" == r;
    assert [r] + [] == [r];
  }

  lemma TwoComplete(r: string, q: string)
    requires Complete(r) && Complete(q)
    ensures AllComplete([r, q]) && Reads(r + q) == [r, q]
  {
    hide Complete, Reads;
    OneComplete(q);
    ReadComplete(r, q);
    assert [r] + [q] == [r, q];
  }

  /** A line is one read with its newline, or it fills a read and its newline is another. */
  lemma ReadsOfLine(line: string)
    requires NoNewline(line)
    ensures Reads(line + "\n") == if |line| < READ then [line + "\n"] else [line, "\n"]
    ensures AllComplete(Reads(line + "\n"))
  {
    LineRoom(line);
    hide *;
    if |line| < READ {
      LineComplete(line);
      OneComplete(line + "\n");
    } else {
      LongLineComplete(line);
      TwoComplete(line, "\n");
    }
  }

  lemma LineRoom(line: string)
    requires NoNewline(line)
    ensures |line| <= READ
  {
  }

  lemma NothingRead()
    ensures Reads("") == [] && AllComplete([])
  {
  }

  /** Reads in front of, in, and behind a place of a text. */
  lemma ReadsAround(a: seq<string>, c: seq<string>, rest: string)
    requires AllComplete(a) && AllComplete(c)
    ensures var text := Joined(a) + Joined(c) + rest;
            |a| <= |Reads(text)| && Reads(text)[..|a|] == a && Behind(text, |a|, |c|) == rest
            && LineAt(text, |a| + 1) == |a|
  {
    hide Reads, Complete, Joined;
    var text := Joined(a) + Joined(c) + rest;
    ReadsAfter(c, rest);
    ReadsAfter(a, Joined(c) + rest);
    assert text == Joined(a) + (Joined(c) + rest);
    ThreeParts(a, c, Reads(rest));
    NothingJoined();
    ReadsJoined(rest);
  }

  lemma ThreeParts(a: seq<string>, c: seq<string>, rs: seq<string>)
    ensures var all := a + (c + rs); |all| == |a| + |c| + |rs| && all[..|a|] == a && all[|a| + |c|..] == rs
  {
  }

  lemma NothingJoined()
    ensures Joined([]) == ""
  {
  }

  /** Replacing and deleting line |a| + 1 touch that line and nothing else. */
  lemma LineEdits(a: seq<string>, old': string, rest: string, line: string)
    requires AllComplete(a) && Complete(old')
    ensures var text := Joined(a) + old' + rest;
            && LineAt(text, |a| + 1) == |a| <= |Reads(text)|
            && Replaced(text, |a|, line) == Joined(a) + line + "\n" + rest && Deleted(text, |a|) == Joined(a) + rest
  {
    hide Reads, Complete;
    ReadsAround(a, [old'], rest);
    assert Joined([old']) == old' by {
      assert [old'][1..] == [];
      assert old' + "" == old';
    }
  }

  /** Either way its live line is the same. */
  lemma LiveOfLine(line: string)
    requires NoNewline(line)
    ensures Live(Reads(line + "\n")) == Live([line + "\n"])
  {
    hide Tidy, Live, Reads;
    ReadsOfLine(line);
    if |line| == READ {
      ClosedLine(line);
      LiveJoin([line], ["\n"]);
      LiveOne("\n");
      BlankLine();
      assert [line, "\n"] == [line] + ["\n"];
    }
  }

  lemma ReadsBefore(text: string, k: nat)
    requires k < |Reads(text)|
    ensures AllComplete(Reads(text)[..k])
  {
    hide Reads;
    forall i | 0 <= i < k
      ensures Complete(Reads(text)[i])
    {
      EarlierComplete(text, i);
    }
  }

  lemma ReadsOfReplaced(text: string, k: nat, line: string)
    requires k < |Reads(text)| && NoNewline(line)
    ensures Reads(Replaced(text, k, line)) == Reads(text)[..k] + (Reads(line + "\n") + Reads(text)[k + 1..])
  {
    hide Reads, Complete, Joined, NoNewline;
    var rs, ls := Reads(text), Reads(line + "\n");
    var rest := Joined(rs[k + 1..]);
    ReadsBefore(text, k);
    ReadsOfLine(line);
    ReadsJoined(line + "\n");
    ReadsFrom(text, k + 1);
    ReadsAfter(ls, rest);
    ReadsAfter(rs[..k], line + "\n" + rest);
    BehindOne(text, k);
    assert Replaced(text, k, line) == Joined(rs[..k]) + (line + "\n" + rest);
  }

  /** Only the live lines of the replaced read change. */
  lemma LiveOfReplaced(text: string, k: nat, line: string)
    requires k < |Reads(text)| && NoNewline(line)
    ensures var rs := Reads(text);
            Live(Reads(Replaced(text, k, line))) == Live(rs[..k]) + Live([line + "\n"]) + Live(rs[k + 1..])
  {
    hide *;
    var rs, ls := Reads(text), Reads(line + "\n");
    ReadsOfReplaced(text, k, line);
    LiveOfLine(line);
    LiveJoin(rs[..k], ls + rs[k + 1..]);
    LiveJoin(ls, rs[k + 1..]);
  }

  lemma ReadsOfDeleted(text: string, k: nat)
    requires k < |Reads(text)|
    ensures Reads(Deleted(text, k)) == Reads(text)[..k] + Reads(text)[k + 1..]
  {
    hide Reads, Joined;
    BehindOne(text, k);
    ReadsBefore(text, k);
    ReadsFrom(text, k + 1);
    ReadsAfter(Reads(text)[..k], Joined(Reads(text)[k + 1..]));
  }

  // The stored line and how it reads back.

  lemma KeyInFront(name: string, x: string)
    requires IsName(name) && (x == "" || IsSep(x[0]))
    ensures HasKey(name + x, name) && ValueOn(name + x) == DropSpaces(x)
  {
    var s := name + x;
    assert forall i :: 0 <= i < |name| ==> s[i] == name[i] && name[i] in name;
    BeforeIs(s, Not(IsSep), 0);
    BeforeIs(s, IsSep, |name|);
    assert s[0..] == s && s[..|name|] == name && s[|name|..] == x;
    hide Before;
    assert Words(s, IsSep)[0] == name;
  }

  lemma TrimEntry(name: string, v: string)
    requires IsName(name)
    ensures Trim(Entry(name, v)) == if CutSpaces(v) == "" then name else name + (" " + CutSpaces(v))
  {
    hide CutSpaces, DropSpaces;
    var c := CutSpaces(v);
    NameEnds(name);
    CutIsPrefix(name);
    CutJoin(" ", v);
    CutBlank();
    CutJoin(name, " " + v);
    assert Entry(name, v) == name + (" " + v);
    DropKeeps(name);
    DropKeeps(name + (" " + c));
  }

  lemma NameEnds(name: string)
    requires IsName(name)
    ensures !IsSpace(name[0]) && !IsSpace(name[|name| - 1])
  {
    assert name[0] in name && name[|name| - 1] in name;
  }

  lemma CutBlank()
    ensures CutSpaces(" ") == ""
  {
    assert " "[..0] == "";
  }

  /** A stored line is found under its name and gives the trimmed value. */
  lemma EntryReadsBack(name: string, v: string)
    requires IsName(name) && OneLine(v)
    ensures var r := Tidy(Entry(name, v) + "\n");
            r.Some? && HasKey(r.value, name) && ValueOn(r.value) == Trim(v)
  {
    hide HasKey, ValueOn, Trim, CutSpaces, DropSpaces;
    var e := Entry(name, v);
    var r := e + "\n";
    forall i | 0 <= i < |e|
      ensures !IsEol(r[i])
    {
      assert i < |name| ==> r[i] == name[i] && name[i] in name;
      assert i > |name| ==> r[i] == v[i - |name| - 1] && v[i - |name| - 1] in v;
    }
    assert r[0] == name[0] && name[0] in name;
    BeforeIs(r, NotBlank, 0);
    BeforeIs(r, IsEol, |e|);
    assert r[..|e|] == e;
    TrimEntry(name, v);
    var c := CutSpaces(v);
    if c == "" {
      KeyInFront(name, "");
      assert name + "" == name;
      TrimIs(v);
    } else {
      KeyInFront(name, " " + c);
      DropOne(c);
      TrimIs(v);
    }
  }

  lemma AllBlank(l: string)
    ensures Before(l, NotBlank) == |l| ==> Before(l, IsEol) == |l|
  {
    if Before(l, NotBlank) == |l| {
      assert forall i :: 0 <= i < |l| ==> !NotBlank(l[i]);
      BeforeIs(l, IsEol, |l|);
    }
  }

  /** What comes behind a line end does not change the tidied line. */
  lemma TidyStable(l: string, x: string)
    requires l != "" && x != ""
    requires Before(l, IsEol) < |l| || IsEol(x[0])
    ensures Tidy(l + x) == Tidy(l)
  {
    hide Before, Trim;
    var n, m := Before(l, IsEol), Before(l, NotBlank);
    var s := l + x;
    assert forall i :: 0 <= i < |l| ==> s[i] == l[i];
    BeforeIs(s, IsEol, n);
    assert s[..n] == l[..n];
    AllBlank(l);
    assert s[|l|] == x[0];
    BeforeIs(s, NotBlank, m);
  }

  // Appending.

  /** The file ends in a carriage return that no newline follows: what is appended lands on the same line. */
  predicate Swallows(text: string) {
    var rs := Reads(text);
    rs != [] && LeftOpen(rs[|rs| - 1])
  }

  predicate LeftOpen(r: string) {
    r != "" && !Complete(r) && IsEol(r[|r| - 1])
  }

  lemma LastRead(text: string)
    requires text != ""
    ensures var rs := Reads(text);
            var l := rs[|rs| - 1];
            && rs != [] && l != "" && text == Joined(rs[..|rs| - 1]) + l && text[|text| - 1] == l[|l| - 1]
            && AllComplete(rs[..|rs| - 1]) && rs == rs[..|rs| - 1] + [l]
            && |l| <= READ && (!Complete(l) ==> |l| < READ && forall c <- l :: c != '\n')
  {
    SomeRead(text);
    hide *;
    var rs := Reads(text);
    var k := |rs| - 1;
    ReadsBefore(text, k);
    EarlierComplete(text, k);
    ReadsFrom(text, k);
    FrontAndLast(rs);
    JoinedOne(rs[k]);
    LastChar(Joined(rs[..k]), rs[k]);
    IncompleteRead(rs[k]);
  }

  lemma FrontAndLast<T>(s: seq<T>)
    requires s != []
    ensures s == s[..|s| - 1] + [s[|s| - 1]] && s[|s| - 1..] == [s[|s| - 1]]
  {
  }

  lemma LastChar(front: string, l: string)
    requires l != ""
    ensures (front + l)[|front + l| - 1] == l[|l| - 1]
  {
  }

  lemma SomeRead(text: string)
    requires text != ""
    ensures Reads(text) != []
  {
  }

  lemma IncompleteRead(l: string)
    requires 0 < |l| <= READ && forall i :: 0 <= i < |l| - 1 ==> l[i] != '\n'
    ensures !Complete(l) ==> |l| < READ && forall c <- l :: c != '\n'
  {
  }

  lemma BlankLine()
    ensures Tidy("\n") == None && Tidy("" + "\n") == None
  {
    assert "" + "\n" == "\n";
  }

  lemma LiveWithTail(rs: seq<string>, x: string)
    requires AllComplete(rs)
    ensures Live(Reads(Joined(rs) + x)) == Live(rs) + Live(Reads(x))
  {
    hide *;
    ReadsAfter(rs, x);
    LiveJoin(rs, Reads(x));
  }

  lemma LiveOfTwoLines(l: string, line: string)
    requires NoNewline(l) && NoNewline(line)
    ensures Live(Reads(l + "\n" + (line + "\n"))) == Live([l + "\n"]) + Live([line + "\n"])
  {
    hide *;
    ReadsOfLine(l);
    ReadsJoined(l + "\n");
    LiveWithTail(Reads(l + "\n"), line + "\n");
    LiveOfLine(l);
    LiveOfLine(line);
  }

  lemma AppendedToComplete(text: string, line: string)
    requires NoNewline(line) && text == Joined(Reads(text)) && AllComplete(Reads(text))
    ensures Live(Reads(text + line + "\n")) == Live(Reads(text)) + Live([line + "\n"])
    ensures Live(Reads(text + "\n" + line + "\n")) == Live(Reads(text)) + Live([line + "\n"])
  {
    hide *;
    var rs := Reads(text);
    LiveWithTail(rs, line + "\n");
    LiveOfLine(line);
    assert text + line + "\n" == text + (line + "\n");
    assert text + "\n" + line + "\n" == text + ("" + "\n" + (line + "\n"));
    EmptyLine();
    LiveWithTail(rs, "" + "\n" + (line + "\n"));
    LiveOfTwoLines("", line);
  }

  lemma EmptyLine()
    ensures NoNewline("") && Live(["" + "\n"]) == []
  {
    LiveOne("" + "\n");
    BlankLine();
  }

  lemma AppendedToOpen(front: seq<string>, l: string, line: string)
    requires AllComplete(front) && NoNewline(l) && NoNewline(line) && l != ""
    ensures Live(Reads(Joined(front) + l + "\n" + line + "\n")) == Live(front + [l]) + Live([line + "\n"])
  {
    hide *;
    assert Joined(front) + l + "\n" + line + "\n" == Joined(front) + (l + "\n" + (line + "\n"));
    LiveWithTail(front, l + "\n" + (line + "\n"));
    LiveOfTwoLines(l, line);
    ClosedLine(l);
    LiveJoin(front, [l]);
  }

  lemma ClosedLine(l: string)
    requires l != ""
    ensures Live([l + "\n"]) == Live([l])
  {
    hide Tidy;
    TidyStable(l, "\n");
    LiveOne(l);
    LiveOne(l + "\n");
  }

  /** Unless the end of the file swallows it, an appended line is added behind all the others. */
  lemma LiveOfAppended(text: string, line: string)
    requires !Swallows(text) && NoNewline(line)
    ensures Live(Reads(Appended(text, line))) == Live(Reads(text)) + Live([line + "\n"])
  {
    hide *;
    var rs := Reads(text);
    ReadsJoined(text);
    if text == "" {
      NothingRead();
      AppendedIs(text, line);
      AppendedToComplete(text, line);
    } else {
      LastRead(text);
      AppendedIs(text, line);
      var front, l := rs[..|rs| - 1], rs[|rs| - 1];
      if Complete(l) {
        AllOf(front, l);
        AppendedToComplete(text, line);
      } else {
        OpenLine(l);
        NotSwallowed(text);
        AppendedToOpen(front, l, line);
      }
    }
  }

  lemma AppendedIs(text: string, line: string)
    ensures Appended(text, line) == text + "\n" + line + "\n" || Appended(text, line) == text + line + "\n"
    ensures text == "" || !IsEol(text[|text| - 1]) ==> Appended(text, line) == text + "\n" + line + "\n"
    ensures text != "" && IsEol(text[|text| - 1]) ==> Appended(text, line) == text + line + "\n"
  {
  }

  lemma AllOf(front: seq<string>, l: string)
    requires AllComplete(front) && Complete(l)
    ensures AllComplete(front + [l])
  {
  }

  lemma NotSwallowed(text: string)
    requires !Swallows(text) && Reads(text) != []
    ensures var l := Reads(text)[|Reads(text)| - 1];
            l != "" && !Complete(l) ==> !IsEol(l[|l| - 1])
  {
  }

  lemma OpenLine(l: string)
    requires |l| <= READ && forall c <- l :: c != '\n'
    ensures NoNewline(l)
  {
  }

  /** What of an appended line no longer fits into the read that swallows it. */
  function Spill(text: string, line: string): string
    requires Swallows(text)
  {
    LastRead(text);
    var l := Reads(text)[|Reads(text)| - 1];
    if |l| + |line| <= READ then "" else line[READ - |l|..]
  }

  /** Otherwise nothing is added but what the swallowing read has no room for. */
  lemma LiveOfSwallowed(text: string, line: string)
    requires Swallows(text) && NoNewline(line)
    ensures Live(Reads(Appended(text, line))) == Live(Reads(text)) + Live([Spill(text, line) + "\n"])
  {
    hide *;
    LastSwallows(text);
    SpillIs(text, line);
    var rs := Reads(text);
    LiveOfSpilled(rs[..|rs| - 1], rs[|rs| - 1], line, Spill(text, line));
  }

  lemma LiveOfSpilled(front: seq<string>, l: string, line: string, spill: string)
    requires AllComplete(front) && l != "" && |l| < READ && IsEol(l[|l| - 1]) && NoNewline(l) && NoNewline(line)
    requires spill == if |l| + |line| <= READ then "" else line[READ - |l|..]
    ensures Live(Reads(Joined(front) + l + line + "\n")) == Live(front + [l]) + Live([spill + "\n"])
  {
    hide *;
    if |l| + |line| <= READ {
      AppendedToSwallowing(front, l, line);
      EmptyLine();
      NothingBehind(Live(front + [l]));
    } else {
      SpilledFromSwallowing(front, l, line);
    }
  }

  lemma LastSwallows(text: string)
    requires Swallows(text)
    ensures var rs := Reads(text);
            var l := rs[|rs| - 1];
            && rs != [] && rs == rs[..|rs| - 1] + [l] && AllComplete(rs[..|rs| - 1])
            && l != "" && |l| < READ && IsEol(l[|l| - 1]) && NoNewline(l)
            && text != "" && text == Joined(rs[..|rs| - 1]) + l && IsEol(text[|text| - 1])
  {
    LastRead(text);
    hide Reads, Complete;
  }

  lemma SpillIs(text: string, line: string)
    requires Swallows(text)
    ensures var l := Reads(text)[|Reads(text)| - 1];
            && |l| < READ
            && Spill(text, line) == if |l| + |line| <= READ then "" else line[READ - |l|..]
    ensures Appended(text, line) == Joined(Reads(text)[..|Reads(text)| - 1]) + Reads(text)[|Reads(text)| - 1] + line + "\n"
  {
    LastSwallows(text);
    hide Reads, Complete, NoNewline;
  }

  lemma AppendedToSwallowing(front: seq<string>, l: string, line: string)
    requires AllComplete(front) && l != "" && IsEol(l[|l| - 1]) && NoNewline(l)
    requires NoNewline(line) && |l| + |line| <= READ
    ensures Live(Reads(Joined(front) + l + line + "\n")) == Live(front + [l])
  {
    hide *;
    SwallowedLine(l, line + "\n");
    LineJoined(l, line);
    assert Joined(front) + l + line + "\n" == Joined(front) + (l + line + "\n");
    assert l + (line + "\n") == l + line + "\n";
    LiveWithTail(front, l + line + "\n");
    LiveOfLine(l + line);
    LiveJoin(front, [l]);
  }

  lemma SpilledFromSwallowing(front: seq<string>, l: string, line: string)
    requires AllComplete(front) && l != "" && |l| < READ && IsEol(l[|l| - 1]) && NoNewline(l)
    requires NoNewline(line) && |l| + |line| > READ
    ensures Live(Reads(Joined(front) + l + line + "\n")) == Live(front + [l]) + Live([line[READ - |l|..] + "\n"])
  {
    hide *;
    var head, tail := line[..READ - |l|], line[READ - |l|..];
    NoNewlineParts(line, READ - |l|);
    SwallowedLine(l, head);
    LineJoined(l, head);
    SpillParts(Joined(front), l, head, tail, line);
    LiveOfFullRead(front, l + head, tail);
    LiveJoin(front, [l]);
  }

  lemma LiveOfFullRead(front: seq<string>, full: string, tail: string)
    requires AllComplete(front) && NoNewline(full) && |full| == READ && NoNewline(tail)
    ensures Live(Reads(Joined(front) + (full + (tail + "\n")))) == Live(front) + Live([full]) + Live([tail + "\n"])
  {
    hide *;
    LongLineComplete(full);
    OneComplete(full);
    JoinedOne(full);
    LiveWithTail(front, full + (tail + "\n"));
    LiveWithTail([full], tail + "\n");
    LiveOfLine(tail);
    Reassociate(Live(front), Live([full]), Live([tail + "\n"]));
  }

  lemma SpillParts(front: string, l: string, head: string, tail: string, line: string)
    requires line == head + tail
    ensures front + l + line + "\n" == front + (l + head + (tail + "\n"))
  {
  }

  lemma NoNewlineParts(line: string, k: nat)
    requires NoNewline(line) && k <= |line|
    ensures NoNewline(line[..k]) && NoNewline(line[k..])
  {
    forall c | c in line[..k] || c in line[k..]
      ensures c != '\n'
    {
      assert c in line;
    }
  }

  lemma LineJoined(l: string, line: string)
    requires NoNewline(l) && NoNewline(line) && |l| + |line| <= READ
    ensures NoNewline(l + line)
  {
    forall c | c in l + line
      ensures c != '\n'
    {
      assert c in l || c in line;
    }
  }

  lemma SwallowedLine(l: string, x: string)
    requires l != "" && IsEol(l[|l| - 1]) && x != ""
    ensures Live([l + x]) == Live([l])
  {
    hide Tidy;
    TidyStable(l, x);
    LiveOne(l);
    LiveOne(l + x);
  }

  // The file as a map.

  function Meaning(text: string, name: string): Option<string> {
    Lookup(Live(Reads(text)), name)
  }

  predicate Stored(text: string, name: string) {
    FirstMatch(Reads(text), name) < |Reads(text)|
  }

  /** What config_set makes of the file. */
  function SetText(text: string, name: string, v: string): string {
    var k := FirstMatch(Reads(text), name);
    if k < |Reads(text)| then Replaced(text, k, Entry(name, v)) else Appended(text, Entry(name, v))
  }

  /** What config_remove makes of the file. */
  function RemoveText(text: string, name: string): string {
    var k := FirstMatch(Reads(text), name);
    if k < |Reads(text)| then Deleted(text, k) else text
  }

  lemma EntryFits(name: string, v: string)
    requires IsName(name) && OneLine(v) && Fits(name, v)
    ensures NoNewline(Entry(name, v)) && Entry(name, v) != ""
  {
    forall c | c in Entry(name, v)
      ensures c != '\n'
    {
      assert c in name || c == ' ' || c in v;
    }
  }

  /** The live line that setting writes. */
  function Written(name: string, v: string): string
    requires IsName(name) && OneLine(v)
    ensures HasKey(Written(name, v), name) && ValueOn(Written(name, v)) == Trim(v)
  {
    EntryReadsBack(name, v);
    Tidy(Entry(name, v) + "\n").value
  }

  /** All other live lines survive in order: the first line for the name is replaced, or the new one comes last. */
  lemma SetKeepsLines(text: string, name: string, v: string)
    requires IsName(name) && OneLine(v) && Fits(name, v) && (Stored(text, name) || !Swallows(text))
    ensures var rs := Reads(text);
            var k := FirstMatch(rs, name);
            Live(Reads(SetText(text, name, v)))
            == if k < |rs| then Live(rs[..k]) + [Written(name, v)] + Live(rs[k + 1..])
               else Live(rs) + [Written(name, v)]
  {
    hide *;
    var rs := Reads(text);
    var k := FirstMatch(rs, name);
    EntryFits(name, v);
    WrittenLive(name, v);
    SetTextIs(text, name, v);
    if k < |rs| {
      LiveOfReplaced(text, k, Entry(name, v));
    } else {
      LiveOfAppended(text, Entry(name, v));
    }
  }

  lemma SetTextIs(text: string, name: string, v: string)
    ensures var k := FirstMatch(Reads(text), name);
            && (Stored(text, name) <==> k < |Reads(text)|)
            && SetText(text, name, v)
               == if k < |Reads(text)| then Replaced(text, k, Entry(name, v)) else Appended(text, Entry(name, v))
  {
    hide Reads, Replaced, Appended;
  }

  lemma WrittenLive(name: string, v: string)
    requires IsName(name) && OneLine(v)
    ensures Live([Entry(name, v) + "\n"]) == [Written(name, v)]
  {
    EntryReadsBack(name, v);
    LiveOne(Entry(name, v) + "\n");
  }

  /** The live lines around the first one for a name. */
  lemma LiveAround(rs: seq<string>, name: string, k: nat)
    requires k == FirstMatch(rs, name) < |rs|
    ensures Live(rs) == Live(rs[..k]) + [Tidy(rs[k]).value] + Live(rs[k + 1..])
    ensures Lookup(Live(rs[..k]), name) == None && HasKey(Tidy(rs[k]).value, name)
  {
    hide Live, Tidy, HasKey;
    NoMatchNoValue(rs[..k], name);
    LiveJoin(rs[..k], [rs[k]]);
    LiveJoin(rs[..k] + [rs[k]], rs[k + 1..]);
    LiveOne(rs[k]);
    assert rs == rs[..k] + [rs[k]] + rs[k + 1..];
  }

  lemma LookupThree(a: seq<string>, s: string, b: seq<string>, name: string)
    ensures Lookup(a + [s] + b, name)
         == if Lookup(a, name).Some? then Lookup(a, name)
            else if HasKey(s, name) then Some(ValueOn(s)) else Lookup(b, name)
  {
    hide Lookup, HasKey, ValueOn;
    LookupJoin(a, [s], name);
    LookupJoin(a + [s], b, name);
    LookupOne(s, name);
  }

  lemma OneKey(s: string, a: string, b: string)
    requires HasKey(s, a) && a != b
    ensures !HasKey(s, b)
  {
  }

  /** Setting a name changes its value to the trimmed text and no other name's answer. */
  lemma SetMeaning(text: string, name: string, v: string, other: string)
    requires IsName(name) && OneLine(v) && Fits(name, v) && (Stored(text, name) || !Swallows(text))
    ensures Meaning(SetText(text, name, v), other) == if other == name then Some(Trim(v)) else Meaning(text, other)
  {
    hide SetText, Live, Lookup, HasKey, ValueOn, Tidy, Reads, Trim, Swallows;
    var rs := Reads(text);
    var k := FirstMatch(rs, name);
    SetKeepsLines(text, name, v);
    var w := Written(name, v);
    if other != name {
      OneKey(w, name, other);
    }
    if k < |rs| {
      LiveAround(rs, name, k);
      var s := Tidy(rs[k]).value;
      LookupThree(Live(rs[..k]), w, Live(rs[k + 1..]), other);
      LookupThree(Live(rs[..k]), s, Live(rs[k + 1..]), other);
      if other != name {
        OneKey(s, name, other);
      }
    } else {
      NoMatchNoValue(rs, name);
      LookupJoin(Live(rs), [w], other);
      LookupOne(w, other);
    }
  }

  /** At the end of a file that swallows it, a new setting is lost: at most the end of its value becomes a line. */
  lemma SetSwallowed(text: string, name: string, v: string, other: string)
    requires IsName(name) && OneLine(v) && Fits(name, v) && !Stored(text, name) && Swallows(text)
    ensures var tail := Spill(text, Entry(name, v)) + "\n";
            Meaning(SetText(text, name, v), other)
            == if Stored(text, other) then Meaning(text, other)
               else if Matches(tail, other) then Some(ValueOn(Tidy(tail).value)) else None
  {
    hide *;
    var rs, tail := Reads(text), Spill(text, Entry(name, v)) + "\n";
    EntryFits(name, v);
    SetTextIs(text, name, v);
    LiveOfSwallowed(text, Entry(name, v));
    MeaningIs(text, other);
    MeaningIs(SetText(text, name, v), other);
    LookupJoin(Live(rs), Live([tail]), other);
    LookupLive(tail, other);
  }

  lemma MeaningIs(text: string, name: string)
    ensures Meaning(text, name) == Lookup(Live(Reads(text)), name)
    ensures Stored(text, name) <==> Meaning(text, name).Some?
  {
    hide Reads, Live, Lookup;
    LookupIsFirstMatch(Reads(text), name);
  }

  lemma LookupLive(r: string, name: string)
    ensures Lookup(Live([r]), name) == if Matches(r, name) then Some(ValueOn(Tidy(r).value)) else None
  {
    hide Tidy, HasKey, ValueOn;
    LiveOne(r);
    if Tidy(r).Some? {
      LookupOne(Tidy(r).value, name);
    }
  }

  /** The answer for a name changes exactly if it has no line and the end of the lost value is one for it. */
  lemma SwallowedChanges(text: string, name: string, v: string, other: string)
    requires IsName(name) && OneLine(v) && Fits(name, v) && !Stored(text, name) && Swallows(text)
    ensures Meaning(SetText(text, name, v), other) != Meaning(text, other) <==>
            !Stored(text, other) && Matches(Spill(text, Entry(name, v)) + "\n", other)
    ensures Spill(text, Entry(name, v)) == "" ==> Meaning(SetText(text, name, v), other) == Meaning(text, other)
  {
    hide *;
    SetSwallowed(text, name, v, other);
    MeaningIs(text, other);
    NoBlankMatch(other);
  }

  lemma NoBlankMatch(name: string)
    ensures !Matches("" + "\n", name)
  {
    BlankLine();
  }

  // The end of a stored line never reads back as what was stored.

  /** The first separator on a line that has none in front stands behind its first word. */
  lemma ValueIsShorter(t: string, name: string)
    requires HasKey(t, name) && (t == "" || !IsSep(t[0]))
    ensures |ValueOn(t)| < |t|
  {
  }

  lemma TrimmedFront(s: string)
    requires forall c <- s :: !IsEol(c)
    ensures Trim(s) == "" || !IsSep(Trim(s)[0])
  {
    TrimIs(s);
    var c := CutSpaces(s);
    CutIsPrefix(s);
    var n := Before(c, NotSpace);
    if n < |c| {
      assert DropSpaces(c)[0] == c[n] == s[n] && s[n] in s;
    }
  }

  lemma {:induction false} CutShorter(s: string, j: nat)
    requires j <= |s|
    ensures CutSpaces(s[j..]) == if |CutSpaces(s)| <= j then "" else CutSpaces(s)[j..]
    decreases |s|
  {
    if j < |s| && IsSpace(s[|s| - 1]) {
      assert s[j..][..|s[j..]| - 1] == s[..|s| - 1][j..];
      CutShorter(s[..|s| - 1], j);
    } else if j < |s| {
      CutIsPrefix(s);
    } else {
      CutIsPrefix(s);
    }
  }

  lemma DropShorter(c: string, j: nat)
    requires j <= |c|
    ensures |DropSpaces(c[j..])| <= |DropSpaces(c)|
  {
    var n := Before(c, NotSpace);
    if j < n {
      BeforeIs(c[j..], NotSpace, n - j);
    }
  }

  /** Trimming the end of a text leaves no more than trimming the text. */
  lemma TrimShorter(s: string, j: nat)
    requires j <= |s|
    ensures |Trim(s[j..])| <= |Trim(s)|
  {
    hide CutSpaces, DropSpaces;
    TrimIs(s);
    TrimIs(s[j..]);
    CutShorter(s, j);
    CutIsPrefix(s);
    if |CutSpaces(s)| <= j {
      DropKeeps("");
    } else {
      DropShorter(CutSpaces(s), j);
    }
  }

  lemma TidyOfLine(line: string)
    requires forall c <- line :: !IsEol(c)
    ensures Tidy(line + "\n").Some? ==> Tidy(line + "\n").value == Trim(line) && line != ""
    ensures Tidy(line + "\n").Some? && !IsSpace(line[0]) ==> line[0] != '#'
  {
    var r := line + "\n";
    forall i | 0 <= i < |line|
      ensures !IsEol(r[i])
    {
      assert line[i] in line;
    }
    BeforeIs(r, IsEol, |line|);
    assert r[..|line|] == line;
    hide Trim;
    if line != "" && !IsSpace(line[0]) {
      BeforeIs(r, NotBlank, 0);
    }
  }

  lemma EntryNoEol(name: string, v: string)
    requires IsName(name) && OneLine(v)
    ensures forall c <- Entry(name, v) :: !IsEol(c)
  {
    forall c | c in Entry(name, v)
      ensures !IsEol(c)
    {
      assert c in name || c == ' ' || c in v;
    }
  }

  lemma SuffixChars(s: string, j: nat)
    requires j <= |s| && forall c <- s :: !IsEol(c)
    ensures forall c <- s[j..] :: !IsEol(c)
  {
    forall c | c in s[j..]
      ensures !IsEol(c)
    {
      assert c in s;
    }
  }

  lemma NameSuffix(name: string, j: nat)
    requires IsName(name) && j < |name| && name[j] != '#'
    ensures IsName(name[j..])
  {
    forall c | c in name[j..]
      ensures !IsSep(c) && !IsEol(c)
    {
      assert c in name;
    }
  }

  /** Cut inside its name, a stored line has another key; behind it, a shorter value. */
  lemma SuffixDiffers(name: string, v: string, j: nat)
    requires IsName(name) && OneLine(v) && 0 < j <= |Entry(name, v)|
    requires Matches(Entry(name, v)[j..] + "\n", name)
    ensures |ValueOn(Tidy(Entry(name, v)[j..] + "\n").value)| < |Trim(v)|
  {
    hide Tidy, HasKey, ValueOn, Trim, IsName;
    var e := Entry(name, v);
    EntryNoEol(name, v);
    SuffixChars(e, j);
    TidyOfLine(e[j..]);
    if j < |name| {
      CutInName(name, v, j);
    } else {
      TrimmedFront(e[j..]);
      ValueIsShorter(Trim(e[j..]), name);
      TailOfValue(name, v, j);
    }
  }

  lemma TailOfValue(name: string, v: string, j: nat)
    requires |name| <= j <= |Entry(name, v)|
    ensures |Trim(Entry(name, v)[j..])| <= |Trim(v)|
  {
    hide CutSpaces, DropSpaces;
    if j == |name| {
      assert Entry(name, v)[j..] == " " + v;
      TrimIs(v);
      TrimIs(" " + v);
      CutJoin(" ", v);
      CutBlank();
      DropOne(CutSpaces(v));
    } else {
      assert Entry(name, v)[j..] == v[j - |name| - 1..];
      TrimShorter(v, j - |name| - 1);
    }
  }

  lemma CutInName(name: string, v: string, j: nat)
    requires IsName(name) && OneLine(v) && 0 < j < |name|
    ensures !Matches(Entry(name, v)[j..] + "\n", name)
  {
    hide Tidy, HasKey, ValueOn, Trim;
    var e := Entry(name, v);
    assert e[j..] == Entry(name[j..], v);
    if name[j] == '#' {
      EntryNoEol(name, v);
      SuffixChars(e, j);
      TidyOfLine(e[j..]);
      assert name[j] == e[j..][0] && !IsSpace('#');
    } else {
      NameSuffix(name, j);
      EntryReadsBack(name[j..], v);
      OneKey(Tidy(e[j..] + "\n").value, name[j..], name);
    }
  }

  /** What is set is read back, trimmed, exactly if it did not have to be appended to a file that swallows it. */
  lemma SetThenGet(text: string, name: string, v: string)
    requires IsName(name) && OneLine(v) && Fits(name, v)
    ensures Meaning(SetText(text, name, v), name) == Some(Trim(v)) <==> Stored(text, name) || !Swallows(text)
  {
    hide *;
    if Stored(text, name) || !Swallows(text) {
      SetMeaning(text, name, v, name);
    } else {
      SetSwallowed(text, name, v, name);
      EntryFits(name, v);
      var j := SpillIsSuffix(text, Entry(name, v));
      if Matches(Spill(text, Entry(name, v)) + "\n", name) {
        SuffixDiffers(name, v, j);
      }
    }
  }

  lemma SpillIsSuffix(text: string, line: string) returns (j: nat)
    requires Swallows(text) && line != ""
    ensures 0 < j <= |line| && Spill(text, line) == line[j..]
  {
    LastRead(text);
    hide Reads, Complete;
    var l := Reads(text)[|Reads(text)| - 1];
    j := if |l| + |line| <= READ then |line| else READ - |l|;
  }

  /** A file of one short read. */
  lemma OneRead(l: string)
    requires l != "" && |l| <= READ && forall c <- l :: c != '\n'
    ensures Reads(l) == [l]
  {
    forall i | 0 <= i < |l|
      ensures l[i] != '\n'
    {
      assert l[i] in l;
    }
    BeforeIs(l, IsNewline, |l|);
    assert ReadLength(l) == |l| && l[..|l|] == l && l[|l|..] == "";
    assert [l] + Reads("") == [l];
  }

  /** All other live lines survive a removal, in order. */
  lemma RemoveKeepsLines(text: string, name: string)
    ensures var rs := Reads(text);
            var k := FirstMatch(rs, name);
            Live(Reads(RemoveText(text, name))) == if k < |rs| then Live(rs[..k]) + Live(rs[k + 1..]) else Live(rs)
  {
    hide Deleted, Live, Reads;
    var rs := Reads(text);
    var k := FirstMatch(rs, name);
    if k < |rs| {
      ReadsOfDeleted(text, k);
      LiveJoin(rs[..k], rs[k + 1..]);
    }
  }

  /** Removing leaves every other name's answer alone, and of the name itself the answer of its later lines. */
  lemma RemoveMeaning(text: string, name: string, other: string)
    ensures var rs := Reads(text);
            var k := FirstMatch(rs, name);
            Meaning(RemoveText(text, name), other)
            == if other != name then Meaning(text, other)
               else if k < |rs| then Lookup(Live(rs[k + 1..]), name) else None
  {
    hide RemoveText, Live, Lookup, HasKey, ValueOn, Tidy, Reads;
    var rs := Reads(text);
    var k := FirstMatch(rs, name);
    RemoveKeepsLines(text, name);
    if k < |rs| {
      LiveAround(rs, name, k);
      var s := Tidy(rs[k]).value;
      LookupThree(Live(rs[..k]), s, Live(rs[k + 1..]), other);
      LookupJoin(Live(rs[..k]), Live(rs[k + 1..]), other);
      if other != name {
        OneKey(s, name, other);
      }
    } else {
      NoMatchNoValue(rs, name);
    }
  }

  /** A name is gone after its removal exactly if no second line was stored for it. */
  lemma RemoveThenGet(text: string, name: string)
    ensures Meaning(RemoveText(text, name), name) == None <==>
            forall i, j :: 0 <= i < j < |Reads(text)| && Matches(Reads(text)[i], name) ==> !Matches(Reads(text)[j], name)
  {
    hide Live, Lookup, Matches, Reads, RemoveText, Tidy, ValueOn;
    var rs := Reads(text);
    var k := FirstMatch(rs, name);
    RemoveMeaning(text, name, name);
    if k < |rs| {
      var later := rs[k + 1..];
      LookupIsFirstMatch(later, name);
      var m := FirstMatch(later, name);
      if m < |later| {
        assert rs[k + 1 + m] == later[m];
      } else {
        assert forall j :: k < j < |rs| ==> rs[j] == later[j - k - 1];
      }
    }
  }
}

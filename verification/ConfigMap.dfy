/** The configuration file as a finite map with defaults. */
module ConfigMap {
  import opened Options
  import opened Sequences
  import opened TextLines
  import opened ConfigText
  import opened ConfigTable

  /** What config_get answers for a row of the table. */
  function Answer(text: string, id: nat): string
    requires id < COUNT
  {
    match Meaning(text, Name(id))
    case Some(v) => v
    case None => Pacos(id).defaultValue
  }

  datatype Op = Set(id: nat, value: string) | Remove(id: nat)

  /** One-line values that leave room for their name in a buffer. */
  predicate Storable(op: Op) {
    op.id < COUNT && (op.Set? ==> OneLine(op.value) && Fits(Name(op.id), op.value))
  }

  predicate AllStorable(ops: seq<Op>) {
    forall i :: 0 <= i < |ops| ==> Storable(ops[i])
  }

  function Edit(text: string, op: Op): string
    requires op.id < COUNT
  {
    match op
    case Set(id, v) => SetText(text, Name(id), v)
    case Remove(id) => RemoveText(text, Name(id))
  }

  function Edits(text: string, ops: seq<Op>): string
    requires AllStorable(ops)
  {
    if ops == [] then text else Edit(Edits(text, ops[..|ops| - 1]), ops[|ops| - 1])
  }

  /** The same operations on a map. */
  function MapStep(m: map<nat, string>, op: Op): map<nat, string> {
    match op
    case Set(id, v) => m[id := Trim(v)]
    case Remove(id) => m - {id}
  }

  function MapSteps(m: map<nat, string>, ops: seq<Op>): map<nat, string> {
    if ops == [] then m else MapStep(MapSteps(m, ops[..|ops| - 1]), ops[|ops| - 1])
  }

  /** How many live lines a name has. */
  function Lines(live: seq<string>, name: string): nat {
    if live == [] then 0 else (if HasKey(live[0], name) then 1 else 0) + Lines(live[1..], name)
  }

  predicate Single(text: string, id: nat)
    requires id < COUNT
  {
    Lines(Live(Reads(text)), Name(id)) <= 1
  }

  /** The file stands for the map: its end swallows nothing, and no name has two lines. */
  ghost predicate StandsFor(text: string, m: map<nat, string>) {
    && !Swallows(text)
    && forall id :: 0 <= id < COUNT ==>
         Single(text, id) && Meaning(text, Name(id)) == if id in m then Some(m[id]) else None
  }

  // Counting lines.

  lemma {:induction false} LinesJoin(a: seq<string>, b: seq<string>, name: string)
    ensures Lines(a + b, name) == Lines(a, name) + Lines(b, name)
  {
    hide HasKey;
    if a == [] {
      assert a + b == b;
    } else {
      LinesJoin(a[1..], b, name);
      assert (a + b)[1..] == a[1..] + b;
    }
  }

  lemma LinesOne(s: string, name: string)
    ensures Lines([s], name) == if HasKey(s, name) then 1 else 0
  {
    assert [s][1..] == [];
  }

  lemma {:induction false} NoLines(live: seq<string>, name: string)
    ensures Lookup(live, name) == None <==> Lines(live, name) == 0
  {
    hide HasKey, ValueOn;
    if live != [] {
      NoLines(live[1..], name);
    }
  }

  lemma LinesThree(a: seq<string>, s: string, b: seq<string>, name: string)
    ensures Lines(a + [s] + b, name) == Lines(a, name) + (if HasKey(s, name) then 1 else 0) + Lines(b, name)
  {
    hide Lines, HasKey;
    LinesJoin(a + [s], b, name);
    LinesJoin(a, [s], name);
    LinesOne(s, name);
  }

  lemma SetLines(text: string, name: string, v: string, other: string)
    requires IsName(name) && OneLine(v) && Fits(name, v) && (Stored(text, name) || !Swallows(text))
    ensures Lines(Live(Reads(SetText(text, name, v))), other)
         == if other == name && !Stored(text, name) then 1 else Lines(Live(Reads(text)), other)
  {
    hide SetText, Live, Lookup, Lines, HasKey, ValueOn, Tidy, Reads, Trim, Swallows;
    var rs := Reads(text);
    var k := FirstMatch(rs, name);
    var w := Written(name, v);
    SetKeepsLines(text, name, v);
    if other != name {
      OneKey(w, name, other);
    }
    if k < |rs| {
      var s := Tidy(rs[k]).value;
      LiveAround(rs, name, k);
      LinesThree(Live(rs[..k]), w, Live(rs[k + 1..]), other);
      LinesThree(Live(rs[..k]), s, Live(rs[k + 1..]), other);
      if other != name {
        OneKey(s, name, other);
      }
    } else {
      NoMatchNoValue(rs, name);
      NoLines(Live(rs), name);
      LinesJoin(Live(rs), [w], other);
      LinesOne(w, other);
    }
  }

  lemma RemoveLines(text: string, name: string, other: string)
    ensures Lines(Live(Reads(RemoveText(text, name))), other)
         == Lines(Live(Reads(text)), other) - if other == name && Stored(text, name) then 1 else 0
  {
    hide RemoveText, Live, Lookup, Lines, HasKey, ValueOn, Tidy, Reads;
    var rs := Reads(text);
    var k := FirstMatch(rs, name);
    RemoveKeepsLines(text, name);
    if k < |rs| {
      var s := Tidy(rs[k]).value;
      LiveAround(rs, name, k);
      LinesThree(Live(rs[..k]), s, Live(rs[k + 1..]), other);
      LinesJoin(Live(rs[..k]), Live(rs[k + 1..]), other);
      if other != name {
        OneKey(s, name, other);
      }
    }
  }

  // The end of the file.

  lemma NewlineAtEnd(text: string)
    requires text != "" && text[|text| - 1] == '\n'
    ensures !Swallows(text)
  {
    LastRead(text);
    hide Reads, Complete;
    var l := Reads(text)[|Reads(text)| - 1];
    assert l[|l| - 1] in l;
  }

  /** Only the last read decides. */
  lemma SwallowsByLast(a: string, b: string)
    requires Reads(b) == [] || Complete(Reads(b)[|Reads(b)| - 1])
          || (Reads(a) != [] && Reads(a)[|Reads(a)| - 1] == Reads(b)[|Reads(b)| - 1])
    ensures Swallows(b) ==> Swallows(a)
  {
    hide Reads;
  }

  lemma SetKeepsEnd(text: string, name: string, v: string)
    requires IsName(name) && OneLine(v) && Fits(name, v) && !Swallows(text)
    ensures !Swallows(SetText(text, name, v))
  {
    hide *;
    var rs, line := Reads(text), Entry(name, v);
    var k := FirstMatch(rs, name);
    SetTextIs(text, name, v);
    if k < |rs| {
      EntryFits(name, v);
      ReadsOfLine(line);
      ReadsOfReplaced(text, k, line);
      LastOfLine(Reads(line + "\n"), rs, k);
      SwallowsByLast(text, SetText(text, name, v));
    } else {
      AppendedIs(text, line);
      NewlineAtEnd(SetText(text, name, v));
    }
  }

  lemma LastOfLine(ls: seq<string>, rs: seq<string>, k: nat)
    requires ls != [] && AllComplete(ls) && k < |rs|
    ensures var all := rs[..k] + (ls + rs[k + 1..]);
            Complete(all[|all| - 1]) || all[|all| - 1] == rs[|rs| - 1]
  {
    hide Complete;
  }

  lemma RemoveKeepsEnd(text: string, name: string)
    requires !Swallows(text)
    ensures !Swallows(RemoveText(text, name))
  {
    hide Swallows, Reads, Complete, Joined;
    var rs := Reads(text);
    var k := FirstMatch(rs, name);
    if k < |rs| {
      ReadsBefore(text, k);
      ReadsOfDeleted(text, k);
      SwallowsByLast(text, RemoveText(text, name));
    }
  }

  // Steps and runs.

  lemma SetStands(text: string, m: map<nat, string>, id: nat, v: string)
    requires StandsFor(text, m) && id < COUNT && OneLine(v) && Fits(Name(id), v)
    ensures StandsFor(SetText(text, Name(id), v), m[id := Trim(v)])
  {
    hide SetText, Swallows, Stored, Name, Lines, Live, Meaning, Reads;
    NamesAreNames(id);
    SetKeepsEnd(text, Name(id), v);
    forall other | 0 <= other < COUNT
      ensures var text' := SetText(text, Name(id), v);
              Single(text', other)
              && Meaning(text', Name(other)) == if other in m[id := Trim(v)] then Some(m[id := Trim(v)][other]) else None
    {
      if other != id {
        NamesDiffer(id, other);
      }
      assert Single(text, other);
      SetLines(text, Name(id), v, Name(other));
      SetMeaning(text, Name(id), v, Name(other));
    }
  }

  lemma RemoveStands(text: string, m: map<nat, string>, id: nat)
    requires StandsFor(text, m) && id < COUNT
    ensures StandsFor(RemoveText(text, Name(id)), m - {id})
  {
    hide RemoveText, Swallows, Name, Lines, Live, Reads, Lookup, Stored;
    RemoveKeepsEnd(text, Name(id));
    forall other | 0 <= other < COUNT
      ensures var text' := RemoveText(text, Name(id));
              Single(text', other)
              && Meaning(text', Name(other)) == if other in m - {id} then Some((m - {id})[other]) else None
    {
      assert Single(text, other);
      RemoveLines(text, Name(id), Name(other));
      if other != id {
        NamesDiffer(id, other);
        RemoveMeaning(text, Name(id), Name(other));
      } else {
        StoredLines(text, Name(id));
        NoLines(Live(Reads(RemoveText(text, Name(id)))), Name(id));
      }
    }
  }

  lemma StoredLines(text: string, name: string)
    ensures Stored(text, name) <==> Lines(Live(Reads(text)), name) > 0
  {
    hide Reads, Live, Lookup;
    LookupIsFirstMatch(Reads(text), name);
    NoLines(Live(Reads(text)), name);
  }

  /** Over any run of sets and removals, the file answers as a finite map with defaults does. */
  lemma {:induction false} RunIsMap(text: string, m: map<nat, string>, ops: seq<Op>)
    requires StandsFor(text, m) && AllStorable(ops)
    ensures StandsFor(Edits(text, ops), MapSteps(m, ops))
    ensures forall id :: 0 <= id < COUNT ==>
              Answer(Edits(text, ops), id) == if id in MapSteps(m, ops) then MapSteps(m, ops)[id] else Pacos(id).defaultValue
  {
    hide StandsFor, SetText, RemoveText, Pacos, Name;
    if ops != [] {
      var before, op := ops[..|ops| - 1], ops[|ops| - 1];
      assert Storable(op);
      RunIsMap(text, m, before);
      if op.Set? {
        SetStands(Edits(text, before), MapSteps(m, before), op.id, op.value);
      } else {
        RemoveStands(Edits(text, before), MapSteps(m, before), op.id);
      }
    }
    AnswersMap(Edits(text, ops), MapSteps(m, ops));
  }

  lemma AnswersMap(text: string, m: map<nat, string>)
    requires StandsFor(text, m)
    ensures forall id :: 0 <= id < COUNT ==> Answer(text, id) == if id in m then m[id] else Pacos(id).defaultValue
  {
    hide Pacos, Meaning, Swallows, Single;
  }

  // A file that its last line, ended by a carriage return alone, closes against new settings.

  lemma SwallowingTidy()
    ensures Tidy("a\r") == Some("a")
  {
    BeforeIs("a\r", NotBlank, 0);
    BeforeIs("a\r", IsEol, 1);
    assert "a\r"[..1] == "a";
    CutIsPrefix("a");
    DropKeeps("a");
  }

  lemma ShortKey()
    ensures HasKey("a", "a")
  {
    hide HasKey;
    KeyInFront("a", "");
    assert "a" + "" == "a";
  }

  lemma NothingStored(name: string)
    requires name != "a"
    ensures Reads("a\r") == ["a\r"] && Swallows("a\r") && !Stored("a\r", name)
  {
    OneRead("a\r");
    SwallowingTidy();
    ShortKey();
    OneKey("a", "a", name);
    hide Reads, Tidy, HasKey;
    assert !Matches("a\r", name);
  }

  lemma KeyFits(r: string, name: string)
    ensures Matches(r, name) ==> |name| <= |r|
  {
    if Matches(r, name) {
      CutIsPrefix(r[..Before(r, IsEol)]);
    }
  }

  lemma SpillTwo(v: string)
    requires Reads("a\r") == ["a\r"] && Swallows("a\r") && Fits(Name(0), v)
    ensures |Spill("a\r", Entry(Name(0), v))| <= 2
  {
    hide Reads, Swallows, Name;
  }

  /** Whatever is set for the first row, its default is still answered. */
  lemma SwallowingFile(v: string)
    requires OneLine(v) && Fits(Name(0), v)
    ensures Swallows("a\r") && Answer(SetText("a\r", Name(0), v), 0) == "127.0.0.1"
  {
    hide SetText, Meaning, Reads, Stored, Swallows, Spill, Matches;
    NamesAreNames(0);
    NothingStored(Name(0));
    SpillTwo(v);
    KeyFits(Spill("a\r", Entry(Name(0), v)) + "\n", Name(0));
    SetSwallowed("a\r", Name(0), v, Name(0));
    MeaningIs("a\r", Name(0));
  }

  function Blanks(n: nat): (s: string)
    ensures |s| == n && forall c <- s :: c == ' '
  {
    seq(n, _ => ' ')
  }

  const NOTE := "#234567\r"

  function LongValue(): string {
    Blanks(8176) + "gas_id 2"
  }

  lemma NoteAlone(name: string)
    ensures Reads(NOTE) == [NOTE] && Swallows(NOTE) && !Stored(NOTE, name)
  {
    OneRead(NOTE);
    BeforeIs(NOTE, NotBlank, 0);
    hide Reads, HasKey;
    assert !Matches(NOTE, name);
  }

  lemma LongValueFits()
    ensures OneLine(LongValue()) && Fits(Name(0), LongValue())
  {
    forall c | c in LongValue()
      ensures !IsEol(c)
    {
      assert c in Blanks(8176) || c in "gas_id 2";
    }
  }

  lemma SpilledLine()
    requires Reads(NOTE) == [NOTE] && Swallows(NOTE)
    ensures Spill(NOTE, Entry(Name(0), LongValue())) == Entry(Name(5), "2")
  {
    hide Reads, Swallows, Blanks;
    var e := Entry(Name(0), LongValue());
    assert |Name(0)| == 6 && e == Name(0) + " " + Blanks(8176) + "gas_id 2";
    assert e[8183..] == "gas_id 2";
  }

  lemma TrimTwo()
    ensures Trim("2") == "2"
  {
    TrimChanges("2");
  }

  /** A value so long that its end becomes the line of another row. */
  lemma SpillSetsAnotherName()
    ensures OneLine(LongValue()) && Fits(Name(0), LongValue())
    ensures Answer(NOTE, 5) == "1"
    ensures var text := SetText(NOTE, Name(0), LongValue());
            Answer(text, 0) == "127.0.0.1" && Answer(text, 5) == "2"
  {
    hide SetText, Meaning, Reads, Stored, Swallows, HasKey, Tidy, ValueOn, Entry, Matches, LongValue, Spill, Trim, Fits;
    LongValueFits();
    NamesAreNames(0);
    NamesAreNames(5);
    NamesDiffer(0, 5);
    NoteAlone(Name(0));
    NoteAlone(Name(5));
    SetSwallowed(NOTE, Name(0), LongValue(), Name(0));
    SetSwallowed(NOTE, Name(0), LongValue(), Name(5));
    MeaningIs(NOTE, Name(5));
    SpilledLine();
    OnlyItsName(5, "2", 0);
    TrimTwo();
  }

  lemma OnlyItsName(id: nat, v: string, other: nat)
    requires id < COUNT && other < COUNT && id != other && OneLine(v)
    ensures Matches(Entry(Name(id), v) + "\n", Name(id)) && !Matches(Entry(Name(id), v) + "\n", Name(other))
    ensures ValueOn(Tidy(Entry(Name(id), v) + "\n").value) == Trim(v)
  {
    hide HasKey, Tidy, ValueOn, Trim, Name, Entry;
    NamesAreNames(id);
    NamesDiffer(id, other);
    EntryReadsBack(Name(id), v);
    OneKey(Tidy(Entry(Name(id), v) + "\n").value, Name(id), Name(other));
  }

  /** An empty file stands for the empty map. */
  lemma EmptyFile()
    ensures StandsFor("", map[])
  {
    hide Name;
    NothingRead();
    LiveNone();
  }

  /** With an empty file, config_get answers the defaults of the table. */
  lemma EmptyFileAnswers()
    ensures Answer("", 0) == Answer("", 6) == Answer("", 12) == "127.0.0.1"
    ensures Answer("", 1) == "8888" && Answer("", 2) == "8889" && Answer("", 7) == "3306" && Answer("", 13) == "8890"
    ensures Answer("", 3) == "8" && Answer("", 4) == "1024" && Answer("", 5) == "1" && Answer("", 11) == "20"
    ensures Answer("", 8) == "openvpn" && Answer("", 9) == Answer("", 10) == "root" && Answer("", 14) == "1234567890-=][po"
  {
    hide Answer, StandsFor;
    EmptyFile();
    AnswersMap("", map[]);
  }

  // How a file reads.

  const REMARK := "#gas_id 3\n"
  const PADDED := "\t gas_id\t7 \r\n"
  const SECOND := "gas_id 8\n"

  lemma RemarkTidy()
    ensures Tidy(REMARK) == None && Complete(REMARK)
  {
    BeforeIs(REMARK, NotBlank, 0);
  }

  /** Spaces in front of the sign leave a remark a remark; a tab makes it a line. */
  lemma TabIsNoRemark()
    ensures Tidy("  #7") == None && Tidy("\t#7") == Some("#7")
  {
    BeforeIs("  #7", NotBlank, 2);
    BeforeIs("\t#7", NotBlank, 0);
    BeforeIs("\t#7", IsEol, 3);
    BeforeIs("\t#7", NotSpace, 1);
    assert "\t#7"[..3] == "\t#7" && "\t#7"[1..] == "#7";
    assert CutSpaces("\t#7") == "\t#7";
    hide Before;
  }

  lemma Trimmed()
    ensures Trim("\t gas_id\t7 ") == "gas_id\t7"
  {
    var c := "\t gas_id\t7";
    assert |c| == 10 && c[9] == '7';
    CutJoin(c, " ");
    assert CutSpaces(c) == c;
    assert CutSpaces(" ") == "";
    assert c + " " == "\t gas_id\t7 ";
    BeforeIs(c, NotSpace, 2);
    assert c[2..] == "gas_id\t7";
    hide Before;
  }

  lemma PaddedEnd()
    ensures Before(PADDED, IsEol) == 11 && PADDED[..11] == "\t gas_id\t7 "
  {
    hide Before;
    var s := PADDED;
    assert |s| == 13 && s[11] == '\r';
    assert s[..11] == "\t gas_id\t7 ";
    forall i | 0 <= i < 11
      ensures !IsEol(s[i])
    {
      assert s[i] in s[..11];
    }
    BeforeIs(s, IsEol, 11);
  }

  lemma PaddedBeginning()
    ensures !IsNote(PADDED) && PADDED[0] == '\t'
  {
    BeforeIs(PADDED, NotBlank, 0);
    hide Before;
  }

  lemma PaddedComplete()
    ensures Complete(PADDED)
  {
    hide Before;
    var s := PADDED;
    assert |s| == 13 && s[12] == '\n';
    assert s[..12] == "\t gas_id\t7 \r";
    forall i | 0 <= i < 12
      ensures s[i] != '\n'
    {
      assert s[i] in s[..12];
    }
  }

  lemma PaddedTidy()
    ensures Tidy(PADDED) == Some("gas_id\t7")
  {
    hide Before, Trim, IsNote;
    PaddedBeginning();
    PaddedEnd();
    Trimmed();
  }

  lemma PaddedValue()
    ensures HasKey("gas_id\t7", "gas_id") && ValueOn("gas_id\t7") == "7"
  {
    hide HasKey, ValueOn;
    NamesAreNames(5);
    NamesOfRows();
    KeyInFront("gas_id", "\t7");
    assert "gas_id" + "\t7" == "gas_id\t7";
    BeforeIs("\t7", NotSpace, 1);
    assert "\t7"[1..] == "7";
  }

  /** A remark is passed over, blanks and the line end do not count, and the first line for a name is the one that counts. */
  lemma FirstLineCounts()
    ensures Answer(REMARK + (PADDED + SECOND), 5) == "7"
  {
    hide Reads, Tidy, HasKey, ValueOn, Complete, Pacos;
    RemarkTidy();
    PaddedTidy();
    PaddedComplete();
    PaddedValue();
    ReadComplete(REMARK, PADDED + SECOND);
    ReadComplete(PADDED, SECOND);
    NamesOfRows();
    var rs := Reads(REMARK + (PADDED + SECOND));
    LiveStep(rs);
    LiveStep(rs[1..]);
  }
}

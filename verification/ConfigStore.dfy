/** config_get, config_set and config_remove with the line editor of lib-file.c, proved against the file as a value. */
module ConfigStore {
  import opened Options
  import opened Sequences
  import opened TextLines
  import opened ConfigText
  import opened ConfigTable
  import opened ConfigMap
  import opened FileReader

  datatype Status = OK | ERROR

  /** GetLine: the next line that is not passed over, tidied in its buffer. */
  method GetLine(fp: Stream, buf: array<char>, ghost k: nat) returns (ok: bool, ghost next: nat)
    requires buf.Length == LINE_BUF_LEN && '\0' !in fp.text && AtRead(fp.text, fp.pos, k)
    modifies fp`pos, buf
    ensures AtRead(fp.text, fp.pos, next) && k <= next <= |Reads(fp.text)|
    ensures ok ==> k < next && Tidy(Reads(fp.text)[next - 1]).Some? && Holds(buf, Tidy(Reads(fp.text)[next - 1]).value)
    ensures forall i :: k <= i < (if ok then next - 1 else |Reads(fp.text)|) ==> Tidy(Reads(fp.text)[i]).None?
  {
    hide AtRead, Reads, Tidy;
    next := k;
    AtEnd(fp.text, fp.pos, k);
    var got := fp.Fgets(buf, next);
    while got
      invariant k <= next <= |Reads(fp.text)|
      invariant got <==> next < |Reads(fp.text)|
      invariant AtRead(fp.text, fp.pos, if got then next + 1 else next)
      invariant got ==> Holds(buf, Reads(fp.text)[next])
      invariant forall i :: k <= i < next ==> Tidy(Reads(fp.text)[i]).None?
      decreases |Reads(fp.text)| - next
    {
      ReadNotEmpty(fp.text, next);
      var kept := TidyLine(buf, Reads(fp.text)[next]);
      next := next + 1;
      if kept {
        return true, next;
      }
      got := fp.Fgets(buf, next);
    }
    ok := false;
  }

  lemma ReadNotEmpty(text: string, k: nat)
    requires k < |Reads(text)|
    ensures Reads(text)[k] != ""
  {
    EarlierComplete(text, k);
  }

  /** A line that is not passed over and has str as its field f, from 1, or -1 for the last, or as a whole for -2. */
  predicate MatchesField(r: string, str: string, f: int) {
    Tidy(r).Some? && if f == -2 then Tidy(r).value == str else FieldOf(Tidy(r).value, IsSep, f) == Some(str)
  }

  lemma FirstFieldIsKey(r: string, name: string)
    ensures MatchesField(r, name, 1) <==> Matches(r, name)
  {
  }

  /** No line before read k matches. */
  ghost predicate NoneBefore(rs: seq<string>, k: nat, str: string, f: int) {
    forall i :: 0 <= i < k && i < |rs| ==> !MatchesField(rs[i], str, f)
  }

  lemma NoneUpTo(rs: seq<string>, from: nat, to: nat, str: string, f: int)
    requires NoneBefore(rs, from, str, f)
    requires forall i :: from <= i < to && i < |rs| ==> Tidy(rs[i]).None?
    ensures NoneBefore(rs, to, str, f)
  {
    hide Tidy, FieldOf;
  }

  lemma NoneWith(rs: seq<string>, k: nat, str: string, f: int)
    requires k < |rs| && NoneBefore(rs, k, str, f) && !MatchesField(rs[k], str, f)
    ensures NoneBefore(rs, k + 1, str, f)
  {
  }

  /** The next line that GetLine returns, and whether it matches. */
  method NextField(fp: Stream, buf: array<char>, str: string, f: int, ghost k: nat)
    returns (ok: bool, found: bool, ghost next: nat)
    requires buf.Length == LINE_BUF_LEN && '\0' !in fp.text
    requires AtRead(fp.text, fp.pos, k) && NoneBefore(Reads(fp.text), k, str, f)
    modifies fp`pos, buf
    ensures AtRead(fp.text, fp.pos, next) && k <= next <= |Reads(fp.text)|
    ensures ok ==> k < next && NoneBefore(Reads(fp.text), next - 1, str, f)
                   && (found <==> MatchesField(Reads(fp.text)[next - 1], str, f))
    ensures !ok ==> !found && NoneBefore(Reads(fp.text), |Reads(fp.text)|, str, f)
  {
    hide AtRead, Reads, Tidy, FieldOf, NoneBefore;
    ok, next := GetLine(fp, buf, k);
    ghost var rs := Reads(fp.text);
    NoneUpTo(rs, k, if ok then next - 1 else |rs|, str, f);
    found := false;
    if ok {
      ghost var s := Tidy(rs[next - 1]).value;
      if f == -2 {
        var line := CString(buf, s);
        found := line == str;
      } else {
        var r := GetField(buf, None, f, s);
        FieldFits(s, IsSep, f);
        found := r == Some(str);
      }
    }
  }

  /** Reads on until a line matches. */
  method FindField(fp: Stream, buf: array<char>, str: string, f: int) returns (found: bool, ghost k: nat)
    requires buf.Length == LINE_BUF_LEN && '\0' !in fp.text && fp.pos == 0
    modifies fp`pos, buf
    ensures found ==> 0 < k <= |Reads(fp.text)| && AtRead(fp.text, fp.pos, k)
                      && MatchesField(Reads(fp.text)[k - 1], str, f) && NoneBefore(Reads(fp.text), k - 1, str, f)
    ensures !found ==> NoneBefore(Reads(fp.text), |Reads(fp.text)|, str, f)
  {
    hide AtRead, Reads, MatchesField;
    AtStart(fp.text);
    ghost var from := 0;
    var ok: bool;
    ok, found, k := NextField(fp, buf, str, f, 0);
    while ok && !found
      invariant 0 <= from <= k <= |Reads(fp.text)| && AtRead(fp.text, fp.pos, k)
      invariant ok ==> from < k && NoneBefore(Reads(fp.text), k - 1, str, f)
                       && (found <==> MatchesField(Reads(fp.text)[k - 1], str, f))
      invariant !ok ==> !found && NoneBefore(Reads(fp.text), |Reads(fp.text)|, str, f)
      decreases |Reads(fp.text)| - from, if ok then 1 else 0
    {
      from := k;
      NoneWith(Reads(fp.text), k - 1, str, f);
      ok, found, k := NextField(fp, buf, str, f, k);
    }
  }

  /** For the first field the line found is the first one for a name. */
  lemma FirstFieldFound(text: string, name: string, line: nat)
    requires line <= |Reads(text)| && NoneBefore(Reads(text), if line > 0 then line - 1 else |Reads(text)|, name, 1)
    requires line > 0 ==> MatchesField(Reads(text)[line - 1], name, 1)
    ensures line == if Stored(text, name) then FirstMatch(Reads(text), name) + 1 else 0
  {
    hide Reads, Matches, MatchesField;
    var rs := Reads(text);
    forall i | 0 <= i < |rs|
      ensures MatchesField(rs[i], name, 1) <==> Matches(rs[i], name)
    {
      FirstFieldIsKey(rs[i], name);
    }
  }

  class ConfigFile {
    var present: bool
    var text: string

    /** A text file: no NUL character in it. */
    ghost predicate Valid()
      reads this
    {
      '\0' !in text
    }

    /** What reading the file would give; nothing when it is missing. */
    ghost function Content(): string
      reads this
    {
      if present then text else ""
    }

    lemma ContentIs()
      requires present
      ensures Content() == text
    {
    }

    constructor (text: string)
      requires '\0' !in text
      ensures Valid() && present && this.text == text
    {
      present, this.text := true, text;
    }

    /** IsInFileField: the number of the first read that matches, from 1, or 0. */
    method IsInFileField(str: string, f: int) returns (line: nat)
      requires Valid()
      ensures line <= |Reads(text)| && (!present ==> line == 0)
      ensures line > 0 ==> MatchesField(Reads(text)[line - 1], str, f) && NoneBefore(Reads(text), line - 1, str, f)
      ensures line == 0 && present ==> NoneBefore(Reads(text), |Reads(text)|, str, f)
    {
      line := 0;
      if !present {
        return;
      }
      hide *;
      var fp := new Stream(text);
      var buf := new char[LINE_BUF_LEN];
      var found: bool;
      ghost var k: nat;
      found, k := FindField(fp, buf, str, f);
      if found {
        line := WhichLine(fp.pos, k);
      }
    }

    /** The first line for a name. */
    method LineOf(name: string) returns (line: nat)
      requires Valid()
      ensures line == if present && Stored(text, name) then FirstMatch(Reads(text), name) + 1 else 0
    {
      hide *;
      line := IsInFileField(name, 1);
      if present {
        FirstFieldFound(text, name, line);
      }
    }

    /** Counts the reads up to a position of the file. */
    method WhichLine(place: nat, ghost k: nat) returns (line: nat)
      requires Valid() && 0 < k <= |Reads(text)| && AtRead(text, place, k)
      ensures line == k
    {
      hide AtRead, Reads;
      var fp := new Stream(text);
      var buf := new char[LINE_BUF_LEN];
      AtStart(text);
      line := 0;
      var more := true;
      while more
        invariant line <= k && AtRead(text, fp.pos, line) && more == (line < k)
        decreases k - line
      {
        more := fp.Fgets(buf, line);
        if more {
          line := line + 1;
          more := fp.pos != place;
          if line < k {
            PositionsGrow(text, fp.pos, line, place, k);
          } else {
            SamePosition(text, fp.pos, place, k);
          }
        }
      }
    }

    /** FileToLine: reads away the lines in front of line ln, as far as there are any. */
    static method FileToLine(fp: Stream, buf: array<char>, ln: int) returns (ok: bool)
      requires buf.Length == LINE_BUF_LEN && '\0' !in fp.text
      modifies fp`pos, buf
      ensures AtRead(fp.text, fp.pos, LineAt(fp.text, ln))
      ensures ok <==> ln - 1 <= |Reads(fp.text)|
    {
      hide AtRead, Reads;
      fp.pos := 0;
      AtStart(fp.text);
      var i := 1;
      while i < ln
        invariant 1 <= i && i - 1 <= |Reads(fp.text)| && AtRead(fp.text, fp.pos, i - 1)
        invariant if ln <= 1 then i == 1 else i <= ln
      {
        var got := fp.Fgets(buf, i - 1);
        if !got {
          return false;
        }
        i := i + 1;
      }
      ok := true;
    }

    /** FileCP to a temporary file, which is read from then on. A missing file is created. */
    method FileCP() returns (tmp: Stream)
      requires Valid()
      modifies this
      ensures Valid() && present && text == old(Content())
      ensures fresh(tmp) && tmp.text == text && tmp.pos == 0
    {
      if !present {
        present, text := true, "";
      }
      tmp := new Stream(text);
    }

    /** Copies the reads behind the present position to the end of the file. */
    method CopyRest(tmp: Stream, buf: array<char>, ghost k: nat)
      requires buf.Length == LINE_BUF_LEN && '\0' !in tmp.text && AtRead(tmp.text, tmp.pos, k)
      modifies `text, tmp`pos, buf
      ensures text == old(text) + Joined(Reads(tmp.text)[k..])
    {
      hide *;
      ghost var rs, n := Reads(tmp.text), k;
      AtEnd(tmp.text, tmp.pos, k);
      assert rs[k..k] == [] && text == text + "";
      JoinedNone<char>();
      var got := tmp.Fgets(buf, n);
      while got
        invariant k <= n <= |rs| && (got <==> n < |rs|)
        invariant AtRead(tmp.text, tmp.pos, if got then n + 1 else n)
        invariant got ==> Holds(buf, rs[n])
        invariant text == old(text) + Joined(rs[k..n])
        decreases |rs| - n
      {
        var s := CString(buf, rs[n]);
        JoinedUpTo(rs, k, n);
        text := text + s;
        n := n + 1;
        got := tmp.Fgets(buf, n);
      }
      assert rs[k..n] == rs[k..];
    }

    /** ReplaceLine. The copy made of the file is read from the line on; the file is cut off there. */
    method ReplaceLine(line: string, ln: int) returns (ok: bool)
      requires Valid() && '\0' !in line
      modifies this
      ensures ok && Valid() && present
      ensures text == Replaced(old(Content()), LineAt(old(Content()), ln), line)
    {
      hide AtRead, Reads, Joined, LineAt, Behind;
      var tmp := FileCP();
      ghost var k := LineAt(text, ln);
      NoNulPieces(text, k);
      var buf := new char[LINE_BUF_LEN];
      var found := FileToLine(tmp, buf, ln);
      Cutting(tmp.text, tmp.pos, k);
      text := text[..tmp.pos];
      var skipped := tmp.Fgets(buf, k);
      text := text + line + "\n";
      ghost var next := if skipped then k + 1 else k;
      NoNulPieces(tmp.text, next);
      CopyRest(tmp, buf, next);
      BehindIs(tmp.text, k, 1, next);
      ok := true;
    }

    /** DeleteSomeLine; a negative number means up to the end. */
    method DeleteSomeLine(ln: int, num: int) returns (ok: bool)
      requires Valid()
      modifies this
      ensures ok && Valid() && present
      ensures var was, k := old(Content()), LineAt(old(Content()), ln);
              text == Joined(Reads(was)[..k]) + if num < 0 then "" else Behind(was, k, num)
    {
      hide AtRead, Reads, Joined, LineAt, Behind;
      var tmp := FileCP();
      ghost var from := LineAt(text, ln);
      NoNulPieces(text, from);
      var buf := new char[LINE_BUF_LEN];
      var found := FileToLine(tmp, buf, ln);
      Cutting(tmp.text, tmp.pos, from);
      text := text[..tmp.pos];
      assert text == text + "" && '\0' !in text;
      if num < 0 {
        return true;
      }
      ghost var k: nat, n: nat := from, |Reads(tmp.text)|;
      var left := num;
      while left != 0
        invariant 0 <= left <= num && k <= n && AtRead(tmp.text, tmp.pos, k)
        invariant k == if from + (num - left) <= n then from + (num - left) else n
        invariant present && text == Joined(Reads(tmp.text)[..from])
        decreases left
      {
        var got := tmp.Fgets(buf, k);
        k := if got then k + 1 else k;
        left := left - 1;
      }
      NoNulPieces(tmp.text, k);
      CopyRest(tmp, buf, k);
      BehindIs(tmp.text, from, num, k);
      ok := true;
    }

    method DeleteLine(ln: int) returns (ok: bool)
      requires Valid()
      modifies this
      ensures ok && Valid() && present && text == Deleted(old(Content()), LineAt(old(Content()), ln))
    {
      hide Reads, Joined, LineAt, Behind;
      ok := DeleteSomeLine(ln, 1);
    }

    /** AppendLine: only into a file that is there. */
    method AppendLine(line: string) returns (ok: bool)
      requires Valid() && '\0' !in line
      modifies `text
      ensures ok == present && Valid()
      ensures var ended := |old(text)| > 0 && old(text)[|old(text)| - 1] in ['\n', '\r', '\0'];
              text == if !present then old(text) else old(text) + (if ended then "" else "\n") + line + "\n"
      ensures present ==> text == Appended(old(text), line)
    {
      if !present {
        return false;
      }
      var atEnd := text != "" && IsEol(text[|text| - 1]);
      if !atEnd {
        text := text + "\n";
      }
      text := text + line + "\n";
      ok := true;
    }

    /** What config_get answers, file or no file. */
    function Answers(id: nat): string
      requires id < COUNT
      reads this
    {
      if present then Answer(text, id) else Pacos(id).defaultValue
    }

    method Get(id: int) returns (status: Status, result: string)
      requires Valid()
      ensures status == OK <==> 0 <= id < COUNT
      ensures status == OK ==> result == Answers(id)
    {
      hide *;
      var i: nat := 0;
      while i < COUNT
        invariant i <= COUNT && !(0 <= id < i)
      {
        IdIsPosition(i);
        if Pacos(i).id == id {
          var line := LineOf(Name(i));
          AnswerIs(i);
          if line != 0 {
            result := ReadValue(line);
          } else {
            result := Pacos(i).defaultValue;
          }
          return OK, result;
        }
        i := i + 1;
      }
      return ERROR, "";
    }

    lemma AnswerIs(id: nat)
      requires id < COUNT
      ensures var k := FirstMatch(Reads(text), Name(id));
              && (present && Stored(text, Name(id)) ==>
                   k < |Reads(text)| && Tidy(Reads(text)[k]).Some? && Answers(id) == ValueOn(Tidy(Reads(text)[k]).value))
              && (!(present && Stored(text, Name(id))) ==> Answers(id) == Pacos(id).defaultValue)
    {
      LookupIsFirstMatch(Reads(text), Name(id));
      hide Reads, Tidy, Pacos, HasKey, ValueOn, Live, Lookup;
    }

    /** The value on a line that GetLine does not pass over. */
    method ReadValue(line: nat) returns (v: string)
      requires Valid() && 0 < line <= |Reads(text)| && Tidy(Reads(text)[line - 1]).Some?
      ensures v == ValueOn(Tidy(Reads(text)[line - 1]).value)
    {
      hide AtRead, Reads, Tidy, ValueOn, Holds;
      var fp := new Stream(text);
      var p := new char[LINE_BUF_LEN];
      LineInside(text, line);
      var found := FileToLine(fp, p, line);
      ghost var next: nat;
      var ok: bool;
      ok, next := GetLine(fp, p, line - 1);
      v := Value(p, Tidy(Reads(text)[line - 1]).value);
    }

    /** The line that config_set prints has to fit its buffer. */
    method Set(id: int, v: string) returns (status: Status)
      requires Valid() && '\0' !in v
      requires 0 <= id < COUNT ==> |Entry(Name(id), v)| < LINE_BUF_LEN
      modifies this
      ensures Valid()
      ensures status == OK <==> 0 <= id < COUNT
      ensures present == old(present)
      ensures text == if present && 0 <= id < COUNT then SetText(old(text), Name(id), v) else old(text)
    {
      hide *;
      status := ERROR;
      var i: nat := 0;
      while i < COUNT
        invariant i <= COUNT && Valid() && present == old(present) && status == if 0 <= id < i then OK else ERROR
        invariant text == if present && 0 <= id < i then SetText(old(text), Name(id), v) else old(text)
      {
        IdIsPosition(i);
        if Pacos(i).id == id {
          EditOne(i, v);
          status := OK;
        }
        i := i + 1;
      }
    }

    /** One matching row: its first line is replaced, or a new line appended; whether that worked is ignored. */
    method EditOne(i: nat, v: string)
      requires Valid() && i < COUNT && '\0' !in v
      modifies this
      ensures Valid() && present == old(present)
      ensures text == if present then SetText(old(text), Name(i), v) else old(text)
    {
      hide Reads, Joined, Replaced, Appended, Name, Stored, FirstMatch;
      var buf := Name(i) + " " + v;
      NoNulName(i);
      var line := LineOf(Name(i));
      SetTextIs(text, Name(i), v);
      var ret: bool;
      if line != 0 {
        LineInside(text, line);
        ret := ReplaceLine(buf, line);
      } else {
        ret := AppendLine(buf);
      }
    }

    lemma NoNulName(i: nat)
      requires i < COUNT
      ensures '\0' !in Name(i)
    {
      NamesAreNames(i);
      hide Name;
    }

    method Remove(id: int) returns (status: Status)
      requires Valid()
      modifies this
      ensures Valid()
      ensures present == old(present)
      ensures status == OK <==> present && 0 <= id < COUNT && Stored(old(text), Name(id))
      ensures text == if status == OK then RemoveText(old(text), Name(id)) else old(text)
    {
      hide *;
      var i: nat := 0;
      while i < COUNT
        invariant i <= COUNT && Valid() && text == old(text) && present == old(present)
        invariant 0 <= id < i ==> !(present && Stored(text, Name(id)))
      {
        IdIsPosition(i);
        if Pacos(i).id == id {
          var line := LineOf(Name(i));
          if line != 0 {
            RemoveTextIs(text, Name(i));
            LineInside(text, line);
            ContentIs();
            var ret := DeleteLine(line);
            return OK;
          }
        }
        i := i + 1;
      }
      status := ERROR;
    }

    lemma RemoveTextIs(text: string, name: string)
      requires Stored(text, name)
      ensures FirstMatch(Reads(text), name) < |Reads(text)|
      ensures RemoveText(text, name) == Deleted(text, FirstMatch(Reads(text), name))
    {
      hide Reads, Deleted;
    }
  }

  /** On a file whose only line ends in a carriage return alone, setting a row succeeds and has no effect. */
  method SetIsLost(v: string) returns (status: Status, answer: string)
    requires OneLine(v) && '\0' !in v && |Entry(Name(0), v)| < LINE_BUF_LEN
    ensures status == OK && answer == "127.0.0.1"
  {
    var file := new ConfigFile("a\r");
    status := file.Set(0, v);
    SwallowingFile(v);
    hide *;
    var found;
    found, answer := file.Get(0);
  }

  lemma SamePosition(text: string, p: nat, q: nat, k: nat)
    requires AtRead(text, p, k) && AtRead(text, q, k)
    ensures p == q
  {
    hide Reads;
    assert |text[..p]| == |text[..q]|;
  }

  /** A C string as a value. */
  method CString(buf: array<char>, ghost s: string) returns (r: string)
    requires Holds(buf, s)
    ensures r == s
  {
    var i := 0;
    HeldChar(buf, s, 0);
    while buf[i] != '\0'
      invariant i <= |s|
      decreases |s| - i
    {
      HeldChar(buf, s, i);
      i := i + 1;
      HeldChar(buf, s, i);
    }
    HeldChar(buf, s, i);
    HeldSlice(buf, s, 0, i);
    r := buf[..i];
  }

  lemma JoinedUpTo(rs: seq<string>, k: nat, n: nat)
    requires k <= n < |rs|
    ensures Joined(rs[k..n + 1]) == Joined(rs[k..n]) + rs[n]
  {
    assert rs[k..][..n + 1 - k] == rs[k..n + 1] && rs[k..][..n - k] == rs[k..n];
    JoinedAppend(rs[k..], n - k);
  }

  lemma Cutting(text: string, pos: nat, k: nat)
    requires AtRead(text, pos, k)
    ensures pos <= |text| && text[..pos] == Joined(Reads(text)[..k])
  {
  }

  lemma BehindIs(text: string, k: nat, n: nat, next: nat)
    requires next == if k + n <= |Reads(text)| then k + n else |Reads(text)|
    ensures Behind(text, k, n) == Joined(Reads(text)[next..])
  {
    hide Reads;
    if next == |Reads(text)| {
      assert Reads(text)[next..] == [];
    }
  }

  /** A line of the file. */
  lemma LineInside(text: string, ln: nat)
    requires 0 < ln <= |Reads(text)|
    ensures LineAt(text, ln) == ln - 1
  {
  }

  lemma NoNulPieces(text: string, k: nat)
    requires '\0' !in text && k <= |Reads(text)|
    ensures '\0' !in Joined(Reads(text)[..k]) && '\0' !in Joined(Reads(text)[k..])
  {
    hide Reads, Joined;
    ReadsFrom(text, k);
  }
}

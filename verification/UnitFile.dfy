/** How systemd reads a unit file: its lines, continued lines and comments, sections and
  * assignments (systemd.syntax(7)), down to the commands in force in [Service].
  */
module UnitFile {
  import opened Options
  import opened Text
  import opened Trimming

  const NEWLINE := '\n'
  const BACKSLASH := '\\'
  const NUL := 0 as char

  // ---- Lines ----

  predicate IsEol(c: char) { c == '\n' || c == '\r' || c == NUL }

  /** Lines of the rest s of a text, having read cur of a line and the markers eol after
    * it: different markers in a row end one line. */
  function LinesFrom(s: string, cur: string, eol: set<char>): seq<string> {
    if s == "" then if cur == "" && eol == {} then [] else [cur]
    else if !IsEol(s[0]) then
      if eol == {} then LinesFrom(s[1..], cur + [s[0]], {}) else [cur] + LinesFrom(s[1..], [s[0]], {})
    else if s[0] in eol || NUL in eol then [cur] + LinesFrom(s[1..], "", {s[0]})
    else LinesFrom(s[1..], cur, eol + {s[0]})
  }

  function Lines(s: string): seq<string> { LinesFrom(s, "", {}) }

  // ---- Statements ----

  /** A line so far continued, whether the section is [Service], and the commands its
    * ExecStart assignments leave in force. */
  datatype Reading = Reading(pending: Option<string>, inside: bool, commands: seq<string>)

  const START := Reading(None, false, [])

  /** A statement ending in an unescaped backslash goes on in the next line. */
  predicate Continues(p: string) {
    p != "" && p[|p| - 1] == BACKSLASH && !Continues(p[..|p| - 1])
  }

  predicate Comment(l: string) { l != "" && (l[0] == '#' || l[0] == ';') }

  function Strip(s: string): string { Trim(s, UnitBlanks) }

  /** White space around a key and around a value does not count; an empty value takes
    * back the commands so far; a section header without its bracket spoils the file. */
  function ReadStatement(r: Reading, p: string): Option<Reading> {
    var l := Strip(p);
    if l == "" then Some(r)
    else if l[0] == '[' then
      if l[|l| - 1] == ']' then Some(r.(inside := l == "[Service]")) else None
    else
      var name := Split(l, '=')[0];
      if !r.inside || |name| >= |l| || Strip(name) != "ExecStart" then Some(r)
      else
        var value := Strip(l[|name| + 1..]);
        Some(r.(commands := if value == "" then [] else r.commands + [value]))
  }

  function ReadLine(r: Reading, raw: string): Option<Reading> {
    var l := TrimLeft(raw, UnitBlanks);
    if Comment(l) then Some(r)
    else
      var p := match r.pending case Some(before) => before + l case None => l;
      if Continues(p) then Some(r.(pending := Some(p[..|p| - 1] + " ")))
      else ReadStatement(r.(pending := None), p)
  }

  function ReadLines(r: Reading, ls: seq<string>): Option<Reading>
    decreases ls
  {
    if ls == [] then Some(r)
    else
      var next :- ReadLine(r, ls[0]);
      ReadLines(next, ls[1..])
  }

  /** The commands in force at the end of a text; None when systemd refuses it. */
  function Commands(text: string): Option<seq<string>> {
    var r :- ReadLines(START, Lines(text));
    var end :- if r.pending.Some? then ReadStatement(r.(pending := None), r.pending.value) else Some(r);
    Some(end.commands)
  }

  // ---- Lines of written texts ----

  /** A text that does not lengthen the newline before it. */
  predicate Fresh(b: string) { b == "" || (b[0] != '\r' && b[0] != NUL) }

  predicate NoEol(s: string) { forall i :: 0 <= i < |s| ==> !IsEol(s[i]) }

  lemma AfterNewline(b: string, cur: string)
    requires Fresh(b)
    ensures LinesFrom([NEWLINE] + b, cur, {}) == [cur] + Lines(b)
  {
    assert ([NEWLINE] + b)[1..] == b && {} + {NEWLINE} == {NEWLINE};
    if b != "" && IsEol(b[0]) {
      assert {} + {b[0]} == {b[0]};
    } else if b != "" {
      assert "" + [b[0]] == [b[0]];
    }
  }

  /** A newline after a line that does not end in a marker separates what is before it
    * from what is after. */
  lemma {:induction false} LinesApart(d: string, b: string, cur: string, eol: set<char>)
    requires d != "" && !IsEol(d[|d| - 1]) && Fresh(b)
    ensures LinesFrom(d + [NEWLINE] + b, cur, eol) == LinesFrom(d, cur, eol) + Lines(b)
  {
    var s := d + [NEWLINE] + b;
    assert s[0] == d[0] && s[1..] == d[1..] + [NEWLINE] + b;
    hide IsEol;
    if |d| == 1 {
      assert s[1..] == [NEWLINE] + b && d[1..] == "";
      AfterNewline(b, if eol == {} then cur + [d[0]] else [d[0]]);
    } else if !IsEol(d[0]) {
      LinesApart(d[1..], b, if eol == {} then cur + [d[0]] else [d[0]], {});
    } else if d[0] in eol || NUL in eol {
      LinesApart(d[1..], b, "", {d[0]});
    } else {
      LinesApart(d[1..], b, cur, eol + {d[0]});
    }
  }

  lemma {:induction false} OneLine(a: string, cur: string)
    requires NoEol(a)
    ensures LinesFrom(a, cur, {}) == if cur + a == "" then [] else [cur + a]
  {
    if a == "" {
      assert cur + a == cur;
    } else {
      OneLine(a[1..], cur + [a[0]]);
      assert cur + [a[0]] + a[1..] == cur + a;
    }
  }

  lemma LineFirst(a: string, b: string)
    requires NoEol(a) && Fresh(b)
    ensures Lines(a + [NEWLINE] + b) == [a] + Lines(b)
  {
    if a == "" {
      AfterNewline(b, "");
      assert a + [NEWLINE] + b == [NEWLINE] + b;
    } else {
      LinesApart(a, b, "", {});
      OneLine(a, "");
      assert "" + a == a;
    }
  }

  /** Lines written one after the other, each ended by a newline, read as those lines. */
  lemma {:induction false} WrittenLines(ls: seq<string>)
    requires ls != [] && forall i :: 0 <= i < |ls| ==> NoEol(ls[i])
    ensures Lines(Join(ls, NEWLINE) + [NEWLINE]) == ls && Fresh(Join(ls, NEWLINE) + [NEWLINE])
  {
    if |ls| == 1 {
      assert Join(ls, NEWLINE) + [NEWLINE] == ls[0] + [NEWLINE] + "";
      LineFirst(ls[0], "");
      assert ls == [ls[0]] + [];
    } else {
      var rest := Join(ls[1..], NEWLINE) + [NEWLINE];
      assert Join(ls, NEWLINE) + [NEWLINE] == ls[0] + [NEWLINE] + rest;
      WrittenLines(ls[1..]);
      LineFirst(ls[0], rest);
      assert ls == [ls[0]] + ls[1..];
    }
  }

  // ---- Statements of written lines ----

  lemma {:induction false} ReadAppend(r: Reading, a: seq<string>, b: seq<string>)
    ensures ReadLines(r, a + b) ==
            match ReadLines(r, a) { case None => None case Some(next) => ReadLines(next, b) }
    decreases a
  {
    hide ReadLine;
    if a == [] {
      assert a + b == b;
    } else {
      assert (a + b)[1..] == a[1..] + b;
      if ReadLine(r, a[0]).Some? {
        ReadAppend(ReadLine(r, a[0]).value, a[1..], b);
      }
    }
  }

  lemma ReadNext(r: Reading, l: string, next: Reading, ls: seq<string>)
    requires ReadLine(r, l) == Some(next)
    ensures ReadLines(r, [l] + ls) == ReadLines(next, ls)
  {
    hide ReadLine;
    assert ([l] + ls)[1..] == ls;
  }

  /** A line whose ends count. */
  predicate Firm(l: string) {
    l != "" && !In(l[0], UnitBlanks) && !In(l[|l| - 1], UnitBlanks) && l[|l| - 1] != BACKSLASH
  }

  lemma FirmStays(l: string)
    requires Firm(l)
    ensures Strip(l) == l && TrimLeft(l, UnitBlanks) == l && !Continues(l)
  {
  }

  /** After such a line no statement is open. */
  lemma FirmEnds(r: Reading, l: string)
    requires Firm(l) && !Comment(l)
    ensures ReadLine(r, l).Some? ==> ReadLine(r, l).value.pending == None
  {
    FirmStays(l);
    hide Strip, TrimLeft, In;
    if r.pending.Some? {
      var p := r.pending.value + l;
      assert p[|p| - 1] == l[|l| - 1];
    }
  }

  /** Outside [Service] a statement that is no section header changes nothing. */
  lemma OutsideRead(r: Reading, l: string)
    requires r.pending == None && !r.inside && l != "" && l[|l| - 1] != BACKSLASH
    requires !In(l[0], UnitBlanks) && l[0] != '[' && !Comment(l)
    ensures ReadLine(r, l) == Some(r)
  {
    var b := RightCut(l, UnitBlanks);
    assert TrimLeft(l, UnitBlanks) == l;
    var kept := TrimRight(l, UnitBlanks);
    assert kept == "" ==> b == l;
    assert kept != "" && kept[0] == l[0];
    hide TrimLeft, TrimRight;
  }

  lemma EmptyRead(r: Reading)
    requires r.pending == None
    ensures ReadLine(r, "") == Some(r)
  {
    assert TrimLeft("", UnitBlanks) == "" && Strip("") == "";
  }

  lemma SectionRead(r: Reading, name: string)
    requires r.pending == None && name != ""
    ensures ReadLine(r, "[" + name + "]") == Some(r.(inside := name == "Service"))
  {
    var l := "[" + name + "]";
    assert l[0] == '[' && l[|l| - 1] == ']';
    FirmStays(l);
    hide Strip, TrimLeft, In, Continues;
    assert l[1..|l| - 1] == name;
    var service := "[Service]";
    assert service[1..|service| - 1] == "Service";
  }

  lemma AssignmentRead(r: Reading, key: string, value: string)
    requires r.pending == None && Firm(key) && Firm(value) && '=' !in key && !Comment(key) && key[0] != '['
    ensures ReadLine(r, key + "=" + value) ==
            Some(if r.inside && key == "ExecStart" then r.(commands := r.commands + [value]) else r)
  {
    var l := key + "=" + value;
    assert l[0] == key[0] && l[|l| - 1] == value[|value| - 1];
    assert Firm(l);
    FirmStays(l);
    FirmStays(key);
    FirmStays(value);
    hide Strip, TrimLeft, In, Continues;
    assert l == key + ['='] + value;
    SplitLine(key, value, '=');
    assert l[|key| + 1..] == value;
  }

  /** A line that ends in one backslash goes on in the next one, which is read behind it
    * and a blank; two backslashes are not one. */
  lemma ContinuedLine(r: Reading, l: string, m: string)
    requires r.pending == None && Firm(l) && !Comment(l) && Firm(m) && !Comment(m)
    ensures ReadLine(r, l + [BACKSLASH]) == Some(r.(pending := Some(l + " ")))
    ensures ReadLine(r.(pending := Some(l + " ")), m) == ReadStatement(r, l + " " + m)
    ensures ReadLine(r, l + [BACKSLASH, BACKSLASH]) == ReadStatement(r, l + [BACKSLASH, BACKSLASH])
  {
    var one, two := l + [BACKSLASH], l + [BACKSLASH, BACKSLASH];
    assert one[..|l|] == l && two[..|l| + 1] == one;
    assert StartsOutside(m, UnitBlanks) && StartsOutside(one, UnitBlanks) && StartsOutside(two, UnitBlanks);
    assert r.(pending := None) == r;
    assert !Continues(l) && Continues(one) && !Continues(two);
    assert (l + " " + m)[|l + " " + m| - 1] != BACKSLASH;
  }

  /** A comment line changes nothing, not even between a line and its continuation. */
  lemma CommentsDoNotCount(r: Reading, a: string, c: char, l: string)
    requires All(a, UnitBlanks) && (c == '#' || c == ';')
    ensures ReadLine(r, a + ([c] + l)) == Some(r)
  {
    TrimLeftIs(a, [c] + l, UnitBlanks);
  }

  /** White space before a key and around the `=` makes no difference. */
  lemma BlanksDoNotCount(r: Reading, a: string, key: string, b: string, c: string, value: string)
    requires r.pending == None && Firm(key) && Firm(value) && '=' !in key && !Comment(key) && key[0] != '['
    requires All(a, UnitBlanks) && All(b, UnitBlanks) && All(c, UnitBlanks)
    ensures ReadLine(r, a + (key + b + "=" + (c + value))) == ReadLine(r, key + "=" + value)
  {
    AssignmentRead(r, key, value);
    var name, rest := key + b, c + value;
    var l := name + "=" + rest;
    assert l[0] == key[0] && l[|l| - 1] == value[|value| - 1];
    assert Firm(l) && '=' !in name;
    TrimLeftIs(a, l, UnitBlanks);
    FirmStays(l);
    assert Strip(name) == key by {
      TrimLeftIs("", name, UnitBlanks);
      assert "" + name == name;
      TrimRightDrops(key, b, UnitBlanks);
      RightIs(key, UnitBlanks);
    }
    assert Strip(rest) == value by {
      TrimLeftIs(c, value, UnitBlanks);
      RightIs(value, UnitBlanks);
    }
    hide Strip, TrimLeft, In, Continues;
    assert l == name + ['='] + rest;
    SplitLine(name, rest, '=');
    assert l[|name| + 1..] == rest;
  }
}

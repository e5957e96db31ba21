/** Splitting a text at a separator and joining pieces, as Go's strings package
  * does for a one-character separator.
  */
module Text {
  function Split(s: string, sep: char): (ls: seq<string>)
    ensures |ls| >= 1 && forall l :: l in ls ==> sep !in l
  {
    if s == [] then [""]
    else
      var rest := Split(s[1..], sep);
      if s[0] == sep then [""] + rest else [[s[0]] + rest[0]] + rest[1..]
  }

  /** strings.Contains. */
  predicate Contains(s: string, t: string) {
    exists k :: 0 <= k <= |s| && t <= s[k..]
  }

  function Join(ls: seq<string>, sep: char): string {
    if ls == [] then "" else if |ls| == 1 then ls[0] else ls[0] + [sep] + Join(ls[1..], sep)
  }

  lemma {:induction false} SplitLine(l: string, rest: string, sep: char)
    requires sep !in l
    ensures Split(l + [sep] + rest, sep) == [l] + Split(rest, sep)
  {
    var s := l + [sep] + rest;
    if l == [] {
      assert s[1..] == rest;
    } else {
      assert s[1..] == l[1..] + [sep] + rest && s[0] == l[0];
      SplitLine(l[1..], rest, sep);
      assert [l[0]] + l[1..] == l;
    }
  }

  lemma {:induction false} SplitJoined(ls: seq<string>, sep: char)
    requires ls != [] && forall l :: l in ls ==> sep !in l
    ensures Split(Join(ls, sep) + [sep], sep) == ls + [""]
  {
    if |ls| == 1 {
      assert Join(ls, sep) + [sep] == ls[0] + [sep] + "" && ls == [ls[0]];
      SplitLine(ls[0], "", sep);
    } else {
      var rest := Join(ls[1..], sep) + [sep];
      assert Join(ls, sep) + [sep] == ls[0] + [sep] + rest;
      SplitLine(ls[0], rest, sep);
      SplitJoined(ls[1..], sep);
      assert ls == [ls[0]] + ls[1..];
    }
  }

  lemma {:induction false} JoinSplit(s: string, sep: char)
    ensures Join(Split(s, sep), sep) == s
  {
    if s != [] {
      JoinSplit(s[1..], sep);
      var rest := Split(s[1..], sep);
      if s[0] == sep {
        assert ([""] + rest)[1..] == rest && "" + [sep] == [sep];
      } else {
        var ls := [[s[0]] + rest[0]] + rest[1..];
        assert ls[1..] == rest[1..];
        assert |rest| > 1 ==> Join(ls, sep) == [s[0]] + (rest[0] + [sep] + Join(rest[1..], sep));
      }
    }
  }

  /** Putting one character before a text that splits into `ls`. */
  function Grown(ls: seq<string>, c: char, sep: char): seq<string>
    requires ls != []
  {
    if c == sep then [""] + ls else [[c] + ls[0]] + ls[1..]
  }

  /** The last piece of `a` runs on into the first of `b`. */
  function RunOn(a: seq<string>, b: seq<string>): seq<string>
    requires a != [] && b != []
  {
    a[..|a| - 1] + [a[|a| - 1] + b[0]] + b[1..]
  }

  lemma UnfoldSplit(s: string, sep: char)
    requires s != []
    ensures Split(s, sep) == Grown(Split(s[1..], sep), s[0], sep)
  {
  }

  lemma GrowFirst(a: seq<string>, b: seq<string>, c: char, sep: char)
    requires a != [] && b != []
    ensures Grown(RunOn(a, b), c, sep) == RunOn(Grown(a, c, sep), b)
  {
    if c == sep {
      assert ([""] + a)[..|a|] == [""] + a[..|a| - 1];
    } else if |a| == 1 {
      assert [c] + (a[0] + b[0]) == ([c] + a[0]) + b[0];
    } else {
      var g := [[c] + a[0]] + a[1..];
      assert g[..|a| - 1] == [[c] + a[0]] + a[1..|a| - 1];
      assert RunOn(a, b)[1..] == a[1..|a| - 1] + [a[|a| - 1] + b[0]] + b[1..];
    }
  }

  lemma {:induction false} SplitAppend(s: string, t: string, sep: char)
    ensures Split(s + t, sep) == RunOn(Split(s, sep), Split(t, sep))
  {
    var first := Split(t, sep);
    if s == [] {
      assert s + t == t && "" + first[0] == first[0] && first == [first[0]] + first[1..];
    } else {
      var u := s[1..];
      assert (s + t)[1..] == u + t && (s + t)[0] == s[0];
      SplitAppend(u, t, sep);
      GrowFirst(Split(u, sep), first, s[0], sep);
      hide Split;
      UnfoldSplit(s, sep);
      UnfoldSplit(s + t, sep);
      assert Split(s + t, sep) == Grown(Split(u + t, sep), s[0], sep);
    }
  }

  lemma {:induction false} JoinSnoc(ls: seq<string>, sep: char)
    requires ls != []
    ensures Join(ls + [""], sep) == Join(ls, sep) + [sep]
  {
    if |ls| > 1 {
      JoinSnoc(ls[1..], sep);
      assert (ls + [""])[1..] == ls[1..] + [""];
    }
  }

  lemma SplitMany(s: string, rest: string, sep: char)
    ensures Split(s + [sep] + rest, sep) == Split(s, sep) + Split(rest, sep)
  {
    assert "" + [sep] + rest == [sep] + rest;
    assert Split("", sep) == [""];
    SplitLine("", rest, sep);
    SplitAppend(s, [sep] + rest, sep);
    hide Split;
    assert s + [sep] + rest == s + ([sep] + rest);
    var a, b := Split(s, sep), Split(rest, sep);
    assert a[|a| - 1] + "" == a[|a| - 1] && ([""] + b)[1..] == b;
    assert a[..|a| - 1] + [a[|a| - 1]] == a;
  }

  lemma {:induction false} SplitJoin(ls: seq<string>, sep: char)
    requires ls != [] && forall l :: l in ls ==> sep !in l
    ensures Split(Join(ls, sep), sep) == ls
  {
    if |ls| == 1 {
      OnePiece(ls[0], sep);
    } else {
      SplitLine(ls[0], Join(ls[1..], sep), sep);
      SplitJoin(ls[1..], sep);
      assert ls == [ls[0]] + ls[1..];
    }
  }

  lemma {:induction false} OnePiece(s: string, sep: char)
    requires sep !in s
    ensures Split(s, sep) == [s]
  {
    if s != [] {
      OnePiece(s[1..], sep);
      assert [s[0]] + s[1..] == s;
    }
  }

  // ---- White space ----

  /** unicode.IsSpace. */
  predicate IsSpace(c: char) {
    '\t' <= c <= '\r' || c == ' ' || c == '\U{0085}' || c == '\U{00A0}' || c == '\U{1680}'
    || '\U{2000}' <= c <= '\U{200A}' || c == '\U{2028}' || c == '\U{2029}' || c == '\U{202F}'
    || c == '\U{205F}' || c == '\U{3000}'
  }

  /** The 25 characters with Unicode's White_Space property. */
  lemma SpaceCharacters(c: char)
    ensures IsSpace(c) <==>
            || c in "\t\n\U{000B}\U{000C}\r \U{0085}\U{00A0}\U{1680}"
            || c in "\U{2000}\U{2001}\U{2002}\U{2003}\U{2004}\U{2005}\U{2006}\U{2007}\U{2008}\U{2009}\U{200A}"
            || c in "\U{2028}\U{2029}\U{202F}\U{205F}\U{3000}"
  {
    var n := c as int;
    assert c == n as char;
  }

  /** strings.Fields, having read w of a word already. */
  function FieldsFrom(s: string, w: string): seq<string> {
    if s == [] then Ended(w)
    else if IsSpace(s[0]) then Ended(w) + FieldsFrom(s[1..], "")
    else FieldsFrom(s[1..], w + [s[0]])
  }

  function Ended(w: string): seq<string> { if w == "" then [] else [w] }

  function Fields(s: string): seq<string> { FieldsFrom(s, "") }

  function Spaces(n: nat): string { seq(n, _ => ' ') }

  lemma {:induction false} FieldsSkip(n: nat, s: string)
    ensures FieldsFrom(Spaces(n) + s, "") == FieldsFrom(s, "")
  {
    if n == 0 {
      assert Spaces(n) + s == s;
    } else {
      assert (Spaces(n) + s)[1..] == Spaces(n - 1) + s && (Spaces(n) + s)[0] == ' ';
      FieldsSkip(n - 1, s);
      assert Ended("") + FieldsFrom(s, "") == FieldsFrom(s, "");
    }
  }

  lemma {:induction false} FieldsWord(w: string, s: string, before: string)
    requires forall i :: 0 <= i < |w| ==> !IsSpace(w[i])
    ensures FieldsFrom(w + s, before) == FieldsFrom(s, before + w)
  {
    hide IsSpace;
    if w == "" {
      assert w + s == s && before + w == before;
    } else {
      assert (w + s)[1..] == w[1..] + s && before + w == before + [w[0]] + w[1..];
      FieldsWord(w[1..], s, before + [w[0]]);
    }
  }

  /** A word, blanks, and what follows. */
  lemma FieldsNext(w: string, n: nat, s: string)
    requires w != "" && forall i :: 0 <= i < |w| ==> !IsSpace(w[i])
    ensures Fields(w + (Spaces(n + 1) + s)) == [w] + Fields(s)
  {
    FieldsWord(w, Spaces(n + 1) + s, "");
    assert "" + w == w;
    assert (Spaces(n + 1) + s)[1..] == Spaces(n) + s && (Spaces(n + 1) + s)[0] == ' ';
    FieldsSkip(n, s);
  }
}

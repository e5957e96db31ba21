/** Quoting words for a remote POSIX shell, against the shell's own rules for
  * splitting a command into words.
  */
module ShellQuote {
  import opened Options

  const QUOTE := '\''
  const BACKSLASH := '\\'
  const NUL := 0 as char

  /** strings.ReplaceAll(s, "'", "'\''"). */
  function Escape(s: string): string {
    if s == [] then []
    else (if s[0] == QUOTE then [QUOTE, BACKSLASH, QUOTE, QUOTE] else [s[0]]) + Escape(s[1..])
  }

  function Quote(s: string): string {
    [QUOTE] + Escape(s) + [QUOTE]
  }

  // ---- Token recognition, POSIX.1-2017 Shell Command Language, sections 2.2 and 2.3 ----

  /** `Home` is a word beginning with an unquoted `~/`, without its `~`. */
  datatype Token = Word(text: string) | Home(text: string) | Operator(text: string)

  /** `Plain` and `Single` carry the word read so far, quotes removed. */
  datatype Mode = Between | Plain(w: string, home: bool) | Single(w: string, home: bool)

  /** Unquoted, these start an expansion, a pattern, a comment, double quotes or an
    * operator that is not modelled. */
  predicate Special(c: char) {
    c in ['\n', '|', '&', ';', '<', '>', '(', ')', '$', '`', '"', '*', '?', '[', '#', '~', '=', '%']
  }

  predicate Blank(c: char) { c == ' ' || c == '\t' }

  /** Characters that unquoted stand for themselves. */
  predicate Ordinary(c: char) {
    c != NUL && c != QUOTE && c != BACKSLASH && !Blank(c) && !Special(c)
  }

  function Sofar(m: Mode): string { if m.Between? then "" else m.w }

  /** The word that ends here, if one was being read. */
  function Finished(m: Mode): seq<Token> {
    if m.Between? then [] else if m.home then [Home(m.w)] else [Word(m.w)]
  }

  predicate InHome(m: Mode) { !m.Between? && m.home }

  function Before(ts: seq<Token>, rest: Option<seq<Token>>): Option<seq<Token>> {
    match rest case None => None case Some(us) => Some(ts + us)
  }

  /** The tokens of a command made of words, `;`, `&&`, `||`, `>` and `>>`; None for any
    * other input, and for input no shell can be given (a NUL). */
  function Tokens(s: string, m: Mode): Option<seq<Token>>
    decreases |s|
  {
    if s == [] then
      if m.Single? then None else Some(Finished(m))
    else if s[0] == NUL then None
    else if m.Single? then
      // 2.2.2: everything up to the next single quote is literal.
      if s[0] == QUOTE then Tokens(s[1..], Plain(m.w, m.home)) else Tokens(s[1..], Single(m.w + [s[0]], m.home))
    else if s[0] == QUOTE then Tokens(s[1..], Single(Sofar(m), InHome(m)))
    else if s[0] == BACKSLASH then
      // 2.2.1: the next character is literal; before a newline both disappear.
      if |s| == 1 || s[1] == NUL then None
      else if s[1] == '\n' then Tokens(s[2..], m)
      else Tokens(s[2..], Plain(Sofar(m) + [s[1]], InHome(m)))
    else if Blank(s[0]) then
      // 2.3: blanks delimit words.
      Before(Finished(m), Tokens(s[1..], Between))
    else if s[0] == '~' && m.Between? && |s| >= 2 && s[1] == '/' then Tokens(s[1..], Plain("", true))
    else if OperatorAt(s, m) != "" then
      var op := OperatorAt(s, m);
      Before(Finished(m) + [Operator(op)], Tokens(s[|op|..], Between))
    else if Special(s[0]) then None
    else Tokens(s[1..], Plain(Sofar(m) + [s[0]], InHome(m)))
  }

  /** The operator that s begins with, if it is one of those modelled; a redirection is
    * one only away from a word, which might name a descriptor. */
  function OperatorAt(s: string, m: Mode): (op: string)
    ensures |op| <= |s|
  {
    if |s| < 2 then ""
    else if s[0] == '&' && s[1] == '&' then "&&"
    else if s[0] == '|' && s[1] == '|' then "||"
    else if s[0] == ';' && s[1] != ';' then ";"
    else if s[0] == '>' && s[1] == '>' && m.Between? then ">>"
    else if s[0] == '>' && s[1] !in ['>', '&', '|'] && m.Between? then ">"
    else ""
  }

  lemma {:induction false} InsideQuotes(s: string, w: string, home: bool, rest: string)
    ensures Tokens(Escape(s) + [QUOTE] + rest, Single(w, home)) ==
            if NUL in s then None else Tokens(rest, Plain(w + s, home))
  {
    var t := Escape(s) + [QUOTE] + rest;
    hide OperatorAt, Special;
    if s == [] {
      assert t == [QUOTE] + rest && t[1..] == rest && w + s == w;
    } else {
      var u := Escape(s[1..]) + [QUOTE] + rest;
      assert w + s == w + [s[0]] + s[1..];
      if s[0] == QUOTE {
        EscapedQuote(w, home, u);
        assert t == [QUOTE, BACKSLASH, QUOTE, QUOTE] + u;
      } else {
        assert t == [s[0]] + u && t[1..] == u;
      }
      InsideQuotes(s[1..], w + [s[0]], home, rest);
    }
  }

  lemma EscapedQuote(w: string, home: bool, u: string)
    ensures Tokens([QUOTE, BACKSLASH, QUOTE, QUOTE] + u, Single(w, home)) == Tokens(u, Single(w + [QUOTE], home))
  {
    hide OperatorAt, Special;
    var t := [QUOTE, BACKSLASH, QUOTE, QUOTE] + u;
    assert t[1..] == [BACKSLASH, QUOTE, QUOTE] + u;
    assert t[1..][2..] == [QUOTE] + u;
    assert t[1..][2..][1..] == u;
    assert Tokens(t, Single(w, home)) == Tokens(t[1..], Plain(w, home));
    assert Tokens(t[1..], Plain(w, home)) == Tokens(t[1..][2..], Plain(w + [QUOTE], home));
  }

  /** Wherever a quoted string stands, outside other quotes, the shell reads it as
    * that string, continuing the word before it and continued by what follows. */
  lemma QuoteReadsBack(s: string, m: Mode, rest: string)
    requires !m.Single?
    ensures Tokens(Quote(s) + rest, m) == if NUL in s then None else Tokens(rest, Plain(Sofar(m) + s, InHome(m)))
  {
    assert (Quote(s) + rest)[1..] == Escape(s) + [QUOTE] + rest;
    InsideQuotes(s, Sofar(m), InHome(m), rest);
  }

  /** The quoted forms joined by single spaces. */
  function JoinQuoted(ws: seq<string>): string {
    if ws == [] then ""
    else if |ws| == 1 then Quote(ws[0])
    else Quote(ws[0]) + [' '] + JoinQuoted(ws[1..])
  }

  ghost predicate NulFree(ws: seq<string>) {
    forall i :: 0 <= i < |ws| ==> NUL !in ws[i]
  }

  function AsWords(ws: seq<string>): seq<Token> {
    if ws == [] then [] else [Word(ws[0])] + AsWords(ws[1..])
  }

  lemma BlankEnds(m: Mode, rest: string)
    requires !m.Single?
    ensures Tokens([' '] + rest, m) == Before(Finished(m), Tokens(rest, Between))
  {
    assert ([' '] + rest)[1..] == rest;
  }

  /** Splitting the quoted forms of any strings gives back exactly those strings,
    * unless one holds a NUL, which no quoting can carry. */
  lemma {:induction false} QuoteRoundTrip(ws: seq<string>)
    ensures Tokens(JoinQuoted(ws), Between) == if NulFree(ws) then Some(AsWords(ws)) else None
  {
    if |ws| == 1 {
      QuoteReadsBack(ws[0], Between, "");
      assert Quote(ws[0]) + "" == Quote(ws[0]) && "" + ws[0] == ws[0];
      assert AsWords(ws) == [Word(ws[0])];
    } else if |ws| > 1 {
      var rest := JoinQuoted(ws[1..]);
      assert JoinQuoted(ws) == Quote(ws[0]) + ([' '] + rest);
      QuoteRoundTrip(ws[1..]);
      assert "" + ws[0] == ws[0];
      assert NulFree(ws) <==> NUL !in ws[0] && NulFree(ws[1..]);
      hide Quote, Tokens, JoinQuoted, NulFree;
      QuoteReadsBack(ws[0], Between, [' '] + rest);
      BlankEnds(Plain(ws[0], false), rest);
    }
  }

  // ---- Commands made of words and operators ----

  /** A piece of a command as the program writes it; `Ending` is a word with the `;` after
    * it, and `InHomeDir` a path below the home directory. */
  datatype Piece = Bare(w: string) | Quoted(s: string) | InHomeDir(w: string) | Op(op: string) | Ending(w: string)

  function Show(p: Piece): string {
    match p
    case Bare(w) => w
    case Quoted(s) => Quote(s)
    case InHomeDir(w) => "~" + w
    case Op(op) => op
    case Ending(w) => w + ";"
  }

  function Meaning(p: Piece): seq<Token> {
    match p
    case Bare(w) => [Word(w)]
    case Quoted(s) => [Word(s)]
    case InHomeDir(w) => [Home(w)]
    case Op(op) => [Operator(op)]
    case Ending(w) => [Word(w), Operator(";")]
  }

  predicate OrdinaryWord(w: string) { w != "" && forall i :: 0 <= i < |w| ==> Ordinary(w[i]) }

  predicate PieceOk(p: Piece) {
    match p
    case Bare(w) => OrdinaryWord(w)
    case Quoted(_) => true
    case InHomeDir(w) => OrdinaryWord(w) && w[0] == '/'
    case Op(op) => op in ["&&", "||", ">", ">>"]
    case Ending(w) => OrdinaryWord(w)
  }

  predicate Sendable(p: Piece) { p.Quoted? ==> NUL !in p.s }

  function Render(ps: seq<Piece>): string {
    if ps == [] then "" else if |ps| == 1 then Show(ps[0]) else Show(ps[0]) + ([' '] + Render(ps[1..]))
  }

  function Meanings(ps: seq<Piece>): seq<Token> {
    if ps == [] then [] else Meaning(ps[0]) + Meanings(ps[1..])
  }

  ghost predicate AllSendable(ps: seq<Piece>) { forall i :: 0 <= i < |ps| ==> Sendable(ps[i]) }

  lemma {:induction false} OrdinaryRun(w: string, m: Mode, rest: string)
    requires !m.Single? && OrdinaryWord(w)
    ensures Tokens(w + rest, m) == Tokens(rest, Plain(Sofar(m) + w, InHome(m)))
  {
    assert (w + rest)[0] == w[0] && (w + rest)[1..] == w[1..] + rest;
    assert Sofar(m) + w == Sofar(m) + [w[0]] + w[1..];
    OrdinaryStarts(w + rest, m);
    if |w| > 1 {
      OrdinaryRun(w[1..], Plain(Sofar(m) + [w[0]], InHome(m)), rest);
    } else {
      assert w[1..] + rest == rest && Sofar(m) + [w[0]] == Sofar(m) + w;
    }
  }

  lemma OrdinaryStarts(s: string, m: Mode)
    requires s != "" && Ordinary(s[0])
    ensures OperatorAt(s, m) == "" && s[0] != '~'
  {
  }

  lemma BeforeBefore(a: seq<Token>, b: seq<Token>, rest: Option<seq<Token>>)
    ensures Before(a, Before(b, rest)) == Before(a + b, rest)
    ensures Before([], rest) == rest && Before(a, None) == None && Before(a, Some(b)) == Some(a + b)
  {
    if rest.Some? {
      assert a + (b + rest.value) == a + b + rest.value && [] + rest.value == rest.value;
    }
  }

  /** An operator with a blank after it, at the end of what was being read. */
  lemma OperatorReads(op: string, m: Mode, rest: string)
    requires !m.Single? && op in ["&&", "||", ";", ">", ">>"] && (m.Between? || op in ["&&", "||", ";"])
    ensures Tokens(op + ([' '] + rest), m) == Before(Finished(m) + [Operator(op)], Tokens(rest, Between))
  {
    var s := op + ([' '] + rest);
    assert s[|op|..] == [' '] + rest && |s| >= 2 && s[0] == op[0] && s[1] == if |op| == 2 then op[1] else ' ';
    assert OperatorAt(s, m) == op;
    hide OperatorAt;
    BlankEnds(Between, rest);
    BeforeBefore([], [], Tokens(rest, Between));
  }

  lemma HomeStarts(w: string, rest: string)
    requires OrdinaryWord(w) && w[0] == '/'
    ensures Tokens("~" + w + rest, Between) == Tokens(rest, Plain(w, true))
  {
    var s := "~" + w + rest;
    assert s[1..] == w + rest && s[1] == '/' && s[0] == '~';
    assert Tokens(s, Between) == Tokens(w + rest, Plain("", true)) by {
      hide OperatorAt, Special, Ordinary;
    }
    hide Tokens;
    OrdinaryRun(w, Plain("", true), rest);
    assert "" + w == w;
  }

  /** The mode in which a word-like piece leaves the shell. */
  function After(p: Piece): Mode {
    match p
    case Bare(w) => Plain(w, false)
    case Quoted(s) => Plain(s, false)
    case InHomeDir(w) => Plain(w, true)
    case Op(_) => Between
    case Ending(w) => Plain(w, false)
  }

  lemma WordReads(p: Piece, rest: string)
    requires PieceOk(p) && !p.Op? && !p.Ending?
    ensures Tokens(Show(p) + rest, Between) == if Sendable(p) then Tokens(rest, After(p)) else None
  {
    hide Tokens, OrdinaryWord, Quote;
    match p
    case Bare(w) =>
      OrdinaryRun(w, Between, rest);
      assert "" + w == w;
    case Quoted(s) =>
      QuoteReadsBack(s, Between, rest);
      assert "" + s == s;
    case InHomeDir(w) => HomeStarts(w, rest);
  }

  lemma PieceReads(p: Piece, rest: string)
    requires PieceOk(p)
    ensures Tokens(Show(p) + ([' '] + rest), Between) ==
            if Sendable(p) then Before(Meaning(p), Tokens(rest, Between)) else None
  {
    hide Tokens, OrdinaryWord, Quote;
    if p.Op? {
      OperatorReads(p.op, Between, rest);
      assert [] + [Operator(p.op)] == [Operator(p.op)];
    } else if p.Ending? {
      OrdinaryRun(p.w, Between, ";" + ([' '] + rest));
      assert p.w + (";" + ([' '] + rest)) == Show(p) + ([' '] + rest) && "" + p.w == p.w;
      OperatorReads(";", Plain(p.w, false), rest);
      assert [Word(p.w)] + [Operator(";")] == Meaning(p);
    } else {
      WordReads(p, [' '] + rest);
      BlankEnds(After(p), rest);
    }
  }

  /** A command written from such pieces reads as exactly those words and operators,
    * whatever the quoted strings hold, short of a NUL. */
  lemma {:induction false} RenderReads(ps: seq<Piece>)
    requires ps != [] && (forall i :: 0 <= i < |ps| ==> PieceOk(ps[i]))
    requires !ps[|ps| - 1].Op? && !ps[|ps| - 1].Ending?
    ensures Tokens(Render(ps), Between) == if AllSendable(ps) then Some(Meanings(ps)) else None
  {
    hide Tokens, PieceOk, Show, Meaning, After, Sendable;
    if |ps| == 1 {
      WordReads(ps[0], "");
      assert Show(ps[0]) + "" == Show(ps[0]);
      EndReads(ps[0]);
      assert Meanings(ps) == Meaning(ps[0]) + Meanings(ps[1..]) == Meaning(ps[0]);
      assert AllSendable(ps) <==> Sendable(ps[0]);
    } else {
      PieceReads(ps[0], Render(ps[1..]));
      RenderReads(ps[1..]);
      assert AllSendable(ps) <==> Sendable(ps[0]) && AllSendable(ps[1..]);
    }
  }

  lemma EndReads(p: Piece)
    requires !p.Op? && !p.Ending?
    ensures Tokens("", After(p)) == Some(Meaning(p))
  {
  }

  lemma RenderUnfold(ps: seq<Piece>)
    requires |ps| >= 2
    ensures Render(ps) == Show(ps[0]) + ([' '] + Render(ps[1..]))
    ensures Meanings(ps) == Meaning(ps[0]) + Meanings(ps[1..])
  {
  }

  lemma RenderLast(p: Piece)
    ensures Render([p]) == Show(p) && Meanings([p]) == Meaning(p)
  {
    hide Show, Meaning;
    assert [p][1..] == [];
    assert Meaning(p) + [] == Meaning(p);
  }

  lemma Shifted(x: string, y: string, z: string)
    ensures x + ([' '] + (y + ([' '] + z))) == x + ([' '] + y) + ([' '] + z)
  {
  }

  lemma {:induction false} RenderAppend(a: seq<Piece>, b: seq<Piece>)
    requires a != [] && b != []
    ensures Render(a + b) == Render(a) + ([' '] + Render(b))
    ensures Meanings(a + b) == Meanings(a) + Meanings(b)
  {
    hide Show, Meaning, Render, Meanings;
    RenderUnfold(a + b);
    if |a| == 1 {
      assert (a + b)[1..] == b && a == [a[0]];
      RenderLast(a[0]);
    } else {
      assert (a + b)[1..] == a[1..] + b;
      RenderAppend(a[1..], b);
      RenderUnfold(a);
      Shifted(Show(a[0]), Render(a[1..]), Render(b));
      assert Meaning(a[0]) + (Meanings(a[1..]) + Meanings(b)) == Meaning(a[0]) + Meanings(a[1..]) + Meanings(b);
    }
  }

  lemma RenderPair(p: Piece, q: Piece)
    ensures Render([p, q]) == Show(p) + " " + Show(q) && Meanings([p, q]) == Meaning(p) + Meaning(q)
  {
    hide Show, Meaning, Render, Meanings;
    RenderUnfold([p, q]);
    assert [p, q][1..] == [q];
    RenderLast(q);
    assert Show(p) + ([' '] + Show(q)) == Show(p) + " " + Show(q);
  }

  lemma RenderThree(p: Piece, q: Piece, r: Piece)
    ensures Render([p, q, r]) == Show(p) + " " + Show(q) + " " + Show(r)
    ensures Meanings([p, q, r]) == Meaning(p) + Meaning(q) + Meaning(r)
  {
    hide Show, Meaning, Render, Meanings;
    RenderUnfold([p, q, r]);
    assert [p, q, r][1..] == [q, r];
    RenderPair(q, r);
    assert Show(p) + ([' '] + (Show(q) + " " + Show(r))) == Show(p) + " " + Show(q) + " " + Show(r);
    assert Meaning(p) + (Meaning(q) + Meaning(r)) == Meaning(p) + Meaning(q) + Meaning(r);
  }

  lemma LettersOrdinary(c: char)
    requires '-' <= c <= '9' || 'A' <= c <= 'Z' || c == '_' || 'a' <= c <= 'z'
    ensures Ordinary(c)
  {
  }

  // ---- The command that writes a remote file ----

  /** path[:strings.LastIndex(path, "/")]. */
  function Dir(path: string): (d: string)
    requires '/' in path
    ensures |d| < |path| && d + ['/'] <= path && '/' !in path[|d| + 1..]
  {
    if path[|path| - 1] == '/' then path[..|path| - 1] else Dir(path[..|path| - 1])
  }

  function WriteCommand(path: string, mode: string): string
    requires '/' in path
  {
    "mkdir -p " + Quote(Dir(path)) + " && cat > " + Quote(path) + " && chmod " + mode + " " + Quote(path)
  }

  /** The pieces of that command, as three steps. */
  function WriteSteps(dir: string, path: string, mode: string): (seq<Piece>, seq<Piece>, seq<Piece>) {
    ([Bare("mkdir"), Bare("-p"), Quoted(dir)],
     [Op("&&"), Bare("cat")] + [Op(">"), Quoted(path)],
     [Op("&&"), Bare("chmod")] + [Bare(mode), Quoted(path)])
  }

  lemma CommandNames()
    ensures OrdinaryWord("mkdir") && OrdinaryWord("-p") && OrdinaryWord("cat") && OrdinaryWord("chmod")
    ensures OrdinaryWord("umask") && OrdinaryWord("077") && OrdinaryWord("touch") && OrdinaryWord("grep")
    ensures OrdinaryWord("-qxF") && OrdinaryWord("echo")
  {
    hide Ordinary;
    forall c: char | '-' <= c <= '9' || 'A' <= c <= 'Z' || c == '_' || 'a' <= c <= 'z'
      ensures Ordinary(c)
    {
      LettersOrdinary(c);
    }
  }

  lemma HomePaths()
    ensures OrdinaryWord("/.ssh") && OrdinaryWord("/.ssh/authorized_keys")
  {
    hide Ordinary;
    forall c: char | '-' <= c <= '9' || 'A' <= c <= 'Z' || c == '_' || 'a' <= c <= 'z'
      ensures Ordinary(c)
    {
      LettersOrdinary(c);
    }
  }

  lemma CatText(dir: string, path: string, mode: string)
    ensures [' '] + Render(WriteSteps(dir, path, mode).1) == " && cat > " + Quote(path)
  {
    hide Quote, Meanings, Render;
    RenderAppend([Op("&&"), Bare("cat")], [Op(">"), Quoted(path)]);
    RenderPair(Op("&&"), Bare("cat"));
    RenderPair(Op(">"), Quoted(path));
  }

  lemma ChmodText(dir: string, path: string, mode: string)
    ensures [' '] + Render(WriteSteps(dir, path, mode).2) == " && chmod " + mode + " " + Quote(path)
  {
    hide Quote, Meanings, Render;
    RenderAppend([Op("&&"), Bare("chmod")], [Bare(mode), Quoted(path)]);
    RenderPair(Op("&&"), Bare("chmod"));
    RenderPair(Bare(mode), Quoted(path));
  }

  lemma MakeText(dir: string, path: string, mode: string)
    ensures Render(WriteSteps(dir, path, mode).0) == "mkdir -p " + Quote(dir)
  {
    hide Quote, Meanings, Render;
    RenderThree(Bare("mkdir"), Bare("-p"), Quoted(dir));
  }

  lemma WriteText(path: string, mode: string)
    requires '/' in path
    ensures var (make, cat, chmod) := WriteSteps(Dir(path), path, mode);
            Render(make + (cat + chmod)) == WriteCommand(path, mode)
            && Meanings(make + (cat + chmod)) == Meanings(make) + Meanings(cat) + Meanings(chmod)
  {
    var (make, cat, chmod) := WriteSteps(Dir(path), path, mode);
    assert make != [] && cat != [] && chmod != [];
    hide Quote, Dir, Meanings, Render, WriteSteps;
    RenderAppend(make, cat + chmod);
    RenderAppend(cat, chmod);
    MakeText(Dir(path), path, mode);
    CatText(Dir(path), path, mode);
    ChmodText(Dir(path), path, mode);
    ThreeTexts(Render(make), Render(cat), Render(chmod), " && cat > ", Quote(path),
               " && chmod " + mode + " " + Quote(path));
    ChmodRegroup(Render(make) + " && cat > " + Quote(path), mode, Quote(path));
  }

  lemma ThreeTexts(a: string, b: string, c: string, x: string, q: string, z: string)
    requires [' '] + b == x + q && [' '] + c == z
    ensures a + ([' '] + (b + ([' '] + c))) == a + x + q + z
  {
    assert a + ([' '] + (b + z)) == a + (([' '] + b) + z);
  }

  lemma ChmodRegroup(a: string, mode: string, q: string)
    ensures a + (" && chmod " + mode + " " + q) == a + " && chmod " + mode + " " + q
  {
  }

  /** Whatever the path holds, short of a NUL, the command is these eleven tokens: no
    * character of the path starts another command, redirection or expansion. */
  lemma WriteCommandMeans(path: string, mode: string)
    requires '/' in path && OrdinaryWord(mode)
    ensures Tokens(WriteCommand(path, mode), Between) ==
            if NUL in path then None
            else Some([Word("mkdir"), Word("-p"), Word(Dir(path)), Operator("&&"),
                       Word("cat"), Operator(">"), Word(path), Operator("&&"),
                       Word("chmod"), Word(mode), Word(path)])
  {
    hide Tokens, OrdinaryWord, Quote, WriteCommand;
    var (make, cat, chmod) := WriteSteps(Dir(path), path, mode);
    CommandNames();
    WriteText(path, mode);
    var ps := make + (cat + chmod);
    RenderReads(ps);
    WriteMeanings(Dir(path), path, mode);
    assert AllSendable(ps) <==> NUL !in path by {
      assert ps[2] == Quoted(Dir(path)) && ps[6] == Quoted(path);
      assert forall i :: 0 <= i < |Dir(path)| ==> Dir(path)[i] == path[i];
    }
  }

  lemma WriteMeanings(dir: string, path: string, mode: string)
    ensures var (make, cat, chmod) := WriteSteps(dir, path, mode);
            Meanings(make) + Meanings(cat) + Meanings(chmod) ==
            [Word("mkdir"), Word("-p"), Word(dir), Operator("&&"),
             Word("cat"), Operator(">"), Word(path), Operator("&&"),
             Word("chmod"), Word(mode), Word(path)]
  {
    hide Meanings, Render, Show;
    RenderThree(Bare("mkdir"), Bare("-p"), Quoted(dir));
    RenderAppend([Op("&&"), Bare("cat")], [Op(">"), Quoted(path)]);
    RenderPair(Op("&&"), Bare("cat"));
    RenderPair(Op(">"), Quoted(path));
    RenderAppend([Op("&&"), Bare("chmod")], [Bare(mode), Quoted(path)]);
    RenderPair(Op("&&"), Bare("chmod"));
    RenderPair(Bare(mode), Quoted(path));
  }

  // ---- The command that installs a key ----

  const KEYFILE := "~/.ssh/authorized_keys"

  function InstallCommand(line: string): string {
    "umask 077; mkdir -p ~/.ssh && touch " + KEYFILE + " && grep -qxF " + Quote(line) + " " + KEYFILE
    + " || echo " + Quote(line) + " >> " + KEYFILE
  }

  const KEYS := InHomeDir("/.ssh/authorized_keys")

  /** The pieces of that command, as five steps. */
  function InstallSteps(line: string): (seq<Piece>, seq<Piece>, seq<Piece>, seq<Piece>, seq<Piece>) {
    ([Bare("umask"), Ending("077")],
     [Bare("mkdir"), Bare("-p"), InHomeDir("/.ssh")],
     [Op("&&"), Bare("touch"), KEYS],
     [Op("&&"), Bare("grep")] + [Bare("-qxF"), Quoted(line), KEYS],
     [Op("||"), Bare("echo")] + [Quoted(line), Op(">>"), KEYS])
  }

  function InstallPieces(line: string): seq<Piece> {
    var (a, b, c, d, e) := InstallSteps(line);
    a + (b + (c + (d + e)))
  }

  lemma InstallParts(line: string)
    ensures var (a, b, c, d, e) := InstallSteps(line);
            && Render(InstallPieces(line)) ==
               Render(a) + ([' '] + (Render(b) + ([' '] + (Render(c) + ([' '] + (Render(d) + ([' '] + Render(e))))))))
            && Meanings(InstallPieces(line)) ==
               Meanings(a) + (Meanings(b) + (Meanings(c) + (Meanings(d) + Meanings(e))))
  {
    hide Meanings, Render, KEYS;
    var (a, b, c, d, e) := InstallSteps(line);
    RenderAppend(a, b + (c + (d + e)));
    RenderAppend(b, c + (d + e));
    RenderAppend(c, d + e);
    RenderAppend(d, e);
  }

  lemma KeysText()
    ensures Show(KEYS) == KEYFILE
  {
  }

  lemma UmaskText(line: string)
    ensures Render(InstallSteps(line).0) == "umask 077;" && Render(InstallSteps(line).1) == "mkdir -p ~/.ssh"
  {
    hide Meanings, Render, Quote;
    RenderPair(Bare("umask"), Ending("077"));
    RenderThree(Bare("mkdir"), Bare("-p"), InHomeDir("/.ssh"));
  }

  lemma TouchText(line: string)
    ensures Render(InstallSteps(line).2) == "&& touch " + KEYFILE
  {
    KeysText();
    hide Meanings, Render, Quote, KEYS, KEYFILE;
    RenderThree(Op("&&"), Bare("touch"), KEYS);
  }

  lemma GrepText(line: string)
    ensures Render(InstallSteps(line).3) == "&& grep -qxF " + Quote(line) + " " + KEYFILE
  {
    KeysText();
    hide Meanings, Render, Quote, KEYS, KEYFILE;
    RenderAppend([Op("&&"), Bare("grep")], [Bare("-qxF"), Quoted(line), KEYS]);
    RenderPair(Op("&&"), Bare("grep"));
    RenderThree(Bare("-qxF"), Quoted(line), KEYS);
  }

  lemma EchoText(line: string)
    ensures Render(InstallSteps(line).4) == "|| echo " + Quote(line) + " >> " + KEYFILE
  {
    KeysText();
    hide Meanings, Render, Quote, KEYS, KEYFILE;
    RenderAppend([Op("||"), Bare("echo")], [Quoted(line), Op(">>"), KEYS]);
    RenderPair(Op("||"), Bare("echo"));
    RenderThree(Quoted(line), Op(">>"), KEYS);
  }

  lemma InstallText(line: string)
    ensures Render(InstallPieces(line)) == InstallCommand(line)
  {
    hide Render, Quote, InstallPieces, InstallSteps, Meanings, KEYFILE;
    InstallParts(line);
    UmaskText(line);
    TouchText(line);
    GrepText(line);
    EchoText(line);
    FiveWithBlanks("umask 077;", "mkdir -p ~/.ssh", "&& touch " + KEYFILE,
                   "&& grep -qxF " + Quote(line) + " " + KEYFILE, "|| echo " + Quote(line) + " >> " + KEYFILE);
    InstallIsFive(Quote(line), KEYFILE);
  }

  lemma FiveWithBlanks(a: string, b: string, c: string, d: string, e: string)
    ensures a + ([' '] + (b + ([' '] + (c + ([' '] + (d + ([' '] + e))))))) ==
            (a + " " + b) + (" " + c) + (" " + d) + (" " + e)
  {
  }

  lemma UmaskLiteral()
    ensures "umask 077;" + " " + "mkdir -p ~/.ssh" + " && touch " == "umask 077; mkdir -p ~/.ssh && touch "
  {
  }

  lemma BlankAnds()
    ensures " " + "&& touch " == " && touch "
    ensures " " + "&& grep -qxF " == " && grep -qxF " && " " + "|| echo " == " || echo "
  {
  }

  /** Regrouping a concatenation, with x, y and z standing for its fixed parts. */
  lemma Regroup(h: string, t: string, x: string, y: string, z: string, q: string, f: string)
    ensures (h + (" " + t)) + f + (" " + x) + q + " " + f + (" " + y) + q + z + f ==
            h + (" " + (t + f)) + (" " + (x + q + " " + f)) + (" " + (y + q + z + f))
  {
  }

  lemma InstallIsFive(q: string, f: string)
    ensures "umask 077; mkdir -p ~/.ssh && touch " + f + " && grep -qxF " + q + " " + f
            + " || echo " + q + " >> " + f ==
            ("umask 077;" + " " + "mkdir -p ~/.ssh") + (" " + ("&& touch " + f))
            + (" " + ("&& grep -qxF " + q + " " + f)) + (" " + ("|| echo " + q + " >> " + f))
  {
    UmaskLiteral();
    BlankAnds();
    Regroup("umask 077;" + " " + "mkdir -p ~/.ssh", "&& touch ", "&& grep -qxF ", "|| echo ", " >> ", q, f);
  }

  lemma FirstMeanings(line: string)
    ensures var (a, b, c, d, e) := InstallSteps(line);
            Meanings(a) + (Meanings(b) + Meanings(c)) ==
            [Word("umask"), Word("077"), Operator(";"), Word("mkdir"), Word("-p"), Home("/.ssh"), Operator("&&"),
             Word("touch"), Home("/.ssh/authorized_keys")]
  {
    hide Meanings, Render, Show;
    RenderPair(Bare("umask"), Ending("077"));
    RenderThree(Bare("mkdir"), Bare("-p"), InHomeDir("/.ssh"));
    RenderThree(Op("&&"), Bare("touch"), KEYS);
  }

  lemma LastMeanings(line: string)
    ensures var (a, b, c, d, e) := InstallSteps(line);
            Meanings(d) + Meanings(e) ==
            [Operator("&&"), Word("grep"), Word("-qxF"), Word(line), Home("/.ssh/authorized_keys"), Operator("||"),
             Word("echo"), Word(line), Operator(">>"), Home("/.ssh/authorized_keys")]
  {
    hide Meanings, Render, Show;
    RenderAppend([Op("&&"), Bare("grep")], [Bare("-qxF"), Quoted(line), KEYS]);
    RenderPair(Op("&&"), Bare("grep"));
    RenderThree(Bare("-qxF"), Quoted(line), KEYS);
    RenderAppend([Op("||"), Bare("echo")], [Quoted(line), Op(">>"), KEYS]);
    RenderPair(Op("||"), Bare("echo"));
    RenderThree(Quoted(line), Op(">>"), KEYS);
  }

  lemma InstallMeanings(line: string)
    ensures Meanings(InstallPieces(line)) ==
            [Word("umask"), Word("077"), Operator(";"), Word("mkdir"), Word("-p"), Home("/.ssh"), Operator("&&"),
             Word("touch"), Home("/.ssh/authorized_keys")]
            + [Operator("&&"), Word("grep"), Word("-qxF"), Word(line), Home("/.ssh/authorized_keys"), Operator("||"),
               Word("echo"), Word(line), Operator(">>"), Home("/.ssh/authorized_keys")]
  {
    hide Meanings, Render, InstallPieces, InstallSteps, KEYS;
    InstallParts(line);
    FirstMeanings(line);
    LastMeanings(line);
    var (a, b, c, d, e) := InstallSteps(line);
    assert Meanings(a) + (Meanings(b) + (Meanings(c) + (Meanings(d) + Meanings(e)))) ==
           Meanings(a) + (Meanings(b) + Meanings(c)) + (Meanings(d) + Meanings(e));
  }

  /** Whatever the key line holds, short of a NUL, the install command looks for exactly
    * that line and appends exactly that line, and is otherwise as written. */
  lemma InstallCommandMeans(line: string)
    ensures Tokens(InstallCommand(line), Between) ==
            if NUL in line then None
            else Some([Word("umask"), Word("077"), Operator(";"), Word("mkdir"), Word("-p"), Home("/.ssh"),
                       Operator("&&"), Word("touch"), Home("/.ssh/authorized_keys")]
                      + [Operator("&&"), Word("grep"), Word("-qxF"), Word(line), Home("/.ssh/authorized_keys"),
                         Operator("||"), Word("echo"), Word(line), Operator(">>"), Home("/.ssh/authorized_keys")])
  {
    hide Tokens, OrdinaryWord, Quote, InstallCommand, Render, Meanings;
    CommandNames();
    HomePaths();
    InstallText(line);
    InstallMeanings(line);
    var ps := InstallPieces(line);
    assert ps[12 - 1] == Quoted(line);
    RenderReads(ps);
    assert AllSendable(ps) <==> NUL !in line;
  }
}

/** What `iptables -nvxL` prints for a chain, and how the panel finds a byte count in it. */
module Listing {
  import opened Options
  import opened Text
  import opened Modular
  import opened Iptables
  import Decimal

  const NEWLINE := '\n'

  const COUNTS := "    pkts      bytes target     "
  const COLUMNS := "prot opt in     out     "
  const ENDS := "source               destination"
  const HEADER := COUNTS + COLUMNS + ENDS

  // ---- Printing ----

  /** What the listing shows of a rule besides its bytes and target, and how wide its
    * first columns are. */
  datatype Row = Row(packets: nat, lead: nat, gap: nat, space: nat, columns: string)

  datatype Layout = Layout(references: nat, rows: seq<Row>)

  predicate LayoutOk(layout: Layout, n: nat) {
    |layout.rows| == n && forall i :: 0 <= i < n ==> NEWLINE !in layout.rows[i].columns
  }

  function TargetText(t: Target): string {
    match t
    case Accept => "ACCEPT"
    case Drop => "DROP"
    case Return => "RETURN"
    case Continue => ""
    case Jump(c) => c
  }

  function Title(c: Name, references: nat): string {
    "Chain " + c + " (" + Decimal.Print(references) + " references)"
  }

  function RuleLine(r: Rule, row: Row): string {
    var after := Spaces(row.space + 1) + (TargetText(r.t) + " " + row.columns);
    Spaces(row.lead) + (Decimal.Print(row.packets) + (Spaces(row.gap + 1) + (Decimal.Print(r.bytes) + after)))
  }

  function ListingLines(c: Name, rules: seq<Rule>, layout: Layout): seq<string>
    requires LayoutOk(layout, |rules|)
  {
    [Title(c, layout.references), HEADER]
    + seq(|rules|, i requires 0 <= i < |rules| => RuleLine(rules[i], layout.rows[i]))
  }

  function ListingText(c: Name, rules: seq<Rule>, layout: Layout): string
    requires LayoutOk(layout, |rules|)
  {
    Join(ListingLines(c, rules, layout), NEWLINE) + [NEWLINE]
  }

  // ---- Scanning ----

  function DigitPrefix(s: string): string {
    if s == "" || !Decimal.IsDigit(s[0]) then "" else [s[0]] + DigitPrefix(s[1..])
  }

  /** fmt.Sscanf of %d into a uint64, which a failure leaves at 0. */
  function ScanUint(s: string): nat {
    match Decimal.ReadDigits(DigitPrefix(s))
    case None => 0
    case Some(n) => if n < WRAP then n else 0
  }

  /** The count in a line that can hold one. */
  function CountIn(ln: string): Option<nat> {
    if Contains(ln, "RETURN") && |Fields(ln)| >= 2 then Some(ScanUint(Fields(ln)[1])) else None
  }

  /** The count of the first line that has one; 0 when none has. */
  function FirstCount(lines: seq<string>): nat {
    if lines == [] then 0
    else if CountIn(lines[0]).Some? then CountIn(lines[0]).value
    else FirstCount(lines[1..])
  }

  /** iptChainBytes on the output of iptables, if it ran. */
  method IptChainBytes(out: Option<string>) returns (b: nat)
    ensures b == if out.Some? then FirstCount(Split(out.value, NEWLINE)) else 0
  {
    if out.None? {
      return 0;
    }
    var lines := Split(out.value, NEWLINE);
    hide CountIn;
    for i := 0 to |lines|
      invariant FirstCount(lines) == FirstCount(lines[i..])
    {
      assert lines[i..][1..] == lines[i + 1..];
      var ln := lines[i];
      CountInIs(ln);
      if Contains(ln, "RETURN") {
        var fields := Fields(ln);
        if |fields| >= 2 {
          return ScanUint(fields[1]);
        }
      }
    }
    return 0;
  }

  lemma CountInIs(ln: string)
    ensures CountIn(ln) == if Contains(ln, "RETURN") && |Fields(ln)| >= 2 then Some(ScanUint(Fields(ln)[1])) else None
  {
  }

  // ---- Scanning what was printed ----

  lemma {:induction false} AllDigits(s: string)
    requires forall i :: 0 <= i < |s| ==> Decimal.IsDigit(s[i])
    ensures DigitPrefix(s) == s
  {
    if s != "" {
      AllDigits(s[1..]);
    }
  }

  /** Scanning a word takes the decimal number it starts with, unless that is too large
    * for 64 bits, and nothing of a word without one. */
  lemma ScanReads(n: nat, rest: string)
    requires rest == "" || !('0' <= rest[0] <= '9')
    ensures ScanUint(Decimal.Print(n) + rest) == if n < 18446744073709551616 then n else 0
    ensures ScanUint(rest) == 0
  {
    var s := Decimal.Digits(n);
    hide Decimal.Digits;
    DigitsThen(s, rest);
    Decimal.ReadDigitsBack(n);
  }

  lemma {:induction false} DigitsThen(s: string, rest: string)
    requires forall c :: c in s ==> Decimal.IsDigit(c)
    requires rest == "" || !Decimal.IsDigit(rest[0])
    ensures DigitPrefix(s + rest) == s
  {
    if s == "" {
      assert s + rest == rest;
    } else {
      assert (s + rest)[1..] == s[1..] + rest;
      DigitsThen(s[1..], rest);
    }
  }

  /** A printed number is one word of digits, and scans back. */
  lemma NumberScans(n: nat)
    ensures Decimal.Print(n) != "" && NEWLINE !in Decimal.Print(n) && 'R' !in Decimal.Print(n)
    ensures forall i :: 0 <= i < |Decimal.Print(n)| ==> !IsSpace(Decimal.Print(n)[i])
    ensures n < WRAP ==> ScanUint(Decimal.Print(n)) == n
  {
    var s := Decimal.Print(n);
    assert s == Decimal.Digits(n);
    hide Decimal.Print, Decimal.Digits;
    forall i | 0 <= i < |s|
      ensures Decimal.IsDigit(s[i]) && !IsSpace(s[i])
    {
      assert s[i] in s;
    }
    AllDigits(s);
    Decimal.ReadDigitsBack(n);
  }

  lemma NoReturn(ln: string)
    requires 'R' !in ln
    ensures CountIn(ln) == None
  {
    assert forall k :: 0 <= k <= |ln| && "RETURN" <= ln[k..] ==> ln[k..][0] == 'R' && ln[k..][0] == ln[k];
  }

  /** The line of a RETURN rule gives that rule's bytes. */
  lemma RuleLineCounts(r: Rule, row: Row)
    requires r.t == Return
    ensures CountIn(RuleLine(r, row)) == Some(r.bytes)
  {
    hide Spaces, ScanUint, IsSpace, FieldsFrom, Fields;
    NumberScans(r.bytes);
    RuleLineFields(r, row);
    var start := RuleLineEnds(r, row);
    var end := "RETURN" + " " + row.columns;
    hide RuleLine, Decimal.Print;
    assert RuleLine(r, row)[|start|..] == end;
  }

  lemma RuleLineEnds(r: Rule, row: Row) returns (start: string)
    requires r.t == Return
    ensures RuleLine(r, row) == start + ("RETURN" + " " + row.columns)
  {
    hide Decimal.Print, Spaces;
    start := Spaces(row.lead) + Decimal.Print(row.packets) + Spaces(row.gap + 1) + Decimal.Print(r.bytes)
    + Spaces(row.space + 1);
  }

  lemma RuleLineFields(r: Rule, row: Row)
    requires r.t == Return
    ensures |Fields(RuleLine(r, row))| >= 2 && Fields(RuleLine(r, row))[1] == Decimal.Print(r.bytes)
  {
    var p, b := Decimal.Print(row.packets), Decimal.Print(r.bytes);
    var tail := "RETURN" + " " + row.columns;
    var end := b + (Spaces(row.space + 1) + tail);
    assert RuleLine(r, row) == Spaces(row.lead) + (p + (Spaces(row.gap + 1) + end));
    NumberScans(row.packets);
    NumberScans(r.bytes);
    hide RuleLine, Decimal.Print, Spaces, ScanUint, IsSpace, FieldsFrom;
    FieldsSkip(row.lead, p + (Spaces(row.gap + 1) + end));
    FieldsNext(p, row.gap, end);
    FieldsNext(b, row.space, tail);
    assert Fields(RuleLine(r, row)) == [p] + ([b] + Fields(tail));
  }

  /** Listing a chain of RETURN rules and scanning the text gives the bytes of its first
    * rule, however the listing is laid out. */
  lemma ListingScans(c: Name, rules: seq<Rule>, layout: Layout)
    requires LayoutOk(layout, |rules|) && NEWLINE !in c && 'R' !in c
    requires forall i :: 0 <= i < |rules| ==> rules[i].t == Return
    ensures FirstCount(Split(ListingText(c, rules, layout), NEWLINE)) == if rules == [] then 0 else rules[0].bytes
  {
    var ls := ListingLines(c, rules, layout);
    assert |ls| == |rules| + 2 && ls[0] == Title(c, layout.references) && ls[1] == HEADER;
    assert rules != [] ==> ls[2] == RuleLine(rules[0], layout.rows[0]);
    LinesApart(c, rules, layout);
    TitleLine(c, layout.references);
    HeaderLine();
    hide ListingLines, Split, Join, Title, CountIn, RuleLine, HEADER, LayoutOk;
    SplitJoined(ls, NEWLINE);
    NoReturn(ls[0]);
    NoReturn(ls[1]);
    NoReturn("");
    if rules != [] {
      RuleLineCounts(rules[0], layout.rows[0]);
    }
    FirstCountPast(ls);
  }

  lemma FirstCountPast(ls: seq<string>)
    requires |ls| >= 2 && CountIn(ls[0]).None? && CountIn(ls[1]).None? && CountIn("").None?
    requires |ls| > 2 ==> CountIn(ls[2]).Some?
    ensures FirstCount(ls + [""]) == if |ls| > 2 then CountIn(ls[2]).value else 0
  {
    hide CountIn;
    var all := ls + [""];
    assert all[1..][1..] == all[2..];
    assert all[0] == ls[0] && all[1..][0] == ls[1];
    assert FirstCount(all) == FirstCount(all[1..]) == FirstCount(all[2..]);
    if |ls| == 2 {
      assert all[2..] == [""] && [""][1..] == [];
      assert FirstCount([""]) == FirstCount([]);
    } else {
      assert all[2..][0] == ls[2];
    }
  }

  predicate Silent(s: string) { 'R' !in s && NEWLINE !in s }

  lemma HeaderLine()
    ensures Silent(HEADER)
  {
    CountsSilent();
    ColumnsSilent();
    EndsSilent();
    hide COUNTS, COLUMNS, ENDS;
  }

  lemma CountsSilent()
    ensures Silent(COUNTS)
  {
  }

  lemma ColumnsSilent()
    ensures Silent(COLUMNS)
  {
  }

  lemma EndsSilent()
    ensures Silent(ENDS)
  {
  }

  lemma TitleLine(c: Name, references: nat)
    requires NEWLINE !in c && 'R' !in c
    ensures 'R' !in Title(c, references) && NEWLINE !in Title(c, references)
  {
    NumberScans(references);
    hide Decimal.Print;
  }

  lemma RuleLineApart(r: Rule, row: Row)
    requires r.t == Return && NEWLINE !in row.columns
    ensures NEWLINE !in RuleLine(r, row)
  {
    NumberScans(row.packets);
    NumberScans(r.bytes);
    hide Decimal.Print;
    assert forall n: nat :: NEWLINE !in Spaces(n);
    hide Spaces;
  }

  lemma LinesApart(c: Name, rules: seq<Rule>, layout: Layout)
    requires LayoutOk(layout, |rules|) && NEWLINE !in c && 'R' !in c
    requires forall i :: 0 <= i < |rules| ==> rules[i].t == Return
    ensures forall l :: l in ListingLines(c, rules, layout) ==> NEWLINE !in l
  {
    TitleLine(c, layout.references);
    HeaderLine();
    hide Title, RuleLine, HEADER;
    forall i | 0 <= i < |rules|
      ensures NEWLINE !in RuleLine(rules[i], layout.rows[i])
    {
      RuleLineApart(rules[i], layout.rows[i]);
    }
  }
}

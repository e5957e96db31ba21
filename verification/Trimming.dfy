/** Cutting characters of one class off the ends of a text. */
module Trimming {
  import opened Text

  /** The characters a trim takes away. */
  datatype Class = Blanks | Slashes | Either | UnitBlanks

  predicate In(c: char, p: Class) {
    match p
    case Blanks => IsSpace(c)
    case Slashes => c == '/'
    case Either => IsSpace(c) || c == '/'
    case UnitBlanks => c == ' ' || c == '\t' || c == '\n' || c == '\r'
  }

  predicate All(s: string, p: Class) { forall i :: 0 <= i < |s| ==> In(s[i], p) }

  predicate StartsOutside(s: string, p: Class) { s == [] || !In(s[0], p) }

  predicate EndsOutside(s: string, p: Class) { s == [] || !In(s[|s| - 1], p) }

  function TrimLeft(s: string, p: Class): string {
    if StartsOutside(s, p) then s else TrimLeft(s[1..], p)
  }

  function TrimRight(s: string, p: Class): string {
    if EndsOutside(s, p) then s else TrimRight(s[..|s| - 1], p)
  }

  /** strings.TrimFunc; TrimSpace and Trim(_, "/") are its two uses. */
  function Trim(s: string, p: Class): string { TrimRight(TrimLeft(s, p), p) }

  lemma {:induction false} LeftCut(s: string, p: Class) returns (a: string)
    ensures s == a + TrimLeft(s, p) && All(a, p) && StartsOutside(TrimLeft(s, p), p)
  {
    hide IsSpace;
    if StartsOutside(s, p) {
      a := "";
    } else {
      var b := LeftCut(s[1..], p);
      a := [s[0]] + b;
    }
  }

  lemma {:induction false} RightCut(s: string, p: Class) returns (b: string)
    ensures s == TrimRight(s, p) + b && All(b, p) && EndsOutside(TrimRight(s, p), p)
  {
    hide IsSpace;
    if EndsOutside(s, p) {
      b := "";
    } else {
      var a := RightCut(s[..|s| - 1], p);
      b := a + [s[|s| - 1]];
    }
  }

  lemma {:induction false} TrimLeftIs(a: string, r: string, p: Class)
    requires All(a, p) && StartsOutside(r, p)
    ensures TrimLeft(a + r, p) == r
  {
    if a == [] {
      assert a + r == r;
    } else {
      assert (a + r)[0] == a[0] && (a + r)[1..] == a[1..] + r;
      TrimLeftIs(a[1..], r, p);
    }
  }

  lemma {:induction false} TrimRightDrops(s: string, b: string, p: Class)
    requires All(b, p)
    ensures TrimRight(s + b, p) == TrimRight(s, p)
  {
    if b == [] {
      assert s + b == s;
    } else {
      assert (s + b)[..|s + b| - 1] == s + b[..|b| - 1];
      TrimRightDrops(s, b[..|b| - 1], p);
    }
  }

  lemma RightIs(s: string, p: Class)
    requires EndsOutside(s, p)
    ensures TrimRight(s, p) == s
  {
  }
}

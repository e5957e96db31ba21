/** The authorized_keys file of the Iran-side login: adding the line of a reverse
  * tunnel and taking it out again.
  */
module AuthorizedKeys {
  import opened Options
  import opened Text

  const NEWLINE := '\n'

  function Marker(id: string): string { "sshtunnel-reverse-" + id }

  function Line(pub: string, id: string): string { pub + " " + Marker(id) }

  /** The file after ensureIranAuthorizedKey; a missing file reads as empty. */
  function Ensure(file: Option<string>, pub: string, id: string): Option<string> {
    var data := match file { case Some(d) => d case None => "" };
    if Contains(data, pub) then file else Some(data + Line(pub, id) + [NEWLINE])
  }

  predicate Kept(l: string, id: string) { l != "" && !Contains(l, Marker(id)) }

  function KeptLines(ls: seq<string>, id: string): seq<string> {
    if ls == [] then []
    else
      var before := KeptLines(ls[..|ls| - 1], id);
      if Kept(ls[|ls| - 1], id) then before + [ls[|ls| - 1]] else before
  }

  function Removed(data: string, id: string): string {
    Join(KeptLines(Split(data, NEWLINE), id), NEWLINE) + [NEWLINE]
  }

  /** The file after removeIranAuthorizedKey, which leaves an unreadable one alone. */
  function Remove(file: Option<string>, id: string): Option<string> {
    match file
    case None => None
    case Some(data) => Some(Removed(data, id))
  }

  /** After ensure the file holds the key; where it did not before, exactly one line is
    * appended, marked with the tunnel's id. */
  lemma EnsureAuthorizes(file: Option<string>, pub: string, id: string)
    requires pub != ""
    ensures var before := match file { case Some(d) => d case None => "" };
            && Ensure(file, pub, id).Some? && Contains(Ensure(file, pub, id).value, pub)
            && Ensure(file, pub, id).value ==
               if Contains(before, pub) then before else before + pub + " sshtunnel-reverse-" + id + "\n"
  {
    var before := match file { case Some(d) => d case None => "" };
    assert Line(pub, id) == pub + " sshtunnel-reverse-" + id;
    var after := before + Line(pub, id) + [NEWLINE];
    assert after == before + pub + " sshtunnel-reverse-" + id + "\n";
    assert after[|before|..] == pub + (" sshtunnel-reverse-" + id + "\n");
    assert Contains(after, pub);
    assert file.None? ==> !Contains("", pub);
  }

  method RemoveIranAuthorizedKey(file: Option<string>, id: string) returns (out: Option<string>)
    ensures out == Remove(file, id)
  {
    if file.None? {
      return file;
    }
    var kept := [];
    var lines := Split(file.value, NEWLINE);
    for i := 0 to |lines|
      invariant kept == KeptLines(lines[..i], id)
    {
      assert lines[..i + 1][..i] == lines[..i];
      var ln := lines[i];
      if ln == "" || Contains(ln, "sshtunnel-reverse-" + id) {
        continue;
      }
      kept := kept + [ln];
    }
    assert lines[..|lines|] == lines;
    return Some(Join(kept, NEWLINE) + [NEWLINE]);
  }

  // ---- Which lines stay ----

  lemma {:induction false} KeptAppend(a: seq<string>, b: seq<string>, id: string)
    ensures KeptLines(a + b, id) == KeptLines(a, id) + KeptLines(b, id)
  {
    if b == [] {
      assert a + b == a;
    } else {
      assert (a + b)[..|a + b| - 1] == a + b[..|b| - 1];
      KeptAppend(a, b[..|b| - 1], id);
    }
  }

  lemma {:induction false} KeptAre(ls: seq<string>, id: string)
    ensures forall l :: l in KeptLines(ls, id) <==> l in ls && Kept(l, id)
  {
    if ls != [] {
      KeptAre(ls[..|ls| - 1], id);
      assert ls == ls[..|ls| - 1] + [ls[|ls| - 1]];
    }
  }

  lemma {:induction false} AllKept(ls: seq<string>, id: string)
    requires forall l :: l in ls ==> Kept(l, id)
    ensures KeptLines(ls, id) == ls
  {
    if ls != [] {
      AllKept(ls[..|ls| - 1], id);
      assert ls == ls[..|ls| - 1] + [ls[|ls| - 1]];
    }
  }

  /** Removing a tunnel leaves exactly the non-blank lines without its marker. */
  lemma RemovedLines(data: string, id: string, l: string)
    requires l != ""
    ensures l in Split(Removed(data, id), NEWLINE) <==>
            l in Split(data, NEWLINE) && !Contains(l, "sshtunnel-reverse-" + id)
  {
    var kept := KeptLines(Split(data, NEWLINE), id);
    KeptAre(Split(data, NEWLINE), id);
    if kept == [] {
      assert Removed(data, id) == "" + [NEWLINE] + "";
      SplitLine("", "", NEWLINE);
    } else {
      SplitJoined(kept, NEWLINE);
    }
    hide Contains;
  }

  // ---- Round trip ----

  /** What removal leaves: a file of lines to keep, each ended by a newline, or a
    * single newline when there is none. */
  predicate Canonical(data: string, id: string) {
    var ls := Split(data, NEWLINE);
    data == [NEWLINE] ||
    (|ls| >= 2 && ls[|ls| - 1] == "" && forall i :: 0 <= i < |ls| - 1 ==> Kept(ls[i], id))
  }

  lemma RemovedIsCanonical(data: string, id: string)
    ensures Canonical(Removed(data, id), id)
  {
    var kept := KeptLines(Split(data, NEWLINE), id);
    KeptAre(Split(data, NEWLINE), id);
    if kept != [] {
      SplitJoined(kept, NEWLINE);
      assert forall i :: 0 <= i < |kept| ==> kept[i] in kept;
    } else {
      assert Removed(data, id) == [NEWLINE];
    }
  }

  /** Removing after appending a marked line is removing from the lines before. */
  lemma CanonicalStays(data: string, id: string, ls: seq<string>)
    requires Canonical(data, id) && KeptLines(ls, id) == []
    ensures KeptLines(Split(data, NEWLINE)[..|Split(data, NEWLINE)| - 1] + ls, id) ==
            Split(data, NEWLINE)[..|Split(data, NEWLINE)| - 1]
            || (data == [NEWLINE] && KeptLines(Split(data, NEWLINE)[..|Split(data, NEWLINE)| - 1] + ls, id) == [])
  {
    var front := Split(data, NEWLINE)[..|Split(data, NEWLINE)| - 1];
    KeptAppend(front, ls, id);
    if data == [NEWLINE] {
      assert data == "" + [NEWLINE] + "";
      SplitLine("", "", NEWLINE);
      assert front == [""];
      assert KeptLines([""], id) == [];
    } else {
      AllKept(front, id);
    }
  }

  lemma MarkedLineDropped(pub: string, id: string)
    ensures !Kept(Line(pub, id), id)
  {
    assert Line(pub, id)[|pub| + 1..] == Marker(id);
  }

  /** For a canonical file, dropping lines that do not stay gives the file back. */
  lemma RemoveGivesBack(data: string, id: string, ls: seq<string>)
    requires Canonical(data, id) && KeptLines(ls, id) == []
    ensures Join(KeptLines(Split(data, NEWLINE)[..|Split(data, NEWLINE)| - 1] + ls, id), NEWLINE) + [NEWLINE] == data
  {
    CanonicalStays(data, id, ls);
    var all := Split(data, NEWLINE);
    var front := all[..|all| - 1];
    if data != [NEWLINE] {
      JoinSplit(data, NEWLINE);
      assert all == front + [""];
      JoinSnoc(front, NEWLINE);
    } else if KeptLines(front + ls, id) != [] {
      assert data == "" + [NEWLINE] + "";
      SplitLine("", "", NEWLINE);
    }
  }

  lemma SplitEnsured(data: string, pub: string, id: string)
    requires NEWLINE !in pub && NEWLINE !in id && Canonical(data, id)
    ensures var after := Ensure(Some(data), pub, id).value;
            Split(after, NEWLINE) ==
            Split(data, NEWLINE)[..|Split(data, NEWLINE)| - 1]
            + ((if after == data then [] else [Line(pub, id)]) + [""])
  {
    hide Contains, Kept, Line, Marker;
    var all, line := Split(data, NEWLINE), Line(pub, id);
    var after := Ensure(Some(data), pub, id).value;
    assert all[|all| - 1] == "" by {
      if data == [NEWLINE] {
        assert data == "" + [NEWLINE] + "";
        SplitLine("", "", NEWLINE);
      }
    }
    hide Split, Canonical;
    assert all == all[..|all| - 1] + [""];
    if after != data {
      LineIsOneLine(pub, id);
      SplitWithLine(data, line);
      assert "" + line == line;
    }
  }

  lemma SplitEmpty()
    ensures Split("", NEWLINE) == [""]
  {
  }

  lemma NoneAddedKept(added: seq<string>, pub: string, id: string)
    requires added == [] || added == [Line(pub, id)]
    ensures KeptLines(added + [""], id) == []
  {
    MarkedLineDropped(pub, id);
    hide Contains, Line, Marker;
    assert (added + [""])[..|added|] == added;
    assert !Kept("", id);
    assert added != [] ==> added[..0] == [] && KeptLines(added[..0], id) == [];
  }

  lemma CanonicalGivenBack(data: string, pub: string, id: string)
    requires NEWLINE !in pub && NEWLINE !in id
    ensures Ensure(Some(data), pub, id).Some?
    ensures Removed(Ensure(Some(data), pub, id).value, id) == data <==> Canonical(data, id)
  {
    var after := Ensure(Some(data), pub, id).value;
    RemovedIsCanonical(after, id);
    if Canonical(data, id) {
      var added := if after == data then [] else [Line(pub, id)];
      SplitEnsured(data, pub, id);
      NoneAddedKept(added, pub, id);
      RemoveGivesBack(data, id, added + [""]);
    }
  }

  /** Adding a tunnel's line and removing it again restores the file exactly when there
    * is one and it is canonical: non-empty, every line ended by a newline, none of them
    * blank or carrying the tunnel's marker (or a lone newline).  A file that was missing
    * is left as a lone newline. */
  lemma EnsureRemoveIdentity(file: Option<string>, pub: string, id: string)
    requires NEWLINE !in pub && NEWLINE !in id && pub != ""
    ensures Remove(Ensure(file, pub, id), id) == file <==> file.Some? && Canonical(file.value, id)
    ensures file.None? ==> Remove(Ensure(file, pub, id), id) == Some([NEWLINE])
  {
    if file.Some? {
      CanonicalGivenBack(file.value, pub, id);
    } else {
      SplitEmpty();
      assert !Contains("", pub);
      UnterminatedLineLost("", pub, id);
      assert Ensure(None, pub, id) == Ensure(Some(""), pub, id);
      assert [""][..0] == [] && Join(KeptLines([], id), NEWLINE) + [NEWLINE] == [NEWLINE];
    }
  }

  /** For any file without the key: ensure runs the new line on from an unterminated
    * last line, so that remove then takes both, and keeps of the terminated lines what
    * any removal keeps. */
  lemma UnterminatedLineLost(data: string, pub: string, id: string)
    requires NEWLINE !in pub && NEWLINE !in id && !Contains(data, pub)
    ensures Ensure(Some(data), pub, id).Some?
    ensures var all := Split(data, NEWLINE);
            Removed(Ensure(Some(data), pub, id).value, id) == Join(KeptLines(all[..|all| - 1], id), NEWLINE) + [NEWLINE]
  {
    hide Contains, Kept, KeptLines, Split, Join, Marker, Line;
    var all, line := Split(data, NEWLINE), Line(pub, id);
    var front, last := all[..|all| - 1], all[|all| - 1];
    RunOnDropped(last, pub, id);
    assert NEWLINE !in line by { LineIsOneLine(pub, id); }
    SplitWithLine(data, line);
    DropTwo(last + line, id);
    KeptAppend(front, [last + line, ""], id);
    assert KeptLines(front, id) + [] == KeptLines(front, id);
  }

  lemma LineIsOneLine(pub: string, id: string)
    requires NEWLINE !in pub && NEWLINE !in id
    ensures NEWLINE !in Line(pub, id)
  {
  }

  lemma RunOnDropped(last: string, pub: string, id: string)
    ensures !Kept(last + Line(pub, id), id)
  {
    assert (last + Line(pub, id))[|last| + |pub| + 1..] == Marker(id);
  }

  lemma SplitWithLine(data: string, line: string)
    requires NEWLINE !in line
    ensures var all := Split(data, NEWLINE);
            Split(data + line + [NEWLINE], NEWLINE) == all[..|all| - 1] + [all[|all| - 1] + line, ""]
  {
    SplitEmpty();
    SplitLine(line, "", NEWLINE);
    SplitAppend(data, line + [NEWLINE] + "", NEWLINE);
    hide Split;
    assert data + line + [NEWLINE] == data + (line + [NEWLINE] + "");
  }

  lemma DropTwo(l: string, id: string)
    requires !Kept(l, id)
    ensures KeptLines([l, ""], id) == []
  {
    hide Contains;
    assert !Kept("", id);
    hide Kept;
    assert [l, ""][..1] == [l] && [l][..0] == [];
    assert KeptLines([l], id) == KeptLines([], id);
    assert KeptLines([l, ""], id) == KeptLines([l], id);
  }

  /** A second ensure changes nothing. */
  lemma EnsureTwice(file: Option<string>, pub: string, id: string)
    ensures Ensure(Ensure(file, pub, id), pub, id) == Ensure(file, pub, id)
  {
    var data := match file { case Some(d) => d case None => "" };
    var after := data + Line(pub, id) + [NEWLINE];
    assert after[|data|..] == pub + (" " + Marker(id) + [NEWLINE]);
  }

  // ---- Other tunnels ----

  /** In another tunnel's line the marker can only stand in that tunnel's own marker. */
  lemma NoMatchInKey(pub: string, id: string, other: string, k: nat)
    requires ' ' !in id && !Contains(pub, Marker(id)) && k <= |pub|
    ensures !(Marker(id) <= Line(pub, other)[k..])
  {
    var l, m := Line(pub, other), Marker(id);
    assert l[|pub|] == ' ' && ' ' !in m;
    if k + |m| <= |pub| {
      assert l[k..][..|m|] == pub[k..][..|m|];
    } else {
      assert |l[k..]| > |pub| - k && l[k..][|pub| - k] == ' ';
    }
  }

  /** Removing one tunnel keeps another's line exactly when its own marker does not
    * occur in the other's.  (A key in that line must not itself contain the marker;
    * base64 does not.) */
  lemma OtherLineStays(pub: string, id: string, other: string)
    requires ' ' !in id && !Contains(pub, Marker(id))
    ensures Kept(Line(pub, other), id) <==> !Contains(Marker(other), Marker(id))
  {
    var l, m := Line(pub, other), Marker(id);
    forall k: nat | k <= |pub|
      ensures !(m <= l[k..])
    {
      NoMatchInKey(pub, id, other, k);
    }
    if k: nat :| k <= |l| && m <= l[k..] {
      assert l[k..] == Marker(other)[k - |pub| - 1..];
    }
    if k: nat :| k <= |Marker(other)| && m <= Marker(other)[k..] {
      assert l[|pub| + 1 + k..] == Marker(other)[k..];
    }
  }

  /** The same for the whole file. */
  lemma OtherTunnelKept(data: string, pub: string, id: string, other: string)
    requires Line(pub, other) in Split(data, NEWLINE)
    requires ' ' !in id && !Contains(pub, Marker(id))
    ensures Line(pub, other) in Split(Removed(data, id), NEWLINE) <==> !Contains(Marker(other), Marker(id))
  {
    OtherLineStays(pub, id, other);
    RemovedLines(data, id, Line(pub, other));
  }

  /** Between ids of one length, as generated ids are, only equal ones clash. */
  lemma SameLengthIds(id: string, other: string)
    requires |id| == |other|
    ensures Contains(Marker(other), Marker(id)) <==> id == other
  {
    var m, n := Marker(id), Marker(other);
    assert |m| == |n| && m[18..] == id && n[18..] == other;
    assert n[0..] == n;
    if k: nat :| k <= |n| && m <= n[k..] {
      assert k == 0;
    }
  }
}

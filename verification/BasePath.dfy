/** Cleaning up the panel's base path, once and each time the configuration is loaded
  * and saved again.
  */
module BasePath {
  import opened Text
  import opened Trimming

  function Stripped(p: string): string { Trim(Trim(p, Blanks), Slashes) }

  function Rooted(q: string): string { if q == "" then "" else "/" + q }

  function Normalize(p: string): string { Rooted(Stripped(p)) }

  // ---- What one step yields ----

  /** "" or one leading slash, and no trailing slash. */
  predicate Shape(r: string) {
    r == "" || (|r| >= 2 && r[0] == '/' && r[1] != '/' && r[|r| - 1] != '/')
  }

  /** What stands between blanks, then slashes, cut off at either end. */
  lemma Parts(p: string) returns (a: string, c: string, d: string, b: string)
    ensures p == a + (c + (Stripped(p) + (d + b)))
    ensures All(a, Blanks) && All(c, Slashes) && All(d, Slashes) && All(b, Blanks)
    ensures StartsOutside(c + (Stripped(p) + (d + b)), Blanks)
    ensures StartsOutside(Stripped(p) + (d + b), Slashes)
    ensures StartsOutside(Stripped(p), Slashes) && EndsOutside(Stripped(p), Slashes)
  {
    hide TrimLeft, TrimRight, All, In;
    a := LeftCut(p, Blanks);
    var u := TrimLeft(p, Blanks);
    b := RightCut(u, Blanks);
    var v := TrimRight(u, Blanks);
    c := LeftCut(v, Slashes);
    var w := TrimLeft(v, Slashes);
    d := RightCut(w, Slashes);
    var q := Stripped(p);
    assert w + b == q + (d + b);
    assert u == c + (w + b);
    NotSlash(b);
  }

  lemma NotSlash(b: string)
    requires All(b, Blanks)
    ensures StartsOutside(b, Slashes)
  {
  }

  lemma NormalizeShape(p: string)
    ensures Shape(Normalize(p))
  {
    var a, c, d, b := Parts(p);
    hide Stripped;
  }

  /** A cleaned path loses only what its own end allows: blanks, then slashes. */
  lemma NormalizeRooted(q: string)
    requires q != "" && q[0] != '/' && q[|q| - 1] != '/'
    ensures Normalize(Rooted(q)) == Rooted(TrimRight(TrimRight(q, Blanks), Slashes))
  {
    var r, v := "/" + q, TrimRight(q, Blanks);
    RootedLeft(r);
    RootedRight(q);
    RootedOff(q, v);
    hide TrimLeft, TrimRight;
  }

  lemma RootedLeft(r: string)
    requires r != "" && r[0] == '/'
    ensures TrimLeft(r, Blanks) == r
  {
  }

  lemma RootedRight(q: string)
    ensures TrimRight("/" + q, Blanks) == "/" + TrimRight(q, Blanks)
  {
    var b := RightCut(q, Blanks);
    var v := TrimRight(q, Blanks);
    assert "/" + q == ("/" + v) + b;
    TrimRightDrops("/" + v, b, Blanks);
    RightIs("/" + v, Blanks);
    hide TrimRight;
  }

  lemma RootedOff(q: string, v: string)
    requires q != "" && q[0] != '/' && v == TrimRight(q, Blanks)
    ensures TrimLeft("/" + v, Slashes) == v
  {
    var b := RightCut(q, Blanks);
    hide TrimRight;
    assert v != "" ==> v[0] == q[0];
    TrimLeftIs("/", v, Slashes);
  }

  /** Cleaning twice is cleaning once exactly when what is left between blanks and
    * slashes does not itself end in a blank. */
  lemma IdempotentIff(p: string)
    ensures Normalize(Normalize(p)) == Normalize(p) <==> EndsOutside(Stripped(p), Blanks)
  {
    var q := Stripped(p);
    var a, c, d, b := Parts(p);
    if q != "" {
      NormalizeRooted(q);
      TrimmedTwice(q);
      hide Stripped;
    }
  }

  /** Of a text not ending in a slash, a step keeps either all or strictly less, as
    * trimming blanks and slashes in any order does. */
  lemma TrimmedTwice(q: string)
    requires EndsOutside(q, Slashes)
    ensures var r := TrimRight(TrimRight(q, Blanks), Slashes);
            (r == q <==> EndsOutside(q, Blanks)) && (r == q || |r| < |q|) &&
            (EndsOutside(q, Blanks) <==> TrimRight(q, Either) == q)
  {
    var b := RightCut(q, Blanks);
    var d := RightCut(TrimRight(q, Blanks), Slashes);
    var e := RightCut(q, Either);
    RightIs(q, Slashes);
    if EndsOutside(q, Blanks) {
      RightIs(q, Blanks);
      RightIs(q, Either);
    }
  }

  lemma NoBlanksIdempotent(p: string)
    requires forall i :: 0 <= i < |p| ==> !IsSpace(p[i])
    ensures Normalize(Normalize(p)) == Normalize(p)
  {
    IdempotentIff(p);
    var q := Stripped(p);
    var a, c, d, b := Parts(p);
    hide Stripped, Normalize, IsSpace;
    assert q != "" ==> q[|q| - 1] == p[|a| + |c| + |q| - 1];
  }

  // ---- Loading and saving again and again ----

  function Repeated(p: string, times: nat): string
    decreases times
  {
    if times == 0 then p else Repeated(Normalize(p), times - 1)
  }

  /** Where repetition ends: blanks and slashes at the far end go in any order. */
  function Limit(p: string): string {
    Rooted(TrimRight(TrimLeft(TrimLeft(p, Blanks), Slashes), Either))
  }

  lemma LimitOfRooted(q: string)
    requires StartsOutside(q, Slashes)
    ensures Limit(Rooted(q)) == Rooted(TrimRight(q, Either))
  {
    if q != "" {
      TrimLeftIs("", "/" + q, Blanks);
      assert "" + ("/" + q) == "/" + q;
      TrimLeftIs("/", q, Slashes);
    }
  }

  /** A step does not move the limit. */
  lemma LimitKept(p: string)
    ensures Limit(Normalize(p)) == Limit(p)
  {
    var q := Stripped(p);
    var a, c, d, b := Parts(p);
    var rest := c + (q + (d + b));
    LimitOfRooted(q);
    assert TrimLeft(TrimLeft(p, Blanks), Slashes) == q + (d + b) by {
      hide Stripped, TrimRight, TrimLeft;
      LeftTwice(a, c, q + (d + b));
    }
    hide Stripped, TrimLeft, TrimRight;
    assert All(d + b, Either);
    TrimRightDrops(q, d + b, Either);
  }

  lemma LeftTwice(a: string, c: string, t: string)
    requires All(a, Blanks) && All(c, Slashes) && StartsOutside(t, Slashes) && StartsOutside(c + t, Blanks)
    ensures TrimLeft(TrimLeft(a + (c + t), Blanks), Slashes) == t
  {
    TrimLeftIs(a, c + t, Blanks);
    TrimLeftIs(c, t, Slashes);
  }

  /** After the first step, each further one shortens the path until it is at its
    * limit, where it stays. */
  lemma ShortensOrStays(r: string)
    requires Shape(r)
    ensures |Normalize(r)| < |r| || Normalize(r) == r
    ensures Normalize(r) == r <==> r == Limit(r)
  {
    if r == "" {
      assert Normalize(r) == "" && Limit(r) == "";
    } else {
      var q := r[1..];
      assert r == Rooted(q);
      NormalizeRooted(q);
      LimitOfRooted(q);
      TrimmedTwice(q);
      hide Normalize, Limit, TrimRight, In;
      assert Limit(r) == Rooted(TrimRight(q, Either));
    }
  }

  lemma {:induction false} ReachesFrom(r: string, times: nat)
    requires Shape(r) && times + 1 >= |r|
    ensures Repeated(r, times) == Limit(r)
    decreases times
  {
    hide Normalize, Limit;
    ShortensOrStays(r);
    LimitKept(r);
    NormalizeShape(r);
    if times > 0 {
      if Normalize(r) == r {
        StaysAt(r, times);
      } else {
        ReachesFrom(Normalize(r), times - 1);
      }
    }
  }

  lemma {:induction false} StaysAt(r: string, times: nat)
    requires Normalize(r) == r
    ensures Repeated(r, times) == r
    decreases times
  {
    hide Normalize, Limit;
    if times > 0 {
      StaysAt(r, times - 1);
    }
  }

  /** From any text, as many steps as it has characters, and one more, arrive at the
    * limit, which no further step changes. */
  lemma RepetitionConverges(p: string, times: nat)
    requires times > |p|
    ensures Repeated(p, times) == Limit(p)
    ensures Normalize(Limit(p)) == Limit(p)
  {
    hide Limit;
    NormalizeShape(p);
    LimitKept(p);
    NormalizeShorter(p);
    hide Normalize;
    ReachesFrom(Normalize(p), times - 1);
    ReachesFrom(Normalize(p), times);
    RepeatedOnce(p, times);
  }

  lemma NormalizeShorter(p: string)
    ensures |Normalize(p)| <= |p| + 1
  {
    var a, c, d, b := Parts(p);
    hide Stripped;
  }

  lemma {:induction false} RepeatedOnce(p: string, times: nat)
    ensures Repeated(p, times + 1) == Normalize(Repeated(p, times))
    decreases times
  {
    hide Normalize, Limit;
    if times > 0 {
      RepeatedOnce(Normalize(p), times - 1);
    }
  }

  /** One step is not always enough. */
  lemma OneStepNotEnough()
    ensures Normalize("/foo / /") == "/foo / " && Normalize("/foo / ") == "/foo "
    ensures Normalize("/foo ") == "/foo" == Limit("/foo / /")
  {
    hide Normalize, Limit, TrimRight;
    StepFirst();
    StepSecond();
    StepThird();
    LimitKept("/foo / /");
    LimitKept("/foo / ");
    LimitKept("/foo ");
  }

  lemma StepFirst()
    ensures Normalize("/foo / /") == "/foo / "
  {
    hide Normalize;
    NormalizeOf("", "/", "foo / ", "/", "");
    assert "" + ("/" + ("foo / " + ("/" + ""))) == "/foo / /";
  }

  lemma StepSecond()
    ensures Normalize("/foo / ") == "/foo "
  {
    hide Normalize;
    NormalizeOf("", "/", "foo ", "/", " ");
    assert "" + ("/" + ("foo " + ("/" + " "))) == "/foo / ";
  }

  lemma StepThird()
    ensures Normalize("/foo ") == "/foo" == Limit("/foo")
  {
    hide Normalize, Limit;
    NormalizeOf("", "/", "foo", "", " ");
    assert "" + ("/" + ("foo" + ("" + " "))) == "/foo ";
    RightIs("foo", Either);
    hide TrimRight;
    LimitOfRooted("foo");
    assert Rooted("foo") == "/foo";
  }

  /** Any way to cut a text into blanks, slashes, a core, slashes and blanks is the
    * way taken. */
  lemma NormalizeOf(a: string, c: string, q: string, d: string, b: string)
    requires All(a, Blanks) && All(c, Slashes) && All(d, Slashes) && All(b, Blanks)
    requires q != "" && q[0] != '/' && q[|q| - 1] != '/'
    requires c != "" || !IsSpace(q[0])
    requires d != "" || !IsSpace(q[|q| - 1])
    ensures Normalize(a + (c + (q + (d + b)))) == "/" + q
  {
    hide TrimLeft, TrimRight;
    var p, v := a + (c + (q + (d + b))), c + (q + d);
    assert p == a + (v + b);
    TrimLeftIs(a, v + b, Blanks);
    TrimRightDrops(v, b, Blanks);
    RightIs(v, Blanks);
    TrimLeftIs(c, q + d, Slashes);
    TrimRightDrops(q, d, Slashes);
    RightIs(q, Slashes);
  }
}

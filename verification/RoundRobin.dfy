/** Load distribution of one listener: its private counter, the cyclic scan of
  * `pickWorker`, and how many connections each worker receives while the set of
  * usable workers does not change.
  */
module RoundRobin {
  import opened Options
  import opened WorkerPool
  import opened Modular

  /** What the scan tests: the healthy flag, then a non-nil client. */
  predicate Usable(w: Worker) { w.healthy && w.client.Some? }

  function UsableSet(ws: seq<Worker>): (us: seq<bool>)
    ensures |us| == |ws|
    ensures forall i :: 0 <= i < |ws| ==> us[i] == Usable(ws[i])
  {
    seq(|ws|, i requires 0 <= i < |ws| => Usable(ws[i]))
  }

  lemma SpotOfSpot(a: int, b: int, n: nat)
    requires n >= 1
    ensures Spot(Spot(a, n) + b, n) == Spot(a + b, n)
  {
    AddInside(a, b, n);
  }

  lemma SpotInRange(x: int, n: nat)
    requires 0 - n <= x < 2 * n && n >= 1
    ensures Spot(x, n) == if x < 0 then x + n else if x < n then x else x - n
  {
    var q := if x < 0 then -1 else if x < n then 0 else 1;
    RemainderIs(x, n, q, x - n * q);
  }

  predicate UsableAt(us: seq<bool>, x: int)
    requires |us| >= 1
  {
    us[Spot(x, |us|)]
  }

  /** j is the first usable worker at or cyclically after position `start`, and i
    * is how many workers the scan passes over to reach it. */
  ghost predicate FirstUsable(us: seq<bool>, start: nat, i: nat, j: nat) {
    && i < |us|
    && j == Spot(start + i, |us|)
    && us[j]
    && forall p :: start <= p < start + i ==> !UsableAt(us, p)
  }

  /** The scan over a pool that does not change meanwhile. */
  method PickWorker(workers: array<Worker>, start: nat) returns (c: Option<Client>)
    ensures c.None? ==> forall j :: 0 <= j < workers.Length ==> !Usable(workers[j])
    ensures c.Some? ==> exists i: nat, j: nat ::
                FirstUsable(UsableSet(workers[..]), start, i, j) && workers[j].client == c
  {
    var n := workers.Length;
    ghost var us := UsableSet(workers[..]);
    for i := 0 to n
      invariant forall p :: start <= p < start + i ==> !UsableAt(us, p)
    {
      var w := workers[(start + i) % n];
      assert (start + i) % n == Spot(start + i, n);
      if w.healthy {
        if w.client.Some? {
          assert FirstUsable(us, start, i, Spot(start + i, n));
          return w.client;
        }
      }
    }
    forall j: nat | j < n
      ensures !us[j]
    {
      Reaches(start, j, n);
      assert !UsableAt(us, start + Spot(j - start, n));
    }
    return None;
  }

  /** What ln.Accept returns: a connection, or an error with the context cancelled by
    * then or not. */
  datatype AcceptResult = Connected | Failed(cancelled: bool)

  /** Connections accepted before the loop returns. */
  function Accepted(rs: seq<AcceptResult>): nat {
    if rs == [] || rs[0] == Failed(true) then 0
    else (if rs[0].Connected? then 1 else 0) + Accepted(rs[1..])
  }

  /** That is, up to the first failure after cancellation. */
  lemma {:induction false} AcceptedCounts(rs: seq<AcceptResult>, k: nat)
    requires k <= |rs| && (forall i :: 0 <= i < k ==> rs[i] != Failed(true)) && (k < |rs| ==> rs[k] == Failed(true))
    ensures Accepted(rs) == multiset(rs[..k])[Connected]
  {
    if k > 0 {
      AcceptedCounts(rs[1..], k - 1);
      assert rs[..k] == [rs[0]] + rs[1..][..k - 1];
    }
  }

  /** The accept loop: a failed accept ends it after cancellation, and is retried without
    * moving the counter before, so the accepted connections start their scans at 1, 2,
    * 3, ... */
  method AcceptLoop(rs: seq<AcceptResult>) returns (starts: seq<nat>)
    ensures |starts| == Accepted(rs)
    ensures forall k :: 0 <= k < |starts| ==> starts[k] == k + 1
  {
    var rr := 0;
    starts := [];
    for i := 0 to |rs|
      invariant rr == |starts| && |starts| + Accepted(rs[i..]) == Accepted(rs)
      invariant forall k :: 0 <= k < |starts| ==> starts[k] == k + 1
    {
      assert rs[i..][1..] == rs[i + 1..];
      if rs[i].Failed? {
        if rs[i].cancelled {
          return;
        }
        continue;
      }
      rr := rr + 1;
      starts := starts + [rr];
    }
  }

  // ---- The load law ----

  /** Worker j gets the connection whose scan begins at `start`. */
  ghost predicate Gets(us: seq<bool>, start: nat, j: nat) {
    exists i :: FirstUsable(us, start, i, j)
  }

  function GapFrom(us: seq<bool>, j: nat, g: nat): (r: nat)
    requires j < |us| && us[j] && 1 <= g <= |us|
    ensures g <= r <= |us| && UsableAt(us, j - r)
    ensures forall p :: j - r < p <= j - g ==> !UsableAt(us, p)
    decreases |us| - g
  {
    hide Spot;
    if UsableAt(us, j - g) then g
    else
      SpotInRange(j - g, |us|);
      GapFrom(us, j, g + 1)
  }

  /** The cyclic distance from usable worker j back to the usable worker before it
    * (the number of workers when j is the only one). */
  function Gap(us: seq<bool>, j: nat): (g: nat)
    requires j < |us| && us[j]
    ensures 1 <= g <= |us|
  {
    GapFrom(us, j, 1)
  }

  lemma Reaches(start: nat, j: nat, n: nat)
    requires j < n
    ensures Spot(start + Spot(j - start, n), n) == j
  {
    SpotOfSpot(j - start, start, n);
    SpotInRange(j, n);
  }

  /** Position start + (d - x), where d is the way from start to j, is the spot x
    * before j. */
  lemma StepsBack(start: nat, j: nat, n: nat, x: int)
    requires j < n
    ensures Spot(start + (Spot(j - start, n) - x), n) == Spot(j - x, n)
  {
    hide Spot;
    SpotOfSpot(j - start, start - x, n);
  }

  lemma OffsetIsDistance(us: seq<bool>, start: nat, i: nat, j: nat)
    requires FirstUsable(us, start, i, j)
    ensures i == Spot(j - start, |us|)
  {
    hide Spot;
    SpotOfSpot(start + i, 0 - start, |us|);
    SpotInRange(i, |us|);
  }

  /** Worker j gets a connection iff its scan begins less than a gap before j. */
  lemma GetsIffNear(us: seq<bool>, start: nat, j: nat)
    requires j < |us| && us[j]
    ensures Gets(us, start, j) <==> Spot(j - start, |us|) < Gap(us, j)
  {
    var n, g := |us|, Gap(us, j);
    var d := Spot(j - start, n);
    hide Spot;
    Reaches(start, j, n);
    if d < g {
      forall p | start <= p < start + d
        ensures !UsableAt(us, p)
      {
        StepsBack(start, j, n, d - (p - start));
        assert !UsableAt(us, j - (d - (p - start)));
      }
      assert FirstUsable(us, start, d, j);
    } else {
      StepsBack(start, j, n, g);
      assert UsableAt(us, start + (d - g));
      if i: nat :| FirstUsable(us, start, i, j) {
        OffsetIsDistance(us, start, i, j);
        assert false;
      }
    }
  }

  /** Connections worker j gets among the accepts s+1 .. s+m. */
  ghost function Load(us: seq<bool>, j: nat, s: nat, m: nat): nat {
    if m == 0 then 0 else Load(us, j, s, m - 1) + (if Gets(us, s + m, j) then 1 else 0)
  }

  function Max0(x: int): nat { if x < 0 then 0 else x }

  function Min(x: int, y: int): int { if x <= y then x else y }

  /** Load of the first m <= n accepts after s in closed form; d is how far the
    * counter value s lies before j. */
  function Partial(d: nat, g: nat, n: nat, m: nat): int {
    if m <= d then Max0(m - Max0(d - g))
    else Min(d, g) + Max0(m - (n + d - g))
  }

  lemma {:induction false} WithinOneTurn(us: seq<bool>, j: nat, s: nat, m: nat)
    requires j < |us| && us[j] && m <= |us|
    ensures Load(us, j, s, m) == Partial(Spot(j - s, |us|), Gap(us, j), |us|, m)
  {
    if m > 0 {
      hide Spot, Gap, Gets;
      var n, d := |us|, Spot(j - s, |us|);
      WithinOneTurn(us, j, s, m - 1);
      GetsIffNear(us, s + m, j);
      SpotOfSpot(j - s, 0 - m, n);
      SpotInRange(d - m, n);
    }
  }

  lemma {:induction false} LoadSplits(us: seq<bool>, j: nat, s: nat, a: nat, b: nat)
    ensures Load(us, j, s, a + b) == Load(us, j, s, a) + Load(us, j, s + a, b)
  {
    if b > 0 {
      LoadSplits(us, j, s, a, b - 1);
    }
  }

  /** Any n consecutive accepts of a listener give each usable worker exactly its
    * gap. */
  lemma OneTurnGivesGap(us: seq<bool>, j: nat, s: nat)
    requires j < |us| && us[j]
    ensures Load(us, j, s, |us|) == Gap(us, j)
  {
    WithinOneTurn(us, j, s, |us|);
  }

  lemma PartialBound(d: nat, g: nat, n: nat, m: nat)
    requires 1 <= g <= n && d < n && m <= n
    ensures 0 <= Partial(d, g, n, m) <= Min(g, m)
  {
  }

  /** Over q full turns and r further accepts a worker gets q times its gap, and
    * then at most the smaller of its gap and r. */
  lemma {:induction false} LoadLaw(us: seq<bool>, j: nat, s: nat, q: nat, r: nat)
    requires j < |us| && us[j] && r < |us|
    ensures q * Gap(us, j) <= Load(us, j, s, q * |us| + r) <= q * Gap(us, j) + Min(Gap(us, j), r)
    decreases q
  {
    hide Gap, Spot, Gets, Load, Partial, Min;
    var n, g := |us|, Gap(us, j);
    if q == 0 {
      assert q * n + r == r && q * g == 0;
      WithinOneTurn(us, j, s, r);
      PartialBound(Spot(j - s, n), g, n, r);
    } else {
      assert q * n + r == n + ((q - 1) * n + r) && q * g == g + (q - 1) * g;
      LoadLaw(us, j, s + n, q - 1, r);
      OneTurnGivesGap(us, j, s);
      LoadSplits(us, j, s, n, (q - 1) * n + r);
    }
  }

  lemma GapOne(us: seq<bool>, j: nat)
    requires j < |us| && forall i :: 0 <= i < |us| ==> us[i]
    ensures Gap(us, j) == 1
  {
    hide Spot;
    assert UsableAt(us, j - 1);
  }

  /** With every worker usable, m accepts give each worker m/n rounded down or up. */
  lemma AllUsableIsFair(us: seq<bool>, j: nat, s: nat, m: nat)
    requires j < |us| && forall i :: 0 <= i < |us| ==> us[i]
    ensures m / |us| <= Load(us, j, s, m) <= (m + |us| - 1) / |us|
  {
    hide Gap, Load;
    GapOne(us, j);
    DivideUp(m, |us|);
    var q, r := m / |us|, m % |us|;
    LoadLaw(us, j, s, q, r);
  }

  // ---- Nothing is lost: the loads add up ----

  ghost function LoadSum(us: seq<bool>, k: nat, s: nat, m: nat): nat {
    if k == 0 then 0 else LoadSum(us, k - 1, s, m) + Load(us, k - 1, s, m)
  }

  lemma {:induction false} LoadSumStep(us: seq<bool>, k: nat, s: nat, m: nat, j: nat)
    requires m > 0 && Gets(us, s + m, j)
    ensures LoadSum(us, k, s, m) == LoadSum(us, k, s, m - 1) + (if j < k then 1 else 0)
  {
    if k > 0 {
      LoadSumStep(us, k - 1, s, m, j);
      if Gets(us, s + m, k - 1) {
        OnlyOneGets(us, s + m, j, k - 1);
      }
    }
  }

  lemma OnlyOneGets(us: seq<bool>, start: nat, j: nat, k: nat)
    requires Gets(us, start, j) && Gets(us, start, k)
    ensures j == k
  {
    hide Spot;
    var a :| FirstUsable(us, start, a, j);
    var b :| FirstUsable(us, start, b, k);
    assert UsableAt(us, start + a) && UsableAt(us, start + b);
  }

  lemma {:induction false} SomeoneGets(us: seq<bool>, start: nat, x: nat, d: nat)
    requires x + d < |us| && UsableAt(us, start + x + d)
    requires forall p :: start <= p < start + x ==> !UsableAt(us, p)
    ensures exists j: nat :: j < |us| && Gets(us, start, j)
    decreases d
  {
    hide Spot;
    if UsableAt(us, start + x) {
      assert FirstUsable(us, start, x, Spot(start + x, |us|));
      assert Gets(us, start, Spot(start + x, |us|));
    } else {
      SomeoneGets(us, start, x + 1, d - 1);
    }
  }

  lemma {:induction false} LoadsAddUp(us: seq<bool>, s: nat, m: nat, w: nat)
    requires w < |us| && us[w]
    ensures LoadSum(us, |us|, s, m) == m
  {
    if m == 0 {
      ZeroLoads(us, |us|, s);
    } else {
      LoadsAddUp(us, s, m - 1, w);
      Reaches(s + m, w, |us|);
      SomeoneGets(us, s + m, 0, Spot(w - (s + m), |us|));
      var j: nat :| j < |us| && Gets(us, s + m, j);
      LoadSumStep(us, |us|, s, m, j);
    }
  }

  lemma {:induction false} ZeroLoads(us: seq<bool>, k: nat, s: nat)
    ensures LoadSum(us, k, s, 0) == 0
  {
    if k > 0 {
      ZeroLoads(us, k - 1, s);
    }
  }

  function GapSum(us: seq<bool>, k: nat): nat
    requires k <= |us|
  {
    if k == 0 then 0 else GapSum(us, k - 1) + (if us[k - 1] then Gap(us, k - 1) else 0)
  }

  lemma {:induction false} LoadSumIsGapSum(us: seq<bool>, k: nat, s: nat)
    requires k <= |us|
    ensures LoadSum(us, k, s, |us|) == GapSum(us, k)
  {
    if k > 0 {
      LoadSumIsGapSum(us, k - 1, s);
      if us[k - 1] {
        OneTurnGivesGap(us, k - 1, s);
      } else {
        UnusableGetsNothing(us, k - 1, s, |us|);
      }
    }
  }

  lemma {:induction false} UnusableGetsNothing(us: seq<bool>, j: nat, s: nat, m: nat)
    requires j < |us| && !us[j]
    ensures Load(us, j, s, m) == 0
  {
    if m > 0 {
      UnusableGetsNothing(us, j, s, m - 1);
    }
  }

  /** The gaps of the usable workers add up to the number of workers. */
  lemma GapsSumToWorkers(us: seq<bool>, w: nat)
    requires w < |us| && us[w]
    ensures GapSum(us, |us|) == |us|
  {
    LoadSumIsGapSum(us, |us|, 0);
    LoadsAddUp(us, 0, |us|, w);
  }
}

/** The load law inside the step system: while the workers stay as they are, the scans of
  * a run, however they interleave, give each worker the connections counted by Load.
  */
module Distribution {
  import opened Options
  import opened Modular
  import opened WorkerPool
  import opened TunnelRunner
  import opened RoundRobin

  /** The workers stay as they are from state a on. */
  ghost predicate Steady(ss: seq<Sys>, a: nat) {
    a < |ss| && forall m :: a <= m < |ss| ==> ss[m].pool.workers == ss[a].pool.workers
  }

  // ---- One scan ----

  /** Where a scan over steady workers can stand. */
  ghost predicate ScanSteady(ws: seq<Worker>, k: Handler) {
    var us := UsableSet(ws);
    match k.pc
    case Testing(i) => i <= |ws| && forall p :: k.start <= p < k.start + i ==> !UsableAt(us, p)
    case Fetching(i) =>
      i < |ws| && ws[Spot(k.start + i, |ws|)].healthy && forall p :: k.start <= p < k.start + i ==> !UsableAt(us, p)
    case Opening(c) => exists j: nat :: j < |ws| && Gets(us, k.start, j) && ws[j].client == Some(c)
    case NoWorker => forall p :: k.start <= p < k.start + |ws| ==> !UsableAt(us, p)
    case _ => true
  }

  lemma ScanStep(s: Sys, h: nat, ok: bool, t: Sys)
    requires h < |s.handlers| && |s.pool.workers| >= 1 && HandleStep(s, h, ok) == Some(t)
    requires ScanSteady(s.pool.workers, s.handlers[h])
    ensures h < |t.handlers| && t.handlers[h].start == s.handlers[h].start
    ensures ScanSteady(s.pool.workers, t.handlers[h])
  {
    hide Spot;
    var ws, k := s.pool.workers, s.handlers[h];
    var us := UsableSet(ws);
    if k.pc.Fetching? && ws[Spot(k.start + k.pc.i, |ws|)].client.Some? {
      var j := Spot(k.start + k.pc.i, |ws|);
      assert FirstUsable(us, k.start, k.pc.i, j);
      assert Gets(us, k.start, j);
    }
  }

  lemma {:induction false} ScanStays(ss: seq<Sys>, es: seq<Step>, h: nat, a: nat, x: nat, m: nat)
    requires IsRun(ss, es) && Steady(ss, a) && a <= x <= m < |ss|
    requires h < |ss[x].handlers| && ss[x].handlers[h].pc == Testing(0)
    ensures h < |ss[m].handlers| && ss[m].handlers[h].start == ss[x].handlers[h].start
    ensures ScanSteady(ss[a].pool.workers, ss[m].handlers[h])
    decreases m
  {
    if x < m {
      hide Do, ScanSteady, HandleStep, Start;
      ScanStays(ss, es, h, a, x, m - 1);
      var s, e, t := ss[m - 1], es[m - 1], ss[m];
      if e.Handle? && e.h == h {
        OwnStep(s, e, t);
        ScanStep(s, h, e.ok, t);
      } else {
        StepElsewhere(s, e, t, h);
        OtherScan(ss[a].pool.workers, s.handlers[h], t.handlers[h]);
      }
    } else {
      hide Spot, Do, Start;
    }
  }

  lemma OtherScan(ws: seq<Worker>, k: Handler, k2: Handler)
    requires ScanSteady(ws, k) && k2.start == k.start
    requires k2.pc == k.pc || (k2.pc.Serving? && k.pc.Serving?)
    ensures ScanSteady(ws, k2)
  {
    hide Gets, Spot, UsableAt;
  }

  // ---- One connection ----

  /** Handler h's scan returned this client. */
  ghost predicate Returned(ss: seq<Sys>, h: nat, c: Client) {
    exists m :: 0 <= m < |ss| && h < |ss[m].handlers| && ss[m].handlers[h].pc == Opening(c)
  }

  /** Handler h's scan has returned. */
  ghost predicate Finished(ss: seq<Sys>, h: nat) {
    exists m :: 0 <= m < |ss| && h < |ss[m].handlers|
                && (ss[m].handlers[h].pc.Opening? || ss[m].handlers[h].pc == NoWorker)
  }

  /** Usable workers have different clients. */
  lemma OwnClients(ss: seq<Sys>, es: seq<Step>, m: nat, i: nat, j: nat)
    requires IsRun(ss, es) && m < |ss| && i < |ss[m].pool.workers| && j < |ss[m].pool.workers|
    requires ss[m].pool.workers[i].client.Some? && ss[m].pool.workers[i].client == ss[m].pool.workers[j].client
    ensures i == j
  {
    RunInv(ss, es, m);
    var p := ss[m].pool;
    assert AtomicsOk(p.workers[i]) && AtomicsOk(p.workers[j]);
    assert HeldBy(p, p.workers[i].client.value, i) && HeldBy(p, p.workers[i].client.value, j);
  }

  lemma {:induction false} HandlersStay(ss: seq<Sys>, es: seq<Step>, x: nat, m: nat)
    requires IsRun(ss, es) && x <= m < |ss|
    ensures |ss[x].handlers| <= |ss[m].handlers|
    decreases m
  {
    if x < m {
      HandlersStay(ss, es, x, m - 1);
      HandlersGrow(ss[m - 1], es[m - 1], ss[m]);
    }
  }

  lemma HandlersGrow(s: Sys, e: Step, t: Sys)
    requires Do(s, e) == Some(t)
    ensures |s.handlers| <= |t.handlers| <= |s.handlers| + (if e.Accept? then 1 else 0)
  {
    hide HandleStep, CopyStep, FlushStep, Next;
    if e.Handle? {
      OneHandlerMoves(s, e.h, e.ok, t);
    } else if e.Copy? {
      OneCopyMoves(s, e.h, e.upload, e.k, t);
    } else if e.Flush? {
      FlushAlone(s, e.ok);
    }
  }

  lemma AcceptAdds(s: Sys, e: Step, t: Sys)
    requires Do(s, e) == Some(t) && e.Accept?
    ensures e.l < |s.rrs| && t.handlers == s.handlers + [Handler(s.rrs[e.l] + 1, Testing(0))]
  {
  }

  /** The connection accepted at step x over steady workers: once its scan has returned, it
    * went to usable worker j iff j is the one its starting point gets. */
  lemma ConnectionGets(ss: seq<Sys>, es: seq<Step>, a: nat, x: nat, j: nat)
    requires IsRun(ss, es) && Steady(ss, a) && a <= x < |es| && es[x].Accept?
    requires j < |ss[a].pool.workers| && Usable(ss[a].pool.workers[j])
    requires Finished(ss, |ss[x].handlers|)
    ensures es[x].l < |ss[x].rrs|
    ensures Returned(ss, |ss[x].handlers|, ss[a].pool.workers[j].client.value) <==>
            Gets(UsableSet(ss[a].pool.workers), ss[x].rrs[es[x].l] + 1, j)
  {
    var h, ws := |ss[x].handlers|, ss[a].pool.workers;
    AcceptAdds(ss[x], es[x], ss[x + 1]);
    var start := ss[x].rrs[es[x].l] + 1;
    hide IsRun, Steady, ScanSteady, Gets, UsableSet, UsableAt, Usable;
    forall m | 0 <= m < |ss| && h < |ss[m].handlers|
      ensures m > x && ss[m].handlers[h].start == start && ScanSteady(ws, ss[m].handlers[h])
    {
      if m <= x {
        HandlersStay(ss, es, m, x);
      }
      ScanStays(ss, es, h, a, x + 1, m);
    }
    assert ss[a].pool.workers == ws;
    forall m, c | 0 <= m < |ss| && h < |ss[m].handlers| && ss[m].handlers[h].pc == Opening(c)
      ensures Gets(UsableSet(ws), start, j) <==> c == ws[j].client.value
    {
      var i := OpenedFor(ws, ss[m].handlers[h], c);
      if Gets(UsableSet(ws), start, j) {
        OnlyOneGets(UsableSet(ws), start, i, j);
      }
      UsableHasClient(ws[j]);
      if c == ws[j].client.value {
        OwnClients(ss, es, a, i, j);
      }
    }
    forall m | 0 <= m < |ss| && h < |ss[m].handlers| && ss[m].handlers[h].pc == NoWorker
      ensures !Gets(UsableSet(ws), start, j)
    {
      NoneGets(ws, ss[m].handlers[h], j);
    }
  }

  lemma UsableHasClient(w: Worker)
    requires Usable(w)
    ensures w.client.Some?
  {
  }

  lemma OpenedFor(ws: seq<Worker>, k: Handler, c: Client) returns (j: nat)
    requires ScanSteady(ws, k) && k.pc == Opening(c)
    ensures j < |ws| && Gets(UsableSet(ws), k.start, j) && ws[j].client == Some(c)
  {
    j :| j < |ws| && Gets(UsableSet(ws), k.start, j) && ws[j].client == Some(c);
  }

  lemma NoneGets(ws: seq<Worker>, k: Handler, j: nat)
    requires ScanSteady(ws, k) && k.pc == NoWorker
    ensures !Gets(UsableSet(ws), k.start, j)
  {
    hide Spot;
    var us := UsableSet(ws);
    forall i: nat
      ensures !FirstUsable(us, k.start, i, j)
    {
      assert i < |ws| ==> !UsableAt(us, k.start + i);
    }
  }

  // ---- All connections of a listener ----

  /** Accepts of listener l in steps a to b - 1. */
  function Accepts(es: seq<Step>, l: nat, a: nat, b: nat): nat
    requires a <= b <= |es|
    decreases b
  {
    if a == b then 0 else Accepts(es, l, a, b - 1) + (if es[b - 1] == Accept(l) then 1 else 0)
  }

  lemma {:induction false} CounterCounts(ss: seq<Sys>, es: seq<Step>, l: nat, a: nat, b: nat)
    requires IsRun(ss, es) && a <= b <= |es| && l < |ss[a].rrs|
    ensures |ss[b].rrs| == |ss[a].rrs| && ss[b].rrs[l] == ss[a].rrs[l] + Accepts(es, l, a, b)
    decreases b
  {
    hide Do, Start;
    if a < b {
      CounterCounts(ss, es, l, a, b - 1);
      CounterStep(ss[b - 1], es[b - 1], ss[b]);
    }
  }

  lemma CounterStep(s: Sys, e: Step, t: Sys)
    requires Do(s, e) == Some(t)
    ensures t.rrs == if e.Accept? && e.l < |s.rrs| then s.rrs[e.l := s.rrs[e.l] + 1] else s.rrs
  {
    hide Next;
  }

  /** How many connections that listener l accepted in steps a to b - 1 went to worker j. */
  ghost function Received(ss: seq<Sys>, es: seq<Step>, l: nat, a: nat, b: nat, c: Client): nat
    requires |ss| == |es| + 1 && a <= b <= |es|
    decreases b
  {
    if a == b then 0
    else Received(ss, es, l, a, b - 1, c)
         + (if es[b - 1] == Accept(l) && Returned(ss, |ss[b - 1].handlers|, c) then 1 else 0)
  }

  /** The scans of those connections have returned. */
  ghost predicate AllFinished(ss: seq<Sys>, es: seq<Step>, l: nat, a: nat, b: nat)
    requires |ss| == |es| + 1 && a <= b <= |es|
  {
    forall x :: a <= x < b && es[x] == Accept(l) ==> Finished(ss, |ss[x].handlers|)
  }

  lemma FinishedBefore(ss: seq<Sys>, es: seq<Step>, l: nat, a: nat, b: nat)
    requires |ss| == |es| + 1 && a < b <= |es| && AllFinished(ss, es, l, a, b)
    ensures AllFinished(ss, es, l, a, b - 1)
    ensures es[b - 1] == Accept(l) ==> Finished(ss, |ss[b - 1].handlers|)
  {
    hide Finished;
  }

  /** In any run whose workers stay as they are from state a on, a listener's accepts from
    * there give a usable worker, once their scans have returned, exactly its load. */
  lemma {:induction false} ReceivedIsLoad(ss: seq<Sys>, es: seq<Step>, l: nat, a: nat, b: nat, j: nat)
    requires IsRun(ss, es) && Steady(ss, a) && a <= b <= |es| && l < |ss[a].rrs|
    requires j < |ss[a].pool.workers| && Usable(ss[a].pool.workers[j])
    requires AllFinished(ss, es, l, a, b)
    ensures ss[a].pool.workers[j].client.Some?
    ensures Received(ss, es, l, a, b, ss[a].pool.workers[j].client.value) ==
            Load(UsableSet(ss[a].pool.workers), j, ss[a].rrs[l], Accepts(es, l, a, b))
    decreases b
  {
    assert a < |ss|;
    LengthOfRun(ss, es);
    hide IsRun, Steady, Finished, AllFinished, Gets, UsableSet, Usable, Load, Received, Accepts;
    UsableHasClient(ss[a].pool.workers[j]);
    if a < b {
      FinishedBefore(ss, es, l, a, b);
      ReceivedIsLoad(ss, es, l, a, b - 1, j);
      ReceivedStep(ss, es, l, a, b, j);
    } else {
      NothingYet(ss, es, l, a, ss[a].pool.workers[j].client.value, UsableSet(ss[a].pool.workers), j, ss[a].rrs[l]);
    }
  }

  lemma ReceivedStep(ss: seq<Sys>, es: seq<Step>, l: nat, a: nat, b: nat, j: nat)
    requires IsRun(ss, es) && Steady(ss, a) && |ss| == |es| + 1 && a < b <= |es| && l < |ss[a].rrs|
    requires j < |ss[a].pool.workers| && Usable(ss[a].pool.workers[j]) && ss[a].pool.workers[j].client.Some?
    requires es[b - 1] == Accept(l) ==> Finished(ss, |ss[b - 1].handlers|)
    requires Received(ss, es, l, a, b - 1, ss[a].pool.workers[j].client.value) ==
             Load(UsableSet(ss[a].pool.workers), j, ss[a].rrs[l], Accepts(es, l, a, b - 1))
    ensures Received(ss, es, l, a, b, ss[a].pool.workers[j].client.value) ==
            Load(UsableSet(ss[a].pool.workers), j, ss[a].rrs[l], Accepts(es, l, a, b))
  {
    hide IsRun, Steady, Finished, Returned, Gets, UsableSet, Usable, Load, Received, Accepts;
    var us, c, s, n := UsableSet(ss[a].pool.workers), ss[a].pool.workers[j].client.value, ss[a].rrs[l],
                       Accepts(es, l, a, b - 1);
    OneMoreStep(ss, es, l, a, b, c);
    LoadMore(us, j, s, n);
    if es[b - 1] == Accept(l) {
      LastGets(ss, es, l, a, b, j);
    }
  }

  lemma LastGets(ss: seq<Sys>, es: seq<Step>, l: nat, a: nat, b: nat, j: nat)
    requires IsRun(ss, es) && Steady(ss, a) && a < b <= |es| && l < |ss[a].rrs|
    requires j < |ss[a].pool.workers| && Usable(ss[a].pool.workers[j]) && ss[a].pool.workers[j].client.Some?
    requires es[b - 1] == Accept(l) && Finished(ss, |ss[b - 1].handlers|)
    ensures Returned(ss, |ss[b - 1].handlers|, ss[a].pool.workers[j].client.value) <==>
            Gets(UsableSet(ss[a].pool.workers), ss[a].rrs[l] + Accepts(es, l, a, b - 1) + 1, j)
  {
    hide IsRun, Steady, Finished, Returned, Gets, UsableSet, Usable, Accepts;
    CounterCounts(ss, es, l, a, b - 1);
    ConnectionGets(ss, es, a, b - 1, j);
  }

  lemma NothingYet(ss: seq<Sys>, es: seq<Step>, l: nat, a: nat, c: Client, us: seq<bool>, j: nat, s: nat)
    requires |ss| == |es| + 1 && a <= |es|
    ensures Received(ss, es, l, a, a, c) == 0 == Load(us, j, s, Accepts(es, l, a, a))
  {
  }

  lemma OneMoreStep(ss: seq<Sys>, es: seq<Step>, l: nat, a: nat, b: nat, c: Client)
    requires |ss| == |es| + 1 && a < b <= |es|
    ensures Accepts(es, l, a, b) == Accepts(es, l, a, b - 1) + (if es[b - 1] == Accept(l) then 1 else 0)
    ensures Received(ss, es, l, a, b, c) ==
            Received(ss, es, l, a, b - 1, c)
            + (if es[b - 1] == Accept(l) && Returned(ss, |ss[b - 1].handlers|, c) then 1 else 0)
  {
    hide Returned;
  }

  lemma LoadMore(us: seq<bool>, j: nat, s: nat, m: nat)
    ensures Load(us, j, s, m + 1) == Load(us, j, s, m) + (if Gets(us, s + m + 1, j) then 1 else 0)
  {
    hide Gets;
  }

  lemma LengthOfRun(ss: seq<Sys>, es: seq<Step>)
    requires IsRun(ss, es)
    ensures |ss| == |es| + 1
  {
  }

  /** So with every worker usable m accepts give each m/n rounded down or up, in every
    * interleaving of their scans. */
  lemma RunIsFair(ss: seq<Sys>, es: seq<Step>, l: nat, a: nat, b: nat, j: nat)
    requires IsRun(ss, es) && Steady(ss, a) && a <= b <= |es| && l < |ss[a].rrs|
    requires j < |ss[a].pool.workers| && forall i :: 0 <= i < |ss[a].pool.workers| ==> Usable(ss[a].pool.workers[i])
    requires AllFinished(ss, es, l, a, b)
    ensures ss[a].pool.workers[j].client.Some?
    ensures var n, m := |ss[a].pool.workers|, Accepts(es, l, a, b);
            m / n <= Received(ss, es, l, a, b, ss[a].pool.workers[j].client.value) <= (m + n - 1) / n
  {
    assert a < |ss|;
    hide IsRun, Steady, AllFinished, Received, Accepts, Load;
    ReceivedIsLoad(ss, es, l, a, b, j);
    AllUsableIsFair(UsableSet(ss[a].pool.workers), j, ss[a].rrs[l], Accepts(es, l, a, b));
  }
}

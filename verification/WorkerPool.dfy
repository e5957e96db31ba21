/** The SSH worker pool of one running tunnel: the maintainer goroutines of
  * `maintainWorker`, the clients they dial, and the shutdown sweep of `Run`.
  *
  * Every atomic load or store is one step, and steps of different goroutines
  * interleave arbitrarily.  Dials succeed or fail, keepalives return and the
  * context is cancelled at any moment.
  */
module WorkerPool {
  import opened Options

  // Clients are numbered in the order in which their dials succeed.
  type Client = nat

  /** Where a maintainer goroutine stands; the argument is its local `client`. */
  datatype Pc =
    | Head                    // about to test ctx.Err()
    | Dialling                // inside r.dial()
    | Backoff                 // inside the select that waits for ctx or the timer
    | Publishing(c: Client)   // about to store the client pointer
    | Marking(c: Client)      // about to store healthy = true
    | Serving(c: Client)      // inside keepalive
    | Unmarking(c: Client)    // about to store healthy = false
    | Clearing(c: Client)     // about to store a nil client pointer
    | Closing(c: Client)      // about to close the client
    | Exited

  datatype Worker = Worker(pc: Pc, client: Option<Client>, healthy: bool)

  /** Where the goroutine of `Run` stands in its sweep over the workers. */
  datatype SweepPc =
    | Waiting                          // before ctx.Done()
    | Loading(i: nat)                  // about to load the pointer of worker i
    | Shutting(i: nat, c: Client)      // about to close the client it loaded
    | Swept

  datatype Pool = Pool(
    workers: seq<Worker>, cancelled: bool, dialled: nat, closed: set<Client>, sweep: SweepPc)

  /** `choice` resolves what the environment decides: whether a dial succeeds and
    * which branch of the backoff select fires. */
  datatype Event = Maintain(w: nat, choice: bool) | Cancel | Sweep

  ghost predicate Init(p: Pool) {
    && |p.workers| >= 1
    && (forall i :: 0 <= i < |p.workers| ==> p.workers[i] == Worker(Head, None, false))
    && p.dialled == 0 && p.closed == {} && p.sweep == Waiting
  }

  function Put(p: Pool, w: nat, k: Worker): Pool
    requires w < |p.workers|
  {
    p.(workers := p.workers[w := k])
  }

  /** One step of maintainer `w`; None when the goroutine is blocked or gone. */
  function MaintainStep(p: Pool, w: nat, choice: bool): Option<Pool>
    requires w < |p.workers|
  {
    var k := p.workers[w];
    match k.pc
    case Head => Some(Put(p, w, k.(pc := if p.cancelled then Exited else Dialling)))
    case Dialling =>
      if choice then
        Some(Put(p, w, k.(pc := Publishing(p.dialled))).(dialled := p.dialled + 1))
      else
        Some(Put(p, w, k.(pc := Backoff)))
    case Backoff =>
      if choice then Some(Put(p, w, k.(pc := Head)))
      else if p.cancelled then Some(Put(p, w, k.(pc := Exited)))
      else None
    case Publishing(c) => Some(Put(p, w, k.(pc := Marking(c), client := Some(c))))
    case Marking(c) => Some(Put(p, w, k.(pc := Serving(c), healthy := true)))
    case Serving(c) => Some(Put(p, w, k.(pc := Unmarking(c))))
    case Unmarking(c) => Some(Put(p, w, k.(pc := Clearing(c), healthy := false)))
    case Clearing(c) => Some(Put(p, w, k.(pc := Closing(c), client := None)))
    case Closing(c) => Some(Put(p, w, k.(pc := Head)).(closed := p.closed + {c}))
    case Exited => None
  }

  /** One step of the shutdown sweep of `Run`. */
  function SweepStep(p: Pool): Option<Pool> {
    match p.sweep
    case Waiting => if p.cancelled then Some(p.(sweep := Loading(0))) else None
    case Loading(i) =>
      if i >= |p.workers| then Some(p.(sweep := Swept))
      else (match p.workers[i].client
            case None => Some(p.(sweep := Loading(i + 1)))
            case Some(c) => Some(p.(sweep := Shutting(i, c))))
    case Shutting(i, c) => Some(p.(sweep := Loading(i + 1), closed := p.closed + {c}))
    case Swept => None
  }

  function Next(p: Pool, e: Event): Option<Pool> {
    match e
    case Maintain(w, choice) => if w < |p.workers| then MaintainStep(p, w, choice) else None
    case Cancel => Some(p.(cancelled := true))
    case Sweep => SweepStep(p)
  }

  // ---- The invariant ----

  /** The client a maintainer holds: dialled by it and not yet closed by it. */
  function Held(k: Worker): Option<Client> {
    match k.pc
    case Publishing(c) => Some(c)
    case Marking(c) => Some(c)
    case Serving(c) => Some(c)
    case Unmarking(c) => Some(c)
    case Clearing(c) => Some(c)
    case Closing(c) => Some(c)
    case _ => None
  }

  /** What the two atomics of a worker hold at each point of its maintainer. */
  ghost predicate AtomicsOk(k: Worker) {
    && k.healthy == (k.pc.Serving? || k.pc.Unmarking?)
    && k.client == (if k.pc.Publishing? || k.pc.Closing? then None else Held(k))
  }

  ghost predicate HeldBy(p: Pool, c: Client, i: nat) {
    i < |p.workers| && Held(p.workers[i]) == Some(c)
  }

  ghost predicate Ownership(p: Pool) {
    && (forall i: nat, c: Client :: HeldBy(p, c, i) ==> c < p.dialled)
    && (forall i: nat, j: nat, c: Client :: HeldBy(p, c, i) && HeldBy(p, c, j) ==> i == j)
    && (forall i: nat, c: Client :: HeldBy(p, c, i) && c in p.closed ==> p.cancelled)
    && (forall c: Client :: c in p.closed ==> c < p.dialled)
    && (forall c: Client :: c < p.dialled && c !in p.closed ==> exists i: nat :: HeldBy(p, c, i))
  }

  ghost predicate ShutdownOk(p: Pool) {
    && (forall i :: 0 <= i < |p.workers| && p.workers[i].pc.Exited? ==> p.cancelled)
    && (!p.sweep.Waiting? ==> p.cancelled)
    && (p.sweep.Shutting? ==> p.sweep.c < p.dialled)
  }

  ghost predicate Inv(p: Pool) {
    && |p.workers| >= 1
    && (forall i :: 0 <= i < |p.workers| ==> AtomicsOk(p.workers[i]))
    && Ownership(p)
    && ShutdownOk(p)
  }

  lemma InitInv(p: Pool)
    requires Init(p)
    ensures Inv(p)
  {
  }

  /** What a step does to holding: the moving maintainer may take the client it dialled
    * or let go of the one it closed, and nobody else's changes. */
  ghost predicate HoldsOn(p: Pool, e: Event, q: Pool) {
    && p.dialled <= q.dialled && p.closed <= q.closed && |q.workers| == |p.workers|
    && (forall i: nat, c: Client :: HeldBy(q, c, i) ==>
                                      HeldBy(p, c, i) || (c == p.dialled < q.dialled && e == Maintain(i, true)))
    && (forall i: nat, c: Client :: HeldBy(p, c, i) ==> HeldBy(q, c, i) || c in q.closed)
    && (q.dialled == p.dialled || (q.dialled == p.dialled + 1 && e.Maintain? && HeldBy(q, p.dialled, e.w)))
    && (forall c: Client :: c in q.closed && c !in p.closed ==>
                              c < p.dialled && (q.cancelled || forall i: nat :: !HeldBy(q, c, i)))
    && (p.cancelled ==> q.cancelled)
  }

  lemma MaintainHolds(p: Pool, e: Event, q: Pool)
    requires Inv(p) && Next(p, e) == Some(q) && e.Maintain?
    ensures HoldsOn(p, e, q)
  {
    assert forall i: nat, c: Client :: i != e.w ==> HeldBy(q, c, i) == HeldBy(p, c, i);
    if p.workers[e.w].pc.Closing? {
      assert HeldBy(p, p.workers[e.w].pc.c, e.w);
    }
  }

  lemma OthersHold(p: Pool, e: Event, q: Pool)
    requires Inv(p) && Next(p, e) == Some(q) && !e.Maintain?
    ensures HoldsOn(p, e, q)
  {
    assert forall i: nat, c: Client :: HeldBy(q, c, i) == HeldBy(p, c, i);
  }

  lemma OwnershipKept(p: Pool, e: Event, q: Pool)
    requires Ownership(p) && HoldsOn(p, e, q)
    ensures Ownership(q)
  {
    hide HeldBy;
    forall c: Client | c < q.dialled && c !in q.closed
      ensures exists i: nat :: HeldBy(q, c, i)
    {
      if c < p.dialled {
        var i: nat :| HeldBy(p, c, i);
        assert HeldBy(q, c, i);
      } else {
        assert HeldBy(q, c, e.w);
      }
    }
  }

  lemma NextAtomics(p: Pool, e: Event, q: Pool)
    requires (forall i :: 0 <= i < |p.workers| ==> AtomicsOk(p.workers[i])) && Next(p, e) == Some(q)
    ensures |q.workers| == |p.workers| && forall i :: 0 <= i < |q.workers| ==> AtomicsOk(q.workers[i])
  {
  }

  lemma NextShutdown(p: Pool, e: Event, q: Pool)
    requires Inv(p) && Next(p, e) == Some(q)
    ensures ShutdownOk(q)
  {
    if p.sweep.Loading? && e.Sweep? && p.sweep.i < |p.workers| {
      assert AtomicsOk(p.workers[p.sweep.i]);
      if p.workers[p.sweep.i].client.Some? {
        assert HeldBy(p, p.workers[p.sweep.i].client.value, p.sweep.i);
      }
    }
  }

  /** Every step of every goroutine keeps the invariant. */
  lemma NextInv(p: Pool, e: Event, q: Pool)
    requires Inv(p) && Next(p, e) == Some(q)
    ensures Inv(q) && |q.workers| == |p.workers|
  {
    hide Ownership, ShutdownOk, AtomicsOk, Next, HoldsOn;
    NextAtomics(p, e, q);
    NextShutdown(p, e, q);
    if e.Maintain? {
      MaintainHolds(p, e, q);
    } else {
      OthersHold(p, e, q);
    }
    OwnershipKept(p, e, q);
  }

  // ---- What the invariant gives ----

  /** A worker seen healthy has a client pointer, and every published client is
    * still open unless the tunnel is shutting down. */
  lemma HealthyHasOpenClient(p: Pool, i: nat)
    requires Inv(p) && i < |p.workers|
    ensures p.workers[i].healthy ==> p.workers[i].client.Some?
    ensures p.workers[i].client.Some? && p.workers[i].client.value in p.closed ==> p.cancelled
  {
    assert AtomicsOk(p.workers[i]);
    if p.workers[i].client.Some? {
      assert HeldBy(p, p.workers[i].client.value, i);
    }
  }

  ghost function OpenClients(p: Pool): set<Client> {
    set c: Client | 0 <= c < p.dialled && c !in p.closed
  }

  ghost function HeldClients(ws: seq<Worker>): set<Client> {
    if ws == [] then {}
    else HeldClients(ws[..|ws| - 1]) +
         (var h := Held(ws[|ws| - 1]); if h.Some? then {h.value} else {})
  }

  lemma {:induction false} HeldClientsBound(ws: seq<Worker>)
    ensures |HeldClients(ws)| <= |ws|
    ensures forall i :: 0 <= i < |ws| && Held(ws[i]).Some? ==> Held(ws[i]).value in HeldClients(ws)
  {
    if ws != [] {
      HeldClientsBound(ws[..|ws| - 1]);
    }
  }

  /** Each open client has exactly one maintainer, and there are never more open
    * clients than workers. */
  lemma OpenClientsAreOwned(p: Pool)
    requires Inv(p)
    ensures forall c :: c in OpenClients(p) ==>
                          exists i: nat :: HeldBy(p, c, i) && forall j: nat :: HeldBy(p, c, j) ==> j == i
    ensures |OpenClients(p)| <= |p.workers|
  {
    HeldClientsBound(p.workers);
    forall c | c in OpenClients(p)
      ensures c in HeldClients(p.workers)
      ensures exists i: nat :: HeldBy(p, c, i) && forall j: nat :: HeldBy(p, c, j) ==> j == i
    {
      var i: nat :| HeldBy(p, c, i);
    }
    SubsetSize(OpenClients(p), HeldClients(p.workers));
  }

  lemma SubsetSize<T>(a: set<T>, b: set<T>)
    requires a <= b
    ensures |a| <= |b|
  {
    assert b == a + (b - a);
  }

  /** Once every maintainer has exited, every client ever dialled is closed:
    * also one whose dial finished after the cancellation. */
  lemma NoClientLeak(p: Pool)
    requires Inv(p)
    requires forall i :: 0 <= i < |p.workers| ==> p.workers[i].pc.Exited?
    ensures p.cancelled
    ensures forall c: Client :: c in p.closed <==> c < p.dialled
  {
    assert p.workers[0].pc.Exited?;
    assert forall i: nat, c: Client :: !HeldBy(p, c, i);
  }

  function Diallers(ws: seq<Worker>): nat {
    if ws == [] then 0 else Diallers(ws[..|ws| - 1]) + (if ws[|ws| - 1].pc.Dialling? then 1 else 0)
  }

  lemma {:induction false} DiallersPut(ws: seq<Worker>, w: nat, k: Worker)
    requires w < |ws|
    ensures Diallers(ws[w := k]) ==
            Diallers(ws) - (if ws[w].pc.Dialling? then 1 else 0) + (if k.pc.Dialling? then 1 else 0)
  {
    if w == |ws| - 1 {
      assert ws[w := k][..|ws| - 1] == ws[..|ws| - 1];
    } else {
      DiallersPut(ws[..|ws| - 1], w, k);
      assert ws[w := k][..|ws| - 1] == ws[..|ws| - 1][w := k];
    }
  }

  /** After cancellation no maintainer starts a dial: the clients dialled so far
    * plus the dials in flight never grow again. */
  lemma NoDialAfterCancel(p: Pool, e: Event, q: Pool)
    requires p.cancelled && Next(p, e) == Some(q)
    ensures q.cancelled
    ensures q.dialled + Diallers(q.workers) <= p.dialled + Diallers(p.workers)
  {
    if e.Maintain? {
      DiallersPut(p.workers, e.w, q.workers[e.w]);
      assert q.workers == p.workers[e.w := q.workers[e.w]];
    }
  }

  // ---- Shutdown comes to an end ----

  /** How many of its own steps a maintainer has left after cancellation, at most. */
  function Rank(k: Worker): nat {
    match k.pc
    case Exited => 0
    case Head => 1
    case Backoff => 2
    case Closing(_) => 2
    case Clearing(_) => 3
    case Unmarking(_) => 4
    case Serving(_) => 5
    case Marking(_) => 6
    case Publishing(_) => 7
    case Dialling => 8
  }

  /** No maintainer's rank rises after cancellation, and the one that steps falls. */
  lemma RankFalls(p: Pool, e: Event, q: Pool, w: nat)
    requires p.cancelled && Next(p, e) == Some(q) && w < |p.workers|
    ensures q.cancelled && |q.workers| == |p.workers|
    ensures Rank(q.workers[w]) + (if e.Maintain? && e.w == w then 1 else 0) <= Rank(p.workers[w])
  {
    if e.Maintain? {
      OwnStepFalls(p, e.w, e.choice, q);
    }
    hide MaintainStep, Rank;
  }

  lemma OwnStepFalls(p: Pool, w: nat, choice: bool, q: Pool)
    requires p.cancelled && w < |p.workers| && MaintainStep(p, w, choice) == Some(q)
    ensures q.cancelled && |q.workers| == |p.workers|
    ensures forall i :: 0 <= i < |p.workers| && i != w ==> q.workers[i] == p.workers[i]
    ensures Rank(q.workers[w]) < Rank(p.workers[w])
  {
  }

  /** Steps of one maintainer. */
  function StepsOf(es: seq<Event>, w: nat): nat {
    if es == [] then 0
    else StepsOf(es[..|es| - 1], w) + (if es[|es| - 1].Maintain? && es[|es| - 1].w == w then 1 else 0)
  }

  /** The pools of an execution and the event between each two of them. */
  ghost predicate IsPoolRun(ps: seq<Pool>, es: seq<Event>) {
    |ps| == |es| + 1 && forall m :: 0 <= m < |es| ==> Next(ps[m], es[m]) == Some(ps[m + 1])
  }

  lemma {:induction false} RunKeeps(ps: seq<Pool>, es: seq<Event>)
    requires IsPoolRun(ps, es) && Inv(ps[0]) && ps[0].cancelled
    ensures Inv(ps[|es|]) && ps[|es|].cancelled && |ps[|es|].workers| == |ps[0].workers|
  {
    hide Inv, Next;
    if es != [] {
      var n := |es| - 1;
      RunKeeps(ps[..n + 1], es[..n]);
      NextInv(ps[n], es[n], ps[n + 1]);
      StaysCancelled(ps[n], es[n], ps[n + 1]);
    }
  }

  lemma StaysCancelled(p: Pool, e: Event, q: Pool)
    requires p.cancelled && Next(p, e) == Some(q)
    ensures q.cancelled
  {
  }

  lemma {:induction false} StepsAreRank(ps: seq<Pool>, es: seq<Event>, w: nat)
    requires IsPoolRun(ps, es) && Inv(ps[0]) && ps[0].cancelled && w < |ps[0].workers|
    ensures w < |ps[|es|].workers|
    ensures StepsOf(es, w) + Rank(ps[|es|].workers[w]) <= Rank(ps[0].workers[w])
  {
    hide Inv, Next, Rank;
    RunKeeps(ps, es);
    if es != [] {
      var n := |es| - 1;
      StepsAreRank(ps[..n + 1], es[..n], w);
      RunKeeps(ps[..n + 1], es[..n]);
      RankFalls(ps[n], es[n], ps[n + 1], w);
    }
  }

  predicate CanMove(p: Pool, w: nat) {
    w < |p.workers| && (MaintainStep(p, w, true).Some? || MaintainStep(p, w, false).Some?)
  }

  /** After cancellation each maintainer takes at most eight more steps, and when none of
    * them has a step left every client ever dialled is closed. */
  lemma ShutdownCloses(ps: seq<Pool>, es: seq<Event>)
    requires IsPoolRun(ps, es) && Inv(ps[0]) && ps[0].cancelled
    ensures forall w :: 0 <= w < |ps[0].workers| ==> StepsOf(es, w) <= Rank(ps[0].workers[w]) <= 8
    ensures var p := ps[|es|];
            (forall w: nat :: !CanMove(p, w)) ==> forall c: Client :: c in p.closed <==> c < p.dialled
  {
    RunKeeps(ps, es);
    forall w | 0 <= w < |ps[0].workers|
      ensures StepsOf(es, w) <= Rank(ps[0].workers[w])
    {
      StepsAreRank(ps, es, w);
    }
    var p := ps[|es|];
    if forall w: nat :: !CanMove(p, w) {
      forall i | 0 <= i < |p.workers|
        ensures p.workers[i].pc.Exited?
      {
        assert !CanMove(p, i);
      }
      NoClientLeak(p);
    }
  }

  // ---- What the shutdown sweep closes ----

  function WorkersFrom(i: nat, n: nat): nat { if i < n then n - i else 0 }

  /** How many steps the sweep has left, at most. */
  function SweepRank(p: Pool): nat {
    match p.sweep
    case Waiting => 2 * |p.workers| + 2
    case Loading(i) => 2 * WorkersFrom(i, |p.workers|) + 1
    case Shutting(i, _) => 2 * WorkersFrom(i + 1, |p.workers|) + 2
    case Swept => 0
  }

  /** After cancellation the sweep can take a step until it is over, and each step leaves
    * it with fewer to take, at most two per worker and two more. */
  lemma SweepEnds(p: Pool)
    requires p.cancelled
    ensures Next(p, Sweep).Some? <==> p.sweep != Swept
    ensures Next(p, Sweep).Some? ==> SweepRank(Next(p, Sweep).value) < SweepRank(p) <= 2 * |p.workers| + 2
  {
  }

  /** At some state up to m the sweep looked at worker j, and the client it found there, if
    * any, is closed by state m. */
  ghost predicate SweptOver(ps: seq<Pool>, j: nat, m: nat)
    requires m < |ps|
  {
    exists k: nat :: k <= m && ps[k].sweep == Loading(j) && FoundClosed(ps[k], j, ps[m].closed)
  }

  predicate FoundClosed(p: Pool, j: nat, closed: set<Client>) {
    j < |p.workers| && (p.workers[j].client.Some? ==> p.workers[j].client.value in closed)
  }

  /** Client c, about to be closed, is what the sweep found at worker j. */
  ghost predicate FoundThere(ps: seq<Pool>, j: nat, c: Client, m: nat)
    requires m < |ps|
  {
    exists k: nat :: k <= m && ps[k].sweep == Loading(j) && FoundClosed(ps[k], j, {c})
  }

  ghost predicate SweepOk(ps: seq<Pool>, m: nat)
    requires m < |ps|
  {
    match ps[m].sweep
    case Waiting => true
    case Loading(i) => i <= |ps[m].workers| && forall j: nat :: j < i ==> SweptOver(ps, j, m)
    case Shutting(i, c) =>
      i < |ps[m].workers| && FoundThere(ps, i, c, m) && forall j: nat :: j < i ==> SweptOver(ps, j, m)
    case Swept => forall j: nat :: j < |ps[m].workers| ==> SweptOver(ps, j, m)
  }

  lemma SweptLater(ps: seq<Pool>, j: nat, m: nat)
    requires m + 1 < |ps| && SweptOver(ps, j, m) && ps[m].closed <= ps[m + 1].closed
    ensures SweptOver(ps, j, m + 1)
  {
    var k: nat :| k <= m && ps[k].sweep == Loading(j) && FoundClosed(ps[k], j, ps[m].closed);
    assert FoundClosed(ps[k], j, ps[m + 1].closed);
  }

  lemma FoundLater(ps: seq<Pool>, j: nat, c: Client, m: nat)
    requires m + 1 < |ps| && FoundThere(ps, j, c, m)
    ensures FoundThere(ps, j, c, m + 1)
    ensures c in ps[m + 1].closed ==> SweptOver(ps, j, m + 1)
  {
    var k: nat :| k <= m && ps[k].sweep == Loading(j) && FoundClosed(ps[k], j, {c});
    assert c in ps[m + 1].closed ==> FoundClosed(ps[k], j, ps[m + 1].closed);
  }

  lemma JustLooked(ps: seq<Pool>, j: nat, m: nat)
    requires m + 1 < |ps| && ps[m].sweep == Loading(j) && j < |ps[m].workers|
    ensures ps[m].workers[j].client.None? ==> SweptOver(ps, j, m + 1)
    ensures ps[m].workers[j].client.Some? ==> FoundThere(ps, j, ps[m].workers[j].client.value, m + 1)
  {
    assert ps[m].workers[j].client.None? ==> FoundClosed(ps[m], j, ps[m + 1].closed);
    assert ps[m].workers[j].client.Some? ==> FoundClosed(ps[m], j, {ps[m].workers[j].client.value});
  }

  lemma SweepSteps(p: Pool, e: Event, q: Pool)
    requires Next(p, e) == Some(q)
    ensures |q.workers| == |p.workers| && p.closed <= q.closed
    ensures !e.Sweep? ==> q.sweep == p.sweep
    ensures e.Sweep? ==> SweepStep(p) == Some(q)
  {
  }

  lemma {:induction false} SweepFollows(ps: seq<Pool>, es: seq<Event>, m: nat)
    requires IsPoolRun(ps, es) && ps[0].sweep == Waiting && m < |ps|
    ensures SweepOk(ps, m)
  {
    hide Next, SweptOver, FoundThere;
    if m > 0 {
      var n := m - 1;
      SweepFollows(ps, es, n);
      SweepSteps(ps[n], es[n], ps[m]);
      forall j: nat | SweptOver(ps, j, n)
        ensures SweptOver(ps, j, m)
      {
        SweptLater(ps, j, n);
      }
      match ps[n].sweep
      case Waiting =>
      case Loading(i) =>
        if i < |ps[n].workers| {
          JustLooked(ps, i, n);
        }
      case Shutting(i, c) => FoundLater(ps, i, c, n);
      case Swept =>
    }
  }

  /** A finished sweep has looked at every worker, and closed each client it found. */
  lemma SweepCloses(ps: seq<Pool>, es: seq<Event>, m: nat, j: nat)
    requires IsPoolRun(ps, es) && ps[0].sweep == Waiting && m < |ps|
    requires ps[m].sweep == Swept && j < |ps[m].workers|
    ensures SweptOver(ps, j, m)
  {
    hide SweptOver;
    SweepFollows(ps, es, m);
  }
}

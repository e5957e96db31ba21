/** The master's node list: one goroutine a node fills its slot of the answer, each
  * adding up what its node reports.
  */
module Fanout {
  import opened Options
  import opened Modular

  type uint64 = x: nat | x < WRAP

  /** What is left of a number in 64 bits. */
  function Wrap(n: nat): uint64 { n % WRAP }

  lemma WrapAdd(a: nat, b: nat)
    ensures Wrap(Wrap(a) + b) == Wrap(a + b)
  {
    AddInside(a, b, WRAP);
  }

  datatype Stat = Stat(bytesIn: uint64, bytesOut: uint64, activeConns: int)
  datatype Status = Status(active: string, stat: Option<Stat>)
  datatype Remote = Remote(status: Option<Status>)

  /** What came of asking a node for its tunnels. */
  datatype Response = Unreachable | Http(code: int, body: Option<seq<Remote>>)

  datatype Problem = NoProblem | NotReached | HttpError(code: int) | BadResponse

  datatype Summary = Summary(online: bool, error: Problem, tunnels: nat, activeTunnels: nat,
                             bytesIn: uint64, bytesOut: uint64, conns: int)

  // ---- Adding up one node ----

  function StatOf(r: Remote): Stat {
    if r.status.Some? && r.status.value.stat.Some? then r.status.value.stat.value else Stat(0, 0, 0)
  }

  function IsActive(r: Remote): nat {
    if r.status.Some? && r.status.value.active == "active" then 1 else 0
  }

  /** The true totals, without wrap-around. */
  datatype Totals = Totals(active: nat, bytesIn: nat, bytesOut: nat, conns: int)

  function Plus(a: Totals, b: Totals): Totals {
    Totals(a.active + b.active, a.bytesIn + b.bytesIn, a.bytesOut + b.bytesOut, a.conns + b.conns)
  }

  function One(r: Remote): Totals {
    Totals(IsActive(r), StatOf(r).bytesIn, StatOf(r).bytesOut, StatOf(r).activeConns)
  }

  function Total(rs: seq<Remote>): Totals {
    if rs == [] then Totals(0, 0, 0, 0) else Plus(Total(rs[..|rs| - 1]), One(rs[|rs| - 1]))
  }

  function SummaryOf(resp: Response): Summary {
    match resp
    case Unreachable => Summary(false, NotReached, 0, 0, 0, 0, 0)
    case Http(code, body) =>
      if code != 200 then Summary(false, HttpError(code), 0, 0, 0, 0, 0)
      else if body.None? then Summary(false, BadResponse, 0, 0, 0, 0, 0)
      else
        var t := Total(body.value);
        Summary(true, NoProblem, |body.value|, t.active, Wrap(t.bytesIn), Wrap(t.bytesOut), t.conns)
  }

  method Summarize(resp: Response) returns (sum: Summary)
    ensures sum == SummaryOf(resp)
  {
    if resp.Unreachable? {
      return Summary(false, NotReached, 0, 0, 0, 0, 0);
    }
    if resp.code != 200 {
      return Summary(false, HttpError(resp.code), 0, 0, 0, 0, 0);
    }
    if resp.body.None? {
      return Summary(false, BadResponse, 0, 0, 0, 0, 0);
    }
    var tns := resp.body.value;
    assert Total(tns[..0]) == Totals(0, 0, 0, 0) && Wrap(0) == 0;
    hide Total, Wrap, SummaryOf;
    var activeTunnels: nat, bytesIn: uint64, bytesOut: uint64, conns := 0, 0, 0, 0;
    for i := 0 to |tns|
      invariant activeTunnels == Total(tns[..i]).active && conns == Total(tns[..i]).conns
      invariant bytesIn == Wrap(Total(tns[..i]).bytesIn) && bytesOut == Wrap(Total(tns[..i]).bytesOut)
    {
      TotalNext(tns, i);
      var t := tns[i];
      if t.status.None? {
        continue;
      }
      var status := t.status.value;
      if status.active == "active" {
        activeTunnels := activeTunnels + 1;
      }
      if status.stat.Some? {
        var stat := status.stat.value;
        WrapAdd(Total(tns[..i]).bytesIn, stat.bytesIn);
        WrapAdd(Total(tns[..i]).bytesOut, stat.bytesOut);
        bytesIn := Wrap(bytesIn + stat.bytesIn);
        bytesOut := Wrap(bytesOut + stat.bytesOut);
        conns := conns + stat.activeConns;
      }
    }
    assert tns[..|tns|] == tns;
    Online(resp);
    return Summary(true, NoProblem, |tns|, activeTunnels, bytesIn, bytesOut, conns);
  }

  lemma Online(resp: Response)
    requires resp.Http? && resp.code == 200 && resp.body.Some?
    ensures var t := Total(resp.body.value);
            SummaryOf(resp) ==
            Summary(true, NoProblem, |resp.body.value|, t.active, Wrap(t.bytesIn), Wrap(t.bytesOut), t.conns)
  {
  }

  lemma TotalNext(rs: seq<Remote>, i: nat)
    requires i < |rs|
    ensures Total(rs[..i + 1]).active == Total(rs[..i]).active + IsActive(rs[i])
    ensures Total(rs[..i + 1]).bytesIn == Total(rs[..i]).bytesIn + StatOf(rs[i]).bytesIn
    ensures Total(rs[..i + 1]).bytesOut == Total(rs[..i]).bytesOut + StatOf(rs[i]).bytesOut
    ensures Total(rs[..i + 1]).conns == Total(rs[..i]).conns + StatOf(rs[i]).activeConns
  {
    assert rs[..i + 1][..i] == rs[..i];
  }

  lemma {:induction false} TotalAppend(a: seq<Remote>, b: seq<Remote>)
    ensures Total(a + b) == Plus(Total(a), Total(b))
  {
    hide One;
    if b == [] {
      assert a + b == a;
    } else {
      var c := b[..|b| - 1];
      assert (a + b)[..|a + b| - 1] == a + c && (a + b)[|a + b| - 1] == b[|b| - 1];
      TotalAppend(a, c);
    }
  }

  /** Where one element stands does not matter to the total. */
  lemma TotalMoved(a: seq<Remote>, r: Remote, b: seq<Remote>)
    ensures Total(a + ([r] + b)) == Total(a + b + [r])
  {
    hide Total, One;
    TotalAppend(a, [r] + b);
    TotalAppend([r], b);
    TotalAppend(a + b, [r]);
    TotalAppend(a, b);
  }

  lemma TakeOut(a: seq<Remote>, r: Remote) returns (front: seq<Remote>, back: seq<Remote>)
    requires r in multiset(a)
    ensures a == front + ([r] + back) && multiset(front + back) == multiset(a) - multiset{r}
  {
    var k :| 0 <= k < |a| && a[k] == r;
    front, back := a[..k], a[k + 1..];
    assert a == front + ([r] + back);
  }

  lemma {:induction false} TotalOfPermutation(a: seq<Remote>, b: seq<Remote>)
    requires multiset(a) == multiset(b)
    ensures |a| == |b| && Total(a) == Total(b)
    decreases |b|
  {
    hide Total, One;
    assert |a| == |multiset(a)| && |b| == |multiset(b)|;
    if b == [] {
      assert a == [];
    } else {
      var last, before := b[|b| - 1], b[..|b| - 1];
      assert b == before + [last];
      assert last in multiset(b);
      var front, back := TakeOut(a, last);
      assert multiset(before) == multiset(b) - multiset{last};
      TotalOfPermutation(front + back, before);
      TotalMoved(front, last, back);
      TotalAppend(front + back, [last]);
      TotalAppend(before, [last]);
    }
  }

  /** A node with one tunnel shows that tunnel's own figures. */
  lemma SummaryOfOne(active: string, stat: Stat)
    ensures SummaryOf(Http(200, Some([Remote(Some(Status(active, Some(stat))))]))) ==
            Summary(true, NoProblem, 1, if active == "active" then 1 else 0,
                    stat.bytesIn, stat.bytesOut, stat.activeConns)
  {
    var r := Remote(Some(Status(active, Some(stat))));
    assert [r][..0] == [] && Total([]) == Totals(0, 0, 0, 0);
    assert Total([r]) == Plus(Total([]), One(r));
  }

  /** A node's summary does not depend on the order in which it lists its tunnels. */
  lemma SummaryIgnoresOrder(code: int, a: seq<Remote>, b: seq<Remote>)
    requires multiset(a) == multiset(b)
    ensures SummaryOf(Http(code, Some(a))) == SummaryOf(Http(code, Some(b)))
  {
    hide Total;
    TotalOfPermutation(a, b);
  }

  lemma {:induction false} ActiveAtMostAll(rs: seq<Remote>)
    ensures Total(rs).active <= |rs|
  {
    if rs != [] {
      ActiveAtMostAll(rs[..|rs| - 1]);
    }
  }

  /** No summary counts more active tunnels than tunnels, and one that reports an error
    * counts nothing. */
  lemma SummarySane(resp: Response)
    ensures var s := SummaryOf(resp);
            s.activeTunnels <= s.tunnels && (s.online <==> s.error == NoProblem)
            && (!s.online ==> s == Summary(false, s.error, 0, 0, 0, 0, 0))
  {
    if resp.Http? && resp.body.Some? {
      ActiveAtMostAll(resp.body.value);
    }
  }

  // ---- The goroutines ----

  datatype Node = Node(id: string, name: string, baseURL: string, token: string)

  datatype View = View(node: Node, summary: Summary)

  /** The zero value the slots are made with. */
  const EMPTY := View(Node("", "", "", ""), Summary(false, NoProblem, 0, 0, 0, 0, 0))

  function ViewOf(n: Node, resp: Response): View { View(n.(token := ""), SummaryOf(resp)) }

  datatype Phase = Unborn | Asking | Summed(summary: Summary) | Written | Done

  /** `added` counts the main loop's wg.Add calls and `spawned` its go statements. */
  datatype State = State(added: nat, spawned: nat, pending: int, phases: seq<Phase>, out: seq<View>)

  datatype Action = Add | Go | Ask(i: nat) | Write(i: nat) | Finish(i: nat)

  function Init(n: nat): State {
    State(0, 0, 0, seq(n, _ => Unborn), seq(n, _ => EMPTY))
  }

  predicate Enabled(s: State, a: Action) {
    match a
    case Add => s.added == s.spawned < |s.phases|
    case Go => s.spawned < s.added && s.spawned < |s.phases|
    case Ask(i) => i < |s.phases| && s.phases[i] == Asking
    case Write(i) => i < |s.phases| && i < |s.out| && s.phases[i].Summed?
    case Finish(i) => i < |s.phases| && s.phases[i] == Written
  }

  function Step(s: State, a: Action, nodes: seq<Node>, resps: seq<Response>): State
    requires Enabled(s, a) && |s.phases| == |nodes| == |resps|
  {
    match a
    case Add => s.(added := s.added + 1, pending := s.pending + 1)
    case Go => s.(spawned := s.spawned + 1, phases := s.phases[s.spawned := Asking])
    case Ask(i) => s.(phases := s.phases[i := Summed(SummaryOf(resps[i]))])
    case Write(i) =>
      var view := View(nodes[i].(token := ""), s.phases[i].summary);
      s.(phases := s.phases[i := Written], out := s.out[i := view])
    case Finish(i) => s.(phases := s.phases[i := Done], pending := s.pending - 1)
  }

  /** The state after a schedule; None when some step of it was not enabled. */
  function Run(n: nat, schedule: seq<Action>, nodes: seq<Node>, resps: seq<Response>): (r: Option<State>)
    requires n == |nodes| == |resps|
    ensures r.Some? ==> |r.value.phases| == n
  {
    if schedule == [] then Some(Init(n))
    else
      var s :- Run(n, schedule[..|schedule| - 1], nodes, resps);
      var a := schedule[|schedule| - 1];
      if Enabled(s, a) then Some(Step(s, a, nodes, resps)) else None
  }

  /** wg.Wait has returned: every goroutine was started and the counter is back at zero. */
  predicate Answered(s: State) { s.spawned == |s.phases| && s.pending == 0 }

  function Finished(ps: seq<Phase>): (k: nat)
    ensures k <= |ps|
  {
    if ps == [] then 0 else Finished(ps[..|ps| - 1]) + (if ps[|ps| - 1] == Done then 1 else 0)
  }

  ghost predicate Inv(s: State, nodes: seq<Node>, resps: seq<Response>) {
    |s.phases| == |s.out| == |nodes| == |resps|
    && s.spawned <= s.added <= s.spawned + 1 && s.added <= |nodes|
    && s.pending == s.added - Finished(s.phases)
    && (forall i :: 0 <= i < |nodes| ==> (s.phases[i] == Unborn <==> i >= s.spawned))
    && (forall i :: 0 <= i < |nodes| && s.phases[i].Summed? ==> s.phases[i].summary == SummaryOf(resps[i]))
    && (forall i :: 0 <= i < |nodes| && s.phases[i] in {Written, Done} ==> s.out[i] == ViewOf(nodes[i], resps[i]))
    && (forall i :: 0 <= i < |nodes| && s.phases[i] !in {Written, Done} ==> s.out[i] == EMPTY)
  }

  lemma {:induction false} FinishedUpdate(ps: seq<Phase>, i: nat, p: Phase)
    requires i < |ps| && ps[i] != Done
    ensures Finished(ps[i := p]) == Finished(ps) + (if p == Done then 1 else 0)
  {
    var qs := ps[i := p];
    if i == |ps| - 1 {
      assert qs[..|qs| - 1] == ps[..|ps| - 1];
    } else {
      assert qs[..|qs| - 1] == ps[..|ps| - 1][i := p];
      FinishedUpdate(ps[..|ps| - 1], i, p);
    }
  }

  lemma {:induction false} FinishedAll(ps: seq<Phase>)
    ensures Finished(ps) == |ps| <==> forall i :: 0 <= i < |ps| ==> ps[i] == Done
    ensures (forall i :: 0 <= i < |ps| ==> ps[i] != Done) ==> Finished(ps) == 0
  {
    if ps != [] {
      FinishedAll(ps[..|ps| - 1]);
      assert forall i :: 0 <= i < |ps| - 1 ==> ps[..|ps| - 1][i] == ps[i];
    }
  }

  lemma StepKeeps(s: State, a: Action, nodes: seq<Node>, resps: seq<Response>)
    requires Inv(s, nodes, resps) && Enabled(s, a)
    ensures Inv(Step(s, a, nodes, resps), nodes, resps)
  {
    hide SummaryOf, Finished;
    match a
    case Add =>
    case Go => FinishedUpdate(s.phases, s.spawned, Asking);
    case Ask(i) => FinishedUpdate(s.phases, i, Summed(SummaryOf(resps[i])));
    case Write(i) => FinishedUpdate(s.phases, i, Written);
    case Finish(i) => FinishedUpdate(s.phases, i, Done);
  }

  lemma {:induction false} RunInv(n: nat, schedule: seq<Action>, nodes: seq<Node>, resps: seq<Response>)
    requires n == |nodes| == |resps|
    ensures var r := Run(n, schedule, nodes, resps); r.Some? ==> Inv(r.value, nodes, resps)
  {
    hide SummaryOf;
    if schedule == [] {
      FinishedAll(Init(n).phases);
    } else {
      var before := schedule[..|schedule| - 1];
      RunInv(n, before, nodes, resps);
      var r := Run(n, before, nodes, resps);
      if r.Some? && Enabled(r.value, schedule[|schedule| - 1]) {
        hide Inv;
        StepKeeps(r.value, schedule[|schedule| - 1], nodes, resps);
      }
    }
  }

  lemma AllWritten(s: State, nodes: seq<Node>, resps: seq<Response>)
    requires Inv(s, nodes, resps) && Answered(s)
    ensures |s.out| == |nodes| && forall i :: 0 <= i < |nodes| ==> s.out[i] == ViewOf(nodes[i], resps[i])
  {
    hide SummaryOf, ViewOf, Finished;
    FinishedAll(s.phases);
  }

  /** Under every schedule of the goroutines, the answer is sent only when it is, node
    * by node in order, the view of that node, without its token. */
  lemma AnswerIsSequential(n: nat, schedule: seq<Action>, nodes: seq<Node>, resps: seq<Response>)
    requires n == |nodes| == |resps|
    ensures var r := Run(n, schedule, nodes, resps);
            r.Some? && Answered(r.value) ==>
              r.value.out == seq(n, i requires 0 <= i < n => ViewOf(nodes[i], resps[i]))
  {
    hide SummaryOf, ViewOf, Run, Finished;
    RunInv(n, schedule, nodes, resps);
    var r := Run(n, schedule, nodes, resps);
    if r.Some? && Answered(r.value) {
      AllWritten(r.value, nodes, resps);
    }
  }

  /** The wait never misses: until the answer is complete some step can be taken, and
    * the counter never goes below zero. */
  lemma NeverStuck(n: nat, schedule: seq<Action>, nodes: seq<Node>, resps: seq<Response>)
    requires n == |nodes| == |resps|
    ensures var r := Run(n, schedule, nodes, resps);
            r.Some? ==> r.value.pending >= 0 && (Answered(r.value) || exists a :: Enabled(r.value, a))
  {
    hide SummaryOf;
    RunInv(n, schedule, nodes, resps);
    var r := Run(n, schedule, nodes, resps);
    hide Run;
    if r.Some? {
      var s := r.value;
      FinishedAtMost(s.phases, s.spawned);
      if s.spawned < n {
        assert Enabled(s, Add) || Enabled(s, Go);
      } else if s.pending != 0 {
        FinishedAll(s.phases);
        var i :| 0 <= i < n && s.phases[i] != Done;
        assert Enabled(s, Ask(i)) || Enabled(s, Write(i)) || Enabled(s, Finish(i));
      }
    }
  }

  // ---- Every schedule ends with the answer ----

  /** How many steps a goroutine has taken. */
  function StepsIn(p: Phase): nat {
    match p
    case Unborn => 0
    case Asking => 0
    case Summed(_) => 1
    case Written => 2
    case Done => 3
  }

  function StepsAll(ps: seq<Phase>): (k: nat)
    ensures k <= 3 * |ps|
  {
    if ps == [] then 0 else StepsAll(ps[..|ps| - 1]) + StepsIn(ps[|ps| - 1])
  }

  lemma {:induction false} StepsUpdate(ps: seq<Phase>, i: nat, p: Phase)
    requires i < |ps|
    ensures StepsAll(ps[i := p]) + StepsIn(ps[i]) == StepsAll(ps) + StepsIn(p)
  {
    var qs := ps[i := p];
    if i == |ps| - 1 {
      assert qs[..|qs| - 1] == ps[..|ps| - 1];
    } else {
      assert qs[..|qs| - 1] == ps[..|ps| - 1][i := p];
      StepsUpdate(ps[..|ps| - 1], i, p);
    }
  }

  lemma {:induction false} StepsOfAllDone(ps: seq<Phase>)
    ensures StepsAll(ps) == 3 * |ps| <==> Finished(ps) == |ps|
    ensures (forall i :: 0 <= i < |ps| ==> ps[i] == Unborn) ==> StepsAll(ps) == 0
  {
    if ps != [] {
      StepsOfAllDone(ps[..|ps| - 1]);
      assert forall i :: 0 <= i < |ps| - 1 ==> ps[..|ps| - 1][i] == ps[i];
    }
  }

  lemma StepCounts(s: State, a: Action, nodes: seq<Node>, resps: seq<Response>)
    requires Inv(s, nodes, resps) && Enabled(s, a)
    ensures var t := Step(s, a, nodes, resps);
            t.added + t.spawned + StepsAll(t.phases) == s.added + s.spawned + StepsAll(s.phases) + 1
  {
    hide SummaryOf, Finished, StepsAll;
    match a
    case Add =>
    case Go => StepsUpdate(s.phases, s.spawned, Asking);
    case Ask(i) => StepsUpdate(s.phases, i, Summed(SummaryOf(resps[i])));
    case Write(i) => StepsUpdate(s.phases, i, Written);
    case Finish(i) => StepsUpdate(s.phases, i, Done);
  }

  lemma {:induction false} StepsSoFar(n: nat, schedule: seq<Action>, nodes: seq<Node>, resps: seq<Response>)
    requires n == |nodes| == |resps|
    ensures var r := Run(n, schedule, nodes, resps);
            r.Some? ==> r.value.added + r.value.spawned + StepsAll(r.value.phases) == |schedule|
  {
    hide SummaryOf, Inv;
    if schedule == [] {
      StepsOfAllDone(Init(n).phases);
    } else {
      var before, a := schedule[..|schedule| - 1], schedule[|schedule| - 1];
      StepsSoFar(n, before, nodes, resps);
      RunInv(n, before, nodes, resps);
      var r := Run(n, before, nodes, resps);
      if r.Some? && Enabled(r.value, a) {
        StepCounts(r.value, a, nodes, resps);
      }
    }
  }

  /** No schedule has more than five steps per node, and the answer is complete after
    * exactly so many. */
  lemma AnsweredAfter(n: nat, schedule: seq<Action>, nodes: seq<Node>, resps: seq<Response>)
    requires n == |nodes| == |resps| && Run(n, schedule, nodes, resps).Some?
    ensures |schedule| <= 5 * n
    ensures Answered(Run(n, schedule, nodes, resps).value) <==> |schedule| == 5 * n
  {
    RunInv(n, schedule, nodes, resps);
    StepsSoFar(n, schedule, nodes, resps);
    var s := Run(n, schedule, nodes, resps).value;
    StepsOfAllDone(s.phases);
    FinishedAll(s.phases);
    hide Run, StepsAll, Finished, SummaryOf;
  }

  lemma {:induction false} GoOn(n: nat, schedule: seq<Action>, nodes: seq<Node>, resps: seq<Response>)
    returns (whole: seq<Action>)
    requires n == |nodes| == |resps| && Run(n, schedule, nodes, resps).Some?
    ensures Run(n, whole, nodes, resps).Some? && |whole| == 5 * n && schedule <= whole
    decreases 5 * n - |schedule|
  {
    AnsweredAfter(n, schedule, nodes, resps);
    if |schedule| == 5 * n {
      return schedule;
    }
    NeverStuck(n, schedule, nodes, resps);
    hide Enabled, Answered;
    var a :| Enabled(Run(n, schedule, nodes, resps).value, a);
    assert (schedule + [a])[..|schedule|] == schedule;
    AnsweredAfter(n, schedule + [a], nodes, resps);
    whole := GoOn(n, schedule + [a], nodes, resps);
  }

  /** Any schedule so far can go on to the end, and there is one to begin with. */
  lemma AnswerComes(n: nat, nodes: seq<Node>, resps: seq<Response>) returns (schedule: seq<Action>)
    requires n == |nodes| == |resps|
    ensures var r := Run(n, schedule, nodes, resps); r.Some? && Answered(r.value)
  {
    schedule := GoOn(n, [], nodes, resps);
    AnsweredAfter(n, schedule, nodes, resps);
  }

  lemma {:induction false} FinishedAtMost(ps: seq<Phase>, k: nat)
    requires k <= |ps| && forall i :: k <= i < |ps| ==> ps[i] != Done
    ensures Finished(ps) <= k
  {
    if |ps| > k {
      FinishedAtMost(ps[..|ps| - 1], k);
    }
  }
}

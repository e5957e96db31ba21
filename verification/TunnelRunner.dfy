/** The data path of a running tunnel on top of its worker pool: listeners accept
  * connections, handlers scan the workers with separate atomic reads, copy bytes
  * in both directions and update the shared counters, and the stat flusher reads
  * those counters one by one and publishes a snapshot.
  */
module TunnelRunner {
  import opened Options
  import opened WorkerPool
  import opened Modular

  /** One copy direction of a handler; `n` counts the bytes delivered so far. */
  datatype Copier =
    | Running(n: nat)     // inside io.CopyBuffer
    | Returned(n: nat)    // about to add n to the shared counter
    | Recorded(n: nat)    // counted; the goroutine is done

  datatype HandlerPc =
    | Testing(i: nat)             // about to load healthy of the i-th worker of the scan
    | Fetching(i: nat)            // saw it healthy, about to load its client pointer
    | Opening(c: Client)          // inside client.Dial
    | Entering                    // channel open, about to add 1 to conns
    | Serving(up: Copier, down: Copier)
    | Left(up: Copier, down: Copier)     // conns decremented
    | NoWorker                    // the scan returned nil
    | Refused                     // client.Dial failed

  datatype Handler = Handler(start: nat, pc: HandlerPc)

  datatype Snapshot = Snapshot(
    bytesIn: nat, bytesOut: nat, conns: int, connected: nat, total: nat)

  datatype FlushPc =
    | Idle
    | Polling(i: nat, up: nat)                  // healthy workers among the first i
    | LoadIn(up: nat)
    | LoadOut(up: nat, bytesIn: nat)
    | LoadConns(up: nat, bytesIn: nat, bytesOut: nat)
    | Creating(snap: Snapshot)                  // the temporary file
    | Filling(snap: Snapshot)
    | Renaming(snap: Snapshot)

  /** A torn file does not parse. */
  datatype File = Missing | Torn | Complete(snap: Snapshot)

  /** `sentUp`, `sentDown` and `published` are not program variables: the bytes the copy
    * loops have delivered, and whether this runner has replaced the stat file yet.  Only
    * specifications read them. */
  datatype Sys = Sys(
    pool: Pool, rrs: seq<nat>, handlers: seq<Handler>,
    conns: int, bytesIn: nat, bytesOut: nat,
    sentUp: nat, sentDown: nat,
    flush: FlushPc, temp: File, stat: File, published: bool)

  datatype Step =
    | PoolStep(e: WorkerPool.Event)
    | Accept(l: nat)                            // a listener accepts and spawns a handler
    | Handle(h: nat, ok: bool)
    | Copy(h: nat, upload: bool, k: nat)        // k more bytes; 0 when CopyBuffer returns
    | Flush(ok: bool)

  ghost predicate Start(s: Sys) {
    && Init(s.pool) && s.handlers == [] && s.conns == 0 && s.bytesIn == s.bytesOut == 0
    && s.sentUp == s.sentDown == 0 && s.flush == Idle && !s.published
  }

  function SetPc(s: Sys, h: nat, pc: HandlerPc): Sys
    requires h < |s.handlers|
  {
    s.(handlers := s.handlers[h := s.handlers[h].(pc := pc)])
  }

  function ScanIndex(s: Sys, h: nat, i: nat): nat
    requires h < |s.handlers| && |s.pool.workers| >= 1
  {
    Spot(s.handlers[h].start + i, |s.pool.workers|)
  }

  function HandleStep(s: Sys, h: nat, ok: bool): Option<Sys>
    requires h < |s.handlers| && |s.pool.workers| >= 1
  {
    match s.handlers[h].pc
    case Testing(i) =>
      if i >= |s.pool.workers| then Some(SetPc(s, h, NoWorker))
      else if s.pool.workers[ScanIndex(s, h, i)].healthy then Some(SetPc(s, h, Fetching(i)))
      else Some(SetPc(s, h, Testing(i + 1)))
    case Fetching(i) =>
      (match s.pool.workers[ScanIndex(s, h, i)].client
       case Some(c) => Some(SetPc(s, h, Opening(c)))
       case None => Some(SetPc(s, h, Testing(i + 1))))
    case Opening(c) => Some(SetPc(s, h, if ok then Entering else Refused))
    case Entering =>
      Some(SetPc(s, h, HandlerPc.Serving(Running(0), Running(0))).(conns := s.conns + 1))
    case Serving(up, down) =>
      if up.Recorded? && down.Recorded? then Some(SetPc(s, h, Left(up, down)).(conns := s.conns - 1))
      else None
    case _ => None
  }

  function CopyStep(s: Sys, h: nat, upload: bool, k: nat): Option<Sys>
    requires h < |s.handlers| && s.handlers[h].pc.Serving?
  {
    var up, down := s.handlers[h].pc.up, s.handlers[h].pc.down;
    match if upload then up else down
    case Running(n) =>
      var c := if k == 0 then Returned(n) else Running(n + k);
      if upload then Some(SetPc(s, h, HandlerPc.Serving(c, down)).(sentUp := s.sentUp + k))
      else Some(SetPc(s, h, HandlerPc.Serving(up, c)).(sentDown := s.sentDown + k))
    case Returned(n) =>
      if upload then
        Some(SetPc(s, h, HandlerPc.Serving(Recorded(n), down)).(bytesOut := (s.bytesOut + n) % WRAP))
      else
        Some(SetPc(s, h, HandlerPc.Serving(up, Recorded(n))).(bytesIn := (s.bytesIn + n) % WRAP))
    case Recorded(_) => None
  }

  function FlushStep(s: Sys, ok: bool): Sys {
    match s.flush
    case Idle => s.(flush := Polling(0, 0))
    case Polling(i, up) =>
      if i >= |s.pool.workers| then s.(flush := LoadIn(up))
      else s.(flush := Polling(i + 1, if s.pool.workers[i].healthy then up + 1 else up))
    case LoadIn(up) => s.(flush := LoadOut(up, s.bytesIn))
    case LoadOut(up, bytesIn) => s.(flush := LoadConns(up, bytesIn, s.bytesOut))
    case LoadConns(up, bytesIn, bytesOut) =>
      s.(flush := Creating(Snapshot(bytesIn, bytesOut, s.conns, up, |s.pool.workers|)))
    case Creating(snap) => if ok then s.(flush := Filling(snap), temp := Torn) else s.(flush := Idle)
    case Filling(snap) => if ok then s.(flush := Renaming(snap), temp := Complete(snap)) else s.(flush := Idle)
    case Renaming(_) =>
      if ok then s.(flush := Idle, temp := Missing, stat := s.temp, published := true) else s.(flush := Idle)
  }

  /** What ReadStat returns at this instant. */
  function ReadStat(s: Sys): Option<Snapshot> {
    if s.stat.Complete? then Some(s.stat.snap) else None
  }

  function Do(s: Sys, e: Step): Option<Sys> {
    match e
    case PoolStep(pe) =>
      (match Next(s.pool, pe)
       case Some(p) => Some(s.(pool := p))
       case None => None)
    case Accept(l) =>
      if l < |s.rrs| then
        Some(s.(rrs := s.rrs[l := s.rrs[l] + 1],
             handlers := s.handlers + [Handler(s.rrs[l] + 1, Testing(0))]))
      else None
    case Handle(h, ok) =>
      if h < |s.handlers| && |s.pool.workers| >= 1 then HandleStep(s, h, ok) else None
    case Copy(h, upload, k) =>
      if h < |s.handlers| && s.handlers[h].pc.Serving? then CopyStep(s, h, upload, k) else None
    case Flush(ok) => Some(FlushStep(s, ok))
  }

  /** A run: the states of an execution and the step between each two of them. */
  ghost predicate IsRun(ss: seq<Sys>, es: seq<Step>) {
    && |ss| == |es| + 1
    && Start(ss[0])
    && forall m :: 0 <= m < |es| ==> Do(ss[m], es[m]) == Some(ss[m + 1])
  }

  predicate Finished(pc: HandlerPc) { pc.Left? || pc.NoWorker? || pc.Refused? }

  /** A step of the handler h itself. */
  predicate StepOf(e: Step, h: nat) { (e.Handle? || e.Copy?) && e.h == h }

  /** A handler can always go on until it has served its connection, found no worker or
    * been refused by its server; then it is done. */
  lemma HandlersNeverStuck(s: Sys, h: nat)
    requires h < |s.handlers| && |s.pool.workers| >= 1
    ensures (exists e :: StepOf(e, h) && Do(s, e).Some?) <==> !Finished(s.handlers[h].pc)
  {
    if !Finished(s.handlers[h].pc) {
      var pc := s.handlers[h].pc;
      var e := if !pc.Serving? || (pc.up.Recorded? && pc.down.Recorded?) then Handle(h, true)
      else Copy(h, !pc.up.Recorded?, 0);
      assert StepOf(e, h) && Do(s, e).Some?;
    }
  }

  // ---- Totals over handlers ----

  /** What handlers add up to: those between increment and decrement of `conns`,
    * the bytes added to the shared counters, and the bytes delivered but not yet
    * added. */
  datatype Tally = Tally(live: nat, countedUp: nat, countedDown: nat, pendingUp: nat, pendingDown: nat)

  function Plus(a: Tally, b: Tally): Tally {
    Tally(a.live + b.live, a.countedUp + b.countedUp, a.countedDown + b.countedDown,
          a.pendingUp + b.pendingUp, a.pendingDown + b.pendingDown)
  }

  function Share(h: Handler): Tally {
    match h.pc
    case Serving(up, down) =>
      Tally(1, Counted(up), Counted(down), up.n - Counted(up), down.n - Counted(down))
    case Left(up, down) => Tally(0, Counted(up), Counted(down), 0, 0)
    case _ => Tally(0, 0, 0, 0, 0)
  }

  function Counted(c: Copier): (r: nat)
    ensures r <= c.n
  {
    if c.Recorded? then c.n else 0
  }

  function Total(hs: seq<Handler>): Tally {
    if hs == [] then Tally(0, 0, 0, 0, 0)
    else Plus(Total(hs[..|hs| - 1]), Share(hs[|hs| - 1]))
  }

  lemma {:induction false} TotalPut(hs: seq<Handler>, h: nat, x: Handler)
    requires h < |hs|
    ensures Plus(Total(hs[h := x]), Share(hs[h])) == Plus(Total(hs), Share(x))
  {
    hide Share;
    var front, n := hs[..|hs| - 1], |hs| - 1;
    var put := hs[h := x];
    if h == n {
      assert put[..n] == front && put[n] == x;
    } else {
      TotalPut(front, h, x);
      assert put[..n] == front[h := x] && put[n] == hs[n];
    }
  }

  lemma TotalPush(hs: seq<Handler>, x: Handler)
    ensures Total(hs + [x]) == Plus(Total(hs), Share(x))
  {
    assert (hs + [x])[..|hs|] == hs;
  }

  // ---- The invariant ----

  ghost predicate Matches(s: Sys, all: Tally) {
    && s.conns == all.live
    && s.bytesOut == all.countedUp % WRAP
    && s.bytesIn == all.countedDown % WRAP
    && s.sentUp == all.countedUp + all.pendingUp
    && s.sentDown == all.countedDown + all.pendingDown
  }

  ghost predicate CountersOk(s: Sys) {
    Matches(s, Total(s.handlers))
  }

  /** A snapshot shows no more than has been counted, and no more connected
    * workers than there are. */
  ghost predicate SnapshotOk(s: Sys, snap: Snapshot) {
    && snap.bytesIn <= Total(s.handlers).countedDown
    && snap.bytesOut <= Total(s.handlers).countedUp
    && 0 <= snap.conns
    && snap.connected <= snap.total == |s.pool.workers|
  }

  ghost predicate FlushOk(s: Sys) {
    && (s.published ==> s.stat.Complete? && SnapshotOk(s, s.stat.snap))
    && match s.flush
       case Idle => true
       case Polling(i, up) => up <= i <= |s.pool.workers|
       case LoadIn(up) => up <= |s.pool.workers|
       case LoadOut(up, bytesIn) => SnapshotOk(s, Snapshot(bytesIn, 0, 0, up, |s.pool.workers|))
       case LoadConns(up, bytesIn, bytesOut) =>
         SnapshotOk(s, Snapshot(bytesIn, bytesOut, 0, up, |s.pool.workers|))
       case Creating(snap) => SnapshotOk(s, snap)
       case Filling(snap) => SnapshotOk(s, snap)
       case Renaming(snap) => SnapshotOk(s, snap) && s.temp == Complete(snap)
  }

  ghost predicate SysInv(s: Sys) {
    Inv(s.pool) && CountersOk(s) && FlushOk(s)
  }

  /** A step that moves one share from x to y moves the counters along with it. */
  ghost predicate MovesWith(s: Sys, t: Sys, x: Tally, y: Tally) {
    && t.conns == s.conns - x.live + y.live
    && x.countedUp <= y.countedUp && x.countedDown <= y.countedDown
    && t.bytesOut == (s.bytesOut + (y.countedUp - x.countedUp)) % WRAP
    && t.bytesIn == (s.bytesIn + (y.countedDown - x.countedDown)) % WRAP
    && t.sentUp - s.sentUp == y.countedUp + y.pendingUp - x.countedUp - x.pendingUp
    && t.sentDown - s.sentDown == y.countedDown + y.pendingDown - x.countedDown - x.pendingDown
  }

  lemma HandleMoves(s: Sys, h: nat, ok: bool, t: Sys)
    requires s.bytesIn < WRAP && s.bytesOut < WRAP && Do(s, Handle(h, ok)) == Some(t)
    ensures h < |s.handlers| == |t.handlers|
    ensures t.handlers == s.handlers[h := t.handlers[h]]
    ensures MovesWith(s, t, Share(s.handlers[h]), Share(t.handlers[h]))
  {
    OwnStep(s, Handle(h, ok), t);
    RemainderIs(s.bytesIn, WRAP, 0, s.bytesIn);
    RemainderIs(s.bytesOut, WRAP, 0, s.bytesOut);
    hide Do, WRAP;
  }

  lemma OwnCopy(s: Sys, h: nat, upload: bool, k: nat, t: Sys)
    requires Do(s, Copy(h, upload, k)) == Some(t)
    ensures h < |s.handlers| && s.handlers[h].pc.Serving? && CopyStep(s, h, upload, k) == Some(t)
  {
  }

  lemma CopyMoves(s: Sys, h: nat, upload: bool, k: nat, t: Sys)
    requires s.bytesIn < WRAP && s.bytesOut < WRAP && Do(s, Copy(h, upload, k)) == Some(t)
    ensures h < |s.handlers| == |t.handlers|
    ensures t.handlers == s.handlers[h := t.handlers[h]]
    ensures MovesWith(s, t, Share(s.handlers[h]), Share(t.handlers[h]))
  {
    OwnCopy(s, h, upload, k, t);
    RemainderIs(s.bytesIn, WRAP, 0, s.bytesIn);
    RemainderIs(s.bytesOut, WRAP, 0, s.bytesOut);
    hide Do, WRAP;
  }

  lemma MatchesAdvance(s: Sys, t: Sys, before: Tally, after: Tally, x: Tally, y: Tally)
    requires Matches(s, before) && MovesWith(s, t, x, y)
    requires Plus(after, x) == Plus(before, y)
    ensures Matches(t, after)
    ensures before.countedUp <= after.countedUp && before.countedDown <= after.countedDown
  {
    AddInside(before.countedUp, y.countedUp - x.countedUp, WRAP);
    AddInside(before.countedDown, y.countedDown - x.countedDown, WRAP);
  }

  lemma HandlerCounters(s: Sys, e: Step, t: Sys, h: nat)
    requires CountersOk(s)
    requires Do(s, e) == Some(t) && ((e.Handle? && e.h == h) || (e.Copy? && e.h == h))
    ensures CountersOk(t)
    ensures Total(s.handlers).countedUp <= Total(t.handlers).countedUp
    ensures Total(s.handlers).countedDown <= Total(t.handlers).countedDown
  {
    if e.Handle? {
      HandleMoves(s, h, e.ok, t);
    } else {
      CopyMoves(s, h, e.upload, e.k, t);
    }
    hide Do, Total;
    TotalPut(s.handlers, h, t.handlers[h]);
    MatchesAdvance(s, t, Total(s.handlers), Total(t.handlers), Share(s.handlers[h]), Share(t.handlers[h]));
  }

  lemma AcceptPushes(s: Sys, e: Step, t: Sys) returns (x: Handler)
    requires Do(s, e) == Some(t) && e.Accept?
    ensures t.handlers == s.handlers + [x] && Share(x) == Tally(0, 0, 0, 0, 0)
    ensures t == s.(rrs := t.rrs, handlers := t.handlers)
  {
    x := t.handlers[|s.handlers|];
  }

  lemma AcceptCounters(s: Sys, e: Step, t: Sys)
    requires CountersOk(s) && Do(s, e) == Some(t) && e.Accept?
    ensures CountersOk(t)
    ensures Total(s.handlers).countedUp == Total(t.handlers).countedUp
    ensures Total(s.handlers).countedDown == Total(t.handlers).countedDown
  {
    hide Total;
    var x := AcceptPushes(s, e, t);
    hide Do, Share;
    TotalPush(s.handlers, x);
  }

  lemma CountersInv(s: Sys, e: Step, t: Sys)
    requires SysInv(s) && Do(s, e) == Some(t)
    ensures Inv(t.pool) && CountersOk(t) && |t.pool.workers| == |s.pool.workers|
    ensures Total(s.handlers).countedUp <= Total(t.handlers).countedUp
    ensures Total(s.handlers).countedDown <= Total(t.handlers).countedDown
  {
    hide Total, Next, Inv;
    match e
    case PoolStep(pe) => NextInv(s.pool, pe, t.pool);
    case Accept(l) => AcceptCounters(s, e, t);
    case Handle(h, _) => HandlerCounters(s, e, t, h);
    case Copy(h, _, _) => HandlerCounters(s, e, t, h);
    case Flush(ok) =>
  }

  lemma FlushInv(s: Sys, ok: bool)
    requires CountersOk(s) && FlushOk(s)
    ensures FlushOk(FlushStep(s, ok))
  {
    assert s.bytesIn <= Total(s.handlers).countedDown;
    assert s.bytesOut <= Total(s.handlers).countedUp;
  }

  lemma OnlyFlushFlushes(s: Sys, e: Step, t: Sys)
    requires Do(s, e) == Some(t) && !e.Flush?
    ensures t.flush == s.flush && t.temp == s.temp && t.stat == s.stat && t.published == s.published
  {
  }

  /** Every step of every goroutine keeps the invariant, and the recorded byte
    * totals never fall. */
  lemma DoInv(s: Sys, e: Step, t: Sys)
    requires SysInv(s) && Do(s, e) == Some(t)
    ensures SysInv(t) && |t.pool.workers| == |s.pool.workers|
    ensures Total(s.handlers).countedUp <= Total(t.handlers).countedUp
    ensures Total(s.handlers).countedDown <= Total(t.handlers).countedDown
  {
    hide Total, Inv, CountersOk, FlushOk, FlushStep;
    CountersInv(s, e, t);
    if e.Flush? {
      FlushInv(s, e.ok);
    } else {
      OnlyFlushFlushes(s, e, t);
      FlushStays(s, t);
    }
  }

  lemma FlushStays(s: Sys, t: Sys)
    requires FlushOk(s) && t.flush == s.flush && t.temp == s.temp && t.stat == s.stat && t.published == s.published
    requires |t.pool.workers| == |s.pool.workers|
    requires Total(s.handlers).countedUp <= Total(t.handlers).countedUp
    requires Total(s.handlers).countedDown <= Total(t.handlers).countedDown
    ensures FlushOk(t)
  {
    hide Total;
  }

  /** The invariant holds in every state of every run. */
  lemma {:induction false} RunInv(ss: seq<Sys>, es: seq<Step>, m: nat)
    requires IsRun(ss, es) && m < |ss|
    ensures SysInv(ss[m]) && |ss[m].pool.workers| == |ss[0].pool.workers|
  {
    if m == 0 {
      InitInv(ss[0].pool);
    } else {
      RunInv(ss, es, m - 1);
      DoInv(ss[m - 1], es[m - 1], ss[m]);
    }
  }

  // ---- The non-atomic scan ----

  function UnhealthyAt(s: Sys, j: nat): bool {
    j < |s.pool.workers| && !s.pool.workers[j].healthy
  }

  /** Some state of the run between a and b shows worker j unhealthy. */
  ghost predicate UnhealthyWithin(ss: seq<Sys>, j: nat, a: nat, b: nat) {
    exists m: nat :: a <= m <= b && m < |ss| && UnhealthyAt(ss[m], j)
  }

  function Scanned(s: Sys, h: nat): nat
    requires h < |s.handlers|
  {
    match s.handlers[h].pc
    case Testing(i) => i
    case Fetching(i) => i
    case NoWorker => |s.pool.workers|
    case _ => 0
  }

  /** The scan that began at `start` is past its i-th worker with good reason. */
  ghost predicate PassedOver(ss: seq<Sys>, start: nat, i: nat, a: nat, b: nat)
    requires |ss| >= 1 && |ss[0].pool.workers| >= 1
  {
    UnhealthyWithin(ss, Spot(start + i, |ss[0].pool.workers|), a, b)
  }

  ghost predicate ScanOk(ss: seq<Sys>, h: nat, start: nat, a: nat, b: nat)
    requires b < |ss|
  {
    var t, n := ss[b], |ss[0].pool.workers|;
    && |t.pool.workers| == n >= 1
    && h < |t.handlers| && t.handlers[h].start == start
    && Scanned(t, h) <= n
    && (t.handlers[h].pc.Fetching? ==> Scanned(t, h) < n)
    && forall i: nat :: i < Scanned(t, h) ==> PassedOver(ss, start, i, a, b)
  }

  lemma WithinAt(ss: seq<Sys>, j: nat, a: nat, m: nat)
    requires a <= m < |ss| && UnhealthyAt(ss[m], j)
    ensures UnhealthyWithin(ss, j, a, m + 1)
  {
  }

  lemma WithinGrows(ss: seq<Sys>, j: nat, a: nat, b: nat)
    requires UnhealthyWithin(ss, j, a, b)
    ensures UnhealthyWithin(ss, j, a, b + 1)
  {
    var m: nat :| a <= m <= b && m < |ss| && UnhealthyAt(ss[m], j);
  }

  lemma ScanBounds(s: Sys, e: Step, t: Sys, h: nat)
    requires SysInv(s) && Do(s, e) == Some(t) && h < |s.handlers|
    requires s.handlers[h].pc.Fetching? ==> Scanned(s, h) < |s.pool.workers|
    requires Scanned(s, h) <= |s.pool.workers|
    ensures h < |t.handlers| && |t.pool.workers| == |s.pool.workers| && Scanned(t, h) <= |s.pool.workers|
  {
    hide Do, SysInv;
    DoInv(s, e, t);
    KeepsHandler(s, e, t, h);
  }

  lemma ScanAdvance(ss: seq<Sys>, es: seq<Step>, h: nat, start: nat, a: nat, b: nat, i: nat)
    requires 0 < b < |ss| && b <= |es| && a < b && Do(ss[b - 1], es[b - 1]) == Some(ss[b])
    requires SysInv(ss[b - 1]) && ScanOk(ss, h, start, a, b - 1)
    requires h < |ss[b].handlers| && i < Scanned(ss[b], h)
    ensures PassedOver(ss, start, i, a, b)
  {
    hide Spot, Do, UnhealthyAt, UnhealthyWithin, SysInv;
    var s := ss[b - 1];
    ScanBounds(s, es[b - 1], ss[b], h);
    if i < Scanned(s, h) {
      assert PassedOver(ss, start, i, a, b - 1);
      WithinGrows(ss, Spot(start + i, |ss[0].pool.workers|), a, b - 1);
    } else {
      hide ScanOk;
      JustPassed(s, es[b - 1], ss[b], h, i);
      WithinAt(ss, ScanIndex(s, h, i), a, b - 1);
    }
  }

  /** The worker a scan has just gone past was seen unhealthy, or its pointer was nil
    * and the invariant makes it unhealthy. */
  lemma JustPassed(s: Sys, e: Step, t: Sys, h: nat, i: nat)
    requires SysInv(s) && Do(s, e) == Some(t) && h < |s.handlers| && h < |t.handlers|
    requires Scanned(s, h) <= i < Scanned(t, h) <= |t.pool.workers| == |s.pool.workers|
    ensures |s.pool.workers| >= 1 && UnhealthyAt(s, ScanIndex(s, h, i))
  {
    hide Spot, Inv, CountersOk, FlushOk, Do;
    OnlyOwnSteps(s, e, t, h);
    OwnStep(s, e, t);
    HealthyHasOpenClient(s.pool, ScanIndex(s, h, i));
  }

  lemma OwnStep(s: Sys, e: Step, t: Sys)
    requires Do(s, e) == Some(t) && e.Handle?
    ensures e.h < |s.handlers| && |s.pool.workers| >= 1 && HandleStep(s, e.h, e.ok) == Some(t)
  {
  }

  /** A handler's step, but for copying, changes that handler only. */
  lemma StepElsewhere(s: Sys, e: Step, t: Sys, h: nat)
    requires Do(s, e) == Some(t) && h < |s.handlers| && !(e.Handle? && e.h == h)
    ensures h < |t.handlers| && t.handlers[h].start == s.handlers[h].start
    ensures t.handlers[h].pc == s.handlers[h].pc || (t.handlers[h].pc.Serving? && s.handlers[h].pc.Serving?)
  {
    hide HandleStep, CopyStep, FlushStep, Next;
    if e.Handle? {
      OneHandlerMoves(s, e.h, e.ok, t);
    } else if e.Copy? {
      OneCopyMoves(s, e.h, e.upload, e.k, t);
    } else if e.Flush? {
      FlushAlone(s, e.ok);
    }
  }

  lemma FlushAlone(s: Sys, ok: bool)
    ensures FlushStep(s, ok).handlers == s.handlers
  {
  }

  lemma OneCopyMoves(s: Sys, h: nat, upload: bool, k: nat, t: Sys)
    requires h < |s.handlers| && s.handlers[h].pc.Serving? && CopyStep(s, h, upload, k) == Some(t)
    ensures |s.handlers| == |t.handlers|
    ensures t.handlers[h].pc.Serving? && t.handlers[h].start == s.handlers[h].start
    ensures forall i :: 0 <= i < |s.handlers| && i != h ==> t.handlers[i] == s.handlers[i]
  {
  }

  /** A scan moves only with its own handler. */
  lemma OnlyOwnSteps(s: Sys, e: Step, t: Sys, h: nat)
    requires Do(s, e) == Some(t) && h < |s.handlers| && h < |t.handlers|
    requires |t.pool.workers| == |s.pool.workers|
    ensures (e.Handle? && e.h == h) || Scanned(t, h) == Scanned(s, h)
  {
    hide Do;
    if !(e.Handle? && e.h == h) {
      StepElsewhere(s, e, t, h);
    }
  }

  lemma OneHandlerMoves(s: Sys, h: nat, ok: bool, t: Sys)
    requires h < |s.handlers| && |s.pool.workers| >= 1 && HandleStep(s, h, ok) == Some(t)
    ensures |s.handlers| == |t.handlers|
    ensures forall k :: 0 <= k < |s.handlers| && k != h ==> t.handlers[k] == s.handlers[k]
  {
  }

  lemma {:induction false} ScanProgress(ss: seq<Sys>, es: seq<Step>, h: nat, a: nat, b: nat)
    requires IsRun(ss, es) && a <= b < |ss|
    requires h < |ss[a].handlers| && ss[a].handlers[h].pc == Testing(0)
    ensures ScanOk(ss, h, ss[a].handlers[h].start, a, b)
    decreases b
  {
    hide Do;
    RunInv(ss, es, b);
    if a < b {
      ScanProgress(ss, es, h, a, b - 1);
      RunInv(ss, es, b - 1);
      KeepsHandler(ss[b - 1], es[b - 1], ss[b], h);
      forall i: nat | i < Scanned(ss[b], h)
        ensures PassedOver(ss, ss[a].handlers[h].start, i, a, b)
      {
        ScanAdvance(ss, es, h, ss[a].handlers[h].start, a, b, i);
      }
    }
  }

  lemma KeepsHandler(s: Sys, e: Step, t: Sys, h: nat)
    requires Do(s, e) == Some(t) && h < |s.handlers| && |s.pool.workers| == |t.pool.workers|
    requires s.handlers[h].pc.Fetching? ==> Scanned(s, h) < |s.pool.workers|
    requires Scanned(s, h) <= |s.pool.workers|
    ensures h < |t.handlers| && t.handlers[h].start == s.handlers[h].start
    ensures Scanned(t, h) <= |s.pool.workers|
    ensures t.handlers[h].pc.Fetching? ==> Scanned(t, h) < |s.pool.workers|
  {
    hide Do;
    if e.Handle? && e.h == h {
      OwnStep(s, e, t);
    } else {
      StepElsewhere(s, e, t, h);
    }
  }

  /** A scan that returns nil saw, for every worker, an instant during the scan at
    * which that worker was unhealthy. */
  lemma NilScanMeansEachUnhealthy(ss: seq<Sys>, es: seq<Step>, h: nat, a: nat, b: nat, j: nat)
    requires IsRun(ss, es) && a <= b < |ss|
    requires h < |ss[a].handlers| && ss[a].handlers[h].pc == Testing(0)
    requires h < |ss[b].handlers| && ss[b].handlers[h].pc == NoWorker
    requires j < |ss[0].pool.workers|
    ensures UnhealthyWithin(ss, j, a, b)
  {
    ScanProgress(ss, es, h, a, b);
    var n, r := |ss[0].pool.workers|, ss[a].handlers[h].start;
    var i := (j - r) % n;
    assert (r + i) % n == j by {
      AddInside(j - r, r, n);
      RemainderIs(j, n, 0, j);
    }
    assert PassedOver(ss, r, i, a, b);
  }

  /** One worker that stays healthy during the whole scan guarantees a client. */
  lemma HealthyThroughoutGuaranteesClient(ss: seq<Sys>, es: seq<Step>, h: nat, a: nat, b: nat, j: nat)
    requires IsRun(ss, es) && a <= b < |ss|
    requires h < |ss[a].handlers| && ss[a].handlers[h].pc == Testing(0)
    requires j < |ss[0].pool.workers|
    requires forall m :: a <= m <= b ==> !UnhealthyAt(ss[m], j)
    ensures h < |ss[b].handlers| && ss[b].handlers[h].pc != NoWorker
  {
    ScanProgress(ss, es, h, a, b);
    if ss[b].handlers[h].pc == NoWorker {
      NilScanMeansEachUnhealthy(ss, es, h, a, b, j);
    }
  }

  /** A client a scan returns was, at the instant its pointer was read, the client
    * of the scanned worker, held by that worker's maintainer alone, and still
    * open unless the tunnel was shutting down. */
  lemma ScanReturnsLiveClient(ss: seq<Sys>, es: seq<Step>, m: nat, h: nat)
    requires IsRun(ss, es) && m < |es| && es[m].Handle? && es[m].h == h
    requires h < |ss[m].handlers| && ss[m].handlers[h].pc.Fetching?
    requires h < |ss[m + 1].handlers| && ss[m + 1].handlers[h].pc.Opening?
    ensures var p := ss[m].pool;
            var c := ss[m + 1].handlers[h].pc.c;
            |p.workers| >= 1 &&
            (var j := ScanIndex(ss[m], h, ss[m].handlers[h].pc.i);
             && HeldBy(p, c, j) && (forall k: nat :: HeldBy(p, c, k) ==> k == j)
             && (c in OpenClients(p) || p.cancelled))
  {
    RunInv(ss, es, m);
    var p := ss[m].pool;
    var j := ScanIndex(ss[m], h, ss[m].handlers[h].pc.i);
    HealthyHasOpenClient(p, j);
    assert AtomicsOk(p.workers[j]);
    assert HeldBy(p, ss[m + 1].handlers[h].pc.c, j);
  }

  // ---- When a scan can miss a worker that is always there ----

  predicate SomeoneHealthy(s: Sys) {
    exists j :: 0 <= j < |s.pool.workers| && s.pool.workers[j].healthy
  }

  /** Handler h scans from a to b and finds nothing, although in every state of the
    * scan some worker is healthy. */
  ghost predicate UnluckyScan(ss: seq<Sys>, h: nat, a: nat, b: nat) {
    && a <= b < |ss|
    && h < |ss[a].handlers| && ss[a].handlers[h].pc == Testing(0)
    && h < |ss[b].handlers| && ss[b].handlers[h].pc == NoWorker
    && forall m :: a <= m <= b ==> SomeoneHealthy(ss[m])
  }

  /** A single worker cannot be missed. */
  lemma OneWorkerNeverUnlucky(ss: seq<Sys>, es: seq<Step>, h: nat, a: nat, b: nat)
    requires IsRun(ss, es) && |ss[0].pool.workers| == 1
    ensures !UnluckyScan(ss, h, a, b)
  {
    if UnluckyScan(ss, h, a, b) {
      NilScanMeansEachUnhealthy(ss, es, h, a, b, 0);
      var m: nat :| a <= m <= b && m < |ss| && UnhealthyAt(ss[m], 0);
      RunInv(ss, es, m);
    }
  }

  const IDLE := Worker(Head, None, false)

  /** n workers, all idle but the first two. */
  function Workers(n: nat, w0: Worker, w1: Worker): seq<Worker> {
    seq(n, i => if i == 0 then w0 else if i == 1 then w1 else IDLE)
  }

  /** A tunnel of n workers with one listener, before any flush. */
  function Tunnel(n: nat, w0: Worker, w1: Worker, dialled: nat, hs: seq<Handler>): Sys {
    Sys(Pool(Workers(n, w0, w1), false, dialled, {}, Waiting), [|hs|], hs, 0, 0, 0, 0, 0, Idle, Missing, Missing, false)
  }

  /** One maintainer step of a worker from k to k2, raising the number of dials from d
    * to d2. */
  ghost predicate Moves(k: Worker, d: nat, k2: Worker, d2: nat) {
    match k.pc
    case Head => k2 == k.(pc := Dialling) && d2 == d
    case Dialling => k2 == k.(pc := Publishing(d)) && d2 == d + 1
    case Publishing(c) => k2 == k.(pc := Marking(c), client := Some(c)) && d2 == d
    case Marking(c) => k2 == k.(pc := Pc.Serving(c), healthy := true) && d2 == d
    case Serving(c) => k2 == k.(pc := Unmarking(c)) && d2 == d
    case Unmarking(c) => k2 == k.(pc := Clearing(c), healthy := false) && d2 == d
    case _ => false
  }

  /** A run of n workers ending in s, during which, from state a on, the handlers'
    * first scan has begun and some worker is always healthy. */
  ghost predicate Underway(ss: seq<Sys>, es: seq<Step>, n: nat, a: nat, s: Sys) {
    && IsRun(ss, es) && |ss[0].pool.workers| == n && ss[|ss| - 1] == s
    && a < |ss| && ss[a].handlers == [Handler(1, Testing(0))]
    && forall m :: a <= m < |ss| ==> SomeoneHealthy(ss[m])
  }

  lemma RunGrows(ss: seq<Sys>, es: seq<Step>, e: Step, t: Sys)
    requires IsRun(ss, es) && Do(ss[|ss| - 1], e) == Some(t)
    ensures IsRun(ss + [t], es + [e])
  {
    hide Do;
    var ss', es' := ss + [t], es + [e];
    forall m | 0 <= m < |es'|
      ensures Do(ss'[m], es'[m]) == Some(ss'[m + 1])
    {
      assert m < |es| ==> ss'[m] == ss[m] && es'[m] == es[m] && ss'[m + 1] == ss[m + 1];
    }
  }

  lemma Goes(ss: seq<Sys>, es: seq<Step>, n: nat, a: nat, s: Sys, e: Step, t: Sys)
    returns (ss': seq<Sys>, es': seq<Step>)
    requires Underway(ss, es, n, a, s) && Do(s, e) == Some(t) && SomeoneHealthy(t)
    ensures Underway(ss', es', n, a, t)
  {
    hide Do, IsRun, SomeoneHealthy;
    RunGrows(ss, es, e, t);
    ss', es' := ss + [t], es + [e];
    assert |ss'| >= 1 && ss'[0] == ss[0] && ss'[a] == ss[a];
  }

  lemma MoveFirst(n: nat, w0: Worker, w1: Worker, d: nat, hs: seq<Handler>, k: Worker, d2: nat)
    requires n >= 2 && Moves(w0, d, k, d2)
    ensures Do(Tunnel(n, w0, w1, d, hs), PoolStep(Maintain(0, true))) == Some(Tunnel(n, k, w1, d2, hs))
  {
    assert Workers(n, w0, w1)[0 := k] == Workers(n, k, w1);
  }

  lemma MoveSecond(n: nat, w0: Worker, w1: Worker, d: nat, hs: seq<Handler>, k: Worker, d2: nat)
    requires n >= 2 && Moves(w1, d, k, d2)
    ensures Do(Tunnel(n, w0, w1, d, hs), PoolStep(Maintain(1, true))) == Some(Tunnel(n, w0, k, d2, hs))
  {
    assert Workers(n, w0, w1)[1 := k] == Workers(n, w0, k);
  }

  /** The scan begins at worker 1 and passes over an unhealthy worker. */
  lemma PassOver(n: nat, w0: Worker, w1: Worker, d: nat, i: nat)
    requires n >= 2 && i < n && !Workers(n, w0, w1)[(1 + i) % n].healthy
    ensures Do(Tunnel(n, w0, w1, d, [Handler(1, Testing(i))]), Handle(0, true)) ==
            Some(Tunnel(n, w0, w1, d, [Handler(1, Testing(i + 1))]))
  {
    assert [Handler(1, Testing(i))][0 := Handler(1, Testing(i + 1))] == [Handler(1, Testing(i + 1))];
  }

  const SERVING0 := Worker(Pc.Serving(0), Some(0), true)

  /** The first worker connects, then a connection arrives. */
  lemma ScanBegins(n: nat) returns (ss: seq<Sys>, es: seq<Step>)
    requires n >= 2
    ensures Underway(ss, es, n, 5, Tunnel(n, SERVING0, IDLE, 1, [Handler(1, Testing(0))]))
  {
    var d, p := IDLE.(pc := Dialling), IDLE.(pc := Publishing(0));
    var m := Worker(Marking(0), Some(0), false);
    var s0, s1, s2 := Tunnel(n, IDLE, IDLE, 0, []), Tunnel(n, d, IDLE, 0, []), Tunnel(n, p, IDLE, 1, []);
    var s3, s4 := Tunnel(n, m, IDLE, 1, []), Tunnel(n, SERVING0, IDLE, 1, []);
    var s5 := Tunnel(n, SERVING0, IDLE, 1, [Handler(1, Testing(0))]);
    MoveFirst(n, IDLE, IDLE, 0, [], d, 0);
    MoveFirst(n, d, IDLE, 0, [], p, 1);
    MoveFirst(n, p, IDLE, 1, [], m, 1);
    MoveFirst(n, m, IDLE, 1, [], SERVING0, 1);
    assert Do(s4, Accept(0)) == Some(s5) by {
      assert [0][0 := 1] == [1] && [] + [Handler(1, Testing(0))] == [Handler(1, Testing(0))];
      assert s4.rrs == [0] && s5.rrs == [1];
    }
    assert s5.pool.workers[0].healthy;
    assert Start(s0) && |s0.pool.workers| == n;
    hide Do, Tunnel, Start;
    var e := PoolStep(Maintain(0, true));
    ss, es := [s0], [];
    RunGrows(ss, es, e, s1);
    RunGrows([s0] + [s1], [] + [e], e, s2);
    ss, es := [s0] + [s1] + [s2], [] + [e] + [e];
    RunGrows(ss, es, e, s3);
    ss, es := ss + [s3], es + [e];
    RunGrows(ss, es, e, s4);
    ss, es := ss + [s4], es + [e];
    RunGrows(ss, es, Accept(0), s5);
    ss, es := ss + [s5], es + [Accept(0)];
    assert |ss| == 6 && ss[5] == s5 && ss[0] == s0;
  }

  /** The scan passes over i idle workers. */
  lemma {:induction false} Passing(n: nat, i: nat) returns (ss: seq<Sys>, es: seq<Step>)
    requires n >= 2 && i < n
    ensures Underway(ss, es, n, 5, Tunnel(n, SERVING0, IDLE, 1, [Handler(1, Testing(i))]))
  {
    if i == 0 {
      ss, es := ScanBegins(n);
    } else {
      ss, es := Passing(n, i - 1);
      var s, t := Tunnel(n, SERVING0, IDLE, 1, [Handler(1, Testing(i - 1))]),
                  Tunnel(n, SERVING0, IDLE, 1, [Handler(1, Testing(i))]);
      RemainderIs(1 + (i - 1), n, 0, i);
      PassOver(n, SERVING0, IDLE, 1, i - 1);
      assert t.pool.workers[0].healthy;
      hide Do, Tunnel, Underway;
      ss, es := Goes(ss, es, n, 5, s, Handle(0, true), t);
    }
  }

  lemma FirstServes(n: nat, w1: Worker, d: nat, hs: seq<Handler>)
    requires n >= 2
    ensures SomeoneHealthy(Tunnel(n, SERVING0, w1, d, hs))
    ensures SomeoneHealthy(Tunnel(n, SERVING0.(pc := Unmarking(0)), w1, d, hs))
  {
    assert Tunnel(n, SERVING0, w1, d, hs).pool.workers[0].healthy;
    assert Tunnel(n, SERVING0.(pc := Unmarking(0)), w1, d, hs).pool.workers[0].healthy;
  }

  lemma SecondServes(n: nat, w0: Worker, w1: Worker, d: nat, hs: seq<Handler>)
    requires n >= 2 && w1.healthy
    ensures SomeoneHealthy(Tunnel(n, w0, w1, d, hs))
  {
    assert Tunnel(n, w0, w1, d, hs).pool.workers[1].healthy;
  }

  /** Behind the scan's back the second worker connects; then the first, which the scan
    * has not reached yet, loses its connection. */
  lemma Handover(n: nat) returns (ss: seq<Sys>, es: seq<Step>)
    requires n >= 2
    ensures var s0, s1 := SERVING0.(pc := Clearing(0), healthy := false), Worker(Pc.Serving(1), Some(1), true);
            Underway(ss, es, n, 5, Tunnel(n, s0, s1, 2, [Handler(1, Testing(n - 1))]))
  {
    ss, es := Passing(n, n - 1);
    var hs := [Handler(1, Testing(n - 1))];
    var e0, e1 := PoolStep(Maintain(0, true)), PoolStep(Maintain(1, true));
    var d, p := IDLE.(pc := Dialling), IDLE.(pc := Publishing(1));
    var m, s := Worker(Marking(1), Some(1), false), Worker(Pc.Serving(1), Some(1), true);
    var u0, c0 := SERVING0.(pc := Unmarking(0)), SERVING0.(pc := Clearing(0), healthy := false);
    hide Do, Tunnel, Underway, SomeoneHealthy;
    MoveSecond(n, SERVING0, IDLE, 1, hs, d, 1);
    FirstServes(n, d, 1, hs);
    ss, es := Goes(ss, es, n, 5, Tunnel(n, SERVING0, IDLE, 1, hs), e1, Tunnel(n, SERVING0, d, 1, hs));
    MoveSecond(n, SERVING0, d, 1, hs, p, 2);
    FirstServes(n, p, 2, hs);
    ss, es := Goes(ss, es, n, 5, Tunnel(n, SERVING0, d, 1, hs), e1, Tunnel(n, SERVING0, p, 2, hs));
    MoveSecond(n, SERVING0, p, 2, hs, m, 2);
    FirstServes(n, m, 2, hs);
    ss, es := Goes(ss, es, n, 5, Tunnel(n, SERVING0, p, 2, hs), e1, Tunnel(n, SERVING0, m, 2, hs));
    MoveSecond(n, SERVING0, m, 2, hs, s, 2);
    FirstServes(n, s, 2, hs);
    ss, es := Goes(ss, es, n, 5, Tunnel(n, SERVING0, m, 2, hs), e1, Tunnel(n, SERVING0, s, 2, hs));
    MoveFirst(n, SERVING0, s, 2, hs, u0, 2);
    ss, es := Goes(ss, es, n, 5, Tunnel(n, SERVING0, s, 2, hs), e0, Tunnel(n, u0, s, 2, hs));
    MoveFirst(n, u0, s, 2, hs, c0, 2);
    SecondServes(n, c0, s, 2, hs);
    ss, es := Goes(ss, es, n, 5, Tunnel(n, u0, s, 2, hs), e0, Tunnel(n, c0, s, 2, hs));
  }

  /** With two or more workers a scan can miss them all. */
  lemma ManyWorkersCanBeUnlucky(n: nat) returns (ss: seq<Sys>, es: seq<Step>, b: nat)
    requires n >= 2
    ensures IsRun(ss, es) && |ss[0].pool.workers| == n && UnluckyScan(ss, 0, 5, b)
  {
    ss, es := Handover(n);
    var c0, s := SERVING0.(pc := Clearing(0), healthy := false), Worker(Pc.Serving(1), Some(1), true);
    var s1, s2 := Tunnel(n, c0, s, 2, [Handler(1, Testing(n - 1))]), Tunnel(n, c0, s, 2, [Handler(1, Testing(n))]);
    var s3 := Tunnel(n, c0, s, 2, [Handler(1, NoWorker)]);
    RemainderIs(1 + (n - 1), n, 1, 0);
    PassOver(n, c0, s, 2, n - 1);
    SecondServes(n, c0, s, 2, [Handler(1, Testing(n))]);
    ss, es := Goes(ss, es, n, 5, s1, Handle(0, true), s2);
    assert Do(s2, Handle(0, true)) == Some(s3) by {
      assert [Handler(1, Testing(n))][0 := Handler(1, NoWorker)] == [Handler(1, NoWorker)];
    }
    SecondServes(n, c0, s, 2, [Handler(1, NoWorker)]);
    ss, es := Goes(ss, es, n, 5, s2, Handle(0, true), s3);
    hide Do, IsRun, SomeoneHealthy;
    b := |ss| - 1;
    assert ss[b].handlers == [Handler(1, NoWorker)];
  }

  /** The scan promise can be read at one common instant exactly when there is a single
    * worker: otherwise some run has a worker healthy in every state of a scan that
    * returns nil. */
  lemma NilScanAlthoughSomeoneAlwaysHealthy(n: nat)
    requires n >= 1
    ensures (exists ss: seq<Sys>, es, h, a, b ::
               IsRun(ss, es) && |ss[0].pool.workers| == n && UnluckyScan(ss, h, a, b)) <==> n >= 2
  {
    hide UnluckyScan;
    if n >= 2 {
      var ss, es, b := ManyWorkersCanBeUnlucky(n);
    } else if ss: seq<Sys>, es, h, a, b :| IsRun(ss, es) && |ss[0].pool.workers| == n && UnluckyScan(ss, h, a, b) {
      OneWorkerNeverUnlucky(ss, es, h, a, b);
    }
  }

  /** In every state of every run each open client has exactly one maintainer and
    * there are at most as many open clients as workers; once all maintainers have
    * exited, the context was cancelled and no dialled client is left open. */
  lemma ClientsNeverLeak(ss: seq<Sys>, es: seq<Step>, m: nat)
    requires IsRun(ss, es) && m < |ss|
    ensures var p := ss[m].pool;
            && |OpenClients(p)| <= |p.workers| == |ss[0].pool.workers|
            && (forall c :: c in OpenClients(p) ==>
                              exists i: nat :: HeldBy(p, c, i) && forall j: nat :: HeldBy(p, c, j) ==> j == i)
            && ((forall i :: 0 <= i < |p.workers| ==> p.workers[i].pc.Exited?) ==>
                  p.cancelled && OpenClients(p) == {})
  {
    RunInv(ss, es, m);
    OpenClientsAreOwned(ss[m].pool);
    if forall i :: 0 <= i < |ss[m].pool.workers| ==> ss[m].pool.workers[i].pc.Exited? {
      NoClientLeak(ss[m].pool);
    }
  }

  // ---- Conservation ----

  /** In every reachable state `conns` is the number of handlers between their
    * increment and their decrement, the counters are the recorded bytes modulo
    * 2^64, and recorded plus pending bytes are all bytes delivered. */
  lemma CountersConserved(ss: seq<Sys>, es: seq<Step>, m: nat)
    requires IsRun(ss, es) && m < |ss|
    ensures 0 <= ss[m].conns == Total(ss[m].handlers).live
    ensures (ss[m].bytesOut + Total(ss[m].handlers).pendingUp) % WRAP == ss[m].sentUp % WRAP
    ensures (ss[m].bytesIn + Total(ss[m].handlers).pendingDown) % WRAP == ss[m].sentDown % WRAP
  {
    RunInv(ss, es, m);
    AddInside(Total(ss[m].handlers).countedUp, Total(ss[m].handlers).pendingUp, WRAP);
    AddInside(Total(ss[m].handlers).countedDown, Total(ss[m].handlers).pendingDown, WRAP);
  }

  lemma {:induction false} NoneServing(hs: seq<Handler>)
    requires forall h :: 0 <= h < |hs| ==> !hs[h].pc.Serving?
    ensures Total(hs).live == Total(hs).pendingUp == Total(hs).pendingDown == 0
  {
    if hs != [] {
      NoneServing(hs[..|hs| - 1]);
    }
  }

  /** When no handler is between its increment and its decrement, nothing is
    * counted as active and the counters show every delivered byte. */
  lemma QuiescentTotals(ss: seq<Sys>, es: seq<Step>, m: nat)
    requires IsRun(ss, es) && m < |ss|
    requires forall h :: 0 <= h < |ss[m].handlers| ==> !ss[m].handlers[h].pc.Serving?
    ensures ss[m].conns == 0
    ensures ss[m].bytesOut == ss[m].sentUp % WRAP && ss[m].bytesIn == ss[m].sentDown % WRAP
  {
    RunInv(ss, es, m);
    NoneServing(ss[m].handlers);
  }

  // ---- Snapshots seen by a reader ----

  /** Once this runner has published, so has it later, and the totals are no lower. */
  ghost predicate Newer(s: Sys, t: Sys) {
    s.published ==>
      && t.published && s.stat.Complete? && t.stat.Complete?
      && AtMost(s.stat.snap, t.stat.snap.bytesIn, t.stat.snap.bytesOut)
  }

  ghost predicate AtMost(x: Snapshot, bytesIn: nat, bytesOut: nat) {
    x.bytesIn <= bytesIn && x.bytesOut <= bytesOut
  }

  /** What the flusher has already loaded is not older than what is published. */
  ghost predicate FlushAhead(s: Sys) {
    s.published && s.stat.Complete? ==>
      match s.flush
      case LoadOut(_, bytesIn) => s.stat.snap.bytesIn <= bytesIn
      case LoadConns(_, bytesIn, bytesOut) => AtMost(s.stat.snap, bytesIn, bytesOut)
      case Creating(snap) => AtMost(s.stat.snap, snap.bytesIn, snap.bytesOut)
      case Filling(snap) => AtMost(s.stat.snap, snap.bytesIn, snap.bytesOut)
      case Renaming(snap) => AtMost(s.stat.snap, snap.bytesIn, snap.bytesOut)
      case _ => true
  }

  lemma CountedExactly(s: Sys)
    requires CountersOk(s) && s.sentUp < WRAP && s.sentDown < WRAP
    ensures s.bytesIn == Total(s.handlers).countedDown && s.bytesOut == Total(s.handlers).countedUp
  {
    hide Total;
    var all := Total(s.handlers);
    RemainderIs(all.countedUp, WRAP, 0, all.countedUp);
    RemainderIs(all.countedDown, WRAP, 0, all.countedDown);
  }

  lemma FlushKeepsAhead(s: Sys, ok: bool)
    requires CountersOk(s) && FlushOk(s) && FlushAhead(s)
    requires s.sentUp < WRAP && s.sentDown < WRAP
    ensures Newer(s, FlushStep(s, ok)) && FlushAhead(FlushStep(s, ok))
  {
    hide Total;
    CountedExactly(s);
    hide CountersOk;
  }

  lemma AheadStep(s: Sys, e: Step, t: Sys)
    requires SysInv(s) && FlushAhead(s) && Do(s, e) == Some(t)
    requires t.sentUp < WRAP && t.sentDown < WRAP
    ensures Newer(s, t) && FlushAhead(t)
  {
    SentGrows(s, e, t);
    if e.Flush? {
      FlushKeepsAhead(s, e.ok);
    } else {
      OnlyFlushFlushes(s, e, t);
      hide Do, Total;
    }
  }

  lemma SentGrows(s: Sys, e: Step, t: Sys)
    requires Do(s, e) == Some(t)
    ensures s.sentUp <= t.sentUp && s.sentDown <= t.sentDown
  {
  }

  lemma {:induction false} StatMonotone(ss: seq<Sys>, es: seq<Step>, a: nat, b: nat)
    requires IsRun(ss, es) && a <= b < |ss|
    requires ss[b].sentUp < WRAP && ss[b].sentDown < WRAP
    ensures Newer(ss[a], ss[b])
    ensures FlushAhead(ss[b])
    decreases b
  {
    hide Do;
    RunInv(ss, es, b);
    if b > 0 {
      RunInv(ss, es, b - 1);
      SentGrows(ss[b - 1], es[b - 1], ss[b]);
      StatMonotone(ss, es, if a < b then a else b - 1, b - 1);
      AheadStep(ss[b - 1], es[b - 1], ss[b]);
    }
  }

  lemma {:induction false} OldFileStays(ss: seq<Sys>, es: seq<Step>, m: nat)
    requires IsRun(ss, es) && m < |ss|
    ensures !ss[m].published ==> ss[m].stat == ss[0].stat
  {
    if m > 0 {
      OldFileStays(ss, es, m - 1);
      if es[m - 1].Flush? {
        hide Start;
      } else {
        OnlyFlushFlushes(ss[m - 1], es[m - 1], ss[m]);
      }
    }
  }

  /** With one flusher at a time, a reader finds the file this runner found when it
    * started, until it first publishes; from then on a complete one, with no more workers
    * connected than exist and no more bytes than were delivered. */
  lemma StatFileWhole(ss: seq<Sys>, es: seq<Step>, m: nat)
    requires IsRun(ss, es) && m < |ss|
    ensures !ss[m].published ==> ss[m].stat == ss[0].stat
    ensures ss[m].published ==>
              ss[m].stat.Complete?
              && var x := ss[m].stat.snap;
              0 <= x.conns && x.connected <= x.total == |ss[0].pool.workers|
              && x.bytesIn <= ss[m].sentDown && x.bytesOut <= ss[m].sentUp
  {
    RunInv(ss, es, m);
    OldFileStays(ss, es, m);
  }

  /** And while no counter wraps, readers after the first publication never see the totals
    * fall, nor the file disappear. */
  lemma ReadersSeeMonotoneStats(ss: seq<Sys>, es: seq<Step>, a: nat, b: nat)
    requires IsRun(ss, es) && a <= b < |ss|
    requires ss[b].sentUp < WRAP && ss[b].sentDown < WRAP
    requires ss[a].published
    ensures ss[b].published && ReadStat(ss[a]).Some? && ReadStat(ss[b]).Some?
    ensures ReadStat(ss[a]).value.bytesIn <= ReadStat(ss[b]).value.bytesIn
    ensures ReadStat(ss[a]).value.bytesOut <= ReadStat(ss[b]).value.bytesOut
  {
    RunInv(ss, es, a);
    StatMonotone(ss, es, a, b);
  }

  // ---- The file of an earlier runner ----

  /** A later reader sees a lower total than an earlier one, with no counter wrapped. */
  ghost predicate TotalsFall(ss: seq<Sys>, a: nat, b: nat) {
    && a <= b < |ss| && ss[b].sentUp < WRAP && ss[b].sentDown < WRAP
    && ReadStat(ss[a]).Some? && ReadStat(ss[b]).Some?
    && (var x, y := ReadStat(ss[a]).value, ReadStat(ss[b]).value;
        y.bytesIn < x.bytesIn || y.bytesOut < x.bytesOut)
  }

  predicate ShowsTraffic(found: File) {
    found.Complete? && (found.snap.bytesIn > 0 || found.snap.bytesOut > 0)
  }

  lemma OnlyTrafficFalls(ss: seq<Sys>, es: seq<Step>, a: nat, b: nat)
    requires IsRun(ss, es) && TotalsFall(ss, a, b)
    ensures ShowsTraffic(ss[0].stat)
  {
    hide IsRun;
    if ss[a].published {
      ReadersSeeMonotoneStats(ss, es, a, b);
    } else {
      OldFileStays(ss, es, a);
      OldFileStays(ss, es, b);
    }
  }

  /** An idle tunnel of one worker that found a stat file, in the course of its first
    * flush. */
  function Restarted(flush: FlushPc, temp: File, stat: File, published: bool): Sys {
    Sys(Pool([IDLE], false, 0, {}, Waiting), [0], [], 0, 0, 0, 0, 0, flush, temp, stat, published)
  }

  function FirstFlush(found: File): seq<Sys> {
    var zero := Snapshot(0, 0, 0, 0, 1);
    [ Restarted(Idle, Missing, found, false), Restarted(Polling(0, 0), Missing, found, false),
      Restarted(Polling(1, 0), Missing, found, false), Restarted(LoadIn(0), Missing, found, false),
      Restarted(LoadOut(0, 0), Missing, found, false), Restarted(LoadConns(0, 0, 0), Missing, found, false),
      Restarted(Creating(zero), Missing, found, false), Restarted(Filling(zero), Torn, found, false),
      Restarted(Renaming(zero), Complete(zero), found, false), Restarted(Idle, Missing, Complete(zero), true) ]
  }

  lemma FirstFlushIsRun(found: File)
    ensures IsRun(FirstFlush(found), seq(9, _ => Flush(true)))
  {
    var ss := FirstFlush(found);
    assert Start(ss[0]);
    hide Start;
    forall m | 0 <= m < 9
      ensures FlushStep(ss[m], true) == ss[m + 1]
    {
      assert m == 0 || m == 1 || m == 2 || m == 3 || m == 4 || m == 5 || m == 6 || m == 7 || m == 8;
    }
  }

  /** Readers can see the totals fall in the life of a runner exactly when the file it
    * found, that of the runner before it, shows traffic. */
  lemma TotalsFallIff(found: File)
    ensures (exists ss: seq<Sys>, es, a, b :: IsRun(ss, es) && ss[0].stat == found && TotalsFall(ss, a, b))
       <==> ShowsTraffic(found)
  {
    if ShowsTraffic(found) {
      FirstFlushIsRun(found);
      assert TotalsFall(FirstFlush(found), 0, 9);
      hide TotalsFall;
    }
    if ss: seq<Sys>, es, a, b :| IsRun(ss, es) && ss[0].stat == found && TotalsFall(ss, a, b) {
      hide TotalsFall;
      OnlyTrafficFalls(ss, es, a, b);
    }
  }

  // ---- What a published snapshot shows ----

  /** When a flush took its readings: its first step, the states in which it polled each
    * worker, and those in which it loaded the three counters. */
  datatype Readings = Readings(begun: nat, polls: seq<nat>, atIn: nat, atOut: nat, atConns: nat)

  /** Healthy workers, each at the state in which it was polled. */
  function HealthyAt(ss: seq<Sys>, polls: seq<nat>): nat
  {
    if polls == [] then 0
    else
      var i, m := |polls| - 1, polls[|polls| - 1];
      HealthyAt(ss, polls[..i])
      + (if m < |ss| && i < |ss[m].pool.workers| && ss[m].pool.workers[i].healthy then 1 else 0)
  }

  /** One flush is under way from state r.begun + 1 to m, and its polls lie in it, in order. */
  ghost predicate Polled(ss: seq<Sys>, r: Readings, m: nat) {
    && r.begun < m < |ss| && ss[r.begun].flush == Idle
    && (forall k :: r.begun < k <= m ==> ss[k].flush != Idle)
    && (forall i :: 0 <= i < |r.polls| ==> r.begun < r.polls[i] < m)
    && (forall i, j :: 0 <= i < j < |r.polls| ==> r.polls[i] < r.polls[j])
  }

  /** What the flush holds at each point comes from the states in which it read it. */
  ghost predicate ReadFrom(ss: seq<Sys>, r: Readings, m: nat)
    requires m < |ss|
  {
    var s := ss[m];
    var n := |s.pool.workers|;
    match s.flush
    case Idle => true
    case Polling(i, up) => |r.polls| == i && up == HealthyAt(ss, r.polls)
    case LoadIn(up) => |r.polls| == n && up == HealthyAt(ss, r.polls)
    case LoadOut(up, bytesIn) => |r.polls| == n && up == HealthyAt(ss, r.polls) && InRead(ss, r, m, bytesIn)
    case LoadConns(up, bytesIn, bytesOut) =>
      |r.polls| == n && up == HealthyAt(ss, r.polls) && InRead(ss, r, m, bytesIn) && OutRead(ss, r, m, bytesOut)
    case Creating(x) => Shows(ss, r, m, x)
    case Filling(x) => Shows(ss, r, m, x)
    case Renaming(x) => Shows(ss, r, m, x)
  }

  ghost predicate InRead(ss: seq<Sys>, r: Readings, m: nat, bytesIn: nat) {
    && r.begun < r.atIn < m <= |ss| && (forall i :: 0 <= i < |r.polls| ==> r.polls[i] < r.atIn)
    && ss[r.atIn].bytesIn == bytesIn
  }

  ghost predicate OutRead(ss: seq<Sys>, r: Readings, m: nat, bytesOut: nat) {
    r.atIn < r.atOut < m <= |ss| && ss[r.atOut].bytesOut == bytesOut
  }

  /** A snapshot is exactly what the readings of one flush were: each counter at one state
    * of it, and the workers healthy in the states in which they were polled. */
  ghost predicate Shows(ss: seq<Sys>, r: Readings, m: nat, x: Snapshot)
    requires m < |ss|
  {
    && |r.polls| == |ss[m].pool.workers| == x.total && x.connected == HealthyAt(ss, r.polls)
    && InRead(ss, r, m, x.bytesIn) && OutRead(ss, r, m, x.bytesOut)
    && r.atOut < r.atConns < m && ss[r.atConns].conns == x.conns
  }

  lemma FlushAdvances(s: Sys, e: Step, t: Sys)
    requires Do(s, e) == Some(t)
    ensures if e.Flush? then t == FlushStep(s, e.ok) else t.flush == s.flush
  {
    if !e.Flush? {
      OnlyFlushFlushes(s, e, t);
    }
    hide FlushStep;
  }

  lemma PolledOn(ss: seq<Sys>, r: Readings, n: nat)
    requires n + 1 < |ss| && Polled(ss, r, n) && ss[n + 1].flush != Idle
    ensures Polled(ss, r, n + 1) && Polled(ss, r.(polls := r.polls + [n]), n + 1)
    ensures forall x :: Polled(ss, r.(atIn := x), n + 1) && Polled(ss, r.(atOut := x), n + 1)
    ensures forall x :: Polled(ss, r.(atConns := x), n + 1)
  {
  }

  lemma PollBegins(ss: seq<Sys>, n: nat)
    requires n + 1 < |ss| && ss[n].flush == Idle && ss[n + 1].flush != Idle
    ensures Polled(ss, Readings(n, [], 0, 0, 0), n + 1)
  {
  }

  lemma HealthyMore(ss: seq<Sys>, polls: seq<nat>, n: nat)
    requires n < |ss| && |polls| < |ss[n].pool.workers|
    ensures HealthyAt(ss, polls + [n]) ==
            HealthyAt(ss, polls) + (if ss[n].pool.workers[|polls|].healthy then 1 else 0)
  {
    assert (polls + [n])[..|polls|] == polls;
  }

  ghost predicate Reading(ss: seq<Sys>, r: Readings, n: nat) {
    n < |ss| && ss[n].flush != Idle && Polled(ss, r, n) && ReadFrom(ss, r, n)
    && (ss[n].flush.Polling? ==> ss[n].flush.i <= |ss[n].pool.workers|)
  }

  lemma PollStep(ss: seq<Sys>, ok: bool, r: Readings, n: nat) returns (q: Readings)
    requires Reading(ss, r, n) && ss[n].flush.Polling? && n + 1 < |ss| && ss[n + 1] == FlushStep(ss[n], ok)
    ensures Polled(ss, q, n + 1) && ReadFrom(ss, q, n + 1)
  {
    PolledOn(ss, r, n);
    hide Polled, HealthyAt;
    q := r;
    if ss[n].flush.i < |ss[n].pool.workers| {
      q := r.(polls := r.polls + [n]);
      HealthyMore(ss, r.polls, n);
    }
  }

  lemma LoadStep(ss: seq<Sys>, ok: bool, r: Readings, n: nat) returns (q: Readings)
    requires Reading(ss, r, n) && n + 1 < |ss| && ss[n + 1] == FlushStep(ss[n], ok)
    requires ss[n].flush.LoadIn? || ss[n].flush.LoadOut? || ss[n].flush.LoadConns?
    ensures Polled(ss, q, n + 1) && ReadFrom(ss, q, n + 1)
  {
    PolledOn(ss, r, n);
    assert forall i :: 0 <= i < |r.polls| ==> r.polls[i] < n;
    hide Polled, HealthyAt;
    match ss[n].flush
    case LoadIn(_) => q := r.(atIn := n);
    case LoadOut(_, _) => q := r.(atOut := n);
    case LoadConns(_, _, _) => q := r.(atConns := n);
  }

  lemma WriteStep(ss: seq<Sys>, ok: bool, r: Readings, n: nat)
    requires Reading(ss, r, n) && n + 1 < |ss| && ss[n + 1] == FlushStep(ss[n], ok)
    requires ss[n].flush.Creating? || ss[n].flush.Filling? || ss[n].flush.Renaming?
    ensures ss[n + 1].flush != Idle ==> Polled(ss, r, n + 1) && ReadFrom(ss, r, n + 1)
  {
    if ss[n + 1].flush != Idle {
      PolledOn(ss, r, n);
    }
    hide Polled, HealthyAt;
  }

  /** The readings after one more step of the flush itself. */
  lemma ReadStep(ss: seq<Sys>, ok: bool, r: Readings, n: nat) returns (q: Readings)
    requires n + 1 < |ss| && ss[n + 1] == FlushStep(ss[n], ok)
    requires ss[n].flush != Idle ==> Reading(ss, r, n)
    ensures ss[n + 1].flush != Idle ==> Polled(ss, q, n + 1) && ReadFrom(ss, q, n + 1)
  {
    hide Polled, HealthyAt, Reading, FlushStep;
    q := r;
    match ss[n].flush
    case Idle =>
      q := Readings(n, [], 0, 0, 0);
      FlushBegins(ss, ok, n);
    case Polling(_, _) => q := PollStep(ss, ok, r, n);
    case LoadIn(_) => q := LoadStep(ss, ok, r, n);
    case LoadOut(_, _) => q := LoadStep(ss, ok, r, n);
    case LoadConns(_, _, _) => q := LoadStep(ss, ok, r, n);
    case _ => WriteStep(ss, ok, r, n);
  }

  lemma FlushBegins(ss: seq<Sys>, ok: bool, n: nat)
    requires n + 1 < |ss| && ss[n].flush == Idle && ss[n + 1] == FlushStep(ss[n], ok)
    ensures Polled(ss, Readings(n, [], 0, 0, 0), n + 1) && ReadFrom(ss, Readings(n, [], 0, 0, 0), n + 1)
  {
    PollBegins(ss, n);
    hide Polled;
  }

  /** The readings after one more step of any goroutine. */
  lemma ReadOn(ss: seq<Sys>, e: Step, r: Readings, n: nat) returns (q: Readings)
    requires n + 1 < |ss| && Do(ss[n], e) == Some(ss[n + 1])
    requires |ss[n + 1].pool.workers| == |ss[n].pool.workers|
    requires ss[n].flush != Idle ==> Polled(ss, r, n) && ReadFrom(ss, r, n)
    requires ss[n].flush.Polling? ==> ss[n].flush.i <= |ss[n].pool.workers|
    ensures ss[n + 1].flush != Idle ==> Polled(ss, q, n + 1) && ReadFrom(ss, q, n + 1)
  {
    FlushAdvances(ss[n], e, ss[n + 1]);
    hide Do, FlushStep;
    q := r;
    if e.Flush? {
      hide ReadFrom;
      q := ReadStep(ss, e.ok, r, n);
    } else if ss[n].flush != Idle {
      PolledOn(ss, r, n);
      hide Polled;
    }
  }

  lemma {:induction false} FlushReads(ss: seq<Sys>, es: seq<Step>, m: nat) returns (r: Readings)
    requires IsRun(ss, es) && m < |ss|
    ensures ss[m].flush != Idle ==> Polled(ss, r, m) && ReadFrom(ss, r, m)
  {
    hide Do, Polled, ReadFrom;
    r := Readings(0, [], 0, 0, 0);
    if m > 0 {
      r := FlushReads(ss, es, m - 1);
      RunInv(ss, es, m - 1);
      RunInv(ss, es, m);
      r := ReadOn(ss, es[m - 1], r, m - 1);
    }
  }

  /** Every snapshot put in place was read during the flush that ends with it: each of the
    * byte and connection counts is the program's at one state of that flush, in the order
    * they are loaded, and the workers shown connected are those healthy when polled. */
  lemma PublishedWasRead(ss: seq<Sys>, es: seq<Step>, m: nat) returns (r: Readings)
    requires IsRun(ss, es) && m < |es| && es[m] == Flush(true) && ss[m].flush.Renaming?
    ensures ss[m + 1].stat == Complete(ss[m].flush.snap) && ss[m + 1].published
    ensures Polled(ss, r, m) && Shows(ss, r, m, ss[m].flush.snap)
  {
    r := FlushReads(ss, es, m);
    RunInv(ss, es, m);
    assert ss[m + 1] == FlushStep(ss[m], true);
  }
}

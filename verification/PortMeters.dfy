/** `iptEnsure`, `iptRemove` and `iptRead` over whole histories: ports are accounted
  * and dropped in any order while packets arrive.
  */
module PortMeters {
  import opened Options
  import opened Modular
  import opened Iptables
  import opened Accounting
  import opened AccountedTraffic
  import opened Text
  import opened Listing
  import Decimal

  // ---- The two edits as functions on tables ----

  function EnsureSide(t: Table, s: Side, port: int): Table {
    var t1 := Exec(t, Command(MakeChain, s, port)).0;
    var t2 := if Exec(t1, Command(CheckReturn, s, port)).1 then t1
              else Exec(t1, Command(AppendReturn, s, port)).0;
    if Exec(t2, Command(CheckJump, s, port)).1 then t2
    else Exec(t2, Command(InsertJump, s, port)).0
  }

  function EnsurePort(t: Table, port: int): Table {
    EnsureSide(EnsureSide(t, In, port), Out, port)
  }

  function DropSide(t: Table, s: Side, port: int): Table {
    Exec(Exec(t, Command(EmptyChain, s, port)).0, Command(DropChain, s, port)).0
  }

  function RemovePort(t: Table, port: int): Table {
    var t1 := Exec(t, Command(DeleteJump, In, port)).0;
    var t2 := Exec(t1, Command(DeleteJump, Out, port)).0;
    DropSide(DropSide(t2, In, port), Out, port)
  }

  /** The layouts in which a chain can be listed. */
  predicate Lays(layout: Layout, t: Table, c: Name) {
    c in t ==> LayoutOk(layout, |t[c]|)
  }

  /** What listing a chain and scanning the text gives; 0 when there is no such chain. */
  function ReadListing(t: Table, c: Name, layout: Layout): nat
    requires Lays(layout, t, c)
  {
    if c in t then FirstCount(Split(ListingText(c, t[c], layout), NEWLINE)) else 0
  }

  // ---- What they mean for the decoration ----

  /** Accounted: a counter and, for a port iptables accepts, a jump; both kept when
    * they are there already. */
  function Ensured(m: Meters, port: int): Meters {
    Meters(
      if ValidPort(port) && !HasJump(m, port) then [Jumper(port, 0)] + m.jumps else m.jumps,
      m.chains[port := if port in m.chains && m.chains[port] != [] then m.chains[port] else [0]])
  }

  function Removed(m: Meters, port: int): Meters {
    var jumps := if HasJump(m, port) then DropAt(m.jumps, FindJump(m.jumps, port)) else m.jumps;
    Meters(jumps,
           if port !in m.chains then m.chains
           else if HasJump(m.(jumps := jumps), port) then m.chains[port := []]
           else m.chains - {port})
  }

  lemma EnsureEffects(m: Meters, port: int)
    requires MetersOk(m)
    ensures var m1 := Effect(MakeChain, m, port).0;
            var m2 := if Effect(CheckReturn, m1, port).1 then m1 else Effect(AppendReturn, m1, port).0;
            Ensured(m, port) == if Effect(CheckJump, m2, port).1 then m2 else Effect(InsertJump, m2, port).0
  {
    var m1 := Effect(MakeChain, m, port).0;
    var m2 := if Effect(CheckReturn, m1, port).1 then m1 else Effect(AppendReturn, m1, port).0;
    var none: seq<Bytes> := [];
    assert none + [0] == [0];
    assert port in m.chains ==> m.chains == m.chains[port := m.chains[port]];
    assert m.chains[port := none][port := [0]] == m.chains[port := [0]];
    assert m2.chains == Ensured(m, port).chains;
    assert HasJump(m2, port) == HasJump(m, port);
  }

  lemma EnsureSideMeans(t: Table, base: Table, d: Deco, s: Side, port: int)
    requires Decorated(t, base, d)
    ensures Decorated(EnsureSide(t, s, port), base, With(d, s, Ensured(At(d, s), port)))
  {
    MetersAt(t, base, d, s);
    EnsureEffects(At(d, s), port);
    hide Decorated, Exec, Effect, Command, Ensured;
    CommandKeeps(t, base, d, MakeChain, s, port);
    var t1, d1 := Exec(t, Command(MakeChain, s, port)).0, With(d, s, Effect(MakeChain, At(d, s), port).0);
    CommandKeeps(t1, base, d1, CheckReturn, s, port);
    CommandKeeps(t1, base, d1, AppendReturn, s, port);
    var full := Exec(t1, Command(CheckReturn, s, port)).1;
    var t2 := if full then t1 else Exec(t1, Command(AppendReturn, s, port)).0;
    var d2 := if full then d1 else With(d1, s, Effect(AppendReturn, At(d1, s), port).0);
    CommandKeeps(t2, base, d2, CheckJump, s, port);
    CommandKeeps(t2, base, d2, InsertJump, s, port);
  }

  lemma MetersAt(t: Table, base: Table, d: Deco, s: Side)
    requires Decorated(t, base, d)
    ensures MetersOk(At(d, s))
  {
  }

  lemma DropSideMeans(t: Table, base: Table, d: Deco, s: Side, port: int)
    requires Decorated(t, base, d)
    ensures Decorated(DropSide(t, s, port), base,
                      With(d, s, Effect(DropChain, Effect(EmptyChain, At(d, s), port).0, port).0))
  {
    hide Decorated, Exec, Effect, Command;
    CommandKeeps(t, base, d, EmptyChain, s, port);
    CommandKeeps(Exec(t, Command(EmptyChain, s, port)).0, base,
                 With(d, s, Effect(EmptyChain, At(d, s), port).0), DropChain, s, port);
  }

  lemma RemoveEffects(m: Meters, port: int)
    requires MetersOk(m)
    ensures Removed(m, port) ==
            Effect(DropChain, Effect(EmptyChain, Effect(DeleteJump, m, port).0, port).0, port).0
  {
    if HasJump(m, port) {
      assert m.jumps[FindJump(m.jumps, port)].port == port;
    }
    if port in m.chains {
      assert m.chains[port := []] - {port} == m.chains - {port};
    }
  }

  /** `iptEnsure` accounts the port in both directions and touches nothing else. */
  lemma EnsurePortMeans(t: Table, base: Table, d: Deco, port: int)
    requires Decorated(t, base, d)
    ensures Decorated(EnsurePort(t, port), base, Deco(Ensured(d.inp, port), Ensured(d.out, port)))
  {
    hide Decorated, EnsureSide, Ensured;
    EnsureSideMeans(t, base, d, In, port);
    EnsureSideMeans(EnsureSide(t, In, port), base, With(d, In, Ensured(d.inp, port)), Out, port);
  }

  /** `iptRemove` takes the port's accounting out of both directions and touches
    * nothing else. */
  lemma RemovePortMeans(t: Table, base: Table, d: Deco, port: int)
    requires Decorated(t, base, d)
    ensures Decorated(RemovePort(t, port), base, Deco(Removed(d.inp, port), Removed(d.out, port)))
  {
    MetersAt(t, base, d, In);
    MetersAt(t, base, d, Out);
    RemoveEffects(d.inp, port);
    RemoveEffects(d.out, port);
    hide Decorated, DropSide, Removed, Effect, Exec, Command;
    CommandKeeps(t, base, d, DeleteJump, In, port);
    var t1, d1 := Exec(t, Command(DeleteJump, In, port)).0, With(d, In, Effect(DeleteJump, d.inp, port).0);
    CommandKeeps(t1, base, d1, DeleteJump, Out, port);
    var t2, d2 := Exec(t1, Command(DeleteJump, Out, port)).0, With(d1, Out, Effect(DeleteJump, d1.out, port).0);
    DropSideMeans(t2, base, d2, In, port);
    DropSideMeans(DropSide(t2, In, port), base,
                  With(d2, In, Effect(DropChain, Effect(EmptyChain, d2.inp, port).0, port).0), Out, port);
  }

  // ---- One jump and one counter per port ----

  /** Nothing is counted twice and everything accounted is counted. */
  ghost predicate Single(m: Meters) {
    && DistinctPorts(m.jumps)
    && (forall p :: p in m.chains ==> |m.chains[p]| == 1 && (ValidPort(p) ==> HasJump(m, p)))
  }

  ghost predicate DistinctPorts(jumps: seq<Jumper>) {
    forall i, j :: 0 <= i < j < |jumps| ==> jumps[i].port != jumps[j].port
  }

  predicate Occurs(jumps: seq<Jumper>, port: int) {
    exists i :: 0 <= i < |jumps| && jumps[i].port == port
  }

  lemma HasJumpIff(m: Meters, port: int)
    ensures HasJump(m, port) <==> Occurs(m.jumps, port)
  {
  }

  lemma PushJump(jumps: seq<Jumper>, port: int, p: int)
    ensures Occurs([Jumper(port, 0)] + jumps, p) <==> Occurs(jumps, p) || p == port
    ensures DistinctPorts(jumps) && !Occurs(jumps, port) ==> DistinctPorts([Jumper(port, 0)] + jumps)
  {
    var more := [Jumper(port, 0)] + jumps;
    assert more[0].port == port;
    if i :| 0 <= i < |jumps| && jumps[i].port == p {
      assert more[i + 1].port == p;
    }
  }

  lemma DropJump(jumps: seq<Jumper>, k: nat, p: int)
    requires k < |jumps| && DistinctPorts(jumps)
    ensures Occurs(DropAt(jumps, k), p) <==> Occurs(jumps, p) && p != jumps[k].port
    ensures DistinctPorts(DropAt(jumps, k))
  {
    var less := DropAt(jumps, k);
    if i :| 0 <= i < |jumps| && jumps[i].port == p && i != k {
      assert less[if i < k then i else i - 1].port == p;
    }
  }

  lemma EnsuredSingle(m: Meters, port: int)
    requires MetersOk(m) && Single(m)
    ensures Single(Ensured(m, port))
    ensures forall p :: p in Ensured(m, port).chains <==> p in m.chains || p == port
    ensures forall p :: p in m.chains ==> Ensured(m, port).chains[p] == m.chains[p]
    ensures port !in m.chains ==> Ensured(m, port).chains[port] == [0]
  {
    hide HasJump, Occurs;
    var n := Ensured(m, port);
    HasJumpIff(m, port);
    forall p
      ensures HasJump(n, p) <==> HasJump(m, p) || (p == port && ValidPort(port))
    {
      HasJumpIff(m, p);
      HasJumpIff(n, p);
      PushJump(m.jumps, port, p);
    }
  }

  lemma RemovedJumps(m: Meters, port: int)
    requires DistinctPorts(m.jumps)
    ensures DistinctPorts(Removed(m, port).jumps) && !Occurs(Removed(m, port).jumps, port)
    ensures forall p :: HasJump(Removed(m, port), p) <==> HasJump(m, p) && p != port
  {
    hide HasJump, FindJump, DropAt, DistinctPorts, Occurs;
    forall p
      ensures HasJump(Removed(m, port), p) <==> HasJump(m, p) && p != port
      ensures DistinctPorts(Removed(m, port).jumps) && !Occurs(Removed(m, port).jumps, port)
    {
      HasJumpIff(m, p);
      HasJumpIff(Removed(m, port), p);
      RemovedJump(m, port, p);
      RemovedJump(m, port, port);
    }
  }

  lemma RemovedJump(m: Meters, port: int, p: int)
    requires DistinctPorts(m.jumps)
    ensures DistinctPorts(Removed(m, port).jumps)
    ensures Occurs(Removed(m, port).jumps, p) <==> Occurs(m.jumps, p) && p != port
  {
    HasJumpIff(m, port);
    if HasJump(m, port) {
      DropJump(m.jumps, FindJump(m.jumps, port), p);
    }
    hide DropAt;
  }

  lemma RemovedSingle(m: Meters, port: int)
    requires MetersOk(m) && Single(m)
    ensures Single(Removed(m, port)) && Removed(m, port).chains == m.chains - {port}
    ensures !Occurs(Removed(m, port).jumps, port)
  {
    RemovedJumps(m, port);
    var n := Removed(m, port);
    assert HasJump(m.(jumps := n.jumps), port) == HasJump(n, port);
    assert n.chains == m.chains - {port} by {
      hide HasJump, FindJump, DropAt, Occurs, Single, MetersOk;
    }
    hide HasJump, FindJump, DropAt, Occurs, Removed, MetersOk;
  }

  /** Accounting a port that is not accounted yet and removing it again restores
    * the table, rules and counters alike. */
  lemma EnsureRemoveIsIdentity(t: Table, base: Table, d: Deco, port: int)
    requires Decorated(t, base, d) && port !in d.inp.chains && port !in d.out.chains
    ensures RemovePort(EnsurePort(t, port), port) == t
  {
    MetersAt(t, base, d, In);
    MetersAt(t, base, d, Out);
    EnsurePortMeans(t, base, d, port);
    RemovePortMeans(EnsurePort(t, port), base, Deco(Ensured(d.inp, port), Ensured(d.out, port)), port);
    RemoveUndoes(d.inp, port);
    RemoveUndoes(d.out, port);
    hide Decorated, EnsurePort, RemovePort;
    DecoratedUnique(RemovePort(EnsurePort(t, port), port), t, base, d);
  }

  lemma RemoveUndoes(m: Meters, port: int)
    requires MetersOk(m) && port !in m.chains
    ensures Removed(Ensured(m, port), port) == m
  {
    var n := Ensured(m, port);
    assert forall i :: 0 <= i < |m.jumps| ==> m.jumps[i].port != port;
    assert n.chains - {port} == m.chains;
    assert HasJump(n, port) ==> DropAt(n.jumps, FindJump(n.jumps, port)) == m.jumps;
  }

  /** Accounting a port twice is accounting it once; the counters are kept. */
  lemma EnsureIdempotent(t: Table, base: Table, d: Deco, port: int)
    requires Decorated(t, base, d)
    ensures EnsurePort(EnsurePort(t, port), port) == EnsurePort(t, port)
  {
    var e := Deco(Ensured(d.inp, port), Ensured(d.out, port));
    EnsurePortMeans(t, base, d, port);
    EnsurePortMeans(EnsurePort(t, port), base, e, port);
    EnsuredTwice(d.inp, port);
    EnsuredTwice(d.out, port);
    hide Decorated, EnsurePort;
    DecoratedUnique(EnsurePort(EnsurePort(t, port), port), EnsurePort(t, port), base, e);
  }

  lemma EnsuredTwice(m: Meters, port: int)
    ensures Ensured(Ensured(m, port), port) == Ensured(m, port)
  {
    var n := Ensured(m, port);
    assert n.chains[port := n.chains[port]] == n.chains;
  }

  // ---- Histories ----

  /** Edits, and packets to, from and through the host. */
  datatype Event =
    | Ensure(port: int)
    | Remove(port: int)
    | Incoming(pkt: Packet)
    | Outgoing(pkt: Packet)
    | Forwarded(pkt: Packet)

  /** One event on a table, after some packets had their outcomes. */
  function RunOne(before: (Table, seq<Outcome>), e: Event): (Table, seq<Outcome>) {
    match e
    case Ensure(port) => (EnsurePort(before.0, port), before.1)
    case Remove(port) => (RemovePort(before.0, port), before.1)
    case Incoming(pkt) => var r := Arrive(before.0, INPUT, pkt); (r.0, before.1 + [r.1])
    case Outgoing(pkt) => var r := Arrive(before.0, OUTPUT, pkt); (r.0, before.1 + [r.1])
    case Forwarded(pkt) => var r := Arrive(before.0, FORWARD, pkt); (r.0, before.1 + [r.1])
  }

  /** A table through a history: the table at the end and the outcome of each packet. */
  function Run(t: Table, es: seq<Event>): (Table, seq<Outcome>) {
    if es == [] then (t, []) else RunOne(Run(t, es[..|es| - 1]), es[|es| - 1])
  }

  function RunOneForeign(before: (Table, seq<Outcome>), e: Event): (Table, seq<Outcome>) {
    match e
    case Incoming(pkt) => var r := Arrive(before.0, INPUT, pkt); (r.0, before.1 + [r.1])
    case Outgoing(pkt) => var r := Arrive(before.0, OUTPUT, pkt); (r.0, before.1 + [r.1])
    case Forwarded(pkt) => var r := Arrive(before.0, FORWARD, pkt); (r.0, before.1 + [r.1])
    case _ => before
  }

  /** The foreign table through the same history, with no accounting at all. */
  function RunForeign(base: Table, es: seq<Event>): (Table, seq<Outcome>) {
    if es == [] then (base, []) else RunOneForeign(RunForeign(base, es[..|es| - 1]), es[|es| - 1])
  }

  function DecoOne(before: Deco, e: Event): Deco {
    match e
    case Ensure(port) => Deco(Ensured(before.inp, port), Ensured(before.out, port))
    case Remove(port) => Deco(Removed(before.inp, port), Removed(before.out, port))
    case Incoming(pkt) => Deco(AfterPacket(In, before.inp, pkt), before.out)
    case Outgoing(pkt) => Deco(before.inp, AfterPacket(Out, before.out, pkt))
    case Forwarded(_) => before
  }

  function RunDeco(d: Deco, es: seq<Event>): Deco {
    if es == [] then d else DecoOne(RunDeco(d, es[..|es| - 1]), es[|es| - 1])
  }

  lemma ArrivalTransparent(t: Table, base: Table, d: Deco, pkt: Packet)
    requires Decorated(t, base, d)
    ensures Arrive(t, INPUT, pkt).1 == Arrive(base, INPUT, pkt).1
    ensures Arrive(t, OUTPUT, pkt).1 == Arrive(base, OUTPUT, pkt).1
    ensures Decorated(Arrive(t, INPUT, pkt).0, Arrive(base, INPUT, pkt).0,
                      Deco(AfterPacket(In, d.inp, pkt), d.out))
    ensures Decorated(Arrive(t, OUTPUT, pkt).0, Arrive(base, OUTPUT, pkt).0,
                      Deco(d.inp, AfterPacket(Out, d.out, pkt)))
  {
    hide Decorated, Receive, AfterPacket;
    PacketTransparent(t, base, d, In, pkt);
    PacketTransparent(t, base, d, Out, pkt);
  }

  lemma ForwardArrivalTransparent(t: Table, base: Table, d: Deco, pkt: Packet)
    requires Decorated(t, base, d)
    ensures Arrive(t, FORWARD, pkt).1 == Arrive(base, FORWARD, pkt).1
    ensures Decorated(Arrive(t, FORWARD, pkt).0, Arrive(base, FORWARD, pkt).0, d)
  {
    hide Decorated, Receive;
    ForwardTransparent(t, base, d, pkt);
  }

  lemma EventTransparent(r: (Table, seq<Outcome>), f: (Table, seq<Outcome>), d: Deco, e: Event)
    requires Decorated(r.0, f.0, d) && r.1 == f.1
    ensures RunOne(r, e).1 == RunOneForeign(f, e).1
    ensures Decorated(RunOne(r, e).0, RunOneForeign(f, e).0, DecoOne(d, e))
  {
    hide Decorated, EnsurePort, RemovePort, Arrive, AfterPacket, Ensured, Removed;
    match e
    case Ensure(port) => EnsurePortMeans(r.0, f.0, d, port);
    case Remove(port) => RemovePortMeans(r.0, f.0, d, port);
    case Forwarded(pkt) => ForwardArrivalTransparent(r.0, f.0, d, pkt);
    case _ => ArrivalTransparent(r.0, f.0, d, e.pkt);
  }

  /** Over any history the packets meet the verdicts they would meet without
    * accounting, and the table stays the foreign one, decorated. */
  lemma {:induction false} HistoryTransparent(t: Table, base: Table, d: Deco, es: seq<Event>)
    requires Decorated(t, base, d)
    ensures Run(t, es).1 == RunForeign(base, es).1
    ensures Decorated(Run(t, es).0, RunForeign(base, es).0, RunDeco(d, es))
  {
    hide Decorated, RunOne, RunOneForeign, DecoOne;
    if es != [] {
      var es' := es[..|es| - 1];
      HistoryTransparent(t, base, d, es');
      EventTransparent(Run(t, es'), RunForeign(base, es'), RunDeco(d, es'), es[|es| - 1]);
    }
  }

  /** What a port's counter should show: nothing unless accounted; from 0 when
    * accounted afresh; plus the length of each TCP packet of that direction with
    * that destination (source) port, modulo 2^64. */
  function Meter(start: Option<nat>, s: Side, port: int, es: seq<Event>): Option<nat> {
    if es == [] then start
    else
      var before := Meter(start, s, port, es[..|es| - 1]);
      match es[|es| - 1]
      case Ensure(p) => if p == port && before.None? then Some(0) else before
      case Remove(p) => if p == port then None else before
      case Incoming(pkt) =>
        if before.Some? && s == In && pkt.tcp && pkt.dport == port then Some((before.value + pkt.len) % WRAP)
        else before
      case Outgoing(pkt) =>
        if before.Some? && s == Out && pkt.tcp && pkt.sport == port then Some((before.value + pkt.len) % WRAP)
        else before
      case Forwarded(_) => before
  }

  /** The counter a decoration holds for a port. */
  function Counter(m: Meters, port: int): Option<Bytes> {
    if port in m.chains && m.chains[port] != [] then Some(m.chains[port][0]) else None
  }

  lemma {:induction false} JumpsOfPort(jumps: seq<Jumper>, from: nat, port: int, i: nat)
    requires DistinctPorts(jumps)
    requires i < |jumps| && jumps[i].port == port
    ensures Jumps(jumps, from, port) == if from <= i then 1 else 0
    decreases |jumps| - from
  {
    if from < |jumps| {
      JumpsOfPort(jumps, from + 1, port, i);
    }
  }

  lemma PacketCounter(s: Side, m: Meters, pkt: Packet, p: int)
    requires Single(m)
    ensures p in m.chains ==> |CountedOn(s, m, p, pkt)| == 1
    ensures Counter(AfterPacket(s, m, pkt), p) ==
            if Counter(m, p).Some? && PortHit(s, p, pkt) then Some((Counter(m, p).value + pkt.len) % WRAP)
            else Counter(m, p)
  {
    hide PortHit, Jumps;
    if p in m.chains && PortHit(s, p, pkt) {
      HitPortValid(s, p, pkt);
      JumpsOfPort(m.jumps, 0, p, FindJump(m.jumps, p));
      assert AddBytes(m.chains[p][0], pkt.len, 1) == (m.chains[p][0] + pkt.len) % WRAP;
    }
    hide AddBytes;
  }

  lemma PacketSingle(s: Side, m: Meters, pkt: Packet)
    requires MetersOk(m) && Single(m)
    ensures Single(AfterPacket(s, m, pkt)) && MetersOk(AfterPacket(s, m, pkt))
    ensures forall p :: Counter(AfterPacket(s, m, pkt), p) ==
                        if Counter(m, p).Some? && PortHit(s, p, pkt) then Some((Counter(m, p).value + pkt.len) % WRAP)
                        else Counter(m, p)
  {
    var n := AfterPacket(s, m, pkt);
    hide PortHit, CountedOn, Counter, AddBytes;
    forall p | HasJump(m, p)
      ensures HasJump(n, p)
    {
      assert n.jumps[FindJump(m.jumps, p)].port == p;
    }
    forall p
      ensures p in m.chains ==> |CountedOn(s, m, p, pkt)| == 1
      ensures Counter(n, p) ==
              if Counter(m, p).Some? && PortHit(s, p, pkt) then Some((Counter(m, p).value + pkt.len) % WRAP)
              else Counter(m, p)
    {
      PacketCounter(s, m, pkt, p);
    }
  }

  /** Incoming packets are metered by their destination port, outgoing ones by their source
    * port, and only those of TCP. */
  lemma PortHitIs(s: Side, port: int, pkt: Packet)
    ensures PortHit(s, port, pkt) <==> pkt.tcp && (if s == In then pkt.dport else pkt.sport) == port
  {
  }

  lemma HitPortValid(s: Side, p: int, pkt: Packet)
    requires PortHit(s, p, pkt)
    ensures ValidPort(p)
  {
  }

  ghost predicate SingleDeco(d: Deco) {
    MetersOk(d.inp) && MetersOk(d.out) && Single(d.inp) && Single(d.out)
  }

  lemma EnsuredStep(m: Meters, port: int)
    requires MetersOk(m) && Single(m)
    ensures MetersOk(Ensured(m, port)) && Single(Ensured(m, port))
    ensures forall p :: Counter(Ensured(m, port), p) ==
                        if p == port && Counter(m, p).None? then Some(0) else Counter(m, p)
  {
    EnsuredSingle(m, port);
    assert MetersOk(Ensured(m, port));
    hide HasJump, MetersOk;
  }

  lemma DroppedMetersOk(m: Meters, port: int)
    requires MetersOk(m) && Single(Removed(m, port)) && Removed(m, port).chains == m.chains - {port}
    requires !Occurs(Removed(m, port).jumps, port)
    ensures MetersOk(Removed(m, port))
  {
    var n := Removed(m, port);
    forall i | 0 <= i < |n.jumps|
      ensures ValidPort(n.jumps[i].port) && n.jumps[i].port in n.chains
    {
      assert n.jumps[i] in m.jumps;
    }
  }

  lemma RemovedStep(m: Meters, port: int)
    requires MetersOk(m) && Single(m)
    ensures MetersOk(Removed(m, port)) && Single(Removed(m, port))
    ensures forall p :: Counter(Removed(m, port), p) == if p == port then None else Counter(m, p)
  {
    RemovedSingle(m, port);
    hide HasJump, MetersOk, Single, Removed, Occurs;
    DroppedMetersOk(m, port);
  }

  lemma {:induction false} SingleFollows(d: Deco, es: seq<Event>)
    requires SingleDeco(d)
    ensures SingleDeco(RunDeco(d, es))
  {
    hide Ensured, Removed, AfterPacket, Single, MetersOk, PortHit, Counter;
    if es != [] {
      SingleFollows(d, es[..|es| - 1]);
      var e := RunDeco(d, es[..|es| - 1]);
      match es[|es| - 1]
      case Ensure(port) =>
        EnsuredStep(e.inp, port);
        EnsuredStep(e.out, port);
      case Remove(port) =>
        RemovedStep(e.inp, port);
        RemovedStep(e.out, port);
      case Incoming(pkt) => PacketSingle(In, e.inp, pkt);
      case Outgoing(pkt) => PacketSingle(Out, e.out, pkt);
      case Forwarded(_) =>
    }
  }

  lemma {:induction false} MeterFollows(d: Deco, es: seq<Event>, s: Side, port: int)
    requires SingleDeco(d)
    ensures Counter(At(RunDeco(d, es), s), port) == Meter(Counter(At(d, s), port), s, port, es)
  {
    hide Ensured, Removed, AfterPacket, Single, MetersOk, PortHit;
    if es != [] {
      var es' := es[..|es| - 1];
      MeterFollows(d, es', s, port);
      SingleFollows(d, es');
      var e := RunDeco(d, es');
      match es[|es| - 1]
      case Ensure(p) => EnsuredStep(At(e, s), p);
      case Remove(p) => RemovedStep(At(e, s), p);
      case Incoming(pkt) =>
        PacketSingle(In, e.inp, pkt);
        PortHitIs(In, port, pkt);
      case Outgoing(pkt) =>
        PacketSingle(Out, e.out, pkt);
        PortHitIs(Out, port, pkt);
      case Forwarded(_) =>
    }
  }

  function Shown(m: Meters, port: int): nat {
    match Counter(m, port)
    case Some(b) => b
    case None => 0
  }

  lemma ReadIsCounter(t: Table, base: Table, s: Side, m: Meters, mo: Meters, port: int, layout: Layout)
    requires DecoratedBy(t, base, s, m, mo) && Lays(layout, t, ChainOf(s, port))
    ensures ReadListing(t, ChainOf(s, port), layout) == Shown(m, port)
  {
    hide DecoratedBy, FirstCount, Split, ListingText, LayoutOk;
    ChainIsQuiet(s, port);
    hide ChainOf;
    OwnedOrNot(t, base, s, m, mo, port);
    if port in m.chains {
      ListingScans(ChainOf(s, port), ReturnRules(m.chains[port]), layout);
    }
  }

  lemma ChainIsQuiet(s: Side, port: int)
    ensures NEWLINE !in ChainOf(s, port) && 'R' !in ChainOf(s, port)
  {
    var n := Decimal.Print(port);
    hide Decimal.Print;
    assert 'R' !in n && NEWLINE !in n;
  }

  /** After any history, what `iptRead` finds in the listing is exactly the metered
    * traffic of that port since it was last accounted afresh, whatever was done to
    * other ports meanwhile; and every accounted port that can match has one jump. */
  lemma HistoryCounts(t: Table, base: Table, d: Deco, es: seq<Event>, s: Side, port: int, layout: Layout)
    requires Decorated(t, base, d) && SingleDeco(d) && Lays(layout, Run(t, es).0, ChainOf(s, port))
    ensures ReadListing(Run(t, es).0, ChainOf(s, port), layout) ==
            match Meter(Counter(At(d, s), port), s, port, es) { case Some(b) => b case None => 0 }
    ensures var m := At(RunDeco(d, es), s);
            Jumps(m.jumps, 0, port) ==
            if 0 <= port < 65536 && Meter(Counter(At(d, s), port), s, port, es).Some? then 1 else 0
  {
    HistoryTransparent(t, base, d, es);
    MeterFollows(d, es, s, port);
    SingleFollows(d, es);
    var e := RunDeco(d, es);
    FromSide(Run(t, es).0, RunForeign(base, es).0, s, e);
    ReadIsCounter(Run(t, es).0, RunForeign(base, es).0, s, At(e, s), At(e, Other(s)), port, layout);
    hide Decorated, DecoratedBy, Run, RunForeign, RunDeco, Meter, ReadListing;
    OneJump(At(e, s), port);
  }

  lemma OneJump(m: Meters, port: int)
    requires MetersOk(m) && Single(m)
    ensures Jumps(m.jumps, 0, port) == if ValidPort(port) && Counter(m, port).Some? then 1 else 0
  {
    if HasJump(m, port) {
      JumpsOfPort(m.jumps, 0, port, FindJump(m.jumps, port));
      assert m.jumps[FindJump(m.jumps, port)] in m.jumps;
    } else {
      NoJumps(m.jumps, 0, port);
    }
  }

  lemma {:induction false} NoJumps(jumps: seq<Jumper>, from: nat, port: int)
    requires FindJump(jumps, port) == |jumps|
    ensures Jumps(jumps, from, port) == 0
    decreases |jumps| - from
  {
    if from < |jumps| {
      NoJumps(jumps, from + 1, port);
    }
  }

  lemma ChecksOnlyRead(s: Side, port: int)
    ensures forall t :: Exec(t, Command(CheckReturn, s, port)).0 == t
    ensures forall t :: Exec(t, Command(CheckJump, s, port)).0 == t
  {
  }

  // ---- The panel's code ----

  /** The host whose packet filter the panel edits.  A command may also fail for
    * reasons outside the table (a held lock, missing rights) unless `reliable`. */
  class Host {
    var table: Table
    const installed: bool
    const reliable: bool
    ghost var base: Table
    ghost var deco: Deco

    ghost predicate Valid() reads this { Decorated(table, base, deco) }

    constructor (table: Table, installed: bool, reliable: bool)
      requires ForeignTable(table)
      ensures Valid() && this.table == table && base == table
      ensures this.installed == installed && this.reliable == reliable
    {
      this.table, base := table, table;
      deco := Deco(Meters([], map[]), Meters([], map[]));
      this.installed, this.reliable := installed, reliable;
      PlainIsDecorated(table);
    }

    /** One run of the iptables program. */
    method Iptables(op: Op, s: Side, port: int) returns (ok: bool)
      requires Valid()
      modifies this
      ensures Valid() && base == old(base)
      ensures || (table, ok) == Exec(old(table), Command(op, s, port))
              || (!reliable && !ok && table == old(table))
    {
      var outside: bool := *;
      if outside && !reliable {
        return false;
      }
      CommandKeeps(table, base, deco, op, s, port);
      var r := Exec(table, Command(op, s, port));
      deco := With(deco, s, Effect(op, At(deco, s), port).0);
      table := r.0;
      return r.1;
    }

    /** The commands of `iptEnsure` for one direction. */
    method EnsureDirection(s: Side, port: int)
      requires Valid()
      modifies this
      ensures Valid() && base == old(base)
      ensures reliable ==> table == EnsureSide(old(table), s, port)
    {
      ChecksOnlyRead(s, port);
      hide Decorated, Exec, Command;
      var ok := Iptables(MakeChain, s, port);
      ok := Iptables(CheckReturn, s, port);
      if !ok {
        ok := Iptables(AppendReturn, s, port);
      }
      ok := Iptables(CheckJump, s, port);
      if !ok {
        ok := Iptables(InsertJump, s, port);
      }
    }

    /** Starts accounting a port.  Whichever commands fail, the foreign rules are as
      * before and the table stays decorated over them. */
    method IptEnsure(port: int)
      requires Valid()
      modifies this
      ensures Valid() && base == old(base)
      ensures !installed ==> table == old(table)
      ensures installed && reliable ==> table == EnsurePort(old(table), port)
    {
      if !installed {
        return;
      }
      hide Decorated, EnsureSide;
      EnsureDirection(In, port);
      EnsureDirection(Out, port);
    }

    /** Empties and deletes the chain of one direction. */
    method DropDirection(s: Side, port: int)
      requires Valid()
      modifies this
      ensures Valid() && base == old(base)
      ensures reliable ==> table == DropSide(old(table), s, port)
    {
      hide Decorated, Exec, Command;
      var ok := Iptables(EmptyChain, s, port);
      ok := Iptables(DropChain, s, port);
    }

    /** Stops accounting a port, under the same guarantees. */
    method IptRemove(port: int)
      requires Valid()
      modifies this
      ensures Valid() && base == old(base)
      ensures !installed ==> table == old(table)
      ensures installed && reliable ==> table == RemovePort(old(table), port)
    {
      if !installed {
        return;
      }
      hide Decorated, Exec, Command, DropSide;
      var ok := Iptables(DeleteJump, In, port);
      ok := Iptables(DeleteJump, Out, port);
      ghost var cut := table;
      for i := 0 to 2
        invariant Valid() && base == old(base)
        invariant reliable ==> table == if i == 0 then cut else if i == 1 then DropSide(cut, In, port)
                                        else DropSide(DropSide(cut, In, port), Out, port)
      {
        DropDirection([In, Out][i], port);
      }
    }

    /** One run of `iptables -nvxL`; it fails when there is no such chain. */
    method ListChain(c: Name) returns (out: Option<string>)
      ensures c !in table ==> out.None?
      ensures out.Some? ==> exists layout :: c in table && LayoutOk(layout, |table[c]|)
                                             && out.value == ListingText(c, table[c], layout)
      ensures installed && reliable && c in table ==> out.Some?
    {
      var outside: bool := *;
      if !installed || (outside && !reliable) || c !in table {
        return None;
      }
      var n := |table[c]|;
      assert LayoutOk(Layout(0, seq(n, _ => Row(0, 0, 0, 0, ""))), n);
      var layout :| LayoutOk(layout, n);
      return Some(ListingText(c, table[c], layout));
    }

    /** What iptChainBytes finds for one direction of a port. */
    method ReadDirection(s: Side, port: int) returns (b: nat)
      requires Valid()
      ensures installed && reliable ==> b == Shown(At(deco, s), port)
      ensures b == Shown(At(deco, s), port) || b == 0
    {
      var c := ChainOf(s, port);
      var out := ListChain(c);
      hide FirstCount, Split, ListingText, Decorated, LayoutOk;
      b := IptChainBytes(out);
      if out.Some? {
        ghost var layout :| LayoutOk(layout, |table[c]|) && out.value == ListingText(c, table[c], layout);
        FromSide(table, base, s, deco);
        ReadIsCounter(table, base, s, At(deco, s), At(deco, Other(s)), port, layout);
      } else if c !in table {
        NotListed(s, port);
      }
    }

    lemma NotListed(s: Side, port: int)
      requires Valid() && ChainOf(s, port) !in table
      ensures Shown(At(deco, s), port) == 0
    {
      FromSide(table, base, s, deco);
      OwnedOrNot(table, base, s, At(deco, s), At(deco, Other(s)), port);
      hide Decorated, DecoratedBy, ChainOf;
    }

    /** The byte counts of a port: the counters kept for it, or zero where iptables
      * cannot be run. */
    method IptRead(port: int) returns (bytesIn: nat, bytesOut: nat)
      requires Valid()
      ensures installed && reliable ==>
                bytesIn == Shown(deco.inp, port) && bytesOut == Shown(deco.out, port)
      ensures bytesIn == Shown(deco.inp, port) || bytesIn == 0
      ensures bytesOut == Shown(deco.out, port) || bytesOut == 0
    {
      bytesIn := ReadDirection(In, port);
      bytesOut := ReadDirection(Out, port);
    }
  }
}

/** Accounting one iptables command at a time: commands of any edits, in any order, each
  * of which may fail, with packets arriving between any two of them.
  */
module CommandHistory {
  import opened Options
  import opened Modular
  import opened Iptables
  import opened Accounting
  import opened AccountedTraffic
  import opened PortMeters
  import opened Listing
  import opened Text

  datatype Event =
    | Issue(op: Op, s: Side, port: int, fails: bool)   // one command; it may fail for outside reasons
    | Incoming(pkt: Packet)
    | Outgoing(pkt: Packet)
    | Forwarded(pkt: Packet)

  /** One event on a table, after some packets had their outcomes. */
  function PlayOne(before: (Table, seq<Outcome>), e: Event): (Table, seq<Outcome>) {
    match e
    case Issue(op, s, port, fails) =>
      if fails then before else (Exec(before.0, Command(op, s, port)).0, before.1)
    case Incoming(pkt) => var r := Arrive(before.0, INPUT, pkt); (r.0, before.1 + [r.1])
    case Outgoing(pkt) => var r := Arrive(before.0, OUTPUT, pkt); (r.0, before.1 + [r.1])
    case Forwarded(pkt) => var r := Arrive(before.0, FORWARD, pkt); (r.0, before.1 + [r.1])
  }

  function Play(t: Table, es: seq<Event>): (Table, seq<Outcome>) {
    if es == [] then (t, []) else PlayOne(Play(t, es[..|es| - 1]), es[|es| - 1])
  }

  function PlayOneForeign(before: (Table, seq<Outcome>), e: Event): (Table, seq<Outcome>) {
    match e
    case Incoming(pkt) => var r := Arrive(before.0, INPUT, pkt); (r.0, before.1 + [r.1])
    case Outgoing(pkt) => var r := Arrive(before.0, OUTPUT, pkt); (r.0, before.1 + [r.1])
    case Forwarded(pkt) => var r := Arrive(before.0, FORWARD, pkt); (r.0, before.1 + [r.1])
    case _ => before
  }

  /** The same packets on the foreign table, without any of the commands. */
  function PlayForeign(base: Table, es: seq<Event>): (Table, seq<Outcome>) {
    if es == [] then (base, []) else PlayOneForeign(PlayForeign(base, es[..|es| - 1]), es[|es| - 1])
  }

  function PlayedDeco(before: Deco, e: Event): Deco {
    match e
    case Issue(op, s, port, fails) =>
      if fails then before else With(before, s, Effect(op, At(before, s), port).0)
    case Incoming(pkt) => Deco(AfterPacket(In, before.inp, pkt), before.out)
    case Outgoing(pkt) => Deco(before.inp, AfterPacket(Out, before.out, pkt))
    case Forwarded(_) => before
  }

  function PlayDeco(d: Deco, es: seq<Event>): Deco {
    if es == [] then d else PlayedDeco(PlayDeco(d, es[..|es| - 1]), es[|es| - 1])
  }

  lemma PlayOneTransparent(r: (Table, seq<Outcome>), f: (Table, seq<Outcome>), d: Deco, e: Event)
    requires Decorated(r.0, f.0, d) && r.1 == f.1
    ensures PlayOne(r, e).1 == PlayOneForeign(f, e).1
    ensures Decorated(PlayOne(r, e).0, PlayOneForeign(f, e).0, PlayedDeco(d, e))
  {
    hide Decorated, Exec, Command, Effect, Arrive, AfterPacket;
    match e
    case Issue(op, s, port, fails) => CommandKeeps(r.0, f.0, d, op, s, port);
    case Forwarded(pkt) => ForwardArrivalTransparent(r.0, f.0, d, pkt);
    case _ => ArrivalTransparent(r.0, f.0, d, e.pkt);
  }

  /** Whatever commands are issued, and fail, between the packets, each packet meets the
    * verdict it would meet without them, and the table stays the foreign one, decorated. */
  lemma {:induction false} CommandsTransparent(t: Table, base: Table, d: Deco, es: seq<Event>)
    requires Decorated(t, base, d)
    ensures Play(t, es).1 == PlayForeign(base, es).1
    ensures Decorated(Play(t, es).0, PlayForeign(base, es).0, PlayDeco(d, es))
  {
    hide Decorated, PlayOne, PlayOneForeign, PlayedDeco;
    if es != [] {
      var es' := es[..|es| - 1];
      CommandsTransparent(t, base, d, es');
      PlayOneTransparent(Play(t, es'), PlayForeign(base, es'), PlayDeco(d, es'), es[|es| - 1]);
    }
  }

  // ---- Exactly what is counted ----

  /** What matters of one port in one direction: whether its chain exists, the bytes of the
    * chain's first RETURN rule, and the jumps to it. */
  datatype Gauge = Gauge(chain: bool, counter: Option<nat>, jumps: nat)

  function GaugeOf(m: Meters, port: int): Gauge {
    Gauge(port in m.chains, Counter(m, port), Jumps(m.jumps, 0, port))
  }

  /** What a command that does not fail for outside reasons does to its port. */
  function Turned(op: Op, g: Gauge, port: int): Gauge {
    match op
    case MakeChain => g.(chain := true)
    case CheckReturn => g
    case AppendReturn => if g.chain && g.counter.None? then g.(counter := Some(0)) else g
    case CheckJump => g
    case InsertJump => if g.chain && ValidPort(port) then g.(jumps := g.jumps + 1) else g
    case DeleteJump => if g.chain && ValidPort(port) && g.jumps > 0 then g.(jumps := g.jumps - 1) else g
    case EmptyChain => g.(counter := None)
    case DropChain => if g.counter.None? && g.jumps == 0 then g.(chain := false) else g
  }

  /** A packet of this length is counted once per jump. */
  function Counted(g: Gauge, len: nat): Gauge {
    if g.counter.Some? then g.(counter := Some((g.counter.value + len * g.jumps) % WRAP)) else g
  }

  /** The gauge of a port through a history: its own commands turn it, and each matching
    * packet is counted once per jump there is when it arrives. */
  function PlayGauge(g: Gauge, s: Side, port: int, es: seq<Event>): Gauge {
    if es == [] then g
    else
      var before := PlayGauge(g, s, port, es[..|es| - 1]);
      match es[|es| - 1]
      case Issue(op, s2, p, fails) => if !fails && s2 == s && p == port then Turned(op, before, port) else before
      case Incoming(pkt) => if s == In && pkt.tcp && pkt.dport == port then Counted(before, pkt.len) else before
      case Outgoing(pkt) => if s == Out && pkt.tcp && pkt.sport == port then Counted(before, pkt.len) else before
      case Forwarded(_) => before
  }

  lemma {:induction false} JumpsShift(x: Jumper, jumps: seq<Jumper>, from: nat, p: int)
    ensures Jumps([x] + jumps, from + 1, p) == Jumps(jumps, from, p)
    decreases |jumps| - from
  {
    if from < |jumps| {
      JumpsShift(x, jumps, from + 1, p);
    }
  }

  lemma {:induction false} JumpsDrop(jumps: seq<Jumper>, from: nat, k: nat, p: int)
    requires from <= k < |jumps|
    ensures Jumps(jumps, from, p) == Jumps(DropAt(jumps, k), from, p) + (if jumps[k].port == p then 1 else 0)
    decreases |jumps| - from
  {
    if from < k {
      JumpsDrop(jumps, from + 1, k, p);
    } else {
      JumpsTail(jumps, k, k, p);
    }
  }

  lemma {:induction false} JumpsTail(jumps: seq<Jumper>, k: nat, from: nat, p: int)
    requires k <= from && k < |jumps|
    ensures Jumps(jumps, from + 1, p) == Jumps(DropAt(jumps, k), from, p)
    decreases |jumps| - from
  {
    if from + 1 < |jumps| {
      JumpsTail(jumps, k, from + 1, p);
    }
  }

  lemma {:induction false} JumpsAre(jumps: seq<Jumper>, from: nat, p: int)
    ensures Jumps(jumps, from, p) > 0 <==> exists i :: from <= i < |jumps| && jumps[i].port == p
    decreases |jumps| - from
  {
    if from < |jumps| {
      JumpsAre(jumps, from + 1, p);
    }
  }

  lemma {:induction false} JumpsMoved(a: seq<Jumper>, b: seq<Jumper>, from: nat, p: int)
    requires |a| == |b| && forall i :: 0 <= i < |a| ==> a[i].port == b[i].port
    ensures Jumps(a, from, p) == Jumps(b, from, p)
    decreases |a| - from
  {
    if from < |a| {
      JumpsMoved(a, b, from + 1, p);
    }
  }

  lemma HasJumpCounts(m: Meters, p: int)
    ensures HasJump(m, p) <==> Jumps(m.jumps, 0, p) > 0
  {
    JumpsAre(m.jumps, 0, p);
  }

  lemma EffectTurns(op: Op, m: Meters, p: int, port: int)
    requires MetersOk(m)
    ensures GaugeOf(Effect(op, m, p).0, port) ==
            if p == port then Turned(op, GaugeOf(m, port), port) else GaugeOf(m, port)
  {
    HasJumpCounts(m, p);
    match op
    case InsertJump =>
      JumpsShift(Jumper(p, 0), m.jumps, 0, port);
    case DeleteJump =>
      if HasJump(m, p) {
        JumpsDrop(m.jumps, 0, FindJump(m.jumps, p), port);
      }
    case _ =>
  }

  lemma PacketTurns(s: Side, m: Meters, pkt: Packet, port: int)
    ensures GaugeOf(AfterPacket(s, m, pkt), port) ==
            if pkt.tcp && (if s == In then pkt.dport else pkt.sport) == port then Counted(GaugeOf(m, port), pkt.len)
            else GaugeOf(m, port)
  {
    PortHitIs(s, port, pkt);
    hide PortHit;
    JumpsMoved(AfterPacket(s, m, pkt).jumps, m.jumps, 0, port);
  }

  lemma {:induction false} GaugeFollows(t: Table, base: Table, d: Deco, es: seq<Event>, s: Side, port: int)
    requires Decorated(t, base, d)
    ensures GaugeOf(At(PlayDeco(d, es), s), port) == PlayGauge(GaugeOf(At(d, s), port), s, port, es)
  {
    hide Decorated, Effect, AfterPacket, GaugeOf, Turned, Counted, MetersOk, Play, PlayForeign;
    if es != [] {
      var es' := es[..|es| - 1];
      GaugeFollows(t, base, d, es', s, port);
      CommandsTransparent(t, base, d, es');
      var e := PlayDeco(d, es');
      MetersAt(Play(t, es').0, PlayForeign(base, es').0, e, s);
      match es[|es| - 1]
      case Issue(op, s2, p, fails) => EffectTurns(op, At(e, s), p, port);
      case Incoming(pkt) => PacketTurns(In, e.inp, pkt, port);
      case Outgoing(pkt) => PacketTurns(Out, e.out, pkt, port);
      case Forwarded(_) =>
    }
  }

  /** After any such history the count scanned from the listing of a port's chain is its
    * gauge's: the length of every matching packet times the jumps there were when it
    * arrived, since the counter was last set to zero. */
  lemma CommandsCount(t: Table, base: Table, d: Deco, es: seq<Event>, s: Side, port: int, layout: Layout)
    requires Decorated(t, base, d) && Lays(layout, Play(t, es).0, ChainOf(s, port))
    ensures var g := PlayGauge(GaugeOf(At(d, s), port), s, port, es);
            ReadListing(Play(t, es).0, ChainOf(s, port), layout) ==
            if g.counter.Some? then g.counter.value else 0
  {
    CommandsTransparent(t, base, d, es);
    GaugeFollows(t, base, d, es, s, port);
    var e := PlayDeco(d, es);
    var u, b := Play(t, es).0, PlayForeign(base, es).0;
    FromSide(u, b, s, e);
    ReadIsCounter(u, b, s, At(e, s), At(e, Other(s)), port, layout);
    hide Decorated, DecoratedBy, Play, PlayForeign, PlayDeco, PlayGauge, ReadListing, Lays, Jumps;
  }
}

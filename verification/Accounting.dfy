/** Byte accounting per listen port: what `iptEnsure`, `iptRemove` and `iptRead` do
  * to a rule table that also holds rules of others.
  *
  * A decorated table is a foreign table with accounting jumps put before its INPUT
  * and OUTPUT rules and accounting chains put beside its own.  Every command keeps
  * a decorated table decorated over the same foreign table, so accounting never
  * changes a verdict; and when commands do not fail for outside reasons, each
  * accounted port has exactly one jump and one counter per direction.
  */
module Accounting {
  import opened Iptables
  import Decimal

  datatype Side = In | Out

  function Hook(s: Side): Name { if s == In then INPUT else OUTPUT }

  /** The chain names of a port: SSHTP_%d_IN and SSHTP_%d_OUT. */
  function ChainOf(s: Side, port: int): Name {
    "SSHTP_" + Decimal.Print(port) + (if s == In then "_IN" else "_OUT")
  }

  function PortMatch(s: Side, port: int): Match {
    if s == In then TcpDport(port) else TcpSport(port)
  }

  predicate IsAccounting(c: Name) { "SSHTP_" <= c }

  predicate PortHit(s: Side, port: int, pkt: Packet) { Matches(PortMatch(s, port), pkt) }

  /** Distinct ports and directions never share a chain, and accounting chains
    * clash with no other chain. */
  lemma ChainsDistinct(s1: Side, p1: int, s2: Side, p2: int)
    requires ChainOf(s1, p1) == ChainOf(s2, p2)
    ensures s1 == s2 && p1 == p2
  {
    var c := ChainOf(s1, p1);
    var n1, n2 := Decimal.Print(p1), Decimal.Print(p2);
    assert c[|c| - 1] == (if s1 == In then 'N' else 'T');
    assert c[|c| - 1] == (if s2 == In then 'N' else 'T');
    assert c[6..6 + |n1|] == n1 && c[6..6 + |n2|] == n2;
    Decimal.PrintInjective(p1, p2);
  }

  lemma ChainsOf443()
    ensures ChainOf(In, 443) == "SSHTP_443_IN" && ChainOf(Out, 443) == "SSHTP_443_OUT"
  {
    assert Decimal.Digits(4) == "4" && Decimal.Digits(44) == "44" && Decimal.Digits(443) == "443";
  }

  lemma ChainNames()
    ensures forall s1, p1, s2, p2 {:trigger ChainOf(s1, p1), ChainOf(s2, p2)} ::
              ChainOf(s1, p1) == ChainOf(s2, p2) ==> s1 == s2 && p1 == p2
    ensures forall s, p {:trigger ChainOf(s, p)} :: IsAccounting(ChainOf(s, p)) && !Builtin(ChainOf(s, p))
    ensures !IsAccounting(INPUT) && !IsAccounting(OUTPUT) && !IsAccounting(FORWARD)
  {
    forall s1, p1, s2, p2 | ChainOf(s1, p1) == ChainOf(s2, p2)
      ensures s1 == s2 && p1 == p2
    {
      ChainsDistinct(s1, p1, s2, p2);
    }
    forall s, p
      ensures IsAccounting(ChainOf(s, p)) && !Builtin(ChainOf(s, p))
    {
      assert ChainOf(s, p)[..6] == "SSHTP_";
    }
    assert OUTPUT[0] == 'O' && FORWARD[0] == 'F';
  }

  // ---- Decorated tables ----

  datatype Jumper = Jumper(port: int, bytes: Bytes)

  /** The accounting part of one direction: the jumps at the head of the built-in
    * chain, and the counters of the RETURN rules of each accounting chain. */
  datatype Meters = Meters(jumps: seq<Jumper>, chains: map<int, seq<Bytes>>)

  datatype Deco = Deco(inp: Meters, out: Meters)

  function At(d: Deco, s: Side): Meters { if s == In then d.inp else d.out }

  function With(d: Deco, s: Side, m: Meters): Deco {
    if s == In then d.(inp := m) else d.(out := m)
  }

  function JumpRule(s: Side, j: Jumper): Rule {
    Rule(PortMatch(s, j.port), Jump(ChainOf(s, j.port)), j.bytes)
  }

  function JumpRules(s: Side, jumps: seq<Jumper>): seq<Rule> {
    seq(|jumps|, i requires 0 <= i < |jumps| => JumpRule(s, jumps[i]))
  }

  function ReturnRules(counters: seq<Bytes>): seq<Rule> {
    seq(|counters|, i requires 0 <= i < |counters| => Rule(All, Return, counters[i]))
  }

  /** A table none of whose chains or jumps is ours. */
  ghost predicate ForeignTable(base: Table) {
    && INPUT in base && OUTPUT in base
    && (forall c :: c in base ==> !IsAccounting(c))
    && (forall c, i :: c in base && 0 <= i < |base[c]| && base[c][i].t.Jump? ==>
                         !IsAccounting(base[c][i].t.c) && !Builtin(base[c][i].t.c))
  }

  ghost predicate MetersOk(m: Meters) {
    forall i :: 0 <= i < |m.jumps| ==> ValidPort(m.jumps[i].port) && m.jumps[i].port in m.chains
  }

  function Other(s: Side): Side { if s == In then Out else In }

  function ChainsOf(s: Side, m: Meters): set<Name> {
    set p | p in m.chains :: ChainOf(s, p)
  }

  ghost predicate HookOk(t: Table, base: Table, s: Side, m: Meters)
    requires Hook(s) in base
  {
    Hook(s) in t && t[Hook(s)] == JumpRules(s, m.jumps) + base[Hook(s)]
  }

  ghost predicate ChainsOk(t: Table, s: Side, m: Meters) {
    forall p :: p in m.chains ==> ChainOf(s, p) in t && t[ChainOf(s, p)] == ReturnRules(m.chains[p])
  }

  ghost predicate RestOk(t: Table, base: Table) {
    forall c :: c in base && c != INPUT && c != OUTPUT ==> c in t && t[c] == base[c]
  }

  /** t is the foreign table decorated with m in direction s and mo in the other. */
  ghost predicate DecoratedBy(t: Table, base: Table, s: Side, m: Meters, mo: Meters) {
    && ForeignTable(base) && RestOk(t, base)
    && MetersOk(m) && HookOk(t, base, s, m) && ChainsOk(t, s, m)
    && MetersOk(mo) && HookOk(t, base, Other(s), mo) && ChainsOk(t, Other(s), mo)
    && t.Keys == base.Keys + ChainsOf(s, m) + ChainsOf(Other(s), mo)
  }

  ghost predicate Decorated(t: Table, base: Table, d: Deco) {
    DecoratedBy(t, base, In, d.inp, d.out)
  }

  lemma FromSide(t: Table, base: Table, s: Side, d: Deco)
    ensures Decorated(t, base, d) <==> DecoratedBy(t, base, s, At(d, s), At(d, Other(s)))
  {
    assert base.Keys + ChainsOf(In, d.inp) + ChainsOf(Out, d.out)
        == base.Keys + ChainsOf(Out, d.out) + ChainsOf(In, d.inp);
  }

  /** A foreign table is decorated with nothing. */
  lemma PlainIsDecorated(base: Table)
    requires ForeignTable(base)
    ensures Decorated(base, base, Deco(Meters([], map[]), Meters([], map[])))
  {
    assert JumpRules(In, []) + base[INPUT] == base[INPUT];
    assert JumpRules(Out, []) + base[OUTPUT] == base[OUTPUT];
  }

  /** The decoration determines the table. */
  lemma DecoratedUnique(t: Table, u: Table, base: Table, d: Deco)
    requires Decorated(t, base, d) && Decorated(u, base, d)
    ensures t == u
  {
    hide ChainOf, JumpRules, ReturnRules;
    forall c | c in t
      ensures t[c] == u[c]
    {
      assert c in base || c in ChainsOf(In, d.inp) || c in ChainsOf(Out, d.out);
    }
  }

  // ---- The commands of the accounting code ----

  /** The commands `iptEnsure` and `iptRemove` issue for one direction of a port. */
  datatype Op = MakeChain | CheckReturn | AppendReturn | CheckJump | InsertJump
              | DeleteJump | EmptyChain | DropChain

  function Command(op: Op, s: Side, port: int): Cmd {
    var c := ChainOf(s, port);
    match op
    case MakeChain => NewChain(c)
    case CheckReturn => Check(c, All, Return)
    case AppendReturn => Append(c, All, Return)
    case CheckJump => Check(Hook(s), PortMatch(s, port), Jump(c))
    case InsertJump => Insert(Hook(s), PortMatch(s, port), Jump(c))
    case DeleteJump => Delete(Hook(s), PortMatch(s, port), Jump(c))
    case EmptyChain => FlushChain(c)
    case DropChain => DeleteChain(c)
  }

  function FindJump(jumps: seq<Jumper>, port: int): (i: nat)
    ensures i <= |jumps|
    ensures i < |jumps| ==> jumps[i].port == port
    ensures forall x :: 0 <= x < i ==> jumps[x].port != port
  {
    if jumps == [] || jumps[0].port == port then 0 else 1 + FindJump(jumps[1..], port)
  }

  predicate HasJump(m: Meters, port: int) { FindJump(m.jumps, port) < |m.jumps| }

  function DropAt(jumps: seq<Jumper>, i: nat): seq<Jumper>
    requires i < |jumps|
  {
    jumps[..i] + jumps[i + 1..]
  }

  /** What a command does to the accounting part of its direction. */
  function Effect(op: Op, m: Meters, port: int): (Meters, bool) {
    match op
    case MakeChain =>
      if port in m.chains then (m, false) else (m.(chains := m.chains[port := []]), true)
    case CheckReturn => (m, port in m.chains && m.chains[port] != [])
    case AppendReturn =>
      if port in m.chains then (m.(chains := m.chains[port := m.chains[port] + [0]]), true)
      else (m, false)
    case CheckJump => (m, port in m.chains && ValidPort(port) && HasJump(m, port))
    case InsertJump =>
      if port in m.chains && ValidPort(port) then
        (m.(jumps := [Jumper(port, 0)] + m.jumps), true)
      else (m, false)
    case DeleteJump =>
      if port in m.chains && ValidPort(port) && HasJump(m, port) then
        (m.(jumps := DropAt(m.jumps, FindJump(m.jumps, port))), true)
      else (m, false)
    case EmptyChain =>
      if port in m.chains then (m.(chains := m.chains[port := []]), true) else (m, false)
    case DropChain =>
      if port in m.chains && m.chains[port] == [] && !HasJump(m, port) then
        (m.(chains := m.chains - {port}), true)
      else (m, false)
  }

  lemma FindInHook(s: Side, m: Meters, base: Table, port: int)
    requires ForeignTable(base)
    ensures var rules := JumpRules(s, m.jumps) + base[Hook(s)];
            var i := Find(rules, PortMatch(s, port), Jump(ChainOf(s, port)));
            if HasJump(m, port) then i == FindJump(m.jumps, port) else i == |rules|
  {
    ChainNames();
    hide ChainOf;
    var rules := JumpRules(s, m.jumps) + base[Hook(s)];
    forall i | 0 <= i < |m.jumps|
      ensures Same(rules[i], PortMatch(s, port), Jump(ChainOf(s, port))) <==> m.jumps[i].port == port
    {
      assert rules[i] == JumpRule(s, m.jumps[i]);
    }
    assert forall i :: |m.jumps| <= i < |rules| ==> rules[i] == base[Hook(s)][i - |m.jumps|];
  }

  ghost predicate IsJumpAt(x: Name, i: nat, r: Rule, s: Side, m: Meters) {
    x == Hook(s) && i < |m.jumps| && r == JumpRule(s, m.jumps[i])
  }

  lemma HookRule(t: Table, base: Table, s: Side, m: Meters, i: nat)
    requires Hook(s) in base && HookOk(t, base, s, m) && i < |t[Hook(s)]|
    ensures IsJumpAt(Hook(s), i, t[Hook(s)][i], s, m) || t[Hook(s)][i] in base[Hook(s)]
  {
    var j := JumpRules(s, m.jumps);
    assert t[Hook(s)][i] == if i < |j| then j[i] else base[Hook(s)][i - |j|];
  }

  /** Every rule of a decorated table is one of our jumps, a foreign rule or one of
    * our RETURN rules. */
  lemma RuleOrigin(t: Table, base: Table, s: Side, m: Meters, mo: Meters, x: Name, i: nat)
    requires DecoratedBy(t, base, s, m, mo) && x in t && i < |t[x]|
    ensures || IsJumpAt(x, i, t[x][i], s, m) || IsJumpAt(x, i, t[x][i], Other(s), mo)
            || (x in base && t[x][i] in base[x])
            || t[x][i].t == Return
  {
    hide ChainOf, JumpRules, JumpRule;
    assert x in base || x in ChainsOf(s, m) || x in ChainsOf(Other(s), mo);
    if x == Hook(s) {
      HookRule(t, base, s, m, i);
    } else if x == Hook(Other(s)) {
      HookRule(t, base, Other(s), mo, i);
    }
  }

  lemma ReferencedIffJump(t: Table, base: Table, s: Side, m: Meters, mo: Meters, port: int)
    requires DecoratedBy(t, base, s, m, mo)
    ensures Referenced(t, ChainOf(s, port)) <==> HasJump(m, port)
  {
    ChainNames();
    hide ChainOf;
    var c := ChainOf(s, port);
    if HasJump(m, port) {
      var i := FindJump(m.jumps, port);
      assert t[Hook(s)][i] == JumpRule(s, m.jumps[i]);
    }
    if x, i :| x in t && 0 <= i < |t[x]| && t[x][i].t == Jump(c) {
      RuleOrigin(t, base, s, m, mo, x, i);
      hide DecoratedBy;
      assert x == Hook(s) && m.jumps[i].port == port;
    }
  }

  lemma OwnedOrNot(t: Table, base: Table, s: Side, m: Meters, mo: Meters, port: int)
    requires DecoratedBy(t, base, s, m, mo)
    ensures ChainOf(s, port) in t <==> port in m.chains
    ensures port in m.chains ==> t[ChainOf(s, port)] == ReturnRules(m.chains[port])
    ensures !Builtin(ChainOf(s, port))
  {
    ChainNames();
    hide ChainOf;
    assert ChainOf(s, port) in ChainsOf(s, m) <==> port in m.chains;
  }

  lemma SetChainRows(t: Table, base: Table, s: Side, m: Meters, mo: Meters, port: int, counters: seq<Bytes>)
    requires DecoratedBy(t, base, s, m, mo)
    ensures var u := t[ChainOf(s, port) := ReturnRules(counters)];
            HookOk(u, base, s, m) && HookOk(u, base, Other(s), mo) && RestOk(u, base)
  {
    hide ChainOf, ReturnRules, JumpRules, ChainsOk;
    ChainNames();
    hide IsAccounting, Builtin;
  }

  lemma SetChainOwn(t: Table, base: Table, s: Side, m: Meters, mo: Meters, port: int, counters: seq<Bytes>)
    requires DecoratedBy(t, base, s, m, mo)
    ensures var u := t[ChainOf(s, port) := ReturnRules(counters)];
            ChainsOk(u, s, m.(chains := m.chains[port := counters])) && ChainsOk(u, Other(s), mo)
  {
    hide ChainOf, ReturnRules, JumpRules, HookOk, RestOk;
    ChainNames();
    hide IsAccounting, Builtin;
  }

  lemma SetChain(t: Table, base: Table, s: Side, m: Meters, mo: Meters, port: int, counters: seq<Bytes>)
    requires DecoratedBy(t, base, s, m, mo)
    ensures DecoratedBy(t[ChainOf(s, port) := ReturnRules(counters)], base, s,
                        m.(chains := m.chains[port := counters]), mo)
  {
    var c, m' := ChainOf(s, port), m.(chains := m.chains[port := counters]);
    assert MetersOk(m');
    SetChainNames(s, m, port, counters);
    hide ReturnRules, JumpRules, ChainsOk, RestOk, ForeignTable, ChainOf, ChainsOf, MetersOk, HookOk;
    SetChainRows(t, base, s, m, mo, port, counters);
    SetChainOwn(t, base, s, m, mo, port, counters);
    HookOfJumps(t[c := ReturnRules(counters)], base, s, m, m');
    assert t[c := ReturnRules(counters)].Keys == t.Keys + {c};
  }

  lemma HookOfJumps(t: Table, base: Table, s: Side, m: Meters, m': Meters)
    requires Hook(s) in base && m'.jumps == m.jumps
    ensures HookOk(t, base, s, m') <==> HookOk(t, base, s, m)
  {
  }

  lemma SetChainNames(s: Side, m: Meters, port: int, counters: seq<Bytes>)
    ensures ChainsOf(s, m.(chains := m.chains[port := counters])) == ChainsOf(s, m) + {ChainOf(s, port)}
  {
    hide ChainOf;
  }

  lemma SetJumpsRows(t: Table, base: Table, s: Side, m: Meters, mo: Meters, jumps: seq<Jumper>)
    requires DecoratedBy(t, base, s, m, mo)
    ensures var u := t[Hook(s) := JumpRules(s, jumps) + base[Hook(s)]];
            HookOk(u, base, s, m.(jumps := jumps)) && HookOk(u, base, Other(s), mo) && RestOk(u, base)
  {
    hide ChainOf, ReturnRules, JumpRules, ChainsOk;
  }

  lemma SetJumpsChains(t: Table, base: Table, s: Side, m: Meters, mo: Meters, jumps: seq<Jumper>)
    requires DecoratedBy(t, base, s, m, mo)
    ensures var u := t[Hook(s) := JumpRules(s, jumps) + base[Hook(s)]];
            ChainsOk(u, s, m.(jumps := jumps)) && ChainsOk(u, Other(s), mo)
  {
    hide ChainOf, ReturnRules, JumpRules, HookOk, RestOk;
    ChainNames();
    hide IsAccounting, Builtin;
  }

  lemma SetJumps(t: Table, base: Table, s: Side, m: Meters, mo: Meters, jumps: seq<Jumper>)
    requires DecoratedBy(t, base, s, m, mo) && MetersOk(m.(jumps := jumps))
    ensures DecoratedBy(t[Hook(s) := JumpRules(s, jumps) + base[Hook(s)]], base, s,
                        m.(jumps := jumps), mo)
  {
    hide ChainOf, ReturnRules, JumpRules, ChainsOk, RestOk, MetersOk;
    SetJumpsRows(t, base, s, m, mo, jumps);
    SetJumpsChains(t, base, s, m, mo, jumps);
    assert ChainsOf(s, m.(jumps := jumps)) == ChainsOf(s, m);
  }

  lemma UnsetChainRows(t: Table, base: Table, s: Side, m: Meters, mo: Meters, port: int)
    requires DecoratedBy(t, base, s, m, mo)
    ensures var u := t - {ChainOf(s, port)};
            HookOk(u, base, s, m) && HookOk(u, base, Other(s), mo) && RestOk(u, base)
  {
    hide ChainOf, ReturnRules, JumpRules, ChainsOk;
    ChainNames();
    hide IsAccounting, Builtin;
  }

  lemma UnsetChainOwn(t: Table, base: Table, s: Side, m: Meters, mo: Meters, port: int)
    requires DecoratedBy(t, base, s, m, mo)
    ensures var u := t - {ChainOf(s, port)};
            ChainsOk(u, s, m.(chains := m.chains - {port})) && ChainsOk(u, Other(s), mo)
  {
    hide ChainOf, ReturnRules, JumpRules, HookOk, RestOk;
    ChainNames();
    hide IsAccounting, Builtin;
  }

  lemma UnsetChainNames(base: Table, s: Side, m: Meters, mo: Meters, port: int)
    requires ForeignTable(base) && port in m.chains
    ensures ChainsOf(s, m.(chains := m.chains - {port})) == ChainsOf(s, m) - {ChainOf(s, port)}
    ensures ChainOf(s, port) !in base && ChainOf(s, port) !in ChainsOf(Other(s), mo)
  {
    hide ChainOf;
    ChainNames();
    hide Builtin;
  }

  lemma UnsetChain(t: Table, base: Table, s: Side, m: Meters, mo: Meters, port: int)
    requires DecoratedBy(t, base, s, m, mo) && port in m.chains && !HasJump(m, port)
    ensures DecoratedBy(t - {ChainOf(s, port)}, base, s, m.(chains := m.chains - {port}), mo)
  {
    var m' := m.(chains := m.chains - {port});
    assert MetersOk(m') by {
      assert forall i :: 0 <= i < |m.jumps| ==> m.jumps[i].port != port;
    }
    UnsetChainNames(base, s, m, mo, port);
    hide ChainOf, ReturnRules, JumpRules, ChainsOk, RestOk, MetersOk, ForeignTable, ChainsOf, HookOk;
    UnsetChainRows(t, base, s, m, mo, port);
    UnsetChainOwn(t, base, s, m, mo, port);
    HookOfJumps(t - {ChainOf(s, port)}, base, s, m, m');
    assert (t - {ChainOf(s, port)}).Keys == t.Keys - {ChainOf(s, port)};
  }

  /** What it takes for a command to act on the decoration as Effect says. */
  ghost predicate Keeps(t: Table, base: Table, s: Side, m: Meters, mo: Meters, op: Op, port: int) {
    var r, e := Exec(t, Command(op, s, port)), Effect(op, m, port);
    r.1 == e.1 && DecoratedBy(r.0, base, s, e.0, mo)
  }

  lemma EmptiedKeeps(t: Table, base: Table, s: Side, m: Meters, mo: Meters, op: Op, port: int)
    requires DecoratedBy(t, base, s, m, mo) && (op.MakeChain? || op.EmptyChain?)
    ensures Keeps(t, base, s, m, mo, op, port)
  {
    hide ChainOf, DecoratedBy;
    OwnedOrNot(t, base, s, m, mo, port);
    SetChain(t, base, s, m, mo, port, []);
    assert ReturnRules([]) == [];
    hide ReturnRules;
  }

  lemma ReturnRulesPush(counters: seq<Bytes>)
    ensures ReturnRules(counters + [0]) == ReturnRules(counters) + [Rule(All, Return, 0)]
    ensures Find(ReturnRules(counters), All, Return) == 0
    ensures ReturnRules(counters) == [] <==> counters == []
  {
  }

  lemma ReturnKeeps(t: Table, base: Table, s: Side, m: Meters, mo: Meters, op: Op, port: int)
    requires DecoratedBy(t, base, s, m, mo) && (op.CheckReturn? || op.AppendReturn?)
    ensures Keeps(t, base, s, m, mo, op, port)
  {
    hide ChainOf, DecoratedBy;
    OwnedOrNot(t, base, s, m, mo, port);
    if port in m.chains {
      SetChain(t, base, s, m, mo, port, m.chains[port] + [0]);
      ReturnRulesPush(m.chains[port]);
    }
    hide ReturnRules, Find;
  }

  lemma DropChainKeeps(t: Table, base: Table, s: Side, m: Meters, mo: Meters, port: int)
    requires DecoratedBy(t, base, s, m, mo)
    ensures Keeps(t, base, s, m, mo, DropChain, port)
  {
    hide ChainOf, DecoratedBy, Referenced, HasJump, Builtin;
    OwnedOrNot(t, base, s, m, mo, port);
    ReferencedIffJump(t, base, s, m, mo, port);
    if port in m.chains {
      ReturnRulesPush(m.chains[port]);
      if !HasJump(m, port) {
        UnsetChain(t, base, s, m, mo, port);
      }
    }
    hide ReturnRules;
  }

  lemma FindJumpRule(t: Table, base: Table, s: Side, m: Meters, mo: Meters, port: int)
    requires DecoratedBy(t, base, s, m, mo)
    ensures Hook(s) in t && Hook(s) in base && t[Hook(s)] == JumpRules(s, m.jumps) + base[Hook(s)]
    ensures (Find(t[Hook(s)], PortMatch(s, port), Jump(ChainOf(s, port))) < |t[Hook(s)]|) == HasJump(m, port)
    ensures HasJump(m, port) ==>
              && Find(t[Hook(s)], PortMatch(s, port), Jump(ChainOf(s, port))) == FindJump(m.jumps, port)
              && ValidPort(port) && port in m.chains
    ensures ValidRule(t, PortMatch(s, port), Jump(ChainOf(s, port))) <==> port in m.chains && ValidPort(port)
  {
    OwnedOrNot(t, base, s, m, mo, port);
    FindInHook(s, m, base, port);
    ChainNames();
    hide ChainOf;
    if HasJump(m, port) {
      assert ValidPort(m.jumps[FindJump(m.jumps, port)].port);
    }
  }

  lemma JumpRulesPush(s: Side, jumps: seq<Jumper>, j: Jumper, rest: seq<Rule>)
    ensures JumpRules(s, [j] + jumps) + rest == [JumpRule(s, j)] + (JumpRules(s, jumps) + rest)
  {
    hide JumpRule;
    assert JumpRules(s, [j] + jumps) == [JumpRule(s, j)] + JumpRules(s, jumps);
  }

  lemma JumpRulesDrop(s: Side, jumps: seq<Jumper>, i: nat, rest: seq<Rule>)
    requires i < |jumps|
    ensures var rules := JumpRules(s, jumps) + rest;
            JumpRules(s, DropAt(jumps, i)) + rest == rules[..i] + rules[i + 1..]
  {
    assert JumpRules(s, DropAt(jumps, i)) == JumpRules(s, jumps)[..i] + JumpRules(s, jumps)[i + 1..];
  }

  lemma InsertKeeps(t: Table, base: Table, s: Side, m: Meters, mo: Meters, port: int)
    requires DecoratedBy(t, base, s, m, mo)
    ensures Keeps(t, base, s, m, mo, InsertJump, port)
  {
    hide ChainOf, DecoratedBy, ValidRule, HasJump, JumpRules, Find;
    FindJumpRule(t, base, s, m, mo, port);
    if port in m.chains && ValidPort(port) {
      MetersOf(t, base, s, m, mo);
      SetJumps(t, base, s, m, mo, [Jumper(port, 0)] + m.jumps);
      JumpRulesPush(s, m.jumps, Jumper(port, 0), base[Hook(s)]);
    }
  }

  lemma MetersOf(t: Table, base: Table, s: Side, m: Meters, mo: Meters)
    requires DecoratedBy(t, base, s, m, mo)
    ensures MetersOk(m)
  {
  }

  lemma CheckJumpKeeps(t: Table, base: Table, s: Side, m: Meters, mo: Meters, port: int)
    requires DecoratedBy(t, base, s, m, mo)
    ensures Keeps(t, base, s, m, mo, CheckJump, port)
  {
    hide ChainOf, DecoratedBy, ValidRule, JumpRules, HasJump, Find;
    FindJumpRule(t, base, s, m, mo, port);
  }

  lemma DeleteKeeps(t: Table, base: Table, s: Side, m: Meters, mo: Meters, port: int)
    requires DecoratedBy(t, base, s, m, mo)
    ensures Keeps(t, base, s, m, mo, DeleteJump, port)
  {
    hide ChainOf, DecoratedBy, ValidRule, JumpRules, Find, DropAt;
    FindJumpRule(t, base, s, m, mo, port);
    if HasJump(m, port) {
      var i := FindJump(m.jumps, port);
      MetersOf(t, base, s, m, mo);
      DropKeepsMeters(m, i);
      SetJumps(t, base, s, m, mo, DropAt(m.jumps, i));
      JumpRulesDrop(s, m.jumps, i, base[Hook(s)]);
    }
    hide FindJump, HasJump, MetersOk;
  }

  lemma DropKeepsMeters(m: Meters, i: nat)
    requires MetersOk(m) && i < |m.jumps|
    ensures MetersOk(m.(jumps := DropAt(m.jumps, i)))
  {
  }

  /** Every accounting command, on any decorated table, leaves the table decorated
    * over the same foreign rules. */
  lemma CommandKeeps(t: Table, base: Table, d: Deco, op: Op, s: Side, port: int)
    requires Decorated(t, base, d)
    ensures var r, e := Exec(t, Command(op, s, port)), Effect(op, At(d, s), port);
            r.1 == e.1 && Decorated(r.0, base, With(d, s, e.0))
  {
    var m, mo := At(d, s), At(d, Other(s));
    FromSide(t, base, s, d);
    if op.InsertJump? {
      InsertKeeps(t, base, s, m, mo, port);
    } else if op.CheckJump? {
      CheckJumpKeeps(t, base, s, m, mo, port);
    } else if op.DeleteJump? {
      DeleteKeeps(t, base, s, m, mo, port);
    } else if op.DropChain? {
      DropChainKeeps(t, base, s, m, mo, port);
    } else if op.MakeChain? || op.EmptyChain? {
      EmptiedKeeps(t, base, s, m, mo, op, port);
    } else {
      ReturnKeeps(t, base, s, m, mo, op, port);
    }
    FromSide(Exec(t, Command(op, s, port)).0, base, s, With(d, s, Effect(op, m, port).0));
    hide DecoratedBy, Exec, Effect;
  }
}

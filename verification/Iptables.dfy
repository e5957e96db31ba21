/** The packet filter as far as byte accounting uses it: rule tables with chains,
  * jumps, RETURN, verdicts and byte counters, and the iptables commands the panel
  * issues, with the meanings iptables(8) gives them.
  */
module Iptables {
  import opened Options
  import opened Modular

  type Name = string

  // Kernel byte counters are 64 bits wide.
  type Bytes = b: nat | b < WRAP
  type Port = p: nat | p < 65536

  /** `tags` says which foreign match conditions the packet satisfies, so that a
    * packet can satisfy any set of them. */
  datatype Packet = Packet(tcp: bool, sport: Port, dport: Port, len: nat, tags: set<nat>)

  datatype Match = All | TcpDport(p: int) | TcpSport(p: int) | Foreign(tag: nat)

  /** `Continue` is a rule without a verdict: it only counts. */
  datatype Target = Accept | Drop | Return | Continue | Jump(c: Name)

  datatype Rule = Rule(m: Match, t: Target, bytes: Bytes)

  type Table = map<Name, seq<Rule>>

  datatype Outcome = Accepted | Dropped
                   | Pass    // the chain was left without a verdict; in a built-in chain its policy decides

  const INPUT: Name := "INPUT"
  const OUTPUT: Name := "OUTPUT"
  const FORWARD: Name := "FORWARD"

  predicate Builtin(c: Name) { c == INPUT || c == OUTPUT || c == FORWARD }

  predicate Matches(m: Match, pkt: Packet) {
    match m
    case All => true
    case TcpDport(p) => pkt.tcp && pkt.dport == p
    case TcpSport(p) => pkt.tcp && pkt.sport == p
    case Foreign(tag) => tag in pkt.tags
  }

  // ---- Traversal ----

  type Hits = multiset<(Name, nat)>

  /** What walking from a rule on yields, given the walk of the chain it jumps to
    * (None when there is no such chain to walk) and of the rules after it. */
  function Combine(r: Rule, at: (Name, nat), pkt: Packet,
                   inner: Option<(Outcome, Hits)>, rest: (Outcome, Hits)): (Outcome, Hits)
  {
    if !Matches(r.m, pkt) then rest
    else
      var hit: Hits := multiset{at};
      match r.t
      case Accept => (Accepted, hit)
      case Drop => (Dropped, hit)
      case Return => (Pass, hit)
      case Continue => (rest.0, hit + rest.1)
      case Jump(_) =>
        if inner.None? then (Dropped, hit)
        else if inner.value.0 != Pass then (inner.value.0, hit + inner.value.1)
        else (rest.0, hit + inner.value.1 + rest.1)
  }

  /** Walks chain c from rule i on; also returns the rules that matched.  `avail`
    * holds the user chains not being walked already: the kernel refuses tables
    * with jump cycles, so a jump outside it does not occur. */
  function Walk(t: Table, c: Name, i: nat, pkt: Packet, avail: set<Name>): (Outcome, Hits)
    requires c in t && i <= |t[c]|
    decreases avail, |t[c]| - i
  {
    if i == |t[c]| then (Pass, multiset{})
    else
      var r := t[c][i];
      var inner :=
        if r.t.Jump? && r.t.c in avail && r.t.c in t then
          Some(Walk(t, r.t.c, 0, pkt, avail - {r.t.c}))
        else None;
      Combine(r, (c, i), pkt, inner, Walk(t, c, i + 1, pkt, avail))
  }

  /** The walk of the chain a rule jumps to. */
  function Inner(t: Table, r: Rule, pkt: Packet, avail: set<Name>): Option<(Outcome, Hits)> {
    if r.t.Jump? && r.t.c in avail && r.t.c in t then
      Some(Walk(t, r.t.c, 0, pkt, avail - {r.t.c}))
    else None
  }

  lemma WalkUnfold(t: Table, c: Name, i: nat, pkt: Packet, avail: set<Name>)
    requires c in t && i <= |t[c]|
    ensures Walk(t, c, i, pkt, avail) ==
            if i == |t[c]| then (Pass, multiset{})
            else Combine(t[c][i], (c, i), pkt, Inner(t, t[c][i], pkt, avail), Walk(t, c, i + 1, pkt, avail))
  {
  }

  function UserChains(t: Table): set<Name> {
    t.Keys - {INPUT, OUTPUT, FORWARD}
  }

  function AddBytes(b: Bytes, len: nat, times: nat): Bytes {
    (b + len * times) % WRAP
  }

  /** Adds the packet length to the counter of every rule hit. */
  function Bump(t: Table, hits: Hits, len: nat): Table {
    map c | c in t :: seq(|t[c]|, i requires 0 <= i < |t[c]| =>
                        t[c][i].(bytes := AddBytes(t[c][i].bytes, len, hits[(c, i)])))
  }

  /** A packet arrives at a built-in chain: the table afterwards and the outcome. */
  function Receive(t: Table, hook: Name, pkt: Packet): (Table, Outcome)
    requires hook in t
  {
    var r := Walk(t, hook, 0, pkt, UserChains(t));
    (Bump(t, r.1, pkt.len), r.0)
  }

  function Arrive(t: Table, hook: Name, pkt: Packet): (Table, Outcome) {
    if hook in t then Receive(t, hook, pkt) else (t, Pass)
  }

  // ---- Verdicts ----

  predicate JumpFree(rules: seq<Rule>) { forall i :: 0 <= i < |rules| ==> !rules[i].t.Jump? }

  /** The first matching rule that is not there just to count; Return is `Pass`. */
  function FirstVerdict(rules: seq<Rule>, pkt: Packet): Option<Outcome> {
    if rules == [] then None
    else if Matches(rules[0].m, pkt) && rules[0].t.Accept? then Some(Accepted)
    else if Matches(rules[0].m, pkt) && rules[0].t.Drop? then Some(Dropped)
    else if Matches(rules[0].m, pkt) && rules[0].t.Return? then Some(Pass)
    else FirstVerdict(rules[1..], pkt)
  }

  function OrElse(a: Option<Outcome>, b: Outcome): Outcome { if a.Some? then a.value else b }

  lemma {:induction false} JumpFreeWalk(t: Table, c: Name, i: nat, k: nat, pkt: Packet, avail: set<Name>)
    requires c in t && i <= k <= |t[c]| && JumpFree(t[c][i..k])
    ensures Walk(t, c, i, pkt, avail).0 == OrElse(FirstVerdict(t[c][i..k], pkt), Walk(t, c, k, pkt, avail).0)
    decreases k - i
  {
    WalkUnfold(t, c, i, pkt, avail);
    if i < k {
      assert t[c][i..k][0] == t[c][i] && t[c][i..k][1..] == t[c][i + 1..k];
      JumpFreeWalk(t, c, i + 1, k, pkt, avail);
    }
  }

  lemma JumpFreeRest(t: Table, c: Name, i: nat, pkt: Packet, avail: set<Name>)
    requires c in t && i <= |t[c]| && JumpFree(t[c][i..])
    ensures Walk(t, c, i, pkt, avail).0 == OrElse(FirstVerdict(t[c][i..], pkt), Pass)
  {
    hide FirstVerdict;
    assert t[c][i..|t[c]|] == t[c][i..];
    JumpFreeWalk(t, c, i, |t[c]|, pkt, avail);
    WalkUnfold(t, c, |t[c]|, pkt, avail);
  }

  lemma JumpWalk(t: Table, c: Name, k: nat, pkt: Packet, avail: set<Name>)
    requires c in t && k < |t[c]| && t[c][k].t.Jump? && t[c][k].t.c in t && t[c][k].t.c in avail
    ensures var inner := Walk(t, t[c][k].t.c, 0, pkt, avail - {t[c][k].t.c}).0;
            Walk(t, c, k, pkt, avail).0 ==
            if Matches(t[c][k].m, pkt) && inner != Pass then inner else Walk(t, c, k + 1, pkt, avail).0
  {
    WalkUnfold(t, c, k, pkt, avail);
  }

  /** A packet's verdict at a built-in chain is that of the first matching rule with one;
    * a jump that matches takes the first verdict of its chain, if that has one, and
    * otherwise the walk goes on behind it. */
  lemma ArrivalVerdict(t: Table, hook: Name, pkt: Packet, k: nat, c: Name)
    requires Builtin(hook) && hook in t && k < |t[hook]| && t[hook][k].t == Jump(c)
    requires c in t && !Builtin(c) && JumpFree(t[c])
    requires JumpFree(t[hook][..k]) && JumpFree(t[hook][k + 1..])
    ensures var inside := if Matches(t[hook][k].m, pkt) then OrElse(FirstVerdict(t[c], pkt), Pass) else Pass;
            var behind := OrElse(FirstVerdict(t[hook][k + 1..], pkt), Pass);
            Arrive(t, hook, pkt).1 ==
            OrElse(FirstVerdict(t[hook][..k], pkt), if inside != Pass then inside else behind)
  {
    hide Walk, FirstVerdict, JumpFree, Combine, Bump;
    var avail := UserChains(t);
    assert t[hook][0..k] == t[hook][..k] && t[c][0..] == t[c];
    JumpFreeWalk(t, hook, 0, k, pkt, avail);
    JumpFreeRest(t, c, 0, pkt, avail - {c});
    JumpFreeRest(t, hook, k + 1, pkt, avail);
    JumpWalk(t, hook, k, pkt, avail);
  }

  // ---- Commands ----

  datatype Cmd =
    | NewChain(c: Name)                              // -N
    | Append(c: Name, m: Match, t: Target)           // -A
    | Insert(c: Name, m: Match, t: Target)           // -I, at the head
    | Check(c: Name, m: Match, t: Target)            // -C
    | Delete(c: Name, m: Match, t: Target)           // -D, the first such rule
    | FlushChain(c: Name)                            // -F
    | DeleteChain(c: Name)                           // -X

  predicate ValidPort(p: int) { 0 <= p < 65536 }

  /** iptables refuses ports out of range and jumps to missing or built-in chains. */
  predicate ValidRule(t: Table, m: Match, tg: Target) {
    && (m.TcpDport? || m.TcpSport? ==> ValidPort(m.p))
    && (tg.Jump? ==> tg.c in t && !Builtin(tg.c))
  }

  predicate Same(r: Rule, m: Match, tg: Target) { r.m == m && r.t == tg }

  function Find(rules: seq<Rule>, m: Match, tg: Target): (i: nat)
    ensures i <= |rules|
    ensures i < |rules| ==> Same(rules[i], m, tg)
    ensures forall x :: 0 <= x < i ==> !Same(rules[x], m, tg)
  {
    if rules == [] || Same(rules[0], m, tg) then 0 else 1 + Find(rules[1..], m, tg)
  }

  predicate Referenced(t: Table, c: Name) {
    exists x, i :: x in t && 0 <= i < |t[x]| && t[x][i].t == Jump(c)
  }

  /** The table after a command and whether the command exits with status zero; a
    * failing command changes nothing. */
  function Exec(t: Table, cmd: Cmd): (Table, bool) {
    match cmd
    case NewChain(c) => if c in t then (t, false) else (t[c := []], true)
    case Append(c, m, tg) =>
      if c in t && ValidRule(t, m, tg) then (t[c := t[c] + [Rule(m, tg, 0)]], true) else (t, false)
    case Insert(c, m, tg) =>
      if c in t && ValidRule(t, m, tg) then (t[c := [Rule(m, tg, 0)] + t[c]], true) else (t, false)
    case Check(c, m, tg) =>
      (t, c in t && ValidRule(t, m, tg) && Find(t[c], m, tg) < |t[c]|)
    case Delete(c, m, tg) =>
      if c in t && ValidRule(t, m, tg) && Find(t[c], m, tg) < |t[c]| then
        var i := Find(t[c], m, tg);
        (t[c := t[c][..i] + t[c][i + 1..]], true)
      else (t, false)
    case FlushChain(c) => if c in t then (t[c := []], true) else (t, false)
    case DeleteChain(c) =>
      if c in t && !Builtin(c) && t[c] == [] && !Referenced(t, c) then (t - {c}, true)
      else (t, false)
  }
}

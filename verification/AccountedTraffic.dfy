/** Packets through a decorated table: the verdict is that of the foreign rules
  * alone, and the counters of a port grow by the length of exactly its packets.
  */
module AccountedTraffic {
  import opened Options
  import opened Iptables
  import opened Accounting

  /** How far the decoration pushes the foreign rules of chain c down. */
  function Shift(d: Deco, c: Name): nat {
    if c == INPUT then |d.inp.jumps| else if c == OUTPUT then |d.out.jumps| else 0
  }

  /** Where a hit in the decorated table comes from in the foreign one. */
  function Lifted(base: Table, d: Deco, hits: Hits, c: Name, k: nat): nat {
    if c in base && k >= Shift(d, c) then hits[(c, k - Shift(d, c))] else 0
  }

  lemma ForeignRules(t: Table, base: Table, d: Deco, c: Name)
    requires Decorated(t, base, d) && c in base
    ensures c in t && |t[c]| == Shift(d, c) + |base[c]|
    ensures t[c][Shift(d, c)..] == base[c]
    ensures forall i :: 0 <= i < |base[c]| && base[c][i].t.Jump? ==>
                          (base[c][i].t.c in t <==> base[c][i].t.c in base)
  {
    hide Decorated, HookOk, ForeignTable;
    ForeignTargets(t, base, d, c);
    Parts(t, base, d);
    if c == INPUT {
      HookRules(t, base, In, d.inp);
    } else if c == OUTPUT {
      HookRules(t, base, Out, d.out);
    }
  }

  lemma Parts(t: Table, base: Table, d: Deco)
    requires Decorated(t, base, d)
    ensures RestOk(t, base) && INPUT in base && OUTPUT in base && INPUT in t && OUTPUT in t
    ensures HookOk(t, base, In, d.inp) && HookOk(t, base, Out, d.out)
  {
  }

  lemma HookRules(t: Table, base: Table, s: Side, m: Meters)
    requires Hook(s) in base && HookOk(t, base, s, m)
    ensures |t[Hook(s)]| == |m.jumps| + |base[Hook(s)]|
    ensures t[Hook(s)][|m.jumps|..] == base[Hook(s)]
  {
    hide JumpRule;
  }

  lemma ForeignTargets(t: Table, base: Table, d: Deco, c: Name)
    requires Decorated(t, base, d) && c in base
    ensures forall i :: 0 <= i < |base[c]| && base[c][i].t.Jump? ==>
                          (base[c][i].t.c in t <==> base[c][i].t.c in base)
  {
    ChainNames();
    hide ChainOf, IsAccounting, Builtin;
  }

  /** The hits of one walk are those of another shifted below our jumps. */
  ghost predicate SameHits(base: Table, d: Deco, h: Hits, hb: Hits) {
    forall x, k: nat :: h[(x, k)] == Lifted(base, d, hb, x, k)
  }

  ghost predicate Agree(base: Table, d: Deco, w: (Outcome, Hits), v: (Outcome, Hits)) {
    w.0 == v.0 && SameHits(base, d, w.1, v.1)
  }

  lemma OneHit(base: Table, d: Deco, c: Name, i: nat)
    requires c in base
    ensures SameHits(base, d, multiset{(c, Shift(d, c) + i)}, multiset{(c, i)})
  {
  }

  lemma MoreHits(base: Table, d: Deco, h1: Hits, hb1: Hits, h2: Hits, hb2: Hits)
    requires SameHits(base, d, h1, hb1) && SameHits(base, d, h2, hb2)
    ensures SameHits(base, d, h1 + h2, hb1 + hb2)
  {
    hide Shift;
    forall x, k: nat
      ensures (h1 + h2)[(x, k)] == Lifted(base, d, hb1 + hb2, x, k)
    {
      assert h1[(x, k)] == Lifted(base, d, hb1, x, k);
      assert h2[(x, k)] == Lifted(base, d, hb2, x, k);
    }
  }

  lemma CombineAgree(base: Table, d: Deco, r: Rule, c: Name, i: nat, pkt: Packet,
                     innerT: Option<(Outcome, Hits)>, innerB: Option<(Outcome, Hits)>,
                     restT: (Outcome, Hits), restB: (Outcome, Hits))
    requires c in base
    requires innerT.Some? == innerB.Some? && (innerT.Some? ==> Agree(base, d, innerT.value, innerB.value))
    requires Agree(base, d, restT, restB)
    ensures Agree(base, d, Combine(r, (c, Shift(d, c) + i), pkt, innerT, restT),
                  Combine(r, (c, i), pkt, innerB, restB))
  {
    hide Matches, Shift, SameHits;
    var hit: Hits, hitB: Hits := multiset{(c, Shift(d, c) + i)}, multiset{(c, i)};
    OneHit(base, d, c, i);
    MoreHits(base, d, hit, hitB, restT.1, restB.1);
    if innerT.Some? {
      MoreHits(base, d, hit, hitB, innerT.value.1, innerB.value.1);
      MoreHits(base, d, hit + innerT.value.1, hitB + innerB.value.1, restT.1, restB.1);
    }
  }

  /** From a foreign rule on, the decorated table behaves as the foreign one. */
  lemma {:induction false} WalkForeign(t: Table, base: Table, d: Deco, c: Name, i: nat, pkt: Packet, av: set<Name>)
    requires Decorated(t, base, d) && c in base && i <= |base[c]|
    ensures c in t && Shift(d, c) + i <= |t[c]|
    ensures Agree(base, d, Walk(t, c, Shift(d, c) + i, pkt, av), Walk(base, c, i, pkt, av * base.Keys))
    decreases av, |base[c]| - i
  {
    hide Decorated, Combine, Walk, Agree;
    ForeignRules(t, base, d, c);
    var n := Shift(d, c) + i;
    WalkUnfold(t, c, n, pkt, av);
    WalkUnfold(base, c, i, pkt, av * base.Keys);
    if i < |base[c]| {
      var r := base[c][i];
      assert t[c][Shift(d, c)..][i] == r;
      if r.t.Jump? && r.t.c in av && r.t.c in base {
        ForeignJumpTarget(t, base, d, c, i);
        WalkForeign(t, base, d, r.t.c, 0, pkt, av - {r.t.c});
        assert av * base.Keys - {r.t.c} == (av - {r.t.c}) * base.Keys;
      }
      WalkForeign(t, base, d, c, i + 1, pkt, av);
      CombineAgree(base, d, r, c, i, pkt, Inner(t, r, pkt, av), Inner(base, r, pkt, av * base.Keys),
                   Walk(t, c, n + 1, pkt, av), Walk(base, c, i + 1, pkt, av * base.Keys));
    } else {
      NothingAgrees(base, d);
    }
  }

  lemma NothingAgrees(base: Table, d: Deco)
    ensures Agree(base, d, (Pass, multiset{}), (Pass, multiset{}))
  {
  }

  lemma ForeignJumpTarget(t: Table, base: Table, d: Deco, c: Name, i: nat)
    requires Decorated(t, base, d) && c in base && i < |base[c]| && base[c][i].t.Jump?
    ensures Shift(d, base[c][i].t.c) == 0
  {
  }

  // ---- Our own rules ----

  /** How often the accounting chain named c counts the packet, over the jumps from
    * `from` on. */
  function ChainHits(s: Side, m: Meters, from: nat, pkt: Packet, c: Name): nat
    decreases |m.jumps| - from
  {
    if from >= |m.jumps| then 0
    else
      var p := m.jumps[from].port;
      (if ChainOf(s, p) == c && PortHit(s, p, pkt) && p in m.chains && m.chains[p] != [] then 1 else 0)
      + ChainHits(s, m, from + 1, pkt, c)
  }

  function JumpHits(s: Side, m: Meters, from: nat, pkt: Packet, c: Name, k: nat): nat {
    if c == Hook(s) then
      (if from <= k < |m.jumps| && PortHit(s, m.jumps[k].port, pkt) then 1 else 0)
    else if k == 0 then ChainHits(s, m, from, pkt, c)
    else 0
  }

  ghost predicate HitsPlus(w: (Outcome, Hits), rest: (Outcome, Hits), s: Side, m: Meters, from: nat, pkt: Packet) {
    && w.0 == rest.0
    && forall c, k: nat :: w.1[(c, k)] == rest.1[(c, k)] + JumpHits(s, m, from, pkt, c, k)
  }

  lemma WalkReturns(t: Table, s: Side, m: Meters, p: int, pkt: Packet, av: set<Name>)
    requires ChainsOk(t, s, m) && p in m.chains
    ensures Walk(t, ChainOf(s, p), 0, pkt, av) ==
            (Pass, if m.chains[p] == [] then multiset{} else multiset{(ChainOf(s, p), 0)})
  {
    hide ChainOf;
  }

  lemma JumpCounts(s: Side, m: Meters, i: nat, pkt: Packet, inner: (Outcome, Hits),
                   rest: (Outcome, Hits), end: (Outcome, Hits))
    requires i < |m.jumps| && MetersOk(m) && HitsPlus(rest, end, s, m, i + 1, pkt)
    requires var p := m.jumps[i].port;
             inner == (Pass, if m.chains[p] == [] then multiset{} else multiset{(ChainOf(s, p), 0)})
    ensures HitsPlus(Combine(JumpRule(s, m.jumps[i]), (Hook(s), i), pkt, Some(inner), rest),
                     end, s, m, i, pkt)
  {
    ChainNames();
    hide ChainOf, Matches;
  }

  /** Walking our jumps reaches the foreign rules below them, having counted the
    * packet on the way. */
  lemma {:induction false} WalkJumps(t: Table, base: Table, s: Side, m: Meters, mo: Meters, i: nat,
                                     pkt: Packet, av: set<Name>)
    requires DecoratedBy(t, base, s, m, mo) && i <= |m.jumps| && ChainsOf(s, m) <= av
    ensures Hook(s) in t && |m.jumps| <= |t[Hook(s)]|
    ensures HitsPlus(Walk(t, Hook(s), i, pkt, av), Walk(t, Hook(s), |m.jumps|, pkt, av), s, m, i, pkt)
    decreases |m.jumps| - i
  {
    hide ChainOf, JumpRule, Walk, Combine;
    assert t[Hook(s)] == JumpRules(s, m.jumps) + base[Hook(s)];
    if i < |m.jumps| {
      assert t[Hook(s)][i] == JumpRule(s, m.jumps[i]);
      assert ChainOf(s, m.jumps[i].port) in ChainsOf(s, m);
      JumpInner(t, s, m, i, pkt, av);
      WalkUnfold(t, Hook(s), i, pkt, av);
      WalkJumps(t, base, s, m, mo, i + 1, pkt, av);
      hide HitsPlus, DecoratedBy;
      JumpCounts(s, m, i, pkt, Inner(t, JumpRule(s, m.jumps[i]), pkt, av).value,
                 Walk(t, Hook(s), i + 1, pkt, av), Walk(t, Hook(s), |m.jumps|, pkt, av));
    }
  }

  lemma JumpInner(t: Table, s: Side, m: Meters, i: nat, pkt: Packet, av: set<Name>)
    requires ChainsOk(t, s, m) && MetersOk(m) && i < |m.jumps|
    requires ChainOf(s, m.jumps[i].port) in av
    ensures Inner(t, JumpRule(s, m.jumps[i]), pkt, av) ==
            Some((Pass, if m.chains[m.jumps[i].port] == [] then multiset{}
                  else multiset{(ChainOf(s, m.jumps[i].port), 0)}))
  {
    WalkReturns(t, s, m, m.jumps[i].port, pkt, av - {ChainOf(s, m.jumps[i].port)});
    hide ChainOf, Walk;
  }

  // ---- One packet ----

  /** Jumps for port p from index `from` on. */
  function Jumps(jumps: seq<Jumper>, from: nat, p: int): nat
    decreases |jumps| - from
  {
    if from >= |jumps| then 0
    else (if jumps[from].port == p then 1 else 0) + Jumps(jumps, from + 1, p)
  }

  /** The meters of a direction after a packet: each jump for the packet's port and,
    * once per such jump, the port's counter grow by the packet length. */
  function AfterPacket(s: Side, m: Meters, pkt: Packet): Meters {
    Meters(
      seq(|m.jumps|, i requires 0 <= i < |m.jumps| =>
        m.jumps[i].(bytes := AddBytes(m.jumps[i].bytes, pkt.len,
                                      if PortHit(s, m.jumps[i].port, pkt) then 1 else 0))),
      map p | p in m.chains :: CountedOn(s, m, p, pkt))
  }

  function CountedOn(s: Side, m: Meters, p: int, pkt: Packet): seq<Bytes>
    requires p in m.chains
  {
    var counters := m.chains[p];
    if counters == [] || !PortHit(s, p, pkt) then counters
    else counters[0 := AddBytes(counters[0], pkt.len, Jumps(m.jumps, 0, p))]
  }

  lemma {:induction false} ChainHitsAre(s: Side, m: Meters, from: nat, pkt: Packet, c: Name)
    ensures (forall p :: c != ChainOf(s, p)) ==> ChainHits(s, m, from, pkt, c) == 0
    ensures forall p :: c == ChainOf(s, p) ==>
                          ChainHits(s, m, from, pkt, c) ==
                          if PortHit(s, p, pkt) && p in m.chains && m.chains[p] != [] then
                            Jumps(m.jumps, from, p)
                          else 0
    decreases |m.jumps| - from
  {
    ChainNames();
    hide ChainOf, PortHit;
    if from < |m.jumps| {
      ChainHitsAre(s, m, from + 1, pkt, c);
    }
  }

  /** The hits of a packet: those it has among the foreign rules, and ours. */
  ghost predicate HitsAre(base: Table, d: Deco, s: Side, pkt: Packet, h: Hits, hb: Hits) {
    forall c, k: nat :: h[(c, k)] == Lifted(base, d, hb, c, k) + JumpHits(s, At(d, s), 0, pkt, c, k)
  }

  lemma WalkedChains(t: Table, base: Table, s: Side, m: Meters, mo: Meters)
    requires DecoratedBy(t, base, s, m, mo)
    ensures ChainsOf(s, m) <= UserChains(t)
    ensures UserChains(t) * base.Keys == UserChains(base)
  {
    ChainNames();
    hide ChainOf, IsAccounting;
  }

  lemma JoinHits(base: Table, d: Deco, s: Side, pkt: Packet,
                 w: (Outcome, Hits), end: (Outcome, Hits), v: (Outcome, Hits))
    requires HitsPlus(w, end, s, At(d, s), 0, pkt) && Agree(base, d, end, v)
    ensures w.0 == v.0 && HitsAre(base, d, s, pkt, w.1, v.1)
  {
    hide JumpHits, Lifted;
  }

  lemma PacketHits(t: Table, base: Table, d: Deco, s: Side, pkt: Packet)
    requires Decorated(t, base, d)
    ensures Hook(s) in t && Hook(s) in base
    ensures var w, v := Walk(t, Hook(s), 0, pkt, UserChains(t)), Walk(base, Hook(s), 0, pkt, UserChains(base));
            w.0 == v.0 && HitsAre(base, d, s, pkt, w.1, v.1)
  {
    hide DecoratedBy, Walk, HitsPlus, HitsAre, Agree, ChainsOf;
    var m, mo := At(d, s), At(d, Other(s));
    FromSide(t, base, s, d);
    HooksIn(t, base, s, m, mo);
    WalkedChains(t, base, s, m, mo);
    WalkJumps(t, base, s, m, mo, 0, pkt, UserChains(t));
    WalkForeign(t, base, d, Hook(s), 0, pkt, UserChains(t));
    JoinHits(base, d, s, pkt, Walk(t, Hook(s), 0, pkt, UserChains(t)),
             Walk(t, Hook(s), |m.jumps|, pkt, UserChains(t)), Walk(base, Hook(s), 0, pkt, UserChains(base)));
  }

  lemma HooksIn(t: Table, base: Table, s: Side, m: Meters, mo: Meters)
    requires DecoratedBy(t, base, s, m, mo)
    ensures Hook(s) in t && Hook(s) in base
  {
  }

  // Part by part, what the packet does to the table.

  lemma AddNothing(b: Bytes, len: nat)
    ensures AddBytes(b, len, 0) == b
  {
  }

  lemma BumpForeign(base: Table, hb: Hits, len: nat)
    requires ForeignTable(base)
    ensures ForeignTable(Bump(base, hb, len))
  {
    hide IsAccounting, AddBytes;
  }

  lemma NoChainHits(s: Side, m: Meters, pkt: Packet, c: Name)
    requires !IsAccounting(c)
    ensures ChainHits(s, m, 0, pkt, c) == 0
  {
    ChainNames();
    hide ChainOf;
    ChainHitsAre(s, m, 0, pkt, c);
  }

  lemma ForeignHits(t: Table, base: Table, d: Deco, s: Side, pkt: Packet, h: Hits, hb: Hits, c: Name)
    requires Decorated(t, base, d) && HitsAre(base, d, s, pkt, h, hb)
    requires c in base && c != INPUT && c != OUTPUT
    ensures forall k: nat :: h[(c, k)] == hb[(c, k)]
  {
    hide DecoratedBy, IsAccounting, ChainHits, PortHit, HitsAre;
    ForeignName(t, base, d, c);
    NoChainHits(s, At(d, s), pkt, c);
    forall k: nat
      ensures h[(c, k)] == hb[(c, k)]
    {
      HitAt(base, d, s, pkt, h, hb, c, k);
    }
  }

  lemma ForeignName(t: Table, base: Table, d: Deco, c: Name)
    requires Decorated(t, base, d) && c in base
    ensures !IsAccounting(c)
  {
  }

  lemma HitAt(base: Table, d: Deco, s: Side, pkt: Packet, h: Hits, hb: Hits, c: Name, k: nat)
    requires HitsAre(base, d, s, pkt, h, hb)
    ensures h[(c, k)] == Lifted(base, d, hb, c, k) + JumpHits(s, At(d, s), 0, pkt, c, k)
  {
  }

  lemma BumpSame(t: Table, base: Table, h: Hits, hb: Hits, len: nat, c: Name)
    requires c in t && c in base && t[c] == base[c] && forall k: nat :: h[(c, k)] == hb[(c, k)]
    ensures Bump(t, h, len)[c] == Bump(base, hb, len)[c]
  {
    hide AddBytes;
  }

  lemma BumpRest(t: Table, base: Table, d: Deco, s: Side, pkt: Packet, h: Hits, hb: Hits)
    requires Decorated(t, base, d) && HitsAre(base, d, s, pkt, h, hb)
    ensures RestOk(Bump(t, h, pkt.len), Bump(base, hb, pkt.len))
  {
    assert RestOk(t, base);
    hide Decorated, HitsAre;
    forall c | c in base && c != INPUT && c != OUTPUT
      ensures c in t && Bump(t, h, pkt.len)[c] == Bump(base, hb, pkt.len)[c]
    {
      ForeignHits(t, base, d, s, pkt, h, hb, c);
      BumpSame(t, base, h, hb, pkt.len, c);
    }
  }

  lemma HookNames(s: Side)
    ensures !IsAccounting(Hook(s))
  {
    ChainNames();
  }

  lemma HookHits(base: Table, d: Deco, s: Side, pkt: Packet, h: Hits, hb: Hits, s2: Side, k: nat)
    requires Hook(s2) in base && HitsAre(base, d, s, pkt, h, hb)
    ensures var jumps := At(d, s2).jumps;
            h[(Hook(s2), k)] ==
              if k >= |jumps| then hb[(Hook(s2), k - |jumps|)]
              else if s2 == s && PortHit(s, jumps[k].port, pkt) then 1 else 0
  {
    hide ChainOf, ChainHits, PortHit, IsAccounting, HitsAre;
    HookNames(s2);
    NoChainHits(s, At(d, s), pkt, Hook(s2));
    HitAt(base, d, s, pkt, h, hb, Hook(s2), k);
  }

  lemma BumpElements(t: Table, h: Hits, len: nat, c: Name)
    requires c in t
    ensures c in Bump(t, h, len) && |Bump(t, h, len)[c]| == |t[c]|
    ensures forall i :: 0 <= i < |t[c]| ==>
                          Bump(t, h, len)[c][i] == t[c][i].(bytes := AddBytes(t[c][i].bytes, len, h[(c, i)]))
  {
    hide AddBytes;
  }

  /** The hook of direction s2 after a packet on the hook of direction s. */
  lemma BumpHook(t: Table, base: Table, d: Deco, s: Side, pkt: Packet, h: Hits, hb: Hits, s2: Side)
    requires Hook(s2) in base && HookOk(t, base, s2, At(d, s2)) && HitsAre(base, d, s, pkt, h, hb)
    ensures HookOk(Bump(t, h, pkt.len), Bump(base, hb, pkt.len), s2,
                   if s2 == s then AfterPacket(s, At(d, s), pkt) else At(d, s2))
  {
    hide HitsAre, Bump, AddBytes, ChainOf, PortHit;
    var c, m := Hook(s2), At(d, s2);
    var m' := if s2 == s then AfterPacket(s, m, pkt) else m;
    BumpElements(t, h, pkt.len, c);
    BumpElements(base, hb, pkt.len, c);
    var u, v := Bump(t, h, pkt.len)[c], Bump(base, hb, pkt.len)[c];
    forall i: nat | i < |t[c]|
      ensures u[i] == (JumpRules(s2, m'.jumps) + v)[i]
    {
      HookHits(base, d, s, pkt, h, hb, s2, i);
      AddNothing(t[c][i].bytes, pkt.len);
    }
    assert u == JumpRules(s2, m'.jumps) + v;
  }

  /** The accounting chains of direction s2 after a packet on direction s. */
  lemma BumpChains(t: Table, base: Table, d: Deco, s: Side, pkt: Packet, h: Hits, hb: Hits, s2: Side)
    requires ForeignTable(base) && ChainsOk(t, s2, At(d, s2)) && HitsAre(base, d, s, pkt, h, hb)
    ensures ChainsOk(Bump(t, h, pkt.len), s2, if s2 == s then AfterPacket(s, At(d, s), pkt) else At(d, s2))
  {
    ChainNames();
    hide ChainOf, ChainHits, PortHit;
    var m := At(d, s2);
    var m' := if s2 == s then AfterPacket(s, m, pkt) else m;
    forall p | p in m'.chains
      ensures ChainOf(s2, p) in t && Bump(t, h, pkt.len)[ChainOf(s2, p)] == ReturnRules(m'.chains[p])
    {
      var c := ChainOf(s2, p);
      ChainHitsAre(s, At(d, s), 0, pkt, c);
      assert c !in base && c != Hook(s);
      forall i: nat | i < |t[c]|
        ensures Bump(t, h, pkt.len)[c][i] == ReturnRules(m'.chains[p])[i]
      {
        assert h[(c, i)] == Lifted(base, d, hb, c, i) + JumpHits(s, At(d, s), 0, pkt, c, i);
        AddNothing(m.chains[p][i], pkt.len);
        hide AddBytes;
      }
    }
  }

  /** Hits among the foreign rules and ours, as those of a packet, keep the table
    * decorated. */
  lemma BumpDecorated(t: Table, base: Table, d: Deco, s: Side, pkt: Packet, h: Hits, hb: Hits)
    requires Decorated(t, base, d) && HitsAre(base, d, s, pkt, h, hb)
    ensures Decorated(Bump(t, h, pkt.len), Bump(base, hb, pkt.len), With(d, s, AfterPacket(s, At(d, s), pkt)))
  {
    hide HitsAre, Bump, AfterPacket, ChainOf;
    BumpForeign(base, hb, pkt.len);
    BumpRest(t, base, d, s, pkt, h, hb);
    BumpHook(t, base, d, s, pkt, h, hb, In);
    BumpHook(t, base, d, s, pkt, h, hb, Out);
    BumpChains(t, base, d, s, pkt, h, hb, In);
    BumpChains(t, base, d, s, pkt, h, hb, Out);
    BumpKeys(t, base, d, s, pkt, h, hb);
  }

  /** A packet on a decorated table meets the verdict of the foreign rules alone,
    * moves the foreign counters as it would without us, and moves our meters by
    * its length exactly where its protocol and port match. */
  lemma PacketTransparent(t: Table, base: Table, d: Deco, s: Side, pkt: Packet)
    requires Decorated(t, base, d)
    ensures Hook(s) in t && Hook(s) in base
    ensures Receive(t, Hook(s), pkt).1 == Receive(base, Hook(s), pkt).1
    ensures Decorated(Receive(t, Hook(s), pkt).0, Receive(base, Hook(s), pkt).0,
                      With(d, s, AfterPacket(s, At(d, s), pkt)))
  {
    PacketHits(t, base, d, s, pkt);
    hide Walk, HitsAre, Bump, AfterPacket, ChainOf, Decorated;
    BumpDecorated(t, base, d, s, pkt, Walk(t, Hook(s), 0, pkt, UserChains(t)).1,
                  Walk(base, Hook(s), 0, pkt, UserChains(base)).1);
  }

  // ---- Forwarded packets ----

  /** A packet none of our rules matches. */
  function Unmetered(pkt: Packet): Packet { pkt.(tcp := false) }

  lemma {:induction false} NoneMetered(s: Side, m: Meters, from: nat, pkt: Packet, c: Name)
    ensures ChainHits(s, m, from, Unmetered(pkt), c) == 0
    ensures forall k: nat :: JumpHits(s, m, from, Unmetered(pkt), c, k) == 0
    decreases |m.jumps| - from
  {
    hide ChainOf;
    if from < |m.jumps| {
      NoneMetered(s, m, from + 1, pkt, c);
    }
  }

  lemma UnmeteredKeeps(s: Side, m: Meters, pkt: Packet)
    ensures AfterPacket(s, m, Unmetered(pkt)) == m
  {
    var n := AfterPacket(s, m, Unmetered(pkt));
    forall i | 0 <= i < |m.jumps|
      ensures n.jumps[i] == m.jumps[i]
    {
      AddNothing(m.jumps[i].bytes, pkt.len);
      hide AddBytes;
    }
    assert n.jumps == m.jumps;
    assert n.chains == m.chains;
  }

  lemma ForwardHits(base: Table, d: Deco, pkt: Packet, h: Hits, hb: Hits)
    requires SameHits(base, d, h, hb)
    ensures HitsAre(base, d, In, Unmetered(pkt), h, hb)
  {
    hide JumpHits, Lifted, Unmetered;
    forall c, k: nat
      ensures h[(c, k)] == Lifted(base, d, hb, c, k) + JumpHits(In, At(d, In), 0, Unmetered(pkt), c, k)
    {
      NoneMetered(In, At(d, In), 0, pkt, c);
    }
  }

  lemma ForwardWalks(t: Table, base: Table, d: Deco, pkt: Packet)
    requires Decorated(t, base, d) && FORWARD in t && FORWARD in base
    ensures Agree(base, d, Walk(t, FORWARD, 0, pkt, UserChains(t)), Walk(base, FORWARD, 0, pkt, UserChains(base)))
  {
    assert Shift(d, FORWARD) == 0;
    ForwardKnown(t, base, d);
    hide Walk, Decorated, DecoratedBy, Agree, ChainsOf, UserChains;
    WalkedChains(t, base, In, d.inp, d.out);
    WalkForeign(t, base, d, FORWARD, 0, pkt, UserChains(t));
  }

  /** A packet passing through meets the verdict of the foreign rules, and no meter moves. */
  lemma ForwardTransparent(t: Table, base: Table, d: Deco, pkt: Packet)
    requires Decorated(t, base, d)
    ensures FORWARD in t <==> FORWARD in base
    ensures FORWARD in t ==>
              && Receive(t, FORWARD, pkt).1 == Receive(base, FORWARD, pkt).1
              && Decorated(Receive(t, FORWARD, pkt).0, Receive(base, FORWARD, pkt).0, d)
  {
    ForwardKnown(t, base, d);
    hide Walk, Bump, Decorated, DecoratedBy, HitsAre, SameHits, AfterPacket, UserChains;
    if FORWARD in t {
      ForwardWalks(t, base, d, pkt);
      var w := Walk(t, FORWARD, 0, pkt, UserChains(t));
      var v := Walk(base, FORWARD, 0, pkt, UserChains(base));
      ForwardHits(base, d, pkt, w.1, v.1);
      BumpDecorated(t, base, d, In, Unmetered(pkt), w.1, v.1);
      UnmeteredKeeps(In, d.inp, pkt);
    }
  }

  lemma ForwardKnown(t: Table, base: Table, d: Deco)
    requires Decorated(t, base, d)
    ensures FORWARD in t <==> FORWARD in base
    ensures DecoratedBy(t, base, In, d.inp, d.out)
  {
    ChainNames();
    hide ChainOf, IsAccounting, ForeignTable, RestOk, MetersOk, HookOk, ChainsOk;
  }

  lemma BumpKeys(t: Table, base: Table, d: Deco, s: Side, pkt: Packet, h: Hits, hb: Hits)
    requires Decorated(t, base, d)
    ensures var m := AfterPacket(s, At(d, s), pkt);
            && MetersOk(m) && ChainsOf(s, m) == ChainsOf(s, At(d, s))
            && Bump(t, h, pkt.len).Keys == t.Keys && Bump(base, hb, pkt.len).Keys == base.Keys
  {
    hide ChainOf, AddBytes, PortHit;
    assert AfterPacket(s, At(d, s), pkt).chains.Keys == At(d, s).chains.Keys;
  }
}

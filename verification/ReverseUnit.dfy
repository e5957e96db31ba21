/** The systemd unit that buildUnit prints for a reverse tunnel, read back the way
  * systemd and ssh read it.
  */
module ReverseUnit {
  import opened Options
  import opened Text
  import opened Trimming
  import Decimal
  import Records
  import UnitFile

  type Forward = Records.Forward

  datatype Reverse = Reverse(id: string, name: string, iranHost: string, iranPort: int, iranUser: string,
                             cipher: string, compression: bool, interval: int, countMax: int,
                             forwards: seq<Forward>)

  const NEWLINE := '\n'

  // ---- Printing ----

  function User(t: Reverse): string { if t.iranUser == "" then "root" else t.iranUser }

  function Port(t: Reverse): int { if t.iranPort <= 0 then 22 else t.iranPort }

  function Interval(t: Reverse): int { if t.interval <= 0 then 30 else t.interval }

  function CountMax(t: Reverse): int { if t.countMax <= 0 then 3 else t.countMax }

  function KeyPath(id: string): string { "/etc/sshtunnel-reverse/" + id + ".key" }

  function KnownHosts(id: string): string { "/etc/sshtunnel-reverse/" + id + ".known_hosts" }

  /** The argument of one -R. */
  function Spec(f: Forward): string {
    "0.0.0.0:" + Decimal.Print(f.listenPort) + ":" + f.remoteAddr + ":" + Decimal.Print(f.remotePort)
  }

  function FixedArgs(t: Reverse): seq<string> {
    ["/usr/bin/ssh", "-N",
     "-o", "ExitOnForwardFailure=yes",
     "-o", "ServerAliveInterval=" + Decimal.Print(Interval(t)),
     "-o", "ServerAliveCountMax=" + Decimal.Print(CountMax(t)),
     "-o", "StrictHostKeyChecking=accept-new",
     "-o", "UserKnownHostsFile=" + KnownHosts(t.id),
     "-i", KeyPath(t.id),
     "-p", Decimal.Print(Port(t))]
  }

  function ForwardArgs(fs: seq<Forward>): seq<string> {
    if fs == [] then [] else ["-R", Spec(fs[0])] + ForwardArgs(fs[1..])
  }

  function Destination(t: Reverse): string { User(t) + "@" + t.iranHost }

  function ExtraArgs(t: Reverse): seq<string> {
    (if t.compression then ["-C"] else []) + CipherArgs(t.cipher)
  }

  function Args(t: Reverse): seq<string> {
    FixedArgs(t) + ExtraArgs(t) + ForwardArgs(t.forwards) + [Destination(t)]
  }

  /** Texts of one line each, unless a field holds a newline. */
  function Description(t: Reverse): string {
    "Description=SSH Reverse Tunnel " + t.name + " (" + t.id + ") -> " + t.iranHost
  }

  function AfterDescription(exec: string): seq<string> {
    ["After=network-online.target",
     "Wants=network-online.target",
     "",
     "[Service]",
     "Type=simple",
     "ExecStart=" + exec,
     "Restart=always",
     "RestartSec=3s",
     "",
     "[Install]",
     "WantedBy=multi-user.target"]
  }

  /** The lines of the unit file around its command. */
  function Template(t: Reverse, exec: string): seq<string> {
    ["[Unit]", Description(t)] + AfterDescription(exec)
  }

  function UnitText(t: Reverse): string {
    Join(Template(t, Join(Args(t), ' ')), NEWLINE) + [NEWLINE]
  }

  method BuildUnit(t: Reverse) returns (unit: string)
    ensures unit == UnitText(t)
  {
    hide Decimal.Print, KeyPath, KnownHosts, Port, Spec, Destination, Template, Join;
    var interval := t.interval;
    if interval <= 0 {
      interval := 30;
    }
    var countMax := t.countMax;
    if countMax <= 0 {
      countMax := 3;
    }
    var args := [
      "/usr/bin/ssh", "-N",
      "-o", "ExitOnForwardFailure=yes",
      "-o", "ServerAliveInterval=" + Decimal.Print(interval),
      "-o", "ServerAliveCountMax=" + Decimal.Print(countMax),
      "-o", "StrictHostKeyChecking=accept-new",
      "-o", "UserKnownHostsFile=" + KnownHosts(t.id),
      "-i", KeyPath(t.id),
      "-p", Decimal.Print(Port(t))];
    assert args == FixedArgs(t);
    hide FixedArgs, Interval, CountMax;
    if t.compression {
      args := args + ["-C"];
    }
    if t.cipher != "" {
      args := args + ["-c", t.cipher];
    }
    ghost var head := FixedArgs(t) + ExtraArgs(t);
    assert args == head;
    hide ExtraArgs;
    for i := 0 to |t.forwards|
      invariant args + ForwardArgs(t.forwards[i..]) == head + ForwardArgs(t.forwards)
    {
      assert t.forwards[i..][1..] == t.forwards[i + 1..];
      args := args + ["-R", Spec(t.forwards[i])];
    }
    assert args == head + ForwardArgs(t.forwards) by {
      assert t.forwards[|t.forwards|..] == [] && args + [] == args;
    }
    args := args + [Destination(t)];
    var lines := [
      "[Unit]",
      "Description=SSH Reverse Tunnel " + t.name + " (" + t.id + ") -> " + t.iranHost,
      "After=network-online.target",
      "Wants=network-online.target",
      "",
      "[Service]",
      "Type=simple",
      "ExecStart=" + Join(args, ' '),
      "Restart=always",
      "RestartSec=3s",
      "",
      "[Install]",
      "WantedBy=multi-user.target"];
    TemplateIs(t, Join(args, ' '));
    return Join(lines, NEWLINE) + [NEWLINE];
  }

  lemma TemplateIs(t: Reverse, exec: string)
    ensures Template(t, exec) == [
                                   "[Unit]",
                                   "Description=SSH Reverse Tunnel " + t.name + " (" + t.id + ") -> " + t.iranHost,
                                   "After=network-online.target",
                                   "Wants=network-online.target",
                                   "",
                                   "[Service]",
                                   "Type=simple",
                                   "ExecStart=" + exec,
                                   "Restart=always",
                                   "RestartSec=3s",
                                   "",
                                   "[Install]",
                                   "WantedBy=multi-user.target"]
  {
  }

  // ---- Reading, as systemd does ----

  /** Characters that stand for themselves within a word of ExecStart. */
  predicate Plain(c: char) {
    c !in [' ', '\t', '\n', '\r', UnitFile.NUL, '"', '\'', '\\', '%', '$', ';']
  }

  predicate PlainText(s: string) { forall i :: 0 <= i < |s| ==> Plain(s[i]) }

  function NonEmpty(ws: seq<string>): seq<string> {
    if ws == [] then [] else (if ws[0] == "" then [] else [ws[0]]) + NonEmpty(ws[1..])
  }

  /** The words of a command without quotes, escapes, specifiers or variables. */
  function Words(s: string): Option<seq<string>> {
    if forall i :: 0 <= i < |s| ==> Plain(s[i]) || s[i] == ' ' then Some(NonEmpty(Split(s, ' '))) else None
  }

  // ---- Reading, as ssh does ----

  datatype Invocation = Invocation(noCommand: bool, compress: bool, options: seq<string>, identity: Option<string>,
                                   port: Option<string>, cipher: Option<string>, remotes: seq<string>, dest: string)

  /** The arguments after the program's name: options up to the destination, which is
    * last. */
  function Parse(ws: seq<string>, inv: Invocation): Option<Invocation> {
    if ws == [] || ws[0] == "" then None
    else if ws[0][0] != '-' then
      if |ws| == 1 then Some(inv.(dest := ws[0])) else None
    else if |ws[0]| != 2 then None
    else
      var letter := ws[0][1];
      if letter == 'N' then Parse(ws[1..], inv.(noCommand := true))
      else if letter == 'C' then Parse(ws[1..], inv.(compress := true))
      else if |ws| == 1 then None
      else if letter == 'o' then Parse(ws[2..], inv.(options := inv.options + [ws[1]]))
      else if letter == 'i' then Parse(ws[2..], inv.(identity := Some(ws[1])))
      else if letter == 'p' then Parse(ws[2..], inv.(port := Some(ws[1])))
      else if letter == 'c' then Parse(ws[2..], inv.(cipher := Some(ws[1])))
      else if letter == 'R' then Parse(ws[2..], inv.(remotes := inv.remotes + [ws[1]]))
      else None
  }

  /** The value of an option, the first one given if there are several. */
  function OptionValue(options: seq<string>, name: string): Option<string> {
    if options == [] then None
    else if name + "=" <= options[0] then Some(options[0][|name| + 1..])
    else OptionValue(options[1..], name)
  }

  /** The parts before and after the last separator. */
  function SplitLast(s: string, sep: char): Option<(string, string)> {
    if s == [] then None
    else if s[|s| - 1] == sep then Some((s[..|s| - 1], ""))
    else
      var (a, b) :- SplitLast(s[..|s| - 1], sep);
      Some((a, b + [s[|s| - 1]]))
  }

  /** bind_address:port:host:hostport. */
  function ReadSpec(s: string): Option<Forward> {
    var ps := Split(s, ':');
    if |ps| != 4 then None
    else
      var listenPort :- Decimal.Read(ps[1]);
      var remotePort :- Decimal.Read(ps[3]);
      Some(Records.Forward(ps[0], listenPort, ps[2], remotePort))
  }

  function ReadSpecs(ss: seq<string>): Option<seq<Forward>> {
    if ss == [] then Some([])
    else
      var f :- ReadSpec(ss[0]);
      var fs :- ReadSpecs(ss[1..]);
      Some([f] + fs)
  }

  datatype Connection = Connection(user: string, host: string, port: int, interval: int, countMax: int,
                                   identity: string, knownHosts: string, compress: bool, cipher: Option<string>,
                                   forwards: seq<Forward>,
                                   noCommand: bool, onForwardFailure: string, newHostKeys: string)

  function NumberOption(options: seq<string>, name: string): Option<int> {
    var v :- OptionValue(options, name);
    Decimal.Read(v)
  }

  function Interpret(inv: Invocation): Option<Connection> {
    var portText :- inv.port;
    var port :- Decimal.Read(portText);
    var interval :- NumberOption(inv.options, "ServerAliveInterval");
    var countMax :- NumberOption(inv.options, "ServerAliveCountMax");
    var identity :- inv.identity;
    var knownHosts :- OptionValue(inv.options, "UserKnownHostsFile");
    var onForwardFailure :- OptionValue(inv.options, "ExitOnForwardFailure");
    var newHostKeys :- OptionValue(inv.options, "StrictHostKeyChecking");
    var forwards :- ReadSpecs(inv.remotes);
    var (user, host) :- SplitLast(inv.dest, '@');
    Some(Connection(user, host, port, interval, countMax, identity, knownHosts, inv.compress, inv.cipher, forwards,
                    inv.noCommand, onForwardFailure, newHostKeys))
  }

  const START := Invocation(false, false, [], None, None, None, [], "")

  function ReadCommand(exec: string): Option<Connection> {
    var ws :- Words(exec);
    if ws == [] || ws[0] != "/usr/bin/ssh" then None
    else
      var inv :- Parse(ws[1..], START);
      Interpret(inv)
  }

  /** The connection a unit file asks for, when it has exactly one command. */
  function ReadUnit(text: string): Option<Connection> {
    var execs :- UnitFile.Commands(text);
    if |execs| == 1 then ReadCommand(execs[0]) else None
  }

  // ---- The round trip ----

  function Public(f: Forward): Forward { f.(listenAddr := "0.0.0.0") }

  function AllPublic(fs: seq<Forward>): seq<Forward> {
    if fs == [] then [] else [Public(fs[0])] + AllPublic(fs[1..])
  }

  /** What a tunnel's settings mean: defaults for what is not set, the key files of its id,
    * no remote command, giving up when a port cannot be forwarded, and trusting a host key
    * when it is first seen. */
  function Effective(t: Reverse): Connection {
    Connection(if t.iranUser != "" then t.iranUser else "root",
               t.iranHost,
               if t.iranPort > 0 then t.iranPort else 22,
               if t.interval > 0 then t.interval else 30,
               if t.countMax > 0 then t.countMax else 3,
               "/etc/sshtunnel-reverse/" + t.id + ".key",
               "/etc/sshtunnel-reverse/" + t.id + ".known_hosts",
               t.compression,
               if t.cipher != "" then Some(t.cipher) else None,
               AllPublic(t.forwards),
               true, "yes", "accept-new")
  }

  predicate PlainForward(f: Forward) { PlainText(f.remoteAddr) && ':' !in f.remoteAddr }

  predicate PlainFields(t: Reverse) {
    PlainText(t.id) && PlainText(t.iranHost) && PlainText(User(t)) && PlainText(t.cipher)
    && (forall i :: 0 <= i < |t.forwards| ==> PlainForward(t.forwards[i]))
    && User(t)[0] != '-'
  }

  // Forwards

  lemma PrintPlain(n: int)
    ensures Decimal.Print(n) != "" && PlainText(Decimal.Print(n)) && ':' !in Decimal.Print(n)
  {
    var s := Decimal.Print(n);
    hide Decimal.Print;
    forall i | 0 <= i < |s| ensures Plain(s[i]) {
      assert s[i] in s;
    }
  }

  lemma SpecIsJoin(f: Forward)
    ensures Spec(f) == Join(["0.0.0.0", Decimal.Print(f.listenPort), f.remoteAddr, Decimal.Print(f.remotePort)], ':')
  {
    hide Decimal.Print;
    var lp, rp := Decimal.Print(f.listenPort), Decimal.Print(f.remotePort);
    assert Join([rp], ':') == rp;
    assert Join([f.remoteAddr, rp], ':') == f.remoteAddr + [':'] + rp;
    assert Join([lp, f.remoteAddr, rp], ':') == lp + [':'] + (f.remoteAddr + [':'] + rp) by {
      assert [lp, f.remoteAddr, rp][1..] == [f.remoteAddr, rp];
    }
    assert ["0.0.0.0", lp, f.remoteAddr, rp][1..] == [lp, f.remoteAddr, rp];
  }

  /** An argument of -R reads back exactly when the address holds no colon. */
  lemma SpecReadsBack(f: Forward)
    ensures ReadSpec(Spec(f)) == Some(Public(f)) <==> ':' !in f.remoteAddr
  {
    hide Decimal.Print, Decimal.Read, Spec, Join, Split;
    if ':' !in f.remoteAddr {
      SpecIsJoin(f);
      PrintPlain(f.listenPort);
      PrintPlain(f.remotePort);
      SplitJoin(["0.0.0.0", Decimal.Print(f.listenPort), f.remoteAddr, Decimal.Print(f.remotePort)], ':');
      Decimal.ReadBack(f.listenPort);
      Decimal.ReadBack(f.remotePort);
    }
  }

  function Specs(fs: seq<Forward>): seq<string> {
    if fs == [] then [] else [Spec(fs[0])] + Specs(fs[1..])
  }

  lemma {:induction false} SpecsReadBack(fs: seq<Forward>)
    requires forall i :: 0 <= i < |fs| ==> ':' !in fs[i].remoteAddr
    ensures ReadSpecs(Specs(fs)) == Some(AllPublic(fs))
  {
    hide Spec, ReadSpec;
    if fs != [] {
      SpecReadsBack(fs[0]);
      SpecsReadBack(fs[1..]);
      assert ([Spec(fs[0])] + Specs(fs[1..]))[1..] == Specs(fs[1..]);
    }
  }

  // Arguments

  lemma {:induction false} ForwardsParse(fs: seq<Forward>, dest: string, inv: Invocation)
    requires dest != "" && dest[0] != '-'
    ensures Parse(ForwardArgs(fs) + [dest], inv) == Some(inv.(remotes := inv.remotes + Specs(fs), dest := dest))
  {
    hide Spec;
    var ws := ForwardArgs(fs) + [dest];
    if fs == [] {
      assert ws == [dest] && inv.remotes + [] == inv.remotes;
    } else {
      var next := inv.(remotes := inv.remotes + [Spec(fs[0])]);
      ForwardsParse(fs[1..], dest, next);
      assert ws == ["-R", Spec(fs[0])] + (ForwardArgs(fs[1..]) + [dest]);
      assert ws[2..] == ForwardArgs(fs[1..]) + [dest];
      assert next.remotes + Specs(fs[1..]) == inv.remotes + Specs(fs);
    }
  }

  function CipherArgs(cipher: string): seq<string> { if cipher != "" then ["-c", cipher] else [] }

  function CipherOf(cipher: string): Option<string> { if cipher == "" then None else Some(cipher) }

  lemma CipherParse(cipher: string, rest: seq<string>, inv: Invocation)
    requires inv.cipher == None
    ensures Parse(CipherArgs(cipher) + rest, inv) == Parse(rest, inv.(cipher := CipherOf(cipher)))
  {
    var ws := CipherArgs(cipher) + rest;
    if cipher == "" {
      assert ws == rest && inv.(cipher := None) == inv;
    } else {
      assert ws[2..] == rest && ws[1] == cipher && ws[0] == "-c";
    }
  }

  lemma CompressionParse(on: bool, rest: seq<string>, inv: Invocation)
    requires !inv.compress
    ensures Parse((if on then ["-C"] else []) + rest, inv) == Parse(rest, inv.(compress := on))
  {
    var ws := (if on then ["-C"] else []) + rest;
    if on {
      assert ws[1..] == rest && ws[0] == "-C";
    } else {
      assert ws == rest && inv.(compress := false) == inv;
    }
  }

  /** The two optional arguments. */
  lemma ExtrasParse(t: Reverse, inv: Invocation)
    requires User(t)[0] != '-' && inv.cipher == None && !inv.compress
    ensures Parse(ExtraArgs(t) + ForwardArgs(t.forwards) + [Destination(t)], inv) ==
            Some(inv.(compress := t.compression, cipher := CipherOf(t.cipher),
                 remotes := inv.remotes + Specs(t.forwards), dest := Destination(t)))
  {
    hide Parse, ForwardArgs, Specs, CipherArgs, CipherOf;
    var rest := ForwardArgs(t.forwards) + [Destination(t)];
    var c := CipherArgs(t.cipher);
    var withCompress := inv.(compress := t.compression);
    CompressionParse(t.compression, c + rest, inv);
    CipherParse(t.cipher, rest, withCompress);
    ForwardsParse(t.forwards, Destination(t), withCompress.(cipher := CipherOf(t.cipher)));
    var compression := if t.compression then ["-C"] else [];
    assert ExtraArgs(t) + ForwardArgs(t.forwards) + [Destination(t)] == compression + (c + rest);
  }

  lemma TakesOption(v: string, rest: seq<string>, inv: Invocation)
    ensures Parse(["-o", v] + rest, inv) == Parse(rest, inv.(options := inv.options + [v]))
    ensures Parse(["-i", v] + rest, inv) == Parse(rest, inv.(identity := Some(v)))
    ensures Parse(["-p", v] + rest, inv) == Parse(rest, inv.(port := Some(v)))
  {
    assert (["-o", v] + rest)[2..] == rest;
    assert (["-i", v] + rest)[2..] == rest;
    assert (["-p", v] + rest)[2..] == rest;
  }

  function FixedOptions(t: Reverse): seq<string> {
    ["ExitOnForwardFailure=yes", "ServerAliveInterval=" + Decimal.Print(Interval(t)),
     "ServerAliveCountMax=" + Decimal.Print(CountMax(t)), "StrictHostKeyChecking=accept-new",
     "UserKnownHostsFile=" + KnownHosts(t.id)]
  }

  lemma StartsWithN(rest: seq<string>)
    ensures Parse(["-N"] + rest, START) == Parse(rest, START.(noCommand := true))
  {
    assert (["-N"] + rest)[1..] == rest;
  }

  /** The -o arguments, one after the other. */
  lemma {:induction false} OptionsParse(os: seq<string>, rest: seq<string>, inv: Invocation)
    ensures Parse(OptionArgs(os) + rest, inv) == Parse(rest, inv.(options := inv.options + os))
  {
    hide Parse;
    if os == [] {
      assert OptionArgs(os) + rest == rest && inv.options + os == inv.options;
    } else {
      var tail := OptionArgs(os[1..]) + rest;
      assert OptionArgs(os) + rest == ["-o", os[0]] + tail;
      TakesOption(os[0], tail, inv);
      OptionsParse(os[1..], rest, inv.(options := inv.options + [os[0]]));
      assert inv.options + [os[0]] + os[1..] == inv.options + os;
    }
  }

  function OptionArgs(os: seq<string>): seq<string> {
    if os == [] then [] else ["-o", os[0]] + OptionArgs(os[1..])
  }

  lemma FixedShape(t: Reverse)
    ensures FixedArgs(t) != [] && FixedArgs(t)[0] == "/usr/bin/ssh"
    ensures FixedArgs(t)[1..] ==
            ["-N"] + (OptionArgs(FixedOptions(t)) + (["-i", KeyPath(t.id)] + ["-p", Decimal.Print(Port(t))]))
  {
    hide Decimal.Print, KeyPath, KnownHosts, Interval, CountMax, Port;
    var o := FixedOptions(t);
    assert o == [o[0], o[1], o[2], o[3], o[4]];
    FiveOptions(o[0], o[1], o[2], o[3], o[4]);
    hide OptionArgs;
  }

  lemma FiveOptions(a: string, b: string, c: string, d: string, e: string)
    ensures OptionArgs([a, b, c, d, e]) == ["-o", a, "-o", b, "-o", c, "-o", d, "-o", e]
  {
    assert [a, b, c, d, e][1..] == [b, c, d, e] && [b, c, d, e][1..] == [c, d, e] && [c, d, e][1..] == [d, e];
    assert [d, e][1..] == [e] && [e][1..] == [];
    assert OptionArgs([e]) == ["-o", e] && OptionArgs([d, e]) == ["-o", d, "-o", e];
    assert OptionArgs([c, d, e]) == ["-o", c, "-o", d, "-o", e];
    assert OptionArgs([b, c, d, e]) == ["-o", b, "-o", c, "-o", d, "-o", e];
  }

  lemma FixedParse(t: Reverse, rest: seq<string>)
    ensures Parse(FixedArgs(t)[1..] + rest, START) ==
            Parse(rest, Invocation(true, false, FixedOptions(t), Some(KeyPath(t.id)), Some(Decimal.Print(Port(t))),
                                   None, [], ""))
  {
    FixedShape(t);
    hide Parse, FixedArgs, FixedOptions, OptionArgs, Decimal.Print, KeyPath, Port;
    var o, key, port := FixedOptions(t), KeyPath(t.id), Decimal.Print(Port(t));
    var tail := ["-i", key] + (["-p", port] + rest);
    assert FixedArgs(t)[1..] + rest == ["-N"] + (OptionArgs(o) + tail);
    StartsWithN(OptionArgs(o) + tail);
    var inv := START.(noCommand := true);
    OptionsParse(o, tail, inv);
    assert [] + o == o;
    TakesOption(key, ["-p", port] + rest, inv.(options := o));
    TakesOption(port, rest, inv.(options := o, identity := Some(key)));
  }

  /** What ssh is told, from the whole argument list. */
  function Told(t: Reverse): Invocation {
    Invocation(true, t.compression, FixedOptions(t), Some(KeyPath(t.id)), Some(Decimal.Print(Port(t))),
               CipherOf(t.cipher), Specs(t.forwards), Destination(t))
  }

  lemma ArgsParse(t: Reverse)
    requires User(t)[0] != '-'
    ensures Parse(Args(t)[1..], START) == Some(Told(t))
  {
    hide Parse, FixedOptions, KeyPath, Decimal.Print, Port, Specs, ForwardArgs, ExtraArgs, Destination;
    var rest := ExtraArgs(t) + ForwardArgs(t.forwards) + [Destination(t)];
    var inv := Invocation(true, false, FixedOptions(t), Some(KeyPath(t.id)), Some(Decimal.Print(Port(t))),
                          None, [], "");
    FixedParse(t, rest);
    ExtrasParse(t, inv);
    assert [] + Specs(t.forwards) == Specs(t.forwards);
    ArgsTail(t);
  }

  lemma ArgsTail(t: Reverse)
    ensures Args(t) != [] && Args(t)[0] == FixedArgs(t)[0]
    ensures Args(t)[1..] == FixedArgs(t)[1..] + (ExtraArgs(t) + ForwardArgs(t.forwards) + [Destination(t)])
  {
    hide Decimal.Print, KeyPath, KnownHosts, Interval, CountMax, Port, ForwardArgs, ExtraArgs, Destination;
    assert |FixedArgs(t)| > 0;
    hide FixedArgs;
  }

  // Values

  lemma OptionsAre(t: Reverse)
    ensures var o := FixedOptions(t);
            && |o| == 5
            && o[0] == "ExitOnForwardFailure" + "=" + "yes"
            && o[1] == "ServerAliveInterval" + "=" + Decimal.Print(Interval(t))
            && o[2] == "ServerAliveCountMax" + "=" + Decimal.Print(CountMax(t))
            && o[3] == "StrictHostKeyChecking" + "=" + "accept-new"
            && o[4] == "UserKnownHostsFile" + "=" + KnownHosts(t.id)
  {
    hide Decimal.Print, KnownHosts, Interval, CountMax;
  }

  /** Where the names of the options first differ. */
  lemma OptionsDiffer(t: Reverse)
    ensures var o := FixedOptions(t);
            && |o| == 5
            && |o[0]| > 0 && |o[1]| > 11 && |o[2]| > 1 && |o[3]| > 0
            && o[0][0] == 'E' && o[1][0] == o[2][0] == o[3][0] == 'S'
            && o[1][1] == o[2][1] == 'e' && o[1][11] == 'I'
  {
    hide Decimal.Print, KnownHosts, Interval, CountMax;
  }

  lemma OptionsRead(t: Reverse)
    ensures OptionValue(FixedOptions(t), "ServerAliveInterval") == Some(Decimal.Print(Interval(t)))
    ensures OptionValue(FixedOptions(t), "ServerAliveCountMax") == Some(Decimal.Print(CountMax(t)))
    ensures OptionValue(FixedOptions(t), "UserKnownHostsFile") == Some(KnownHosts(t.id))
    ensures OptionValue(FixedOptions(t), "ExitOnForwardFailure") == Some("yes")
    ensures OptionValue(FixedOptions(t), "StrictHostKeyChecking") == Some("accept-new")
  {
    hide Decimal.Print, KnownHosts, Interval, CountMax, FixedOptions, OptionValue;
    var o := FixedOptions(t);
    OptionsAre(t);
    OptionsDiffer(t);
    assert o[1..][1..] == o[2..] && o[2..][1..] == o[3..] && o[3..][1..] == o[4..];
    OptionFound(o, "ExitOnForwardFailure", "yes");
    OptionSkipped(o, "ServerAliveInterval", 0);
    OptionFound(o[1..], "ServerAliveInterval", Decimal.Print(Interval(t)));
    OptionSkipped(o, "ServerAliveCountMax", 0);
    OptionSkipped(o[1..], "ServerAliveCountMax", 11);
    OptionFound(o[2..], "ServerAliveCountMax", Decimal.Print(CountMax(t)));
    OptionSkipped(o, "StrictHostKeyChecking", 0);
    OptionSkipped(o[1..], "StrictHostKeyChecking", 1);
    OptionSkipped(o[2..], "StrictHostKeyChecking", 1);
    OptionFound(o[3..], "StrictHostKeyChecking", "accept-new");
    OptionSkipped(o, "UserKnownHostsFile", 0);
    OptionSkipped(o[1..], "UserKnownHostsFile", 0);
    OptionSkipped(o[2..], "UserKnownHostsFile", 0);
    OptionSkipped(o[3..], "UserKnownHostsFile", 0);
    OptionFound(o[4..], "UserKnownHostsFile", KnownHosts(t.id));
  }

  lemma OptionFound(options: seq<string>, name: string, v: string)
    requires options != [] && options[0] == name + "=" + v
    ensures OptionValue(options, name) == Some(v)
  {
    assert options[0][|name| + 1..] == v;
  }

  lemma OptionSkipped(options: seq<string>, name: string, k: nat)
    requires options != [] && k < |name| && k < |options[0]| && options[0][k] != name[k]
    ensures OptionValue(options, name) == OptionValue(options[1..], name)
  {
    assert (name + "=")[k] == name[k];
  }

  lemma {:induction false} LastSeparator(a: string, b: string, sep: char)
    requires sep !in b
    ensures SplitLast(a + [sep] + b, sep) == Some((a, b))
  {
    var s := a + [sep] + b;
    if b == "" {
      assert s[..|s| - 1] == a;
    } else {
      assert s[..|s| - 1] == a + [sep] + b[..|b| - 1];
      LastSeparator(a, b[..|b| - 1], sep);
      assert b[..|b| - 1] + [b[|b| - 1]] == b;
    }
  }

  lemma {:induction false} AfterLastIsFree(s: string, sep: char)
    ensures var r := SplitLast(s, sep); r.Some? ==> sep !in r.value.1
    ensures sep in s ==> SplitLast(s, sep).Some?
  {
    if s != "" && s[|s| - 1] != sep {
      AfterLastIsFree(s[..|s| - 1], sep);
      assert s == s[..|s| - 1] + [s[|s| - 1]];
    }
  }

  lemma SettingsMean(t: Reverse)
    ensures Effective(t) == Connection(User(t), t.iranHost, Port(t), Interval(t), CountMax(t), KeyPath(t.id),
                                       KnownHosts(t.id), t.compression, CipherOf(t.cipher), AllPublic(t.forwards),
                                       true, "yes", "accept-new")
  {
  }

  lemma ToldMeans(t: Reverse)
    requires forall i :: 0 <= i < |t.forwards| ==> PlainForward(t.forwards[i])
    ensures var dest := SplitLast(Destination(t), '@');
            dest.Some? && Interpret(Told(t)) == Some(Effective(t).(user := dest.value.0, host := dest.value.1))
  {
    SettingsMean(t);
    hide Decimal.Print, Decimal.Read, FixedOptions, OptionValue, SplitLast, KeyPath, KnownHosts, Interval, CountMax;
    hide Port, Specs, ReadSpecs, AllPublic, Effective, User, CipherOf;
    OptionsRead(t);
    SpecsReadBack(t.forwards);
    AfterLastIsFree(Destination(t), '@');
    Decimal.ReadBack(Port(t));
    Decimal.ReadBack(Interval(t));
    Decimal.ReadBack(CountMax(t));
  }

  // Words

  predicate PlainWord(w: string) { w != "" && PlainText(w) }

  predicate PlainWords(ws: seq<string>) { forall i :: 0 <= i < |ws| ==> PlainWord(ws[i]) }

  lemma {:induction false} PlainWordsRead(ws: seq<string>)
    requires ws != [] && PlainWords(ws)
    ensures Words(Join(ws, ' ')) == Some(ws)
  {
    assert forall i :: 0 <= i < |ws| ==> ' ' !in ws[i] by {
      assert !Plain(' ');
      hide Plain;
    }
    SplitJoin(ws, ' ');
    PlainJoin(ws);
    hide Join, Split, Plain;
    NoneEmpty(ws);
  }

  lemma {:induction false} NoneEmpty(ws: seq<string>)
    requires forall i :: 0 <= i < |ws| ==> ws[i] != ""
    ensures NonEmpty(ws) == ws
  {
    if ws != [] {
      NoneEmpty(ws[1..]);
    }
  }

  lemma {:induction false} PlainJoin(ws: seq<string>)
    requires PlainWords(ws)
    ensures forall i :: 0 <= i < |Join(ws, ' ')| ==> Plain(Join(ws, ' ')[i]) || Join(ws, ' ')[i] == ' '
  {
    hide Plain;
    if |ws| > 1 {
      PlainJoin(ws[1..]);
    }
  }

  lemma PlainConcat(a: string, b: string)
    requires PlainText(a) && PlainText(b)
    ensures PlainText(a + b)
  {
    hide Plain;
  }

  lemma PlainRange(c: char)
    requires '-' <= c <= ':' || '=' <= c <= 'Z' || '_' <= c <= 'z'
    ensures Plain(c)
  {
  }

  lemma PlainLiterals()
    ensures PlainText("/usr/bin/ssh") && PlainText("-N") && PlainText("-o") && PlainText("-i") && PlainText("-p")
    ensures PlainText("-C") && PlainText("-c") && PlainText("-R")
    ensures PlainText("@") && PlainText(":") && PlainText("0.0.0.0:")
  {
    hide Plain;
    forall c: char | '-' <= c <= ':' || '=' <= c <= 'Z' || '_' <= c <= 'z' ensures Plain(c) {
      PlainRange(c);
    }
  }

  lemma PlainOptionNames()
    ensures PlainText("ExitOnForwardFailure=yes") && PlainText("ServerAliveInterval=")
    ensures PlainText("ServerAliveCountMax=")
  {
    hide Plain;
    forall c: char | '-' <= c <= ':' || '=' <= c <= 'Z' || '_' <= c <= 'z' ensures Plain(c) {
      PlainRange(c);
    }
  }

  lemma PlainPaths()
    ensures PlainText("StrictHostKeyChecking=accept-new") && PlainText("UserKnownHostsFile=")
    ensures PlainText("/etc/sshtunnel-reverse/") && PlainText(".key") && PlainText(".known_hosts")
  {
    hide Plain;
    forall c: char | '-' <= c <= ':' || '=' <= c <= 'Z' || '_' <= c <= 'z' ensures Plain(c) {
      PlainRange(c);
    }
  }

  lemma FixedPlain(t: Reverse)
    requires PlainText(t.id)
    ensures PlainWords(FixedArgs(t))
  {
    hide Decimal.Print, PlainText, Interval, CountMax, Port;
    PlainLiterals();
    PlainOptionNames();
    PlainPaths();
    PrintPlain(Interval(t));
    PrintPlain(CountMax(t));
    PrintPlain(Port(t));
    PlainConcat("ServerAliveInterval=", Decimal.Print(Interval(t)));
    PlainConcat("ServerAliveCountMax=", Decimal.Print(CountMax(t)));
    PlainConcat("/etc/sshtunnel-reverse/", t.id);
    PlainConcat("/etc/sshtunnel-reverse/" + t.id, ".key");
    PlainConcat("/etc/sshtunnel-reverse/" + t.id, ".known_hosts");
    PlainConcat("UserKnownHostsFile=", KnownHosts(t.id));
  }

  lemma SpecPlain(f: Forward)
    requires PlainForward(f)
    ensures PlainWord(Spec(f))
  {
    hide Decimal.Print, PlainText;
    PlainLiterals();
    var lp, rp := Decimal.Print(f.listenPort), Decimal.Print(f.remotePort);
    PrintPlain(f.listenPort);
    PrintPlain(f.remotePort);
    PlainConcat("0.0.0.0:", lp);
    PlainConcat("0.0.0.0:" + lp, ":");
    PlainConcat("0.0.0.0:" + lp + ":", f.remoteAddr);
    PlainConcat("0.0.0.0:" + lp + ":" + f.remoteAddr, ":");
    PlainConcat("0.0.0.0:" + lp + ":" + f.remoteAddr + ":", rp);
  }

  lemma {:induction false} ForwardsPlain(fs: seq<Forward>)
    requires forall i :: 0 <= i < |fs| ==> PlainForward(fs[i])
    ensures PlainWords(ForwardArgs(fs))
  {
    hide Spec, PlainText, PlainForward;
    if fs != [] {
      SpecPlain(fs[0]);
      PlainLiterals();
      ForwardsPlain(fs[1..]);
    }
  }

  lemma ArgsPlain(t: Reverse)
    requires PlainFields(t)
    ensures PlainWords(Args(t))
  {
    hide PlainText, PlainForward, FixedArgs, ForwardArgs;
    FixedPlain(t);
    PlainLiterals();
    ForwardsPlain(t.forwards);
    PlainConcat(User(t), "@");
    PlainConcat(User(t) + "@", t.iranHost);
    hide PlainFields;
    assert PlainWords(ExtraArgs(t));
    assert PlainWord(Destination(t));
    hide ExtraArgs, Destination, PlainWord;
  }

  lemma CommandReads(t: Reverse)
    requires PlainFields(t)
    ensures var dest := SplitLast(Destination(t), '@');
            dest.Some? && ReadCommand(Join(Args(t), ' ')) ==
                          Some(Effective(t).(user := dest.value.0, host := dest.value.1))
  {
    hide PlainText, Join, Words, Parse, Interpret, Args, Effective, Told, Destination, SplitLast;
    ToldMeans(t);
    ArgsPlain(t);
    ArgsParse(t);
    FixedShape(t);
    ArgsTail(t);
    PlainWordsRead(Args(t));
  }

  // The unit file

  /** The lines between the description and the command, but for the first, and the rest. */
  function LaterLines(exec: string): seq<string> { AfterDescription(exec)[1..] }

  const AFTER := "After=network-online.target"

  /** What systemd has read by the end of the line after the description. */
  function ReadDescription(t: Reverse): Option<UnitFile.Reading> {
    UnitFile.ReadLines(UnitFile.START, ["[Unit]"] + (UnitFile.Lines(Description(t)) + [AFTER]))
  }

  /** The name brings no command of its own: none is in force after the description, and
    * the file is not refused by then. */
  predicate QuietName(t: Reverse) {
    ReadDescription(t).Some? && ReadDescription(t).value.commands == []
  }

  lemma FixedRead(r: UnitFile.Reading)
    requires r.pending == None
    ensures UnitFile.ReadLine(r, "Wants=network-online.target") == Some(r)
    ensures UnitFile.ReadLine(r, "") == Some(r)
    ensures UnitFile.ReadLine(r, "[Service]") == Some(r.(inside := true))
    ensures UnitFile.ReadLine(r, "Type=simple") == Some(r)
  {
    hide UnitFile.ReadLine;
    UnitFile.AssignmentRead(r, "Wants", "network-online.target");
    UnitFile.EmptyRead(r);
    UnitFile.SectionRead(r, "Service");
    UnitFile.AssignmentRead(r, "Type", "simple");
    assert "Wants" + "=" + "network-online.target" == "Wants=network-online.target";
    assert "[" + "Service" + "]" == "[Service]" && "Type" + "=" + "simple" == "Type=simple";
  }

  lemma OthersRead(r: UnitFile.Reading)
    requires r.pending == None
    ensures UnitFile.ReadLine(r, "Restart=always") == Some(r)
    ensures UnitFile.ReadLine(r, "RestartSec=3s") == Some(r)
    ensures UnitFile.ReadLine(r, "[Install]") == Some(r.(inside := false))
    ensures UnitFile.ReadLine(r, "WantedBy=multi-user.target") == Some(r)
  {
    hide UnitFile.ReadLine;
    UnitFile.AssignmentRead(r, "Restart", "always");
    UnitFile.AssignmentRead(r, "RestartSec", "3s");
    UnitFile.SectionRead(r, "Install");
    UnitFile.AssignmentRead(r, "WantedBy", "multi-user.target");
    assert "Restart" + "=" + "always" == "Restart=always" && "RestartSec" + "=" + "3s" == "RestartSec=3s";
    assert "[" + "Install" + "]" == "[Install]";
    assert "WantedBy" + "=" + "multi-user.target" == "WantedBy=multi-user.target";
  }

  lemma ExecRead(r: UnitFile.Reading, exec: string)
    requires r.pending == None && r.inside && UnitFile.Firm(exec)
    ensures UnitFile.ReadLine(r, "ExecStart=" + exec) == Some(r.(commands := r.commands + [exec]))
  {
    hide UnitFile.ReadLine;
    UnitFile.AssignmentRead(r, "ExecStart", exec);
    assert "ExecStart" + "=" + exec == "ExecStart=" + exec;
  }

  function LastLines(): seq<string> {
    ["Restart=always", "RestartSec=3s", "", "[Install]", "WantedBy=multi-user.target"]
  }

  lemma LastLinesRead(x: UnitFile.Reading)
    requires x.pending == None
    ensures UnitFile.ReadLines(x, LastLines()) == Some(x.(inside := false))
  {
    hide UnitFile.ReadLine;
    var o := x.(inside := false);
    FixedRead(x);
    OthersRead(x);
    OthersRead(o);
    var l9 := ["WantedBy=multi-user.target"];
    var l8 := ["[Install]"] + l9;
    var l7 := [""] + l8;
    var l6 := ["RestartSec=3s"] + l7;
    assert LastLines() == ["Restart=always"] + l6 && l9 == l9 + [];
    UnitFile.ReadNext(x, "Restart=always", x, l6);
    UnitFile.ReadNext(x, "RestartSec=3s", x, l7);
    UnitFile.ReadNext(x, "", x, l8);
    UnitFile.ReadNext(x, "[Install]", o, l9);
    UnitFile.ReadNext(o, "WantedBy=multi-user.target", o, []);
  }

  function MiddleLines(): seq<string> { ["Wants=network-online.target", "", "[Service]", "Type=simple"] }

  lemma MiddleLinesRead(r: UnitFile.Reading)
    requires r.pending == None
    ensures UnitFile.ReadLines(r, MiddleLines()) == Some(r.(inside := true))
  {
    hide UnitFile.ReadLine;
    var i := r.(inside := true);
    FixedRead(r);
    FixedRead(i);
    var l3 := ["Type=simple"];
    var l2 := ["[Service]"] + l3;
    var l1 := [""] + l2;
    assert MiddleLines() == ["Wants=network-online.target"] + l1 && l3 == l3 + [];
    UnitFile.ReadNext(r, "Wants=network-online.target", r, l1);
    UnitFile.ReadNext(r, "", r, l2);
    UnitFile.ReadNext(r, "[Service]", i, l3);
    UnitFile.ReadNext(i, "Type=simple", i, []);
  }

  lemma LaterLinesAre(exec: string)
    ensures LaterLines(exec) == MiddleLines() + (["ExecStart=" + exec] + LastLines())
  {
  }

  /** The lines from the second after the description on add the command and no other. */
  lemma LaterLinesRead(r: UnitFile.Reading, exec: string)
    requires r.pending == None && UnitFile.Firm(exec)
    ensures UnitFile.ReadLines(r, LaterLines(exec)) ==
            Some(UnitFile.Reading(None, false, r.commands + [exec]))
  {
    hide UnitFile.ReadLine, UnitFile.ReadLines, UnitFile.Firm, LastLines, MiddleLines, LaterLines;
    var i := r.(inside := true);
    var x := i.(commands := r.commands + [exec]);
    LaterLinesAre(exec);
    MiddleLinesRead(r);
    UnitFile.ReadAppend(r, MiddleLines(), ["ExecStart=" + exec] + LastLines());
    ExecRead(i, exec);
    UnitFile.ReadNext(i, "ExecStart=" + exec, x, LastLines());
    LastLinesRead(x);
  }

  /** The line after the description ends whatever statement the description left open. */
  lemma AfterIsFirm()
    ensures UnitFile.Firm(AFTER) && !UnitFile.Comment(AFTER)
  {
  }

  lemma {:induction false} LastLineEnds(r: UnitFile.Reading, ls: seq<string>, l: string)
    requires UnitFile.Firm(l) && !UnitFile.Comment(l)
    ensures var end := UnitFile.ReadLines(r, ls + [l]); end.Some? ==> end.value.pending == None
  {
    hide UnitFile.ReadLine, UnitFile.Firm, UnitFile.Comment;
    UnitFile.ReadAppend(r, ls, [l]);
    var before := UnitFile.ReadLines(r, ls);
    if before.Some? {
      UnitFile.FirmEnds(before.value, l);
    }
  }

  predicate NoEols(ls: seq<string>) { forall i :: 0 <= i < |ls| ==> UnitFile.NoEol(ls[i]) }

  lemma FixedNoEol()
    ensures UnitFile.NoEol("[Unit]") && UnitFile.NoEol(AFTER) && UnitFile.NoEol("Wants=network-online.target")
    ensures UnitFile.NoEol("") && UnitFile.NoEol("[Service]") && UnitFile.NoEol("Type=simple")
  {
  }

  lemma OtherNoEol()
    ensures UnitFile.NoEol("Restart=always") && UnitFile.NoEol("RestartSec=3s") && UnitFile.NoEol("[Install]")
    ensures UnitFile.NoEol("WantedBy=multi-user.target")
  {
  }

  lemma LinesNoEol(exec: string)
    requires UnitFile.NoEol(exec)
    ensures NoEols(AfterDescription(exec))
  {
    FixedNoEol();
    OtherNoEol();
    assert UnitFile.NoEol("ExecStart=" + exec);
    hide UnitFile.NoEol;
  }

  lemma TextLines(t: Reverse, exec: string)
    requires UnitFile.NoEol(exec) && !UnitFile.IsEol(Description(t)[|Description(t)| - 1])
    ensures UnitFile.Lines(Join(Template(t, exec), NEWLINE) + [NEWLINE]) ==
            ["[Unit]"] + (UnitFile.Lines(Description(t)) + AfterDescription(exec))
  {
    LinesNoEol(exec);
    FixedNoEol();
    assert |AfterDescription(exec)| > 0 && |Description(t)| > 0 && Description(t)[0] == 'D';
    hide UnitFile.LinesFrom, UnitFile.NoEol, Description, AfterDescription;
    var after := AfterDescription(exec);
    var d, tail := Description(t), Join(after, NEWLINE) + [NEWLINE];
    assert Template(t, exec)[1..] == [d] + after && ([d] + after)[1..] == after;
    assert Join([d] + after, NEWLINE) == d + [NEWLINE] + Join(after, NEWLINE);
    assert Join(Template(t, exec), NEWLINE) + [NEWLINE] == "[Unit]" + [NEWLINE] + (d + [NEWLINE] + tail);
    hide Join;
    UnitFile.WrittenLines(after);
    UnitFile.LineFirst("[Unit]", d + [NEWLINE] + tail);
    UnitFile.LinesApart(d, tail, "", {});
  }

  lemma UnitLines(t: Reverse)
    requires UnitFile.NoEol(Join(Args(t), ' ')) && !UnitFile.IsEol(Description(t)[|Description(t)| - 1])
    ensures UnitFile.Lines(UnitText(t)) ==
            ["[Unit]"] + (UnitFile.Lines(Description(t)) + [AFTER]) + LaterLines(Join(Args(t), ' '))
  {
    var exec := Join(Args(t), ' ');
    assert AfterDescription(exec) == [AFTER] + LaterLines(exec);
    TextLines(t, exec);
    hide Args, Join, AfterDescription, LaterLines, Description, Template, UnitFile.LinesFrom, UnitFile.NoEol, AFTER;
    var d := UnitFile.Lines(Description(t));
    assert ["[Unit]"] + (d + ([AFTER] + LaterLines(exec))) == ["[Unit]"] + (d + [AFTER]) + LaterLines(exec);
  }

  lemma DescriptionRead(t: Reverse)
    ensures ReadDescription(t).Some? ==> ReadDescription(t).value.pending == None
  {
    AfterIsFirm();
    hide Description, UnitFile.LinesFrom, UnitFile.ReadLine, UnitFile.Firm, UnitFile.Comment, AFTER;
    var first := ["[Unit]"] + UnitFile.Lines(Description(t));
    assert ["[Unit]"] + (UnitFile.Lines(Description(t)) + [AFTER]) == first + [AFTER];
    LastLineEnds(UnitFile.START, first, AFTER);
  }

  /** The unit file's commands are those the name brings and then the one meant. */
  lemma UnitCommands(t: Reverse)
    requires UnitFile.NoEol(Join(Args(t), ' ')) && UnitFile.Firm(Join(Args(t), ' '))
    requires !UnitFile.IsEol(Description(t)[|Description(t)| - 1])
    ensures UnitFile.Commands(UnitText(t)) ==
            match ReadDescription(t)
            case None => None
            case Some(r) => Some(r.commands + [Join(Args(t), ' ')])
  {
    hide Args, Join, LaterLines, Description, UnitText, AFTER;
    hide UnitFile.LinesFrom, UnitFile.ReadLines, UnitFile.Firm, UnitFile.NoEol;
    var exec := Join(Args(t), ' ');
    UnitLines(t);
    DescriptionRead(t);
    UnitFile.ReadAppend(UnitFile.START, ["[Unit]"] + (UnitFile.Lines(Description(t)) + [AFTER]), LaterLines(exec));
    if ReadDescription(t).Some? {
      LaterLinesRead(ReadDescription(t).value, exec);
    }
  }

  lemma PlainHasNoEol(s: string)
    requires forall i :: 0 <= i < |s| ==> Plain(s[i]) || s[i] == ' '
    ensures UnitFile.NoEol(s)
  {
    assert forall c :: UnitFile.IsEol(c) ==> !Plain(c) && c != ' ';
    hide Plain;
  }

  /** The command starts with ssh's path and ends with the destination. */
  lemma CommandEnds(t: Reverse)
    requires PlainFields(t)
    ensures UnitFile.NoEol(Join(Args(t), ' ')) && UnitFile.Firm(Join(Args(t), ' '))
  {
    var args := Args(t);
    ArgsPlain(t);
    PlainJoin(args);
    PlainHasNoEol(Join(args, ' '));
    assert args[0] == "/usr/bin/ssh" && args[|args| - 1] == Destination(t);
    assert PlainWord(args[|args| - 1]) && PlainWord(args[0]);
    hide Args;
    JoinEnds(args, ' ');
    assert forall c :: Plain(c) ==> !In(c, UnitBlanks) && c != UnitFile.BACKSLASH;
  }

  lemma {:induction false} JoinEnds(ws: seq<string>, sep: char)
    requires ws != [] && ws[0] != "" && ws[|ws| - 1] != ""
    ensures var s := Join(ws, sep);
            s != "" && s[0] == ws[0][0] && s[|s| - 1] == ws[|ws| - 1][|ws[|ws| - 1]| - 1]
  {
    if |ws| > 1 {
      LastOfJoin(ws, sep);
    }
  }

  lemma {:induction false} LastOfJoin(ws: seq<string>, sep: char)
    requires ws != [] && ws[|ws| - 1] != ""
    ensures var s := Join(ws, sep); s != "" && s[|s| - 1] == ws[|ws| - 1][|ws[|ws| - 1]| - 1]
  {
    if |ws| > 1 {
      LastOfJoin(ws[1..], sep);
    }
  }

  lemma DescriptionEnds(t: Reverse)
    requires PlainText(t.iranHost)
    ensures |Description(t)| > 0 && !UnitFile.IsEol(Description(t)[|Description(t)| - 1])
    ensures Description(t)[|Description(t)| - 1] != UnitFile.BACKSLASH
  {
    var d := Description(t);
    assert forall c :: UnitFile.IsEol(c) ==> !Plain(c);
    assert !Plain(UnitFile.BACKSLASH);
    hide Plain;
    if t.iranHost != "" {
      assert d[|d| - 1] == t.iranHost[|t.iranHost| - 1];
    } else {
      var start := "Description=SSH Reverse Tunnel " + t.name + " (" + t.id + ") -> ";
      assert d == start && start[|start| - 1] == ' ';
    }
  }

  /** With plain fields the unit file asks systemd for one ssh command, unless the name
    * brings its own, and ssh takes from it every forward's ports and target in order,
    * always listening on all addresses, and the keepalive values, port, key files,
    * compression and cipher in force.  The login is split at the last '@'. */
  lemma UnitReadsAs(t: Reverse)
    requires PlainFields(t)
    ensures var dest := SplitLast(Destination(t), '@');
            dest.Some? && ReadUnit(UnitText(t)) ==
                          if !QuietName(t) then None
                          else Some(Effective(t).(user := dest.value.0, host := dest.value.1))
  {
    CommandEnds(t);
    DescriptionEnds(t);
    hide Join, Args, Template, ReadCommand, SplitLast, User, UnitText, ReadDescription, UnitFile.Commands;
    hide UnitFile.Firm, UnitFile.NoEol, Description;
    CommandReads(t);
    UnitCommands(t);
  }

  lemma DescriptionIsLine(t: Reverse)
    requires UnitFile.NoEol(t.name) && PlainText(t.id) && PlainText(t.iranHost)
    ensures UnitFile.NoEol(Description(t)) && Description(t) != "" && Description(t)[0] == 'D'
  {
    PlainHasNoEol(t.id);
    PlainHasNoEol(t.iranHost);
    var head := "Description=SSH Reverse Tunnel ";
    assert UnitFile.NoEol(head) && UnitFile.NoEol(" (") && UnitFile.NoEol(") -> ");
    assert Description(t)[0] == head[0];
    hide UnitFile.IsEol, Plain;
  }

  lemma OutsideLines(d: string)
    requires d != "" && d[0] == 'D' && d[|d| - 1] != UnitFile.BACKSLASH
    ensures UnitFile.ReadLines(UnitFile.START, ["[Unit]"] + ([d] + [AFTER])) == Some(UnitFile.START)
  {
    var s := UnitFile.START;
    UnitFile.SectionRead(s, "Unit");
    assert "[" + "Unit" + "]" == "[Unit]";
    UnitFile.OutsideRead(s, d);
    UnitFile.OutsideRead(s, AFTER);
    hide UnitFile.ReadLine, AFTER;
    UnitFile.ReadNext(s, "[Unit]", s, [d] + [AFTER]);
    UnitFile.ReadNext(s, d, s, [AFTER]);
    assert [AFTER] == [AFTER] + [];
    UnitFile.ReadNext(s, AFTER, s, []);
  }

  /** A name of one line brings no command. */
  lemma OneLineNameIsQuiet(t: Reverse)
    requires UnitFile.NoEol(t.name) && PlainText(t.id) && PlainText(t.iranHost)
    ensures QuietName(t)
  {
    var d := Description(t);
    DescriptionIsLine(t);
    DescriptionEnds(t);
    hide Description, UnitFile.ReadLine, UnitFile.NoEol, AFTER;
    UnitFile.OneLine(d, "");
    assert "" + d == d;
    OutsideLines(d);
  }

  // What can be read at all

  predicate PlainOption(s: Option<string>) { s.Some? ==> PlainText(s.value) }

  predicate PlainTexts(ss: seq<string>) { forall i :: 0 <= i < |ss| ==> PlainText(ss[i]) }

  predicate PlainInvocation(inv: Invocation) {
    PlainTexts(inv.options) && PlainOption(inv.identity) && PlainOption(inv.port) && PlainOption(inv.cipher)
    && PlainTexts(inv.remotes) && PlainText(inv.dest) && (inv.dest == "" || inv.dest[0] != '-')
  }

  predicate PlainConnection(c: Connection) {
    PlainText(c.user) && PlainText(c.host) && '@' !in c.host && (c.user == "" || c.user[0] != '-')
    && PlainText(c.identity) && PlainOption(c.cipher)
    && forall i :: 0 <= i < |c.forwards| ==> PlainForward(c.forwards[i])
  }

  lemma {:induction false} SplitPlain(s: string, sep: char)
    requires forall i :: 0 <= i < |s| ==> Plain(s[i]) || s[i] == sep
    ensures PlainTexts(Split(s, sep))
  {
    hide Plain;
    if s != "" {
      SplitPlain(s[1..], sep);
    }
  }

  lemma {:induction false} NonEmptyPlain(ws: seq<string>)
    requires PlainTexts(ws)
    ensures PlainWords(NonEmpty(ws))
  {
    hide PlainText;
    if ws != [] {
      NonEmptyPlain(ws[1..]);
    }
  }

  lemma {:induction false} ParsePlain(ws: seq<string>, inv: Invocation)
    requires PlainWords(ws) && PlainInvocation(inv)
    ensures Parse(ws, inv).Some? ==> PlainInvocation(Parse(ws, inv).value)
    decreases |ws|
  {
    hide PlainText;
    if ws != [] && ws[0][0] == '-' && |ws[0]| == 2 {
      var letter := ws[0][1];
      assert PlainWords(ws[1..]);
      if letter == 'N' {
        ParsePlain(ws[1..], inv.(noCommand := true));
      } else if letter == 'C' {
        ParsePlain(ws[1..], inv.(compress := true));
      } else if |ws| > 1 {
        assert PlainWord(ws[1]) && PlainWords(ws[2..]);
        ParsePlain(ws[2..], inv.(options := inv.options + [ws[1]]));
        ParsePlain(ws[2..], inv.(identity := Some(ws[1])));
        ParsePlain(ws[2..], inv.(port := Some(ws[1])));
        ParsePlain(ws[2..], inv.(cipher := Some(ws[1])));
        ParsePlain(ws[2..], inv.(remotes := inv.remotes + [ws[1]]));
      }
    }
  }

  lemma {:induction false} SplitLastParts(s: string, sep: char)
    ensures var r := SplitLast(s, sep); r.Some? ==> s == r.value.0 + [sep] + r.value.1
  {
    if s != "" && s[|s| - 1] != sep {
      SplitLastParts(s[..|s| - 1], sep);
    }
  }

  lemma LoginPlain(dest: string)
    requires PlainText(dest) && (dest == "" || dest[0] != '-')
    ensures var r := SplitLast(dest, '@');
            r.Some? ==> PlainText(r.value.0) && PlainText(r.value.1) && '@' !in r.value.1
                        && (r.value.0 == "" || r.value.0[0] != '-')
  {
    hide Plain;
    SplitLastParts(dest, '@');
    AfterLastIsFree(dest, '@');
    hide SplitLast;
    var r := SplitLast(dest, '@');
    if r.Some? {
      assert forall i :: 0 <= i < |r.value.0| ==> r.value.0[i] == dest[i];
      assert forall i :: 0 <= i < |r.value.1| ==> r.value.1[i] == dest[|r.value.0| + 1 + i];
    }
  }

  lemma SpecPieces(s: string)
    requires PlainText(s)
    ensures ReadSpec(s).Some? ==> PlainForward(ReadSpec(s).value)
  {
    SplitPlain(s, ':');
    hide Split, PlainText, Decimal.Read;
  }

  lemma {:induction false} SpecsPieces(ss: seq<string>)
    requires PlainTexts(ss)
    ensures ReadSpecs(ss).Some? ==> forall i :: 0 <= i < |ReadSpecs(ss).value| ==> PlainForward(ReadSpecs(ss).value[i])
  {
    hide PlainText, PlainForward, ReadSpec;
    if ss != [] {
      SpecPieces(ss[0]);
      SpecsPieces(ss[1..]);
    }
  }

  /** Whatever the text, what is read from it is plain. */
  lemma ReadIsPlain(text: string)
    ensures ReadUnit(text).Some? ==> PlainConnection(ReadUnit(text).value)
  {
    hide UnitFile.Commands, ReadCommand;
    if UnitFile.Commands(text).Some? && |UnitFile.Commands(text).value| == 1 {
      CommandIsPlain(UnitFile.Commands(text).value[0]);
    }
  }

  lemma CommandIsPlain(exec: string)
    ensures ReadCommand(exec).Some? ==> PlainConnection(ReadCommand(exec).value)
  {
    hide Parse, Interpret, PlainInvocation, PlainConnection, PlainText, NonEmpty, Split;
    if Words(exec).Some? {
      SplitPlain(exec, ' ');
      NonEmptyPlain(Split(exec, ' '));
      var ws := Words(exec).value;
      if ws != [] {
        assert PlainWords(ws[1..]);
        StartIsPlain();
        ParsePlain(ws[1..], START);
        if Parse(ws[1..], START).Some? {
          InterpretPlain(Parse(ws[1..], START).value);
        }
      }
    }
  }

  lemma StartIsPlain()
    ensures PlainInvocation(START)
  {
  }

  lemma InterpretPlain(inv: Invocation)
    requires PlainInvocation(inv)
    ensures Interpret(inv).Some? ==> PlainConnection(Interpret(inv).value)
  {
    hide PlainText, SplitLast, ReadSpecs, NumberOption, OptionValue, Decimal.Read;
    LoginPlain(inv.dest);
    SpecsPieces(inv.remotes);
  }

  // The round trip, exactly

  /** Fields that can stand in a unit file: free of white space and of what systemd and
    * ssh treat specially, and a name that brings no command of its own. */
  predicate Readable(t: Reverse) {
    PlainFields(t) && '@' !in t.iranHost && QuietName(t)
  }

  lemma {:induction false} PublicPlain(fs: seq<Forward>)
    requires forall i :: 0 <= i < |AllPublic(fs)| ==> PlainForward(AllPublic(fs)[i])
    ensures forall i :: 0 <= i < |fs| ==> PlainForward(fs[i])
  {
    hide PlainText;
    if fs != [] {
      var rest := AllPublic(fs[1..]);
      assert AllPublic(fs)[0] == Public(fs[0]) && AllPublic(fs)[1..] == rest;
      assert forall i :: 0 <= i < |rest| ==> rest[i] == AllPublic(fs)[i + 1];
      PublicPlain(fs[1..]);
      assert forall i :: 0 < i < |fs| ==> fs[i] == fs[1..][i - 1];
    }
  }

  lemma KeyPathPlain(id: string)
    requires PlainText(KeyPath(id))
    ensures PlainText(id)
  {
    hide Plain;
    var prefix := "/etc/sshtunnel-reverse/";
    assert forall i :: 0 <= i < |id| ==> KeyPath(id)[|prefix| + i] == id[i];
  }

  lemma EffectiveIsPlain(t: Reverse)
    requires PlainConnection(Effective(t))
    ensures PlainFields(t) && '@' !in t.iranHost
  {
    SettingsMean(t);
    hide PlainText, PlainForward, KeyPath, KnownHosts, AllPublic, Effective;
    KeyPathPlain(t.id);
    PublicPlain(t.forwards);
    assert t.cipher == "" ==> PlainText(t.cipher) by {
      EmptyIsPlain();
    }
  }

  lemma EmptyIsPlain()
    ensures PlainText("")
  {
  }

  /** For every tunnel: its unit file reads back as what its settings mean exactly when
    * its fields are readable. */
  lemma UnitReadsBack(t: Reverse)
    ensures ReadUnit(UnitText(t)) == Some(Effective(t)) <==> Readable(t)
  {
    hide PlainFields, PlainConnection, ReadUnit, UnitText, QuietName, SplitLast;
    ReadIsPlain(UnitText(t));
    if ReadUnit(UnitText(t)) == Some(Effective(t)) {
      EffectiveIsPlain(t);
    }
    if PlainFields(t) {
      UnitReadsAs(t);
      if '@' !in t.iranHost {
        LastSeparator(User(t), t.iranHost, '@');
      }
    }
  }
}

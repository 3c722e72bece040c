/**
 Port ranges compiled to netfilter rules. A rule is a list of expressions over one
 register, as in nftables: a load fills the register, a comparison that fails ends the
 rule, and a queue expression is the verdict. Comparison is bytewise, as by `memcmp`.
 */
module Netfilter {
  import opened Wrappers
  import opened Octets
  import opened Ports
  import Ipv4

  datatype Protocol = TCP | UDP | Unsupported(number: Byte)

  datatype Field = IifName | L4Proto | SourceAddress | SourcePort | DestinationPort

  datatype CmpOp = Eq | Gte | Lte

  datatype Expr =
    | Load(field: Field)
    | Cmp(op: CmpOp, data: seq<Byte>)
    | Queue(num: nat)

  type Rule = seq<Expr>

  datatype Hook = PreRouting | Out

  datatype ChainName = PREROUTING | OUTPUT

  datatype Chain = Chain(hook: Hook, rules: seq<Rule>)

  /** `glycerine-tcp-{queue}` or `glycerine-udp-{queue}`. */
  datatype TableName = TableName(tcp: bool, queue: nat)

  type Ruleset = map<TableName, map<ChainName, Chain>>

  datatype Packet = Packet(iif: seq<Byte>, l4proto: Byte, saddr: seq<Byte>, sport: Port, dport: Port)

  // The meaning of rules

  function FieldOf(p: Packet, f: Field): seq<Byte> {
    match f
    case IifName => p.iif
    case L4Proto => [p.l4proto]
    case SourceAddress => p.saddr
    case SourcePort => BigEndian(p.sport)
    case DestinationPort => BigEndian(p.dport)
  }

  /** Lexicographic order. */
  predicate LexLe(a: seq<Byte>, b: seq<Byte>) {
    if a == [] then true
    else if b == [] then false
    else a[0] < b[0] || (a[0] == b[0] && LexLe(a[1..], b[1..]))
  }

  predicate Holds(op: CmpOp, register: seq<Byte>, data: seq<Byte>) {
    match op
    case Eq => register == data
    case Gte => LexLe(data, register)
    case Lte => LexLe(register, data)
  }

  /** The queue to which a rule sends a packet, if it does. */
  function Eval(rule: Rule, p: Packet, register: seq<Byte>): Option<nat> {
    if rule == [] then None
    else
      match rule[0]
      case Load(f) => Eval(rule[1..], p, FieldOf(p, f))
      case Cmp(op, data) => if Holds(op, register, data) then Eval(rule[1..], p, register) else None
      case Queue(num) => Some(num)
  }

  /** The verdict of the first rule that has one. */
  function ChainVerdict(rules: seq<Rule>, p: Packet): Option<nat> {
    if rules == [] then None
    else if Eval(rules[0], p, []).Some? then Eval(rules[0], p, [])
    else ChainVerdict(rules[1..], p)
  }

  function TableVerdict(rs: Ruleset, t: TableName, hook: Hook, p: Packet): Option<nat> {
    if t !in rs then None
    else
      var name := if hook == PreRouting then PREROUTING else OUTPUT;
      if name !in rs[t] || rs[t][name].hook != hook then None
      else ChainVerdict(rs[t][name].rules, p)
  }

  /** One of the two tables for `queue` sends the packet there. */
  predicate Captured(rs: Ruleset, queue: nat, hook: Hook, p: Packet) {
    || TableVerdict(rs, TableName(true, queue), hook, p) == Some(queue)
    || TableVerdict(rs, TableName(false, queue), hook, p) == Some(queue)
  }

  /** Bytewise order of big-endian ports is numeric order. */
  lemma BigEndianOrder(a: Port, b: Port)
    ensures LexLe(BigEndian(a), BigEndian(b)) <==> a <= b
  {
    var x, y := BigEndian(a), BigEndian(b);
    assert x == [a / 256, a % 256] && y == [b / 256, b % 256];
    assert x[1..] == [a % 256] && y[1..] == [b % 256];
    assert LexLe(x[1..], y[1..]) <==> a % 256 <= b % 256;
  }

  // The compiled rules

  function Number(tcp: bool): Byte {
    if tcp then Ipv4.PROTOCOL_TCP else Ipv4.PROTOCOL_UDP
  }

  function PortsBetween(f: Field, r: Range, queue: nat): Rule {
    [Load(f), Cmp(Gte, BigEndian(r.from)), Load(f), Cmp(Lte, BigEndian(r.to)), Queue(queue)]
  }

  function IngressRule(queue: nat, iface: seq<Byte>, tcp: bool, r: Range): Rule {
    [Load(IifName), Cmp(Eq, iface), Load(L4Proto), Cmp(Eq, [Number(tcp)])]
    + PortsBetween(DestinationPort, r, queue)
  }

  function EgressRule(queue: nat, tcp: bool, saddr: seq<Byte>, r: Range): Rule {
    [Load(L4Proto), Cmp(Eq, [Number(tcp)]), Load(SourceAddress), Cmp(Eq, saddr)]
    + PortsBetween(SourcePort, r, queue)
  }

  function IngressRules(queue: nat, iface: seq<Byte>, tcp: bool, rs: seq<Range>): (rules: seq<Rule>)
    ensures |rules| == |rs|
  {
    seq(|rs|, i requires 0 <= i < |rs| => IngressRule(queue, iface, tcp, rs[i]))
  }

  function EgressRules(queue: nat, tcp: bool, saddr: seq<Byte>, rs: seq<Range>): (rules: seq<Rule>)
    ensures |rules| == |rs|
  {
    seq(|rs|, i requires 0 <= i < |rs| => EgressRule(queue, tcp, saddr, rs[i]))
  }

  /** A load and a comparison are one test. */
  lemma EvalTest(f: Field, op: CmpOp, data: seq<Byte>, rest: Rule, p: Packet, register: seq<Byte>)
    ensures Eval([Load(f), Cmp(op, data)] + rest, p, register)
            == if Holds(op, FieldOf(p, f), data) then Eval(rest, p, FieldOf(p, f)) else None
  {
    var rule := [Load(f), Cmp(op, data)] + rest;
    assert rule[1..] == [Cmp(op, data)] + rest;
    assert rule[1..][1..] == rest;
  }

  lemma PortsBetweenMeans(f: Field, r: Range, queue: nat, p: Packet, register: seq<Byte>, port: Port)
    requires FieldOf(p, f) == BigEndian(port)
    ensures Eval(PortsBetween(f, r, queue), p, register) == if Contains(r, port) then Some(queue) else None
  {
    var last: Rule := [Queue(queue)];
    var upper := [Load(f), Cmp(Lte, BigEndian(r.to))] + last;
    assert PortsBetween(f, r, queue) == [Load(f), Cmp(Gte, BigEndian(r.from))] + upper;
    EvalTest(f, Gte, BigEndian(r.from), upper, p, register);
    EvalTest(f, Lte, BigEndian(r.to), last, p, FieldOf(p, f));
    BigEndianOrder(r.from, port);
    BigEndianOrder(port, r.to);
  }

  lemma IngressRuleMeans(queue: nat, iface: seq<Byte>, tcp: bool, r: Range, p: Packet)
    ensures Eval(IngressRule(queue, iface, tcp, r), p, [])
            == if p.iif == iface && p.l4proto == Number(tcp) && Contains(r, p.dport) then Some(queue) else None
  {
    var between := PortsBetween(DestinationPort, r, queue);
    var rest := [Load(L4Proto), Cmp(Eq, [Number(tcp)])] + between;
    assert IngressRule(queue, iface, tcp, r) == [Load(IifName), Cmp(Eq, iface)] + rest;
    EvalTest(IifName, Eq, iface, rest, p, []);
    EvalTest(L4Proto, Eq, [Number(tcp)], between, p, p.iif);
    PortsBetweenMeans(DestinationPort, r, queue, p, [p.l4proto], p.dport);
  }

  lemma EgressRuleMeans(queue: nat, tcp: bool, saddr: seq<Byte>, r: Range, p: Packet)
    ensures Eval(EgressRule(queue, tcp, saddr, r), p, [])
            == if p.saddr == saddr && p.l4proto == Number(tcp) && Contains(r, p.sport) then Some(queue) else None
  {
    var between := PortsBetween(SourcePort, r, queue);
    var rest := [Load(SourceAddress), Cmp(Eq, saddr)] + between;
    assert EgressRule(queue, tcp, saddr, r) == [Load(L4Proto), Cmp(Eq, [Number(tcp)])] + rest;
    EvalTest(L4Proto, Eq, [Number(tcp)], rest, p, []);
    EvalTest(SourceAddress, Eq, saddr, between, p, [p.l4proto]);
    PortsBetweenMeans(SourcePort, r, queue, p, p.saddr, p.sport);
  }

  lemma InSomeCons(rs: seq<Range>, p: Port)
    requires rs != []
    ensures InSome(rs, p) <==> Contains(rs[0], p) || InSome(rs[1..], p)
  {
    if InSome(rs[1..], p) {
      var i :| 0 <= i < |rs[1..]| && Contains(rs[1..][i], p);
      assert Contains(rs[i + 1], p);
    }
    if InSome(rs, p) {
      var i :| 0 <= i < |rs| && Contains(rs[i], p);
      assert i == 0 || Contains(rs[1..][i - 1], p);
    }
  }

  lemma VerdictCons(rules: seq<Rule>, rest: seq<Rule>, p: Packet)
    requires |rules| == |rest| + 1 && forall i :: 0 <= i < |rest| ==> rules[i + 1] == rest[i]
    ensures ChainVerdict(rules, p)
            == if Eval(rules[0], p, []).Some? then Eval(rules[0], p, []) else ChainVerdict(rest, p)
  {
    assert rules[1..] == rest;
  }

  /**
   The ingress table queues exactly what comes in on the interface for a port of the union
   and is of its protocol, 6 or 17.
   */
  lemma {:induction false} IngressRulesMean(queue: nat, iface: seq<Byte>, tcp: bool, rs: seq<Range>, p: Packet)
    ensures ChainVerdict(IngressRules(queue, iface, tcp, rs), p)
            == if p.iif == iface && p.l4proto == (if tcp then 6 else 17) && InSome(rs, p.dport) then Some(queue) else None
  {
    if rs != [] {
      IngressRuleMeans(queue, iface, tcp, rs[0], p);
      IngressRulesMean(queue, iface, tcp, rs[1..], p);
      InSomeCons(rs, p.dport);
      VerdictCons(IngressRules(queue, iface, tcp, rs), IngressRules(queue, iface, tcp, rs[1..]), p);
    }
  }

  /** The egress table queues exactly what leaves from the address and a port of the union. */
  lemma {:induction false} EgressRulesMean(queue: nat, tcp: bool, saddr: seq<Byte>, rs: seq<Range>, p: Packet)
    ensures ChainVerdict(EgressRules(queue, tcp, saddr, rs), p)
            == if p.saddr == saddr && p.l4proto == (if tcp then 6 else 17) && InSome(rs, p.sport) then Some(queue) else None
  {
    if rs != [] {
      EgressRuleMeans(queue, tcp, saddr, rs[0], p);
      EgressRulesMean(queue, tcp, saddr, rs[1..], p);
      InSomeCons(rs, p.sport);
      VerdictCons(EgressRules(queue, tcp, saddr, rs), EgressRules(queue, tcp, saddr, rs[1..]), p);
    }
  }

  // Batches

  datatype Message =
    | AddTable(table: TableName)
    | DelTable(table: TableName)
    | AddChain(table: TableName, chain: ChainName, hook: Hook)
    | AddRule(table: TableName, chain: ChainName, rule: Rule)

  /** Adding what exists changes nothing; removing or filling what does not exist fails. */
  function Apply(rs: Ruleset, m: Message): Option<Ruleset> {
    match m
    case AddTable(t) => Some(if t in rs then rs else rs[t := map[]])
    case DelTable(t) => if t in rs then Some(rs - {t}) else None
    case AddChain(t, c, hook) =>
      if t !in rs then None
      else if c in rs[t] then Some(rs)
      else Some(rs[t := rs[t][c := Chain(hook, [])]])
    case AddRule(t, c, rule) =>
      if t !in rs || c !in rs[t] then None
      else
        var chain := rs[t][c];
        Some(rs[t := rs[t][c := chain.(rules := chain.rules + [rule])]])
  }

  function ApplyAll(rs: Ruleset, batch: seq<Message>): Option<Ruleset> {
    if batch == [] then Some(rs)
    else
      var before :- ApplyAll(rs, batch[..|batch| - 1]);
      Apply(before, batch[|batch| - 1])
  }

  lemma ApplySnoc(rs: Ruleset, batch: seq<Message>, m: Message)
    ensures ApplyAll(rs, batch + [m])
            == if ApplyAll(rs, batch).Some? then Apply(ApplyAll(rs, batch).value, m) else None
  {
    assert (batch + [m])[..|batch|] == batch;
  }

  /** The messages before the rules: the table is made anew, with one chain. */
  function Preamble(t: TableName, c: ChainName, hook: Hook): seq<Message> {
    [AddTable(t), DelTable(t), AddTable(t), AddChain(t, c, hook)]
  }

  /** Whatever the table held before, it holds one chain of these rules; others are as before. */
  function Reset(rs: Ruleset, t: TableName, c: ChainName, chain: Chain): Ruleset {
    rs[t := map[c := chain]]
  }

  lemma PreambleResets(rs: Ruleset, t: TableName, c: ChainName, hook: Hook)
    ensures ApplyAll(rs, Preamble(t, c, hook)) == Some(Reset(rs, t, c, Chain(hook, [])))
  {
    ApplySnoc(rs, [], AddTable(t));
    ApplySnoc(rs, [AddTable(t)], DelTable(t));
    ApplySnoc(rs, [AddTable(t), DelTable(t)], AddTable(t));
    ApplySnoc(rs, [AddTable(t), DelTable(t), AddTable(t)], AddChain(t, c, hook));
    assert [] + [AddTable(t)] == [AddTable(t)];
    assert [AddTable(t)] + [DelTable(t)] == [AddTable(t), DelTable(t)];
    assert [AddTable(t), DelTable(t)] + [AddTable(t)] == [AddTable(t), DelTable(t), AddTable(t)];
    assert [AddTable(t), DelTable(t), AddTable(t)] + [AddChain(t, c, hook)] == Preamble(t, c, hook);
    var empty: map<ChainName, Chain> := map[];
    var made := ApplyAll(rs, [AddTable(t), DelTable(t), AddTable(t)]).value;
    assert made == rs[t := empty];
    assert empty[c := Chain(hook, [])] == map[c := Chain(hook, [])];
    assert made[t := map[c := Chain(hook, [])]] == Reset(rs, t, c, Chain(hook, []));
  }

  lemma RuleAppends(rs: Ruleset, t: TableName, c: ChainName, chain: Chain, rule: Rule)
    ensures Apply(Reset(rs, t, c, chain), AddRule(t, c, rule))
            == Some(Reset(rs, t, c, chain.(rules := chain.rules + [rule])))
  {
    var longer := chain.(rules := chain.rules + [rule]);
    var was := map[c := chain];
    assert was[c := longer] == map[c := longer];
    assert Reset(rs, t, c, chain)[t := map[c := longer]] == Reset(rs, t, c, longer);
  }

  datatype Error = UnsupportedProtocol(p: Protocol) | IoNftnl

  /** The kernel's ruleset; a batch is applied as a whole or not at all. */
  class Kernel {
    var ruleset: Ruleset

    constructor (ruleset: Ruleset)
      ensures this.ruleset == ruleset
    {
      this.ruleset := ruleset;
    }

    method SendAndProcess(batch: seq<Message>) returns (ok: bool)
      modifies this
      ensures ok ==> Some(ruleset) == ApplyAll(old(ruleset), batch)
      ensures !ok ==> ruleset == old(ruleset)
    {
      var after := ApplyAll(ruleset, batch);
      ok := *;
      if after.None? { ok := false; }
      if ok { ruleset := after.value; }
    }
  }

  method AddIngressSink(kernel: Kernel, queue: nat, iface: seq<Byte>, protocol: Protocol, ranges: seq<Range>)
    returns (r: Result<bool, Error>)
    modifies kernel
    ensures protocol.Unsupported? ==> r == Failure(UnsupportedProtocol(protocol))
    ensures r.Failure? ==> kernel.ruleset == old(kernel.ruleset)
    ensures r.Success? ==>
              kernel.ruleset == Reset(old(kernel.ruleset), TableName(protocol.TCP?, queue), PREROUTING,
                                      Chain(PreRouting, IngressRules(queue, iface, protocol.TCP?, ranges)))
    ensures r.Success? ==>
              forall p: Packet ::
                TableVerdict(kernel.ruleset, TableName(protocol.TCP?, queue), PreRouting, p)
                == if p.iif == iface && p.l4proto == (if protocol.TCP? then 6 else 17) && InSome(ranges, p.dport)
                   then Some(queue) else None
  {
    if protocol.Unsupported? { return Failure(UnsupportedProtocol(protocol)); }
    var table := TableName(protocol.TCP?, queue);
    var batch := Preamble(table, PREROUTING, PreRouting);
    PreambleResets(kernel.ruleset, table, PREROUTING, PreRouting);
    for i := 0 to |ranges|
      invariant kernel.ruleset == old(kernel.ruleset)
      invariant ApplyAll(kernel.ruleset, batch)
                == Some(Reset(kernel.ruleset, table, PREROUTING,
                              Chain(PreRouting, IngressRules(queue, iface, protocol.TCP?, ranges[..i]))))
    {
      var rule: Rule := [Load(IifName), Cmp(Eq, iface)];
      rule := rule + [Load(L4Proto), Cmp(Eq, [Number(protocol.TCP?)])];
      rule := rule + [Load(DestinationPort), Cmp(Gte, BigEndian(ranges[i].from))];
      rule := rule + [Load(DestinationPort), Cmp(Lte, BigEndian(ranges[i].to))];
      rule := rule + [Queue(queue)];
      assert rule == IngressRule(queue, iface, protocol.TCP?, ranges[i]);
      ghost var chain := Chain(PreRouting, IngressRules(queue, iface, protocol.TCP?, ranges[..i]));
      assert IngressRules(queue, iface, protocol.TCP?, ranges[..i + 1]) == chain.rules + [rule];
      RuleAppends(kernel.ruleset, table, PREROUTING, chain, rule);
      ApplySnoc(kernel.ruleset, batch, AddRule(table, PREROUTING, rule));
      batch := batch + [AddRule(table, PREROUTING, rule)];
    }
    assert ranges[..|ranges|] == ranges;
    forall p: Packet { IngressRulesMean(queue, iface, protocol.TCP?, ranges, p); }
    var ok := kernel.SendAndProcess(batch);
    return if ok then Success(true) else Failure(IoNftnl);
  }

  method AddEgressSink(kernel: Kernel, queue: nat, protocol: Protocol, saddr: seq<Byte>, ranges: seq<Range>)
    returns (r: Result<bool, Error>)
    modifies kernel
    ensures protocol.Unsupported? ==> r == Failure(UnsupportedProtocol(protocol))
    ensures r.Failure? ==> kernel.ruleset == old(kernel.ruleset)
    ensures r.Success? ==>
              kernel.ruleset == Reset(old(kernel.ruleset), TableName(protocol.TCP?, queue), OUTPUT,
                                      Chain(Out, EgressRules(queue, protocol.TCP?, saddr, ranges)))
    ensures r.Success? ==>
              forall p: Packet ::
                TableVerdict(kernel.ruleset, TableName(protocol.TCP?, queue), Out, p)
                == if p.saddr == saddr && p.l4proto == (if protocol.TCP? then 6 else 17) && InSome(ranges, p.sport)
                   then Some(queue) else None
  {
    if protocol.Unsupported? { return Failure(UnsupportedProtocol(protocol)); }
    var table := TableName(protocol.TCP?, queue);
    var batch := Preamble(table, OUTPUT, Out);
    PreambleResets(kernel.ruleset, table, OUTPUT, Out);
    for i := 0 to |ranges|
      invariant kernel.ruleset == old(kernel.ruleset)
      invariant ApplyAll(kernel.ruleset, batch)
                == Some(Reset(kernel.ruleset, table, OUTPUT,
                              Chain(Out, EgressRules(queue, protocol.TCP?, saddr, ranges[..i]))))
    {
      var rule: Rule := [Load(L4Proto), Cmp(Eq, [Number(protocol.TCP?)])];
      rule := rule + [Load(SourceAddress), Cmp(Eq, saddr)];
      rule := rule + [Load(SourcePort), Cmp(Gte, BigEndian(ranges[i].from))];
      rule := rule + [Load(SourcePort), Cmp(Lte, BigEndian(ranges[i].to))];
      rule := rule + [Queue(queue)];
      assert rule == EgressRule(queue, protocol.TCP?, saddr, ranges[i]);
      ghost var chain := Chain(Out, EgressRules(queue, protocol.TCP?, saddr, ranges[..i]));
      assert EgressRules(queue, protocol.TCP?, saddr, ranges[..i + 1]) == chain.rules + [rule];
      RuleAppends(kernel.ruleset, table, OUTPUT, chain, rule);
      ApplySnoc(kernel.ruleset, batch, AddRule(table, OUTPUT, rule));
      batch := batch + [AddRule(table, OUTPUT, rule)];
    }
    assert ranges[..|ranges|] == ranges;
    forall p: Packet { EgressRulesMean(queue, protocol.TCP?, saddr, ranges, p); }
    var ok := kernel.SendAndProcess(batch);
    return if ok then Success(true) else Failure(IoNftnl);
  }
}

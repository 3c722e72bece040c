/**
 From configuration to captured packets: the overlap check, the two setups, and the
 agreement of host and enclave about which ports are the enclave's.
 */
module Steering {
  import opened Wrappers
  import opened Octets
  import opened Ports
  import opened Netfilter
  import RecordJson

  datatype HostConfig = HostConfig(
    interface: seq<Byte>,
    enclavePorts: seq<Range>,
    enclaveEphemeral: Range,
    hostEphemeral: Range,
    queue: nat)

  /** All ranges of the enclave, in the order in which rules are made for them. */
  function EnclaveRanges(cfg: HostConfig): seq<Range> {
    cfg.enclavePorts + [cfg.enclaveEphemeral]
  }

  /** A service port or an ephemeral port of the enclave. */
  predicate EnclavePort(service: seq<Range>, ephemeral: Range, p: Port) {
    InSome(service, p) || Contains(ephemeral, p)
  }

  lemma EnclavePortInSome(service: seq<Range>, ephemeral: Range, p: Port)
    ensures InSome(service + [ephemeral], p) <==> EnclavePort(service, ephemeral, p)
  {
    var rs := service + [ephemeral];
    if InSome(service, p) {
      var i :| 0 <= i < |service| && Contains(service[i], p);
      assert Contains(rs[i], p);
    }
    if Contains(ephemeral, p) {
      assert Contains(rs[|service|], p);
    }
  }

  /** Every range comes from the port range parser. */
  predicate AllNormalised(cfg: HostConfig) {
    && Normalised(cfg.hostEphemeral)
    && forall i :: 0 <= i < |EnclaveRanges(cfg)| ==> Normalised(EnclaveRanges(cfg)[i])
  }

  // The overlap check

  datatype ConfigError = EphemeralOverlap | ServiceOverlap

  predicate EndpointInside(host: Range, r: Range) {
    Contains(host, r.from) || Contains(host, r.to)
  }

  /** `ensure_no_port_overlaps`. */
  function EnsureNoPortOverlaps(cfg: HostConfig): Option<ConfigError> {
    if EndpointInside(cfg.hostEphemeral, cfg.enclaveEphemeral) then Some(EphemeralOverlap)
    else if exists i :: 0 <= i < |cfg.enclavePorts| && EndpointInside(cfg.hostEphemeral, cfg.enclavePorts[i])
    then Some(ServiceOverlap)
    else None
  }

  /** Some port is in both ranges. */
  ghost predicate Meets(a: Range, b: Range) {
    exists p: Port :: Contains(a, p) && Contains(b, p)
  }

  predicate StrictlyEncloses(outer: Range, inner: Range) {
    outer.from < inner.from && inner.to < outer.to
  }

  lemma MeetsByEndpoints(host: Range, r: Range)
    requires Normalised(host) && Normalised(r)
    ensures EndpointInside(host, r) <==> Meets(r, host) && !StrictlyEncloses(r, host)
    ensures StrictlyEncloses(r, host) ==> Meets(r, host)
  {
    if EndpointInside(host, r) {
      assert Contains(r, r.from) && Contains(r, r.to);
    }
    if StrictlyEncloses(r, host) {
      assert Contains(r, host.from) && Contains(host, host.from);
    }
  }

  /**
   The check rejects a configuration exactly if some enclave range meets the host's
   ephemeral range without strictly enclosing it.
   */
  lemma RejectedExactly(cfg: HostConfig)
    requires AllNormalised(cfg)
    ensures EnsureNoPortOverlaps(cfg).Some? <==>
            exists i :: 0 <= i < |EnclaveRanges(cfg)|
                        && Meets(EnclaveRanges(cfg)[i], cfg.hostEphemeral)
                        && !StrictlyEncloses(EnclaveRanges(cfg)[i], cfg.hostEphemeral)
    ensures EnsureNoPortOverlaps(cfg) == Some(EphemeralOverlap) <==>
            Meets(cfg.enclaveEphemeral, cfg.hostEphemeral)
            && !StrictlyEncloses(cfg.enclaveEphemeral, cfg.hostEphemeral)
  {
    var rs, host := EnclaveRanges(cfg), cfg.hostEphemeral;
    forall i | 0 <= i < |rs|
      ensures EndpointInside(host, rs[i]) <==> Meets(rs[i], host) && !StrictlyEncloses(rs[i], host)
    {
      MeetsByEndpoints(host, rs[i]);
    }
    assert rs[|cfg.enclavePorts|] == cfg.enclaveEphemeral;
    assert forall i :: 0 <= i < |cfg.enclavePorts| ==> rs[i] == cfg.enclavePorts[i];
  }

  /** Some enclave range strictly encloses the host's ephemeral range. */
  predicate Enclosed(cfg: HostConfig) {
    exists i :: 0 <= i < |EnclaveRanges(cfg)| && StrictlyEncloses(EnclaveRanges(cfg)[i], cfg.hostEphemeral)
  }

  /**
   In an accepted configuration, the enclave's ports and the host's ephemeral ports are
   disjoint exactly if no enclave range strictly encloses the host's range.
   */
  lemma DisjointExactly(cfg: HostConfig)
    requires AllNormalised(cfg) && EnsureNoPortOverlaps(cfg).None?
    ensures (forall p: Port :: Contains(cfg.hostEphemeral, p) ==> !InSome(EnclaveRanges(cfg), p))
            <==> !Enclosed(cfg)
  {
    var rs, host := EnclaveRanges(cfg), cfg.hostEphemeral;
    RejectedExactly(cfg);
    if Enclosed(cfg) {
      var i :| 0 <= i < |rs| && StrictlyEncloses(rs[i], host);
      assert Contains(rs[i], host.from) && Contains(host, host.from);
      assert InSome(rs, host.from);
    }
    forall p: Port, i | Contains(host, p) && 0 <= i < |rs| && Contains(rs[i], p)
      ensures Meets(rs[i], host)
    {
    }
  }

  const EXAMPLE := HostConfig([], [Range(30000, 50000)], Range(60000, 60999), Range(32768, 39999), 0)

  /** An enclosing range is accepted, although its ports overlap with the host's. */
  lemma EnclosingIsAccepted()
    ensures AllNormalised(EXAMPLE) && EnsureNoPortOverlaps(EXAMPLE).None?
    ensures Meets(EXAMPLE.enclavePorts[0], EXAMPLE.hostEphemeral)
  {
    assert Contains(EXAMPLE.enclavePorts[0], 32768) && Contains(EXAMPLE.hostEphemeral, 32768);
  }

  /** What the options are documented to require of each other. */
  ghost predicate AsDocumented(cfg: HostConfig) {
    && !Meets(cfg.enclaveEphemeral, cfg.hostEphemeral)
    && forall i :: 0 <= i < |cfg.enclavePorts| ==>
         !Meets(cfg.enclavePorts[i], cfg.hostEphemeral) && !Meets(cfg.enclavePorts[i], cfg.enclaveEphemeral)
  }

  predicate Before(a: Range, b: Range) {
    a.to < b.from
  }

  /**
   The check accepts all that is documented to be fine. What it accepts is fine exactly
   if no range encloses the host's and each service range lies wholly before or after the
   enclave's ephemeral range, which the check does not look at.
   */
  lemma DocumentedExactly(cfg: HostConfig)
    requires AllNormalised(cfg)
    ensures AsDocumented(cfg) ==> EnsureNoPortOverlaps(cfg).None?
    ensures EnsureNoPortOverlaps(cfg).None? ==>
              (AsDocumented(cfg) <==>
               !Enclosed(cfg)
               && forall i :: 0 <= i < |cfg.enclavePorts| ==>
                    Before(cfg.enclavePorts[i], cfg.enclaveEphemeral)
                    || Before(cfg.enclaveEphemeral, cfg.enclavePorts[i]))
  {
    var rs, host := EnclaveRanges(cfg), cfg.hostEphemeral;
    RejectedExactly(cfg);
    forall i | 0 <= i < |rs|
      ensures StrictlyEncloses(rs[i], host) ==> Meets(rs[i], host)
    {
      MeetsByEndpoints(host, rs[i]);
    }
    assert rs[|cfg.enclavePorts|] == cfg.enclaveEphemeral;
    assert forall i :: 0 <= i < |cfg.enclavePorts| ==> rs[i] == cfg.enclavePorts[i];
    forall i | 0 <= i < |cfg.enclavePorts|
      ensures Meets(rs[i], cfg.enclaveEphemeral)
              <==> !Before(rs[i], cfg.enclaveEphemeral) && !Before(cfg.enclaveEphemeral, rs[i])
    {
      MeetsByBounds(rs[i], rs[|cfg.enclavePorts|]);
    }
  }

  lemma MeetsByBounds(a: Range, b: Range)
    requires Normalised(a) && Normalised(b)
    ensures Meets(a, b) <==> !Before(a, b) && !Before(b, a)
  {
    if !Before(a, b) && !Before(b, a) {
      var p := if a.from <= b.from then b.from else a.from;
      assert Contains(a, p) && Contains(b, p);
    }
  }

  const OVERLAPPING_SERVICE := HostConfig([], [Range(45000, 45000)], Range(40000, 60999), Range(32768, 39999), 0)

  lemma ServiceInsideEphemeralIsAccepted()
    ensures AllNormalised(OVERLAPPING_SERVICE) && EnsureNoPortOverlaps(OVERLAPPING_SERVICE).None?
    ensures !AsDocumented(OVERLAPPING_SERVICE)
  {
    assert Contains(Range(45000, 45000), 45000) && Contains(Range(40000, 60999), 45000);
    assert Meets(OVERLAPPING_SERVICE.enclavePorts[0], OVERLAPPING_SERVICE.enclaveEphemeral);
  }

  // The setups

  datatype Error = InvalidConfig(c: ConfigError) | EphemeralPorts | Rules(n: Netfilter.Error)

  function HostTcpRuleset(rs: Ruleset, cfg: HostConfig): Ruleset {
    Reset(rs, TableName(true, cfg.queue), PREROUTING,
          Chain(PreRouting, IngressRules(cfg.queue, cfg.interface, true, EnclaveRanges(cfg))))
  }

  /** The tables that the host makes for a queue. */
  function HostRuleset(rs: Ruleset, cfg: HostConfig): Ruleset {
    Reset(HostTcpRuleset(rs, cfg), TableName(false, cfg.queue), PREROUTING,
          Chain(PreRouting, IngressRules(cfg.queue, cfg.interface, false, EnclaveRanges(cfg))))
  }

  /** `setup` of the host; writing the ephemeral port range may fail. */
  method HostSetup(cfg: HostConfig, kernel: Kernel) returns (r: Result<(), Error>)
    modifies kernel
    ensures r.Success? ==> EnsureNoPortOverlaps(cfg).None? && kernel.ruleset == HostRuleset(old(kernel.ruleset), cfg)
    ensures r.Success? ==>
              forall p: Packet ::
                Captured(kernel.ruleset, cfg.queue, PreRouting, p)
                <==> p.iif == cfg.interface && TcpOrUdp(p) && EnclavePort(cfg.enclavePorts, cfg.enclaveEphemeral, p.dport)
    ensures EnsureNoPortOverlaps(cfg).Some? ==>
              r == Failure(InvalidConfig(EnsureNoPortOverlaps(cfg).value)) && kernel.ruleset == old(kernel.ruleset)
    ensures r.Failure? ==>
              kernel.ruleset == old(kernel.ruleset) || kernel.ruleset == HostTcpRuleset(old(kernel.ruleset), cfg)
  {
    var overlap := EnsureNoPortOverlaps(cfg);
    if overlap.Some? { return Failure(InvalidConfig(overlap.value)); }
    if * { return Failure(EphemeralPorts); }
    var dstPorts := cfg.enclavePorts;
    dstPorts := dstPorts + [cfg.enclaveEphemeral];
    var added := AddIngressSink(kernel, cfg.queue, cfg.interface, TCP, dstPorts);
    if added.Failure? { return Failure(Rules(added.error)); }
    added := AddIngressSink(kernel, cfg.queue, cfg.interface, UDP, dstPorts);
    if added.Failure? { return Failure(Rules(added.error)); }
    forall p: Packet { HostCaptures(old(kernel.ruleset), cfg, p); }
    return Success(());
  }

  /** `Record::new`, with the address and the MTU of the interface. */
  function NewRecord(cfg: HostConfig, address: string, mtu: RecordJson.Int32): RecordJson.Record {
    RecordJson.Record(address, mtu, cfg.enclaveEphemeral, cfg.enclavePorts)
  }

  function EnclaveTcpRuleset(rs: Ruleset, queue: nat, saddr: seq<Byte>, ranges: seq<Range>): Ruleset {
    Reset(rs, TableName(true, queue), OUTPUT, Chain(Out, EgressRules(queue, true, saddr, ranges)))
  }

  /** The tables that the enclave makes for a queue. */
  function EnclaveRuleset(rs: Ruleset, queue: nat, saddr: seq<Byte>, ranges: seq<Range>): Ruleset {
    Reset(EnclaveTcpRuleset(rs, queue, saddr, ranges), TableName(false, queue), OUTPUT, Chain(Out, EgressRules(queue, false, saddr, ranges)))
  }

  /** `setup` of the enclave, from the address on that the record names. */
  method EnclaveSetup(queue: nat, record: RecordJson.Record, saddr: seq<Byte>, kernel: Kernel)
    returns (r: Result<(), Error>)
    modifies kernel
    ensures r.Success? ==>
              kernel.ruleset == EnclaveRuleset(old(kernel.ruleset), queue, saddr, record.service + [record.ephemeral])
    ensures r.Success? ==>
              forall p: Packet ::
                Captured(kernel.ruleset, queue, Out, p)
                <==> p.saddr == saddr && TcpOrUdp(p) && EnclavePort(record.service, record.ephemeral, p.sport)
    ensures r.Failure? ==>
              || kernel.ruleset == old(kernel.ruleset)
              || kernel.ruleset
                 == EnclaveTcpRuleset(old(kernel.ruleset), queue, saddr, record.service + [record.ephemeral])
  {
    if * { return Failure(EphemeralPorts); }
    var srcPorts := record.service;
    srcPorts := srcPorts + [record.ephemeral];
    var added := AddEgressSink(kernel, queue, TCP, saddr, srcPorts);
    if added.Failure? { return Failure(Rules(added.error)); }
    added := AddEgressSink(kernel, queue, UDP, saddr, srcPorts);
    if added.Failure? { return Failure(Rules(added.error)); }
    forall p: Packet { RecordCaptures(old(kernel.ruleset), queue, saddr, record, p); }
    return Success(());
  }

  // What is captured

  /** The protocol numbers of TCP and UDP. */
  predicate TcpOrUdp(p: Packet) {
    p.l4proto == 6 || p.l4proto == 17
  }

  /** The host captures what comes in on the interface for a port of the enclave. */
  lemma HostCaptures(rs: Ruleset, cfg: HostConfig, p: Packet)
    ensures Captured(HostRuleset(rs, cfg), cfg.queue, PreRouting, p)
            <==> p.iif == cfg.interface && TcpOrUdp(p) && EnclavePort(cfg.enclavePorts, cfg.enclaveEphemeral, p.dport)
    // and each table one protocol
    ensures TableVerdict(HostRuleset(rs, cfg), TableName(true, cfg.queue), PreRouting, p).Some? ==> p.l4proto == 6
    ensures TableVerdict(HostRuleset(rs, cfg), TableName(false, cfg.queue), PreRouting, p).Some? ==> p.l4proto == 17
  {
    IngressRulesMean(cfg.queue, cfg.interface, true, EnclaveRanges(cfg), p);
    IngressRulesMean(cfg.queue, cfg.interface, false, EnclaveRanges(cfg), p);
    EnclavePortInSome(cfg.enclavePorts, cfg.enclaveEphemeral, p.dport);
  }

  lemma EnclaveCaptures(rs: Ruleset, queue: nat, saddr: seq<Byte>, ranges: seq<Range>, p: Packet)
    ensures Captured(EnclaveRuleset(rs, queue, saddr, ranges), queue, Out, p)
            <==> p.saddr == saddr && TcpOrUdp(p) && InSome(ranges, p.sport)
    ensures TableVerdict(EnclaveRuleset(rs, queue, saddr, ranges), TableName(true, queue), Out, p).Some? ==> p.l4proto == 6
    ensures TableVerdict(EnclaveRuleset(rs, queue, saddr, ranges), TableName(false, queue), Out, p).Some? ==> p.l4proto == 17
  {
    EgressRulesMean(queue, true, saddr, ranges, p);
    EgressRulesMean(queue, false, saddr, ranges, p);
  }

  /** The same for the ranges of a record. */
  lemma RecordCaptures(rs: Ruleset, queue: nat, saddr: seq<Byte>, record: RecordJson.Record, p: Packet)
    ensures Captured(EnclaveRuleset(rs, queue, saddr, record.service + [record.ephemeral]), queue, Out, p)
            <==> p.saddr == saddr && TcpOrUdp(p) && EnclavePort(record.service, record.ephemeral, p.sport)
  {
    EnclaveCaptures(rs, queue, saddr, record.service + [record.ephemeral], p);
    EnclavePortInSome(record.service, record.ephemeral, p.sport);
  }

  /** The answer to a packet, sent from `saddr`: the ports change places. */
  function Reply(p: Packet, saddr: seq<Byte>, iif: seq<Byte>): Packet {
    Packet(iif, p.l4proto, saddr, p.dport, p.sport)
  }

  /**
   However the record got across, the host captures a packet that comes in on its
   interface exactly if the enclave, set up from the record that it parsed, captures the
   answer from its bootstrapped address.
   */
  lemma SteeringIsSymmetric(cfg: HostConfig, address: string, mtu: RecordJson.Int32, read: RecordJson.Record,
                            rsHost: Ruleset, rsEnclave: Ruleset, queue: nat, saddr: seq<Byte>, p: Packet, iif: seq<Byte>)
    requires RecordJson.Parse(RecordJson.Print(NewRecord(cfg, address, mtu))) == Some(read)
    requires p.iif == cfg.interface
    ensures read.address == address && read.mtu == mtu
    ensures Captured(HostRuleset(rsHost, cfg), cfg.queue, PreRouting, p)
            <==> Captured(EnclaveRuleset(rsEnclave, queue, saddr, read.service + [read.ephemeral]), queue, Out,
                          Reply(p, saddr, iif))
  {
    RecordJson.PrintParses(NewRecord(cfg, address, mtu));
    HostCaptures(rsHost, cfg, p);
    RecordCaptures(rsEnclave, queue, saddr, read, Reply(p, saddr, iif));
  }

  /**
   In an accepted configuration, packets to the host's own ephemeral ports are left alone
   exactly if no enclave range strictly encloses those ports.
   */
  lemma HostPortsLeftAlone(rs: Ruleset, cfg: HostConfig)
    requires AllNormalised(cfg) && EnsureNoPortOverlaps(cfg).None?
    ensures (forall p: Packet :: Contains(cfg.hostEphemeral, p.dport) ==>
                                   !Captured(HostRuleset(rs, cfg), cfg.queue, PreRouting, p))
            <==> !Enclosed(cfg)
  {
    DisjointExactly(cfg);
    forall p: Packet ensures Captured(HostRuleset(rs, cfg), cfg.queue, PreRouting, p) ==> InSome(EnclaveRanges(cfg), p.dport) {
      HostCaptures(rs, cfg, p);
      EnclavePortInSome(cfg.enclavePorts, cfg.enclaveEphemeral, p.dport);
    }
    if Enclosed(cfg) {
      var port: Port :| Contains(cfg.hostEphemeral, port) && InSome(EnclaveRanges(cfg), port);
      var p := Packet(cfg.interface, 6, [], 0, port);
      HostCaptures(rs, cfg, p);
      EnclavePortInSome(cfg.enclavePorts, cfg.enclaveEphemeral, port);
      assert Contains(cfg.hostEphemeral, p.dport) && Captured(HostRuleset(rs, cfg), cfg.queue, PreRouting, p);
    }
  }
}

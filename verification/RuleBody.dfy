/** The kernel encoding of one rule (struct scrub_rule) and how XDP matches a
    packet against it (rule_match in pkg/collector/ebpf/c/protector.bpf.c). */
module RuleBody {
  import opened Prefixes
  import P = PortRanges
  import S = SourceList

  /** A bit field, as the positions of the bits that are set: `*` is bitwise and. */
  type Bits = set<nat>

  datatype RuleAction = Drop | RateLimit | Pass
  datatype FragmentRule = FragAny | FragOnly | FragNone

  /** `protos` is the ProtoBits bitmap; `lenTo` 0 means any length. */
  datatype ScrubRule = ScrubRule(
    action: RuleAction, rateWindowNs: nat, rateBudget: nat,
    anyProto: bool, protos: set<nat>,
    srcPorts: seq<P.Range>, dstPorts: seq<P.Range>,
    lenFrom: nat, lenTo: nat,
    tcpFlagsMask: Bits, tcpFlagsValue: Bits,
    fragment: FragmentRule,
    sources: S.Sources)

  /** The fields of a packet rules look at (struct rule_pkt). */
  datatype Packet = Packet(
    v4: bool, src: seq<Bit>, dst: seq<Bit>, len: nat,
    proto: nat, isFrag: bool,
    hasTcp: bool, tcpFlags: Bits,
    hasPorts: bool, sport: nat, dport: nat)

  predicate WellFormedPacket(p: Packet) {
    |p.src| == Width(p.v4) && |p.dst| == Width(p.v4)
  }

  predicate HeaderMatch(r: ScrubRule, p: Packet) {
    && (r.anyProto || p.proto in r.protos)
    && !(r.fragment == FragOnly && !p.isFrag)
    && !(r.fragment == FragNone && p.isFrag)
    && !(r.lenTo != 0 && (p.len < r.lenFrom || p.len > r.lenTo))
    && !(r.tcpFlagsMask != {} && (!p.hasTcp || p.tcpFlags * r.tcpFlagsMask != r.tcpFlagsValue))
  }

  predicate PortMatch(srcPorts: seq<P.Range>, dstPorts: seq<P.Range>, p: Packet) {
    && !((srcPorts != [] || dstPorts != []) && !p.hasPorts)
    && P.RangeMatch(srcPorts, p.sport) && P.RangeMatch(dstPorts, p.dport)
  }

  /** rule_match. */
  predicate RuleMatch(r: ScrubRule, p: Packet) {
    HeaderMatch(r, p) && PortMatch(r.srcPorts, r.dstPorts, p) && S.SrcMatch(r.sources, p.v4, p.src)
  }
}

/** Which rules Parse refuses (pkg/scrubrules/scrubrules.go): those it has no room to
    encode, and those whose conditions no packet can meet together. */
module RuleMatchable {
  import opened Basics
  import opened Prefixes
  import opened RuleBody
  import opened RuleParse
  import P = PortRanges
  import S = SourceList

  /** A packet as XDP describes it (rule_pkt_v4, rule_pkt_v6 and rule_pkt_ports): only
      TCP has flags, and only TCP and UDP have ports. */
  predicate Described(p: Packet) {
    && WellFormedPacket(p)
    && p.proto <= 255 && p.len <= 65535 && p.sport <= 65535 && p.dport <= 65535
    && (p.hasTcp ==> p.proto == PROTO_TCP && p.hasPorts)
    && (p.hasPorts ==> p.proto == PROTO_TCP || p.proto == PROTO_UDP)
    && (forall b :: b in p.tcpFlags ==> b < 8)
  }

  /** The rule has all its parts, they fit their fields, and none is stated that would
      be ignored: a rate without a rate limit, the start of a length range without
      its end, or flags outside an empty mask. */
  predicate Encodable(pr: ProtoRule) {
    && pr.id != [] && Parsed(pr.dst) && pr.expires.Some?
    && (match pr.action
        case ActionUnsupported => false
        case ActionRateLimit => pr.ratePps > 0
        case _ => pr.ratePps == 0)
    && (forall x :: x in pr.protocols ==> x <= 255)
    && |pr.srcPorts| <= P.RULE_MAX_RANGES && (forall i :: 0 <= i < |pr.srcPorts| ==> P.ValidRange(pr.srcPorts[i]))
    && |pr.dstPorts| <= P.RULE_MAX_RANGES && (forall i :: 0 <= i < |pr.dstPorts| ==> P.ValidRange(pr.dstPorts[i]))
    && pr.pktLen.to <= 65535 && (pr.pktLen.to == 0 ==> pr.pktLen.from == 0)
    && (forall b :: b in pr.tcpFlagsMask ==> b < 8) && (forall b :: b in pr.tcpFlagsValue ==> b < 8)
    && (pr.tcpFlagsMask == {} ==> pr.tcpFlagsValue == {})
    && SourcesOk(pr, pr.dst.value.v4)
  }

  /** Some packet to the rule's destination meets its conditions. */
  ghost predicate Matchable(pr: ProtoRule)
    requires Encodable(pr)
  {
    exists p :: Described(p) && CoversPrefix(pr.dst.value, Prefix(p.v4, p.dst)) && Intended(pr, p)
  }

  /** A protocol the rule allows, one with what its conditions look at. */
  function SomeProto(pr: ProtoRule): nat {
    if pr.tcpFlagsMask != {} then PROTO_TCP
    else if pr.srcPorts != [] || pr.dstPorts != [] then if Allows(pr, PROTO_TCP) then PROTO_TCP else PROTO_UDP
    else if pr.protocols == [] then PROTO_TCP
    else pr.protocols[0]
  }

  function SomePort(rs: seq<P.Range>): nat {
    if rs == [] then 0 else rs[0].from
  }

  /** A packet that meets all conditions of a sound rule. */
  function SomePacket(pr: ProtoRule): Packet
    requires Sound(pr)
  {
    var proto := SomeProto(pr);
    Packet(pr.dst.value.v4,
           if pr.sources == [] then Addr(Prefix(pr.dst.value.v4, [])) else Addr(pr.sources[0].value),
           Addr(pr.dst.value),
           pr.pktLen.to, proto, pr.fragment == Some(true),
           proto == PROTO_TCP, pr.tcpFlagsValue,
           proto == PROTO_TCP || proto == PROTO_UDP, SomePort(pr.srcPorts), SomePort(pr.dstPorts))
  }

  lemma SomePortIn(rs: seq<P.Range>)
    requires PortsOk(rs)
    ensures SomePort(rs) <= 65535 && (rs != [] ==> P.InSome(rs, SomePort(rs)))
  {
    assert rs != [] ==> P.ValidRange(rs[0]) && P.Contains(rs[0], SomePort(rs));
  }

  lemma SoundMatches(pr: ProtoRule)
    requires Sound(pr)
    ensures Described(SomePacket(pr)) && Intended(pr, SomePacket(pr))
    ensures CoversPrefix(pr.dst.value, Prefix(pr.dst.value.v4, SomePacket(pr).dst))
  {
    SomePortIn(pr.srcPorts);
    SomePortIn(pr.dstPorts);
    assert pr.tcpFlagsValue * pr.tcpFlagsMask == pr.tcpFlagsValue;
    if pr.sources != [] {
      var srcs := SourcePrefixes(pr, pr.dst.value.v4);
      assert srcs[0].path <= SomePacket(pr).src;
      assert S.InSome(srcs, SomePacket(pr).src);
    }
  }

  lemma MatchableSound(pr: ProtoRule, p: Packet)
    requires Encodable(pr) && Described(p) && Intended(pr, p)
    ensures Sound(pr)
  {
    if pr.tcpFlagsMask != {} {
      assert pr.tcpFlagsValue == p.tcpFlags * pr.tcpFlagsMask;
    }
    assert forall i :: 0 <= i < |pr.protocols| ==> pr.protocols[i] in pr.protocols;
  }

  /** Parse refuses a rule that has not expired exactly when it cannot be encoded, or no
      packet could ever match it. In particular no accepted rule silently does
      nothing. */
  lemma RefusedIfUseless(pr: ProtoRule, now: int)
    requires Alive(pr, now)
    ensures Parse(pr, now).Ok? <==> Encodable(pr) && Matchable(pr)
  {
    if Sound(pr) {
      SoundMatches(pr);
    }
    if Encodable(pr) && Matchable(pr) {
      var p :| Described(p) && CoversPrefix(pr.dst.value, Prefix(p.v4, p.dst)) && Intended(pr, p);
      MatchableSound(pr, p);
    }
  }
}

/** Parse (pkg/scrubrules/scrubrules.go): a rule as a controller states it, its
    validation and its kernel encoding. */
module RuleParse {
  import opened Basics
  import opened Prefixes
  import opened RuleBody
  import opened RuleLayout
  import P = PortRanges
  import S = SourceList

  datatype ProtoAction = ActionDrop | ActionPass | ActionRateLimit | ActionUnsupported

  /** apiv1.Rule. Prefix strings stand for what netip.ParsePrefix makes of them,
      masked; `None` is a string it refuses. `restSize` is
      proto.Size without the id field. */
  datatype ProtoRule = ProtoRule(
    id: Bytes, priority: nat, dst: Option<Prefix>, expires: Option<int>,
    action: ProtoAction, ratePps: nat,
    protocols: seq<nat>, srcPorts: seq<P.Range>, dstPorts: seq<P.Range>,
    pktLen: P.Range, tcpFlagsMask: Bits, tcpFlagsValue: Bits, fragment: Option<bool>,
    sources: seq<Option<Prefix>>, restSize: nat)

  function VarintSize(n: nat): nat {
    if n < 128 then 1 else 1 + VarintSize(n / 128)
  }

  /** proto.Size: the id is field 1, left out when empty. */
  function ProtoSize(pr: ProtoRule): nat {
    pr.restSize + if pr.id == [] then 0 else 1 + VarintSize(|pr.id|) + |pr.id|
  }

  const PROTO_TCP: nat := 6
  const PROTO_UDP: nat := 17

  predicate Allows(pr: ProtoRule, proto: nat) {
    pr.protocols == [] || proto in pr.protocols
  }

  /** Windows of 100 ms, or of 1 s below 100 pps. */
  function RateWindow(pps: nat): (nat, nat) {
    if pps < 100 then (1_000_000_000, pps) else (100_000_000, pps / 10)
  }

  /** A positive rate never rounds to an empty budget, and the budgets of one
      second stay within the rate and less than ten packets short of it. */
  lemma RateWindowFaithful(pps: nat)
    requires pps > 0
    ensures var (window, budget) := RateWindow(pps);
            && budget > 0 && 1_000_000_000 % window == 0
            && pps - 10 < (1_000_000_000 / window) * budget <= pps
  {
    if pps >= 100 { assert 1_000_000_000 / 100_000_000 == 10; }
  }

  predicate Parsed(p: Option<Prefix>) {
    p.Some? && WellFormed(p.value)
  }

  predicate PortsOk(rs: seq<P.Range>) {
    |rs| <= P.RULE_MAX_RANGES && P.AllValid(rs)
  }

  /** At most 255. */
  predicate OneByte(bits: Bits) {
    forall b :: b in bits ==> b < 8
  }

  predicate LengthOk(l: P.Range) {
    (l.from == 0 && l.to == 0) || (l.from <= l.to <= 65535 && l.to != 0)
  }

  predicate SourcesOk(pr: ProtoRule, v4: bool) {
    && |pr.sources| <= S.RULE_MAX_SOURCES
    && forall i :: 0 <= i < |pr.sources| ==> Parsed(pr.sources[i]) && pr.sources[i].value.v4 == v4
  }

  function SourcePrefixes(pr: ProtoRule, v4: bool): (r: seq<Prefix>)
    requires SourcesOk(pr, v4)
    ensures |r| == |pr.sources| && S.OfFamily(r, v4)
    ensures forall i :: 0 <= i < |r| ==> r[i] == pr.sources[i].value
  {
    seq(|pr.sources|, i requires 0 <= i < |pr.sources| => pr.sources[i].value)
  }

  /** Everything Parse demands except that the rule is not expired yet. */
  predicate Sound(pr: ProtoRule) {
    && pr.id != []
    && Parsed(pr.dst) && pr.expires.Some?
    && pr.action != ActionUnsupported
    && (pr.action == ActionRateLimit <==> pr.ratePps != 0)
    && ((pr.srcPorts != [] || pr.dstPorts != []) ==> Allows(pr, PROTO_TCP) || Allows(pr, PROTO_UDP))
    && (pr.tcpFlagsMask != {} ==> Allows(pr, PROTO_TCP))
    && (forall i :: 0 <= i < |pr.protocols| ==> pr.protocols[i] <= 255)
    && PortsOk(pr.srcPorts) && PortsOk(pr.dstPorts)
    && LengthOk(pr.pktLen)
    && OneByte(pr.tcpFlagsMask) && OneByte(pr.tcpFlagsValue)
    && pr.tcpFlagsValue <= pr.tcpFlagsMask
    && SourcesOk(pr, pr.dst.value.v4)
  }

  /** The kernel encoding of a sound rule. */
  function Body(pr: ProtoRule): ScrubRule
    requires Sound(pr)
  {
    var (window, budget) := if pr.action == ActionRateLimit then RateWindow(pr.ratePps) else (0, 0);
    var action := match pr.action
      case ActionDrop => Drop
      case ActionPass => Pass
      case _ => RateLimit;
    ScrubRule(action, window, budget,
              pr.protocols == [], (set p | p in pr.protocols),
              P.Normalize(pr.srcPorts), P.Normalize(pr.dstPorts),
              pr.pktLen.from, pr.pktLen.to,
              pr.tcpFlagsMask, pr.tcpFlagsValue,
              match pr.fragment
              case None => FragAny
              case Some(only) => if only then FragOnly else FragNone,
              S.Encoded(SourcePrefixes(pr, pr.dst.value.v4), pr.dst.value.v4))
  }

  /** What Parse makes of a rule, expiry aside. */
  function Compile(pr: ProtoRule): Result<Rule> {
    if Sound(pr) then Ok(Rule(pr.id, pr.priority, pr.dst.value, pr.expires.value, Body(pr))) else Err
  }

  predicate Alive(pr: ProtoRule, now: int) {
    pr.expires.Some? && now < pr.expires.value
  }

  /** Parse: refused exactly when the rule is unsound or expired. */
  function Parse(pr: ProtoRule, now: int): Result<Rule> {
    if Alive(pr, now) then Compile(pr) else Err
  }

  predicate IntendedHeader(pr: ProtoRule, p: Packet) {
    && (pr.protocols != [] ==> p.proto in pr.protocols)
    && (pr.fragment.Some? ==> p.isFrag == pr.fragment.value)
    && (pr.pktLen.to != 0 ==> P.Contains(pr.pktLen, p.len))
    && (pr.tcpFlagsMask != {} ==> p.hasTcp && p.tcpFlags * pr.tcpFlagsMask == pr.tcpFlagsValue)
  }

  ghost predicate IntendedPorts(pr: ProtoRule, p: Packet) {
    && (pr.srcPorts != [] ==> p.hasPorts && P.InSome(pr.srcPorts, p.sport))
    && (pr.dstPorts != [] ==> p.hasPorts && P.InSome(pr.dstPorts, p.dport))
  }

  /** What a controller asks for: the conditions of the rule as stated. */
  ghost predicate Intended(pr: ProtoRule, p: Packet)
    requires Parsed(pr.dst) && SourcesOk(pr, pr.dst.value.v4)
  {
    && IntendedHeader(pr, p) && IntendedPorts(pr, p)
    && (pr.sources != [] ==> S.InSome(SourcePrefixes(pr, pr.dst.value.v4), p.src))
  }

  lemma NormalizeEmpty(rs: seq<P.Range>)
    requires P.AllValid(rs)
    ensures P.Normalize(rs) == [] <==> rs == []
  {
    P.NormalizeMeaning(rs);
    if rs != [] {
      assert P.Contains(rs[0], rs[0].from);
      assert P.InSome(rs, rs[0].from);
    }
  }

  lemma PortsMeaning(pr: ProtoRule, p: Packet)
    requires PortsOk(pr.srcPorts) && PortsOk(pr.dstPorts)
    ensures PortMatch(P.Normalize(pr.srcPorts), P.Normalize(pr.dstPorts), p) <==> IntendedPorts(pr, p)
  {
    P.PortMatchMeaning(pr.srcPorts, p.sport);
    P.PortMatchMeaning(pr.dstPorts, p.dport);
    NormalizeEmpty(pr.srcPorts);
    NormalizeEmpty(pr.dstPorts);
  }

  /** The parts of the encoding that XDP checks against the packet's headers. */
  predicate HeaderOf(b: ScrubRule, pr: ProtoRule) {
    && b.anyProto == (pr.protocols == []) && b.protos == (set x | x in pr.protocols)
    && b.lenFrom == pr.pktLen.from && b.lenTo == pr.pktLen.to
    && b.tcpFlagsMask == pr.tcpFlagsMask && b.tcpFlagsValue == pr.tcpFlagsValue
    && b.fragment == match pr.fragment
                     case None => FragAny
                     case Some(only) => if only then FragOnly else FragNone
  }

  lemma HeaderMeaning(b: ScrubRule, pr: ProtoRule, p: Packet)
    requires HeaderOf(b, pr)
    ensures HeaderMatch(b, p) <==> IntendedHeader(pr, p)
  {
  }

  /** XDP does with a packet that matches the body what the controller asked for. A
      rate limit lets through at most the stated packets a second, and less than ten
      fewer; the windows divide the second. */
  predicate ActsAs(b: ScrubRule, pr: ProtoRule) {
    match pr.action
    case ActionDrop => b.action == Drop && b.rateWindowNs == 0 && b.rateBudget == 0
    case ActionPass => b.action == Pass && b.rateWindowNs == 0 && b.rateBudget == 0
    case ActionRateLimit =>
      && b.action == RateLimit && b.rateBudget > 0
      && b.rateWindowNs > 0 && 1_000_000_000 % b.rateWindowNs == 0
      && pr.ratePps - 10 < (1_000_000_000 / b.rateWindowNs) * b.rateBudget <= pr.ratePps
    case ActionUnsupported => false
  }

  /** The encoding means what the controller stated: XDP's match over the sorted,
      merged and compacted body decides exactly the stated conditions, and the
      body carries the stated action and rate. */
  lemma BodyMeaning(pr: ProtoRule, p: Packet)
    requires Sound(pr) && WellFormedPacket(p) && p.v4 == pr.dst.value.v4
    ensures RuleMatch(Body(pr), p) <==> Intended(pr, p)
    ensures ActsAs(Body(pr), pr)
  {
    BodyActs(pr);
    HeaderMeaning(Body(pr), pr, p);
    PortsMeaning(pr, p);
    S.SourceMatchMeaning(SourcePrefixes(pr, p.v4), p.v4, p.src);
  }

  lemma BodyActs(pr: ProtoRule)
    requires Sound(pr)
    ensures ActsAs(Body(pr), pr)
  {
    if pr.action == ActionRateLimit {
      RateWindowFaithful(pr.ratePps);
    }
  }

  /** Parsing depends on the clock only through expiry: a rule accepted once is
      accepted, with the same result, at exactly the times before it expires; and
      what it becomes keeps the rule's id, priority, destination and expiry. */
  lemma ParseStable(pr: ProtoRule, now: int, later: int)
    requires Parse(pr, now).Ok?
    ensures pr.expires.Some? && pr.dst.Some?
    ensures later < pr.expires.value ==> Parse(pr, later) == Parse(pr, now)
    ensures pr.expires.value <= later ==> Parse(pr, later).Err?
    ensures var r := Parse(pr, now).value;
            r.id == pr.id && r.priority == pr.priority && r.dst == pr.dst.value && r.expires == pr.expires.value
  {
  }
}

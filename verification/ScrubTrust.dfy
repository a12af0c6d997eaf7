/** Trusted scrub evidence (pkg/analyzer/scrub_trust.go and its use in
    pkg/analyzer/service.go): the shared per-source state takes signals from
    every collector, but a trusted scrub stream is judged on state that only
    trusted scrub streams feed. */
module ScrubTrust {
  import opened Basics
  import opened RateLimiter

  /** A reputation engine as a deterministic state machine over states `R`:
      penalising and scoring an address at a time, and its own periodic upkeep. */
  datatype Reputation<!R> = Reputation(
    penalize: (R, string, real, real) -> R, score: (R, string, real) -> real, upkeep: (R, real) -> R)

  const RATE_LIMIT_PENALTY: real := 10.0

  datatype Config<!R> = Config(dryRun: bool, threshold: real, rep: Reputation<R>)

  /** The state fed by every collector, and the state fed by trusted scrub
      streams alone (ScrubReputation may be absent). */
  datatype Shared<R> = Shared(limiter: Option<Limiter>, reputation: Option<R>)
  datatype Scrub<R> = Scrub(limiter: Limiter, reputation: Option<R>)
  datatype State<R> = State(shared: Shared<R>, scrub: Scrub<R>)

  /** What a limiter meets when it takes a signal: the time, and what map iteration
      yields should it have to make room. */
  datatype Draw = Draw(now: real, choices: Choices)

  /** One signal: its source, and what either limiter meets. */
  datatype Signal = Signal(ip: Source, asn: string, shared: Draw, scrub: Draw)

  /** A signal is handled in two steps, and each reads anew whether its stream is a
      trusted scrub stream: the rate limit and, if that did not limit it, the
      reputation verdict. `Upkeep` is what the trusted-only limiter and reputation
      do on their own: the limiter forgets sources not seen since the cutoff.
      `Disturb` stands for everything else the analyzer does to the shared state,
      its upkeep included. */
  datatype Event<R> =
    | Check(signal: Signal, trusted: bool)
    | Score(ip: Source, now: real, trusted: bool)
    | Upkeep(cutoff: real, now: real)
    | Disturb(shared: Shared<R>)

  /** (limited, fanout) of the rate limit, (score, exceeded, fanout) of the
      reputation. */
  datatype Verdict = Limit(limited: bool, fanout: bool) | Judged(score: real, exceeded: bool, fanout: bool)

  function PenalizeOpt<R>(c: Config<R>, r: Option<R>, ip: Source, now: real): Option<R> {
    if r.Some? && ip.Ip? then Some(c.rep.penalize(r.value, ip.text, RATE_LIMIT_PENALTY, now)) else r
  }

  function ScoreOpt<R>(c: Config<R>, r: Option<R>, ip: Source, now: real): real {
    match r
    case None => 0.0
    case Some(rep) => c.rep.score(rep, match ip case NoIp => "<nil>" case Ip(t) => t, now)
  }

  function AllowOpt(l: Option<Limiter>, sig: Signal): (Option<Limiter>, bool) {
    match l
    case None => (None, true)
    case Some(lim) => var (l1, ok) := Allow(lim, sig.ip, sig.asn, sig.shared.choices, sig.shared.now); (Some(l1), ok)
  }

  /** checkRateLimitFor, first branch: the shared limiter decides. */
  function CheckShared<R>(c: Config<R>, s: State<R>, sig: Signal): (State<R>, bool) {
    var (l, ok) := AllowOpt(s.shared.limiter, sig);
    (s.(shared := s.shared.(limiter := l)), !ok)
  }

  /** checkRateLimitFor on a trusted scrub stream: both limiters take the signal,
      the trusted-only one decides. */
  function CheckTrusted<R>(c: Config<R>, s: State<R>, sig: Signal): (State<R>, bool) {
    var (l, sharedOk) := AllowOpt(s.shared.limiter, sig);
    var (sl, scrubOk) := Allow(s.scrub.limiter, sig.ip, sig.asn, sig.scrub.choices, sig.scrub.now);
    var s1 := s.(shared := s.shared.(limiter := l), scrub := s.scrub.(limiter := sl));
    if !scrubOk then (s1, true)
    else if !sharedOk && !c.dryRun
    then (s1.(shared := s1.shared.(reputation := PenalizeOpt(c, s1.shared.reputation, sig.ip, sig.shared.now))), false)
    else (s1, false)
  }

  /** penalizeRateLimited. */
  function PenalizeRateLimited<R>(c: Config<R>, s: State<R>, sig: Signal, trusted: bool): State<R> {
    s.(shared := s.shared.(reputation := PenalizeOpt(c, s.shared.reputation, sig.ip, sig.shared.now)),
       scrub := if !trusted then s.scrub
                else s.scrub.(reputation := PenalizeOpt(c, s.scrub.reputation, sig.ip, sig.scrub.now)))
  }

  /** The rate limit and, outside a dry run, what a trip costs. */
  function CheckSignal<R>(c: Config<R>, s: State<R>, sig: Signal, trusted: bool): (State<R>, Verdict) {
    var (s1, limited) := if trusted then CheckTrusted(c, s, sig) else CheckShared(c, s, sig);
    (if limited && !c.dryRun then PenalizeRateLimited(c, s1, sig, trusted) else s1, Limit(limited, limited && trusted))
  }

  /** reputationVerdict. */
  function ReputationVerdict<R>(c: Config<R>, s: State<R>, ip: Source, now: real, trusted: bool): Verdict {
    var score := ScoreOpt(c, if trusted then s.scrub.reputation else s.shared.reputation, ip, now);
    Judged(score, score > c.threshold, trusted && score > c.threshold)
  }

  /** Both steps, when nothing comes between them. */
  function Handle<R>(c: Config<R>, s: State<R>, sig: Signal, later: real, atCheck: bool, atScore: bool)
    : (State<R>, Verdict)
  {
    var (s1, v) := CheckSignal(c, s, sig, atCheck);
    (s1, if v.limited then v else ReputationVerdict(c, s1, sig.ip, later, atScore))
  }

  // ---- What handling a signal does ----

  /** The limiter that decides refuses the signal: on a trusted scrub stream the
      trusted-only one, else the shared one, if there is one. */
  predicate Limited<R>(s: State<R>, sig: Signal, trusted: bool) {
    if trusted then Refuses(s.scrub.limiter, sig.ip, sig.asn, sig.scrub.now)
    else s.shared.limiter.Some? && Refuses(s.shared.limiter.value, sig.ip, sig.asn, sig.shared.now)
  }

  /** `after` is the reputation with the address penalised once if `due`, if there are
      a reputation and an address. */
  ghost predicate Penalized<R>(c: Config<R>, before: Option<R>, after: Option<R>, ip: Source, now: real, due: bool) {
    match before
    case None => after.None?
    case Some(rep) =>
      after == Some(if due && ip.Ip? then c.rep.penalize(rep, ip.text, RATE_LIMIT_PENALTY, now) else rep)
  }

  /** The verdict of the reputation the stream is judged on. */
  predicate JudgedOn<R>(c: Config<R>, rep: Option<R>, ip: Source, now: real, trusted: bool, v: Verdict) {
    && v.Judged?
    && v.score == (if rep.None? then 0.0
                   else c.rep.score(rep.value, if ip.NoIp? then "<nil>" else ip.text, now))
    && (v.exceeded <==> v.score > c.threshold) && (v.fanout <==> trusted && v.exceeded)
  }

  /** What a refused signal costs: outside a dry run, the address a penalty in the shared
      reputation if either limiter refused it, and one in the trusted-only reputation if
      that limiter did. */
  ghost predicate Charged<R>(c: Config<R>, s: State<R>, s': State<R>, sig: Signal, trusted: bool) {
    && Penalized(c, s.shared.reputation, s'.shared.reputation, sig.ip, sig.shared.now,
                 !c.dryRun && (Limited(s, sig, trusted) || Limited(s, sig, false)))
    && Penalized(c, s.scrub.reputation, s'.scrub.reputation, sig.ip, sig.scrub.now,
                 !c.dryRun && trusted && Limited(s, sig, true))
    && (!trusted ==> s'.scrub == s.scrub)
  }

  ghost predicate Handled<R>(c: Config<R>, s: State<R>, s': State<R>, sig: Signal, later: real, atCheck: bool,
                             atScore: bool, v: Verdict)
  {
    && Charged(c, s, s', sig, atCheck)
    && if Limited(s, sig, atCheck) then v == Limit(true, atCheck)
       else JudgedOn(c, if atScore then s'.scrub.reputation else s'.shared.reputation, sig.ip, later, atScore, v)
  }

  lemma SharedDecides<R>(s: State<R>, sig: Signal)
    ensures AllowOpt(s.shared.limiter, sig).1 <==> !Limited(s, sig, false)
  {
    if s.shared.limiter.Some? {
      AllowDecides(s.shared.limiter.value, sig.ip, sig.asn, sig.shared.choices, sig.shared.now);
    }
  }

  lemma ScrubDecides<R>(s: State<R>, sig: Signal)
    ensures Allow(s.scrub.limiter, sig.ip, sig.asn, sig.scrub.choices, sig.scrub.now).1 <==> !Limited(s, sig, true)
  {
    AllowDecides(s.scrub.limiter, sig.ip, sig.asn, sig.scrub.choices, sig.scrub.now);
  }

  lemma CheckMeaning<R>(c: Config<R>, s: State<R>, sig: Signal, trusted: bool)
    ensures var (s', v) := CheckSignal(c, s, sig, trusted);
            Charged(c, s, s', sig, trusted) && v == Limit(Limited(s, sig, trusted), Limited(s, sig, trusted) && trusted)
  {
    SharedDecides(s, sig);
    ScrubDecides(s, sig);
  }

  /** Handling a signal. It is limited exactly when the limiter of its stream has no
      token for it, and else judged on the reputation of its stream; the penalties
      are those of `Charged`. */
  lemma HandleMeaning<R>(c: Config<R>, s: State<R>, sig: Signal, later: real, atCheck: bool, atScore: bool)
    ensures var (s', v) := Handle(c, s, sig, later, atCheck, atScore);
            Handled(c, s, s', sig, later, atCheck, atScore, v)
  {
    CheckMeaning(c, s, sig, atCheck);
  }

  /** The same on the analyzer's fields, in the order the code touches them. */
  class SignalJudge<!R(!new)> {
    const config: Config<R>
    var rateLimiter: Option<Limiter>
    var reputation: Option<R>
    var scrubRateLimiter: Limiter
    var scrubReputation: Option<R>

    ghost function Value(): State<R>
      reads this
    {
      State.State(Shared(rateLimiter, reputation), Scrub(scrubRateLimiter, scrubReputation))
    }

    constructor (config: Config<R>, s: State<R>)
      ensures Value() == s && this.config == config
    {
      this.config := config;
      rateLimiter, reputation := s.shared.limiter, s.shared.reputation;
      scrubRateLimiter, scrubReputation := s.scrub.limiter, s.scrub.reputation;
    }

    method AllowShared(sig: Signal) returns (ok: bool)
      modifies this`rateLimiter
      ensures (rateLimiter, ok) == AllowOpt(old(rateLimiter), sig)
    {
      ok := true;
      if rateLimiter.Some? {
        var (l, allowed) := Allow(rateLimiter.value, sig.ip, sig.asn, sig.shared.choices, sig.shared.now);
        rateLimiter, ok := Some(l), allowed;
      }
    }

    method PenalizeShared(sig: Signal)
      modifies this`reputation
      ensures reputation == PenalizeOpt(config, old(reputation), sig.ip, sig.shared.now)
    {
      if reputation.Some? && sig.ip.Ip? {
        reputation := Some(config.rep.penalize(reputation.value, sig.ip.text, RATE_LIMIT_PENALTY, sig.shared.now));
      }
    }

    method CheckRateLimitFor(sig: Signal, trusted: bool) returns (limited: bool, fanout: bool)
      modifies this
      ensures (Value(), limited)
            == if trusted then CheckTrusted(config, old(Value()), sig) else CheckShared(config, old(Value()), sig)
      ensures limited <==> Limited(old(Value()), sig, trusted)
      ensures fanout == (limited && trusted)
    {
      SharedDecides(Value(), sig);
      ScrubDecides(Value(), sig);
      var sharedOk := AllowShared(sig);
      if !trusted {
        return !sharedOk, false;
      }
      var (l, scrubOk) := Allow(scrubRateLimiter, sig.ip, sig.asn, sig.scrub.choices, sig.scrub.now);
      scrubRateLimiter := l;
      if !scrubOk {
        return true, true;
      }
      if !sharedOk && !config.dryRun {
        PenalizeShared(sig);
      }
      return false, false;
    }

    method Penalize(sig: Signal, trusted: bool)
      modifies this
      ensures Value() == PenalizeRateLimited(config, old(Value()), sig, trusted)
    {
      PenalizeShared(sig);
      if trusted && scrubReputation.Some? && sig.ip.Ip? {
        scrubReputation :=
          Some(config.rep.penalize(scrubReputation.value, sig.ip.text, RATE_LIMIT_PENALTY, sig.scrub.now));
      }
    }

    /** The upkeep of the trusted-only state. */
    method Upkeep(cutoff: real, now: real)
      modifies this`scrubRateLimiter, this`scrubReputation
      ensures Value() == Step(config, old(Value()), Event.Upkeep(cutoff, now))
      ensures forall k :: k in scrubRateLimiter.ips <==>
                k in old(scrubRateLimiter).ips && old(scrubRateLimiter).ips[k].lastSeen >= cutoff
      ensures forall k :: k in scrubRateLimiter.asns <==>
                k in old(scrubRateLimiter).asns && old(scrubRateLimiter).asns[k].lastSeen >= cutoff
    {
      scrubRateLimiter := Cleaned(scrubRateLimiter, cutoff);
      if scrubReputation.Some? {
        scrubReputation := Some(config.rep.upkeep(scrubReputation.value, now));
      }
    }

    method JudgeReputation(ip: Source, now: real, trusted: bool) returns (v: Verdict)
      ensures v == ReputationVerdict(config, Value(), ip, now, trusted)
    {
      var score := ScoreOpt(config, reputation, ip, now);
      if !trusted {
        return Judged(score, score > config.threshold, false);
      }
      score := ScoreOpt(config, scrubReputation, ip, now);
      v := Judged(score, score > config.threshold, score > config.threshold);
    }

    /** A signal up to the reputation verdict; the stream's role is read twice. */
    method HandleSignal(sig: Signal, later: real, atCheck: bool, atScore: bool) returns (v: Verdict)
      modifies this
      ensures (Value(), v) == Handle(config, old(Value()), sig, later, atCheck, atScore)
      ensures Handled(config, old(Value()), Value(), sig, later, atCheck, atScore, v)
    {
      HandleMeaning(config, Value(), sig, later, atCheck, atScore);
      var limited, fanout := CheckRateLimitFor(sig, atCheck);
      if limited {
        if !config.dryRun {
          Penalize(sig, fanout);
        }
        return Limit(true, fanout);
      }
      v := JudgeReputation(sig.ip, later, atScore);
    }
  }

  function Step<R>(c: Config<R>, s: State<R>, e: Event<R>): State<R> {
    match e
    case Check(sig, trusted) => CheckSignal(c, s, sig, trusted).0
    case Score(_, _, _) => s
    case Upkeep(cutoff, now) => s.(scrub := KeepUp(c, s.scrub, cutoff, now))
    case Disturb(shared) => s.(shared := shared)
  }

  function KeepUp<R>(c: Config<R>, s: Scrub<R>, cutoff: real, now: real): Scrub<R> {
    Scrub(Cleaned(s.limiter, cutoff),
          match s.reputation case None => None case Some(rep) => Some(c.rep.upkeep(rep, now)))
  }

  /** The verdict of an event on a trusted scrub stream. */
  function TrustedVerdict<R>(c: Config<R>, s: State<R>, e: Event<R>): seq<Verdict> {
    match e
    case Check(sig, true) => [CheckSignal(c, s, sig, true).1]
    case Score(ip, now, true) => [ReputationVerdict(c, s, ip, now, true)]
    case _ => []
  }

  /** The verdicts a run gives on trusted scrub streams, in order. */
  function TrustedVerdicts<R>(c: Config<R>, s: State<R>, run: seq<Event<R>>): seq<Verdict>
    decreases |run|
  {
    if run == [] then []
    else TrustedVerdict(c, s, run[0]) + TrustedVerdicts(c, Step(c, s, run[0]), run[1..])
  }

  /** Handling a signal is a run of its two steps. */
  lemma HandleIsRun<R>(c: Config<R>, s: State<R>, sig: Signal, later: real, atCheck: bool, atScore: bool)
    ensures var (s', v) := Handle(c, s, sig, later, atCheck, atScore);
            var s1 := Step(c, s, Check(sig, atCheck));
            && s' == Step(c, s1, Score(sig.ip, later, atScore))
            && (v.Limit? && atCheck ==> TrustedVerdict(c, s, Check(sig, atCheck)) == [v])
            && (v.Judged? && atScore ==> TrustedVerdict(c, s1, Score(sig.ip, later, atScore)) == [v])
            && (v.fanout ==> if v.Limit? then atCheck else atScore)
  {
  }

  // ---- A judge that has never heard of the shared state ----

  /** What concerns it of a run: what the trusted-only limiter meets, whom the
      trusted-only reputation is asked about, and the upkeep. */
  datatype Input =
    | Heard(ip: Source, asn: string, draw: Draw)
    | Asked(ip: Source, now: real)
    | Kept(cutoff: real, now: real)

  function TrustedInput<R>(e: Event<R>): seq<Input> {
    match e
    case Check(sig, true) => [Heard(sig.ip, sig.asn, sig.scrub)]
    case Score(ip, now, true) => [Asked(ip, now)]
    case Upkeep(cutoff, now) => [Kept(cutoff, now)]
    case _ => []
  }

  function TrustedInputs<R>(run: seq<Event<R>>): seq<Input> {
    if run == [] then [] else TrustedInput(run[0]) + TrustedInputs(run[1..])
  }

  function Judge<R>(c: Config<R>, s: Scrub<R>, input: Input): (Scrub<R>, seq<Verdict>) {
    match input
    case Heard(ip, asn, draw) =>
      var (l, ok) := Allow(s.limiter, ip, asn, draw.choices, draw.now);
      (Scrub(l, if ok || c.dryRun then s.reputation else PenalizeOpt(c, s.reputation, ip, draw.now)), [Limit(!ok, !ok)])
    case Asked(ip, now) =>
      var score := ScoreOpt(c, s.reputation, ip, now);
      (s, [Judged(score, score > c.threshold, score > c.threshold)])
    case Kept(cutoff, now) => (KeepUp(c, s, cutoff, now), [])
  }

  function JudgeAll<R>(c: Config<R>, s: Scrub<R>, inputs: seq<Input>): seq<Verdict>
    decreases |inputs|
  {
    if inputs == [] then []
    else Judge(c, s, inputs[0]).1 + JudgeAll(c, Judge(c, s, inputs[0]).0, inputs[1..])
  }

  /** The trusted-only state and the verdicts change as the judge says, and with
      nothing but trusted events. */
  lemma EventIsJudged<R>(c: Config<R>, s: State<R>, e: Event<R>)
    ensures |TrustedInput(e)| <= 1
    ensures (Step(c, s, e).scrub, TrustedVerdict(c, s, e))
         == if TrustedInput(e) == [] then (s.scrub, []) else Judge(c, s.scrub, TrustedInput(e)[0])
  {
  }

  /** Separation: the verdicts on trusted scrub streams are those of a judge that
      sees only what concerns it and only the trusted-only state. */
  lemma {:induction false} VerdictsAreJudged<R>(c: Config<R>, s: State<R>, run: seq<Event<R>>)
    ensures TrustedVerdicts(c, s, run) == JudgeAll(c, s.scrub, TrustedInputs(run))
    decreases |run|
  {
    if run != [] {
      var rest := TrustedInputs(run[1..]);
      VerdictsAreJudged(c, Step(c, s, run[0]), run[1..]);
      EventIsJudged(c, s, run[0]);
      if TrustedInput(run[0]) == [] {
        assert TrustedInputs(run) == rest;
      } else {
        assert (TrustedInput(run[0]) + rest)[1..] == rest;
      }
    }
  }

  /** Noninterference: two runs in which the trusted-only limiter meets the same
      signals of trusted scrub streams, the trusted-only reputation is asked about
      the same addresses, and the upkeep of both is the same, give the same
      verdicts on those streams: whatever other collectors send, however the
      shared state differs, and whatever the shared limiter makes of the signals. */
  lemma {:induction false} Noninterference<R>(c: Config<R>, s: State<R>, s': State<R>,
                                              run: seq<Event<R>>, run': seq<Event<R>>)
    requires s.scrub == s'.scrub && TrustedInputs(run) == TrustedInputs(run')
    ensures TrustedVerdicts(c, s, run) == TrustedVerdicts(c, s', run')
  {
    VerdictsAreJudged(c, s, run);
    VerdictsAreJudged(c, s', run');
  }

  // ---- Whole signals ----

  /** A run seen by signals, each handled before the next event, with the stream's role
      the same at both reads. */
  datatype Whole<R> =
    | Arrives(signal: Signal, later: real, trusted: bool)
    | Tended(cutoff: real, now: real)
    | Changed(shared: Shared<R>)

  /** What of it concerns the trusted-only state. */
  datatype WholeInput = Heeded(ip: Source, asn: string, draw: Draw, later: real) | Cared(cutoff: real, now: real)

  function StepWhole<R>(c: Config<R>, s: State<R>, w: Whole<R>): State<R> {
    match w
    case Arrives(sig, later, trusted) => Handle(c, s, sig, later, trusted, trusted).0
    case Tended(cutoff, now) => Step(c, s, Upkeep(cutoff, now))
    case Changed(shared) => Step(c, s, Disturb(shared))
  }

  /** The verdict on each signal of a trusted scrub stream, in order. */
  function WholeVerdicts<R>(c: Config<R>, s: State<R>, run: seq<Whole<R>>): seq<Verdict>
    decreases |run|
  {
    if run == [] then []
    else
      (match run[0]
       case Arrives(sig, later, true) => [Handle(c, s, sig, later, true, true).1]
       case _ => [])
      + WholeVerdicts(c, StepWhole(c, s, run[0]), run[1..])
  }

  function WholeInputOf<R>(w: Whole<R>): seq<WholeInput> {
    match w
    case Arrives(sig, later, true) => [Heeded(sig.ip, sig.asn, sig.scrub, later)]
    case Tended(cutoff, now) => [Cared(cutoff, now)]
    case _ => []
  }

  function WholeInputs<R>(run: seq<Whole<R>>): seq<WholeInput> {
    if run == [] then [] else WholeInputOf(run[0]) + WholeInputs(run[1..])
  }

  /** The judge hears a signal and is asked about it if the limit lets it pass: its own
      first verdict decides. */
  function JudgeWhole<R>(c: Config<R>, s: Scrub<R>, input: WholeInput): (Scrub<R>, seq<Verdict>) {
    match input
    case Heeded(ip, asn, draw, later) =>
      var (s1, v) := Judge(c, s, Heard(ip, asn, draw));
      if v[0].limited then (s1, v) else Judge(c, s1, Asked(ip, later))
    case Cared(cutoff, now) => Judge(c, s, Kept(cutoff, now))
  }

  function JudgeAllWhole<R>(c: Config<R>, s: Scrub<R>, inputs: seq<WholeInput>): seq<Verdict>
    decreases |inputs|
  {
    if inputs == [] then []
    else JudgeWhole(c, s, inputs[0]).1 + JudgeAllWhole(c, JudgeWhole(c, s, inputs[0]).0, inputs[1..])
  }

  /** Both steps of a signal, as the judge sees them. */
  lemma SignalIsJudged<R>(c: Config<R>, s: State<R>, sig: Signal, later: real)
    ensures var (s', v) := Handle(c, s, sig, later, true, true);
            JudgeWhole(c, s.scrub, Heeded(sig.ip, sig.asn, sig.scrub, later)) == (s'.scrub, [v])
    ensures Handle(c, s, sig, later, false, false).0.scrub == s.scrub
  {
    HandleIsRun(c, s, sig, later, true, true);
    var s1 := Step(c, s, Check(sig, true));
    EventIsJudged(c, s, Check(sig, true));
    EventIsJudged(c, s1, Score(sig.ip, later, true));
  }

  lemma {:induction false} WholeIsJudged<R>(c: Config<R>, s: State<R>, run: seq<Whole<R>>)
    ensures WholeVerdicts(c, s, run) == JudgeAllWhole(c, s.scrub, WholeInputs(run))
    decreases |run|
  {
    if run != [] {
      var rest := WholeInputs(run[1..]);
      WholeIsJudged(c, StepWhole(c, s, run[0]), run[1..]);
      if run[0].Arrives? {
        SignalIsJudged(c, s, run[0].signal, run[0].later);
      }
      if WholeInputOf(run[0]) == [] {
        assert WholeInputs(run) == rest;
      } else {
        assert (WholeInputOf(run[0]) + rest)[1..] == rest;
      }
    }
  }

  /** Noninterference for whole signals: it is enough that the same signals arrive on
      trusted scrub streams, and that the trusted-only limiter meets the same times
      and evictions. Which of them the reputation is asked about follows. */
  lemma SignalsNoninterference<R>(c: Config<R>, s: State<R>, s': State<R>, run: seq<Whole<R>>, run': seq<Whole<R>>)
    requires s.scrub == s'.scrub && WholeInputs(run) == WholeInputs(run')
    ensures WholeVerdicts(c, s, run) == WholeVerdicts(c, s', run')
  {
    WholeIsJudged(c, s, run);
    WholeIsJudged(c, s', run');
  }
}

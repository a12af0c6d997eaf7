/** Coalesced rule syncs of one collector (requestRuleSync and runRuleSyncs in
    pkg/analyzer/rules.go), under every interleaving of requesters, workers,
    rule changes and a shutdown that refuses new workers. */
module RuleSync {
  import opened Basics

  /** A request is named by its number; its result channel gets the outcome. */
  type Request = nat

  /** `Success(v)`: the rule set sent was built when the store was at version v. */
  datatype Outcome = Success(version: nat) | Failure

  /** Where a worker goroutine stands in the loop of runRuleSyncs. */
  datatype Phase =
    | Ready
    | Grabbed(batch: set<Request>)
    | Built(batch: set<Request>, version: nat)
    | Delivering(batch: set<Request>, outcome: Outcome)

  datatype Sync = Sync(
    waiters: set<Request>,            // syncWaiters
    syncing: bool,
    starters: nat,                    // requesters that must start a worker
    refused: nat,                     // requesters whose worker goTracked refused
    failing: set<Request>,            // taken over by a refused requester
    workers: seq<Phase>,              // every worker goroutine of this collector
    shutdown: bool,
    version: nat,                     // rule store version
    issued: nat,                      // requests so far: 0 .. issued - 1
    queuedAt: map<Request, nat>,      // store version when queued
    results: map<Request, Outcome>,
    deliveries: nat)                  // sends into result channels

  datatype Action =
    | Ask
    | StartWorker
    | RefuseWorker
    | TakeOver
    | FailOne(r: Request)
    | Grab(w: nat)
    | Build(w: nat)
    | Send(w: nat, ok: bool)
    | Deliver(w: nat, r: Request)
    | NextRound(w: nat)
    | ChangeRules
    | ShutDown

  const INITIAL: Sync := Sync({}, false, 0, 0, {}, [], false, 0, 0, map[], map[], 0)

  function Batch(p: Phase): set<Request> {
    if p.Ready? then {} else p.batch
  }

  function Step(s: Sync, a: Action): Sync {
    match a
    case Ask =>
      s.(waiters := s.waiters + {s.issued}, issued := s.issued + 1, queuedAt := s.queuedAt[s.issued := s.version],
         starters := if s.syncing then s.starters else s.starters + 1, syncing := true)
    case StartWorker =>
      if s.starters > 0 && !s.shutdown then s.(starters := s.starters - 1, workers := s.workers + [Ready]) else s
    case RefuseWorker =>
      if s.starters > 0 && s.shutdown then s.(starters := s.starters - 1, refused := s.refused + 1) else s
    case TakeOver =>
      if s.refused > 0
      then s.(refused := s.refused - 1, failing := s.failing + s.waiters, waiters := {}, syncing := false) else s
    case FailOne(r) =>
      if r in s.failing then Result(s.(failing := s.failing - {r}), r, Failure) else s
    case Grab(w) =>
      if w < |s.workers| && s.workers[w].Ready? then
        if s.waiters == {} then s.(syncing := false, workers := s.workers[..w] + s.workers[w + 1..])
        else s.(waiters := {}, workers := s.workers[w := Grabbed(s.waiters)])
      else s
    case Build(w) =>
      if w < |s.workers| && s.workers[w].Grabbed?
      then s.(workers := s.workers[w := Built(s.workers[w].batch, s.version)]) else s
    case Send(w, ok) =>
      if w < |s.workers| && s.workers[w].Built?
      then
        var outcome := if ok then Success(s.workers[w].version) else Failure;
        s.(workers := s.workers[w := Delivering(s.workers[w].batch, outcome)])
      else s
    case Deliver(w, r) =>
      if w < |s.workers| && s.workers[w].Delivering? && r in s.workers[w].batch
      then
        var rest := s.workers[w].batch - {r};
        Result(s.(workers := s.workers[w := s.workers[w].(batch := rest)]), r, s.workers[w].outcome)
      else s
    case NextRound(w) =>
      if w < |s.workers| && s.workers[w].Delivering? && s.workers[w].batch == {}
      then s.(workers := s.workers[w := Ready]) else s
    case ChangeRules => s.(version := s.version + 1)
    case ShutDown => s.(shutdown := true)
  }

  /** One send into a request's result channel. */
  function Result(s: Sync, r: Request, o: Outcome): Sync {
    s.(results := s.results[r := o], deliveries := s.deliveries + 1)
  }

  function Run(trace: seq<Action>): Sync {
    if trace == [] then INITIAL else Step(Run(trace[..|trace| - 1]), trace[|trace| - 1])
  }

  // ---- What every step keeps ----

  /** The requests some worker holds; with at most one worker, its batch. */
  function Held(s: Sync): set<Request> {
    if |s.workers| == 1 then Batch(s.workers[0]) else {}
  }

  /** How many places hold request `r`. */
  function Places(s: Sync, r: Request): nat {
    Count(r in s.waiters) + Count(r in s.failing) + Count(r in Held(s)) + Count(r in s.results)
  }

  predicate FreshEnough(s: Sync, r: Request, v: nat) {
    r in s.queuedAt && s.queuedAt[r] <= v
  }

  predicate PhaseFresh(s: Sync, p: Phase) {
    match p
    case Ready => true
    case Grabbed(b) => forall r :: r in b ==> FreshEnough(s, r, s.version)
    case Built(b, v) => v <= s.version && forall r :: r in b ==> FreshEnough(s, r, v)
    case Delivering(b, o) => o.Success? ==> forall r :: r in b ==> FreshEnough(s, r, o.version)
  }

  /** Where requests and workers are. */
  ghost predicate Ledger(s: Sync) {
    && |s.workers| + s.starters + s.refused == Count(s.syncing)
    && (s.waiters != {} ==> s.syncing)
    && (forall r: Request :: Places(s, r) == Count(r < s.issued))
    && s.deliveries == |s.results|
  }

  /** How old the rule sets sent to them are. */
  ghost predicate Fresh(s: Sync) {
    && (forall r: Request :: r < s.issued <==> r in s.queuedAt)
    && (forall r :: r in s.queuedAt ==> s.queuedAt[r] <= s.version)
    && (forall w :: 0 <= w < |s.workers| ==> PhaseFresh(s, s.workers[w]))
    && (forall r :: r in s.results && s.results[r].Success? ==> FreshEnough(s, r, s.results[r].version))
  }

  ghost predicate Inv(s: Sync) {
    Ledger(s) && Fresh(s)
  }

  lemma ResultInv(s: Sync, t: Sync, r: Request, o: Outcome)
    requires Inv(s) && t == Result(t.(results := s.results, deliveries := s.deliveries), r, o)
    requires r !in s.results
    ensures t.deliveries == |t.results|
  {
    assert t.results.Keys == s.results.Keys + {r};
    assert |t.results| == |t.results.Keys| && |s.results| == |s.results.Keys|;
  }

  /** Queueing another request does not age the ones before it. */
  lemma PhaseStaysFresh(s: Sync, t: Sync, p: Phase)
    requires PhaseFresh(s, p) && s.version <= t.version
    requires forall r :: r in s.queuedAt ==> r in t.queuedAt && t.queuedAt[r] == s.queuedAt[r]
    ensures PhaseFresh(t, p)
  {
    match p
    case Ready =>
    case Grabbed(b) => assert forall r :: r in b ==> FreshEnough(s, r, s.version);
    case Built(b, v) => assert forall r :: r in b ==> FreshEnough(s, r, v);
    case Delivering(b, o) => assert o.Success? ==> forall r :: r in b ==> FreshEnough(s, r, o.version);
  }

  lemma AskLedger(s: Sync)
    requires Ledger(s)
    ensures Ledger(Step(s, Ask))
  {
    var t := Step(s, Ask);
    forall r: Request ensures Places(t, r) == Count(r < t.issued) {
      assert Places(s, r) == Count(r < s.issued);
    }
  }

  lemma AskFresh(s: Sync)
    requires Fresh(s)
    ensures Fresh(Step(s, Ask))
  {
    var t := Step(s, Ask);
    assert s.issued !in s.queuedAt;
    forall w | 0 <= w < |t.workers| ensures PhaseFresh(t, t.workers[w]) {
      PhaseStaysFresh(s, t, s.workers[w]);
    }
    forall r | r in t.results && t.results[r].Success? ensures FreshEnough(t, r, t.results[r].version) {
      assert FreshEnough(s, r, s.results[r].version);
    }
  }

  /** The requester that must start a worker, whether it may or not. */
  lemma StarterInv(s: Sync, a: Action)
    requires Inv(s) && (a.StartWorker? || a.RefuseWorker? || a.TakeOver?)
    ensures Inv(Step(s, a))
  {
    var t := Step(s, a);
    if t != s {
      assert s.workers == [];
      forall r: Request ensures Places(t, r) == Count(r < t.issued) {
        assert Places(s, r) == Count(r < s.issued);
      }
    }
  }

  lemma ChangeInv(s: Sync, a: Action)
    requires Inv(s) && (a.ChangeRules? || a.ShutDown?)
    ensures Inv(Step(s, a))
  {
    var t := Step(s, a);
    forall r: Request ensures Places(t, r) == Count(r < t.issued) {
      assert Places(s, r) == Count(r < s.issued);
    }
    forall w | 0 <= w < |t.workers| ensures PhaseFresh(t, t.workers[w]) {
      assert PhaseFresh(s, s.workers[w]);
    }
  }

  lemma FailOneInv(s: Sync, r: Request)
    requires Inv(s)
    ensures Inv(Step(s, FailOne(r)))
  {
    if r in s.failing {
      var t := Step(s, FailOne(r));
      assert Places(s, r) == Count(r < s.issued);
      ResultInv(s, t, r, Failure);
      forall q: Request ensures Places(t, q) == Count(q < t.issued) {
        assert Places(s, q) == Count(q < s.issued);
      }
    }
  }

  /** The worker ends when no request is waiting. */
  lemma GrabNothing(s: Sync, w: nat)
    requires Inv(s) && s.waiters == {}
    ensures Inv(Step(s, Grab(w)))
  {
    var t := Step(s, Grab(w));
    if t != s {
      assert |s.workers| == 1 && w == 0;
      assert t.workers == [];
      forall r: Request ensures Places(t, r) == Count(r < t.issued) {
        assert Places(s, r) == Count(r < s.issued);
      }
    }
  }

  /** Otherwise it takes them all. */
  lemma GrabAll(s: Sync, w: nat)
    requires Inv(s) && s.waiters != {}
    ensures Inv(Step(s, Grab(w)))
  {
    var t := Step(s, Grab(w));
    if t != s {
      assert |s.workers| == 1 && w == 0;
      assert t.workers == [Grabbed(s.waiters)];
      forall r: Request
        ensures Places(t, r) == Count(r < t.issued) && (r in s.waiters ==> FreshEnough(t, r, t.version))
      {
        assert Places(s, r) == Count(r < s.issued);
      }
    }
  }

  /** The other steps of a worker that deliver nothing: it keeps its batch. */
  lemma WorkerInv(s: Sync, a: Action)
    requires Inv(s) && (a.Build? || a.Send? || a.NextRound?)
    ensures Inv(Step(s, a))
  {
    var t := Step(s, a);
    if t != s {
      assert |s.workers| == 1 && a.w == 0;
      assert PhaseFresh(s, s.workers[0]);
      assert Batch(t.workers[0]) == Batch(s.workers[0]);
      forall r: Request ensures Places(t, r) == Count(r < t.issued) {
        assert Places(s, r) == Count(r < s.issued);
      }
    }
  }

  lemma DeliverInv(s: Sync, w: nat, r: Request)
    requires Inv(s)
    ensures Inv(Step(s, Deliver(w, r)))
  {
    var t := Step(s, Deliver(w, r));
    if t != s {
      assert |s.workers| == 1 && w == 0;
      assert PhaseFresh(s, s.workers[0]);
      assert Places(s, r) == Count(r < s.issued);
      ResultInv(s, t, r, s.workers[0].outcome);
      forall q: Request ensures Places(t, q) == Count(q < t.issued) {
        assert Places(s, q) == Count(q < s.issued);
      }
    }
  }

  lemma StepInv(s: Sync, a: Action)
    requires Inv(s)
    ensures Inv(Step(s, a))
  {
    match a {
      case FailOne(r) => FailOneInv(s, r);
      case Deliver(w, r) => DeliverInv(s, w, r);
      case Grab(w) => if s.waiters == {} { GrabNothing(s, w); } else { GrabAll(s, w); }
      case Build(_) => WorkerInv(s, a);
      case Send(_, _) => WorkerInv(s, a);
      case NextRound(_) => WorkerInv(s, a);
      case Ask => AskLedger(s); AskFresh(s);
      case ChangeRules => ChangeInv(s, a);
      case ShutDown => ChangeInv(s, a);
      case _ => StarterInv(s, a);
    }
  }

  lemma {:induction false} RunInv(trace: seq<Action>)
    ensures Inv(Run(trace))
  {
    if trace != [] {
      RunInv(trace[..|trace| - 1]);
      StepInv(Run(trace[..|trace| - 1]), trace[|trace| - 1]);
    }
  }

  /** Under every interleaving at most one worker runs per collector; each
      request has at most one result and is otherwise in exactly one queue or
      batch; and a success comes from a rule set built after the request. */
  lemma Coalesced(trace: seq<Action>)
    ensures var s := Run(trace);
            && |s.workers| <= 1
            && s.deliveries == |s.results|
            && (forall r: Request :: r < s.issued ==> Places(s, r) == 1)
            && (forall r :: r in s.results && s.results[r].Success? ==>
                              r in s.queuedAt && s.queuedAt[r] <= s.results[r].version)
  {
    RunInv(trace);
  }

  /** Nothing is stranded: a request still waiting has a worker, or a requester
      that will start one or fail it; once all of these are through, every
      request has its one result. */
  lemma NothingStranded(trace: seq<Action>)
    ensures var s := Run(trace);
            && (s.waiters != {} ==> |s.workers| + s.starters + s.refused == 1)
            && (s.workers == [] && s.starters == 0 && s.refused == 0 && s.failing == {} ==>
                  forall r: Request :: r < s.issued <==> r in s.results)
  {
    RunInv(trace);
    var s := Run(trace);
    if s.workers == [] && s.starters == 0 && s.refused == 0 && s.failing == {} {
      forall r: Request ensures r < s.issued <==> r in s.results {
        assert Places(s, r) == Count(r < s.issued);
      }
    }
  }

  // ---- What a request is answered ----

  /** Step `a` from `s` decides the answer of `r`: the rule set built for its batch is
      sent, or fails to be; or a refused requester fails it. */
  predicate Decides(s: Sync, a: Action, r: Request, o: Outcome) {
    match a
    case Send(w, ok) =>
      && w < |s.workers| && s.workers[w].Built? && r in s.workers[w].batch
      && o == if ok then Success(s.workers[w].version) else Failure
    case FailOne(q) => q == r && r in s.failing && o == Failure
    case _ => false
  }

  predicate DecidedAt(trace: seq<Action>, n: int, r: Request, o: Outcome) {
    0 <= n < |trace| && Decides(Run(trace[..n]), trace[n], r, o)
  }

  ghost predicate Decided(trace: seq<Action>, r: Request, o: Outcome) {
    exists n :: DecidedAt(trace, n, r, o)
  }

  /** The answer is given, or on its way. */
  predicate Answering(s: Sync, r: Request, o: Outcome) {
    || (r in s.results && s.results[r] == o)
    || (|s.workers| == 1 && s.workers[0].Delivering? && r in s.workers[0].batch && s.workers[0].outcome == o)
  }

  lemma AnsweringStep(s: Sync, a: Action, r: Request, o: Outcome)
    requires Inv(s) && (Answering(s, r, o) || Decides(s, a, r, o))
    ensures Answering(Step(s, a), r, o) == true
  {
    assert Places(s, r) == Count(r < s.issued);
  }

  lemma AnsweringBefore(s: Sync, a: Action, r: Request, o: Outcome)
    requires |s.workers| <= 1 && Answering(Step(s, a), r, o)
    ensures (Answering(s, r, o) || Decides(s, a, r, o)) == true
  {
    match a
    case Send(_, _) =>
    case Deliver(_, _) =>
    case FailOne(_) =>
    case Grab(_) =>
    case _ =>
  }

  lemma DecidedSnoc(trace: seq<Action>, r: Request, o: Outcome)
    requires trace != []
    ensures var before, a := trace[..|trace| - 1], trace[|trace| - 1];
            Decided(trace, r, o) <==> Decided(before, r, o) || Decides(Run(before), a, r, o)
  {
    var m := |trace| - 1;
    if Decided(trace, r, o) {
      var n :| DecidedAt(trace, n, r, o);
      if n < m {
        assert trace[..m][..n] == trace[..n];
        assert DecidedAt(trace[..m], n, r, o);
      }
    }
    if Decided(trace[..m], r, o) {
      var n :| DecidedAt(trace[..m], n, r, o);
      assert trace[..m][..n] == trace[..n];
      assert DecidedAt(trace, n, r, o);
    }
    if Decides(Run(trace[..m]), trace[m], r, o) {
      assert DecidedAt(trace, m, r, o);
    }
  }

  /** A request gets the answer that was decided for it, and no other: the version of
      the rule set built for its batch when that was sent, and a failure when the send
      failed or its worker was refused. */
  lemma {:induction false} AnsweredAsDecided(trace: seq<Action>, r: Request, o: Outcome)
    ensures Answering(Run(trace), r, o) <==> Decided(trace, r, o)
  {
    if trace != [] {
      var before, a := trace[..|trace| - 1], trace[|trace| - 1];
      RunInv(before);
      AnsweredAsDecided(before, r, o);
      DecidedSnoc(trace, r, o);
      if Answering(Run(before), r, o) || Decides(Run(before), a, r, o) {
        AnsweringStep(Run(before), a, r, o);
      } else if Answering(Step(Run(before), a), r, o) {
        AnsweringBefore(Run(before), a, r, o);
      }
    }
  }
}

/** The fan-out queue of one scrub peer (enqueueScrubFanout, drainScrubFanout and
    runScrubFanout in pkg/analyzer/service.go), under every interleaving of
    enqueuers, the worker, role changes and the end of the stream; and the
    commands whose dedup reservation it releases. */
module FanoutQueue {
  import opened Basics

  /** scrubFanoutQueueSize. */
  const QUEUE_SIZE: nat := 256

  /** Commands are numbered in the order their enqueuers arrive. */
  type Command = nat

  /** Why a command taken off the queue left the worker. */
  datatype End = Sent | SendFailed | RoleChanged | PeerGone

  datatype Worker =
    | Waiting                     // in the select
    | Holding(cmd: Command)       // past the check that the stream is still there
    | Sending(cmd: Command)       // past the check that the peer is still trusted
    | Releasing(cmd: Command)     // about to call releaseBlock
    | Stopped                     // about to close the queue
    | Draining
    | Done

  datatype Taken = Taken(cmd: Command, end: End)

  datatype Peer = Peer(
    issued: nat,                  // commands 0 .. issued - 1 have reached enqueueScrubFanout
    inside: set<Command>,         // enqueuers holding the read lock that saw the queue open
    queue: seq<Command>,
    closed: bool,                 // fanoutClosed
    trusted: bool,                // isTrustedScrub
    ended: bool,                  // the stream or the analyzer has ended
    worker: Worker,
    taken: seq<Taken>,            // what became of commands that were queued, in order
    refused: map<Command, End>,   // late commands (PeerGone)
    full: set<Command>,           // dropped with the queue full
    dropping: set<Command>,       // those whose enqueuer is about to call releaseBlock
    released: set<Command>,       // releaseBlock has been called
    accepted: seq<Command>)       // every command that entered the queue, in order

  datatype Action =
    | Arrive                      // RLock, then the check of fanoutClosed
    | Offer(cmd: Command)         // the non-blocking send, then RUnlock
    | SetTrusted(trusted: bool)
    | EndStream
    | Take                        // the worker receives a command
    | CheckRole
    | Send(ok: bool)
    | Release(cmd: Command)       // releaseBlock, and RUnlock if it is the enqueuer's
    | Stop                        // the worker sees that the stream has ended
    | Close                       // drainScrubFanout takes the write lock
    | DrainOne
    | DrainEnd

  const INITIAL: Peer := Peer(0, {}, [], false, true, false, Waiting, [], map[], {}, {}, {}, [])

  function Finish(p: Peer, c: Command, e: End, w: Worker): Peer {
    p.(taken := p.taken + [Taken(c, e)], worker := w)
  }

  function Step(p: Peer, a: Action): Peer {
    match a
    case Arrive =>
      if p.closed then p.(issued := p.issued + 1, refused := p.refused[p.issued := PeerGone])
      else p.(issued := p.issued + 1, inside := p.inside + {p.issued})
    case Offer(c) =>
      if c !in p.inside then p
      else if |p.queue| < QUEUE_SIZE
      then p.(inside := p.inside - {c}, queue := p.queue + [c], accepted := p.accepted + [c])
      else p.(inside := p.inside - {c}, full := p.full + {c}, dropping := p.dropping + {c})
    case SetTrusted(t) => p.(trusted := t)
    case EndStream => p.(ended := true)
    case Take =>
      if p.worker.Waiting? && p.queue != [] then
        var q := p.(queue := p.queue[1..]);
        if p.ended then Finish(q, p.queue[0], PeerGone, Stopped) else q.(worker := Holding(p.queue[0]))
      else p
    case CheckRole =>
      if !p.worker.Holding? then p
      else if !p.trusted then Finish(p, p.worker.cmd, RoleChanged, Releasing(p.worker.cmd))
      else p.(worker := Sending(p.worker.cmd))
    case Send(ok) =>
      if !p.worker.Sending? then p
      else if ok then Finish(p, p.worker.cmd, Sent, Waiting)
      else Finish(p, p.worker.cmd, SendFailed, Releasing(p.worker.cmd))
    case Release(c) =>
      if c !in Owed(p) then p
      else p.(released := p.released + {c}, dropping := p.dropping - {c},
              worker := if p.worker.Releasing? && p.worker.cmd == c then Waiting else p.worker)
    case Stop => if p.worker.Waiting? && p.ended then p.(worker := Stopped) else p
    case Close =>
      // The write lock waits for every enqueuer inside.
      if p.worker.Stopped? && p.inside == {} && p.dropping == {} then p.(closed := true, worker := Draining) else p
    case DrainOne =>
      if p.worker.Draining? && p.queue != []
      then Finish(p.(queue := p.queue[1..]), p.queue[0], PeerGone, Draining) else p
    case DrainEnd => if p.worker.Draining? && p.queue == [] then p.(worker := Done) else p
  }

  /** The commands whose release is under way. */
  function Owed(p: Peer): set<Command> {
    p.dropping + if p.worker.Releasing? then {p.worker.cmd} else {}
  }

  function Run(trace: seq<Action>): Peer {
    if trace == [] then INITIAL else Step(Run(trace[..|trace| - 1]), trace[|trace| - 1])
  }

  // ---- Accounting ----

  function Commands(taken: seq<Taken>): (s: seq<Command>)
    ensures |s| == |taken| && forall i :: 0 <= i < |s| ==> s[i] == taken[i].cmd
  {
    seq(|taken|, i requires 0 <= i < |taken| => taken[i].cmd)
  }

  function Held(p: Peer): seq<Command> {
    if p.worker.Holding? || p.worker.Sending? then [p.worker.cmd] else []
  }

  /** The commands sent, in the order they were sent. */
  function SentOf(taken: seq<Taken>): seq<Command> {
    if taken == [] then []
    else SentOf(taken[..|taken| - 1]) + if taken[|taken| - 1].end == Sent then [taken[|taken| - 1].cmd] else []
  }

  function Places(p: Peer, c: Command): nat {
    Count(c in p.inside) + Count(c in p.accepted) + Count(c in p.refused) + Count(c in p.full)
  }

  predicate Distinct(s: seq<Command>) {
    forall i, j :: 0 <= i < j < |s| ==> s[i] != s[j]
  }

  /** The queue and what was taken off it, in order. */
  predicate InOrder(p: Peer) {
    && p.accepted == Commands(p.taken) + Held(p) + p.queue
    && |p.queue| <= QUEUE_SIZE
  }

  /** Each command once. */
  ghost predicate Booked(p: Peer) {
    && Distinct(p.accepted)
    && forall c: Command :: Places(p, c) == Count(c < p.issued)
  }

  /** The commands taken off the queue that never reached a trusted peer although its
      stream had not ended. */
  function Failed(taken: seq<Taken>): set<Command> {
    set t | t in taken && t.end in {SendFailed, RoleChanged} :: t.cmd
  }

  /** A command's reservation is released, or about to be, exactly if it was dropped
      with the queue full or failed; and no release comes twice. */
  ghost predicate Settled(p: Peer) {
    && p.released + Owed(p) == p.full + Failed(p.taken)
    && p.released !! Owed(p) && p.dropping <= p.full
  }

  /** Closing excludes enqueuers and comes before the final drain. */
  predicate Shut(p: Peer) {
    && (p.closed <==> p.worker.Draining? || p.worker.Done?)
    && (p.closed ==> p.inside == {} && p.dropping == {})
    && (p.worker.Done? ==> p.queue == [])
    && (p.worker.Stopped? || p.closed ==> p.ended)
  }

  ghost predicate Inv(p: Peer) {
    InOrder(p) && Booked(p) && Shut(p) && Settled(p)
  }

  lemma CommandsSnoc(taken: seq<Taken>, t: Taken)
    ensures Commands(taken + [t]) == Commands(taken) + [t.cmd]
  {
  }

  /** One command moves from the queue to the worker's hand to its end. */
  lemma Moves(done: seq<Command>, x: Command, queue: seq<Command>)
    ensures done + [] + ([x] + queue) == done + [x] + queue
    ensures (done + [x]) + [] + queue == done + [x] + queue
  {
  }

  lemma FinishInOrder(p: Peer, c: Command, e: End, w: Worker)
    requires p.accepted == Commands(p.taken) + [c] + p.queue && |p.queue| <= QUEUE_SIZE
    requires !w.Holding? && !w.Sending?
    ensures InOrder(Finish(p, c, e, w))
  {
    CommandsSnoc(p.taken, Taken(c, e));
    Moves(Commands(p.taken), c, p.queue);
  }

  lemma TakeInOrder(p: Peer)
    requires InOrder(p) && p.queue != [] && Held(p) == []
    ensures p.accepted == Commands(p.taken) + [p.queue[0]] + p.queue[1..]
  {
    Moves(Commands(p.taken), p.queue[0], p.queue[1..]);
    assert p.queue == [p.queue[0]] + p.queue[1..];
  }

  lemma InOrderStep(p: Peer, a: Action)
    requires InOrder(p)
    ensures InOrder(Step(p, a))
  {
    match a {
      case Take =>
        if p.worker.Waiting? && p.queue != [] {
          TakeInOrder(p);
          if p.ended { FinishInOrder(p.(queue := p.queue[1..]), p.queue[0], PeerGone, Stopped); }
        }
      case DrainOne =>
        if p.worker.Draining? && p.queue != [] {
          TakeInOrder(p);
          FinishInOrder(p.(queue := p.queue[1..]), p.queue[0], PeerGone, Draining);
        }
      case CheckRole =>
        if p.worker.Holding? && !p.trusted { FinishInOrder(p, p.worker.cmd, RoleChanged, Releasing(p.worker.cmd)); }
      case Send(ok) =>
        if p.worker.Sending? {
          FinishInOrder(p, p.worker.cmd, if ok then Sent else SendFailed,
                        if ok then Waiting else Releasing(p.worker.cmd));
        }
      case Offer(c) =>
        assert Commands(p.taken) + Held(p) + (p.queue + [c]) == Commands(p.taken) + Held(p) + p.queue + [c];
      case _ =>
    }
  }

  lemma BookedArrive(p: Peer)
    requires Booked(p)
    ensures Booked(Step(p, Arrive))
  {
    var q := Step(p, Arrive);
    forall c: Command ensures Places(q, c) == Count(c < q.issued) {
      assert Places(p, c) == Count(c < p.issued);
    }
  }

  lemma BookedOffer(p: Peer, cmd: Command)
    requires Booked(p)
    ensures Booked(Step(p, Offer(cmd)))
  {
    var q := Step(p, Offer(cmd));
    assert Places(p, cmd) == Count(cmd < p.issued);
    forall c: Command ensures Places(q, c) == Count(c < q.issued) {
      assert Places(p, c) == Count(c < p.issued);
    }
  }

  /** A step that moves no command in or out keeps the books. */
  lemma BookedSame(p: Peer, q: Peer)
    requires Booked(p) && q.issued == p.issued && q.inside == p.inside && q.accepted == p.accepted
    requires q.refused == p.refused && q.full == p.full
    ensures Booked(q)
  {
    forall c: Command ensures Places(q, c) == Count(c < q.issued) {
      assert Places(p, c) == Count(c < p.issued);
    }
  }

  lemma MovesNothing(p: Peer, a: Action)
    requires !a.Arrive? && !a.Offer?
    ensures var q := Step(p, a);
            && q.issued == p.issued && q.inside == p.inside && q.accepted == p.accepted
            && q.refused == p.refused && q.full == p.full
  {
  }

  lemma BookedStep(p: Peer, a: Action)
    requires Booked(p)
    ensures Booked(Step(p, a))
  {
    match a {
      case Arrive => BookedArrive(p);
      case Offer(c) => BookedOffer(p, c);
      case _ =>
        MovesNothing(p, a);
        BookedSame(p, Step(p, a));
    }
  }

  lemma ShutStep(p: Peer, a: Action)
    requires Shut(p)
    ensures Shut(Step(p, a))
  {
  }

  lemma FailedSnoc(taken: seq<Taken>, t: Taken)
    ensures Failed(taken + [t]) == Failed(taken) + if t.end in {SendFailed, RoleChanged} then {t.cmd} else {}
  {
    assert forall u :: u in taken + [t] <==> u in taken || u == t;
  }

  lemma FailedTaken(taken: seq<Taken>)
    ensures forall c :: c in Failed(taken) ==> c in Commands(taken)
  {
    forall c | c in Failed(taken) ensures c in Commands(taken) {
      var t :| t in taken && t.cmd == c;
      var i :| 0 <= i < |taken| && taken[i] == t;
      assert Commands(taken)[i] == c;
    }
  }

  /** A command in the worker's hand has not been released. */
  lemma HeldIsNew(p: Peer)
    requires InOrder(p) && Booked(p) && Settled(p) && Held(p) != []
    ensures p.worker.cmd !in p.released && p.worker.cmd !in p.full && p.worker.cmd !in Failed(p.taken)
  {
    var c := p.worker.cmd;
    FailedTaken(p.taken);
    assert p.accepted[|p.taken|] == c;
    assert Places(p, c) == Count(c < p.issued);
    forall i | 0 <= i < |p.taken| ensures Commands(p.taken)[i] != c {
      assert p.accepted[i] == Commands(p.taken)[i];
    }
  }

  lemma SettledFinish(p: Peer, e: End, w: Worker)
    requires InOrder(p) && Booked(p) && Settled(p) && Held(p) != []
    requires w == if e in {SendFailed, RoleChanged} then Releasing(p.worker.cmd) else Waiting
    ensures Settled(Finish(p, p.worker.cmd, e, w))
  {
    HeldIsNew(p);
    FailedSnoc(p.taken, Taken(p.worker.cmd, e));
  }

  lemma SettledOffer(p: Peer, c: Command)
    requires InOrder(p) && Booked(p) && Settled(p)
    ensures Settled(Step(p, Offer(c)))
  {
    if c in p.inside {
      assert Places(p, c) == Count(c < p.issued);
      NeverTaken(p, c);
    }
  }

  lemma SettledStep(p: Peer, a: Action)
    requires InOrder(p) && Booked(p) && Settled(p)
    ensures Settled(Step(p, a))
  {
    match a {
      case Offer(c) => SettledOffer(p, c);
      case CheckRole =>
        if p.worker.Holding? && !p.trusted { SettledFinish(p, RoleChanged, Releasing(p.worker.cmd)); }
      case Send(ok) =>
        if p.worker.Sending? {
          SettledFinish(p, if ok then Sent else SendFailed, if ok then Waiting else Releasing(p.worker.cmd));
        }
      case Take =>
        if p.worker.Waiting? && p.queue != [] && p.ended { FailedSnoc(p.taken, Taken(p.queue[0], PeerGone)); }
      case DrainOne =>
        if p.worker.Draining? && p.queue != [] { FailedSnoc(p.taken, Taken(p.queue[0], PeerGone)); }
      case _ =>
    }
  }

  lemma StepInv(p: Peer, a: Action)
    requires Inv(p)
    ensures Inv(Step(p, a))
  {
    InOrderStep(p, a);
    BookedStep(p, a);
    ShutStep(p, a);
    SettledStep(p, a);
  }

  lemma InitialInv()
    ensures Inv(INITIAL)
  {
  }

  lemma {:induction false} RunInv(trace: seq<Action>)
    ensures Inv(Run(trace))
  {
    if trace == [] {
      InitialInv();
    } else {
      RunInv(trace[..|trace| - 1]);
      StepInv(Run(trace[..|trace| - 1]), trace[|trace| - 1]);
    }
  }

  /** Every command is in exactly one place: with an enqueuer, refused late,
      dropped with the queue full, or accepted; and the accepted ones are, in
      order and without repetition, those with a final outcome, the one in the
      worker's hand and those still queued. */
  lemma Accounted(trace: seq<Action>)
    ensures var p := Run(trace);
            && (forall c: Command :: c < p.issued ==> Places(p, c) == 1)
            && p.accepted == Commands(p.taken) + Held(p) + p.queue && Distinct(p.accepted)
  {
    RunInv(trace);
    var p := Run(trace);
    forall c: Command | c < p.issued ensures Places(p, c) == 1 {
      assert Places(p, c) == Count(c < p.issued);
    }
  }

  /** Releases. A reservation is released exactly for the commands dropped with the
      queue full, on a role change or a failed send, each once; never for one
      that was sent, or lost with the stream, or is still on its way. */
  lemma ReleasedExactly(trace: seq<Action>, c: Command)
    ensures var p := Run(trace);
            && (c in p.released || c in Owed(p) <==> c in p.full || c in Failed(p.taken))
            && !(c in p.released && c in Owed(p))
            && (c in p.released || c in Owed(p) ==>
                  && c !in p.inside && c !in p.refused && c !in Held(p) + p.queue
                  && Taken(c, Sent) !in p.taken && Taken(c, PeerGone) !in p.taken)
  {
    RunInv(trace);
    var p := Run(trace);
    assert c in p.released + Owed(p) <==> c in p.full + Failed(p.taken);
    assert Places(p, c) == Count(c < p.issued);
    if c in Failed(p.taken) {
      var t :| t in p.taken && t.end in {SendFailed, RoleChanged} && t.cmd == c;
      OneEnd(p, t);
    } else if c in p.full {
      NeverTaken(p, c);
    }
  }

  lemma ReleasedFailed(p: Peer, c: Command)
    requires Inv(p) && c in p.released
    ensures c in p.full || c in Failed(p.taken)
    ensures Taken(c, Sent) !in p.taken
  {
    assert c in p.full + Failed(p.taken);
    assert Places(p, c) == Count(c < p.issued);
    if c in Failed(p.taken) {
      var t :| t in p.taken && t.end in {SendFailed, RoleChanged} && t.cmd == c;
      OneEnd(p, t);
    } else {
      NeverTaken(p, c);
    }
  }

  /** A command that has arrived and not been released. */
  lemma Fate(p: Peer, c: Command)
    requires Inv(p) && c < p.issued && c !in p.released
    ensures || c in p.inside || c in Held(p) + p.queue || c in p.refused || c in Owed(p)
            || Taken(c, Sent) in p.taken || Taken(c, PeerGone) in p.taken
  {
    assert Places(p, c) == 1;
    assert c in p.full + Failed(p.taken) ==> c in Owed(p);
    if c in p.accepted && c !in Held(p) + p.queue {
      assert p.accepted == Commands(p.taken) + (Held(p) + p.queue);
      assert c in Commands(p.taken);
      var i :| 0 <= i < |p.taken| && Commands(p.taken)[i] == c;
      var t := p.taken[i];
      assert t in p.taken && t == Taken(c, t.end);
      match t.end
      case Sent =>
      case PeerGone =>
      case _ => assert c in Failed(p.taken);
    }
  }

  lemma OwedIssued(p: Peer)
    requires Inv(p)
    ensures forall c :: c in p.released || c in Owed(p) ==> c < p.issued
  {
    forall c | c in p.released || c in Owed(p) ensures c < p.issued {
      assert c in p.full + Failed(p.taken);
      assert Places(p, c) == Count(c < p.issued);
      if c in Failed(p.taken) {
        var t :| t in p.taken && t.end in {SendFailed, RoleChanged} && t.cmd == c;
        OneEnd(p, t);
      }
    }
  }

  lemma NothingReleased(p: Peer, a: Action)
    requires !a.Release?
    ensures Step(p, a).released == p.released && Step(p, a).issued == p.issued + Count(a.Arrive?)
  {
  }

  /** Where a finished command is, and how it ended, is settled. */
  lemma OneEnd(p: Peer, t: Taken)
    requires InOrder(p) && Booked(p) && t in p.taken
    ensures t.cmd in p.accepted && t.cmd !in Held(p) + p.queue
    ensures forall u :: u in p.taken && u.cmd == t.cmd ==> u == t
  {
    var i :| 0 <= i < |p.taken| && p.taken[i] == t;
    assert p.accepted[i] == t.cmd;
    forall u | u in p.taken && u.cmd == t.cmd ensures u == t {
      var j :| 0 <= j < |p.taken| && p.taken[j] == u;
      assert p.accepted[j] == t.cmd;
    }
    forall j | 0 <= j < |Held(p) + p.queue| ensures (Held(p) + p.queue)[j] != t.cmd {
      assert p.accepted[|p.taken| + j] == (Held(p) + p.queue)[j];
    }
  }

  lemma NeverTaken(p: Peer, c: Command)
    requires InOrder(p) && c !in p.accepted
    ensures c !in Held(p) + p.queue && forall u :: u in p.taken ==> u.cmd != c
  {
    forall i | 0 <= i < |p.accepted| ensures p.accepted[i] != c {
    }
    forall j | 0 <= j < |Held(p) + p.queue| ensures (Held(p) + p.queue)[j] != c {
      assert p.accepted[|p.taken| + j] == (Held(p) + p.queue)[j];
    }
    forall u | u in p.taken ensures u.cmd != c {
      var i :| 0 <= i < |p.taken| && p.taken[i] == u;
      assert p.accepted[i] == u.cmd;
    }
  }

  lemma ClosedStep(p: Peer, a: Action)
    requires Shut(p) && p.closed
    ensures Step(p, a).closed && Step(p, a).accepted == p.accepted
    ensures p.worker.Done? ==> Step(p, a).worker.Done? && Step(p, a).queue == []
  {
  }

  /** Nothing enters the queue once it is closed, and it stays empty after the
      closing drain, whatever happens next. */
  lemma {:induction false} NothingAfterClose(trace: seq<Action>, later: seq<Action>)
    requires Run(trace).closed
    ensures Run(trace + later).closed && Run(trace + later).accepted == Run(trace).accepted
    ensures Run(trace).worker.Done? ==> Run(trace + later).worker.Done? && Run(trace + later).queue == []
    decreases |later|
  {
    if later == [] {
      assert trace + later == trace;
      RunInv(trace);
    } else {
      var n := |later| - 1;
      NothingAfterClose(trace, later[..n]);
      RunInv(trace + later[..n]);
      ClosedStep(Run(trace + later[..n]), later[n]);
      RunSnoc(trace, later);
    }
  }

  lemma {:induction false} RunSnoc(trace: seq<Action>, later: seq<Action>)
    requires later != []
    ensures Run(trace + later) == Step(Run(trace + later[..|later| - 1]), later[|later| - 1])
  {
    var n, all := |later| - 1, trace + later;
    assert all[..|all| - 1] == trace + later[..n] && all[|all| - 1] == later[n];
  }

  /** `s` keeps the order of `t`: it is `t` with some elements left out. */
  ghost predicate Subsequence(s: seq<Command>, t: seq<Command>) {
    s == [] || (t != [] && (if s[|s| - 1] == t[|t| - 1] then Subsequence(s[..|s| - 1], t[..|t| - 1])
                            else Subsequence(s, t[..|t| - 1])))
  }

  lemma {:induction false} SubsequenceSkip(s: seq<Command>, t: seq<Command>, c: Command)
    requires Subsequence(s, t) && c !in t && (forall x :: x in s ==> x in t)
    ensures Subsequence(s, t + [c])
  {
    assert (t + [c])[..|t|] == t;
  }

  lemma {:induction false} SentInOrder(taken: seq<Taken>)
    requires Distinct(Commands(taken))
    ensures Subsequence(SentOf(taken), Commands(taken))
    ensures forall c :: c in SentOf(taken) ==> c in Commands(taken)
  {
    if taken != [] {
      var n := |taken| - 1;
      assert Commands(taken[..n]) == Commands(taken)[..n];
      SentInOrder(taken[..n]);
      assert Commands(taken) == Commands(taken[..n]) + [taken[n].cmd];
      if taken[n].end == Sent {
        assert SentOf(taken)[..|SentOf(taken)| - 1] == SentOf(taken[..n]);
      } else {
        assert taken[n].cmd !in Commands(taken[..n]);
        assert SentOf(taken) == SentOf(taken[..n]);
        SubsequenceSkip(SentOf(taken[..n]), Commands(taken[..n]), taken[n].cmd);
      }
    }
  }

  /** Sends keep enqueue order. */
  lemma SendsKeepOrder(trace: seq<Action>)
    ensures var p := Run(trace);
            Commands(p.taken) <= p.accepted && Subsequence(SentOf(p.taken), Commands(p.taken))
  {
    RunInv(trace);
    var p := Run(trace);
    assert Commands(p.taken) == p.accepted[..|p.taken|];
    SentInOrder(p.taken);
  }

  // ---- Why a command ended as it did ----

  /** Step `a` from `p` ends a queued command like this. */
  predicate Ends(p: Peer, a: Action, t: Taken) {
    match t.end
    case Sent => a == Send(true) && p.worker == Sending(t.cmd)
    case SendFailed => a == Send(false) && p.worker == Sending(t.cmd)
    case RoleChanged => a == CheckRole && p.worker == Holding(t.cmd) && !p.trusted
    case PeerGone => (a == Take || a == DrainOne) && p.ended && p.queue != [] && p.queue[0] == t.cmd
  }

  /** The role of the peer is read while the worker holds the command, and allows a send. */
  predicate Cleared(p: Peer, a: Action, c: Command) {
    a == CheckRole && p.worker == Holding(c) && p.trusted
  }

  /** The command goes where the queue as its enqueuer finds it says. */
  predicate Turned(p: Peer, a: Action, c: Command, q: Peer) {
    && (c in q.full && c !in p.full ==> a == Offer(c) && c in p.inside && |p.queue| >= QUEUE_SIZE)
    && (c in q.accepted && c !in p.accepted ==> a == Offer(c) && c in p.inside && |p.queue| < QUEUE_SIZE)
    && (c in q.refused && c !in p.refused ==> a == Arrive && p.issued == c && p.closed)
  }

  predicate EndsAt(trace: seq<Action>, n: int, t: Taken) {
    0 <= n < |trace| && Ends(Run(trace[..n]), trace[n], t)
  }

  predicate ClearedAt(trace: seq<Action>, n: int, c: Command) {
    0 <= n < |trace| && Cleared(Run(trace[..n]), trace[n], c)
  }

  ghost predicate WasCleared(trace: seq<Action>, c: Command) {
    exists n :: ClearedAt(trace, n, c)
  }

  lemma EndsBefore(trace: seq<Action>, n: int, t: Taken)
    requires trace != [] && EndsAt(trace[..|trace| - 1], n, t)
    ensures EndsAt(trace, n, t)
  {
    assert trace[..|trace| - 1][..n] == trace[..n];
  }

  lemma ClearedBefore(trace: seq<Action>, c: Command)
    requires trace != [] && WasCleared(trace[..|trace| - 1], c)
    ensures WasCleared(trace, c)
  {
    var n :| ClearedAt(trace[..|trace| - 1], n, c);
    assert trace[..|trace| - 1][..n] == trace[..n];
    assert ClearedAt(trace, n, c);
  }

  /** One step ends at most one command, and ends it as it says. */
  lemma EndsStep(p: Peer, a: Action)
    requires Shut(p)
    ensures var q := Step(p, a).taken;
            q == p.taken || (|q| == |p.taken| + 1 && q[..|p.taken|] == p.taken && Ends(p, a, q[|p.taken|]))
    ensures Step(p, a).worker.Sending? ==> p.worker == Step(p, a).worker || Cleared(p, a, Step(p, a).worker.cmd)
  {
  }

  lemma {:induction false} SendingIsCleared(trace: seq<Action>)
    ensures Run(trace).worker.Sending? ==> WasCleared(trace, Run(trace).worker.cmd)
  {
    if trace != [] && Run(trace).worker.Sending? {
      var n := |trace| - 1;
      var c := Run(trace).worker.cmd;
      RunInv(trace[..n]);
      SendingIsCleared(trace[..n]);
      EndsStep(Run(trace[..n]), trace[n]);
      if Run(trace[..n]).worker == Run(trace).worker {
        ClearedBefore(trace, c);
      } else {
        assert ClearedAt(trace, n, c);
      }
    }
  }

  /** Nothing ends without its reason. A command was sent, or failed to be, only by a send
      after a check that found the peer trusted; it ended on a role change only by a
      check that found it not trusted any more; and it was lost only once the stream
      had ended. */
  lemma {:induction false} EndedWithReason(trace: seq<Action>, t: Taken)
    requires t in Run(trace).taken
    ensures exists n :: EndsAt(trace, n, t)
    ensures t.end in {Sent, SendFailed} ==> WasCleared(trace, t.cmd)
  {
    if trace != [] {
      var n := |trace| - 1;
      var p := Run(trace[..n]);
      RunInv(trace[..n]);
      EndsStep(p, trace[n]);
      if t in p.taken {
        EndedWithReason(trace[..n], t);
        var m :| EndsAt(trace[..n], m, t);
        EndsBefore(trace, m, t);
        if t.end in {Sent, SendFailed} { ClearedBefore(trace, t.cmd); }
      } else {
        assert EndsAt(trace, n, t);
        if t.end in {Sent, SendFailed} {
          SendingIsCleared(trace[..n]);
          ClearedBefore(trace, t.cmd);
        }
      }
    }
  }

  /** Nothing is turned away without reason: a command is dropped only by an offer to a
      full queue, accepted only by an offer to one with room, and refused only if it
      arrives after the queue was closed. */
  lemma TurnedWithReason(trace: seq<Action>, a: Action, c: Command)
    ensures Turned(Run(trace), a, c, Run(trace + [a]))
  {
    assert (trace + [a])[..|trace|] == trace;
    RunInv(trace);
  }
}

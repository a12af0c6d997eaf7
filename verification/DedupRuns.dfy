/** What whole runs of the block dedup promise besides soundness: nobody who was
    given a block is sent it again within the TTL, and a decision is published
    exactly when none was within the TTL. */
module DedupRuns {
  import opened BlockDedup
  import opened DedupProtocol

  // ---- Publication ----

  /** Every publication the record remembers is in the history. */
  predicate Remembered(r: Record, src: Source, log: seq<Event>) {
    forall sc :: sc in r.published ==> Shown(src, sc, r.published[sc]) in log
  }

  ghost predicate AllRemembered(s: System) {
    forall src :: Remembered(RecordOf(s.table, src), src, s.log)
  }

  lemma ReserveRemembered(s: System, src: Source, scope: Scope, targets: seq<Key>, excluded: seq<Key>, now: int)
    requires AllRemembered(s)
    ensures AllRemembered(Reserve(s, src, scope, targets, excluded, now))
  {
    var t := Reserve(s, src, scope, targets, excluded, now);
    ItsSource(s, src, scope, targets, excluded, now);
    forall other ensures Remembered(RecordOf(t.table, other), other, t.log) {
      assert Remembered(RecordOf(s.table, other), other, s.log);
      if other != src {
        OnlyItsSource(s, src, scope, targets, excluded, now, other);
      }
    }
  }

  lemma ReleaseRemembered(s: System, i: Item)
    requires AllRemembered(s)
    ensures AllRemembered(Step(s, GiveUp(i)))
  {
    var t := Step(s, GiveUp(i));
    forall other ensures Remembered(RecordOf(t.table, other), other, t.log) {
      assert Remembered(RecordOf(s.table, other), other, s.log);
      assert RecordOf(t.table, other).published == RecordOf(s.table, other).published;
    }
  }

  lemma SameRemembered(s: System, t: System)
    requires AllRemembered(s) && t.table == s.table && t.log == s.log
    ensures AllRemembered(t)
  {
    forall other ensures Remembered(RecordOf(t.table, other), other, t.log) {
      assert Remembered(RecordOf(s.table, other), other, s.log);
    }
  }

  lemma StepRemembered(s: System, a: Action)
    requires AllRemembered(s)
    ensures AllRemembered(Step(s, a))
  {
    if Enabled(s, a) {
      match a {
        case BlockLocal(src, origin, now) => ReserveRemembered(s, src, Local, [origin], [], now);
        case BlockFanout(src, origin, peers, now) =>
          ReserveRemembered(s, src, Fanout, [origin] + peers, [], now);
          SameRemembered(Reserve(s, src, Fanout, [origin] + peers, [], now), Step(s, a));
        case BlockBroadcast(src, snap, now) =>
          ReserveRemembered(s, src, Broadcast, snap.targets, snap.excluded, now);
        case GiveUp(i) => ReleaseRemembered(s, i);
        case _ => SameRemembered(s, Step(s, a));
      }
    }
  }

  lemma {:induction false} RunRemembered(trace: seq<Action>)
    ensures AllRemembered(Run(trace))
  {
    if trace != [] {
      RunRemembered(trace[..|trace| - 1]);
      StepRemembered(Run(trace[..|trace| - 1]), trace[|trace| - 1]);
    }
  }

  /** The history shows a publication within the TTL. */
  ghost predicate ShownWithin(log: seq<Event>, src: Source, scope: Scope, now: int) {
    exists at :: Shown(src, scope, at) in log && now - at < RECENT_BLOCK_TTL
  }

  lemma PublishedIsShown(s: System, src: Source, scope: Scope, now: int)
    requires Inv(s) && AllRemembered(s) && ClockMoves(s, now)
    ensures PublishedWithin(StartingRecord(s.table, src, now), scope, now) <==> ShownWithin(s.log, src, scope, now)
  {
    var start := StartingRecord(s.table, src, now);
    StartingRecordInv(s, src, now);
    assert Remembered(RecordOf(s.table, src), src, s.log);
    if ShownWithin(s.log, src, scope, now) {
      var at :| Shown(src, scope, at) in s.log && now - at < RECENT_BLOCK_TTL;
      assert ShownTracked(Shown(src, scope, at), start, now);
    }
    if PublishedWithin(start, scope, now) {
      assert Shown(src, scope, start.published[scope]) in s.log;
    }
  }

  /** Published exactly when due. After any run, a reservation publishes its decision,
      and adds the publication to the history, if and only if it sends the block to
      somebody and the history shows no publication of this source at this scope
      within the TTL. */
  lemma PublishedExactly(trace: seq<Action>, src: Source, scope: Scope, targets: seq<Key>, excluded: seq<Key>,
                         now: int)
    requires ClockMoves(Run(trace), now)
    ensures var s := Run(trace);
            var o := ReserveBlock(s.table, s.swept, src, scope, targets, excluded, now);
            && (o.publish <==> o.due != [] && !ShownWithin(s.log, src, scope, now))
            && (Shown(src, scope, now) in Reserve(s, src, scope, targets, excluded, now).log[|s.log|..] <==> o.publish)
  {
    RunInv(trace);
    RunRemembered(trace);
    PublishesDue(Run(trace), src, scope, targets, excluded, now);
  }

  lemma PublishesDue(s: System, src: Source, scope: Scope, targets: seq<Key>, excluded: seq<Key>, now: int)
    requires Inv(s) && AllRemembered(s) && ClockMoves(s, now)
    ensures var o := ReserveBlock(s.table, s.swept, src, scope, targets, excluded, now);
            && (o.publish <==> o.due != [] && !ShownWithin(s.log, src, scope, now))
            && (Shown(src, scope, now) in Reserve(s, src, scope, targets, excluded, now).log[|s.log|..] <==> o.publish)
  {
    var start := StartingRecord(s.table, src, now);
    StartingRecordInv(s, src, now);
    ItsSource(s, src, scope, targets, excluded, now);
    ItsRecord(s.table, s.swept, src, scope, targets, excluded, now);
    PublishedIsShown(s, src, scope, now);
    DueExactly(start, src, scope, targets, excluded, now, s.log);
  }

  /** What a reservation appends holds a publication if and only if it publishes. */
  lemma DueExactly(start: Record, src: Source, scope: Scope, targets: seq<Key>, excluded: seq<Key>, now: int,
                   log: seq<Event>)
    requires WellFormed(start)
    ensures var o := ReserveRecord(start, scope, targets, excluded, now);
            && (o.publish <==> o.due != [] && !PublishedWithin(start, scope, now))
            && (log + Appended(start, src, scope, targets, excluded, now))[|log|..]
               == Appended(start, src, scope, targets, excluded, now)
            && (Shown(src, scope, now) in Appended(start, src, scope, targets, excluded, now) <==> o.publish)
  {
    var pending := Pending(start, targets, now);
    if pending != [] {
      ReserveSends(start, scope, targets, excluded, now, pending[0]);
    }
  }

  // ---- Nobody is sent the block twice ----

  /** This step of the system gave `k` the block of `src` at time `at`. */
  ghost predicate Gave(s: System, a: Action, src: Source, k: Key, at: int) {
    && Enabled(s, a)
    && match a
       case BlockLocal(of, origin, now) => of == src && now == at && k in Due(s, src, Local, [origin], [], at)
       case BlockFanout(of, origin, peers, now) =>
         of == src && now == at && k in Due(s, src, Fanout, [origin] + peers, [], at)
       case BlockBroadcast(of, snap, now) =>
         of == src && now == at && k in Due(s, src, Broadcast, snap.targets, snap.excluded, at)
       case _ => false
  }

  /** A Broadcast of `src` to `targets` would bring the entries earlier ones hold, and
      that have not expired, past the bound. */
  ghost predicate PastBound(s: System, src: Source, targets: seq<Key>, now: int) {
    var r := RecordOf(s.table, src);
    var held := set k | k in r.sent && r.sent[k].broadcast && now - r.sent[k].at < RECENT_BLOCK_TTL;
    |held| + |Pending(StartingRecord(s.table, src, now), targets, now)| > MAX_BLOCK_SENT_ENTRIES
  }

  /** What a gift has left in the record, until it expires. */
  predicate Marked(r: Record, k: Key, at: int, broadcast: bool) {
    || (k in r.sent && r.sent[k] == SentEntry(at, broadcast))
    || (broadcast && Covers(r.mark, k, at) && r.mark.at == at)
  }

  lemma MarkedHas(r: Record, k: Key, at: int, broadcast: bool, now: int)
    requires Marked(r, k, at, broadcast) && Recent(at, now)
    ensures Has(r, k, now)
  {
  }

  lemma StartingMarked(s: System, src: Source, k: Key, at: int, broadcast: bool, now: int)
    requires WellFormed(RecordOf(s.table, src)) && Marked(RecordOf(s.table, src), k, at, broadcast) && Recent(at, now)
    ensures Marked(StartingRecord(s.table, src, now), k, at, broadcast)
  {
  }

  /** A reservation leaves it alone, unless it is a Broadcast that starts over. */
  lemma ReserveMarked(r: Record, scope: Scope, targets: seq<Key>, excluded: seq<Key>, now: int, k: Key, at: int,
                      broadcast: bool)
    requires Marked(r, k, at, broadcast) && Recent(at, now)
    requires broadcast ==> !Overflows(r, scope, Pending(r, targets, now))
    ensures Marked(ReserveRecord(r, scope, targets, excluded, now).record, k, at, broadcast)
    ensures k !in ReserveRecord(r, scope, targets, excluded, now).due
  {
    var base := Base(r, scope, targets, now);
    assert Marked(base, k, at, broadcast);
    MarkedHas(base, k, at, broadcast, now);
  }

  lemma PastBoundOverflows(s: System, src: Source, scope: Scope, targets: seq<Key>, now: int)
    requires WellFormed(RecordOf(s.table, src))
    requires scope == Broadcast ==> !PastBound(s, src, targets, now)
    ensures var start := StartingRecord(s.table, src, now); !Overflows(start, scope, Pending(start, targets, now))
  {
    var r, start := RecordOf(s.table, src), StartingRecord(s.table, src, now);
    assert BroadcastKeys(start.sent)
        == set k | k in r.sent && r.sent[k].broadcast && now - r.sent[k].at < RECENT_BLOCK_TTL;
  }

  lemma ItsMarked(s: System, src: Source, scope: Scope, targets: seq<Key>, excluded: seq<Key>, now: int,
                  k: Key, at: int, broadcast: bool)
    requires Inv(s) && Marked(RecordOf(s.table, src), k, at, broadcast) && Recent(at, now)
    requires broadcast && scope == Broadcast ==> !PastBound(s, src, targets, now)
    ensures Marked(RecordOf(Reserve(s, src, scope, targets, excluded, now).table, src), k, at, broadcast)
    ensures k !in Due(s, src, scope, targets, excluded, now)
  {
    assert RecordInv(RecordOf(s.table, src), src, s.registered, s.clock, s.outstanding, s.log);
    StartingMarked(s, src, k, at, broadcast, now);
    if broadcast { PastBoundOverflows(s, src, scope, targets, now); }
    ReserveMarked(StartingRecord(s.table, src, now), scope, targets, excluded, now, k, at, broadcast);
    ItsSource(s, src, scope, targets, excluded, now);
  }

  lemma OtherMarked(s: System, of: Source, scope: Scope, targets: seq<Key>, excluded: seq<Key>, now: int,
                    src: Source, k: Key, at: int, broadcast: bool)
    requires Inv(s) && of != src && Marked(RecordOf(s.table, src), k, at, broadcast) && Recent(at, now)
    ensures Marked(RecordOf(Reserve(s, of, scope, targets, excluded, now).table, src), k, at, broadcast)
  {
    assert RecordInv(RecordOf(s.table, src), src, s.registered, s.clock, s.outstanding, s.log);
    OnlyItsSource(s, of, scope, targets, excluded, now, src);
  }

  /** The step makes a Broadcast of `src` start over. */
  ghost predicate StartsAfresh(s: System, a: Action, src: Source) {
    Enabled(s, a) && a.BlockBroadcast? && a.src == src && PastBound(s, src, a.snapshot.targets, a.now)
  }

  lemma StepMarked(s: System, a: Action, src: Source, k: Key, at: int, broadcast: bool)
    requires Inv(s) && Marked(RecordOf(s.table, src), k, at, broadcast) && Recent(at, Step(s, a).clock)
    requires Released(src, k, at) !in Step(s, a).log
    requires broadcast ==> !StartsAfresh(s, a, src)
    ensures Marked(RecordOf(Step(s, a).table, src), k, at, broadcast) == true
  {
    if Enabled(s, a) {
      match a {
        case BlockLocal(of, origin, now) =>
          if of == src { ItsMarked(s, src, Local, [origin], [], now, k, at, broadcast); }
          else { OtherMarked(s, of, Local, [origin], [], now, src, k, at, broadcast); }
        case BlockFanout(of, origin, peers, now) =>
          if of == src { ItsMarked(s, src, Fanout, [origin] + peers, [], now, k, at, broadcast); }
          else { OtherMarked(s, of, Fanout, [origin] + peers, [], now, src, k, at, broadcast); }
        case BlockBroadcast(of, snap, now) =>
          if of == src { ItsMarked(s, src, Broadcast, snap.targets, snap.excluded, now, k, at, broadcast); }
          else { OtherMarked(s, of, Broadcast, snap.targets, snap.excluded, now, src, k, at, broadcast); }
        case GiveUp(i) =>
          assert Step(s, a).log[|s.log|] == Released(i.src, i.key, i.reservedAt);
        case _ =>
      }
    }
  }

  /** The gift is written down at once. */
  lemma DueMarked(start: Record, scope: Scope, targets: seq<Key>, excluded: seq<Key>, now: int, k: Key)
    requires k in ReserveRecord(start, scope, targets, excluded, now).due
    requires forall x :: x in targets ==> x !in excluded
    ensures Marked(ReserveRecord(start, scope, targets, excluded, now).record, k, now, scope == Broadcast)
  {
    var base := Base(start, scope, targets, now);
    assert k in Pending(base, targets, now);
  }

  lemma GaveMarked(s: System, a: Action, src: Source, k: Key, at: int)
    requires Inv(s) && Gave(s, a, src, k, at) == true
    ensures Marked(RecordOf(Step(s, a).table, src), k, at, a.BlockBroadcast?) == true
  {
    var start := StartingRecord(s.table, src, at);
    match a {
      case BlockLocal(of, origin, now) =>
        ItsSource(s, src, Local, [origin], [], now);
        DueMarked(start, Local, [origin], [], now, k);
      case BlockFanout(of, origin, peers, now) =>
        ItsSource(s, src, Fanout, [origin] + peers, [], now);
        DueMarked(start, Fanout, [origin] + peers, [], now, k);
      case BlockBroadcast(of, snap, now) =>
        SnapshotSeesAll(s, snap);
        ItsSource(s, src, Broadcast, snap.targets, snap.excluded, now);
        DueMarked(start, Broadcast, snap.targets, snap.excluded, now, k);
    }
  }

  lemma StepGrows(s: System, a: Action)
    ensures s.clock <= Step(s, a).clock && s.log <= Step(s, a).log
  {
  }

  /** No Broadcast of `src` after step `n` of the trace started over. */
  ghost predicate KeptSince(trace: seq<Action>, n: nat, src: Source) {
    forall m :: n < m < |trace| ==> !StartsAfresh(Run(trace[..m]), trace[m], src)
  }

  /** The gift of step `n` has neither been released nor overtaken by the TTL or by a
      Broadcast that started over. */
  ghost predicate StillGiven(trace: seq<Action>, n: nat, src: Source, k: Key, at: int) {
    && n < |trace| && Gave(Run(trace[..n]), trace[n], src, k, at)
    && Recent(at, Run(trace).clock) && Released(src, k, at) !in Run(trace).log
    && (trace[n].BlockBroadcast? ==> KeptSince(trace, n, src))
  }

  lemma StillGivenBefore(trace: seq<Action>, n: nat, src: Source, k: Key, at: int)
    requires StillGiven(trace, n, src, k, at) == true && n < |trace| - 1
    ensures StillGiven(trace[..|trace| - 1], n, src, k, at) == true
    ensures trace[n].BlockBroadcast? ==> !StartsAfresh(Run(trace[..|trace| - 1]), trace[|trace| - 1], src)
  {
    var before := trace[..|trace| - 1];
    StepGrows(Run(before), trace[|trace| - 1]);
    assert before[..n] == trace[..n];
    forall i | n < i < |before| && trace[n].BlockBroadcast? ensures !StartsAfresh(Run(before[..i]), before[i], src) {
      assert before[..i] == trace[..i];
    }
  }

  lemma StillGivenNow(trace: seq<Action>, n: nat, src: Source, k: Key, at: int)
    requires StillGiven(trace, n, src, k, at)
    ensures Recent(at, Run(trace).clock) && Released(src, k, at) !in Run(trace).log
    ensures Gave(Run(trace[..n]), trace[n], src, k, at) == true
  {
  }

  /** The mark a gift leaves, after the whole trace. */
  ghost predicate MarkedAfter(trace: seq<Action>, src: Source, k: Key, at: int, broadcast: bool) {
    Marked(RecordOf(Run(trace).table, src), k, at, broadcast)
  }

  lemma MarkedAtOnce(trace: seq<Action>, src: Source, k: Key, at: int)
    requires trace != [] && Gave(Run(trace[..|trace| - 1]), trace[|trace| - 1], src, k, at) == true
    ensures MarkedAfter(trace, src, k, at, trace[|trace| - 1].BlockBroadcast?) == true
  {
    RunInv(trace[..|trace| - 1]);
    GaveMarked(Run(trace[..|trace| - 1]), trace[|trace| - 1], src, k, at);
  }

  lemma MarkedNext(trace: seq<Action>, src: Source, k: Key, at: int, broadcast: bool)
    requires trace != [] && MarkedAfter(trace[..|trace| - 1], src, k, at, broadcast) == true
    requires Recent(at, Run(trace).clock) && Released(src, k, at) !in Run(trace).log
    requires broadcast ==> !StartsAfresh(Run(trace[..|trace| - 1]), trace[|trace| - 1], src)
    ensures MarkedAfter(trace, src, k, at, broadcast) == true
  {
    RunInv(trace[..|trace| - 1]);
    StepMarked(Run(trace[..|trace| - 1]), trace[|trace| - 1], src, k, at, broadcast);
  }

  lemma {:induction false} StaysMarked(trace: seq<Action>, n: nat, src: Source, k: Key, at: int)
    requires n < |trace| && StillGiven(trace, n, src, k, at) == true
    ensures MarkedAfter(trace, src, k, at, trace[n].BlockBroadcast?) == true
  {
    StillGivenNow(trace, n, src, k, at);
    if n == |trace| - 1 {
      MarkedAtOnce(trace, src, k, at);
    } else {
      StillGivenBefore(trace, n, src, k, at);
      StaysMarked(trace[..|trace| - 1], n, src, k, at);
      MarkedNext(trace, src, k, at, trace[n].BlockBroadcast?);
    }
  }

  /** Nobody is sent a block twice. A target that some step of a run gave the block is
      not sent it again within the TTL, by a decision at any scope, unless the gift
      was released; one given by a Broadcast also unless a Broadcast of the source
      went past the bound since. */
  lemma SentOnce(trace: seq<Action>, n: nat, src: Source, k: Key, at: int,
                 scope: Scope, targets: seq<Key>, excluded: seq<Key>, now: int)
    requires n < |trace| && Gave(Run(trace[..n]), trace[n], src, k, at) == true
    requires ClockMoves(Run(trace), now) && now - at < RECENT_BLOCK_TTL
    requires Released(src, k, at) !in Run(trace).log
    requires trace[n].BlockBroadcast? ==>
               KeptSince(trace, n, src) && (scope == Broadcast ==> !PastBound(Run(trace), src, targets, now))
    ensures k !in Due(Run(trace), src, scope, targets, excluded, now)
  {
    RunInv(trace);
    assert StillGiven(trace, n, src, k, at);
    StaysMarked(trace, n, src, k, at);
    ItsMarked(Run(trace), src, scope, targets, excluded, now, k, at, trace[n].BlockBroadcast?);
  }
}

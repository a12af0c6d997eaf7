/** Every run of the block dedup (pkg/analyzer/service.go), beside a history of what
    was granted, released and published that only ever grows. */
module DedupProtocol {
  import opened BlockDedup
  import opened Collections

  /** The streams one Broadcast saw under collectorsMu: those it sends to and
      those the scrub evidence gate keeps out. `seen` is streamKeySeq then. */
  datatype Snapshot = Snapshot(targets: seq<Key>, excluded: seq<Key>, seen: nat)

  /** A fan-out command on its way to a peer; scrubFanoutItem. */
  datatype Item = Item(src: Source, key: Key, reservedAt: int)

  datatype Event =
    | Granted(src: Source, key: Key, at: int)
    | Released(src: Source, key: Key, at: int)
    | Shown(src: Source, scope: Scope, at: int)

  datatype System = System(
    seqNo: nat,                    // streamKeySeq
    registered: set<Key>,
    snapshots: set<Snapshot>,      // every snapshot a Broadcast has taken so far
    table: map<Source, Record>,    // recentBlocks
    swept: int,                    // recentBlocksSwept
    clock: int,                    // time of the latest reservation
    outstanding: set<Item>,
    log: seq<Event>)

  datatype Action =
    | Register
    | Unregister(key: Key)
    | TakeSnapshot(targets: seq<Key>, excluded: seq<Key>)
    | BlockLocal(src: Source, origin: Key, now: int)
    | BlockFanout(src: Source, origin: Key, peers: seq<Key>, now: int)
    | BlockBroadcast(src: Source, snapshot: Snapshot, now: int)
    | GiveUp(item: Item)

  const INITIAL: System := System(0, {}, {}, map[], 0, 0, {}, [])

  /** Time does not run backwards between reservations; see `Enabled`. */
  predicate ClockMoves(s: System, now: int) {
    s.clock <= now
  }

  predicate Enabled(s: System, a: Action) {
    match a
    case Register => true
    case Unregister(k) => k in s.registered
    case TakeSnapshot(targets, excluded) =>
      // `targets` and `excluded` split the registered streams.
      && (set k | k in targets) + (set k | k in excluded) == s.registered
      && (forall k :: k in targets ==> k !in excluded)
    case BlockLocal(_, origin, now) => ClockMoves(s, now)
    case BlockFanout(_, origin, peers, now) => ClockMoves(s, now)
    case BlockBroadcast(_, snap, now) => ClockMoves(s, now) && snap in s.snapshots && snap.targets != []
    case GiveUp(item) => item in s.outstanding
  }

  function Grants(src: Source, ks: seq<Key>, now: int): (g: seq<Event>)
    ensures |g| == |ks|
    ensures forall i :: 0 <= i < |g| ==> g[i] == Granted(src, ks[i], now)
  {
    seq(|ks|, i requires 0 <= i < |ks| => Granted(src, ks[i], now))
  }

  function Reserve(s: System, src: Source, scope: Scope, targets: seq<Key>, excluded: seq<Key>, now: int): System {
    var o := ReserveBlock(s.table, s.swept, src, scope, targets, excluded, now);
    s.(table := o.table, swept := o.swept, clock := now,
       log := s.log + Grants(src, o.due, now) + (if o.publish then [Shown(src, scope, now)] else []))
  }

  function Due(s: System, src: Source, scope: Scope, targets: seq<Key>, excluded: seq<Key>, now: int): seq<Key> {
    ReserveBlock(s.table, s.swept, src, scope, targets, excluded, now).due
  }

  /** The fan-outs a decision puts on their way: the origin is sent to at once. */
  function FanoutItems(s: System, src: Source, origin: Key, peers: seq<Key>, now: int): set<Item> {
    set k | k in Due(s, src, Fanout, [origin] + peers, [], now) && k != origin :: Item(src, k, now)
  }

  /** One step of the system; an action that is not enabled does nothing. */
  function Step(s: System, a: Action): System {
    if !Enabled(s, a) then s
    else
      match a
      case Register => s.(seqNo := s.seqNo + 1, registered := s.registered + {s.seqNo + 1})
      case Unregister(k) => s.(registered := s.registered - {k})
      case TakeSnapshot(targets, excluded) => s.(snapshots := s.snapshots + {Snapshot(targets, excluded, s.seqNo)})
      case BlockLocal(src, origin, now) => Reserve(s, src, Local, [origin], [], now)
      case BlockFanout(src, origin, peers, now) =>
        Reserve(s, src, Fanout, [origin] + peers, [], now)
        .(outstanding := s.outstanding + FanoutItems(s, src, origin, peers, now))
      case BlockBroadcast(src, snap, now) => Reserve(s, src, Broadcast, snap.targets, snap.excluded, now)
      case GiveUp(i) =>
        s.(table := Release(s.table, i.src, i.key, i.reservedAt), outstanding := s.outstanding - {i},
           log := s.log + [Released(i.src, i.key, i.reservedAt)])
  }

  function Run(trace: seq<Action>): System {
    if trace == [] then INITIAL else Step(Run(trace[..|trace| - 1]), trace[|trace| - 1])
  }

  // ---- What the history must say ----

  /** A grant of the block to `k` at time `at` that was not released since. */
  ghost predicate Justified(log: seq<Event>, src: Source, k: Key, at: int) {
    exists i :: GrantStands(log, src, k, at, i)
  }

  ghost predicate GrantStands(log: seq<Event>, src: Source, k: Key, at: int, i: int) {
    && 0 <= i < |log| && log[i] == Granted(src, k, at)
    && forall j :: i < j < |log| ==> log[j] != Released(src, k, at)
  }

  /** A reservation not since released gave `k` the block of `src` less than
      recentBlockTTL ago. */
  ghost predicate HasLiveGrant(log: seq<Event>, src: Source, k: Key, now: int) {
    exists at :: Justified(log, src, k, at) && Recent(at, now)
  }

  function RecordOf(table: map<Source, Record>, src: Source): Record {
    if src in table then table[src] else EMPTY_RECORD
  }

  ghost predicate EntriesJustified(r: Record, src: Source, log: seq<Event>) {
    forall k :: k in r.sent ==> Justified(log, src, k, r.sent[k].at)
  }

  ghost predicate MarkJustified(m: Mark, src: Source, registered: set<Key>, log: seq<Event>) {
    m.Mark? ==> forall k :: k in registered && k <= m.upTo && k !in m.skip ==> Justified(log, src, k, m.at)
  }

  /** A fan-out still on its way has its own live entry, and no live mark, nor
      one made at the same instant, covers its registered peer. */
  predicate ItemTracked(i: Item, r: Record, registered: set<Key>, clock: int) {
    && i.reservedAt <= clock
    && (Recent(i.reservedAt, clock) ==> i.key in r.sent && r.sent[i.key] == SentEntry(i.reservedAt, false))
    && (r.mark.Mark? && i.key in registered
        && (r.mark.at == i.reservedAt || (Recent(i.reservedAt, clock) && Recent(r.mark.at, clock)))
        ==> i.key > r.mark.upTo || i.key in r.mark.skip)
  }

  predicate ShownTracked(e: Event, r: Record, clock: int) requires e.Shown? {
    && e.at <= clock
    && (Recent(e.at, clock) ==> e.scope in r.published && e.at <= r.published[e.scope])
  }

  ghost predicate RecordInv(r: Record, src: Source, registered: set<Key>, clock: int, outstanding: set<Item>,
                            log: seq<Event>)
  {
    && WellFormed(r) && r.at <= clock
    && EntriesJustified(r, src, log)
    && MarkJustified(r.mark, src, registered, log)
    && (forall i :: i in outstanding && i.src == src ==> ItemTracked(i, r, registered, clock))
    && (forall e :: e in log && e.Shown? && e.src == src ==> ShownTracked(e, r, clock))
  }

  predicate SnapshotOk(snap: Snapshot, seqNo: nat, registered: set<Key>) {
    && snap.seen <= seqNo
    && (forall k :: k in snap.targets ==> k !in snap.excluded && k <= snap.seen)
    && (forall k :: k in registered && k <= snap.seen ==> k in snap.targets || k in snap.excluded)
  }

  /** Decisions of one source and scope are shown at least a TTL apart. */
  ghost predicate Spaced(log: seq<Event>) {
    forall i, j :: 0 <= i < j < |log| && log[i].Shown? && log[j].Shown?
                   && log[i].src == log[j].src && log[i].scope == log[j].scope
                   ==> log[j].at - log[i].at >= RECENT_BLOCK_TTL
  }

  predicate MarkBelow(r: Record, seqNo: nat) {
    r.mark.Mark? ==> r.mark.upTo <= seqNo
  }

  ghost predicate Inv(s: System) {
    && 0 <= s.clock
    && (forall k :: k in s.registered ==> k <= s.seqNo)
    && (forall snap :: snap in s.snapshots ==> SnapshotOk(snap, s.seqNo, s.registered))
    && (forall src :: RecordInv(RecordOf(s.table, src), src, s.registered, s.clock, s.outstanding, s.log))
    && (forall src :: src in s.table ==> MarkBelow(s.table[src], s.seqNo))
    && Spaced(s.log)
  }

  // ---- The history only grows ----

  lemma JustifiedExtends(log: seq<Event>, more: seq<Event>, src: Source, k: Key, at: int)
    requires Justified(log, src, k, at)
    requires Released(src, k, at) !in more
    ensures Justified(log + more, src, k, at)
  {
    var i :| GrantStands(log, src, k, at, i);
    assert GrantStands(log + more, src, k, at, i);
  }

  lemma GrantJustifies(log: seq<Event>, more: seq<Event>, src: Source, k: Key, at: int)
    requires Granted(src, k, at) in more && Released(src, k, at) !in more
    ensures Justified(log + more, src, k, at)
  {
    var j :| 0 <= j < |more| && more[j] == Granted(src, k, at);
    assert GrantStands(log + more, src, k, at, |log| + j);
  }

  // ---- Each part of a reservation keeps the record invariant ----

  lemma ExpiredRecordInv(r: Record, src: Source, registered: set<Key>, clock: int, now: int, outstanding: set<Item>,
                         log: seq<Event>)
    requires RecordInv(r, src, registered, clock, outstanding, log)
    requires 0 <= clock <= now && !Recent(r.at, now)
    ensures RecordInv(EMPTY_RECORD, src, registered, now, outstanding, log)
  {
    forall i | i in outstanding && i.src == src ensures ItemTracked(i, EMPTY_RECORD, registered, now) {
      assert ItemTracked(i, r, registered, clock);
    }
    forall e | e in log && e.Shown? && e.src == src ensures ShownTracked(e, EMPTY_RECORD, now) {
      assert ShownTracked(e, r, clock);
    }
  }

  lemma PurgedRecordInv(r: Record, src: Source, registered: set<Key>, clock: int, now: int, outstanding: set<Item>,
                        log: seq<Event>)
    requires RecordInv(r, src, registered, clock, outstanding, log)
    requires clock <= now
    ensures RecordInv(Purged(r, now), src, registered, now, outstanding, log)
  {
    PurgedWellFormed(r, now);
    forall i | i in outstanding && i.src == src ensures ItemTracked(i, Purged(r, now), registered, now) {
      assert ItemTracked(i, r, registered, clock);
    }
    forall e | e in log && e.Shown? && e.src == src ensures ShownTracked(e, Purged(r, now), now) {
      assert ShownTracked(e, r, clock);
    }
  }

  lemma StartOverRecordInv(r: Record, src: Source, registered: set<Key>, now: int, outstanding: set<Item>,
                           log: seq<Event>)
    requires RecordInv(r, src, registered, now, outstanding, log)
    ensures RecordInv(WithoutBroadcasts(r), src, registered, now, outstanding, log)
  {
    WithoutBroadcastsFacts(r, now);
    forall i | i in outstanding && i.src == src ensures ItemTracked(i, WithoutBroadcasts(r), registered, now) {
      assert ItemTracked(i, r, registered, now);
    }
    forall e | e in log && e.Shown? && e.src == src ensures ShownTracked(e, WithoutBroadcasts(r), now) {
      assert ShownTracked(e, r, now);
    }
  }

  /** The reservation's view of the registered collectors: any it does not list
      connected after the snapshot. */
  predicate SeesAll(targets: seq<Key>, excluded: seq<Key>, registered: set<Key>) {
    && (forall k :: k in targets ==> k !in excluded)
    && (forall k :: k in registered ==> k in targets || k in excluded || k > MaxKey(targets))
  }

  lemma NewMarkJustified(base: Record, src: Source, targets: seq<Key>, excluded: seq<Key>, registered: set<Key>,
                         now: int, log: seq<Event>)
    requires SeesAll(targets, excluded, registered) && !base.mark.Mark?
    ensures MarkJustified(NewMark(base, targets, excluded, now), src, registered,
                          log + Grants(src, Pending(base, targets, now), now))
  {
    var due := Pending(base, targets, now);
    var m := NewMark(base, targets, excluded, now);
    forall k | k in registered && k <= m.upTo && k !in m.skip
      ensures Justified(log + Grants(src, due, now), src, k, now)
    {
      MarkCoversDue(base, targets, excluded, now, k);
      GrantInGrants(src, due, now, k);
      GrantJustifies(log, Grants(src, due, now), src, k, now);
    }
  }

  lemma GrantInGrants(src: Source, due: seq<Key>, now: int, k: Key)
    requires k in due
    ensures Granted(src, k, now) in Grants(src, due, now)
  {
    var i :| 0 <= i < |due| && due[i] == k;
    assert Grants(src, due, now)[i] == Granted(src, k, now);
  }

  lemma EntriesAfter(base: Record, src: Source, due: seq<Key>, now: int, broadcast: bool, log: seq<Event>)
    requires EntriesJustified(base, src, log)
    ensures EntriesJustified(base.(sent := WithSent(base.sent, due, now, broadcast)), src, log + Grants(src, due, now))
    ensures EntriesJustified(base, src, log + Grants(src, due, now))
  {
    var g := Grants(src, due, now);
    forall k | k in base.sent ensures Justified(log + g, src, k, base.sent[k].at) {
      JustifiedExtends(log, g, src, k, base.sent[k].at);
    }
    forall k | k in due ensures Justified(log + g, src, k, now) {
      GrantInGrants(src, due, now, k);
      GrantJustifies(log, g, src, k, now);
    }
  }

  lemma MarkKept(m: Mark, src: Source, due: seq<Key>, now: int, registered: set<Key>, log: seq<Event>)
    requires MarkJustified(m, src, registered, log)
    ensures MarkJustified(m, src, registered, log + Grants(src, due, now))
  {
    if m.Mark? {
      forall k | k in registered && k <= m.upTo && k !in m.skip
        ensures Justified(log + Grants(src, due, now), src, k, m.at)
      {
        JustifiedExtends(log, Grants(src, due, now), src, k, m.at);
      }
    }
  }

  /** Writing sends down keeps track of the fan-outs still on their way. */
  lemma RecordedTracked(i: Item, base: Record, asMark: bool, scope: Scope, targets: seq<Key>, excluded: seq<Key>,
                        registered: set<Key>, now: int)
    requires ItemTracked(i, base, registered, now)
    requires asMark ==> SeesAll(targets, excluded, registered) && !base.mark.Mark?
    ensures ItemTracked(i, Recorded(base, asMark, scope, targets, excluded, now), registered, now)
  {
    assert i.key in Pending(base, targets, now) ==> !Has(base, i.key, now);
  }

  lemma {:induction false} RecordedRecordInv(
      base: Record, asMark: bool, src: Source, scope: Scope, targets: seq<Key>, excluded: seq<Key>,
      registered: set<Key>, now: int, outstanding: set<Item>, log: seq<Event>)
    requires RecordInv(base, src, registered, now, outstanding, log)
    requires asMark ==> SeesAll(targets, excluded, registered) && !base.mark.Mark?
    requires asMark || !Overflows(base, scope, Pending(base, targets, now))
    ensures RecordInv(Recorded(base, asMark, scope, targets, excluded, now), src, registered, now, outstanding,
                      log + Grants(src, Pending(base, targets, now), now))
  {
    var due := Pending(base, targets, now);
    var r := Recorded(base, asMark, scope, targets, excluded, now);
    RecordedWellFormed(base, asMark, scope, targets, excluded, now);
    EntriesAfter(base, src, due, now, scope == Broadcast, log);
    if asMark {
      NewMarkJustified(base, src, targets, excluded, registered, now, log);
    } else {
      MarkKept(base.mark, src, due, now, registered, log);
    }
    forall i | i in outstanding && i.src == src ensures ItemTracked(i, r, registered, now) {
      RecordedTracked(i, base, asMark, scope, targets, excluded, registered, now);
    }
    forall e | e in log + Grants(src, due, now) && e.Shown? && e.src == src ensures ShownTracked(e, r, now) {
      assert e in log;
      assert ShownTracked(e, base, now);
    }
  }

  lemma ShownRecordInv(r: Record, src: Source, scope: Scope, registered: set<Key>, now: int, outstanding: set<Item>,
                       log: seq<Event>)
    requires RecordInv(r, src, registered, now, outstanding, log) && r.at == now
    ensures RecordInv(Published(r, scope, now), src, registered, now, outstanding,
                      log + if PublishedWithin(r, scope, now) then [] else [Shown(src, scope, now)])
  {
    var more := if PublishedWithin(r, scope, now) then [] else [Shown(src, scope, now)];
    var r' := Published(r, scope, now);
    PublishedWellFormed(r, scope, now);
    forall k | k in r.sent ensures Justified(log + more, src, k, r.sent[k].at) {
      JustifiedExtends(log, more, src, k, r.sent[k].at);
    }
    if r.mark.Mark? {
      forall k | k in registered && k <= r.mark.upTo && k !in r.mark.skip
        ensures Justified(log + more, src, k, r.mark.at)
      {
        JustifiedExtends(log, more, src, k, r.mark.at);
      }
    }
    forall i | i in outstanding && i.src == src ensures ItemTracked(i, r', registered, now) {
      assert ItemTracked(i, r, registered, now);
    }
    forall e | e in log + more && e.Shown? && e.src == src ensures ShownTracked(e, r', now) {
      if e in log { assert ShownTracked(e, r, now); }
    }
  }

  /** What a reservation appends to the history. */
  function Appended(r: Record, src: Source, scope: Scope, targets: seq<Key>, excluded: seq<Key>, now: int): seq<Event> {
    var o := ReserveRecord(r, scope, targets, excluded, now);
    Grants(src, o.due, now) + (if o.publish then [Shown(src, scope, now)] else [])
  }

  lemma {:induction false} ReserveRecordInv(
      r: Record, src: Source, scope: Scope, targets: seq<Key>, excluded: seq<Key>,
      registered: set<Key>, now: int, outstanding: set<Item>, log: seq<Event>)
    requires RecordInv(r, src, registered, now, outstanding, log)
    requires scope == Broadcast ==> SeesAll(targets, excluded, registered)
    ensures RecordInv(ReserveRecord(r, scope, targets, excluded, now).record, src, registered, now, outstanding,
                      log + Appended(r, src, scope, targets, excluded, now))
  {
    var due := Pending(r, targets, now);
    if due == [] {
      assert log + Appended(r, src, scope, targets, excluded, now) == log;
    } else {
      var asMark := Overflows(r, scope, due);
      if asMark && StartsOver(r) {
        StartOverRecordInv(r, src, registered, now, outstanding, log);
      }
      WrittenRecordInv(r, Base(r, scope, targets, now), asMark, src, scope, targets, excluded,
                       registered, now, outstanding, log);
    }
  }

  /** The sends written down and the decision shown. */
  lemma {:induction false} WrittenRecordInv(
      r: Record, base: Record, asMark: bool, src: Source, scope: Scope, targets: seq<Key>, excluded: seq<Key>,
      registered: set<Key>, now: int, outstanding: set<Item>, log: seq<Event>)
    requires RecordInv(base, src, registered, now, outstanding, log) && base.published == r.published
    requires asMark ==> SeesAll(targets, excluded, registered) && !base.mark.Mark?
    requires asMark || !Overflows(base, scope, Pending(base, targets, now))
    ensures var written := Recorded(base, asMark, scope, targets, excluded, now);
            var show := if PublishedWithin(r, scope, now) then [] else [Shown(src, scope, now)];
            RecordInv(Published(written, scope, now), src, registered, now, outstanding,
                      log + (Grants(src, Pending(base, targets, now), now) + show))
  {
    RecordedRecordInv(base, asMark, src, scope, targets, excluded, registered, now, outstanding, log);
    var grants := Grants(src, Pending(base, targets, now), now);
    var written := Recorded(base, asMark, scope, targets, excluded, now);
    ShownRecordInv(written, src, scope, registered, now, outstanding, log + grants);
    var show := if PublishedWithin(r, scope, now) then [] else [Shown(src, scope, now)];
    assert log + grants + show == log + (grants + show);
  }

  // ---- Each step of the system keeps the invariant ----

  lemma LaterRecordInv(r: Record, src: Source, registered: set<Key>, clock: int, now: int, outstanding: set<Item>,
                       log: seq<Event>)
    requires RecordInv(r, src, registered, clock, outstanding, log) && clock <= now
    ensures RecordInv(r, src, registered, now, outstanding, log)
  {
    forall i | i in outstanding && i.src == src ensures ItemTracked(i, r, registered, now) {
      assert ItemTracked(i, r, registered, clock);
    }
    forall e | e in log && e.Shown? && e.src == src ensures ShownTracked(e, r, now) {
      assert ShownTracked(e, r, clock);
    }
  }

  lemma StartingRecordInv(s: System, src: Source, now: int)
    requires Inv(s) && ClockMoves(s, now)
    ensures RecordInv(StartingRecord(s.table, src, now), src, s.registered, now, s.outstanding, s.log)
  {
    var r := RecordOf(s.table, src);
    assert RecordInv(r, src, s.registered, s.clock, s.outstanding, s.log);
    if Recent(r.at, now) {
      PurgedRecordInv(r, src, s.registered, s.clock, now, s.outstanding, s.log);
      LaterRecordInv(r, src, s.registered, s.clock, now, s.outstanding, s.log);
    } else {
      ExpiredRecordInv(r, src, s.registered, s.clock, now, s.outstanding, s.log);
    }
  }

  /** Another source's record, when the history gains events of `src` only. */
  lemma OtherRecordInv(r: Record, other: Source, src: Source, registered: set<Key>, now: int, outstanding: set<Item>,
                       log: seq<Event>, more: seq<Event>)
    requires RecordInv(r, other, registered, now, outstanding, log)
    requires other != src && forall e :: e in more ==> e.src == src
    ensures RecordInv(r, other, registered, now, outstanding, log + more)
  {
    forall k | k in r.sent ensures Justified(log + more, other, k, r.sent[k].at) {
      JustifiedExtends(log, more, other, k, r.sent[k].at);
    }
    if r.mark.Mark? {
      forall k | k in registered && k <= r.mark.upTo && k !in r.mark.skip
        ensures Justified(log + more, other, k, r.mark.at)
      {
        JustifiedExtends(log, more, other, k, r.mark.at);
      }
    }
  }

  /** A reservation touches the record of its source; any other record stays or,
      when long expired, is swept. */
  lemma OnlyItsSource(s: System, src: Source, scope: Scope, targets: seq<Key>, excluded: seq<Key>, now: int,
                      other: Source)
    requires other != src
    ensures var t := Reserve(s, src, scope, targets, excluded, now).table;
            || RecordOf(t, other) == RecordOf(s.table, other)
            || (RecordOf(t, other) == EMPTY_RECORD && !Recent(RecordOf(s.table, other).at, now))
  {
  }

  /** What a reservation leaves for its own source: the record written, or the old
      one when nothing was due. */
  lemma ItsRecord(table: map<Source, Record>, swept: int, src: Source, scope: Scope, targets: seq<Key>,
                  excluded: seq<Key>, now: int)
    ensures var o := ReserveRecord(StartingRecord(table, src, now), scope, targets, excluded, now);
            var t := ReserveBlock(table, swept, src, scope, targets, excluded, now);
            && t.due == o.due && t.publish == o.publish
            && (RecordOf(t.table, src) == o.record || (o.due == [] && RecordOf(t.table, src) == RecordOf(table, src)))
            && (o.due != [] ==> RecordOf(t.table, src) == o.record)
  {
    var o := ReserveRecord(StartingRecord(table, src, now), scope, targets, excluded, now);
    if o.due != [] {
      assert o.record.at == now;
    }
  }

  lemma ItsSource(s: System, src: Source, scope: Scope, targets: seq<Key>, excluded: seq<Key>, now: int)
    ensures var start := StartingRecord(s.table, src, now);
            var o := ReserveRecord(start, scope, targets, excluded, now);
            var t := Reserve(s, src, scope, targets, excluded, now);
            && Due(s, src, scope, targets, excluded, now) == o.due
            && t.log == s.log + Appended(start, src, scope, targets, excluded, now)
            && (RecordOf(t.table, src) == o.record || (o.due == [] && RecordOf(t.table, src) == RecordOf(s.table, src)))
            && (o.due != [] ==> RecordOf(t.table, src) == o.record)
  {
    ItsRecord(s.table, s.swept, src, scope, targets, excluded, now);
  }

  lemma RecordMarkBelow(r: Record, scope: Scope, targets: seq<Key>, excluded: seq<Key>, now: int, seqNo: nat)
    requires MarkBelow(r, seqNo) && (scope == Broadcast ==> MaxKey(targets) <= seqNo)
    ensures MarkBelow(ReserveRecord(r, scope, targets, excluded, now).record, seqNo)
  {
  }

  lemma ReserveMarkBelow(s: System, src: Source, scope: Scope, targets: seq<Key>, excluded: seq<Key>, now: int,
                         other: Source)
    requires Inv(s) && (scope == Broadcast ==> MaxKey(targets) <= s.seqNo)
    ensures MarkBelow(RecordOf(Reserve(s, src, scope, targets, excluded, now).table, other), s.seqNo)
  {
    assert MarkBelow(RecordOf(s.table, other), s.seqNo);
    if other != src {
      OnlyItsSource(s, src, scope, targets, excluded, now, other);
    } else {
      ItsRecord(s.table, s.swept, src, scope, targets, excluded, now);
      RecordMarkBelow(StartingRecord(s.table, src, now), scope, targets, excluded, now, s.seqNo);
    }
  }

  lemma ShownSpaced(start: Record, src: Source, scope: Scope, targets: seq<Key>, excluded: seq<Key>,
                    registered: set<Key>, now: int, outstanding: set<Item>, log: seq<Event>)
    requires RecordInv(start, src, registered, now, outstanding, log) && Spaced(log)
    ensures Spaced(log + Appended(start, src, scope, targets, excluded, now))
  {
    var more := Appended(start, src, scope, targets, excluded, now);
    var all := log + more;
    forall i, j | 0 <= i < j < |all| && all[i].Shown? && all[j].Shown?
                  && all[i].src == all[j].src && all[i].scope == all[j].scope
      ensures all[j].at - all[i].at >= RECENT_BLOCK_TTL
    {
      if j >= |log| {
        assert all[j] == Shown(src, scope, now) && i < |log|;
        assert log[i] in log && ShownTracked(log[i], start, now);
      }
    }
  }

  lemma {:induction false} ReserveInv(s: System, src: Source, scope: Scope, targets: seq<Key>, excluded: seq<Key>,
                                      now: int)
    requires Inv(s) && ClockMoves(s, now)
    requires scope == Broadcast ==> SeesAll(targets, excluded, s.registered) && MaxKey(targets) <= s.seqNo
    ensures Inv(Reserve(s, src, scope, targets, excluded, now))
  {
    var t := Reserve(s, src, scope, targets, excluded, now);
    StartingRecordInv(s, src, now);
    forall other ensures RecordInv(RecordOf(t.table, other), other, t.registered, t.clock, t.outstanding, t.log) {
      if other == src {
        ReserveItsInv(s, src, scope, targets, excluded, now);
      } else {
        ReserveOtherInv(s, src, scope, targets, excluded, now, other);
      }
    }
    forall other | other in t.table ensures MarkBelow(t.table[other], s.seqNo) {
      ReserveMarkBelow(s, src, scope, targets, excluded, now, other);
    }
    ItsSource(s, src, scope, targets, excluded, now);
    ShownSpaced(StartingRecord(s.table, src, now), src, scope, targets, excluded,
                s.registered, now, s.outstanding, s.log);
  }

  lemma ReserveItsInv(s: System, src: Source, scope: Scope, targets: seq<Key>, excluded: seq<Key>, now: int)
    requires Inv(s) && ClockMoves(s, now)
    requires scope == Broadcast ==> SeesAll(targets, excluded, s.registered)
    ensures var t := Reserve(s, src, scope, targets, excluded, now);
            RecordInv(RecordOf(t.table, src), src, s.registered, now, s.outstanding, t.log)
  {
    var start := StartingRecord(s.table, src, now);
    var t := Reserve(s, src, scope, targets, excluded, now);
    StartingRecordInv(s, src, now);
    ReserveRecordInv(start, src, scope, targets, excluded, s.registered, now, s.outstanding, s.log);
    ItsSource(s, src, scope, targets, excluded, now);
    if RecordOf(t.table, src) != ReserveRecord(start, scope, targets, excluded, now).record {
      assert t.log == s.log;
      assert RecordInv(RecordOf(s.table, src), src, s.registered, s.clock, s.outstanding, s.log);
      LaterRecordInv(RecordOf(s.table, src), src, s.registered, s.clock, now, s.outstanding, s.log);
    }
  }

  lemma ReserveOtherInv(s: System, src: Source, scope: Scope, targets: seq<Key>, excluded: seq<Key>, now: int,
                        other: Source)
    requires Inv(s) && ClockMoves(s, now) && other != src
    ensures var t := Reserve(s, src, scope, targets, excluded, now);
            RecordInv(RecordOf(t.table, other), other, s.registered, now, s.outstanding, t.log)
  {
    var t := Reserve(s, src, scope, targets, excluded, now);
    var r := RecordOf(s.table, other);
    assert RecordInv(r, other, s.registered, s.clock, s.outstanding, s.log);
    OnlyItsSource(s, src, scope, targets, excluded, now, other);
    if RecordOf(t.table, other) == r {
      LaterRecordInv(r, other, s.registered, s.clock, now, s.outstanding, s.log);
    } else {
      ExpiredRecordInv(r, other, s.registered, s.clock, now, s.outstanding, s.log);
    }
    ItsSource(s, src, scope, targets, excluded, now);
    var more := Appended(StartingRecord(s.table, src, now), src, scope, targets, excluded, now);
    OtherRecordInv(RecordOf(t.table, other), other, src, s.registered, now, s.outstanding, s.log, more);
  }

  /** A fan-out's sends are written down as entries of their own. */
  lemma {:induction false} FanoutTracked(s: System, src: Source, origin: Key, peers: seq<Key>, now: int, k: Key)
    requires Inv(s) && ClockMoves(s, now)
    requires k in Due(s, src, Fanout, [origin] + peers, [], now)
    ensures var t := Reserve(s, src, Fanout, [origin] + peers, [], now);
            ItemTracked(Item(src, k, now), RecordOf(t.table, src), s.registered, now)
  {
    var targets := [origin] + peers;
    var start := StartingRecord(s.table, src, now);
    ItsSource(s, src, Fanout, targets, [], now);
    assert k in Pending(start, targets, now) && !Has(start, k, now);
  }

  /** The record after the release of item `i`. */
  function ReleasedRecord(r: Record, i: Item, src: Source): Record {
    if src == i.src && i.key in r.sent && r.sent[i.key].at == i.reservedAt then r.(sent := r.sent - {i.key}) else r
  }

  lemma ReleasedWellFormed(r: Record, i: Item, src: Source)
    requires WellFormed(r)
    ensures WellFormed(ReleasedRecord(r, i, src))
  {
    SubsetCardinality(BroadcastKeys(ReleasedRecord(r, i, src).sent), BroadcastKeys(r.sent));
  }

  lemma ReleasedJustified(r: Record, i: Item, src: Source, registered: set<Key>, clock: int, outstanding: set<Item>,
                          log: seq<Event>)
    requires RecordInv(r, src, registered, clock, outstanding, log) && i in outstanding
    ensures var log' := log + [Released(i.src, i.key, i.reservedAt)];
            && EntriesJustified(ReleasedRecord(r, i, src), src, log')
            && MarkJustified(r.mark, src, registered, log')
  {
    var gone := Released(i.src, i.key, i.reservedAt);
    var r' := ReleasedRecord(r, i, src);
    forall k | k in r'.sent ensures Justified(log + [gone], src, k, r'.sent[k].at) {
      JustifiedExtends(log, [gone], src, k, r.sent[k].at);
    }
    if r.mark.Mark? {
      forall k | k in registered && k <= r.mark.upTo && k !in r.mark.skip
        ensures Justified(log + [gone], src, k, r.mark.at)
      {
        assert src == i.src ==> ItemTracked(i, r, registered, clock);
        JustifiedExtends(log, [gone], src, k, r.mark.at);
      }
    }
  }

  lemma {:induction false} GiveUpInv(s: System, i: Item)
    requires Inv(s) && i in s.outstanding
    ensures Inv(Step(s, GiveUp(i)))
  {
    var t := Step(s, GiveUp(i));
    forall src ensures RecordInv(RecordOf(t.table, src), src, t.registered, t.clock, t.outstanding, t.log) {
      assert RecordOf(t.table, src) == ReleasedRecord(RecordOf(s.table, src), i, src);
      assert RecordInv(RecordOf(s.table, src), src, s.registered, s.clock, s.outstanding, s.log);
      ReleasedRecordInv(RecordOf(s.table, src), i, src, s.registered, s.clock, s.outstanding, s.log);
    }
  }

  lemma ReleasedRecordInv(r: Record, i: Item, src: Source, registered: set<Key>, clock: int, outstanding: set<Item>,
                          log: seq<Event>)
    requires RecordInv(r, src, registered, clock, outstanding, log) && i in outstanding
    ensures RecordInv(ReleasedRecord(r, i, src), src, registered, clock, outstanding - {i},
                      log + [Released(i.src, i.key, i.reservedAt)])
  {
    ReleasedWellFormed(r, i, src);
    ReleasedJustified(r, i, src, registered, clock, outstanding, log);
    forall j | j in outstanding - {i} && j.src == src
      ensures ItemTracked(j, ReleasedRecord(r, i, src), registered, clock)
    {
      assert ItemTracked(j, r, registered, clock);
    }
    forall e | e in log + [Released(i.src, i.key, i.reservedAt)] && e.Shown? && e.src == src
      ensures ShownTracked(e, ReleasedRecord(r, i, src), clock)
    {
      assert e in log && ShownTracked(e, r, clock);
    }
  }

  lemma {:induction false} RegisterInv(s: System)
    requires Inv(s)
    ensures Inv(Step(s, Register))
  {
    var t := Step(s, Register);
    forall src ensures RecordInv(RecordOf(t.table, src), src, t.registered, t.clock, t.outstanding, t.log) {
      var r := RecordOf(s.table, src);
      assert RecordInv(r, src, s.registered, s.clock, s.outstanding, s.log);
      assert src in s.table ==> MarkBelow(s.table[src], s.seqNo);
      forall i | i in s.outstanding && i.src == src ensures ItemTracked(i, r, t.registered, t.clock) {
        assert ItemTracked(i, r, s.registered, s.clock);
      }
    }
    forall snap | snap in t.snapshots ensures SnapshotOk(snap, t.seqNo, t.registered) {
      assert SnapshotOk(snap, s.seqNo, s.registered);
    }
  }

  lemma {:induction false} UnregisterInv(s: System, k: Key)
    requires Inv(s)
    ensures Inv(Step(s, Unregister(k)))
  {
    var t := Step(s, Unregister(k));
    forall src ensures RecordInv(RecordOf(t.table, src), src, t.registered, t.clock, t.outstanding, t.log) {
      var r := RecordOf(s.table, src);
      assert RecordInv(r, src, s.registered, s.clock, s.outstanding, s.log);
      forall i | i in s.outstanding && i.src == src ensures ItemTracked(i, r, t.registered, t.clock) {
        assert ItemTracked(i, r, s.registered, s.clock);
      }
    }
    forall snap | snap in t.snapshots ensures SnapshotOk(snap, t.seqNo, t.registered) {
      assert SnapshotOk(snap, s.seqNo, s.registered);
    }
  }

  lemma {:induction false} SnapshotSeesAll(s: System, snap: Snapshot)
    requires Inv(s) && snap in s.snapshots && snap.targets != []
    ensures SeesAll(snap.targets, snap.excluded, s.registered) && MaxKey(snap.targets) <= s.seqNo
  {
    assert SnapshotOk(snap, s.seqNo, s.registered);
  }

  lemma OutstandingInv(r: Record, src: Source, registered: set<Key>, clock: int, was: set<Item>, outstanding: set<Item>,
                       log: seq<Event>)
    requires RecordInv(r, src, registered, clock, was, log)
    requires forall i :: i in outstanding && i.src == src ==> ItemTracked(i, r, registered, clock)
    ensures RecordInv(r, src, registered, clock, outstanding, log)
  {
  }

  lemma {:induction false} FanoutInv(s: System, src: Source, origin: Key, peers: seq<Key>, now: int)
    requires Inv(s) && ClockMoves(s, now)
    ensures Inv(Step(s, BlockFanout(src, origin, peers, now)))
  {
    var mid := Reserve(s, src, Fanout, [origin] + peers, [], now);
    var items := FanoutItems(s, src, origin, peers, now);
    ReserveInv(s, src, Fanout, [origin] + peers, [], now);
    FanoutStep(s, src, origin, peers, now);
    forall other
      ensures RecordInv(RecordOf(mid.table, other), other, mid.registered, mid.clock, s.outstanding + items, mid.log)
    {
      FanoutRecordInv(s, mid, src, origin, peers, now, other);
    }
    MoreOutstanding(mid, s.outstanding + items);
  }

  lemma FanoutStep(s: System, src: Source, origin: Key, peers: seq<Key>, now: int)
    requires ClockMoves(s, now)
    ensures Step(s, BlockFanout(src, origin, peers, now))
         == Reserve(s, src, Fanout, [origin] + peers, [], now)
            .(outstanding := s.outstanding + FanoutItems(s, src, origin, peers, now))
  {
  }

  lemma MoreOutstanding(s: System, outstanding: set<Item>)
    requires Inv(s)
    requires forall src :: RecordInv(RecordOf(s.table, src), src, s.registered, s.clock, outstanding, s.log)
    ensures Inv(s.(outstanding := outstanding))
  {
  }

  lemma FanoutRecordInv(s: System, mid: System, src: Source, origin: Key, peers: seq<Key>, now: int, other: Source)
    requires Inv(s) && ClockMoves(s, now) && mid == Reserve(s, src, Fanout, [origin] + peers, [], now) && Inv(mid)
    ensures RecordInv(RecordOf(mid.table, other), other, mid.registered, mid.clock,
                      s.outstanding + FanoutItems(s, src, origin, peers, now), mid.log)
  {
    var r, all := RecordOf(mid.table, other), s.outstanding + FanoutItems(s, src, origin, peers, now);
    assert RecordInv(r, other, mid.registered, mid.clock, s.outstanding, mid.log);
    forall i | i in all && i.src == other ensures ItemTracked(i, r, mid.registered, mid.clock) {
      if i !in s.outstanding {
        FanoutTracked(s, src, origin, peers, now, i.key);
      }
    }
    OutstandingInv(r, other, mid.registered, mid.clock, s.outstanding, all, mid.log);
  }

  lemma {:induction false} StepInv(s: System, a: Action)
    requires Inv(s)
    ensures Inv(Step(s, a))
  {
    if Enabled(s, a) {
      match a {
        case Register => RegisterInv(s);
        case Unregister(k) => UnregisterInv(s, k);
        case TakeSnapshot(targets, excluded) =>
          var t := Step(s, a);
          assert forall k :: k in targets ==> k in s.registered;
          forall src ensures RecordInv(RecordOf(t.table, src), src, t.registered, t.clock, t.outstanding, t.log) {
            assert RecordInv(RecordOf(s.table, src), src, s.registered, s.clock, s.outstanding, s.log);
          }
          assert forall k :: k in s.registered ==> k in targets || k in excluded;
          assert forall snap :: snap in t.snapshots ==> SnapshotOk(snap, t.seqNo, t.registered);
        case BlockLocal(src, origin, now) => ReserveInv(s, src, Local, [origin], [], now);
        case BlockFanout(src, origin, peers, now) => FanoutInv(s, src, origin, peers, now);
        case BlockBroadcast(src, snap, now) =>
          SnapshotSeesAll(s, snap);
          ReserveInv(s, src, Broadcast, snap.targets, snap.excluded, now);
        case GiveUp(i) => GiveUpInv(s, i);
      }
    }
  }

  lemma {:induction false} RunInv(trace: seq<Action>)
    ensures Inv(Run(trace))
  {
    if trace != [] {
      RunInv(trace[..|trace| - 1]);
      StepInv(Run(trace[..|trace| - 1]), trace[|trace| - 1]);
    }
  }

  // ---- The theorems ----

  /** Soundness. After any run, if a reservation at any scope withholds the block
      from a target that is still registered, then a reservation not since
      released gave that target this source's block less than a TTL ago. In
      particular the mark never covers a registered collector that was skipped
      or that connected after the Broadcast. */
  lemma {:induction false} WithheldOnlyIfGiven(trace: seq<Action>, src: Source, scope: Scope,
                                               targets: seq<Key>, excluded: seq<Key>, now: int, k: Key)
    requires var s := Run(trace);
             && ClockMoves(s, now) && k in targets && k in s.registered
             && k !in Due(s, src, scope, targets, excluded, now)
    ensures HasLiveGrant(Run(trace).log, src, k, now)
  {
    var s := Run(trace);
    var start := StartingRecord(s.table, src, now);
    RunInv(trace);
    StartingRecordInv(s, src, now);
    ItsSource(s, src, scope, targets, excluded, now);
    ReserveSends(start, scope, targets, excluded, now, k);
    if HasLiveEntry(start, k, now) {
      assert Justified(s.log, src, k, start.sent[k].at);
    } else {
      assert Justified(s.log, src, k, start.mark.at);
    }
  }

  /** The bound holds in every reachable state, and every decision is shown at
      most once per source and scope per TTL. */
  lemma {:induction false} BoundedAndSpaced(trace: seq<Action>)
    ensures forall src :: src in Run(trace).table ==>
              |BroadcastKeys(Run(trace).table[src].sent)| <= MAX_BLOCK_SENT_ENTRIES
    ensures Spaced(Run(trace).log)
  {
    RunInv(trace);
    var s := Run(trace);
    forall src | src in s.table ensures |BroadcastKeys(s.table[src].sent)| <= MAX_BLOCK_SENT_ENTRIES {
      assert RecordInv(RecordOf(s.table, src), src, s.registered, s.clock, s.outstanding, s.log);
    }
  }

  /** Completeness over runs: once a reservation has returned targets, every one
      of its targets is covered, and none of them with a live local or fan-out
      entry was sent again. */
  lemma {:induction false} ReservedIsCovered(trace: seq<Action>, src: Source, scope: Scope,
                                             targets: seq<Key>, excluded: seq<Key>, now: int, k: Key)
    requires ClockMoves(Run(trace), now) && k in targets && k !in excluded
    requires Due(Run(trace), src, scope, targets, excluded, now) != []
    ensures var s := Run(trace);
            var r := RecordOf(s.table, src);
            && Has(RecordOf(Reserve(s, src, scope, targets, excluded, now).table, src), k, now)
            && (HasLiveEntry(r, k, now) && !r.sent[k].broadcast ==> k !in Due(s, src, scope, targets, excluded, now))
  {
    var s := Run(trace);
    var start := StartingRecord(s.table, src, now);
    RunInv(trace);
    StartingRecordInv(s, src, now);
    ItsSource(s, src, scope, targets, excluded, now);
    ReserveCovers(start, scope, targets, excluded, now, k);
    ReserveSends(start, scope, targets, excluded, now, k);
    assert RecordInv(RecordOf(s.table, src), src, s.registered, s.clock, s.outstanding, s.log);
    StartingKeeps(s.table, src, now, k);
  }

  /** A live entry is still there when a reservation starts. */
  lemma StartingKeeps(table: map<Source, Record>, src: Source, now: int, k: Key)
    requires WellFormed(RecordOf(table, src))
    ensures var r, start := RecordOf(table, src), StartingRecord(table, src, now);
            HasLiveEntry(r, k, now) ==> HasLiveEntry(start, k, now) && start.sent[k] == r.sent[k]
  {
  }

  /** A fan-out given up within the TTL leaves its registered peer uncovered, so
      the next decision that targets the peer delivers the block. */
  lemma {:induction false} GiveUpDelivers(trace: seq<Action>, i: Item, now: int, scope: Scope, targets: seq<Key>,
                                          excluded: seq<Key>)
    requires var s := Run(trace);
             && i in s.outstanding && i.key in s.registered && i.key in targets
             && ClockMoves(s, now) && Recent(i.reservedAt, s.clock)
    ensures i.key in Due(Step(Run(trace), GiveUp(i)), i.src, scope, targets, excluded, now)
  {
    var s := Run(trace);
    var t := Step(s, GiveUp(i));
    var r := RecordOf(s.table, i.src);
    RunInv(trace);
    StepInv(s, GiveUp(i));
    assert RecordInv(r, i.src, s.registered, s.clock, s.outstanding, s.log);
    assert RecordOf(t.table, i.src) == ReleasedRecord(r, i, i.src);
    ReleasedUncovered(r, i, s.registered, s.clock, now);
    var start := StartingRecord(t.table, i.src, now);
    StartingHas(t.table, i.src, now, i.key);
    StartingRecordInv(t, i.src, now);
    ItsSource(t, i.src, scope, targets, excluded, now);
    ReserveSends(start, scope, targets, excluded, now, i.key);
  }

  lemma ReleasedUncovered(r: Record, i: Item, registered: set<Key>, clock: int, now: int)
    requires ItemTracked(i, r, registered, clock) && i.key in registered && Recent(i.reservedAt, clock) && clock <= now
    ensures !Has(ReleasedRecord(r, i, i.src), i.key, now)
  {
  }

  /** What a reservation starts from covers nobody the record does not. */
  lemma StartingHas(table: map<Source, Record>, src: Source, now: int, k: Key)
    ensures Has(StartingRecord(table, src, now), k, now) ==> Has(RecordOf(table, src), k, now)
  {
  }
}

/** The dedup record of one source address as a value (pkg/analyzer/service.go): who
    got the block and when, with a wide Broadcast compressed to one mark. */
module BlockDedup {
  import opened Collections

  /** recentBlockTTL, in nanoseconds. */
  const RECENT_BLOCK_TTL: int := 60_000_000_000
  /** recentBlocksSweepInterval. */
  const SWEEP_INTERVAL: int := 1_000_000_000
  /** maxBlockSentEntries. */
  const MAX_BLOCK_SENT_ENTRIES: nat := 64

  /** ip.String() of the blocked source. */
  type Source = string
  /** dedupKey of a collector stream. */
  type Key = nat

  datatype Scope = Local | Fanout | Broadcast
  datatype SentEntry = SentEntry(at: int, broadcast: bool)
  /** `NoMark` is Go's zero broadcastMark, whose `at` is the zero time. */
  datatype Mark = NoMark | Mark(at: int, upTo: Key, skip: set<Key>)
  datatype Record = Record(at: int, published: map<Scope, int>, sent: map<Key, SentEntry>, mark: Mark)

  /** What one reservation leaves behind and tells its caller. */
  datatype Outcome = Outcome(record: Record, due: seq<Key>, publish: bool)

  const EMPTY_RECORD: Record := Record(0, map[], map[], NoMark)

  predicate Recent(at: int, now: int) {
    now - at < RECENT_BLOCK_TTL
  }

  predicate Covers(m: Mark, k: Key, now: int) {
    m.Mark? && Recent(m.at, now) && k <= m.upTo && k !in m.skip
  }

  predicate HasLiveEntry(r: Record, k: Key, now: int) {
    k in r.sent && Recent(r.sent[k].at, now)
  }

  predicate Has(r: Record, k: Key, now: int) {
    HasLiveEntry(r, k, now) || Covers(r.mark, k, now)
  }

  function Pending(r: Record, targets: seq<Key>, now: int): (due: seq<Key>)
    ensures forall k :: k in due <==> k in targets && !Has(r, k, now)
    ensures |due| <= |targets|
  {
    if targets == [] then []
    else
      var rest := Pending(r, targets[1..], now);
      assert targets == [targets[0]] + targets[1..];
      if Has(r, targets[0], now) then rest else [targets[0]] + rest
  }

  predicate PublishedWithin(r: Record, scope: Scope, now: int) {
    scope in r.published && Recent(r.published[scope], now)
  }

  /** The entries Broadcasts hold in a record; bcastEntries counts them. */
  function BroadcastKeys(sent: map<Key, SentEntry>): set<Key> {
    set k | k in sent && sent[k].broadcast
  }

  /** Expired entries and an expired mark dropped. */
  function Purged(r: Record, now: int): Record {
    r.(sent := map k | k in r.sent && Recent(r.sent[k].at, now) :: r.sent[k],
       mark := if r.mark.Mark? && Recent(r.mark.at, now) then r.mark else NoMark)
  }

  /** The mark and every Broadcast entry dropped ("start over"). */
  function WithoutBroadcasts(r: Record): Record {
    r.(sent := map k | k in r.sent && !r.sent[k].broadcast :: r.sent[k], mark := NoMark)
  }

  function MaxKey(ks: seq<Key>): (m: Key)
    ensures forall k :: k in ks ==> k <= m
    ensures ks != [] ==> m in ks
  {
    if ks == [] then 0
    else
      var m := MaxKey(ks[1..]);
      assert ks == [ks[0]] + ks[1..];
      if ks[0] > m then ks[0]
      else
        assert ks[1..] == [] ==> ks[0] == 0;
        m
  }

  /** newBroadcastMark. */
  function NewMark(r: Record, targets: seq<Key>, excluded: seq<Key>, now: int): Mark {
    var upTo := MaxKey(targets);
    Mark(now, upTo, (set k | k in targets && Has(r, k, now)) + (set k | k in excluded && k <= upTo))
  }

  function WithSent(sent: map<Key, SentEntry>, ks: seq<Key>, now: int, broadcast: bool): map<Key, SentEntry> {
    sent + map k | k in ks :: SentEntry(now, broadcast)
  }

  predicate Overflows(r: Record, scope: Scope, due: seq<Key>) {
    scope == Broadcast && |BroadcastKeys(r.sent)| + |due| > MAX_BLOCK_SENT_ENTRIES
  }

  /** A Broadcast past the bound gives up what earlier Broadcasts recorded. */
  predicate StartsOver(r: Record) {
    r.mark.Mark? || BroadcastKeys(r.sent) != {}
  }

  function Published(r: Record, scope: Scope, now: int): Record {
    if PublishedWithin(r, scope, now) then r else r.(published := r.published[scope := now])
  }

  /** What remains of the record when the reservation decides whom to send to. */
  function Base(r: Record, scope: Scope, targets: seq<Key>, now: int): Record {
    if Overflows(r, scope, Pending(r, targets, now)) && StartsOver(r) then WithoutBroadcasts(r) else r
  }

  /** The sends written down: as one mark, or as an entry each. */
  function Recorded(base: Record, asMark: bool, scope: Scope, targets: seq<Key>, excluded: seq<Key>, now: int): Record {
    if asMark then base.(at := now, mark := NewMark(base, targets, excluded, now))
    else base.(at := now, sent := WithSent(base.sent, Pending(base, targets, now), now, scope == Broadcast))
  }

  /** reserveBlockExcept on the (purged) record of one source. */
  function ReserveRecord(r: Record, scope: Scope, targets: seq<Key>, excluded: seq<Key>, now: int): Outcome {
    if Pending(r, targets, now) == [] then Outcome(r, [], false)
    else
      var base := Base(r, scope, targets, now);
      var asMark := Overflows(r, scope, Pending(r, targets, now));
      Outcome(Published(Recorded(base, asMark, scope, targets, excluded, now), scope, now),
              Pending(base, targets, now), !PublishedWithin(r, scope, now))
  }

  /** The record a reservation starts from. */
  function StartingRecord(table: map<Source, Record>, src: Source, now: int): Record {
    if src in table && Recent(table[src].at, now) then Purged(table[src], now) else EMPTY_RECORD
  }

  datatype TableOutcome = TableOutcome(table: map<Source, Record>, swept: int, due: seq<Key>, publish: bool)

  /** sweepRecentBlocksLocked. */
  function Swept(table: map<Source, Record>, swept: int, now: int): map<Source, Record> {
    if now - swept < SWEEP_INTERVAL then table
    else map s | s in table && now - table[s].at <= 2 * RECENT_BLOCK_TTL :: table[s]
  }

  /** reserveBlockExcept. */
  function ReserveBlock(table: map<Source, Record>, swept: int, src: Source, scope: Scope,
                        targets: seq<Key>, excluded: seq<Key>, now: int): TableOutcome
  {
    var known := src in table && Recent(table[src].at, now);
    var o := ReserveRecord(StartingRecord(table, src, now), scope, targets, excluded, now);
    if known then TableOutcome(table[src := o.record], swept, o.due, o.publish)
    else if o.due == [] then TableOutcome(table, swept, [], false)
    else TableOutcome(Swept(table[src := o.record], swept, now),
                      if now - swept < SWEEP_INTERVAL then swept else now, o.due, o.publish)
  }

  /** releaseBlock: compare-and-delete of one collector's entry. */
  function Release(table: map<Source, Record>, src: Source, k: Key, reservedAt: int): map<Source, Record> {
    if src in table && k in table[src].sent && table[src].sent[k].at == reservedAt
    then table[src := table[src].(sent := table[src].sent - {k})]
    else table
  }

  /** Only the entry of that collector made at that very time goes: one of a newer
      reservation stays, and nothing else changes. */
  lemma ReleaseMeaning(table: map<Source, Record>, src: Source, k: Key, reservedAt: int)
    ensures var after := Release(table, src, k, reservedAt);
            && after.Keys == table.Keys && (forall s :: s in table && s != src ==> after[s] == table[s])
            && (src in table ==>
                  after[src] == table[src].(sent := map x | x in table[src].sent
                                  && !(x == k && table[src].sent[x].at == reservedAt) :: table[src].sent[x]))
  {
    if src in table {
      var sent := table[src].sent;
      var left := map x | x in sent && !(x == k && sent[x].at == reservedAt) :: sent[x];
      assert left == if k in sent && sent[k].at == reservedAt then sent - {k} else sent;
    }
  }

  /** Facts about the record that every reservation and release keeps. */
  predicate WellFormed(r: Record) {
    && |BroadcastKeys(r.sent)| <= MAX_BLOCK_SENT_ENTRIES
    && (forall k :: k in r.sent ==> r.sent[k].at <= r.at)
    && (r.mark.Mark? ==> r.mark.at <= r.at)
    && (forall s :: s in r.published ==> r.published[s] <= r.at)
  }

  lemma PurgedWellFormed(r: Record, now: int)
    requires WellFormed(r)
    ensures WellFormed(Purged(r, now))
    ensures forall k :: Has(Purged(r, now), k, now) == Has(r, k, now)
    ensures forall k :: k in Purged(r, now).sent ==> HasLiveEntry(r, k, now)
  {
    SubsetCardinality(BroadcastKeys(Purged(r, now).sent), BroadcastKeys(r.sent));
  }

  lemma {:induction false} WithoutBroadcastsFacts(r: Record, now: int)
    requires WellFormed(r)
    ensures WellFormed(WithoutBroadcasts(r))
    ensures BroadcastKeys(WithoutBroadcasts(r).sent) == {}
    ensures forall k :: Has(WithoutBroadcasts(r), k, now) ==> HasLiveEntry(r, k, now) && !r.sent[k].broadcast
  {
  }

  lemma {:induction false} EntriesBound(r: Record, due: seq<Key>, now: int, broadcast: bool)
    ensures |BroadcastKeys(WithSent(r.sent, due, now, broadcast))|
         <= |BroadcastKeys(r.sent)| + (if broadcast then |due| else 0)
  {
    var added := if broadcast then set k | k in due else {};
    var after := BroadcastKeys(WithSent(r.sent, due, now, broadcast));
    SetOfCardinality(due);
    assert after <= BroadcastKeys(r.sent) + added;
    SubsetCardinality(after, BroadcastKeys(r.sent) + added);
  }

  lemma {:induction false} RecordedWellFormed(base: Record, asMark: bool, scope: Scope,
                                              targets: seq<Key>, excluded: seq<Key>, now: int)
    requires WellFormed(base) && base.at <= now
    requires asMark || !Overflows(base, scope, Pending(base, targets, now))
    ensures WellFormed(Recorded(base, asMark, scope, targets, excluded, now))
  {
    if !asMark {
      EntriesBound(base, Pending(base, targets, now), now, scope == Broadcast);
    }
  }

  lemma PublishedWellFormed(r: Record, scope: Scope, now: int)
    requires WellFormed(r) && r.at == now
    ensures WellFormed(Published(r, scope, now))
  {
  }

  /** Entries and bound: a reservation keeps the record well-formed, so the
      entries Broadcasts hold never pass maxBlockSentEntries. */
  lemma {:induction false} ReserveKeepsBound(r: Record, scope: Scope, targets: seq<Key>, excluded: seq<Key>, now: int)
    requires WellFormed(r) && r.at <= now
    ensures WellFormed(ReserveRecord(r, scope, targets, excluded, now).record)
  {
    if Pending(r, targets, now) != [] {
      WithoutBroadcastsFacts(r, now);
      var base := Base(r, scope, targets, now);
      var asMark := Overflows(r, scope, Pending(r, targets, now));
      RecordedWellFormed(base, asMark, scope, targets, excluded, now);
      PublishedWellFormed(Recorded(base, asMark, scope, targets, excluded, now), scope, now);
    }
  }

  /** And the entries a Broadcast adds are counted among them. */
  lemma BroadcastsCounted(r: Record, targets: seq<Key>, excluded: seq<Key>, now: int, k: Key)
    ensures var o := ReserveRecord(r, Broadcast, targets, excluded, now).record;
            k in o.sent && !o.sent[k].broadcast ==> k in r.sent && r.sent[k] == o.sent[k]
  {
  }

  /** Completeness: after a reservation that returns targets, every target is
      covered; and one that returns none changes nothing but found them covered. */
  lemma {:induction false} ReserveCovers(r: Record, scope: Scope, targets: seq<Key>, excluded: seq<Key>, now: int,
                                         k: Key)
    requires k in targets && k !in excluded
    ensures Has(ReserveRecord(r, scope, targets, excluded, now).record, k, now)
  {
    if Pending(r, targets, now) == [] {
      assert k !in Pending(r, targets, now);
    } else {
      RecordedCovers(Base(r, scope, targets, now), Overflows(r, scope, Pending(r, targets, now)), scope,
                     targets, excluded, now, k);
    }
  }

  lemma RecordedCovers(base: Record, asMark: bool, scope: Scope, targets: seq<Key>, excluded: seq<Key>, now: int,
                       k: Key)
    requires k in targets && k !in excluded && (asMark ==> !base.mark.Mark?)
    ensures Has(Recorded(base, asMark, scope, targets, excluded, now), k, now)
  {
    assert k in Pending(base, targets, now) <==> !Has(base, k, now);
  }

  /** Whom a reservation sends to: everyone not covered, and nobody who holds a
      live local or fan-out entry; the covered are sent again only by a
      Broadcast past the bound, which starts over. */
  lemma {:induction false} ReserveSends(r: Record, scope: Scope, targets: seq<Key>, excluded: seq<Key>, now: int,
                                        k: Key)
    requires WellFormed(r) && k in targets
    ensures var o := ReserveRecord(r, scope, targets, excluded, now);
            && (!Has(r, k, now) ==> k in o.due)
            && (k in o.due ==> !(HasLiveEntry(r, k, now) && !r.sent[k].broadcast))
            && (k in o.due && Has(r, k, now) ==>
                  && scope == Broadcast
                  && |set x | x in r.sent && r.sent[x].broadcast| + |Pending(r, targets, now)| > MAX_BLOCK_SENT_ENTRIES)
  {
    WithoutBroadcastsFacts(r, now);
    var base := Base(r, scope, targets, now);
    assert k in Pending(base, targets, now) <==> !Has(base, k, now);
    assert k in Pending(r, targets, now) <==> !Has(r, k, now);
    assert BroadcastKeys(r.sent) == set x | x in r.sent && r.sent[x].broadcast;
  }

  /** The new mark covers a collector of the snapshot exactly when this very
      reservation sent it the block. */
  lemma {:induction false} MarkCoversDue(r: Record, targets: seq<Key>, excluded: seq<Key>, now: int, k: Key)
    requires !r.mark.Mark?
    requires k in targets || k in excluded || k > MaxKey(targets)
    requires forall x :: x in targets ==> x !in excluded
    ensures Covers(NewMark(r, targets, excluded, now), k, now) <==> k in Pending(r, targets, now)
  {
    assert k in Pending(r, targets, now) <==> k in targets && !Has(r, k, now);
  }
}

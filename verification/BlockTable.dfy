/** The dedup records as the analyzer keeps them: objects updated in place, with
    a counter for the Broadcast entries and a sorted skip list searched by
    bisection. Every operation is proved to be the function of `BlockDedup` on
    the record's value. */
module BlockTable {
  import opened Orders
  import opened BlockDedup

  /** Go's zero time, which marks an unset broadcastMark. */
  const ZERO_TIME: int := 0

  datatype BroadcastMark = BroadcastMark(at: int, upTo: Key, skip: seq<Key>)

  const ZERO_MARK: BroadcastMark := BroadcastMark(ZERO_TIME, 0, [])

  predicate KeyLe(a: Key, b: Key) { a <= b }

  ghost function MarkValue(m: BroadcastMark): Mark {
    if m.at == ZERO_TIME then NoMark else Mark(m.at, m.upTo, set k | k in m.skip)
  }

  /** slices.BinarySearch. */
  method BinarySearch(s: seq<Key>, k: Key) returns (found: bool)
    requires SortedBy(s, KeyLe)
    ensures found <==> k in s
  {
    var lo, hi := 0, |s|;
    while lo < hi
      invariant 0 <= lo <= hi <= |s|
      invariant forall i :: 0 <= i < lo ==> s[i] < k
      invariant forall i :: hi <= i < |s| ==> k <= s[i]
    {
      var mid := (lo + hi) / 2;
      if s[mid] < k {
        assert forall i :: 0 <= i < mid ==> KeyLe(s[i], s[mid]);
        lo := mid + 1;
      } else {
        assert forall i :: mid < i < |s| ==> KeyLe(s[mid], s[i]);
        hi := mid;
      }
    }
    found := lo < |s| && s[lo] == k;
    if !found && lo < |s| {
      assert forall i :: lo < i < |s| ==> KeyLe(s[lo], s[i]);
    }
  }

  lemma BroadcastKeysUpdate(sent: map<Key, SentEntry>, k: Key, e: SentEntry)
    ensures var was := if k in sent && sent[k].broadcast then 1 else 0;
            |BroadcastKeys(sent[k := e])| == |BroadcastKeys(sent)| - was + (if e.broadcast then 1 else 0)
  {
    var rest := BroadcastKeys(sent) - {k};
    assert BroadcastKeys(sent[k := e]) == if e.broadcast then rest + {k} else rest;
    assert BroadcastKeys(sent) == if k in sent && sent[k].broadcast then rest + {k} else rest;
  }

  lemma BroadcastKeysDelete(sent: map<Key, SentEntry>, k: Key)
    requires k in sent
    ensures |BroadcastKeys(sent - {k})| == |BroadcastKeys(sent)| - (if sent[k].broadcast then 1 else 0)
  {
    assert BroadcastKeys(sent - {k}) == BroadcastKeys(sent) - {k};
  }

  method AddExcluded(skip: seq<Key>, excluded: seq<Key>, upTo: Key) returns (all: seq<Key>)
    ensures forall k :: k in all <==> k in skip || (k in excluded && k <= upTo)
  {
    all := skip;
    for i := 0 to |excluded|
      invariant forall k :: k in all <==> k in skip || (k in excluded[..i] && k <= upTo)
    {
      assert excluded[..i + 1] == excluded[..i] + [excluded[i]];
      if excluded[i] <= upTo {
        all := all + [excluded[i]];
      }
    }
    assert excluded[..|excluded|] == excluded;
  }

  function SortKeys(ks: seq<Key>): (sorted: seq<Key>)
    ensures SortedBy(sorted, KeyLe) && forall k :: k in sorted <==> k in ks
  {
    SortCorrect(ks, KeyLe);
    Sort(ks, KeyLe)
  }

  lemma WithSentSnoc(sent: map<Key, SentEntry>, ks: seq<Key>, k: Key, now: int, broadcast: bool)
    ensures WithSent(sent, ks + [k], now, broadcast)
          == WithSent(sent, ks, now, broadcast)[k := SentEntry(now, broadcast)]
  {
  }

  class BlockReservation {
    var at: int
    var published: map<Scope, int>
    var sent: map<Key, SentEntry>
    var bcastEntries: int
    var bcast: BroadcastMark

    ghost predicate Valid()
      reads this
    {
      && bcastEntries == |BroadcastKeys(sent)|
      && SortedBy(bcast.skip, KeyLe)
    }

    ghost function Value(): Record
      reads this
    {
      Record(at, published, sent, MarkValue(bcast))
    }

    constructor ()
      ensures Valid() && Value() == EMPTY_RECORD
    {
      at, published, sent, bcastEntries, bcast := 0, map[], map[], 0, ZERO_MARK;
    }

    method SetSent(k: Key, now: int, broadcast: bool)
      requires Valid()
      modifies this`sent, this`bcastEntries
      ensures Valid() && sent == old(sent)[k := SentEntry(now, broadcast)]
    {
      BroadcastKeysUpdate(sent, k, SentEntry(now, broadcast));
      if k in sent && sent[k].broadcast {
        bcastEntries := bcastEntries - 1;
      }
      sent := sent[k := SentEntry(now, broadcast)];
      if broadcast {
        bcastEntries := bcastEntries + 1;
      }
    }

    method DeleteSent(k: Key)
      requires Valid()
      modifies this`sent, this`bcastEntries
      ensures Valid() && sent == old(sent) - {k}
    {
      if k in sent {
        BroadcastKeysDelete(sent, k);
        if sent[k].broadcast {
          bcastEntries := bcastEntries - 1;
        }
        sent := sent - {k};
      }
    }

    method Covers(k: Key, now: int) returns (covered: bool)
      requires Valid()
      ensures covered == BlockDedup.Covers(MarkValue(bcast), k, now)
    {
      if bcast.at == ZERO_TIME || now - bcast.at >= RECENT_BLOCK_TTL || k > bcast.upTo {
        return false;
      }
      var skipped := BinarySearch(bcast.skip, k);
      covered := !skipped;
    }

    method Has(k: Key, now: int) returns (has: bool)
      requires Valid()
      ensures has == BlockDedup.Has(Value(), k, now)
    {
      if k in sent && now - sent[k].at < RECENT_BLOCK_TTL {
        return true;
      }
      has := Covers(k, now);
    }

    /** Copies only once the first covered target is met. */
    method Pending(targets: seq<Key>, now: int) returns (due: seq<Key>)
      requires Valid()
      ensures due == BlockDedup.Pending(Value(), targets, now)
    {
      ghost var r := Value();
      var out: seq<Key>, copied := [], false;
      for i := 0 to |targets|
        invariant BlockDedup.Pending(r, targets[..i], now) == if copied then out else targets[..i]
      {
        PendingNext(r, targets, i, now, if copied then out else targets[..i]);
        var has := Has(targets[i], now);
        if has {
          if !copied {
            out, copied := targets[..i], true;
          }
        } else if copied {
          out := out + [targets[i]];
        }
      }
      assert targets[..|targets|] == targets;
      due := if copied then out else targets;
    }

    method DropExpired(now: int)
      requires Valid()
      modifies this`sent, this`bcastEntries
      ensures Valid()
      ensures sent == map k | k in old(sent) && Recent(old(sent)[k].at, now) :: old(sent)[k]
    {
      var todo := sent.Keys;
      while todo != {}
        invariant Valid() && todo <= sent.Keys
        invariant sent == map k | k in old(sent) && (k in todo || Recent(old(sent)[k].at, now)) :: old(sent)[k]
        decreases todo
      {
        var k :| k in todo;
        todo := todo - {k};
        if now - sent[k].at >= RECENT_BLOCK_TTL {
          DeleteSent(k);
        }
      }
    }

    method DropBroadcasts()
      requires Valid()
      modifies this`sent, this`bcastEntries
      ensures Valid()
      ensures sent == map k | k in old(sent) && !old(sent)[k].broadcast :: old(sent)[k]
    {
      var todo := sent.Keys;
      while todo != {}
        invariant Valid() && todo <= sent.Keys
        invariant sent == map k | k in old(sent) && (k in todo || !old(sent)[k].broadcast) :: old(sent)[k]
        decreases todo
      {
        var k :| k in todo;
        todo := todo - {k};
        if sent[k].broadcast {
          DeleteSent(k);
        }
      }
    }

    method RecordSends(due: seq<Key>, now: int, broadcast: bool)
      requires Valid()
      modifies this`sent, this`bcastEntries
      ensures Valid() && sent == WithSent(old(sent), due, now, broadcast)
    {
      for i := 0 to |due|
        invariant Valid() && sent == WithSent(old(sent), due[..i], now, broadcast)
      {
        assert due[..i + 1] == due[..i] + [due[i]];
        WithSentSnoc(old(sent), due[..i], due[i], now, broadcast);
        SetSent(due[i], now, broadcast);
      }
      assert due[..|due|] == due;
    }

    /** The highest target, and the targets covered already. */
    method CoveredTargets(targets: seq<Key>, now: int) returns (upTo: Key, skip: seq<Key>)
      requires Valid()
      ensures upTo == MaxKey(targets)
      ensures forall k :: k in skip <==> k in targets && BlockDedup.Has(Value(), k, now)
    {
      ghost var r := Value();
      upTo, skip := 0, [];
      for i := 0 to |targets|
        invariant upTo == MaxKey(targets[..i])
        invariant forall k :: k in skip <==> k in targets[..i] && BlockDedup.Has(r, k, now)
      {
        assert targets[..i + 1] == targets[..i] + [targets[i]];
        MaxKeySnoc(targets[..i], targets[i]);
        upTo := if targets[i] > upTo then targets[i] else upTo;
        var has := Has(targets[i], now);
        if has {
          skip := skip + [targets[i]];
        }
      }
      assert targets[..|targets|] == targets;
    }

    method NewBroadcastMark(targets: seq<Key>, excluded: seq<Key>, now: int) returns (m: BroadcastMark)
      requires Valid() && now != ZERO_TIME
      ensures MarkValue(m) == NewMark(Value(), targets, excluded, now) && SortedBy(m.skip, KeyLe)
    {
      var upTo, skip := CoveredTargets(targets, now);
      skip := AddExcluded(skip, excluded, upTo);
      m := BroadcastMark(now, upTo, SortKeys(skip));
    }

    method Purge(now: int)
      requires Valid()
      modifies this`sent, this`bcastEntries, this`bcast
      ensures Valid() && Value() == Purged(old(Value()), now)
    {
      DropExpired(now);
      if bcast.at != ZERO_TIME && now - bcast.at >= RECENT_BLOCK_TTL {
        bcast := ZERO_MARK;
      }
    }

    /** Writes the sends down; `due` are the targets not covered. */
    method WriteDown(scope: Scope, targets: seq<Key>, excluded: seq<Key>, now: int, due: seq<Key>)
      returns (sendTo: seq<Key>)
      requires Valid() && now != ZERO_TIME && due == BlockDedup.Pending(Value(), targets, now)
      modifies this
      ensures Valid() && published == old(published)
      ensures var r := old(Value());
              && Value() == Recorded(Base(r, scope, targets, now), Overflows(r, scope, due), scope,
                                     targets, excluded, now)
              && sendTo == BlockDedup.Pending(Base(r, scope, targets, now), targets, now)
    {
      sendTo := due;
      if scope == Broadcast && bcastEntries + |due| > MAX_BLOCK_SENT_ENTRIES {
        if bcast.at != ZERO_TIME || bcastEntries > 0 {
          bcast := ZERO_MARK;
          DropBroadcasts();
          sendTo := Pending(targets, now);
        }
        bcast := NewBroadcastMark(targets, excluded, now);
      } else {
        RecordSends(due, now, scope == Broadcast);
      }
      at := now;
    }

    method Publish(scope: Scope, now: int) returns (publish: bool)
      requires Valid()
      modifies this`published
      ensures Valid() && Value() == Published(old(Value()), scope, now)
      ensures publish == !PublishedWithin(old(Value()), scope, now)
      ensures publish <==> (scope in old(published) ==> now - old(published)[scope] >= RECENT_BLOCK_TTL)
      ensures published == if publish then old(published)[scope := now] else old(published)
    {
      publish := false;
      if !(scope in published && now - published[scope] < RECENT_BLOCK_TTL) {
        published := published[scope := now];
        publish := true;
      }
    }

    /** The body of reserveBlockExcept between the lookup and the table update. */
    method Reserve(scope: Scope, targets: seq<Key>, excluded: seq<Key>, now: int) returns (due: seq<Key>, publish: bool)
      requires Valid() && now != ZERO_TIME
      modifies this
      ensures Valid()
      ensures Outcome(Value(), due, publish) == ReserveRecord(Purged(old(Value()), now), scope, targets, excluded, now)
    {
      Purge(now);
      due := Pending(targets, now);
      if |due| == 0 {
        return [], false;
      }
      due := WriteDown(scope, targets, excluded, now, due);
      publish := Publish(scope, now);
    }
  }

  /** A first reservation on an empty record. */
  method NewRecord(scope: Scope, targets: seq<Key>, excluded: seq<Key>, now: int)
    returns (r: BlockReservation, due: seq<Key>, publish: bool)
    requires now != ZERO_TIME
    ensures fresh(r) && r.Valid()
    ensures Outcome(r.Value(), due, publish) == ReserveRecord(EMPTY_RECORD, scope, targets, excluded, now)
  {
    r := new BlockReservation();
    assert Purged(EMPTY_RECORD, now) == EMPTY_RECORD;
    due, publish := r.Reserve(scope, targets, excluded, now);
  }

  lemma {:induction false} PendingSnoc(r: Record, ks: seq<Key>, k: Key, now: int)
    ensures BlockDedup.Pending(r, ks + [k], now)
         == BlockDedup.Pending(r, ks, now) + (if BlockDedup.Has(r, k, now) then [] else [k])
  {
    if ks != [] {
      PendingSnoc(r, ks[1..], k, now);
      assert (ks + [k])[1..] == ks[1..] + [k];
    }
  }

  /** One turn of the loop of pending, copying only from the first target left out. */
  lemma PendingNext(r: Record, ks: seq<Key>, i: nat, now: int, due: seq<Key>)
    requires i < |ks| && BlockDedup.Pending(r, ks[..i], now) == due
    ensures BlockDedup.Pending(r, ks[..i + 1], now) == if BlockDedup.Has(r, ks[i], now) then due else due + [ks[i]]
    ensures due == ks[..i] ==> due + [ks[i]] == ks[..i + 1]
  {
    PendingSnoc(r, ks[..i], ks[i], now);
    assert ks[..i + 1] == ks[..i] + [ks[i]];
  }

  lemma {:induction false} MaxKeySnoc(ks: seq<Key>, k: Key)
    ensures MaxKey(ks + [k]) == if k > MaxKey(ks) then k else MaxKey(ks)
  {
    if ks != [] {
      MaxKeySnoc(ks[1..], k);
      assert (ks + [k])[1..] == ks[1..] + [k];
    }
  }

  /** recentBlocks and its sweep. */
  class RecentBlocks {
    var recentBlocks: map<Source, BlockReservation>
    var swept: int

    ghost predicate Valid()
      reads this, recentBlocks.Values
    {
      && (forall s :: s in recentBlocks ==> recentBlocks[s].Valid())
      && (forall s, t :: s in recentBlocks && t in recentBlocks && recentBlocks[s] == recentBlocks[t] ==> s == t)
    }

    ghost function Table(): map<Source, Record>
      reads this, recentBlocks.Values
    {
      map s | s in recentBlocks :: recentBlocks[s].Value()
    }

    constructor ()
      ensures Valid() && Table() == map[] && swept == 0
    {
      recentBlocks, swept := map[], 0;
    }

    /** The source has a record younger than the TTL. */
    method ReserveKnown(src: Source, scope: Scope, targets: seq<Key>, excluded: seq<Key>, now: int)
      returns (due: seq<Key>, publish: bool)
      requires Valid() && now != ZERO_TIME && src in recentBlocks
      modifies recentBlocks[src]
      ensures Valid()
      ensures var o := ReserveRecord(Purged(old(recentBlocks[src].Value()), now), scope, targets, excluded, now);
              Table() == old(Table())[src := o.record] && due == o.due && publish == o.publish
    {
      ghost var o := ReserveRecord(Purged(recentBlocks[src].Value(), now), scope, targets, excluded, now);
      var r := recentBlocks[src];
      due, publish := r.Reserve(scope, targets, excluded, now);
      assert r.Value() == o.record;
      assert forall s :: s in recentBlocks && s != src ==> recentBlocks[s] != r;
    }

    method AddRecord(src: Source, r: BlockReservation)
      requires Valid() && r.Valid() && r !in recentBlocks.Values
      modifies this`recentBlocks
      ensures Valid() && recentBlocks == old(recentBlocks)[src := r]
      ensures Table() == old(Table())[src := r.Value()]
    {
      assert forall s :: s in recentBlocks ==> recentBlocks[s] in recentBlocks.Values;
      recentBlocks := recentBlocks[src := r];
    }

    method ReserveBlockExcept(src: Source, scope: Scope, targets: seq<Key>, excluded: seq<Key>, now: int)
      returns (due: seq<Key>, publish: bool)
      requires Valid() && now != ZERO_TIME
      modifies this, recentBlocks.Values
      ensures Valid()
      ensures TableOutcome(Table(), swept, due, publish)
           == ReserveBlock(old(Table()), old(swept), src, scope, targets, excluded, now)
    {
      if src in recentBlocks && now - recentBlocks[src].at < RECENT_BLOCK_TTL {
        due, publish := ReserveKnown(src, scope, targets, excluded, now);
      } else {
        due, publish := ReserveNew(src, scope, targets, excluded, now);
      }
    }

    /** The source has no record, or an old one that is replaced. */
    method ReserveNew(src: Source, scope: Scope, targets: seq<Key>, excluded: seq<Key>, now: int)
      returns (due: seq<Key>, publish: bool)
      requires Valid() && now != ZERO_TIME && !(src in Table() && Recent(Table()[src].at, now))
      modifies this
      ensures Valid()
      ensures TableOutcome(Table(), swept, due, publish)
           == ReserveBlock(old(Table()), old(swept), src, scope, targets, excluded, now)
    {
      ghost var table := Table();
      var r;
      r, due, publish := NewRecord(scope, targets, excluded, now);
      assert Table() == table;
      if |due| != 0 {
        AddRecord(src, r);
        Sweep(now);
      }
    }

    method DeleteOld(now: int)
      modifies this`recentBlocks
      ensures recentBlocks == map s | s in old(recentBlocks) && now - old(recentBlocks)[s].at <= 2 * RECENT_BLOCK_TTL
                                    :: old(recentBlocks)[s]
    {
      ghost var was := recentBlocks;
      var todo := recentBlocks.Keys;
      while todo != {}
        invariant todo <= recentBlocks.Keys
        invariant recentBlocks == map s | s in was && (s in todo || now - was[s].at <= 2 * RECENT_BLOCK_TTL) :: was[s]
        decreases todo
      {
        var s :| s in todo;
        todo := todo - {s};
        if now - recentBlocks[s].at > 2 * RECENT_BLOCK_TTL {
          recentBlocks := recentBlocks - {s};
        }
      }
    }

    method Sweep(now: int)
      requires Valid()
      modifies this
      ensures Valid()
      ensures Table() == Swept(old(Table()), old(swept), now)
      ensures forall s :: s in Table() <==>
                && s in old(Table())
                && (now - old(swept) < SWEEP_INTERVAL || now - old(Table())[s].at <= 2 * RECENT_BLOCK_TTL)
      ensures forall s :: s in Table() ==> Table()[s] == old(Table())[s]
      ensures swept == if now - old(swept) < SWEEP_INTERVAL then old(swept) else now
    {
      if now - swept >= SWEEP_INTERVAL {
        swept := now;
        DeleteOld(now);
      }
    }

    method ReleaseBlock(k: Key, src: Source, reservedAt: int)
      requires Valid()
      modifies recentBlocks.Values
      ensures Valid() && Table() == Release(old(Table()), src, k, reservedAt)
    {
      if src in recentBlocks {
        var r := recentBlocks[src];
        if k in r.sent && r.sent[k].at == reservedAt {
          r.DeleteSent(k);
        }
      }
    }
  }
}

/** The event window of a campaign (pkg/analyzer/aidetection/campaign_events.go).
    Events may arrive out of order; each remembers the high-water mark at its
    arrival, which lets pruning stop early and still be exact. */
module CampaignEvents {
  import opened EventRing

  /** campaignSignal; `data` stands for the fields pruning does not look at. */
  datatype Signal = Signal(timestamp: int, data: int)
  datatype Event = Event(signal: Signal, highWater: int)

  const ZERO_EVENT: Event := Event(Signal(0, 0), 0)

  function Signals(evs: seq<Event>): (s: seq<Signal>)
    ensures |s| == |evs| && forall i :: 0 <= i < |s| ==> s[i] == evs[i].signal
  {
    seq(|evs|, i requires 0 <= i < |evs| => evs[i].signal)
  }

  /** The naive prune: what is not before the cutoff, in order. */
  function NotBefore(s: seq<Signal>, cutoff: int): seq<Signal> {
    if s == [] then []
    else if s[0].timestamp < cutoff then NotBefore(s[1..], cutoff)
    else [s[0]] + NotBefore(s[1..], cutoff)
  }

  lemma NotBeforeFirst(s: seq<Signal>, cutoff: int)
    requires s != []
    ensures NotBefore(s, cutoff) == (if s[0].timestamp < cutoff then [] else [s[0]]) + NotBefore(s[1..], cutoff)
  {
  }

  lemma CountFirst(a: seq<Signal>, b: seq<Signal>, x: Signal)
    ensures multiset(a + b)[x] == multiset(a)[x] + multiset(b)[x]
  {
    assert multiset(a + b) == multiset(a) + multiset(b);
  }

  /** It keeps each signal that is not before the cutoff as often as it was there, and no
      other. */
  lemma {:induction false} NaiveCounts(s: seq<Signal>, cutoff: int, x: Signal)
    ensures multiset(NotBefore(s, cutoff))[x] == if x.timestamp < cutoff then 0 else multiset(s)[x]
  {
    if s != [] {
      NaiveCounts(s[1..], cutoff, x);
      NotBeforeFirst(s, cutoff);
      CountFirst([s[0]], s[1..], x);
      CountFirst([s[0]], NotBefore(s[1..], cutoff), x);
      assert s == [s[0]] + s[1..];
    }
  }

  /** And what comes first stays first. */
  lemma {:induction false} NaiveOrder(a: seq<Signal>, b: seq<Signal>, cutoff: int)
    ensures NotBefore(a + b, cutoff) == NotBefore(a, cutoff) + NotBefore(b, cutoff)
  {
    if a == [] {
      assert a + b == b;
    } else {
      NaiveOrder(a[1..], b, cutoff);
      NotBeforeFirst(a, cutoff);
      NotBeforeFirst(a + b, cutoff);
      TailOfConcat(a, b);
      Regroup(if a[0].timestamp < cutoff then [] else [a[0]], NotBefore(a[1..], cutoff), NotBefore(b, cutoff));
    }
  }

  predicate IsMin(s: seq<Signal>, t: int) {
    (exists i :: 0 <= i < |s| && s[i].timestamp == t) && forall i :: 0 <= i < |s| ==> t <= s[i].timestamp
  }

  predicate IsMax(s: seq<Signal>, t: int) {
    (exists i :: 0 <= i < |s| && s[i].timestamp == t) && forall i :: 0 <= i < |s| ==> s[i].timestamp <= t
  }

  // ---- The same on events ----

  function Kept(evs: seq<Event>, cutoff: int): (r: seq<Event>)
    ensures |r| <= |evs|
  {
    if evs == [] then []
    else if evs[0].signal.timestamp < cutoff then Kept(evs[1..], cutoff)
    else [evs[0]] + Kept(evs[1..], cutoff)
  }

  lemma {:induction false} KeptWithin(evs: seq<Event>, cutoff: int)
    ensures forall e :: e in Kept(evs, cutoff) ==> e in evs
  {
    if evs != [] { KeptWithin(evs[1..], cutoff); }
  }

  lemma TailOfConcat<T>(a: seq<T>, b: seq<T>)
    requires a != []
    ensures (a + b)[0] == a[0] && (a + b)[1..] == a[1..] + b
  {
  }

  lemma Regroup<T>(a: seq<T>, b: seq<T>, c: seq<T>)
    ensures a + (b + c) == (a + b) + c
  {
  }

  lemma KeptFirst(evs: seq<Event>, cutoff: int)
    requires evs != []
    ensures Kept(evs, cutoff)
         == (if evs[0].signal.timestamp < cutoff then [] else [evs[0]]) + Kept(evs[1..], cutoff)
  {
  }

  lemma {:induction false} KeptConcat(a: seq<Event>, b: seq<Event>, cutoff: int)
    ensures Kept(a + b, cutoff) == Kept(a, cutoff) + Kept(b, cutoff)
  {
    if a == [] {
      assert a + b == b;
    } else {
      KeptConcat(a[1..], b, cutoff);
      KeptFirst(a, cutoff);
      KeptFirst(a + b, cutoff);
      TailOfConcat(a, b);
      Regroup(if a[0].signal.timestamp < cutoff then [] else [a[0]], Kept(a[1..], cutoff), Kept(b, cutoff));
    }
  }

  lemma {:induction false} KeptAll(evs: seq<Event>, cutoff: int)
    requires forall i :: 0 <= i < |evs| ==> evs[i].signal.timestamp >= cutoff
    ensures Kept(evs, cutoff) == evs
  {
    if evs != [] {
      KeptAll(evs[1..], cutoff);
    }
  }

  lemma {:induction false} KeptSignals(evs: seq<Event>, cutoff: int)
    ensures Signals(Kept(evs, cutoff)) == NotBefore(Signals(evs), cutoff)
  {
    if evs != [] {
      KeptSignals(evs[1..], cutoff);
      assert Signals(evs)[1..] == Signals(evs[1..]);
    }
  }

  /** What every operation keeps: no event lags its mark by more than `maxLag`,
      and marks never go down along the ring. */
  predicate Ordered(evs: seq<Event>, highWater: int, maxLag: int) {
    && (forall i :: 0 <= i < |evs| ==> evs[i].signal.timestamp <= evs[i].highWater <= highWater
                                       && evs[i].highWater - evs[i].signal.timestamp <= maxLag)
    && (forall i, j :: 0 <= i < j < |evs| ==> evs[i].highWater <= evs[j].highWater)
  }

  lemma {:induction false} KeptOrdered(evs: seq<Event>, highWater: int, maxLag: int, cutoff: int)
    requires Ordered(evs, highWater, maxLag)
    ensures Ordered(Kept(evs, cutoff), highWater, maxLag)
  {
    if evs != [] {
      KeptOrdered(evs[1..], highWater, maxLag, cutoff);
      KeptWithin(evs[1..], cutoff);
      ConsOrdered(evs, Kept(evs[1..], cutoff), highWater, maxLag);
    }
  }

  lemma ConsOrdered(evs: seq<Event>, rest: seq<Event>, highWater: int, maxLag: int)
    requires Ordered(evs, highWater, maxLag) && evs != [] && Ordered(rest, highWater, maxLag)
    requires forall e :: e in rest ==> e in evs[1..]
    ensures Ordered([evs[0]] + rest, highWater, maxLag)
  {
    forall j | 0 <= j < |rest| ensures evs[0].highWater <= rest[j].highWater {
      assert rest[j] in evs[1..];
      var i :| 0 <= i < |evs[1..]| && evs[1..][i] == rest[j];
      assert evs[i + 1] == rest[j];
    }
  }

  class CampaignEvents {
    const ring: EventRing<Event>
    var highWater: int
    var maxLag: int

    ghost predicate Valid()
      reads this, ring, ring.buf
    {
      ring.Valid() && 0 <= maxLag && Ordered(ring.contents, highWater, maxLag)
    }

    ghost function Window(): seq<Signal>
      reads this, ring
    {
      Signals(ring.contents)
    }

    constructor (maxEvents: int)
      ensures Valid() && Window() == [] && fresh(ring) && fresh(ring.buf)
      ensures ring.limit == if maxEvents + 1 > 1 then maxEvents + 1 else 1
    {
      ring := new EventRing(maxEvents + 1, ZERO_EVENT);
      highWater, maxLag := 0, 0;
    }

    method Push(signal: Signal)
      requires Valid()
      modifies this, ring, ring.buf
      ensures Valid() && (ring.buf == old(ring.buf) || fresh(ring.buf))
      ensures Window() == (if |old(Window())| == ring.limit then old(Window())[1..] else old(Window())) + [signal]
    {
      if ring.size == 0 || signal.timestamp > highWater {
        highWater := signal.timestamp;
      }
      var lag := highWater - signal.timestamp;
      if lag > maxLag {
        maxLag := lag;
      }
      ghost var evs, ev := ring.contents, Event(signal, highWater);
      PushOrdered(evs, old(highWater), old(maxLag), ev, highWater, maxLag);
      PushSignals(evs, ev);
      ring.PushBack(Event(signal, highWater));
      assert ring.contents == (if |evs| == ring.limit then evs[1..] else evs) + [ev];
    }

    method TrimTo(maxEvents: int)
      requires Valid()
      modifies ring, ring.buf
      ensures Valid() && ring.buf == old(ring.buf)
      ensures var n := |old(Window())| - maxEvents;
              Window() == old(Window())[if n <= 0 then 0 else if n < |old(Window())| then n else |old(Window())|..]
    {
      var excess := ring.size - maxEvents;
      if excess > 0 {
        ring.DropFront(excess);
      }
    }

    /** The scan that may stop before the end. Everything from `stop` on is kept
        and no older than `earliest`, the oldest event kept before it. */
    method ScanExpiredPrefix(cutoff: int) returns (stop: nat, removed: nat, earliest: int)
      requires Valid()
      ensures stop <= |ring.contents|
      ensures removed == stop - |Kept(ring.contents[..stop], cutoff)|
      ensures forall i :: stop <= i < |ring.contents| ==> earliest <= ring.contents[i].signal.timestamp
      ensures if Kept(ring.contents[..stop], cutoff) == [] then stop == |ring.contents|
              else cutoff <= earliest && IsMin(Signals(Kept(ring.contents[..stop], cutoff)), earliest)
    {
      var haveEarliest := false;
      earliest, removed, stop := 0, 0, 0;
      ghost var evs := ring.contents;
      assert evs[..0] == [];
      while stop < ring.size
        invariant Scanned(evs, stop, cutoff, removed, haveEarliest, earliest)
      {
        var ev := ring.At(stop);
        if haveEarliest && ev.highWater - maxLag >= earliest {
          EarlyStop(evs, highWater, maxLag, stop, earliest);
          return;
        }
        ScanStep(evs, stop, cutoff, removed, haveEarliest, earliest);
        if ev.signal.timestamp < cutoff {
          removed := removed + 1;
        } else if !haveEarliest || ev.signal.timestamp < earliest {
          earliest, haveEarliest := ev.signal.timestamp, true;
        }
        stop := stop + 1;
      }
    }

    /** Moves the kept events of the prefix backwards, up against `stop`. */
    method MoveKeptUp(stop: nat, cutoff: int)
      requires ring.Valid() && 0 < stop <= |ring.contents|
      modifies ring`contents, ring.buf
      ensures ring.Valid() && |ring.contents| == |old(ring.contents)|
      ensures var gap := stop - |Kept(old(ring.contents)[..stop], cutoff)|;
              ring.contents[gap..] == Kept(old(ring.contents)[..stop], cutoff) + old(ring.contents)[stop..]
    {
      ghost var evs := ring.contents;
      var write := MoveBackwards(stop, cutoff);
      CompactDone(ring.contents, evs, write, stop, cutoff);
    }

    method MoveBackwards(stop: nat, cutoff: int) returns (write: int)
      requires ring.Valid() && 0 < stop <= |ring.contents|
      modifies ring`contents, ring.buf
      ensures ring.Valid() && Compacting(ring.contents, old(ring.contents), -1, write, stop, cutoff)
    {
      ghost var evs := ring.contents;
      var read := stop - 1;
      write := stop - 1;
      CompactStart(evs, stop, cutoff);
      while read >= 0
        invariant ring.Valid() && Compacting(ring.contents, evs, read, write, stop, cutoff)
      {
        write := MoveOne(read, write, stop, cutoff, evs);
        read := read - 1;
      }
    }

    /** One turn of the backward loop. */
    method MoveOne(read: nat, write: nat, stop: nat, cutoff: int, ghost evs: seq<Event>) returns (write': int)
      requires ring.Valid() && Compacting(ring.contents, evs, read, write, stop, cutoff)
      modifies ring`contents, ring.buf
      ensures ring.Valid() && Compacting(ring.contents, evs, read - 1, write', stop, cutoff)
    {
      write' := write;
      var ev := ring.At(read);
      CompactStep(ring.contents, evs, read, write, stop, cutoff);
      if ev.signal.timestamp >= cutoff {
        if read != write {
          ring.Set(write, ev);
        }
        write' := write - 1;
      }
    }

    /** Compacts the prefix and drops the gap that leaves in front. */
    method CompactPrefix(stop: nat, removed: nat, cutoff: int)
      requires ring.Valid() && stop <= |ring.contents|
      requires removed == stop - |Kept(ring.contents[..stop], cutoff)|
      modifies ring, ring.buf
      ensures ring.Valid() && ring.buf == old(ring.buf)
      ensures ring.contents == Kept(old(ring.contents)[..stop], cutoff) + old(ring.contents)[stop..]
    {
      if removed == 0 {
        KeptNothingRemoved(ring.contents[..stop], cutoff);
        return;
      }
      MoveKeptUp(stop, cutoff);
      ring.DropFront(removed);
    }

    method LatestTimestamp() returns (latest: int)
      requires Valid() && ring.contents != []
      ensures IsMax(Window(), latest)
    {
      ghost var evs := ring.contents;
      var last := ring.size - 1;
      var ev := ring.At(last);
      latest := ev.signal.timestamp;
      var i := last - 1;
      while i >= 0
        invariant -1 <= i < last
        invariant exists j :: i < j < |evs| && evs[j].signal.timestamp == latest
        invariant forall j :: i < j < |evs| ==> evs[j].signal.timestamp <= latest
      {
        ev := ring.At(i);
        if ev.highWater <= latest {
          break;
        }
        if ev.signal.timestamp >= latest {
          latest := ev.signal.timestamp;
        }
        i := i - 1;
      }
      forall j | 0 <= j < |evs| ensures evs[j].signal.timestamp <= latest {
        if j <= i { assert evs[j].highWater <= evs[i].highWater; }
      }
      ghost var j :| i < j < |evs| && evs[j].signal.timestamp == latest;
      assert Window()[j].timestamp == latest;
    }

    /** PruneBefore equals the naive filter: exactly the events not before the
        cutoff stay, in order, and the times returned are their true minimum and
        maximum. */
    method PruneBefore(cutoff: int) returns (firstSeen: int, lastSeen: int, ok: bool)
      requires Valid()
      modifies this, ring, ring.buf
      ensures Valid() && ring.buf == old(ring.buf)
      ensures Window() == NotBefore(old(Window()), cutoff)
      ensures forall x :: multiset(Window())[x] == if x.timestamp < cutoff then 0 else multiset(old(Window()))[x]
      ensures ok <==> Window() != []
      ensures ok ==> IsMin(Window(), firstSeen) && IsMax(Window(), lastSeen)
    {
      ghost var evs := ring.contents;
      var stop, removed, earliest := ScanExpiredPrefix(cutoff);
      CompactPrefix(stop, removed, cutoff);
      PrunedIsKept(evs, stop, cutoff, earliest);
      KeptSignals(evs, cutoff);
      forall x ensures multiset(NotBefore(Signals(evs), cutoff))[x]
                    == if x.timestamp < cutoff then 0 else multiset(Signals(evs))[x]
      {
        NaiveCounts(Signals(evs), cutoff, x);
      }
      KeptOrdered(evs, highWater, maxLag, cutoff);
      if ring.size == 0 {
        highWater, maxLag := 0, 0;
        return 0, 0, false;
      }
      lastSeen := LatestTimestamp();
      firstSeen, ok := earliest, true;
    }
  }

  lemma PushSignals(evs: seq<Event>, e: Event)
    ensures Signals(evs + [e]) == Signals(evs) + [e.signal]
    ensures evs != [] ==> Signals(evs[1..] + [e]) == Signals(evs)[1..] + [e.signal]
  {
  }

  /** A new mark is at least every mark held, unless the ring was empty. */
  lemma PushOrdered(evs: seq<Event>, highWater: int, maxLag: int, e: Event, highWater': int, maxLag': int)
    requires Ordered(evs, highWater, maxLag) && maxLag <= maxLag'
    requires e.signal.timestamp <= e.highWater == highWater' && highWater' - e.signal.timestamp <= maxLag'
    requires evs == [] || highWater <= highWater'
    ensures Ordered(evs + [e], highWater', maxLag')
    ensures evs != [] ==> Ordered(evs[1..] + [e], highWater', maxLag')
  {
  }

  /** The events from `stop` on are no older than `earliest`. */
  lemma EarlyStop(evs: seq<Event>, highWater: int, maxLag: int, stop: nat, earliest: int)
    requires Ordered(evs, highWater, maxLag) && stop < |evs| && evs[stop].highWater - maxLag >= earliest
    ensures forall i :: stop <= i < |evs| ==> earliest <= evs[i].signal.timestamp
  {
    forall i | stop <= i < |evs| ensures earliest <= evs[i].signal.timestamp {
      assert evs[stop].highWater <= evs[i].highWater;
    }
  }

  /** What the scan knows about the first `stop` events. */
  ghost predicate Scanned(evs: seq<Event>, stop: nat, cutoff: int, removed: nat, have: bool, earliest: int) {
    && stop <= |evs| && removed == stop - |Kept(evs[..stop], cutoff)|
    && (have <==> Kept(evs[..stop], cutoff) != [])
    && (have ==> cutoff <= earliest && IsMin(Signals(Kept(evs[..stop], cutoff)), earliest))
  }

  /** The state of the compaction: [read + 1, stop) has been moved up. */
  ghost predicate Compacting(now: seq<Event>, evs: seq<Event>, read: int, write: int, stop: nat, cutoff: int) {
    && -1 <= read <= write < stop <= |evs| == |now|
    && stop - 1 - write == |Kept(evs[read + 1..stop], cutoff)|
    && now[..write + 1] == evs[..write + 1]
    && now[write + 1..stop] == Kept(evs[read + 1..stop], cutoff)
    && now[stop..] == evs[stop..]
  }

  lemma CompactStart(evs: seq<Event>, stop: nat, cutoff: int)
    requires 0 < stop <= |evs|
    ensures Compacting(evs, evs, stop - 1, stop - 1, stop, cutoff)
  {
    assert evs[stop..stop] == [];
  }

  lemma CompactDone(now: seq<Event>, evs: seq<Event>, write: int, stop: nat, cutoff: int)
    requires Compacting(now, evs, -1, write, stop, cutoff)
    ensures write + 1 == stop - |Kept(evs[..stop], cutoff)|
    ensures now[write + 1..] == Kept(evs[..stop], cutoff) + evs[stop..]
  {
    assert evs[0..stop] == evs[..stop];
    assert now[write + 1..] == now[write + 1..stop] + now[stop..];
  }

  lemma CompactStep(now: seq<Event>, evs: seq<Event>, read: int, write: int, stop: nat, cutoff: int)
    requires Compacting(now, evs, read, write, stop, cutoff) && read >= 0
    ensures now[read] == evs[read]
    ensures evs[read].signal.timestamp < cutoff ==> Compacting(now, evs, read - 1, write, stop, cutoff)
    ensures evs[read].signal.timestamp >= cutoff ==>
              Compacting(now[write := evs[read]], evs, read - 1, write - 1, stop, cutoff)
    ensures read == write ==> now[write := evs[read]] == now
  {
    assert now[read] == now[..write + 1][read] == evs[..write + 1][read];
    assert evs[read..stop] == [evs[read]] + evs[read + 1..stop];
    var moved := now[write := evs[read]];
    assert moved[..write] == now[..write + 1][..write] == evs[..write];
    assert moved[write..stop] == [evs[read]] + now[write + 1..stop];
    assert moved[stop..] == now[stop..];
    if evs[read].signal.timestamp < cutoff {
      assert Kept(evs[read..stop], cutoff) == Kept(evs[read + 1..stop], cutoff);
    }
  }

  lemma MinSnoc(s: seq<Signal>, e: Signal, m: int)
    requires s == [] || IsMin(s, m)
    ensures IsMin(s + [e], if s == [] || e.timestamp < m then e.timestamp else m)
  {
    assert (s + [e])[|s|] == e;
    if s != [] {
      var i :| 0 <= i < |s| && s[i].timestamp == m;
      assert (s + [e])[i] == s[i];
    }
  }

  lemma ScanStep(evs: seq<Event>, stop: nat, cutoff: int, removed: nat, have: bool, earliest: int)
    requires Scanned(evs, stop, cutoff, removed, have, earliest) && stop < |evs|
    ensures var t := evs[stop].signal.timestamp;
            if t < cutoff then Scanned(evs, stop + 1, cutoff, removed + 1, have, earliest)
            else Scanned(evs, stop + 1, cutoff, removed, true, if !have || t < earliest then t else earliest)
  {
    assert evs[..stop + 1] == evs[..stop] + [evs[stop]];
    KeptConcat(evs[..stop], [evs[stop]], cutoff);
    var before, kept := Kept(evs[..stop], cutoff), Kept(evs[..stop + 1], cutoff);
    if evs[stop].signal.timestamp >= cutoff {
      assert kept == before + [evs[stop]];
      assert Signals(kept) == Signals(before) + [evs[stop].signal];
      MinSnoc(Signals(before), evs[stop].signal, earliest);
    } else {
      assert kept == before;
    }
  }

  lemma {:induction false} KeptNothingRemoved(evs: seq<Event>, cutoff: int)
    requires |Kept(evs, cutoff)| == |evs|
    ensures Kept(evs, cutoff) == evs
  {
    if evs != [] { KeptNothingRemoved(evs[1..], cutoff); }
  }

  /** Stopping early loses nothing. */
  lemma PrunedIsKept(evs: seq<Event>, stop: nat, cutoff: int, earliest: int)
    requires stop <= |evs|
    requires forall i :: stop <= i < |evs| ==> earliest <= evs[i].signal.timestamp
    requires if Kept(evs[..stop], cutoff) == [] then stop == |evs|
             else cutoff <= earliest && IsMin(Signals(Kept(evs[..stop], cutoff)), earliest)
    ensures Kept(evs[..stop], cutoff) + evs[stop..] == Kept(evs, cutoff)
    ensures Kept(evs, cutoff) != [] ==> IsMin(Signals(Kept(evs, cutoff)), earliest)
  {
    assert evs == evs[..stop] + evs[stop..];
    KeptConcat(evs[..stop], evs[stop..], cutoff);
    var front, all := Kept(evs[..stop], cutoff), Kept(evs, cutoff);
    if front != [] {
      KeptAll(evs[stop..], cutoff);
      var i :| 0 <= i < |front| && Signals(front)[i].timestamp == earliest;
      assert Signals(all)[i] == Signals(front)[i];
      forall j | 0 <= j < |all| ensures earliest <= Signals(all)[j].timestamp {
        if j < |front| { assert Signals(all)[j] == Signals(front)[j]; }
      }
    } else {
      assert evs[stop..] == [] && all == [];
    }
  }
}

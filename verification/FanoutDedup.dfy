/** The fan-out queues of all peers beside the block dedup (sendCommand,
    enqueueScrubFanout, runScrubFanout and releaseBlock in
    pkg/analyzer/service.go): which fan-outs give their reservation up, and what
    a withheld block rests on. */
module FanoutDedup {
  import opened BlockDedup
  import D = DedupProtocol
  import Q = FanoutQueue

  datatype Joint = Joint(
    dedup: D.System,
    peers: map<Key, Q.Peer>,
    items: map<Key, seq<D.Item>>,  // command c of the queue of peer k is items[k][c]
    pending: set<D.Item>,          // decided, with an enqueuer not at the queue yet
    direct: set<D.Item>)           // granted and sent at once: to an origin, or by Broadcast

  datatype Action =
    | Decide(a: D.Action)                // anything but giving up a fan-out
    | Arrive(item: D.Item)               // enqueueScrubFanout reaches the queue
    | Move(key: Key, m: Q.Action)        // anything else at a queue but a release
    | Release(key: Key, cmd: Q.Command)  // releaseBlock

  const INITIAL: Joint := Joint(D.INITIAL, map[], map[], {}, {})

  function PeerOf(j: Joint, k: Key): Q.Peer {
    if k in j.peers then j.peers[k] else Q.INITIAL
  }

  function ItemsOf(j: Joint, k: Key): seq<D.Item> {
    if k in j.items then j.items[k] else []
  }

  /** The fan-outs a decision starts. */
  function Fanned(s: D.System, a: D.Action): set<D.Item> {
    if a.BlockFanout? then D.FanoutItems(s, a.src, a.origin, a.peers, a.now) else {}
  }

  /** What a decision sends at once. */
  function AtOnce(s: D.System, a: D.Action): set<D.Item> {
    match a
    case BlockLocal(src, origin, now) => set k | k in D.Due(s, src, Local, [origin], [], now) :: D.Item(src, k, now)
    case BlockFanout(src, origin, peers, now) =>
      if origin in D.Due(s, src, Fanout, [origin] + peers, [], now) then {D.Item(src, origin, now)} else {}
    case BlockBroadcast(src, snap, now) =>
      set k | k in D.Due(s, src, Broadcast, snap.targets, snap.excluded, now) :: D.Item(src, k, now)
    case _ => {}
  }

  function Step(j: Joint, a: Action): Joint {
    match a
    case Decide(d) =>
      if d.GiveUp? || !D.Enabled(j.dedup, d) then j
      else j.(dedup := D.Step(j.dedup, d),
              pending := j.pending + Fanned(j.dedup, d), direct := j.direct + AtOnce(j.dedup, d))
    case Arrive(i) =>
      if i !in j.pending then j
      else j.(pending := j.pending - {i}, peers := j.peers[i.key := Q.Step(PeerOf(j, i.key), Q.Arrive)],
              items := j.items[i.key := ItemsOf(j, i.key) + [i]])
    case Move(k, m) =>
      if m.Arrive? || m.Release? then j else j.(peers := j.peers[k := Q.Step(PeerOf(j, k), m)])
    case Release(k, c) =>
      if c !in Q.Owed(PeerOf(j, k)) || c >= |ItemsOf(j, k)| then j
      else j.(dedup := D.Step(j.dedup, D.GiveUp(ItemsOf(j, k)[c])),
              peers := j.peers[k := Q.Step(PeerOf(j, k), Q.Release(c))])
  }

  function Run(trace: seq<Action>): Joint {
    if trace == [] then INITIAL else Step(Run(trace[..|trace| - 1]), trace[|trace| - 1])
  }

  // ---- The dedup takes part in runs of its own ----

  /** What the dedup sees of a joint run is a run of the dedup, so all that holds of
      its runs holds here. */
  lemma {:induction false} Refines(trace: seq<Action>) returns (seen: seq<D.Action>)
    ensures D.Run(seen) == Run(trace).dedup
  {
    seen := [];
    if trace != [] {
      var j, a := Run(trace[..|trace| - 1]), trace[|trace| - 1];
      seen := Refines(trace[..|trace| - 1]);
      if Step(j, a).dedup != j.dedup {
        var d := if a.Decide? then a.a else D.GiveUp(ItemsOf(j, a.key)[a.cmd]);
        assert (seen + [d])[..|seen|] == seen;
        seen := seen + [d];
      }
    }
  }

  /** A peer that is due a fan-out has none outstanding from the same instant. */
  lemma FreshItem(seen: seq<D.Action>, src: Source, origin: Key, peers: seq<Key>, now: int, k: Key)
    requires D.ClockMoves(D.Run(seen), now)
    requires k in D.Due(D.Run(seen), src, Fanout, [origin] + peers, [], now)
    ensures D.Item(src, k, now) !in D.Run(seen).outstanding
  {
    var s := D.Run(seen);
    D.RunInv(seen);
    assert D.RecordInv(D.RecordOf(s.table, src), src, s.registered, s.clock, s.outstanding, s.log);
    assert k in [origin] + peers by { D.ItsSource(s, src, Fanout, [origin] + peers, [], now); }
    D.ReservedIsCovered(seen, src, Fanout, [origin] + peers, [], now, k);
  }

  // ---- The invariant ----

  /** Command `c` of peer `k` has not been released. */
  predicate Unreleased(j: Joint, k: Key, c: int) {
    0 <= c < |ItemsOf(j, k)| && c !in PeerOf(j, k).released
  }

  /** A fan-out not given up: still to arrive at its queue, or a command there that has
      not been released. */
  ghost predicate OnItsWay(j: Joint, i: D.Item) {
    i in j.pending || exists c :: Unreleased(j, i.key, c) && ItemsOf(j, i.key)[c] == i
  }

  ghost predicate Queues(j: Joint) {
    forall k :: Q.Inv(PeerOf(j, k)) && |ItemsOf(j, k)| == PeerOf(j, k).issued
  }

  ghost predicate Labels(j: Joint) {
    forall k, c :: 0 <= c < |ItemsOf(j, k)| ==> ItemsOf(j, k)[c].key == k
  }

  /** Fan-outs on their way are outstanding, and no two are alike. */
  ghost predicate Outstanding(j: Joint) {
    && j.pending <= j.dedup.outstanding
    && (forall k, c :: Unreleased(j, k, c) ==>
          ItemsOf(j, k)[c] in j.dedup.outstanding && ItemsOf(j, k)[c] !in j.pending)
    && (forall k, c, d :: Unreleased(j, k, c) && Unreleased(j, k, d) && c != d ==> ItemsOf(j, k)[c] != ItemsOf(j, k)[d])
  }

  /** A grant that stands was sent at once or is on its way. */
  ghost predicate Backed(j: Joint) {
    forall src, k, at, i :: D.GrantStands(j.dedup.log, src, k, at, i) ==>
      D.Item(src, k, at) in j.direct || OnItsWay(j, D.Item(src, k, at))
  }

  /** Only released commands are given up. */
  ghost predicate Accounted(j: Joint) {
    forall src, k, at :: D.Released(src, k, at) in j.dedup.log ==> GivenUp(j, D.Item(src, k, at))
  }

  ghost predicate GivenUp(j: Joint, i: D.Item) {
    exists c :: 0 <= c < |ItemsOf(j, i.key)| && c in PeerOf(j, i.key).released && ItemsOf(j, i.key)[c] == i
  }

  ghost predicate Inv(j: Joint) {
    Queues(j) && Labels(j) && Outstanding(j) && Backed(j) && Accounted(j)
  }

  // ---- Every step keeps it ----

  /** One queue has moved. */
  lemma OneQueue(j: Joint, t: Joint, k: Key)
    requires Queues(j) && Labels(j)
    requires forall l :: l != k ==> PeerOf(t, l) == PeerOf(j, l) && ItemsOf(t, l) == ItemsOf(j, l)
    requires Q.Inv(PeerOf(t, k)) && |ItemsOf(t, k)| == PeerOf(t, k).issued
    requires forall i :: i in ItemsOf(t, k) ==> i in ItemsOf(j, k) || i.key == k
    ensures Queues(t) && Labels(t)
  {
    forall l ensures Q.Inv(PeerOf(t, l)) && |ItemsOf(t, l)| == PeerOf(t, l).issued {
      assert Q.Inv(PeerOf(j, l)) && |ItemsOf(j, l)| == PeerOf(j, l).issued;
    }
    forall l, c | 0 <= c < |ItemsOf(t, l)| ensures ItemsOf(t, l)[c].key == l {
      assert ItemsOf(t, l)[c] in ItemsOf(t, l);
    }
  }

  lemma SameQueues(j: Joint, t: Joint)
    requires Queues(j) && Labels(j) && t.items == j.items && t.peers == j.peers
    ensures Queues(t) && Labels(t)
  {
    assert forall k :: PeerOf(t, k) == PeerOf(j, k) && ItemsOf(t, k) == ItemsOf(j, k);
  }

  /** Nothing on its way is given up, and nothing given up comes back. */
  lemma StillBacked(j: Joint, t: Joint)
    requires Backed(j) && Accounted(j) && SameFanouts(j, t) && t.dedup == j.dedup && t.direct == j.direct
    ensures Backed(t) && Accounted(t)
  {
    forall src, l, at, i | D.GrantStands(t.dedup.log, src, l, at, i)
      ensures D.Item(src, l, at) in t.direct || OnItsWay(t, D.Item(src, l, at))
    {
      if D.Item(src, l, at) !in j.direct { StillOnItsWay(j, t, D.Item(src, l, at)); }
    }
    forall src, l, at | D.Released(src, l, at) in t.dedup.log ensures GivenUp(t, D.Item(src, l, at)) {
      assert GivenUp(j, D.Item(src, l, at));
      var c :| 0 <= c < |ItemsOf(j, l)| && c in PeerOf(j, l).released && ItemsOf(j, l)[c] == D.Item(src, l, at);
      assert c in PeerOf(t, l).released && ItemsOf(t, l)[c] == D.Item(src, l, at);
    }
  }

  lemma StillOutstanding(j: Joint, t: Joint)
    requires Outstanding(j) && SameFanouts(j, t) && t.dedup == j.dedup
    ensures Outstanding(t)
  {
    assert forall k, c :: Unreleased(t, k, c) <==> Unreleased(j, k, c);
  }

  /** Fields of a joint state in which no fan-out moved. */
  ghost predicate SameFanouts(j: Joint, t: Joint) {
    t.items == j.items && t.pending == j.pending && forall k :: PeerOf(t, k).released == PeerOf(j, k).released
  }

  lemma StillOnItsWay(j: Joint, t: Joint, i: D.Item)
    requires SameFanouts(j, t) && OnItsWay(j, i)
    ensures OnItsWay(t, i)
  {
    if i !in j.pending {
      var c :| Unreleased(j, i.key, c) && ItemsOf(j, i.key)[c] == i;
      assert Unreleased(t, i.key, c) && ItemsOf(t, i.key)[c] == i;
    }
  }

  lemma MoveInv(j: Joint, k: Key, m: Q.Action)
    requires Inv(j)
    ensures Inv(Step(j, Move(k, m)))
  {
    var t := Step(j, Move(k, m));
    if !m.Arrive? && !m.Release? {
      Q.StepInv(PeerOf(j, k), m);
      Q.NothingReleased(PeerOf(j, k), m);
      assert Q.Inv(PeerOf(j, k)) && |ItemsOf(j, k)| == PeerOf(j, k).issued;
      assert SameFanouts(j, t);
      OneQueue(j, t, k);
      StillOutstanding(j, t);
      StillBacked(j, t);
    }
  }

  // ---- A decision ----

  /** The labels of what a decision grants. */
  lemma GrantsAccounted(s: D.System, a: D.Action)
    requires D.Enabled(s, a) && !a.GiveUp?
    ensures s.log <= D.Step(s, a).log
    ensures forall i :: |s.log| <= i < |D.Step(s, a).log| ==>
              match D.Step(s, a).log[i]
              case Granted(src, k, at) => D.Item(src, k, at) in Fanned(s, a) + AtOnce(s, a)
              case Released(_, _, _) => false
              case Shown(_, _, _) => true
    ensures s.outstanding + Fanned(s, a) == D.Step(s, a).outstanding
  {
    match a {
      case BlockLocal(src, origin, now) => ReserveAppends(s, src, Local, [origin], [], now);
      case BlockFanout(src, origin, peers, now) => ReserveAppends(s, src, Fanout, [origin] + peers, [], now);
      case BlockBroadcast(src, snap, now) => ReserveAppends(s, src, Broadcast, snap.targets, snap.excluded, now);
      case _ =>
    }
  }

  lemma ReserveAppends(s: D.System, src: Source, scope: Scope, targets: seq<Key>, excluded: seq<Key>, now: int)
    ensures var t := D.Reserve(s, src, scope, targets, excluded, now);
            && s.log <= t.log && t.outstanding == s.outstanding
            && forall i :: |s.log| <= i < |t.log| ==>
                 match t.log[i]
                 case Granted(of, k, at) => of == src && at == now && k in D.Due(s, src, scope, targets, excluded, now)
                 case Released(_, _, _) => false
                 case Shown(_, _, _) => true
  {
    var due := D.Due(s, src, scope, targets, excluded, now);
    var t := D.Reserve(s, src, scope, targets, excluded, now);
    forall i | |s.log| <= i < |t.log|
      ensures match t.log[i]
              case Granted(of, k, at) => of == src && at == now && k in due
              case Released(_, _, _) => false
              case Shown(_, _, _) => true
    {
      if i < |s.log| + |due| {
        assert t.log[i] == D.Grants(src, due, now)[i - |s.log|] && due[i - |s.log|] in due;
      }
    }
  }

  lemma DecideBacked(j: Joint, a: D.Action)
    requires Backed(j) && D.Enabled(j.dedup, a) && !a.GiveUp?
    ensures Backed(Step(j, Decide(a)))
  {
    var t := Step(j, Decide(a));
    GrantsAccounted(j.dedup, a);
    forall src, k, at, i | D.GrantStands(t.dedup.log, src, k, at, i)
      ensures D.Item(src, k, at) in t.direct || OnItsWay(t, D.Item(src, k, at))
    {
      if i < |j.dedup.log| {
        assert D.GrantStands(j.dedup.log, src, k, at, i);
        if D.Item(src, k, at) !in j.direct + t.pending { SameCommand(j, t, D.Item(src, k, at)); }
      }
    }
  }

  /** A command on its way is on its way as long as its queue is the same. */
  lemma SameCommand(j: Joint, t: Joint, i: D.Item)
    requires OnItsWay(j, i) && i !in j.pending && t.items == j.items && t.peers == j.peers
    ensures OnItsWay(t, i)
  {
    var c :| Unreleased(j, i.key, c) && ItemsOf(j, i.key)[c] == i;
    assert Unreleased(t, i.key, c) && ItemsOf(t, i.key)[c] == i;
  }

  lemma FannedIsFresh(seen: seq<D.Action>, a: D.Action)
    requires D.Enabled(D.Run(seen), a)
    ensures Fanned(D.Run(seen), a) !! D.Run(seen).outstanding
  {
    var s := D.Run(seen);
    forall i | i in Fanned(s, a) ensures i !in s.outstanding {
      FreshItem(seen, a.src, a.origin, a.peers, a.now, i.key);
    }
  }

  lemma DecideInv(j: Joint, seen: seq<D.Action>, a: D.Action)
    requires Inv(j) && D.Run(seen) == j.dedup
    ensures Inv(Step(j, Decide(a)))
  {
    var t := Step(j, Decide(a));
    if D.Enabled(j.dedup, a) && !a.GiveUp? {
      GrantsAccounted(j.dedup, a);
      FannedIsFresh(seen, a);
      DecideBacked(j, a);
      DecideOutstanding(j, t, Fanned(j.dedup, a));
      forall src, k, at | D.Released(src, k, at) in t.dedup.log ensures GivenUp(t, D.Item(src, k, at)) {
        var i :| 0 <= i < |t.dedup.log| && t.dedup.log[i] == D.Released(src, k, at);
        assert D.Released(src, k, at) in j.dedup.log;
        SameGivenUp(j, t, D.Item(src, k, at));
      }
      SameQueues(j, t);
    }
  }

  lemma SameGivenUp(j: Joint, t: Joint, i: D.Item)
    requires GivenUp(j, i) && t.items == j.items && t.peers == j.peers
    ensures GivenUp(t, i)
  {
    var c :| 0 <= c < |ItemsOf(j, i.key)| && c in PeerOf(j, i.key).released && ItemsOf(j, i.key)[c] == i;
    assert c in PeerOf(t, i.key).released && ItemsOf(t, i.key)[c] == i;
  }

  lemma DecideOutstanding(j: Joint, t: Joint, more: set<D.Item>)
    requires Outstanding(j) && more !! j.dedup.outstanding
    requires t.items == j.items && t.peers == j.peers && t.pending == j.pending + more
    requires t.dedup.outstanding == j.dedup.outstanding + more
    ensures Outstanding(t)
  {
    forall k, c | Unreleased(t, k, c)
      ensures ItemsOf(t, k)[c] in t.dedup.outstanding && ItemsOf(t, k)[c] !in t.pending
    {
      assert Unreleased(j, k, c);
    }
    forall k, c, d | Unreleased(t, k, c) && Unreleased(t, k, d) && c != d ensures ItemsOf(t, k)[c] != ItemsOf(t, k)[d] {
      assert Unreleased(j, k, c) && Unreleased(j, k, d);
    }
  }

  // ---- An arrival ----

  lemma ArriveInv(j: Joint, i: D.Item)
    requires Inv(j)
    ensures Inv(Step(j, Arrive(i)))
  {
    var t := Step(j, Arrive(i));
    if i in j.pending {
      Q.StepInv(PeerOf(j, i.key), Q.Arrive);
      Q.NothingReleased(PeerOf(j, i.key), Q.Arrive);
      Q.OwedIssued(PeerOf(j, i.key));
      OneQueue(j, t, i.key);
      ArriveOutstanding(j, i);
      ArriveBacked(j, i);
    }
  }

  lemma ArriveBacked(j: Joint, i: D.Item)
    requires Inv(j) && i in j.pending
    ensures Backed(Step(j, Arrive(i))) && Accounted(Step(j, Arrive(i)))
  {
    var t := Step(j, Arrive(i));
    Q.NothingReleased(PeerOf(j, i.key), Q.Arrive);
    forall src, k, at, g | D.GrantStands(t.dedup.log, src, k, at, g)
      ensures D.Item(src, k, at) in t.direct || OnItsWay(t, D.Item(src, k, at))
    {
      if D.Item(src, k, at) !in j.direct { ArriveOnItsWay(j, i, D.Item(src, k, at)); }
    }
    forall src, k, at | D.Released(src, k, at) in t.dedup.log ensures GivenUp(t, D.Item(src, k, at)) {
      var x := D.Item(src, k, at);
      assert GivenUp(j, x);
      var c :| 0 <= c < |ItemsOf(j, k)| && c in PeerOf(j, k).released && ItemsOf(j, k)[c] == x;
      assert c in PeerOf(t, k).released && ItemsOf(t, k)[c] == x;
    }
  }

  /** The newcomer is the one command more. */
  lemma ArriveUnreleased(j: Joint, i: D.Item)
    requires Inv(j) && i in j.pending
    ensures var t := Step(j, Arrive(i));
            && (forall k, c :: Unreleased(j, k, c) ==> Unreleased(t, k, c) && ItemsOf(t, k)[c] == ItemsOf(j, k)[c])
            && (forall k, c :: Unreleased(t, k, c) ==>
                  Unreleased(j, k, c) || (k == i.key && c == |ItemsOf(j, k)| && ItemsOf(t, k)[c] == i))
            && Unreleased(t, i.key, |ItemsOf(j, i.key)|) && ItemsOf(t, i.key)[|ItemsOf(j, i.key)|] == i
  {
    Q.NothingReleased(PeerOf(j, i.key), Q.Arrive);
    Q.OwedIssued(PeerOf(j, i.key));
    var t := Step(j, Arrive(i));
    assert forall k :: PeerOf(t, k).released == PeerOf(j, k).released;
    assert forall k :: ItemsOf(t, k) == if k == i.key then ItemsOf(j, k) + [i] else ItemsOf(j, k);
  }

  lemma ArriveOutstanding(j: Joint, i: D.Item)
    requires Inv(j) && i in j.pending
    ensures Outstanding(Step(j, Arrive(i)))
  {
    var t := Step(j, Arrive(i));
    ArriveUnreleased(j, i);
    forall k, c | Unreleased(t, k, c)
      ensures ItemsOf(t, k)[c] in t.dedup.outstanding && ItemsOf(t, k)[c] !in t.pending
    {
      assert Unreleased(j, k, c) || ItemsOf(t, k)[c] == i;
    }
    forall k, c, d | Unreleased(t, k, c) && Unreleased(t, k, d) && c != d ensures ItemsOf(t, k)[c] != ItemsOf(t, k)[d] {
      assert Unreleased(j, k, c) || Unreleased(j, k, d);
    }
  }

  lemma ArriveOnItsWay(j: Joint, i: D.Item, x: D.Item)
    requires Inv(j) && i in j.pending && OnItsWay(j, x)
    ensures OnItsWay(Step(j, Arrive(i)), x)
  {
    var t := Step(j, Arrive(i));
    ArriveUnreleased(j, i);
    if x !in j.pending {
      var c :| Unreleased(j, x.key, c) && ItemsOf(j, x.key)[c] == x;
      assert Unreleased(t, x.key, c) && ItemsOf(t, x.key)[c] == x;
    } else if x == i {
      assert Unreleased(t, i.key, |ItemsOf(j, i.key)|);
    }
  }

  // ---- A release ----

  /** The command is released, and it alone. */
  lemma ReleaseUnreleased(j: Joint, k: Key, c: Q.Command)
    requires Inv(j) && c in Q.Owed(PeerOf(j, k)) && c < |ItemsOf(j, k)|
    ensures var t := Step(j, Release(k, c));
            && Unreleased(j, k, c) && ItemsOf(j, k)[c] in j.dedup.outstanding
            && forall l, d :: Unreleased(t, l, d) <==> Unreleased(j, l, d) && !(l == k && d == c)
  {
    var t := Step(j, Release(k, c));
    assert forall l :: PeerOf(t, l).released == PeerOf(j, l).released + if l == k then {c} else {};
  }

  lemma ReleaseInv(j: Joint, k: Key, c: Q.Command)
    requires Inv(j)
    ensures Inv(Step(j, Release(k, c)))
  {
    var t := Step(j, Release(k, c));
    if c in Q.Owed(PeerOf(j, k)) && c < |ItemsOf(j, k)| {
      Q.StepInv(PeerOf(j, k), Q.Release(c));
      assert PeerOf(t, k).issued == PeerOf(j, k).issued;
      OneQueue(j, t, k);
      ReleaseOutstanding(j, k, c);
      ReleaseBacked(j, k, c);
      ReleaseAccounted(j, k, c);
    }
  }

  lemma ReleaseOutstanding(j: Joint, k: Key, c: Q.Command)
    requires Inv(j) && c in Q.Owed(PeerOf(j, k)) && c < |ItemsOf(j, k)|
    ensures Outstanding(Step(j, Release(k, c)))
  {
    var t := Step(j, Release(k, c));
    ReleaseUnreleased(j, k, c);
    forall l, d | Unreleased(t, l, d)
      ensures ItemsOf(t, l)[d] in t.dedup.outstanding && ItemsOf(t, l)[d] !in t.pending
    {
      assert Unreleased(j, l, d) && ItemsOf(j, l)[d] != ItemsOf(j, k)[c];
    }
    forall l, d, e | Unreleased(t, l, d) && Unreleased(t, l, e) && d != e ensures ItemsOf(t, l)[d] != ItemsOf(t, l)[e] {
      assert Unreleased(j, l, d) && Unreleased(j, l, e);
    }
  }

  lemma ReleaseBacked(j: Joint, k: Key, c: Q.Command)
    requires Inv(j) && c in Q.Owed(PeerOf(j, k)) && c < |ItemsOf(j, k)|
    ensures Backed(Step(j, Release(k, c)))
  {
    var t, gone := Step(j, Release(k, c)), ItemsOf(j, k)[c];
    ReleaseUnreleased(j, k, c);
    var n := |j.dedup.log|;
    assert t.dedup.log == j.dedup.log + [D.Released(gone.src, gone.key, gone.reservedAt)];
    forall src, l, at, i | D.GrantStands(t.dedup.log, src, l, at, i)
      ensures D.Item(src, l, at) in t.direct || OnItsWay(t, D.Item(src, l, at))
    {
      var x := D.Item(src, l, at);
      assert i < n && t.dedup.log[n] != D.Released(src, l, at);
      forall m | i < m < n ensures j.dedup.log[m] != D.Released(src, l, at) {
        assert t.dedup.log[m] == j.dedup.log[m];
      }
      assert D.GrantStands(j.dedup.log, src, l, at, i);
      if x !in j.direct + j.pending {
        var d :| Unreleased(j, l, d) && ItemsOf(j, l)[d] == x;
        assert Unreleased(t, l, d) && ItemsOf(t, l)[d] == x;
      }
    }
  }

  lemma ReleaseAccounted(j: Joint, k: Key, c: Q.Command)
    requires Inv(j) && c in Q.Owed(PeerOf(j, k)) && c < |ItemsOf(j, k)|
    ensures Accounted(Step(j, Release(k, c)))
  {
    var t, gone := Step(j, Release(k, c)), ItemsOf(j, k)[c];
    ReleaseUnreleased(j, k, c);
    assert t.dedup.log == j.dedup.log + [D.Released(gone.src, gone.key, gone.reservedAt)];
    forall src, l, at | D.Released(src, l, at) in t.dedup.log ensures GivenUp(t, D.Item(src, l, at)) {
      var x := D.Item(src, l, at);
      if x == gone {
        assert c in PeerOf(t, k).released && ItemsOf(t, k)[c] == x;
      } else {
        assert GivenUp(j, x);
        var d :| 0 <= d < |ItemsOf(j, l)| && d in PeerOf(j, l).released && ItemsOf(j, l)[d] == x;
        assert d in PeerOf(t, l).released && ItemsOf(t, l)[d] == x;
      }
    }
  }

  lemma {:induction false} RunInv(trace: seq<Action>)
    ensures Inv(Run(trace))
  {
    if trace == [] {
      Q.InitialInv();
    } else {
      var j := Run(trace[..|trace| - 1]);
      RunInv(trace[..|trace| - 1]);
      match trace[|trace| - 1]
      case Decide(a) =>
        var seen := Refines(trace[..|trace| - 1]);
        DecideInv(j, seen, a);
      case Arrive(i) => ArriveInv(j, i);
      case Move(k, m) => MoveInv(j, k, m);
      case Release(k, c) => ReleaseInv(j, k, c);
    }
  }

  // ---- The theorems ----

  /** What a withheld block rests on, in any run of all queues and the dedup: if a
      decision withholds the block from a registered target, then less than a TTL
      ago the block was sent to the target at once, or a fan-out to it was started
      that has not been given up. */
  lemma WithheldIsOnItsWay(trace: seq<Action>, src: Source, scope: Scope, targets: seq<Key>, excluded: seq<Key>,
                           now: int, k: Key)
    requires var s := Run(trace).dedup;
             && D.ClockMoves(s, now) && k in targets && k in s.registered
             && k !in D.Due(s, src, scope, targets, excluded, now)
    ensures exists at :: Recent(at, now) &&
              (D.Item(src, k, at) in Run(trace).direct || OnItsWay(Run(trace), D.Item(src, k, at)))
  {
    var seen := Refines(trace);
    RunInv(trace);
    D.WithheldOnlyIfGiven(seen, src, scope, targets, excluded, now, k);
    var log := Run(trace).dedup.log;
    var at :| D.Justified(log, src, k, at) && Recent(at, now);
    var i :| D.GrantStands(log, src, k, at, i);
  }

  /** What that means for a fan-out at its queue: it waits there or is in somebody's
      hand, was sent, or was lost with the stream; or its release is under way. */
  lemma FateOfUnreleased(trace: seq<Action>, k: Key, c: Q.Command)
    requires Unreleased(Run(trace), k, c)
    ensures var p := PeerOf(Run(trace), k);
            || c in p.inside || c in Q.Held(p) + p.queue || c in p.refused || c in Q.Owed(p)
            || Q.Taken(c, Q.Sent) in p.taken || Q.Taken(c, Q.PeerGone) in p.taken
  {
    RunInv(trace);
    Q.Fate(PeerOf(Run(trace), k), c);
  }

  /** Only failures give a reservation up: what the dedup has released was a fan-out
      command dropped with the queue full, on a role change or a failed send. */
  lemma OnlyFailuresGiveUp(trace: seq<Action>, src: Source, k: Key, at: int)
    requires D.Released(src, k, at) in Run(trace).dedup.log
    ensures exists c :: 0 <= c < |ItemsOf(Run(trace), k)| && ItemsOf(Run(trace), k)[c] == D.Item(src, k, at)
              && var p := PeerOf(Run(trace), k);
                 && c in p.released && (c in p.full || c in Q.Failed(p.taken)) && Q.Taken(c, Q.Sent) !in p.taken
  {
    RunInv(trace);
    var j := Run(trace);
    assert GivenUp(j, D.Item(src, k, at));
    var c :| 0 <= c < |ItemsOf(j, k)| && c in PeerOf(j, k).released && ItemsOf(j, k)[c] == D.Item(src, k, at);
    Q.ReleasedFailed(PeerOf(j, k), c);
  }

  lemma OwedOutstanding(j: Joint, k: Key, c: Q.Command)
    requires Inv(j) && c in Q.Owed(PeerOf(j, k))
    ensures c < |ItemsOf(j, k)| && ItemsOf(j, k)[c] in j.dedup.outstanding && ItemsOf(j, k)[c].key == k
  {
    Q.OwedIssued(PeerOf(j, k));
    assert Unreleased(j, k, c);
  }

  /** And every failure does: once the release under way for a command is through, the
      next decision within the TTL that targets the registered peer delivers. */
  lemma ReleaseDelivers(trace: seq<Action>, k: Key, c: Q.Command, now: int, scope: Scope, targets: seq<Key>,
                        excluded: seq<Key>)
    requires c in Q.Owed(PeerOf(Run(trace), k)) && k in Run(trace).dedup.registered && k in targets
    requires D.ClockMoves(Run(trace).dedup, now)
    ensures c < |ItemsOf(Run(trace), k)|
    ensures var i := ItemsOf(Run(trace), k)[c];
            Recent(i.reservedAt, Run(trace).dedup.clock) ==>
              k in D.Due(Step(Run(trace), Release(k, c)).dedup, i.src, scope, targets, excluded, now)
  {
    RunInv(trace);
    OwedOutstanding(Run(trace), k, c);
    var seen := Refines(trace);
    if Recent(ItemsOf(Run(trace), k)[c].reservedAt, Run(trace).dedup.clock) {
      D.GiveUpDelivers(seen, ItemsOf(Run(trace), k)[c], now, scope, targets, excluded);
      ReleaseGivesUp(Run(trace), k, c);
    }
  }

  lemma ReleaseGivesUp(j: Joint, k: Key, c: Q.Command)
    requires c in Q.Owed(PeerOf(j, k)) && c < |ItemsOf(j, k)|
    ensures Step(j, Release(k, c)).dedup == D.Step(j.dedup, D.GiveUp(ItemsOf(j, k)[c]))
  {
  }
}

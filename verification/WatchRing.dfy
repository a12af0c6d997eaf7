/** WatchDecisions subscribers (pkg/analyzer/watch.go): a drop-oldest ring per
    subscriber, and the wake-up token that tells its reader to drain it. */
module WatchRing {
  import opened Basics

  /** The bounded drop-oldest queue. */
  function PushQueue<T>(q: seq<T>, d: T, capacity: nat): seq<T> {
    (if |q| == capacity && q != [] then q[1..] else q) + [d]
  }

  /** x modulo len, for the values of x that occur; see WrapIsMod. */
  function Wrap(x: nat, len: nat): nat
    requires x < 2 * len
  {
    if x < len then x else x - len
  }

  lemma WrapIsMod(x: nat, len: nat)
    requires x < 2 * len
    ensures Wrap(x, len) == x % len
  {
    if x >= len {
      assert x == 1 * len + (x - len);
    }
  }

  predicate Increasing(s: seq<nat>, below: int) {
    && (forall i, j :: 0 <= i < j < |s| ==> s[i] < s[j])
    && forall i :: 0 <= i < |s| ==> s[i] < below
  }

  class WatchSubscriber<D(==)> {
    const ring: array<Option<D>>
    var head: nat
    var n: nat
    var dropped: nat

    /** Everything pushed so far, and the indices of what pop delivered. */
    ghost var pushed: seq<D>
    ghost var delivered: seq<nat>

    ghost predicate RingOk()
      reads this`head, this`n, this`pushed, ring
    {
      && 0 < ring.Length && head < ring.Length && n <= ring.Length && n <= |pushed|
      && forall i :: 0 <= i < n ==> ring[Wrap(head + i, ring.Length)] == Some(Held()[i])
    }

    /** What the ring holds: the newest `n` decisions pushed. */
    ghost function Held(): seq<D>
      requires n <= |pushed|
      reads this`n, this`pushed
    {
      pushed[|pushed| - n..]
    }

    /** Pushed = delivered + dropped + held, and delivery is in publish order. */
    ghost predicate Valid()
      reads this, ring
    {
      && RingOk()
      && |pushed| == |delivered| + dropped + n
      && Increasing(delivered, |pushed| - n)
    }

    constructor (bufferSize: nat)
      requires bufferSize > 0
      ensures Valid() && Held() == [] && ring.Length == bufferSize && fresh(ring)
    {
      ring := new Option<D>[bufferSize](_ => None);
      head, n, dropped, pushed, delivered := 0, 0, 0, [], [];
    }

    method Push(d: D)
      requires Valid()
      modifies this, ring
      ensures Valid() && pushed == old(pushed) + [d] && delivered == old(delivered)
      ensures Held() == PushQueue(old(Held()), d, ring.Length)
      ensures dropped == old(dropped) + if old(n) == ring.Length then 1 else 0
    {
      if n == ring.Length {
        ring[head] := None;
        Advance();
        dropped := dropped + 1;
      }
      Store(d);
    }

    /** The oldest decision leaves the ring. */
    method Advance()
      requires 0 < ring.Length && head < ring.Length && 0 < n <= ring.Length && n <= |pushed|
      requires forall i :: 1 <= i < n ==> ring[Wrap(head + i, ring.Length)] == Some(Held()[i])
      modifies this`head, this`n
      ensures RingOk() && n == old(n) - 1
    {
      ghost var was, held := head, Held();
      head := Wrap(head + 1, ring.Length);
      n := n - 1;
      forall i | 0 <= i < n ensures ring[Wrap(head + i, ring.Length)] == Some(Held()[i]) {
        assert ring[Wrap(was + (i + 1), ring.Length)] == Some(held[i + 1]);
      }
    }

    method Store(d: D)
      requires RingOk() && n < ring.Length
      modifies this`n, this`pushed, ring
      ensures RingOk() && n == old(n) + 1 && pushed == old(pushed) + [d]
    {
      ghost var held := Held();
      ring[Wrap(head + n, ring.Length)] := Some(d);
      n := n + 1;
      pushed := pushed + [d];
      assert Held() == held + [d];
    }

    method Pop() returns (d: Option<D>)
      requires Valid()
      modifies this, ring
      ensures Valid() && pushed == old(pushed) && dropped == old(dropped)
      ensures d.None? <==> old(Held()) == []
      ensures d.None? ==> delivered == old(delivered) && Held() == old(Held())
      ensures d.Some? ==> d.value == old(Held())[0] && Held() == old(Held())[1..]
                          && delivered == old(delivered) + [|pushed| - old(n)]
    {
      if n == 0 {
        return None;
      }
      assert ring[Wrap(head + 0, ring.Length)] == Some(Held()[0]);
      d := ring[head];
      ring[head] := None;
      delivered := delivered + [|pushed| - n];
      Advance();
    }
  }

  // ---- No lost wake-up ----

  /** The handler goroutine of WatchDecisions. */
  datatype Reader = Waiting | Draining | Sending(decision: nat) | Gone

  /** `notifying` counts publishers between their push and their notify. */
  datatype Watch = Watch(capacity: nat, held: seq<nat>, token: bool, notifying: nat, reader: Reader)

  datatype Action = PublishPush(d: nat) | PublishNotify | WakeUp | PopOne | SendDone | Leave

  function Step(w: Watch, a: Action): Watch {
    match a
    case PublishPush(d) => w.(held := PushQueue(w.held, d, w.capacity), notifying := w.notifying + 1)
    case PublishNotify => if w.notifying > 0 then w.(notifying := w.notifying - 1, token := true) else w
    case WakeUp => if w.reader.Waiting? && w.token then w.(token := false, reader := Draining) else w
    case PopOne =>
      if !w.reader.Draining? then w
      else if w.held == [] then w.(reader := Waiting)
      else w.(held := w.held[1..], reader := Sending(w.held[0]))
    case SendDone => if w.reader.Sending? then w.(reader := Draining) else w
    case Leave => w.(reader := Gone)
  }

  function Run(capacity: nat, trace: seq<Action>): Watch {
    if trace == [] then Watch(capacity, [], false, 0, Waiting)
    else Step(Run(capacity, trace[..|trace| - 1]), trace[|trace| - 1])
  }

  /** A waiting reader with decisions held always has a token to wake it, or a
      publisher about to place one; and the ring never outgrows its capacity. */
  lemma {:induction false} NoLostWakeUp(capacity: nat, trace: seq<Action>)
    requires capacity > 0
    ensures var w := Run(capacity, trace);
            && (w.reader.Waiting? && w.held != [] ==> w.token || w.notifying > 0)
            && |w.held| <= capacity
  {
    if trace != [] {
      NoLostWakeUp(capacity, trace[..|trace| - 1]);
      CapacityFixed(capacity, trace[..|trace| - 1]);
    }
  }

  function After(w: Watch, steps: seq<Action>): Watch
    decreases |steps|
  {
    if steps == [] then w else After(Step(w, steps[0]), steps[1..])
  }

  lemma {:induction false} RunAfter(capacity: nat, trace: seq<Action>, steps: seq<Action>)
    ensures Run(capacity, trace + steps) == After(Run(capacity, trace), steps)
    decreases |steps|
  {
    if steps == [] {
      assert trace + steps == trace;
    } else {
      var more := trace + [steps[0]];
      assert more[..|trace|] == trace && trace + steps == more + steps[1..];
      RunAfter(capacity, more, steps[1..]);
    }
  }

  /** What is left to do until the reader sends a decision. */
  function WakeSteps(w: Watch): seq<Action> {
    match w.reader
    case Waiting => if w.token then [WakeUp, PopOne] else [PublishNotify, WakeUp, PopOne]
    case Draining => [PopOne]
    case _ => [SendDone, PopOne]
  }

  /** And it gets them: once the token is placed the reader wakes and sends the oldest
      decision held; back from a send, the next. */
  lemma Wakes(capacity: nat, trace: seq<Action>)
    requires capacity > 0 && Run(capacity, trace).held != [] && !Run(capacity, trace).reader.Gone?
    ensures var w := Run(capacity, trace);
            var v := Run(capacity, trace + WakeSteps(w));
            v.reader == Sending(w.held[0]) && v.held == w.held[1..]
  {
    NoLostWakeUp(capacity, trace);
    var w := Run(capacity, trace);
    RunAfter(capacity, trace, WakeSteps(w));
    AfterSteps(w, WakeSteps(w));
  }

  lemma AfterSteps(w: Watch, steps: seq<Action>)
    requires 0 < |steps| <= 3
    ensures After(w, steps)
         == match |steps|
            case 1 => Step(w, steps[0])
            case 2 => Step(Step(w, steps[0]), steps[1])
            case _ => Step(Step(Step(w, steps[0]), steps[1]), steps[2])
  {
    var a := Step(w, steps[0]);
    assert After(w, steps) == After(a, steps[1..]);
    if |steps| > 1 {
      var b := Step(a, steps[1]);
      assert After(a, steps[1..]) == After(b, steps[1..][1..]);
      if |steps| > 2 {
        assert After(b, steps[1..][1..]) == After(Step(b, steps[2]), []);
      }
    }
  }

  lemma {:induction false} CapacityFixed(capacity: nat, trace: seq<Action>)
    ensures Run(capacity, trace).capacity == capacity
  {
    if trace != [] { CapacityFixed(capacity, trace[..|trace| - 1]); }
  }
}

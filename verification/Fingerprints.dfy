/** The double buffer of scrub fingerprints (pkg/collector/fingerprint.go): XDP
    counts packets into the map its generation selects while userspace drains
    the other one. Every interleaving of packets, flips, partial drains and
    failed switches is a run of the steps below. */
module Fingerprints {
  import opened Basics

  /** A fingerprint bucket; a map is how many packets each bucket has counted. */
  type Key = nat
  type Counts = multiset<Key>

  const WRAP: nat := 0x1_0000_0000

  predicate Odd(gen: nat) { gen % 2 == 1 }

  /** nextGeneration, on uint32. */
  function NextGeneration(gen: nat): nat
    requires gen < WRAP
  {
    var next := (gen + 1) % WRAP;
    if next == 0 then 2 else next
  }

  /** The next generation is never "off" and always selects the other map, also
      across the wrap. */
  lemma NextAlternates(gen: nat)
    requires gen < WRAP
    ensures 0 < NextGeneration(gen) < WRAP && Odd(NextGeneration(gen)) != Odd(gen)
  {
  }

  /** Where flip stands. */
  datatype Phase = Idle | Retried | Switched(prev: nat) | Settled(prev: nat)

  datatype Buffers = Buffers(
    active: nat,                  // the generation XDP reads
    mapA: Counts, mapB: Counts,   // odd and even generations
    airA: Counts, airB: Counts,   // packets that read the generation, not yet counted
    seen: Counts,                 // every packet XDP took up
    returned: Counts,             // everything flip has returned
    gen: nat, retry: nat,         // fields of the fingerprinter
    phase: Phase,
    misdrained: bool)             // a drained map was still being written to

  datatype Action =
    | ReadGeneration(key: Key)    // XDP takes up a packet
    | CountPacket(odd: bool, key: Key)
    | BeginFlip(part: Counts)     // retries a partial drain first
    | Switch(ok: bool)
    | Settle                      // the sleep: packets of the old generation finish
    | DrainOld(part: Counts, ok: bool)

  /** After start(). */
  const STARTED: Buffers :=
    Buffers(1, multiset{}, multiset{}, multiset{}, multiset{}, multiset{}, multiset{}, 1, 0, Idle, false)

  function MapOf(b: Buffers, gen: nat): Counts {
    if Odd(gen) then b.mapA else b.mapB
  }

  /** DrainFingerprints: `part` is read and deleted. */
  function Drain(b: Buffers, gen: nat, part: Counts): Buffers {
    b.(mapA := if Odd(gen) then b.mapA - part else b.mapA,
       mapB := if Odd(gen) then b.mapB else b.mapB - part,
       returned := b.returned + part,
       misdrained := b.misdrained || Odd(b.active) == Odd(gen) || (if Odd(gen) then b.airA else b.airB) != multiset{})
  }

  function Step(b: Buffers, a: Action): Buffers {
    match a
    case ReadGeneration(k) =>
      if b.active == 0 then b
      else b.(seen := b.seen + multiset{k},
              airA := if Odd(b.active) then b.airA + multiset{k} else b.airA,
              airB := if Odd(b.active) then b.airB else b.airB + multiset{k})
    case CountPacket(odd, k) =>
      if odd && k in b.airA then b.(airA := b.airA - multiset{k}, mapA := b.mapA + multiset{k})
      else if !odd && k in b.airB then b.(airB := b.airB - multiset{k}, mapB := b.mapB + multiset{k})
      else b
    case BeginFlip(part) =>
      if !b.phase.Idle? then b
      else if b.retry == 0 then b.(phase := Retried)
      else if part <= MapOf(b, b.retry) then Drain(b, b.retry, part).(retry := 0, phase := Retried)
      else b
    case Switch(ok) =>
      if !b.phase.Retried? || b.gen >= WRAP then b
      else if !ok then b.(phase := Idle)
      else b.(active := NextGeneration(b.gen), gen := NextGeneration(b.gen), phase := Switched(b.gen))
    case Settle =>
      if b.phase.Switched? && (if Odd(b.phase.prev) then b.airA else b.airB) == multiset{}
      then b.(phase := Settled(b.phase.prev)) else b
    case DrainOld(part, ok) =>
      if b.phase.Settled? && part <= MapOf(b, b.phase.prev) && (ok ==> part == MapOf(b, b.phase.prev))
      then Drain(b, b.phase.prev, part).(retry := if ok then b.retry else b.phase.prev, phase := Idle)
      else b
  }

  function Run(trace: seq<Action>): Buffers {
    if trace == [] then STARTED else Step(Run(trace[..|trace| - 1]), trace[|trace| - 1])
  }

  /** The map of `gen` is quiet: XDP uses the other one and nobody is on the way. */
  predicate Quiet(b: Buffers, gen: nat) {
    Odd(b.active) != Odd(gen) && (if Odd(gen) then b.airA else b.airB) == multiset{}
  }

  /** Only the phase between the switch and the end of the settle time may have
      packets of the old generation on the way. */
  predicate Safe(b: Buffers) {
    && 0 < b.gen < WRAP && b.active == b.gen && !b.misdrained
    && (b.retry != 0 ==> Odd(b.retry) != Odd(b.gen) && !b.phase.Retried?)
    && (match b.phase
        case Switched(prev) => prev != 0 && Odd(prev) != Odd(b.gen) && b.retry == 0
        case Settled(prev) => prev != 0 && Quiet(b, prev) && b.retry == 0
        case _ => if Odd(b.gen) then b.airB == multiset{} else b.airA == multiset{})
  }

  /** Packets of one bucket: taken up = returned + in the maps + on the way. */
  predicate ConservedKey(b: Buffers, k: Key) {
    b.seen[k] == b.returned[k] + b.mapA[k] + b.mapB[k] + b.airA[k] + b.airB[k]
  }

  lemma SafeStep(b: Buffers, a: Action)
    requires Safe(b)
    ensures Safe(Step(b, a))
  {
    match a
    case Switch(_) => NextAlternates(b.gen);
    case ReadGeneration(_) =>
    case CountPacket(_, _) =>
    case BeginFlip(_) =>
    case Settle =>
    case DrainOld(_, _) =>
  }

  lemma DrainConserves(b: Buffers, gen: nat, part: Counts, k: Key)
    requires ConservedKey(b, k) && part <= MapOf(b, gen)
    ensures ConservedKey(Drain(b, gen, part), k)
  {
    assert part[k] <= MapOf(b, gen)[k];
  }

  lemma PacketConserves(b: Buffers, a: Action, k: Key)
    requires ConservedKey(b, k) && (a.ReadGeneration? || a.CountPacket?)
    ensures ConservedKey(Step(b, a), k)
  {
  }

  lemma ConservedStep(b: Buffers, a: Action, k: Key)
    requires ConservedKey(b, k)
    ensures ConservedKey(Step(b, a), k)
  {
    match a {
      case ReadGeneration(_) => PacketConserves(b, a, k);
      case CountPacket(_, _) => PacketConserves(b, a, k);
      case BeginFlip(part) => if part <= MapOf(b, b.retry) { DrainConserves(b, b.retry, part, k); }
      case DrainOld(part, _) =>
        if b.phase.Settled? && part <= MapOf(b, b.phase.prev) { DrainConserves(b, b.phase.prev, part, k); }
      case _ =>
    }
  }

  lemma {:induction false} RunSafe(trace: seq<Action>)
    ensures Safe(Run(trace))
  {
    if trace != [] {
      RunSafe(trace[..|trace| - 1]);
      SafeStep(Run(trace[..|trace| - 1]), trace[|trace| - 1]);
    }
  }

  lemma {:induction false} RunConserves(trace: seq<Action>, k: Key)
    ensures ConservedKey(Run(trace), k)
  {
    if trace != [] {
      RunConserves(trace[..|trace| - 1], k);
      ConservedStep(Run(trace[..|trace| - 1]), trace[|trace| - 1], k);
    }
  }

  /** Across any number of flips, partial drains, failed switches and the wrap of
      the generation, a map is drained only while XDP counts into the other one
      and no packet is on its way to it; and every packet is accounted for. */
  lemma DoubleBuffer(trace: seq<Action>)
    ensures !Run(trace).misdrained
    ensures forall k :: ConservedKey(Run(trace), k)
  {
    RunSafe(trace);
    forall k ensures ConservedKey(Run(trace), k) { RunConserves(trace, k); }
  }

  // ---- What a flip returns ----

  /** What the map of that parity has counted, and what is on its way to it. */
  function Counted(b: Buffers, odd: bool): Counts { if odd then b.mapA else b.mapB }
  function Coming(b: Buffers, odd: bool): Counts { if odd then b.airA else b.airB }

  /** XDP at work, and the settle time ending. */
  predicate Traffic(a: Action) {
    a.ReadGeneration? || a.CountPacket? || a.Settle?
  }

  /** The map of this parity is the one switched away from. */
  predicate Leaving(b: Buffers, odd: bool) {
    && (b.phase.Switched? || b.phase.Settled?) && Odd(b.phase.prev) == odd
    && b.active != 0 && Odd(b.active) != odd
    && (b.phase.Settled? ==> Coming(b, odd) == multiset{})
  }

  lemma TrafficStep(b: Buffers, a: Action, odd: bool)
    requires Leaving(b, odd) && Traffic(a)
    ensures var c := Step(b, a);
            && Leaving(c, odd) && c.returned == b.returned && c.retry == b.retry
            && Counted(c, odd) + Coming(c, odd) == Counted(b, odd) + Coming(b, odd)
  {
    match a
    case ReadGeneration(_) =>
    case CountPacket(_, k) => CountTraffic(b, a, k);
    case Settle =>
  }

  /** A packet on its way is counted. */
  lemma CountTraffic(b: Buffers, a: Action, k: Key)
    requires a.CountPacket? && a.key == k
    ensures var c := Step(b, a);
            && c.mapA + c.airA == b.mapA + b.airA && c.mapB + c.airB == b.mapB + b.airB
            && c.airA <= b.airA && c.airB <= b.airB
            && c.phase == b.phase && c.active == b.active && c.returned == b.returned && c.retry == b.retry
  {
    if a.odd && k in b.airA {
      assert b.airA == (b.airA - multiset{k}) + multiset{k};
    } else if k in b.airB {
      assert b.airB == (b.airB - multiset{k}) + multiset{k};
    }
  }

  lemma RunSnoc(trace: seq<Action>, a: Action)
    ensures Same(Run(trace + [a]), Step(Run(trace), a))
  {
    assert (trace + [a])[..|trace|] == trace;
  }

  function After(b: Buffers, during: seq<Action>): Buffers
    decreases |during|
  {
    if during == [] then b else After(Step(b, during[0]), during[1..])
  }

  lemma {:induction false} RunAfter(trace: seq<Action>, during: seq<Action>)
    ensures Same(Run(trace + during), After(Run(trace), during))
    decreases |during|
  {
    if during == [] {
      assert trace + during == trace;
    } else {
      RunSnoc(trace, during[0]);
      assert trace + during == trace + [during[0]] + during[1..];
      RunAfter(trace + [during[0]], during[1..]);
    }
  }

  lemma {:induction false} TrafficAfter(b: Buffers, during: seq<Action>, odd: bool)
    requires Leaving(b, odd) && forall i :: 0 <= i < |during| ==> Traffic(during[i])
    ensures var c := After(b, during);
            && Leaving(c, odd) && c.returned == b.returned && c.retry == b.retry
            && Counted(c, odd) + Coming(c, odd) == Counted(b, odd) + Coming(b, odd)
    decreases |during|
  {
    if during != [] {
      TrafficStep(b, during[0], odd);
      TrafficAfter(Step(b, during[0]), during[1..], odd);
    }
  }

  /** From `b` on, XDP has been turned away from the map of this parity, which takes only
      what was on its way to it. */
  predicate Flipping(b: Buffers, c: Buffers, odd: bool) {
    && Leaving(c, odd) && c.returned == b.returned
    && Counted(c, odd) + Coming(c, odd) == Counted(b, odd) + Coming(b, odd)
  }

  lemma SwitchFlips(b: Buffers)
    requires Safe(b) && b.phase.Retried?
    ensures Flipping(b, Step(b, Switch(true)), Odd(b.active))
  {
    NextAlternates(b.gen);
  }

  /** The drain returns what the map held before the switch and what was on its way to
      it then, and leaves it empty. */
  lemma DrainReturns(b: Buffers, c: Buffers, odd: bool)
    requires Flipping(b, c, odd)
    ensures Coming(c, odd) == multiset{} ==> Step(c, Settle).phase.Settled?
    ensures c.phase.Settled? ==>
              var d := Step(c, DrainOld(Counted(c, odd), true));
              && d.phase.Idle? && Counted(d, odd) == multiset{} && Coming(d, odd) == multiset{}
              && d.returned == b.returned + (Counted(b, odd) + Coming(b, odd))
  {
    if c.phase.Settled? {
      assert Counted(c, odd) + Coming(c, odd) == Counted(c, odd);
      assert MapOf(c, c.phase.prev) == Counted(c, odd);
    }
  }

  /** A switch that succeeds turns XDP to the other map. When nothing is on its way to the
      old one any more, the settle time can end; and the drain then returns exactly
      what the map held at the switch and what was on its way to it, whatever XDP
      does meanwhile, and leaves it empty. */
  lemma FlipReturns(trace: seq<Action>, during: seq<Action>)
    requires Run(trace).phase.Retried? && forall i :: 0 <= i < |during| ==> Traffic(during[i])
    ensures var b, c := Run(trace), Run(trace + [Switch(true)] + during);
            var odd := Odd(b.active);
            && c.active != 0 && Odd(c.active) != odd
            && (Coming(c, odd) == multiset{} ==> Step(c, Settle).phase.Settled?)
            && (c.phase.Settled? ==>
                  var d := Step(c, DrainOld(Counted(c, odd), true));
                  && d.phase.Idle? && Counted(d, odd) == multiset{} && Coming(d, odd) == multiset{}
                  && d.returned == b.returned + (Counted(b, odd) + Coming(b, odd)))
  {
    var b := Run(trace);
    RunSafe(trace);
    SwitchFlips(b);
    FlipAfter(trace, during);
    DrainReturns(b, Run(trace + [Switch(true)] + during), Odd(b.active));
  }

  lemma FlipAfter(trace: seq<Action>, during: seq<Action>)
    requires Flipping(Run(trace), Step(Run(trace), Switch(true)), Odd(Run(trace).active))
    requires forall i :: 0 <= i < |during| ==> Traffic(during[i])
    ensures Flipping(Run(trace), Run(trace + [Switch(true)] + during), Odd(Run(trace).active)) == true
  {
    RunSnoc(trace, Switch(true));
    RunAfter(trace + [Switch(true)], during);
    TrafficAfter(Run(trace + [Switch(true)]), during, Odd(Run(trace).active));
  }

  /** A drain that failed half-way left something in the map of this parity. */
  predicate LeftOver(b: Buffers, odd: bool) {
    && b.phase.Idle? && b.retry != 0 && Odd(b.retry) == odd
    && b.active != 0 && Odd(b.active) != odd && Coming(b, odd) == multiset{}
  }

  lemma LeftOverStep(b: Buffers, a: Action, odd: bool)
    requires LeftOver(b, odd) && Traffic(a)
    ensures var c := Step(b, a);
            LeftOver(c, odd) && c.returned == b.returned && Counted(c, odd) == Counted(b, odd)
  {
  }

  lemma {:induction false} LeftOverAfter(b: Buffers, during: seq<Action>, odd: bool)
    requires LeftOver(b, odd) && forall i :: 0 <= i < |during| ==> Traffic(during[i])
    ensures var c := After(b, during);
            LeftOver(c, odd) && c.returned == b.returned && Counted(c, odd) == Counted(b, odd)
    decreases |during|
  {
    if during != [] {
      LeftOverStep(b, during[0], odd);
      LeftOverAfter(Step(b, during[0]), during[1..], odd);
    }
  }

  lemma DrainLeaves(b: Buffers, part: Counts)
    requires Safe(b) && b.phase.Settled? && part <= Counted(b, Odd(b.phase.prev))
    ensures var c, odd := Step(b, DrainOld(part, false)), Odd(b.phase.prev);
            LeftOver(c, odd) && c.returned + Counted(c, odd) == b.returned + Counted(b, odd)
  {
  }

  lemma RetryReturns(c: Buffers, odd: bool)
    requires LeftOver(c, odd)
    ensures var d := Step(c, BeginFlip(Counted(c, odd)));
            d.phase.Retried? && Counted(d, odd) == multiset{} && d.returned == c.returned + Counted(c, odd)
  {
  }

  /** What a failed drain left is returned by the next flip before it switches: between
      them nothing is added to it. */
  lemma LeftOverReturned(trace: seq<Action>, part: Counts, during: seq<Action>)
    requires Run(trace).phase.Settled? && part <= Counted(Run(trace), Odd(Run(trace).phase.prev))
    requires forall i :: 0 <= i < |during| ==> Traffic(during[i])
    ensures var b := Run(trace);
            var odd := Odd(b.phase.prev);
            var c := Run(trace + [DrainOld(part, false)] + during);
            var d := Step(c, BeginFlip(Counted(c, odd)));
            d.phase.Retried? && Counted(d, odd) == multiset{} && d.returned == b.returned + Counted(b, odd)
  {
    var odd := Odd(Run(trace).phase.prev);
    var mid := Run(trace + [DrainOld(part, false)]);
    RunSafe(trace);
    RunSnoc(trace, DrainOld(part, false));
    DrainLeaves(Run(trace), part);
    RunAfter(trace + [DrainOld(part, false)], during);
    LeftOverAfter(mid, during, odd);
    RetryReturns(After(mid, during), odd);
  }
}

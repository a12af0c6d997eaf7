/** Whole runs of a collector's rule engine (pkg/collector/rules.go): any deltas and
    expiry ticks, at any times, over a kernel that may fail at any point. */
module RuleRuns {
  import opened Basics
  import opened RuleBody
  import opened RuleLayout
  import opened RuleTries
  import opened SlotLedger
  import opened RuleReaders
  import opened RuleDelta
  import opened RuleBooks
  import E = RuleEngine

  datatype Op = Change(delta: Delta, now: int) | Tick(now: int)

  // ---- Slots at rest ----

  /** No rule uses the slot, and it was retired at `t` or later, less than its grace
      period ago. */
  ghost predicate Resting(e: Engine, s: Slot, t: int) {
    && !InUse(InstalledSlots(e.installed), s)
    && s in e.retiredAt && e.retiredAt[s] >= t && e.clock < t + SLOT_GRACE
  }

  /** Nothing was written to the slot. */
  predicate Undisturbed(k0: Kernel, k: Kernel, s: Slot) {
    && (s in k0.bodies ==> s in k.bodies && Same(k.bodies[s], k0.bodies[s]))
    && k0.touched <= k.touched && forall i :: |k0.touched| <= i < |k.touched| ==> k.touched[i] != s
  }

  /** What is resting goes on resting. */
  ghost predicate Rests(e0: Engine, k0: Kernel, e: Engine, k: Kernel, t: int) {
    forall s :: Resting(e0, s, t) ==> Resting(e, s, t) && Undisturbed(k0, k, s)
  }

  lemma RestsOn(e0: Engine, k0: Kernel, e1: Engine, k1: Kernel, e: Engine, k: Kernel, t: int)
    requires Rests(e0, k0, e1, k1, t) && Rests(e1, k1, e, k, t)
    ensures Rests(e0, k0, e, k, t)
  {
    forall s | Resting(e0, s, t) ensures Resting(e, s, t) && Undisturbed(k0, k, s) {
      assert Resting(e1, s, t) && Undisturbed(k0, k1, s) && Undisturbed(k1, k, s);
    }
  }

  /** A resting slot is not free, nor will releasing what is past its grace free it. */
  lemma RestingNotGiven(e: Engine, retired: seq<RetiredSlot>, s: Slot, t: int, now: int)
    requires Resting(e, s, t) && now < t + SLOT_GRACE
    requires GraceOver(e.free, e.retiredAt, e.clock) && Dated(retired, e.retiredAt)
    ensures s !in e.free + Released(retired, now)
  {
    ReleasedFrom(retired, now);
    assert forall r :: r in retired && r.slot == s ==> now - r.at < SLOT_GRACE;
  }

  /** Releasing what is past its grace leaves resting slots alone. */
  lemma ReleaseRests(e: Engine, e': Engine, k: Kernel, t: int, now: int)
    requires now < t + SLOT_GRACE && e'.clock == Later(e.clock, now)
    requires Same(e'.installed, e.installed) && Same(e'.retiredAt, e.retiredAt)
    ensures Rests(e, k, e', k, t)
  {
  }

  /** So does install, whatever becomes of it. */
  lemma InstallRests(e: Engine, retired: seq<RetiredSlot>, e0: Engine, k0: Kernel, e1: Engine, k1: Kernel, want4: Trie,
                     next: map<Bytes, Rule>, now: int, need: nat, gone: seq<Slot>, calm0: bool, calm: bool, ok: bool,
                     t: int)
    requires now < t + SLOT_GRACE && GraceOver(e.free, e.retiredAt, e.clock) && Dated(retired, e.retiredAt)
    requires e0 == Engine(e.rules, e.installed, e.free + Released(retired, now), Later(e.clock, now),
                          e.retiredAt, e.torn)
    requires Installs(e0, k0, e0.free, e1, k1, want4, next, now, need, gone, calm0, calm, ok)
    ensures Rests(e, k0, e1, k1, t)
  {
    forall s | Resting(e, s, t) ensures Resting(e1, s, t) && Undisturbed(k0, k1, s) {
      RestingNotGiven(e, retired, s, t, now);
      RestingNotGone(e0, e0.free, e1, k1.trie4, next, now, gone, ok, s);
    }
  }

  lemma RestingNotGone(e0: Engine, given: seq<Slot>, e: Engine, trie4: Trie, next: map<Bytes, Rule>, now: int,
                       gone: seq<Slot>, ok: bool, s: Slot)
    requires Outcome(e0, given, e, trie4, next, now, gone, ok)
    requires s !in given && !InUse(InstalledSlots(e0.installed), s) && s in e0.retiredAt
    ensures !InUse(InstalledSlots(e.installed), s) && s in e.retiredAt && e.retiredAt[s] == e0.retiredAt[s]
  {
    if ok {
      var before, after := InstalledSlots(e0.installed), InstalledSlots(e.installed);
      assert CountIn(gone, s) == Count(InUse(before, s) && !InUse(after, s));
      CountMember(gone, s);
    }
    assert s !in gone;
  }

  /** A slot given up at `t` is at rest from then on. */
  ghost predicate GivenUpRest(e0: Engine, e: Engine, t: int) {
    forall s :: InUse(InstalledSlots(e0.installed), s) && !InUse(InstalledSlots(e.installed), s) ==> Resting(e, s, t)
  }

  // ---- Failures ----

  /** The IPv4 trie is left behind by no fewer than two failed calls. */
  predicate TornByTwo(torn0: bool, k0: Kernel, torn: bool, k: Kernel) {
    k.failures >= k0.failures && (torn ==> torn0 || k.failures >= k0.failures + 2)
  }

  lemma InstallTears(e0: Engine, k0: Kernel, given: seq<Slot>, e: Engine, k: Kernel, want4: Trie,
                     next: map<Bytes, Rule>, now: int, need: nat, gone: seq<Slot>, calm0: bool, calm: bool, ok: bool)
    requires Installs(e0, k0, given, e, k, want4, next, now, need, gone, calm0, calm, ok)
    ensures TornByTwo(e0.torn, k0, e.torn, k)
  {
  }

  /** Without a failure, and with time in order, body writes spare the slots of all
      tries that readers may still follow. */
  predicate StaysQuiet(calm0: bool, torn0: bool, k0: Kernel, calm: bool, k: Kernel) {
    calm0 && !torn0 && k.failures == k0.failures ==> calm && k.hazards == k0.hazards && k.clobbers == k0.clobbers
  }

  lemma InstallQuiet(e: Engine, retired: seq<RetiredSlot>, e0: Engine, k0: Kernel, e1: Engine, k1: Kernel, want4: Trie,
                     next: map<Bytes, Rule>, now: int, need: nat, gone: seq<Slot>, calm: bool, ok: bool)
    requires e0.free == e.free + Released(retired, now) && e0.clock == Later(e.clock, now)
    requires Installs(e0, k0, e0.free, e1, k1, want4, next, now, need, gone,
                      CalmBooks(e.free, retired, k0.leftAt, e.clock) && e.clock <= now, calm, ok)
    ensures StaysQuiet(CalmBooks(e.free, retired, k0.leftAt, e.clock) && e.clock <= now, e0.torn, k0, calm, k1)
  {
    if CalmBooks(e.free, retired, k0.leftAt, e.clock) {
      ReleaseCalm(e.free, retired, k0.leftAt, e.clock, now);
    }
  }

  // ---- One operation ----

  function Later(clock: int, now: int): int {
    if now > clock then now else clock
  }

  /** What an operation at `now` keeps: what is resting goes on resting, and so does
      what it gives up; tearing takes two failures; without a failure the state
      stays calm. */
  ghost predicate Moves(e0: Engine, k0: Kernel, calm0: bool, e: Engine, k: Kernel, calm: bool, now: int, t: int) {
    && (now < t + SLOT_GRACE ==> Rests(e0, k0, e, k, t))
    && (now == t && e0.clock < t + SLOT_GRACE ==> GivenUpRest(e0, e, t))
    && TornByTwo(e0.torn, k0, e.torn, k)
    && StaysQuiet(calm0 && e0.clock <= now, e0.torn, k0, calm, k)
    && e.clock <= Later(e0.clock, now)
  }

  lemma InstallMoves(e: Engine, retired: seq<RetiredSlot>, e0: Engine, k0: Kernel, e1: Engine, k1: Kernel, want4: Trie,
                     next: map<Bytes, Rule>, now: int, need: nat, gone: seq<Slot>, calm0: bool, calm: bool, ok: bool,
                     t: int)
    requires GraceOver(e.free, e.retiredAt, e.clock) && Dated(retired, e.retiredAt)
    requires Same(e0, Engine(e.rules, e.installed, e.free + Released(retired, now), Later(e.clock, now), e.retiredAt,
                             e.torn))
    requires calm0 == CalmBooks(e.free, retired, k0.leftAt, e.clock)
    requires Installs(e0, k0, e0.free, e1, k1, want4, next, now, need, gone, calm0 && e.clock <= now, calm, ok) == true
    ensures Moves(e, k0, calm0, e1, k1, calm, now, t)
  {
    if now < t + SLOT_GRACE {
      InstallRests(e, retired, e0, k0, e1, k1, want4, next, now, need, gone, calm0 && e.clock <= now, calm, ok, t);
    }
    InstallTears(e0, k0, e0.free, e1, k1, want4, next, now, need, gone, calm0 && e.clock <= now, calm, ok);
    InstallQuiet(e, retired, e0, k0, e1, k1, want4, next, now, need, gone, calm, ok);
  }

  lemma ReleaseMoves(e: Engine, retired: seq<RetiredSlot>, e': Engine, k: Kernel, calm0: bool, calm: bool, now: int,
                     t: int)
    requires Same(e', Engine(e.rules, e.installed, e.free + Released(retired, now), Later(e.clock, now), e.retiredAt,
                             e.torn))
    requires calm0 && e.clock <= now ==> calm
    ensures Moves(e, k, calm0, e', k, calm, now, t)
  {
    if now < t + SLOT_GRACE {
      ReleaseRests(e, e', k, t, now);
    }
  }

  lemma NothingMoves(e: Engine, k: Kernel, calm: bool, now: int, t: int)
    ensures Moves(e, k, calm, e, k, calm, now, t)
  {
  }

  method Step(engine: E.RuleEngine, op: Op, ghost t: int)
    requires engine.Valid()
    modifies engine, engine.maps
    ensures engine.Valid()
    ensures Moves(old(engine.State()), old(engine.maps.View()), old(engine.Calm()),
                  engine.State(), engine.maps.View(), engine.Calm(), op.now, t) == true
  {
    match op
    case Change(delta, now) => Update(engine, delta, now, t);
    case Tick(now) => Expiry(engine, now, t);
  }

  method Update(engine: E.RuleEngine, delta: Delta, now: int, ghost t: int)
    requires engine.Valid()
    modifies engine, engine.maps
    ensures engine.Valid()
    ensures Moves(old(engine.State()), old(engine.maps.View()), old(engine.Calm()),
                  engine.State(), engine.maps.View(), engine.Calm(), now, t) == true
  {
    ghost var e, e0, k0, retired, want0 :=
      engine.State(), engine.Rested(now), engine.maps.View(), engine.retired, engine.want4;
    ghost var next, need, calm0 := Target(engine.rules, delta, now), 0, engine.Calm();
    if next.Ok? {
      need := |Changed(next.value, engine.installed)|;
    }
    var res;
    ghost var gone;
    res, gone := engine.Apply(delta, now);
    if next.Ok? {
      InstallMoves(e, retired, e0, k0, engine.State(), engine.maps.View(), want0, next.value, now, need, gone,
                   calm0, engine.Calm(), res.Ok?, t);
    } else {
      NothingMoves(e, k0, calm0, now, t);
    }
  }

  method Expiry(engine: E.RuleEngine, now: int, ghost t: int)
    requires engine.Valid()
    modifies engine, engine.maps
    ensures engine.Valid()
    ensures Moves(old(engine.State()), old(engine.maps.View()), old(engine.Calm()),
                  engine.State(), engine.maps.View(), engine.Calm(), now, t) == true
  {
    ghost var e, e0, k0, retired, want0 :=
      engine.State(), engine.Rested(now), engine.maps.View(), engine.retired, engine.want4;
    ghost var next, calm0 := Unexpired(engine.rules, now), engine.Calm();
    var res;
    ghost var gone;
    res, gone := engine.Expire(now);
    if next == e.rules {
      ReleaseMoves(e, retired, engine.State(), k0, calm0, engine.Calm(), now, t);
    } else {
      InstallMoves(e, retired, e0, k0, engine.State(), engine.maps.View(), want0, next, now, 0, gone,
                   calm0, engine.Calm(), res.Ok?, t);
    }
  }

  // ---- Runs ----

  predicate AllBefore(ops: seq<Op>, end: int) {
    forall i :: 0 <= i < |ops| ==> ops[i].now < end
  }

  /** Time does not run backwards. */
  predicate InOrder(clock: int, ops: seq<Op>) {
    && (forall i :: 0 <= i < |ops| ==> clock <= ops[i].now)
    && (forall i, j :: 0 <= i < j < |ops| ==> ops[i].now <= ops[j].now)
  }

  /** What a run keeps. Until `t` + SLOT_GRACE nothing is written to a slot that rests
      since `t`, and it is neither free nor used; whatever happens, the live tries are
      those wanted unless two calls failed; and a run in order without a failure
      disturbs no reader. */
  ghost predicate Ran(e0: Engine, k0: Kernel, calm0: bool, e: Engine, k: Kernel, calm: bool, ops: seq<Op>, t: int) {
    && (AllBefore(ops, t + SLOT_GRACE) ==> Rests(e0, k0, e, k, t))
    && TornByTwo(e0.torn, k0, e.torn, k)
    && (InOrder(e0.clock, ops) ==>
          && StaysQuiet(calm0, e0.torn, k0, calm, k)
          && e.clock <= if ops == [] then e0.clock else ops[|ops| - 1].now)
  }

  lemma RanNone(e: Engine, k: Kernel, calm: bool, t: int)
    ensures Ran(e, k, calm, e, k, calm, [], t) == true
  {
  }

  lemma RanOn(e0: Engine, k0: Kernel, calm0: bool, e1: Engine, k1: Kernel, calm1: bool, e: Engine, k: Kernel,
              calm: bool, ops: seq<Op>, op: Op, t: int)
    requires Ran(e0, k0, calm0, e1, k1, calm1, ops, t) == true
    requires Moves(e1, k1, calm1, e, k, calm, op.now, t) == true
    ensures Ran(e0, k0, calm0, e, k, calm, ops + [op], t)
  {
    var more := ops + [op];
    assert more[|ops|] == op && forall i :: 0 <= i < |ops| ==> more[i] == ops[i];
    if AllBefore(more, t + SLOT_GRACE) {
      RestsOn(e0, k0, e1, k1, e, k, t);
    }
    if InOrder(e0.clock, more) {
      assert InOrder(e0.clock, ops) && e1.clock <= op.now;
    }
  }

  method ServeNext(engine: E.RuleEngine, op: Op, ghost e0: Engine, ghost k0: Kernel, ghost calm0: bool,
                   ghost ops: seq<Op>, ghost t: int)
    requires engine.Valid()
    requires Ran(e0, k0, calm0, engine.State(), engine.maps.View(), engine.Calm(), ops, t) == true
    modifies engine, engine.maps
    ensures engine.Valid()
    ensures Ran(e0, k0, calm0, engine.State(), engine.maps.View(), engine.Calm(), ops + [op], t) == true
  {
    ghost var e1, k1, calm1 := engine.State(), engine.maps.View(), engine.Calm();
    Step(engine, op, t);
    RanOn(e0, k0, calm0, e1, k1, calm1, engine.State(), engine.maps.View(), engine.Calm(), ops, op, t);
  }

  method Serve(engine: E.RuleEngine, ops: seq<Op>, ghost t: int)
    requires engine.Valid()
    modifies engine, engine.maps
    ensures engine.Valid()
    ensures Ran(old(engine.State()), old(engine.maps.View()), old(engine.Calm()),
                engine.State(), engine.maps.View(), engine.Calm(), ops, t) == true
  {
    ghost var e0, k0, calm0 := engine.State(), engine.maps.View(), engine.Calm();
    RanNone(e0, k0, calm0, t);
    assert ops[..0] == [];
    for i := 0 to |ops|
      invariant engine.Valid()
      invariant Ran(e0, k0, calm0, engine.State(), engine.maps.View(), engine.Calm(), ops[..i], t) == true
    {
      assert ops[..i + 1] == ops[..i] + [ops[i]];
      ServeNext(engine, ops[i], e0, k0, calm0, ops[..i], t);
    }
    assert ops[..|ops|] == ops;
  }

  /** What was given up by an operation at `t` keeps its body until its grace is over,
      through whatever comes in between. */
  method GraceHolds(engine: E.RuleEngine, op: Op, ops: seq<Op>) returns (ghost e1: Engine, ghost k1: Kernel)
    requires engine.Valid() && engine.clock < op.now + SLOT_GRACE && AllBefore(ops, op.now + SLOT_GRACE)
    modifies engine, engine.maps
    ensures engine.Valid() && GivenUpRest(old(engine.State()), e1, op.now)
    ensures forall s :: Resting(e1, s, op.now) ==>
              s !in engine.free && !InUse(InstalledSlots(engine.installed), s) && Undisturbed(k1, engine.maps.View(), s)
  {
    Step(engine, op, op.now);
    e1, k1 := engine.State(), engine.maps.View();
    Serve(engine, ops, op.now);
    forall s | Resting(e1, s, op.now) ensures s !in engine.free {
      RestingNotGiven(engine.State(), [], s, op.now, engine.clock);
    }
  }

  /** With one failed call at most, the kernel decides about every packet as the active
      rules say. */
  method OneFailure(engine: E.RuleEngine, ops: seq<Op>)
    requires engine.Valid() && !engine.torn
    modifies engine, engine.maps
    ensures engine.Valid()
    ensures engine.maps.failures <= old(engine.maps.failures) + 1 ==> forall p :: engine.Obeys(p)
  {
    Serve(engine, ops, 0);
    if !engine.torn {
      forall p ensures engine.Obeys(p) { engine.LiveVerdict(p); }
    }
  }
}

/** The arithmetic of rule slots (pkg/collector/rules.go): every slot of the kernel
    table is exactly one of free, retired and installed, through release,
    allocation, rollback and commit; and the dates of retirement, which say when
    a slot may be handed out again. What each step does to the three lists is
    counted slot by slot. */
module SlotLedger {
  import opened Basics
  import opened Collections
  import opened RuleLayout
  import opened RuleTries

  /** slotGrace, in nanoseconds. */
  const SLOT_GRACE: int := 1_000_000_000

  datatype RetiredSlot = RetiredSlot(slot: Slot, at: int)

  function CountIn(s: seq<Slot>, x: Slot): nat {
    if s == [] then 0 else CountIn(s[..|s| - 1], x) + Count(s[|s| - 1] == x)
  }

  function CountRetired(r: seq<RetiredSlot>, x: Slot): nat {
    if r == [] then 0 else CountRetired(r[..|r| - 1], x) + Count(r[|r| - 1].slot == x)
  }

  lemma CountSnoc(s: seq<Slot>, y: Slot, x: Slot)
    ensures CountIn(s + [y], x) == CountIn(s, x) + Count(y == x)
  {
    assert (s + [y])[..|s|] == s;
  }

  lemma {:induction false} CountConcat(a: seq<Slot>, b: seq<Slot>, x: Slot)
    ensures CountIn(a + b, x) == CountIn(a, x) + CountIn(b, x)
  {
    if b == [] {
      assert a + b == a;
    } else {
      assert (a + b)[..|a + b| - 1] == a + b[..|b| - 1];
      CountConcat(a, b[..|b| - 1], x);
    }
  }

  lemma {:induction false} CountMember(s: seq<Slot>, x: Slot)
    ensures x in s <==> CountIn(s, x) > 0
  {
    if s != [] {
      CountMember(s[..|s| - 1], x);
      assert s == s[..|s| - 1] + [s[|s| - 1]];
    }
  }

  lemma RetiredSnoc(r: seq<RetiredSlot>, y: RetiredSlot, x: Slot)
    ensures CountRetired(r + [y], x) == CountRetired(r, x) + Count(y.slot == x)
  {
    assert (r + [y])[..|r|] == r;
  }

  ghost predicate InUse(slots: map<Bytes, Slot>, s: Slot) {
    exists id :: id in slots && slots[id] == s
  }

  ghost predicate Injective(slots: map<Bytes, Slot>) {
    forall a, b :: a in slots && b in slots && slots[a] == slots[b] ==> a == b
  }

  ghost function Holders(free: seq<Slot>, retired: seq<RetiredSlot>, slots: map<Bytes, Slot>, s: Slot): nat {
    CountIn(free, s) + CountRetired(retired, s) + Count(InUse(slots, s))
  }

  /** Every slot of the table is exactly one of free, retired and installed. */
  ghost predicate Conserved(free: seq<Slot>, retired: seq<RetiredSlot>, slots: map<Bytes, Slot>) {
    Injective(slots) && forall s: Slot :: Holders(free, retired, slots, s) == Count(s < RULE_SLOTS)
  }

  /** A slot on the free list was never retired, or its grace is over. */
  ghost predicate GraceOver(free: seq<Slot>, retiredAt: map<Slot, int>, clock: int) {
    forall s :: s in free && s in retiredAt ==> clock - retiredAt[s] >= SLOT_GRACE
  }

  ghost predicate Dated(retired: seq<RetiredSlot>, retiredAt: map<Slot, int>) {
    forall r :: r in retired ==> r.slot in retiredAt && retiredAt[r.slot] == r.at
  }

  // ---- releaseRetired ----

  function Kept(retired: seq<RetiredSlot>, now: int): seq<RetiredSlot> {
    if retired == [] then []
    else
      var n := |retired| - 1;
      Kept(retired[..n], now) + if now - retired[n].at >= SLOT_GRACE then [] else [retired[n]]
  }

  function Released(retired: seq<RetiredSlot>, now: int): seq<Slot> {
    if retired == [] then []
    else
      var n := |retired| - 1;
      Released(retired[..n], now) + if now - retired[n].at >= SLOT_GRACE then [retired[n].slot] else []
  }

  lemma {:induction false} ReleaseCounts(retired: seq<RetiredSlot>, now: int, x: Slot)
    ensures CountIn(Released(retired, now), x) + CountRetired(Kept(retired, now), x) == CountRetired(retired, x)
  {
    if retired != [] {
      var n := |retired| - 1;
      ReleaseCounts(retired[..n], now, x);
      if now - retired[n].at >= SLOT_GRACE {
        CountSnoc(Released(retired[..n], now), retired[n].slot, x);
        assert Kept(retired, now) == Kept(retired[..n], now);
      } else {
        RetiredSnoc(Kept(retired[..n], now), retired[n], x);
        assert Released(retired, now) == Released(retired[..n], now);
      }
    }
  }

  lemma ReleaseConserves(free: seq<Slot>, retired: seq<RetiredSlot>, slots: map<Bytes, Slot>, now: int)
    requires Conserved(free, retired, slots)
    ensures Conserved(free + Released(retired, now), Kept(retired, now), slots)
  {
    forall s: Slot
      ensures Holders(free + Released(retired, now), Kept(retired, now), slots, s) == Count(s < RULE_SLOTS)
    {
      assert Holders(free, retired, slots, s) == Count(s < RULE_SLOTS);
      ReleaseCounts(retired, now, s);
      CountConcat(free, Released(retired, now), s);
    }
  }

  /** Only slots whose grace is over are released, and all of those are. */
  lemma {:induction false} ReleaseRespectsGrace(retired: seq<RetiredSlot>, now: int, retiredAt: map<Slot, int>)
    requires Dated(retired, retiredAt)
    ensures Dated(Kept(retired, now), retiredAt)
    ensures forall s :: s in Released(retired, now) ==> s in retiredAt && now - retiredAt[s] >= SLOT_GRACE
    ensures forall r :: r in Kept(retired, now) ==> now - r.at < SLOT_GRACE
  {
    if retired != [] {
      var n := |retired| - 1;
      assert retired[n] in retired;
      forall r | r in retired[..n] ensures r in retired {}
      ReleaseRespectsGrace(retired[..n], now, retiredAt);
    }
  }

  // ---- The slot loop of install ----

  /** The slots chosen so far: an id keeps the slot it had or sits in one nobody
      held, and the latter are exactly the ones taken. */
  ghost predicate Assigned(slots: map<Bytes, Slot>, was: map<Bytes, Slot>, taken: seq<Slot>) {
    && Injective(slots)
    && (forall id :: id in slots ==> (id in was && slots[id] == was[id]) || !InUse(was, slots[id]))
    && (forall s: Slot :: CountIn(taken, s) == Count(InUse(slots, s) && !InUse(was, s)))
  }

  lemma InUseAdd(slots: map<Bytes, Slot>, id: Bytes, slot: Slot, s: Slot)
    requires id !in slots
    ensures InUse(slots[id := slot], s) <==> InUse(slots, s) || s == slot
  {
    var slots' := slots[id := slot];
    if InUse(slots, s) {
      var a :| a in slots && slots[a] == s;
      assert slots'[a] == s;
    }
    assert slots'[id] == slot;
  }

  lemma InjectiveAdd(slots: map<Bytes, Slot>, id: Bytes, slot: Slot)
    requires Injective(slots) && id !in slots && !InUse(slots, slot)
    ensures Injective(slots[id := slot])
  {
  }

  /** An unchanged rule keeps its slot. */
  lemma KeepSlot(slots: map<Bytes, Slot>, was: map<Bytes, Slot>, taken: seq<Slot>, id: Bytes)
    requires Assigned(slots, was, taken) && Injective(was) && id !in slots && id in was
    ensures Assigned(slots[id := was[id]], was, taken)
  {
    var slot := was[id];
    assert InUse(was, slot);
    InjectiveAdd(slots, id, slot);
    forall s: Slot ensures CountIn(taken, s) == Count(InUse(slots[id := slot], s) && !InUse(was, s)) {
      InUseAdd(slots, id, slot, s);
    }
  }

  /** A slot off the free list is held by nobody. */
  lemma FreeIsUnused(free: seq<Slot>, given: seq<Slot>, retired: seq<RetiredSlot>, slots: map<Bytes, Slot>,
                     was: map<Bytes, Slot>, taken: seq<Slot>, slot: Slot)
    requires Conserved(given, retired, was) && Assigned(slots, was, taken) && slot in free
    requires CountIn(free, slot) + CountIn(taken, slot) == CountIn(given, slot)
    ensures !InUse(was, slot) && !InUse(slots, slot) && slot in given
  {
    assert Holders(given, retired, was, slot) == Count(slot < RULE_SLOTS);
    CountMember(free, slot);
    CountMember(given, slot);
    assert CountIn(taken, slot) == Count(InUse(slots, slot) && !InUse(was, slot));
  }

  /** A new or changed rule takes a slot nobody holds. */
  lemma TakeSlot(slots: map<Bytes, Slot>, was: map<Bytes, Slot>, taken: seq<Slot>, id: Bytes, slot: Slot)
    requires Assigned(slots, was, taken) && id !in slots
    requires !InUse(was, slot) && !InUse(slots, slot)
    ensures Assigned(slots[id := slot], was, taken + [slot])
  {
    InjectiveAdd(slots, id, slot);
    forall s: Slot ensures CountIn(taken + [slot], s) == Count(InUse(slots[id := slot], s) && !InUse(was, s)) {
      InUseAdd(slots, id, slot, s);
      CountSnoc(taken, slot, s);
      assert CountIn(taken, s) == Count(InUse(slots, s) && !InUse(was, s));
    }
  }

  /** `free` and `taken` together are what was given. */
  ghost predicate Shared(free: seq<Slot>, taken: seq<Slot>, given: seq<Slot>) {
    forall s: Slot :: CountIn(free, s) + CountIn(taken, s) == CountIn(given, s)
  }

  lemma SharedPop(free: seq<Slot>, taken: seq<Slot>, given: seq<Slot>)
    requires Shared(free, taken, given) && free != []
    ensures Shared(free[..|free| - 1], taken + [free[|free| - 1]], given)
  {
    var n := |free| - 1;
    forall s: Slot ensures CountIn(free[..n], s) + CountIn(taken + [free[n]], s) == CountIn(given, s) {
      assert CountIn(free, s) + CountIn(taken, s) == CountIn(given, s);
      CountSnoc(taken, free[n], s);
    }
  }

  /** The last free slot may be given to a new or changed rule. */
  lemma FreshSlot(free: seq<Slot>, given: seq<Slot>, retired: seq<RetiredSlot>, slots: map<Bytes, Slot>,
                  was: map<Bytes, Slot>, taken: seq<Slot>, id: Bytes)
    requires Conserved(given, retired, was) && Assigned(slots, was, taken) && Shared(free, taken, given)
    requires free != [] && id !in slots
    ensures var slot := free[|free| - 1];
            && !InUse(was, slot) && !InUse(slots, slot) && slot in given
            && Shared(free[..|free| - 1], taken + [slot], given)
            && Assigned(slots[id := slot], was, taken + [slot])
  {
    var slot := free[|free| - 1];
    assert CountIn(free, slot) + CountIn(taken, slot) == CountIn(given, slot);
    FreeIsUnused(free, given, retired, slots, was, taken, slot);
    TakeSlot(slots, was, taken, id, slot);
    SharedPop(free, taken, given);
  }

  lemma SharedWithin(free: seq<Slot>, taken: seq<Slot>, given: seq<Slot>)
    requires Shared(free, taken, given)
    ensures forall s :: s in free ==> s in given
  {
    forall s | s in free ensures s in given {
      assert CountIn(free, s) + CountIn(taken, s) == CountIn(given, s);
      CountMember(free, s);
      CountMember(given, s);
    }
  }

  /** Rolling back returns every slot taken. */
  lemma RollbackConserves(free: seq<Slot>, taken: seq<Slot>, given: seq<Slot>, retired: seq<RetiredSlot>,
                          was: map<Bytes, Slot>)
    requires Shared(free, taken, given) && Conserved(given, retired, was)
    ensures Conserved(free + taken, retired, was)
    ensures forall s :: s in free + taken <==> s in given
  {
    forall s: Slot
      ensures Holders(free + taken, retired, was, s) == Count(s < RULE_SLOTS) && (s in free + taken <==> s in given)
    {
      assert Holders(given, retired, was, s) == Count(s < RULE_SLOTS);
      assert CountIn(free, s) + CountIn(taken, s) == CountIn(given, s);
      CountConcat(free, taken, s);
      CountMember(free + taken, s);
      CountMember(given, s);
    }
  }

  /** When even the restore fails, the slots taken are retired instead. */
  lemma RetireConserves(free: seq<Slot>, taken: seq<Slot>, given: seq<Slot>, retired: seq<RetiredSlot>,
                        was: map<Bytes, Slot>, now: int)
    requires Shared(free, taken, given) && Conserved(given, retired, was)
    ensures Conserved(free, retired + RetireAll(taken, now), was)
    ensures forall s :: s in free ==> s in given
  {
    forall s: Slot
      ensures Holders(free, retired + RetireAll(taken, now), was, s) == Count(s < RULE_SLOTS)
      ensures s in free ==> s in given
    {
      assert Holders(given, retired, was, s) == Count(s < RULE_SLOTS);
      assert CountIn(free, s) + CountIn(taken, s) == CountIn(given, s);
      RetireAllCounts(retired, taken, now, s);
      CountMember(free, s);
      CountMember(given, s);
    }
  }

  function RetireAll(slots: seq<Slot>, now: int): (r: seq<RetiredSlot>)
    ensures |r| == |slots| && forall i :: 0 <= i < |r| ==> r[i] == RetiredSlot(slots[i], now)
  {
    seq(|slots|, i requires 0 <= i < |slots| => RetiredSlot(slots[i], now))
  }

  lemma {:induction false} RetireAllCounts(retired: seq<RetiredSlot>, slots: seq<Slot>, now: int, x: Slot)
    ensures CountRetired(retired + RetireAll(slots, now), x) == CountRetired(retired, x) + CountIn(slots, x)
  {
    var all := RetireAll(slots, now);
    if slots == [] {
      assert retired + all == retired;
    } else {
      var n := |slots| - 1;
      RetireAllCounts(retired, slots[..n], now, x);
      assert all == RetireAll(slots[..n], now) + [all[n]];
      assert retired + all == (retired + RetireAll(slots[..n], now)) + [all[n]];
      RetiredSnoc(retired + RetireAll(slots[..n], now), all[n], x);
    }
  }

  // ---- commit ----

  /** The slots the installed rules give up, in some order, each once. */
  ghost predicate Dropped(dropped: seq<Slot>, was: map<Bytes, Slot>, slots: map<Bytes, Slot>) {
    forall s: Slot :: CountIn(dropped, s) == Count(InUse(was, s) && !InUse(slots, s))
  }

  lemma DroppedMembers(dropped: seq<Slot>, was: map<Bytes, Slot>, slots: map<Bytes, Slot>)
    requires Dropped(dropped, was, slots)
    ensures forall s :: InUse(was, s) && !InUse(slots, s) ==> s in dropped
  {
    forall s | InUse(was, s) && !InUse(slots, s) ensures s in dropped {
      assert CountIn(dropped, s) == 1;
      CountMember(dropped, s);
    }
  }

  /** The test of commit: a rule's old slot is dropped exactly when nobody uses
      it any more, that is when the rule itself is gone or has moved. */
  lemma DropTest(slots: map<Bytes, Slot>, was: map<Bytes, Slot>, taken: seq<Slot>, id: Bytes)
    requires Assigned(slots, was, taken) && Injective(was) && id in was
    ensures InUse(slots, was[id]) <==> id in slots && slots[id] == was[id]
  {
    assert InUse(was, was[id]);
    if InUse(slots, was[id]) {
      var a :| a in slots && slots[a] == was[id];
      assert InUse(was, slots[a]);
    }
  }

  lemma DropOne(dropped: seq<Slot>, done: map<Bytes, Slot>, slots: map<Bytes, Slot>, id: Bytes, slot: Slot)
    requires Dropped(dropped, done, slots) && id !in done && !InUse(done, slot)
    ensures Dropped(if InUse(slots, slot) then dropped else dropped + [slot], done[id := slot], slots)
  {
    var dropped' := if InUse(slots, slot) then dropped else dropped + [slot];
    forall s: Slot ensures CountIn(dropped', s) == Count(InUse(done[id := slot], s) && !InUse(slots, s)) {
      InUseAdd(done, id, slot, s);
      CountSnoc(dropped, slot, s);
      assert CountIn(dropped, s) == Count(InUse(done, s) && !InUse(slots, s));
    }
  }

  /** Committing conserves slots: what was taken is installed, what is no longer
      used is retired. */
  lemma CommitConserves(free: seq<Slot>, taken: seq<Slot>, given: seq<Slot>, retired: seq<RetiredSlot>,
                        was: map<Bytes, Slot>, slots: map<Bytes, Slot>, dropped: seq<Slot>, now: int)
    requires Shared(free, taken, given) && Conserved(given, retired, was)
    requires Assigned(slots, was, taken) && Dropped(dropped, was, slots)
    ensures Conserved(free, retired + RetireAll(dropped, now), slots)
  {
    forall s: Slot ensures Holders(free, retired + RetireAll(dropped, now), slots, s) == Count(s < RULE_SLOTS) {
      assert Holders(given, retired, was, s) == Count(s < RULE_SLOTS);
      assert CountIn(free, s) + CountIn(taken, s) == CountIn(given, s);
      assert CountIn(taken, s) == Count(InUse(slots, s) && !InUse(was, s));
      assert CountIn(dropped, s) == Count(InUse(was, s) && !InUse(slots, s));
      RetireAllCounts(retired, dropped, now, s);
    }
  }

  /** Retiring at `now` dates the slots and leaves the free list alone, since a
      slot is never free and retired at once. */
  ghost function DateAll(retiredAt: map<Slot, int>, slots: seq<Slot>, now: int): map<Slot, int> {
    retiredAt + map s | s in slots :: now
  }

  lemma RetireDates(free: seq<Slot>, retired: seq<RetiredSlot>, slots: seq<Slot>, used: map<Bytes, Slot>,
                    retiredAt: map<Slot, int>, clock: int, now: int)
    requires Dated(retired, retiredAt) && GraceOver(free, retiredAt, clock)
    requires Conserved(free, retired + RetireAll(slots, now), used)
    ensures Dated(retired + RetireAll(slots, now), DateAll(retiredAt, slots, now))
    ensures GraceOver(free, DateAll(retiredAt, slots, now), clock)
  {
    forall s | s in slots ensures s !in free && (forall r :: r in retired ==> r.slot != s) {
      assert Holders(free, retired + RetireAll(slots, now), used, s) == Count(s < RULE_SLOTS);
      RetireAllCounts(retired, slots, now, s);
      CountMember(slots, s);
      CountMember(free, s);
      RetiredMember(retired, s);
    }
    forall r | r in retired + RetireAll(slots, now)
      ensures r.slot in DateAll(retiredAt, slots, now) && DateAll(retiredAt, slots, now)[r.slot] == r.at
    {
      if r !in retired {
        var i :| 0 <= i < |slots| && RetireAll(slots, now)[i] == r;
        assert slots[i] in slots;
      }
    }
  }

  lemma {:induction false} RetiredMember(retired: seq<RetiredSlot>, x: Slot)
    ensures (exists r :: r in retired && r.slot == x) <==> CountRetired(retired, x) > 0
  {
    if retired != [] {
      var n := |retired| - 1;
      RetiredMember(retired[..n], x);
      assert retired == retired[..n] + [retired[n]];
      assert retired[n] in retired;
    }
  }

  // ---- Room ----

  /** The first `n` slots. */
  function SlotsBelow(n: nat): (r: set<Slot>)
    ensures |r| == n && forall s: Slot :: s in r <==> s < n
  {
    if n == 0 then {} else SlotsBelow(n - 1) + {n - 1}
  }

  lemma MinusValue(slots: map<Bytes, Slot>, id: Bytes)
    requires Injective(slots) && id in slots
    ensures |slots.Values| == |(slots - {id}).Values| + 1
  {
    var less, slot := slots - {id}, slots[id];
    MinusValues(slots, id);
    forall other | other in less ensures less[other] != slot {
      assert slots[other] == less[other];
    }
    assert slot !in less.Values;
  }

  lemma {:induction false} InjectiveCardinality(slots: map<Bytes, Slot>)
    requires Injective(slots)
    ensures |slots.Values| == |slots|
    decreases |slots|
  {
    if slots.Keys != {} {
      var id :| id in slots.Keys;
      var less := slots - {id};
      MinusOne(slots, id);
      InjectiveCardinality(less);
      MinusValue(slots, id);
    }
  }

  ghost predicate NoneTwice(s: seq<Slot>) {
    forall x: Slot :: CountIn(s, x) <= 1
  }

  function SetOf(s: seq<Slot>): set<Slot> {
    set x | x in s
  }

  lemma {:induction false} CountedOnce(s: seq<Slot>)
    requires NoneTwice(s)
    ensures |SetOf(s)| == |s|
  {
    if s != [] {
      var front, last := s[..|s| - 1], s[|s| - 1];
      forall x: Slot ensures CountIn(front, x) <= 1 && (x == last ==> x !in front) {
        assert CountIn(s, x) <= 1;
        CountMember(front, x);
      }
      CountedOnce(front);
      assert s == front + [last];
      assert SetOf(s) == SetOf(front) + {last};
      assert last !in SetOf(front);
    }
  }

  function SlotsOf(retired: seq<RetiredSlot>): seq<Slot> {
    seq(|retired|, i requires 0 <= i < |retired| => retired[i].slot)
  }

  lemma {:induction false} CountSlotsOf(retired: seq<RetiredSlot>, x: Slot)
    ensures CountIn(SlotsOf(retired), x) == CountRetired(retired, x)
  {
    if retired != [] {
      var n := |retired| - 1;
      CountSlotsOf(retired[..n], x);
      assert SlotsOf(retired)[..n] == SlotsOf(retired[..n]);
    }
  }

  lemma HoldersOnce(free: seq<Slot>, retired: seq<RetiredSlot>, slots: map<Bytes, Slot>, s: Slot)
    requires Conserved(free, retired, slots)
    ensures CountIn(free, s) + CountIn(SlotsOf(retired), s) + Count(s in slots.Values) == Count(s < RULE_SLOTS)
  {
    assert Holders(free, retired, slots, s) == Count(s < RULE_SLOTS);
    CountSlotsOf(retired, s);
    assert s in slots.Values <==> InUse(slots, s);
  }

  lemma SlotParts(free: seq<Slot>, retired: seq<RetiredSlot>, slots: map<Bytes, Slot>, s: Slot)
    requires Conserved(free, retired, slots)
    ensures CountIn(free, s) <= 1 && CountIn(SlotsOf(retired), s) <= 1
    ensures Count(s in SetOf(free)) + Count(s in SetOf(SlotsOf(retired))) + Count(s in slots.Values)
          == Count(s < RULE_SLOTS)
  {
    HoldersOnce(free, retired, slots, s);
    CountMember(free, s);
    CountMember(SlotsOf(retired), s);
  }

  /** Free, retired and installed slots add up to the size of the table. */
  lemma SlotTotal(free: seq<Slot>, retired: seq<RetiredSlot>, slots: map<Bytes, Slot>)
    requires Conserved(free, retired, slots)
    ensures |free| + |retired| + |slots| == RULE_SLOTS
  {
    var gone, all := SlotsOf(retired), SlotsBelow(RULE_SLOTS);
    assert NoneTwice(free) && NoneTwice(gone) by {
      forall s: Slot ensures CountIn(free, s) <= 1 && CountIn(gone, s) <= 1 { SlotParts(free, retired, slots, s); }
    }
    CountedOnce(free);
    CountedOnce(gone);
    InjectiveCardinality(slots);
    forall s: Slot
      ensures Count(s in SetOf(free)) + Count(s in SetOf(gone)) + Count(s in slots.Values) == Count(s in all)
    {
      SlotParts(free, retired, slots, s);
    }
    ThreeParts(SetOf(free), SetOf(gone), slots.Values, all);
  }

  lemma ThreeParts(f: set<Slot>, g: set<Slot>, v: set<Slot>, all: set<Slot>)
    requires forall s: Slot :: Count(s in f) + Count(s in g) + Count(s in v) == Count(s in all)
    ensures |f| + |g| + |v| == |all|
  {
    forall s: Slot ensures (s in f + g + v <==> s in all) && !(s in f && s in g) && !(s in f + g && s in v) {
      assert Count(s in f) + Count(s in g) + Count(s in v) == Count(s in all);
    }
    assert f + g + v == all;
    assert f * g == {} && (f + g) * v == {};
  }
}

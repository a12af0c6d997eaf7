/** The books of a collector's rule engine as values (pkg/collector/rules.go):
    which rules are installed where, what a new rule set needs, and what holds
    through the slot loop, the swaps and the commit. The methods of RuleEngine
    change fields one at a time; the lemmas here say what that means for the
    books as a whole. */
module RuleBooks {
  import opened Basics
  import opened Collections
  import opened Prefixes
  import opened RuleBody
  import opened RuleLayout
  import opened RuleTries
  import opened SlotLedger
  import opened RuleReaders
  import opened RuleDelta

  datatype InstalledRule = InstalledRule(slot: Slot, body: ScrubRule)

  function InstalledSlots(installed: map<Bytes, InstalledRule>): map<Bytes, Slot> {
    map id | id in installed :: installed[id].slot
  }

  /** The rules of `next` that are installed already with the same body. */
  function SameBodies(next: map<Bytes, Rule>, installed: map<Bytes, InstalledRule>): set<Bytes> {
    set id | id in next && id in installed && Same(installed[id].body, next[id].body)
  }

  /** The others: they need a slot. */
  function Changed(next: map<Bytes, Rule>, installed: map<Bytes, InstalledRule>): set<Bytes> {
    next.Keys - SameBodies(next, installed)
  }

  lemma ChangedStep(changed: set<Bytes>, todo: set<Bytes>, id: Bytes)
    requires id in todo
    ensures |changed - (todo - {id})| == |changed - todo| + Count(id in changed)
    ensures id in changed ==> |changed| > |changed - todo|
  {
    if id in changed {
      assert changed - (todo - {id}) == (changed - todo) + {id};
      SubsetCardinality((changed - todo) + {id}, changed);
    } else {
      assert changed - (todo - {id}) == changed - todo;
    }
  }

  /** There is a slot for every new or changed rule, the ones whose grace is over
      included. */
  predicate HasRoom(next: map<Bytes, Rule>, installed: map<Bytes, InstalledRule>, free: seq<Slot>,
                    retired: seq<RetiredSlot>, now: int)
  {
    |Changed(next, installed)| <= |free| + |Released(retired, now)|
  }

  /** What a change of rules does to slots: an unchanged rule keeps its slot, and
      with it its rate-limit window; every slot given up is retired from now on. */
  ghost predicate TurnOver(was: map<Bytes, InstalledRule>, installed: map<Bytes, InstalledRule>,
                           retiredAt: map<Slot, int>, now: int)
  {
    && (forall id :: id in was && id in installed && Same(was[id].body, installed[id].body) ==>
          installed[id].slot == was[id].slot)
    && (forall s :: InUse(InstalledSlots(was), s) && !InUse(InstalledSlots(installed), s) ==>
          s in retiredAt && retiredAt[s] == now)
  }

  /** Every slot a live trie refers to is installed or has been retired. */
  ghost predicate Traced(live: Trie, installed: map<Bytes, InstalledRule>, retiredAt: map<Slot, int>) {
    forall s :: RefersTo(live, s) ==> InUse(InstalledSlots(installed), s) || s in retiredAt
  }

  /** Every slot a live trie refers to is installed, or retired from now on, so
      that none is handed out again before its grace is over. */
  ghost predicate TracedNow(live: Trie, installed: map<Bytes, InstalledRule>, retiredAt: map<Slot, int>, now: int) {
    forall s :: RefersTo(live, s) ==> InUse(InstalledSlots(installed), s) || (s in retiredAt && retiredAt[s] == now)
  }

  /** The tries wanted refer to installed slots only. */
  lemma WantTraced(rules: map<Bytes, Rule>, installed: map<Bytes, InstalledRule>, v4: bool, s: Slot)
    requires Keyed(rules) && installed.Keys == rules.Keys
    requires RefersTo(TrieOf(Family(rules.Values, v4), InstalledSlots(installed)), s)
    ensures InUse(InstalledSlots(installed), s)
  {
    forall r | r in Family(rules.Values, v4) ensures r.id in installed {
      var id :| id in rules && rules[id] == r;
    }
    TrieRefers(Family(rules.Values, v4), InstalledSlots(installed), s);
  }

  /** What the kernel is to hold: the installed rules, the tries wanted, whether
      the IPv4 trie was left behind (torn), and when slots were last retired. */
  datatype Standing = Standing(
    installed: map<Bytes, InstalledRule>, want4: Trie, want6: Trie, torn: bool, retiredAt: map<Slot, int>)

  /** The kernel holds the bodies of the installed rules and the tries wanted; an
      IPv4 trie left behind refers to nothing but installed and retired slots. */
  ghost predicate InKernel(st: Standing, bodies: map<Slot, ScrubRule>, cleared: set<Slot>, trie4: Trie, trie6: Trie) {
    && BodiesPresent(bodies, cleared, st.installed)
    && trie6 == st.want6
    && (st.torn <==> trie4 != st.want4) && (st.torn ==> Traced(trie4, st.installed, st.retiredAt))
  }

  /** The slots are conserved, free ones are past their grace, retired ones dated. */
  ghost predicate SlotBooks(free: seq<Slot>, retired: seq<RetiredSlot>, installed: map<Bytes, InstalledRule>,
                            retiredAt: map<Slot, int>, clock: int)
  {
    && Conserved(free, retired, InstalledSlots(installed))
    && GraceOver(free, retiredAt, clock) && Dated(retired, retiredAt)
  }

  /** `given` were the free slots when the slot loop began: no rule holds them and
      the tries wanted do not refer to them. */
  ghost predicate Lendable(given: seq<Slot>, retired: seq<RetiredSlot>, st: Standing) {
    Conserved(given, retired, InstalledSlots(st.installed)) && NotReferred(given, st.want4, st.want6)
  }

  /** Of `given`, `free` are left and `taken` are gone. */
  ghost predicate Borrowed(free: seq<Slot>, taken: seq<Slot>, given: seq<Slot>) {
    Shared(free, taken, given) && |free| + |taken| == |given|
  }

  /** A trie of freshly placed rules refers to installed and to taken slots. */
  lemma FreshTrieRefers(next: map<Bytes, Rule>, slots: map<Bytes, Slot>, taken: seq<Slot>,
                        installed: map<Bytes, InstalledRule>, s: Slot)
    requires Keyed(next) && slots.Keys == next.Keys
    requires Assigned(slots, InstalledSlots(installed), taken)
    requires RefersTo(TrieOf(Family(next.Values, true), slots), s)
    ensures InUse(InstalledSlots(installed), s) || s in taken
  {
    forall r | r in Family(next.Values, true) ensures r.id in slots {
      var id :| id in next && next[id] == r;
    }
    TrieRefers(Family(next.Values, true), slots, s);
    assert InUse(slots, s);
    assert CountIn(taken, s) == Count(InUse(slots, s) && !InUse(InstalledSlots(installed), s));
    CountMember(taken, s);
  }

  /** An unchanged rule keeps its slot, and no other does. */
  ghost predicate KeepsSlots(installed: map<Bytes, InstalledRule>, next: map<Bytes, Rule>, slots: map<Bytes, Slot>) {
    forall id :: id in slots && id in installed ==>
      (id in SameBodies(next, installed) <==> slots[id] == installed[id].slot)
  }

  /** The slots chosen so far: their bodies are in place, no slot is used twice, and
      unchanged rules keep theirs. */
  ghost predicate Progress(bodies: map<Slot, ScrubRule>, cleared: set<Slot>, installed: map<Bytes, InstalledRule>,
                           next: map<Bytes, Rule>, slots: map<Bytes, Slot>, taken: seq<Slot>)
  {
    && Placed(bodies, cleared, slots, next)
    && Assigned(slots, InstalledSlots(installed), taken) && KeepsSlots(installed, next, slots)
  }

  lemma ProgressKeep(bodies: map<Slot, ScrubRule>, cleared: set<Slot>, installed: map<Bytes, InstalledRule>,
                     next: map<Bytes, Rule>, slots: map<Bytes, Slot>, taken: seq<Slot>, id: Bytes)
    requires BodiesPresent(bodies, cleared, installed) && Injective(InstalledSlots(installed))
    requires Progress(bodies, cleared, installed, next, slots, taken) && id !in slots
    requires id in SameBodies(next, installed)
    ensures Progress(bodies, cleared, installed, next, slots[id := installed[id].slot], taken)
  {
    PlaceKept(bodies, cleared, installed, slots, next, id);
    KeepSlot(slots, InstalledSlots(installed), taken, id);
  }

  /** The last free slot, once the body is in it. */
  lemma ProgressFresh(bodies: map<Slot, ScrubRule>, cleared: set<Slot>, installed: map<Bytes, InstalledRule>,
                      next: map<Bytes, Rule>, slots: map<Bytes, Slot>, taken: seq<Slot>, id: Bytes, slot: Slot)
    requires Placed(bodies, cleared, slots[id := slot], next)
    requires Assigned(slots[id := slot], InstalledSlots(installed), taken + [slot])
    requires KeepsSlots(installed, next, slots) && id !in SameBodies(next, installed)
    ensures Progress(bodies, cleared, installed, next, slots[id := slot], taken + [slot])
  {
    CountMember(taken + [slot], slot);
    if id in installed {
      assert InstalledSlots(installed)[id] == installed[id].slot;
    }
  }

  /** Writing to a slot that no installed rule holds leaves the installed ones alone. */
  lemma KernelWritten(st: Standing, bodies: map<Slot, ScrubRule>, cleared: set<Slot>, trie4: Trie, trie6: Trie,
                      bodies': map<Slot, ScrubRule>, cleared': set<Slot>, slot: Slot)
    requires InKernel(st, bodies, cleared, trie4, trie6) && !InUse(InstalledSlots(st.installed), slot)
    requires forall s :: s in bodies && s != slot ==> s in bodies' && bodies'[s] == bodies[s]
    requires cleared - {slot} <= cleared'
    ensures InKernel(st, bodies', cleared', trie4, trie6)
  {
    forall id | id in st.installed ensures st.installed[id].slot != slot {
      assert InstalledSlots(st.installed)[id] == st.installed[id].slot;
    }
  }

  lemma PlacedMore(bodies: map<Slot, ScrubRule>, cleared: set<Slot>, slots: map<Bytes, Slot>, next: map<Bytes, Rule>,
                   bodies': map<Slot, ScrubRule>, cleared': set<Slot>, id: Bytes, slot: Slot)
    requires Placed(bodies, cleared, slots, next) && !InUse(slots, slot) && id in next
    requires forall s :: s in bodies && s != slot ==> s in bodies' && bodies'[s] == bodies[s]
    requires cleared - {slot} <= cleared' && slot in cleared' && slot in bodies' && Same(bodies'[slot], next[id].body)
    ensures Placed(bodies', cleared', slots[id := slot], next)
  {
  }

  /** What the slot loop leaves: a slot for every rule, with its body in place. */
  ghost predicate Chosen(bodies: map<Slot, ScrubRule>, cleared: set<Slot>, installed: map<Bytes, InstalledRule>,
                         next: map<Bytes, Rule>, slots: map<Bytes, Slot>, taken: seq<Slot>)
  {
    slots.Keys == next.Keys && Progress(bodies, cleared, installed, next, slots, taken)
  }

  /** Ready to swap: `next` fits, its rules have their slots and bodies, and the slots
      taken for them came from the free ones, `given`. */
  ghost predicate Ready(next: map<Bytes, Rule>, slots: map<Bytes, Slot>, taken: seq<Slot>, free: seq<Slot>,
                        given: seq<Slot>, retired: seq<RetiredSlot>, installed: map<Bytes, InstalledRule>,
                        retiredAt: map<Slot, int>, clock: int, bodies: map<Slot, ScrubRule>, cleared: set<Slot>)
  {
    && Keyed(next) && CapacityOk(next.Values)
    && SlotBooks(given, retired, installed, retiredAt, clock) && Borrowed(free, taken, given)
    && Chosen(bodies, cleared, installed, next, slots, taken)
  }

  /** The slot loop has dealt with all of `next` but `todo`. */
  ghost predicate Dealt(bodies: map<Slot, ScrubRule>, cleared: set<Slot>, installed: map<Bytes, InstalledRule>,
                        next: map<Bytes, Rule>, todo: set<Bytes>, slots: map<Bytes, Slot>, taken: seq<Slot>)
  {
    && todo <= next.Keys && slots.Keys == next.Keys - todo && Progress(bodies, cleared, installed, next, slots, taken)
    && |taken| == |Changed(next, installed) - todo|
  }

  /** The kernel: what it holds, the slots written to in order, what was left when,
      and counts of swaps, of body writes to slots of live tries and to slots just
      left, and of failures. */
  datatype Kernel = Kernel(bodies: map<Slot, ScrubRule>, cleared: set<Slot>, touched: seq<Slot>,
                           trie4: Trie, trie6: Trie, leftAt: map<Slot, int>,
                           swaps: nat, clobbers: nat, hazards: nat, failures: nat)

  /** Bodies and rate-limit buckets were written in the slots `given` only. */
  predicate OnlyTouches(given: seq<Slot>, bodies0: map<Slot, ScrubRule>, touched0: seq<Slot>,
                        bodies: map<Slot, ScrubRule>, touched: seq<Slot>)
  {
    && (forall s :: s in bodies0 && s !in given ==> s in bodies && Same(bodies[s], bodies0[s]))
    && touched0 <= touched && forall i :: |touched0| <= i < |touched| ==> touched[i] in given
  }

  lemma TouchesMore(given: seq<Slot>, bodies0: map<Slot, ScrubRule>, touched0: seq<Slot>,
                    bodies1: map<Slot, ScrubRule>, touched1: seq<Slot>,
                    bodies: map<Slot, ScrubRule>, touched: seq<Slot>)
    requires OnlyTouches(given, bodies0, touched0, bodies1, touched1)
    requires OnlyTouches(given, bodies1, touched1, bodies, touched)
    ensures OnlyTouches(given, bodies0, touched0, bodies, touched)
  {
    forall i | |touched0| <= i < |touched| ensures touched[i] in given {
      if i < |touched1| { assert touched1[i] in given; }
    }
  }

  /** The slot loop, begun with the slots `given` and the kernel `k0`, has still to
      deal with `todo`; it stops when it is not `ok`. */
  ghost predicate SlotLoop(k0: Kernel, k: Kernel, st: Standing, next: map<Bytes, Rule>, given: seq<Slot>, clock: int,
                           todo: set<Bytes>, slots: map<Bytes, Slot>, taken: seq<Slot>, left: seq<Slot>, ok: bool)
  {
    && InKernel(st, k.bodies, k.cleared, k.trie4, k.trie6) && Borrowed(left, taken, given)
    && (ok ==> Dealt(k.bodies, k.cleared, st.installed, next, todo, slots, taken) && k.failures == k0.failures)
    && (!ok ==> k.failures > k0.failures || |Changed(next, st.installed)| > |given|)
    && k.failures >= k0.failures
    && (!st.torn ==> k.clobbers == k0.clobbers)
    && k.leftAt == k0.leftAt && k.hazards == k0.hazards + Hot(taken, k.leftAt, clock)
    && OnlyTouches(given, k0.bodies, k0.touched, k.bodies, k.touched)
  }

  lemma DealtNone(bodies: map<Slot, ScrubRule>, cleared: set<Slot>, installed: map<Bytes, InstalledRule>,
                  next: map<Bytes, Rule>)
    ensures Dealt(bodies, cleared, installed, next, next.Keys, map[], [])
  {
    assert Changed(next, installed) - next.Keys == {};
  }

  lemma DealtAll(bodies: map<Slot, ScrubRule>, cleared: set<Slot>, installed: map<Bytes, InstalledRule>,
                 next: map<Bytes, Rule>, slots: map<Bytes, Slot>, taken: seq<Slot>)
    requires Dealt(bodies, cleared, installed, next, {}, slots, taken)
    ensures |taken| == |Changed(next, installed)| && Chosen(bodies, cleared, installed, next, slots, taken)
  {
    assert Changed(next, installed) - {} == Changed(next, installed);
  }

  lemma DealtStep(bodies: map<Slot, ScrubRule>, cleared: set<Slot>, installed: map<Bytes, InstalledRule>,
                  next: map<Bytes, Rule>, todo: set<Bytes>, id: Bytes, n: nat, slots: map<Bytes, Slot>,
                  taken: seq<Slot>)
    requires id in todo && todo <= next.Keys && n == |Changed(next, installed) - todo|
    requires slots.Keys == (next.Keys - todo) + {id} && Progress(bodies, cleared, installed, next, slots, taken)
    requires |taken| == n + Count(id !in SameBodies(next, installed))
    ensures Dealt(bodies, cleared, installed, next, todo - {id}, slots, taken)
  {
    ChangedStep(Changed(next, installed), todo, id);
    assert slots.Keys == next.Keys - (todo - {id});
  }

  ghost predicate NotReferred(free: seq<Slot>, trie4: Trie, trie6: Trie) {
    forall s :: s in free ==> !RefersTo(trie4, s) && !RefersTo(trie6, s)
  }

  /** Slots no installed rule holds are not referred to by their tries. */
  lemma FreeNotReferred(free: seq<Slot>, retired: seq<RetiredSlot>, rules: map<Bytes, Rule>,
                        installed: map<Bytes, InstalledRule>)
    requires Conserved(free, retired, InstalledSlots(installed)) && Keyed(rules) && rules.Keys == installed.Keys
    ensures var slots := InstalledSlots(installed);
            NotReferred(free, TrieOf(Family(rules.Values, true), slots), TrieOf(Family(rules.Values, false), slots))
  {
    var slots := InstalledSlots(installed);
    forall s, v4 | s in free ensures !RefersTo(TrieOf(Family(rules.Values, v4), slots), s) {
      if RefersTo(TrieOf(Family(rules.Values, v4), slots), s) {
        WantTraced(rules, installed, v4, s);
        CountMember(free, s);
      }
      assert Holders(free, retired, slots, s) == Count(s < RULE_SLOTS);
    }
  }

  /** Every installed rule has its body in its slot, and a rate-limit window that
      began with it. */
  ghost predicate BodiesPresent(bodies: map<Slot, ScrubRule>, cleared: set<Slot>, installed: map<Bytes, InstalledRule>)
  {
    forall id :: id in installed ==>
      && installed[id].slot in bodies && Same(bodies[installed[id].slot], installed[id].body)
      && installed[id].slot in cleared
  }

  ghost predicate Placed(bodies: map<Slot, ScrubRule>, cleared: set<Slot>, slots: map<Bytes, Slot>,
                         next: map<Bytes, Rule>)
  {
    forall id :: id in slots && id in next ==>
      slots[id] in bodies && Same(bodies[slots[id]], next[id].body) && slots[id] in cleared
  }

  /** A rule that keeps its slot is in place already. */
  lemma PlaceKept(bodies: map<Slot, ScrubRule>, cleared: set<Slot>, installed: map<Bytes, InstalledRule>,
                  slots: map<Bytes, Slot>, next: map<Bytes, Rule>, id: Bytes)
    requires BodiesPresent(bodies, cleared, installed) && Placed(bodies, cleared, slots, next)
    requires id in installed && id in next && Same(installed[id].body, next[id].body)
    ensures Placed(bodies, cleared, slots[id := installed[id].slot], next)
  {
  }

  /** The tries wanted are those of the active rules. */
  ghost predicate Wanted(st: Standing, rules: map<Bytes, Rule>) {
    && Keyed(rules) && st.installed.Keys == rules.Keys
    && st.want4 == TrieOf(Family(rules.Values, true), InstalledSlots(st.installed))
    && st.want6 == TrieOf(Family(rules.Values, false), InstalledSlots(st.installed))
  }

  /** The books of the engine: the installed rules are the active ones, they fit,
      and the tries wanted are theirs. */
  ghost predicate Books(rules: map<Bytes, Rule>, installed: map<Bytes, InstalledRule>, activeV4: nat, activeV6: nat,
                        want4: Trie, want6: Trie)
  {
    && Keyed(rules) && installed.Keys == rules.Keys
    && (forall id :: id in rules ==> Same(installed[id].body, rules[id].body))
    && CapacityOk(rules.Values)
    && activeV4 == |Family(rules.Values, true)| && activeV6 == |Family(rules.Values, false)|
    && want4 == TrieOf(Family(rules.Values, true), InstalledSlots(installed))
    && want6 == TrieOf(Family(rules.Values, false), InstalledSlots(installed))
  }

  // ---- The exits of install ----

  /** The engine, as far as install changes it; its retired slots are those neither
      free nor installed, and `retiredAt` is when. */
  datatype Engine = Engine(rules: map<Bytes, Rule>, installed: map<Bytes, InstalledRule>, free: seq<Slot>, clock: int,
                           retiredAt: map<Slot, int>, torn: bool)

  /** A new or changed IPv4 rule was live for a moment: its trie was swapped in and
      then replaced by a restore. */
  predicate Exposed(next: map<Bytes, Rule>, installed: map<Bytes, InstalledRule>, swaps0: nat, swaps: nat, ok: bool) {
    !ok && swaps == swaps0 + 2 && ChangesV4(next, installed)
  }

  /** Only slots `given` were written to. The body writes spared the slots of live
      tries, unless one was left behind, and those of tries live a moment ago, if
      all was calm. */
  predicate Spared(torn: bool, calm: bool, given: seq<Slot>, k0: Kernel, k: Kernel) {
    && OnlyTouches(given, k0.bodies, k0.touched, k.bodies, k.touched)
    && (!torn ==> k.clobbers == k0.clobbers) && (calm ==> k.hazards == k0.hazards)
  }

  /** What install does to calm: unless it swapped out an IPv4 trie left behind, it
      ends it exactly when it exposes a rule. */
  predicate CalmAfter(calm0: bool, torn0: bool, next: map<Bytes, Rule>, installed: map<Bytes, InstalledRule>,
                      swaps0: nat, swaps: nat, ok: bool, calm: bool)
  {
    calm0 && (!torn0 || swaps == swaps0) ==> (calm <==> !Exposed(next, installed, swaps0, swaps, ok))
  }

  /** What the swaps do to calm, before any slot changes hands. */
  predicate Exposure(calm0: bool, torn0: bool, next: map<Bytes, Rule>, installed: map<Bytes, InstalledRule>,
                     swaps0: nat, swaps: nat, ok: bool, restored: bool, calm: bool, takenCalm: bool)
  {
    && (calm0 && (!torn0 || swaps == swaps0) ==> Exposed(next, installed, swaps0, swaps, ok) || calm)
    && (Exposed(next, installed, swaps0, swaps, ok) ==> restored && !takenCalm)
  }

  /** The two swaps of install, and the restore between them. */
  predicate Swapped(k0: Kernel, k: Kernel, trie4: Trie, trie6: Trie, want4: Trie, now: int, ok: bool, restored: bool) {
    var left4 := LeftNow(k0.leftAt, k0.trie4, now);
    && Same(k.bodies, k0.bodies) && Same(k.touched, k0.touched)
    && k.clobbers == k0.clobbers && k.hazards == k0.hazards
    && if ok then
      && Same(k.trie4, trie4) && Same(k.trie6, trie6)
      && k.failures == k0.failures && k.swaps == k0.swaps + 2 && Same(k.leftAt, LeftNow(left4, k0.trie6, now))
    else
      && Same(k.trie6, k0.trie6) && k.failures == k0.failures + (if restored then 1 else 2)
      && (if !restored then Same(k.trie4, trie4) && k.swaps == k0.swaps + 1 && Same(k.leftAt, left4)
          else
            || (Same(k.trie4, k0.trie4) && k.swaps == k0.swaps && Same(k.leftAt, k0.leftAt))
            || (Same(k.trie4, want4) && k.swaps == k0.swaps + 2 && Same(k.leftAt, LeftNow(left4, trie4, now))))
  }

  predicate ChangesV4(next: map<Bytes, Rule>, installed: map<Bytes, InstalledRule>) {
    exists id :: id in next && id in Changed(next, installed) && next[id].dst.v4
  }

  ghost predicate Within(trie: Trie, slots: map<Bytes, Slot>) {
    forall s :: RefersTo(trie, s) ==> InUse(slots, s)
  }

  /** The new IPv4 trie refers to a slot taken from the free list if an IPv4 rule is
      new or changed, and to installed slots only if none is. */
  ghost predicate Touched(trie4: Trie, next: map<Bytes, Rule>, installed: map<Bytes, InstalledRule>, taken: seq<Slot>) {
    if ChangesV4(next, installed) then exists s :: s in taken && s in Refs(trie4)
    else Within(trie4, InstalledSlots(installed))
  }

  lemma NewTrieTouches(bodies: map<Slot, ScrubRule>, cleared: set<Slot>, installed: map<Bytes, InstalledRule>,
                       next: map<Bytes, Rule>, slots: map<Bytes, Slot>, taken: seq<Slot>)
    requires Chosen(bodies, cleared, installed, next, slots, taken) && Keyed(next)
    ensures Touched(TrieOf(Family(next.Values, true), slots), next, installed, taken)
  {
    var trie4 := TrieOf(Family(next.Values, true), slots);
    if id :| id in next && id in Changed(next, installed) && next[id].dst.v4 {
      ExposedSlot(bodies, cleared, installed, next, slots, taken, id);
      RefsRefer(trie4, slots[id]);
    } else {
      forall s | RefersTo(trie4, s) ensures InUse(InstalledSlots(installed), s) {
        NothingExposed(bodies, cleared, installed, next, slots, taken, s);
      }
    }
  }

  /** The slot of such a rule was taken from the free list. */
  lemma ExposedSlot(bodies: map<Slot, ScrubRule>, cleared: set<Slot>, installed: map<Bytes, InstalledRule>,
                    next: map<Bytes, Rule>, slots: map<Bytes, Slot>, taken: seq<Slot>, id: Bytes)
    requires Chosen(bodies, cleared, installed, next, slots, taken) && Keyed(next)
    requires id in next && id in Changed(next, installed) && next[id].dst.v4
    ensures slots[id] in taken && RefersTo(TrieOf(Family(next.Values, true), slots), slots[id])
  {
    assert next[id] in Family(next.Values, true) && next[id].id == id;
    TrieRefers(Family(next.Values, true), slots, slots[id]);
    assert InUse(slots, slots[id]);
    CountMember(taken, slots[id]);
  }

  /** Without such a rule the new IPv4 trie refers to installed slots only. */
  lemma NothingExposed(bodies: map<Slot, ScrubRule>, cleared: set<Slot>, installed: map<Bytes, InstalledRule>,
                       next: map<Bytes, Rule>, slots: map<Bytes, Slot>, taken: seq<Slot>, s: Slot)
    requires Chosen(bodies, cleared, installed, next, slots, taken) && Keyed(next)
    requires forall id :: id in next && id in Changed(next, installed) ==> !next[id].dst.v4
    requires RefersTo(TrieOf(Family(next.Values, true), slots), s)
    ensures InUse(InstalledSlots(installed), s)
  {
    TrieRefers(Family(next.Values, true), slots, s);
    var r :| r in Family(next.Values, true) && slots[r.id] == s;
    assert r.id in SameBodies(next, installed);
    assert InstalledSlots(installed)[r.id] == s;
  }

  /** Of the slots that were free, `given`, those stay free that are neither in use nor
      `gone`, and no other slot becomes free. */
  ghost predicate FreeAfter(given: seq<Slot>, free: seq<Slot>, installed: map<Bytes, InstalledRule>, gone: seq<Slot>) {
    forall s :: s in free <==> s in given && !InUse(InstalledSlots(installed), s) && s !in gone
  }

  /** The rules and slots after a successful install: a slot in use was in use or was
      free; those of no more use are `gone`. */
  ghost predicate Exchanged(e0: Engine, given: seq<Slot>, e: Engine, next: map<Bytes, Rule>, now: int,
                            gone: seq<Slot>)
  {
    && Same(e.rules, next) && !e.torn && TurnOver(e0.installed, e.installed, e.retiredAt, now)
    && Dropped(gone, InstalledSlots(e0.installed), InstalledSlots(e.installed))
    && (forall s :: InUse(InstalledSlots(e.installed), s) ==> InUse(InstalledSlots(e0.installed), s) || s in given)
  }

  /** What install does to the books, all or nothing: the slots `gone`, and no others,
      are retired from now on. */
  ghost predicate Outcome(e0: Engine, given: seq<Slot>, e: Engine, trie4: Trie, next: map<Bytes, Rule>, now: int,
                          gone: seq<Slot>, ok: bool)
  {
    && e.clock == e0.clock && Same(e.retiredAt, DateAll(e0.retiredAt, gone, now))
    && FreeAfter(given, e.free, e.installed, gone)
    && (ok ==> Exchanged(e0, given, e, next, now, gone))
    && (!ok ==> Same(e.rules, e0.rules) && Same(e.installed, e0.installed) && forall s :: s in gone ==> s in given)
    && (!ok && (!e0.torn || !e.torn) ==> TracedNow(trie4, e.installed, e.retiredAt, now))
  }

  /** What install does to the live tries when it fails: nothing, unless `next` fits
      and has the `need` slots it needs. Then it may be that the IPv6 swap failed
      after that of IPv4, and the IPv4 trie wanted is restored; only if that failed,
      too, is the new IPv4 trie left behind, and the slots taken are retired. */
  predicate TriesAfter(k0: Kernel, k: Kernel, want4: Trie, fits: bool, need: nat, gone: seq<Slot>, ok: bool) {
    if ok then
      k.swaps == k0.swaps + 2 && k.failures == k0.failures
    else if k.swaps == k0.swaps then
      Same(k.trie4, k0.trie4) && Same(k.trie6, k0.trie6) && k.failures >= k0.failures && gone == []
    else
      && fits && Same(k.trie6, k0.trie6)
      && (if k.swaps == k0.swaps + 2 then
            Same(k.trie4, want4) && k.failures == k0.failures + 1 && gone == []
          else
            k.swaps == k0.swaps + 1 && k.failures == k0.failures + 2 && |gone| == need)
  }

  /** All that install does, once the slots past their grace are free (`given`). It
      succeeds exactly when `next` is within the limits, there are the `need` slots
      it needs, and no kernel call fails. (Where a contract says `== true` of this or
      another large predicate, the verifier passes it on whole.) */
  ghost predicate Installs(e0: Engine, k0: Kernel, given: seq<Slot>, e: Engine, k: Kernel, want4: Trie,
                           next: map<Bytes, Rule>, now: int, need: nat, gone: seq<Slot>,
                           calm0: bool, calm: bool, ok: bool)
  {
    var fits := CapacityOk(next.Values) && need <= |given|;
    && (ok <==> fits && k.failures == k0.failures)
    && Outcome(e0, given, e, k.trie4, next, now, gone, ok)
    && TriesAfter(k0, k, want4, fits, need, gone, ok) && (e.torn && !e0.torn ==> k.swaps == k0.swaps + 1)
    && CalmAfter(calm0, e0.torn, next, e0.installed, k0.swaps, k.swaps, ok, calm)
    && Spared(e0.torn, AllCalm(given, k0.leftAt, e0.clock), given, k0, k)
  }

  /** Nothing has happened but to the free slots. */
  predicate SameButFree(e0: Engine, e: Engine) {
    && Same(e.rules, e0.rules) && Same(e.installed, e0.installed) && e.clock == e0.clock
    && Same(e.retiredAt, e0.retiredAt) && e.torn == e0.torn
  }

  /** No swap so far. */
  predicate SameTries(k0: Kernel, k: Kernel) {
    && Same(k.trie4, k0.trie4) && Same(k.trie6, k0.trie6) && Same(k.leftAt, k0.leftAt)
    && k.swaps == k0.swaps && k.failures >= k0.failures
  }

  /** install that ends before the swaps. */
  lemma EndsEarly(e0: Engine, k0: Kernel, given: seq<Slot>, e: Engine, k: Kernel, want4: Trie, next: map<Bytes, Rule>,
                  now: int, need: nat, calm0: bool, calm: bool)
    requires (calm0 ==> calm) && (!CapacityOk(next.Values) || need > |given| || k.failures > k0.failures)
    ensures && SameButFree(e0, e) && SameTries(k0, k) && Outcome(e0, given, e, k.trie4, next, now, [], false)
            && Spared(e0.torn, AllCalm(given, k0.leftAt, e0.clock), given, k0, k)
            ==> Installs(e0, k0, given, e, k, want4, next, now, need, [], calm0, calm, false)
  {
  }

  /** The slot loop followed by the rest of install. */
  lemma ThenSwaps(e0: Engine, k0: Kernel, given: seq<Slot>, e1: Engine, k1: Kernel, e: Engine, k: Kernel, want4: Trie,
                  next: map<Bytes, Rule>, now: int, need: nat, gone: seq<Slot>, calm0: bool, calm: bool, ok: bool)
    requires SameButFree(e0, e1) == true && SameTries(k0, k1) == true && k1.failures == k0.failures
    requires Spared(e0.torn, AllCalm(given, k0.leftAt, e0.clock), given, k0, k1) == true
    requires Installs(e1, k1, given, e, k, want4, next, now, need, gone, calm0, calm, ok) == true
    ensures Installs(e0, k0, given, e, k, want4, next, now, need, gone, calm0, calm, ok)
  {
    TouchesMore(given, k0.bodies, k0.touched, k1.bodies, k1.touched, k.bodies, k.touched);
    assert Outcome(e1, given, e, k.trie4, next, now, gone, ok) ==> Outcome(e0, given, e, k.trie4, next, now, gone, ok);
  }

  /** install from the swaps on. */
  lemma SwapsInstall(e0: Engine, k0: Kernel, given: seq<Slot>, e: Engine, k: Kernel,
                     trie4: Trie, trie6: Trie, want4: Trie,
                     next: map<Bytes, Rule>, now: int, taken: seq<Slot>, restored: bool, gone: seq<Slot>,
                     calm0: bool, calm1: bool, takenCalm: bool, calm: bool, ok: bool)
    requires CapacityOk(next.Values) && |taken| <= |given|
    ensures && Swapped(k0, k, trie4, trie6, want4, now, ok, restored)
            && Exposure(calm0, e0.torn, next, e0.installed, k0.swaps, k.swaps, ok, restored, calm1, takenCalm)
            && Outcome(e0, given, e, k.trie4, next, now, gone, ok)
            && (!ok ==> gone == if restored then [] else taken) && (restored && e.torn ==> ok || e0.torn)
            && (calm0 ==> (calm1 ==> calm) && (!ok && restored && !takenCalm ==> !calm))
            ==> Installs(e0, k0, given, e, k, want4, next, now, |taken|, gone, calm0, calm, ok)
  {
  }

  lemma NoneDated(retiredAt: map<Slot, int>, now: int)
    ensures DateAll(retiredAt, [], now) == retiredAt
  {
  }

  /** The books after a commit. */
  lemma CommitOutcome(e0: Engine, free: seq<Slot>, given: seq<Slot>, taken: seq<Slot>, retired: seq<RetiredSlot>,
                      slots: map<Bytes, Slot>, dropped: seq<Slot>, trie4: Trie, next: map<Bytes, Rule>, now: int)
    requires Conserved(given, retired, InstalledSlots(e0.installed)) && Borrowed(free, taken, given)
    requires slots.Keys == next.Keys && Assigned(slots, InstalledSlots(e0.installed), taken)
    requires KeepsSlots(e0.installed, next, slots) && Dropped(dropped, InstalledSlots(e0.installed), slots)
    ensures var dates := DateAll(e0.retiredAt, dropped, now);
            Outcome(e0, given, Engine(next, Seated(next, slots), free, e0.clock, dates, false), trie4, next, now,
                    dropped, true)
  {
    TurnedOver(e0.installed, e0.retiredAt, now, next, slots, dropped);
    forall s ensures s in free <==> s in given && !InUse(slots, s) && s !in dropped {
      GivenSlot(free, taken, given, retired, e0.installed, s);
      assert CountIn(taken, s) == Count(InUse(slots, s) && !InUse(InstalledSlots(e0.installed), s));
      assert CountIn(dropped, s) == Count(InUse(InstalledSlots(e0.installed), s) && !InUse(slots, s));
      CountMember(dropped, s);
    }
    forall s | InUse(slots, s) && !InUse(InstalledSlots(e0.installed), s) ensures s in given {
      GivenSlot(free, taken, given, retired, e0.installed, s);
      assert CountIn(taken, s) == 1;
    }
  }

  /** A slot that was free is either left or taken, and no rule uses it. */
  lemma GivenSlot(free: seq<Slot>, taken: seq<Slot>, given: seq<Slot>, retired: seq<RetiredSlot>,
                  installed: map<Bytes, InstalledRule>, s: Slot)
    requires Conserved(given, retired, InstalledSlots(installed)) && Borrowed(free, taken, given)
    ensures s in free ==> s in given && s !in taken
    ensures s in taken ==> s in given
    ensures s in given ==> !InUse(InstalledSlots(installed), s) && (s in free || s in taken)
    ensures (s in taken <==> CountIn(taken, s) > 0) && (s in given <==> CountIn(given, s) > 0)
  {
    assert Holders(given, retired, InstalledSlots(installed), s) == Count(s < RULE_SLOTS);
    assert CountIn(free, s) + CountIn(taken, s) == CountIn(given, s);
    CountMember(free, s);
    CountMember(taken, s);
    CountMember(given, s);
  }

  /** The books after the slots taken are given back. */
  lemma RollbackOutcome(e0: Engine, free: seq<Slot>, given: seq<Slot>, taken: seq<Slot>, retired: seq<RetiredSlot>,
                        torn: bool, trie4: Trie, next: map<Bytes, Rule>, now: int)
    requires Conserved(given, retired, InstalledSlots(e0.installed)) && Borrowed(free, taken, given)
    requires torn ==> e0.torn
    requires !torn ==> TracedNow(trie4, e0.installed, e0.retiredAt, now)
    ensures Outcome(e0, given, Engine(e0.rules, e0.installed, free + taken, e0.clock, e0.retiredAt, torn), trie4, next,
                    now, [], false)
  {
    NoneDated(e0.retiredAt, now);
    forall s ensures s in free + taken <==> s in given && !InUse(InstalledSlots(e0.installed), s) {
      GivenSlot(free, taken, given, retired, e0.installed, s);
    }
  }

  /** The books when nothing has happened. */
  lemma NothingOutcome(e0: Engine, retired: seq<RetiredSlot>, trie4: Trie, next: map<Bytes, Rule>, now: int)
    requires Conserved(e0.free, retired, InstalledSlots(e0.installed))
    requires !e0.torn ==> TracedNow(trie4, e0.installed, e0.retiredAt, now)
    ensures Outcome(e0, e0.free, e0, trie4, next, now, [], false)
  {
    assert e0.free + [] == e0.free;
    RollbackOutcome(e0, e0.free, e0.free, [], retired, e0.torn, trie4, next, now);
  }

  /** The books after the slots taken are retired. */
  lemma LeftOutcome(e0: Engine, free: seq<Slot>, given: seq<Slot>, taken: seq<Slot>, retired: seq<RetiredSlot>,
                    torn: bool, trie4: Trie, next: map<Bytes, Rule>, now: int)
    requires Conserved(given, retired, InstalledSlots(e0.installed)) && Borrowed(free, taken, given)
    requires TracedNow(trie4, e0.installed, DateAll(e0.retiredAt, taken, now), now)
    ensures var dates := DateAll(e0.retiredAt, taken, now);
            Outcome(e0, given, Engine(e0.rules, e0.installed, free, e0.clock, dates, torn), trie4, next, now,
                    taken, false)
  {
    forall s ensures s in free <==> s in given && !InUse(InstalledSlots(e0.installed), s) && s !in taken {
      GivenSlot(free, taken, given, retired, e0.installed, s);
    }
    forall s | s in taken ensures s in given {
      GivenSlot(free, taken, given, retired, e0.installed, s);
    }
  }

  /** What the swaps mean for readers: all stays calm, unless they expose a rule,
      whose slot has then just been left. */
  lemma SwapReaders(k0: Kernel, k: Kernel, st: Standing, rules: map<Bytes, Rule>, given: seq<Slot>,
                    retired: seq<RetiredSlot>, next: map<Bytes, Rule>, taken: seq<Slot>, trie4: Trie, trie6: Trie,
                    now: int, ok: bool, restored: bool)
    requires InKernel(st, k0.bodies, k0.cleared, k0.trie4, k0.trie6) && Wanted(st, rules)
    requires Conserved(given, retired, InstalledSlots(st.installed)) && Touched(trie4, next, st.installed, taken)
    requires Swapped(k0, k, trie4, trie6, st.want4, now, ok, restored)
    ensures Exposure(CalmBooks(given, retired, k0.leftAt, now), st.torn, next, st.installed, k0.swaps, k.swaps,
                     ok, restored, CalmBooks(given, retired, k.leftAt, now), AllCalm(taken, k.leftAt, now))
  {
    if Exposed(next, st.installed, k0.swaps, k.swaps, ok) {
      var s :| s in taken && s in Refs(trie4);
      assert RecentlyLeft(k.leftAt, s, now);
    } else if CalmBooks(given, retired, k0.leftAt, now) && !st.torn {
      LiveWithin(st, rules, k0.bodies, k0.cleared, k0.trie4, k0.trie6);
      SwapsStayCalm(k0, k, InstalledSlots(st.installed), given, retired, trie4, trie6, st.want4, now, ok, restored);
    }
  }

  lemma SwapsStayCalm(k0: Kernel, k: Kernel, slots: map<Bytes, Slot>, given: seq<Slot>, retired: seq<RetiredSlot>,
                      trie4: Trie, trie6: Trie, want4: Trie, now: int, ok: bool, restored: bool)
    requires CalmBooks(given, retired, k0.leftAt, now) && Conserved(given, retired, slots)
    requires Within(k0.trie4, slots) && Within(k0.trie6, slots)
    requires Swapped(k0, k, trie4, trie6, want4, now, ok, restored)
    requires ok || k.swaps != k0.swaps + 2 || Within(trie4, slots)
    ensures CalmBooks(given, retired, k.leftAt, now)
  {
    SwapsCalm(given, retired, slots, k0.leftAt, k0.trie4, k0.trie6, trie4, now);
  }

  /** The live tries, none left behind, refer to installed slots only. */
  lemma LiveWithin(st: Standing, rules: map<Bytes, Rule>, bodies: map<Slot, ScrubRule>, cleared: set<Slot>,
                   trie4: Trie, trie6: Trie)
    requires InKernel(st, bodies, cleared, trie4, trie6) && Wanted(st, rules) && !st.torn
    ensures Within(trie4, InstalledSlots(st.installed)) && Within(trie6, InstalledSlots(st.installed))
  {
    forall s | RefersTo(trie4, s) ensures InUse(InstalledSlots(st.installed), s) {
      WantTraced(rules, st.installed, true, s);
    }
    forall s | RefersTo(trie6, s) ensures InUse(InstalledSlots(st.installed), s) {
      WantTraced(rules, st.installed, false, s);
    }
  }

  /** Replacing the live tries, both of them or IPv4 alone, keeps calm; so does
      replacing the new IPv4 trie next if it refers to installed slots only. */
  lemma SwapsCalm(given: seq<Slot>, retired: seq<RetiredSlot>, slots: map<Bytes, Slot>, leftAt: map<Slot, int>,
                  live4: Trie, live6: Trie, trie4: Trie, now: int)
    requires CalmBooks(given, retired, leftAt, now) && Conserved(given, retired, slots)
    requires Within(live4, slots) && Within(live6, slots)
    ensures var left4 := LeftNow(leftAt, live4, now);
            && CalmBooks(given, retired, left4, now)
            && CalmBooks(given, retired, LeftNow(left4, live6, now), now)
            && (Within(trie4, slots) ==> CalmBooks(given, retired, LeftNow(left4, trie4, now), now))
  {
    var left4 := LeftNow(leftAt, live4, now);
    ReplaceCalm(given, retired, slots, leftAt, live4, now);
    ReplaceCalm(given, retired, slots, left4, live6, now);
    if Within(trie4, slots) {
      ReplaceCalm(given, retired, slots, left4, trie4, now);
    }
  }

  lemma RolledBack(free: seq<Slot>, taken: seq<Slot>, given: seq<Slot>, retired: seq<RetiredSlot>,
                   installed: map<Bytes, InstalledRule>, retiredAt: map<Slot, int>, clock: int)
    requires SlotBooks(given, retired, installed, retiredAt, clock) && Borrowed(free, taken, given)
    ensures SlotBooks(free + taken, retired, installed, retiredAt, clock)
    ensures forall s :: s in free + taken <==> s in given
  {
    RollbackConserves(free, taken, given, retired, InstalledSlots(installed));
  }

  lemma TakenRetired(free: seq<Slot>, taken: seq<Slot>, given: seq<Slot>, retired: seq<RetiredSlot>,
                     installed: map<Bytes, InstalledRule>, retiredAt: map<Slot, int>, clock: int, now: int)
    requires SlotBooks(given, retired, installed, retiredAt, clock) && Borrowed(free, taken, given)
    ensures SlotBooks(free, retired + RetireAll(taken, now), installed, DateAll(retiredAt, taken, now), clock)
    ensures forall s :: s in free ==> s in given
  {
    SharedWithin(free, taken, given);
    RetireConserves(free, taken, given, retired, InstalledSlots(installed), now);
    RetireDates(free, retired, taken, InstalledSlots(installed), retiredAt, clock, now);
  }

  /** The rules of `next` in their slots. */
  function Seated(next: map<Bytes, Rule>, slots: map<Bytes, Slot>): (r: map<Bytes, InstalledRule>)
    requires slots.Keys == next.Keys
    ensures InstalledSlots(r) == slots && r.Keys == next.Keys
  {
    map id | id in next :: InstalledRule(slots[id], next[id].body)
  }

  lemma SlotsCommitted(free: seq<Slot>, taken: seq<Slot>, given: seq<Slot>, retired: seq<RetiredSlot>,
                       installed: map<Bytes, InstalledRule>, retiredAt: map<Slot, int>, clock: int, now: int,
                       next: map<Bytes, Rule>, slots: map<Bytes, Slot>, dropped: seq<Slot>)
    requires SlotBooks(given, retired, installed, retiredAt, clock) && Borrowed(free, taken, given)
    requires slots.Keys == next.Keys && Assigned(slots, InstalledSlots(installed), taken)
    requires Dropped(dropped, InstalledSlots(installed), slots)
    ensures SlotBooks(free, retired + RetireAll(dropped, now), Seated(next, slots),
                      DateAll(retiredAt, dropped, now), clock)
    ensures forall s :: s in free ==> s in given
  {
    SharedWithin(free, taken, given);
    CommitConserves(free, taken, given, retired, InstalledSlots(installed), slots, dropped, now);
    RetireDates(free, retired, dropped, slots, retiredAt, clock, now);
  }

  lemma TurnedOver(installed: map<Bytes, InstalledRule>, retiredAt: map<Slot, int>, now: int,
                   next: map<Bytes, Rule>, slots: map<Bytes, Slot>, dropped: seq<Slot>)
    requires slots.Keys == next.Keys && KeepsSlots(installed, next, slots)
    requires Dropped(dropped, InstalledSlots(installed), slots)
    ensures TurnOver(installed, Seated(next, slots), DateAll(retiredAt, dropped, now), now)
  {
    DroppedMembers(dropped, InstalledSlots(installed), slots);
  }

  /** After a successful swap the kernel holds the new rules. */
  lemma KernelCommitted(next: map<Bytes, Rule>, slots: map<Bytes, Slot>, bodies: map<Slot, ScrubRule>,
                        cleared: set<Slot>, trie4: Trie, trie6: Trie)
    requires slots.Keys == next.Keys && Placed(bodies, cleared, slots, next)
    ensures forall retiredAt ::
              InKernel(Standing(Seated(next, slots), trie4, trie6, false, retiredAt), bodies, cleared, trie4, trie6)
  {
  }

  /** After a failed restore the live IPv4 trie is the new one. */
  lemma KernelTorn(st: Standing, next: map<Bytes, Rule>, slots: map<Bytes, Slot>, taken: seq<Slot>,
                   bodies: map<Slot, ScrubRule>, cleared: set<Slot>, before: Trie, trie4: Trie, trie6: Trie, now: int)
    requires InKernel(st, bodies, cleared, before, trie6) && Keyed(next) && slots.Keys == next.Keys
    requires Assigned(slots, InstalledSlots(st.installed), taken)
    requires trie4 == TrieOf(Family(next.Values, true), slots)
    ensures TracedNow(trie4, st.installed, DateAll(st.retiredAt, taken, now), now)
    ensures InKernel(st.(torn := trie4 != st.want4, retiredAt := DateAll(st.retiredAt, taken, now)),
                     bodies, cleared, trie4, trie6)
  {
    forall s | RefersTo(trie4, s) ensures InUse(InstalledSlots(st.installed), s) || s in taken {
      FreshTrieRefers(next, slots, taken, st.installed, s);
    }
  }

  /** After a failed swap that left or restored the IPv4 trie. */
  lemma KernelKept(st: Standing, rules: map<Bytes, Rule>, bodies: map<Slot, ScrubRule>, cleared: set<Slot>,
                   before: Trie, trie4: Trie, trie6: Trie, now: int)
    requires InKernel(st, bodies, cleared, before, trie6) && (trie4 == before || trie4 == st.want4)
    requires Keyed(rules) && st.installed.Keys == rules.Keys
    requires st.want4 == TrieOf(Family(rules.Values, true), InstalledSlots(st.installed))
    ensures InKernel(st.(torn := trie4 != st.want4), bodies, cleared, trie4, trie6)
    ensures trie4 == st.want4 ==> TracedNow(trie4, st.installed, st.retiredAt, now)
  {
    forall s | RefersTo(st.want4, s) ensures InUse(InstalledSlots(st.installed), s) {
      WantTraced(rules, st.installed, true, s);
    }
  }

  /** Taking rules away needs neither slots nor capacity. */
  lemma FewerNeedNoSlot(rules: map<Bytes, Rule>, installed: map<Bytes, InstalledRule>, remove: seq<Bytes>)
    requires CapacityOk(rules.Values) && installed.Keys == rules.Keys
    requires forall id :: id in rules ==> Same(installed[id].body, rules[id].body)
    ensures Changed(Without(rules, remove), installed) == {} && CapacityOk(Without(rules, remove).Values)
  {
    CapacitySubset(Without(rules, remove).Values, rules.Values);
  }

  /** Room is a matter of counting: the slots needed anew, those of installed
      rules and those still in their grace period have to fit the table. */
  lemma RoomByCount(installed: map<Bytes, InstalledRule>, free: seq<Slot>, retired: seq<RetiredSlot>,
                    next: map<Bytes, Rule>, now: int)
    requires Conserved(free, retired, InstalledSlots(installed))
    ensures HasRoom(next, installed, free, retired, now)
            <==> |Changed(next, installed)| + |installed| + |Kept(retired, now)| <= RULE_SLOTS
  {
    ReleaseConserves(free, retired, InstalledSlots(installed), now);
    SlotTotal(free + Released(retired, now), Kept(retired, now), InstalledSlots(installed));
    SameKeys(InstalledSlots(installed), installed);
  }

  /** A collector never holds more than half the slots, so once no slot is in its
      grace period there is room for any rule set that fits. */
  lemma RoomAfterGrace(rules: map<Bytes, Rule>, installed: map<Bytes, InstalledRule>, free: seq<Slot>,
                       retired: seq<RetiredSlot>, next: map<Bytes, Rule>, now: int)
    requires Conserved(free, retired, InstalledSlots(installed)) && Kept(retired, now) == []
    requires Keyed(rules) && CapacityOk(rules.Values) && installed.Keys == rules.Keys
    requires Keyed(next) && CapacityOk(next.Values)
    ensures HasRoom(next, installed, free, retired, now)
  {
    RoomByCount(installed, free, retired, next, now);
    AtMostTwoFamilies(rules);
    AtMostTwoFamilies(next);
    SubsetCardinality(Changed(next, installed), next.Keys);
    SameKeys(rules, installed);
  }

  lemma AtMostTwoFamilies(rules: map<Bytes, Rule>)
    requires Keyed(rules) && CapacityOk(rules.Values)
    ensures |rules.Keys| <= 2 * RULES_MAX
  {
    var ids := set r | r in rules.Values :: r.id;
    assert forall id :: id in rules ==> rules[id] in rules.Values;
    assert rules.Keys <= ids;
    ImageCardinality(rules.Values);
    SubsetCardinality(rules.Keys, ids);
    assert rules.Values == Family(rules.Values, true) + Family(rules.Values, false);
  }

  lemma {:induction false} ImageCardinality(rules: set<Rule>)
    ensures |set r | r in rules :: r.id| <= |rules|
  {
    if rules != {} {
      var r :| r in rules;
      ImageCardinality(rules - {r});
      assert (set x | x in rules :: x.id) == (set x | x in rules - {r} :: x.id) + {r.id};
    }
  }

  /** The checks and the flattening of install. */
  method Layout(next: map<Bytes, Rule>)
    returns (ok: bool, entries4: map<Prefix, seq<Rule>>, entries6: map<Prefix, seq<Rule>>)
    requires Keyed(next)
    ensures ok <==> CapacityOk(next.Values)
    ensures ok ==> entries4 == Flattened(Family(next.Values, true)) && entries6 == Flattened(Family(next.Values, false))
  {
    ok, entries4, entries6 := false, map[], map[];
    var v4, v6 := SplitFamilies(next);
    if |v4| > RULES_MAX || |v6| > RULES_MAX {
      return;
    }
    var flat4 := Flatten(v4);
    if flat4.Err? {
      return;
    }
    var flat6 := Flatten(v6);
    if flat6.Ok? {
      ok, entries4, entries6 := true, flat4.value, flat6.value;
    }
  }

  method CountFamilies(rules: map<Bytes, Rule>) returns (n4: nat, n6: nat)
    requires Keyed(rules)
    ensures n4 == |Family(rules.Values, true)| && n6 == |Family(rules.Values, false)|
  {
    var v4, v6 := SplitFamilies(rules);
    n4, n6 := |v4|, |v6|;
  }

  /** The loop of releaseRetired. */
  method SplitRetired(free: seq<Slot>, retired: seq<RetiredSlot>, now: int)
    returns (free': seq<Slot>, kept: seq<RetiredSlot>)
    ensures free' == free + Released(retired, now) && kept == Kept(retired, now)
  {
    free', kept := free, [];
    for i := 0 to |retired|
      invariant free' == free + Released(retired[..i], now) && kept == Kept(retired[..i], now)
    {
      assert retired[..i + 1][..i] == retired[..i];
      if now - retired[i].at >= SLOT_GRACE {
        free' := free' + [retired[i].slot];
      } else {
        kept := kept + [retired[i]];
      }
    }
    assert retired[..|retired|] == retired;
  }

  method AllSlots() returns (free: seq<Slot>)
    ensures Conserved(free, [], map[])
  {
    free := [];
    var s := RULE_SLOTS;
    while s > 0
      invariant 0 <= s <= RULE_SLOTS
      invariant forall t: Slot :: CountIn(free, t) == Count(s <= t < RULE_SLOTS)
    {
      s := s - 1;
      forall t: Slot ensures CountIn(free + [s], t) == Count(s <= t < RULE_SLOTS) { CountSnoc(free, s, t); }
      free := free + [s];
    }
  }

  lemma NothingFlattened()
    ensures forall v4 :: TrieOf(Family({}, v4), map[]) == map[]
    ensures CapacityOk({})
  {
    assert forall v4 :: Family({}, v4) == {};
  }
}

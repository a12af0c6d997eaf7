/** The scrub rule engine of a collector (pkg/collector/rules.go): it gives each
    installed rule a slot in the kernel's rule table and swaps the two tries, in
    the face of a kernel whose calls may fail at any point. */
module RuleEngine {
  import opened Basics
  import opened Collections
  import opened Orders
  import opened Prefixes
  import opened RuleBody
  import opened RuleLayout
  import opened RuleTries
  import opened SlotLedger
  import opened RuleDelta
  import opened RuleReaders
  import opened RuleBooks

  /** The kernel side (ruleMaps). Every call may fail; a failed swap leaves its
      trie alone, a failed body write may leave anything in that slot. */
  class RuleMaps {
    var bodies: map<Slot, ScrubRule>
    var trie4: Trie
    var trie6: Trie
    /** Slots whose rate-limit bucket was reset after their body was last written. */
    ghost var cleared: set<Slot>
    /** The slots whose body was written or whose bucket was reset, in order. */
    ghost var touched: seq<Slot>
    /** How many body writes hit a slot that a live trie referred to. */
    ghost var clobbers: nat
    /** When a live trie that referred to a slot was last replaced, and how many body
        writes hit a slot within the grace period after that. */
    ghost var leftAt: map<Slot, int>
    ghost var hazards: nat
    /** How many swaps have succeeded, and how many calls have failed. */
    ghost var swaps: nat
    ghost var failures: nat

    ghost function View(): Kernel
      reads this
    {
      Kernel(bodies, cleared, touched, trie4, trie6, leftAt, swaps, clobbers, hazards, failures)
    }

    ghost predicate Holds(st: Standing)
      reads this`bodies, this`cleared, this`trie4, this`trie6
    {
      InKernel(st, bodies, cleared, trie4, trie6)
    }

    constructor ()
      ensures bodies == map[] && trie4 == map[] && trie6 == map[] && leftAt == map[]
    {
      bodies, trie4, trie6, cleared, clobbers, failures := map[], map[], map[], {}, 0, 0;
      touched, leftAt, hazards, swaps := [], map[], 0, 0;
    }

    method PutRuleBody(slot: Slot, body: ScrubRule, ghost now: int) returns (ok: bool)
      modifies this`bodies, this`cleared, this`touched, this`clobbers, this`hazards, this`failures
      ensures hazards == old(hazards) + Count(RecentlyLeft(leftAt, slot, now))
      ensures cleared == old(cleared) - {slot} && touched == old(touched) + [slot]
      ensures failures == old(failures) + Count(!ok)
      ensures clobbers == old(clobbers) + Count(RefersTo(trie4, slot) || RefersTo(trie6, slot))
      ensures ok ==> slot in bodies && bodies[slot] == body
      ensures forall s :: s in old(bodies) && s != slot ==> s in bodies && bodies[s] == old(bodies)[s]
    {
      cleared, touched := cleared - {slot}, touched + [slot];
      clobbers := clobbers + Count(RefersTo(trie4, slot) || RefersTo(trie6, slot));
      hazards := hazards + Count(RecentlyLeft(leftAt, slot, now));
      ok := *;
      if ok {
        bodies := bodies[slot := body];
      } else {
        failures := failures + 1;
        bodies := bodies - {slot};
      }
    }

    method ResetRuleBucket(slot: Slot) returns (ok: bool)
      modifies this`cleared, this`touched, this`failures
      ensures touched == old(touched) + [slot]
      ensures failures == old(failures) + Count(!ok)
      ensures cleared == if ok then old(cleared) + {slot} else old(cleared)
    {
      touched := touched + [slot];
      ok := *;
      if ok {
        cleared := cleared + {slot};
      } else {
        failures := failures + 1;
      }
    }

    method SwapRuleTrie(v6: bool, entries: Trie, ghost now: int) returns (ok: bool)
      modifies this`trie4, this`trie6, this`leftAt, this`swaps, this`failures
      ensures failures == old(failures) + Count(!ok) && swaps == old(swaps) + Count(ok)
      ensures leftAt == if ok then LeftNow(old(leftAt), if v6 then old(trie6) else old(trie4), now) else old(leftAt)
      ensures trie4 == if ok && !v6 then entries else old(trie4)
      ensures trie6 == if ok && v6 then entries else old(trie6)
    {
      ok := *;
      if ok {
        leftAt, swaps := LeftNow(leftAt, if v6 then trie6 else trie4, now), swaps + 1;
        if v6 { trie6 := entries; } else { trie4 := entries; }
      } else {
        failures := failures + 1;
      }
    }
  }

  // ---- The slot loop of install, on the free slots it is given ----

  /** Writes the body of one new or changed rule to a slot off the free list; the
      tries wanted do not refer to it. */
  method PlaceRule(maps: RuleMaps, id: Bytes, r: Rule, slot: Slot, ghost clock: int, ghost st: Standing,
                   ghost slots: map<Bytes, Slot>, ghost next: map<Bytes, Rule>) returns (ok: bool)
    requires maps.Holds(st) && !InUse(InstalledSlots(st.installed), slot) && !InUse(slots, slot)
    requires !RefersTo(st.want4, slot) && !RefersTo(st.want6, slot)
    requires Placed(maps.bodies, maps.cleared, slots, next) && id !in slots && id in next && next[id] == r
    modifies maps`bodies, maps`cleared, maps`touched, maps`clobbers, maps`hazards, maps`failures
    ensures maps.Holds(st) && (!st.torn ==> maps.clobbers == old(maps.clobbers))
    ensures ok ==> Placed(maps.bodies, maps.cleared, slots[id := slot], next)
    ensures maps.failures == old(maps.failures) + Count(!ok)
    ensures maps.hazards == old(maps.hazards) + Count(RecentlyLeft(maps.leftAt, slot, clock))
    ensures OnlyTouches([slot], old(maps.bodies), old(maps.touched), maps.bodies, maps.touched)
  {
    ghost var bodies, cleared := maps.bodies, maps.cleared;
    ok := maps.PutRuleBody(slot, r.body, clock);
    if ok {
      ok := maps.ResetRuleBucket(slot);
    }
    KernelWritten(st, bodies, cleared, maps.trie4, maps.trie6, maps.bodies, maps.cleared, slot);
    if ok {
      PlacedMore(bodies, cleared, slots, next, maps.bodies, maps.cleared, id, slot);
    }
  }

  /** One turn of the slot loop: an unchanged rule keeps its slot, any other gets
      the last free one. */
  method AllocateOne(maps: RuleMaps, next: map<Bytes, Rule>, id: Bytes, installed: map<Bytes, InstalledRule>,
                     free: seq<Slot>, slots: map<Bytes, Slot>, taken: seq<Slot>,
                     ghost st: Standing, ghost retired: seq<RetiredSlot>, ghost given: seq<Slot>, ghost clock: int)
    returns (slots': map<Bytes, Slot>, taken': seq<Slot>, free': seq<Slot>, ok: bool)
    requires maps.Holds(st) && st.installed == installed && Lendable(given, retired, st) && Borrowed(free, taken, given)
    requires Progress(maps.bodies, maps.cleared, installed, next, slots, taken) && id in next && id !in slots
    modifies maps`bodies, maps`cleared, maps`touched, maps`clobbers, maps`hazards, maps`failures
    ensures maps.Holds(st) && Borrowed(free', taken', given) && (!st.torn ==> maps.clobbers == old(maps.clobbers))
    ensures ok ==> Progress(maps.bodies, maps.cleared, installed, next, slots', taken')
    ensures ok ==> slots'.Keys == slots.Keys + {id}
    ensures ok ==> |taken'| == |taken| + Count(id !in SameBodies(next, installed))
    ensures if ok then maps.failures == old(maps.failures) else maps.failures >= old(maps.failures)
    ensures !ok ==> maps.failures > old(maps.failures) || (|taken| == |given| && id !in SameBodies(next, installed))
    ensures maps.hazards == old(maps.hazards) + Hot(taken', maps.leftAt, clock) - Hot(taken, maps.leftAt, clock)
    ensures OnlyTouches(given, old(maps.bodies), old(maps.touched), maps.bodies, maps.touched)
  {
    slots', taken', free', ok := slots, taken, free, true;
    if id in installed && installed[id].body == next[id].body {
      ProgressKeep(maps.bodies, maps.cleared, installed, next, slots, taken, id);
      slots' := slots[id := installed[id].slot];
    } else if |free| == 0 {
      ok := false;
    } else {
      slots', taken', free', ok := AllocateFresh(maps, next, id, free, slots, taken, st, retired, given, clock);
    }
  }

  /** The last free slot goes to a new or changed rule. */
  method AllocateFresh(maps: RuleMaps, next: map<Bytes, Rule>, id: Bytes, free: seq<Slot>, slots: map<Bytes, Slot>,
                       taken: seq<Slot>, ghost st: Standing, ghost retired: seq<RetiredSlot>, ghost given: seq<Slot>,
                       ghost clock: int)
    returns (slots': map<Bytes, Slot>, taken': seq<Slot>, free': seq<Slot>, ok: bool)
    requires maps.Holds(st) && Lendable(given, retired, st) && Borrowed(free, taken, given) && free != []
    requires Progress(maps.bodies, maps.cleared, st.installed, next, slots, taken) && id in next && id !in slots
    requires id !in SameBodies(next, st.installed)
    modifies maps`bodies, maps`cleared, maps`touched, maps`clobbers, maps`hazards, maps`failures
    ensures maps.Holds(st) && Borrowed(free', taken', given) && (!st.torn ==> maps.clobbers == old(maps.clobbers))
    ensures ok ==> Progress(maps.bodies, maps.cleared, st.installed, next, slots', taken')
    ensures slots'.Keys == slots.Keys + {id} && |taken'| == |taken| + 1
    ensures maps.failures == old(maps.failures) + Count(!ok)
    ensures maps.hazards == old(maps.hazards) + Hot(taken', maps.leftAt, clock) - Hot(taken, maps.leftAt, clock)
    ensures OnlyTouches(given, old(maps.bodies), old(maps.touched), maps.bodies, maps.touched)
  {
    var slot := free[|free| - 1];
    FreshSlot(free, given, retired, slots, InstalledSlots(st.installed), taken, id);
    free', taken', slots' := free[..|free| - 1], taken + [slot], slots[id := slot];
    HotSnoc(taken, slot, maps.leftAt, clock);
    ok := PlaceRule(maps, id, next[id], slot, clock, st, slots, next);
    if ok {
      ProgressFresh(maps.bodies, maps.cleared, st.installed, next, slots, taken, id, slot);
    }
  }

  method AllocateNext(maps: RuleMaps, next: map<Bytes, Rule>, id: Bytes, installed: map<Bytes, InstalledRule>,
                      left: seq<Slot>, slots: map<Bytes, Slot>, taken: seq<Slot>, ghost st: Standing,
                      ghost retired: seq<RetiredSlot>, ghost given: seq<Slot>, ghost clock: int,
                      ghost todo: set<Bytes>, ghost k0: Kernel)
    returns (slots': map<Bytes, Slot>, taken': seq<Slot>, left': seq<Slot>, ok: bool)
    requires st.installed == installed && Lendable(given, retired, st) && id in todo
    requires SlotLoop(k0, maps.View(), st, next, given, clock, todo, slots, taken, left, true)
    modifies maps`bodies, maps`cleared, maps`touched, maps`clobbers, maps`hazards, maps`failures
    ensures SlotLoop(k0, maps.View(), st, next, given, clock, todo - {id}, slots', taken', left', ok)
  {
    slots', taken', left', ok := AllocateOne(maps, next, id, installed, left, slots, taken, st, retired, given, clock);
    TouchesMore(given, k0.bodies, k0.touched, old(maps.bodies), old(maps.touched), maps.bodies, maps.touched);
    ChangedStep(Changed(next, installed), todo, id);
    if ok {
      DealtStep(maps.bodies, maps.cleared, installed, next, todo, id, |taken|, slots', taken');
    }
  }

  /** The slot loop: it ends early when a kernel call fails or the free slots run
      out. */
  method AllocateAll(maps: RuleMaps, next: map<Bytes, Rule>, installed: map<Bytes, InstalledRule>, free: seq<Slot>,
                     ghost st: Standing, ghost retired: seq<RetiredSlot>, ghost clock: int)
    returns (slots: map<Bytes, Slot>, taken: seq<Slot>, left: seq<Slot>, ok: bool)
    requires maps.Holds(st) && st.installed == installed && Lendable(free, retired, st)
    modifies maps`bodies, maps`cleared, maps`touched, maps`clobbers, maps`hazards, maps`failures
    ensures SlotLoop(old(maps.View()), maps.View(), st, next, free, clock, {}, slots, taken, left, ok)
  {
    slots, taken, left, ok := map[], [], free, true;
    ghost var k0 := maps.View();
    var todo := next.Keys;
    DealtNone(maps.bodies, maps.cleared, installed, next);
    while todo != {} && ok
      invariant SlotLoop(k0, maps.View(), st, next, free, clock, todo, slots, taken, left, ok)
      decreases todo
    {
      var id :| id in todo;
      slots, taken, left, ok := AllocateNext(maps, next, id, installed, left, slots, taken,
                                             st, retired, free, clock, todo, k0);
      todo := todo - {id};
    }
  }

  method Allocate(maps: RuleMaps, next: map<Bytes, Rule>, installed: map<Bytes, InstalledRule>, free: seq<Slot>,
                  ghost st: Standing, ghost retired: seq<RetiredSlot>, ghost clock: int)
    returns (slots: map<Bytes, Slot>, taken: seq<Slot>, left: seq<Slot>, ok: bool)
    requires maps.Holds(st) && st.installed == installed && Lendable(free, retired, st)
    modifies maps`bodies, maps`cleared, maps`touched, maps`clobbers, maps`hazards, maps`failures
    ensures maps.Holds(st) && Borrowed(left, taken, free)
    ensures SameTries(old(maps.View()), maps.View()) == true
    ensures Spared(st.torn, AllCalm(free, maps.leftAt, clock), free, old(maps.View()), maps.View()) == true
    ensures ok ==> Chosen(maps.bodies, maps.cleared, installed, next, slots, taken)
    ensures ok ==> |taken| == |Changed(next, installed)|
    ensures ok <==> maps.failures == old(maps.failures) && |Changed(next, installed)| <= |free|
    ensures maps.failures >= old(maps.failures)
  {
    slots, taken, left, ok := AllocateAll(maps, next, installed, free, st, retired, clock);
    if ok {
      DealtAll(maps.bodies, maps.cleared, installed, next, slots, taken);
    }
    if AllCalm(free, maps.leftAt, clock) {
      NoneHot(left, taken, free, maps.leftAt, clock);
    }
  }

  /** The loop of commit: the slots of rules that are gone or have moved. */
  method CollectDropped(installed: map<Bytes, InstalledRule>, slots: map<Bytes, Slot>, ghost taken: seq<Slot>)
    returns (dropped: seq<Slot>)
    requires Injective(InstalledSlots(installed)) && Assigned(slots, InstalledSlots(installed), taken)
    ensures Dropped(dropped, InstalledSlots(installed), slots)
  {
    ghost var was := InstalledSlots(installed);
    dropped := [];
    var todo := installed.Keys;
    MinusAll(was);
    while todo != {}
      invariant todo <= installed.Keys && Dropped(dropped, was - todo, slots)
      decreases todo
    {
      var id :| id in todo;
      DropTest(slots, was, taken, id);
      DropOne(dropped, was - todo, slots, id, was[id]);
      MinusStep(was, todo, id);
      todo := todo - {id};
      if id !in slots || slots[id] != installed[id].slot {
        dropped := dropped + [installed[id].slot];
      }
    }
    MinusNone(was);
  }

  class RuleEngine {
    const maps: RuleMaps
    var rules: map<Bytes, Rule>
    var installed: map<Bytes, InstalledRule>
    var free: seq<Slot>
    var retired: seq<RetiredSlot>
    var activeV4: nat
    var activeV6: nat

    /** The latest time seen, and when each slot was last retired. */
    ghost var clock: int
    ghost var retiredAt: map<Slot, int>
    /** The live IPv4 trie is not the one wanted: an IPv6 swap and the IPv4 restore
        after it both failed, and neither a restore nor an install has succeeded
        since. */
    ghost var torn: bool
    /** What the live tries should be. */
    ghost var want4: Trie
    ghost var want6: Trie

    ghost predicate BooksOk()
      reads this`rules, this`installed, this`activeV4, this`activeV6, this`want4, this`want6
    {
      Books(rules, installed, activeV4, activeV6, want4, want6)
    }

    ghost predicate SlotsOk()
      reads this`free, this`retired, this`installed, this`retiredAt, this`clock
    {
      SlotBooks(free, retired, installed, retiredAt, clock)
    }

    ghost function State(): Engine
      reads this`rules, this`installed, this`free, this`clock, this`retiredAt, this`torn
    {
      Engine(rules, installed, free, clock, retiredAt, torn)
    }

    /** The same, once the slots past their grace are released. */
    ghost function Rested(now: int): Engine
      reads this`rules, this`installed, this`free, this`retired, this`clock, this`retiredAt, this`torn
    {
      Engine(rules, installed, free + Released(retired, now), if now > clock then now else clock, retiredAt, torn)
    }

    ghost function Stands(): Standing
      reads this`installed, this`want4, this`want6, this`torn, this`retiredAt
    {
      Standing(installed, want4, want6, torn, retiredAt)
    }

    /** No reader of an earlier trie can be at a slot that is or becomes free. */
    ghost predicate Calm()
      reads this`free, this`retired, this`clock, maps`leftAt
    {
      CalmBooks(free, retired, maps.leftAt, clock)
    }

    ghost predicate Valid()
      reads this, maps
    {
      BooksOk() && SlotsOk() && maps.Holds(Stands())
    }

    /** newRuleEngine, over a kernel that holds no rules yet. */
    constructor (m: RuleMaps)
      requires m.trie4 == map[] && m.trie6 == map[] && m.leftAt == map[]
      ensures Valid() && Calm() && maps == m && rules == map[] && !torn
    {
      maps, rules, installed, retired, activeV4, activeV6 := m, map[], map[], [], 0, 0;
      clock, retiredAt, torn, want4, want6 := 0, map[], false, map[], map[];
      var all := AllSlots();
      free := all;
      new;
      NothingFlattened();
      assert rules.Values == {} && InstalledSlots(installed) == map[];
    }

    method ReleaseRetired(now: int)
      requires SlotsOk()
      modifies this`free, this`retired, this`clock
      ensures SlotsOk() && clock >= now && clock >= old(clock)
      ensures free == old(free) + Released(old(retired), now) && retired == Kept(old(retired), now)
      ensures clock == if now > old(clock) then now else old(clock)
    {
      ReleaseConserves(free, retired, InstalledSlots(installed), now);
      ReleaseRespectsGrace(retired, now, retiredAt);
      free, retired := SplitRetired(free, retired, now);
      clock := if now > clock then now else clock;
    }

    /** commit, the slots: rules that are gone or moved retire theirs. */
    method CommitSlots(next: map<Bytes, Rule>, slots: map<Bytes, Slot>, now: int, ghost taken: seq<Slot>,
                       ghost given: seq<Slot>) returns (ghost gone: seq<Slot>)
      requires SlotBooks(given, retired, installed, retiredAt, clock) && Borrowed(free, taken, given)
      requires slots.Keys == next.Keys && Assigned(slots, InstalledSlots(installed), taken)
      modifies this`installed, this`retired, this`retiredAt
      ensures SlotsOk() && Same(installed, Seated(next, slots)) && Same(retiredAt, DateAll(old(retiredAt), gone, now))
      ensures Dropped(gone, InstalledSlots(old(installed)), slots)
      ensures clock == now && old(CalmBooks(given, retired, maps.leftAt, now)) ==> Calm()
    {
      var dropped := CollectDropped(installed, slots, taken);
      SlotsCommitted(free, taken, given, retired, installed, retiredAt, clock, now, next, slots, dropped);
      if CalmBooks(given, retired, maps.leftAt, now) {
        RetireCalm(free, given, retired, dropped, maps.leftAt, now);
      }
      gone := dropped;
      installed := Seated(next, slots);
      retired := retired + RetireAll(dropped, now);
      retiredAt := DateAll(retiredAt, dropped, now);
    }

    /** commit, the rules and their counts. */
    method CommitRules(next: map<Bytes, Rule>)
      requires Keyed(next) && CapacityOk(next.Values) && installed.Keys == next.Keys
      requires forall id :: id in next ==> installed[id].body == next[id].body
      modifies this`rules, this`activeV4, this`activeV6, this`want4, this`want6, this`torn
      ensures BooksOk() && Same(rules, next) && !torn
    {
      var n4, n6 := CountFamilies(next);
      ghost var w4 := TrieOf(Family(next.Values, true), InstalledSlots(installed));
      ghost var w6 := TrieOf(Family(next.Values, false), InstalledSlots(installed));
      ghost var in0 := installed;
      assert Books(next, in0, n4, n6, w4, w6);
      rules, activeV4, activeV6, want4, want6, torn := next, n4, n6, w4, w6, false;
      assert rules == next && installed == in0 && want4 == w4 && want6 == w6;
    }

    method Commit(next: map<Bytes, Rule>, slots: map<Bytes, Slot>, now: int, ghost taken: seq<Slot>,
                  ghost given: seq<Slot>) returns (ghost gone: seq<Slot>)
      requires ReadyFor(next, slots, taken, given) && Committable(next, slots)
      modifies this`installed, this`retired, this`retiredAt
      modifies this`rules, this`activeV4, this`activeV6, this`want4, this`want6, this`torn
      ensures Valid() && Same(rules, next) && Same(installed, Seated(next, slots)) && !torn
      ensures Same(retiredAt, DateAll(old(retiredAt), gone, now))
      ensures Dropped(gone, InstalledSlots(old(installed)), slots)
      ensures clock == now && old(CalmBooks(given, retired, maps.leftAt, now)) ==> Calm()
    {
      KernelCommitted(next, slots, maps.bodies, maps.cleared, maps.trie4, maps.trie6);
      gone := CommitSlots(next, slots, now, taken, given);
      CommitRules(next);
      assert Same(Stands(), Standing(Seated(next, slots), maps.trie4, maps.trie6, false, retiredAt));
    }

    /** install: makes `next` the active rule set, exactly when it fits, slots
        suffice and no kernel call fails. On error the rules and their slots stay
        as they are; both tries do too, unless the IPv6 swap and the restore of the
        IPv4 trie failed together (`torn`). Nothing is written but to slots that
        were free or past their grace, and just the slots `gone` are retired, from
        `now` on. Body writes spare the slots of live tries as long as the IPv4 trie
        is not left behind, and from a calm state the slots of every trie live within
        the grace period. The state stays calm but for one exit: a restore frees the
        slots of new and changed IPv4 rules that were live for a moment. */
    method Install(next: map<Bytes, Rule>, now: int) returns (ok: bool, ghost gone: seq<Slot>)
      requires Valid() && Keyed(next)
      modifies this, maps
      ensures Valid()
      ensures Installs(old(Rested(now)), old(maps.View()), old(Rested(now)).free, State(), maps.View(), old(want4),
                       next, now, |Changed(next, old(installed))|, gone, old(Calm() && clock <= now), Calm(), ok)
              == true
      ensures torn && !old(torn) ==> maps.swaps == old(maps.swaps) + 1 && maps.failures == old(maps.failures) + 2
    {
      Release(now);
      ok, gone := InstallReleased(next, now, |Changed(next, installed)|, old(Calm() && clock <= now));
    }

    method Release(now: int)
      requires Valid()
      modifies this`free, this`retired, this`clock
      ensures Valid() && (old(Calm()) ==> Calm())
      ensures Same(State(), old(Rested(now))) && retired == Kept(old(retired), now)
    {
      if Calm() {
        ReleaseCalm(free, retired, maps.leftAt, clock, now);
      }
      ReleaseRetired(now);
    }

    /** install, once the slots past their grace are released. */
    method InstallReleased(next: map<Bytes, Rule>, now: int, ghost need: nat, ghost calm0: bool)
      returns (ok: bool, ghost gone: seq<Slot>)
      requires Valid() && Keyed(next) && need == |Changed(next, installed)| && (calm0 ==> Calm() && clock == now)
      modifies this, maps
      ensures Valid()
      ensures Installs(old(State()), old(maps.View()), old(free), State(), maps.View(), old(want4), next, now, need,
                       gone, calm0, Calm(), ok) == true
    {
      var entries4, entries6;
      ok, entries4, entries6 := Layout(next);
      if ok {
        ok, gone := InstallEntries(next, now, entries4, entries6, need, calm0);
      } else {
        gone := [];
        LiveTraced(now);
        NothingOutcome(State(), retired, maps.trie4, next, now);
        EndsEarly(State(), maps.View(), free, State(), maps.View(), want4, next, now, need, calm0, Calm());
      }
    }

    method InstallEntries(next: map<Bytes, Rule>, now: int, entries4: map<Prefix, seq<Rule>>,
                          entries6: map<Prefix, seq<Rule>>, ghost need: nat, ghost calm0: bool)
      returns (ok: bool, ghost gone: seq<Slot>)
      requires Valid() && Keyed(next) && CapacityOk(next.Values)
      requires entries4 == Flattened(Family(next.Values, true)) && entries6 == Flattened(Family(next.Values, false))
      requires need == |Changed(next, installed)| && (calm0 ==> Calm() && clock == now)
      modifies this, maps
      ensures Valid()
      ensures Installs(old(State()), old(maps.View()), old(free), State(), maps.View(), old(want4), next, now, need,
                       gone, calm0, Calm(), ok) == true
    {
      ghost var e0, k0, given := State(), maps.View(), free;
      var slots, taken;
      slots, taken, ok := Prepare(next, now, need);
      if ok {
        ok, gone := Proceed(next, slots, taken, now, entries4, entries6, e0, k0, given, need, calm0);
      } else {
        gone := [];
        EndsEarly(e0, k0, given, State(), maps.View(), want4, next, now, need, calm0, Calm());
      }
    }

    /** install after the slot loop. */
    method Proceed(next: map<Bytes, Rule>, slots: map<Bytes, Slot>, taken: seq<Slot>, now: int,
                   entries4: map<Prefix, seq<Rule>>, entries6: map<Prefix, seq<Rule>>, ghost e0: Engine,
                   ghost k0: Kernel, ghost given: seq<Slot>, ghost need: nat, ghost calm0: bool)
      returns (ok: bool, ghost gone: seq<Slot>)
      requires BooksOk() && maps.Holds(Stands()) && ReadyFor(next, slots, taken, given)
      requires calm0 ==> CalmBooks(given, retired, maps.leftAt, now) && clock == now
      requires entries4 == Flattened(Family(next.Values, true)) && entries6 == Flattened(Family(next.Values, false))
      requires SameButFree(e0, State()) == true && SameTries(k0, maps.View()) == true
      requires maps.failures == k0.failures && |taken| == need
      requires Spared(e0.torn, AllCalm(given, k0.leftAt, e0.clock), given, k0, maps.View()) == true
      modifies this, maps`trie4, maps`trie6, maps`leftAt, maps`swaps, maps`failures
      ensures Valid()
      ensures Installs(e0, k0, given, State(), maps.View(), old(want4), next, now, need, gone, calm0, Calm(), ok)
              == true
    {
      ghost var e1, k1, want0 := State(), maps.View(), want4;
      ok, gone := SwapIn(next, slots, taken, now, entries4, entries6, given, calm0);
      ThenSwaps(e0, k0, given, e1, k1, State(), maps.View(), want0, next, now, need, gone, calm0, Calm(), ok);
    }

    /** Slots and bodies for `next`; or nothing, and every slot taken is back. */
    method Prepare(next: map<Bytes, Rule>, ghost now: int, ghost need: nat)
      returns (slots: map<Bytes, Slot>, taken: seq<Slot>, ok: bool)
      requires Valid() && Keyed(next) && CapacityOk(next.Values) && need == |Changed(next, installed)|
      modifies this`free, maps`bodies, maps`cleared, maps`touched, maps`clobbers, maps`hazards, maps`failures
      ensures BooksOk() && maps.Holds(Stands())
      ensures SameButFree(old(State()), State()) == true && SameTries(old(maps.View()), maps.View()) == true
      ensures Spared(torn, old(AllCalm(free, maps.leftAt, clock)), old(free), old(maps.View()), maps.View()) == true
      ensures if ok then ReadyFor(next, slots, taken, old(free))
              else SlotsOk() && Outcome(old(State()), old(free), State(), maps.trie4, next, now, [], false) == true
      ensures ok ==> |taken| == need
      ensures ok <==> maps.failures == old(maps.failures) && need <= |old(free)|
      ensures old(Calm()) && !ok ==> Calm()
    {
      ghost var e0, given := State(), free;
      slots, taken, ok := TakeSlots(next, need);
      if !ok {
        TakeBack(next, taken, now, e0, given);
      }
    }

    /** The slot loop on the free slots. */
    method TakeSlots(next: map<Bytes, Rule>, ghost need: nat)
      returns (slots: map<Bytes, Slot>, taken: seq<Slot>, ok: bool)
      requires Valid() && need == |Changed(next, installed)|
      modifies this`free, maps`bodies, maps`cleared, maps`touched, maps`clobbers, maps`hazards, maps`failures
      ensures BooksOk() && maps.Holds(Stands()) && Borrowed(free, taken, old(free))
      ensures SameButFree(old(State()), State()) == true && SameTries(old(maps.View()), maps.View()) == true
      ensures Spared(torn, old(AllCalm(free, maps.leftAt, clock)), old(free), old(maps.View()), maps.View()) == true
      ensures ok ==> Chosen(maps.bodies, maps.cleared, installed, next, slots, taken) == true && |taken| == need
      ensures ok <==> maps.failures == old(maps.failures) && need <= |old(free)|
    {
      ghost var e0 := State();
      FreeNotReferred(free, retired, rules, installed);
      slots, taken, free, ok := Allocate(maps, next, installed, free, Stands(), retired, clock);
      assert Same(State(), Engine(e0.rules, e0.installed, free, e0.clock, e0.retiredAt, e0.torn));
    }

    /** The slots taken are free again, before any swap. */
    method TakeBack(ghost next: map<Bytes, Rule>, taken: seq<Slot>, ghost now: int, ghost e0: Engine,
                    ghost given: seq<Slot>)
      requires BooksOk() && maps.Holds(Stands()) && SameButFree(e0, State())
      requires SlotBooks(given, retired, installed, retiredAt, clock) && Borrowed(free, taken, given)
      modifies this`free
      ensures SlotsOk() && Outcome(e0, given, State(), maps.trie4, next, now, [], false) == true
      ensures CalmBooks(given, retired, maps.leftAt, clock) ==> Calm()
    {
      ghost var left := free;
      PutBack(taken, given);
      LiveTraced(now);
      RollbackOutcome(e0, left, given, taken, retired, torn, maps.trie4, next, now);
    }

    /** The two swaps of install, and the restore between them. */
    method SwapBoth(trie4: Trie, trie6: Trie, ghost now: int) returns (ok: bool, restored: bool)
      requires BooksOk()
      modifies maps`trie4, maps`trie6, maps`leftAt, maps`swaps, maps`failures
      ensures Swapped(old(maps.View()), maps.View(), trie4, trie6, want4, now, ok, restored)
    {
      ok := maps.SwapRuleTrie(false, trie4, now);
      if !ok {
        return false, true;
      }
      ok := maps.SwapRuleTrie(true, trie6, now);
      restored := true;
      if !ok {
        var previous := PreviousTrie();
        restored := maps.SwapRuleTrie(false, previous, now);
      }
    }

    /** The same, with what it means for readers: all stays calm, unless a new or
        changed IPv4 rule was live for a moment, whose slot has then just been left. */
    method SwapCalmly(ghost next: map<Bytes, Rule>, ghost taken: seq<Slot>, trie4: Trie, trie6: Trie, ghost now: int,
                      ghost given: seq<Slot>, ghost calm0: bool) returns (ok: bool, restored: bool)
      requires BooksOk() && maps.Holds(Stands()) && Conserved(given, retired, InstalledSlots(installed))
      requires Touched(trie4, next, installed, taken) && (calm0 ==> CalmBooks(given, retired, maps.leftAt, now))
      modifies maps`trie4, maps`trie6, maps`leftAt, maps`swaps, maps`failures
      ensures Swapped(old(maps.View()), maps.View(), trie4, trie6, want4, now, ok, restored)
      ensures Exposure(calm0, torn, next, installed, old(maps.swaps), maps.swaps,
                       ok, restored, CalmBooks(given, retired, maps.leftAt, now), AllCalm(taken, maps.leftAt, now))
    {
      ghost var k0, st := maps.View(), Stands();
      ok, restored := SwapBoth(trie4, trie6, now);
      SwapReaders(k0, maps.View(), st, rules, given, retired, next, taken, trie4, trie6, now, ok, restored);
    }

    ghost predicate ReadyFor(next: map<Bytes, Rule>, slots: map<Bytes, Slot>, taken: seq<Slot>, given: seq<Slot>)
      reads this`free, this`retired, this`installed, this`retiredAt, this`clock, maps`bodies, maps`cleared
    {
      Ready(next, slots, taken, free, given, retired, installed, retiredAt, clock, maps.bodies, maps.cleared)
    }

    /** install from the swaps on. */
    method SwapIn(next: map<Bytes, Rule>, slots: map<Bytes, Slot>, taken: seq<Slot>, now: int,
                  entries4: map<Prefix, seq<Rule>>, entries6: map<Prefix, seq<Rule>>, ghost given: seq<Slot>,
                  ghost calm0: bool)
      returns (ok: bool, ghost gone: seq<Slot>)
      requires BooksOk() && maps.Holds(Stands()) && ReadyFor(next, slots, taken, given)
      requires calm0 ==> CalmBooks(given, retired, maps.leftAt, now) && clock == now
      requires entries4 == Flattened(Family(next.Values, true)) && entries6 == Flattened(Family(next.Values, false))
      modifies this, maps`trie4, maps`trie6, maps`leftAt, maps`swaps, maps`failures
      ensures Valid()
      ensures Installs(old(State()), old(maps.View()), given, State(), maps.View(), old(want4), next, now, |taken|,
                       gone, calm0, Calm(), ok) == true
    {
      var trie4 := SlotTrie(entries4, slots, Family(next.Values, true));
      var trie6 := SlotTrie(entries6, slots, Family(next.Values, false));
      NewTrieTouches(maps.bodies, maps.cleared, installed, next, slots, taken);
      ok, gone := SwapAndCommit(next, slots, taken, now, trie4, trie6, given, calm0);
    }

    method SwapAndCommit(next: map<Bytes, Rule>, slots: map<Bytes, Slot>, taken: seq<Slot>, now: int,
                         trie4: Trie, trie6: Trie, ghost given: seq<Slot>, ghost calm0: bool)
      returns (ok: bool, ghost gone: seq<Slot>)
      requires BooksOk() && maps.Holds(Stands()) && ReadyFor(next, slots, taken, given)
      requires calm0 ==> CalmBooks(given, retired, maps.leftAt, now) && clock == now
      requires trie4 == TrieOf(Family(next.Values, true), slots) && trie6 == TrieOf(Family(next.Values, false), slots)
      requires Touched(trie4, next, installed, taken)
      modifies this, maps`trie4, maps`trie6, maps`leftAt, maps`swaps, maps`failures
      ensures Valid()
      ensures Installs(old(State()), old(maps.View()), given, State(), maps.View(), old(want4), next, now, |taken|,
                       gone, calm0, Calm(), ok) == true
    {
      ghost var k0 := maps.View();
      var restored;
      ok, restored := SwapCalmly(next, taken, trie4, trie6, now, given, calm0);
      gone := Finish(ok, restored, next, slots, taken, now, trie4, trie6, k0, given, calm0);
    }

    method Finish(ok: bool, restored: bool, next: map<Bytes, Rule>, slots: map<Bytes, Slot>, taken: seq<Slot>, now: int,
                  ghost trie4: Trie, ghost trie6: Trie, ghost k0: Kernel, ghost given: seq<Slot>, ghost calm0: bool)
      returns (ghost gone: seq<Slot>)
      requires BooksOk() && ReadyFor(next, slots, taken, given) && (calm0 ==> clock == now)
      requires if ok then Committable(next, slots) else Failed(restored, next, slots, k0.trie4)
      requires Swapped(k0, maps.View(), trie4, trie6, want4, now, ok, restored)
      requires Exposure(calm0, torn, next, installed, k0.swaps, maps.swaps, ok, restored,
                        CalmBooks(given, retired, maps.leftAt, now), AllCalm(taken, maps.leftAt, now))
      modifies this
      ensures Valid()
      ensures Installs(old(State()), k0, given, State(), maps.View(), old(want4), next, now, |taken|,
                       gone, calm0, Calm(), ok) == true
    {
      ghost var e0, k, want0 := State(), maps.View(), want4;
      ghost var calm1, takenCalm := CalmBooks(given, retired, maps.leftAt, now), AllCalm(taken, maps.leftAt, now);
      gone := Conclude(ok, restored, next, slots, taken, now, k0.trie4, given);
      SwapsInstall(e0, k0, given, State(), k, trie4, trie6, want0, next, now, taken, restored, gone,
                   calm0, calm1, takenCalm, Calm(), ok);
    }

    /** install after the swaps. */
    method Conclude(ok: bool, restored: bool, next: map<Bytes, Rule>, slots: map<Bytes, Slot>, taken: seq<Slot>,
                    now: int, ghost before: Trie, ghost given: seq<Slot>) returns (ghost gone: seq<Slot>)
      requires BooksOk() && ReadyFor(next, slots, taken, given)
      requires if ok then Committable(next, slots) else Failed(restored, next, slots, before)
      modifies this
      ensures Valid()
      ensures Outcome(old(State()), given, State(), maps.trie4, next, now, gone, ok) == true
      ensures (!ok ==> gone == if restored then [] else taken) && (restored && torn ==> ok || old(torn))
      ensures old(clock == now && CalmBooks(given, retired, maps.leftAt, now)) ==> Calm()
      ensures old(clock == now) && !ok && restored && !AllCalm(taken, maps.leftAt, now) ==> !Calm()
    {
      ghost var e0, was := State(), retired;
      if ok {
        gone := Commit(next, slots, now, taken, given);
        CommitOutcome(e0, e0.free, given, taken, was, slots, gone, maps.trie4, next, now);
      } else {
        gone := if restored then [] else taken;
        GiveUp(restored, next, slots, taken, now, before, given);
      }
    }

    /** The exits of install after a failed swap. */
    method GiveUp(restored: bool, next: map<Bytes, Rule>, slots: map<Bytes, Slot>, taken: seq<Slot>, now: int,
                  ghost before: Trie, ghost given: seq<Slot>)
      requires BooksOk() && ReadyFor(next, slots, taken, given) && Failed(restored, next, slots, before)
      modifies this`free, this`retired, this`retiredAt, this`torn
      ensures Valid()
      ensures Outcome(old(State()), given, State(), maps.trie4, next, now, if restored then [] else taken, false)
              == true
      ensures restored && torn ==> old(torn)
      ensures old(clock == now && CalmBooks(given, retired, maps.leftAt, now)) ==> Calm()
      ensures old(clock == now) && restored && !AllCalm(taken, maps.leftAt, now) ==> !Calm()
    {
      ghost var e0, was := State(), retired;
      if restored {
        Retreat(taken, now, before, given);
        RollbackOutcome(e0, e0.free, given, taken, was, torn, maps.trie4, next, now);
        assert Same(State(), Engine(e0.rules, e0.installed, e0.free + taken, e0.clock, e0.retiredAt, torn));
      } else {
        LeaveBehind(next, slots, taken, now, before, given);
        LeftOutcome(e0, e0.free, given, taken, was, torn, maps.trie4, next, now);
        assert Same(State(), Engine(e0.rules, e0.installed, e0.free, e0.clock, DateAll(e0.retiredAt, taken, now),
                                    torn));
      }
    }

    /** Both new tries are live. */
    ghost predicate Committable(next: map<Bytes, Rule>, slots: map<Bytes, Slot>)
      reads maps`trie4, maps`trie6
    {
      && maps.trie4 == TrieOf(Family(next.Values, true), slots)
      && maps.trie6 == TrieOf(Family(next.Values, false), slots)
    }

    /** The IPv4 trie is the one before or wanted, or the new one left behind. */
    ghost predicate Failed(restored: bool, next: map<Bytes, Rule>, slots: map<Bytes, Slot>, before: Trie)
      reads this, maps
    {
      && InKernel(Stands(), maps.bodies, maps.cleared, before, maps.trie6)
      && (if restored then maps.trie4 == before || maps.trie4 == want4
          else maps.trie4 == TrieOf(Family(next.Values, true), slots))
    }

    /** The IPv4 trie of the active rules, built again. */
    method PreviousTrie() returns (trie: Trie)
      requires BooksOk()
      ensures trie == want4
    {
      var old4, _ := SplitFamilies(rules);
      var prev := Flatten(old4);
      trie := SlotEntries(prev.value, InstalledSlots(installed));
    }

    /** After a failed swap that left or restored the IPv4 trie: the fresh slots
        are free again. */
    method Retreat(taken: seq<Slot>, now: int, ghost before: Trie, ghost given: seq<Slot>)
      requires BooksOk() && SlotBooks(given, retired, installed, retiredAt, clock) && Borrowed(free, taken, given)
      requires InKernel(Stands(), maps.bodies, maps.cleared, before, maps.trie6)
      requires maps.trie4 == before || maps.trie4 == want4
      modifies this`free, this`torn
      ensures old(CalmBooks(given, retired, maps.leftAt, clock)) ==> Calm()
      ensures !AllCalm(taken, maps.leftAt, clock) ==> !Calm()
      ensures Valid() && free == old(free) + taken && (torn ==> old(torn))
      ensures !torn ==> TracedNow(maps.trie4, installed, retiredAt, now)
    {
      PutBack(taken, given);
      Settle(now, before);
    }

    /** The IPv4 trie is as before or the one wanted: note which. */
    ghost method Settle(now: int, before: Trie)
      requires BooksOk() && InKernel(Stands(), maps.bodies, maps.cleared, before, maps.trie6)
      requires maps.trie4 == before || maps.trie4 == want4
      modifies this`torn
      ensures maps.Holds(Stands()) && (torn ==> old(torn))
      ensures !torn ==> TracedNow(maps.trie4, installed, retiredAt, now)
    {
      KernelKept(Stands(), rules, maps.bodies, maps.cleared, before, maps.trie4, maps.trie6, now);
      torn := maps.trie4 != want4;
    }

    method PutBack(taken: seq<Slot>, ghost given: seq<Slot>)
      requires SlotBooks(given, retired, installed, retiredAt, clock) && Borrowed(free, taken, given)
      modifies this`free
      ensures SlotsOk() && free == old(free) + taken
      ensures CalmBooks(given, retired, maps.leftAt, clock) ==> Calm()
      ensures !AllCalm(taken, maps.leftAt, clock) ==> !Calm()
    {
      RolledBack(free, taken, given, retired, installed, retiredAt, clock);
      if CalmBooks(given, retired, maps.leftAt, clock) {
        FewerCalm(free + taken, given, retired, maps.leftAt, clock);
      }
      free := free + taken;
    }

    /** After a failed restore: the IPv4 trie is left behind, and the fresh slots
        are retired because it refers to them. */
    method LeaveBehind(next: map<Bytes, Rule>, slots: map<Bytes, Slot>, taken: seq<Slot>, now: int,
                       ghost before: Trie, ghost given: seq<Slot>)
      requires BooksOk() && ReadyFor(next, slots, taken, given)
      requires InKernel(Stands(), maps.bodies, maps.cleared, before, maps.trie6)
      requires maps.trie4 == TrieOf(Family(next.Values, true), slots)
      modifies this`retired, this`retiredAt, this`torn
      ensures clock == now && old(CalmBooks(given, retired, maps.leftAt, now)) ==> Calm()
      ensures Valid() && Same(retiredAt, DateAll(old(retiredAt), taken, now))
      ensures TracedNow(maps.trie4, installed, retiredAt, now)
    {
      ghost var st := Stands();
      KernelTorn(st, next, slots, taken, maps.bodies, maps.cleared, before, maps.trie4, maps.trie6, now);
      RetireTaken(taken, now, given);
      NoteTorn(st.(retiredAt := DateAll(st.retiredAt, taken, now)));
    }

    ghost method NoteTorn(st: Standing)
      requires maps.Holds(st.(torn := maps.trie4 != st.want4)) && Same(Stands(), st)
      modifies this`torn
      ensures maps.Holds(Stands())
    {
      torn := maps.trie4 != want4;
      assert Same(Stands(), st.(torn := torn));
    }

    method RetireTaken(taken: seq<Slot>, now: int, ghost given: seq<Slot>)
      requires SlotBooks(given, retired, installed, retiredAt, clock) && Borrowed(free, taken, given)
      modifies this`retired, this`retiredAt
      ensures SlotsOk() && Same(retiredAt, DateAll(old(retiredAt), taken, now))
      ensures clock == now && old(CalmBooks(given, retired, maps.leftAt, now)) ==> Calm()
    {
      TakenRetired(free, taken, given, retired, installed, retiredAt, clock, now);
      if CalmBooks(given, retired, maps.leftAt, now) {
        RetireCalm(free, given, retired, taken, maps.leftAt, now);
      }
      retired := retired + RetireAll(taken, now);
      retiredAt := DateAll(retiredAt, taken, now);
    }

    /** The live IPv4 trie, if not left behind, refers to installed slots only. */
    lemma LiveTraced(now: int)
      requires BooksOk() && maps.Holds(Stands())
      ensures !torn ==> TracedNow(maps.trie4, installed, retiredAt, now)
    {
      KernelKept(Stands(), rules, maps.bodies, maps.cleared, maps.trie4, maps.trie4, maps.trie6, now);
    }

    /** A free slot that a live trie refers to can only be one the IPv4 trie left
        behind refers to, and its grace is over. */
    lemma FreeSlotsAreSafe(s: Slot)
      requires Valid() && s in free && (RefersTo(maps.trie4, s) || RefersTo(maps.trie6, s))
      ensures torn && s in retiredAt && clock - retiredAt[s] >= SLOT_GRACE
    {
      FreeNotReferred(free, retired, rules, installed);
      CountMember(free, s);
      assert Holders(free, retired, InstalledSlots(installed), s) == Count(s < RULE_SLOTS);
    }

    lemma FamilyBodies(v4: bool)
      requires BooksOk() && maps.Holds(Stands())
      ensures BodiesInPlace(Family(rules.Values, v4), InstalledSlots(installed), maps.bodies)
    {
      forall r | r in Family(rules.Values, v4)
        ensures r.id in installed && installed[r.id].slot in maps.bodies && maps.bodies[installed[r.id].slot] == r.body
      {
        var id :| id in rules && rules[id] == r;
      }
    }

    /** The kernel does with a packet what the active rules say. */
    ghost predicate Obeys(p: Packet)
      reads this, maps
    {
      match MatchRules(if p.v4 then maps.trie4 else maps.trie6, maps.bodies, p)
      case NoRule => forall r :: r in rules.Values ==> !Applies(r, p)
      case Hit(slot) => exists r :: Decides(r, rules.Values, p) && r.id in installed && installed[r.id].slot == slot
    }

    /** In every reachable state, IPv4 left behind aside, what the kernel does with a
        packet is what the active rules say: it acts on the first matching rule,
        in (priority, id) order, and on none exactly when none applies. */
    lemma LiveVerdict(p: Packet)
      requires Valid() && (p.v4 ==> !torn)
      ensures Obeys(p)
    {
      var family := Family(rules.Values, p.v4);
      var slots := InstalledSlots(installed);
      FamilyBodies(p.v4);
      KernelDecides(family, slots, maps.bodies, p);
      assert forall r :: r in rules.Values && Applies(r, p) ==> r in family;
      var verdict := MatchRules(TrieOf(family, slots), maps.bodies, p);
      if verdict.Hit? {
        var r :| Decides(r, family, p) && slots[r.id] == verdict.slot;
        assert Decides(r, rules.Values, p);
      }
    }

    /** Apply: all of the delta or, on any error, none of it. A delta with a bad or
        repeated rule changes nothing at all. */
    method Apply(delta: Delta, now: int) returns (res: Result<ApplyResult>, ghost gone: seq<Slot>)
      requires Valid()
      modifies this, maps
      ensures Valid()
      ensures match Target(old(rules), delta, now)
              case Err => res.Err? && unchanged(this) && unchanged(maps)
              case Ok(next) =>
                Installs(old(Rested(now)), old(maps.View()), old(Rested(now)).free, State(), maps.View(), old(want4),
                         next, now, |Changed(next, old(installed))|, gone, old(Calm() && clock <= now), Calm(),
                         res.Ok?) == true
      ensures var target := Target(old(rules), delta, now);
              res.Ok? <==> && target.Ok? && CapacityOk(target.value.Values)
                           && HasRoom(target.value, old(installed), old(free), old(retired), now)
                           && maps.failures == old(maps.failures)
      ensures torn && !old(torn) ==> maps.swaps == old(maps.swaps) + 1 && maps.failures == old(maps.failures) + 2
      ensures res.Ok? ==> Same(Target(old(rules), delta, now), Ok(rules)) && !torn
      ensures res.Ok? ==> res.value == ApplyResult(|delta.upsert|, RemovedCount(old(rules), delta, rules),
                                                   |Family(rules.Values, true)|, |Family(rules.Values, false)|)
      ensures res.Err? ==> Same(rules, old(rules)) && Same(installed, old(installed))
    {
      res, gone := Err, [];
      var next, removed := Resolve(rules, delta, now);
      if next.Ok? {
        res, gone := ApplyNext(next.value, |delta.upsert|, removed, now);
      }
    }

    method ApplyNext(next: map<Bytes, Rule>, upserted: nat, removed: nat, now: int)
      returns (res: Result<ApplyResult>, ghost gone: seq<Slot>)
      requires Valid() && Keyed(next)
      modifies this, maps
      ensures Valid()
      ensures Installs(old(Rested(now)), old(maps.View()), old(Rested(now)).free, State(), maps.View(), old(want4),
                       next, now, |Changed(next, old(installed))|, gone, old(Calm() && clock <= now), Calm(), res.Ok?)
              == true
      ensures res.Ok? <==> && CapacityOk(next.Values) && HasRoom(next, old(installed), old(free), old(retired), now)
                           && maps.failures == old(maps.failures)
      ensures torn && !old(torn) ==> maps.swaps == old(maps.swaps) + 1 && maps.failures == old(maps.failures) + 2
      ensures res.Ok? ==> Same(rules, next) && !torn
      ensures res.Ok? ==> res.value == ApplyResult(upserted, removed, |Family(rules.Values, true)|,
                                                   |Family(rules.Values, false)|)
      ensures res.Err? ==> Same(rules, old(rules)) && Same(installed, old(installed))
    {
      res := Err;
      var ok;
      ok, gone := Install(next, now);
      if ok {
        res := Ok(ApplyResult(upserted, removed, activeV4, activeV6));
      }
    }

    /** Expire: drops every rule whose expiry has passed, and lists each once. */
    method Expire(now: int) returns (res: Result<seq<Bytes>>, ghost gone: seq<Slot>)
      requires Valid()
      modifies this, maps
      ensures Valid()
      ensures if Unexpired(old(rules), now) == old(rules)
              then res == Ok([]) && Same(State(), old(Rested(now))) && unchanged(maps)
              else Installs(old(Rested(now)), old(maps.View()), old(Rested(now)).free, State(), maps.View(), old(want4),
                            Unexpired(old(rules), now), now, 0, gone, old(Calm() && clock <= now), Calm(), res.Ok?)
                   == true
      ensures res.Ok? ==> rules == Unexpired(old(rules), now) && SortedBy(res.value, LexLe) && NoneRepeated(res.value)
      ensures res.Ok? ==> forall id :: id in rules <==> id in old(rules) && now < old(rules)[id].expires
      ensures res.Ok? ==> forall id :: id in rules ==> rules[id] == old(rules)[id]
      ensures res.Ok? ==> forall id :: id in res.value <==> id in old(rules) && id !in rules
      ensures res.Err? ==> Same(rules, old(rules)) && Same(installed, old(installed))
      ensures torn && !old(torn) ==> maps.swaps == old(maps.swaps) + 1 && maps.failures == old(maps.failures) + 2
      ensures maps.failures == old(maps.failures) ==> res.Ok?
      ensures old(Calm()) && old(clock) <= now && (!old(torn) || maps.swaps == old(maps.swaps)) ==> Calm()
    {
      gone := [];
      var expired := ExpiredIds(rules, now);
      if |expired| == 0 {
        assert Unexpired(rules, now) == rules;
        Release(now);
        res := Ok([]);
      } else {
        assert expired[0] in expired;
        var ok;
        ok, gone := Drop(expired, now);
        res := if ok then Ok(SortIds(expired)) else Err;
      }
    }

    /** Taking rules away fails only if the kernel does. */
    method Drop(ids: seq<Bytes>, now: int) returns (ok: bool, ghost gone: seq<Slot>)
      requires Valid()
      modifies this, maps
      ensures Valid()
      ensures Installs(old(Rested(now)), old(maps.View()), old(Rested(now)).free, State(), maps.View(), old(want4),
                       Without(old(rules), ids), now, 0, gone, old(Calm() && clock <= now), Calm(), ok)
              == true
      ensures torn && !old(torn) ==> maps.swaps == old(maps.swaps) + 1 && maps.failures == old(maps.failures) + 2
      ensures ok <==> maps.failures == old(maps.failures)
      ensures old(Calm()) && old(clock) <= now && (!old(torn) || maps.swaps == old(maps.swaps)) ==> Calm()
    {
      FewerNeedNoSlot(rules, installed, ids);
      ok, gone := Install(Without(rules, ids), now);
    }
  }
}

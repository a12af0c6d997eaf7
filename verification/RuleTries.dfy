/** The rule tries as the kernel holds them: lists of slots, with the rule
    bodies beside them (slotEntries in pkg/collector/rules.go, scrub_match_rules
    in pkg/collector/ebpf/c/protector.bpf.c). A trie refers to the slots of its
    rules and to no others; and looking an address up, and taking the first slot
    whose body matches, decides as the rules say. */
module RuleTries {
  import opened Orders
  import opened Prefixes
  import opened RuleBody
  import opened RuleLayout

  /** RuleSlots. */
  const RULE_SLOTS: nat := 16384

  type Slot = nat
  type Trie = map<Prefix, seq<Slot>>

  /** A Go map read: a missing id reads as slot 0. */
  function SlotOf(slots: map<Bytes, Slot>, id: Bytes): Slot {
    if id in slots then slots[id] else 0
  }

  function SlotList(rules: seq<Rule>, slots: map<Bytes, Slot>): (s: seq<Slot>)
    ensures |s| == |rules| && forall i :: 0 <= i < |s| ==> s[i] == SlotOf(slots, rules[i].id)
  {
    seq(|rules|, i requires 0 <= i < |rules| => SlotOf(slots, rules[i].id))
  }

  /** slotEntries. */
  function SlotEntries(entries: map<Prefix, seq<Rule>>, slots: map<Bytes, Slot>): Trie {
    map p | p in entries :: SlotList(entries[p], slots)
  }

  /** The trie that `rules` call for when they sit in `slots`. */
  ghost function TrieOf(rules: set<Rule>, slots: map<Bytes, Slot>): Trie {
    SlotEntries(Flattened(rules), slots)
  }

  method SlotTrie(entries: map<Prefix, seq<Rule>>, slots: map<Bytes, Slot>, ghost rules: set<Rule>) returns (trie: Trie)
    requires entries == Flattened(rules)
    ensures trie == TrieOf(rules, slots)
  {
    trie := SlotEntries(entries, slots);
  }

  predicate RefersTo(trie: Trie, slot: Slot) {
    exists p :: p in trie && slot in trie[p]
  }

  ghost predicate EntriesWithin(entries: map<Prefix, seq<Rule>>, rules: set<Rule>) {
    forall p, i :: p in entries && 0 <= i < |entries[p]| ==> entries[p][i] in rules
  }

  lemma FlattenedWithin(rules: set<Rule>)
    ensures EntriesWithin(Flattened(rules), rules)
  {
    forall p, i | p in Flattened(rules) && 0 <= i < |Flattened(rules)[p]| ensures Flattened(rules)[p][i] in rules {
      InOrderCorrect(Covering(rules, p));
      assert InOrder(Covering(rules, p))[i] in Covering(rules, p);
    }
  }

  lemma EntriesRefer(entries: map<Prefix, seq<Rule>>, rules: set<Rule>, slots: map<Bytes, Slot>, slot: Slot)
    requires EntriesWithin(entries, rules)
    requires forall r :: r in rules ==> r.id in slots
    requires RefersTo(SlotEntries(entries, slots), slot)
    ensures exists r :: r in rules && slots[r.id] == slot
  {
    var p :| p in entries && slot in SlotEntries(entries, slots)[p];
    var i :| 0 <= i < |entries[p]| && SlotList(entries[p], slots)[i] == slot;
    assert entries[p][i] in rules;
  }

  /** A rule is listed at its own destination. */
  lemma RuleListed(rules: set<Rule>, r: Rule, slots: map<Bytes, Slot>)
    requires r in rules && r.id in slots
    ensures RefersTo(TrieOf(rules, slots), slots[r.id])
  {
    var here := Covering(rules, r.dst);
    InOrderCorrect(here);
    assert r in here;
    var list := InOrder(here);
    assert r in list;
    var i :| 0 <= i < |list| && list[i] == r;
    assert SlotList(list, slots)[i] == slots[r.id];
    var trie := TrieOf(rules, slots);
    assert r.dst in trie && trie[r.dst] == SlotList(list, slots);
  }

  /** A trie refers to the slots of its rules and to no others. */
  lemma TrieRefers(rules: set<Rule>, slots: map<Bytes, Slot>, slot: Slot)
    requires forall r :: r in rules ==> r.id in slots
    ensures RefersTo(TrieOf(rules, slots), slot) <==> exists r :: r in rules && slots[r.id] == slot
  {
    FlattenedWithin(rules);
    if RefersTo(TrieOf(rules, slots), slot) {
      EntriesRefer(Flattened(rules), rules, slots, slot);
    }
    if r :| r in rules && slots[r.id] == slot {
      RuleListed(rules, r, slots);
    }
  }

  // ---- What XDP decides ----

  datatype Verdict = NoRule | Hit(slot: Slot)

  function FirstHit(list: seq<Slot>, bodies: map<Slot, ScrubRule>, p: Packet): Verdict {
    if list == [] then NoRule
    else if list[0] in bodies && RuleMatch(bodies[list[0]], p) then Hit(list[0])
    else FirstHit(list[1..], bodies, p)
  }

  /** scrub_match_rules: longest-prefix match on the destination, then the first
      rule of that list that matches. */
  function MatchRules(trie: Trie, bodies: map<Slot, ScrubRule>, p: Packet): Verdict {
    match Lookup(trie, p.v4, p.dst, |p.dst|)
    case Err => NoRule
    case Ok(list) => FirstHit(list, bodies, p)
  }

  /** The rules of a set that apply to a packet. */
  predicate Applies(r: Rule, p: Packet) {
    CoversPrefix(r.dst, Prefix(p.v4, p.dst)) && RuleMatch(r.body, p)
  }

  /** `r` is the rule of `rules` that decides about `p`. */
  ghost predicate Decides(r: Rule, rules: set<Rule>, p: Packet) {
    r in rules && Applies(r, p) && forall o :: o in rules && Applies(o, p) ==> Before(r, o)
  }

  ghost predicate BodiesInPlace(rules: set<Rule>, slots: map<Bytes, Slot>, bodies: map<Slot, ScrubRule>) {
    forall r :: r in rules ==> r.id in slots && slots[r.id] in bodies && bodies[slots[r.id]] == r.body
  }

  /** The first rule of a list that matches. */
  predicate FirstMatch(list: seq<Rule>, p: Packet, i: nat) {
    i < |list| && RuleMatch(list[i].body, p) && forall j :: 0 <= j < i ==> !RuleMatch(list[j].body, p)
  }

  lemma FirstMatchTail(list: seq<Rule>, p: Packet, i: nat)
    requires list != [] && !RuleMatch(list[0].body, p) && FirstMatch(list[1..], p, i)
    ensures FirstMatch(list, p, i + 1)
  {
    assert list == [list[0]] + list[1..];
    forall j | 0 <= j < i + 1 ensures !RuleMatch(list[j].body, p) {
      if j > 0 { assert list[j] == list[1..][j - 1]; }
    }
  }

  lemma {:induction false} FirstHitDecides(list: seq<Rule>, rules: set<Rule>, slots: map<Bytes, Slot>,
                                           bodies: map<Slot, ScrubRule>, p: Packet)
    requires BodiesInPlace(rules, slots, bodies) && forall r :: r in list ==> r in rules
    ensures match FirstHit(SlotList(list, slots), bodies, p)
            case NoRule => forall r :: r in list ==> !RuleMatch(r.body, p)
            case Hit(slot) => exists i: nat :: FirstMatch(list, p, i) && slots[list[i].id] == slot
  {
    if list != [] {
      var s := SlotList(list, slots);
      assert list[0] in rules && s[0] == slots[list[0].id];
      if RuleMatch(list[0].body, p) {
        assert FirstMatch(list, p, 0);
      } else {
        assert s[1..] == SlotList(list[1..], slots);
        FirstHitDecides(list[1..], rules, slots, bodies, p);
        match FirstHit(s[1..], bodies, p)
        case NoRule =>
        case Hit(slot) =>
          var i: nat :| FirstMatch(list[1..], p, i) && slots[list[1..][i].id] == slot;
          FirstMatchTail(list, p, i);
      }
    }
  }

  lemma {:induction false} LookupSlots(entries: map<Prefix, seq<Rule>>, slots: map<Bytes, Slot>, v4: bool,
                                       addr: seq<Bit>, n: nat)
    requires n <= |addr|
    ensures Lookup(SlotEntries(entries, slots), v4, addr, n)
         == match Lookup(entries, v4, addr, n)
            case Err => Err
            case Ok(list) => Ok(SlotList(list, slots))
  {
    if Prefix(v4, addr[..n]) !in entries && n > 0 {
      LookupSlots(entries, slots, v4, addr, n - 1);
    }
  }

  lemma {:induction false} ListDecides(list: seq<Rule>, rules: set<Rule>, slots: map<Bytes, Slot>,
                                       bodies: map<Slot, ScrubRule>, p: Packet)
    requires BodiesInPlace(rules, slots, bodies) && SortedBy(list, Before)
    requires forall r :: r in list <==> r in Covering(rules, Prefix(p.v4, p.dst))
    ensures match FirstHit(SlotList(list, slots), bodies, p)
            case NoRule => forall r :: r in rules ==> !Applies(r, p)
            case Hit(slot) => exists r :: Decides(r, rules, p) && slots[r.id] == slot
  {
    FirstHitDecides(list, rules, slots, bodies, p);
    match FirstHit(SlotList(list, slots), bodies, p)
    case NoRule =>
    case Hit(slot) =>
      var i: nat :| FirstMatch(list, p, i) && slots[list[i].id] == slot;
      assert list[i] in Covering(rules, Prefix(p.v4, p.dst));
      forall o | o in rules && Applies(o, p) ensures Before(list[i], o) {
        assert o in list;
        var j :| 0 <= j < |list| && list[j] == o;
        BeforeReflexive(o);
      }
      assert Decides(list[i], rules, p);
  }

  /** What the kernel does with a packet is what the rules say: it acts on the
      first matching rule, in (priority, id) order, of all rules covering the
      destination, and on none exactly when no rule applies. */
  lemma {:induction false} KernelDecides(rules: set<Rule>, slots: map<Bytes, Slot>, bodies: map<Slot, ScrubRule>,
                                         p: Packet)
    requires BodiesInPlace(rules, slots, bodies)
    ensures match MatchRules(TrieOf(rules, slots), bodies, p)
            case NoRule => forall r :: r in rules ==> !Applies(r, p)
            case Hit(slot) => exists r :: Decides(r, rules, p) && slots[r.id] == slot
  {
    var covering := Covering(rules, Prefix(p.v4, p.dst));
    LookupSlots(Flattened(rules), slots, p.v4, p.dst, |p.dst|);
    FlattenedMeaning(rules, p.v4, p.dst);
    if covering == {} {
      assert forall r :: r in rules && Applies(r, p) ==> r in covering;
    } else {
      InOrderCorrect(covering);
      ListDecides(InOrder(covering), rules, slots, bodies, p);
    }
  }

  lemma BeforeReflexive(r: Rule)
    ensures Before(r, r)
  {
    LexReflexive(r.id);
  }
}

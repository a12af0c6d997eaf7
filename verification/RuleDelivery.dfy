/** From a controller's push to a packet's fate: the rule command an analyzer
    sends (ruleSetCommand, pkg/analyzer/rules.go), its acceptance by a collector
    (pkg/collector/rules.go), and what the kernel then does. */
module RuleDelivery {
  import opened Collections
  import opened Orders
  import opened Prefixes
  import opened RuleBody
  import opened RuleLayout
  import opened RuleParse
  import opened RuleTries
  import opened SlotLedger
  import opened Store = RuleStore
  import opened RuleDelta
  import opened RuleBooks
  import opened Engine = RuleEngine

  predicate IdLe(a: ProtoRule, b: ProtoRule) {
    LexLe(a.id, b.id)
  }

  lemma IdLeIsOrder()
    ensures TotalPreorder(IdLe)
  {
    forall a, b ensures IdLe(a, b) || IdLe(b, a) { LexTotal(a.id, b.id); }
    forall a, b, c | IdLe(a, b) && IdLe(b, c) ensures IdLe(a, c) { LexTransitive(a.id, b.id, c.id); }
  }

  /** A list of exactly these rules, each once. */
  ghost predicate Lists(ups: seq<ProtoRule>, rules: set<ProtoRule>) {
    && (forall p :: p in ups <==> p in rules)
    && (forall i, j :: 0 <= i < j < |ups| ==> ups[i] != ups[j])
  }

  method ListRules(want: map<Bytes, ProtoRule>) returns (ups: seq<ProtoRule>)
    requires forall id :: id in want ==> want[id].id == id
    ensures Lists(ups, want.Values)
  {
    ups := [];
    var todo := want.Keys;
    while todo != {}
      invariant todo <= want.Keys
      invariant forall p :: p in ups <==> p.id in want && p.id !in todo && want[p.id] == p
      invariant forall i, j :: 0 <= i < j < |ups| ==> ups[i] != ups[j]
      decreases todo
    {
      var id :| id in todo;
      todo := todo - {id};
      assert want[id] !in ups;
      ups := ups + [want[id]];
    }
  }

  lemma SortLists(ups: seq<ProtoRule>, rules: set<ProtoRule>)
    requires Lists(ups, rules) && TotalPreorder(IdLe)
    ensures Lists(Sort(ups, IdLe), rules) && SortedBy(Sort(ups, IdLe), IdLe)
  {
    SortCorrect(ups, IdLe);
    NoRepeats(ups, Sort(ups, IdLe));
  }

  /** ruleSetCommand: the complete desired set, each rule once, by id. */
  method RuleSetCommand(store: Store.RuleStore, now: int, enforcing: bool) returns (delta: Delta)
    requires store.Valid()
    modifies store`scopes
    ensures store.Valid() && store.scopes == LiveScopes(old(store.scopes), now)
    ensures delta.replace && delta.remove == [] && SortedBy(delta.upsert, IdLe)
    ensures Lists(delta.upsert, WantedSet(old(store.scopes), now, enforcing))
    ensures Switched(old(store.scopes), now, enforcing, WantedSet(old(store.scopes), now, enforcing))
    ensures store.fitsFrom <= now + RULE_EXPIRY_MARGIN ==>
              Fitting(store.compile, WantedSet(old(store.scopes), now, enforcing))
  {
    var want := store.Desired(now, enforcing);
    var ups := ListRules(want);
    IdLeIsOrder();
    SortLists(ups, want.Values);
    delta := Delta(true, [], Sort(ups, IdLe));
  }

  // ---- Acceptance ----

  /** A command with no bad and no repeated rule gives the collector those rules. */
  lemma UpsertsValues(parsed: seq<Result<Rule>>, rules: set<Rule>)
    requires forall i :: 0 <= i < |parsed| ==> parsed[i].Ok?
    requires forall i, j :: 0 <= i < j < |parsed| ==> parsed[i].value.id != parsed[j].value.id
    requires forall r :: r in rules <==> Ok(r) in parsed
    ensures var next := Upserts(map[], parsed);
            next.Ok? && Keyed(next.value) && next.value.Values == rules
  {
    UpsertsRejects(map[], parsed);
    var next := Upserts(map[], parsed).value;
    UpsertsResult(map[], parsed, []);
    forall r ensures r in next.Values <==> r in rules {
      if r in next.Values {
        var id :| id in next && next[id] == r;
        UpsertsResult(map[], parsed, id);
      }
      if r in rules {
        var i :| 0 <= i < |parsed| && parsed[i] == Ok(r);
        assert RuleDelta.HasId(parsed[i], r.id);
        UpsertsResult(map[], parsed, r.id);
        var j :| 0 <= j < |parsed| && parsed[j] == Ok(next[r.id]);
        assert next[r.id].id == r.id;
      }
    }
  }

  /** As compiled, the listed rules are those of the set. */
  lemma ListedCompiled(c: Compiler, want: set<ProtoRule>, ups: seq<ProtoRule>, parsed: seq<Result<Rule>>)
    requires Honest(c) && AllSound(c, want) && Lists(ups, want)
    requires |parsed| == |ups| && forall i :: 0 <= i < |ups| ==> parsed[i] == c(ups[i])
    ensures forall i :: 0 <= i < |parsed| ==> parsed[i].Ok?
    ensures forall i, j :: 0 <= i < j < |parsed| ==> parsed[i].value.id != parsed[j].value.id
    ensures forall r :: r in EncodedSet(c, want) <==> Ok(r) in parsed
  {
    forall i | 0 <= i < |ups| ensures ups[i] in want { assert ups[i] in ups; }
    forall r ensures r in EncodedSet(c, want) <==> Ok(r) in parsed {
      if r in EncodedSet(c, want) {
        var p :| p in want && c(p).value == r;
        var i :| 0 <= i < |ups| && ups[i] == p;
        assert parsed[i] == Ok(r);
      }
      if Ok(r) in parsed {
        var i :| 0 <= i < |parsed| && parsed[i] == Ok(r);
        assert c(ups[i]).value == r;
      }
    }
  }

  /** The wanted rules as a collector keeps them. */
  ghost function ById(c: Compiler, want: set<ProtoRule>): (m: map<Bytes, Rule>)
    requires Honest(c) && AllSound(c, want)
    ensures Keyed(m) && m.Values == EncodedSet(c, want)
  {
    var m := map p | p in want :: p.id := c(p).value;
    assert forall p :: p in want ==> m[p.id] == c(p).value;
    m
  }

  lemma KeyedUnique(a: map<Bytes, Rule>, b: map<Bytes, Rule>)
    requires Keyed(a) && Keyed(b) && a.Values == b.Values
    ensures a == b
  {
    forall id | id in a ensures id in b && b[id] == a[id] {
      assert a[id] in b.Values;
      var jd :| jd in b && b[jd] == a[id];
    }
    forall id | id in b ensures id in a {
      assert b[id] in a.Values;
      var jd :| jd in a && a[jd] == b[id];
    }
  }

  /** Whatever a collector holds, a command listing sound rules of different ids is
      rejected exactly if one of them has expired by the collector's clock; else
      it asks for exactly those rules. */
  lemma CommandTarget(current: map<Bytes, Rule>, want: set<ProtoRule>, ups: seq<ProtoRule>, at: int)
    requires AllSound(Compile, want) && Lists(ups, want)
    ensures Honest(Compile)
    ensures Target(current, Delta(true, [], ups), at)
         == if forall p :: p in want ==> Alive(p, at) then Ok(ById(Compile, want)) else Err
  {
    CompileIsHonest();
    var parsed := ParseAll(ups, at);
    if forall p :: p in want ==> Alive(p, at) {
      forall i | 0 <= i < |ups| ensures parsed[i] == Compile(ups[i]) {
        assert ups[i] in ups;
        AliveParses(ups[i], at);
      }
      ListedCompiled(Compile, want, ups, parsed);
      UpsertsValues(parsed, EncodedSet(Compile, want));
      KeyedUnique(Upserts(map[], parsed).value, ById(Compile, want));
    } else {
      var p :| p in want && !Alive(p, at);
      var i :| 0 <= i < |ups| && ups[i] == p;
      assert parsed[i].Err?;
      UpsertsRejects(map[], parsed);
    }
  }

  /** A command listing a set that fits passes all checks of a collector, until the
      first of its rules expires by the collector's clock. */
  lemma CommandAccepted(current: map<Bytes, Rule>, want: set<ProtoRule>, ups: seq<ProtoRule>, at: int)
    requires Fitting(Compile, want) && Lists(ups, want)
    requires forall p :: p in want ==> Alive(p, at)
    ensures Honest(Compile)
    ensures var target := Target(current, Delta(true, [], ups), at);
            && target == Ok(ById(Compile, want)) && CapacityOk(target.value.Values)
            && target.value.Values == EncodedSet(Compile, want)
  {
    CommandTarget(current, want, ups, at);
  }

  lemma AliveParses(p: ProtoRule, at: int)
    requires Alive(p, at)
    ensures Parse(p, at) == Compile(p)
  {
  }

  lemma WantedSound(c: Compiler, s: Scopes, now: int, enforcing: bool)
    requires GoodScopes(c, s)
    ensures AllSound(c, WantedSet(s, now, enforcing))
  {
    forall p | p in WantedSet(s, now, enforcing) ensures c(p).Ok? {
      var sc, id :| sc in s && id in s[sc] && Alive(s[sc][id], now) && s[sc][id] == p;
      assert GoodSet(c, sc, s[sc]);
    }
    forall p, q | p in WantedSet(s, now, enforcing) && q in WantedSet(s, now, enforcing) && p.id == q.id
      ensures p == q
    {
      OneRulePerId(c, s, now, p, q);
    }
  }

  /** What is wanted is alive up to a margin later. */
  lemma WantedAlive(s: Scopes, now: int, enforcing: bool, at: int)
    requires at <= now + RULE_EXPIRY_MARGIN
    ensures forall p :: p in WantedSet(s, now, enforcing) ==> Alive(p, at)
  {
  }

  /** The collector takes a command for `want` at its time `at`: nothing has expired,
      it fits, and there are slots for it. */
  ghost predicate Takes(engine: Engine.RuleEngine, want: set<ProtoRule>, at: int)
    reads engine
  {
    && Honest(Compile) && Passes(Compile, want, at)
    && HasRoom(ById(Compile, want), engine.installed, engine.free, engine.retired, at)
  }

  /** A collector given a command that lists `want`. */
  method ApplyCommand(engine: Engine.RuleEngine, delta: Delta, at: int, ghost want: set<ProtoRule>)
    returns (res: Result<ApplyResult>)
    requires engine.Valid() && AllSound(Compile, want)
    requires delta.replace && delta.remove == [] && Lists(delta.upsert, want)
    modifies engine, engine.maps
    ensures engine.Valid()
    ensures res.Ok? <==> old(Takes(engine, want, at)) && engine.maps.failures == old(engine.maps.failures)
    ensures Honest(Compile) && (res.Ok? ==> engine.rules == ById(Compile, want) && !engine.torn)
    ensures res.Err? ==> engine.rules == old(engine.rules) && engine.installed == old(engine.installed)
    ensures engine.torn && !old(engine.torn) ==>
              engine.maps.swaps == old(engine.maps.swaps) + 1 && engine.maps.failures == old(engine.maps.failures) + 2
  {
    CommandTarget(engine.rules, want, delta.upsert, at);
    ghost var next := ById(Compile, want);
    assert delta == Delta(true, [], delta.upsert) && next.Values == EncodedSet(Compile, want);
    ghost var gone;
    res, gone := engine.Apply(delta, at);
  }

  /** One rule sync, from the store to the kernel, at any two clock readings. The
      collector accepts the command exactly if it takes it and no kernel call
      fails, and then holds exactly the wanted rules. */
  method Sync(store: Store.RuleStore, engine: Engine.RuleEngine, now: int, enforcing: bool, at: int)
    returns (res: Result<ApplyResult>, ghost want: set<ProtoRule>)
    requires store.Valid() && store.compile == Compile && engine.Valid()
    modifies store`scopes, engine, engine.maps
    ensures store.Valid() && engine.Valid() && store.scopes == LiveScopes(old(store.scopes), now)
    ensures want == WantedSet(old(store.scopes), now, enforcing) && AllSound(Compile, want)
    ensures Switched(old(store.scopes), now, enforcing, want)
    ensures res.Ok? <==> old(Takes(engine, WantedSet(store.scopes, now, enforcing), at))
                         && engine.maps.failures == old(engine.maps.failures)
    ensures res.Ok? ==> engine.rules == ById(Compile, want) && !engine.torn
    ensures res.Err? ==> engine.rules == old(engine.rules) && engine.installed == old(engine.installed)
    ensures engine.torn && !old(engine.torn) ==>
              engine.maps.swaps == old(engine.maps.swaps) + 1 && engine.maps.failures == old(engine.maps.failures) + 2
  {
    want := WantedSet(store.scopes, now, enforcing);
    WantedSound(Compile, store.scopes, now, enforcing);
    var delta := RuleSetCommand(store, now, enforcing);
    res := ApplyCommand(engine, delta, at, want);
  }

  /** Capacity closure: when neither the sync nor the collector is more than the
      expiry margin off - the sync behind the last accepted push, the collector
      ahead of the sync - a collector takes the command exactly if the slots it
      needs anew, those of its rules and those in their grace period fit the
      table; in particular whenever none is in its grace period. */
  lemma TakesInTime(store: Store.RuleStore, engine: Engine.RuleEngine, now: int, enforcing: bool, at: int)
    requires store.Valid() && store.compile == Compile && engine.Valid()
    requires store.fitsFrom <= now + RULE_EXPIRY_MARGIN && at <= now + RULE_EXPIRY_MARGIN
    ensures var want := WantedSet(store.scopes, now, enforcing);
            && Honest(Compile) && AllSound(Compile, want)
            && (Takes(engine, want, at) <==>
                |Changed(ById(Compile, want), engine.installed)| + |engine.installed| + |Kept(engine.retired, at)|
                <= RULE_SLOTS)
    ensures Kept(engine.retired, at) == [] ==> Takes(engine, WantedSet(store.scopes, now, enforcing), at)
  {
    var want := WantedSet(store.scopes, now, enforcing);
    WantedSound(Compile, store.scopes, now, enforcing);
    WantedFits(Compile, store.scopes, store.fitsFrom, now, enforcing);
    WantedAlive(store.scopes, now, enforcing, at);
    RoomByCount(engine.installed, engine.free, engine.retired, ById(Compile, want), at);
    if Kept(engine.retired, at) == [] {
      RoomAfterGrace(engine.rules, engine.installed, engine.free, engine.retired, ById(Compile, want), at);
    }
  }

  // ---- What a packet sees ----

  /** The rule, as a controller stated it, is about this packet. */
  ghost predicate Asks(pr: ProtoRule, p: Packet) {
    Sound(pr) && CoversPrefix(pr.dst.value, Prefix(p.v4, p.dst)) && Intended(pr, p)
  }

  /** Rules are consulted by priority, then by id. */
  predicate AskedBefore(a: ProtoRule, b: ProtoRule) {
    a.priority < b.priority || (a.priority == b.priority && LexLe(a.id, b.id))
  }

  lemma AsksApplies(pr: ProtoRule, p: Packet)
    requires Sound(pr) && WellFormedPacket(p)
    ensures Applies(Compile(pr).value, p) <==> Asks(pr, p)
  {
    if CoversPrefix(pr.dst.value, Prefix(p.v4, p.dst)) {
      BodyMeaning(pr, p);
    }
  }

  /** The stated rule that decides about a packet. */
  ghost predicate FirstAsked(pr: ProtoRule, want: set<ProtoRule>, p: Packet) {
    pr in want && Asks(pr, p) && forall o :: o in want && Asks(o, p) ==> AskedBefore(pr, o)
  }

  lemma CompiledOrder(a: ProtoRule, b: ProtoRule)
    requires Compile(a).Ok? && Compile(b).Ok?
    ensures Before(Compile(a).value, Compile(b).value) <==> AskedBefore(a, b)
  {
  }

  lemma DecidesAsked(r: Rule, want: set<ProtoRule>, p: Packet) returns (pr: ProtoRule)
    requires AllSound(Compile, want) && WellFormedPacket(p) && Decides(r, EncodedSet(Compile, want), p)
    ensures FirstAsked(pr, want, p) && Compile(pr) == Ok(r)
  {
    pr :| pr in want && Compile(pr).value == r;
    AsksApplies(pr, p);
    forall o | o in want && Asks(o, p) ensures AskedBefore(pr, o) {
      AsksApplies(o, p);
      assert Compile(o).value in EncodedSet(Compile, want);
      CompiledOrder(pr, o);
    }
  }

  lemma NoneAsked(want: set<ProtoRule>, p: Packet)
    requires AllSound(Compile, want) && WellFormedPacket(p)
    requires forall r :: r in EncodedSet(Compile, want) ==> !Applies(r, p)
    ensures forall pr :: pr in want ==> !Asks(pr, p)
  {
    forall pr | pr in want ensures !Asks(pr, p) {
      AsksApplies(pr, p);
      assert Compile(pr).value in EncodedSet(Compile, want);
    }
  }

  lemma SlotHoldsBody(engine: Engine.RuleEngine, r: Rule)
    requires engine.Valid() && r in engine.rules.Values
    ensures r.id in engine.installed && engine.installed[r.id].slot in engine.maps.bodies
    ensures engine.maps.bodies[engine.installed[r.id].slot] == r.body
  {
    var id :| id in engine.rules && engine.rules[id] == r;
  }

  /** What the kernel does with a packet is what controllers stated: it drops, passes
      or limits it, at its rate, as the first stated rule that is about the packet
      says, and leaves the packet alone when there is none. */
  ghost predicate AsStated(trie4: Trie, trie6: Trie, bodies: map<Slot, ScrubRule>, want: set<ProtoRule>, p: Packet) {
    match MatchRules(if p.v4 then trie4 else trie6, bodies, p)
    case NoRule => forall pr :: pr in want ==> !Asks(pr, p)
    case Hit(slot) => exists pr :: FirstAsked(pr, want, p) && slot in bodies && ActsAs(bodies[slot], pr)
  }

  lemma PushedVerdict(engine: Engine.RuleEngine, want: set<ProtoRule>, p: Packet)
    requires engine.Valid() && (p.v4 ==> !engine.torn) && WellFormedPacket(p)
    requires AllSound(Compile, want) && engine.rules.Values == EncodedSet(Compile, want)
    ensures AsStated(engine.maps.trie4, engine.maps.trie6, engine.maps.bodies, want, p)
  {
    engine.LiveVerdict(p);
    var verdict := MatchRules(if p.v4 then engine.maps.trie4 else engine.maps.trie6, engine.maps.bodies, p);
    match verdict
    case NoRule =>
      NoneAsked(want, p);
    case Hit(slot) =>
      var r :| Decides(r, engine.rules.Values, p) && r.id in engine.installed && engine.installed[r.id].slot == slot;
      var pr := DecidesAsked(r, want, p);
      SlotHoldsBody(engine, r);
      BodyActs(pr);
  }

  /** End to end: after an accepted sync the kernel treats every packet as the
      rules in the analyzer's store state that are wanted now. After a rejected one
      it goes on treating it as the rules `held` before, unless both the IPv6 swap
      and the restore of the IPv4 trie failed. */
  method SyncDecides(store: Store.RuleStore, engine: Engine.RuleEngine, now: int, enforcing: bool, at: int,
                     ghost held: set<ProtoRule>)
    returns (res: Result<ApplyResult>)
    requires store.Valid() && store.compile == Compile && engine.Valid()
    modifies store`scopes, engine, engine.maps
    ensures store.Valid() && engine.Valid()
    ensures (&& store.fitsFrom <= now + RULE_EXPIRY_MARGIN && at <= now + RULE_EXPIRY_MARGIN
             && Kept(old(engine.retired), at) == [] && engine.maps.failures == old(engine.maps.failures)) ==> res.Ok?
    ensures res.Ok? ==> forall p :: WellFormedPacket(p) ==>
              AsStated(engine.maps.trie4, engine.maps.trie6, engine.maps.bodies,
                       WantedSet(old(store.scopes), now, enforcing), p)
    ensures Switched(old(store.scopes), now, enforcing, WantedSet(old(store.scopes), now, enforcing))
    ensures res.Err? ==> engine.rules == old(engine.rules) && engine.installed == old(engine.installed)
    ensures res.Err? && AllSound(Compile, held) && old(engine.rules.Values) == EncodedSet(Compile, held) ==>
              forall p :: WellFormedPacket(p) && (p.v4 ==> !engine.torn) ==>
                AsStated(engine.maps.trie4, engine.maps.trie6, engine.maps.bodies, held, p)
    ensures engine.torn && !old(engine.torn) ==>
              engine.maps.swaps == old(engine.maps.swaps) + 1 && engine.maps.failures == old(engine.maps.failures) + 2
  {
    if store.fitsFrom <= now + RULE_EXPIRY_MARGIN && at <= now + RULE_EXPIRY_MARGIN {
      TakesInTime(store, engine, now, enforcing, at);
    }
    ghost var want;
    res, want := Sync(store, engine, now, enforcing, at);
    if res.Ok? {
      forall p | WellFormedPacket(p)
        ensures AsStated(engine.maps.trie4, engine.maps.trie6, engine.maps.bodies, want, p)
      {
        PushedVerdict(engine, want, p);
      }
    } else if AllSound(Compile, held) && old(engine.rules.Values) == EncodedSet(Compile, held) {
      forall p | WellFormedPacket(p) && (p.v4 ==> !engine.torn)
        ensures AsStated(engine.maps.trie4, engine.maps.trie6, engine.maps.bodies, held, p)
      {
        PushedVerdict(engine, held, p);
      }
    }
  }
}

/** The analyzer's desired rules per scope (pkg/analyzer/rules.go): pushes, what
    collectors should hold, and when that fits a collector. */
module RuleStore {
  import opened Basics
  import opened Collections
  import opened RuleLayout
  import opened RuleParse

  /** ruleExpiryMargin, in nanoseconds. */
  const RULE_EXPIRY_MARGIN: int := 5_000_000_000
  /** maxRuleSetBytes. */
  const MAX_RULE_SET_BYTES: nat := 3145728
  /** ruleScopeSep: '/'. */
  const SEP: nat := 47

  type Scopes = map<Bytes, map<Bytes, ProtoRule>>

  predicate ScopeName(scope: Bytes) {
    scope != [] && SEP !in scope
  }

  /** The id a rule has on the wire. */
  function WireId(scope: Bytes, id: Bytes): Bytes {
    scope + [SEP] + id
  }

  /** Two controllers never collide: a wire id names one scope and one id. */
  lemma WireIdInjective(a: Bytes, b: Bytes, id: Bytes, id': Bytes)
    requires ScopeName(a) && ScopeName(b) && WireId(a, id) == WireId(b, id')
    ensures a == b && id == id'
  {
    var w := WireId(a, id);
    assert w[|a|] == SEP && WireId(b, id')[|b|] == SEP;
    assert forall i :: 0 <= i < |a| ==> a[i] == w[i];
    assert forall i :: 0 <= i < |b| ==> b[i] == WireId(b, id')[i];
    assert a == w[..|a|] && b == WireId(b, id')[..|b|];
    assert id == w[|a| + 1..] && id' == WireId(b, id')[|b| + 1..];
  }

  predicate OfScope(id: Bytes, scope: Bytes) {
    WireId(scope, []) <= id
  }

  /** An id cannot belong to two scopes. */
  lemma ScopesApart(a: Bytes, b: Bytes, id: Bytes)
    requires ScopeName(a) && ScopeName(b) && OfScope(id, a) && OfScope(id, b)
    ensures a == b
  {
    assert id == WireId(a, id[|a| + 1..]) && id == WireId(b, id[|b| + 1..]);
    WireIdInjective(a, b, id[|a| + 1..], id[|b| + 1..]);
  }

  /** The store does not look inside rules: it takes what Parse makes of a rule,
      expiry aside, from a compiler that keeps ids and expiry times and does not
      mind another id. */
  type Compiler = ProtoRule -> Result<Rule>

  ghost predicate Honest(c: Compiler) {
    && (forall pr :: c(pr).Ok? ==> pr.id == c(pr).value.id && pr.expires == Some(c(pr).value.expires))
    && (forall pr, scope :: c(pr).Ok? ==> c(WireRule(scope, pr)).Ok?)
  }

  /** A rule under its wire id. */
  function WireRule(scope: Bytes, pr: ProtoRule): ProtoRule {
    pr.(id := WireId(scope, pr.id))
  }

  lemma CompileIsHonest()
    ensures Honest(Compile)
  {
    forall pr | Compile(pr).Ok?
      ensures pr.id == Compile(pr).value.id && pr.expires == Some(Compile(pr).value.expires)
    {
    }
    forall pr, scope | Compile(pr).Ok? ensures Compile(WireRule(scope, pr)).Ok? {
      assert Sound(WireRule(scope, pr));
    }
  }

  // ---- What the store keeps ----

  predicate GoodSet(c: Compiler, scope: Bytes, rules: map<Bytes, ProtoRule>) {
    forall id :: id in rules ==> rules[id].id == id && OfScope(id, scope) && c(rules[id]).Ok?
  }

  predicate GoodScopes(c: Compiler, s: Scopes) {
    forall sc :: sc in s ==> ScopeName(sc) && s[sc] != map[] && GoodSet(c, sc, s[sc])
  }

  /** Every rule alive at `now`, over all scopes. */
  function Union(s: Scopes, now: int): set<ProtoRule> {
    set sc, id | sc in s && id in s[sc] && Alive(s[sc][id], now) :: s[sc][id]
  }

  ghost predicate AllSound(c: Compiler, rules: set<ProtoRule>) {
    && (forall p :: p in rules ==> c(p).Ok?)
    && (forall p, q :: p in rules && q in rules && p.id == q.id ==> p == q)
  }

  function EncodedSet(c: Compiler, rules: set<ProtoRule>): set<Rule>
    requires forall p :: p in rules ==> c(p).Ok?
  {
    set p | p in rules :: c(p).value
  }

  /** Encoded bytes of a set of rules. */
  ghost function Bytesize(rules: set<ProtoRule>): nat {
    if rules == {} then 0 else var p :| p in rules; ProtoSize(p) + Bytesize(rules - {p})
  }

  lemma {:induction false} BytesizeAdd(rules: set<ProtoRule>, p: ProtoRule)
    requires p !in rules
    ensures Bytesize(rules + {p}) == Bytesize(rules) + ProtoSize(p)
    decreases |rules|
  {
    var all := rules + {p};
    assert all != {};
    var q :| q in all && Bytesize(all) == ProtoSize(q) + Bytesize(all - {q});
    if q == p {
      assert all - {q} == rules;
    } else {
      assert all - {q} == (rules - {q}) + {p};
      BytesizeAdd(rules - {q}, p);
      BytesizeAdd(rules - {q}, q);
      assert (rules - {q}) + {q} == rules;
    }
  }

  lemma {:induction false} BytesizeSubset(fewer: set<ProtoRule>, rules: set<ProtoRule>)
    requires fewer <= rules
    ensures Bytesize(fewer) <= Bytesize(rules)
    decreases |rules - fewer|
  {
    if rules - fewer == {} {
      assert fewer == rules;
    } else {
      var p :| p in rules - fewer;
      assert (rules - {p}) - fewer == (rules - fewer) - {p};
      BytesizeSubset(fewer, rules - {p});
      BytesizeAdd(rules - {p}, p);
      assert (rules - {p}) + {p} == rules;
    }
  }

  /** A set of rules a collector has room for. */
  ghost predicate Fitting(c: Compiler, rules: set<ProtoRule>) {
    AllSound(c, rules) && CapacityOk(EncodedSet(c, rules)) && Bytesize(rules) <= MAX_RULE_SET_BYTES
  }

  /** What a collector checks of a command for `rules` by its clock, but for slots: no
      rule has expired, and its tries hold them. */
  ghost predicate Passes(c: Compiler, rules: set<ProtoRule>, at: int) {
    AllSound(c, rules) && (forall p :: p in rules ==> Alive(p, at)) && CapacityOk(EncodedSet(c, rules))
  }

  lemma FittingSubset(c: Compiler, fewer: set<ProtoRule>, rules: set<ProtoRule>)
    requires Fitting(c, rules) && fewer <= rules
    ensures Fitting(c, fewer)
  {
    CapacitySubset(EncodedSet(c, fewer), EncodedSet(c, rules));
    BytesizeSubset(fewer, rules);
  }

  /** What every operation keeps: the rules alive at `fitsFrom` fit, and with them
      those alive at any later time. */
  ghost predicate StoreOk(c: Compiler, s: Scopes, fitsFrom: int) {
    GoodScopes(c, s) && Fitting(c, Union(s, fitsFrom))
  }

  lemma UnionShrinks(s: Scopes, from: int, now: int)
    requires from <= now
    ensures Union(s, now) <= Union(s, from)
  {
  }

  lemma StoreLater(c: Compiler, s: Scopes, from: int, now: int)
    requires StoreOk(c, s, from) && from <= now
    ensures StoreOk(c, s, now)
  {
    UnionShrinks(s, from, now);
    FittingSubset(c, Union(s, now), Union(s, from));
  }

  // ---- replace ----

  /** What replace has gathered: the rules `got`, keyed by id and encoded, and
      their size. */
  ghost predicate Tally(c: Compiler, parsed: map<Bytes, Rule>, size: nat, got: set<ProtoRule>) {
    && AllSound(c, got) && size == Bytesize(got)
    && Encodes(c, parsed, got)
  }

  ghost predicate Encodes(c: Compiler, parsed: map<Bytes, Rule>, got: set<ProtoRule>)
    requires AllSound(c, got)
  {
    && (forall p :: p in got ==> p.id in parsed && parsed[p.id] == c(p).value)
    && (forall id :: id in parsed ==> HasId(got, id))
  }

  ghost predicate HasId(got: set<ProtoRule>, id: Bytes) {
    exists p :: p in got && p.id == id
  }

  lemma SoundAdd(c: Compiler, got: set<ProtoRule>, p: ProtoRule)
    requires AllSound(c, got) && c(p).Ok? && forall q :: q in got ==> q.id != p.id
    ensures AllSound(c, got + {p})
  {
  }

  lemma TallyAdd(c: Compiler, parsed: map<Bytes, Rule>, size: nat, got: set<ProtoRule>, p: ProtoRule)
    requires Tally(c, parsed, size, got) && c(p).Ok? && p.id !in parsed
    ensures Tally(c, parsed[p.id := c(p).value], size + ProtoSize(p), got + {p})
  {
    BytesizeAdd(got, p);
    SoundAdd(c, got, p);
    EncodesAdd(c, parsed, got, p);
  }

  lemma EncodesAdd(c: Compiler, parsed: map<Bytes, Rule>, got: set<ProtoRule>, p: ProtoRule)
    requires AllSound(c, got) && AllSound(c, got + {p}) && Encodes(c, parsed, got) && p.id !in parsed
    ensures Encodes(c, parsed[p.id := c(p).value], got + {p})
  {
    var parsed' := parsed[p.id := c(p).value];
    forall id | id in parsed' ensures HasId(got + {p}, id) {
      if id == p.id {
        assert p in got + {p};
      } else {
        var q :| q in got && q.id == id;
        assert q in got + {p};
      }
    }
  }

  lemma TallyMeans(c: Compiler, parsed: map<Bytes, Rule>, size: nat, got: set<ProtoRule>)
    requires Honest(c) && Tally(c, parsed, size, got)
    ensures Keyed(parsed) && parsed.Values == EncodedSet(c, got)
    ensures CapacityOk(parsed.Values) && size <= MAX_RULE_SET_BYTES <==> Fitting(c, got)
  {
    forall id | id in parsed ensures parsed[id].id == id && parsed[id] in EncodedSet(c, got) {
      assert HasId(got, id);
      var p :| p in got && p.id == id;
    }
    forall r | r in EncodedSet(c, got) ensures r in parsed.Values {
      var p :| p in got && c(p).value == r;
      assert parsed[p.id] == r;
    }
    assert parsed.Values == EncodedSet(c, got);
  }

  /** The rules of one set that are alive. */
  function AliveIn(rules: map<Bytes, ProtoRule>, now: int): set<ProtoRule> {
    set id | id in rules && Alive(rules[id], now) :: rules[id]
  }

  ghost predicate Apart(parsed: map<Bytes, Rule>, rules: map<Bytes, ProtoRule>) {
    forall id :: id in rules ==> id !in parsed
  }

  /** Gathered so far: `got` and the live rules of `done`. */
  ghost predicate Gathered(c: Compiler, parsed: map<Bytes, Rule>, size: nat, got: set<ProtoRule>,
                           done: map<Bytes, ProtoRule>, now: int)
  {
    Tally(c, parsed, size, got + AliveIn(done, now))
  }

  lemma AliveInAdd(done: map<Bytes, ProtoRule>, now: int, p: ProtoRule)
    requires p.id !in done
    ensures AliveIn(done[p.id := p], now) == AliveIn(done, now) + (if Alive(p, now) then {p} else {})
  {
    var more := done[p.id := p];
    forall q | q in AliveIn(done, now) ensures q in AliveIn(more, now) {
      var id :| id in done && Alive(done[id], now) && done[id] == q;
      assert more[id] == q;
    }
    if Alive(p, now) {
      assert more[p.id] == p;
    }
  }

  lemma GatherStep(c: Compiler, parsed: map<Bytes, Rule>, size: nat, got: set<ProtoRule>, done: map<Bytes, ProtoRule>,
                   now: int, p: ProtoRule)
    requires Gathered(c, parsed, size, got, done, now) && p.id !in done && p.id !in parsed
    ensures c(p).Ok? && Alive(p, now) ==>
              Gathered(c, parsed[p.id := c(p).value], size + ProtoSize(p), got, done[p.id := p], now)
    ensures !Alive(p, now) ==> Gathered(c, parsed, size, got, done[p.id := p], now)
  {
    AliveInAdd(done, now, p);
    if c(p).Ok? && Alive(p, now) {
      TallyAdd(c, parsed, size, got + AliveIn(done, now), p);
      assert (got + AliveIn(done, now)) + {p} == got + AliveIn(done[p.id := p], now);
    } else if !Alive(p, now) {
      assert AliveIn(done[p.id := p], now) == AliveIn(done, now);
    }
  }

  /** Adds what parses of a set; for a new set (`all`) everything has to. */
  method Gather(c: Compiler, parsed: map<Bytes, Rule>, size: nat, ghost got: set<ProtoRule>,
                rules: map<Bytes, ProtoRule>, now: int, all: bool)
    returns (parsed': map<Bytes, Rule>, size': nat, ok: bool)
    requires Tally(c, parsed, size, got) && Apart(parsed, rules)
    requires forall id :: id in rules ==> rules[id].id == id
    requires all || forall id :: id in rules ==> c(rules[id]).Ok?
    ensures ok <==> !all || forall id :: id in rules ==> c(rules[id]).Ok? && Alive(rules[id], now)
    ensures ok ==> Tally(c, parsed', size', got + AliveIn(rules, now))
    ensures ok ==> forall id :: id in parsed' ==> id in parsed || id in rules
  {
    parsed', size', ok := parsed, size, true;
    var todo := rules.Keys;
    MinusAll(rules);
    assert got + AliveIn(map[], now) == got;
    while todo != {}
      invariant todo <= rules.Keys && Gathered(c, parsed', size', got, rules - todo, now)
      invariant forall id :: id in parsed' ==> id in parsed || id in rules - todo
      invariant all ==> forall id :: id in rules - todo ==> c(rules[id]).Ok? && Alive(rules[id], now)
      decreases todo
    {
      var id :| id in todo;
      var r := rules[id];
      GatherStep(c, parsed', size', got, rules - todo, now, r);
      MinusStep(rules, todo, id);
      todo := todo - {id};
      if c(r).Ok? && Alive(r, now) {
        parsed', size' := parsed'[id := c(r).value], size' + ProtoSize(r);
      } else if all {
        return parsed', size', false;
      }
    }
    MinusNone(rules);
  }

  lemma UnionAdd(done: Scopes, sc: Bytes, rules: map<Bytes, ProtoRule>, now: int)
    requires sc !in done
    ensures Union(done[sc := rules], now) == Union(done, now) + AliveIn(rules, now)
  {
    var more := done[sc := rules];
    forall p | p in Union(done, now) ensures p in Union(more, now) {
      var a, id :| a in done && id in done[a] && Alive(done[a][id], now) && done[a][id] == p;
      assert more[a][id] == p;
    }
    forall p | p in AliveIn(rules, now) ensures p in Union(more, now) {
      var id :| id in rules && Alive(rules[id], now) && rules[id] == p;
      assert more[sc][id] == p;
    }
    forall p | p in Union(more, now) ensures p in Union(done, now) + AliveIn(rules, now) {
      var a, id :| a in more && id in more[a] && Alive(more[a][id], now) && more[a][id] == p;
      if a != sc { assert done[a][id] == p; }
    }
  }

  ghost predicate IdsWithin(parsed: map<Bytes, Rule>, done: Scopes) {
    forall id :: id in parsed ==> exists sc :: sc in done && OfScope(id, sc)
  }

  lemma NewScopeApart(c: Compiler, parsed: map<Bytes, Rule>, done: Scopes, sc: Bytes, rules: map<Bytes, ProtoRule>)
    requires IdsWithin(parsed, done) && sc !in done && ScopeName(sc)
    requires forall a :: a in done ==> ScopeName(a)
    requires forall id :: id in rules ==> OfScope(id, sc)
    ensures Apart(parsed, rules)
  {
    forall id | id in rules ensures id !in parsed {
      if id in parsed {
        var a :| a in done && OfScope(id, a);
        ScopesApart(a, sc, id);
      }
    }
  }

  lemma IdsWithinAdd(parsed: map<Bytes, Rule>, parsed': map<Bytes, Rule>, done: Scopes, sc: Bytes,
                     rules: map<Bytes, ProtoRule>)
    requires IdsWithin(parsed, done) && sc !in done
    requires forall id :: id in rules ==> OfScope(id, sc)
    requires forall id :: id in parsed' ==> id in parsed || id in rules
    ensures IdsWithin(parsed', done[sc := rules])
  {
    forall id | id in parsed' ensures exists a :: a in done[sc := rules] && OfScope(id, a) {
      if id in parsed {
        var a :| a in done && OfScope(id, a);
        assert a in done[sc := rules];
      } else {
        assert sc in done[sc := rules];
      }
    }
  }

  /** Gathered from whole scopes: the live rules of `done`. */
  ghost predicate GatheredScopes(c: Compiler, parsed: map<Bytes, Rule>, size: nat, done: Scopes, now: int) {
    && Tally(c, parsed, size, Union(done, now)) && IdsWithin(parsed, done)
    && forall a :: a in done ==> ScopeName(a)
  }

  lemma GatheredNone(c: Compiler, now: int)
    ensures GatheredScopes(c, map[], 0, map[], now)
  {
    assert Union(map[], now) == {};
  }

  method GatherScope(c: Compiler, parsed: map<Bytes, Rule>, size: nat, ghost done: Scopes, sc: Bytes,
                     rules: map<Bytes, ProtoRule>, now: int)
    returns (parsed': map<Bytes, Rule>, size': nat)
    requires GatheredScopes(c, parsed, size, done, now)
    requires sc !in done && ScopeName(sc) && GoodSet(c, sc, rules)
    ensures GatheredScopes(c, parsed', size', done[sc := rules], now)
  {
    NewScopeApart(c, parsed, done, sc, rules);
    ghost var got := Union(done, now);
    var ok;
    parsed', size', ok := Gather(c, parsed, size, got, rules, now, false);
    UnionAdd(done, sc, rules, now);
    IdsWithinAdd(parsed, parsed', done, sc, rules);
  }

  /** The first loop of replace: what is alive in the other scopes. */
  method GatherOthers(c: Compiler, s: Scopes, skip: Bytes, now: int) returns (parsed: map<Bytes, Rule>, size: nat)
    requires GoodScopes(c, s)
    ensures GatheredScopes(c, parsed, size, s - {skip}, now)
  {
    parsed, size := map[], 0;
    var others := s - {skip};
    var todo := others.Keys;
    GatheredNone(c, now);
    MinusAll(others);
    while todo != {}
      invariant todo <= others.Keys
      invariant GatheredScopes(c, parsed, size, others - todo, now)
      decreases todo
    {
      var sc :| sc in todo;
      parsed, size := GatherScope(c, parsed, size, others - todo, sc, s[sc], now);
      MinusStep(others, todo, sc);
      todo := todo - {sc};
    }
    MinusNone(others);
  }

  /** The rest of replace up to its verdict. */
  method Decide(c: Compiler, s: Scopes, scope: Bytes, rules: map<Bytes, ProtoRule>, now: int) returns (ok: bool)
    requires Honest(c) && GoodScopes(c, s) && ScopeName(scope) && Named(scope, rules)
    ensures ok <==> Accepts(c, s, scope, rules, now)
  {
    var parsed, size := GatherOthers(c, s, scope, now);
    NewScopeApart(c, parsed, s - {scope}, scope, rules);
    ghost var got := Union(s - {scope}, now);
    parsed, size, ok := Gather(c, parsed, size, got, rules, now, true);
    if !ok {
      return;
    }
    FitsMeansAccepts(c, s, scope, rules, now, parsed, size);
    ok := CheckCapacity(parsed);
    ok := ok && size <= MAX_RULE_SET_BYTES;
  }

  lemma FitsMeansAccepts(c: Compiler, s: Scopes, scope: Bytes, rules: map<Bytes, ProtoRule>, now: int,
                         parsed: map<Bytes, Rule>, size: nat)
    requires Honest(c) && Tally(c, parsed, size, Union(s - {scope}, now) + AliveIn(rules, now))
    requires forall id :: id in rules ==> c(rules[id]).Ok? && Alive(rules[id], now)
    ensures Keyed(parsed)
    ensures CapacityOk(parsed.Values) && size <= MAX_RULE_SET_BYTES <==> Accepts(c, s, scope, rules, now)
  {
    TallyMeans(c, parsed, size, Union(s - {scope}, now) + AliveIn(rules, now));
  }

  /** Keyed by wire id, under the scope's prefix. */
  predicate Named(scope: Bytes, rules: map<Bytes, ProtoRule>) {
    forall id :: id in rules ==> rules[id].id == id && OfScope(id, scope)
  }

  function Replaced(s: Scopes, scope: Bytes, rules: map<Bytes, ProtoRule>): Scopes {
    if rules == map[] then s - {scope} else s[scope := rules]
  }

  /** When replace accepts: every new rule parses, and together with what is
      alive in the other scopes they fit a collector. */
  ghost predicate Accepts(c: Compiler, s: Scopes, scope: Bytes, rules: map<Bytes, ProtoRule>, now: int) {
    && (forall id :: id in rules ==> c(rules[id]).Ok? && Alive(rules[id], now))
    && Fitting(c, Union(s - {scope}, now) + AliveIn(rules, now))
  }

  lemma ReplacedUnion(s: Scopes, scope: Bytes, rules: map<Bytes, ProtoRule>, now: int)
    ensures Union(Replaced(s, scope, rules), now) == Union(s - {scope}, now) + AliveIn(rules, now)
  {
    var others := s - {scope};
    if rules == map[] {
      assert AliveIn(rules, now) == {};
    } else {
      UnionAdd(others, scope, rules, now);
      assert others[scope := rules] == s[scope := rules];
    }
  }

  lemma ReplacedGood(c: Compiler, s: Scopes, scope: Bytes, rules: map<Bytes, ProtoRule>)
    requires GoodScopes(c, s) && ScopeName(scope) && GoodSet(c, scope, rules)
    ensures GoodScopes(c, Replaced(s, scope, rules))
  {
  }

  lemma ReplacedOk(c: Compiler, s: Scopes, scope: Bytes, rules: map<Bytes, ProtoRule>, now: int)
    requires GoodScopes(c, s) && ScopeName(scope) && Accepts(c, s, scope, rules, now)
    requires Named(scope, rules)
    ensures StoreOk(c, Replaced(s, scope, rules), now)
  {
    ReplacedUnion(s, scope, rules, now);
    ReplacedGood(c, s, scope, rules);
  }

  // ---- desired ----

  /** Sent to collectors: not about to expire, and restricting traffic only when
      the analyzer enforces. */
  predicate Wanted(p: ProtoRule, now: int, enforcing: bool) {
    Alive(p, now + RULE_EXPIRY_MARGIN) && (enforcing || p.action == ActionPass)
  }

  function LiveIn(rules: map<Bytes, ProtoRule>, now: int): map<Bytes, ProtoRule> {
    map id | id in rules && Alive(rules[id], now) :: rules[id]
  }

  /** The scopes without what has expired; an emptied scope is gone. */
  function LiveScopes(s: Scopes, now: int): Scopes {
    map sc | sc in s && LiveIn(s[sc], now) != map[] :: LiveIn(s[sc], now)
  }

  function WantedIn(rules: map<Bytes, ProtoRule>, now: int, enforcing: bool): map<Bytes, ProtoRule> {
    map id | id in rules && Wanted(rules[id], now, enforcing) :: rules[id]
  }

  function WantedSet(s: Scopes, now: int, enforcing: bool): set<ProtoRule> {
    set p | p in Union(s, now) && Wanted(p, now, enforcing)
  }

  /** `want` are the rules of the store that expire more than the margin from now; with
      enforcement off, those of them that pass traffic. */
  ghost predicate Switched(s: Scopes, now: int, enforcing: bool, want: set<ProtoRule>) {
    && (forall p :: p in want ==>
          && (exists sc, id :: sc in s && id in s[sc] && s[sc][id] == p)
          && p.expires.Some? && now + RULE_EXPIRY_MARGIN < p.expires.value && (enforcing || p.action == ActionPass))
    && (forall sc, id :: sc in s && id in s[sc] && s[sc][id] !in want ==>
          || s[sc][id].expires.None? || s[sc][id].expires.value <= now + RULE_EXPIRY_MARGIN
          || (!enforcing && s[sc][id].action != ActionPass))
  }

  lemma WantedSwitched(s: Scopes, now: int, enforcing: bool)
    ensures Switched(s, now, enforcing, WantedSet(s, now, enforcing))
  {
  }

  /** `s'` is what is left of `s` at `now`: the rules that expire later, in their scopes,
      and no empty scope. */
  ghost predicate DropsExpired(s: Scopes, now: int, s': Scopes) {
    && (forall sc :: sc in s' ==> sc in s && s'[sc] != map[])
    && (forall sc, id :: sc in s' && id in s'[sc] ==> id in s[sc] && s'[sc][id] == s[sc][id])
    && (forall sc, id :: sc in s && id in s[sc] ==>
          (sc in s' && id in s'[sc] <==> s[sc][id].expires.Some? && now < s[sc][id].expires.value))
  }

  lemma LiveDropsExpired(s: Scopes, now: int)
    ensures DropsExpired(s, now, LiveScopes(s, now))
  {
    forall sc, id | sc in s && id in s[sc] && Alive(s[sc][id], now)
      ensures sc in LiveScopes(s, now) && id in LiveScopes(s, now)[sc]
    {
      assert id in LiveIn(s[sc], now);
    }
  }

  /** The inner loop of desired has still to look at `todo`. */
  ghost predicate HalfFiltered(rules: map<Bytes, ProtoRule>, live: map<Bytes, ProtoRule>, todo: set<Bytes>, now: int) {
    && (forall id :: id in live <==> id in rules && (id in todo || Alive(rules[id], now)))
    && (forall id :: id in live ==> live[id] == rules[id])
  }

  lemma HalfFilteredStep(rules: map<Bytes, ProtoRule>, live: map<Bytes, ProtoRule>, todo: set<Bytes>, now: int,
                         id: Bytes)
    requires HalfFiltered(rules, live, todo, now) && id in todo && todo <= rules.Keys
    ensures HalfFiltered(rules, if Alive(rules[id], now) then live else live - {id}, todo - {id}, now)
  {
  }

  lemma FilteredAll(rules: map<Bytes, ProtoRule>, live: map<Bytes, ProtoRule>, now: int)
    requires HalfFiltered(rules, live, {}, now)
    ensures live == LiveIn(rules, now)
  {
  }

  lemma WantedInAdd(done: map<Bytes, ProtoRule>, id: Bytes, r: ProtoRule, now: int, enforcing: bool)
    requires id !in done
    ensures var w := WantedIn(done, now, enforcing);
            WantedIn(done[id := r], now, enforcing) == if Wanted(r, now, enforcing) then w[id := r] else w
  {
  }

  /** One turn of the inner loop of desired, on what is sent. */
  lemma OutStep(out: map<Bytes, ProtoRule>, rules: map<Bytes, ProtoRule>, todo: set<Bytes>, id: Bytes, now: int,
                enforcing: bool)
    requires id in todo && todo <= rules.Keys
    ensures var was := out + WantedIn(rules - todo, now, enforcing);
            out + WantedIn(rules - (todo - {id}), now, enforcing)
            == if Wanted(rules[id], now, enforcing) then was[id := rules[id]] else was
  {
    MinusStep(rules, todo, id);
    WantedInAdd(rules - todo, id, rules[id], now, enforcing);
    MergeUpdate(out, WantedIn(rules - todo, now, enforcing), id, rules[id]);
  }

  /** The inner loop of desired. */
  method FilterSet(rules: map<Bytes, ProtoRule>, out: map<Bytes, ProtoRule>, now: int, enforcing: bool)
    returns (live: map<Bytes, ProtoRule>, out': map<Bytes, ProtoRule>)
    ensures live == LiveIn(rules, now) && out' == out + WantedIn(rules, now, enforcing)
  {
    live, out' := rules, out;
    var todo := rules.Keys;
    MinusAll(rules);
    assert out + WantedIn(map[], now, enforcing) == out;
    while todo != {}
      invariant todo <= rules.Keys && HalfFiltered(rules, live, todo, now)
      invariant out' == out + WantedIn(rules - todo, now, enforcing)
      decreases todo
    {
      var id :| id in todo;
      var r := rules[id];
      HalfFilteredStep(rules, live, todo, now, id);
      OutStep(out, rules, todo, id, now, enforcing);
      todo := todo - {id};
      if !Alive(r, now) {
        live := live - {id};
      } else if Alive(r, now + RULE_EXPIRY_MARGIN) && (enforcing || r.action == ActionPass) {
        out' := out'[id := r];
      }
    }
    MinusNone(rules);
    FilteredAll(rules, live, now);
  }

  lemma UnionLive(s: Scopes, now: int)
    ensures Union(LiveScopes(s, now), now) == Union(s, now)
  {
    var live := LiveScopes(s, now);
    forall p | p in Union(s, now) ensures p in Union(live, now) {
      var sc, id :| sc in s && id in s[sc] && Alive(s[sc][id], now) && s[sc][id] == p;
      assert id in LiveIn(s[sc], now);
      assert live[sc][id] == p;
    }
    forall p | p in Union(live, now) ensures p in Union(s, now) {
      var sc, id :| sc in live && id in live[sc] && Alive(live[sc][id], now) && live[sc][id] == p;
      assert s[sc][id] == p;
    }
  }

  lemma LiveOk(c: Compiler, s: Scopes, fitsFrom: int, now: int)
    requires StoreOk(c, s, fitsFrom)
    ensures StoreOk(c, LiveScopes(s, now), fitsFrom)
  {
    var live := LiveScopes(s, now);
    forall p | p in Union(live, fitsFrom) ensures p in Union(s, fitsFrom) {
      var sc, id :| sc in live && id in live[sc] && Alive(live[sc][id], fitsFrom) && live[sc][id] == p;
      assert s[sc][id] == p;
    }
    FittingSubset(c, Union(live, fitsFrom), Union(s, fitsFrom));
    forall sc | sc in LiveScopes(s, now) ensures GoodSet(c, sc, LiveIn(s[sc], now)) {
      assert GoodSet(c, sc, s[sc]);
    }
  }

  /** `out` holds the rules `some` by id; where ids collide, one of them. */
  ghost predicate Collects(some: set<ProtoRule>, out: map<Bytes, ProtoRule>) {
    && (forall id :: id in out ==> out[id].id == id && out[id] in some)
    && (forall p :: p in some ==> p.id in out)
  }

  /** Collected from the scopes `done`. */
  ghost predicate Collected(done: Scopes, out: map<Bytes, ProtoRule>, now: int, enforcing: bool) {
    Collects(WantedSet(done, now, enforcing), out)
  }

  lemma CollectMerge(some: set<ProtoRule>, out: map<Bytes, ProtoRule>, more: map<Bytes, ProtoRule>)
    requires Collects(some, out) && forall id :: id in more ==> more[id].id == id
    ensures Collects(some + more.Values, out + more)
  {
    forall p | p in more.Values ensures p.id in more {
      var id :| id in more && more[id] == p;
    }
  }

  lemma CollectScope(done: Scopes, out: map<Bytes, ProtoRule>, sc: Bytes, rules: map<Bytes, ProtoRule>, now: int,
                     enforcing: bool)
    requires Collected(done, out, now, enforcing) && sc !in done && Named(sc, rules)
    ensures Collected(done[sc := rules], out + WantedIn(rules, now, enforcing), now, enforcing)
  {
    WantedAdd(done, sc, rules, now, enforcing);
    CollectMerge(WantedSet(done, now, enforcing), out, WantedIn(rules, now, enforcing));
  }

  lemma WantedAdd(done: Scopes, sc: Bytes, rules: map<Bytes, ProtoRule>, now: int, enforcing: bool)
    requires sc !in done
    ensures WantedSet(done[sc := rules], now, enforcing)
          == WantedSet(done, now, enforcing) + WantedIn(rules, now, enforcing).Values
  {
    UnionAdd(done, sc, rules, now);
    var w := WantedIn(rules, now, enforcing);
    forall p ensures p in w.Values <==> p in AliveIn(rules, now) && Wanted(p, now, enforcing) {
      if p in w.Values {
        var id :| id in w && w[id] == p;
        assert rules[id] in AliveIn(rules, now);
      }
      if p in AliveIn(rules, now) && Wanted(p, now, enforcing) {
        var id :| id in rules && Alive(rules[id], now) && rules[id] == p;
        assert w[id] == p;
      }
    }
  }

  lemma CollectedAll(c: Compiler, s: Scopes, out: map<Bytes, ProtoRule>, now: int, enforcing: bool)
    requires GoodScopes(c, s) && Collected(s, out, now, enforcing)
    ensures out.Values == WantedSet(s, now, enforcing)
  {
    forall p | p in WantedSet(s, now, enforcing) ensures p in out.Values {
      OneRulePerId(c, s, now, p, out[p.id]);
    }
  }

  /** A wire id names one rule of the store, whatever the time. */
  lemma OneRulePerId(c: Compiler, s: Scopes, now: int, p: ProtoRule, q: ProtoRule)
    requires GoodScopes(c, s) && p in Union(s, now) && q in Union(s, now) && p.id == q.id
    ensures p == q
  {
    var a, id :| a in s && id in s[a] && Alive(s[a][id], now) && s[a][id] == p;
    var b, jd :| b in s && jd in s[b] && Alive(s[b][jd], now) && s[b][jd] == q;
    assert GoodSet(c, a, s[a]) && GoodSet(c, b, s[b]);
    ScopesApart(a, b, p.id);
  }

  /** What is wanted is alive a margin later, so it fits if the store fits then. */
  lemma WantedFits(c: Compiler, s: Scopes, fitsFrom: int, now: int, enforcing: bool)
    requires StoreOk(c, s, fitsFrom) && fitsFrom <= now + RULE_EXPIRY_MARGIN
    ensures Fitting(c, WantedSet(s, now, enforcing))
  {
    forall p | p in WantedSet(s, now, enforcing) ensures p in Union(s, fitsFrom) {
      var sc, id :| sc in s && id in s[sc] && Alive(s[sc][id], now) && s[sc][id] == p;
      assert Alive(s[sc][id], fitsFrom);
    }
    FittingSubset(c, WantedSet(s, now, enforcing), Union(s, fitsFrom));
  }

  /** The loop of desired over `s`: what stays, and what is sent. */
  method FilterScopes(c: Compiler, s: Scopes, now: int, enforcing: bool)
    returns (live: Scopes, out: map<Bytes, ProtoRule>)
    requires GoodScopes(c, s)
    ensures live == LiveScopes(s, now) && Collected(s, out, now, enforcing)
  {
    live, out := s, map[];
    var todo := s.Keys;
    MinusAll(s);
    assert WantedSet(map[], now, enforcing) == {};
    while todo != {}
      invariant todo <= s.Keys && PartlyLive(s, live, todo, now)
      invariant Collected(s - todo, out, now, enforcing)
      decreases todo
    {
      var sc :| sc in todo;
      assert GoodSet(c, sc, s[sc]);
      CollectScope(s - todo, out, sc, s[sc], now, enforcing);
      MinusStep(s, todo, sc);
      PartlyLiveStep(s, live, todo, now, sc);
      var kept;
      kept, out := FilterSet(s[sc], out, now, enforcing);
      todo := todo - {sc};
      live := if |kept| == 0 then live - {sc} else live[sc := kept];
    }
    MinusNone(s);
    PartlyLiveAll(s, live, now);
  }

  lemma PartlyLiveStep(s: Scopes, live: Scopes, todo: set<Bytes>, now: int, sc: Bytes)
    requires PartlyLive(s, live, todo, now) && sc in todo && todo <= s.Keys
    ensures var kept := LiveIn(s[sc], now);
            PartlyLive(s, if |kept| == 0 then live - {sc} else live[sc := kept], todo - {sc}, now)
  {
    var kept := LiveIn(s[sc], now);
    assert |kept| == 0 <==> kept == map[];
  }

  lemma PartlyLiveAll(s: Scopes, live: Scopes, now: int)
    requires PartlyLive(s, live, {}, now)
    ensures live == LiveScopes(s, now)
  {
  }

  ghost predicate PartlyLive(s: Scopes, live: Scopes, todo: set<Bytes>, now: int) {
    && (forall sc :: sc in live <==> sc in s && (sc in todo || LiveIn(s[sc], now) != map[]))
    && (forall sc :: sc in live ==> live[sc] == if sc in todo then s[sc] else LiveIn(s[sc], now))
  }

  class RuleStore {
    const compile: Compiler
    var scopes: Scopes
    /** The clock reading of the last push accepted: from this time on what is
        alive fits a collector. Readings are taken before the lock, so a later
        operation may carry an earlier one. */
    ghost var fitsFrom: int

    ghost predicate Valid()
      reads this
    {
      Honest(compile) && StoreOk(compile, scopes, fitsFrom)
    }

    constructor (compile: Compiler, ghost now: int)
      requires Honest(compile)
      ensures Valid() && scopes == map[] && fitsFrom == now && this.compile == compile
    {
      this.compile, scopes, fitsFrom := compile, map[], now;
      EmptyFits(compile, now);
    }

    /** replace: refuses exactly the sets a collector would not have room for
        beside the other scopes; a refused set changes nothing. */
    method Replace(scope: Bytes, rules: map<Bytes, ProtoRule>, now: int) returns (ok: bool)
      requires Valid() && ScopeName(scope) && Named(scope, rules)
      modifies this
      ensures Valid() && fitsFrom == if ok then now else old(fitsFrom)
      ensures ok <==> Accepts(compile, old(scopes), scope, rules, now)
      ensures scopes == if ok then Replaced(old(scopes), scope, rules) else old(scopes)
    {
      ok := Decide(compile, scopes, scope, rules, now);
      if ok {
        SetScope(scope, rules, now);
      }
    }

    /** The end of replace. */
    method SetScope(scope: Bytes, rules: map<Bytes, ProtoRule>, now: int)
      requires Valid() && ScopeName(scope) && Named(scope, rules) && Accepts(compile, scopes, scope, rules, now)
      modifies this
      ensures Valid() && fitsFrom == now && scopes == Replaced(old(scopes), scope, rules)
    {
      ReplacedOk(compile, scopes, scope, rules, now);
      var next := Replaced(scopes, scope, rules);
      scopes, fitsFrom := next, now;
      assert scopes == next && fitsFrom == now;
    }

    /** desired: drops what has expired, and returns exactly the wanted rules by
        wire id. A collector has room for them unless the clock reading is older
        than that of the last accepted push by more than the expiry margin; see
        RuleMargin. */
    method Desired(now: int, enforcing: bool) returns (out: map<Bytes, ProtoRule>)
      requires Valid()
      modifies this`scopes
      ensures Valid() && scopes == LiveScopes(old(scopes), now) && DropsExpired(old(scopes), now, scopes)
      ensures Switched(old(scopes), now, enforcing, out.Values)
      ensures (forall id :: id in out ==> out[id].id == id) && out.Values == WantedSet(old(scopes), now, enforcing)
      ensures fitsFrom <= now + RULE_EXPIRY_MARGIN ==> Fitting(compile, out.Values)
    {
      LiveOk(compile, scopes, fitsFrom, now);
      ghost var was := scopes;
      var live;
      live, out := FilterScopes(compile, scopes, now, enforcing);
      CollectedAll(compile, was, out, now, enforcing);
      if fitsFrom <= now + RULE_EXPIRY_MARGIN {
        WantedFits(compile, was, fitsFrom, now, enforcing);
      }
      WantedSwitched(was, now, enforcing);
      LiveDropsExpired(was, now);
      scopes := live;
      assert scopes == LiveScopes(was, now);
    }
  }

  // ---- PushRules ----

  /** A pushed rule set by wire id. */
  function WireSet(scope: Bytes, rules: seq<ProtoRule>): map<Bytes, ProtoRule> {
    if rules == [] then map[]
    else
      var last := WireRule(scope, rules[|rules| - 1]);
      WireSet(scope, rules[..|rules| - 1])[last.id := last]
  }

  predicate DistinctIds(rules: seq<ProtoRule>) {
    forall i, j :: 0 <= i < j < |rules| ==> rules[i].id != rules[j].id
  }

  predicate AllParse(c: Compiler, rules: seq<ProtoRule>, now: int) {
    forall i :: 0 <= i < |rules| ==> c(rules[i]).Ok? && Alive(rules[i], now)
  }

  predicate Pushed(rules: seq<ProtoRule>, id: Bytes) {
    exists i :: 0 <= i < |rules| && rules[i].id == id
  }

  lemma SameWireId(scope: Bytes, a: Bytes, b: Bytes)
    ensures WireId(scope, a) == WireId(scope, b) <==> a == b
  {
    assert WireId(scope, a)[|scope| + 1..] == a && WireId(scope, b)[|scope| + 1..] == b;
  }

  lemma PushedSnoc(rules: seq<ProtoRule>, id: Bytes)
    requires rules != []
    ensures Pushed(rules, id) <==> Pushed(rules[..|rules| - 1], id) || rules[|rules| - 1].id == id
  {
    var n := |rules| - 1;
    if Pushed(rules[..n], id) {
      var i :| 0 <= i < n && rules[..n][i].id == id;
      assert rules[i].id == id;
    }
    if i :| 0 <= i < |rules| && rules[i].id == id && i != n {
      assert rules[..n][i].id == id;
    }
  }

  lemma DistinctSnoc(rules: seq<ProtoRule>)
    requires rules != []
    ensures DistinctIds(rules)
            <==> DistinctIds(rules[..|rules| - 1]) && !Pushed(rules[..|rules| - 1], rules[|rules| - 1].id)
  {
    var n := |rules| - 1;
    if DistinctIds(rules[..n]) && !Pushed(rules[..n], rules[n].id) {
      forall i, j | 0 <= i < j < |rules| ensures rules[i].id != rules[j].id {
        assert rules[..n][i] == rules[i];
        if j < n { assert rules[..n][j] == rules[j]; }
      }
    }
  }

  lemma {:induction false} WireSetKeys(scope: Bytes, rules: seq<ProtoRule>, id: Bytes)
    ensures WireId(scope, id) in WireSet(scope, rules) <==> Pushed(rules, id)
  {
    if rules != [] {
      var n := |rules| - 1;
      WireSetKeys(scope, rules[..n], id);
      PushedSnoc(rules, id);
      SameWireId(scope, id, rules[n].id);
    }
  }

  lemma {:induction false} WireSetNamed(c: Compiler, scope: Bytes, rules: seq<ProtoRule>, now: int)
    requires Honest(c) && AllParse(c, rules, now)
    ensures Named(scope, WireSet(scope, rules))
    ensures forall id :: id in WireSet(scope, rules) ==>
              c(WireSet(scope, rules)[id]).Ok? && Alive(WireSet(scope, rules)[id], now)
  {
    if rules != [] {
      var n := |rules| - 1;
      WireSetNamed(c, scope, rules[..n], now);
      assert c(rules[n]).Ok? && Alive(rules[n], now);
      assert c(WireRule(scope, rules[n])).Ok?;
    }
  }

  /** The wire set holds every pushed rule under its own wire id, and nothing else. */
  lemma {:induction false} WireSetComplete(scope: Bytes, rules: seq<ProtoRule>)
    requires DistinctIds(rules)
    ensures |WireSet(scope, rules)| == |rules|
    ensures WireSet(scope, rules).Values == WireRules(scope, rules)
  {
    if rules != [] {
      var n := |rules| - 1;
      var last := WireRule(scope, rules[n]);
      var before := WireSet(scope, rules[..n]);
      DistinctSnoc(rules);
      WireSetComplete(scope, rules[..n]);
      WireSetKeys(scope, rules[..n], rules[n].id);
      ValuesAdd(before, last.id, last);
      WireRulesSnoc(scope, rules);
    }
  }

  function WireRules(scope: Bytes, rules: seq<ProtoRule>): set<ProtoRule> {
    set i | 0 <= i < |rules| :: WireRule(scope, rules[i])
  }

  lemma WireRulesSnoc(scope: Bytes, rules: seq<ProtoRule>)
    requires rules != []
    ensures WireRules(scope, rules) == WireRules(scope, rules[..|rules| - 1]) + {WireRule(scope, rules[|rules| - 1])}
  {
    var n := |rules| - 1;
    forall i | 0 <= i < n ensures rules[..n][i] == rules[i] {}
    forall p | p in WireRules(scope, rules) && p != WireRule(scope, rules[n])
      ensures p in WireRules(scope, rules[..n])
    {
      var i :| 0 <= i < |rules| && p == WireRule(scope, rules[i]);
      assert p == WireRule(scope, rules[..n][i]);
    }
  }

  /** The loop of PushRules. */
  method BuildWire(c: Compiler, scope: Bytes, rules: seq<ProtoRule>, now: int)
    returns (wire: map<Bytes, ProtoRule>, ok: bool)
    ensures ok <==> AllParse(c, rules, now) && DistinctIds(rules)
    ensures ok ==> wire == WireSet(scope, rules)
  {
    wire, ok := map[], true;
    for i := 0 to |rules|
      invariant wire == WireSet(scope, rules[..i]) && AllParse(c, rules[..i], now) && DistinctIds(rules[..i])
    {
      var r, w := rules[i], WireRule(scope, rules[i]);
      WireTurn(c, scope, rules, i, now);
      if !(c(r).Ok? && Alive(r, now)) || w.id in wire {
        return wire, false;
      }
      wire := wire[w.id := w];
    }
    assert rules[..|rules|] == rules;
  }

  /** One turn of the loop of PushRules: what it tests, and what it adds. */
  lemma WireTurn(c: Compiler, scope: Bytes, rules: seq<ProtoRule>, i: nat, now: int)
    requires i < |rules| && AllParse(c, rules[..i], now) && DistinctIds(rules[..i])
    ensures var r, w, wire := rules[i], WireRule(scope, rules[i]), WireSet(scope, rules[..i]);
            if !(c(r).Ok? && Alive(r, now)) || w.id in wire then !(AllParse(c, rules, now) && DistinctIds(rules))
            else AllParse(c, rules[..i + 1], now) && DistinctIds(rules[..i + 1])
                 && WireSet(scope, rules[..i + 1]) == wire[w.id := w]
  {
    var r, more := rules[i], rules[..i + 1];
    assert more[..i] == rules[..i] && more[i] == r;
    DistinctSnoc(more);
    WireSetKeys(scope, rules[..i], r.id);
    if !(AllParse(c, more, now) && DistinctIds(more)) {
      NotAllFine(c, rules, i + 1, now);
    }
  }

  lemma NotAllFine(c: Compiler, rules: seq<ProtoRule>, k: nat, now: int)
    requires k <= |rules| && !(AllParse(c, rules[..k], now) && DistinctIds(rules[..k]))
    ensures !(AllParse(c, rules, now) && DistinctIds(rules))
  {
    assert forall i :: 0 <= i < k ==> rules[..k][i] == rules[i];
  }

  lemma AllAlive(rules: map<Bytes, ProtoRule>, now: int)
    requires forall id :: id in rules ==> Alive(rules[id], now)
    ensures AliveIn(rules, now) == rules.Values
  {
    forall p | p in rules.Values ensures p in AliveIn(rules, now) {
      var id :| id in rules && rules[id] == p;
    }
  }

  /** PushRules, up to telling the collectors: a push is accepted exactly when the
      API is on, the scope is a scope name, the rules parse, no id repeats and a
      collector has room for them beside the other scopes; then the scope holds
      exactly the pushed rules. A refused push changes nothing. */
  method PushRules(store: RuleStore, enabled: bool, scope: Bytes, rules: seq<ProtoRule>, now: int) returns (ok: bool)
    requires store.Valid()
    modifies store
    ensures store.Valid() && store.fitsFrom == if ok then now else old(store.fitsFrom)
    ensures ok <==> && enabled && ScopeName(scope) && AllParse(store.compile, rules, now) && DistinctIds(rules)
                    && Fitting(store.compile, Union(old(store.scopes) - {scope}, now) + WireRules(scope, rules))
    ensures store.scopes == if ok then Replaced(old(store.scopes), scope, WireSet(scope, rules)) else old(store.scopes)
  {
    ok := false;
    if !enabled || |scope| == 0 || SEP in scope {
      return;
    }
    var wire, parses := BuildWire(store.compile, scope, rules, now);
    if parses {
      WireSetNamed(store.compile, scope, rules, now);
      WireSetComplete(scope, rules);
      AllAlive(wire, now);
      ok := store.Replace(scope, wire, now);
    }
  }

  lemma EmptyFits(c: Compiler, now: int)
    ensures StoreOk(c, map[], now)
  {
    assert Union(map[], now) == {};
    assert EncodedSet(c, {}) == {} && Family({}, true) == {} && Family({}, false) == {};
  }
}

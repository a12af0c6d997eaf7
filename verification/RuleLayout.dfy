/** How a priority-ordered rule list is laid out for a longest-prefix-match trie
    (pkg/scrubrules/scrubrules.go: Flatten, SplitFamilies, CheckCapacity). */
module RuleLayout {
  import opened Collections
  import opened Orders
  import opened Prefixes
  import opened RuleBody

  /** Limits of the XDP matcher, pkg/collector/ebpf/rules.go. */
  const RULES_MAX: nat := 4096
  const RULES_PER_DST: nat := 32

  /** A Go string: its bytes. */
  type Bytes = seq<nat>

  /** A validated rule with its kernel encoding. */
  datatype Rule = Rule(id: Bytes, priority: nat, dst: Prefix, expires: int, body: ScrubRule)

  datatype Result<+T> = Ok(value: T) | Err

  /** Evaluation order. */
  predicate Before(a: Rule, b: Rule) {
    a.priority < b.priority || (a.priority == b.priority && LexLe(a.id, b.id))
  }

  lemma BeforeIsOrder()
    ensures TotalPreorder(Before)
  {
    forall a, b ensures Before(a, b) || Before(b, a) { LexTotal(a.id, b.id); }
    forall a, b, c | Before(a, b) && Before(b, c) ensures Before(a, c) {
      if a.priority == c.priority { LexTransitive(a.id, b.id, c.id); }
    }
  }

  ghost predicate UniqueIds(rules: set<Rule>) {
    forall a, b :: a in rules && b in rules && a.id == b.id ==> a == b
  }

  /** The rules that decide about destination `p`: every prefix covering it. */
  function Covering(rules: set<Rule>, p: Prefix): set<Rule> {
    set r | r in rules && CoversPrefix(r.dst, p)
  }

  ghost predicate Lists(s: seq<Rule>, rules: set<Rule>) {
    SortedBy(s, Before) && multiset(s) == multiset(rules)
  }

  ghost function Listed(rules: set<Rule>): seq<Rule> {
    if rules == {} then [] else var r :| r in rules; [r] + Listed(rules - {r})
  }

  lemma {:induction false} ListedAll(rules: set<Rule>)
    ensures multiset(Listed(rules)) == multiset(rules)
  {
    if rules != {} {
      var r :| r in rules && Listed(rules) == [r] + Listed(rules - {r});
      ListedAll(rules - {r});
      assert multiset(rules) == multiset{r} + multiset(rules - {r});
    }
  }

  /** `rules` in evaluation order. */
  ghost function InOrder(rules: set<Rule>): seq<Rule> {
    Sort(Listed(rules), Before)
  }

  lemma InOrderCorrect(rules: set<Rule>)
    ensures Lists(InOrder(rules), rules) && |InOrder(rules)| == |rules|
    ensures forall r :: r in InOrder(rules) <==> r in rules
  {
    BeforeIsOrder();
    SortCorrect(Listed(rules), Before);
    ListedAll(rules);
    var s := InOrder(rules);
    assert |multiset(s)| == |multiset(rules)|;
    assert forall r :: r in s <==> r in multiset(s);
  }

  /** Only one list holds given rules in evaluation order. */
  lemma InOrderUnique(s: seq<Rule>, rules: set<Rule>)
    requires Lists(s, rules) && UniqueIds(rules)
    ensures s == InOrder(rules)
  {
    forall i, j | 0 <= i < |s| && 0 <= j < |s| && Before(s[i], s[j]) && Before(s[j], s[i]) ensures s[i] == s[j] {
      LexAntisymmetric(s[i].id, s[j].id);
      assert s[i] in multiset(s) && s[j] in multiset(s);
    }
    InOrderCorrect(rules);
    SortedUnique(s, InOrder(rules), Before);
  }

  function Destinations(rules: set<Rule>): set<Prefix> {
    set r | r in rules :: r.dst
  }

  /** What Flatten means: at each destination, every covering rule in order. */
  ghost function Flattened(rules: set<Rule>): map<Prefix, seq<Rule>> {
    map p | p in Destinations(rules) :: InOrder(Covering(rules, p))
  }

  predicate Fits(rules: set<Rule>) {
    forall p :: p in Destinations(rules) ==> |Covering(rules, p)| <= RULES_PER_DST
  }

  // ---- Longest-prefix match ----

  /** The kernel's lookup of an address in an LPM trie: the entry of the longest
      prefix of the first `n` bits. */
  function Lookup<T>(trie: map<Prefix, T>, v4: bool, addr: seq<Bit>, n: nat): Result<T>
    requires n <= |addr|
  {
    if Prefix(v4, addr[..n]) in trie then Ok(trie[Prefix(v4, addr[..n])])
    else if n == 0 then Err
    else Lookup(trie, v4, addr, n - 1)
  }

  lemma {:induction false} LookupFindsLongest<T>(trie: map<Prefix, T>, v4: bool, addr: seq<Bit>, n: nat)
    returns (m: nat)
    requires n <= |addr|
    ensures m <= n
    ensures Lookup(trie, v4, addr, n).Ok? ==>
              Prefix(v4, addr[..m]) in trie && Lookup(trie, v4, addr, n).value == trie[Prefix(v4, addr[..m])]
    ensures forall i :: (if Lookup(trie, v4, addr, n).Ok? then m else -1) < i <= n ==> Prefix(v4, addr[..i]) !in trie
  {
    if Prefix(v4, addr[..n]) in trie {
      m := n;
    } else if n == 0 {
      m := 0;
    } else {
      m := LookupFindsLongest(trie, v4, addr, n - 1);
    }
  }

  /** No covering rule is longer than the first `m` bits: then those bits have
      the same covering rules as the whole address. */
  lemma CoveringOfMatch(rules: set<Rule>, v4: bool, addr: seq<Bit>, m: nat)
    requires m <= |addr|
    requires forall r :: r in Covering(rules, Prefix(v4, addr)) ==> |r.dst.path| <= m
    ensures Covering(rules, Prefix(v4, addr[..m])) == Covering(rules, Prefix(v4, addr))
  {
    forall r | r in rules
      ensures CoversPrefix(r.dst, Prefix(v4, addr[..m])) <==> CoversPrefix(r.dst, Prefix(v4, addr))
    {
      if CoversPrefix(r.dst, Prefix(v4, addr)) {
        assert r in Covering(rules, Prefix(v4, addr));
        assert addr[..|r.dst.path|] == addr[..m][..|r.dst.path|];
      }
      if CoversPrefix(r.dst, Prefix(v4, addr[..m])) {
        assert addr[..m][..|r.dst.path|] == addr[..|r.dst.path|];
      }
    }
  }

  lemma DestinationOf(rules: set<Rule>, v4: bool, addr: seq<Bit>, r: Rule)
    requires r in Covering(rules, Prefix(v4, addr))
    ensures |r.dst.path| <= |addr| && r.dst == Prefix(v4, addr[..|r.dst.path|]) && r.dst in Flattened(rules)
  {
  }

  /** Flatten preserves meaning. Looking any address up in the flattened trie
      yields exactly all rules whose destination covers it, in evaluation order,
      and nothing when no rule covers it. */
  lemma {:induction false} FlattenedMeaning(rules: set<Rule>, v4: bool, addr: seq<Bit>)
    ensures var covering := Covering(rules, Prefix(v4, addr));
            Lookup(Flattened(rules), v4, addr, |addr|) == if covering == {} then Err else Ok(InOrder(covering))
  {
    var covering := Covering(rules, Prefix(v4, addr));
    var found := Lookup(Flattened(rules), v4, addr, |addr|);
    var m := LookupFindsLongest(Flattened(rules), v4, addr, |addr|);
    forall r | r in covering ensures found.Ok? && |r.dst.path| <= m {
      DestinationOf(rules, v4, addr, r);
    }
    if found.Ok? {
      CoveringOfMatch(rules, v4, addr, m);
      var r :| r in rules && r.dst == Prefix(v4, addr[..m]);
      assert r in covering;
    }
  }

  // ---- Limits under subsets ----

  function Family(rules: set<Rule>, v4: bool): set<Rule> {
    set r | r in rules && r.dst.v4 == v4
  }

  predicate CapacityOk(rules: set<Rule>) {
    && |Family(rules, true)| <= RULES_MAX && |Family(rules, false)| <= RULES_MAX
    && Fits(Family(rules, true)) && Fits(Family(rules, false))
  }

  lemma FitsSubset(fewer: set<Rule>, rules: set<Rule>)
    requires fewer <= rules && Fits(rules)
    ensures Fits(fewer)
  {
    forall p | p in Destinations(fewer) ensures |Covering(fewer, p)| <= RULES_PER_DST {
      assert p in Destinations(rules);
      SubsetCardinality(Covering(fewer, p), Covering(rules, p));
    }
  }

  /** What fits: of either family at most RulesMax rules, of which no more than
      RulesPerDst cover the destination of any one. */
  lemma CapacityMeaning(rules: set<Rule>)
    ensures CapacityOk(rules) <==>
              && |set r | r in rules && r.dst.v4| <= RULES_MAX && |set r | r in rules && !r.dst.v4| <= RULES_MAX
              && forall q :: q in rules ==>
                   |set r | r in rules && r.dst.v4 == q.dst.v4 && r.dst.path <= q.dst.path| <= RULES_PER_DST
  {
    assert Family(rules, true) == set r | r in rules && r.dst.v4;
    assert Family(rules, false) == set r | r in rules && !r.dst.v4;
    forall q | q in rules
      ensures Covering(Family(rules, q.dst.v4), q.dst)
           == set r | r in rules && r.dst.v4 == q.dst.v4 && r.dst.path <= q.dst.path
    {
    }
    forall v4, p | p in Destinations(Family(rules, v4)) ensures exists q :: q in rules && q.dst == p && p.v4 == v4 {
      var q :| q in Family(rules, v4) && q.dst == p;
    }
    assert forall q :: q in rules ==> q.dst in Destinations(Family(rules, q.dst.v4));
  }

  /** Any part of a rule set that fits also fits. */
  lemma CapacitySubset(fewer: set<Rule>, rules: set<Rule>)
    requires fewer <= rules && CapacityOk(rules)
    ensures CapacityOk(fewer)
  {
    SubsetCardinality(Family(fewer, true), Family(rules, true));
    SubsetCardinality(Family(fewer, false), Family(rules, false));
    FitsSubset(Family(fewer, true), Family(rules, true));
    FitsSubset(Family(fewer, false), Family(rules, false));
  }

  // ---- The loops of Flatten ----

  /** The rules installed at exactly `p`, in list order. */
  function WithDst(rules: seq<Rule>, p: Prefix): seq<Rule> {
    if rules == [] then []
    else
      var n := |rules| - 1;
      WithDst(rules[..n], p) + if rules[n].dst == p then [rules[n]] else []
  }

  lemma {:induction false} WithDstMembers(rules: seq<Rule>, p: Prefix)
    ensures forall r :: r in WithDst(rules, p) <==> r in rules && r.dst == p
  {
    if rules != [] {
      var n := |rules| - 1;
      WithDstMembers(rules[..n], p);
      assert rules == rules[..n] + [rules[n]];
    }
  }

  predicate CoversAbove(r: Rule, p: Prefix, bits: nat) {
    CoversPrefix(r.dst, p) && |r.dst.path| < bits
  }

  /** The rules covering `p` from prefixes shorter than `bits`, in list order. */
  function Above(rules: seq<Rule>, p: Prefix, bits: nat): seq<Rule> {
    if rules == [] then []
    else
      var n := |rules| - 1;
      Above(rules[..n], p, bits) + if CoversAbove(rules[n], p, bits) then [rules[n]] else []
  }

  lemma {:induction false} AboveMembers(rules: seq<Rule>, p: Prefix, bits: nat)
    ensures forall r :: r in Above(rules, p, bits) <==> r in rules && CoversAbove(r, p, bits)
  {
    if rules != [] {
      var n := |rules| - 1;
      AboveMembers(rules[..n], p, bits);
      assert rules == rules[..n] + [rules[n]];
    }
  }

  lemma CoversOneMore(r: Rule, p: Prefix, bits: nat)
    requires bits <= |p.path|
    ensures CoversAbove(r, p, bits + 1) <==> CoversAbove(r, p, bits) || r.dst == Prefix(p.v4, p.path[..bits])
    ensures !(CoversAbove(r, p, bits) && r.dst == Prefix(p.v4, p.path[..bits]))
  {
  }

  lemma {:induction false} AncestorStep(rules: seq<Rule>, p: Prefix, bits: nat)
    requires bits <= |p.path|
    ensures multiset(Above(rules, p, bits + 1))
         == multiset(Above(rules, p, bits)) + multiset(WithDst(rules, Prefix(p.v4, p.path[..bits])))
  {
    if rules != [] {
      var n := |rules| - 1;
      AncestorStep(rules[..n], p, bits);
      CoversOneMore(rules[n], p, bits);
    }
  }

  lemma {:induction false} AboveDistinct(rules: seq<Rule>, p: Prefix, bits: nat)
    requires DistinctIds(rules)
    ensures DistinctIds(Above(rules, p, bits))
  {
    if rules != [] {
      var n := |rules| - 1;
      AboveDistinct(rules[..n], p, bits);
      AboveMembers(rules[..n], p, bits);
      forall r | r in Above(rules[..n], p, bits) ensures r.id != rules[n].id {
        var i :| 0 <= i < n && rules[..n][i] == r;
      }
    }
  }

  /** The elements of a list of distinct elements, as a multiset. */
  lemma {:induction false} DistinctMultiset<T>(s: seq<T>)
    requires forall i, j :: 0 <= i < j < |s| ==> s[i] != s[j]
    ensures multiset(s) == multiset(set x | x in s)
  {
    if s != [] {
      var n := |s| - 1;
      DistinctMultiset(s[..n]);
      assert s == s[..n] + [s[n]];
      assert (set x | x in s) == (set x | x in s[..n]) + {s[n]};
      assert s[n] !in s[..n];
    }
  }

  ghost predicate DistinctIds(rules: seq<Rule>) {
    forall i, j :: 0 <= i < j < |rules| ==> rules[i].id != rules[j].id
  }

  function RuleSet(rules: seq<Rule>): set<Rule> {
    set r | r in rules
  }

  lemma DistinctIdsUnique(rules: seq<Rule>)
    requires DistinctIds(rules)
    ensures UniqueIds(RuleSet(rules))
    ensures forall i, j :: 0 <= i < j < |rules| ==> rules[i] != rules[j]
  {
  }

  /** A Go map read: nothing where there is no entry. */
  function Group(byPrefix: map<Prefix, seq<Rule>>, p: Prefix): seq<Rule> {
    if p in byPrefix then byPrefix[p] else []
  }

  ghost predicate Grouped(byPrefix: map<Prefix, seq<Rule>>, rules: seq<Rule>) {
    forall p :: Group(byPrefix, p) == WithDst(rules, p)
  }

  method GroupByPrefix(rules: seq<Rule>) returns (byPrefix: map<Prefix, seq<Rule>>)
    ensures Grouped(byPrefix, rules)
    ensures byPrefix.Keys == Destinations(RuleSet(rules))
  {
    byPrefix := map[];
    for i := 0 to |rules|
      invariant Grouped(byPrefix, rules[..i])
      invariant forall p :: p in byPrefix ==> byPrefix[p] != []
    {
      var r := rules[i];
      assert rules[..i + 1][..i] == rules[..i] && rules[..i + 1][i] == r;
      byPrefix := byPrefix[r.dst := Group(byPrefix, r.dst) + [r]];
    }
    assert rules[..|rules|] == rules;
    forall p ensures p in byPrefix <==> p in Destinations(RuleSet(rules)) {
      WithDstNonEmpty(rules, p);
      assert Group(byPrefix, p) == WithDst(rules, p);
    }
  }

  lemma WithDstNonEmpty(rules: seq<Rule>, p: Prefix)
    ensures WithDst(rules, p) != [] <==> p in Destinations(RuleSet(rules))
  {
    WithDstMembers(rules, p);
    if WithDst(rules, p) != [] {
      assert WithDst(rules, p)[0] in WithDst(rules, p);
    }
    if p in Destinations(RuleSet(rules)) {
      var r :| r in rules && r.dst == p;
      assert r in WithDst(rules, p);
    }
  }

  lemma {:induction false} AboveNothing(rules: seq<Rule>, p: Prefix)
    ensures Above(rules, p, 0) == []
  {
    if rules != [] { AboveNothing(rules[..|rules| - 1], p); }
  }

  /** Walking the ancestors of one destination collects its covering rules. */
  method CollectCovering(rules: seq<Rule>, byPrefix: map<Prefix, seq<Rule>>, p: Prefix) returns (covering: seq<Rule>)
    requires Grouped(byPrefix, rules)
    ensures multiset(covering) == multiset(Above(rules, p, |p.path| + 1))
  {
    covering := [];
    AboveNothing(rules, p);
    for bits := 0 to |p.path| + 1
      invariant multiset(covering) == multiset(Above(rules, p, bits))
    {
      var ancestor := Prefix(p.v4, p.path[..bits]);
      AncestorStep(rules, p, bits);
      assert Group(byPrefix, ancestor) == WithDst(rules, ancestor);
      covering := covering + Group(byPrefix, ancestor);
    }
  }

  lemma CoveringInOrder(rules: seq<Rule>, p: Prefix, covering: seq<Rule>)
    requires DistinctIds(rules)
    requires SortedBy(covering, Before)
    requires multiset(covering) == multiset(Above(rules, p, |p.path| + 1))
    ensures covering == InOrder(Covering(RuleSet(rules), p))
    ensures |covering| == |Covering(RuleSet(rules), p)|
  {
    var f := Above(rules, p, |p.path| + 1);
    DistinctIdsUnique(rules);
    AboveDistinct(rules, p, |p.path| + 1);
    AboveMembers(rules, p, |p.path| + 1);
    DistinctMultiset(f);
    assert (set r | r in f) == Covering(RuleSet(rules), p);
    InOrderUnique(covering, Covering(RuleSet(rules), p));
    InOrderCorrect(Covering(RuleSet(rules), p));
  }

  method FlattenOne(rules: seq<Rule>, byPrefix: map<Prefix, seq<Rule>>, p: Prefix) returns (covering: seq<Rule>)
    requires DistinctIds(rules)
    requires Grouped(byPrefix, rules)
    ensures covering == InOrder(Covering(RuleSet(rules), p))
    ensures |covering| == |Covering(RuleSet(rules), p)|
  {
    covering := CollectCovering(rules, byPrefix, p);
    BeforeIsOrder();
    SortCorrect(covering, Before);
    covering := Sort(covering, Before);
    CoveringInOrder(rules, p, covering);
  }

  ghost predicate Correct(out: map<Prefix, seq<Rule>>, all: set<Rule>) {
    forall p :: p in out ==> out[p] == InOrder(Covering(all, p)) && |Covering(all, p)| <= RULES_PER_DST
  }

  lemma CorrectIsFlattened(out: map<Prefix, seq<Rule>>, all: set<Rule>)
    requires Correct(out, all) && out.Keys == Destinations(all)
    ensures out == Flattened(all) && Fits(all)
  {
  }

  method FlattenAll(rules: seq<Rule>, byPrefix: map<Prefix, seq<Rule>>) returns (out: map<Prefix, seq<Rule>>, ok: bool)
    requires DistinctIds(rules) && Grouped(byPrefix, rules)
    ensures ok ==> Correct(out, RuleSet(rules)) && out.Keys == byPrefix.Keys
    ensures !ok ==> exists p :: p in byPrefix.Keys && |Covering(RuleSet(rules), p)| > RULES_PER_DST
  {
    out := map[];
    var todo := byPrefix.Keys;
    while todo != {}
      invariant todo <= byPrefix.Keys && out.Keys == byPrefix.Keys - todo
      invariant Correct(out, RuleSet(rules))
      decreases todo
    {
      var p :| p in todo;
      todo := todo - {p};
      var covering := FlattenOne(rules, byPrefix, p);
      if |covering| > RULES_PER_DST {
        return out, false;
      }
      out := out[p := covering];
    }
    ok := true;
  }

  /** Flatten. The result is a function of the set of rules: neither the order
      the rules arrive in nor the order prefixes are visited in shows. It fails
      exactly when some destination is covered by too many rules. */
  method Flatten(rules: seq<Rule>) returns (r: Result<map<Prefix, seq<Rule>>>)
    requires DistinctIds(rules)
    ensures r.Ok? <==> Fits(RuleSet(rules))
    ensures r.Ok? ==> r.value == Flattened(RuleSet(rules))
  {
    var byPrefix := GroupByPrefix(rules);
    var out, ok := FlattenAll(rules, byPrefix);
    if !ok {
      return Err;
    }
    CorrectIsFlattened(out, RuleSet(rules));
    r := Ok(out);
  }

  // ---- Rule sets keyed by id ----

  predicate Keyed(rules: map<Bytes, Rule>) {
    forall id :: id in rules ==> rules[id].id == id
  }

  method SplitFamilies(rules: map<Bytes, Rule>) returns (v4: seq<Rule>, v6: seq<Rule>)
    requires Keyed(rules)
    ensures DistinctIds(v4) && DistinctIds(v6)
    ensures RuleSet(v4) == Family(rules.Values, true) && RuleSet(v6) == Family(rules.Values, false)
    ensures |v4| == |Family(rules.Values, true)| && |v6| == |Family(rules.Values, false)|
  {
    v4, v6 := [], [];
    var todo := rules.Keys;
    while todo != {}
      invariant todo <= rules.Keys
      invariant DistinctIds(v4) && DistinctIds(v6)
      invariant forall r :: r in v4 <==> r.id in rules && r.id !in todo && rules[r.id] == r && r.dst.v4
      invariant forall r :: r in v6 <==> r.id in rules && r.id !in todo && rules[r.id] == r && !r.dst.v4
      decreases todo
    {
      var id :| id in todo;
      todo := todo - {id};
      if rules[id].dst.v4 {
        v4 := v4 + [rules[id]];
      } else {
        v6 := v6 + [rules[id]];
      }
    }
    assert forall r :: r in rules.Values <==> r.id in rules && rules[r.id] == r;
    ListSize(v4);
    ListSize(v6);
    assert RuleSet(v4) == Family(rules.Values, true);
    assert RuleSet(v6) == Family(rules.Values, false);
  }

  lemma ListSize(rules: seq<Rule>)
    requires DistinctIds(rules)
    ensures |rules| == |RuleSet(rules)|
  {
    DistinctMultiset(rules);
    assert |multiset(rules)| == |multiset(RuleSet(rules))|;
  }

  method CheckCapacity(rules: map<Bytes, Rule>) returns (ok: bool)
    requires Keyed(rules)
    ensures ok <==> CapacityOk(rules.Values)
  {
    var v4, v6 := SplitFamilies(rules);
    if |v4| > RULES_MAX || |v6| > RULES_MAX {
      return false;
    }
    var f4 := Flatten(v4);
    if f4.Err? {
      return false;
    }
    var f6 := Flatten(v6);
    ok := f6.Ok?;
  }
}

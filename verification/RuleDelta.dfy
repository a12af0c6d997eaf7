/** Rule deltas as a collector sees them (Apply and Expire in
    pkg/collector/rules.go): the rule set a delta asks for, or its rejection. */
module RuleDelta {
  import opened Basics
  import opened Collections
  import opened Orders
  import opened RuleLayout
  import opened RuleParse

  /** The rules of a delta (apiv1.RuleSetDelta). */
  datatype Delta = Delta(replace: bool, remove: seq<Bytes>, upsert: seq<ProtoRule>)

  datatype ApplyResult = ApplyResult(upserted: nat, removed: nat, activeV4: nat, activeV6: nat)

  /** The rules of a delta as Parse sees them. */
  function ParseAll(ups: seq<ProtoRule>, now: int): (p: seq<Result<Rule>>)
    ensures |p| == |ups| && forall i :: 0 <= i < |p| ==> p[i] == Parse(ups[i], now)
  {
    seq(|ups|, i requires 0 <= i < |ups| => Parse(ups[i], now))
  }

  predicate HasId(p: Result<Rule>, id: Bytes) {
    p.Ok? && p.value.id == id
  }

  predicate IdIn(parsed: seq<Result<Rule>>, id: Bytes) {
    exists i :: 0 <= i < |parsed| && HasId(parsed[i], id)
  }

  /** The upserts of a delta applied to `base`: all of them, or none. */
  function Upserts(base: map<Bytes, Rule>, parsed: seq<Result<Rule>>): Result<map<Bytes, Rule>> {
    if parsed == [] then Ok(base)
    else
      var n := |parsed| - 1;
      var before := Upserts(base, parsed[..n]);
      if before.Err? || parsed[n].Err? || IdIn(parsed[..n], parsed[n].value.id) then Err
      else Ok(before.value[parsed[n].value.id := parsed[n].value])
  }

  lemma IdInSnoc(parsed: seq<Result<Rule>>, p: Result<Rule>, id: Bytes)
    ensures IdIn(parsed + [p], id) <==> IdIn(parsed, id) || HasId(p, id)
  {
    if IdIn(parsed, id) {
      var i :| 0 <= i < |parsed| && HasId(parsed[i], id);
      assert (parsed + [p])[i] == parsed[i];
    }
    assert (parsed + [p])[|parsed|] == p;
  }

  /** One bad or repeated rule rejects the delta. */
  lemma {:induction false} UpsertsRejects(base: map<Bytes, Rule>, parsed: seq<Result<Rule>>)
    ensures Upserts(base, parsed).Ok? <==>
              && (forall i :: 0 <= i < |parsed| ==> parsed[i].Ok?)
              && (forall i, j :: 0 <= i < j < |parsed| ==> parsed[i].value.id != parsed[j].value.id)
  {
    if parsed != [] {
      var n := |parsed| - 1;
      UpsertsRejects(base, parsed[..n]);
    }
  }

  /** Otherwise the ids stated get the rules stated and all others stay. */
  lemma {:induction false} UpsertsResult(base: map<Bytes, Rule>, parsed: seq<Result<Rule>>, id: Bytes)
    requires Keyed(base) && Upserts(base, parsed).Ok?
    ensures var m := Upserts(base, parsed).value;
            && Keyed(m)
            && (id in m <==> id in base || IdIn(parsed, id))
            && (id in m && !IdIn(parsed, id) ==> m[id] == base[id])
            && (IdIn(parsed, id) ==> Ok(m[id]) in parsed)
  {
    if parsed != [] {
      var n := |parsed| - 1;
      UpsertsResult(base, parsed[..n], id);
      assert parsed == parsed[..n] + [parsed[n]];
      IdInSnoc(parsed[..n], parsed[n], id);
    }
  }

  function Without(rules: map<Bytes, Rule>, remove: seq<Bytes>): map<Bytes, Rule> {
    map id | id in rules && id !in remove :: rules[id]
  }

  /** The rule set a delta asks for. */
  function Target(rules: map<Bytes, Rule>, delta: Delta, now: int): Result<map<Bytes, Rule>> {
    Upserts(if delta.replace then map[] else Without(rules, delta.remove), ParseAll(delta.upsert, now))
  }

  /** Every rule a delta states parses, and none is stated twice. */
  predicate Acceptable(delta: Delta, now: int) {
    && (forall i :: 0 <= i < |delta.upsert| ==> Parse(delta.upsert[i], now).Ok?)
    && (forall i, j :: 0 <= i < j < |delta.upsert| ==> delta.upsert[i].id != delta.upsert[j].id)
  }

  /** `next` is what the delta makes of `rules`: the rules it states as they parse, and of
      the others those it does not remove; or none of them, if it replaces all. */
  ghost predicate CarriedOut(rules: map<Bytes, Rule>, delta: Delta, now: int, next: map<Bytes, Rule>) {
    && (forall i :: 0 <= i < |delta.upsert| ==>
          var pr := delta.upsert[i]; pr.id in next && Parse(pr, now) == Ok(next[pr.id]))
    && (forall id :: !States(delta, id) ==>
          && (id in next <==> id in rules && !delta.replace && id !in delta.remove)
          && (id in next ==> next[id] == rules[id]))
  }

  predicate States(delta: Delta, id: Bytes) {
    exists i :: 0 <= i < |delta.upsert| && delta.upsert[i].id == id
  }

  lemma StatedIds(delta: Delta, now: int, id: Bytes)
    requires Acceptable(delta, now)
    ensures IdIn(ParseAll(delta.upsert, now), id) <==> States(delta, id)
  {
    var parsed := ParseAll(delta.upsert, now);
    if i :| 0 <= i < |delta.upsert| && delta.upsert[i].id == id {
      assert HasId(parsed[i], id);
    }
  }

  lemma StatedRule(base: map<Bytes, Rule>, delta: Delta, now: int, i: nat)
    requires Keyed(base) && Acceptable(delta, now) && i < |delta.upsert|
    requires Upserts(base, ParseAll(delta.upsert, now)).Ok?
    ensures var next, pr := Upserts(base, ParseAll(delta.upsert, now)).value, delta.upsert[i];
            pr.id in next && Parse(pr, now) == Ok(next[pr.id])
  {
    var parsed, id := ParseAll(delta.upsert, now), delta.upsert[i].id;
    UpsertsResult(base, parsed, id);
    assert HasId(parsed[i], id);
    var j :| 0 <= j < |parsed| && parsed[j] == Ok(Upserts(base, parsed).value[id]);
    assert parsed[j].value.id == delta.upsert[j].id;
  }

  lemma OtherRule(rules: map<Bytes, Rule>, base: map<Bytes, Rule>, delta: Delta, now: int, id: Bytes)
    requires Keyed(rules) && base == (if delta.replace then map[] else Without(rules, delta.remove))
    requires Acceptable(delta, now) && Upserts(base, ParseAll(delta.upsert, now)).Ok? && !States(delta, id)
    ensures var next := Upserts(base, ParseAll(delta.upsert, now)).value;
            && (id in next <==> id in rules && !delta.replace && id !in delta.remove)
            && (id in next ==> next[id] == rules[id])
  {
    StatedIds(delta, now, id);
    UpsertsResult(base, ParseAll(delta.upsert, now), id);
  }

  lemma UpsertsCarryOut(rules: map<Bytes, Rule>, base: map<Bytes, Rule>, delta: Delta, now: int)
    requires Keyed(rules) && base == (if delta.replace then map[] else Without(rules, delta.remove))
    requires Acceptable(delta, now) && Upserts(base, ParseAll(delta.upsert, now)).Ok?
    ensures CarriedOut(rules, delta, now, Upserts(base, ParseAll(delta.upsert, now)).value)
  {
    var next := Upserts(base, ParseAll(delta.upsert, now)).value;
    forall i | 0 <= i < |delta.upsert|
      ensures var pr := delta.upsert[i]; pr.id in next && Parse(pr, now) == Ok(next[pr.id])
    {
      StatedRule(base, delta, now, i);
    }
    forall id | !States(delta, id)
      ensures (id in next <==> id in rules && !delta.replace && id !in delta.remove)
      ensures id in next ==> next[id] == rules[id]
    {
      OtherRule(rules, base, delta, now, id);
    }
  }

  lemma AcceptableUpserts(base: map<Bytes, Rule>, delta: Delta, now: int)
    ensures Upserts(base, ParseAll(delta.upsert, now)).Ok? <==> Acceptable(delta, now)
  {
    UpsertsRejects(base, ParseAll(delta.upsert, now));
  }

  /** A delta is rejected exactly for a rule that does not parse or is stated twice; else
      it does what it says. */
  lemma DeltaMeaning(rules: map<Bytes, Rule>, delta: Delta, now: int)
    requires Keyed(rules)
    ensures Target(rules, delta, now).Ok? <==> Acceptable(delta, now)
    ensures Target(rules, delta, now).Ok? ==> CarriedOut(rules, delta, now, Target(rules, delta, now).value) == true
  {
    var base := if delta.replace then map[] else Without(rules, delta.remove);
    AcceptableUpserts(base, delta, now);
    if Acceptable(delta, now) { UpsertsCarryOut(rules, base, delta, now); }
  }

  /** The rules a delta takes away are those a replacement leaves out, or those it lists. */
  lemma RemovedMeaning(was: map<Bytes, Rule>, delta: Delta, next: map<Bytes, Rule>)
    ensures RemovedCount(was, delta, next)
         == |set id | id in was && (if delta.replace then id !in next else id in delta.remove)|
  {
    assert was.Keys - (if delta.replace then next else Without(was, delta.remove)).Keys
        == set id | id in was && (if delta.replace then id !in next else id in delta.remove);
  }

  /** How many rules a delta took away: those it replaced by nothing, or those it
      removed (even if it also states them anew). */
  function RemovedCount(was: map<Bytes, Rule>, delta: Delta, next: map<Bytes, Rule>): nat {
    |was.Keys - (if delta.replace then next else Without(was, delta.remove)).Keys|
  }

  function Unexpired(rules: map<Bytes, Rule>, now: int): map<Bytes, Rule> {
    map id | id in rules && now < rules[id].expires :: rules[id]
  }

  lemma WithoutSnoc(rules: map<Bytes, Rule>, remove: seq<Bytes>, id: Bytes)
    ensures Without(rules, remove + [id]) == Without(rules, remove) - {id}
    ensures var was := Without(rules, remove);
            |Without(rules, remove + [id]).Keys| == |was.Keys| - if id in was then 1 else 0
  {
    var was := Without(rules, remove);
    assert (was - {id}).Keys == was.Keys - {id};
  }

  method RemoveAll(rules: map<Bytes, Rule>, remove: seq<Bytes>) returns (next: map<Bytes, Rule>, removed: nat)
    ensures next == Without(rules, remove) && removed == |rules.Keys - next.Keys|
  {
    next, removed := rules, 0;
    assert Without(rules, []) == rules;
    for i := 0 to |remove|
      invariant next == Without(rules, remove[..i]) && removed == |rules.Keys| - |next.Keys|
    {
      assert remove[..i + 1] == remove[..i] + [remove[i]];
      WithoutSnoc(rules, remove[..i], remove[i]);
      if remove[i] in next {
        next := next - {remove[i]};
        removed := removed + 1;
      }
    }
    assert remove[..|remove|] == remove;
    SubsetDifference(next.Keys, rules.Keys);
  }

  method UpsertAll(base: map<Bytes, Rule>, parsed: seq<Result<Rule>>) returns (next: Result<map<Bytes, Rule>>)
    ensures next == Upserts(base, parsed)
  {
    var m, seen: set<Bytes> := base, {};
    for i := 0 to |parsed|
      invariant Upserts(base, parsed[..i]) == Ok(m)
      invariant forall id :: id in seen <==> IdIn(parsed[..i], id)
    {
      var p := parsed[i];
      assert parsed[..i + 1][..i] == parsed[..i] && parsed[..i + 1] == parsed[..i] + [p];
      if p.Err? || p.value.id in seen {
        UpsertsFails(base, parsed, i + 1);
        return Err;
      }
      forall id ensures IdIn(parsed[..i + 1], id) <==> id in seen || id == p.value.id { IdInSnoc(parsed[..i], p, id); }
      seen := seen + {p.value.id};
      m := m[p.value.id := p.value];
    }
    assert parsed[..|parsed|] == parsed;
    next := Ok(m);
  }

  lemma {:induction false} UpsertsFails(base: map<Bytes, Rule>, parsed: seq<Result<Rule>>, k: nat)
    requires k <= |parsed| && Upserts(base, parsed[..k]).Err?
    ensures Upserts(base, parsed).Err?
    decreases |parsed|
  {
    if k < |parsed| {
      assert parsed[..|parsed| - 1][..k] == parsed[..k];
      UpsertsFails(base, parsed[..|parsed| - 1], k);
    } else {
      assert parsed[..k] == parsed;
    }
  }

  /** The rule set a delta asks for, and how many rules that takes away. */
  method Resolve(rules: map<Bytes, Rule>, delta: Delta, now: int) returns (next: Result<map<Bytes, Rule>>, removed: nat)
    requires Keyed(rules)
    ensures Same(next, Target(rules, delta, now))
    ensures next.Ok? ==> Keyed(next.value) && removed == RemovedCount(rules, delta, next.value)
  {
    var base := map[];
    removed := 0;
    if !delta.replace {
      base, removed := RemoveAll(rules, delta.remove);
    }
    next := UpsertAll(base, ParseAll(delta.upsert, now));
    if next.Ok? {
      UpsertsResult(base, ParseAll(delta.upsert, now), []);
      if delta.replace {
        removed := |rules.Keys - next.value.Keys|;
      }
    }
  }

  predicate NoneRepeated(ids: seq<Bytes>) {
    forall i, j :: 0 <= i < j < |ids| ==> ids[i] != ids[j]
  }

  method ExpiredIds(rules: map<Bytes, Rule>, now: int) returns (expired: seq<Bytes>)
    ensures forall id :: id in expired <==> id in rules && now >= rules[id].expires
    ensures Without(rules, expired) == Unexpired(rules, now) && NoneRepeated(expired)
  {
    expired := [];
    var todo := rules.Keys;
    while todo != {}
      invariant todo <= rules.Keys
      invariant forall id :: id in expired <==> id in rules && id !in todo && now >= rules[id].expires
      invariant NoneRepeated(expired)
      decreases todo
    {
      var id :| id in todo;
      todo := todo - {id};
      if now >= rules[id].expires {
        expired := expired + [id];
      }
    }
  }

  lemma LexIsOrder()
    ensures TotalPreorder(LexLe)
  {
    forall a, b ensures LexLe(a, b) || LexLe(b, a) { LexTotal(a, b); }
    forall a, b, c | LexLe(a, b) && LexLe(b, c) ensures LexLe(a, c) { LexTransitive(a, b, c); }
  }

  function SortIds(ids: seq<Bytes>): (sorted: seq<Bytes>)
    ensures SortedBy(sorted, LexLe) && forall id :: id in sorted <==> id in ids
    ensures NoneRepeated(ids) ==> NoneRepeated(sorted)
  {
    LexIsOrder();
    SortCorrect(ids, LexLe);
    var sorted := Sort(ids, LexLe);
    assert NoneRepeated(ids) ==> NoneRepeated(sorted) by {
      if NoneRepeated(ids) { NoRepeats(ids, sorted); }
    }
    sorted
  }
}

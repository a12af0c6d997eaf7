/** How exact the expiry margin is (ruleExpiryMargin, pkg/analyzer/rules.go): when a
    collector's own checks let through what the analyzer's store hands out. */
module RuleMargin {
  import opened Basics
  import opened Collections
  import opened Prefixes
  import opened RuleLayout
  import opened RuleParse
  import opened RuleStore
  import P = PortRanges

  const SCOPE_A: Bytes := [97]
  const SCOPE_B: Bytes := [98]
  const ANYWHERE: Prefix := Prefix(true, [])

  /** A PASS rule for all of IPv4. Its destination, action and expiry take 27 bytes
      at most. */
  function Plain(scope: Bytes, i: nat, expires: int): ProtoRule {
    ProtoRule(WireId(scope, [i]), 0, Some(ANYWHERE), Some(expires), ActionPass, 0, [], [], [],
              P.Range(0, 0), {}, {}, None, [], 27)
  }

  function Several(scope: Bytes, n: nat, expires: int): set<ProtoRule> {
    if n == 0 then {} else Several(scope, n - 1, expires) + {Plain(scope, n - 1, expires)}
  }

  /** `n` plain rules by wire id. */
  function PlainSet(scope: Bytes, n: nat, expires: int): map<Bytes, ProtoRule> {
    if n == 0 then map[]
    else PlainSet(scope, n - 1, expires)[WireId(scope, [n - 1]) := Plain(scope, n - 1, expires)]
  }

  lemma {:induction false} SeveralAre(scope: Bytes, n: nat, expires: int)
    ensures forall p :: p in Several(scope, n, expires) <==> exists i: nat :: i < n && p == Plain(scope, i, expires)
  {
    if n > 0 {
      SeveralAre(scope, n - 1, expires);
      assert Plain(scope, n - 1, expires) in Several(scope, n, expires);
    }
  }

  /** The next rule is a new one. */
  lemma NextIsNew(scope: Bytes, n: nat, expires: int)
    ensures forall p :: p in Several(scope, n, expires) ==> p.id != WireId(scope, [n])
  {
    SeveralAre(scope, n, expires);
    forall p | p in Several(scope, n, expires) ensures p.id != WireId(scope, [n]) {
      var i: nat :| i < n && p == Plain(scope, i, expires);
      SameWireId(scope, [i], [n]);
      assert [i][0] != [n][0];
    }
  }

  /** The map holds just these rules, by wire id. */
  lemma {:induction false} PlainSetHolds(scope: Bytes, n: nat, expires: int)
    ensures Named(scope, PlainSet(scope, n, expires))
    ensures PlainSet(scope, n, expires).Values == Several(scope, n, expires)
  {
    if n > 0 {
      var was, last := PlainSet(scope, n - 1, expires), Plain(scope, n - 1, expires);
      PlainSetHolds(scope, n - 1, expires);
      NextIsNew(scope, n - 1, expires);
      IdIsNew(scope, was, last.id);
      NamedAdd(scope, was, last);
    }
  }

  lemma IdIsNew(scope: Bytes, rules: map<Bytes, ProtoRule>, id: Bytes)
    requires Named(scope, rules) && forall q :: q in rules.Values ==> q.id != id
    ensures id !in rules
  {
    assert forall other :: other in rules ==> rules[other] in rules.Values;
  }

  lemma NamedAdd(scope: Bytes, rules: map<Bytes, ProtoRule>, p: ProtoRule)
    requires Named(scope, rules) && OfScope(p.id, scope) && p.id !in rules
    ensures Named(scope, rules[p.id := p]) && rules[p.id := p].Values == rules.Values + {p}
  {
    ValuesAdd(rules, p.id, p);
  }

  lemma PlainSetAlive(scope: Bytes, n: nat, expires: int, now: int)
    ensures Named(scope, PlainSet(scope, n, expires)) && (n > 0 ==> PlainSet(scope, n, expires) != map[])
    ensures AliveIn(PlainSet(scope, n, expires), now) == if now < expires then Several(scope, n, expires) else {}
  {
    PlainSetHolds(scope, n, expires);
    SeveralAre(scope, n, expires);
    AliveTogether(PlainSet(scope, n, expires), expires, now);
  }

  lemma AliveTogether(rules: map<Bytes, ProtoRule>, expires: int, now: int)
    requires forall p :: p in rules.Values ==> p.expires == Some(expires)
    ensures AliveIn(rules, now) == if now < expires then rules.Values else {}
  {
    assert forall id :: id in rules ==> rules[id] in rules.Values;
    forall p | p in rules.Values ensures now < expires ==> p in AliveIn(rules, now) {
      var id :| id in rules && rules[id] == p;
    }
  }

  lemma PlainFacts(scope: Bytes, i: nat, expires: int)
    requires |scope| == 1
    ensures Compile(Plain(scope, i, expires)).Ok? && Compile(Plain(scope, i, expires)).value.dst == ANYWHERE
    ensures ProtoSize(Plain(scope, i, expires)) == 32
  {
  }

  /** Sound rules that encode to `n`, of 32 bytes each. */
  ghost predicate Sized(rules: set<ProtoRule>, n: nat) {
    AllSound(Compile, rules) && |EncodedSet(Compile, rules)| == n && Bytesize(rules) == 32 * n
  }

  lemma NoneSized()
    ensures Sized({}, 0)
  {
  }

  lemma SizedAdd(rules: set<ProtoRule>, n: nat, p: ProtoRule)
    requires Sized(rules, n) && forall q :: q in rules ==> q.id != p.id
    requires Compile(p).Ok? && ProtoSize(p) == 32
    ensures Sized(rules + {p}, n + 1)
  {
    SoundAdd(Compile, rules, p);
    BytesizeAdd(rules, p);
    EncodedAdd(rules, p);
  }

  lemma {:induction false} SeveralSized(scope: Bytes, n: nat, expires: int)
    requires |scope| == 1
    ensures Sized(Several(scope, n, expires), n)
  {
    if n == 0 {
      NoneSized();
    } else {
      SeveralSized(scope, n - 1, expires);
      SizedNext(scope, n - 1, expires);
    }
  }

  lemma SizedNext(scope: Bytes, n: nat, expires: int)
    requires |scope| == 1 && Sized(Several(scope, n, expires), n)
    ensures Sized(Several(scope, n + 1, expires), n + 1)
  {
    var was, next := Several(scope, n, expires), Several(scope, n + 1, expires);
    NextIsNew(scope, n, expires);
    PlainFacts(scope, n, expires);
    assert next == was + {Plain(scope, n, expires)};
    SizedAdd(was, n, Plain(scope, n, expires));
  }

  lemma EncodedAdd(rules: set<ProtoRule>, p: ProtoRule)
    requires AllSound(Compile, rules) && AllSound(Compile, rules + {p}) && p !in rules
    ensures |EncodedSet(Compile, rules + {p})| == |EncodedSet(Compile, rules)| + 1
  {
    var before, r := EncodedSet(Compile, rules), Compile(p).value;
    forall q | q in rules ensures Compile(q).value.id != r.id {
      assert q in rules + {p} && p in rules + {p};
    }
    assert r !in before;
    assert EncodedSet(Compile, rules + {p}) == before + {r};
  }

  lemma FewFit(rules: set<Rule>)
    requires |rules| <= RULES_PER_DST
    ensures CapacityOk(rules)
  {
    forall v4 ensures |Family(rules, v4)| <= RULES_MAX && Fits(Family(rules, v4)) {
      SubsetCardinality(Family(rules, v4), rules);
      forall p | p in Destinations(Family(rules, v4)) ensures |Covering(Family(rules, v4), p)| <= RULES_PER_DST {
        SubsetCardinality(Covering(Family(rules, v4), p), rules);
      }
    }
  }

  /** A push of as many rules as one destination takes is accepted beside scopes in
      which nothing is alive. */
  lemma SeveralAccepted(s: Scopes, scope: Bytes, n: nat, expires: int, now: int)
    requires |scope| == 1 && n <= RULES_PER_DST && now < expires && Union(s - {scope}, now) == {}
    ensures Accepts(Compile, s, scope, PlainSet(scope, n, expires), now)
  {
    var rules := PlainSet(scope, n, expires);
    SeveralSized(scope, n, expires);
    FewFit(EncodedSet(Compile, Several(scope, n, expires)));
    PlainSetAlive(scope, n, expires, now);
    assert {} + AliveIn(rules, now) == AliveIn(rules, now);
    PlainSetHolds(scope, n, expires);
    forall id | id in rules ensures Compile(rules[id]).Ok? && Alive(rules[id], now) {
      assert rules[id] in rules.Values;
    }
  }

  // ---- Too early a reading of the sync ----

  /** RULES_PER_DST rules in one scope, that expire at `from`. */
  function FirstPush(from: int): Scopes {
    Replaced(map[], SCOPE_A, PlainSet(SCOPE_A, RULES_PER_DST, from))
  }

  /** At `from`, one more rule for the same destination in another scope. */
  function TwoPushes(from: int): Scopes {
    Replaced(FirstPush(from), SCOPE_B, PlainSet(SCOPE_B, 1, from + 1))
  }

  /** When the second push comes, nothing of the first is alive. */
  lemma FirstPushDead(from: int)
    ensures Union(FirstPush(from) - {SCOPE_B}, from) == {}
  {
    var none, a := map[], PlainSet(SCOPE_A, RULES_PER_DST, from);
    PlainSetAlive(SCOPE_A, RULES_PER_DST, from, from);
    UnionAdd(none, SCOPE_A, a, from);
    assert Union(none, from) == {};
    assert FirstPush(from) - {SCOPE_B} == none[SCOPE_A := a];
  }

  lemma TwoPushesAccepted(now: int, from: int)
    requires now < from
    ensures Accepts(Compile, map[], SCOPE_A, PlainSet(SCOPE_A, RULES_PER_DST, from), now)
    ensures Accepts(Compile, FirstPush(from), SCOPE_B, PlainSet(SCOPE_B, 1, from + 1), from)
  {
    var none: Scopes := map[];
    assert Union(none - {SCOPE_A}, now) == {};
    SeveralAccepted(none, SCOPE_A, RULES_PER_DST, from, now);
    FirstPushDead(from);
    SeveralAccepted(FirstPush(from), SCOPE_B, 1, from + 1, from);
  }

  lemma PushOk(s: Scopes, scope: Bytes, n: nat, expires: int, now: int)
    requires GoodScopes(Compile, s) && ScopeName(scope) && |scope| == 1
    requires n <= RULES_PER_DST && now < expires && Union(s - {scope}, now) == {}
    ensures StoreOk(Compile, Replaced(s, scope, PlainSet(scope, n, expires)), now)
  {
    SeveralAccepted(s, scope, n, expires, now);
    PlainSetAlive(scope, n, expires, now);
    ReplacedOk(Compile, s, scope, PlainSet(scope, n, expires), now);
  }

  lemma TwoPushesOk(from: int)
    ensures StoreOk(Compile, TwoPushes(from), from)
  {
    var none: Scopes := map[];
    assert Union(none - {SCOPE_A}, from - 1) == {};
    PushOk(none, SCOPE_A, RULES_PER_DST, from, from - 1);
    FirstPushDead(from);
    PushOk(FirstPush(from), SCOPE_B, 1, from + 1, from);
  }

  /** All of them together are wanted by a sync that read the clock more than the
      margin before the second push. */
  lemma TwoPushesWanted(now: int, from: int, enforcing: bool)
    requires now + RULE_EXPIRY_MARGIN < from
    ensures Several(SCOPE_A, RULES_PER_DST, from) + {Plain(SCOPE_B, 0, from + 1)}
            <= WantedSet(TwoPushes(from), now, enforcing)
  {
    TwoPushesUnion(now, from);
    SeveralAre(SCOPE_A, RULES_PER_DST, from);
  }

  lemma TwoPushesUnion(now: int, from: int)
    requires now < from
    ensures Union(TwoPushes(from), now) == Several(SCOPE_A, RULES_PER_DST, from) + {Plain(SCOPE_B, 0, from + 1)}
  {
    PlainSetAlive(SCOPE_A, RULES_PER_DST, from, now);
    PlainSetAlive(SCOPE_B, 1, from + 1, now);
    ReplacedUnion(FirstPush(from), SCOPE_B, PlainSet(SCOPE_B, 1, from + 1), now);
    ReplacedUnion(map[], SCOPE_A, PlainSet(SCOPE_A, RULES_PER_DST, from), now);
    assert FirstPush(from) - {SCOPE_B} == FirstPush(from);
    assert Several(SCOPE_B, 1, from + 1) == {} + {Plain(SCOPE_B, 0, from + 1)};
  }

  /** More rules for all of IPv4 than a destination takes do not fit. */
  lemma Crowded(rules: set<ProtoRule>)
    requires AllSound(Compile, rules) && |EncodedSet(Compile, rules)| > RULES_PER_DST
    requires forall p :: p in rules ==> p.dst == Some(ANYWHERE)
    ensures !CapacityOk(EncodedSet(Compile, rules))
  {
    var encoded := EncodedSet(Compile, rules);
    forall r | r in encoded ensures r.dst == ANYWHERE {
      var p :| p in rules && Compile(p).value == r;
    }
    assert Family(encoded, true) == encoded && Covering(encoded, ANYWHERE) == encoded;
    var r :| r in encoded;
    assert r.dst in Destinations(encoded);
  }

  lemma TwoPushesTooMany(now: int, from: int, enforcing: bool)
    requires now + RULE_EXPIRY_MARGIN < from && AllSound(Compile, WantedSet(TwoPushes(from), now, enforcing))
    ensures !CapacityOk(EncodedSet(Compile, WantedSet(TwoPushes(from), now, enforcing)))
  {
    TwoPushesWanted(now, from, enforcing);
    SeveralSized(SCOPE_A, RULES_PER_DST, from);
    SeveralAre(SCOPE_A, RULES_PER_DST, from);
    OneTooMany(Several(SCOPE_A, RULES_PER_DST, from), Plain(SCOPE_B, 0, from + 1),
               WantedSet(TwoPushes(from), now, enforcing));
  }

  lemma SoundFewer(fewer: set<ProtoRule>, rules: set<ProtoRule>)
    requires AllSound(Compile, rules) && fewer <= rules
    ensures AllSound(Compile, fewer)
  {
  }

  lemma OneTooMany(several: set<ProtoRule>, p: ProtoRule, want: set<ProtoRule>)
    requires Sized(several, RULES_PER_DST) && p !in several && several + {p} <= want && AllSound(Compile, want)
    requires forall q :: q in several + {p} ==> q.dst == Some(ANYWHERE)
    ensures !CapacityOk(EncodedSet(Compile, want))
  {
    SoundFewer(several + {p}, want);
    EncodedAdd(several, p);
    Crowded(several + {p});
    MoreIsCrowded(several + {p}, want);
  }

  lemma MoreIsCrowded(fewer: set<ProtoRule>, rules: set<ProtoRule>)
    requires AllSound(Compile, fewer) && AllSound(Compile, rules) && fewer <= rules
    requires !CapacityOk(EncodedSet(Compile, fewer))
    ensures !CapacityOk(EncodedSet(Compile, rules))
  {
    assert EncodedSet(Compile, fewer) <= EncodedSet(Compile, rules);
    if CapacityOk(EncodedSet(Compile, rules)) {
      CapacitySubset(EncodedSet(Compile, fewer), EncodedSet(Compile, rules));
    }
  }

  // ---- Too late a reading of the collector ----

  /** A rule that expires just after the margin. */
  function LatePush(now: int): Scopes {
    Replaced(map[], SCOPE_A, PlainSet(SCOPE_A, 1, now + RULE_EXPIRY_MARGIN + 1))
  }

  lemma LatePushOk(now: int, from: int)
    ensures StoreOk(Compile, LatePush(now), from)
  {
    var expires := now + RULE_EXPIRY_MARGIN + 1;
    if from < expires {
      OnePushOk(expires, from);
    } else {
      OnePushOk(expires, expires - 1);
      StoreLater(Compile, LatePush(now), expires - 1, from);
    }
  }

  lemma OnePushOk(expires: int, at: int)
    requires at < expires
    ensures StoreOk(Compile, Replaced(map[], SCOPE_A, PlainSet(SCOPE_A, 1, expires)), at)
  {
    var none: Scopes := map[];
    assert Union(none - {SCOPE_A}, at) == {};
    PushOk(none, SCOPE_A, 1, expires, at);
  }

  lemma LatePushWanted(now: int, enforcing: bool)
    ensures Plain(SCOPE_A, 0, now + RULE_EXPIRY_MARGIN + 1) in WantedSet(LatePush(now), now, enforcing)
  {
    var expires := now + RULE_EXPIRY_MARGIN + 1;
    PlainSetAlive(SCOPE_A, 1, expires, now);
    ReplacedUnion(map[], SCOPE_A, PlainSet(SCOPE_A, 1, expires), now);
    assert Plain(SCOPE_A, 0, expires) in Several(SCOPE_A, 1, expires);
  }

  // ---- The margin is exact ----

  /** What desired returns at `now` passes the checks of a collector at its time `at`,
      in every state of the store, exactly when `now` is at most the margin behind
      the reading of the last accepted push, and `at` at most the margin ahead of
      `now`. */
  lemma MarginIsExact(from: int, now: int, enforcing: bool, at: int)
    ensures (forall s :: StoreOk(Compile, s, from) ==> Passes(Compile, WantedSet(s, now, enforcing), at))
            <==> from <= now + RULE_EXPIRY_MARGIN && at <= now + RULE_EXPIRY_MARGIN
  {
    if from > now + RULE_EXPIRY_MARGIN {
      TwoPushesOk(from);
      if AllSound(Compile, WantedSet(TwoPushes(from), now, enforcing)) {
        TwoPushesTooMany(now, from, enforcing);
      }
      assert !Passes(Compile, WantedSet(TwoPushes(from), now, enforcing), at);
    } else if at > now + RULE_EXPIRY_MARGIN {
      LatePushOk(now, from);
      LatePushWanted(now, enforcing);
      assert !Passes(Compile, WantedSet(LatePush(now), now, enforcing), at);
    } else {
      forall s | StoreOk(Compile, s, from) ensures Passes(Compile, WantedSet(s, now, enforcing), at) {
        WantedFits(Compile, s, from, now, enforcing);
      }
    }
  }
}

/** Persistence of the desired rules (pkg/analyzer/rules_persist.go): what a
    restart brings back. Encoding and files are left out; a document is what
    decoding made of the file. */
module RuleState {
  import opened Basics
  import opened Collections
  import opened Orders
  import opened RuleLayout
  import opened RuleParse
  import opened RuleDelta
  import opened Store = RuleStore

  /** Scope to wire id to rule; `None` is a rule that cannot be decoded. */
  type Entries = map<Bytes, Option<ProtoRule>>
  type Persisted = map<Bytes, Entries>

  /** `Damaged` is a file that is too large or not a document. */
  datatype StateFile = Missing | Damaged | Document(version: int, scopes: Persisted)

  /** An entry load keeps. */
  predicate Loadable(c: Compiler, scope: Bytes, id: Bytes, entry: Option<ProtoRule>, now: int) {
    entry.Some? && entry.value.id == id && OfScope(id, scope) && Alive(entry.value, now) && c(entry.value).Ok?
  }

  function LoadableIn(c: Compiler, scope: Bytes, entries: Entries, now: int): map<Bytes, ProtoRule> {
    map id | id in entries && Loadable(c, scope, id, entries[id], now) :: entries[id].value
  }

  /** All that load can bring back from a document. */
  function Salvageable(c: Compiler, doc: Persisted, now: int): Scopes {
    map sc | sc in doc && ScopeName(sc) && LoadableIn(c, sc, doc[sc], now) != map[] :: LoadableIn(c, sc, doc[sc], now)
  }

  method ReadScope(c: Compiler, scope: Bytes, entries: Entries, now: int) returns (rules: map<Bytes, ProtoRule>)
    ensures rules == LoadableIn(c, scope, entries, now)
  {
    rules := map[];
    var todo := entries.Keys;
    MinusAll(entries);
    while todo != {}
      invariant todo <= entries.Keys && rules == LoadableIn(c, scope, entries - todo, now)
      decreases todo
    {
      var id :| id in todo;
      MinusStep(entries, todo, id);
      LoadableAdd(c, scope, entries - todo, id, entries[id], now);
      if Loadable(c, scope, id, entries[id], now) {
        rules := rules[id := entries[id].value];
      }
      todo := todo - {id};
    }
    MinusNone(entries);
  }

  lemma LoadableAdd(c: Compiler, scope: Bytes, done: Entries, id: Bytes, entry: Option<ProtoRule>, now: int)
    requires id !in done
    ensures var was := LoadableIn(c, scope, done, now);
            LoadableIn(c, scope, done[id := entry], now)
            == if Loadable(c, scope, id, entry, now) then was[id := entry.value] else was
  {
  }

  // ---- What loading leaves in the store ----

  /** The store `base` with the scopes `loaded` taken from `all`. */
  function Overlay(base: Scopes, all: Scopes, loaded: set<Bytes>): Scopes {
    base + map sc | sc in all && sc in loaded :: all[sc]
  }

  /** Whichever scopes have been loaded already, what is then alive fits. */
  ghost predicate MixturesFit(c: Compiler, base: Scopes, all: Scopes, now: int) {
    forall loaded :: Fitting(c, Union(Overlay(base, all, loaded), now))
  }

  /** A verdict on adding a scope when some have been added before it. */
  type Fitness = (set<Bytes>, Bytes) -> bool

  /** That of replace. */
  ghost function Beside(c: Compiler, base: Scopes, all: Scopes, now: int): Fitness {
    (loaded: set<Bytes>, sc: Bytes) => sc in all && Accepts(c, Overlay(base, all, loaded), sc, all[sc], now)
  }

  /** The scopes that get in when those of `names` are added in turn: each is rejected
      exactly if it does not fit beside those let in before it. */
  ghost function Loaded(fits: Fitness, names: seq<Bytes>): set<Bytes> {
    if names == [] then {}
    else
      var before := Loaded(fits, names[..|names| - 1]);
      if fits(before, names[|names| - 1]) then before + {names[|names| - 1]} else before
  }

  lemma LoadedNext(fits: Fitness, names: seq<Bytes>, sc: Bytes)
    ensures var before := Loaded(fits, names);
            Loaded(fits, names + [sc]) == if fits(before, sc) then before + {sc} else before
  {
    assert (names + [sc])[..|names|] == names;
  }

  lemma {:induction false} LoadedWithin(fits: Fitness, names: seq<Bytes>)
    ensures forall sc :: sc in Loaded(fits, names) ==> sc in names && exists before :: fits(before, sc)
  {
    if names != [] {
      LoadedWithin(fits, names[..|names| - 1]);
    }
  }

  lemma {:induction false} AllFit(fits: Fitness, names: seq<Bytes>, all: set<Bytes>)
    requires forall loaded, sc :: sc in all ==> fits(loaded, sc)
    ensures forall sc :: sc in names && sc in all ==> sc in Loaded(fits, names)
  {
    if names != [] {
      var before, last := names[..|names| - 1], names[|names| - 1];
      AllFit(fits, before, all);
      assert names == before + [last];
      assert last in all ==> fits(Loaded(fits, before), last);
    }
  }

  /** If all mixtures of old and loaded scopes fit, every scope gets in, in whichever
      order they are added. */
  lemma AllLoaded(c: Compiler, base: Scopes, all: Scopes, names: seq<Bytes>, now: int)
    requires MixturesFit(c, base, all, now) && forall sc :: sc in all ==> sc in names
    requires forall sc :: sc in all ==> Acceptable(c, all[sc], now)
    ensures Loaded(Beside(c, base, all, now), names) == all.Keys
  {
    var fits := Beside(c, base, all, now);
    forall loaded, sc | sc in all ensures fits(loaded, sc) {
      LoadAccepts(c, base, all, loaded, now, sc);
    }
    AllFit(fits, names, all.Keys);
    LoadedWithin(fits, names);
  }

  /** A set none of whose rules replace refuses by itself. */
  predicate Acceptable(c: Compiler, rules: map<Bytes, ProtoRule>, now: int) {
    rules != map[] && forall id :: id in rules ==> c(rules[id]).Ok? && Alive(rules[id], now)
  }

  /** The keys of a map as sort.Strings leaves them. */
  ghost predicate InLexOrder(names: seq<Bytes>, keys: set<Bytes>) {
    SortedBy(names, LexLe) && NoneRepeated(names) && forall sc :: sc in names <==> sc in keys
  }

  /** There is but one such list, so what load lets in is a function of the file and
      the store. */
  lemma {:induction false} LexOrderUnique(a: seq<Bytes>, b: seq<Bytes>, keys: set<Bytes>)
    requires InLexOrder(a, keys) && InLexOrder(b, keys)
    ensures a == b
    decreases |a|
  {
    assert (a != [] ==> a[0] in b) && (b != [] ==> b[0] in a);
    if a != [] {
      var i :| 0 <= i < |a| && a[i] == b[0];
      var j :| 0 <= j < |b| && b[j] == a[0];
      LexReflexive(a[0]);
      LexAntisymmetric(a[0], b[0]);
      TailInOrder(a, keys);
      TailInOrder(b, keys);
      LexOrderUnique(a[1..], b[1..], keys - {a[0]});
      assert a == [a[0]] + a[1..] && b == [b[0]] + b[1..];
    }
  }

  lemma TailInOrder(names: seq<Bytes>, keys: set<Bytes>)
    requires InLexOrder(names, keys) && names != []
    ensures InLexOrder(names[1..], keys - {names[0]})
  {
    forall sc ensures sc in names[1..] <==> sc in keys && sc != names[0] {
      if sc in names[1..] {
        var i :| 0 <= i < |names[1..]| && names[1..][i] == sc;
        assert names[i + 1] == sc;
      }
      if sc in keys && sc != names[0] {
        var i :| 0 <= i < |names| && names[i] == sc;
        assert names[1..][i - 1] == sc;
      }
    }
  }

  lemma OverlayAdd(base: Scopes, all: Scopes, loaded: set<Bytes>, sc: Bytes)
    requires sc in all
    ensures Overlay(base, all, loaded)[sc := all[sc]] == Overlay(base, all, loaded + {sc})
  {
  }

  /** A scope is not rejected if all mixtures fit, whichever scopes were added
      before it. */
  lemma LoadAccepts(c: Compiler, base: Scopes, all: Scopes, loaded: set<Bytes>, now: int, sc: Bytes)
    requires MixturesFit(c, base, all, now) && sc in all && Acceptable(c, all[sc], now)
    ensures Accepts(c, Overlay(base, all, loaded), sc, all[sc], now)
  {
    MixtureFits(c, base, all, loaded + {sc}, now);
    OverlayAdd(base, all, loaded, sc);
    AcceptsFitting(c, Overlay(base, all, loaded), sc, all[sc], now);
  }

  lemma MixtureFits(c: Compiler, base: Scopes, all: Scopes, loaded: set<Bytes>, now: int)
    requires MixturesFit(c, base, all, now)
    ensures Fitting(c, Union(Overlay(base, all, loaded), now))
  {
  }

  lemma AcceptsFitting(c: Compiler, s: Scopes, sc: Bytes, rules: map<Bytes, ProtoRule>, now: int)
    requires Acceptable(c, rules, now) && Fitting(c, Union(s[sc := rules], now))
    ensures Accepts(c, s, sc, rules, now)
  {
    ReplacedUnion(s, sc, rules, now);
  }

  lemma UnionWithin(some: Scopes, all: Scopes, now: int)
    requires forall sc :: sc in some ==> sc in all && some[sc] == all[sc]
    ensures Union(some, now) <= Union(all, now)
  {
    forall p | p in Union(some, now) ensures p in Union(all, now) {
      var sc, id :| sc in some && id in some[sc] && Alive(some[sc][id], now) && some[sc][id] == p;
      assert all[sc][id] == p;
    }
  }

  /** Into an empty store: it is enough that the scopes fit together. */
  lemma MixturesOfFitting(c: Compiler, all: Scopes, now: int)
    requires Fitting(c, Union(all, now))
    ensures MixturesFit(c, map[], all, now)
  {
    forall loaded ensures Fitting(c, Union(Overlay(map[], all, loaded), now)) {
      UnionWithin(Overlay(map[], all, loaded), all, now);
      FittingSubset(c, Union(Overlay(map[], all, loaded), now), Union(all, now));
    }
  }

  // ---- Counting what was restored ----

  lemma {:induction false} KeyedCardinality(rules: map<Bytes, ProtoRule>)
    requires forall id :: id in rules ==> rules[id].id == id
    ensures |rules.Values| == |rules|
    decreases |rules|
  {
    if rules.Keys != {} {
      var id :| id in rules.Keys;
      var less := rules - {id};
      assert less.Keys == rules.Keys - {id};
      KeyedCardinality(less);
      ValuesAdd(less, id, rules[id]);
      assert rules == less[id := rules[id]];
      assert rules[id] !in less.Values;
    }
  }

  lemma UnionGrows(c: Compiler, cur: Scopes, sc: Bytes, rules: map<Bytes, ProtoRule>, now: int)
    requires GoodScopes(c, cur) && sc !in cur && ScopeName(sc) && Named(sc, rules)
    requires forall id :: id in rules ==> Alive(rules[id], now)
    ensures |Union(cur[sc := rules], now)| == |Union(cur, now)| + |rules|
  {
    UnionAdd(cur, sc, rules, now);
    AllAlive(rules, now);
    KeyedCardinality(rules);
    forall p | p in Union(cur, now) ensures p !in rules.Values {
      var a, id :| a in cur && id in cur[a] && Alive(cur[a][id], now) && cur[a][id] == p;
      assert GoodSet(c, a, cur[a]);
      if p in rules.Values {
        ScopesApart(a, sc, p.id);
      }
    }
  }

  // ---- load ----

  /** The rules restored from the scopes `loaded`. */
  ghost function Restored(all: Scopes, loaded: set<Bytes>, now: int): nat {
    |Union(Overlay(map[], all, loaded), now)|
  }

  lemma SalvageableGood(c: Compiler, doc: Persisted, now: int)
    ensures GoodScopes(c, Salvageable(c, doc, now))
  {
    forall sc | sc in Salvageable(c, doc, now) ensures GoodSet(c, sc, LoadableIn(c, sc, doc[sc], now)) {
    }
  }

  lemma RestoredGrows(c: Compiler, all: Scopes, loaded: set<Bytes>, sc: Bytes, now: int)
    requires GoodScopes(c, all) && sc in all && sc !in loaded
    requires forall id :: id in all[sc] ==> Alive(all[sc][id], now)
    ensures Restored(all, loaded + {sc}, now) == Restored(all, loaded, now) + |all[sc]|
  {
    OverlayAdd(map[], all, loaded, sc);
    UnionGrows(c, Overlay(map[], all, loaded), sc, all[sc], now);
  }

  lemma LoadableFacts(c: Compiler, doc: Persisted, sc: Bytes, now: int)
    requires sc in doc
    ensures var rules := LoadableIn(c, sc, doc[sc], now);
            && Named(sc, rules)
            && (rules != map[] ==> Acceptable(c, rules, now))
            && (sc in Salvageable(c, doc, now) <==> ScopeName(sc) && rules != map[])
            && (sc in Salvageable(c, doc, now) ==> Salvageable(c, doc, now)[sc] == rules)
  {
  }

  /** The scopes of `names` have been added to `base`, which fit from `from0` on; it
      has become `cur`, which fits from `from` on. */
  ghost predicate LoadedSoFar(fits: Fitness, base: Scopes, from0: int, all: Scopes, names: seq<Bytes>, now: int,
                              cur: Scopes, from: int, restored: nat)
  {
    && cur == Overlay(base, all, Loaded(fits, names)) && restored == Restored(all, Loaded(fits, names), now)
    && from == if Loaded(fits, names) == {} then from0 else now
  }

  lemma ScopeSkipped(fits: Fitness, base: Scopes, from0: int, all: Scopes, names: seq<Bytes>, now: int, cur: Scopes,
                     from: int, restored: nat, sc: Bytes)
    requires LoadedSoFar(fits, base, from0, all, names, now, cur, from, restored) == true
    requires !fits(Loaded(fits, names), sc)
    ensures LoadedSoFar(fits, base, from0, all, names + [sc], now, cur, from, restored)
  {
    LoadedNext(fits, names, sc);
  }

  lemma ScopeAdded(c: Compiler, fits: Fitness, base: Scopes, from0: int, all: Scopes, names: seq<Bytes>, now: int,
                   cur: Scopes, from: int, restored: nat, sc: Bytes)
    requires LoadedSoFar(fits, base, from0, all, names, now, cur, from, restored) == true
    requires fits(Loaded(fits, names), sc)
    requires GoodScopes(c, all) && sc in all && Acceptable(c, all[sc], now) && sc !in names
    ensures LoadedSoFar(fits, base, from0, all, names + [sc], now, cur[sc := all[sc]], now, restored + |all[sc]|)
  {
    LoadedNext(fits, names, sc);
    LoadedWithin(fits, names);
    OverlayAdd(base, all, Loaded(fits, names), sc);
    RestoredGrows(c, all, Loaded(fits, names), sc, now);
  }

  /** What load does with the loadable rules of a scope. */
  method AddScope(store: Store.RuleStore, sc: Bytes, rules: map<Bytes, ProtoRule>, now: int,
                  ghost base: Scopes, ghost all: Scopes, ghost loaded: set<Bytes>) returns (ok: bool)
    requires store.Valid() && store.scopes == Overlay(base, all, loaded)
    requires ScopeName(sc) && Named(sc, rules) && rules != map[] && sc in all && all[sc] == rules
    modifies store
    ensures store.Valid() && ok == Beside(store.compile, base, all, now)(loaded, sc)
    ensures store.scopes == if ok then old(store.scopes)[sc := rules] else old(store.scopes)
    ensures store.fitsFrom == if ok then now else old(store.fitsFrom)
  {
    ok := store.Replace(sc, rules, now);
  }

  /** One turn of the loop of load: a scope is skipped when its name is bad, when
      nothing in it can be loaded, or when it does not fit. */
  method LoadScope(store: Store.RuleStore, doc: Persisted, sc: Bytes, now: int, restored: nat, ghost fits: Fitness,
                   ghost base: Scopes, ghost from0: int, ghost all: Scopes, ghost names: seq<Bytes>)
    returns (restored': nat)
    requires store.Valid() && all == Salvageable(store.compile, doc, now) && sc in doc && sc !in names
    requires fits == Beside(store.compile, base, all, now)
    requires LoadedSoFar(fits, base, from0, all, names, now, store.scopes, store.fitsFrom, restored) == true
    modifies store
    ensures store.Valid()
    ensures LoadedSoFar(fits, base, from0, all, names + [sc], now, store.scopes, store.fitsFrom, restored') == true
  {
    ghost var cur, from := store.scopes, store.fitsFrom;
    restored' := restored;
    LoadableFacts(store.compile, doc, sc, now);
    if |sc| == 0 || SEP in sc {
      ScopeSkipped(fits, base, from0, all, names, now, cur, from, restored, sc);
      return;
    }
    var rules := ReadScope(store.compile, sc, doc[sc], now);
    if |rules| == 0 {
      ScopeSkipped(fits, base, from0, all, names, now, cur, from, restored, sc);
      return;
    }
    var ok := AddScope(store, sc, rules, now, base, all, Loaded(fits, names));
    if ok {
      SalvageableGood(store.compile, doc, now);
      ScopeAdded(store.compile, fits, base, from0, all, names, now, cur, from, restored, sc);
      restored' := restored + |rules|;
    } else {
      ScopeSkipped(fits, base, from0, all, names, now, cur, from, restored, sc);
    }
  }

  /** sort.Strings on the scopes of a document. */
  method SortedNames(doc: Persisted) returns (names: seq<Bytes>)
    ensures InLexOrder(names, doc.Keys)
  {
    names := [];
    var todo := doc.Keys;
    while todo != {}
      invariant todo <= doc.Keys && NoneRepeated(names)
      invariant forall sc :: sc in names <==> sc in doc && sc !in todo
      decreases todo
    {
      var sc :| sc in todo;
      todo := todo - {sc};
      names := names + [sc];
    }
    names := SortIds(names);
  }

  /** The loop of load, over the scopes in order. */
  method LoadAll(store: Store.RuleStore, doc: Persisted, now: int) returns (restored: nat, ghost names: seq<Bytes>)
    requires store.Valid()
    modifies store
    ensures store.Valid() && InLexOrder(names, doc.Keys)
    ensures var all := Salvageable(store.compile, doc, now);
            LoadedSoFar(Beside(store.compile, old(store.scopes), all, now), old(store.scopes), old(store.fitsFrom), all,
                        names, now, store.scopes, store.fitsFrom, restored) == true
  {
    ghost var base, from0, all := store.scopes, store.fitsFrom, Salvageable(store.compile, doc, now);
    ghost var fits := Beside(store.compile, base, all, now);
    restored := 0;
    NoneLoaded(fits, base, from0, all, now);
    var order := SortedNames(doc);
    assert order[..0] == [];
    for i := 0 to |order|
      invariant store.Valid()
      invariant LoadedSoFar(fits, base, from0, all, order[..i], now, store.scopes, store.fitsFrom, restored) == true
    {
      assert order[..i + 1] == order[..i] + [order[i]] && order[i] in order;
      restored := LoadScope(store, doc, order[i], now, restored, fits, base, from0, all, order[..i]);
    }
    assert order[..|order|] == order;
    names := order;
  }

  lemma NoneLoaded(fits: Fitness, base: Scopes, from: int, all: Scopes, now: int)
    ensures LoadedSoFar(fits, base, from, all, [], now, base, from, 0) == true
  {
    assert Overlay(map[], all, {}) == map[];
    assert Union(map[], now) == {};
  }

  /** load. The file is refused as a whole when damaged or of another version, and
      then nothing changes. Otherwise the scopes of the file are taken in the order
      of their names: each replaces that of the store with exactly its loadable
      rules, unless these do not fit beside what the store holds by then; and the
      rules restored are counted. If any scope was loaded, what is alive fits from
      `now` on. */
  method Load(store: Store.RuleStore, file: StateFile, now: int)
    returns (restored: nat, err: bool, ghost names: seq<Bytes>)
    requires store.Valid()
    modifies store
    ensures store.Valid()
    ensures err <==> file.Damaged? || (file.Document? && file.version != 1)
    ensures err || file.Missing? ==> unchanged(store) && restored == 0
    ensures !err && file.Document? ==>
              var all := Salvageable(store.compile, file.scopes, now);
              var loaded := Loaded(Beside(store.compile, old(store.scopes), all, now), names);
              && InLexOrder(names, file.scopes.Keys)
              && store.scopes == Overlay(old(store.scopes), all, loaded) && restored == Restored(all, loaded, now)
              && store.fitsFrom == if loaded == {} then old(store.fitsFrom) else now
  {
    restored, names, err := 0, [], file.Damaged? || (file.Document? && file.version != 1);
    if err || file.Missing? {
      return;
    }
    restored, names := LoadAll(store, file.scopes, now);
  }

  // ---- save ----

  function SavedSet(rules: map<Bytes, ProtoRule>): Entries {
    map id | id in rules :: Some(rules[id])
  }

  /** The document save writes. */
  function Saved(s: Scopes): Persisted {
    map sc | sc in s :: SavedSet(s[sc])
  }

  lemma SavedSetLoads(c: Compiler, sc: Bytes, rules: map<Bytes, ProtoRule>, now: int)
    requires GoodSet(c, sc, rules)
    ensures LoadableIn(c, sc, SavedSet(rules), now) == LiveIn(rules, now)
  {
  }

  lemma SavedScopesLoad(c: Compiler, s: Scopes, now: int)
    requires GoodScopes(c, s)
    ensures Salvageable(c, Saved(s), now) == LiveScopes(s, now)
  {
    forall sc | sc in s ensures ScopeName(sc) && LoadableIn(c, sc, Saved(s)[sc], now) == LiveIn(s[sc], now) {
      SavedSetLoads(c, sc, s[sc], now);
    }
    SameScopes(Salvageable(c, Saved(s), now), LiveScopes(s, now));
  }

  /** What is loadable of a saved store is what has not expired, and it fits. */
  lemma SavedLoads(c: Compiler, s: Scopes, fitsFrom: int, now: int)
    requires StoreOk(c, s, fitsFrom) && fitsFrom <= now
    ensures Salvageable(c, Saved(s), now) == LiveScopes(s, now)
    ensures Fitting(c, Union(LiveScopes(s, now), now))
  {
    StoreLater(c, s, fitsFrom, now);
    UnionLive(s, now);
    SavedScopesLoad(c, s, now);
  }

  lemma SameScopes(a: Scopes, b: Scopes)
    requires a.Keys == b.Keys && forall sc :: sc in a ==> a[sc] == b[sc]
    ensures a == b
  {
  }

  lemma LiveAcceptable(c: Compiler, s: Scopes, now: int)
    requires GoodScopes(c, s)
    ensures forall sc :: sc in LiveScopes(s, now) ==> sc in s && Acceptable(c, LiveScopes(s, now)[sc], now)
  {
    forall sc | sc in LiveScopes(s, now) ensures Acceptable(c, LiveScopes(s, now)[sc], now) {
      assert GoodSet(c, sc, s[sc]);
    }
  }

  /** Nothing of a saved store is rejected. */
  lemma SavedAllLoaded(c: Compiler, s: Scopes, fitsFrom: int, now: int, names: seq<Bytes>)
    requires StoreOk(c, s, fitsFrom) && fitsFrom <= now && InLexOrder(names, Saved(s).Keys)
    ensures var all := LiveScopes(s, now);
            Loaded(Beside(c, map[], all, now), names) == all.Keys && Overlay(map[], all, all.Keys) == all
  {
    var all := LiveScopes(s, now);
    SavedLoads(c, s, fitsFrom, now);
    MixturesOfFitting(c, all, now);
    LiveAcceptable(c, s, now);
    AllLoaded(c, map[], all, names, now);
    OverlayAll(all);
  }

  /** A restart restores exactly the rules unexpired at that time: what `store`
      held is saved, and loaded into a new store later. */
  method Restart(store: Store.RuleStore, now: int) returns (restarted: Store.RuleStore, restored: nat)
    requires store.Valid() && store.fitsFrom <= now
    ensures restarted.Valid() && restarted.compile == store.compile && restarted.fitsFrom == now
    ensures restarted.scopes == LiveScopes(store.scopes, now) && restored == |Union(store.scopes, now)|
    ensures DropsExpired(store.scopes, now, restarted.scopes)
  {
    SavedLoads(store.compile, store.scopes, store.fitsFrom, now);
    UnionLive(store.scopes, now);
    LiveDropsExpired(store.scopes, now);
    restarted := new Store.RuleStore(store.compile, now);
    var err;
    ghost var names;
    restored, err, names := Load(restarted, Document(1, Saved(store.scopes)), now);
    SavedAllLoaded(store.compile, store.scopes, store.fitsFrom, now, names);
  }

  lemma OverlayAll(all: Scopes)
    ensures Overlay(map[], all, all.Keys) == all
  {
  }
}

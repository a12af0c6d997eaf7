/** Token buckets and the per-IP/per-ASN limiter (pkg/ratelimit/limiter.go).
    Times are seconds and tokens are reals: float64 rounding is not modelled. */
module RateLimiter {
  import opened Collections

  datatype Bucket = Bucket(capacity: real, tokens: real, rate: real, lastSeen: real)

  /** The tokens are within the capacity and nothing is negative. */
  predicate Sane(b: Bucket) {
    0.0 <= b.tokens <= b.capacity && 0.0 <= b.rate
  }

  /** Tokens earned in `elapsed` seconds. */
  function Accrual(elapsed: real, rate: real): real { elapsed * rate }

  function Min(a: real, b: real): real { if a < b then a else b }

  /** Tokens accrued up to `now`, at the rate in force since `lastSeen`. */
  function Refilled(b: Bucket, now: real): Bucket {
    b.(tokens := Min(b.tokens + Accrual(now - b.lastSeen, b.rate), b.capacity), lastSeen := now)
  }

  function AllowBucket(b: Bucket, now: real): (Bucket, bool) {
    var r := Refilled(b, now);
    if r.tokens >= 1.0 then (r.(tokens := r.tokens - 1.0), true) else (r, false)
  }

  function SetRateBucket(b: Bucket, rate: real, capacity: real, now: real): Bucket {
    var r := if now - b.lastSeen > 0.0 then Refilled(b, now) else b;
    r.(rate := rate, capacity := capacity, tokens := Min(r.tokens, capacity))
  }

  class TokenBucket {
    var capacity: real
    var tokens: real
    var rate: real
    var lastSeen: real

    ghost function Value(): Bucket reads this { Bucket(capacity, tokens, rate, lastSeen) }

    constructor (capacity: real, rate: real, now: real)
      ensures Value() == Bucket(capacity, capacity, rate, now)
    {
      this.capacity, this.tokens, this.rate, this.lastSeen := capacity, capacity, rate, now;
    }

    method Allow(now: real) returns (ok: bool)
      modifies this
      ensures (Value(), ok) == AllowBucket(old(Value()), now)
      ensures ok <==> old(capacity) >= 1.0 && old(tokens) + Accrual(now - old(lastSeen), old(rate)) >= 1.0
      ensures !ok ==> tokens < 1.0
      ensures capacity == old(capacity) && rate == old(rate) && lastSeen == now
    {
      var elapsed := now - lastSeen;
      lastSeen := now;
      tokens := tokens + Accrual(elapsed, rate);
      if tokens > capacity {
        tokens := capacity;
      }
      ok := tokens >= 1.0;
      if ok {
        tokens := tokens - 1.0;
      }
    }

    method SetRate(rate: real, capacity: real, now: real)
      modifies this
      ensures Value() == SetRateBucket(old(Value()), rate, capacity, now)
    {
      var elapsed := now - lastSeen;
      if elapsed > 0.0 {
        tokens := tokens + Accrual(elapsed, this.rate);
        if tokens > this.capacity {
          tokens := this.capacity;
        }
        lastSeen := now;
      }
      this.rate := rate;
      this.capacity := capacity;
      if tokens > capacity {
        tokens := capacity;
      }
    }
  }

  /** The bucket has a token for a request at `now`. */
  predicate Ready(b: Bucket, now: real) {
    b.capacity >= 1.0 && b.tokens + Accrual(now - b.lastSeen, b.rate) >= 1.0
  }

  /** A request is allowed exactly when there is a token for it, and takes one. What
      the bucket then holds is what it held and earned, up to its capacity. */
  lemma AllowMeaning(b: Bucket, now: real)
    ensures var (after, ok) := AllowBucket(b, now);
            && (ok <==> Ready(b, now)) && (!ok ==> after.tokens < 1.0)
            && after.tokens + (if ok then 1.0 else 0.0)
               + Excess(b.tokens + Accrual(now - b.lastSeen, b.rate), b.capacity)
               == b.tokens + Accrual(now - b.lastSeen, b.rate)
            && after.capacity == b.capacity && after.rate == b.rate && after.lastSeen == now
  {
  }

  /** What a bucket of this capacity loses of so many tokens. */
  function Excess(tokens: real, capacity: real): real {
    if tokens > capacity then tokens - capacity else 0.0
  }

  /** A change of rate loses tokens to the old capacity, and then to the new one. */
  lemma SetRateMeaning(b: Bucket, rate: real, capacity: real, now: real)
    requires b.lastSeen <= now && b.tokens <= b.capacity
    ensures var after := SetRateBucket(b, rate, capacity, now);
            && after.rate == rate && after.capacity == capacity && after.lastSeen == now
            && var earned := b.tokens + Accrual(now - b.lastSeen, b.rate);
               var settled := earned - Excess(earned, b.capacity);
               after.tokens + Excess(settled, capacity) == settled
  {
    AccrualIs(now - b.lastSeen, b.rate);
  }

  lemma AccrualIs(elapsed: real, rate: real)
    ensures Accrual(elapsed, rate) == elapsed * rate && (elapsed == 0.0 ==> elapsed * rate == 0.0)
  {
  }

  // ---- Every run of one bucket ----

  datatype Op = Request(now: real) | Change(now: real, rate: real, capacity: real)

  function Apply(b: Bucket, op: Op): Bucket {
    match op
    case Request(now) => AllowBucket(b, now).0
    case Change(now, rate, capacity) => SetRateBucket(b, rate, capacity, now)
  }

  function Run(b: Bucket, ops: seq<Op>): Bucket
    decreases |ops|
  {
    if ops == [] then b else Run(Apply(b, ops[0]), ops[1..])
  }

  /** How many requests of a run are allowed. */
  function Allowed(b: Bucket, ops: seq<Op>): nat
    decreases |ops|
  {
    if ops == [] then 0
    else (if ops[0].Request? && AllowBucket(b, ops[0].now).1 then 1 else 0) + Allowed(Apply(b, ops[0]), ops[1..])
  }

  /** The rate actually in force, times the time it was in force, summed up. */
  function Accrued(b: Bucket, ops: seq<Op>): real
    decreases |ops|
  {
    if ops == [] then 0.0 else Accrual(ops[0].now - b.lastSeen, b.rate) + Accrued(Apply(b, ops[0]), ops[1..])
  }

  /** The tokens cut off at the capacity, summed up. */
  function Spilled(b: Bucket, ops: seq<Op>): real
    decreases |ops|
  {
    if ops == [] then 0.0 else SpilledBy(b, ops[0]) + Spilled(Apply(b, ops[0]), ops[1..])
  }

  function SpilledBy(b: Bucket, op: Op): real {
    var earned := b.tokens + Accrual(op.now - b.lastSeen, b.rate);
    var settled := earned - Excess(earned, b.capacity);
    Excess(earned, b.capacity) + if op.Change? then Excess(settled, op.capacity) else 0.0
  }

  /** Times do not decrease (Go's monotonic clock); rates and capacities are not
      negative. */
  predicate Admissible(from: real, ops: seq<Op>)
    decreases |ops|
  {
    ops == [] || (from <= ops[0].now && (ops[0].Change? ==> 0.0 <= ops[0].rate && 0.0 <= ops[0].capacity)
                  && Admissible(ops[0].now, ops[1..]))
  }

  lemma AccrualNonNegative(elapsed: real, rate: real)
    requires 0.0 <= elapsed && 0.0 <= rate
    ensures 0.0 <= Accrual(elapsed, rate)
    ensures elapsed == 0.0 ==> Accrual(elapsed, rate) == 0.0
  {
  }

  lemma StepBound(b: Bucket, op: Op)
    requires Sane(b) && b.lastSeen <= op.now && (op.Change? ==> 0.0 <= op.rate && 0.0 <= op.capacity)
    ensures Sane(Apply(b, op)) && Apply(b, op).lastSeen == op.now
    ensures Apply(b, op).tokens + (if op.Request? && AllowBucket(b, op.now).1 then 1.0 else 0.0)
            <= b.tokens + Accrual(op.now - b.lastSeen, b.rate)
  {
    AccrualNonNegative(op.now - b.lastSeen, b.rate);
  }

  /** The bound: in any run of requests and rate changes the tokens stay within
      [0, capacity], and the requests allowed, with the tokens left over, never
      exceed the tokens at the start plus what accrued at the rates in force. */
  lemma {:induction false} TokenBound(b: Bucket, ops: seq<Op>)
    requires Sane(b) && Admissible(b.lastSeen, ops)
    ensures Sane(Run(b, ops))
    ensures Allowed(b, ops) as real + Run(b, ops).tokens <= b.tokens + Accrued(b, ops)
    decreases |ops|
  {
    if ops != [] {
      StepBound(b, ops[0]);
      TokenBound(Apply(b, ops[0]), ops[1..]);
    }
  }

  lemma StepLedger(b: Bucket, op: Op)
    requires Sane(b) && b.lastSeen <= op.now
    ensures Apply(b, op).tokens + (if op.Request? && AllowBucket(b, op.now).1 then 1.0 else 0.0) + SpilledBy(b, op)
         == b.tokens + Accrual(op.now - b.lastSeen, b.rate)
  {
    AccrualIs(op.now - b.lastSeen, b.rate);
    match op
    case Request(now) => AllowMeaning(b, now);
    case Change(now, rate, capacity) => SetRateMeaning(b, rate, capacity, now);
  }

  /** The ledger: no token is lost but at the capacity. In any run the requests allowed,
      the tokens left and those cut off make up the tokens at the start and what
      accrued. */
  lemma {:induction false} TokenLedger(b: Bucket, ops: seq<Op>)
    requires Sane(b) && Admissible(b.lastSeen, ops)
    ensures Allowed(b, ops) as real + Run(b, ops).tokens + Spilled(b, ops) == b.tokens + Accrued(b, ops)
    decreases |ops|
  {
    if ops != [] {
      StepBound(b, ops[0]);
      StepLedger(b, ops[0]);
      TokenLedger(Apply(b, ops[0]), ops[1..]);
    }
  }

  // ---- The limiter's maps ----

  datatype Limits = Limits(rate: real, burst: real, maxEntries: int)

  /** The older of two sampled entries; ties keep the first. */
  function Older(m: map<string, Bucket>, a: string, b: string): string {
    if a in m && b in m && m[b].lastSeen < m[a].lastSeen then b else a
  }

  /** evictOldestLocked over the entries a map iteration happened to yield. */
  function Oldest(m: map<string, Bucket>, sample: seq<string>): string
    requires sample != []
  {
    if |sample| == 1 then sample[0] else Older(m, Oldest(m, sample[..|sample| - 1]), sample[|sample| - 1])
  }

  function Evict(m: map<string, Bucket>, sample: seq<string>): map<string, Bucket> {
    if sample == [] then m else m - {Oldest(m, sample)}
  }

  /** AllowIP/AllowASN for a key that names a real source. */
  function AllowKey(m: map<string, Bucket>, l: Limits, key: string, sample: seq<string>, now: real)
    : (map<string, Bucket>, bool)
  {
    var room := Admitted(m, l, key, sample, now);
    var (b, ok) := AllowBucket(room[key], now);
    (room[key := b], ok)
  }

  /** The map with a bucket for the key: the one it has, or a full one, after
      making room if the map is at its cap. */
  function Admitted(m: map<string, Bucket>, l: Limits, key: string, sample: seq<string>, now: real)
    : (r: map<string, Bucket>)
    ensures key in r
  {
    if key in m then m
    else (if |m| >= l.maxEntries then Evict(m, sample) else m)[key := Bucket(l.burst, l.burst, l.rate, now)]
  }

  lemma {:induction false} OldestSampled(m: map<string, Bucket>, sample: seq<string>)
    requires sample != []
    ensures Oldest(m, sample) in sample
  {
    if |sample| > 1 { OldestSampled(m, sample[..|sample| - 1]); }
  }

  /** evictionSampleSize. */
  const EVICTION_SAMPLE_SIZE: nat := 8

  /** What the eviction loop may have looked at: distinct entries, all of them or
      as many as the sample size. */
  ghost predicate Sampled(m: map<string, Bucket>, sample: seq<string>) {
    && (forall i :: 0 <= i < |sample| ==> sample[i] in m)
    && (forall i, j :: 0 <= i < j < |sample| ==> sample[i] != sample[j])
    && |sample| == if |m| < EVICTION_SAMPLE_SIZE then |m| else EVICTION_SAMPLE_SIZE
  }

  /** The most entries a map may hold; a cap below one still leaves room for the
      source at hand. */
  function Cap(maxEntries: int): nat {
    if maxEntries > 1 then maxEntries else 1
  }

  /** However many distinct sources appear, a full map evicts before it inserts:
      it never outgrows its cap. */
  lemma AdmittedBounded(m: map<string, Bucket>, l: Limits, key: string, sample: seq<string>, now: real)
    requires |m| <= Cap(l.maxEntries)
    requires key !in m && |m| >= l.maxEntries ==> Sampled(m, sample)
    ensures |Admitted(m, l, key, sample, now)| <= Cap(l.maxEntries)
  {
    if key !in m {
      var room := if |m| >= l.maxEntries then Evict(m, sample) else m;
      if |m| >= l.maxEntries && sample != [] {
        OldestSampled(m, sample);
        assert room.Keys == m.Keys - {Oldest(m, sample)};
        assert |room| == |room.Keys| && |m| == |m.Keys|;
      }
      var after := Admitted(m, l, key, sample, now);
      assert after.Keys == room.Keys + {key};
      assert |after| == |after.Keys| && |room| == |room.Keys|;
    }
  }

  /** The entry evicted is no more recent than any other of the sample. */
  lemma {:induction false} OldestIsOldest(m: map<string, Bucket>, sample: seq<string>, k: string)
    requires k in sample && forall x :: x in sample ==> x in m
    ensures Oldest(m, sample) in m && m[Oldest(m, sample)].lastSeen <= m[k].lastSeen
  {
    OldestSampled(m, sample);
    if |sample| > 1 {
      var before, last := sample[..|sample| - 1], sample[|sample| - 1];
      OldestSampled(m, before);
      assert sample == before + [last];
      if k in before { OldestIsOldest(m, before, k); }
    }
  }

  /** A request of a tracked source finds its bucket; any other source has a full one.
      No bucket but that of the source changes; and at most one is evicted, the oldest
      of the sample, when the map is full and the source new. */
  lemma AllowKeyMeaning(m: map<string, Bucket>, l: Limits, key: string, sample: seq<string>, now: real)
    requires forall x :: x in sample ==> x in m
    ensures AllowKey(m, l, key, sample, now).1 <==> Open(m, l, key, now)
    ensures var after := AllowKey(m, l, key, sample, now).0;
            && key in after && after[key].lastSeen == now
            && (key !in m ==> after[key].capacity == l.burst && after[key].rate == l.rate)
    ensures Spares(m, AllowKey(m, l, key, sample, now).0, key, key !in m && |m| >= l.maxEntries, sample)
  {
    OpenDecides(m, l, key, sample, now);
    AdmittedSpares(m, l, key, sample, now);
  }

  /** The buckets of other keys stay as they were, but for one evicted if `full`. */
  ghost predicate Spares(m: map<string, Bucket>, after: map<string, Bucket>, key: string, full: bool,
                         sample: seq<string>)
  {
    && (forall k :: k in after && k != key ==> k in m && after[k] == m[k])
    && (forall k :: k in m && k !in after ==>
          full && forall x :: x in sample && x in m ==> m[k].lastSeen <= m[x].lastSeen)
    && (forall j, k :: j in m && k in m && j !in after && k !in after ==> j == k)
  }

  lemma AdmittedSpares(m: map<string, Bucket>, l: Limits, key: string, sample: seq<string>, now: real)
    requires forall x :: x in sample ==> x in m
    ensures Spares(m, Admitted(m, l, key, sample, now), key, key !in m && |m| >= l.maxEntries, sample)
  {
    if key !in m && |m| >= l.maxEntries && sample != [] {
      OldestSampled(m, sample);
      forall x | x in sample ensures m[Oldest(m, sample)].lastSeen <= m[x].lastSeen {
        OldestIsOldest(m, sample, x);
      }
    }
  }

  /** There is a token for a source: in its bucket, or in the full one it would get. */
  predicate Open(m: map<string, Bucket>, l: Limits, key: string, now: real) {
    if key in m then Ready(m[key], now) else l.burst >= 1.0
  }

  /** The eviction loop has looked at `sample` and may still look at `todo`. */
  ghost predicate Looking(m: map<string, Bucket>, todo: set<string>, sample: seq<string>) {
    && todo <= m.Keys && |sample| + |todo| == |m|
    && (forall i :: 0 <= i < |sample| ==> sample[i] in m && sample[i] !in todo)
    && (forall i, j :: 0 <= i < j < |sample| ==> sample[i] != sample[j])
    && (sample != [] ==> Oldest(m, sample) in m)
  }

  lemma LookAt(m: map<string, Bucket>, todo: set<string>, sample: seq<string>, k: string)
    requires Looking(m, todo, sample) && k in todo
    ensures Looking(m, todo - {k}, sample + [k])
    ensures Oldest(m, sample + [k]) == if sample == [] then k else Older(m, Oldest(m, sample), k)
  {
    assert (sample + [k])[..|sample|] == sample;
  }

  lemma LookingNone(m: map<string, Bucket>, keys: set<string>)
    requires keys == m.Keys
    ensures Looking(m, keys, [])
  {
    assert |m| == |m.Keys|;
  }

  lemma LookedEnough(m: map<string, Bucket>, todo: set<string>, sample: seq<string>)
    requires Looking(m, todo, sample) && |sample| <= EVICTION_SAMPLE_SIZE
    requires todo == {} || |sample| == EVICTION_SAMPLE_SIZE
    ensures Sampled(m, sample)
  {
  }

  /** The oldest of the sample so far, and when it was last seen. */
  ghost predicate Picked(m: map<string, Bucket>, sample: seq<string>, found: bool, oldest: string, seen: real) {
    && found == (sample != [])
    && (found ==> oldest == Oldest(m, sample) && oldest in m && seen == m[oldest].lastSeen)
  }

  lemma PickNext(m: map<string, Bucket>, todo: set<string>, sample: seq<string>, found: bool, oldest: string,
                 seen: real, k: string)
    requires Looking(m, todo, sample) && Picked(m, sample, found, oldest, seen) && k in todo
    ensures if !found || m[k].lastSeen < seen then Picked(m, sample + [k], true, k, m[k].lastSeen)
            else Picked(m, sample + [k], found, oldest, seen)
  {
    LookAt(m, todo, sample, k);
  }

  /** Every bucket but those of `todo` with its rate and capacity set. */
  function RatesSet(m: map<string, Bucket>, todo: set<string>, rate: real, capacity: real, now: real)
    : map<string, Bucket>
  {
    map k | k in m :: if k in todo then m[k] else SetRateBucket(m[k], rate, capacity, now)
  }

  lemma RatesSetStep(m: map<string, Bucket>, todo: set<string>, k: string, rate: real, capacity: real, now: real)
    requires k in todo && k in m
    ensures RatesSet(m, todo - {k}, rate, capacity, now)
         == RatesSet(m, todo, rate, capacity, now)[k := SetRateBucket(m[k], rate, capacity, now)]
    ensures RatesSet(m, todo, rate, capacity, now)[k] == m[k]
  {
  }

  /** No two sources share a bucket. */
  ghost predicate Unshared(entries: map<string, TokenBucket>) {
    forall a, b :: a in entries && b in entries && entries[a] == entries[b] ==> a == b
  }

  lemma UnsharedAdd(entries: map<string, TokenBucket>, key: string, b: TokenBucket)
    requires Unshared(entries) && forall k :: k in entries ==> entries[k] != b
    ensures Unshared(entries[key := b])
  {
  }

  /** One map of buckets, updated in place, with the limits of its kind. */
  class LimiterMap {
    var entries: map<string, TokenBucket>
    var rate: real
    const burst: real
    const maxEntries: int

    ghost predicate Valid()
      reads this`entries
    {
      && |entries| <= Cap(maxEntries)
      && Unshared(entries)
    }

    ghost function Table(): map<string, Bucket>
      reads this`entries, entries.Values
    {
      map k | k in entries :: entries[k].Value()
    }

    constructor (rate: real, burst: real, maxEntries: int)
      ensures Valid() && Table() == map[] && this.rate == rate && this.burst == burst && this.maxEntries == maxEntries
    {
      this.rate, this.burst, this.maxEntries, this.entries := rate, burst, maxEntries, map[];
    }

    /** The scan of evictOldestLocked. */
    method PickOldest() returns (oldest: string, found: bool, ghost sample: seq<string>)
      requires Valid()
      ensures Sampled(Table(), sample) && found == (sample != [])
      ensures found ==> oldest in entries && oldest == Oldest(Table(), sample)
    {
      ghost var table := Table();
      assert table.Keys == entries.Keys;
      LookingNone(table, entries.Keys);
      oldest, found, sample := "", false, [];
      var oldestSeen, todo, sampled := 0.0, entries.Keys, 0;
      while todo != {} && sampled < EVICTION_SAMPLE_SIZE
        invariant sampled == |sample| <= EVICTION_SAMPLE_SIZE && Looking(table, todo, sample)
        invariant Picked(table, sample, found, oldest, oldestSeen)
        decreases todo
      {
        var k :| k in todo;
        LookAt(table, todo, sample, k);
        PickNext(table, todo, sample, found, oldest, oldestSeen, k);
        todo := todo - {k};
        sample := sample + [k];
        var seen := entries[k].lastSeen;
        if !found || seen < oldestSeen {
          oldest, oldestSeen, found := k, seen, true;
        }
        sampled := sampled + 1;
      }
      LookedEnough(table, todo, sample);
    }

    /** evictOldestLocked. */
    method EvictOldest() returns (ghost sample: seq<string>)
      requires Valid()
      modifies this`entries
      ensures Valid() && (forall k :: k in entries ==> k in old(entries) && entries[k] == old(entries)[k])
      ensures |entries| < Cap(maxEntries)
      ensures Sampled(old(Table()), sample) && Table() == Evict(old(Table()), sample)
    {
      var oldest, found;
      oldest, found, sample := PickOldest();
      SameKeys(entries, Table());
      if found {
        Remove(oldest);
      }
    }

    method Remove(key: string)
      requires Valid() && key in entries
      modifies this`entries
      ensures Valid() && entries == old(entries) - {key} && |entries| == |old(entries)| - 1
      ensures Table() == old(Table()) - {key}
    {
      MinusOne(entries, key);
      Retain(entries - {key});
    }

    /** The lookup of AllowIP and AllowASN, under the lock: the bucket of the key,
        made if need be. */
    method Find(key: string, now: real) returns (b: TokenBucket, ghost sample: seq<string>)
      requires Valid()
      modifies this`entries
      ensures Valid() && key in entries && b == entries[key] && (fresh(b) || b in old(entries.Values))
      ensures key !in old(entries) && |old(entries)| >= maxEntries ==> Sampled(old(Table()), sample)
      ensures Table() == Admitted(old(Table()), Limits(rate, burst, maxEntries), key, sample, now)
    {
      SameKeys(entries, Table());
      sample := [];
      if key !in entries {
        if |entries| >= maxEntries {
          sample := EvictOldest();
        }
        InsertNew(key, now);
      }
      b := entries[key];
    }

    /** The Allow after the lookup, with the lock given up: a bucket evicted in
        between still answers, and no tracked source changes. */
    method Spend(b: TokenBucket, now: real) returns (ok: bool)
      requires Valid()
      modifies b
      ensures (b.Value(), ok) == AllowBucket(old(b.Value()), now)
      ensures ok <==> Ready(old(b.Value()), now)
      ensures Table().Keys == old(Table()).Keys
      ensures forall k :: k in entries ==>
                Table()[k] == if entries[k] == b then AllowBucket(old(Table())[k], now).0 else old(Table())[k]
    {
      ok := b.Allow(now);
    }

    /** AllowIP and AllowASN, past the test that the key names a source, when
        nothing comes between the lookup and the Allow. */
    method Admit(key: string, now: real) returns (ok: bool, ghost sample: seq<string>)
      requires Valid()
      modifies this`entries, entries.Values
      ensures Valid()
      ensures key !in old(entries) && |old(entries)| >= maxEntries ==> Sampled(old(Table()), sample)
      ensures (Table(), ok) == AllowKey(old(Table()), Limits(rate, burst, maxEntries), key, sample, now)
      ensures ok <==> Open(old(Table()), Limits(rate, burst, maxEntries), key, now)
    {
      var b;
      b, sample := Find(key, now);
      ghost var room := Table();
      OpenDecides(old(Table()), Limits(rate, burst, maxEntries), key, sample, now);
      ok := Spend(b, now);
      SpentAt(room, Table(), key, now);
    }

    method InsertNew(key: string, now: real)
      requires Valid() && key !in entries && |entries| < Cap(maxEntries)
      modifies this`entries
      ensures Valid() && key in entries && fresh(entries[key]) && entries == old(entries)[key := entries[key]]
      ensures Table() == old(Table())[key := Bucket(burst, burst, rate, now)]
    {
      ghost var table := Table();
      assert forall k :: k in entries ==> entries[k] in entries.Values;
      var b := new TokenBucket(burst, rate, now);
      PlusOne(entries, key, b);
      UnsharedAdd(entries, key, b);
      entries := entries[key := b];
      assert Table() == table[key := b.Value()];
    }

    /** SetIPRate and SetASNRate: every tracked source changes at once. */
    method SetRate(rate: real, now: real)
      requires Valid()
      modifies this`rate, entries.Values
      ensures Valid() && this.rate == rate
      ensures Table() == RatesSet(old(Table()), {}, rate, burst, now)
      ensures Table().Keys == old(Table()).Keys
      ensures forall k :: k in Table() ==> Table()[k].rate == rate && Table()[k].capacity == burst
    {
      this.rate := rate;
      SetRateOfAll(rate, now);
    }

    method SetRateOfAll(rate: real, now: real)
      requires Valid()
      modifies entries.Values
      ensures Table() == RatesSet(old(Table()), {}, rate, burst, now)
    {
      ghost var table := Table();
      var todo := entries.Keys;
      assert RatesSet(table, todo, rate, burst, now) == table;
      while todo != {}
        invariant todo <= entries.Keys == table.Keys
        invariant Table() == RatesSet(table, todo, rate, burst, now)
        decreases todo
      {
        var k :| k in todo;
        RatesSetStep(table, todo, k, rate, burst, now);
        todo := todo - {k};
        SetRateOf(k, rate, now);
      }
    }

    method SetRateOf(key: string, rate: real, now: real)
      requires Valid() && key in entries
      modifies entries[key]
      ensures Table() == old(Table())[key := SetRateBucket(old(Table())[key], rate, burst, now)]
    {
      var b := entries[key];
      b.SetRate(rate, burst, now);
      assert forall k :: k in entries && k != key ==> entries[k] != b;
    }

    /** The loop of cleanup: what stays of the map. */
    method RecentEntries(cutoff: real) returns (cur: map<string, TokenBucket>)
      requires Valid()
      ensures cur.Keys == SeenSince(Table(), cutoff).Keys && |cur| <= |entries|
      ensures forall k :: k in cur ==> k in entries && cur[k] == entries[k]
    {
      ghost var table := Table();
      cur := entries;
      var todo := entries.Keys;
      while todo != {}
        invariant todo <= cur.Keys && |cur| <= |entries| && HalfCleaned(entries, table, cur, todo, cutoff)
        decreases todo
      {
        var k :| k in todo;
        HalfCleanedStep(entries, table, cur, todo, cutoff, k);
        todo := todo - {k};
        if cur[k].lastSeen < cutoff {
          cur := cur - {k};
        }
      }
      CleanedAll(entries, table, cur, cutoff);
    }

    /** cleanup: forgets the sources not seen since the cutoff. */
    method Cleanup(cutoff: real)
      requires Valid()
      modifies this`entries
      ensures Valid() && Table() == SeenSince(old(Table()), cutoff)
      ensures forall k :: k in Table() <==> k in old(Table()) && old(Table())[k].lastSeen >= cutoff
      ensures forall k :: k in Table() ==> Table()[k] == old(Table())[k]
    {
      ghost var table := Table();
      var cur := RecentEntries(cutoff);
      Retain(cur);
      assert Table() == SeenSince(table, cutoff);
    }

    /** Only the buckets of `cur` stay. */
    method Retain(cur: map<string, TokenBucket>)
      requires Valid() && |cur| <= |entries| && forall k :: k in cur ==> k in entries && cur[k] == entries[k]
      modifies this`entries
      ensures Valid() && entries == cur && Table().Keys == cur.Keys
      ensures forall k :: k in cur ==> Table()[k] == old(Table())[k]
    {
      entries := cur;
    }
  }

  lemma SpentAt(before: map<string, Bucket>, after: map<string, Bucket>, key: string, now: real)
    requires before.Keys == after.Keys && key in before
    requires forall k :: k in before ==> after[k] == if k == key then AllowBucket(before[k], now).0 else before[k]
    ensures after == before[key := AllowBucket(before[key], now).0]
  {
  }

  /** The sources seen at the cutoff or after it. */
  function SeenSince(m: map<string, Bucket>, cutoff: real): map<string, Bucket> {
    map k | k in m && m[k].lastSeen >= cutoff :: m[k]
  }

  ghost predicate HalfCleaned(was: map<string, TokenBucket>, table: map<string, Bucket>, cur: map<string, TokenBucket>,
                              todo: set<string>, cutoff: real)
  {
    && was.Keys == table.Keys
    && (forall k :: k in cur <==> k in was && (k in todo || table[k].lastSeen >= cutoff))
    && (forall k :: k in cur ==> cur[k] == was[k])
  }

  lemma HalfCleanedStep(was: map<string, TokenBucket>, table: map<string, Bucket>, cur: map<string, TokenBucket>,
                        todo: set<string>, cutoff: real, k: string)
    requires HalfCleaned(was, table, cur, todo, cutoff) && k in todo && k in was
    ensures HalfCleaned(was, table, if table[k].lastSeen < cutoff then cur - {k} else cur, todo - {k}, cutoff)
    ensures |cur - {k}| <= |cur|
  {
    assert (cur - {k}).Keys == cur.Keys - {k};
  }

  lemma CleanedAll(was: map<string, TokenBucket>, table: map<string, Bucket>, cur: map<string, TokenBucket>,
                   cutoff: real)
    requires HalfCleaned(was, table, cur, {}, cutoff)
    ensures cur.Keys == SeenSince(table, cutoff).Keys
  {
  }

  datatype Limiter = Limiter(ips: map<string, Bucket>, asns: map<string, Bucket>, ipLimits: Limits, asnLimits: Limits)

  datatype Source = NoIp | Ip(text: string)

  /** The keys a map iteration yields when an insert has to make room. */
  datatype Choices = Choices(ipSample: seq<string>, asnSample: seq<string>)

  const UNKNOWN_ASN: string := "Unknown"

  function AllowIP(l: Limiter, ip: Source, c: Choices, now: real): (Limiter, bool) {
    if ip.NoIp? then (l, true)
    else var (ips, ok) := AllowKey(l.ips, l.ipLimits, ip.text, c.ipSample, now); (l.(ips := ips), ok)
  }

  function AllowASN(l: Limiter, asn: string, c: Choices, now: real): (Limiter, bool) {
    if asn == "" || asn == UNKNOWN_ASN then (l, true)
    else var (asns, ok) := AllowKey(l.asns, l.asnLimits, asn, c.asnSample, now); (l.(asns := asns), ok)
  }

  /** Allow: a request the IP bucket refuses does not touch the ASN bucket. */
  function Allow(l: Limiter, ip: Source, asn: string, c: Choices, now: real): (Limiter, bool) {
    var (l1, ok) := AllowIP(l, ip, c, now);
    if !ok then (l1, false) else AllowASN(l1, asn, c, now)
  }

  /** A request is allowed exactly when there is a token for its address, if it has one,
      and for its ASN, if that is known; the ASN is charged only if the address is
      let through. */
  lemma AllowDecides(l: Limiter, ip: Source, asn: string, c: Choices, now: real)
    ensures Allow(l, ip, asn, c, now).1 <==> !Refuses(l, ip, asn, now)
    ensures ip.Ip? && !Open(l.ips, l.ipLimits, ip.text, now) ==> Allow(l, ip, asn, c, now).0.asns == l.asns
  {
    if ip.Ip? { OpenDecides(l.ips, l.ipLimits, ip.text, c.ipSample, now); }
    OpenDecides(l.asns, l.asnLimits, asn, c.asnSample, now);
  }

  predicate Refuses(l: Limiter, ip: Source, asn: string, now: real) {
    || (ip.Ip? && !Open(l.ips, l.ipLimits, ip.text, now))
    || (asn != "" && asn != UNKNOWN_ASN && !Open(l.asns, l.asnLimits, asn, now))
  }

  lemma OpenDecides(m: map<string, Bucket>, l: Limits, key: string, sample: seq<string>, now: real)
    ensures AllowKey(m, l, key, sample, now).1 <==> Open(m, l, key, now)
    ensures var b := AllowKey(m, l, key, sample, now).0[key];
            b.lastSeen == now && (key !in m ==> b.capacity == l.burst && b.rate == l.rate)
  {
    AllowMeaning(Admitted(m, l, key, sample, now)[key], now);
    AccrualIs(now - now, l.rate);
  }

  /** cleanup, on both maps. */
  function Cleaned(l: Limiter, cutoff: real): Limiter {
    l.(ips := SeenSince(l.ips, cutoff), asns := SeenSince(l.asns, cutoff))
  }
}

/** Flood detection from kernel rate windows (pkg/collector/service.go): the
    collector remembers only samples at or above the threshold, and this is
    invisible to what it signals. */
module FloodRate {

  /** rateMinFloodPPS. */
  const RATE_MIN_FLOOD_PPS: nat := 1000

  type Key = nat

  /** ebpf.ICMPRate and the sample kept of it. */
  datatype Rate = Rate(lastTime: nat, count: nat)

  /** rateFreshness: `known` is false when the clock could not be read. */
  datatype Freshness = Freshness(nowNs: nat, maxAge: nat, known: bool)

  predicate Stale(f: Freshness, lastTime: nat) {
    f.known && lastTime < f.nowNs && f.nowNs - lastTime > f.maxAge
  }

  /** ppsFromWindow. */
  function PpsFromWindow(prev: map<Key, Rate>, k: Key, rate: Rate): nat {
    if k in prev && rate.lastTime > prev[k].lastTime && rate.count < prev[k].count then prev[k].count else rate.count
  }

  /** (pps, flood) as floodPPS returns them. */
  datatype Verdict = Verdict(pps: nat, flood: bool)

  function Judge(prev: map<Key, Rate>, k: Key, rate: Rate, f: Freshness): Verdict {
    if Stale(f, rate.lastTime) then Verdict(0, false)
    else var pps := PpsFromWindow(prev, k, rate); Verdict(pps, pps >= RATE_MIN_FLOOD_PPS)
  }

  /** storePrevRate and the deletion of stale sources. */
  function Remember(prev: map<Key, Rate>, k: Key, rate: Rate, f: Freshness): map<Key, Rate> {
    if Stale(f, rate.lastTime) || rate.count < RATE_MIN_FLOOD_PPS then prev - {k} else prev[k := rate]
  }

  /** The reference keeps every sample. */
  function RememberAll(prev: map<Key, Rate>, k: Key, rate: Rate, f: Freshness): map<Key, Rate> {
    if Stale(f, rate.lastTime) then prev - {k} else prev[k := rate]
  }

  class PrevRates {
    var prev: map<Key, Rate>

    constructor ()
      ensures prev == map[]
    {
      prev := map[];
    }

    method StorePrevRate(k: Key, rate: Rate)
      modifies this
      ensures prev == if rate.count >= RATE_MIN_FLOOD_PPS then old(prev)[k := rate] else old(prev) - {k}
    {
      if rate.count >= RATE_MIN_FLOOD_PPS {
        prev := prev[k := rate];
      } else {
        prev := prev - {k};
      }
    }

    method ComputePPS(k: Key, rate: Rate) returns (pps: nat)
      modifies this
      ensures pps == PpsFromWindow(old(prev), k, rate)
      ensures prev == if rate.count >= RATE_MIN_FLOOD_PPS then old(prev)[k := rate] else old(prev) - {k}
    {
      var ok := k in prev;
      var pr := if ok then prev[k] else Rate(0, 0);
      StorePrevRate(k, rate);
      if !ok || rate.lastTime == pr.lastTime {
        return rate.count;
      }
      if rate.lastTime > pr.lastTime && rate.count < pr.count {
        return pr.count;
      }
      pps := rate.count;
    }

    method FloodPPS(k: Key, rate: Rate, f: Freshness) returns (v: Verdict)
      modifies this
      ensures v == Judge(old(prev), k, rate, f)
      ensures prev == Remember(old(prev), k, rate, f)
    {
      if Stale(f, rate.lastTime) {
        prev := prev - {k};
        return Verdict(0, false);
      }
      var pps := ComputePPS(k, rate);
      v := Verdict(pps, pps >= RATE_MIN_FLOOD_PPS);
    }
  }

  // ---- Runs of polls ----

  /** A source read in a poll, or state forgotten by pruneStaleState. */
  datatype Poll = Sample(key: Key, rate: Rate, freshness: Freshness) | Forget(keys: set<Key>)

  function Kept(prev: map<Key, Rate>, p: Poll): map<Key, Rate> {
    match p
    case Sample(k, rate, f) => Remember(prev, k, rate, f)
    case Forget(keys) => prev - keys
  }

  function KeptAll(prev: map<Key, Rate>, p: Poll): map<Key, Rate> {
    match p
    case Sample(k, rate, f) => RememberAll(prev, k, rate, f)
    case Forget(keys) => prev - keys
  }

  function Verdicts(prev: map<Key, Rate>, polls: seq<Poll>): seq<Verdict>
    decreases |polls|
  {
    if polls == [] then []
    else (if polls[0].Sample? then [Judge(prev, polls[0].key, polls[0].rate, polls[0].freshness)] else [])
         + Verdicts(Kept(prev, polls[0]), polls[1..])
  }

  function ReferenceVerdicts(prev: map<Key, Rate>, polls: seq<Poll>): seq<Verdict>
    decreases |polls|
  {
    if polls == [] then []
    else (if polls[0].Sample? then [Judge(prev, polls[0].key, polls[0].rate, polls[0].freshness)] else [])
         + ReferenceVerdicts(KeptAll(prev, polls[0]), polls[1..])
  }

  /** What the collector holds is the reference's samples that could matter. */
  predicate Abstracts(prev: map<Key, Rate>, all: map<Key, Rate>) {
    prev == map k | k in all && all[k].count >= RATE_MIN_FLOOD_PPS :: all[k]
  }

  /** The same verdict, and the same pps whenever it is a flood. */
  predicate SameSignal(v: Verdict, ref: Verdict) {
    v.flood == ref.flood && (v.flood ==> v.pps == ref.pps)
  }

  lemma JudgeSame(prev: map<Key, Rate>, all: map<Key, Rate>, k: Key, rate: Rate, f: Freshness)
    requires Abstracts(prev, all)
    ensures SameSignal(Judge(prev, k, rate, f), Judge(all, k, rate, f))
  {
  }

  lemma KeptSame(prev: map<Key, Rate>, all: map<Key, Rate>, p: Poll)
    requires Abstracts(prev, all)
    ensures Abstracts(Kept(prev, p), KeptAll(all, p))
  {
  }

  lemma {:induction false} RunSame(prev: map<Key, Rate>, all: map<Key, Rate>, polls: seq<Poll>)
    requires Abstracts(prev, all)
    ensures |Verdicts(prev, polls)| == |ReferenceVerdicts(all, polls)|
    ensures forall i :: 0 <= i < |Verdicts(prev, polls)| ==>
              SameSignal(Verdicts(prev, polls)[i], ReferenceVerdicts(all, polls)[i])
    decreases |polls|
  {
    if polls != [] {
      KeptSame(prev, all, polls[0]);
      RunSame(Kept(prev, polls[0]), KeptAll(all, polls[0]), polls[1..]);
      if polls[0].Sample? {
        JudgeSame(prev, all, polls[0].key, polls[0].rate, polls[0].freshness);
      }
    }
  }

  /** Pruning is invisible: over every run of polls from the start, the verdicts
      are those of a collector that stores every sample. */
  lemma PruningInvisible(polls: seq<Poll>)
    ensures |Verdicts(map[], polls)| == |ReferenceVerdicts(map[], polls)|
    ensures forall i :: 0 <= i < |Verdicts(map[], polls)| ==>
              SameSignal(Verdicts(map[], polls)[i], ReferenceVerdicts(map[], polls)[i])
  {
    RunSame(map[], map[], polls);
  }

  // ---- What the verdicts are ----

  function Holding(prev: map<Key, Rate>, polls: seq<Poll>): map<Key, Rate>
    decreases |polls|
  {
    if polls == [] then prev else Holding(Kept(prev, polls[0]), polls[1..])
  }

  lemma {:induction false} VerdictsOf(prev: map<Key, Rate>, polls: seq<Poll>, k: Key, rate: Rate, f: Freshness)
    ensures Verdicts(prev, polls + [Sample(k, rate, f)])
         == Verdicts(prev, polls) + [Judge(Holding(prev, polls), k, rate, f)]
    decreases |polls|
  {
    var last := [Sample(k, rate, f)];
    if polls == [] {
      assert polls + last == last;
      assert Verdicts(Kept(prev, last[0]), last[1..]) == [];
    } else {
      assert (polls + last)[1..] == polls[1..] + last;
      VerdictsOf(Kept(prev, polls[0]), polls[1..], k, rate, f);
    }
  }

  /** The poll is about another source. */
  predicate Elsewhere(p: Poll, k: Key) {
    match p
    case Sample(other, _, _) => other != k
    case Forget(keys) => k !in keys
  }

  lemma {:induction false} HoldingKeeps(prev: map<Key, Rate>, polls: seq<Poll>, k: Key)
    requires forall i :: 0 <= i < |polls| ==> Elsewhere(polls[i], k)
    ensures k in Holding(prev, polls) <==> k in prev
    ensures k in prev ==> Holding(prev, polls)[k] == prev[k]
    decreases |polls|
  {
    if polls != [] {
      HoldingKeeps(Kept(prev, polls[0]), polls[1..], k);
    }
  }

  lemma {:induction false} HoldingOn(prev: map<Key, Rate>, polls: seq<Poll>, more: seq<Poll>)
    ensures Holding(prev, polls + more) == Holding(Holding(prev, polls), more)
    decreases |polls|
  {
    if polls == [] {
      assert polls + more == more;
    } else {
      assert (polls + more)[1..] == polls[1..] + more;
      HoldingOn(Kept(prev, polls[0]), polls[1..], more);
    }
  }

  /** The sample is older than the freshness allows. */
  predicate TooOld(rate: Rate, f: Freshness) {
    f.known && f.nowNs - rate.lastTime > f.maxAge
  }

  /** The verdict on a source, from it and its sample before. A fresh sample reports its
      own count; when the window has rolled since a fresh flood sample, and the new
      count is smaller, that of the flood. Nothing polled of other sources matters. */
  lemma JudgedByWindow(before: seq<Poll>, k: Key, a: Rate, fa: Freshness, between: seq<Poll>, b: Rate, fb: Freshness)
    requires forall i :: 0 <= i < |between| ==> Elsewhere(between[i], k)
    ensures var polls := before + [Sample(k, a, fa)] + between;
            var rolled := && !TooOld(a, fa) && a.count >= RATE_MIN_FLOOD_PPS
                          && b.lastTime > a.lastTime && b.count < a.count;
            Verdicts(map[], polls + [Sample(k, b, fb)])
            == Verdicts(map[], polls)
               + [if TooOld(b, fb) then Verdict(0, false)
                  else if rolled then Verdict(a.count, true)
                  else Verdict(b.count, b.count >= RATE_MIN_FLOOD_PPS)]
  {
    var first := [Sample(k, a, fa)];
    var held := Holding(map[], before);
    VerdictsOf(map[], before + first + between, k, b, fb);
    HoldingOn(map[], before + first, between);
    HoldingOn(map[], before, first);
    assert Holding(Kept(held, first[0]), first[1..]) == Kept(held, first[0]);
    HoldingKeeps(Kept(held, first[0]), between, k);
  }

  /** The verdict on a source that has not been polled before. */
  lemma JudgedFirst(before: seq<Poll>, k: Key, b: Rate, fb: Freshness)
    requires forall i :: 0 <= i < |before| ==> Elsewhere(before[i], k)
    ensures Verdicts(map[], before + [Sample(k, b, fb)])
         == Verdicts(map[], before)
            + [if TooOld(b, fb) then Verdict(0, false) else Verdict(b.count, b.count >= RATE_MIN_FLOOD_PPS)]
  {
    VerdictsOf(map[], before, k, b, fb);
    HoldingKeeps(map[], before, k);
  }
}

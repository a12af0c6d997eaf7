/** Port ranges: what userspace writes (portRanges in
    pkg/scrubrules/scrubrules.go) and what XDP reads (rule_range_match in
    pkg/collector/ebpf/c/protector.bpf.c). */
module PortRanges {
  import opened Basics
  import opened Orders

  /** RuleMaxRanges. */
  const RULE_MAX_RANGES: nat := 8
  const MAX_PORT: nat := 65535

  datatype Range = Range(from: nat, to: nat)

  predicate Contains(r: Range, v: nat) { r.from <= v <= r.to }

  ghost predicate InSome(rs: seq<Range>, v: nat) {
    exists i :: 0 <= i < |rs| && Contains(rs[i], v)
  }

  predicate ValidRange(r: Range) { r.from <= r.to <= MAX_PORT }

  predicate AllValid(rs: seq<Range>) {
    forall i :: 0 <= i < |rs| ==> ValidRange(rs[i])
  }

  predicate FromLe(a: Range, b: Range) { a.from <= b.from }

  /** Sorted, and separated by gaps: neighbours are neither overlapping nor adjacent. */
  predicate Normalized(rs: seq<Range>) {
    && AllValid(rs)
    && forall i, j :: 0 <= i < j < |rs| ==> rs[i].to + 1 < rs[j].from
  }

  // ---- Merging sorted ranges ----

  function MergeInto(acc: seq<Range>, r: Range): seq<Range> {
    if acc != [] && r.from <= acc[|acc| - 1].to + 1
    then acc[..|acc| - 1] + [Range(acc[|acc| - 1].from, if r.to > acc[|acc| - 1].to then r.to else acc[|acc| - 1].to)]
    else acc + [r]
  }

  function MergeAll(rs: seq<Range>): (m: seq<Range>)
    ensures |m| <= |rs|
  {
    if rs == [] then [] else MergeInto(MergeAll(rs[..|rs| - 1]), rs[|rs| - 1])
  }

  lemma InSomeSnoc(rs: seq<Range>, r: Range, v: nat)
    ensures InSome(rs + [r], v) <==> InSome(rs, v) || Contains(r, v)
  {
    var s := rs + [r];
    if InSome(rs, v) {
      var i :| 0 <= i < |rs| && Contains(rs[i], v);
      assert s[i] == rs[i];
    }
    if Contains(r, v) { assert s[|rs|] == r; }
  }

  lemma MergeIntoKeeps(acc: seq<Range>, r: Range)
    requires Normalized(acc) && ValidRange(r)
    requires acc != [] ==> acc[|acc| - 1].from <= r.from
    ensures Normalized(MergeInto(acc, r))
    ensures MergeInto(acc, r)[|MergeInto(acc, r)| - 1].from <= r.from
  {
  }

  lemma MergeIntoMembers(acc: seq<Range>, r: Range, v: nat)
    requires ValidRange(r) && (acc != [] ==> acc[|acc| - 1].from <= r.from)
    ensures InSome(MergeInto(acc, r), v) <==> InSome(acc, v) || Contains(r, v)
  {
    var m := MergeInto(acc, r);
    if acc != [] && r.from <= acc[|acc| - 1].to + 1 {
      var n := |acc| - 1;
      assert acc == acc[..n] + [acc[n]];
      InSomeSnoc(acc[..n], acc[n], v);
      InSomeSnoc(acc[..n], m[n], v);
    } else {
      InSomeSnoc(acc, r, v);
    }
  }

  lemma {:induction false} MergeAllNormal(rs: seq<Range>)
    requires SortedBy(rs, FromLe) && AllValid(rs)
    ensures Normalized(MergeAll(rs))
    ensures rs != [] ==> MergeAll(rs) != [] && MergeAll(rs)[|MergeAll(rs)| - 1].from <= rs[|rs| - 1].from
  {
    if rs != [] {
      var n := |rs| - 1;
      MergeAllNormal(rs[..n]);
      assert n > 0 ==> FromLe(rs[n - 1], rs[n]);
      MergeIntoKeeps(MergeAll(rs[..n]), rs[n]);
    }
  }

  lemma MergeStepMembers(rs: seq<Range>, v: nat)
    requires SortedBy(rs, FromLe) && AllValid(rs) && rs != []
    ensures InSome(MergeAll(rs), v) <==> InSome(MergeAll(rs[..|rs| - 1]), v) || Contains(rs[|rs| - 1], v)
  {
    var n := |rs| - 1;
    assert n > 0 ==> FromLe(rs[n - 1], rs[n]);
    MergeAllNormal(rs[..n]);
    MergeIntoMembers(MergeAll(rs[..n]), rs[n], v);
  }

  lemma {:induction false} MergeAllMembers(rs: seq<Range>, v: nat)
    requires SortedBy(rs, FromLe) && AllValid(rs)
    ensures InSome(MergeAll(rs), v) <==> InSome(rs, v)
  {
    if rs != [] {
      var before, last := rs[..|rs| - 1], rs[|rs| - 1];
      MergeStepMembers(rs, v);
      MergeAllMembers(before, v);
      assert InSome(rs, v) <==> InSome(before, v) || Contains(last, v) by {
        assert rs == before + [last];
        InSomeSnoc(before, last, v);
      }
    }
  }

  lemma FromLeIsOrder()
    ensures TotalPreorder(FromLe)
  {
  }

  function Normalize(rs: seq<Range>): seq<Range> {
    MergeAll(Sort(rs, FromLe))
  }

  lemma SameElements(a: seq<Range>, b: seq<Range>, v: nat)
    requires multiset(a) == multiset(b) && InSome(a, v)
    ensures InSome(b, v)
  {
    var i :| 0 <= i < |a| && Contains(a[i], v);
    assert a[i] in multiset(b);
    var j :| 0 <= j < |b| && b[j] == a[i];
  }

  /** Normalising keeps exactly the ports of the input. */
  lemma NormalizeMeaning(rs: seq<Range>)
    requires AllValid(rs)
    ensures Normalized(Normalize(rs)) && |Normalize(rs)| <= |rs|
    ensures forall v :: InSome(Normalize(rs), v) <==> InSome(rs, v)
  {
    FromLeIsOrder();
    var s := Sort(rs, FromLe);
    SortCorrect(rs, FromLe);
    forall i | 0 <= i < |s| ensures ValidRange(s[i]) {
      assert s[i] in multiset(rs);
    }
    MergeAllNormal(s);
    forall v ensures InSome(MergeAll(s), v) <==> InSome(s, v) { MergeAllMembers(s, v); }
    forall v ensures InSome(s, v) <==> InSome(rs, v) {
      if InSome(s, v) { SameElements(s, rs, v); }
      if InSome(rs, v) { SameElements(rs, s, v); }
    }
  }

  lemma FirstOf(a: seq<Range>, b: seq<Range>)
    requires Normalized(a) && Normalized(b) && a != []
    requires forall v :: InSome(a, v) ==> InSome(b, v)
    ensures b != [] && b[0].from <= a[0].from
  {
    assert Contains(a[0], a[0].from);
    assert InSome(a, a[0].from);
    var i :| 0 <= i < |b| && Contains(b[i], a[0].from);
  }

  /** A run of ports of one list lies inside a single range of the other. */
  lemma RunWithin(a: seq<Range>, b: seq<Range>)
    requires Normalized(a) && Normalized(b) && a != [] && b != [] && a[0].from == b[0].from
    requires forall v :: InSome(a, v) ==> InSome(b, v)
    ensures a[0].to <= b[0].to
  {
    if b[0].to < a[0].to {
      assert Contains(a[0], b[0].to + 1);
      assert InSome(a, b[0].to + 1);
    }
  }

  lemma TailMembers(a: seq<Range>, v: nat)
    requires Normalized(a) && a != []
    ensures InSome(a[1..], v) <==> InSome(a, v) && v > a[0].to
  {
    if InSome(a[1..], v) {
      var i :| 0 <= i < |a| - 1 && Contains(a[1..][i], v);
      assert a[1..][i] == a[i + 1];
    }
    if InSome(a, v) && v > a[0].to {
      var i :| 0 <= i < |a| && Contains(a[i], v);
      assert a[1..][i - 1] == a[i];
    }
  }

  /** The written form is canonical: it depends on the set of ports only, so a
      rule restated with other ranges for the same ports keeps its encoding. */
  lemma {:induction false} NormalFormUnique(a: seq<Range>, b: seq<Range>)
    requires Normalized(a) && Normalized(b)
    requires forall v :: InSome(a, v) <==> InSome(b, v)
    ensures a == b
    decreases |a|
  {
    if a != [] {
      FirstOf(a, b);
      FirstOf(b, a);
      RunWithin(a, b);
      RunWithin(b, a);
      forall v ensures InSome(a[1..], v) <==> InSome(b[1..], v) {
        TailMembers(a, v);
        TailMembers(b, v);
      }
      NormalFormUnique(a[1..], b[1..]);
      assert a == [a[0]] + a[1..] && b == [b[0]] + b[1..];
    } else if b != [] {
      FirstOf(b, a);
    }
  }

  method CheckRanges(input: seq<Range>) returns (ok: bool)
    ensures ok <==> AllValid(input)
  {
    for i := 0 to |input|
      invariant forall j :: 0 <= j < i ==> ValidRange(input[j])
    {
      if input[i].from > input[i].to || input[i].to > MAX_PORT {
        return false;
      }
    }
    ok := true;
  }

  /** One range merged into the `n` written so far, widening the last of them
      or taking the next place. */
  method MergeOne(dst: array<Range>, n: nat, r: Range) returns (m: nat)
    requires n < dst.Length
    modifies dst
    ensures n <= m <= n + 1 && dst[..m] == MergeInto(old(dst[..n]), r)
    ensures forall j :: m <= j < dst.Length ==> dst[j] == old(dst[j])
  {
    ghost var acc := dst[..n];
    if n > 0 && r.from <= dst[n - 1].to + 1 {
      dst[n - 1] := Range(dst[n - 1].from, if r.to > dst[n - 1].to then r.to else dst[n - 1].to);
      m := n;
      assert dst[..m] == acc[..n - 1] + [dst[n - 1]];
    } else {
      dst[n] := r;
      m := n + 1;
      assert dst[..m] == acc + [r];
    }
  }

  method MergeWrite(dst: array<Range>, ranges: seq<Range>) returns (n: nat)
    requires |ranges| <= dst.Length
    modifies dst
    ensures n <= dst.Length && dst[..n] == MergeAll(ranges)
    ensures forall j :: n <= j < dst.Length ==> dst[j] == old(dst[j])
  {
    n := 0;
    for i := 0 to |ranges|
      invariant n <= i && dst[..n] == MergeAll(ranges[..i])
      invariant forall j :: n <= j < dst.Length ==> dst[j] == old(dst[j])
    {
      assert ranges[..i + 1][..i] == ranges[..i];
      n := MergeOne(dst, n, ranges[i]);
    }
    assert ranges[..|ranges|] == ranges;
  }

  /** portRanges: fills `dst` in place and returns how many ranges it wrote. */
  method WritePortRanges(dst: array<Range>, input: seq<Range>) returns (n: nat, ok: bool)
    modifies dst
    ensures ok <==> |input| <= dst.Length && AllValid(input)
    ensures ok ==> n <= dst.Length && dst[..n] == Normalize(input)
    ensures ok ==> forall j :: n <= j < dst.Length ==> dst[j] == old(dst[j])
    ensures !ok ==> dst[..] == old(dst[..])
  {
    n, ok := 0, false;
    if |input| > dst.Length {
      return;
    }
    ok := CheckRanges(input);
    if ok {
      FromLeIsOrder();
      SortCorrect(input, FromLe);
      n := MergeWrite(dst, Sort(input, FromLe));
    }
  }

  // ---- XDP's side ----

  /** The unrolled bisection of rule_range_match. */
  function Bisect(rs: seq<Range>, lo: nat, hi: nat, v: nat, steps: nat): (r: nat)
    requires lo < hi <= |rs|
    ensures lo <= r < hi
    decreases steps
  {
    if steps == 0 || lo + 1 >= hi then lo
    else
      var mid := (lo + hi) / 2;
      if rs[mid].from <= v then Bisect(rs, mid, hi, v, steps - 1) else Bisect(rs, lo, mid, v, steps - 1)
  }

  /** rule_range_match. */
  predicate RangeMatch(rs: seq<Range>, v: nat) {
    rs == [] || Contains(rs[Bisect(rs, 0, |rs|, v, 3)], v)
  }

  lemma {:induction false} BisectFinds(rs: seq<Range>, lo: nat, hi: nat, v: nat, steps: nat)
    requires Normalized(rs) && lo < hi <= |rs| && hi - lo <= Pow2(steps)
    requires lo > 0 ==> rs[lo].from <= v
    requires hi < |rs| ==> v < rs[hi].from
    ensures InSome(rs, v) <==> Contains(rs[Bisect(rs, lo, hi, v, steps)], v)
    decreases steps
  {
    if lo + 1 >= hi {
      assert forall i :: 0 <= i < lo ==> rs[i].to + 1 < rs[lo].from;
      assert forall i :: hi < i < |rs| ==> rs[hi].to + 1 < rs[i].from;
    } else {
      var mid := (lo + hi) / 2;
      if rs[mid].from <= v {
        BisectFinds(rs, mid, hi, v, steps - 1);
      } else {
        BisectFinds(rs, lo, mid, v, steps - 1);
      }
    }
  }

  /** Three bisection steps over what userspace wrote decide membership in the
      ranges of the rule as they were given; no ranges match every port. */
  lemma PortMatchMeaning(input: seq<Range>, v: nat)
    requires AllValid(input) && |input| <= RULE_MAX_RANGES
    ensures RangeMatch(Normalize(input), v) <==> input == [] || InSome(input, v)
  {
    NormalizeMeaning(input);
    var rs := Normalize(input);
    if input != [] {
      assert InSome(input, input[0].from) by { assert Contains(input[0], input[0].from); }
      assert InSome(rs, input[0].from);
      assert Pow2(3) == 8;
      BisectFinds(rs, 0, |rs|, v, 3);
    }
  }
}

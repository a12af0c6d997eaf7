/** Source prefixes: what userspace writes (encodeSources in
    pkg/scrubrules/scrubrules.go) and what XDP reads (rule_src_match in
    pkg/collector/ebpf/c/protector.bpf.c). */
module SourceList {
  import opened Basics
  import opened Orders
  import opened Prefixes

  /** RuleMaxSources. */
  const RULE_MAX_SOURCES: nat := 8

  /** An encoded source: network address and mask; rulePrefix. */
  datatype RulePrefix = RulePrefix(addr: seq<Bit>, mask: seq<Bit>)

  /** The source fields of the kernel rule. `lo` and `hi` span the IPv4 sources. */
  datatype Sources = Sources(list: seq<RulePrefix>, bsearch: bool, lo: seq<Bit>, hi: seq<Bit>)

  predicate OfFamily(srcs: seq<Prefix>, v4: bool) {
    forall i :: 0 <= i < |srcs| ==> WellFormed(srcs[i]) && srcs[i].v4 == v4
  }

  ghost predicate InSome(srcs: seq<Prefix>, x: seq<Bit>) {
    exists i :: 0 <= i < |srcs| && srcs[i].path <= x
  }

  function Encode(p: Prefix): RulePrefix {
    if WellFormed(p) then RulePrefix(Addr(p), Mask(p)) else RulePrefix([], [])
  }

  function EncodeAll(srcs: seq<Prefix>): (r: seq<RulePrefix>)
    ensures |r| == |srcs| && forall i :: 0 <= i < |r| ==> r[i] == Encode(srcs[i])
  {
    seq(|srcs|, i requires 0 <= i < |srcs| => Encode(srcs[i]))
  }

  /** The order of the sort: addresses only, lengths do not count. */
  predicate AddrLe(p: Prefix, q: Prefix) {
    LexLe(Encode(p).addr, Encode(q).addr)
  }

  lemma AddrLeIsOrder()
    ensures TotalPreorder(AddrLe)
  {
    forall p, q ensures AddrLe(p, q) || AddrLe(q, p) { LexTotal(Encode(p).addr, Encode(q).addr); }
    forall p, q, r | AddrLe(p, q) && AddrLe(q, r) ensures AddrLe(p, r) {
      LexTransitive(Encode(p).addr, Encode(q).addr, Encode(r).addr);
    }
  }

  /** slices.Compact: drops elements equal to their predecessor. */
  function Compact(s: seq<Prefix>): (r: seq<Prefix>)
    ensures |r| <= |s|
    ensures s != [] ==> r != [] && r[|r| - 1] == s[|s| - 1]
    ensures forall p :: p in r <==> p in s
  {
    if |s| < 2 then s
    else
      var n := |s| - 1;
      var r := Compact(s[..n]);
      assert s == s[..n] + [s[n]];
      if s[n] == s[n - 1] then r else r + [s[n]]
  }

  lemma {:induction false} CompactSorted(s: seq<Prefix>)
    requires Chain(s, AddrLe)
    ensures Chain(Compact(s), AddrLe)
    ensures forall i :: 0 < i < |Compact(s)| ==> Compact(s)[i - 1] != Compact(s)[i]
  {
    if |s| >= 2 {
      var n := |s| - 1;
      CompactSorted(s[..n]);
      assert Compact(s[..n])[|Compact(s[..n])| - 1] == s[n - 1];
      assert AddrLe(s[n - 1], s[n]);
    }
  }

  /** The list XDP gets: IPv4 sources sorted and compacted, IPv6 ones as given. */
  function Listed(srcs: seq<Prefix>, v4: bool): seq<Prefix> {
    if v4 then Compact(Sort(srcs, AddrLe)) else srcs
  }

  lemma {:induction false} ListedMembers(srcs: seq<Prefix>, v4: bool)
    ensures forall p :: p in Listed(srcs, v4) <==> p in srcs
    ensures |Listed(srcs, v4)| <= |srcs|
  {
    if v4 {
      AddrLeIsOrder();
      SortCorrect(srcs, AddrLe);
    }
  }

  predicate SameLength(srcs: seq<Prefix>) {
    forall i :: 0 <= i < |srcs| ==> |srcs[i].path| == |srcs[0].path|
  }

  predicate Spans(srcs: seq<Prefix>, lo: seq<Bit>, hi: seq<Bit>)
    requires OfFamily(srcs, true)
  {
    forall i :: 0 <= i < |srcs| ==> LexLe(lo, Addr(srcs[i])) && LexLe(LastAddr(srcs[i]), hi)
  }

  /** The span of the first `n` sources. */
  function Lo(srcs: seq<Prefix>, n: nat): seq<Bit>
    requires n <= |srcs| && OfFamily(srcs, true)
  {
    if n == 0 then Repeat(1, 32)
    else var lo := Lo(srcs, n - 1); if LexLe(lo, Addr(srcs[n - 1])) then lo else Addr(srcs[n - 1])
  }

  function Hi(srcs: seq<Prefix>, n: nat): seq<Bit>
    requires n <= |srcs| && OfFamily(srcs, true)
  {
    if n == 0 then Repeat(0, 32)
    else var hi := Hi(srcs, n - 1); if LexLe(LastAddr(srcs[n - 1]), hi) then hi else LastAddr(srcs[n - 1])
  }

  lemma {:induction false} SpanCorrect(srcs: seq<Prefix>, n: nat)
    requires n <= |srcs| && OfFamily(srcs, true)
    ensures Spans(srcs[..n], Lo(srcs, n), Hi(srcs, n))
  {
    if n > 0 {
      SpanCorrect(srcs, n - 1);
      var p := srcs[n - 1];
      var lo, hi := Lo(srcs, n - 1), Hi(srcs, n - 1);
      LexTotal(lo, Addr(p));
      LexTotal(LastAddr(p), hi);
      LexReflexive(Addr(p));
      LexReflexive(LastAddr(p));
      forall i | 0 <= i < n ensures LexLe(Lo(srcs, n), Addr(srcs[i])) && LexLe(LastAddr(srcs[i]), Hi(srcs, n)) {
        if i < n - 1 {
          assert srcs[..n - 1][i] == srcs[i];
          if Lo(srcs, n) != lo { LexTransitive(Addr(p), lo, Addr(srcs[i])); }
          if Hi(srcs, n) != hi { LexTransitive(LastAddr(srcs[i]), hi, LastAddr(p)); }
        }
      }
    }
  }

  lemma {:induction false} LexExtremes(a: seq<Bit>)
    ensures LexLe(Repeat(0, |a|), a) && LexLe(a, Repeat(1, |a|))
  {
    if a != [] {
      LexExtremes(a[1..]);
      assert Repeat(0, |a|)[1..] == Repeat(0, |a| - 1) && Repeat(1, |a|)[1..] == Repeat(1, |a| - 1);
    }
  }

  lemma SpanOfOne(srcs: seq<Prefix>)
    requires srcs != [] && OfFamily(srcs, true)
    ensures Lo(srcs, 1) == Addr(srcs[0]) && Hi(srcs, 1) == LastAddr(srcs[0])
  {
    var first, last := Addr(srcs[0]), LastAddr(srcs[0]);
    assert Lo(srcs, 0) == Repeat(1, 32) && Hi(srcs, 0) == Repeat(0, 32);
    LexExtremes(first);
    LexExtremes(last);
    if LexLe(Repeat(1, 32), first) { LexAntisymmetric(Repeat(1, 32), first); }
    if LexLe(last, Repeat(0, 32)) { LexAntisymmetric(last, Repeat(0, 32)); }
  }

  /** And no more than it has to: it starts and ends with a source. */
  lemma {:induction false} SpanTight(srcs: seq<Prefix>, n: nat) returns (i: nat, j: nat)
    requires 0 < n <= |srcs| && OfFamily(srcs, true)
    ensures i < n && Lo(srcs, n) == Addr(srcs[i])
    ensures j < n && Hi(srcs, n) == LastAddr(srcs[j])
  {
    if n == 1 {
      SpanOfOne(srcs);
      i, j := 0, 0;
    } else {
      i, j := SpanTight(srcs, n - 1);
      i := if LexLe(Lo(srcs, n - 1), Addr(srcs[n - 1])) then i else n - 1;
      j := if LexLe(LastAddr(srcs[n - 1]), Hi(srcs, n - 1)) then j else n - 1;
    }
  }

  /** encodeSources as a function of its input. */
  function Encoded(srcs: seq<Prefix>, v4: bool): Sources
    requires OfFamily(srcs, v4)
  {
    ListedFamily(srcs, v4);
    var l := Listed(srcs, v4);
    if v4 && srcs != [] then Sources(EncodeAll(l), SameLength(l), Lo(l, |l|), Hi(l, |l|))
    else Sources(EncodeAll(l), false, Repeat(0, 32), Repeat(0, 32))
  }

  lemma ListedFamily(srcs: seq<Prefix>, v4: bool)
    requires OfFamily(srcs, v4)
    ensures OfFamily(Listed(srcs, v4), v4)
    ensures Listed(srcs, v4) == [] <==> srcs == []
  {
    ListedMembers(srcs, v4);
    var l := Listed(srcs, v4);
    forall i | 0 <= i < |l| ensures l[i] in srcs {}
    if srcs != [] { assert srcs[0] in l; }
  }

  /** The loop over the listed IPv4 sources. */
  method MeasureSources(l: seq<Prefix>) returns (bsearch: bool, lo: seq<Bit>, hi: seq<Bit>)
    requires OfFamily(l, true)
    ensures bsearch == SameLength(l) && lo == Lo(l, |l|) && hi == Hi(l, |l|)
  {
    bsearch, lo, hi := true, Repeat(1, 32), Repeat(0, 32);
    for i := 0 to |l|
      invariant bsearch <==> forall j :: 0 <= j < i ==> |l[j].path| == |l[0].path|
      invariant lo == Lo(l, i) && hi == Hi(l, i)
    {
      if |l[i].path| != |l[0].path| {
        bsearch := false;
      }
      if !LexLe(lo, Addr(l[i])) {
        lo := Addr(l[i]);
      }
      if !LexLe(LastAddr(l[i]), hi) {
        hi := LastAddr(l[i]);
      }
    }
  }

  /** encodeSources. */
  method EncodeSources(srcs: seq<Prefix>, v4: bool) returns (b: Sources)
    requires OfFamily(srcs, v4)
    ensures b == Encoded(srcs, v4)
    ensures b.bsearch <==> v4 && srcs != [] && forall p, q :: p in srcs && q in srcs ==> |p.path| == |q.path|
  {
    ListedMembers(srcs, v4);
    ListedFamily(srcs, v4);
    var l := Listed(srcs, v4);
    b := Sources(EncodeAll(l), false, Repeat(0, 32), Repeat(0, 32));
    if v4 && |l| > 0 {
      var bsearch, lo, hi := MeasureSources(l);
      b := b.(bsearch := bsearch, lo := lo, hi := hi);
    }
  }

  // ---- XDP's side ----

  predicate MaskedMatch(x: seq<Bit>, p: RulePrefix) {
    |x| == |p.mask| && And(x, p.mask) == p.addr
  }

  predicate LinearMatch(list: seq<RulePrefix>, x: seq<Bit>) {
    exists i :: 0 <= i < |list| && MaskedMatch(x, list[i])
  }

  /** The unrolled binary search of rule_src_match_v4. */
  predicate SearchMatch(list: seq<RulePrefix>, masked: seq<Bit>, lo: nat, hi: nat, steps: nat)
    requires lo <= hi <= |list|
    decreases steps
  {
    if steps == 0 || lo >= hi then false
    else
      var mid := (lo + hi) / 2;
      if list[mid].addr == masked then true
      else if LexLe(list[mid].addr, masked) then SearchMatch(list, masked, mid + 1, hi, steps - 1)
      else SearchMatch(list, masked, lo, mid, steps - 1)
  }

  /** rule_src_match. */
  predicate SrcMatch(s: Sources, v4: bool, x: seq<Bit>) {
    if s.list == [] then true
    else if !v4 then LinearMatch(s.list, x)
    else if !LexLe(s.lo, x) || !LexLe(x, s.hi) then false
    else if s.bsearch then
      |x| == |s.list[0].mask| && SearchMatch(s.list, And(x, s.list[0].mask), 0, |s.list|, 4)
    else LinearMatch(s.list, x)
  }

  ghost predicate Increasing(list: seq<RulePrefix>) {
    forall i, j :: 0 <= i < j < |list| ==> LexLe(list[i].addr, list[j].addr) && list[i].addr != list[j].addr
  }

  lemma {:induction false} SearchFinds(list: seq<RulePrefix>, masked: seq<Bit>, lo: nat, hi: nat, steps: nat)
    requires lo <= hi <= |list| && hi - lo < Pow2(steps) && Increasing(list)
    ensures SearchMatch(list, masked, lo, hi, steps) <==> exists i :: lo <= i < hi && list[i].addr == masked
    decreases steps
  {
    if lo < hi {
      var mid := (lo + hi) / 2;
      var m := list[mid].addr;
      if m != masked {
        if LexLe(m, masked) {
          SearchFinds(list, masked, mid + 1, hi, steps - 1);
          forall i | lo <= i < mid ensures list[i].addr != masked {
            if list[i].addr == masked { LexAntisymmetric(m, masked); }
          }
        } else {
          SearchFinds(list, masked, lo, mid, steps - 1);
          LexTotal(m, masked);
        }
      }
    }
  }

  lemma {:induction false} LinearMeaning(srcs: seq<Prefix>, v4: bool, x: seq<Bit>)
    requires OfFamily(srcs, v4) && |x| == Width(v4)
    ensures LinearMatch(EncodeAll(srcs), x) <==> InSome(srcs, x)
  {
    var list := EncodeAll(srcs);
    forall i | 0 <= i < |srcs| ensures MaskedMatch(x, list[i]) <==> srcs[i].path <= x {
      MaskedEquals(srcs[i], x);
    }
    if InSome(srcs, x) {
      var i :| 0 <= i < |srcs| && srcs[i].path <= x;
      assert MaskedMatch(x, list[i]);
    }
  }

  lemma NeighboursIncrease(srcs: seq<Prefix>)
    requires SameLength(Listed(srcs, true)) && OfFamily(Listed(srcs, true), true)
    ensures var l := Listed(srcs, true);
            forall i :: 0 < i < |l| ==> LexLe(Addr(l[i - 1]), Addr(l[i])) && Addr(l[i - 1]) != Addr(l[i])
  {
    AddrLeIsOrder();
    var s := Sort(srcs, AddrLe);
    SortCorrect(srcs, AddrLe);
    assert Chain(s, AddrLe);
    CompactSorted(s);
    var l := Listed(srcs, true);
    forall i | 0 < i < |l| ensures LexLe(Addr(l[i - 1]), Addr(l[i])) && Addr(l[i - 1]) != Addr(l[i]) {
      assert AddrLe(l[i - 1], l[i]) && l[i - 1] != l[i];
      assert l[i - 1].path == Addr(l[i - 1])[..|l[0].path|];
      assert l[i].path == Addr(l[i])[..|l[0].path|];
    }
  }

  /** Sorted, compacted sources of one length are strictly increasing, hence
      disjoint. */
  lemma {:induction false} SameLengthIncreasing(srcs: seq<Prefix>)
    requires OfFamily(srcs, true)
    requires SameLength(Listed(srcs, true)) && OfFamily(Listed(srcs, true), true)
    ensures Increasing(EncodeAll(Listed(srcs, true))) && Disjoint(Listed(srcs, true))
  {
    NeighboursIncrease(srcs);
    var l := Listed(srcs, true);
    forall i, j | 0 <= i < j < |l| ensures LexLe(Addr(l[i]), Addr(l[j])) && Addr(l[i]) != Addr(l[j]) {
      IncreasingApart(l, i, j);
    }
    forall i, j | 0 <= i < j < |l| ensures Apart(l[i], l[j]) {
      SameLengthApart(l[i], l[j]);
    }
  }

  predicate Holds(p: Prefix, x: seq<Bit>) {
    p.path <= x
  }

  /** No address lies in both. */
  ghost predicate Apart(p: Prefix, q: Prefix) {
    forall x :: !(Holds(p, x) && Holds(q, x))
  }

  ghost predicate Disjoint(l: seq<Prefix>) {
    forall i, j :: 0 <= i < j < |l| ==> Apart(l[i], l[j])
  }

  /** Prefixes of one length share an address only if they are the same. */
  lemma SameLengthApart(p: Prefix, q: Prefix)
    requires WellFormed(p) && WellFormed(q) && p.v4 == q.v4 && |p.path| == |q.path| && Addr(p) != Addr(q)
    ensures Apart(p, q)
  {
    forall x ensures !(Holds(p, x) && Holds(q, x)) {
      if Holds(p, x) {
        assert p.path == x[..|p.path|];
        assert p.path != q.path;
      }
    }
  }

  lemma {:induction false} IncreasingApart(l: seq<Prefix>, i: nat, j: nat)
    requires OfFamily(l, true) && i < j < |l|
    requires forall k :: 0 < k < |l| ==> LexLe(Addr(l[k - 1]), Addr(l[k])) && Addr(l[k - 1]) != Addr(l[k])
    ensures LexLe(Addr(l[i]), Addr(l[j])) && Addr(l[i]) != Addr(l[j])
    decreases j
  {
    assert LexLe(Addr(l[j - 1]), Addr(l[j])) && Addr(l[j - 1]) != Addr(l[j]);
    if i + 1 < j {
      IncreasingApart(l, i, j - 1);
      LexTransitive(Addr(l[i]), Addr(l[j - 1]), Addr(l[j]));
      if Addr(l[i]) == Addr(l[j]) { LexAntisymmetric(Addr(l[j - 1]), Addr(l[j])); }
    }
  }

  lemma {:induction false} SearchMeaning(l: seq<Prefix>, x: seq<Bit>)
    requires OfFamily(l, true) && l != [] && |l| <= RULE_MAX_SOURCES && SameLength(l) && |x| == 32
    requires Increasing(EncodeAll(l))
    ensures SearchMatch(EncodeAll(l), And(x, Mask(l[0])), 0, |l|, 4) <==> InSome(l, x)
  {
    var list := EncodeAll(l);
    assert Pow2(4) == 16;
    SearchFinds(list, And(x, Mask(l[0])), 0, |l|, 4);
    forall i | 0 <= i < |l| ensures list[i].addr == And(x, Mask(l[0])) <==> l[i].path <= x {
      MaskedEquals(l[i], x);
      MaskedEquals(l[0], x);
    }
    if InSome(l, x) {
      var i :| 0 <= i < |l| && l[i].path <= x;
      assert list[i].addr == And(x, Mask(l[0]));
    }
  }

  lemma {:induction false} SpanAdmits(l: seq<Prefix>, x: seq<Bit>)
    requires OfFamily(l, true) && |x| == 32 && InSome(l, x)
    ensures LexLe(Lo(l, |l|), x) && LexLe(x, Hi(l, |l|))
  {
    var i :| 0 <= i < |l| && l[i].path <= x;
    SpanCorrect(l, |l|);
    assert l[..|l|] == l;
    WithinSpan(l[i], x);
    LexTransitive(Lo(l, |l|), Addr(l[i]), x);
    LexTransitive(x, LastAddr(l[i]), Hi(l, |l|));
  }

  /** XDP's source match over the encoded list - span check, four-step binary
      search or linear scan - decides membership in the sources of the rule as
      they were given; no sources match every packet. */
  lemma {:induction false} SourceMatchMeaning(srcs: seq<Prefix>, v4: bool, x: seq<Bit>)
    requires OfFamily(srcs, v4) && |srcs| <= RULE_MAX_SOURCES && |x| == Width(v4)
    ensures SrcMatch(Encoded(srcs, v4), v4, x) <==> srcs == [] || InSome(srcs, x)
  {
    ListedMembers(srcs, v4);
    ListedFamily(srcs, v4);
    var l := Listed(srcs, v4);
    assert InSome(l, x) <==> InSome(srcs, x) by { SameMembers(l, srcs, x); }
    if srcs != [] {
      LinearMeaning(l, v4, x);
      if v4 {
        if InSome(l, x) { SpanAdmits(l, x); }
        if SameLength(l) {
          SameLengthIncreasing(srcs);
          SearchMeaning(l, x);
        }
      }
    }
  }

  lemma {:induction false} SameMembers(a: seq<Prefix>, b: seq<Prefix>, x: seq<Bit>)
    requires forall p :: p in a <==> p in b
    ensures InSome(a, x) <==> InSome(b, x)
  {
    if InSome(a, x) {
      var i :| 0 <= i < |a| && a[i].path <= x;
      assert a[i] in b;
    }
    if InSome(b, x) {
      var i :| 0 <= i < |b| && b[i].path <= x;
      assert b[i] in a;
    }
  }
}

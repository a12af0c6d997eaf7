/** Addresses and masked prefixes as bits, most significant first. A masked
    netip.Prefix of length n is its first n bits, so covering is being a prefix,
    and Go's address order is the lexicographic order of the bits. The kernel
    compares whole addresses under a mask; MaskedEquals and WithinSpan tie that to
    the prefixes. */
module Prefixes {
  import opened Orders

  type Bit = b: nat | b <= 1

  /** A masked prefix; Bits() is |path|. */
  datatype Prefix = Prefix(v4: bool, path: seq<Bit>)

  function Width(v4: bool): nat { if v4 then 32 else 128 }

  predicate WellFormed(p: Prefix) { |p.path| <= Width(p.v4) }

  predicate CoversPrefix(p: Prefix, q: Prefix) {
    p.v4 == q.v4 && p.path <= q.path
  }

  function Repeat(b: Bit, n: nat): (s: seq<Bit>)
    ensures |s| == n && forall i :: 0 <= i < n ==> s[i] == b
  {
    seq(n, _ => b)
  }

  function And(a: seq<Bit>, b: seq<Bit>): (r: seq<Bit>)
    requires |a| == |b|
    ensures |r| == |a|
  {
    seq(|a|, i requires 0 <= i < |a| => if a[i] == 1 && b[i] == 1 then 1 as Bit else 0 as Bit)
  }

  function Or(a: seq<Bit>, b: seq<Bit>): (r: seq<Bit>)
    requires |a| == |b|
    ensures |r| == |a|
  {
    seq(|a|, i requires 0 <= i < |a| => if a[i] == 1 || b[i] == 1 then 1 as Bit else 0 as Bit)
  }

  /** p.Addr(): the path followed by zeros. */
  function Addr(p: Prefix): (a: seq<Bit>)
    requires WellFormed(p)
    ensures |a| == Width(p.v4)
  {
    p.path + Repeat(0, Width(p.v4) - |p.path|)
  }

  /** The netmask: |path| ones followed by zeros. */
  function Mask(p: Prefix): (m: seq<Bit>)
    requires WellFormed(p)
    ensures |m| == Width(p.v4)
  {
    Repeat(1, |p.path|) + Repeat(0, Width(p.v4) - |p.path|)
  }

  /** start | (MaxUint32 >> bits): the last address of the prefix. */
  function LastAddr(p: Prefix): (a: seq<Bit>)
    requires WellFormed(p)
    ensures |a| == Width(p.v4)
  {
    Or(Addr(p), Repeat(0, |p.path|) + Repeat(1, Width(p.v4) - |p.path|))
  }

  /** The kernel's masked comparison is membership. */
  lemma MaskedEquals(p: Prefix, x: seq<Bit>)
    requires WellFormed(p) && |x| == Width(p.v4)
    ensures And(x, Mask(p)) == Addr(p) <==> p.path <= x
    ensures And(x, Mask(p)) == x[..|p.path|] + Repeat(0, Width(p.v4) - |p.path|)
  {
    var n := |p.path|;
    var masked := And(x, Mask(p));
    assert masked == x[..n] + Repeat(0, Width(p.v4) - n);
    assert masked[..n] == x[..n] && Addr(p)[..n] == p.path;
  }

  lemma {:induction false} LexOfBits(a: seq<nat>, b: seq<nat>, i: nat)
    requires |a| == |b| && i < |a| && a[..i] == b[..i] && a[i] < b[i]
    ensures LexLe(a, b) && !LexLe(b, a)
  {
    if i > 0 {
      assert a[0] == a[..i][0] == b[..i][0] == b[0];
      assert a[1..][..i - 1] == a[..i][1..] && b[1..][..i - 1] == b[..i][1..];
      LexOfBits(a[1..], b[1..], i - 1);
    }
  }

  lemma {:induction false} LexPointwise(a: seq<nat>, b: seq<nat>)
    requires |a| == |b| && forall i :: 0 <= i < |a| ==> a[i] <= b[i]
    ensures LexLe(a, b)
  {
    if a != [] {
      LexPointwise(a[1..], b[1..]);
    }
  }

  /** A prefix lies between its first and last address. */
  lemma WithinSpan(p: Prefix, x: seq<Bit>)
    requires WellFormed(p) && |x| == Width(p.v4) && p.path <= x
    ensures LexLe(Addr(p), x) && LexLe(x, LastAddr(p))
  {
    LexPointwise(Addr(p), x);
    LexPointwise(x, LastAddr(p));
  }
}

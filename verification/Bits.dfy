/** Bit strings, most significant bit first, and the few facts about them that
    the prefix tries and the flow masks share. */
module Bits {

  type Bits = seq<bool>

  /** First position from `i` on at which `a` and `b` no longer agree. */
  function AgreeUpTo(a: Bits, b: Bits, i: nat): (n: nat)
    requires i <= |a| && i <= |b|
    ensures i <= n <= |a| && n <= |b|
    ensures forall k | i <= k < n :: a[k] == b[k]
    ensures n < |a| && n < |b| ==> a[n] != b[n]
    decreases |a| - i
  {
    if i < |a| && i < |b| && a[i] == b[i] then AgreeUpTo(a, b, i + 1) else i
  }

  /** Number of leading bits on which `a` and `b` agree. */
  function Lcp(a: Bits, b: Bits): (n: nat)
    ensures n <= |a| && n <= |b|
    ensures a[..n] == b[..n]
    ensures n < |a| && n < |b| ==> a[n] != b[n]
  {
    AgreeUpTo(a, b, 0)
  }

  /** The three postconditions of `Lcp` pin it down. */
  lemma LcpIs(a: Bits, b: Bits, n: nat)
    requires n <= |a| && n <= |b| && a[..n] == b[..n]
    requires n < |a| && n < |b| ==> a[n] != b[n]
    ensures Lcp(a, b) == n
  {
    var m := Lcp(a, b);
    assert forall k | 0 <= k < n :: a[k] == a[..n][k] && b[k] == b[..n][k];
    assert forall k | 0 <= k < m :: a[k] == a[..m][k] && b[k] == b[..m][k];
  }

  /** Being a prefix of a cut of `v`, in terms of the common prefix with `v`. */
  lemma PrefixByLcp(a: Bits, v: Bits, k: nat)
    requires k <= |v|
    ensures a <= v[..k] <==> Lcp(a, v) == |a| <= k
  {
    if a <= v[..k] {
      assert v[..|a|] == v[..k][..|a|] == a;
      LcpIs(a, v, |a|);
    }
    if Lcp(a, v) == |a| <= k {
      assert v[..k][..|a|] == v[..|a|];
    }
  }

  /** Two values of the same length with the same first `m` bits. */
  predicate SameBits(v: Bits, v': Bits, m: nat)
  {
    |v| == |v'| && m <= |v| && forall k | 0 <= k < m :: v'[k] == v[k]
  }

  /** Agreement up to and including the first bit of disagreement of `v[ofs..]`
      with `a` makes `v'[ofs..]` agree with `a` for equally long. */
  lemma SameLcp(a: Bits, v: Bits, v': Bits, ofs: nat, m: nat)
    requires SameBits(v, v', m) && ofs <= |v|
    requires var n := ofs + Lcp(a, v[ofs..]); n < m || (n == ofs + |a| && n <= m)
    ensures Lcp(a, v'[ofs..]) == Lcp(a, v[ofs..])
  {
    var eq := Lcp(a, v[ofs..]);
    assert forall k | 0 <= k < |v| - ofs :: v[ofs..][k] == v[ofs + k] && v'[ofs..][k] == v'[ofs + k];
    assert a[..eq] == v'[ofs..][..eq] by {
      assert forall k | 0 <= k < eq :: a[k] == a[..eq][k] == v[ofs..][..eq][k];
    }
    LcpIs(a, v'[ofs..], eq);
  }

  /** A concatenation is a prefix of `q` when its parts line up with `q`. */
  lemma PrefixConcat(a: Bits, b: Bits, q: Bits)
    ensures a + b <= q <==> a <= q && b <= q[|a|..]
  {
    if a + b <= q {
      assert q[..|a|] == (a + b)[..|a|] == a;
      assert q[|a|..][..|b|] == (a + b)[|a|..] == b;
    }
    if a <= q && b <= q[|a|..] {
      SplitAt(a, q);
      SplitAt(b, q[|a|..]);
      assert q == (a + b) + q[|a|..][|b|..];
    }
  }

  /** Cutting `pre + rest` at `|pre|` gives back the two parts. */
  lemma SplitAt(pre: Bits, p: Bits)
    requires pre <= p
    ensures p == pre + p[|pre|..]
  {
  }
}

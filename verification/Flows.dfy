/** Packet headers and wildcard masks as bit strings.  Headers are laid out in
    64-bit units, the resolution of the classifier's stage maps. */
module Flows {
  import opened Bits

  const UNIT: nat := 64

  function And(a: Bits, b: Bits): (r: Bits)
    requires |a| == |b|
    ensures |r| == |a| && forall k | 0 <= k < |a| :: r[k] == (a[k] && b[k])
  {
    seq(|a|, k requires 0 <= k < |a| => a[k] && b[k])
  }

  function Or(a: Bits, b: Bits): (r: Bits)
    requires |a| == |b|
    ensures |r| == |a| && forall k | 0 <= k < |a| :: r[k] == (a[k] || b[k])
  {
    seq(|a|, k requires 0 <= k < |a| => a[k] || b[k])
  }

  /** The bits of `mask` that lie in the given 64-bit units. */
  function MaskIn(mask: Bits, units: set<nat>): (r: Bits)
    ensures |r| == |mask| && forall k | 0 <= k < |mask| :: r[k] == (mask[k] && k / UNIT in units)
  {
    seq(|mask|, k requires 0 <= k < |mask| => mask[k] && k / UNIT in units)
  }

  /** `wc` with the first `n` bits of the field at `ofs` set. */
  function SetPrefix(wc: Bits, ofs: nat, n: nat): (r: Bits)
    requires ofs + n <= |wc|
    ensures |r| == |wc| && forall k | 0 <= k < |wc| :: r[k] == (wc[k] || ofs <= k < ofs + n)
  {
    seq(|wc|, k requires 0 <= k < |wc| => wc[k] || ofs <= k < ofs + n)
  }

  predicate PrefixSet(wc: Bits, ofs: nat, n: nat)
    requires ofs + n <= |wc|
  {
    forall k | ofs <= k < ofs + n :: wc[k]
  }

  /** `wc` with the `n` bits from `ofs` on replaced by those of `w`. */
  function Overwrite(wc: Bits, ofs: nat, w: Bits): (r: Bits)
    requires ofs + |w| <= |wc|
    ensures |r| == |wc|
    ensures forall k | 0 <= k < |wc| :: r[k] == if ofs <= k < ofs + |w| then w[k - ofs] else wc[k]
  {
    wc[..ofs] + w + wc[ofs + |w|..]
  }

  /** Every 1-bit of `m` is a 1-bit of `wc`. */
  ghost predicate Covers(wc: Bits, m: Bits)
  {
    |wc| == |m| && forall k | 0 <= k < |m| :: m[k] ==> wc[k]
  }

  /** `f` and `g` carry the same bits wherever `wc` has a 1. */
  ghost predicate Agree(f: Bits, g: Bits, wc: Bits)
  {
    |f| == |g| == |wc| && forall k | 0 <= k < |wc| :: wc[k] ==> f[k] == g[k]
  }

  lemma AgreeLess(f: Bits, g: Bits, wc: Bits, m: Bits)
    requires Agree(f, g, wc) && Covers(wc, m)
    ensures Agree(f, g, m)
  {
  }

  lemma AgreeMasked(f: Bits, g: Bits, m: Bits)
    requires Agree(f, g, m)
    ensures And(f, m) == And(g, m)
  {
  }

  /** Masking twice, the second time with fewer bits. */
  lemma MaskTwice(f: Bits, m: Bits, less: Bits)
    requires |f| == |m| && Covers(m, less)
    ensures And(And(f, m), less) == And(f, less)
  {
  }
}

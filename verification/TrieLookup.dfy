/** Looking a value up in the prefix trie: which prefix lengths match it, and
    how many of its leading bits decide that. */
module TrieLookup {
  import opened Bits
  import opened Tries

  datatype Answer = Answer(maskBits: nat, plens: set<nat>)

  /** The walk from node `t`, which stands at bit `ofs` of the value. */
  function Walk(t: Trie, v: Bits, ofs: nat): Answer
    requires t.Node? && ofs <= |v|
    decreases t, 0
  {
    var n := ofs + Lcp(t.prefix, v[ofs..]);
    if n < ofs + |t.prefix| then Answer(n + 1, {})
    else
      var own: set<nat> := if t.nRules > 0 then {n} else {};
      if n >= |v| then Answer(|v|, own)
      else
        var rest := Rest(t.Edge(v[n]), t.Leaf(), v, n);
        Answer(rest.maskBits, own + rest.plens)
  }

  /** Following an edge out of a node; `leaf` says that the node has no children. */
  function Rest(t: Trie, leaf: bool, v: Bits, n: nat): Answer
    requires n <= |v|
    decreases t, 1
  {
    if t.Null? then Answer(if leaf then n else n + 1, {}) else Walk(t, v, n)
  }

  function Lookup(t: Trie, v: Bits): Answer
  {
    Rest(t, true, v, 0)
  }

  /** The walk that passes a node, spelled out. */
  lemma WalkPast(t: Trie, v: Bits, ofs: nat)
    requires t.Node? && ofs <= |v|
    requires Lcp(t.prefix, v[ofs..]) == |t.prefix| && ofs + |t.prefix| < |v|
    ensures var n := ofs + |t.prefix|;
            var child := t.Edge(v[n]);
            var r := Walk(t, v, ofs);
            && r.plens == (if t.nRules > 0 then {n} else {}) + (if child.Node? then Walk(child, v, n).plens else {})
            && r.maskBits == if child.Node? then Walk(child, v, n).maskBits else if t.Leaf() then n else n + 1
  {
  }

  /** The walk that ends at a node. */
  lemma WalkStops(t: Trie, v: Bits, ofs: nat)
    requires t.Node? && ofs <= |v|
    requires Lcp(t.prefix, v[ofs..]) < |t.prefix| || ofs + |t.prefix| >= |v|
    ensures Walk(t, v, ofs).plens ==
            if Lcp(t.prefix, v[ofs..]) == |t.prefix| && t.nRules > 0 then {ofs + |t.prefix|} else {}
  {
  }

  lemma CountNothing(p: Bits)
    ensures Count(Null, p) == 0
  {
  }

  // --------------------------------------------------------------- exactness

  /** The number of bits reported stays within `v` and covers every reported
      length. */
  lemma {:induction false} WalkBounds(t: Trie, v: Bits, ofs: nat)
    requires t.Node? && ofs <= |v| && Fits(t, |v| - ofs)
    ensures var r := Walk(t, v, ofs);
            ofs <= r.maskBits <= |v| && forall l | l in r.plens :: ofs <= l <= r.maskBits
  {
    var n := ofs + Lcp(t.prefix, v[ofs..]);
    if n == ofs + |t.prefix| && n < |v| && t.Edge(v[n]).Node? {
      WalkBounds(t.Edge(v[n]), v, n);
    }
  }

  /** Where the stretch `v[ofs..l]` of the value stands with respect to `t`. */
  lemma CountStretch(t: Trie, v: Bits, ofs: nat, l: nat)
    requires t.Node? && ofs <= l <= |v|
    ensures var n := ofs + |t.prefix|;
            Count(t, v[ofs..l]) ==
            if Lcp(t.prefix, v[ofs..]) < |t.prefix| || l < n then 0
            else if l == n then t.nRules
            else Count(t.Edge(v[n]), v[n..l])
  {
    var w := v[ofs..];
    var p := v[ofs..l];
    assert p == w[..l - ofs];
    PrefixByLcp(t.prefix, w, l - ofs);
    if t.prefix <= p && |p| > |t.prefix| {
      assert p[|t.prefix|..] == v[ofs + |t.prefix|..l];
    }
  }

  /** The reported lengths are those of the stored prefixes of `v`. */
  lemma {:induction false} WalkExact(t: Trie, v: Bits, ofs: nat, l: nat)
    requires t.Node? && WfNode(t) && ofs <= |v| && Fits(t, |v| - ofs)
    ensures l in Walk(t, v, ofs).plens <==> ofs <= l <= |v| && Count(t, v[ofs..l]) > 0
  {
    hide Walk, Count;
    var n := ofs + Lcp(t.prefix, v[ofs..]);
    if ofs <= l <= |v| {
      CountStretch(t, v, ofs, l);
    }
    if n == ofs + |t.prefix| && n < |v| {
      var child := t.Edge(v[n]);
      WalkPast(t, v, ofs);
      if child.Node? {
        WalkExact(child, v, n, l);
        if l == n {
          CountStretch(child, v, n, n);
        }
      } else if n <= l <= |v| {
        CountNothing(v[n..l]);
      }
    } else {
      WalkStops(t, v, ofs);
    }
  }

  /** Main result: starting from nothing, the lengths reported are exactly the
      lengths of the stored prefixes that match the value. */
  lemma LookupExact(t: Trie, v: Bits, l: nat)
    requires Wf(t) && Fits(t, |v|)
    ensures l in Lookup(t, v).plens <==> 0 < l <= |v| && Count(t, v[..l]) > 0
    ensures l in Lookup(t, v).plens ==> l <= Lookup(t, v).maskBits
    ensures Lookup(t, v).maskBits <= |v|
  {
    if t.Node? {
      WalkExact(t, v, 0, l);
      WalkBounds(t, v, 0);
      if l <= |v| {
        assert v[0..l] == v[..l];
      }
      if l == 0 {
        CountStretch(t, v, 0, 0);
      }
    }
  }

  // ----------------------------------------------------------- determination

  /** Below the root at least one bit is looked at. */
  lemma LooksAtFirstBit(t: Trie, v: Bits, ofs: nat)
    requires t.Node? && ofs < |v| && Starts(t, v[ofs]) && Fits(t, |v| - ofs)
    ensures Walk(t, v, ofs).maskBits > ofs
  {
    var n := ofs + Lcp(t.prefix, v[ofs..]);
    assert n > ofs;
    if n == ofs + |t.prefix| && n < |v| && t.Edge(v[n]).Node? {
      WalkBounds(t.Edge(v[n]), v, n);
    }
  }

  /** How many bits the walk reports when it meets node `t`. */
  lemma BitsAtNode(t: Trie, v: Bits, ofs: nat)
    requires t.Node? && WfNode(t) && ofs <= |v| && Fits(t, |v| - ofs)
    ensures var n := ofs + Lcp(t.prefix, v[ofs..]);
            var m := Walk(t, v, ofs).maskBits;
            if n < ofs + |t.prefix| then m == n + 1
            else n <= m && (n < |v| && !t.Leaf() ==> n < m)
  {
    var n := ofs + Lcp(t.prefix, v[ofs..]);
    if n == ofs + |t.prefix| && n < |v| && t.Edge(v[n]).Node? {
      LooksAtFirstBit(t.Edge(v[n]), v, n);
    }
  }

  lemma {:induction false} WalkDetermined(t: Trie, v: Bits, v': Bits, ofs: nat, m: nat)
    requires t.Node? && WfNode(t) && ofs <= |v| && Fits(t, |v| - ofs)
    requires m == Walk(t, v, ofs).maskBits && SameBits(v, v', m)
    ensures Walk(t, v', ofs) == Walk(t, v, ofs)
  {
    var n := ofs + Lcp(t.prefix, v[ofs..]);
    BitsAtNode(t, v, ofs);
    SameLcp(t.prefix, v, v', ofs, m);
    if n == ofs + |t.prefix| && n < |v| && !t.Leaf() {
      WalkPast(t, v, ofs);
      WalkPast(t, v', ofs);
      hide Walk, Lcp;
      if t.Edge(v[n]).Node? {
        WalkDetermined(t.Edge(v[n]), v, v', n, m);
      }
    }
  }

  /** Main result: a value that agrees with `v` on the reported number of
      leading bits gets the same answer. */
  lemma LookupDetermined(t: Trie, v: Bits, v': Bits)
    requires Wf(t) && Fits(t, |v|) && SameBits(v, v', Lookup(t, v).maskBits)
    ensures Lookup(t, v') == Lookup(t, v)
  {
    if t.Node? {
      WalkDetermined(t, v, v', 0, Lookup(t, v).maskBits);
    }
  }

  // ------------------------------------------------------------- no more than needed

  /** Below every node a rule is stored. */
  lemma {:induction false} SomeStored(t: Trie, n: nat) returns (p: Bits)
    requires t.Node? && WfNode(t) && Fits(t, n)
    ensures Count(t, p) > 0 && t.prefix <= p && |p| <= n
    decreases t
  {
    if t.Leaf() {
      p := t.prefix;
    } else {
      var child := if t.e0.Node? then t.e0 else t.e1;
      var rest := SomeStored(child, n - |t.prefix|);
      p := t.prefix + rest;
      StoredBelow(t, child, t.e1 == child && t.e0.Null?, rest);
    }
  }

  /** What is stored below an edge is stored, with the node's prefix before it. */
  lemma StoredBelow(t: Trie, child: Trie, bit: bool, rest: Bits)
    requires t.Node? && WfNode(t) && child.Node? && child == t.Edge(bit)
    requires Count(child, rest) > 0
    ensures rest != [] && Count(t, t.prefix + rest) > 0
  {
    var p := t.prefix + rest;
    assert p[|t.prefix|..] == rest;
    assert child.prefix <= rest && child.prefix != [] && rest[0] == child.prefix[0] == bit;
  }

  /** For every bit that the walk reports a stored prefix reaches past it and agrees
      with the value up to it. */
  lemma {:induction false} StoredPast(t: Trie, v: Bits, ofs: nat, m: nat) returns (p: Bits)
    requires t.Node? && WfNode(t) && ofs <= |v| && Fits(t, |v| - ofs) && ofs <= m < Walk(t, v, ofs).maskBits
    ensures Count(t, p) > 0 && m - ofs < |p| <= |v| - ofs && p[..m - ofs] == v[ofs..m] && m < |v|
    decreases t
  {
    WalkBounds(t, v, ofs);
    var n := ofs + Lcp(t.prefix, v[ofs..]);
    if m < n || n < ofs + |t.prefix| {
      p := StoredHere(t, v, ofs, m);
    } else {
      assert m < Rest(t.Edge(v[n]), t.Leaf(), v, n).maskBits;
      hide Walk, Rest, Lcp, Count, WfNode;
      var bit := if t.Edge(v[n]).Node? then v[n] else !v[n];
      var child := t.Edge(bit);
      var rest := StoredInChild(t, v, n, m, bit);
      StoredBelow(t, child, bit, rest);
      p := t.prefix + rest;
      JoinStretch(t.prefix, rest, v, ofs, n, m);
    }
  }

  lemma JoinStretch(a: Bits, b: Bits, v: Bits, ofs: nat, n: nat, m: nat)
    requires ofs <= n <= m <= |v| && a == v[ofs..n] && m - n <= |b| && b[..m - n] == v[n..m]
    ensures (a + b)[..m - ofs] == v[ofs..m]
  {
    assert (a + b)[..m - ofs] == a + b[..m - n];
    assert v[ofs..m] == v[ofs..n] + v[n..m];
  }

  /** A node's own stretch. */
  lemma StoredHere(t: Trie, v: Bits, ofs: nat, m: nat) returns (p: Bits)
    requires t.Node? && WfNode(t) && ofs <= |v| && Fits(t, |v| - ofs)
    requires var n := ofs + Lcp(t.prefix, v[ofs..]);
             ofs <= m && (m < n || (m == n && n < ofs + |t.prefix|))
    ensures Count(t, p) > 0 && m - ofs < |p| <= |v| - ofs && p[..m - ofs] == v[ofs..m]
  {
    hide WfNode, Count, Fits;
    var n := ofs + Lcp(t.prefix, v[ofs..]);
    p := SomeStored(t, |v| - ofs);
    hide Lcp;
    assert p[..n - ofs] == t.prefix[..n - ofs] == v[ofs..][..n - ofs];
    assert p[..m - ofs] == p[..n - ofs][..m - ofs];
    assert v[ofs..m] == v[ofs..][..n - ofs][..m - ofs];
  }

  lemma {:induction false} StoredInChild(t: Trie, v: Bits, n: nat, m: nat, bit: bool) returns (rest: Bits)
    requires t.Node? && WfNode(t) && n < |v| && Fits(t.e0, |v| - n) && Fits(t.e1, |v| - n)
    requires n <= m < Rest(t.Edge(v[n]), t.Leaf(), v, n).maskBits
    requires bit == if t.Edge(v[n]).Node? then v[n] else !v[n]
    ensures t.Edge(bit).Node? && Count(t.Edge(bit), rest) > 0
    ensures m - n < |rest| <= |v| - n && rest[..m - n] == v[n..m] && m < |v|
    decreases t, 0
  {
    if t.Edge(v[n]).Node? {
      rest := StoredPast(t.Edge(v[n]), v, n, m);
    } else {
      rest := SomeStored(t.Edge(bit), |v| - n);
    }
  }

  /** Main result: no fewer leading bits than reported decide which stored prefixes
      match.  Some value agrees on `m` bits and differs in whether one matches. */
  lemma LookupMinimal(t: Trie, v: Bits, m: nat) returns (v': Bits, p: Bits)
    requires Wf(t) && Fits(t, |v|) && m < Lookup(t, v).maskBits
    ensures SameBits(v, v', m) && Count(t, p) > 0 && (p <= v) != (p <= v')
  {
    p := StoredPast(t, v, 0, m);
    if p <= v {
      v' := v[m := !v[m]];
      assert p[m] == v[m];
    } else {
      v' := p + v[|p|..];
      assert forall k | 0 <= k < m :: v'[k] == p[..m][k] == v[0..m][k];
    }
  }

  /** Their lengths may be decided by fewer: with 10 and 11 stored, every value that
      starts with 1 has a prefix of length two, but both bits are reported. */
  lemma LengthsNeedLess() returns (t: Trie, v: Bits)
    ensures Wf(t) && Fits(t, |v|) && Lookup(t, v).maskBits == 2
    ensures forall v' | SameBits(v, v', 1) :: Lookup(t, v').plens == Lookup(t, v).plens
  {
    t := Node([true], 0, Node([false], 1, Null, Null), Node([true], 1, Null, Null));
    v := [true, false];
    forall w: Bits | SameBits(v, w, 1) ensures Lookup(t, w) == Answer(2, {2}) {
      assert Lcp(t.prefix, w[0..]) == 1;
      var child := t.Edge(w[1]);
      assert Lcp(child.prefix, w[1..]) == 1;
      assert Walk(child, w, 1) == Answer(2, {2});
    }
    assert SameBits(v, v, 1);
  }
}

/** The longest-prefix-match tree of the classifier, on values: a
    path-compressed binary trie whose nodes hold at most PREFIX_BITS bits each,
    so that a long prefix is a chain of nodes. */
module Tries {
  import opened Bits

  const PREFIX_BITS: nat := 32

  datatype Trie =
    | Null
    | Node(prefix: Bits, nRules: nat, e0: Trie, e1: Trie)
  {
    function Edge(bit: bool): Trie
      requires Node?
    {
      if bit then e1 else e0
    }

    function WithEdge(bit: bool, child: Trie): Trie
      requires Node?
    {
      if bit then this.(e1 := child) else this.(e0 := child)
    }

    predicate Leaf()
      requires Node?
    {
      e0.Null? && e1.Null?
    }
  }

  ghost predicate Starts(t: Trie, bit: bool)
  {
    t.Node? && t.prefix != [] && t.prefix[0] == bit
  }

  /** What every node keeps: at most PREFIX_BITS bits, a leaf stands for at
      least one rule, and a child starts with the bit of the edge it hangs on. */
  ghost predicate WfNode(t: Trie)
    requires t.Node?
  {
    && |t.prefix| <= PREFIX_BITS
    && (t.Leaf() ==> t.nRules > 0)
    && (t.e0.Node? ==> WfNode(t.e0) && Starts(t.e0, false))
    && (t.e1.Node? ==> WfNode(t.e1) && Starts(t.e1, true))
  }

  /** A whole trie: only the root may have an empty prefix, and no rule has a
      zero-length prefix. */
  ghost predicate Wf(t: Trie)
  {
    t.Node? ==> WfNode(t) && (t.prefix == [] ==> t.nRules == 0)
  }

  /** No stored path is longer than `n` bits. */
  ghost predicate Fits(t: Trie, n: int)
  {
    t.Node? ==> |t.prefix| <= n && Fits(t.e0, n - |t.prefix|) && Fits(t.e1, n - |t.prefix|)
  }

  /** The reference meaning: how many rules have exactly the prefix `p`. */
  ghost function Count(t: Trie, p: Bits): nat
  {
    if t.Null? || !(t.prefix <= p) then 0
    else if |p| == |t.prefix| then t.nRules
    else Count(t.Edge(p[|t.prefix|]), p[|t.prefix|..])
  }

  // ---------------------------------------------------------------- creation

  /** A branch for the prefix `p` carrying `n` rules, cut into nodes of at most
      PREFIX_BITS bits. */
  function Branch(p: Bits, n: nat): (t: Trie)
    ensures t.Node? && t.prefix <= p && (p != [] ==> t.prefix != [])
    ensures n > 0 ==> WfNode(t)
    ensures Fits(t, |p|)
  {
    if |p| <= PREFIX_BITS then Node(p, n, Null, Null)
    else
      var sub := Branch(p[PREFIX_BITS..], n);
      Node(p[..PREFIX_BITS], 0, Null, Null).WithEdge(sub.prefix[0], sub)
  }

  lemma {:induction false} BranchCount(p: Bits, n: nat, q: Bits)
    ensures Count(Branch(p, n), q) == if q == p then n else 0
  {
    if |p| > PREFIX_BITS {
      SplitAt(p[..PREFIX_BITS], p);
      if p[..PREFIX_BITS] <= q && |q| > PREFIX_BITS {
        SplitAt(p[..PREFIX_BITS], q);
        BranchCount(p[PREFIX_BITS..], n, q[PREFIX_BITS..]);
      }
    }
  }

  // --------------------------------------------------------------- insertion

  /** The node that takes the place of `t` when the prefix `p` leaves it after
      `eq` bits: a parent for the common bits, the rest of `t` below it, and a
      new branch for the rest of `p`. */
  function Split(t: Trie, p: Bits, eq: nat): Trie
    requires t.Node? && eq < |t.prefix| && eq <= |p|
  {
    var oldBranch := t.prefix[eq];
    var parent := Branch(p[..eq], if eq == |p| then 1 else 0);
    var lower := parent.WithEdge(oldBranch, t.(prefix := t.prefix[eq..]));
    if eq < |p| then lower.WithEdge(!oldBranch, Branch(p[eq..], 1)) else lower
  }

  function Insert(t: Trie, p: Bits): Trie
  {
    if t.Null? then Branch(p, 1)
    else
      var eq := Lcp(t.prefix, p);
      if eq < |t.prefix| then Split(t, p, eq)
      else if eq == |p| then t.(nRules := t.nRules + 1)
      else t.WithEdge(p[eq], Insert(t.Edge(p[eq]), p[eq..]))
  }

  lemma SplitCount(t: Trie, p: Bits, q: Bits)
    requires t.Node? && |t.prefix| <= PREFIX_BITS && Lcp(t.prefix, p) < |t.prefix|
    ensures Count(Split(t, p, Lcp(t.prefix, p)), q) == Count(t, q) + if q == p then 1 else 0
  {
    var eq := Lcp(t.prefix, p);
    var rest := t.(prefix := t.prefix[eq..]);
    var common := p[..eq];
    SplitAt(common, t.prefix);
    SplitAt(common, p);
    if common <= q && |q| > eq {
      SplitAt(common, q);
      assert t.prefix <= q <==> t.prefix[eq..] <= q[eq..];
      assert t.prefix <= q ==> q[eq..][|rest.prefix|..] == q[|t.prefix|..];
      assert Count(rest, q[eq..]) == Count(t, q);
      if eq < |p| {
        BranchCount(p[eq..], 1, q[eq..]);
        assert q == p <==> q[eq..] == p[eq..];
        assert q[eq] == t.prefix[eq] ==> q != p;
        assert q[eq] != t.prefix[eq] ==> Count(t, q) == 0;
      }
    }
  }

  lemma {:induction false} InsertCount(t: Trie, p: Bits, q: Bits)
    requires t.Node? ==> WfNode(t)
    ensures Count(Insert(t, p), q) == Count(t, q) + if q == p then 1 else 0
  {
    if t.Null? {
      BranchCount(p, 1, q);
    } else {
      var eq := Lcp(t.prefix, p);
      if eq < |t.prefix| {
        SplitCount(t, p, q);
      } else {
        SplitAt(t.prefix, p);
        if eq < |p| && t.prefix <= q && |q| > eq {
          SplitAt(t.prefix, q);
          InsertCount(t.Edge(p[eq]), p[eq..], q[eq..]);
          assert q == p <==> q[eq..] == p[eq..];
        }
      }
    }
  }

  lemma SplitWf(t: Trie, p: Bits, eq: nat, n: int)
    requires t.Node? && WfNode(t) && Fits(t, n)
    requires eq < |t.prefix| && eq <= |p| <= n && (eq < |p| ==> p[eq] != t.prefix[eq])
    ensures var r := Split(t, p, eq); r.Node? && WfNode(r) && Fits(r, n) && r.prefix == p[..eq]
  {
    var lower := t.(prefix := t.prefix[eq..]);
    assert WfNode(lower) && Fits(lower, n - eq) && Starts(lower, t.prefix[eq]);
    assert Split(t, p, eq).prefix == p[..eq];
    if eq < |p| {
      var side := Branch(p[eq..], 1);
      FitsMore(side, |p| - eq, n - eq);
      assert side.prefix[0] == p[eq..][0];
      assert Starts(side, p[eq]);
    }
  }

  /** Insertion keeps a trie well formed and below a node keeps its first bit. */
  lemma {:induction false} InsertWf(t: Trie, p: Bits, n: int)
    requires p != [] && |p| <= n && Fits(t, n)
    requires t.Node? ==> WfNode(t)
    ensures var r := Insert(t, p); r.Node? && WfNode(r) && Fits(r, n)
    ensures t.Node? && Starts(t, p[0]) ==> Starts(Insert(t, p), p[0])
    ensures t.Null? ==> Starts(Insert(t, p), p[0])
  {
    if t.Null? {
      FitsMore(Branch(p, 1), |p|, n);
    } else {
      var eq := Lcp(t.prefix, p);
      if eq < |t.prefix| {
        SplitWf(t, p, eq, n);
        assert Starts(t, p[0]) ==> eq > 0;
      } else if eq < |p| {
        InsertWf(t.Edge(p[eq]), p[eq..], n - eq);
      }
    }
  }

  /** No insertion gives the empty prefix a rule. */
  lemma InsertRoot(t: Trie, p: Bits, n: int)
    requires Wf(t) && p != [] && |p| <= n && Fits(t, n)
    ensures Wf(Insert(t, p)) && Fits(Insert(t, p), n)
  {
    InsertWf(t, p, n);
    InsertCount(t, p, []);
  }

  lemma {:induction false} FitsMore(t: Trie, m: int, n: int)
    requires Fits(t, m) && m <= n
    ensures Fits(t, n)
  {
    if t.Node? {
      FitsMore(t.e0, m - |t.prefix|, n - |t.prefix|);
      FitsMore(t.e1, m - |t.prefix|, n - |t.prefix|);
    }
  }

  // ----------------------------------------------------------------- removal

  /** One turn of the pruning loop: a node without rules and with at most one
      child disappears, its bits moving into the child when both fit in one node. */
  function Prune(t: Trie): Trie
    requires t.Node?
  {
    if t.nRules > 0 || (t.e0.Node? && t.e1.Node?) then t
    else
      var next := if t.e0.Node? then t.e0 else t.e1;
      if next.Null? then Null
      else if |t.prefix| + |next.prefix| > PREFIX_BITS then t
      else next.(prefix := t.prefix + next.prefix)
  }

  /** Pruning goes on to the parent only when the child disappeared. */
  function Remove(t: Trie, p: Bits): Trie
  {
    if t.Null? || !(t.prefix <= p) then t
    else
      var eq := |t.prefix|;
      if eq == |p| then
        if t.nRules == 0 then t else Prune(t.(nRules := t.nRules - 1))
      else
        var child := t.Edge(p[eq]);
        var child' := Remove(child, p[eq..]);
        var t' := t.WithEdge(p[eq], child');
        if child.Node? && child'.Null? then Prune(t') else t'
  }

  lemma PruneCount(t: Trie, q: Bits)
    requires t.Node?
    requires t.e0.Node? ==> Starts(t.e0, false)
    requires t.e1.Node? ==> Starts(t.e1, true)
    ensures Count(Prune(t), q) == Count(t, q)
  {
    if t.nRules == 0 && !(t.e0.Node? && t.e1.Node?) && Prune(t) != t && Prune(t).Node? {
      var next := if t.e0.Node? then t.e0 else t.e1;
      var merged := Prune(t);
      if t.prefix <= q && |q| > |t.prefix| {
        SplitAt(t.prefix, q);
        PrefixConcat(t.prefix, next.prefix, q);
        assert merged.prefix <= q <==> next.prefix <= q[|t.prefix|..];
        if merged.prefix <= q {
          assert q[|t.prefix|] == next.prefix[0];
          assert q[|t.prefix|..][|next.prefix|..] == q[|merged.prefix|..];
          assert |q| > |merged.prefix| ==> q[|t.prefix|..][|next.prefix|] == q[|merged.prefix|];
        }
      }
    }
  }

  /** Counting after a change of one child. */
  lemma WithEdgeCount(t: Trie, bit: bool, child: Trie, q: Bits)
    requires t.Node?
    ensures var eq := |t.prefix|;
            Count(t.WithEdge(bit, child), q) ==
            if t.prefix <= q && |q| > eq && q[eq] == bit then Count(child, q[eq..]) else Count(t, q)
  {
  }

  lemma {:induction false} RemoveCount(t: Trie, p: Bits, q: Bits)
    requires t.Node? ==> WfNode(t)
    ensures Count(Remove(t, p), q) == Count(t, q) - if q == p && Count(t, p) > 0 then 1 else 0
  {
    if t.Null? || !(t.prefix <= p) {
      return;
    }
    var eq := |t.prefix|;
    SplitAt(t.prefix, p);
    if eq == |p| {
      if t.nRules > 0 {
        PruneCount(t.(nRules := t.nRules - 1), q);
      }
      return;
    }
    var child := t.Edge(p[eq]);
    RemoveShape(child, p[eq..]);
    var child' := Remove(child, p[eq..]);
    PruneCount(t.WithEdge(p[eq], child'), q);
    WithEdgeCount(t, p[eq], child', q);
    if t.prefix <= q && |q| > eq {
      SplitAt(t.prefix, q);
      RemoveCount(child, p[eq..], q[eq..]);
      assert q == p <==> q[eq..] == p[eq..];
    }
  }

  /** What is left of a node still begins with the same bit. */
  lemma {:induction false} RemoveShape(t: Trie, p: Bits)
    requires t.Node? ==> WfNode(t) && t.prefix != []
    ensures var r := Remove(t, p); r.Node? ==> t.Node? && Starts(r, t.prefix[0])
  {
    if t.Node? && t.prefix <= p {
      var eq := |t.prefix|;
      if eq < |p| {
        RemoveShape(t.Edge(p[eq]), p[eq..]);
      }
    }
  }

  /** Pruning a node of which only the presence of a rule or child is in doubt. */
  lemma PruneWf(t: Trie, n: int)
    requires t.Node? && Fits(t, n) && |t.prefix| <= PREFIX_BITS
    requires t.e0.Node? ==> WfNode(t.e0) && Starts(t.e0, false)
    requires t.e1.Node? ==> WfNode(t.e1) && Starts(t.e1, true)
    ensures var r := Prune(t); Fits(r, n) && (r.Node? ==> WfNode(r))
  {
  }

  /** Changing a child of a well-formed node. */
  lemma WithEdgeWf(t: Trie, bit: bool, child: Trie, n: int)
    requires t.Node? && WfNode(t) && Fits(t, n) && Fits(child, n - |t.prefix|)
    requires child.Node? ==> WfNode(child) && Starts(child, bit)
    ensures var r := t.WithEdge(bit, child); Fits(r, n) && (child.Node? ==> WfNode(r))
    ensures var r := Prune(t.WithEdge(bit, child)); Fits(r, n) && (r.Node? ==> WfNode(r))
  {
    PruneWf(t.WithEdge(bit, child), n);
  }

  lemma {:induction false} RemoveWf(t: Trie, p: Bits, n: int)
    requires Fits(t, n)
    requires t.Node? ==> WfNode(t)
    ensures var r := Remove(t, p); Fits(r, n) && (r.Node? ==> WfNode(r))
  {
    if t.Null? || !(t.prefix <= p) {
      return;
    }
    var eq := |t.prefix|;
    if eq == |p| {
      if t.nRules > 0 {
        PruneWf(t.(nRules := t.nRules - 1), n);
      }
      return;
    }
    var child := t.Edge(p[eq]);
    RemoveWf(child, p[eq..], n - eq);
    RemoveShape(child, p[eq..]);
    WithEdgeWf(t, p[eq], Remove(child, p[eq..]), n);
    if child.Null? {
      assert Remove(t, p) == t;
    }
  }

  lemma RemoveRoot(t: Trie, p: Bits, n: int)
    requires Wf(t) && Fits(t, n)
    ensures Wf(Remove(t, p)) && Fits(Remove(t, p), n)
  {
    RemoveWf(t, p, n);
    RemoveCount(t, p, []);
  }

  /** Some rule hangs below every node. */
  lemma {:induction false} NodeHasRule(t: Trie) returns (p: Bits)
    requires t.Node? && WfNode(t)
    ensures Count(t, p) > 0
  {
    if t.nRules > 0 {
      p := t.prefix;
    } else {
      var bit := t.e1.Node?;
      var rest := NodeHasRule(t.Edge(bit));
      p := t.prefix + rest;
      assert p[|t.prefix|..] == rest;
    }
  }

  /** A trie that stores nothing has no nodes. */
  lemma EmptyIsNull(t: Trie)
    requires Wf(t) && forall p :: Count(t, p) == 0
    ensures t == Null
  {
    if t.Node? {
      var p := NodeHasRule(t);
    }
  }

  /** `t` is a well-formed trie that stands for the multiset `s` of prefixes of
      at most `n` bits. */
  ghost predicate Stands(t: Trie, s: multiset<Bits>, n: int)
  {
    Wf(t) && Fits(t, n) && forall p :: Count(t, p) == s[p]
  }

  /** Insertion adds one occurrence. */
  lemma InsertStands(t: Trie, s: multiset<Bits>, n: int, p: Bits)
    requires Stands(t, s, n) && p != [] && |p| <= n
    ensures Stands(Insert(t, p), s + multiset{p}, n)
  {
    InsertRoot(t, p, n);
    forall q ensures Count(Insert(t, p), q) == (s + multiset{p})[q] {
      InsertCount(t, p, q);
    }
  }

  /** Removal takes one occurrence away, if there is one. */
  lemma RemoveStands(t: Trie, s: multiset<Bits>, n: int, p: Bits)
    requires Stands(t, s, n)
    ensures Stands(Remove(t, p), s - multiset{p}, n)
  {
    RemoveRoot(t, p, n);
    forall q ensures Count(Remove(t, p), q) == (s - multiset{p})[q] {
      RemoveCount(t, p, q);
      if q == p { assert Count(t, p) == s[p]; }
    }
  }

  /** Only the empty multiset is stored as the null root. */
  lemma StoredNothing(t: Trie, s: multiset<Bits>, n: int)
    requires Stands(t, s, n)
    ensures s == multiset{} <==> t == Null
  {
    if s == multiset{} {
      EmptyIsNull(t);
    } else {
      var p :| p in s;
      assert Count(t, p) > 0;
    }
  }

  // ------------------------------------------------------------- whole runs

  datatype Op = Add(p: Bits) | Del(p: Bits)

  ghost function Apply(t: Trie, ops: seq<Op>): Trie
  {
    if ops == [] then t
    else
      var t' := Apply(t, ops[..|ops| - 1]);
      match ops[|ops| - 1]
      case Add(p) => Insert(t', p)
      case Del(p) => Remove(t', p)
  }

  /** The multiset of prefixes a run leaves behind; deleting an absent prefix
      changes nothing. */
  ghost function Stored(ops: seq<Op>): multiset<Bits>
  {
    if ops == [] then multiset{}
    else
      var s := Stored(ops[..|ops| - 1]);
      match ops[|ops| - 1]
      case Add(p) => s + multiset{p}
      case Del(p) => s - multiset{p}
  }

  ghost predicate OpOk(op: Op, n: nat)
  {
    op.Add? ==> 0 < |op.p| <= n
  }

  /** Any run of insertions and removals leaves a well-formed trie that stands
      for exactly the multiset of prefixes; in particular a run that removes all
      it inserted, in any order, ends with the null root. */
  lemma {:induction false} RunIsMultiset(ops: seq<Op>, n: nat)
    requires forall op | op in ops :: OpOk(op, n)
    ensures Stands(Apply(Null, ops), Stored(ops), n)
    ensures Stored(ops) == multiset{} <==> Apply(Null, ops) == Null
  {
    if ops != [] {
      var front := ops[..|ops| - 1];
      var op := ops[|ops| - 1];
      RunIsMultiset(front, n);
      assert OpOk(op, n);
      if op.Add? {
        InsertStands(Apply(Null, front), Stored(front), n, op.p);
      } else {
        RemoveStands(Apply(Null, front), Stored(front), n, op.p);
      }
    }
    StoredNothing(Apply(Null, ops), Stored(ops), n);
  }
}

/** The prefix trie as linked nodes updated in place.  A call that walks to a
    child hands back the node that now belongs on the edge it came through, which
    is what the edge pointers of the C code do. */
module TrieNodes {
  import opened Bits
  import opened Tries
  import opened TrieLookup

  class TrieNode {
    var prefix: Bits
    var nRules: nat
    var e0: TrieNode?
    var e1: TrieNode?
    ghost var repr: set<TrieNode>
    ghost var model: Trie

    ghost predicate Valid()
      reads this, repr
      decreases repr
    {
      && this in repr
      && (e0 != null ==> e0 in repr && e0.repr <= repr && this !in e0.repr && e0.Valid())
      && (e1 != null ==> e1 in repr && e1.repr <= repr && this !in e1.repr && e1.Valid())
      && (e0 != null && e1 != null ==> e0.repr !! e1.repr)
      && model == Node(prefix, nRules, ModelOf(e0), ModelOf(e1))
    }

    constructor (prefix: Bits, nRules: nat, e0: TrieNode?, e1: TrieNode?)
      requires e0 != null ==> e0.Valid()
      requires e1 != null ==> e1.Valid()
      requires e0 != null && e1 != null ==> e0.repr !! e1.repr
      ensures Valid() && fresh(this)
      ensures repr == {this} + ReprOf(e0) + ReprOf(e1)
      ensures model == Node(prefix, nRules, ModelOf(e0), ModelOf(e1))
    {
      this.prefix, this.nRules, this.e0, this.e1 := prefix, nRules, e0, e1;
      repr := {this} + ReprOf(e0) + ReprOf(e1);
      model := Node(prefix, nRules, ModelOf(e0), ModelOf(e1));
    }

    /** Puts `child` on the edge for `bit`. */
    method SetEdge(bit: bool, child: TrieNode?)
      requires child != null ==> child.Valid()
      requires var other := if bit then e0 else e1;
               && (other != null ==> other.Valid())
               && ReprOf(other) !! ReprOf(child)
               && this !in ReprOf(other) + ReprOf(child)
      modifies this
      ensures Valid() && prefix == old(prefix) && nRules == old(nRules)
      ensures model == Node(prefix, nRules, ModelOf(old(e0)), ModelOf(old(e1))).WithEdge(bit, ModelOf(child))
      ensures repr == {this} + ReprOf(child) + ReprOf(if bit then old(e0) else old(e1))
      ensures if bit then e1 == child && e0 == old(e0) else e0 == child && e1 == old(e1)
    {
      if bit { e1 := child; } else { e0 := child; }
      repr := {this} + ReprOf(e0) + ReprOf(e1);
      model := Node(prefix, nRules, ModelOf(e0), ModelOf(e1));
    }
  }

  ghost function ModelOf(n: TrieNode?): Trie
    reads n
  {
    if n == null then Null else n.model
  }

  ghost function ReprOf(n: TrieNode?): set<TrieNode>
    reads n
  {
    if n == null then {} else n.repr
  }

  method BranchCreate(p: Bits, n: nat) returns (r: TrieNode)
    ensures r.Valid() && fresh(r.repr) && r.model == Branch(p, n)
    decreases |p|
  {
    if |p| <= PREFIX_BITS {
      r := new TrieNode(p, n, null, null);
    } else {
      var sub := BranchCreate(p[PREFIX_BITS..], n);
      if sub.prefix[0] {
        r := new TrieNode(p[..PREFIX_BITS], 0, null, sub);
      } else {
        r := new TrieNode(p[..PREFIX_BITS], 0, sub, null);
      }
    }
  }

  /** A node with `child` on the edge for `bit` and `other` on the other one. */
  method Join(prefix: Bits, n: nat, bit: bool, child: TrieNode, other: TrieNode?) returns (r: TrieNode)
    requires child.Valid() && (other != null ==> other.Valid() && child.repr !! other.repr)
    ensures r.Valid() && fresh(r) && r.repr == {r} + child.repr + ReprOf(other)
    ensures r.model == Node(prefix, n, Null, Null).WithEdge(bit, child.model).WithEdge(!bit, ModelOf(other))
  {
    if bit {
      r := new TrieNode(prefix, n, other, child);
    } else {
      r := new TrieNode(prefix, n, child, other);
    }
  }

  /** The node that replaces `node`, which `p` leaves after `eq` bits. */
  method SplitNode(node: TrieNode, p: Bits, eq: nat) returns (r: TrieNode)
    requires node.Valid() && eq < |node.prefix| && eq <= |p|
    requires eq <= PREFIX_BITS
    ensures r.Valid() && r.model == Split(node.model, p, eq)
    ensures fresh(r.repr - node.repr)
  {
    var oldBranch := node.prefix[eq];
    // The C code copies the node before changing it, for concurrent readers.
    var lower := new TrieNode(node.prefix[eq..], node.nRules, node.e0, node.e1);
    var side: TrieNode? := null;
    if eq < |p| {
      side := BranchCreate(p[eq..], 1);
    }
    var n := if eq == |p| then 1 else 0;
    r := Join(p[..eq], n, oldBranch, lower, side);
  }

  method InsertPrefix(edge: TrieNode?, p: Bits) returns (r: TrieNode)
    requires edge != null ==> edge.Valid() && WfNode(edge.model)
    modifies ReprOf(edge)
    ensures r.Valid() && r.model == Insert(old(ModelOf(edge)), p)
    ensures fresh(r.repr - old(ReprOf(edge)))
    decreases ReprOf(edge)
  {
    if edge == null {
      r := BranchCreate(p, 1);
      return;
    }
    var eq := Lcp(edge.prefix, p);
    if eq < |edge.prefix| {
      r := SplitNode(edge, p, eq);
    } else if eq == |p| {
      edge.nRules := edge.nRules + 1;
      edge.model := edge.model.(nRules := edge.nRules);
      r := edge;
    } else {
      var bit := p[eq];
      var child := InsertPrefix(if bit then edge.e1 else edge.e0, p[eq..]);
      edge.SetEdge(bit, child);
      r := edge;
    }
  }

  /** One turn of the pruning loop at `node`. */
  method PruneNode(node: TrieNode) returns (r: TrieNode?)
    requires node.Valid()
    ensures r != null ==> r.Valid()
    ensures ModelOf(r) == Prune(node.model)
    ensures fresh(ReprOf(r) - node.repr)
  {
    if node.nRules > 0 || (node.e0 != null && node.e1 != null) {
      return node;
    }
    var next := if node.e0 != null then node.e0 else node.e1;
    if next == null {
      return null;
    }
    if |node.prefix| + |next.prefix| > PREFIX_BITS {
      return node;
    }
    r := new TrieNode(node.prefix + next.prefix, next.nRules, next.e0, next.e1);
  }

  method RemovePrefix(edge: TrieNode?, p: Bits) returns (r: TrieNode?)
    requires edge != null ==> edge.Valid()
    modifies ReprOf(edge)
    ensures r != null ==> r.Valid()
    ensures ModelOf(r) == Remove(old(ModelOf(edge)), p)
    ensures fresh(ReprOf(r) - old(ReprOf(edge)))
    decreases ReprOf(edge)
  {
    if edge == null || !(edge.prefix <= p) {
      return edge;
    }
    var eq := |edge.prefix|;
    if eq == |p| {
      if edge.nRules == 0 {
        return edge;
      }
      edge.nRules := edge.nRules - 1;
      edge.model := edge.model.(nRules := edge.nRules);
      r := PruneNode(edge);
    } else {
      var bit := p[eq];
      var child := if bit then edge.e1 else edge.e0;
      var child' := RemovePrefix(child, p[eq..]);
      edge.SetEdge(bit, child');
      if child != null && child' == null {
        r := PruneNode(edge);
      } else {
        r := edge;
      }
    }
  }

  /** The lookup loop. */
  method LookupValue(root: TrieNode?, v: Bits) returns (maskBits: nat, plens: set<nat>)
    requires root != null ==> root.Valid()
    ensures Answer(maskBits, plens) == Lookup(ModelOf(root), v)
  {
    var prev: TrieNode? := null;
    var node := root;
    var matchLen := 0;
    plens := {};
    while node != null
      invariant matchLen <= |v|
      invariant node != null ==> node.Valid()
      invariant prev != null ==> prev.Valid()
      invariant var rest := Rest(ModelOf(node), prev == null || prev.model.Leaf(), v, matchLen);
                Lookup(ModelOf(root), v) == Answer(rest.maskBits, plens + rest.plens)
      decreases ReprOf(node)
    {
      var eq := Lcp(node.prefix, v[matchLen..]);
      if eq < |node.prefix| {
        return matchLen + eq + 1, plens;
      }
      matchLen := matchLen + eq;
      if node.nRules > 0 {
        plens := plens + {matchLen};
      }
      if matchLen >= |v| {
        return |v|, plens;
      }
      prev := node;
      node := if v[matchLen] then node.e1 else node.e0;
    }
    maskBits := if prev == null || (prev.e0 == null && prev.e1 == null) then matchLen else matchLen + 1;
  }

  /** The first `m` bits of the value do not decide which of the prefixes match it. */
  ghost predicate Matters(prefixes: multiset<Bits>, v: Bits, m: nat)
  {
    exists v', p | SameBits(v, v', m) && p in prefixes :: (p <= v) != (p <= v')
  }

  /** A trie over values of `width` bits: a multiset of prefixes. */
  class PrefixTrie {
    const width: nat
    var root: TrieNode?
    ghost var prefixes: multiset<Bits>

    ghost predicate Valid()
      reads this, root, ReprOf(root)
    {
      && (root != null ==> root.Valid())
      && Stands(ModelOf(root), prefixes, width)
    }

    constructor (width: nat)
      ensures Valid() && this.width == width && prefixes == multiset{}
    {
      this.width := width;
      root := null;
      prefixes := multiset{};
    }

    method Insert(p: Bits)
      requires Valid() && 0 < |p| <= width
      modifies this, ReprOf(root)
      ensures Valid() && prefixes == old(prefixes) + multiset{p}
    {
      InsertStands(ModelOf(root), prefixes, width, p);
      root := InsertPrefix(root, p);
      prefixes := prefixes + multiset{p};
    }

    /** Removing a prefix that is not stored changes nothing; a trie that stores
        nothing has a null root. */
    method Remove(p: Bits)
      requires Valid()
      modifies this, ReprOf(root)
      ensures Valid() && prefixes == old(prefixes) - multiset{p}
      ensures prefixes == multiset{} <==> root == null
    {
      RemoveStands(ModelOf(root), prefixes, width, p);
      root := RemovePrefix(root, p);
      prefixes := prefixes - multiset{p};
      StoredNothing(ModelOf(root), prefixes, width);
    }

    /** `plens` holds the lengths of the stored prefixes of `v`; any value that
        shares `maskBits` leading bits with `v` would get the same answer, and no
        fewer bits decide which prefixes match. */
    method Lookup(v: Bits) returns (maskBits: nat, plens: set<nat>)
      requires Valid() && |v| == width
      ensures maskBits <= width
      ensures forall l: nat :: l in plens <==> 0 < l <= width && v[..l] in prefixes
      ensures forall v' | SameBits(v, v', maskBits) ::
                TrieLookup.Lookup(ModelOf(root), v') == Answer(maskBits, plens)
      ensures forall m: nat | m < maskBits :: Matters(prefixes, v, m)
    {
      maskBits, plens := LookupValue(root, v);
      LookupExact(ModelOf(root), v, 0);
      forall l: nat ensures (l in plens <==> 0 < l <= width && v[..l] in prefixes) {
        LookupExact(ModelOf(root), v, l);
      }
      forall v' | SameBits(v, v', maskBits)
        ensures TrieLookup.Lookup(ModelOf(root), v') == Answer(maskBits, plens)
      {
        LookupDetermined(ModelOf(root), v, v');
      }
      forall m: nat | m < maskBits ensures Matters(prefixes, v, m) {
        var v', p := LookupMinimal(ModelOf(root), v, m);
      }
    }
  }
}

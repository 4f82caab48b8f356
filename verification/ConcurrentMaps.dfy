/** The two concurrent hash maps, to a writer: one holds chains of nodes, the
    other only how often each hash was inserted. */
module ConcurrentMaps {
  import opened Cuckoo
  import opened CuckooTables
  import opened LoadFactor
  import opened Powers
  import opened ResizableTables
  import opened Options

  const MAP_K: nat := 5
  const COUNT_MAP_K: nat := 8

  /** `m` gives the hashes of `all` and how often each is there. */
  ghost predicate Counts(m: map<nat, nat>, all: multiset<nat>)
  {
    && (forall h :: h in m <==> h in all)
    && (forall h | h in m :: m[h] == all[h])
  }

  lemma CountsDec(m: map<nat, nat>, all: multiset<nat>, h: nat)
    requires Counts(m, all) && h in all
    ensures h in m && m[h] == all[h]
    ensures Counts(if m[h] == 1 then m - {h} else m[h := m[h] - 1], all - multiset{h})
    ensures (m - {h}).Keys == m.Keys - {h} && (m[h] > 1 ==> m[h := m[h] - 1].Keys == m.Keys)
  {
  }

  lemma CountsInc(m: map<nat, nat>, all: multiset<nat>, h: nat, more: nat)
    requires Counts(m, all) && more == if h in m then 1 + m[h] else 1
    ensures Counts(m[h := more], all + multiset{h}) && (all + multiset{h})[h] == more
    ensures |m[h := more].Keys| == if more == 1 then |m.Keys| + 1 else |m.Keys|
  {
    assert m[h := more].Keys == m.Keys + {h};
  }

  /** The map that only counts. */
  class CountMap {
    const table: ResizableTable<nat>
    var n: nat
    /** Every hash, as often as it was inserted and not removed. */
    ghost var all: multiset<nat>

    ghost predicate Valid()
      reads this, table, table.impl, table.impl.buckets
    {
      && table.Valid() && table.k == COUNT_MAP_K && !table.stale && (forall a: nat, b: nat :: table.join(a, b) == a + b)
      && Counts(table.impl.m, all)
      && n == |all| && table.used == |table.impl.m.Keys|
    }

    constructor (finish: (nat, nat) -> nat, basis: nat)
      ensures Valid() && all == multiset{} && fresh(table) && fresh(table.impl) && fresh(table.impl.buckets)
      ensures table.finish == finish && table.maxN == MaxN(1, COUNT_MAP_K)
    {
      table := new ResizableTable<nat>(COUNT_MAP_K, false, (a, b) => a + b, finish, false, basis);
      n := 0;
      all := multiset{};
    }

    method Find(h: nat) returns (count: nat)
      requires Valid()
      ensures count == all[h]
    {
      var v := table.impl.Lookup(h);
      count := if v.Some? then v.value else 0;
    }

    method Inc(h: nat, bases: seq<nat>) returns (count: nat, o: Outcome, rest: seq<nat>, ghost tried: nat)
      requires Valid()
      modifies this, table, table.impl, table.impl.buckets
      ensures Valid()
      ensures table.impl == old(table.impl) || (fresh(table.impl) && fresh(table.impl.buckets))
      ensures o.Done? ==> all == old(all) + multiset{h} && count == all[h]
      ensures !o.Done? ==> all == old(all)
      ensures o.Aborted? <==> old(table.used == table.maxN && table.e == MAX_LOG)
      ensures o.Done? ==> table.e == old(if table.used == table.maxN then table.e + 1 else table.e)
      ensures table.Tried(bases, tried, o, old(table.Buckets()), old(table.KeysWith(h))) && rest == bases[tried..]
      ensures |old(table.KeysWith(h))| <= COUNT_MAP_K && bases != [] ==> !o.NoMoreBases?
    {
      hide Pow2, Counts, ResizableTable.Tried, ResizableTable.Sized;
      ghost var more := Joined(table.impl.m, h, 1, table.join);
      CountsInc(table.impl.m, all, h, more);
      hide Joined;
      var r;
      r, o, rest, tried := table.Put(h, 1, bases);
      if !o.Done? {
        return 0, o, rest, tried;
      }
      count := r.value;
      n := n + 1;
      if count == 1 {
        table.CountOne();
      }
      all := all + multiset{h};
    }

    method Dec(h: nat, bases: seq<nat>) returns (count: nat, o: Outcome, rest: seq<nat>, ghost tried: nat)
      requires Valid() && h in all
      modifies this, table, table.impl, table.impl.buckets
      ensures Valid()
      ensures table.impl == old(table.impl) || (fresh(table.impl) && fresh(table.impl.buckets))
      ensures all == old(all) - multiset{h} && count == all[h] && !o.Aborted?
      ensures if count == 0 && old(table.used - 1 < table.minN) then
                && table.Tried(bases, tried, o, Pow2(old(table.Lower())), table.impl.m.Keys) && rest == bases[tried..]
                && (o.Done? ==> table.e == old(table.Lower()))
              else o.Done? && table.e == old(table.e) && rest == bases
    {
      hide Stands, MaxN, MinN, Pow2, Counts, ResizableTable.Tried, CuckooTable.Valid;
      CountsDec(table.impl.m, all, h);
      var v := table.impl.Lookup(h);
      count := v.value - 1;
      o, rest, tried := table.Change(h, if count == 0 then None else Some(count), count == 0, bases);
      n := n - 1;
      all := all - multiset{h};
    }
  }

  /** The nodes that have the hash. */
  function Chain(m: map<nat, seq<nat>>, h: nat): seq<nat>
  {
    if h in m then m[h] else []
  }

  /** `chain` with its first `node` replaced, or taken out. */
  function Replaced(chain: seq<nat>, node: nat, with: Option<nat>): seq<nat>
  {
    if chain == [] then []
    else if chain[0] == node then (if with.Some? then [with.value] else []) + chain[1..]
    else [chain[0]] + Replaced(chain[1..], node, with)
  }

  function Maybe(with: Option<nat>): seq<nat>
  {
    if with.Some? then [with.value] else []
  }

  lemma {:induction false} ReplacedAt(chain: seq<nat>, node: nat, with: Option<nat>, i: nat)
    requires i < |chain| && chain[i] == node && node !in chain[..i]
    ensures Replaced(chain, node, with) == chain[..i] + Maybe(with) + chain[i + 1..]
  {
    if i == 0 {
      assert chain[..0] + Maybe(with) + chain[1..] == Maybe(with) + chain[1..];
    } else {
      var rest := chain[1..];
      assert rest[..i - 1] == chain[1..i] && rest[i..] == chain[i + 1..];
      ReplacedAt(rest, node, with, i - 1);
      assert chain[..i] == [chain[0]] + chain[1..i];
    }
  }

  method IndexOf(chain: seq<nat>, node: nat) returns (i: nat)
    requires node in chain
    ensures i < |chain| && chain[i] == node && node !in chain[..i]
  {
    i := 0;
    while chain[i] != node
      invariant i < |chain| && node !in chain[..i]
      decreases |chain| - i
    {
      i := i + 1;
    }
  }

  ghost predicate Exchanged(chain: seq<nat>, was: seq<nat>, node: nat, with: Option<nat>)
  {
    node in was && multiset(chain) == multiset(was) - multiset{node} + multiset(Maybe(with))
  }

  lemma ReplacedNodes(chain: seq<nat>, node: nat, with: Option<nat>, i: nat)
    requires i < |chain| && chain[i] == node
    ensures Exchanged(chain[..i] + Maybe(with) + chain[i + 1..], chain, node, with)
  {
    assert chain == chain[..i] + [node] + chain[i + 1..];
    assert multiset(chain) == multiset(chain[..i]) + multiset{node} + multiset(chain[i + 1..]);
  }

  method ReplaceIn(chain: seq<nat>, node: nat, with: Option<nat>) returns (chain': seq<nat>)
    requires node in chain
    ensures chain' == Replaced(chain, node, with) && Exchanged(chain', chain, node, with)
  {
    var i := IndexOf(chain, node);
    chain' := chain[..i] + Maybe(with) + chain[i + 1..];
    ReplacedAt(chain, node, with, i);
    ReplacedNodes(chain, node, with, i);
  }

  /** How often the node is in the chain of the hash. */
  ghost function Copies(m: map<nat, seq<nat>>, h: nat, x: nat): nat
  {
    multiset(Chain(m, h))[x]
  }

  /** `all` is what the chains of `m` hold, none of them empty. */
  ghost predicate Holds(m: map<nat, seq<nat>>, all: multiset<(nat, nat)>)
  {
    && (forall h | h in m :: m[h] != [])
    && (forall h, x :: all[(h, x)] == Copies(m, h, x))
  }

  lemma HoldsInsert(m: map<nat, seq<nat>>, all: multiset<(nat, nat)>, h: nat, node: nat)
    requires Holds(m, all)
    ensures Holds(m[h := [node] + Chain(m, h)], all + multiset{(h, node)})
  {
    hide Copies, Chain;
    var m' := m[h := [node] + Chain(m, h)];
    forall g, x ensures (all + multiset{(h, node)})[(g, x)] == Copies(m', g, x) {
      assert all[(g, x)] == Copies(m, g, x);
      InsertCopies(m, h, node, g, x);
    }
  }

  lemma InsertCopies(m: map<nat, seq<nat>>, h: nat, node: nat, g: nat, x: nat)
    ensures Copies(m[h := [node] + Chain(m, h)], g, x) == Copies(m, g, x) + if (g, x) == (h, node) then 1 else 0
  {
    assert multiset([node] + Chain(m, h)) == multiset{node} + multiset(Chain(m, h));
  }

  function WithChain(m: map<nat, seq<nat>>, h: nat, chain: seq<nat>): map<nat, seq<nat>>
  {
    if chain == [] then m - {h} else m[h := chain]
  }

  lemma WithChainAt(m: map<nat, seq<nat>>, h: nat, chain: seq<nat>)
    ensures Chain(WithChain(m, h, chain), h) == chain && WithChain(m, h, chain) - {h} == m - {h}
  {
  }

  lemma HoldsReplace(m: map<nat, seq<nat>>, all: multiset<(nat, nat)>, h: nat, node: nat, with: Option<nat>,
                     chain: seq<nat>)
    requires Holds(m, all) && Exchanged(chain, Chain(m, h), node, with)
    ensures (h, node) in all
    ensures Holds(WithChain(m, h, chain), Swapped(all, h, node, with))
  {
    hide Swapped, Chain, Copies, Exchanged;
    CopiesInChain(m, h, node, with, chain);
    assert all[(h, node)] == Copies(m, h, node);
    var m' := WithChain(m, h, chain);
    forall g, x ensures Swapped(all, h, node, with)[(g, x)] == Copies(m', g, x) {
      assert all[(g, x)] == Copies(m, g, x);
      ReplaceCopies(m, all, h, node, with, chain, g, x);
    }
  }

  lemma CopiesInChain(m: map<nat, seq<nat>>, h: nat, node: nat, with: Option<nat>, chain: seq<nat>)
    requires Exchanged(chain, Chain(m, h), node, with)
    ensures Copies(m, h, node) > 0
  {
  }

  lemma ReplaceCopies(m: map<nat, seq<nat>>, all: multiset<(nat, nat)>, h: nat, node: nat, with: Option<nat>,
                      chain: seq<nat>, g: nat, x: nat)
    requires Exchanged(chain, Chain(m, h), node, with) && (h, node) in all && all[(g, x)] == Copies(m, g, x)
    ensures var m' := WithChain(m, h, chain);
            Swapped(all, h, node, with)[(g, x)] == Copies(m', g, x)
  {
    hide Swapped, Exchanged, Maybe;
    SwappedAt(all, h, node, with, g, x);
    ExchangedAt(chain, Chain(m, h), node, with, x);
    var m' := WithChain(m, h, chain);
    assert g == h ==> Chain(m', g) == chain;
    assert g != h ==> Chain(m', g) == Chain(m, g);
  }

  lemma ExchangedAt(chain: seq<nat>, was: seq<nat>, node: nat, with: Option<nat>, x: nat)
    requires Exchanged(chain, was, node, with)
    ensures multiset(chain)[x] == multiset(was)[x] - multiset{node}[x] + multiset(Maybe(with))[x]
  {
    assert multiset(was)[node] > 0;
  }

  lemma SwappedAt(all: multiset<(nat, nat)>, h: nat, node: nat, with: Option<nat>, g: nat, x: nat)
    requires (h, node) in all
    ensures g != h ==> Swapped(all, h, node, with)[(g, x)] == all[(g, x)]
    ensures g == h ==> Swapped(all, h, node, with)[(g, x)] ==
                       all[(g, x)] - multiset{node}[x] + multiset(Maybe(with))[x]
  {
    assert (g, x) == (h, node) <==> g == h && x == node;
    if with.Some? {
      assert (g, x) == (h, with.value) <==> g == h && x == with.value;
      assert multiset(Maybe(with)) == multiset{with.value};
    }
  }

  lemma SwappedSize(all: multiset<(nat, nat)>, h: nat, node: nat, with: Option<nat>)
    requires (h, node) in all
    ensures |all| > 0 && |Swapped(all, h, node, with)| == if with.Some? then |all| else |all| - 1
  {
    assert |all - multiset{(h, node)}| == |all| - 1;
  }

  ghost function Swapped(all: multiset<(nat, nat)>, h: nat, node: nat, with: Option<nat>): multiset<(nat, nat)>
  {
    all - multiset{(h, node)} + if with.Some? then multiset{(h, with.value)} else multiset{}
  }

  /** The map of nodes. */
  class NodeMap {
    const table: ResizableTable<seq<nat>>
    /** Every node with its hash. */
    ghost var all: multiset<(nat, nat)>

    ghost predicate Valid()
      reads this, table, table.impl, table.impl.buckets
    {
      && table.Valid() && table.k == MAP_K && table.stale && (forall a, b :: table.join(a, b) == a + b)
      && Holds(table.impl.m, all)
      && table.used == |all|
    }

    constructor (finish: (nat, nat) -> nat)
      ensures Valid() && all == multiset{} && fresh(table) && fresh(table.impl) && fresh(table.impl.buckets)
      ensures table.finish == finish && table.maxN == 0
    {
      table := new ResizableTable<seq<nat>>(MAP_K, true, (a, b) => a + b, finish, true, 0);
      all := multiset{};
    }

    method Find(h: nat) returns (chain: seq<nat>)
      requires Valid()
      ensures chain == Chain(table.impl.m, h)
      ensures forall x :: multiset(chain)[x] == all[(h, x)]
    {
      hide Stands;
      var v := table.impl.Lookup(h);
      chain := if v.Some? then v.value else [];
    }

    method Insert(node: nat, h: nat, bases: seq<nat>) returns (o: Outcome, rest: seq<nat>, ghost tried: nat)
      requires Valid()
      modifies this, table, table.impl, table.impl.buckets
      ensures Valid()
      ensures table.impl == old(table.impl) || (fresh(table.impl) && fresh(table.impl.buckets))
      ensures o.Done? ==> table.impl.m == old(table.impl.m)[h := [node] + Chain(old(table.impl.m), h)]
      ensures o.Done? ==> all == old(all) + multiset{(h, node)}
      ensures !o.Done? ==> table.impl.m == old(table.impl.m) && all == old(all)
      ensures o.Aborted? <==> old(table.used == table.maxN && table.e == MAX_LOG)
      ensures o.Done? ==> table.e == old(if table.used == table.maxN then table.e + 1 else table.e)
      ensures table.Tried(bases, tried, o, old(table.Buckets()), old(table.KeysWith(h))) && rest == bases[tried..]
      ensures |old(table.KeysWith(h))| <= MAP_K && bases != [] ==> !o.NoMoreBases?
    {
      hide Pow2, Holds, ResizableTable.Tried, ResizableTable.Sized;
      HoldsInsert(table.impl.m, all, h, node);
      assert [node] + [] == [node] && table.join([node], Chain(table.impl.m, h)) == [node] + Chain(table.impl.m, h);
      var r;
      r, o, rest, tried := table.Put(h, [node], bases);
      if o.Done? {
        table.CountOne();
        all := all + multiset{(h, node)};
      }
    }

    /** Replaces a node by another, or removes it. */
    method Replace(node: nat, with: Option<nat>, h: nat, bases: seq<nat>)
      returns (o: Outcome, rest: seq<nat>, ghost tried: nat)
      requires Valid() && node in Chain(table.impl.m, h)
      modifies this, table, table.impl, table.impl.buckets
      ensures Valid() && !o.Aborted?
      ensures table.impl == old(table.impl) || (fresh(table.impl) && fresh(table.impl.buckets))
      ensures Chain(table.impl.m, h) == Replaced(Chain(old(table.impl.m), h), node, with)
      ensures table.impl.m - {h} == old(table.impl.m) - {h}
      ensures all == Swapped(old(all), h, node, with)
      ensures if with.None? && old(table.used - 1 < table.minN) then
                && table.Tried(bases, tried, o, Pow2(old(table.Lower())), table.impl.m.Keys) && rest == bases[tried..]
                && (o.Done? ==> table.e == old(table.Lower()))
              else o.Done? && table.e == old(table.e) && rest == bases
    {
      hide Stands, MaxN, MinN, Pow2, Holds, Swapped, Replaced, Exchanged, Maybe;
      hide ResizableTable.Tried, CuckooTable.Valid;
      var v := table.impl.Lookup(h);
      var chain := v.value;
      var chain' := ReplaceIn(chain, node, with);
      HoldsReplace(table.impl.m, all, h, node, with, chain');
      SwappedSize(all, h, node, with);
      WithChainAt(table.impl.m, h, chain');
      o, rest, tried := table.Change(h, if chain' == [] then None else Some(chain'), with.None?, bases);
      all := Swapped(all, h, node, with);
    }
  }
}

/** How a rule enters and leaves one subtable, and what its indices then hold:
    exactly one entry for every masked key. */
module Subtables {
  import opened Bits
  import opened Flows
  import opened Tries
  import opened ClassifierModel

  /** Remove version of a rule that is not being removed. */
  const NOT_REMOVED: nat := 0xffff_ffff_ffff_ffff

  // --------------------------------------------------- the list of equal rules

  predicate EventuallyInvisible(m: Match)
  {
    m.remove < NOT_REMOVED
  }

  /** That is, in some version after its addition it cannot be seen. */
  lemma InvisibleSometime(m: Match)
    requires m.add < NOT_REMOVED
    ensures EventuallyInvisible(m) <==> exists v: nat | m.add <= v < NOT_REMOVED :: !m.Visible(v)
  {
    if EventuallyInvisible(m) {
      assert !m.Visible(if m.add < m.remove then m.remove else m.add);
    }
  }

  /** Where a rule of priority `pri` goes: before the first lower rule, or in
      place of the rule of the same priority that stays visible. */
  function Position(list: seq<Match>, pri: int): (i: nat)
    ensures i <= |list|
    ensures forall j | 0 <= j < i :: list[j].Priority() >= pri
    ensures forall j | 0 <= j < i && list[j].Priority() == pri :: EventuallyInvisible(list[j])
    ensures i < |list| ==>
      pri > list[i].Priority() || (pri == list[i].Priority() && !EventuallyInvisible(list[i]))
  {
    if list == [] || pri > list[0].Priority() || (pri == list[0].Priority() && !EventuallyInvisible(list[0])) then 0
    else 1 + Position(list[1..], pri)
  }

  predicate Replaces(list: seq<Match>, pri: int)
  {
    var i := Position(list, pri);
    i < |list| && list[i].Priority() == pri
  }

  function Put(list: seq<Match>, m: Match): seq<Match>
  {
    var i := Position(list, m.Priority());
    if Replaces(list, m.Priority()) then list[i := m] else list[..i] + [m] + list[i..]
  }

  ghost predicate Distinct(list: seq<Match>)
  {
    forall i, j | 0 <= i < j < |list| :: list[i].rule != list[j].rule
  }

  ghost function Elems(list: seq<Match>): set<Match>
  {
    set m | m in list
  }

  /** An element put at position `i`. */
  lemma InsertedAt(list: seq<Match>, i: nat, m: Match)
    requires i <= |list|
    ensures var r := list[..i] + [m] + list[i..];
            && |r| == |list| + 1
            && (forall k | 0 <= k < i :: r[k] == list[k])
            && r[i] == m
            && (forall k | i < k < |r| :: r[k] == list[k - 1])
            && Elems(r) == Elems(list) + {m}
  {
    var r := list[..i] + [m] + list[i..];
    forall d | d in list ensures d in r {
      var k :| 0 <= k < |list| && list[k] == d;
      assert r[if k < i then k else k + 1] == d;
    }
  }

  lemma InsertedSorted(list: seq<Match>, i: nat, m: Match)
    requires i <= |list| && Sorted(list)
    requires forall k | 0 <= k < i :: list[k].Priority() >= m.Priority()
    requires forall k | i <= k < |list| :: list[k].Priority() <= m.Priority()
    ensures Sorted(list[..i] + [m] + list[i..])
  {
    var r := list[..i] + [m] + list[i..];
    InsertedAt(list, i, m);
    forall a, b | 0 <= a < b < |r| ensures r[a].Priority() >= r[b].Priority() {
      var a', b' := if a < i then a else a - 1, if b < i then b else b - 1;
      assert a != i && b != i ==> r[a] == list[a'] && r[b] == list[b'];
    }
  }

  lemma InsertedDistinct(list: seq<Match>, i: nat, m: Match)
    requires i <= |list| && Distinct(list) && forall d | d in list :: d.rule != m.rule
    ensures Distinct(list[..i] + [m] + list[i..])
  {
    var r := list[..i] + [m] + list[i..];
    InsertedAt(list, i, m);
    forall a, b | 0 <= a < b < |r| ensures r[a].rule != r[b].rule {
      var a', b' := if a < i then a else a - 1, if b < i then b else b - 1;
      assert a != i && b != i ==> r[a] == list[a'] && r[b] == list[b'];
    }
  }

  lemma PutInserts(list: seq<Match>, m: Match)
    requires Sorted(list) && Distinct(list) && forall d | d in list :: d.rule != m.rule
    requires !Replaces(list, m.Priority())
    ensures var r := Put(list, m); Sorted(r) && Distinct(r) && Elems(r) == Elems(list) + {m}
  {
    var i := Position(list, m.Priority());
    assert forall k | i <= k < |list| :: list[k].Priority() <= list[i].Priority();
    InsertedAt(list, i, m);
    InsertedSorted(list, i, m);
    InsertedDistinct(list, i, m);
  }

  lemma PutReplaces(list: seq<Match>, m: Match)
    requires Sorted(list) && Distinct(list) && forall d | d in list :: d.rule != m.rule
    requires Replaces(list, m.Priority())
    ensures var i, r := Position(list, m.Priority()), Put(list, m);
            Sorted(r) && Distinct(r) && Elems(r) == Elems(list) - {list[i]} + {m}
  {
    var i, r := Position(list, m.Priority()), Put(list, m);
    assert r[i] == m;
    forall d | d in list && d != list[i] ensures d in r {
      var k :| 0 <= k < |list| && list[k] == d;
      assert r[k] == d;
    }
  }

  /** The list without its element `i`. */
  function Cut(list: seq<Match>, i: nat): seq<Match>
    requires i < |list|
  {
    list[..i] + list[i + 1..]
  }

  lemma CutRemoves(list: seq<Match>, i: nat)
    requires Sorted(list) && Distinct(list) && i < |list|
    ensures var r := Cut(list, i); Sorted(r) && Distinct(r) && Elems(r) == Elems(list) - {list[i]}
  {
    var r := Cut(list, i);
    assert forall k | 0 <= k < |r| :: r[k] == if k < i then list[k] else list[k + 1];
    forall d | d in list && d != list[i] ensures d in r {
      var k :| 0 <= k < |list| && list[k] == d;
      assert r[if k < i then k else k - 1] == d;
    }
  }

  // ---------------------------------------------------------- the stage indices

  function StageHash(cfg: Config, mask: Bits, stages: seq<set<nat>>, key: Bits, i: nat): nat
    requires |key| == |mask| && i < |stages|
  {
    cfg.hash(And(key, MaskIn(mask, Seen(stages, i + 1))))
  }

  /** The keys that hash to `h` up to stage `i`. */
  ghost function KeysAt(cfg: Config, mask: Bits, stages: seq<set<nat>>, keys: set<Bits>, i: nat, h: nat): set<Bits>
    requires i < |stages|
  {
    set key | key in keys && |key| == |mask| && StageHash(cfg, mask, stages, key, i) == h
  }

  /** Each stage index counts every key once. */
  ghost predicate IndexExact(cfg: Config, mask: Bits, stages: seq<set<nat>>, indices: seq<multiset<nat>>,
                             keys: set<Bits>)
  {
    && |stages| == |indices| + 1
    && forall i, h | 0 <= i < |indices| :: indices[i][h] == |KeysAt(cfg, mask, stages, keys, i, h)|
  }

  lemma KeysAtAdd(cfg: Config, mask: Bits, stages: seq<set<nat>>, keys: set<Bits>, key: Bits, i: nat, h: nat)
    requires key !in keys && |key| == |mask| && i < |stages|
    ensures |KeysAt(cfg, mask, stages, keys + {key}, i, h)| ==
            |KeysAt(cfg, mask, stages, keys, i, h)| + if StageHash(cfg, mask, stages, key, i) == h then 1 else 0
  {
    assert KeysAt(cfg, mask, stages, keys + {key}, i, h) ==
           KeysAt(cfg, mask, stages, keys, i, h) + if StageHash(cfg, mask, stages, key, i) == h then {key} else {};
  }

  /** Counts `key` in every stage index. */
  method IncIndices(cfg: Config, mask: Bits, stages: seq<set<nat>>, indices: seq<multiset<nat>>, key: Bits,
                    ghost keys: set<Bits>) returns (r: seq<multiset<nat>>)
    requires IndexExact(cfg, mask, stages, indices, keys) && key !in keys && |key| == |mask|
    ensures IndexExact(cfg, mask, stages, r, keys + {key})
  {
    r := indices;
    for i := 0 to |indices|
      invariant |r| == |indices| && r[i..] == indices[i..]
      invariant forall k, h | 0 <= k < i :: r[k][h] == |KeysAt(cfg, mask, stages, keys + {key}, k, h)|
    {
      var hash := StageHash(cfg, mask, stages, key, i);
      assert r[i] == indices[i];
      forall h ensures (r[i] + multiset{hash})[h] == |KeysAt(cfg, mask, stages, keys + {key}, i, h)| {
        KeysAtAdd(cfg, mask, stages, keys, key, i, h);
      }
      r := r[i := r[i] + multiset{hash}];
    }
  }

  method DecIndices(cfg: Config, mask: Bits, stages: seq<set<nat>>, indices: seq<multiset<nat>>, key: Bits,
                    ghost keys: set<Bits>) returns (r: seq<multiset<nat>>)
    requires IndexExact(cfg, mask, stages, indices, keys) && key in keys && |key| == |mask|
    ensures IndexExact(cfg, mask, stages, r, keys - {key})
  {
    r := indices;
    for i := 0 to |indices|
      invariant |r| == |indices| && r[i..] == indices[i..]
      invariant forall k, h | 0 <= k < i :: r[k][h] == |KeysAt(cfg, mask, stages, keys - {key}, k, h)|
    {
      var hash := StageHash(cfg, mask, stages, key, i);
      assert r[i] == indices[i];
      assert keys - {key} + {key} == keys;
      forall h ensures (r[i] - multiset{hash})[h] == |KeysAt(cfg, mask, stages, keys - {key}, i, h)| {
        KeysAtAdd(cfg, mask, stages, keys - {key}, key, i, h);
      }
      r := r[i := r[i] - multiset{hash}];
    }
  }

  // ------------------------------------------------------------- the ports trie

  ghost function PortKeys(cfg: Config, len: nat, keys: set<Bits>, p: Bits): set<Bits>
  {
    set key | key in keys && |key| == cfg.n && cfg.portsOfs + PORT_BITS <= |key| &&
              0 < len <= PORT_BITS && PortsOf(cfg, key)[..len] == p
  }

  /** The ports trie holds the port bits of every key once. */
  ghost predicate PortsExact(cfg: Config, len: nat, trie: Trie, keys: set<Bits>)
  {
    && len <= PORT_BITS && Wf(trie) && Fits(trie, PORT_BITS)
    && forall p :: Count(trie, p) == |PortKeys(cfg, len, keys, p)|
  }

  lemma PortKeysAdd(cfg: Config, len: nat, keys: set<Bits>, key: Bits, q: Bits)
    requires cfg.Valid() && key !in keys && |key| == cfg.n && len <= PORT_BITS
    ensures |PortKeys(cfg, len, keys + {key}, q)| ==
            |PortKeys(cfg, len, keys, q)| + if len > 0 && q == PortsOf(cfg, key)[..len] then 1 else 0
  {
    assert PortKeys(cfg, len, keys + {key}, q) ==
           PortKeys(cfg, len, keys, q) + if len > 0 && q == PortsOf(cfg, key)[..len] then {key} else {};
  }

  method IncPorts(cfg: Config, len: nat, trie: Trie, key: Bits, ghost keys: set<Bits>) returns (r: Trie)
    requires cfg.Valid() && PortsExact(cfg, len, trie, keys) && key !in keys && |key| == cfg.n
    ensures PortsExact(cfg, len, r, keys + {key})
  {
    r := trie;
    if len > 0 {
      var p := PortsOf(cfg, key)[..len];
      r := Insert(trie, p);
      InsertRoot(trie, p, PORT_BITS);
      forall q ensures Count(r, q) == |PortKeys(cfg, len, keys + {key}, q)| {
        InsertCount(trie, p, q);
        PortKeysAdd(cfg, len, keys, key, q);
      }
    } else {
      forall q ensures Count(r, q) == |PortKeys(cfg, len, keys + {key}, q)| {
        PortKeysAdd(cfg, len, keys, key, q);
      }
    }
  }

  method DecPorts(cfg: Config, len: nat, trie: Trie, key: Bits, ghost keys: set<Bits>) returns (r: Trie)
    requires cfg.Valid() && PortsExact(cfg, len, trie, keys) && key in keys && |key| == cfg.n
    ensures PortsExact(cfg, len, r, keys - {key})
  {
    r := trie;
    if len > 0 {
      var p := PortsOf(cfg, key)[..len];
      r := Remove(trie, p);
      RemoveRoot(trie, p, PORT_BITS);
      forall q ensures Count(r, q) == |PortKeys(cfg, len, keys - {key}, q)| {
        RemoveCount(trie, p, q);
        PortKeysAdd(cfg, len, keys - {key}, key, q);
        assert keys - {key} + {key} == keys;
      }
    } else {
      forall q ensures Count(r, q) == |PortKeys(cfg, len, keys - {key}, q)| {
        PortKeysAdd(cfg, len, keys - {key}, key, q);
        assert keys - {key} + {key} == keys;
      }
    }
  }
}

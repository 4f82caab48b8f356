/** The classifier as an object: rules are replaced and removed, and after every
    operation the indices hold exactly one entry for every list of equal rules. */
module Classifiers {
  import opened Bits
  import opened Flows
  import opened Tries
  import opened ClassifierModel
  import opened Subtables
  import opened SubtableVectors
  import opened ClassifierState
  import opened SubtableChanges
  import SoftMatches
  import LookupMeaning
  import LookupCompleteness
  import opened Options

  // ------------------------------------------------------------ field tries

  lemma PrefixHeadsAdd(cfg: Config, heads: set<Head>, h: Head, j: nat, p: Bits)
    requires h !in heads
    ensures |PrefixHeads(cfg, heads + {h}, j, p)| ==
            |PrefixHeads(cfg, heads, j, p)| + if HasPrefix(cfg, h, j, p) then 1 else 0
  {
    assert PrefixHeads(cfg, heads + {h}, j, p) ==
           PrefixHeads(cfg, heads, j, p) + if HasPrefix(cfg, h, j, p) then {h} else {};
  }

  ghost predicate HeadOk(cfg: Config, h: Head)
  {
    && cfg.Valid() && |h.key| == cfg.n && |h.plens| == |cfg.fields|
    && forall j | 0 <= j < |h.plens| :: h.plens[j] <= cfg.fields[j].width
  }

  ghost predicate OneTrie(cfg: Config, heads: set<Head>, trie: Trie, j: nat)
    requires j < |cfg.fields|
  {
    Wf(trie) && Fits(trie, cfg.fields[j].width) && forall p :: Count(trie, p) == |PrefixHeads(cfg, heads, j, p)|
  }

  /** Adds the head's prefix to the trie of field `j`, if it has one. */
  method IncTrie(cfg: Config, trie: Trie, j: nat, h: Head, ghost heads: set<Head>) returns (r: Trie)
    requires HeadOk(cfg, h) && h !in heads && j < |cfg.fields| && OneTrie(cfg, heads, trie, j)
    ensures OneTrie(cfg, heads + {h}, r, j)
  {
    r := trie;
    var fd := cfg.fields[j];
    if h.plens[j] > 0 {
      var p := FieldOf(h.key, fd)[..h.plens[j]];
      r := Insert(trie, p);
      InsertRoot(trie, p, fd.width);
      forall q ensures Count(r, q) == |PrefixHeads(cfg, heads + {h}, j, q)| {
        InsertCount(trie, p, q);
        PrefixHeadsAdd(cfg, heads, h, j, q);
      }
    } else {
      forall q ensures Count(r, q) == |PrefixHeads(cfg, heads + {h}, j, q)| {
        PrefixHeadsAdd(cfg, heads, h, j, q);
      }
    }
  }

  method DecTrie(cfg: Config, trie: Trie, j: nat, h: Head, ghost heads: set<Head>) returns (r: Trie)
    requires HeadOk(cfg, h) && h in heads && j < |cfg.fields| && OneTrie(cfg, heads, trie, j)
    ensures OneTrie(cfg, heads - {h}, r, j)
  {
    r := trie;
    var fd := cfg.fields[j];
    assert heads - {h} + {h} == heads;
    if h.plens[j] > 0 {
      var p := FieldOf(h.key, fd)[..h.plens[j]];
      r := Remove(trie, p);
      RemoveRoot(trie, p, fd.width);
      PrefixHeadsAdd(cfg, heads - {h}, h, j, p);
      forall q ensures Count(r, q) == |PrefixHeads(cfg, heads - {h}, j, q)| {
        RemoveCount(trie, p, q);
        PrefixHeadsAdd(cfg, heads - {h}, h, j, q);
      }
    } else {
      forall q ensures Count(r, q) == |PrefixHeads(cfg, heads - {h}, j, q)| {
        PrefixHeadsAdd(cfg, heads - {h}, h, j, q);
      }
    }
  }

  method IncTries(cfg: Config, tries: seq<Trie>, h: Head, ghost heads: set<Head>) returns (r: seq<Trie>)
    requires HeadOk(cfg, h) && h !in heads && TrieExact(cfg, heads, tries)
    ensures TrieExact(cfg, heads + {h}, r)
  {
    r := [];
    for j := 0 to |tries|
      invariant |r| == j && forall k | 0 <= k < j :: OneTrie(cfg, heads + {h}, r[k], k)
    {
      assert OneTrie(cfg, heads, tries[j], j);
      var t := IncTrie(cfg, tries[j], j, h, heads);
      r := r + [t];
    }
  }

  method DecTries(cfg: Config, tries: seq<Trie>, h: Head, ghost heads: set<Head>) returns (r: seq<Trie>)
    requires HeadOk(cfg, h) && h in heads && TrieExact(cfg, heads, tries)
    ensures TrieExact(cfg, heads - {h}, r)
  {
    r := [];
    for j := 0 to |tries|
      invariant |r| == j && forall k | 0 <= k < j :: OneTrie(cfg, heads - {h}, r[k], k)
    {
      assert OneTrie(cfg, heads, tries[j], j);
      var t := DecTrie(cfg, tries[j], j, h, heads);
      r := r + [t];
    }
  }

  // ------------------------------------- the map of subtables after a change

  lemma HeadsGain(subtables: map<Bits, Subtable>, mask: Bits, st: Subtable, key: Bits)
    requires mask in subtables ==> key !in subtables[mask].rules && st.triePlen == subtables[mask].triePlen
    requires st.rules.Keys == (if mask in subtables then subtables[mask].rules.Keys else {}) + {key}
    ensures var h := Head(mask, key, st.triePlen);
            h !in Heads(subtables) && Heads(subtables[mask := st]) == Heads(subtables) + {h}
  {
    var s', h := subtables[mask := st], Head(mask, key, st.triePlen);
    forall x | x in Heads(s') ensures x in Heads(subtables) + {h} {
      var m', k' :| m' in s' && k' in s'[m'].rules && x == Head(m', k', s'[m'].triePlen);
      if m' == mask && k' != key { assert k' in subtables[mask].rules; }
    }
    forall x | x in Heads(subtables) + {h} ensures x in Heads(s') {
      if x == h {
        assert key in s'[mask].rules;
      } else {
        var m', k' :| m' in subtables && k' in subtables[m'].rules && x == Head(m', k', subtables[m'].triePlen);
        assert k' in s'[m'].rules;
      }
    }
  }

  lemma HeadsSame(subtables: map<Bits, Subtable>, mask: Bits, st: Subtable)
    requires mask in subtables && st.triePlen == subtables[mask].triePlen && st.rules.Keys == subtables[mask].rules.Keys
    ensures Heads(subtables[mask := st]) == Heads(subtables)
  {
    var s' := subtables[mask := st];
    assert forall m', k' :: m' in s' && k' in s'[m'].rules <==> m' in subtables && k' in subtables[m'].rules;
    assert forall m' | m' in s' :: s'[m'].triePlen == subtables[m'].triePlen;
  }

  lemma AllMatchesWith(subtables: map<Bits, Subtable>, mask: Bits, st: Subtable)
    ensures AllMatches(subtables[mask := st]) == Matches(st) + AllMatches(subtables - {mask})
    ensures AllMatches(subtables) ==
            (if mask in subtables then Matches(subtables[mask]) else {}) + AllMatches(subtables - {mask})
  {
    var s', rest := subtables[mask := st], subtables - {mask};
    forall m | m in Matches(st) ensures m in AllMatches(s') {
      assert s'[mask] == st;
    }
    forall m | m in AllMatches(rest) ensures m in AllMatches(s') && m in AllMatches(subtables) {
      var k :| k in rest && m in Matches(rest[k]);
      assert s'[k] == rest[k] == subtables[k];
    }
    forall m | m in AllMatches(s') ensures m in Matches(st) + AllMatches(rest) {
      var k :| k in s' && m in Matches(s'[k]);
      assert k != mask ==> rest[k] == s'[k];
    }
    forall m | m in AllMatches(subtables) && (mask in subtables ==> m !in Matches(subtables[mask]))
      ensures m in AllMatches(rest)
    {
      var k :| k in subtables && m in Matches(subtables[k]);
      assert rest[k] == subtables[k];
    }
  }

  /** What all operations keep. */
  ghost predicate Inv(cfg: Config, subtables: map<Bits, Subtable>, tries: seq<Trie>, order: seq<Entry>, nRules: nat)
  {
    && cfg.Valid()
    && (forall mask | mask in subtables ::
         subtables[mask].mask == mask && SubInv(cfg, subtables[mask]) && CountOk(subtables[mask]))
    && TrieExact(cfg, Heads(subtables), tries)
    && OrderOk(order, subtables)
    && nRules == |AllMatches(subtables)|
  }

  lemma GainMatch(subtables: map<Bits, Subtable>, mask: Bits, st: Subtable, m: Match)
    requires Matches(st) == (if mask in subtables then Matches(subtables[mask]) else {}) + {m}
    ensures AllMatches(subtables[mask := st]) == AllMatches(subtables) + {m}
  {
    AllMatchesWith(subtables, mask, st);
  }

  /** Rules of other subtables have other masks. */
  lemma NotElsewhere(cfg: Config, subtables: map<Bits, Subtable>, mask: Bits, m: Match)
    requires forall k | k in subtables :: subtables[k].mask == k && SubInv(cfg, subtables[k])
    requires m.rule.mask == mask
    ensures m !in AllMatches(subtables - {mask})
    ensures m in AllMatches(subtables) ==> mask in subtables && m in Matches(subtables[mask])
  {
    forall k | k in subtables && m in Matches(subtables[k]) ensures k == mask {
      FiledUnderKey(cfg, subtables[k], m);
    }
  }

  /** A rule that is not in the list for its key is nowhere. */
  lemma NotListed(cfg: Config, subtables: map<Bits, Subtable>, tries: seq<Trie>, order: seq<Entry>, nRules: nat,
                  rule: Rule)
    requires Inv(cfg, subtables, tries, order, nRules)
    requires rule.mask in subtables && rule.flow in subtables[rule.mask].rules ==>
      forall m | m in subtables[rule.mask].rules[rule.flow] :: m.rule != rule
    ensures forall m | m in AllMatches(subtables) :: m.rule != rule
  {
    forall m | m in AllMatches(subtables) ensures m.rule != rule {
      NotElsewhere(cfg, subtables, m.rule.mask, m);
      FiledUnderKey(cfg, subtables[m.rule.mask], m);
    }
  }

  /** Where no rule is displaced, every equal rule of the same priority is on its
      way out. */
  lemma NoLiveEqual(cfg: Config, subtables: map<Bits, Subtable>, tries: seq<Trie>, order: seq<Entry>, nRules: nat,
                    rule: Rule)
    requires Inv(cfg, subtables, tries, order, nRules)
    ensures (rule.mask in subtables && rule.flow in subtables[rule.mask].rules &&
             Replaces(subtables[rule.mask].rules[rule.flow], rule.priority))
            || forall m | m in AllMatches(subtables) && m.rule.mask == rule.mask && m.rule.flow == rule.flow &&
                          m.Priority() == rule.priority :: EventuallyInvisible(m)
  {
    forall m | m in AllMatches(subtables) && m.rule.mask == rule.mask && m.rule.flow == rule.flow &&
               m.Priority() == rule.priority && !EventuallyInvisible(m)
      ensures rule.mask in subtables && rule.flow in subtables[rule.mask].rules
      ensures Replaces(subtables[rule.mask].rules[rule.flow], rule.priority)
    {
      NotElsewhere(cfg, subtables, rule.mask, m);
      var st := subtables[rule.mask];
      FiledUnderKey(cfg, st, m);
      assert ListOk(st.rules[rule.flow], rule.flow, rule.mask, st.maxPriority);
      LiveIsReplaced(st.rules[rule.flow], m);
    }
  }

  lemma LiveIsReplaced(list: seq<Match>, m: Match)
    requires Sorted(list) && m in list && !EventuallyInvisible(m)
    ensures Replaces(list, m.Priority())
  {
    var i := Position(list, m.Priority());
    var k :| 0 <= k < |list| && list[k] == m;
    assert k >= i;
  }

  lemma SwapMatch(cfg: Config, subtables: map<Bits, Subtable>, mask: Bits, st: Subtable, was: Match, gained: set<Match>)
    requires forall k | k in subtables :: subtables[k].mask == k && SubInv(cfg, subtables[k])
    requires mask in subtables && was.rule.mask == mask && Matches(st) == Matches(subtables[mask]) - {was} + gained
    ensures AllMatches(subtables[mask := st]) == AllMatches(subtables) - {was} + gained
  {
    AllMatchesWith(subtables, mask, st);
    NotElsewhere(cfg, subtables, mask, was);
  }

  /** The vector after subtable `mask` became `st`. */
  function Reordered(order: seq<Entry>, subtables: map<Bits, Subtable>, mask: Bits, st: Subtable): (r: seq<Entry>)
    requires OrderOk(order, subtables)
    ensures OrderOk(r, subtables[mask := st])
  {
    var e := Entry(st.maxPriority, mask);
    if mask !in subtables then
      OrderAdd(order, subtables, mask, st);
      VInsert(order, e)
    else if st.maxPriority != subtables[mask].maxPriority then
      OrderChange(order, subtables, mask, st);
      VInsert(VRemove(order, mask), e)
    else order
  }

  /** A subtable is put in place and everything else follows suit. */
  lemma InvPut(cfg: Config, subtables: map<Bits, Subtable>, order: seq<Entry>, mask: Bits, st: Subtable,
               tries: seq<Trie>, nRules: nat)
    requires cfg.Valid() && OrderOk(order, subtables)
    requires forall k | k in subtables :: subtables[k].mask == k && SubInv(cfg, subtables[k]) && CountOk(subtables[k])
    requires st.mask == mask && SubInv(cfg, st) && CountOk(st)
    requires TrieExact(cfg, Heads(subtables[mask := st]), tries) && nRules == |AllMatches(subtables[mask := st])|
    ensures Inv(cfg, subtables[mask := st], tries, Reordered(order, subtables, mask, st), nRules)
  {
    var s' := subtables[mask := st];
    forall k | k in s' ensures s'[k].mask == k && SubInv(cfg, s'[k]) && CountOk(s'[k]) {
      assert k != mask ==> s'[k] == subtables[k];
    }
  }

  /** The invariant after a rule joined a subtable that has its key already. */
  lemma InvJoin(cfg: Config, subtables: map<Bits, Subtable>, tries: seq<Trie>, order: seq<Entry>, nRules: nat,
                mask: Bits, st: Subtable, m: Match)
    requires Inv(cfg, subtables, tries, order, nRules) && mask in subtables && m !in AllMatches(subtables)
    requires st.mask == mask && SubInv(cfg, st) && CountOk(st)
    requires st.rules.Keys == subtables[mask].rules.Keys && st.triePlen == subtables[mask].triePlen
    requires Matches(st) == Matches(subtables[mask]) + {m}
    ensures Inv(cfg, subtables[mask := st], tries, Reordered(order, subtables, mask, st), nRules + 1)
    ensures AllMatches(subtables[mask := st]) == AllMatches(subtables) + {m}
  {
    hide SubInv, TrieExact, OrderOk;
    HeadsSame(subtables, mask, st);
    GainMatch(subtables, mask, st, m);
    InvPut(cfg, subtables, order, mask, st, tries, nRules + 1);
  }

  /** The invariant after a rule took the place of another. */
  lemma InvSwap(cfg: Config, subtables: map<Bits, Subtable>, tries: seq<Trie>, order: seq<Entry>, nRules: nat,
                mask: Bits, st: Subtable, was: Match, m: Match)
    requires Inv(cfg, subtables, tries, order, nRules) && mask in subtables && m !in AllMatches(subtables)
    requires st.mask == mask && SubInv(cfg, st) && CountOk(st) && was.rule.mask == mask
    requires was in Matches(subtables[mask])
    requires st.rules.Keys == subtables[mask].rules.Keys && st.triePlen == subtables[mask].triePlen
    requires Matches(st) == Matches(subtables[mask]) - {was} + {m}
    ensures Inv(cfg, subtables[mask := st], tries, Reordered(order, subtables, mask, st), nRules)
    ensures was in AllMatches(subtables) && AllMatches(subtables[mask := st]) == AllMatches(subtables) - {was} + {m}
  {
    hide SubInv, TrieExact, OrderOk;
    HeadsSame(subtables, mask, st);
    SwapMatch(cfg, subtables, mask, st, was, {m});
    assert was in AllMatches(subtables);
    InvPut(cfg, subtables, order, mask, st, tries, nRules);
  }

  /** The invariant after the record of a rule changed in place. */
  lemma InvTouch(cfg: Config, subtables: map<Bits, Subtable>, tries: seq<Trie>, order: seq<Entry>, nRules: nat,
                 mask: Bits, st: Subtable, was: Match, m: Match)
    requires Inv(cfg, subtables, tries, order, nRules) && mask in subtables
    requires st.mask == mask && SubInv(cfg, st) && CountOk(st) && was.rule.mask == mask
    requires was in Matches(subtables[mask])
    requires m == was || m !in AllMatches(subtables)
    requires st.rules.Keys == subtables[mask].rules.Keys && st.triePlen == subtables[mask].triePlen
    requires Matches(st) == Matches(subtables[mask]) - {was} + {m}
    ensures Inv(cfg, subtables[mask := st], tries, Reordered(order, subtables, mask, st), nRules)
    ensures was in AllMatches(subtables) && AllMatches(subtables[mask := st]) == AllMatches(subtables) - {was} + {m}
  {
    hide SubInv, TrieExact, OrderOk;
    if m != was {
      InvSwap(cfg, subtables, tries, order, nRules, mask, st, was, m);
    } else {
      HeadsSame(subtables, mask, st);
      SwapMatch(cfg, subtables, mask, st, was, {m});
      assert was in AllMatches(subtables);
      InvPut(cfg, subtables, order, mask, st, tries, nRules);
    }
  }

  /** The invariant after a rule brought a new key. */
  lemma InvNewKey(cfg: Config, subtables: map<Bits, Subtable>, tries: seq<Trie>, order: seq<Entry>, nRules: nat,
                  mask: Bits, st: Subtable, m: Match, tries': seq<Trie>)
    requires Inv(cfg, subtables, tries, order, nRules) && m !in AllMatches(subtables)
    requires st.mask == mask && SubInv(cfg, st) && CountOk(st)
    requires mask in subtables ==> m.rule.flow !in subtables[mask].rules && st.triePlen == subtables[mask].triePlen
    requires st.rules.Keys == (if mask in subtables then subtables[mask].rules.Keys else {}) + {m.rule.flow}
    requires Matches(st) == (if mask in subtables then Matches(subtables[mask]) else {}) + {m}
    requires TrieExact(cfg, Heads(subtables) + {Head(mask, m.rule.flow, st.triePlen)}, tries')
    ensures Inv(cfg, subtables[mask := st], tries', Reordered(order, subtables, mask, st), nRules + 1)
    ensures AllMatches(subtables[mask := st]) == AllMatches(subtables) + {m}
  {
    hide SubInv, TrieExact, OrderOk;
    HeadsGain(subtables, mask, st, m.rule.flow);
    GainMatch(subtables, mask, st, m);
    InvPut(cfg, subtables, order, mask, st, tries', nRules + 1);
  }

  lemma HeadsLose(subtables: map<Bits, Subtable>, mask: Bits, key: Bits)
    requires mask in subtables && key in subtables[mask].rules
    ensures Head(mask, key, subtables[mask].triePlen) in Heads(subtables)
    ensures forall st: Subtable |
              st.triePlen == subtables[mask].triePlen && st.rules.Keys == subtables[mask].rules.Keys - {key} ::
              Heads(subtables[mask := st]) == Heads(subtables) - {Head(mask, key, st.triePlen)}
    ensures subtables[mask].rules.Keys == {key} ==>
              Heads(subtables - {mask}) == Heads(subtables) - {Head(mask, key, subtables[mask].triePlen)}
  {
    forall st: Subtable | st.triePlen == subtables[mask].triePlen && st.rules.Keys == subtables[mask].rules.Keys - {key}
      ensures Heads(subtables[mask := st]) == Heads(subtables) - {Head(mask, key, st.triePlen)}
    {
      HeadsGain(subtables[mask := st], mask, subtables[mask], key);
      assert subtables[mask := st][mask := subtables[mask]] == subtables;
    }
    if subtables[mask].rules.Keys == {key} {
      HeadsGain(subtables - {mask}, mask, subtables[mask], key);
      assert (subtables - {mask})[mask := subtables[mask]] == subtables;
    }
  }

  /** The invariant after a rule left and others with its key stay. */
  lemma InvLeave(cfg: Config, subtables: map<Bits, Subtable>, tries: seq<Trie>, order: seq<Entry>, nRules: nat,
                 mask: Bits, st: Subtable, m: Match, tries': seq<Trie>)
    requires Inv(cfg, subtables, tries, order, nRules) && mask in subtables
    requires st.mask == mask && SubInv(cfg, st) && CountOk(st) && m.rule.mask == mask && m in Matches(subtables[mask])
    requires Matches(st) == Matches(subtables[mask]) - {m}
    requires TrieExact(cfg, Heads(subtables[mask := st]), tries')
    ensures nRules > 0
    ensures Inv(cfg, subtables[mask := st], tries', Reordered(order, subtables, mask, st), nRules - 1)
    ensures m in AllMatches(subtables) && AllMatches(subtables[mask := st]) == AllMatches(subtables) - {m}
  {
    hide SubInv, TrieExact, OrderOk;
    SwapMatch(cfg, subtables, mask, st, m, {});
    assert m in AllMatches(subtables);
    InvPut(cfg, subtables, order, mask, st, tries', nRules - 1);
  }

  lemma InOrder(cfg: Config, subtables: map<Bits, Subtable>, tries: seq<Trie>, order: seq<Entry>, nRules: nat)
    requires Inv(cfg, subtables, tries, order, nRules)
    ensures VSorted(order) && forall e | e in order :: e.mask in subtables
  {
  }

  lemma LastMatch(cfg: Config, subtables: map<Bits, Subtable>, mask: Bits, m: Match)
    requires forall k | k in subtables :: subtables[k].mask == k && SubInv(cfg, subtables[k])
    requires mask in subtables && Matches(subtables[mask]) == {m} && m.rule.mask == mask
    ensures m in AllMatches(subtables) && AllMatches(subtables - {mask}) == AllMatches(subtables) - {m}
  {
    hide SubInv;
    AllMatchesWith(subtables, mask, subtables[mask]);
    NotElsewhere(cfg, subtables, mask, m);
  }

  /** The invariant after the last rule of a subtable left. */
  lemma InvDestroy(cfg: Config, subtables: map<Bits, Subtable>, tries: seq<Trie>, order: seq<Entry>, nRules: nat,
                   mask: Bits, tries': seq<Trie>, order': seq<Entry>, nRules': nat)
    requires Inv(cfg, subtables, tries, order, nRules)
    requires TrieExact(cfg, Heads(subtables - {mask}), tries') && OrderOk(order', subtables - {mask})
    requires nRules' == |AllMatches(subtables - {mask})|
    ensures Inv(cfg, subtables - {mask}, tries', order', nRules')
  {
    hide SubInv, TrieExact, OrderOk, CountOk, Heads, AllMatches;
    var rest := subtables - {mask};
    assert forall k | k in rest :: k in subtables && rest[k] == subtables[k];
  }

  lemma KeyHeadOk(cfg: Config, st: Subtable, key: Bits)
    requires SubInv(cfg, st) && key in st.rules
    ensures HeadOk(cfg, Head(st.mask, key, st.triePlen))
  {
    PlensHeadOk(cfg, st, key);
  }

  lemma PlensHeadOk(cfg: Config, st: Subtable, key: Bits)
    requires SubInv(cfg, st) && |key| == cfg.n
    ensures HeadOk(cfg, Head(st.mask, key, st.triePlen))
  {
  }

  // ---------------------------------------------------------- what readers see

  function SnapshotOf(cfg: Config, subtables: map<Bits, Subtable>, tries: seq<Trie>, order: seq<Entry>): Tables
    requires forall e | e in order :: e.mask in subtables
  {
    Tables(cfg, seq(|order|, i requires 0 <= i < |order| => subtables[order[i].mask]), tries)
  }

  lemma SnapshotPublished(cfg: Config, subtables: map<Bits, Subtable>, tries: seq<Trie>, order: seq<Entry>)
    requires cfg.Valid() && OrderOk(order, subtables) && TrieExact(cfg, Heads(subtables), tries)
    requires forall mask | mask in subtables :: subtables[mask].mask == mask && SubInv(cfg, subtables[mask])
    ensures Published(SnapshotOf(cfg, subtables, tries, order))
  {
    hide SubInv, TrieExact, SubtableOk;
    var t := SnapshotOf(cfg, subtables, tries, order);
    assert forall i | 0 <= i < |order| :: order[i] in order;
    forall st | st in t.subtables ensures SubtableOk(cfg, tries, st) {
      var i :| 0 <= i < |order| && st == t.subtables[i];
      ReadersFine(cfg, subtables, tries, order[i].mask);
    }
  }

  /** Between updates readers see a published state that holds the rules of the
      classifier and no others. */
  lemma SnapshotFaithful(cfg: Config, subtables: map<Bits, Subtable>, tries: seq<Trie>, order: seq<Entry>, nRules: nat)
    requires Inv(cfg, subtables, tries, order, nRules)
    ensures forall e | e in order :: e.mask in subtables
    ensures Published(SnapshotOf(cfg, subtables, tries, order))
    ensures forall m :: LookupMeaning.Holds(SnapshotOf(cfg, subtables, tries, order), m) <==> m in AllMatches(subtables)
  {
    hide SubInv, TrieExact, AllMatches, LookupMeaning.Holds, Published;
    SnapshotPublished(cfg, subtables, tries, order);
    forall m ensures LookupMeaning.Holds(SnapshotOf(cfg, subtables, tries, order), m) <==> m in AllMatches(subtables) {
      SnapshotHolds(cfg, subtables, tries, order, m);
    }
  }

  lemma SnapshotHolds(cfg: Config, subtables: map<Bits, Subtable>, tries: seq<Trie>, order: seq<Entry>, m: Match)
    requires OrderOk(order, subtables)
    ensures LookupMeaning.Holds(SnapshotOf(cfg, subtables, tries, order), m) <==> m in AllMatches(subtables)
  {
    var t := SnapshotOf(cfg, subtables, tries, order);
    if LookupMeaning.Holds(t, m) {
      var st, key :| st in t.subtables && key in st.rules && m in st.rules[key];
      var i :| 0 <= i < |order| && st == t.subtables[i];
      assert order[i] in order && m in Matches(subtables[order[i].mask]);
    }
    if m in AllMatches(subtables) {
      var mask :| mask in subtables && m in Matches(subtables[mask]);
      var e := Entry(subtables[mask].maxPriority, mask);
      var i :| 0 <= i < |order| && order[i] == e;
      assert t.subtables[i] == subtables[mask] && t.subtables[i] in t.subtables;
    }
  }

  /** Without conjunctive rules, what a lookup finds is the best of the rules. */
  lemma BestOfContent(cfg: Config, subtables: map<Bits, Subtable>, tries: seq<Trie>, order: seq<Entry>, nRules: nat,
                      flow: Bits, version: nat)
    requires Inv(cfg, subtables, tries, order, nRules) && |flow| == cfg.n
    requires forall m | m in AllMatches(subtables) :: m.conj == []
    ensures (forall e | e in order :: e.mask in subtables) && Published(SnapshotOf(cfg, subtables, tries, order))
    ensures var r := SoftMatches.LookupRule(SnapshotOf(cfg, subtables, tries, order), flow, version);
            if r.Some? then
              && r.value in AllMatches(subtables) && LookupMeaning.Fits(r.value, flow, version)
              && forall m | m in AllMatches(subtables) && LookupMeaning.Fits(m, flow, version) ::
                   m.Priority() <= r.value.Priority()
            else
              forall m | m in AllMatches(subtables) && LookupMeaning.Fits(m, flow, version) :: m.Priority() <= INT_MIN
  {
    hide SubInv, Inv, AllMatches, LookupMeaning.Fits, LookupMeaning.Holds, Published;
    SnapshotFaithful(cfg, subtables, tries, order, nRules);
    LookupMeaning.LookupIsLinearSearch(SnapshotOf(cfg, subtables, tries, order), flow, version);
  }

  /** A bit that a lookup adds to the mask is in the mask of a rule. */
  lemma MaskOfRule(cfg: Config, subtables: map<Bits, Subtable>, tries: seq<Trie>, order: seq<Entry>, nRules: nat,
                   flow: Bits, version: nat, wc: Bits, k: nat) returns (m: Match)
    requires Inv(cfg, subtables, tries, order, nRules) && |flow| == cfg.n == |wc| && k < |wc| && !wc[k]
    requires (forall e | e in order :: e.mask in subtables) && Published(SnapshotOf(cfg, subtables, tries, order))
    requires SoftMatches.LookupMask(SnapshotOf(cfg, subtables, tries, order), flow, version, wc)[k]
    ensures m in AllMatches(subtables) && |m.rule.mask| == |wc| && m.rule.mask[k]
  {
    var t := SnapshotOf(cfg, subtables, tries, order);
    SoftMatches.LookupMaskInMasks(t, flow, version, wc, k);
    hide SubInv, Published, TrieExact, SoftMatches.LookupMask;
    var j :| 0 <= j < |t.subtables| && |t.subtables[j].mask| == |wc| && t.subtables[j].mask[k];
    assert order[j] in order;
    var mask := order[j].mask;
    assert t.subtables[j] == subtables[mask];
    m := RuleInSubtable(cfg, subtables[mask]);
    assert m in AllMatches(subtables);
  }

  lemma RuleInSubtable(cfg: Config, st: Subtable) returns (m: Match)
    requires SubInv(cfg, st) && CountOk(st)
    ensures m in Matches(st) && m.rule.mask == st.mask
  {
    m :| m in Matches(st);
    var key :| key in st.rules && m in st.rules[key];
    assert ListOk(st.rules[key], key, st.mask, st.maxPriority);
  }

  /** One reason that both explains the result and, among orderly rules, shows it to
      be the right choice. */
  lemma WhyChosen(t: Tables, flow: Bits, version: nat) returns (why: LookupMeaning.Reason)
    requires Published(t) && |flow| == t.cfg.n
    ensures var r := SoftMatches.LookupRule(t, flow, version);
            && LookupMeaning.Explained(t, flow, version, r, why)
            && (LookupCompleteness.Orderly(t, flow, version) ==> LookupCompleteness.Chosen(t, flow, version, r, why))
  {
    if LookupCompleteness.Orderly(t, flow, version) {
      why := LookupCompleteness.LookupComplete(t, flow, version);
      LookupCompleteness.ChosenIsExplained(t, flow, version, SoftMatches.LookupRule(t, flow, version), why);
    } else {
      why := LookupMeaning.LookupExplained(t, flow, version);
    }
  }

  class Classifier {
    const cfg: Config
    const segments: seq<nat>
    var nRules: nat
    var subtables: map<Bits, Subtable>
    var order: seq<Entry>
    var tries: seq<Trie>

    ghost predicate Valid()
      reads this
    {
      && (forall i, j | 0 <= i < j < |segments| :: segments[i] <= segments[j])
      && Inv(cfg, subtables, tries, order, nRules)
    }

    /** The rules in the classifier. */
    ghost function Content(): set<Match>
      reads this
    {
      AllMatches(subtables)
    }

    constructor (cfg: Config, segments: seq<nat>)
      requires cfg.Valid() && forall i, j | 0 <= i < j < |segments| :: segments[i] <= segments[j]
      ensures Valid() && Content() == {} && this.cfg == cfg && this.segments == segments
    {
      this.cfg, this.segments := cfg, segments;
      nRules, subtables, order := 0, map[], [];
      tries := seq(|cfg.fields|, _ => Null);
      assert forall j, p :: PrefixHeads(cfg, Heads(map[]), j, p) == {};
      assert AllMatches(map[]) == {};
    }

    /** The subtable for `mask`, newly made if there is none. */
    method FindOrMake(mask: Bits) returns (st: Subtable)
      requires Valid() && |mask| == cfg.n
      ensures st.mask == mask && SubInv(cfg, st)
      ensures if mask in subtables then st == subtables[mask] else st.rules == map[]
    {
      if mask in subtables {
        return subtables[mask];
      }
      var stages := MakeStages(mask, segments);
      StagesCover(mask, stages);
      st := Subtable(mask, stages, seq(|stages| - 1, _ => multiset{}), PlensOf(cfg, mask),
                     LastOne(PortsOf(cfg, mask)), Null, map[], 0, 0);
      assert forall i, h | 0 <= i < |st.indices| :: KeysAt(cfg, mask, stages, {}, i, h) == {};
      assert forall p :: PortKeys(cfg, st.portsLen, {}, p) == {};
      assert st.rules.Keys == {};
    }

    /** `st` is the subtable for `m`, as found or newly made, and `m` is not in it. */
    ghost predicate Placed(st: Subtable, m: Match)
      reads this
    {
      && SubInv(cfg, st) && MayEnter(cfg, st, m) && m !in Content()
      && (if st.mask in subtables then st == subtables[st.mask] else st.rules == map[])
    }

    method InsertKey(st: Subtable, m: Match)
      requires Valid() && Placed(st, m) && m.rule.flow !in st.rules
      modifies this
      ensures Valid() && Content() == old(Content()) + {m}
    {
      hide SubInv, TrieExact, OrderOk;
      var key := m.rule.flow;
      assert st.rules == map[] ==> Matches(st) == {};
      var st' := AddKey(cfg, st, m);
      PlensHeadOk(cfg, st', key);
      HeadsGain(subtables, st.mask, st', key);
      var tries' := IncTries(cfg, tries, Head(st.mask, key, st'.triePlen), Heads(subtables));
      InvNewKey(cfg, subtables, tries, order, nRules, st.mask, st', m, tries');
      Store(st.mask, st', tries', nRules + 1);
    }

    method InsertEqual(st: Subtable, m: Match)
      requires Valid() && Placed(st, m) && m.rule.flow in st.rules && !Replaces(st.rules[m.rule.flow], m.Priority())
      modifies this
      ensures Valid() && Content() == old(Content()) + {m}
    {
      hide SubInv, TrieExact, OrderOk;
      var st' := AddToList(cfg, st, m);
      InvJoin(cfg, subtables, tries, order, nRules, st.mask, st', m);
      Store(st.mask, st', tries, nRules + 1);
    }

    method Displace(st: Subtable, m: Match) returns (was: Match)
      requires Valid() && Placed(st, m) && m.rule.flow in st.rules && Replaces(st.rules[m.rule.flow], m.Priority())
      modifies this
      ensures Valid() && Content() == old(Content()) - {was} + {m}
      ensures was in old(Content()) && was.rule.mask == m.rule.mask && was.rule.flow == m.rule.flow
      ensures was.Priority() == m.Priority() && !EventuallyInvisible(was)
    {
      hide SubInv, TrieExact, OrderOk;
      var st';
      st', was := ReplaceInList(cfg, st, m);
      InvSwap(cfg, subtables, tries, order, nRules, st.mask, st', was, m);
      Store(st.mask, st', tries, nRules);
    }

    /** Inserts `rule`.  A rule with the same mask, flow and priority that is not
        on its way out is displaced and returned. */
    method Replace(rule: Rule, version: nat, conj: seq<Conj>) returns (displaced: Option<Match>)
      requires Valid() && |rule.mask| == cfg.n == |rule.flow| && And(rule.flow, rule.mask) == rule.flow
      requires forall m | m in Content() :: m.rule != rule
      modifies this
      ensures Valid()
      ensures var new' := Match(rule, version, NOT_REMOVED, conj);
              if displaced.Some? then Content() == old(Content()) - {displaced.value} + {new'}
              else Content() == old(Content()) + {new'}
      ensures displaced.Some? ==>
        var was := displaced.value;
        && was in old(Content()) && was.rule.mask == rule.mask && was.rule.flow == rule.flow
        && was.Priority() == rule.priority && !EventuallyInvisible(was)
      ensures displaced.None? ==>
        forall m | m in old(Content()) && m.rule.mask == rule.mask && m.rule.flow == rule.flow &&
                   m.Priority() == rule.priority :: EventuallyInvisible(m)
    {
      var m := Match(rule, version, NOT_REMOVED, conj);
      var st := FindOrMake(rule.mask);
      hide SubInv, Inv;
      assert Matches(st) <= Content();
      displaced := None;
      if rule.flow !in st.rules {
        InsertKey(st, m);
      } else if Replaces(st.rules[rule.flow], rule.priority) {
        var was := Displace(st, m);
        displaced := Some(was);
      } else {
        InsertEqual(st, m);
      }
      NoLiveEqual(cfg, old(subtables), old(tries), old(order), old(nRules), rule);
    }

    /** Position of `rule` in the list for its key, or -1. */
    method IndexOf(rule: Rule) returns (i: int)
      requires Valid()
      ensures i < 0 ==> forall m | m in Content() :: m.rule != rule
      ensures i >= 0 ==> rule.mask in subtables && rule.flow in subtables[rule.mask].rules
      ensures i >= 0 ==> i < |subtables[rule.mask].rules[rule.flow]|
      ensures i >= 0 ==> subtables[rule.mask].rules[rule.flow][i].rule == rule
    {
      hide Inv, AllMatches;
      i := -1;
      if rule.mask in subtables && rule.flow in subtables[rule.mask].rules {
        var list := subtables[rule.mask].rules[rule.flow];
        for k := 0 to |list|
          invariant forall j | 0 <= j < k :: list[j].rule != rule
        {
          if list[k].rule == rule {
            return k;
          }
        }
      }
      NotListed(cfg, subtables, tries, order, nRules, rule);
    }

    /** Removes `rule`, if it is in the classifier. */
    method Remove(rule: Rule) returns (found: Option<Match>)
      requires Valid()
      modifies this
      ensures Valid()
      ensures found.None? ==> Content() == old(Content()) && forall m | m in Content() :: m.rule != rule
      ensures found.Some? ==>
        found.value.rule == rule && found.value in old(Content()) && Content() == old(Content()) - {found.value}
    {
      hide Inv, AllMatches;
      var i := IndexOf(rule);
      if i < 0 {
        return None;
      }
      var m := subtables[rule.mask].rules[rule.flow][i];
      found := Some(m);
      RemoveAt(rule.mask, rule.flow, i);
    }

    method RemoveAt(mask: Bits, key: Bits, i: nat)
      requires Valid() && mask in subtables && key in subtables[mask].rules && i < |subtables[mask].rules[key]|
      modifies this
      ensures Valid()
      ensures old(subtables[mask].rules[key][i]) in old(Content())
      ensures Content() == old(Content()) - {old(subtables[mask].rules[key][i])}
    {
      hide SubInv, TrieExact, OrderOk;
      var st := subtables[mask];
      var m := st.rules[key][i];
      var st' := TakeOut(cfg, st, key, i);
      if |st.rules[key]| == 1 {
        RemoveKey(mask, key, m, st');
      } else {
        var st'' := Lowered(cfg, st', m.Priority(), st, m);
        HeadsSame(subtables, mask, st'');
        InvLeave(cfg, subtables, tries, order, nRules, mask, st'', m, tries);
        Store(mask, st'', tries, nRules - 1);
      }
    }

    /** Takes the key out of the tries, and the subtable out of the classifier if
        that was its last key. */
    method RemoveKey(mask: Bits, key: Bits, m: Match, st': Subtable)
      requires Valid() && mask in subtables && m.rule.mask == mask
      requires var st := subtables[mask];
               && key in st.rules && m in Matches(st)
               && SubInv(cfg, st') && Matches(st') == Matches(st) - {m} && st'.rules.Keys == st.rules.Keys - {key}
               && st'.mask == mask && st'.triePlen == st.triePlen
               && st'.maxPriority == st.maxPriority && st'.maxCount == st.maxCount
      modifies this
      ensures Valid() && m in old(Content()) && Content() == old(Content()) - {m}
    {
      hide SubInv, TrieExact, OrderOk;
      var st := subtables[mask];
      var h := Head(mask, key, st.triePlen);
      KeyHeadOk(cfg, st, key);
      HeadsLose(subtables, mask, key);
      var tries' := DecTries(cfg, tries, h, Heads(subtables));
      if st'.rules == map[] {
        assert Matches(st') == {} && st'.rules.Keys == {};
        assert st.rules.Keys == {key};
        InOrder(cfg, subtables, tries, order, nRules);
        Destroy(mask, m, tries');
      } else {
        var st'' := Lowered(cfg, st', m.Priority(), st, m);
        InvLeave(cfg, subtables, tries, order, nRules, mask, st'', m, tries');
        Store(mask, st'', tries', nRules - 1);
      }
    }

    method Destroy(mask: Bits, m: Match, tries': seq<Trie>)
      requires Valid() && mask in subtables && Matches(subtables[mask]) == {m} && m.rule.mask == mask
      requires TrieExact(cfg, Heads(subtables - {mask}), tries') && VSorted(order)
      modifies this
      ensures Valid() && m in old(Content()) && Content() == old(Content()) - {m}
    {
      hide SubInv, TrieExact, OrderOk, CountOk, Heads;
      LastMatch(cfg, subtables, mask, m);
      OrderDrop(order, subtables, mask);
      InvDestroy(cfg, subtables, tries, order, nRules, mask, tries', VRemove(order, mask), nRules - 1);
      order := VRemove(order, mask);
      subtables := subtables - {mask};
      tries, nRules := tries', nRules - 1;
    }

    /** Makes `rule` invisible from `version` on, or visible again if `version` is
        NOT_REMOVED. */
    method SetRemoveVersion(rule: Rule, version: nat) returns (found: Option<Match>)
      requires Valid()
      modifies this
      ensures Valid()
      ensures found.None? ==> Content() == old(Content()) && forall m | m in Content() :: m.rule != rule
      ensures found.Some? ==>
        && found.value.rule == rule && found.value in old(Content())
        && Content() == old(Content()) - {found.value} + {found.value.(remove := version)}
    {
      var i := IndexOf(rule);
      if i < 0 {
        return None;
      }
      hide SubInv, TrieExact, OrderOk;
      var st := subtables[rule.mask];
      var was := st.rules[rule.flow][i];
      found := Some(was);
      var m := was.(remove := version);
      var st' := Retouch(cfg, st, rule.flow, i, m);
      InvTouch(cfg, subtables, tries, order, nRules, rule.mask, st', was, m);
      Store(rule.mask, st', tries, nRules);
    }

    /** The lookup on the current rules: the result and the soundness of its mask
        are stated on the set of rules, which is what the snapshot holds. */
    method Lookup(version: nat, flow: Bits, wc: Bits)
      returns (rule: Option<Match>, wc': Bits, ghost why: LookupMeaning.Reason)
      requires Valid() && |flow| == cfg.n == |wc|
      ensures Covers(wc', wc)
      ensures (forall m | m in Content() :: m.conj == []) ==>
        if rule.Some? then
          && rule.value in Content() && LookupMeaning.Fits(rule.value, flow, version)
          && forall m | m in Content() && LookupMeaning.Fits(m, flow, version) :: m.Priority() <= rule.value.Priority()
        else forall m | m in Content() && LookupMeaning.Fits(m, flow, version) :: m.Priority() <= INT_MIN
      ensures (forall e | e in order :: e.mask in subtables) && Published(SnapshotOf(cfg, subtables, tries, order))
      ensures var t := SnapshotOf(cfg, subtables, tries, order);
              && (forall m :: LookupMeaning.Holds(t, m) <==> m in Content())
              && LookupMeaning.Explained(t, flow, version, rule, why)
              && (LookupCompleteness.Orderly(t, flow, version) ==>
                    LookupCompleteness.Chosen(t, flow, version, rule, why))
      ensures forall g | Agree(flow, g, wc') ::
                SoftMatches.LookupRule(SnapshotOf(cfg, subtables, tries, order), g, version) == rule
      ensures wc' == SoftMatches.LookupMask(SnapshotOf(cfg, subtables, tries, order), flow, version, wc)
      ensures forall k | 0 <= k < |wc| && wc'[k] && !wc[k] ::
                exists m | m in Content() :: |m.rule.mask| == |wc| && m.rule.mask[k]
    {
      hide SubInv, Inv, AllMatches, LookupMeaning.Fits, LookupMeaning.Holds, Published, SoftMatches.LookupMask;
      SnapshotFaithful(cfg, subtables, tries, order, nRules);
      var t := SnapshotOf(cfg, subtables, tries, order);
      rule, wc' := SoftMatches.Lookup(t, version, flow, wc);
      why := WhyChosen(t, flow, version);
      forall k | 0 <= k < |wc| && wc'[k] && !wc[k]
        ensures exists m | m in Content() :: |m.rule.mask| == |wc| && m.rule.mask[k]
      {
        var m := MaskOfRule(cfg, subtables, tries, order, nRules, flow, version, wc, k);
      }
      if forall m | m in Content() :: m.conj == [] {
        BestOfContent(cfg, subtables, tries, order, nRules, flow, version);
      }
    }

    /** Puts a changed subtable in place. */
    method Store(mask: Bits, st: Subtable, tries': seq<Trie>, nRules': nat)
      requires Valid() && OrderOk(order, subtables)
      requires Inv(cfg, subtables[mask := st], tries', Reordered(order, subtables, mask, st), nRules')
      modifies this
      ensures Valid() && subtables == old(subtables)[mask := st]
    {
      hide Inv, OrderOk;
      order := Reordered(order, subtables, mask, st);
      subtables := subtables[mask := st];
      tries, nRules := tries', nRules';
    }
  }
}

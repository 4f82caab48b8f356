/** A rule enters or leaves one subtable: its list, its indices, and its record
    of the highest priority. */
module SubtableChanges {
  import opened Bits
  import opened Flows
  import opened ClassifierModel
  import opened Subtables
  import opened ClassifierState

  /** Every rule of the subtable is filed under its own key. */
  lemma FiledUnderKey(cfg: Config, st: Subtable, m: Match)
    requires RulesOk(cfg, st) && m in Matches(st)
    ensures m.rule.flow in st.rules && m in st.rules[m.rule.flow] && m.rule.mask == st.mask
    ensures m.Priority() <= st.maxPriority
  {
    var key :| key in st.rules && m in st.rules[key];
    assert ListOk(st.rules[key], key, st.mask, st.maxPriority);
  }

  lemma FiledInList(cfg: Config, st: Subtable, key: Bits, m: Match)
    requires RulesOk(cfg, st) && key in st.rules && m in st.rules[key]
    ensures m in Matches(st) && m.rule.flow == key && m.rule.mask == st.mask && m.Priority() <= st.maxPriority
  {
    assert ListOk(st.rules[key], key, st.mask, st.maxPriority);
  }

  lemma MatchesWith(cfg: Config, st: Subtable, key: Bits, list: seq<Match>)
    requires RulesOk(cfg, st)
    ensures var old' := if key in st.rules then Elems(st.rules[key]) else {};
            Matches(st.(rules := st.rules[key := list])) == Matches(st) - old' + Elems(list)
  {
    var st' := st.(rules := st.rules[key := list]);
    forall m | m in Matches(st) && m.rule.flow != key ensures m in Matches(st') {
      FiledUnderKey(cfg, st, m);
      assert m in st'.rules[m.rule.flow];
    }
    forall m | m in Matches(st) && m.rule.flow == key ensures key in st.rules && m in st.rules[key] {
      FiledUnderKey(cfg, st, m);
    }
    if key in st.rules {
      assert ListOk(st.rules[key], key, st.mask, st.maxPriority);
    }
    forall m | m in list ensures m in Matches(st') {
      assert m in st'.rules[key];
    }
  }

  lemma RulesOkWith(cfg: Config, st: Subtable, key: Bits, list: seq<Match>, max: int)
    requires RulesOk(cfg, st) && (st.rules == map[] || st.maxPriority <= max)
    requires |key| == cfg.n && And(key, st.mask) == key && ListOk(list, key, st.mask, max)
    ensures RulesOk(cfg, st.(rules := st.rules[key := list], maxPriority := max))
  {
    forall k | k in st.rules && k != key ensures ListOk(st.rules[k], k, st.mask, max) {
      assert ListOk(st.rules[k], k, st.mask, st.maxPriority);
    }
  }

  /** A rule that may enter the subtable: it has the subtable's mask, no bits
      outside it, and is not there yet. */
  ghost predicate MayEnter(cfg: Config, st: Subtable, m: Match)
  {
    && |st.mask| == cfg.n == |m.rule.flow| && m.rule.mask == st.mask && And(m.rule.flow, st.mask) == m.rule.flow
    && forall d | d in Matches(st) :: d.rule != m.rule
  }

  lemma NotInLists(st: Subtable, m: Match, key: Bits)
    requires key in st.rules && forall d | d in Matches(st) :: d.rule != m.rule
    ensures forall d | d in st.rules[key] :: d.rule != m.rule
  {
    forall d | d in st.rules[key] ensures d.rule != m.rule {
      assert d in Matches(st);
    }
  }

  /** Maximum priority and count after a rule of priority `pri` was added. */
  function Raised(st: Subtable, pri: int): (r: (int, nat))
  {
    if st.rules == map[] || pri > st.maxPriority then (pri, 1)
    else if pri == st.maxPriority then (pri, st.maxCount + 1)
    else (st.maxPriority, st.maxCount)
  }

  lemma CountAfterAdd(st: Subtable, st': Subtable, m: Match)
    requires st.rules != map[] ==> CountOk(st)
    requires m !in Matches(st) && Matches(st') == Matches(st) + {m}
    requires (st'.maxPriority, st'.maxCount) == Raised(st, m.Priority())
    ensures CountOk(st')
  {
    var pri := st'.maxPriority;
    assert AtPriority(st', pri) == AtPriority(st, pri) + if m.Priority() == pri then {m} else {};
  }

  /** A list of equal rules changes and the set of keys does not. */
  lemma ListChange(cfg: Config, st: Subtable, key: Bits, list: seq<Match>, max: int, count: nat)
    requires SubInv(cfg, st) && key in st.rules && st.maxPriority <= max
    requires ListOk(list, key, st.mask, max) && Distinct(list)
    ensures var st' := st.(rules := st.rules[key := list], maxPriority := max, maxCount := count);
            && SubInv(cfg, st') && st'.rules.Keys == st.rules.Keys
            && Matches(st') == Matches(st) - Elems(st.rules[key]) + Elems(list)
            && Elems(st.rules[key]) <= Matches(st)
  {
    var st' := st.(rules := st.rules[key := list], maxPriority := max, maxCount := count);
    RulesOkWith(cfg, st, key, list, max);
    MatchesWith(cfg, st, key, list);
    assert st'.rules.Keys == st.rules.Keys;
    assert Matches(st') == Matches(st.(rules := st.rules[key := list]));
  }

  lemma PutListOk(list: seq<Match>, m: Match, key: Bits, mask: Bits, max: int, max': int)
    requires ListOk(list, key, mask, max) && max <= max' && m.Priority() <= max'
    requires m.rule.flow == key && m.rule.mask == mask
    requires Distinct(list) && forall d | d in list :: d.rule != m.rule
    ensures ListOk(Put(list, m), key, mask, max') && Distinct(Put(list, m))
    ensures var i := Position(list, m.Priority());
            Elems(Put(list, m)) ==
            if Replaces(list, m.Priority()) then Elems(list) - {list[i]} + {m} else Elems(list) + {m}
  {
    var r := Put(list, m);
    if Replaces(list, m.Priority()) {
      PutReplaces(list, m);
    } else {
      PutInserts(list, m);
    }
    forall d | d in r ensures d.rule.flow == key && d.rule.mask == mask && d.Priority() <= max' {
      assert d in Elems(r);
    }
  }

  lemma KeyAdded(cfg: Config, st: Subtable, st': Subtable, m: Match)
    requires SubInv(cfg, st) && MayEnter(cfg, st, m) && m.rule.flow !in st.rules
    requires st' == st.(rules := st.rules[m.rule.flow := [m]], portsTrie := st'.portsTrie, indices := st'.indices,
                        maxPriority := st'.maxPriority, maxCount := st'.maxCount)
    requires (st.rules == map[] || st.maxPriority <= st'.maxPriority) && m.Priority() <= st'.maxPriority
    requires PortsExact(cfg, st.portsLen, st'.portsTrie, st.rules.Keys + {m.rule.flow})
    requires IndexExact(cfg, st.mask, st.stages, st'.indices, st.rules.Keys + {m.rule.flow})
    ensures SubInv(cfg, st') && Matches(st') == Matches(st) + {m} && st'.rules.Keys == st.rules.Keys + {m.rule.flow}
  {
    var key := m.rule.flow;
    RulesOkWith(cfg, st, key, [m], st'.maxPriority);
    MatchesWith(cfg, st, key, [m]);
    assert Elems([m]) == {m};
    assert Matches(st') == Matches(st.(rules := st.rules[key := [m]]));
    assert st'.rules.Keys == st.rules.Keys + {key};
  }

  /** A key met for the first time goes into every index. */
  method AddKey(cfg: Config, st: Subtable, m: Match) returns (st': Subtable)
    requires SubInv(cfg, st) && MayEnter(cfg, st, m) && m.rule.flow !in st.rules
    requires st.rules != map[] ==> CountOk(st)
    ensures SubInv(cfg, st') && CountOk(st') && Matches(st') == Matches(st) + {m}
    ensures st'.mask == st.mask && st'.triePlen == st.triePlen && st'.rules.Keys == st.rules.Keys + {m.rule.flow}
  {
    var key := m.rule.flow;
    var ports := IncPorts(cfg, st.portsLen, st.portsTrie, key, st.rules.Keys);
    var indices := IncIndices(cfg, st.mask, st.stages, st.indices, key, st.rules.Keys);
    var raised := Raised(st, m.Priority());
    st' := st.(rules := st.rules[key := [m]], portsTrie := ports, indices := indices,
               maxPriority := raised.0, maxCount := raised.1);
    KeyAdded(cfg, st, st', m);
    CountAfterAdd(st, st', m);
  }

  /** A rule joins the list of its equals. */
  method AddToList(cfg: Config, st: Subtable, m: Match) returns (st': Subtable)
    requires SubInv(cfg, st) && MayEnter(cfg, st, m) && m.rule.flow in st.rules && CountOk(st)
    requires !Replaces(st.rules[m.rule.flow], m.Priority())
    ensures SubInv(cfg, st') && CountOk(st') && Matches(st') == Matches(st) + {m}
    ensures st'.mask == st.mask && st'.triePlen == st.triePlen && st'.rules.Keys == st.rules.Keys
  {
    var key := m.rule.flow;
    var raised := Raised(st, m.Priority());
    st' := st.(rules := st.rules[key := Put(st.rules[key], m)], maxPriority := raised.0, maxCount := raised.1);
    NotInLists(st, m, key);
    PutListOk(st.rules[key], m, key, st.mask, st.maxPriority, raised.0);
    ListChange(cfg, st, key, Put(st.rules[key], m), raised.0, raised.1);
    CountAfterAdd(st, st', m);
  }

  /** A rule takes the place of an equal rule of the same priority. */
  method ReplaceInList(cfg: Config, st: Subtable, m: Match) returns (st': Subtable, was: Match)
    requires SubInv(cfg, st) && MayEnter(cfg, st, m) && m.rule.flow in st.rules && CountOk(st)
    requires Replaces(st.rules[m.rule.flow], m.Priority())
    ensures SubInv(cfg, st') && CountOk(st') && Matches(st') == Matches(st) - {was} + {m}
    ensures st'.mask == st.mask && st'.triePlen == st.triePlen && st'.rules.Keys == st.rules.Keys
    ensures st'.maxPriority == st.maxPriority
    ensures was in Matches(st) && was.rule.mask == st.mask && was.rule.flow == m.rule.flow
    ensures was.Priority() == m.Priority()
    ensures !EventuallyInvisible(was)
  {
    var key := m.rule.flow;
    var i := Position(st.rules[key], m.Priority());
    was := st.rules[key][i];
    st' := st.(rules := st.rules[key := st.rules[key][i := m]]);
    FiledInList(cfg, st, key, was);
    NotInLists(st, m, key);
    PutListOk(st.rules[key], m, key, st.mask, st.maxPriority, st.maxPriority);
    ListChange(cfg, st, key, Put(st.rules[key], m), st.maxPriority, st.maxCount);
    CountAfterReplace(st, st', was, m);
  }

  lemma CountAfterReplace(st: Subtable, st': Subtable, was: Match, m: Match)
    requires CountOk(st) && was in Matches(st) && m !in Matches(st) && was.Priority() == m.Priority()
    requires Matches(st') == Matches(st) - {was} + {m}
    requires st'.maxPriority == st.maxPriority && st'.maxCount == st.maxCount
    ensures CountOk(st')
  {
    var pri := st.maxPriority;
    if m.Priority() == pri {
      assert AtPriority(st', pri) == AtPriority(st, pri) - {was} + {m};
    } else {
      assert AtPriority(st', pri) == AtPriority(st, pri);
    }
  }

  // ------------------------------------------------------ a rule is taken out

  ghost predicate HeadsList(st: Subtable, m: Match)
  {
    m.rule.flow in st.rules && st.rules[m.rule.flow] != [] && st.rules[m.rule.flow][0] == m
  }

  /** The rules of the priority that are first in their lists. */
  ghost function HeadsAt(st: Subtable, pri: int): set<Match>
  {
    set m | m in AtPriority(st, pri) && HeadsList(st, m)
  }

  /** All heads but those of the keys in `rest` have been counted: `max` is their
      highest priority and `heads` are the `count` heads that have it. */
  ghost predicate Counted(st: Subtable, rest: set<Bits>, heads: set<Match>, max: int, count: nat)
  {
    && (forall key | key in st.rules && key !in rest :: st.rules[key] != [] && st.rules[key][0].Priority() <= max)
    && count == |heads| && heads <= AtPriority(st, max)
    && (forall m | m in heads :: m.rule.flow !in rest && HeadsList(st, m))
    && (forall key | key in st.rules && key !in rest && st.rules[key][0].Priority() == max :: st.rules[key][0] in heads)
    && max >= INT_MIN && (max > INT_MIN ==> count > 0)
    && (count == 0 ==> rest == st.rules.Keys)
  }

  lemma CountHead(cfg: Config, st: Subtable, rest: set<Bits>, heads: set<Match>, max: int, count: nat, key: Bits)
    requires RulesOk(cfg, st) && rest <= st.rules.Keys && key in rest && Counted(st, rest, heads, max, count)
    ensures st.rules[key] != []
    ensures var head := st.rules[key][0];
            if head.Priority() > max then Counted(st, rest - {key}, {head}, head.Priority(), 1)
            else if head.Priority() == max then Counted(st, rest - {key}, heads + {head}, max, count + 1)
            else Counted(st, rest - {key}, heads, max, count)
  {
    assert ListOk(st.rules[key], key, st.mask, st.maxPriority);
    var head := st.rules[key][0];
    FiledInList(cfg, st, key, head);
    hide RulesOk, ListOk, Matches, Counted;
    CountOne(st, rest, heads, max, count, key);
  }

  lemma CountOne(st: Subtable, rest: set<Bits>, heads: set<Match>, max: int, count: nat, key: Bits)
    requires Counted(st, rest, heads, max, count) && key in rest && key in st.rules && st.rules[key] != []
    requires st.rules[key][0] in Matches(st) && st.rules[key][0].rule.flow == key
    ensures var head := st.rules[key][0];
            if head.Priority() > max then Counted(st, rest - {key}, {head}, head.Priority(), 1)
            else if head.Priority() == max then Counted(st, rest - {key}, heads + {head}, max, count + 1)
            else Counted(st, rest - {key}, heads, max, count)
  {
    hide Matches;
    var head := st.rules[key][0];
    assert HeadsList(st, head) && head !in heads;
  }

  lemma CountDone(cfg: Config, st: Subtable, heads: set<Match>, max: int, count: nat)
    requires RulesOk(cfg, st) && Counted(st, {}, heads, max, count) && st.rules != map[]
    ensures forall m | m in Matches(st) :: m.Priority() <= max
    ensures 1 <= count <= |AtPriority(st, max)| && count == |HeadsAt(st, max)|
  {
    forall m | m in Matches(st) ensures m.Priority() <= max {
      FiledUnderKey(cfg, st, m);
      assert ListOk(st.rules[m.rule.flow], m.rule.flow, st.mask, st.maxPriority);
    }
    assert AtPriority(st, max) == heads + (AtPriority(st, max) - heads);
    HeadsCounted(st, heads, max, count);
  }

  lemma HeadsCounted(st: Subtable, heads: set<Match>, max: int, count: nat)
    requires Counted(st, {}, heads, max, count)
    ensures HeadsAt(st, max) == heads
  {
    hide Matches;
    forall m | m in HeadsAt(st, max) ensures m in heads {
      assert st.rules[m.rule.flow][0] == m;
    }
  }

  /** Finds the highest priority among the heads and how many have it. */
  method Recount(cfg: Config, st: Subtable) returns (max: int, count: nat)
    requires RulesOk(cfg, st) && st.rules != map[]
    ensures forall m | m in Matches(st) :: m.Priority() <= max
    ensures 1 <= count <= |AtPriority(st, max)| && count == |HeadsAt(st, max)|
  {
    max, count := INT_MIN, 0;
    var rest := st.rules.Keys;
    ghost var heads: set<Match> := {};
    while rest != {}
      invariant rest <= st.rules.Keys && Counted(st, rest, heads, max, count)
      decreases rest
    {
      var key :| key in rest;
      CountHead(cfg, st, rest, heads, max, count, key);
      var head := st.rules[key][0];
      rest := rest - {key};
      if head.Priority() > max {
        max, count := head.Priority(), 1;
        heads := {head};
      } else if head.Priority() == max {
        count := count + 1;
        heads := heads + {head};
      }
    }
    CountDone(cfg, st, heads, max, count);
  }

  /** The subtable without the rule at position `i` of the list for `key`; only
      the maximum priority and its count remain to be put right. */
  method TakeOut(cfg: Config, st: Subtable, key: Bits, i: nat) returns (st': Subtable)
    requires SubInv(cfg, st) && key in st.rules && i < |st.rules[key]|
    ensures SubInv(cfg, st') && Matches(st') == Matches(st) - {st.rules[key][i]}
    ensures var m := st.rules[key][i]; m in Matches(st) && m.rule.mask == st.mask && m.rule.flow == key
    ensures st'.mask == st.mask && st'.triePlen == st.triePlen && st'.maxPriority == st.maxPriority
    ensures st'.maxCount == st.maxCount
    ensures st'.rules.Keys == if |st.rules[key]| == 1 then st.rules.Keys - {key} else st.rules.Keys
  {
    var list := st.rules[key];
    FiledInList(cfg, st, key, list[i]);
    if |list| > 1 {
      st' := st.(rules := st.rules[key := Cut(list, i)]);
      ListCut(cfg, st, key, i);
    } else {
      var ports := DecPorts(cfg, st.portsLen, st.portsTrie, key, st.rules.Keys);
      var indices := DecIndices(cfg, st.mask, st.stages, st.indices, key, st.rules.Keys);
      st' := st.(rules := st.rules - {key}, portsTrie := ports, indices := indices);
      KeyDropped(cfg, st, st', key);
    }
  }

  lemma ListCut(cfg: Config, st: Subtable, key: Bits, i: nat)
    requires SubInv(cfg, st) && key in st.rules && i < |st.rules[key]| && |st.rules[key]| > 1
    ensures var st' := st.(rules := st.rules[key := Cut(st.rules[key], i)]);
            && SubInv(cfg, st') && st'.rules.Keys == st.rules.Keys
            && Matches(st') == Matches(st) - {st.rules[key][i]}
  {
    var list := st.rules[key];
    assert ListOk(list, key, st.mask, st.maxPriority);
    CutRemoves(list, i);
    assert forall d | d in Cut(list, i) :: d in Elems(Cut(list, i));
    ListChange(cfg, st, key, Cut(list, i), st.maxPriority, st.maxCount);
    assert Matches(st) - Elems(list) + Elems(Cut(list, i)) == Matches(st) - {list[i]};
  }

  lemma KeyDropped(cfg: Config, st: Subtable, st': Subtable, key: Bits)
    requires SubInv(cfg, st) && key in st.rules && |st.rules[key]| == 1
    requires st' == st.(rules := st.rules - {key}, portsTrie := st'.portsTrie, indices := st'.indices)
    requires PortsExact(cfg, st.portsLen, st'.portsTrie, st.rules.Keys - {key})
    requires IndexExact(cfg, st.mask, st.stages, st'.indices, st.rules.Keys - {key})
    ensures SubInv(cfg, st') && Matches(st') == Matches(st) - {st.rules[key][0]}
    ensures st'.rules.Keys == st.rules.Keys - {key}
  {
    assert st'.rules.Keys == st.rules.Keys - {key};
    assert forall k | k in st'.rules :: st'.rules[k] == st.rules[k];
    FiledInList(cfg, st, key, st.rules[key][0]);
    forall m | m in Matches(st) && m != st.rules[key][0] ensures m in Matches(st') {
      FiledUnderKey(cfg, st, m);
      assert m.rule.flow in st'.rules;
    }
    forall m | m in Matches(st') ensures m in Matches(st) && m != st.rules[key][0] {
      var k :| k in st'.rules && m in st'.rules[k];
      FiledInList(cfg, st, k, m);
    }
  }

  /** Puts maximum priority and count right after a rule of priority `pri` left. */
  method Lowered(cfg: Config, st: Subtable, pri: int, ghost before: Subtable, ghost m: Match) returns (st': Subtable)
    requires SubInv(cfg, st) && st.rules != map[]
    requires CountOk(before) && m in Matches(before) && m.Priority() == pri && Matches(st) == Matches(before) - {m}
    requires before.maxPriority == st.maxPriority && before.maxCount == st.maxCount
    ensures SubInv(cfg, st') && CountOk(st') && Matches(st') == Matches(st)
    ensures st'.mask == st.mask && st'.triePlen == st.triePlen && st'.rules.Keys == st.rules.Keys
  {
    st' := st;
    if st.maxPriority == pri {
      assert AtPriority(before, pri) == AtPriority(st, pri) + {m};
      if st.maxCount == 1 {
        var max, count := Recount(cfg, st);
        st' := st.(maxPriority := max, maxCount := count);
        Relabel(cfg, st, max, count);
      } else {
        st' := st.(maxCount := st.maxCount - 1);
        assert AtPriority(st', pri) == AtPriority(st, pri);
      }
    } else {
      assert AtPriority(st, st.maxPriority) == AtPriority(before, st.maxPriority);
    }
  }

  lemma Relabel(cfg: Config, st: Subtable, max: int, count: nat)
    requires SubInv(cfg, st) && forall m | m in Matches(st) :: m.Priority() <= max
    ensures var st' := st.(maxPriority := max, maxCount := count);
            SubInv(cfg, st') && Matches(st') == Matches(st) && AtPriority(st', max) == AtPriority(st, max)
  {
    forall key | key in st.rules ensures ListOk(st.rules[key], key, st.mask, max) {
      assert ListOk(st.rules[key], key, st.mask, st.maxPriority);
      forall m | m in st.rules[key] ensures m.Priority() <= max {
        assert m in Matches(st);
      }
    }
  }

  /** The record at position `i` of a list gives way to one for the same rule. */
  method Retouch(cfg: Config, st: Subtable, key: Bits, i: nat, m: Match) returns (st': Subtable)
    requires SubInv(cfg, st) && CountOk(st) && key in st.rules && i < |st.rules[key]| && m.rule == st.rules[key][i].rule
    ensures SubInv(cfg, st') && CountOk(st') && Matches(st') == Matches(st) - {st.rules[key][i]} + {m}
    ensures st'.mask == st.mask && st'.triePlen == st.triePlen && st'.rules.Keys == st.rules.Keys
    ensures var was := st.rules[key][i]; was in Matches(st) && was.rule.mask == st.mask
    ensures m == st.rules[key][i] || m !in Matches(st)
  {
    st' := st.(rules := st.rules[key := st.rules[key][i := m]]);
    FiledInList(cfg, st, key, st.rules[key][i]);
    RuleOnce(cfg, st, key, i, m);
    Retouched(cfg, st, key, i, m);
    CountTouched(st, st', st.rules[key][i], m);
  }

  lemma Retouched(cfg: Config, st: Subtable, key: Bits, i: nat, m: Match)
    requires SubInv(cfg, st) && key in st.rules && i < |st.rules[key]| && m.rule == st.rules[key][i].rule
    requires m == st.rules[key][i] || m !in Matches(st)
    ensures var st' := st.(rules := st.rules[key := st.rules[key][i := m]]);
            && SubInv(cfg, st') && st'.rules.Keys == st.rules.Keys
            && Matches(st') == Matches(st) - {st.rules[key][i]} + {m}
  {
    var list := st.rules[key];
    assert ListOk(list, key, st.mask, st.maxPriority);
    RetouchList(list, i, m, key, st.mask, st.maxPriority);
    ListChange(cfg, st, key, list[i := m], st.maxPriority, st.maxCount);
    assert Matches(st) - Elems(list) + Elems(list[i := m]) == Matches(st) - {list[i]} + {m};
  }

  lemma CountTouched(st: Subtable, st': Subtable, was: Match, m: Match)
    requires CountOk(st) && was in Matches(st) && m.rule == was.rule && (m == was || m !in Matches(st))
    requires Matches(st') == Matches(st) - {was} + {m}
    requires st'.maxPriority == st.maxPriority && st'.maxCount == st.maxCount
    ensures CountOk(st')
  {
    if m != was {
      CountAfterReplace(st, st', was, m);
    } else {
      assert AtPriority(st', st.maxPriority) == AtPriority(st, st.maxPriority);
    }
  }

  lemma RetouchList(list: seq<Match>, i: nat, m: Match, key: Bits, mask: Bits, max: int)
    requires ListOk(list, key, mask, max) && Distinct(list) && i < |list| && m.rule == list[i].rule
    ensures var r := list[i := m]; ListOk(r, key, mask, max) && Distinct(r) && Elems(r) == Elems(list) - {list[i]} + {m}
  {
    var r := list[i := m];
    assert r[i] == m;
    forall d | d in list && d != list[i] ensures d in r {
      var k :| 0 <= k < |list| && list[k] == d;
      assert r[k] == d;
    }
  }

  /** A rule has one record. */
  lemma RuleOnce(cfg: Config, st: Subtable, key: Bits, i: nat, m: Match)
    requires SubInv(cfg, st) && key in st.rules && i < |st.rules[key]| && m.rule == st.rules[key][i].rule
    ensures m == st.rules[key][i] || m !in Matches(st)
  {
    FiledInList(cfg, st, key, st.rules[key][i]);
    if m in Matches(st) {
      FiledUnderKey(cfg, st, m);
      var k :| 0 <= k < |st.rules[key]| && st.rules[key][k] == m;
    }
  }
}

/** What the lookup returns, against a plain search of all rules. */
module LookupMeaning {
  import opened Bits
  import opened Flows
  import opened ClassifierModel
  import opened Conjunctions
  import opened SoftMatches
  import opened Options

  /** `m` is somewhere in the classifier. */
  ghost predicate Holds(t: Tables, m: Match)
  {
    exists st: Subtable, key | st in t.subtables && key in st.rules :: m in st.rules[key]
  }

  /** `m` is visible and matches the flow, by the plain comparison of headers. */
  predicate Fits(m: Match, flow: Bits, version: nat)
  {
    |m.rule.mask| == |flow| && And(flow, m.rule.mask) == m.rule.flow && m.Visible(version)
  }

  ghost predicate Hit(t: Tables, m: Match, flow: Bits, version: nat)
  {
    Holds(t, m) && Fits(m, flow, version)
  }

  /** `r` is as good as any visible matching rule outside conjunctions whose
      priority is more than the lowest. */
  ghost predicate BestHard(t: Tables, flow: Bits, version: nat, r: Option<Match>)
  {
    && (r.Some? ==> Hit(t, r.value, flow, version) && r.value.conj == [] && r.value.Priority() > INT_MIN)
    && forall m: Match | Hit(t, m, flow, version) && m.conj == [] :: m.Priority() <= Pri(r)
  }

  /** Some visible matching rule of priority `pri` is in clause `k` of `id`. */
  ghost predicate ClauseHit(t: Tables, flow: Bits, version: nat, pri: int, id: nat, k: nat)
  {
    exists m: Match, c: Conj | c in m.conj ::
      Hit(t, m, flow, version) && m.Priority() == pri && c.id == id && c.clause == k
  }

  /** Conjunction `id`, of `n` clauses, is satisfied by rules of one priority. */
  ghost predicate Satisfied(t: Tables, flow: Bits, version: nat, pri: int, id: nat, n: nat)
  {
    forall k: nat | k < n :: ClauseHit(t, flow, version, pri, id, k)
  }

  // -------------------------------------------------------- what the loops keep

  /** A list of soft matches: rules of one key that matches, best first. */
  ghost predicate GoodList(t: Tables, flow: Bits, version: nat, l: seq<Match>)
  {
    && Sorted(l)
    && (forall m | m in l :: m.rule.mask == l[0].rule.mask)
    && (l != [] ==> l[0].Visible(version) && l[0].conj != [])
    && forall m | m in l && m.Visible(version) :: Hit(t, m, flow, version)
  }

  /** `m` cannot beat the hard match, or is still in a list of soft matches. */
  ghost predicate Accounted(s: Scan, m: Match)
  {
    m.Priority() <= Pri(s.hard) || exists j | 0 <= j < |s.soft| :: m in s.soft[j]
  }

  ghost predicate GoodScan(t: Tables, flow: Bits, version: nat, s: Scan)
  {
    && (s.hard.Some? ==>
          Hit(t, s.hard.value, flow, version) && s.hard.value.conj == [] && s.hard.value.Priority() > INT_MIN)
    && forall j | 0 <= j < |s.soft| :: GoodList(t, flow, version, s.soft[j])
  }

  /** Above every priority. */
  const TOP: int := 0x8000_0000

  /** The rules still to be reckoned with once the conjunctions of priority
      `bound` and more have been tried. */
  predicate Wanted(m: Match, bound: int)
  {
    m.conj == [] || m.Priority() < bound
  }

  ghost predicate AllAccounted(t: Tables, flow: Bits, version: nat, s: Scan, bound: int)
  {
    forall m: Match | Hit(t, m, flow, version) && Wanted(m, bound) :: Accounted(s, m)
  }

  /** The subtables before `i` have been dealt with. */
  ghost predicate AccountedUpTo(t: Tables, i: nat, flow: Bits, version: nat, s: Scan)
    requires i <= |t.subtables|
  {
    forall j, key, m | 0 <= j < i && key in t.subtables[j].rules && m in t.subtables[j].rules[key] ::
      Fits(m, flow, version) ==> Accounted(s, m)
  }

  // ------------------------------------------------------------- the main loop

  /** Skipping invisible rules keeps the order and every visible rule. */
  lemma {:induction false} FromVisibleKeeps(list: seq<Match>, version: nat)
    requires Sorted(list)
    ensures var r := FromVisible(list, version);
            && Sorted(r)
            && (forall m | m in r :: m in list && m.Priority() <= r[0].Priority())
            && (forall m | m in list && m.Visible(version) :: m in r)
  {
    if list != [] && !list[0].Visible(version) {
      FromVisibleKeeps(list[1..], version);
      assert list == [list[0]] + list[1..];
    }
  }

  /** What a subtable offers: all its rules that fit, best first. */
  lemma CandidatesFit(cfg: Config, st: Subtable, flow: Bits, version: nat)
    requires RulesOk(cfg, st) && |flow| == cfg.n
    ensures var cand := Candidates(st, flow, version);
            && Sorted(cand)
            && (forall m | m in cand :: m.Priority() <= cand[0].Priority())
            && (forall m | m in cand && m.Visible(version) :: Fits(m, flow, version))
            && (forall m | m in cand :: m.rule.mask == st.mask)
            && (forall m | m in cand :: exists key | key in st.rules :: m in st.rules[key])
            && (forall key, m | key in st.rules && m in st.rules[key] && Fits(m, flow, version) :: m in cand)
  {
    var key := And(flow, st.mask);
    if key in st.rules {
      assert ListOk(st.rules[key], key, st.mask, st.maxPriority);
      FromVisibleKeeps(st.rules[key], version);
    }
    forall key', m | key' in st.rules && m in st.rules[key'] && Fits(m, flow, version)
      ensures m in Candidates(st, flow, version)
    {
      assert ListOk(st.rules[key'], key', st.mask, st.maxPriority);
      assert key' == key;
    }
  }

  lemma CandidatesGood(t: Tables, j: nat, flow: Bits, version: nat)
    requires Published(t) && j < |t.subtables| && |flow| == t.cfg.n
    ensures |t.subtables[j].mask| == |flow|
    ensures forall m | m in Candidates(t.subtables[j], flow, version) && m.Visible(version) :: Hit(t, m, flow, version)
  {
    var st := t.subtables[j];
    assert SubtableOk(t.cfg, t.tries, st);
    CandidatesFit(t.cfg, st, flow, version);
  }

  lemma StillAccounted(s: Scan, s': Scan, m: Match)
    requires Accounted(s, m) && Pri(s.hard) <= Pri(s'.hard) && s.soft <= s'.soft
    ensures Accounted(s', m)
  {
    if m.Priority() > Pri(s.hard) {
      var j :| 0 <= j < |s.soft| && m in s.soft[j];
      assert s'.soft[j] == s.soft[j];
    }
  }

  /** After its step, a list whose rules come best first is accounted for. */
  lemma StepAccounts(s: Scan, cand: seq<Match>, m: Match)
    requires m in cand && m.Priority() <= cand[0].Priority()
    ensures Accounted(Step(s, cand, true), m)
  {
    var s' := Step(s, cand, true);
    if s'.soft != s.soft {
      assert s'.soft[|s.soft|] == cand;
    }
  }

  lemma StepGood(t: Tables, j: nat, s: Scan, flow: Bits, version: nat)
    requires Published(t) && j < |t.subtables| && |flow| == t.cfg.n == |t.subtables[j].mask|
    requires GoodScan(t, flow, version, s) && AccountedUpTo(t, j, flow, version, s)
    ensures var s' := Step(s, Candidates(t.subtables[j], flow, version), true);
            GoodScan(t, flow, version, s') && AccountedUpTo(t, j + 1, flow, version, s')
  {
    hide GoodScan, Published, Fits, Accounted;
    StepScan(t, j, s, flow, version);
    var st := t.subtables[j];
    var cand := Candidates(st, flow, version);
    CandidatesOf(t, j, flow, version);
    var s' := Step(s, cand, true);
    forall i, key, m | 0 <= i < j + 1 && key in t.subtables[i].rules && m in t.subtables[i].rules[key] &&
                       Fits(m, flow, version)
      ensures Accounted(s', m)
    {
      if i < j {
        StillAccounted(s, s', m);
      } else {
        StepAccounts(s, cand, m);
      }
    }
  }

  lemma StepScan(t: Tables, j: nat, s: Scan, flow: Bits, version: nat)
    requires Published(t) && j < |t.subtables| && |flow| == t.cfg.n == |t.subtables[j].mask|
    requires GoodScan(t, flow, version, s)
    ensures GoodScan(t, flow, version, Step(s, Candidates(t.subtables[j], flow, version), true))
  {
    var cand := Candidates(t.subtables[j], flow, version);
    CandidatesGood(t, j, flow, version);
    CandidatesOf(t, j, flow, version);
    if cand != [] && cand[0].conj != [] {
      assert GoodList(t, flow, version, cand);
    }
  }

  lemma CandidatesOf(t: Tables, j: nat, flow: Bits, version: nat)
    requires Published(t) && j < |t.subtables| && |flow| == t.cfg.n == |t.subtables[j].mask|
    ensures var st := t.subtables[j];
            var cand := Candidates(st, flow, version);
            && Sorted(cand) && (cand != [] ==> cand[0].Visible(version))
            && (forall m | m in cand :: m.Priority() <= cand[0].Priority() && m.rule.mask == st.mask)
            && (forall key, m | key in st.rules && m in st.rules[key] && Fits(m, flow, version) :: m in cand)
  {
    assert SubtableOk(t.cfg, t.tries, t.subtables[j]);
    CandidatesFit(t.cfg, t.subtables[j], flow, version);
  }

  /** Where the priority cut-off ends the loop, nothing after it can matter. */
  lemma RestIsLower(t: Tables, i: nat, s: Scan, flow: Bits, version: nat)
    requires Published(t) && i <= |t.subtables|
    requires AccountedUpTo(t, i, flow, version, s)
    requires i == |t.subtables| || t.subtables[i].maxPriority <= Pri(s.hard)
    ensures AllAccounted(t, flow, version, s, TOP)
  {
    forall m | Hit(t, m, flow, version) ensures Accounted(s, m) {
      var j, key := Whereabouts(t, m);
      if i <= j {
        SubtableBounds(t, i, j, key, m);
      }
    }
  }

  lemma Whereabouts(t: Tables, m: Match) returns (j: nat, key: Bits)
    requires Holds(t, m)
    ensures j < |t.subtables| && key in t.subtables[j].rules && m in t.subtables[j].rules[key]
  {
    var st: Subtable, k :| st in t.subtables && k in st.rules && m in st.rules[k];
    j :| 0 <= j < |t.subtables| && t.subtables[j] == st;
    key := k;
  }

  lemma SubtableBounds(t: Tables, i: nat, j: nat, key: Bits, m: Match)
    requires Published(t) && i <= j < |t.subtables|
    requires key in t.subtables[j].rules && m in t.subtables[j].rules[key]
    ensures m.Priority() <= t.subtables[i].maxPriority
  {
    hide StagesOk, TriesOk, PortsOk, And, Sorted;
    var st := t.subtables[j];
    assert SubtableOk(t.cfg, t.tries, st);
    assert ListOk(st.rules[key], key, st.mask, st.maxPriority);
  }

  lemma {:induction false} ScanGood(t: Tables, i: nat, s: Scan, flow: Bits, version: nat)
    requires Published(t) && i <= |t.subtables| && |flow| == t.cfg.n
    requires GoodScan(t, flow, version, s) && AccountedUpTo(t, i, flow, version, s)
    ensures var r := ScanFrom(t, i, s, flow, version, true);
            GoodScan(t, flow, version, r) && AllAccounted(t, flow, version, r, TOP)
    decreases |t.subtables| - i
  {
    if i == |t.subtables| || t.subtables[i].maxPriority <= Pri(s.hard) {
      RestIsLower(t, i, s, flow, version);
    } else {
      CandidatesGood(t, i, flow, version);
      StepGood(t, i, s, flow, version);
      ScanGood(t, i + 1, Step(s, Candidates(t.subtables[i], flow, version), true), flow, version);
    }
  }

  // --------------------------------------------------------- the soft-match loop

  lemma PurgeGood(t: Tables, flow: Bits, version: nat, s: Scan, bound: int)
    requires GoodScan(t, flow, version, s) && AllAccounted(t, flow, version, s, bound)
    ensures var s' := Scan(s.hard, Purge(s.soft, 0, Pri(s.hard)));
            GoodScan(t, flow, version, s') && AllAccounted(t, flow, version, s', bound)
  {
    var s' := Scan(s.hard, Purge(s.soft, 0, Pri(s.hard)));
    forall m: Match | Hit(t, m, flow, version) && Wanted(m, bound) ensures Accounted(s', m) {
      assert Accounted(s, m);
      if m.Priority() > Pri(s.hard) {
        var j :| 0 <= j < |s.soft| && m in s.soft[j];
        assert Sorted(s.soft[j]) && s.soft[j][0].Priority() >= m.Priority();
        assert Above(s.soft[j], Pri(s.hard));
        assert s.soft[j] in s'.soft;
      }
    }
  }

  /** The effect on one list of dropping it to its next visible rule. */
  function DropOne(s: Scan, i: nat, version: nat): Scan
    requires i < |s.soft| && s.soft[i] != []
  {
    var next := FromVisible(s.soft[i][1..], version);
    var isHard := next != [] && next[0].conj == [];
    Scan(if isHard && Above(next, Pri(s.hard)) then Some(next[0]) else s.hard,
         s.soft[i := if isHard then [] else next])
  }

  lemma DropOneList(t: Tables, flow: Bits, version: nat, l: seq<Match>)
    requires l != [] && GoodList(t, flow, version, l)
    ensures var next := FromVisible(l[1..], version);
            && Sorted(next)
            && (forall m | m in next :: m in l && m.Priority() <= next[0].Priority())
            && (forall m | m in l && m.Visible(version) && Wanted(m, l[0].Priority()) :: m in next)
            && (next != [] && next[0].conj != [] ==> GoodList(t, flow, version, next))
            && (next != [] ==> Hit(t, next[0], flow, version))
  {
    assert forall k | 0 <= k < |l| - 1 :: l[1..][k] == l[k + 1];
    FromVisibleKeeps(l[1..], version);
    forall m | m in l && m.Visible(version) && Wanted(m, l[0].Priority()) ensures m in l[1..] {
      var k :| 0 <= k < |l| && l[k] == m;
      assert l[1..][k - 1] == m;
    }
  }

  /** A rule that is still wanted stays accounted for. */
  lemma DropOneAccounts(t: Tables, flow: Bits, version: nat, s: Scan, i: nat, m: Match)
    requires i < |s.soft| && s.soft[i] != [] && GoodList(t, flow, version, s.soft[i])
    requires Accounted(s, m) && Wanted(m, s.soft[i][0].Priority()) && m.Visible(version)
    ensures Accounted(DropOne(s, i, version), m)
  {
    var s' := DropOne(s, i, version);
    assert Pri(s'.hard) >= Pri(s.hard);
    if m.Priority() > Pri(s.hard) {
      var j :| 0 <= j < |s.soft| && m in s.soft[j];
      if j != i {
        assert s'.soft[j] == s.soft[j];
      } else {
        var l := s.soft[i];
        DropOneList(t, flow, version, l);
        var next := FromVisible(l[1..], version);
        assert m in next;
        assert s'.soft[i] == next || m.Priority() <= Pri(s'.hard);
      }
    }
  }

  lemma DropOneGood(t: Tables, flow: Bits, version: nat, s: Scan, i: nat, bound: int)
    requires i < |s.soft| && s.soft[i] != [] && bound <= s.soft[i][0].Priority()
    requires GoodScan(t, flow, version, s) && AllAccounted(t, flow, version, s, bound)
    ensures GoodScan(t, flow, version, DropOne(s, i, version))
    ensures AllAccounted(t, flow, version, DropOne(s, i, version), bound)
  {
    DropOneList(t, flow, version, s.soft[i]);
    assert GoodList(t, flow, version, DropOne(s, i, version).soft[i]);
    forall m | Hit(t, m, flow, version) && Wanted(m, bound) ensures Accounted(DropOne(s, i, version), m) {
      DropOneAccounts(t, flow, version, s, i, m);
    }
  }

  lemma DropUnfolds(s: Scan, i: nat, pri: int, version: nat)
    requires i < |s.soft| && At(s.soft[i], pri)
    ensures var s' := DropOne(s, i, version);
            Drop(s.soft, i, pri, s.hard, version) == Drop(s'.soft, i + 1, pri, s'.hard, version)
  {
  }

  lemma {:induction false} DropGood(t: Tables, flow: Bits, version: nat, s: Scan, i: nat, pri: int, bound: int)
    requires i <= |s.soft| && GoodScan(t, flow, version, s) && AllAccounted(t, flow, version, s, bound) && bound <= pri
    ensures var r := Drop(s.soft, i, pri, s.hard, version);
            && GoodScan(t, flow, version, r) && AllAccounted(t, flow, version, r, bound)
            && Pri(r.hard) >= Pri(s.hard)
    decreases |s.soft| - i
  {
    hide GoodScan, AllAccounted;
    if i < |s.soft| {
      if !At(s.soft[i], pri) {
        DropGood(t, flow, version, s, i + 1, pri, bound);
      } else {
        DropOneGood(t, flow, version, s, i, bound);
        DropUnfolds(s, i, pri, version);
        DropGood(t, flow, version, DropOne(s, i, version), i + 1, pri, bound);
      }
    }
  }

  /** The memberships of the soft matches of one priority. */
  ghost function MembersAt(soft: Soft, pri: int): set<Conj>
  {
    set l: seq<Match>, c: Conj | l in soft && At(l, pri) && c in l[0].conj :: c
  }

  /** A round looks a conjunction up only when its clauses are covered. */
  lemma {:induction false} RoundCovered(t: Tables, flow: Bits, version: nat, soft: Soft, i: nat, pri: int, n: nat,
                                        seen: Clauses) returns (c: Conj)
    requires Published(t) && |flow| == t.cfg.n && i <= |soft| && SeenOk(seen, MembersAt(soft, pri))
    requires Round(t, flow, version, soft, i, pri, n, seen).Some?
    ensures c in MembersAt(soft, pri) && AllCovered(MembersAt(soft, pri), c.id, c.nClauses % CLAUSE_BITS)
    ensures Round(t, flow, version, soft, i, pri, n, seen) == ById(t, flow, version, c.id)
    decreases |soft| - i
  {
    if !At(soft[i], pri) {
      c := RoundCovered(t, flow, version, soft, i + 1, pri, n, seen);
    } else {
      var f := FindConj(soft[i][0].conj, 0, n, seen);
      assert soft[i] in soft;
      FindConjOk(soft[i][0].conj, 0, n, seen, MembersAt(soft, pri));
      if f.id.Some? && ById(t, flow, version, f.id.value).Some? {
        c := FullIsCovered(f.seen, MembersAt(soft, pri), f.id.value);
      } else {
        c := RoundCovered(t, flow, version, soft, i + 1, pri, n, f.seen);
      }
    }
  }

  lemma CoveredSatisfied(t: Tables, flow: Bits, version: nat, s: Scan, pri: int, id: nat, n: nat)
    requires GoodScan(t, flow, version, s) && AllCovered(MembersAt(s.soft, pri), id, n)
    ensures Satisfied(t, flow, version, pri, id, n)
  {
    forall k: nat | k < n ensures ClauseHit(t, flow, version, pri, id, k) {
      assert Covered(MembersAt(s.soft, pri), id, k);
      var c :| c in MembersAt(s.soft, pri) && c.id == id && c.clause == k;
      var l: seq<Match> :| l in s.soft && At(l, pri) && c in l[0].conj;
      assert GoodList(t, flow, version, l) && l[0] in l;
      assert Hit(t, l[0], flow, version);
    }
  }

  /** How a lookup ended. */
  datatype Reason = Hard | ByConjunction(pri: int, c: Conj)

  /** The result is the best hard match, or it is the rule of a conjunction all
      of whose clauses are covered by visible rules of one priority, at least
      that of every visible matching rule outside conjunctions. */
  ghost predicate Explained(t: Tables, flow: Bits, version: nat, r: Option<Match>, why: Reason)
    requires Published(t) && |flow| == t.cfg.n
  {
    match why
    case Hard => BestHard(t, flow, version, r)
    case ByConjunction(pri, c) =>
      && r.Some? && r == ById(t, flow, version, c.id) && RuleOf(t, flow, version, c.id, r)
      && Satisfied(t, flow, version, pri, c.id, c.nClauses % CLAUSE_BITS)
      && (exists m: Match :: Hit(t, m, flow, version) && m.Priority() == pri && c in m.conj)
      && forall m: Match | Hit(t, m, flow, version) && m.conj == [] :: m.Priority() <= pri
  }

  /** What a satisfied round means. */
  lemma RoundExplained(t: Tables, flow: Bits, version: nat, s: Scan, bound: int, pri: int, c: Conj)
    requires Published(t) && |flow| == t.cfg.n
    requires GoodScan(t, flow, version, s) && AllAccounted(t, flow, version, s, bound) && TopPriority(s, pri)
    requires c in MembersAt(s.soft, pri) && AllCovered(MembersAt(s.soft, pri), c.id, c.nClauses % CLAUSE_BITS)
    requires ById(t, flow, version, c.id).Some?
    ensures Explained(t, flow, version, ById(t, flow, version, c.id), ByConjunction(pri, c))
  {
    CoveredSatisfied(t, flow, version, s, pri, c.id, c.nClauses % CLAUSE_BITS);
    var m := MemberHit(t, flow, version, s, pri, c);
    ByIdMeaning(t, flow, version, c.id);
    hide Hit, Accounted, MembersAt, GoodScan, Satisfied, RuleOf;
    forall m: Match | Hit(t, m, flow, version) && m.conj == [] ensures m.Priority() <= pri {
      InListBelow(t, flow, version, s, pri, m);
    }
  }

  /** Every soft match is above the hard match, and none is above `pri`. */
  ghost predicate TopPriority(s: Scan, pri: int)
  {
    Pri(s.hard) < pri && forall j | 0 <= j < |s.soft| :: s.soft[j] != [] && s.soft[j][0].Priority() <= pri
  }

  /** A rule accounted for is not above it either. */
  lemma InListBelow(t: Tables, flow: Bits, version: nat, s: Scan, pri: int, m: Match)
    requires GoodScan(t, flow, version, s) && TopPriority(s, pri) && Accounted(s, m)
    ensures m.Priority() <= pri
  {
    if m.Priority() > Pri(s.hard) {
      var j :| 0 <= j < |s.soft| && m in s.soft[j];
      assert GoodList(t, flow, version, s.soft[j]);
    }
  }

  lemma MemberHit(t: Tables, flow: Bits, version: nat, s: Scan, pri: int, c: Conj) returns (m: Match)
    requires GoodScan(t, flow, version, s) && c in MembersAt(s.soft, pri)
    ensures Hit(t, m, flow, version) && m.Priority() == pri && c in m.conj
  {
    var l: seq<Match> :| l in s.soft && At(l, pri) && c in l[0].conj;
    assert GoodList(t, flow, version, l) && l[0] in l;
    m := l[0];
  }

  lemma LowerBound(t: Tables, flow: Bits, version: nat, s: Scan, bound: int, lower: int)
    requires AllAccounted(t, flow, version, s, bound) && lower <= bound
    ensures AllAccounted(t, flow, version, s, lower)
  {
  }

  lemma NothingLeft(t: Tables, flow: Bits, version: nat, hard: Option<Match>, bound: int)
    requires GoodScan(t, flow, version, Scan(hard, [])) && AllAccounted(t, flow, version, Scan(hard, []), bound)
    ensures BestHard(t, flow, version, hard)
  {
  }

  /** What the purge leaves has a highest priority, above the hard match. */
  lemma PurgedTop(s: Scan) returns (pri: int)
    requires Purge(s.soft, 0, Pri(s.hard)) != []
    ensures var soft := Purge(s.soft, 0, Pri(s.hard));
            && NoneEmpty(soft, 0) && pri == MaxPri(soft, 0)
            && TopPriority(Scan(s.hard, soft), pri) && exists j | 0 <= j < |soft| :: At(soft[j], pri)
  {
    var soft := Purge(s.soft, 0, Pri(s.hard));
    assert forall j | 0 <= j < |soft| :: Above(soft[j], Pri(s.hard));
    pri := MaxPri(soft, 0);
  }

  lemma {:induction false} ResolveExplained(t: Tables, flow: Bits, version: nat, s: Scan, bound: int)
    returns (why: Reason)
    requires Published(t) && |flow| == t.cfg.n
    requires GoodScan(t, flow, version, s) && AllAccounted(t, flow, version, s, bound)
    ensures Explained(t, flow, version, Resolve(t, flow, version, s), why)
    decreases Total(s.soft)
  {
    var soft := Purge(s.soft, 0, Pri(s.hard));
    PurgeGood(t, flow, version, s, bound);
    if soft == [] {
      NothingLeft(t, flow, version, s.hard, bound);
      return Hard;
    }
    var pri := PurgedTop(s);
    var n := CountAt(soft, 0, pri);
    hide GoodScan, AllAccounted, Explained, TopPriority, MembersAt, Purge, Round, CountAt;
    if Round(t, flow, version, soft, 0, pri, n, map[]).Some? {
      var c := RoundCovered(t, flow, version, soft, 0, pri, n, map[]);
      RoundExplained(t, flow, version, Scan(s.hard, soft), bound, pri, c);
      why := ByConjunction(pri, c);
    } else {
      var lower := if pri < bound then pri else bound;
      LowerBound(t, flow, version, Scan(s.hard, soft), bound, lower);
      DropGood(t, flow, version, Scan(s.hard, soft), 0, pri, lower);
      why := ResolveExplained(t, flow, version, Drop(soft, 0, pri, s.hard, version), lower);
    }
  }

  // ------------------------------------------------------- the rule of a conjunction

  /** A rule in a conjunction, with the same mask, comes before `m`. */
  ghost predicate Shadowed(t: Tables, flow: Bits, version: nat, m: Match)
  {
    exists d: Match ::
      Hit(t, d, flow, version) && d.rule.mask == m.rule.mask && d.conj != [] && d.Priority() >= m.Priority()
  }

  ghost predicate OutdoneUpTo(t: Tables, i: nat, flow: Bits, version: nat, hard: Option<Match>)
    requires i <= |t.subtables|
  {
    forall j, key, m | 0 <= j < i && key in t.subtables[j].rules && m in t.subtables[j].rules[key] ::
      Fits(m, flow, version) ==> m.Priority() <= Pri(hard) || Shadowed(t, flow, version, m)
  }

  lemma StepOutdone(t: Tables, i: nat, s: Scan, flow: Bits, version: nat)
    requires Published(t) && i < |t.subtables| && |flow| == t.cfg.n == |t.subtables[i].mask|
    requires GoodScan(t, flow, version, s) && s.soft == [] && OutdoneUpTo(t, i, flow, version, s.hard)
    ensures var s' := Step(s, Candidates(t.subtables[i], flow, version), false);
            GoodScan(t, flow, version, s') && s'.soft == [] && OutdoneUpTo(t, i + 1, flow, version, s'.hard)
  {
    var cand := Candidates(t.subtables[i], flow, version);
    hide Published, Hit, Fits, Candidates, GoodList;
    CandidatesGood(t, i, flow, version);
    CandidatesOf(t, i, flow, version);
    var s' := Step(s, cand, false);
    forall j, key, m | 0 <= j < i + 1 && key in t.subtables[j].rules && m in t.subtables[j].rules[key] &&
                       Fits(m, flow, version)
      ensures m.Priority() <= Pri(s'.hard) || Shadowed(t, flow, version, m)
    {
      if j == i {
        assert m in cand && cand[0] in cand;
      }
    }
  }

  lemma {:induction false} ScanOutdone(t: Tables, i: nat, s: Scan, flow: Bits, version: nat)
    requires Published(t) && i <= |t.subtables| && |flow| == t.cfg.n
    requires GoodScan(t, flow, version, s) && s.soft == [] && OutdoneUpTo(t, i, flow, version, s.hard)
    ensures var r := ScanFrom(t, i, s, flow, version, false);
            GoodScan(t, flow, version, r) &&
            forall m: Match | Hit(t, m, flow, version) :: m.Priority() <= Pri(r.hard) || Shadowed(t, flow, version, m)
    decreases |t.subtables| - i
  {
    if i == |t.subtables| || t.subtables[i].maxPriority <= Pri(s.hard) {
      forall m: Match | Hit(t, m, flow, version)
        ensures m.Priority() <= Pri(s.hard) || Shadowed(t, flow, version, m)
      {
        var j, key := Whereabouts(t, m);
        if i <= j {
          SubtableBounds(t, i, j, key, m);
        }
      }
    } else {
      CandidatesGood(t, i, flow, version);
      StepOutdone(t, i, s, flow, version);
      ScanOutdone(t, i + 1, Step(s, Candidates(t.subtables[i], flow, version), false), flow, version);
    }
  }

  /** The rule that a conjunction stands for, if any: outside conjunctions, visible,
      matching the flow with the conjunction's ID, and as good as any visible rule
      that does, unless a rule in a conjunction with the same mask comes first. */
  ghost predicate RuleOf(t: Tables, flow: Bits, version: nat, id: nat, r: Option<Match>)
    requires Published(t) && |flow| == t.cfg.n
  {
    var f := WithConjId(t.cfg, flow, id);
    && (r.Some? ==> Hit(t, r.value, f, version) && r.value.conj == [] && r.value.Priority() > INT_MIN)
    && forall m: Match | Hit(t, m, f, version) :: m.Priority() <= Pri(r) || Shadowed(t, f, version, m)
  }

  lemma ByIdMeaning(t: Tables, flow: Bits, version: nat, id: nat)
    requires Published(t) && |flow| == t.cfg.n
    ensures RuleOf(t, flow, version, id, ById(t, flow, version, id))
  {
    ScanOutdone(t, 0, Scan(None, []), WithConjId(t.cfg, flow, id), version);
  }

  // ---------------------------------------------------------------- main results

  /** Main result: every lookup is explained. */
  lemma LookupExplained(t: Tables, flow: Bits, version: nat) returns (why: Reason)
    requires Published(t) && |flow| == t.cfg.n
    ensures Explained(t, flow, version, LookupRule(t, flow, version), why)
  {
    var s0 := Scan(None, []);
    ScanGood(t, 0, s0, flow, version);
    why := ResolveExplained(t, flow, version, ScanAll(t, flow, version, true), TOP);
  }

  /** Main result: if no conjunction is satisfied, the lookup returns the best
      visible match outside conjunctions. */
  lemma LookupWithoutConjunction(t: Tables, flow: Bits, version: nat)
    requires Published(t) && |flow| == t.cfg.n
    requires forall m: Match, c: Conj, pri: int | Hit(t, m, flow, version) && m.Priority() == pri && c in m.conj ::
               !Satisfied(t, flow, version, pri, c.id, c.nClauses % CLAUSE_BITS)
    ensures BestHard(t, flow, version, LookupRule(t, flow, version))
  {
    var why := LookupExplained(t, flow, version);
  }

  /** Main result: without conjunctive rules the lookup is a search for a visible
      matching rule of the highest priority.  It finds nothing exactly when no
      visible rule above the lowest priority matches. */
  lemma LookupIsLinearSearch(t: Tables, flow: Bits, version: nat)
    requires Published(t) && |flow| == t.cfg.n
    requires forall m: Match | Holds(t, m) :: m.conj == []
    ensures var r := LookupRule(t, flow, version);
            if r.Some? then
              Hit(t, r.value, flow, version) &&
              forall m: Match | Hit(t, m, flow, version) :: m.Priority() <= r.value.Priority()
            else forall m: Match | Hit(t, m, flow, version) :: m.Priority() <= INT_MIN
    ensures LookupRule(t, flow, version).None? <==>
            forall m: Match | Hit(t, m, flow, version) :: m.Priority() <= INT_MIN
  {
    var why := LookupExplained(t, flow, version);
  }
}

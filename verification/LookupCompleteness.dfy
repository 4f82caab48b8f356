/** When a satisfied conjunction is found: completeness of the conjunctive match,
    under conditions on the rules, and the inputs that show them to be needed. */
module LookupCompleteness {
  import opened Bits
  import opened ClassifierModel
  import opened Conjunctions
  import opened SoftMatches
  import opened LookupMeaning
  import opened Options

  // ----------------------------------------------------------------- one round

  /** Every membership states its conjunction's one number of clauses, below 64. */
  ghost predicate WellNumbered(cs: set<Conj>)
  {
    Consistent(cs) && forall c | c in cs :: 1 <= c.nClauses < CLAUSE_BITS && c.clause < c.nClauses
  }

  /** A rule is in at most one clause of a conjunction. */
  ghost predicate OneClause(m: Match)
  {
    forall c, d | c in m.conj && d in m.conj && c.id == d.id :: c.clause == d.clause
  }

  ghost predicate HeadsOneClause(soft: Soft, pri: int)
  {
    forall j | 0 <= j < |soft| && At(soft[j], pri) :: OneClause(soft[j][0])
  }

  /** Some conjunction of the soft matches of the priority is covered. */
  ghost predicate SomeCovered(soft: Soft, pri: int)
  {
    exists c | c in MembersAt(soft, pri) :: AllCovered(MembersAt(soft, pri), c.id, c.nClauses)
  }

  /** Every covered conjunction of at most `n` clauses has a rule. */
  ghost predicate CoveredHaveRules(t: Tables, flow: Bits, version: nat, cs: set<Conj>, n: nat)
    requires Published(t) && |flow| == t.cfg.n
  {
    forall c | c in cs && c.nClauses <= n && AllCovered(cs, c.id, c.nClauses) :: ById(t, flow, version, c.id).Some?
  }

  // ------------------------------------------- counting rules, heads and clauses

  ghost predicate InClause(m: Match, id: nat, k: nat)
  {
    exists c | c in m.conj :: c.id == id && c.clause == k
  }

  ghost predicate SomeInClause(rules: set<Match>, id: nat, k: nat)
  {
    exists m | m in rules :: InClause(m, id, k)
  }

  /** Each clause needs a rule of its own. */
  lemma {:induction false} RulePerClause(rules: set<Match>, id: nat, n: nat)
    requires forall m | m in rules :: OneClause(m)
    requires forall k: nat | k < n :: SomeInClause(rules, id, k)
    ensures n <= |rules|
    decreases n
  {
    if n > 0 {
      assert SomeInClause(rules, id, n - 1);
      var m :| m in rules && InClause(m, id, n - 1);
      forall k: nat | k < n - 1 ensures SomeInClause(rules - {m}, id, k) {
        assert SomeInClause(rules, id, k);
        var d :| d in rules && InClause(d, id, k);
        assert d != m;
      }
      RulePerClause(rules - {m}, id, n - 1);
    }
  }

  /** The places of the soft matches of the priority. */
  ghost function HeadsAt(soft: Soft, pri: int): set<nat>
  {
    set j | 0 <= j < |soft| && At(soft[j], pri)
  }

  lemma {:induction false} CountFrom(soft: Soft, i: nat, pri: int)
    requires i <= |soft|
    ensures CountAt(soft, i, pri) == |set j | i <= j < |soft| && At(soft[j], pri)|
    decreases |soft| - i
  {
    if i < |soft| {
      CountFrom(soft, i + 1, pri);
      var rest := set j | i + 1 <= j < |soft| && At(soft[j], pri);
      assert (set j | i <= j < |soft| && At(soft[j], pri)) == rest + if At(soft[i], pri) then {i} else {};
    }
  }

  lemma CountIsHeads(soft: Soft, pri: int)
    ensures CountAt(soft, 0, pri) == |HeadsAt(soft, pri)|
  {
    CountFrom(soft, 0, pri);
    assert HeadsAt(soft, pri) == set j | 0 <= j < |soft| && At(soft[j], pri);
  }

  /** As many places as rules that are at one of them. */
  lemma {:induction false} PlacePerRule(soft: Soft, rules: set<Match>, js: set<nat>)
    requires forall j | j in js :: j < |soft| && soft[j] != []
    requires forall m | m in rules :: exists j | j in js :: soft[j][0] == m
    ensures |rules| <= |js|
    decreases |rules|
  {
    if rules != {} {
      var m :| m in rules;
      var j :| j in js && soft[j][0] == m;
      forall d | d in rules - {m} ensures exists i | i in js - {j} :: soft[i][0] == d {
        var i :| i in js && soft[i][0] == d;
      }
      PlacePerRule(soft, rules - {m}, js - {j});
    }
  }

  /** As many rules as places, if each has another. */
  lemma {:induction false} RulePerPlace(soft: Soft, rules: set<Match>, js: set<nat>)
    requires forall j | j in js :: j < |soft| && soft[j] != [] && soft[j][0] in rules
    requires forall i, j | i in js && j in js && i != j :: soft[i][0] != soft[j][0]
    ensures |js| <= |rules|
    decreases |js|
  {
    if js != {} {
      var j :| j in js;
      RulePerPlace(soft, rules - {soft[j][0]}, js - {j});
    }
  }

  /** So a covered conjunction, with no rule in two of its clauses, is not passed
      over for having too many. */
  lemma CoveredIsNotSkipped(soft: Soft, pri: int, id: nat, n: nat)
    requires AllCovered(MembersAt(soft, pri), id, n) && HeadsOneClause(soft, pri)
    ensures n <= CountAt(soft, 0, pri)
  {
    var js := HeadsAt(soft, pri);
    var rules := set j | j in js :: soft[j][0];
    forall k: nat | k < n ensures SomeInClause(rules, id, k) {
      assert Covered(MembersAt(soft, pri), id, k);
      var c :| c in MembersAt(soft, pri) && c.id == id && c.clause == k;
      var l: seq<Match> :| l in soft && At(l, pri) && c in l[0].conj;
      var j :| 0 <= j < |soft| && soft[j] == l;
      assert j in js && InClause(soft[j][0], id, k);
    }
    RulePerClause(rules, id, n);
    PlacePerRule(soft, rules, js);
    CountIsHeads(soft, pri);
  }

  lemma MembersGrow(soft: Soft, i: nat, pri: int)
    requires i < |soft|
    ensures MembersAt(soft[..i + 1], pri) ==
            MembersAt(soft[..i], pri) + if At(soft[i], pri) then Members(soft[i][0].conj) else {}
    ensures MembersAt(soft[..i + 1], pri) <= MembersAt(soft, pri)
  {
    assert soft[..i + 1] == soft[..i] + [soft[i]];
    forall l | l in soft[..i + 1] ensures l in soft {
    }
  }

  lemma NumberedIsConsistent(cs: set<Conj>)
    requires WellNumbered(cs)
    ensures Consistent(cs)
  {
  }

  /** Only conjunctions of at most `n` clauses have been met. */
  ghost predicate OnlyFitting(seen: Clauses, all: set<Conj>, n: nat)
  {
    forall c | c in all && c.id in seen :: c.nClauses <= n
  }

  lemma {:induction false} FindConjFits(conj: seq<Conj>, i: nat, n: nat, seen: Clauses, all: set<Conj>)
    requires i <= |conj| && Members(conj) <= all && Consistent(all) && OnlyFitting(seen, all, n)
    ensures OnlyFitting(FindConj(conj, i, n, seen).seen, all, n)
    decreases |conj| - i
  {
    if i < |conj| {
      assert conj[i] in Members(conj);
      if conj[i].nClauses > n {
        FindConjFits(conj, i + 1, n, seen, all);
      } else {
        FindConjFits(conj, i + 1, n, AddClause(seen, conj[i]), all);
      }
    }
  }

  /** A conjunction that is reported full is covered and fits. */
  lemma Reported(soft: Soft, i: nat, pri: int, n: nat, seen: Clauses) returns (c: Conj)
    requires i < |soft| && At(soft[i], pri) && WellNumbered(MembersAt(soft, pri))
    requires SeenOk(seen, MembersAt(soft, pri)) && OnlyFitting(seen, MembersAt(soft, pri), n)
    ensures var f, all := FindConj(soft[i][0].conj, 0, n, seen), MembersAt(soft, pri);
            && SeenOk(f.seen, all) && OnlyFitting(f.seen, all, n)
            && (f.id.Some? ==> c in all && c.id == f.id.value && c.nClauses <= n && AllCovered(all, c.id, c.nClauses))
  {
    hide FindConj;
    var all := MembersAt(soft, pri);
    var f := FindConj(soft[i][0].conj, 0, n, seen);
    assert soft[i] in soft;
    assert Members(soft[i][0].conj) <= all;
    FindConjOk(soft[i][0].conj, 0, n, seen, all);
    FindConjFits(soft[i][0].conj, 0, n, seen, all);
    c := Conj(0, 0, 0);
    if f.id.Some? {
      c := FullIsCovered(f.seen, all, f.id.value);
      assert c.nClauses % CLAUSE_BITS == c.nClauses;
    }
  }

  /** A round that finds a rule finds that of a covered conjunction that fits. */
  lemma {:induction false} RoundFinds(t: Tables, flow: Bits, version: nat, soft: Soft, i: nat, pri: int, n: nat,
                                      seen: Clauses) returns (c: Conj)
    requires Published(t) && |flow| == t.cfg.n && i <= |soft| && WellNumbered(MembersAt(soft, pri))
    requires SeenOk(seen, MembersAt(soft, pri)) && OnlyFitting(seen, MembersAt(soft, pri), n)
    requires Round(t, flow, version, soft, i, pri, n, seen).Some?
    ensures c in MembersAt(soft, pri) && c.nClauses <= n && AllCovered(MembersAt(soft, pri), c.id, c.nClauses)
    ensures Round(t, flow, version, soft, i, pri, n, seen) == ById(t, flow, version, c.id)
    decreases |soft| - i
  {
    hide Published, WellNumbered, SeenOk, OnlyFitting, MembersAt, AllCovered, ById, FindConj;
    if !At(soft[i], pri) {
      c := RoundFinds(t, flow, version, soft, i + 1, pri, n, seen);
    } else {
      var f := FindConj(soft[i][0].conj, 0, n, seen);
      c := Reported(soft, i, pri, n, seen);
      if f.id.None? || ById(t, flow, version, f.id.value).None? {
        c := RoundFinds(t, flow, version, soft, i + 1, pri, n, f.seen);
      }
    }
  }

  /** A round that finds nothing has recorded every membership. */
  lemma {:induction false} RoundRecords(t: Tables, flow: Bits, version: nat, soft: Soft, i: nat, pri: int, n: nat,
                                        seen: Clauses) returns (last: Clauses)
    requires Published(t) && |flow| == t.cfg.n && i <= |soft|
    requires WellNumbered(MembersAt(soft, pri)) && CoveredHaveRules(t, flow, version, MembersAt(soft, pri), n)
    requires SeenOk(seen, MembersAt(soft, pri)) && OnlyFitting(seen, MembersAt(soft, pri), n)
    requires HighBitsOk(seen, MembersAt(soft, pri)) && Recorded(seen, MembersAt(soft[..i], pri), n)
    requires Round(t, flow, version, soft, i, pri, n, seen).None?
    ensures Recorded(last, MembersAt(soft, pri), n) && HighBitsOk(last, MembersAt(soft, pri))
    decreases |soft| - i
  {
    var all := MembersAt(soft, pri);
    if i == |soft| {
      assert soft[..i] == soft;
      return seen;
    }
    MembersGrow(soft, i, pri);
    if !At(soft[i], pri) {
      last := RoundRecords(t, flow, version, soft, i + 1, pri, n, seen);
    } else {
      var conj := soft[i][0].conj;
      var c := Reported(soft, i, pri, n, seen);
      hide Published, WellNumbered, SeenOk, OnlyFitting, HighBitsOk, Recorded, MembersAt, AllCovered, ById, FindConj;
      var f := FindConj(conj, 0, n, seen);
      assert f.id.None?;
      hide CoveredHaveRules;
      assert MembersAt(soft[..i], pri) + Members(conj[..0]) == MembersAt(soft[..i], pri);
      NumberedIsConsistent(all);
      FindConjRecords(conj, 0, n, seen, MembersAt(soft[..i], pri), all);
      last := RoundRecords(t, flow, version, soft, i + 1, pri, n, f.seen);
    }
  }

  /** Main result for one round: it finds nothing if and only if every covered
      conjunction of the priority has more clauses than there are soft matches. */
  lemma RoundExact(t: Tables, flow: Bits, version: nat, soft: Soft, pri: int)
    requires Published(t) && |flow| == t.cfg.n && WellNumbered(MembersAt(soft, pri))
    requires CoveredHaveRules(t, flow, version, MembersAt(soft, pri), CountAt(soft, 0, pri))
    ensures Round(t, flow, version, soft, 0, pri, CountAt(soft, 0, pri), map[]).None? <==>
            forall c | c in MembersAt(soft, pri) && AllCovered(MembersAt(soft, pri), c.id, c.nClauses) ::
              c.nClauses > CountAt(soft, 0, pri)
  {
    var n, all := CountAt(soft, 0, pri), MembersAt(soft, pri);
    if Round(t, flow, version, soft, 0, pri, n, map[]).Some? {
      var c := RoundFinds(t, flow, version, soft, 0, pri, n, map[]);
    } else {
      assert MembersAt(soft[..0], pri) == {};
      var last := RoundRecords(t, flow, version, soft, 0, pri, n, map[]);
      forall c | c in all && c.nClauses <= n ensures !AllCovered(all, c.id, c.nClauses) {
        NoneFullNoneCovered(last, all, n, c);
      }
    }
  }

  /** With no rule in two clauses of a conjunction it finds nothing if and only if
      no conjunction is covered. */
  lemma RoundOneClause(t: Tables, flow: Bits, version: nat, soft: Soft, pri: int)
    requires Published(t) && |flow| == t.cfg.n && WellNumbered(MembersAt(soft, pri)) && HeadsOneClause(soft, pri)
    requires CoveredHaveRules(t, flow, version, MembersAt(soft, pri), CountAt(soft, 0, pri))
    ensures Round(t, flow, version, soft, 0, pri, CountAt(soft, 0, pri), map[]).None? <==> !SomeCovered(soft, pri)
  {
    RoundExact(t, flow, version, soft, pri);
    var all := MembersAt(soft, pri);
    forall c | c in all && AllCovered(all, c.id, c.nClauses) ensures c.nClauses <= CountAt(soft, 0, pri) {
      CoveredIsNotSkipped(soft, pri, c.id, c.nClauses);
    }
  }

  // ------------------------------------------------------------- the whole lookup

  /** Visible matching rules of one priority satisfy the conjunction of `c`. */
  ghost predicate SatisfiedBy(t: Tables, flow: Bits, version: nat, pri: int, c: Conj)
  {
    && (exists m: Match :: Hit(t, m, flow, version) && m.Priority() == pri && c in m.conj)
    && Satisfied(t, flow, version, pri, c.id, c.nClauses)
  }

  /** The visible matching rules of the priority. */
  ghost function HitsAt(t: Tables, flow: Bits, version: nat, pri: int): (r: set<Match>)
    ensures forall m: Match :: m in r <==> Hit(t, m, flow, version) && m.Priority() == pri
  {
    set st: Subtable, key, m | st in t.subtables && key in st.rules && m in st.rules[key] &&
                               Fits(m, flow, version) && m.Priority() == pri :: m
  }

  /** And there are at least as many of these as it has clauses. */
  ghost predicate Eligible(t: Tables, flow: Bits, version: nat, pri: int, c: Conj)
  {
    SatisfiedBy(t, flow, version, pri, c) && c.nClauses <= |HitsAt(t, flow, version, pri)|
  }

  /** No two visible matching rules have one mask, hence one match, and one priority. */
  ghost predicate Twinless(t: Tables, flow: Bits, version: nat)
  {
    forall m: Match, d: Match | Hit(t, m, flow, version) && Hit(t, d, flow, version) &&
                                m.rule.mask == d.rule.mask && m.Priority() == d.Priority() :: m == d
  }

  /** What completeness asks of the rules that match: no two of one match and
      priority are visible; clause counts below 64 that agree among the rules of a
      priority; and a rule for the id of every eligible conjunction. */
  ghost predicate Orderly(t: Tables, flow: Bits, version: nat)
    requires Published(t) && |flow| == t.cfg.n
  {
    && Twinless(t, flow, version)
    && (forall m: Match, c: Conj | Hit(t, m, flow, version) && c in m.conj ::
          1 <= c.nClauses < CLAUSE_BITS && c.clause < c.nClauses)
    && (forall m: Match, d: Match, c: Conj, e: Conj |
          Hit(t, m, flow, version) && Hit(t, d, flow, version) && m.Priority() == d.Priority() &&
          c in m.conj && e in d.conj && c.id == e.id :: c.nClauses == e.nClauses)
    && (forall pri: int, c: Conj | Eligible(t, flow, version, pri, c) :: ById(t, flow, version, c.id).Some?)
  }

  /** The result is the best match outside conjunctions and no conjunction is
      eligible above it, or it is the rule of one that is, above everything outside
      conjunctions, and none is eligible at a higher priority. */
  ghost predicate Chosen(t: Tables, flow: Bits, version: nat, r: Option<Match>, why: Reason)
    requires Published(t) && |flow| == t.cfg.n
  {
    match why
    case Hard =>
      && BestHard(t, flow, version, r)
      && forall pri: int, c: Conj | Eligible(t, flow, version, pri, c) :: pri <= Pri(r)
    case ByConjunction(pri, c) =>
      && r.Some? && r == ById(t, flow, version, c.id) && Eligible(t, flow, version, pri, c) && pri > INT_MIN
      && (forall m: Match | Hit(t, m, flow, version) && m.conj == [] :: m.Priority() < pri)
      && forall p: int, d: Conj | Eligible(t, flow, version, p, d) :: p <= pri
  }

  /** With no rule in two clauses of a conjunction, every satisfied one is eligible. */
  lemma SatisfiedIsEligible(t: Tables, flow: Bits, version: nat, pri: int, c: Conj)
    requires SatisfiedBy(t, flow, version, pri, c)
    requires forall m: Match | Hit(t, m, flow, version) && m.Priority() == pri :: OneClause(m)
    ensures Eligible(t, flow, version, pri, c)
  {
    hide Hit, OneClause;
    var hits := HitsAt(t, flow, version, pri);
    forall k: nat | k < c.nClauses ensures SomeInClause(hits, c.id, k) {
      assert ClauseHit(t, flow, version, pri, c.id, k);
      var m: Match, d: Conj :| d in m.conj && Hit(t, m, flow, version) && m.Priority() == pri && d.id == c.id &&
                               d.clause == k;
      assert m in hits && InClause(m, c.id, k);
    }
    RulePerClause(hits, c.id, c.nClauses);
  }

  // ------------------------------------------------- the lists have different masks

  ghost predicate OneEach(soft: Soft)
  {
    forall i, j | 0 <= i < j < |soft| && soft[i] != [] && soft[j] != [] :: soft[i][0].rule.mask != soft[j][0].rule.mask
  }

  /** The list has the mask of a subtable before the `i`th. */
  ghost predicate FromBefore(t: Tables, i: nat, l: seq<Match>)
    requires i <= |t.subtables|
  {
    l != [] && exists k | 0 <= k < i :: t.subtables[k].mask == l[0].rule.mask
  }

  lemma {:induction false} ScanOneEach(t: Tables, i: nat, s: Scan, flow: Bits, version: nat)
    requires Published(t) && i <= |t.subtables| && |flow| == t.cfg.n && OneEach(s.soft)
    requires forall l | l in s.soft :: FromBefore(t, i, l)
    ensures OneEach(ScanFrom(t, i, s, flow, version, true).soft)
    decreases |t.subtables| - i
  {
    if i < |t.subtables| && t.subtables[i].maxPriority > Pri(s.hard) {
      CandidatesGood(t, i, flow, version);
      var cand := Candidates(t.subtables[i], flow, version);
      CandidatesOf(t, i, flow, version);
      var s' := Step(s, cand, true);
      StepOneEach(t, i, s, cand);
      hide Published;
      ScanOneEach(t, i + 1, s', flow, version);
    }
  }

  lemma StepOneEach(t: Tables, i: nat, s: Scan, cand: seq<Match>)
    requires i < |t.subtables| && OneForEachMask(t.subtables) && OneEach(s.soft)
    requires forall l | l in s.soft :: FromBefore(t, i, l)
    requires cand != [] ==> cand[0].rule.mask == t.subtables[i].mask
    ensures OneEach(Step(s, cand, true).soft) && forall l | l in Step(s, cand, true).soft :: FromBefore(t, i + 1, l)
  {
    var s' := Step(s, cand, true);
    forall a, b | 0 <= a < b < |s'.soft| && s'.soft[a] != [] && s'.soft[b] != []
      ensures s'.soft[a][0].rule.mask != s'.soft[b][0].rule.mask
    {
      if b == |s.soft| {
        assert FromBefore(t, i, s.soft[a]);
      }
    }
    forall l | l in s'.soft ensures FromBefore(t, i + 1, l) {
      if l in s.soft {
        assert FromBefore(t, i, l);
      }
    }
  }

  lemma {:induction false} PurgeOneEach(soft: Soft, i: nat, pri: int)
    requires i <= |soft| && (forall j | 0 <= j < i :: Above(soft[j], pri)) && OneEach(soft)
    ensures OneEach(Purge(soft, i, pri))
    decreases |soft| - i
  {
    if i < |soft| {
      if !Above(soft[i], pri) {
        assert forall j | 0 <= j < i :: DropAt(soft, i)[j] == DropAt(soft, i)[..i][j] == soft[..i][j];
        PurgeOneEach(DropAt(soft, i), i, pri);
      } else {
        PurgeOneEach(soft, i + 1, pri);
      }
    }
  }

  /** Every list is sorted and of one mask. */
  ghost predicate Uniform(soft: Soft)
  {
    forall j | 0 <= j < |soft| :: Sorted(soft[j]) && forall m | m in soft[j] :: m.rule.mask == soft[j][0].rule.mask
  }

  lemma DropOneUniform(s: Scan, i: nat, version: nat)
    requires i < |s.soft| && s.soft[i] != [] && OneEach(s.soft) && Uniform(s.soft)
    ensures OneEach(DropOne(s, i, version).soft) && Uniform(DropOne(s, i, version).soft)
  {
    var l := s.soft[i];
    var next := FromVisible(l[1..], version);
    assert forall k | 0 <= k < |l| - 1 :: l[1..][k] == l[k + 1];
    FromVisibleKeeps(l[1..], version);
    assert forall m | m in next :: m in l;
    assert next != [] ==> next[0] in next;
  }

  lemma {:induction false} DropOneEach(s: Scan, i: nat, pri: int, version: nat)
    requires i <= |s.soft| && OneEach(s.soft) && Uniform(s.soft)
    ensures OneEach(Drop(s.soft, i, pri, s.hard, version).soft)
    decreases |s.soft| - i
  {
    if i < |s.soft| {
      if !At(s.soft[i], pri) {
        DropOneEach(s, i + 1, pri, version);
      } else {
        DropOneUniform(s, i, version);
        DropUnfolds(s, i, pri, version);
        DropOneEach(DropOne(s, i, version), i + 1, pri, version);
      }
    }
  }

  lemma GoodIsUniform(t: Tables, flow: Bits, version: nat, s: Scan)
    requires GoodScan(t, flow, version, s)
    ensures Uniform(s.soft)
  {
  }

  // ------------------------------------------- what a round is to the matching rules

  lemma SameAsHead(t: Tables, flow: Bits, version: nat, l: seq<Match>, m: Match)
    requires Twinless(t, flow, version) && GoodList(t, flow, version, l) && m in l
    requires m.Priority() == l[0].Priority() && Hit(t, m, flow, version)
    ensures l[0] == m
  {
    assert l[0] in l && Hit(t, l[0], flow, version);
  }

  /** The round at `pri` sees every matching rule of that priority. */
  lemma HitIsHead(t: Tables, flow: Bits, version: nat, s: Scan, pri: int, m: Match)
    requires Twinless(t, flow, version) && GoodScan(t, flow, version, s) && TopPriority(s, pri)
    requires Hit(t, m, flow, version) && m.Priority() == pri && Accounted(s, m)
    ensures exists j | 0 <= j < |s.soft| :: At(s.soft[j], pri) && s.soft[j][0] == m
  {
    var j :| 0 <= j < |s.soft| && m in s.soft[j];
    var l := s.soft[j];
    assert GoodList(t, flow, version, l);
    assert l[0].Priority() == pri;
    SameAsHead(t, flow, version, l, m);
  }

  lemma HitsAreMembers(t: Tables, flow: Bits, version: nat, s: Scan, bound: int, pri: int)
    requires Published(t) && |flow| == t.cfg.n && Orderly(t, flow, version)
    requires GoodScan(t, flow, version, s) && AllAccounted(t, flow, version, s, bound) && TopPriority(s, pri)
    requires pri < bound
    ensures forall m: Match, c: Conj | Hit(t, m, flow, version) && m.Priority() == pri && c in m.conj ::
              c in MembersAt(s.soft, pri)
  {
    forall m: Match, c: Conj | Hit(t, m, flow, version) && m.Priority() == pri && c in m.conj
      ensures c in MembersAt(s.soft, pri)
    {
      HitIsHead(t, flow, version, s, pri, m);
      var j :| 0 <= j < |s.soft| && At(s.soft[j], pri) && s.soft[j][0] == m;
      assert s.soft[j] in s.soft;
    }
  }

  /** There are no more soft matches than matching rules of the priority. */
  lemma CountWithinHits(t: Tables, flow: Bits, version: nat, s: Scan, pri: int)
    requires GoodScan(t, flow, version, s) && OneEach(s.soft)
    ensures CountAt(s.soft, 0, pri) <= |HitsAt(t, flow, version, pri)|
  {
    hide Hit;
    var js := HeadsAt(s.soft, pri);
    forall j | j in js ensures s.soft[j][0] in HitsAt(t, flow, version, pri) {
      assert GoodList(t, flow, version, s.soft[j]) && s.soft[j][0] in s.soft[j];
    }
    CountIsHeads(s.soft, pri);
    RulePerPlace(s.soft, HitsAt(t, flow, version, pri), js);
  }

  /** And no fewer, at the highest priority left. */
  lemma HitsWithinCount(t: Tables, flow: Bits, version: nat, s: Scan, bound: int, pri: int)
    requires Twinless(t, flow, version) && pri < bound
    requires GoodScan(t, flow, version, s) && AllAccounted(t, flow, version, s, bound) && TopPriority(s, pri)
    ensures |HitsAt(t, flow, version, pri)| <= CountAt(s.soft, 0, pri)
  {
    hide Twinless, Hit, GoodScan, TopPriority, Accounted;
    var js := HeadsAt(s.soft, pri);
    forall m | m in HitsAt(t, flow, version, pri) ensures exists j | j in js :: s.soft[j][0] == m {
      HitIsHead(t, flow, version, s, pri, m);
      var j :| 0 <= j < |s.soft| && At(s.soft[j], pri) && s.soft[j][0] == m;
      assert j in js;
    }
    CountIsHeads(s.soft, pri);
    PlacePerRule(s.soft, HitsAt(t, flow, version, pri), js);
  }

  /** What a round asks of the soft matches follows from what is asked of the rules. */
  lemma OrderlyHeads(t: Tables, flow: Bits, version: nat, s: Scan, pri: int)
    requires Published(t) && |flow| == t.cfg.n && Orderly(t, flow, version)
    requires GoodScan(t, flow, version, s) && OneEach(s.soft)
    ensures WellNumbered(MembersAt(s.soft, pri))
    ensures CoveredHaveRules(t, flow, version, MembersAt(s.soft, pri), CountAt(s.soft, 0, pri))
  {
    var all := MembersAt(s.soft, pri);
    forall c, d | c in all && d in all && c.id == d.id ensures c.nClauses == d.nClauses {
      var m := MemberHit(t, flow, version, s, pri, c);
      var m' := MemberHit(t, flow, version, s, pri, d);
    }
    forall c | c in all ensures 1 <= c.nClauses < CLAUSE_BITS && c.clause < c.nClauses {
      var m := MemberHit(t, flow, version, s, pri, c);
    }
    hide ById, Hit, MembersAt;
    forall c | c in all && c.nClauses <= CountAt(s.soft, 0, pri) && AllCovered(all, c.id, c.nClauses)
      ensures ById(t, flow, version, c.id).Some?
    {
      CoveredIsEligible(t, flow, version, s, pri, c);
    }
  }

  lemma CoveredIsEligible(t: Tables, flow: Bits, version: nat, s: Scan, pri: int, c: Conj)
    requires GoodScan(t, flow, version, s) && OneEach(s.soft)
    requires c in MembersAt(s.soft, pri) && AllCovered(MembersAt(s.soft, pri), c.id, c.nClauses)
    requires c.nClauses <= CountAt(s.soft, 0, pri)
    ensures Eligible(t, flow, version, pri, c)
  {
    hide Hit, Satisfied, AllCovered, MembersAt, CountAt;
    CoveredSatisfied(t, flow, version, s, pri, c.id, c.nClauses);
    var m := MemberHit(t, flow, version, s, pri, c);
    CountWithinHits(t, flow, version, s, pri);
  }

  lemma SatisfiedIsCovered(t: Tables, flow: Bits, version: nat, soft: Soft, pri: int, c: Conj)
    requires SatisfiedBy(t, flow, version, pri, c)
    requires forall m: Match, c: Conj | Hit(t, m, flow, version) && m.Priority() == pri && c in m.conj ::
               c in MembersAt(soft, pri)
    ensures c in MembersAt(soft, pri) && AllCovered(MembersAt(soft, pri), c.id, c.nClauses)
  {
    var all := MembersAt(soft, pri);
    forall k: nat | k < c.nClauses ensures Covered(all, c.id, k) {
      assert ClauseHit(t, flow, version, pri, c.id, k);
    }
  }

  /** No conjunction is satisfied between the priority of a round and the last. */
  lemma NoneBetween(t: Tables, flow: Bits, version: nat, s: Scan, bound: int, pri: int, p: int, c: Conj)
    requires GoodScan(t, flow, version, s) && AllAccounted(t, flow, version, s, bound) && TopPriority(s, pri)
    requires SatisfiedBy(t, flow, version, p, c) && p < bound
    ensures p <= pri
  {
    var m: Match :| Hit(t, m, flow, version) && m.Priority() == p && c in m.conj;
    InListBelow(t, flow, version, s, pri, m);
  }

  /** At priorities already tried, an eligible conjunction is beaten. */
  ghost predicate NoneMissed(t: Tables, flow: Bits, version: nat, s: Scan, bound: int)
  {
    forall p: int, c: Conj | Eligible(t, flow, version, p, c) && p >= bound :: p <= Pri(s.hard)
  }

  lemma {:induction false} ResolveComplete(t: Tables, flow: Bits, version: nat, s: Scan, bound: int)
    returns (why: Reason)
    requires Published(t) && |flow| == t.cfg.n && Orderly(t, flow, version)
    requires GoodScan(t, flow, version, s) && AllAccounted(t, flow, version, s, bound)
    requires OneEach(s.soft) && NoneMissed(t, flow, version, s, bound)
    ensures Chosen(t, flow, version, Resolve(t, flow, version, s), why)
    decreases Total(s.soft)
  {
    var soft := Purge(s.soft, 0, Pri(s.hard));
    PurgeGood(t, flow, version, s, bound);
    PurgeOneEach(s.soft, 0, Pri(s.hard));
    if soft == [] {
      NothingChosen(t, flow, version, s.hard, bound);
      return Hard;
    }
    var pri := PurgedTop(s);
    var purged := Scan(s.hard, soft);
    if Round(t, flow, version, soft, 0, pri, CountAt(soft, 0, pri), map[]).Some? {
      why := RoundChosen(t, flow, version, purged, bound, pri);
    } else {
      var lower := if pri < bound then pri else bound;
      RoundMissed(t, flow, version, purged, bound, pri);
      GoodIsUniform(t, flow, version, purged);
      hide OneEach, Uniform, Orderly, GoodScan, AllAccounted, Chosen, TopPriority, NoneMissed, Purge, Round, CountAt;
      LowerBound(t, flow, version, purged, bound, lower);
      DropGood(t, flow, version, purged, 0, pri, lower);
      var next := Drop(soft, 0, pri, s.hard, version);
      DropOneEach(purged, 0, pri, version);
      StillNoneMissed(t, flow, version, purged, next, lower);
      why := ResolveComplete(t, flow, version, next, lower);
    }
  }

  lemma StillNoneMissed(t: Tables, flow: Bits, version: nat, s: Scan, s': Scan, bound: int)
    requires NoneMissed(t, flow, version, s, bound) && Pri(s.hard) <= Pri(s'.hard)
    ensures NoneMissed(t, flow, version, s', bound)
  {
  }

  lemma NothingChosen(t: Tables, flow: Bits, version: nat, hard: Option<Match>, bound: int)
    requires Published(t) && |flow| == t.cfg.n
    requires GoodScan(t, flow, version, Scan(hard, [])) && AllAccounted(t, flow, version, Scan(hard, []), bound)
    requires NoneMissed(t, flow, version, Scan(hard, []), bound)
    ensures Chosen(t, flow, version, hard, Hard)
  {
    hide Published, GoodScan, AllAccounted, BestHard, SatisfiedBy;
    NothingLeft(t, flow, version, hard, bound);
    forall p: int, c: Conj | Eligible(t, flow, version, p, c) ensures p <= Pri(hard) {
      if p < bound {
        SatisfiedIsBelow(t, flow, version, hard, bound, p, c);
      }
    }
  }

  lemma SatisfiedIsBelow(t: Tables, flow: Bits, version: nat, hard: Option<Match>, bound: int, p: int, c: Conj)
    requires AllAccounted(t, flow, version, Scan(hard, []), bound) && SatisfiedBy(t, flow, version, p, c) && p < bound
    ensures p <= Pri(hard)
  {
    hide Hit, Satisfied;
    var m: Match :| Hit(t, m, flow, version) && m.Priority() == p && c in m.conj;
    assert Accounted(Scan(hard, []), m);
  }

  lemma RoundMissed(t: Tables, flow: Bits, version: nat, s: Scan, bound: int, pri: int)
    requires Published(t) && |flow| == t.cfg.n && Orderly(t, flow, version)
    requires GoodScan(t, flow, version, s) && AllAccounted(t, flow, version, s, bound) && TopPriority(s, pri)
    requires OneEach(s.soft) && NoneMissed(t, flow, version, s, bound)
    requires Round(t, flow, version, s.soft, 0, pri, CountAt(s.soft, 0, pri), map[]).None?
    ensures NoneMissed(t, flow, version, s, if pri < bound then pri else bound)
  {
    assert Pri(s.hard) < pri;
    hide Published, Orderly, SatisfiedBy, GoodScan, AllAccounted, TopPriority, OneEach, Round, CountAt;
    if pri < bound {
      NoneAtRound(t, flow, version, s, bound, pri);
      forall p: int, c: Conj | Eligible(t, flow, version, p, c) ensures p < pri {
        if p < bound {
          NoneBetween(t, flow, version, s, bound, pri, p, c);
        }
      }
    }
  }

  /** No conjunction is eligible at the priority of a round that finds nothing. */
  lemma NoneAtRound(t: Tables, flow: Bits, version: nat, s: Scan, bound: int, pri: int)
    requires Published(t) && |flow| == t.cfg.n && Orderly(t, flow, version) && OneEach(s.soft) && pri < bound
    requires GoodScan(t, flow, version, s) && AllAccounted(t, flow, version, s, bound) && TopPriority(s, pri)
    requires Round(t, flow, version, s.soft, 0, pri, CountAt(s.soft, 0, pri), map[]).None?
    ensures forall c: Conj :: !Eligible(t, flow, version, pri, c)
  {
    OrderlyHeads(t, flow, version, s, pri);
    RoundExact(t, flow, version, s.soft, pri);
    hide SatisfiedBy, GoodScan, TopPriority, AllAccounted, OneEach, MembersAt, AllCovered, Round, CountAt, Hit;
    HitsAreMembers(t, flow, version, s, bound, pri);
    HitsWithinCount(t, flow, version, s, bound, pri);
    forall c: Conj ensures !Eligible(t, flow, version, pri, c) {
      if SatisfiedBy(t, flow, version, pri, c) {
        SatisfiedIsCovered(t, flow, version, s.soft, pri, c);
      }
    }
  }

  lemma RoundChosen(t: Tables, flow: Bits, version: nat, s: Scan, bound: int, pri: int) returns (why: Reason)
    requires Published(t) && |flow| == t.cfg.n && Orderly(t, flow, version)
    requires GoodScan(t, flow, version, s) && AllAccounted(t, flow, version, s, bound) && TopPriority(s, pri)
    requires OneEach(s.soft) && NoneMissed(t, flow, version, s, bound)
    requires Round(t, flow, version, s.soft, 0, pri, CountAt(s.soft, 0, pri), map[]).Some?
    ensures Chosen(t, flow, version, Round(t, flow, version, s.soft, 0, pri, CountAt(s.soft, 0, pri), map[]), why)
  {
    assert pri > INT_MIN;
    hide Orderly, GoodScan, AllAccounted, TopPriority, OneEach, NoneMissed, Eligible, Hit, MembersAt, AllCovered;
    hide Round, ById;
    OrderlyHeads(t, flow, version, s, pri);
    var c := RoundFinds(t, flow, version, s.soft, 0, pri, CountAt(s.soft, 0, pri), map[]);
    CoveredIsEligible(t, flow, version, s, pri, c);
    HardBelow(t, flow, version, s, bound, pri);
    NoneAbove(t, flow, version, s, bound, pri);
    why := ByConjunction(pri, c);
  }

  /** A match outside conjunctions of the priority of a round would be the first
      of its list, and the first of a list is in a conjunction. */
  lemma HardBelow(t: Tables, flow: Bits, version: nat, s: Scan, bound: int, pri: int)
    requires Published(t) && |flow| == t.cfg.n && Orderly(t, flow, version)
    requires GoodScan(t, flow, version, s) && AllAccounted(t, flow, version, s, bound) && TopPriority(s, pri)
    ensures forall m: Match | Hit(t, m, flow, version) && m.conj == [] :: m.Priority() < pri
  {
    hide Twinless, Hit;
    forall m: Match | Hit(t, m, flow, version) && m.conj == [] ensures m.Priority() < pri {
      InListBelow(t, flow, version, s, pri, m);
      if m.Priority() == pri {
        HitIsHead(t, flow, version, s, pri, m);
        SoftHaveConj(t, flow, version, s, m);
      }
    }
  }

  lemma NoneAbove(t: Tables, flow: Bits, version: nat, s: Scan, bound: int, pri: int)
    requires GoodScan(t, flow, version, s) && AllAccounted(t, flow, version, s, bound) && TopPriority(s, pri)
    requires NoneMissed(t, flow, version, s, bound)
    ensures forall p: int, d: Conj | Eligible(t, flow, version, p, d) :: p <= pri
  {
    hide SatisfiedBy, GoodScan, AllAccounted;
    forall p: int, d: Conj | Eligible(t, flow, version, p, d) ensures p <= pri {
      if p < bound {
        NoneBetween(t, flow, version, s, bound, pri, p, d);
      }
    }
  }

  lemma SoftHaveConj(t: Tables, flow: Bits, version: nat, s: Scan, m: Match)
    requires GoodScan(t, flow, version, s) && exists j | 0 <= j < |s.soft| :: s.soft[j] != [] && s.soft[j][0] == m
    ensures m.conj != []
  {
    var j :| 0 <= j < |s.soft| && s.soft[j] != [] && s.soft[j][0] == m;
    assert GoodList(t, flow, version, s.soft[j]);
  }

  /** The conjunction is eligible above every match outside conjunctions. */
  ghost predicate Prevails(t: Tables, flow: Bits, version: nat, pri: int, c: Conj)
  {
    && Eligible(t, flow, version, pri, c) && pri > INT_MIN
    && forall m: Match | Hit(t, m, flow, version) && m.conj == [] :: m.Priority() < pri
  }

  /** Main result: among orderly rules the lookup chooses rightly.  It returns the
      rule of a conjunction if and only if one is eligible above every match outside
      conjunctions. */
  lemma LookupComplete(t: Tables, flow: Bits, version: nat) returns (why: Reason)
    requires Published(t) && |flow| == t.cfg.n && Orderly(t, flow, version)
    ensures Chosen(t, flow, version, LookupRule(t, flow, version), why)
    ensures why.ByConjunction? <==> exists pri: int, c: Conj :: Prevails(t, flow, version, pri, c)
  {
    hide Orderly, Chosen, Prevails, GoodScan, AllAccounted;
    ScanGood(t, 0, Scan(None, []), flow, version);
    ScanOneEach(t, 0, Scan(None, []), flow, version);
    var s := ScanAll(t, flow, version, true);
    assert NoneMissed(t, flow, version, s, TOP) by {
      forall p: int, c: Conj | Eligible(t, flow, version, p, c) ensures p < TOP {
        var m: Match :| Hit(t, m, flow, version) && m.Priority() == p && c in m.conj;
      }
    }
    why := ResolveComplete(t, flow, version, s, TOP);
    ChosenPrevails(t, flow, version, LookupRule(t, flow, version), why);
  }

  lemma ChosenPrevails(t: Tables, flow: Bits, version: nat, r: Option<Match>, why: Reason)
    requires Published(t) && |flow| == t.cfg.n && Chosen(t, flow, version, r, why)
    ensures why.ByConjunction? <==> exists pri: int, c: Conj :: Prevails(t, flow, version, pri, c)
  {
    hide Published, ById, Hit, Eligible;
    if why.ByConjunction? {
      assert Prevails(t, flow, version, why.pri, why.c);
    }
  }

  lemma ChosenIsExplained(t: Tables, flow: Bits, version: nat, r: Option<Match>, why: Reason)
    requires Published(t) && |flow| == t.cfg.n && Orderly(t, flow, version) && Chosen(t, flow, version, r, why)
    ensures Explained(t, flow, version, r, why)
  {
    hide Published, Orderly, ById, Hit, Satisfied, HitsAt, BestHard, RuleOf;
    if why.ByConjunction? {
      ByIdMeaning(t, flow, version, why.c.id);
      FewClauses(t, flow, version, why.pri, why.c);
    }
  }

  lemma FewClauses(t: Tables, flow: Bits, version: nat, pri: int, c: Conj)
    requires Published(t) && |flow| == t.cfg.n && Orderly(t, flow, version) && SatisfiedBy(t, flow, version, pri, c)
    ensures c.nClauses % CLAUSE_BITS == c.nClauses
  {
    hide Published, ById, Hit, Satisfied, Twinless, Eligible;
    var m: Match :| Hit(t, m, flow, version) && m.Priority() == pri && c in m.conj;
  }
}

/** Two classifiers in which a satisfied conjunction that has a rule is not found:
    what the conditions of completeness are there for. */
module MissedConjunctions {
  import opened Bits
  import opened Flows
  import Tries
  import opened ClassifierModel
  import opened Conjunctions
  import opened SoftMatches
  import opened LookupMeaning
  import opened LookupCompleteness
  import opened Options

  // ------------------------------------------------------- lookups with short lists

  lemma {:induction false} PurgeNothing(soft: Soft, i: nat, pri: int)
    requires i <= |soft| && forall j | 0 <= j < |soft| :: Above(soft[j], pri)
    ensures Purge(soft, i, pri) == soft
    decreases |soft| - i
  {
    if i < |soft| {
      PurgeNothing(soft, i + 1, pri);
    }
  }

  lemma {:induction false} DropSingles(soft: Soft, i: nat, pri: int, hard: Option<Match>, version: nat)
    requires i <= |soft| && forall j | 0 <= j < i :: soft[j] == []
    requires forall j | i <= j < |soft| :: |soft[j]| == 1 && At(soft[j], pri)
    ensures var r := Drop(soft, i, pri, hard, version);
            r.hard == hard && forall j | 0 <= j < |r.soft| :: r.soft[j] == []
    decreases |soft| - i
  {
    if i < |soft| {
      assert soft[i][1..] == [];
      DropSingles(soft[i := []], i + 1, pri, hard, version);
    }
  }

  /** If every list holds one rule, of one priority, the lookup ends with its round. */
  lemma ResolveSingles(t: Tables, flow: Bits, version: nat, soft: Soft, pri: int)
    requires Published(t) && |flow| == t.cfg.n && pri > INT_MIN && soft != []
    requires forall j | 0 <= j < |soft| :: |soft[j]| == 1 && At(soft[j], pri)
    requires Round(t, flow, version, soft, 0, pri, CountAt(soft, 0, pri), map[]).None?
    ensures Resolve(t, flow, version, Scan(None, soft)).None?
  {
    PurgeNothing(soft, 0, INT_MIN);
    assert MaxPri(soft, 0) == pri;
    DropSingles(soft, 0, pri, None, version);
    var next := Drop(soft, 0, pri, None, version);
    var left := Purge(next.soft, 0, INT_MIN);
    assert left == [];
  }

  lemma BothCount(soft: Soft, pri: int)
    requires |soft| == 2 && At(soft[0], pri) && At(soft[1], pri)
    ensures CountAt(soft, 0, pri) == 2
  {
    assert CountAt(soft, 1, pri) == 1;
  }

  /** Two rules, in both clauses of two conjunctions, of which the first has no rule:
      the search in the second rule stops there, and never gets to the other. */
  lemma StopsShort(t: Tables, flow: Bits, version: nat, m: Match, d: Match)
    requires Published(t) && |flow| == t.cfg.n
    requires m.conj == [Conj(1, 0, 2), Conj(2, 0, 2)] && d.conj == [Conj(1, 1, 2), Conj(2, 1, 2)]
    requires m.Priority() == d.Priority() > INT_MIN
    requires ById(t, flow, version, 1).None?
    ensures Resolve(t, flow, version, Scan(None, [[m], [d]])).None?
  {
    var soft, pri := [[m], [d]], m.Priority();
    BothCount(soft, pri);
    hide CountAt, BitRange, FindConj;
    var one := FindConj(m.conj, 0, 2, map[]);
    FirstRule(m.conj);
    SecondRule(d.conj, one.seen);
    assert Round(t, flow, version, soft, 1, pri, 2, one.seen).None?;
    ResolveSingles(t, flow, version, soft, pri);
  }

  lemma FirstRule(conj: seq<Conj>)
    requires conj == [Conj(1, 0, 2), Conj(2, 0, 2)]
    ensures var f := FindConj(conj, 0, 2, map[]);
            f.id.None? && 1 in f.seen && f.seen[1] == BitRange(2, CLAUSE_BITS) + {0}
  {
    var seen := AddClause(map[], conj[0]);
    assert 1 !in seen[1] && 1 !in AddClause(seen, conj[1])[2];
    assert FindConj(conj, 2, 2, AddClause(seen, conj[1])).id.None?;
    assert FindConj(conj, 1, 2, seen) == Found(None, AddClause(seen, conj[1]));
  }

  lemma SecondRule(conj: seq<Conj>, seen: Clauses)
    requires conj == [Conj(1, 1, 2), Conj(2, 1, 2)]
    requires 1 in seen && seen[1] == BitRange(2, CLAUSE_BITS) + {0}
    ensures FindConj(conj, 0, 2, seen).id == Some(1)
  {
  }

  /** One rule in both clauses of a conjunction, which is passed over as too large. */
  lemma PassesOver(t: Tables, flow: Bits, version: nat, m: Match)
    requires Published(t) && |flow| == t.cfg.n
    requires m.conj == [Conj(1, 0, 2), Conj(1, 1, 2)] && m.Priority() > INT_MIN
    ensures Resolve(t, flow, version, Scan(None, [[m]])).None?
  {
    var soft, pri := [[m]], m.Priority();
    assert CountAt(soft, 0, pri) == 1;
    NoneFits(m.conj, 0, 1, map[]);
    ResolveSingles(t, flow, version, soft, pri);
  }

  // -------------------------------------------------------------- sample classifiers

  const WIDTH: nat := 128
  const PRIORITY: Int := 10

  /** Ports in the first 32 bits, the conjunction ID in the next, no prefix tries. */
  ghost function SampleConfig(): Config
  {
    Config(WIDTH, (f: Bits) => 0, [], 0, 32)
  }

  ghost function Range(from: nat, to: nat): (r: Bits)
    ensures |r| == WIDTH && forall k | 0 <= k < WIDTH :: r[k] == (from <= k < to)
  {
    seq(WIDTH, k requires 0 <= k < WIDTH => from <= k < to)
  }

  /** The flow of zeros, and what it is with a conjunction's ID. */
  ghost function Zeros(): Bits
  {
    Range(0, 0)
  }

  ghost function WithId(id: nat): (r: Bits)
    ensures |r| == WIDTH
  {
    WithConjId(SampleConfig(), Zeros(), id)
  }

  /** A rule that matches zeros under the mask, in the conjunctions given. */
  ghost function Member(mask: Bits, conj: seq<Conj>): Match
  {
    Match(Rule(0, PRIORITY, Zeros(), mask), 0, 1, conj)
  }

  /** The rule for the conjunction. */
  ghost function RuleFor(id: nat): Match
  {
    Match(Rule(0, PRIORITY, WithId(id), Range(32, 64)), 0, 1, [])
  }

  lemma Masked(id: nat)
    ensures forall a: nat, b: nat :: And(Zeros(), Range(a, b)) == Zeros()
    ensures And(WithId(id), Range(0, 0)) == Zeros() && And(WithId(id), Range(64, 65)) == Zeros()
    ensures And(WithId(id), Range(32, 64)) == WithId(id)
  {
    forall a: nat, b: nat ensures And(Zeros(), Range(a, b)) == Zeros() {
    }
  }

  lemma IdsDiffer(a: nat, b: nat)
    requires a == 1 && b == 2
    ensures WithId(a) != WithId(b) && WithId(a) != Zeros() && WithId(b) != Zeros()
  {
    hide WithId;
    LowBits(a);
    LowBits(b);
    assert !Zeros()[63] && !Zeros()[62];
  }

  lemma LowBits(id: nat)
    ensures WithId(id)[63] == (id % 2 == 1) && WithId(id)[62] == (id / 2 % 2 == 1)
  {
    assert ToBits(id, CONJ_BITS) == ToBits(id / 2 / 2, CONJ_BITS - 2) + [id / 2 % 2 == 1] + [id % 2 == 1];
  }

  /** A subtable with a single rule. */
  ghost function One(m: Match): Subtable
  {
    Subtable(m.rule.mask, [{0, 1}], [], [], 0, Tries.Null, map[m.rule.flow := [m]], PRIORITY, 1)
  }

  ghost predicate Single(m: Match)
  {
    && |m.rule.mask| == |m.rule.flow| == WIDTH && And(m.rule.flow, m.rule.mask) == m.rule.flow
    && m.Priority() == PRIORITY && m.Visible(0) && forall k | 0 <= k < PORT_BITS :: !m.rule.mask[k]
  }

  lemma OneOk(m: Match)
    requires Single(m)
    ensures SubtableOk(SampleConfig(), [], One(m))
  {
    var st := One(m);
    assert Seen(st.stages, 1) == {0, 1};
    assert MaskIn(st.mask, {0, 1}) == st.mask;
  }

  /** A subtable for each of the rules. */
  ghost function TablesOf(ms: seq<Match>): Tables
  {
    Tables(SampleConfig(), seq(|ms|, i requires 0 <= i < |ms| => One(ms[i])), [])
  }

  ghost predicate Singles(ms: seq<Match>)
  {
    && (forall i | 0 <= i < |ms| :: Single(ms[i]))
    && forall i, j | 0 <= i < j < |ms| :: ms[i].rule.mask != ms[j].rule.mask
  }

  lemma PublishedOf(ms: seq<Match>)
    requires Singles(ms)
    ensures Published(TablesOf(ms))
  {
    hide SubtableOk, Single;
    var t := TablesOf(ms);
    forall st | st in t.subtables ensures SubtableOk(t.cfg, t.tries, st) {
      var i :| 0 <= i < |ms| && st == One(ms[i]);
      OneOk(ms[i]);
    }
  }

  ghost function Found1(m: Match, flow: Bits): seq<Match>
    requires |flow| == |m.rule.mask|
  {
    if And(flow, m.rule.mask) == m.rule.flow then [m] else []
  }

  /** One step of the main loop. */
  lemma ScanOne(ms: seq<Match>, i: nat, s: Scan, flow: Bits, allowConj: bool)
    requires Singles(ms) && i < |ms| && |flow| == WIDTH && Pri(s.hard) < PRIORITY
    requires Published(TablesOf(ms))
    ensures ScanFrom(TablesOf(ms), i, s, flow, 0, allowConj) ==
            ScanFrom(TablesOf(ms), i + 1, Step(s, Found1(ms[i], flow), allowConj), flow, 0, allowConj)
  {
    assert Candidates(One(ms[i]), flow, 0) == Found1(ms[i], flow);
  }

  lemma ByIdOf(ms: seq<Match>, id: nat)
    requires Published(TablesOf(ms))
    ensures ById(TablesOf(ms), Zeros(), 0, id) == ScanAll(TablesOf(ms), WithId(id), 0, false).hard
  {
  }

  lemma HoldsOne(ms: seq<Match>, i: nat, flow: Bits)
    requires i < |ms| && Single(ms[i]) && |flow| == WIDTH && And(flow, ms[i].rule.mask) == ms[i].rule.flow
    ensures Hit(TablesOf(ms), ms[i], flow, 0)
  {
    var st := TablesOf(ms).subtables[i];
    assert st in TablesOf(ms).subtables && ms[i].rule.flow in st.rules && ms[i] in st.rules[ms[i].rule.flow];
  }

  // ------------------------------------------------------------ and what they miss

  /** A conjunction whose clauses are all covered by visible matching rules, which
      has a rule, and is not found. */
  ghost predicate Missed(t: Tables, flow: Bits, c: Conj)
  {
    && Published(t) && |flow| == t.cfg.n && SatisfiedBy(t, flow, 0, PRIORITY, c)
    && ById(t, flow, 0, c.id).Some? && LookupRule(t, flow, 0).None?
  }

  /** Three rules: one in the first clause of two conjunctions, one in the second
      clause of both, and one for the second conjunction. */
  ghost function ThreeRules(): seq<Match>
  {
    [Member(Range(0, 0), [Conj(1, 0, 2), Conj(2, 0, 2)]), Member(Range(64, 65), [Conj(1, 1, 2), Conj(2, 1, 2)]),
     RuleFor(2)]
  }

  lemma ThreeSingles()
    ensures Singles(ThreeRules()) && Published(TablesOf(ThreeRules()))
  {
    Masked(2);
    var ms := ThreeRules();
    assert !ms[0].rule.mask[64] && ms[1].rule.mask[64] && !ms[2].rule.mask[64] && ms[2].rule.mask[32];
    assert !ms[0].rule.mask[32];
    PublishedOf(ms);
  }

  lemma ThreeScanned(flow: Bits, allowConj: bool)
    requires |flow| == WIDTH && And(flow, Range(0, 0)) == And(flow, Range(64, 65)) == Zeros()
    ensures Published(TablesOf(ThreeRules()))
    ensures var ms := ThreeRules();
            ScanAll(TablesOf(ms), flow, 0, allowConj) ==
            Scan(if And(flow, Range(32, 64)) == WithId(2) then Some(ms[2]) else None,
                 if allowConj then [[ms[0]], [ms[1]]] else [])
  {
    ThreeSingles();
    hide Singles, Published, And, Range, WithId, Zeros, Single;
    var ms := ThreeRules();
    var s0 := Scan(None, []);
    ScanOne(ms, 0, s0, flow, allowConj);
    var s1 := Step(s0, [ms[0]], allowConj);
    ScanOne(ms, 1, s1, flow, allowConj);
    var s2 := Step(s1, [ms[1]], allowConj);
    ScanOne(ms, 2, s2, flow, allowConj);
  }

  /** What the tables hold, and which of it matches. */
  lemma HitsAmong(ms: seq<Match>, m: Match, flow: Bits)
    requires Singles(ms) && |flow| == WIDTH && Hit(TablesOf(ms), m, flow, 0)
    ensures m in ms && And(flow, m.rule.mask) == m.rule.flow
  {
    var st: Subtable, key :| st in TablesOf(ms).subtables && key in st.rules && m in st.rules[key];
    var i :| 0 <= i < |ms| && st == One(ms[i]);
    assert ms[i] in ms;
  }

  lemma CoveredTwice(t: Tables, flow: Bits, id: nat, m: Match, d: Match)
    requires Hit(t, m, flow, 0) && Hit(t, d, flow, 0) && m.Priority() == d.Priority() == PRIORITY
    requires Conj(id, 0, 2) in m.conj && Conj(id, 1, 2) in d.conj
    ensures SatisfiedBy(t, flow, 0, PRIORITY, Conj(id, 0, 2))
  {
    hide Hit;
    assert ClauseHit(t, flow, 0, PRIORITY, id, 0);
    assert ClauseHit(t, flow, 0, PRIORITY, id, 1);
  }

  lemma ThreeSatisfied(id: nat)
    requires id == 1 || id == 2
    ensures SatisfiedBy(TablesOf(ThreeRules()), Zeros(), 0, PRIORITY, Conj(id, 0, 2))
    ensures Eligible(TablesOf(ThreeRules()), Zeros(), 0, PRIORITY, Conj(id, 0, 2))
  {
    hide And, Range, WithId, Zeros, Hit, SatisfiedBy, Published;
    var ms := ThreeRules();
    ThreeSingles();
    Masked(2);
    HoldsOne(ms, 0, Zeros());
    HoldsOne(ms, 1, Zeros());
    var t := TablesOf(ms);
    CoveredTwice(t, Zeros(), id, ms[0], ms[1]);
    forall m: Match | Hit(t, m, Zeros(), 0) ensures OneClause(m) {
      HitsAmong(ms, m, Zeros());
    }
    SatisfiedIsEligible(t, Zeros(), 0, PRIORITY, Conj(id, 0, 2));
  }

  /** The first conjunction has no rule, the search stops at it, and the second is
      missed, which is satisfied by as many rules as it has clauses and has a rule. */
  lemma StoppedShort() returns (t: Tables, flow: Bits, c: Conj)
    ensures Missed(t, flow, c) && Eligible(t, flow, 0, PRIORITY, c)
    ensures Eligible(t, flow, 0, PRIORITY, Conj(1, 0, 2)) && ById(t, flow, 0, 1).None?
  {
    hide And, Range, WithId, Zeros, Hit, SatisfiedBy, Eligible, Published, ScanAll, Resolve, ById;
    var ms := ThreeRules();
    t, flow, c := TablesOf(ms), Zeros(), Conj(2, 0, 2);
    ThreeSatisfied(1);
    ThreeSatisfied(2);
    Masked(1);
    Masked(2);
    IdsDiffer(1, 2);
    ThreeScanned(flow, true);
    ThreeScanned(WithId(1), false);
    ThreeScanned(WithId(2), false);
    ByIdOf(ms, 1);
    ByIdOf(ms, 2);
    StopsShort(t, flow, 0, ms[0], ms[1]);
  }

  /** Two rules: one in both clauses of a conjunction, and one for it. */
  ghost function TwoRules(): seq<Match>
  {
    [Member(Range(0, 0), [Conj(1, 0, 2), Conj(1, 1, 2)]), RuleFor(1)]
  }

  lemma TwoSingles()
    ensures Singles(TwoRules()) && Published(TablesOf(TwoRules()))
  {
    Masked(1);
    var ms := TwoRules();
    assert !ms[0].rule.mask[32] && ms[1].rule.mask[32];
    PublishedOf(ms);
  }

  lemma TwoScanned(flow: Bits, allowConj: bool)
    requires |flow| == WIDTH && And(flow, Range(0, 0)) == Zeros()
    ensures Published(TablesOf(TwoRules()))
    ensures var ms := TwoRules();
            ScanAll(TablesOf(ms), flow, 0, allowConj) ==
            Scan(if And(flow, Range(32, 64)) == WithId(1) then Some(ms[1]) else None,
                 if allowConj then [[ms[0]]] else [])
  {
    TwoSingles();
    hide Singles, Published, And, Range, WithId, Zeros, Single;
    var ms := TwoRules();
    var s0 := Scan(None, []);
    ScanOne(ms, 0, s0, flow, allowConj);
    var s1 := Step(s0, [ms[0]], allowConj);
    ScanOne(ms, 1, s1, flow, allowConj);
  }

  lemma OnlyOneHit()
    ensures Hit(TablesOf(TwoRules()), TwoRules()[0], Zeros(), 0)
    ensures HitsAt(TablesOf(TwoRules()), Zeros(), 0, PRIORITY) == {TwoRules()[0]}
  {
    hide And, Range, WithId, Zeros, Hit, Published;
    var ms := TwoRules();
    TwoSingles();
    Masked(1);
    IdsDiffer(1, 2);
    HoldsOne(ms, 0, Zeros());
    forall m: Match | Hit(TablesOf(ms), m, Zeros(), 0) ensures m == ms[0] {
      HitsAmong(ms, m, Zeros());
    }
  }

  lemma TooFew(t: Tables, flow: Bits, c: Conj, m: Match)
    requires HitsAt(t, flow, 0, PRIORITY) == {m} && c.nClauses > 1
    ensures !Eligible(t, flow, 0, PRIORITY, c)
  {
  }

  /** One rule satisfies the conjunction, which has more clauses than that. */
  lemma SkippedTwice() returns (t: Tables, flow: Bits, c: Conj)
    ensures Missed(t, flow, c) && !Eligible(t, flow, 0, PRIORITY, c)
  {
    hide And, Range, WithId, Zeros, Hit, SatisfiedBy, Eligible, Published, ScanAll, Resolve, ById;
    var ms := TwoRules();
    t, flow, c := TablesOf(ms), Zeros(), Conj(1, 0, 2);
    OnlyOneHit();
    TooFew(t, flow, c, ms[0]);
    CoveredTwice(t, flow, 1, ms[0], ms[0]);
    Masked(1);
    IdsDiffer(1, 2);
    TwoScanned(flow, true);
    TwoScanned(WithId(1), false);
    ByIdOf(ms, 1);
    PassesOver(t, flow, 0, ms[0]);
  }
}

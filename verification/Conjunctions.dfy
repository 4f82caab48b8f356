/** Conjunctive matches: counting which clauses of which conjunctions the soft
    matches of one priority cover. */
module Conjunctions {
  import opened ClassifierModel
  import opened Options

  const CLAUSE_BITS: nat := 64

  /** For each conjunction seen so far, the 1-bits of its 64-bit clause mask. */
  type Clauses = map<nat, set<nat>>

  function BitRange(lo: nat, hi: nat): (r: set<nat>)
    requires lo <= hi
    ensures forall k :: k in r <==> lo <= k < hi
    decreases hi - lo
  {
    if lo == hi then {} else {lo} + BitRange(lo + 1, hi)
  }

  predicate Full(bits: set<nat>)
  {
    forall k | 0 <= k < CLAUSE_BITS :: k in bits
  }

  /** The mask of a conjunction met for the first time: all ones shifted left by
      the low six bits of its number of clauses. */
  function FreshMask(nClauses: nat): set<nat>
  {
    BitRange(nClauses % CLAUSE_BITS, CLAUSE_BITS)
  }

  /** The effect of one membership. */
  function AddClause(seen: Clauses, c: Conj): Clauses
  {
    seen[c.id := (if c.id in seen then seen[c.id] else FreshMask(c.nClauses)) + {c.clause}]
  }

  datatype Found = Found(id: Option<nat>, seen: Clauses)

  /** The memberships from `i` on, up to the first conjunction that becomes full. */
  function FindConj(conj: seq<Conj>, i: nat, max: nat, seen: Clauses): Found
    requires i <= |conj|
    decreases |conj| - i
  {
    if i == |conj| then Found(None, seen)
    else if conj[i].nClauses > max then FindConj(conj, i + 1, max, seen)
    else
      var seen' := AddClause(seen, conj[i]);
      if Full(seen'[conj[i].id]) then Found(Some(conj[i].id), seen')
      else FindConj(conj, i + 1, max, seen')
  }

  lemma {:induction false} NoneFits(conj: seq<Conj>, i: nat, max: nat, seen: Clauses)
    requires i <= |conj| && forall c | c in conj :: c.nClauses > max
    ensures FindConj(conj, i, max, seen) == Found(None, seen)
    decreases |conj| - i
  {
    if i < |conj| {
      NoneFits(conj, i + 1, max, seen);
    }
  }

  /** The loop, with the shortcut for rules whose every conjunction needs more
      clauses than there are soft matches. */
  method FindConjunctiveMatch(conj: seq<Conj>, max: nat, seen: Clauses) returns (r: Found)
    ensures r == FindConj(conj, 0, max, seen)
  {
    var i := 0;
    if forall c | c in conj :: c.nClauses > max {
      NoneFits(conj, 0, max, seen);
      return Found(None, seen);
    }
    var now: Clauses := seen;
    while i < |conj|
      invariant i <= |conj| && FindConj(conj, 0, max, seen) == FindConj(conj, i, max, now)
    {
      var c := conj[i];
      if c.nClauses <= max {
        now := AddClause(now, c);
        if Full(now[c.id]) {
          return Found(Some(c.id), now);
        }
      }
      i := i + 1;
    }
    return Found(None, now);
  }

  // ---------------------------------------------------------------- soundness

  /** Some membership in `cs` is in clause `k` of conjunction `id`. */
  ghost predicate Covered(cs: set<Conj>, id: nat, k: nat)
  {
    exists c | c in cs :: c.id == id && c.clause == k
  }

  /** Every clause of conjunction `id`, of `n` clauses, is covered. */
  ghost predicate AllCovered(cs: set<Conj>, id: nat, n: nat)
  {
    forall k: nat | k < n :: Covered(cs, id, k)
  }

  /** The mask of each conjunction holds nothing but covered clauses and the bits
      it started with, where `cs` are the memberships added so far. */
  ghost predicate SeenOk(seen: Clauses, cs: set<Conj>)
  {
    forall id | id in seen :: exists c | c in cs ::
      c.id == id && forall k | k in seen[id] :: k >= c.nClauses % CLAUSE_BITS || Covered(cs, id, k)
  }

  lemma AddClauseOk(seen: Clauses, cs: set<Conj>, c: Conj)
    requires SeenOk(seen, cs)
    ensures SeenOk(AddClause(seen, c), cs + {c})
  {
    var seen', cs' := AddClause(seen, c), cs + {c};
    forall id | id in seen'
      ensures exists d | d in cs' ::
                d.id == id && forall k | k in seen'[id] :: k >= d.nClauses % CLAUSE_BITS || Covered(cs', id, k)
    {
      var d := c;
      if id in seen {
        d :| d in cs && d.id == id && forall k | k in seen[id] :: k >= d.nClauses % CLAUSE_BITS || Covered(cs, id, k);
      }
      forall k | k in seen'[id] ensures k >= d.nClauses % CLAUSE_BITS || Covered(cs', id, k) {
        if id == c.id && k == c.clause {
          assert c in cs';
        } else if id in seen && Covered(cs, id, k) {
          var e :| e in cs && e.id == id && e.clause == k;
          assert e in cs';
        }
      }
      assert d in cs';
    }
  }

  /** The memberships a call may have added. */
  ghost function Members(conj: seq<Conj>): set<Conj>
  {
    set c | c in conj
  }

  lemma {:induction false} FindConjOk(conj: seq<Conj>, i: nat, max: nat, seen: Clauses, cs: set<Conj>)
    requires i <= |conj| && SeenOk(seen, cs) && Members(conj) <= cs
    ensures SeenOk(FindConj(conj, i, max, seen).seen, cs)
    ensures var f := FindConj(conj, i, max, seen); f.id.Some? ==> f.id.value in f.seen && Full(f.seen[f.id.value])
    decreases |conj| - i
  {
    if i < |conj| {
      assert conj[i] in Members(conj);
      AddClauseOk(seen, cs, conj[i]);
      assert cs + {conj[i]} == cs;
      if conj[i].nClauses > max {
        FindConjOk(conj, i + 1, max, seen, cs);
      } else {
        FindConjOk(conj, i + 1, max, AddClause(seen, conj[i]), cs);
      }
    }
  }

  /** A conjunction reported full has a member whose clause count, taken modulo
      64, is covered clause by clause. */
  lemma FullIsCovered(seen: Clauses, cs: set<Conj>, id: nat) returns (c: Conj)
    requires SeenOk(seen, cs) && id in seen && Full(seen[id])
    ensures c in cs && c.id == id && AllCovered(cs, id, c.nClauses % CLAUSE_BITS)
  {
    c :| c in cs && c.id == id && forall k | k in seen[id] :: k >= c.nClauses % CLAUSE_BITS || Covered(cs, id, k);
  }

  // ------------------------------------------------------------- completeness

  /** Every added membership left its bit, and no mask is full. */
  ghost predicate Recorded(seen: Clauses, cs: set<Conj>, max: nat)
  {
    && (forall c | c in cs && c.nClauses <= max :: c.id in seen && c.clause in seen[c.id])
    && (forall id | id in seen :: !Full(seen[id]))
  }

  /** Every mask has the bits above the clause count of the members of its
      conjunction. */
  ghost predicate HighBitsOk(seen: Clauses, all: set<Conj>)
  {
    forall c | c in all && c.id in seen :: BitRange(c.nClauses % CLAUSE_BITS, CLAUSE_BITS) <= seen[c.id]
  }

  /** Members of one conjunction state the same number of clauses. */
  ghost predicate Consistent(all: set<Conj>)
  {
    forall c, d | c in all && d in all && c.id == d.id :: c.nClauses == d.nClauses
  }

  lemma {:induction false} FindConjRecords(conj: seq<Conj>, i: nat, max: nat, seen: Clauses, cs: set<Conj>,
                                           all: set<Conj>)
    requires i <= |conj| && Members(conj) <= all && Consistent(all)
    requires Recorded(seen, cs + Members(conj[..i]), max) && HighBitsOk(seen, all)
    requires FindConj(conj, i, max, seen).id.None?
    ensures Recorded(FindConj(conj, i, max, seen).seen, cs + Members(conj), max)
    ensures HighBitsOk(FindConj(conj, i, max, seen).seen, all)
    decreases |conj| - i
  {
    if i == |conj| {
      assert conj[..i] == conj;
    } else {
      assert conj[i] in Members(conj);
      assert Members(conj[..i + 1]) == Members(conj[..i]) + {conj[i]} by {
        assert conj[..i + 1] == conj[..i] + [conj[i]];
      }
      if conj[i].nClauses > max {
        FindConjRecords(conj, i + 1, max, seen, cs, all);
      } else {
        FindConjRecords(conj, i + 1, max, AddClause(seen, conj[i]), cs, all);
      }
    }
  }

  /** If no mask became full then no conjunction that fits is covered. */
  lemma NoneFullNoneCovered(seen: Clauses, cs: set<Conj>, max: nat, c: Conj)
    requires Recorded(seen, cs, max) && HighBitsOk(seen, cs) && Consistent(cs)
    requires c in cs && c.nClauses <= max && c.nClauses <= CLAUSE_BITS
    ensures !AllCovered(cs, c.id, c.nClauses)
  {
    var bits := seen[c.id];
    var k :| 0 <= k < CLAUSE_BITS && k !in bits;
    assert forall d | d in cs && d.id == c.id :: d.clause in bits;
    assert c.nClauses < CLAUSE_BITS ==> BitRange(c.nClauses, CLAUSE_BITS) <= bits;
    assert k < c.nClauses && !Covered(cs, c.id, k);
  }

  // ------------------------------------------------------- sixty-four clauses

  /** With 64 clauses the initial mask is already full, so a single member makes
      the conjunction look satisfied although 63 clauses are not covered. */
  lemma SixtyFourClauses(id: nat, clause: nat)
    requires clause < CLAUSE_BITS
    ensures var c := Conj(id, clause, CLAUSE_BITS);
            && FindConj([c], 0, CLAUSE_BITS, map[]).id == Some(id)
            && !AllCovered(Members([c]), id, CLAUSE_BITS)
  {
    var c := Conj(id, clause, CLAUSE_BITS);
    var other := if clause == 0 then 1 else 0;
    assert Members([c]) == {c};
    assert !Covered({c}, id, other);
  }

  /** A report on a conjunction of `n` clauses can be relied on: whatever the
      memberships, it comes only when all clauses are covered. */
  ghost predicate Reliable(n: nat)
  {
    forall conj: seq<Conj>, max: nat, id: nat |
      (forall c | c in conj && c.id == id :: c.nClauses == n) && FindConj(conj, 0, max, map[]).id == Some(id) ::
      AllCovered(Members(conj), id, n)
  }

  /** Of the clause counts that a conjunction may have, 64 is the only one whose
      reports cannot be relied on. */
  lemma ReliableBelowSixtyFour(n: nat)
    requires 2 <= n <= CLAUSE_BITS
    ensures Reliable(n) <==> n < CLAUSE_BITS
  {
    if n < CLAUSE_BITS {
      forall conj: seq<Conj>, max: nat, id: nat |
        (forall c | c in conj && c.id == id :: c.nClauses == n) && FindConj(conj, 0, max, map[]).id == Some(id)
        ensures AllCovered(Members(conj), id, n)
      {
        FindConjOk(conj, 0, max, map[], Members(conj));
        var c := FullIsCovered(FindConj(conj, 0, max, map[]).seen, Members(conj), id);
      }
    } else {
      SixtyFourClauses(0, 0);
    }
  }
}

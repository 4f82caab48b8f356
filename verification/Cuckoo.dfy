/** The cuckoo hash table on values: where entries may be, what a table stands
    for, and moving entries backward along a path to make room. */
module Cuckoo {
  import opened Options

  /** A slot of a bucket.  An unused slot keeps the hash it last had. */
  datatype Slot<V> = Slot(hash: nat, val: Option<V>)

  type Table<V> = seq<seq<Slot<V>>>

  /** Slot `j` of bucket `b`. */
  datatype Pos = Pos(b: nat, j: nat)

  /** Exchanges the 16-bit halves of a 32-bit value. */
  function OtherHash(h: nat): nat
  {
    (h % 0x1_0000) * 0x1_0000 + (h / 0x1_0000) % 0x1_0000
  }

  lemma OtherHashSymmetric(h: nat)
    requires h < 0x1_0000_0000
    ensures OtherHash(h) < 0x1_0000_0000 && OtherHash(OtherHash(h)) == h
  {
    var hi, lo := h / 0x1_0000, h % 0x1_0000;
    assert OtherHash(h) == lo * 0x1_0000 + hi;
    assert (lo * 0x1_0000 + hi) % 0x1_0000 == hi && (lo * 0x1_0000 + hi) / 0x1_0000 == lo;
  }

  /** Slots per bucket, number of buckets, and the hash function in force. */
  datatype Geometry = Geometry(k: nat, nb: nat, rehash: nat -> nat)
  {
    ghost predicate Valid() { k > 0 && nb > 0 }

    /** The two buckets an entry may be in. */
    function B1(hash: nat): (b: nat)
      requires nb > 0
      ensures b < nb
    {
      rehash(hash) % nb
    }

    function B2(hash: nat): (b: nat)
      requires nb > 0
      ensures b < nb
    {
      OtherHash(rehash(hash)) % nb
    }

    /** The other bucket for an entry that is in bucket `b`. */
    function Other(b: nat, hash: nat): (r: nat)
      requires nb > 0
      ensures r < nb
      ensures b == B1(hash) || b == B2(hash) ==> {b, r} == {B1(hash), B2(hash)}
    {
      if B1(hash) == b then B2(hash) else B1(hash)
    }

    predicate Candidate(b: nat, hash: nat)
      requires nb > 0
    {
      b == B1(hash) || b == B2(hash)
    }
  }

  // ------------------------------------------------------- what a table means

  ghost predicate Shaped<V>(g: Geometry, t: Table<V>)
  {
    g.Valid() && |t| == g.nb && forall b | 0 <= b < |t| :: |t[b]| == g.k
  }

  predicate Within(g: Geometry, p: Pos)
  {
    p.b < g.nb && p.j < g.k
  }

  function At<V>(g: Geometry, t: Table<V>, p: Pos): Slot<V>
    requires Shaped(g, t) && Within(g, p)
  {
    t[p.b][p.j]
  }

  /** A slot in use, other than the hole. */
  ghost predicate Used<V>(g: Geometry, t: Table<V>, hole: Option<Pos>, p: Pos)
    requires Shaped(g, t)
  {
    Within(g, p) && hole != Some(p) && At(g, t, p).val.Some?
  }

  /** What an entry at `p` asks of slot `q`: no earlier slot of the bucket carries
      its hash, and if the entry is in its second bucket, neither does the first. */
  ghost predicate Clear<V>(g: Geometry, t: Table<V>, p: Pos, q: Pos)
    requires Shaped(g, t) && Within(g, p) && Within(g, q)
  {
    var h := At(g, t, p).hash;
    && (q.b == p.b && q.j < p.j ==> At(g, t, q).hash != h)
    && (p.b != g.B1(h) && q.b == g.B1(h) ==> At(g, t, q).hash != h)
  }

  /** Every entry of `m` is where `loc` says, in one of its two buckets. */
  ghost predicate Placed<V>(g: Geometry, t: Table<V>, hole: Option<Pos>, m: map<nat, V>, loc: map<nat, Pos>)
    requires Shaped(g, t)
  {
    && loc.Keys == m.Keys
    && forall h | h in m ::
         Used(g, t, hole, loc[h]) && At(g, t, loc[h]) == Slot(h, Some(m[h])) && g.Candidate(loc[h].b, h)
  }

  /** Every slot in use is where `loc` says its hash is. */
  ghost predicate Owned<V>(g: Geometry, t: Table<V>, hole: Option<Pos>, loc: map<nat, Pos>)
    requires Shaped(g, t)
  {
    forall p | Used(g, t, hole, p) :: At(g, t, p).hash in loc && loc[At(g, t, p).hash] == p
  }

  ghost predicate AllClear<V>(g: Geometry, t: Table<V>, hole: Option<Pos>, loc: map<nat, Pos>)
    requires Shaped(g, t)
  {
    forall h, q | h in loc && Within(g, loc[h]) && Within(g, q) && hole != Some(q) :: Clear(g, t, loc[h], q)
  }

  /** Leaving the hole aside, the table holds exactly the entries of `m`, each in
      one place, which `loc` gives. */
  ghost predicate Stands<V>(g: Geometry, t: Table<V>, hole: Option<Pos>, m: map<nat, V>, loc: map<nat, Pos>)
  {
    && Shaped(g, t)
    && Placed(g, t, hole, m, loc)
    && Owned(g, t, hole, loc)
    && AllClear(g, t, hole, loc)
  }

  function Set<V>(g: Geometry, t: Table<V>, p: Pos, s: Slot<V>): (r: Table<V>)
    requires Shaped(g, t) && Within(g, p)
    ensures Shaped(g, r)
    ensures forall q | Within(g, q) :: At(g, r, q) == if q == p then s else At(g, t, q)
  {
    t[p.b := t[p.b][p.j := s]]
  }

  // ------------------------------------------------------------------- moving

  /** Every slot of the bucket before `p` is in use. */
  ghost predicate UsedBefore<V>(g: Geometry, t: Table<V>, p: Pos)
    requires Shaped(g, t) && Within(g, p)
  {
    forall q | Within(g, q) && q.b == p.b && q.j < p.j :: At(g, t, q).val.Some?
  }

  ghost predicate Full<V>(g: Geometry, t: Table<V>, b: nat)
    requires Shaped(g, t)
  {
    forall q | Within(g, q) && q.b == b :: At(g, t, q).val.Some?
  }

  /** The entry at `p0` can be copied into the hole `p`. */
  ghost predicate CanMove<V>(g: Geometry, t: Table<V>, m: map<nat, V>, loc: map<nat, Pos>, p: Pos, p0: Pos)
  {
    && Within(g, p) && Within(g, p0) && p0.b != p.b && Stands(g, t, Some(p), m, loc)
    && Full(g, t, p0.b) && UsedBefore(g, t, p) && g.Other(p0.b, At(g, t, p0).hash) == p.b
  }

  /** Filling the hole `p` with the entry at `p0`, whose other bucket is that of
      `p`, turns `p0` into the hole. */
  lemma MoveOne<V>(g: Geometry, t: Table<V>, m: map<nat, V>, loc: map<nat, Pos>, p: Pos, p0: Pos)
    requires CanMove(g, t, m, loc, p, p0)
    ensures var s := At(g, t, p0);
            && s.hash in m && s == Slot(s.hash, Some(m[s.hash])) && loc[s.hash] == p0
            && Stands(g, Set(g, t, p, s), Some(p0), m, loc[s.hash := p])
  {
    hide Owned, Placed, Clear;
    MovePlaced(g, t, m, loc, p, p0);
    MoveOwned(g, t, m, loc, p, p0);
    PlacedKeys(g, t, Some(p), m, loc);
    var s := At(g, t, p0);
    var r: Table<V> := Set(g, t, p, s);
    var loc' := loc[s.hash := p];
    forall h, q | h in loc' && Within(g, loc'[h]) && Within(g, q) && q != p0 ensures Clear(g, r, loc'[h], q) {
      MoveOneClear(g, t, m, loc, p, p0, h, q);
    }
  }

  lemma MovePlaced<V>(g: Geometry, t: Table<V>, m: map<nat, V>, loc: map<nat, Pos>, p: Pos, p0: Pos)
    requires CanMove(g, t, m, loc, p, p0)
    ensures var s := At(g, t, p0);
            && s.hash in m && s == Slot(s.hash, Some(m[s.hash])) && loc[s.hash] == p0
            && Placed(g, Set(g, t, p, s), Some(p0), m, loc[s.hash := p])
  {
    hide AllClear;
    assert Used(g, t, Some(p), p0);
  }

  lemma MoveOwned<V>(g: Geometry, t: Table<V>, m: map<nat, V>, loc: map<nat, Pos>, p: Pos, p0: Pos)
    requires CanMove(g, t, m, loc, p, p0)
    ensures var s := At(g, t, p0);
            Owned(g, Set(g, t, p, s), Some(p0), loc[s.hash := p])
  {
    hide AllClear;
    var s := At(g, t, p0);
    var r: Table<V> := Set(g, t, p, s);
    assert Used(g, t, Some(p), p0);
    forall q | Used(g, r, Some(p0), q)
      ensures At(g, r, q).hash in loc && loc[s.hash := p][At(g, r, q).hash] == q
    {
      if q != p {
        assert Used(g, t, Some(p), q);
      }
    }
  }

  lemma MoveOneClear<V>(g: Geometry, t: Table<V>, m: map<nat, V>, loc: map<nat, Pos>, p: Pos, p0: Pos, h: nat, q: Pos)
    requires CanMove(g, t, m, loc, p, p0)
    requires At(g, t, p0).hash in m && loc[At(g, t, p0).hash] == p0
    requires h in m && Within(g, q) && q != p0
    ensures var s := At(g, t, p0);
            Clear(g, Set(g, t, p, s), if h == s.hash then p else loc[h], q)
  {
    var s := At(g, t, p0);
    if h == s.hash {
      if q != p && (q.b == p0.b || (q.b == p.b && q.j < p.j)) {
        assert Used(g, t, Some(p), q);
      }
    } else if q != p {
      assert Clear(g, t, loc[h], q);
    }
  }

  /** A new entry can be put in the hole: no slot that comes first has its hash. */
  ghost predicate CanFill<V>(g: Geometry, t: Table<V>, m: map<nat, V>, loc: map<nat, Pos>, p: Pos, h: nat)
  {
    && Within(g, p) && Stands(g, t, Some(p), m, loc) && h !in m && g.Candidate(p.b, h)
    && (forall q | Within(g, q) && q.b == p.b && q.j < p.j :: At(g, t, q).hash != h)
    && (p.b != g.B1(h) ==> forall q | Within(g, q) && q.b == g.B1(h) :: At(g, t, q).hash != h)
  }

  lemma FillClear<V>(g: Geometry, t: Table<V>, m: map<nat, V>, loc: map<nat, Pos>, p: Pos, h: nat, v: V, x: nat, q: Pos)
    requires CanFill(g, t, m, loc, p, h) && (x == h || x in m) && Within(g, q)
    ensures Clear(g, Set(g, t, p, Slot(h, Some(v))), if x == h then p else loc[x], q)
  {
    if x != h && q != p {
      assert Clear(g, t, loc[x], q);
    }
  }

  lemma FillOwned<V>(g: Geometry, t: Table<V>, m: map<nat, V>, loc: map<nat, Pos>, p: Pos, h: nat, v: V)
    requires CanFill(g, t, m, loc, p, h)
    ensures Owned(g, Set(g, t, p, Slot(h, Some(v))), None, loc[h := p])
  {
    hide AllClear;
    var r: Table<V> := Set(g, t, p, Slot(h, Some(v)));
    forall q | Used(g, r, None, q) ensures At(g, r, q).hash in loc[h := p] && loc[h := p][At(g, r, q).hash] == q {
      if q != p {
        assert Used(g, t, Some(p), q);
      }
    }
  }

  lemma FillPlaced<V>(g: Geometry, t: Table<V>, m: map<nat, V>, loc: map<nat, Pos>, p: Pos, h: nat, v: V)
    requires CanFill(g, t, m, loc, p, h)
    ensures Placed(g, Set(g, t, p, Slot(h, Some(v))), None, m[h := v], loc[h := p])
  {
    hide AllClear, Owned;
  }

  /** Filling the hole with a new entry. */
  lemma FillNew<V>(g: Geometry, t: Table<V>, m: map<nat, V>, loc: map<nat, Pos>, p: Pos, h: nat, v: V)
    requires CanFill(g, t, m, loc, p, h)
    ensures Stands(g, Set(g, t, p, Slot(h, Some(v))), None, m[h := v], loc[h := p])
  {
    hide Owned, Placed, Clear;
    FillOwned(g, t, m, loc, p, h, v);
    FillPlaced(g, t, m, loc, p, h, v);
    var r: Table<V> := Set(g, t, p, Slot(h, Some(v)));
    var loc' := loc[h := p];
    PlacedKeys(g, t, Some(p), m, loc);
    forall x, q | x in loc' && Within(g, loc'[x]) && Within(g, q) ensures Clear(g, r, loc'[x], q) {
      FillClear(g, t, m, loc, p, h, v, x, q);
    }
  }

  lemma PlacedKeys<V>(g: Geometry, t: Table<V>, hole: Option<Pos>, m: map<nat, V>, loc: map<nat, Pos>)
    requires Stands(g, t, hole, m, loc)
    ensures loc.Keys == m.Keys
  {
  }

  /** Changing the value of an entry in place. */
  lemma ChangeValue<V>(g: Geometry, t: Table<V>, m: map<nat, V>, loc: map<nat, Pos>, h: nat, v: V)
    requires Stands(g, t, None, m, loc) && h in m
    ensures Stands(g, Set(g, t, loc[h], Slot(h, Some(v))), None, m[h := v], loc)
  {
    var r: Table<V> := Set(g, t, loc[h], Slot(h, Some(v)));
    assert Owned(g, r, None, loc) by {
      forall q | Used(g, r, None, q) ensures At(g, r, q).hash in loc && loc[At(g, r, q).hash] == q {
        assert Used(g, t, None, q);
      }
    }
    assert AllClear(g, r, None, loc) by {
      forall x, q | x in loc && Within(g, loc[x]) && Within(g, q) ensures Clear(g, r, loc[x], q) {
        assert Clear(g, t, loc[x], q);
      }
    }
  }

  /** Taking an entry out, which leaves its hash behind. */
  lemma TakeOut<V>(g: Geometry, t: Table<V>, m: map<nat, V>, loc: map<nat, Pos>, h: nat)
    requires Stands(g, t, None, m, loc) && h in m
    ensures Stands(g, Set(g, t, loc[h], Slot(h, None)), None, m - {h}, loc - {h})
  {
    var r: Table<V> := Set(g, t, loc[h], Slot(h, None));
    assert Owned(g, r, None, loc - {h}) by {
      forall q | Used(g, r, None, q) ensures At(g, r, q).hash in loc - {h} && loc[At(g, r, q).hash] == q {
        assert Used(g, t, None, q);
      }
    }
    assert AllClear(g, r, None, loc - {h}) by {
      forall x, q | x in loc - {h} && Within(g, loc[x]) && Within(g, q) ensures Clear(g, r, loc[x], q) {
        assert Clear(g, t, loc[x], q);
      }
    }
  }

  /** An unused slot is a hole. */
  lemma EmptyIsHole<V>(g: Geometry, t: Table<V>, m: map<nat, V>, loc: map<nat, Pos>, p: Pos)
    requires Stands(g, t, None, m, loc) && Within(g, p) && At(g, t, p).val.None?
    ensures Stands(g, t, Some(p), m, loc)
  {
    forall q | Used(g, t, Some(p), q) ensures At(g, t, q).hash in m && loc[At(g, t, q).hash] == q {
      assert Used(g, t, None, q);
    }
  }

  // ------------------------------------------------------------------ looking up

  /** The value of the first slot, from `j` on, with the hash. */
  function FindIn<V>(b: seq<Slot<V>>, h: nat, j: nat): Option<V>
    requires j <= |b|
    decreases |b| - j
  {
    if j == |b| then None else if b[j].hash == h then b[j].val else FindIn(b, h, j + 1)
  }

  /** What a reader of the table as it stands gets: the first candidate bucket,
      and if that has nothing, the second. */
  function Find<V>(g: Geometry, t: Table<V>, h: nat): Option<V>
    requires Shaped(g, t)
  {
    var v := FindIn(t[g.B1(h)], h, 0);
    if v.Some? then v else FindIn(t[g.B2(h)], h, 0)
  }

  function Get<V>(m: map<nat, V>, h: nat): Option<V>
  {
    if h in m then Some(m[h]) else None
  }

  /** The table answers every lookup as `m` does. */
  ghost predicate Answers<V>(g: Geometry, t: Table<V>, m: map<nat, V>)
  {
    Shaped(g, t) && forall h: nat :: Find(g, t, h) == Get(m, h)
  }

  lemma {:induction false} FindInFirst<V>(b: seq<Slot<V>>, h: nat, j: nat, i: nat)
    requires j <= i < |b| && b[i].hash == h && forall x | j <= x < i :: b[x].hash != h
    ensures FindIn(b, h, j) == b[i].val
    decreases i - j
  {
    if j < i {
      FindInFirst(b, h, j + 1, i);
    }
  }

  lemma {:induction false} FindInNone<V>(b: seq<Slot<V>>, h: nat, j: nat)
    requires j <= |b| && forall x | j <= x < |b| :: b[x].hash != h || b[x].val.None?
    ensures FindIn(b, h, j) == None
    decreases |b| - j
  {
    if j < |b| {
      FindInNone(b, h, j + 1);
    }
  }

  /** The hole, if there is one, repeats an entry that is in another bucket. */
  ghost predicate Copy<V>(g: Geometry, t: Table<V>, hole: Pos, m: map<nat, V>, loc: map<nat, Pos>)
    requires Shaped(g, t)
  {
    && Within(g, hole)
    && var x := At(g, t, hole).hash;
       x in m && x in loc && At(g, t, hole) == Slot(x, Some(m[x])) && loc[x].b != hole.b
  }

  lemma FindStands<V>(g: Geometry, t: Table<V>, hole: Option<Pos>, m: map<nat, V>, loc: map<nat, Pos>, h: nat)
    requires Stands(g, t, hole, m, loc) && (hole.Some? ==> Copy(g, t, hole.value, m, loc))
    ensures Find(g, t, h) == Get(m, h)
  {
    var b1, b2 := g.B1(h), g.B2(h);
    if h in m {
      FindPresent(g, t, hole, m, loc, h);
    } else {
      forall b, j | 0 <= b < g.nb && 0 <= j < g.k ensures t[b][j].hash != h || t[b][j].val.None? {
        if At(g, t, Pos(b, j)).val.Some? && hole != Some(Pos(b, j)) {
          assert Used(g, t, hole, Pos(b, j));
        }
      }
      FindInNone(t[b1], h, 0);
      FindInNone(t[b2], h, 0);
    }
  }

  lemma FindPresent<V>(g: Geometry, t: Table<V>, hole: Option<Pos>, m: map<nat, V>, loc: map<nat, Pos>, h: nat)
    requires Stands(g, t, hole, m, loc) && (hole.Some? ==> Copy(g, t, hole.value, m, loc)) && h in m
    ensures Find(g, t, h) == Some(m[h])
  {
    var b1, p := g.B1(h), loc[h];
    var copied := hole.Some? && At(g, t, hole.value).hash == h;
    forall b, j | 0 <= b < g.nb && 0 <= j < g.k && !(copied && hole == Some(Pos(b, j)))
      ensures b == p.b && j < p.j ==> t[b][j].hash != h
      ensures b == b1 && p.b != b1 ==> t[b][j].hash != h
    {
      var q := Pos(b, j);
      if hole != Some(q) {
        assert Clear(g, t, p, q);
      }
    }
    if p.b == b1 {
      FindInFirst(t[b1], h, 0, p.j);
    } else if copied && hole.value.b == b1 {
      FindInFirst(t[b1], h, 0, hole.value.j);
    } else {
      FindInNone(t[b1], h, 0);
      FindInFirst(t[p.b], h, 0, p.j);
    }
  }

  lemma StandsAnswers<V>(g: Geometry, t: Table<V>, hole: Option<Pos>, m: map<nat, V>, loc: map<nat, Pos>)
    requires Stands(g, t, hole, m, loc) && (hole.Some? ==> Copy(g, t, hole.value, m, loc))
    ensures Answers(g, t, m)
  {
    forall h: nat ensures Find(g, t, h) == Get(m, h) {
      FindStands(g, t, hole, m, loc, h);
    }
  }

  // -------------------------------------------------- what every reader relies on

  /** Slot `j` is the first of the bucket with the hash. */
  ghost predicate FirstIn<V>(b: seq<Slot<V>>, h: nat, j: nat)
  {
    j < |b| && b[j].hash == h && NoneBefore(b, h, j)
  }

  ghost predicate NoneBefore<V>(b: seq<Slot<V>>, h: nat, j: nat)
    requires j <= |b|
  {
    forall i | 0 <= i < j :: b[i].hash != h
  }

  /** Between changes: lookups are answered as in `m`, entries that are in two
      places agree, and a leftover hash in the first bucket hides no entry. */
  ghost predicate Coherent<V>(g: Geometry, t: Table<V>, m: map<nat, V>)
  {
    && Answers(g, t, m)
    && (forall p | Within(g, p) && At(g, t, p).val.Some? :: Get(m, At(g, t, p).hash) == At(g, t, p).val)
    && (forall h: nat, j: nat | FirstIn(t[g.B1(h)], h, j) && t[g.B1(h)][j].val.None? :: h !in m)
  }

  lemma StandsCoherent<V>(g: Geometry, t: Table<V>, hole: Option<Pos>, m: map<nat, V>, loc: map<nat, Pos>)
    requires Stands(g, t, hole, m, loc) && (hole.Some? ==> Copy(g, t, hole.value, m, loc))
    ensures Coherent(g, t, m)
  {
    StandsAnswers(g, t, hole, m, loc);
    hide Answers;
    forall p | Within(g, p) && At(g, t, p).val.Some? ensures Get(m, At(g, t, p).hash) == At(g, t, p).val {
      if hole != Some(p) {
        assert Used(g, t, hole, p);
      }
    }
    forall h: nat, j: nat | FirstIn(t[g.B1(h)], h, j) && t[g.B1(h)][j].val.None? ensures h !in m {
      if h in m {
        LeftoverHidesNone(g, t, hole, m, loc, h, j);
      }
    }
  }

  lemma LeftoverHidesNone<V>(g: Geometry, t: Table<V>, hole: Option<Pos>, m: map<nat, V>, loc: map<nat, Pos>, h: nat,
                             j: nat)
    requires Stands(g, t, hole, m, loc) && (hole.Some? ==> Copy(g, t, hole.value, m, loc))
    requires FirstIn(t[g.B1(h)], h, j) && h in m
    ensures t[g.B1(h)][j].val.Some?
  {
    var p, q := loc[h], Pos(g.B1(h), j);
    assert Used(g, t, hole, p) && At(g, t, p).hash == h;
    if hole == Some(q) {
      assert At(g, t, q).val.Some?;
    } else {
      assert Clear(g, t, p, q);
      hide Stands, AllClear, Owned, Placed;
      assert q.j >= p.j by {
        if p.b == q.b {
          assert t[q.b][p.j].hash == h;
        }
      }
    }
  }
}

/** A cuckoo hash table that is rehashed when it is too full, too empty or when no
    room can be made: what is common to the two concurrent hash maps. */
module ResizableTables {
  import opened Cuckoo
  import opened CuckooSearch
  import opened CuckooTables
  import opened LoadFactor
  import opened Powers
  import opened Options

  // ------------------------------------------------------------------- copying

  ghost predicate Before(p: Pos, b: nat, j: nat)
  {
    p.b < b || (p.b == b && p.j < j)
  }

  /** The entries that come before slot `j` of bucket `b`. */
  ghost function Upto<V>(m: map<nat, V>, loc: map<nat, Pos>, b: nat, j: nat): map<nat, V>
  {
    map h | h in m && h in loc && Before(loc[h], b, j) :: m[h]
  }

  lemma UptoNext<V>(g: Geometry, t: Table<V>, m: map<nat, V>, loc: map<nat, Pos>, p: Pos)
    requires Stands(g, t, None, m, loc) && Within(g, p)
    ensures var s := At(g, t, p);
            && (s.val.None? ==> Upto(m, loc, p.b, p.j + 1) == Upto(m, loc, p.b, p.j))
            && (s.val.Some? ==> s.hash in m && s.hash !in Upto(m, loc, p.b, p.j))
            && (s.val.Some? ==> Upto(m, loc, p.b, p.j + 1) == Upto(m, loc, p.b, p.j)[s.hash := s.val.value])
  {
    hide AllClear;
    var s := At(g, t, p);
    if s.val.Some? {
      assert Used(g, t, None, p);
    }
    forall h | h in m ensures loc[h] == p <==> s.val.Some? && s.hash == h {
      assert Used(g, t, None, loc[h]);
    }
  }

  lemma UptoRow<V>(g: Geometry, t: Table<V>, m: map<nat, V>, loc: map<nat, Pos>, b: nat)
    requires Stands(g, t, None, m, loc) && b < g.nb
    ensures Upto(m, loc, b, g.k) == Upto(m, loc, b + 1, 0)
  {
    forall h | h in m ensures Before(loc[h], b, g.k) <==> Before(loc[h], b + 1, 0) {
      assert Used(g, t, None, loc[h]);
    }
  }

  lemma UptoAll<V>(g: Geometry, t: Table<V>, m: map<nat, V>, loc: map<nat, Pos>)
    requires Stands(g, t, None, m, loc)
    ensures Upto(m, loc, 0, 0) == map[] && Upto(m, loc, g.nb, 0) == m
  {
    forall h | h in m ensures Before(loc[h], g.nb, 0) {
      assert Used(g, t, None, loc[h]);
    }
  }

  // -------------------------------------------------------------- when room runs out

  /** In a table with part of the keys, no room can be made for `x`, another one: as
      far as the search is sure to reach from its buckets every one is full. */
  ghost predicate StuckAt<V>(g: Geometry, t: Table<V>, m: map<nat, V>, loc: map<nat, Pos>, keys: set<nat>, x: nat)
  {
    && Stands(g, t, None, m, loc) && m.Keys <= keys && x in keys && x !in m
    && FullWithin(g, t, g.B1(x), g.B2(x), Cover(g.k))
  }

  /** The keys have been found not to fit. */
  ghost predicate NoRoom<V(!new)>(g: Geometry, keys: set<nat>)
  {
    exists t: Table<V>, m: map<nat, V>, loc, x :: StuckAt(g, t, m, loc, keys, x)
  }

  lemma NoRoomForMore<V(!new)>(g: Geometry, keys: set<nat>, more: set<nat>)
    requires NoRoom<V>(g, keys) && keys <= more
    ensures NoRoom<V>(g, more)
  {
    var t: Table<V>, m: map<nat, V>, loc, x :| StuckAt(g, t, m, loc, keys, x);
    assert StuckAt(g, t, m, loc, more, x);
  }

  ghost function Hashes<V>(g: Geometry, t: Table<V>, b: nat, n: nat): set<nat>
    requires Shaped(g, t) && b < g.nb && n <= g.k
  {
    if n == 0 then {} else Hashes(g, t, b, n - 1) + {t[b][n - 1].hash}
  }

  /** A full bucket holds as many keys as it has slots. */
  lemma {:induction false} FullBucket<V>(g: Geometry, t: Table<V>, m: map<nat, V>, loc: map<nat, Pos>, b: nat, n: nat)
    requires Stands(g, t, None, m, loc) && b < g.nb && n <= g.k && Full(g, t, b)
    ensures |Hashes(g, t, b, n)| == n && Hashes(g, t, b, n) <= m.Keys
    ensures forall h | h in Hashes(g, t, b, n) :: h in loc && loc[h].b == b && loc[h].j < n
    decreases n
  {
    hide Placed, Owned, AllClear, Full;
    if n > 0 {
      FullBucket(g, t, m, loc, b, n - 1);
      KeyOfSlot(g, t, m, loc, Pos(b, n - 1));
    }
  }

  lemma KeyOfSlot<V>(g: Geometry, t: Table<V>, m: map<nat, V>, loc: map<nat, Pos>, p: Pos)
    requires Stands(g, t, None, m, loc) && Within(g, p) && Full(g, t, p.b)
    ensures At(g, t, p).hash in m && At(g, t, p).hash in loc && loc[At(g, t, p).hash] == p
  {
    hide AllClear;
    assert Used(g, t, None, p);
  }

  /** No more keys than a bucket has slots always fit. */
  lemma FewFit<V(!new)>(g: Geometry, keys: set<nat>)
    requires NoRoom<V>(g, keys)
    ensures |keys| > g.k
  {
    hide Placed, Owned, AllClear, Cover;
    var t: Table<V>, m: map<nat, V>, loc, x :| StuckAt(g, t, m, loc, keys, x);
    var b := g.B1(x);
    assert Full(g, t, b) by {
      assert Walk(g, t, b, g.B2(x), [], [b]);
    }
    FullBucket(g, t, m, loc, b, g.k);
    SizeOfPart(Hashes(g, t, b, g.k), m.Keys);
    SizeOfPart(m.Keys + {x}, keys);
  }

  lemma {:induction false} SizeOfPart(a: set<nat>, b: set<nat>)
    requires a <= b
    ensures |a| <= |b|
    decreases |a|
  {
    if a != {} {
      var x :| x in a;
      SizeOfPart(a - {x}, b - {x});
    }
  }

  /** Inserts every entry of one table into another, empty one, until one does not
      fit. */
  method CopyAll<V(!new)>(from: CuckooTable<V>, to: CuckooTable<V>, join: (V, V) -> V, stale: bool) returns (ok: bool)
    requires from.Valid() && to.Valid() && to.m == map[] && from != to && from.buckets != to.buckets
    modifies to, to.buckets
    ensures to.Valid() && (ok ==> to.m == from.m)
    ensures !ok ==> NoRoom<V>(to.g, from.m.Keys)
  {
    hide Stands;
    ghost var t := from.buckets[..];
    UptoAll(from.g, t, from.m, from.loc);
    for b := 0 to from.buckets.Length
      invariant to.Valid() && from.Valid() && from.buckets[..] == t
      invariant to.m == Upto(from.m, from.loc, b, 0)
    {
      TableShape(from);
      for i := 0 to from.g.k
        invariant to.Valid() && from.Valid() && from.buckets[..] == t
        invariant to.m == Upto(from.m, from.loc, b, i)
      {
        TableShape(from);
        var s := from.buckets[b][i];
        UptoNext(from.g, t, from.m, from.loc, Pos(b, i));
        if s.val.Some? {
          var r, _ := to.TryPut(s.hash, s.val.value, join, stale);
          if r.None? {
            assert StuckAt(to.g, to.buckets[..], to.m, to.loc, from.m.Keys, s.hash);
            return false;
          }
        }
      }
      UptoRow(from.g, t, from.m, from.loc, b);
    }
    TableShape(from);
    ok := true;
  }

  lemma TableShape<V>(c: CuckooTable<V>)
    requires c.Valid()
    ensures Shaped(c.g, c.buckets[..])
  {
  }

  // ------------------------------------------------------------------ resizing

  /** A rehash can find its assertion false, and can run out of random numbers
      to try, of which the source has no end. */
  datatype Outcome = Done | Aborted | NoMoreBases

  /** The table's geometry under a random basis. */
  function GeometryOf(k: nat, nb: nat, finish: (nat, nat) -> nat, basis: nat): Geometry
  {
    Geometry(k, nb, h => finish(basis, h))
  }

  class ResizableTable<V(!new)> {
    const k: nat
    const stale: bool
    const join: (V, V) -> V
    const finish: (nat, nat) -> nat
    var impl: CuckooTable<V>
    var used: nat
    var maxN: nat
    var minN: nat
    ghost var e: nat

    ghost predicate Sized()
      reads this, impl, impl.buckets
    {
      && SlotCount(k) && impl.Valid() && impl.g.k == k
      && e <= MAX_LOG && impl.g.nb == Pow2(e)
      && ((maxN == MaxN(Pow2(e), k) && minN == MinN(Pow2(e), k)) || (e == 0 && maxN == 0 && minN == 0))
    }

    ghost predicate Valid()
      reads this, impl, impl.buckets
    {
      Sized() && used <= maxN
    }

    /** One empty bucket, which `lazy` tables never use. */
    constructor (k: nat, stale: bool, join: (V, V) -> V, finish: (nat, nat) -> nat, lazy: bool, basis: nat)
      requires SlotCount(k)
      ensures Valid() && fresh(impl) && fresh(impl.buckets) && impl.m == map[] && used == 0
      ensures this.k == k && this.join == join && this.stale == stale && this.finish == finish && e == 0
      ensures maxN == (if lazy then 0 else MaxN(1, k)) && impl.g == GeometryOf(k, 1, finish, basis)
    {
      this.k, this.stale, this.join, this.finish := k, stale, join, finish;
      impl := new CuckooTable<V>(GeometryOf(k, 1, finish, basis));
      used := 0;
      maxN := if lazy then 0 else MaxN(1, k);
      minN := if lazy then 0 else MinN(1, k);
      e := 0;
    }

    /** Under none of the first `n` bases do the keys fit into `nb` buckets. */
    ghost predicate InVain(bases: seq<nat>, n: int, nb: nat, keys: set<nat>)
    {
      forall i | 0 <= i < n && i < |bases| :: NoRoom<V>(GeometryOf(k, nb, finish, bases[i]), keys)
    }

    /** Of the bases, `tried` were tried before the outcome: all but a last one that
        succeeded in vain, and none was left if none did. */
    ghost predicate Tried(bases: seq<nat>, tried: nat, o: Outcome, nb: nat, keys: set<nat>)
    {
      && tried <= |bases|
      && (o.Done? ==> InVain(bases, tried - 1, nb, keys))
      && (o.NoMoreBases? ==> tried == |bases| && InVain(bases, tried, nb, keys))
    }

    /** Copies the table into a new one of `nb` buckets, under one random basis
        after another until every entry fits; `tried` says how many. */
    method Rehash(nb: nat, ghost f: nat, bases: seq<nat>) returns (o: Outcome, rest: seq<nat>, ghost tried: nat)
      requires Sized() && nb == Pow2(f) && (f <= MAX_LOG || used >= MaxN(nb, k))
      modifies `impl, `maxN, `minN, `e
      ensures o.Aborted? <==> used >= MaxN(nb, k)
      ensures !o.Done? ==> unchanged(this)
      ensures o.Done? ==> fresh(impl) && fresh(impl.buckets) && e == f && maxN == MaxN(nb, k)
      ensures Sized() && impl.m == old(impl.m)
      ensures Tried(bases, tried, o, nb, impl.m.Keys) && rest == bases[tried..]
      ensures o.Done? ==> 0 < tried && impl.g == GeometryOf(k, nb, finish, bases[tried - 1])
      ensures bases != [] && |impl.m.Keys| <= k && used < MaxN(nb, k) ==> o.Done?
    {
      hide Stands, NoRoom, MaxN, MinN, Pow2, InVain;
      NoneInVain(bases, nb, impl.m.Keys);
      if used >= MaxN(nb, k) {
        return Aborted, bases, 0;
      }
      for i := 0 to |bases|
        invariant unchanged(this) && Sized() && InVain(bases, i, nb, impl.m.Keys)
      {
        var basis := bases[i];
        var table := new CuckooTable<V>(GeometryOf(k, nb, finish, basis));
        var ok := CopyAll(impl, table, join, stale);
        if ok {
          impl, maxN, minN := table, MaxN(nb, k), MinN(nb, k);
          e := f;
          return Done, bases[i + 1..], i + 1;
        }
        OneMoreInVain(bases, i, nb, impl.m.Keys);
      }
      o, rest, tried := NoMoreBases, [], |bases|;
      if bases != [] {
        FewInVain(bases, nb, impl.m.Keys);
      }
    }

    /** The keys that a table must hold to have `h` as well. */
    ghost function KeysWith(h: nat): set<nat>
      reads this, impl
    {
      impl.m.Keys + {h}
    }

    /** How many buckets the table is to have for another entry. */
    ghost function Buckets(): nat
      reads this, impl
    {
      if used >= maxN then 2 * impl.g.nb else impl.g.nb
    }

    /** Adds `v` for the hash, growing the table first if it is too full, and
        rehashing it as long as no room can be made. */
    method Put(h: nat, v: V, bases: seq<nat>) returns (r: Option<V>, o: Outcome, rest: seq<nat>, ghost tried: nat)
      requires Valid()
      modifies this, impl, impl.buckets
      ensures Valid() && used == old(used)
      ensures impl == old(impl) || (fresh(impl) && fresh(impl.buckets))
      ensures o.Done? ==>
              r == Some(Joined(old(impl.m), h, v, join)) && impl.m == old(impl.m)[h := r.value] && used < maxN
      ensures !o.Done? ==> impl.m == old(impl.m)
      ensures o.Aborted? <==> old(used == maxN) && old(e) == MAX_LOG
      ensures o.Done? ==> e == if old(used == maxN) then old(e) + 1 else old(e)
      ensures Tried(bases, tried, o, old(Buckets()), old(KeysWith(h))) && rest == bases[tried..]
      ensures old(used < maxN) && (tried > 0 || !o.Done?) ==> NoRoom<V>(old(impl.g), old(KeysWith(h)))
      ensures |old(KeysWith(h))| <= k && (bases != [] || old(used < maxN)) ==> !o.NoMoreBases?
    {
      hide Stands, NoRoom, Tried, Joined, MaxN, MinN, Pow2;
      if used < maxN {
        ghost var g, keys := impl.g, KeysWith(h);
        r, o, rest, tried := Retry(h, v, bases);
        if !o.Done? {
          FewFit<V>(g, keys);
        }
      } else {
        r, o, rest, tried := Grow(h, v, bases);
      }
    }

    method Grow(h: nat, v: V, bases: seq<nat>) returns (r: Option<V>, o: Outcome, rest: seq<nat>, ghost tried: nat)
      requires Valid() && used >= maxN
      modifies this, impl, impl.buckets
      ensures Valid() && used == old(used)
      ensures impl == old(impl) || (fresh(impl) && fresh(impl.buckets))
      ensures o.Done? ==>
              r == Some(Joined(old(impl.m), h, v, join)) && impl.m == old(impl.m)[h := r.value] && used < maxN
      ensures !o.Done? ==> impl.m == old(impl.m)
      ensures o.Aborted? <==> old(e) == MAX_LOG
      ensures o.Done? ==> e == old(e) + 1
      ensures Tried(bases, tried, o, old(Buckets()), old(KeysWith(h))) && rest == bases[tried..]
      ensures |old(KeysWith(h))| <= k && bases != [] ==> !o.NoMoreBases?
    {
      hide Stands, MaxN, MinN, Pow2, NoRoom, InVain, Joined, Tried;
      ghost var keys, nb := KeysWith(h), Buckets();
      Room(e, k);
      o, rest, tried := Rehash(2 * impl.g.nb, e + 1, bases);
      MoreTried(bases, tried, o, nb, impl.m.Keys, keys);
      if !o.Done? {
        return None, o, rest, tried;
      }
      ghost var g, again := impl.g, 0;
      r, o, rest, again := Retry(h, v, rest);
      if !o.Done? {
        FewFit<V>(g, keys);
      }
      TriedAgain(bases, tried, again, o, nb, keys);
      tried := tried + again;
    }

    /** Tries to add `v` for the hash, and rehashes the table as long as no room can
        be made. */
    method Retry(h: nat, v: V, bases: seq<nat>) returns (r: Option<V>, o: Outcome, rest: seq<nat>, ghost tried: nat)
      requires Sized() && used < maxN
      modifies this, impl, impl.buckets
      ensures Sized() && used == old(used) < maxN && e == old(e) && !o.Aborted?
      ensures impl == old(impl) || (fresh(impl) && fresh(impl.buckets))
      ensures o.Done? ==> r == Some(Joined(old(impl.m), h, v, join)) && impl.m == old(impl.m)[h := r.value]
      ensures !o.Done? ==> impl.m == old(impl.m)
      ensures Tried(bases, tried, o, old(impl.g.nb), old(KeysWith(h))) && rest == bases[tried..]
      ensures tried > 0 || !o.Done? ==> NoRoom<V>(old(impl.g), old(KeysWith(h)))
    {
      hide Stands, Run, MaxN, MinN, Pow2, NoRoom, FullWithin, InVain, Joined, Tried, GeometryOf, CuckooTable.Valid;
      rest, tried := bases, 0;
      ghost var keys, nb := KeysWith(h), impl.g.nb;
      NoneInVain(bases, nb, keys);
      r, o := None, Done;
      while r.None?
        invariant Sized() && used == old(used) < maxN && o.Done? && e == old(e) && impl.g.nb == nb
        invariant impl == old(impl) || (fresh(impl) && fresh(impl.buckets))
        invariant impl.m == if r.None? then old(impl.m) else old(impl.m)[h := r.value]
        invariant r.Some? ==> r.value == Joined(old(impl.m), h, v, join)
        invariant tried <= |bases| && Tried(bases, tried, Done, nb, keys) && rest == bases[tried..]
        invariant tried == 0 ==> impl == old(impl) && impl.g == old(impl.g)
        invariant tried > 0 ==> impl.g == GeometryOf(k, nb, finish, bases[tried - 1])
        invariant tried > 0 ==> NoRoom<V>(old(impl.g), keys)
        decreases r.None?, |rest|
      {
        ghost var run;
        r, run := impl.TryPut(h, v, join, stale);
        if r.None? {
          FoundNoRoom(impl, keys, h);
          ghost var was, again := rest, 0;
          o, rest, again := Rehash(impl.g.nb, e, rest);
          TriedMore(bases, tried, was, again, o, nb, impl.m.Keys, keys);
          tried := tried + again;
          if !o.Done? {
            return None, o, rest, tried;
          }
        }
      }
    }

    lemma NoneInVain(bases: seq<nat>, nb: nat, keys: set<nat>)
      ensures InVain(bases, 0, nb, keys) && InVain(bases, -1, nb, keys) && Tried(bases, 0, Done, nb, keys)
    {
    }

    lemma OneMoreInVain(bases: seq<nat>, i: nat, nb: nat, keys: set<nat>)
      requires i < |bases| && InVain(bases, i, nb, keys) && NoRoom<V>(GeometryOf(k, nb, finish, bases[i]), keys)
      ensures InVain(bases, i + 1, nb, keys)
    {
    }

    /** A basis is tried in vain only if the keys are more than the slots of a bucket. */
    lemma FewInVain(bases: seq<nat>, nb: nat, keys: set<nat>)
      requires bases != [] && InVain(bases, |bases|, nb, keys)
      ensures |keys| > k
    {
      FewFit<V>(GeometryOf(k, nb, finish, bases[0]), keys);
    }

    /** What does not fit does not fit with more. */
    lemma MoreInVain(bases: seq<nat>, n: int, nb: nat, keys: set<nat>, more: set<nat>)
      requires keys <= more
      ensures InVain(bases, n, nb, keys) ==> InVain(bases, n, nb, more)
    {
      forall i | 0 <= i < |bases| && NoRoom<V>(GeometryOf(k, nb, finish, bases[i]), keys)
        ensures NoRoom<V>(GeometryOf(k, nb, finish, bases[i]), more)
      {
        NoRoomForMore<V>(GeometryOf(k, nb, finish, bases[i]), keys, more);
      }
    }

    lemma MoreTried(bases: seq<nat>, tried: nat, o: Outcome, nb: nat, keys: set<nat>, more: set<nat>)
      requires keys <= more && Tried(bases, tried, o, nb, keys)
      ensures tried <= |bases| && Tried(bases, tried, o, nb, more)
      ensures o.NoMoreBases? && bases != [] ==> |more| > k
    {
      MoreInVain(bases, tried, nb, keys, more);
      MoreInVain(bases, tried - 1, nb, keys, more);
      if o.NoMoreBases? && bases != [] {
        FewInVain(bases, nb, more);
      }
    }

    lemma TriedMore(bases: seq<nat>, tried: nat, left: seq<nat>, again: nat, o: Outcome, nb: nat, part: set<nat>,
                    keys: set<nat>)
      requires Tried(bases, tried, Done, nb, keys) && tried <= |bases| && left == bases[tried..]
      requires Tried(left, again, o, nb, part) && part <= keys
      requires tried > 0 ==> NoRoom<V>(GeometryOf(k, nb, finish, bases[tried - 1]), keys)
      ensures again <= |left| && tried + again <= |bases| && bases[tried + again..] == left[again..]
      ensures again > 0 ==> bases[tried + again - 1] == left[again - 1]
      ensures Tried(bases, tried + again, o, nb, keys)
    {
      hide NoRoom, GeometryOf, Tried, InVain;
      MoreTried(left, again, o, nb, part, keys);
      TriedAgain(bases, tried, again, o, nb, keys);
    }

    /** Bases tried one after the other, of which the last that succeeded turned out
        to leave no room either. */
    lemma TriedAgain(bases: seq<nat>, tried: nat, again: nat, o: Outcome, nb: nat, keys: set<nat>)
      requires Tried(bases, tried, Done, nb, keys) && tried <= |bases| && Tried(bases[tried..], again, o, nb, keys)
      requires tried > 0 && (again > 0 || !o.Done?) ==> NoRoom<V>(GeometryOf(k, nb, finish, bases[tried - 1]), keys)
      ensures tried + again <= |bases| && bases[tried + again..] == bases[tried..][again..]
      ensures again > 0 ==> bases[tried + again - 1] == bases[tried..][again - 1]
      ensures Tried(bases, tried + again, o, nb, keys)
    {
      hide NoRoom, GeometryOf;
      forall i | tried <= i < |bases| && NoRoom<V>(GeometryOf(k, nb, finish, bases[tried..][i - tried]), keys)
        ensures NoRoom<V>(GeometryOf(k, nb, finish, bases[i]), keys)
      {
      }
      assert forall i | tried <= i < |bases| :: bases[tried..][i - tried] == bases[i];
    }

    /** Counts an entry that was added. */
    method CountOne()
      requires Valid() && used < maxN
      modifies `used
      ensures Valid() && used == old(used) + 1
    {
      used := used + 1;
    }

    /** The logarithm of the number of buckets that the table shrinks to. */
    ghost function Lower(): nat
      reads this
    {
      if e == 0 then 0 else e - 1
    }

    /** Changes the entry for the hash or takes it out; if `less`, the table then
        counts one entry less and shrinks if it has become too empty. */
    method Change(h: nat, r: Option<V>, less: bool, bases: seq<nat>)
      returns (o: Outcome, rest: seq<nat>, ghost tried: nat)
      requires Valid() && h in impl.m && (less ==> used > 0)
      modifies this, impl, impl.buckets
      ensures Valid() && used == if less then old(used) - 1 else old(used)
      ensures impl == old(impl) || (fresh(impl) && fresh(impl.buckets))
      ensures impl.m == if r.Some? then old(impl.m)[h := r.value] else old(impl.m) - {h}
      ensures !o.Aborted?
      ensures if less && old(used - 1 < minN) then
                && Tried(bases, tried, o, Pow2(old(Lower())), impl.m.Keys) && rest == bases[tried..]
                && (o.Done? ==> e == old(Lower())) && (bases != [] && |impl.m.Keys| <= k ==> o.Done?)
              else o.Done? && e == old(e) && impl == old(impl) && rest == bases
    {
      hide Stands, Run, MaxN, MinN, Pow2, InVain, Tried;
      impl.Change(h, r);
      o, rest, tried := Done, bases, 0;
      if less {
        used := used - 1;
        if used < minN {
          Half(e, k);
          o, rest, tried := Rehash(if impl.g.nb == 1 then 1 else impl.g.nb / 2, if e == 0 then 0 else e - 1, rest);
        }
      }
    }
  }

  /** A table in which no room was found for a new key. */
  lemma FoundNoRoom<V(!new)>(c: CuckooTable<V>, keys: set<nat>, h: nat)
    requires c.Valid() && c.m.Keys <= keys && h in keys && h !in c.m
    requires FullWithin(c.g, c.buckets[..], c.g.B1(h), c.g.B2(h), Cover(c.g.k))
    ensures NoRoom<V>(c.g, keys)
  {
    assert StuckAt(c.g, c.buckets[..], c.m, c.loc, keys, h);
  }

  lemma Room(e: nat, k: nat)
    requires SlotCount(k) && e <= MAX_LOG
    ensures MaxN(Pow2(e), k) < MaxN(Pow2(e + 1), k) <==> e < MAX_LOG
    ensures MaxN(2, k) > 0 && Pow2(e + 1) == 2 * Pow2(e)
  {
    GrowthExact(e, k);
    GrowMakesRoom(0, k);
    assert Pow2(1) == 2;
  }

  lemma Half(e: nat, k: nat)
    requires SlotCount(k) && e <= MAX_LOG
    ensures MinN(Pow2(e), k) <= MaxN(Pow2(if e == 0 then 0 else e - 1), k)
    ensures Pow2(if e == 0 then 0 else e - 1) == if Pow2(e) == 1 then 1 else Pow2(e) / 2
  {
    ShrinkLeavesRoom(e, k);
  }
}

/** The cuckoo hash table in memory, changed one slot at a time. */
module CuckooTables {
  import opened Cuckoo
  import opened CuckooSearch
  import opened Options

  /** The two tables differ in at most one slot. */
  ghost predicate OneSlot<V>(g: Geometry, t: Table<V>, t': Table<V>)
  {
    Shaped(g, t) && Shaped(g, t') && exists p | Within(g, p) :: t' == Set(g, t, p, At(g, t', p))
  }

  /** They differ at most in the value of one slot, not its hash. */
  ghost predicate OneValue<V>(g: Geometry, t: Table<V>, t': Table<V>)
  {
    && Shaped(g, t) && Shaped(g, t')
    && exists p | Within(g, p) :: t' == Set(g, t, p, At(g, t, p).(val := At(g, t', p).val))
  }

  /** A run of tables from `t` to `t'`, one slot at a time, each of which but the
      last is coherent for `m`, so that a reader at any moment sees all of `m`. */
  ghost predicate Run<V>(g: Geometry, t: Table<V>, run: seq<Table<V>>, t': Table<V>, m: map<nat, V>)
  {
    && |run| > 0 && run[0] == t
    && (forall i | 0 <= i < |run| - 1 :: OneSlot(g, run[i], run[i + 1]))
    && OneSlot(g, run[|run| - 1], t')
    && (forall i | 0 <= i < |run| :: Coherent(g, run[i], m))
  }

  lemma RunExtend<V>(g: Geometry, t0: Table<V>, run: seq<Table<V>>, t: Table<V>, t': Table<V>, m: map<nat, V>)
    requires (run == [] && t == t0) || Run(g, t0, run, t, m)
    requires Coherent(g, t, m) && OneSlot(g, t, t')
    ensures Run(g, t0, run + [t], t', m)
  {
    hide Coherent, OneSlot;
  }

  lemma SetIsOneSlot<V>(g: Geometry, t: Table<V>, p: Pos, s: Slot<V>)
    requires Shaped(g, t) && Within(g, p)
    ensures OneSlot(g, t, Set(g, t, p, s))
    ensures s.hash == At(g, t, p).hash ==> OneValue(g, t, Set(g, t, p, s))
  {
    var t': Table<V> := Set(g, t, p, s);
    assert At(g, t', p) == s;
    assert s.hash == At(g, t, p).hash ==> At(g, t, p).(val := At(g, t', p).val) == s;
  }

  /** A path along which entries can be moved: from a candidate bucket through
      full and distinct buckets to the first empty slot of the last. */
  ghost predicate Movable<V>(g: Geometry, t: Table<V>, b1: nat, b2: nat, slots: seq<nat>, trail: seq<nat>)
    requires Shaped(g, t)
  {
    && |slots| == |trail| >= 2
    && Walk(g, t, b1, b2, slots[..|slots| - 1], trail)
    && Distinct(trail)
    && (forall i | 0 <= i < |trail| - 1 :: Full(g, t, trail[i]))
    && var last := Pos(trail[|trail| - 1], slots[|slots| - 1]);
       Within(g, last) && At(g, t, last).val.None? && UsedBefore(g, t, last)
  }

  lemma InQueue<V>(g: Geometry, t: Table<V>, b1: nat, b2: nat, queue: seq<Path>, log: Log, q: nat)
    requires Shaped(g, t) && SearchOk(g, t, b1, b2, queue, log) && q < |queue|
    ensures queue[q].end < g.nb && |queue| == |log.trails|
  {
    assert PathOk(g, t, b1, b2, queue, log, q);
  }

  /** When slot `i` of path `c` leads to a bucket with an empty slot, `c` was the
      first path to end where it does, so it never visits a bucket twice. */
  lemma FoundPath<V>(g: Geometry, t: Table<V>, b1: nat, b2: nat, queue: seq<Path>, log: Log, c: nat, i: nat, j: nat)
    requires Shaped(g, t) && SearchOk(g, t, b1, b2, queue, log) && Started(queue, b1, b2)
    requires Explored(g, t, queue, log, c, i) && c < |queue| && Extends(g, t, queue, c, i)
    requires var last := Pos(Hop(g, t, queue[c].end, i), j);
             Within(g, last) && At(g, t, last).val.None? && UsedBefore(g, t, last)
    ensures var trail := log.trails[c] + [Hop(g, t, queue[c].end, i)];
            Movable(g, t, b1, b2, queue[c].slots + [i, j], trail) && trail[0] == queue[c].start
  {
    var next := Hop(g, t, queue[c].end, i);
    assert !Full(g, t, next);
    assert FirstThere(queue, c) by {
      forall a | 0 <= a < c ensures queue[a].end != queue[c].end {
        assert Looked(g, t, queue, log, a, i);
      }
    }
    TrailDistinct(g, t, b1, b2, queue, log, c);
    TrailLeads(g, t, b1, b2, queue, log, c);
    hide SearchOk, Explored, Looked, PathOk;
    var trail := log.trails[c] + [next];
    var slots := queue[c].slots + [i, j];
    assert slots[..|slots| - 1] == queue[c].slots + [i];
    assert next !in log.trails[c];
    assert Distinct(trail);
  }

  /** And no shorter walk leads to an empty slot. */
  lemma FoundShortest<V>(g: Geometry, t: Table<V>, b1: nat, b2: nat, queue: seq<Path>, log: Log, c: nat, i: nat)
    requires Shaped(g, t) && SearchOk(g, t, b1, b2, queue, log) && Started(queue, b1, b2)
    requires Explored(g, t, queue, log, c, i) && c < |queue|
    ensures FullWithin(g, t, b1, b2, |queue[c].slots|)
  {
    assert PathOk(g, t, b1, b2, queue, log, c);
    forall a, s | 0 <= a < |queue| && |queue[a].slots| < |queue[c].slots| && 0 <= s < g.k
      ensures Looked(g, t, queue, log, a, s)
    {
      assert a < c;
    }
    ExploredFull(g, t, b1, b2, queue, log, |queue[c].slots|);
  }

  /** When the queue has been worked off without success. */
  lemma NothingFound<V>(g: Geometry, t: Table<V>, b1: nat, b2: nat, queue: seq<Path>, log: Log)
    requires Shaped(g, t) && SearchOk(g, t, b1, b2, queue, log) && Started(queue, b1, b2)
    requires Explored(g, t, queue, log, |queue|, 0) && Crowded(g.k, queue, log)
    ensures FullWithin(g, t, b1, b2, Cover(g.k))
    ensures |queue| < MAX_QUEUE ==> FullWithin(g, t, b1, b2, MAX_DEPTH + 1)
  {
    forall a, s | 0 <= a < |queue| && 0 <= s < g.k ensures Looked(g, t, queue, log, a, s) {
    }
    if |queue| < MAX_QUEUE {
      ExploredFull(g, t, b1, b2, queue, log, MAX_DEPTH + 1);
    } else {
      var last := |queue| - 1;
      if |queue[last].slots| < Cover(g.k) {
        NumberBound(g, t, b1, b2, queue, log, last, Cover(g.k) - 1);
      }
      ExploredFull(g, t, b1, b2, queue, log, Cover(g.k));
    }
  }

  lemma StartCrowded(k: nat, b1: nat, b2: nat)
    ensures Crowded(k, [Path(b1, b1, [])], Log([[b1]], [0], [0], map[]))
    ensures Crowded(k, [Path(b1, b1, []), Path(b2, b2, [])], Log([[b1], [b2]], [0, 0], [0, 0], map[]))
  {
  }

  function Stop(slots: seq<nat>, trail: seq<nat>, k: nat): Pos
    requires k < |slots| && k < |trail|
  {
    Pos(trail[k], slots[k])
  }

  /** Entries have been moved along the path `t0` had, back to stop `k`, which is
      now the hole. */
  ghost predicate Moved<V>(g: Geometry, t0: Table<V>, t: Table<V>, m: map<nat, V>, loc: map<nat, Pos>,
                           slots: seq<nat>, trail: seq<nat>, k: nat)
    requires Shaped(g, t0) && k < |slots| == |trail|
  {
    var p := Stop(slots, trail, k);
    && Within(g, p) && Stands(g, t, Some(p), m, loc) && UsedBefore(g, t, p)
    && (forall i | 0 <= i < k && trail[i] < g.nb :: t[trail[i]] == t0[trail[i]])
    && (forall b | 0 <= b < g.nb && Full(g, t0, b) :: Full(g, t, b))
    && (k < |slots| - 1 ==> Copy(g, t, p, m, loc))
    && (k == |slots| - 1 ==> Stands(g, t, None, m, loc))
  }

  lemma StopsOk<V>(g: Geometry, t0: Table<V>, t: Table<V>, m: map<nat, V>, loc: map<nat, Pos>,
                   b1: nat, b2: nat, slots: seq<nat>, trail: seq<nat>, k: nat)
    requires Shaped(g, t0) && Movable(g, t0, b1, b2, slots, trail)
    requires 0 < k < |slots| && Moved(g, t0, t, m, loc, slots, trail, k)
    ensures CanMove(g, t, m, loc, Stop(slots, trail, k), Stop(slots, trail, k - 1))
    ensures Full(g, t0, trail[k - 1]) && Distinct(trail)
  {
    var p, p0 := Stop(slots, trail, k), Stop(slots, trail, k - 1);
    var hops := slots[..|slots| - 1];
    assert hops[k - 1] == slots[k - 1] && trail[k] == Hop(g, t0, trail[k - 1], hops[k - 1]);
    assert Full(g, t0, trail[k - 1]);
    assert At(g, t, p0) == At(g, t0, p0);
  }

  lemma MoveStep<V>(g: Geometry, t0: Table<V>, t: Table<V>, m: map<nat, V>, loc: map<nat, Pos>,
                    b1: nat, b2: nat, slots: seq<nat>, trail: seq<nat>, k: nat)
    requires Shaped(g, t0) && Movable(g, t0, b1, b2, slots, trail)
    requires 0 < k < |slots| && Moved(g, t0, t, m, loc, slots, trail, k)
    ensures var p, p0 := Stop(slots, trail, k), Stop(slots, trail, k - 1);
            && Within(g, p) && Within(g, p0) && Shaped(g, t)
            && Moved(g, t0, Set(g, t, p, At(g, t, p0)), m, loc[At(g, t, p0).hash := p], slots, trail, k - 1)
  {
    hide Placed, AllClear, Owned, UsedBefore, Full, Hop;
    var p, p0 := Stop(slots, trail, k), Stop(slots, trail, k - 1);
    StopsOk(g, t0, t, m, loc, b1, b2, slots, trail, k);
    MoveOne(g, t, m, loc, p, p0);
    var s := At(g, t, p0);
    var r: Table<V> := Set(g, t, p, s);
    forall b | 0 <= b < g.nb && Full(g, t0, b) ensures Full(g, r, b) {
      SetKeepsFull(g, t, p, s, b);
    }
    FullIsUsedBefore(g, r, p0);
  }

  lemma SetKeepsFull<V>(g: Geometry, t: Table<V>, p: Pos, s: Slot<V>, b: nat)
    requires Shaped(g, t) && Within(g, p) && s.val.Some? && Full(g, t, b)
    ensures Full(g, Set(g, t, p, s), b)
  {
  }

  lemma FullIsUsedBefore<V>(g: Geometry, t: Table<V>, p: Pos)
    requires Shaped(g, t) && Within(g, p) && Full(g, t, p.b)
    ensures UsedBefore(g, t, p)
  {
  }

  /** The slots in use carry other hashes than one that has no entry. */
  lemma UsedIsOther<V>(g: Geometry, t: Table<V>, hole: Option<Pos>, m: map<nat, V>, loc: map<nat, Pos>, p: Pos, h: nat)
    requires Stands(g, t, hole, m, loc) && h !in m && Within(g, p) && (hole.Some? ==> hole.value == p)
    requires UsedBefore(g, t, p) && (p.b != g.B1(h) ==> Full(g, t, g.B1(h)))
    ensures forall q | Within(g, q) && q.b == p.b && q.j < p.j :: At(g, t, q).hash != h
    ensures p.b != g.B1(h) ==> forall q | Within(g, q) && q.b == g.B1(h) :: At(g, t, q).hash != h
  {
    forall q | Within(g, q) && ((q.b == p.b && q.j < p.j) || (p.b != g.B1(h) && q.b == g.B1(h)))
      ensures At(g, t, q).hash != h
    {
      assert Used(g, t, hole, q);
    }
  }

  ghost predicate Match<V>(g: Geometry, t: Table<V>, q: Pos, h: nat, stale: bool)
    requires Shaped(g, t) && Within(g, q)
  {
    At(g, t, q).hash == h && (stale || At(g, t, q).val.Some?)
  }

  /** The first match in its bucket. */
  ghost predicate First<V>(g: Geometry, t: Table<V>, p: Pos, h: nat, stale: bool)
    requires Shaped(g, t)
  {
    && Within(g, p) && Match(g, t, p, h, stale)
    && forall q | Within(g, q) && q.b == p.b && q.j < p.j :: !Match(g, t, q, h, stale)
  }

  ghost predicate NoMatch<V>(g: Geometry, t: Table<V>, b: nat, h: nat, stale: bool)
    requires Shaped(g, t)
  {
    forall q | Within(g, q) && q.b == b :: !Match(g, t, q, h, stale)
  }

  lemma EntryClear<V>(g: Geometry, t: Table<V>, m: map<nat, V>, loc: map<nat, Pos>, h: nat, p: Pos)
    requires Stands(g, t, None, m, loc) && h in m && Within(g, p)
    ensures Within(g, loc[h]) && g.Candidate(loc[h].b, h) && At(g, t, loc[h]) == Slot(h, Some(m[h]))
    ensures Clear(g, t, loc[h], p)
  {
    assert Used(g, t, None, loc[h]);
  }

  /** The first match is the entry for the hash, if there is one. */
  lemma FirstIsEntry<V>(g: Geometry, t: Table<V>, m: map<nat, V>, loc: map<nat, Pos>, p: Pos, h: nat, stale: bool)
    requires Stands(g, t, None, m, loc) && First(g, t, p, h, stale)
    requires p.b == g.B1(h) || (p.b == g.B2(h) && NoMatch(g, t, g.B1(h), h, stale))
    ensures h in m <==> At(g, t, p).val.Some?
    ensures h in m ==> loc[h] == p
  {
    if At(g, t, p).val.Some? {
      assert Used(g, t, None, p);
    }
    if h in m {
      EntryClear(g, t, m, loc, h, p);
      hide Placed, AllClear, Owned;
      assert Match(g, t, loc[h], h, stale);
    }
  }

  lemma NoMatchNoEntry<V>(g: Geometry, t: Table<V>, m: map<nat, V>, loc: map<nat, Pos>, h: nat, stale: bool)
    requires Stands(g, t, None, m, loc)
    requires NoMatch(g, t, g.B1(h), h, stale) && NoMatch(g, t, g.B2(h), h, stale)
    ensures h !in m
  {
    if h in m {
      assert Match(g, t, loc[h], h, stale);
    }
  }

  lemma EntryValue<V>(g: Geometry, t: Table<V>, m: map<nat, V>, loc: map<nat, Pos>, h: nat)
    requires Stands(g, t, None, m, loc) && h in m
    ensures Within(g, loc[h]) && At(g, t, loc[h]) == Slot(h, Some(m[h])) && loc[h := loc[h]] == loc
  {
    assert Used(g, t, None, loc[h]);
  }

  /** What a hash has after `v` is added to it. */
  function Joined<V>(m: map<nat, V>, h: nat, v: V, join: (V, V) -> V): V
  {
    if h in m then join(v, m[h]) else v
  }

  class CuckooTable<V> {
    const g: Geometry
    const buckets: array<seq<Slot<V>>>
    ghost var m: map<nat, V>
    ghost var loc: map<nat, Pos>

    ghost predicate Valid()
      reads this, buckets
    {
      Stands(g, buckets[..], None, m, loc)
    }

    constructor (g: Geometry)
      requires g.Valid()
      ensures Valid() && m == map[] && this.g == g && fresh(buckets)
    {
      this.g := g;
      buckets := new seq<Slot<V>>[g.nb](_ => seq(g.k, _ => Slot(0, None)));
      m := map[];
      loc := map[];
    }

    /** Looks the hash up in its two buckets. */
    method Lookup(h: nat) returns (v: Option<V>)
      requires Valid()
      ensures v == Get(m, h)
    {
      v := FindInBucket(g.B1(h), h);
      if v.None? {
        v := FindInBucket(g.B2(h), h);
      }
      FindStands(g, buckets[..], None, m, loc, h);
    }

    method FindInBucket(b: nat, h: nat) returns (v: Option<V>)
      requires Shaped(g, buckets[..]) && b < g.nb
      ensures v == FindIn(buckets[..][b], h, 0)
    {
      ghost var whole := FindIn(buckets[..][b], h, 0);
      for i := 0 to g.k
        invariant whole == FindIn(buckets[..][b], h, i)
      {
        if buckets[b][i].hash == h {
          return buckets[b][i].val;
        }
      }
      v := None;
    }

    /** The first slot with the hash, in use or, if `stale`, not. */
    method FindMatch(b: nat, h: nat, stale: bool) returns (j: Option<nat>)
      requires Shaped(g, buckets[..]) && b < g.nb
      ensures j.Some? ==> First(g, buckets[..], Pos(b, j.value), h, stale)
      ensures j.None? ==> NoMatch(g, buckets[..], b, h, stale)
    {
      for i := 0 to g.k
        invariant forall q | Within(g, q) && q.b == b && q.j < i :: !Match(g, buckets[..], q, h, stale)
      {
        if buckets[b][i].hash == h && (stale || buckets[b][i].val.Some?) {
          return Some(i);
        }
      }
      j := None;
    }

    /** The first empty slot of the bucket. */
    method FindEmpty(b: nat) returns (j: Option<nat>)
      requires Shaped(g, buckets[..]) && b < g.nb
      ensures j.Some? ==> var p := Pos(b, j.value);
                          Within(g, p) && At(g, buckets[..], p).val.None? && UsedBefore(g, buckets[..], p)
      ensures j.None? ==> Full(g, buckets[..], b)
    {
      for i := 0 to g.k
        invariant forall x | 0 <= x < i :: At(g, buckets[..], Pos(b, x)).val.Some?
      {
        if buckets[b][i].val.None? {
          return Some(i);
        }
      }
      j := None;
    }

    method SetSlot(p: Pos, s: Slot<V>)
      requires Shaped(g, buckets[..]) && Within(g, p)
      modifies buckets
      ensures buckets[..] == Set(g, old(buckets[..]), p, s)
      ensures OneSlot(g, old(buckets[..]), buckets[..])
      ensures s.hash == old(At(g, buckets[..], p)).hash ==> OneValue(g, old(buckets[..]), buckets[..])
    {
      SetIsOneSlot(g, buckets[..], p, s);
      buckets[p.b] := buckets[p.b][p.j := s];
    }

    /** The other bucket for the entry in the slot. */
    method OtherBucket(b: nat, j: nat) returns (next: nat)
      requires Shaped(g, buckets[..]) && b < g.nb && j < g.k
      ensures next == Hop(g, buckets[..], b, j)
    {
      next := g.Other(b, buckets[b][j].hash);
    }

    /** Searches breadth first, from the two full buckets, for a path along which
        entries can be moved to make room. */
    method Search(b1: nat, b2: nat) returns (found: bool, start: nat, slots: seq<nat>, ghost trail: seq<nat>)
      requires Shaped(g, buckets[..]) && b1 < g.nb && b2 < g.nb
      requires Full(g, buckets[..], b1) && Full(g, buckets[..], b2)
      ensures found ==> Movable(g, buckets[..], b1, b2, slots, trail) && trail[0] == start
      ensures found ==> FullWithin(g, buckets[..], b1, b2, |slots| - 2)
      ensures !found ==> FullWithin(g, buckets[..], b1, b2, Cover(g.k))
    {
      hide SearchOk, Explored, Movable, FullWithin, Full, UsedBefore, At, Hop, Shaped, Cover, Crowded;
      ghost var t := buckets[..];
      StartSearch(g, t, b1, b2);
      StartCrowded(g.k, b1, b2);
      var queue := [Path(b1, b1, [])];
      ghost var log := Log([[b1]], [0], [0], map[]);
      if b1 != b2 {
        queue := [Path(b1, b1, []), Path(b2, b2, [])];
        log := Log([[b1], [b2]], [0, 0], [0, 0], map[]);
      }
      var tail := 0;
      while tail < |queue|
        invariant tail <= |queue| <= MAX_QUEUE
        invariant SearchOk(g, t, b1, b2, queue, log) && Started(queue, b1, b2)
        invariant Explored(g, t, queue, log, tail, 0)
        invariant Crowded(g.k, queue, log) && |queue| <= 2 + g.k * tail
        decreases MAX_QUEUE - tail
      {
        var path := queue[tail];
        InQueue(g, t, b1, b2, queue, log, tail);
        for i := 0 to g.k
          invariant tail < |queue| <= MAX_QUEUE && queue[tail] == path
          invariant SearchOk(g, t, b1, b2, queue, log) && Started(queue, b1, b2)
          invariant Explored(g, t, queue, log, tail, i)
          invariant Crowded(g.k, queue, log) && |queue| <= 2 + g.k * tail + i
        {
          InQueue(g, t, b1, b2, queue, log, tail);
          var next := OtherBucket(path.end, i);
          if path.end == next {
            PassSlot(g, t, b1, b2, queue, log, tail, i);
          } else {
            var j := FindEmpty(next);
            if j.Some? {
              FoundPath(g, t, b1, b2, queue, log, tail, i, j.value);
              FoundShortest(g, t, b1, b2, queue, log, tail, i);
              return true, path.start, path.slots + [i, j.value], log.trails[tail] + [next];
            }
            if |path.slots| < MAX_DEPTH && |queue| < MAX_QUEUE {
              AddPath(g, t, b1, b2, queue, log, tail, i);
              CrowdedAdd(g.k, queue, log, tail, i, Path(path.start, next, path.slots + [i]));
              log := LogAdd(log, tail, i, |queue|, next);
              queue := queue + [Path(path.start, next, path.slots + [i])];
            } else {
              PassSlot(g, t, b1, b2, queue, log, tail, i);
            }
          }
        }
        PassPath(g, t, b1, b2, queue, log, tail);
        assert g.k * (tail + 1) == g.k * tail + g.k;
        tail := tail + 1;
      }
      NothingFound(g, t, b1, b2, queue, log);
      found, start, slots, trail := false, 0, [], [];
    }

    /** Follows the slots from the start. */
    method Stops(start: nat, slots: seq<nat>, ghost trail: seq<nat>) returns (stops: seq<nat>)
      requires Shaped(g, buckets[..]) && Leads(g, buckets[..], slots, trail) && trail[0] == start
      ensures stops == trail
    {
      stops := [start];
      for k := 0 to |slots|
        invariant stops == trail[..k + 1]
      {
        var next := OtherBucket(stops[k], slots[k]);
        stops := stops + [next];
      }
    }

    /** Moves the entries along the path backward, each into the slot that the one
        after it has left.  Every entry can be found at every moment. */
    method MoveBack(ghost b1: nat, ghost b2: nat, start: nat, slots: seq<nat>, ghost trail: seq<nat>)
      returns (ghost run: seq<Table<V>>)
      requires Valid() && Movable(g, buckets[..], b1, b2, slots, trail) && trail[0] == start
      modifies `loc, buckets
      ensures Moved(g, old(buckets[..]), buckets[..], m, loc, slots, trail, 0)
      ensures Run(g, old(buckets[..]), run, buckets[..], m)
    {
      hide Placed, Owned, AllClear, UsedBefore, Full, Coherent, Run, OneSlot;
      ghost var t0 := buckets[..];
      var last := |slots| - 1;
      var stops := Stops(start, slots[..last], trail);
      run := [];
      var k := last;
      EmptyIsHole(g, buckets[..], m, loc, Stop(slots, trail, last));
      while k > 0
        invariant 0 <= k <= last
        invariant Moved(g, t0, buckets[..], m, loc, slots, trail, k)
        invariant k == last ==> run == [] && buckets[..] == t0
        invariant k < last ==> Run(g, t0, run, buckets[..], m)
      {
        ghost var t := buckets[..];
        MoveStep(g, t0, t, m, loc, b1, b2, slots, trail, k);
        StandsCoherent(g, t, if k == last then None else Some(Stop(slots, trail, k)), m, loc);
        var from, to := Pos(stops[k - 1], slots[k - 1]), Pos(stops[k], slots[k]);
        var s := buckets[from.b][from.j];
        SetSlot(to, s);
        loc := loc[s.hash := to];
        RunExtend(g, t0, run, t, buckets[..], m);
        run := run + [t];
        k := k - 1;
      }
    }

    /** Adds an entry for a hash that has none: in an empty slot of its first
        bucket, or of its second, or by moving others out of the way. */
    method AddNew(h: nat, v: V) returns (ok: bool, ghost run: seq<Table<V>>)
      requires Valid() && h !in m
      modifies this, buckets
      ensures Valid()
      ensures m == if ok then old(m)[h := v] else old(m)
      ensures ok ==> Run(g, old(buckets[..]), run, buckets[..], old(m))
      ensures !ok ==> buckets[..] == old(buckets[..]) && FullWithin(g, buckets[..], g.B1(h), g.B2(h), Cover(g.k))
    {
      var b1, b2 := g.B1(h), g.B2(h);
      var j := FindEmpty(b1);
      if j.Some? {
        run := FillEmpty(Pos(b1, j.value), h, v);
        return true, run;
      }
      j := FindEmpty(b2);
      if j.Some? {
        run := FillEmpty(Pos(b2, j.value), h, v);
        return true, run;
      }
      var start, slots;
      ghost var trail;
      ok, start, slots, trail := Search(b1, b2);
      run := [];
      if ok {
        run := MoveBack(b1, b2, start, slots, trail);
        run := FillHole(Pos(start, slots[0]), h, v, old(buckets[..]), run);
      }
    }

    /** Puts a new entry in an empty slot, the first of its bucket; the first
        bucket must have been full for the second to be used. */
    method FillEmpty(p: Pos, h: nat, v: V) returns (ghost run: seq<Table<V>>)
      requires Valid() && h !in m && Within(g, p) && g.Candidate(p.b, h)
      requires At(g, buckets[..], p).val.None? && UsedBefore(g, buckets[..], p)
      requires p.b != g.B1(h) ==> Full(g, buckets[..], g.B1(h))
      modifies this, buckets
      ensures Valid() && m == old(m)[h := v]
      ensures Run(g, old(buckets[..]), run, buckets[..], old(m))
    {
      hide Placed, AllClear, Coherent;
      EmptyIsHole(g, buckets[..], m, loc, p);
      StandsCoherent(g, buckets[..], None, m, loc);
      ghost var t := buckets[..];
      UsedIsOther(g, t, Some(p), m, loc, p, h);
      FillNew(g, t, m, loc, p, h, v);
      SetSlot(p, Slot(h, Some(v)));
      m, loc := m[h := v], loc[h := p];
      run := [t];
    }

    /** Puts a new entry in the slot that the last move has freed. */
    method FillHole(p: Pos, h: nat, v: V, ghost t0: Table<V>, ghost run0: seq<Table<V>>)
      returns (ghost run: seq<Table<V>>)
      requires Within(g, p) && Stands(g, buckets[..], Some(p), m, loc) && Copy(g, buckets[..], p, m, loc)
      requires h !in m && g.Candidate(p.b, h) && UsedBefore(g, buckets[..], p)
      requires p.b != g.B1(h) ==> Full(g, buckets[..], g.B1(h))
      requires Run(g, t0, run0, buckets[..], m)
      modifies this, buckets
      ensures Valid() && m == old(m)[h := v]
      ensures Run(g, t0, run, buckets[..], old(m))
    {
      hide Placed, AllClear, Coherent, Run;
      StandsCoherent(g, buckets[..], Some(p), m, loc);
      ghost var t := buckets[..];
      UsedIsOther(g, t, Some(p), m, loc, p, h);
      FillNew(g, t, m, loc, p, h, v);
      SetSlot(p, Slot(h, Some(v)));
      RunExtend(g, t0, run0, t, buckets[..], m);
      m, loc := m[h := v], loc[h := p];
      run := run0 + [t];
    }

    /** Adds `v` to the entry for the hash, or as a new entry.  A slot that is not
        in use but has the hash is taken again if `stale`. */
    method TryPut(h: nat, v: V, join: (V, V) -> V, stale: bool) returns (r: Option<V>, ghost run: seq<Table<V>>)
      requires Valid()
      modifies this, buckets
      ensures Valid()
      ensures r.Some? ==> r.value == Joined(old(m), h, v, join) && m == old(m)[h := r.value]
      ensures r.Some? ==> Run(g, old(buckets[..]), run, buckets[..], old(m))
      ensures r.Some? && h in old(m) ==> OneValue(g, old(buckets[..]), buckets[..])
      ensures r.None? ==> m == old(m) && h !in m && FullWithin(g, buckets[..], g.B1(h), g.B2(h), Cover(g.k))
    {
      var b1, b2 := g.B1(h), g.B2(h);
      var j := FindMatch(b1, h, stale);
      if j.Some? {
        r, run := PutMatch(Pos(b1, j.value), h, v, join, stale);
        return;
      }
      j := FindMatch(b2, h, stale);
      if j.Some? {
        r, run := PutMatch(Pos(b2, j.value), h, v, join, stale);
        return;
      }
      NoMatchNoEntry(g, buckets[..], m, loc, h, stale);
      var ok;
      ok, run := AddNew(h, v);
      r := if ok then Some(v) else None;
    }

    method PutMatch(p: Pos, h: nat, v: V, join: (V, V) -> V, stale: bool)
      returns (r: Option<V>, ghost run: seq<Table<V>>)
      requires Valid() && First(g, buckets[..], p, h, stale)
      requires p.b == g.B1(h) || (p.b == g.B2(h) && NoMatch(g, buckets[..], g.B1(h), h, stale))
      modifies this, buckets
      ensures Valid()
      ensures r == Some(Joined(old(m), h, v, join)) && m == old(m)[h := r.value]
      ensures Run(g, old(buckets[..]), run, buckets[..], old(m)) && OneValue(g, old(buckets[..]), buckets[..])
    {
      hide Placed, AllClear, Owned, Coherent, OneSlot, OneValue;
      ghost var t := buckets[..];
      FirstIsEntry(g, t, m, loc, p, h, stale);
      StandsCoherent(g, t, None, m, loc);
      run := [t];
      var was := buckets[p.b][p.j].val;
      if was.Some? {
        EntryValue(g, t, m, loc, h);
        r := Some(join(v, was.value));
        ChangeValue(g, t, m, loc, h, r.value);
      } else {
        r := Some(v);
        EmptyIsHole(g, t, m, loc, p);
        FillNew(g, t, m, loc, p, h, v);
      }
      SetSlot(p, Slot(h, r));
      m, loc := m[h := r.value], loc[h := p];
    }

    /** Changes the entry for the hash, which has one, or takes it out. */
    method Change(h: nat, r: Option<V>)
      requires Valid() && h in m
      modifies this, buckets
      ensures Valid()
      ensures m == if r.Some? then old(m)[h := r.value] else old(m) - {h}
      ensures Run(g, old(buckets[..]), [old(buckets[..])], buckets[..], old(m))
      ensures OneValue(g, old(buckets[..]), buckets[..])
    {
      hide Placed, AllClear, Owned, Coherent, OneSlot, OneValue;
      ghost var t := buckets[..];
      StandsCoherent(g, t, None, m, loc);
      EntryValue(g, t, m, loc, h);
      var b := g.B1(h);
      var j := FindMatch(b, h, false);
      if j.None? {
        b := g.B2(h);
        j := FindMatch(b, h, false);
        if j.None? {
          NoMatchNoEntry(g, t, m, loc, h, false);
          assert false;
        }
      }
      var p := Pos(b, j.value);
      FirstIsEntry(g, t, m, loc, p, h, false);
      SetSlot(p, Slot(h, r));
      if r.Some? {
        ChangeValue(g, t, m, loc, h, r.value);
        m := m[h := r.value];
      } else {
        TakeOut(g, t, m, loc, h);
        m, loc := m - {h}, loc - {h};
      }
    }
  }
}

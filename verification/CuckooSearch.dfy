/** The breadth-first search for a path along which entries can be moved, and the
    proof that the path it returns never visits a bucket twice. */
module CuckooSearch {
  import opened Cuckoo

  const MAX_DEPTH: nat := 4
  const MAX_QUEUE: nat := 500

  /** From `start`, following `slots`, one arrives at `end`. */
  datatype Path = Path(start: nat, end: nat, slots: seq<nat>)

  /** Where the entry in slot `s` of bucket `b` could go. */
  function Hop<V>(g: Geometry, t: Table<V>, b: nat, s: nat): (r: nat)
    requires Shaped(g, t) && b < g.nb && s < g.k
    ensures r < g.nb
  {
    g.Other(b, At(g, t, Pos(b, s)).hash)
  }

  /** What the search remembers, for the proof: the buckets along each path, the
      path each one extends and the slot it extends it by, and the reverse map. */
  datatype Log = Log(trails: seq<seq<nat>>, parent: seq<nat>, via: seq<nat>, kid: map<(nat, nat), nat>)

  // ------------------------------------------------------------ what it keeps

  /** Path `q` of the queue: a start bucket, or an earlier path and one hop. */
  ghost predicate PathOk<V>(g: Geometry, t: Table<V>, b1: nat, b2: nat, queue: seq<Path>, log: Log, q: nat)
    requires Shaped(g, t) && q < |queue| == |log.trails| == |log.parent| == |log.via|
  {
    var path := queue[q];
    && path.end < g.nb && Full(g, t, path.end) && |path.slots| <= MAX_DEPTH
    && if path.slots == [] then
         path.start == path.end && (path.start == b1 || path.start == b2) && log.trails[q] == [path.end]
       else
         var p, s := log.parent[q], log.via[q];
         && p < q && s < g.k
         && queue[p].end < g.nb && path.start == queue[p].start && path.slots == queue[p].slots + [s]
         && path.end == Hop(g, t, queue[p].end, s) && path.end != queue[p].end
         && log.trails[q] == log.trails[p] + [path.end]
         && (p, s) in log.kid && log.kid[(p, s)] == q
  }

  ghost predicate LogShape(queue: seq<Path>, log: Log)
  {
    && |queue| == |log.trails| == |log.parent| == |log.via| <= MAX_QUEUE
    && forall p, s | (p, s) in log.kid ::
         var q := log.kid[(p, s)];
         p < q < |queue| && log.parent[q] == p && log.via[q] == s && queue[q].slots != []
  }

  /** Shorter paths come first. */
  ghost predicate Levels(queue: seq<Path>)
  {
    forall a, b | 0 <= a < b < |queue| :: |queue[a].slots| <= |queue[b].slots|
  }

  /** If a path was extended by slot `s` then so was every earlier path, and
      earlier, unless that slot leads nowhere else. */
  ghost predicate KidsInOrder<V>(g: Geometry, t: Table<V>, queue: seq<Path>, log: Log)
    requires Shaped(g, t)
  {
    forall a, b, s | 0 <= a < b && (b, s) in log.kid && b < |queue| && Extends(g, t, queue, a, s) ::
      (a, s) in log.kid && log.kid[(a, s)] < log.kid[(b, s)]
  }

  ghost predicate Extends<V>(g: Geometry, t: Table<V>, queue: seq<Path>, a: nat, s: nat)
    requires Shaped(g, t)
  {
    a < |queue| && s < g.k && queue[a].end < g.nb && Hop(g, t, queue[a].end, s) != queue[a].end
  }

  ghost predicate SearchOk<V>(g: Geometry, t: Table<V>, b1: nat, b2: nat, queue: seq<Path>, log: Log)
    requires Shaped(g, t)
  {
    && LogShape(queue, log)
    && (forall q | 0 <= q < |queue| :: PathOk(g, t, b1, b2, queue, log, q))
    && Levels(queue)
    && KidsInOrder(g, t, queue, log)
  }

  /** Slot `s` of path `a` has been looked at: it leads to a full bucket, and was
      followed unless the queue was full, of paths no longer than one hop more. */
  ghost predicate Looked<V>(g: Geometry, t: Table<V>, queue: seq<Path>, log: Log, a: nat, s: nat)
    requires Shaped(g, t)
  {
    Extends(g, t, queue, a, s) ==>
      && Full(g, t, Hop(g, t, queue[a].end, s))
      && (|queue[a].slots| < MAX_DEPTH ==>
            (a, s) in log.kid || (|queue| == MAX_QUEUE && |queue[|queue| - 1].slots| <= |queue[a].slots| + 1))
  }

  /** All slots of the paths before `c`, and those before `i` of path `c`. */
  ghost predicate Explored<V>(g: Geometry, t: Table<V>, queue: seq<Path>, log: Log, c: nat, i: nat)
    requires Shaped(g, t)
  {
    && (forall a, s | 0 <= a < c && 0 <= s < g.k :: Looked(g, t, queue, log, a, s))
    && (forall s | 0 <= s < i :: Looked(g, t, queue, log, c, s))
    && (forall a, s | (a, s) in log.kid :: a < c || (a == c && s < i))
    && (forall q | 0 <= q < |queue| && c < |queue| :: |queue[q].slots| <= |queue[c].slots| + 1)
  }

  // -------------------------------------------------------------- one extension

  ghost function LogAdd(log: Log, c: nat, i: nat, q: nat, end: nat): Log
    requires c < |log.trails|
  {
    Log(log.trails + [log.trails[c] + [end]], log.parent + [c], log.via + [i], log.kid[(c, i) := q])
  }

  lemma AddPath<V>(g: Geometry, t: Table<V>, b1: nat, b2: nat, queue: seq<Path>, log: Log, c: nat, i: nat)
    requires Shaped(g, t) && SearchOk(g, t, b1, b2, queue, log) && Explored(g, t, queue, log, c, i)
    requires c < |queue| < MAX_QUEUE && i < g.k && |queue[c].slots| < MAX_DEPTH
    requires queue[c].end < g.nb && Extends(g, t, queue, c, i)
    requires var next := Hop(g, t, queue[c].end, i); Full(g, t, next)
    ensures var next := Hop(g, t, queue[c].end, i);
            var queue' := queue + [Path(queue[c].start, next, queue[c].slots + [i])];
            var log' := LogAdd(log, c, i, |queue|, next);
            SearchOk(g, t, b1, b2, queue', log') && Explored(g, t, queue', log', c, i + 1)
  {
    var next := Hop(g, t, queue[c].end, i);
    var queue' := queue + [Path(queue[c].start, next, queue[c].slots + [i])];
    var log' := LogAdd(log, c, i, |queue|, next);
    forall q | 0 <= q < |queue'| ensures PathOk(g, t, b1, b2, queue', log', q) {
      if q < |queue| {
        assert PathOk(g, t, b1, b2, queue, log, q);
      }
    }
    forall a, b, s | 0 <= a < b && (b, s) in log'.kid && b < |queue'| && Extends(g, t, queue', a, s)
      ensures (a, s) in log'.kid && log'.kid[(a, s)] < log'.kid[(b, s)]
    {
      if b == c && s == i {
        assert Looked(g, t, queue, log, a, s);
        assert Extends(g, t, queue, a, s);
      } else {
        assert (b, s) in log.kid && Extends(g, t, queue, a, s);
      }
    }
    forall a, s | 0 <= a < c && 0 <= s < g.k ensures Looked(g, t, queue', log', a, s) {
      assert Looked(g, t, queue, log, a, s);
    }
    forall s | 0 <= s < i + 1 ensures Looked(g, t, queue', log', c, s) {
      if s < i { assert Looked(g, t, queue, log, c, s); }
    }
  }

  lemma StartSearch<V>(g: Geometry, t: Table<V>, b1: nat, b2: nat)
    requires Shaped(g, t) && b1 < g.nb && b2 < g.nb && Full(g, t, b1) && Full(g, t, b2)
    ensures b1 == b2 ==> var queue, log := [Path(b1, b1, [])], Log([[b1]], [0], [0], map[]);
            SearchOk(g, t, b1, b2, queue, log) && Explored(g, t, queue, log, 0, 0)
    ensures b1 != b2 ==>
            var queue, log := [Path(b1, b1, []), Path(b2, b2, [])], Log([[b1], [b2]], [0, 0], [0, 0], map[]);
            SearchOk(g, t, b1, b2, queue, log) && Explored(g, t, queue, log, 0, 0)
  {
  }

  /** Slot `i` needs no new path. */
  lemma PassSlot<V>(g: Geometry, t: Table<V>, b1: nat, b2: nat, queue: seq<Path>, log: Log, c: nat, i: nat)
    requires Shaped(g, t) && SearchOk(g, t, b1, b2, queue, log) && Explored(g, t, queue, log, c, i)
    requires c < |queue| && i < g.k && queue[c].end < g.nb
    requires var next := Hop(g, t, queue[c].end, i);
             next != queue[c].end ==> Full(g, t, next) && (|queue[c].slots| >= MAX_DEPTH || |queue| >= MAX_QUEUE)
    ensures Explored(g, t, queue, log, c, i + 1)
  {
  }

  lemma PassPath<V>(g: Geometry, t: Table<V>, b1: nat, b2: nat, queue: seq<Path>, log: Log, c: nat)
    requires Shaped(g, t) && SearchOk(g, t, b1, b2, queue, log) && Explored(g, t, queue, log, c, g.k) && c < |queue|
    ensures Explored(g, t, queue, log, c + 1, 0)
  {
  }

  // --------------------------------------------------------------- distinctness

  ghost predicate Distinct(s: seq<nat>)
  {
    forall i, j | 0 <= i < j < |s| :: s[i] != s[j]
  }

  /** No path before `q` ends where `q` ends. */
  ghost predicate FirstThere(queue: seq<Path>, q: nat)
    requires q < |queue|
  {
    forall a | 0 <= a < q :: queue[a].end != queue[q].end
  }

  /** A path that is the first to end at its bucket extends a path that is the
      first to end at its own; otherwise the same hop from the earlier one would
      have arrived before. */
  lemma ParentFirst<V>(g: Geometry, t: Table<V>, b1: nat, b2: nat, queue: seq<Path>, log: Log, q: nat)
    requires Shaped(g, t) && SearchOk(g, t, b1, b2, queue, log) && q < |queue| && FirstThere(queue, q)
    requires queue[q].slots != []
    ensures log.parent[q] < q && FirstThere(queue, log.parent[q])
  {
    assert PathOk(g, t, b1, b2, queue, log, q);
    var p, s := log.parent[q], log.via[q];
    forall a | 0 <= a < p ensures queue[a].end != queue[p].end {
      assert Extends(g, t, queue, a, s) ==> (a, s) in log.kid && log.kid[(a, s)] < q;
      if (a, s) in log.kid {
        assert PathOk(g, t, b1, b2, queue, log, log.kid[(a, s)]);
      }
    }
  }

  /** The buckets along such a path are pairwise distinct. */
  lemma {:induction false} TrailDistinct<V>(g: Geometry, t: Table<V>, b1: nat, b2: nat, queue: seq<Path>, log: Log,
                                            q: nat)
    requires Shaped(g, t) && SearchOk(g, t, b1, b2, queue, log) && q < |queue| && FirstThere(queue, q)
    ensures Distinct(log.trails[q]) && |log.trails[q]| == |queue[q].slots| + 1
    ensures forall b | b in log.trails[q] :: exists a | 0 <= a <= q :: queue[a].end == b
    ensures forall b | b in log.trails[q] :: b < g.nb && Full(g, t, b)
    decreases q
  {
    assert PathOk(g, t, b1, b2, queue, log, q);
    if queue[q].slots != [] {
      var p := log.parent[q];
      ParentFirst(g, t, b1, b2, queue, log, q);
      TrailDistinct(g, t, b1, b2, queue, log, p);
      assert queue[q].end !in log.trails[p];
      var trail := log.trails[q];
      forall i, j | 0 <= i < j < |trail| ensures trail[i] != trail[j] {
        assert trail[i] == log.trails[p][i];
        assert trail[i] in log.trails[p];
      }
    }
  }

  /** The path leads along the trail. */
  ghost predicate Leads<V>(g: Geometry, t: Table<V>, slots: seq<nat>, trail: seq<nat>)
    requires Shaped(g, t)
  {
    && |trail| == |slots| + 1
    && (forall i | 0 <= i < |trail| :: trail[i] < g.nb)
    && (forall i | 0 <= i < |slots| :: slots[i] < g.k && trail[i + 1] == Hop(g, t, trail[i], slots[i]))
  }

  lemma {:induction false} TrailLeads<V>(g: Geometry, t: Table<V>, b1: nat, b2: nat, queue: seq<Path>, log: Log, q: nat)
    requires Shaped(g, t) && SearchOk(g, t, b1, b2, queue, log) && q < |queue|
    ensures Leads(g, t, queue[q].slots, log.trails[q])
    ensures log.trails[q][0] == queue[q].start && log.trails[q][|queue[q].slots|] == queue[q].end
    ensures queue[q].start == b1 || queue[q].start == b2
    decreases q
  {
    assert PathOk(g, t, b1, b2, queue, log, q);
    if queue[q].slots != [] {
      var p := log.parent[q];
      TrailLeads(g, t, b1, b2, queue, log, p);
      var slots, trail := queue[q].slots, log.trails[q];
      forall i | 0 <= i < |slots| ensures slots[i] < g.k && trail[i + 1] == Hop(g, t, trail[i], slots[i]) {
        assert i < |slots| - 1 ==> slots[i] == queue[p].slots[i];
      }
    }
  }

  // ------------------------------------------------------------------ shortest

  /** A walk from one of the two buckets, of any slots whatever. */
  ghost predicate Walk<V>(g: Geometry, t: Table<V>, b1: nat, b2: nat, slots: seq<nat>, trail: seq<nat>)
    requires Shaped(g, t)
  {
    Leads(g, t, slots, trail) && (trail[0] == b1 || trail[0] == b2)
  }

  /** Every walk of at most `d` hops ends at a full bucket. */
  ghost predicate FullWithin<V>(g: Geometry, t: Table<V>, b1: nat, b2: nat, d: nat)
    requires Shaped(g, t)
  {
    forall slots, trail | Walk(g, t, b1, b2, slots, trail) && |slots| <= d :: Full(g, t, trail[|slots|])
  }

  ghost predicate Started(queue: seq<Path>, b1: nat, b2: nat)
  {
    |queue| >= 1 && queue[0].end == b1 && queue[0].slots == []
    && (b1 != b2 ==> |queue| >= 2 && queue[1].end == b2 && queue[1].slots == [])
    && forall q | 2 <= q < |queue| :: queue[q].slots != []
  }

  /** Every walk of fewer than `d` hops ends where a path of the queue ends that
      is no longer, if the paths shorter than `d` have all been explored. */
  lemma {:induction false} WalkInQueue<V>(g: Geometry, t: Table<V>, b1: nat, b2: nat, queue: seq<Path>, log: Log,
                                          d: nat, slots: seq<nat>, trail: seq<nat>) returns (a: nat)
    requires Shaped(g, t) && SearchOk(g, t, b1, b2, queue, log) && Started(queue, b1, b2)
    requires d <= MAX_DEPTH + 1
    requires |queue| == MAX_QUEUE ==> d <= |queue[|queue| - 1].slots|
    requires forall a, s | 0 <= a < |queue| && |queue[a].slots| < d && 0 <= s < g.k :: Looked(g, t, queue, log, a, s)
    requires Walk(g, t, b1, b2, slots, trail) && |slots| < d
    ensures a < |queue| && queue[a].end == trail[|slots|] && |queue[a].slots| <= |slots|
    decreases |slots|
  {
    if slots == [] {
      a := if trail[0] == b1 then 0 else 1;
    } else {
      var n := |slots| - 1;
      var before := slots[..n];
      assert Walk(g, t, b1, b2, before, trail[..n + 1]) by {
        forall i | 0 <= i < n ensures before[i] < g.k && trail[i + 1] == Hop(g, t, trail[i], before[i]) {
          assert before[i] == slots[i];
        }
      }
      a := WalkInQueue(g, t, b1, b2, queue, log, d, before, trail[..n + 1]);
      var s := slots[n];
      assert Looked(g, t, queue, log, a, s);
      if Hop(g, t, queue[a].end, s) != queue[a].end {
        var q := log.kid[(a, s)];
        assert PathOk(g, t, b1, b2, queue, log, q);
        a := q;
      }
    }
  }

  lemma ExploredFull<V>(g: Geometry, t: Table<V>, b1: nat, b2: nat, queue: seq<Path>, log: Log, d: nat)
    requires Shaped(g, t) && SearchOk(g, t, b1, b2, queue, log) && Started(queue, b1, b2)
    requires d <= MAX_DEPTH + 1
    requires |queue| == MAX_QUEUE ==> d <= |queue[|queue| - 1].slots|
    requires forall a, s | 0 <= a < |queue| && |queue[a].slots| < d && 0 <= s < g.k :: Looked(g, t, queue, log, a, s)
    ensures FullWithin(g, t, b1, b2, d)
  {
    forall slots, trail | Walk(g, t, b1, b2, slots, trail) && |slots| <= d
      ensures Full(g, t, trail[|slots|])
    {
      if slots == [] {
        var q := if trail[0] == b1 then 0 else 1;
        assert PathOk(g, t, b1, b2, queue, log, q);
      } else {
        var n := |slots| - 1;
        var before := slots[..n];
        assert Walk(g, t, b1, b2, before, trail[..n + 1]) by {
          forall i | 0 <= i < n ensures before[i] < g.k && trail[i + 1] == Hop(g, t, trail[i], before[i]) {
            assert before[i] == slots[i];
          }
        }
        var a := WalkInQueue(g, t, b1, b2, queue, log, d, before, trail[..n + 1]);
        assert Looked(g, t, queue, log, a, slots[n]);
        assert PathOk(g, t, b1, b2, queue, log, a);
      }
    }
  }

  // ------------------------------------------------------------ how far it gets

  /** The path numbered `q` comes no later than if every slot before its own, of
      every path before its parent, had been followed. */
  ghost predicate Crowded(k: nat, queue: seq<Path>, log: Log)
  {
    |queue| == |log.parent| == |log.via|
    && forall q | 0 <= q < |queue| && queue[q].slots != [] :: q <= 2 + k * log.parent[q] + log.via[q]
  }

  lemma CrowdedAdd(k: nat, queue: seq<Path>, log: Log, c: nat, i: nat, path: Path)
    requires Crowded(k, queue, log) && c < |log.trails| && |queue| <= 2 + k * c + i
    ensures Crowded(k, queue + [path], LogAdd(log, c, i, |queue|, path.end))
  {
  }

  /** The last number that a path of at most `d` hops can have. */
  function LastOf(k: nat, d: nat): nat
  {
    if d == 0 then 1 else 1 + k * (LastOf(k, d - 1) + 1)
  }

  lemma {:induction false} NumberBound<V>(g: Geometry, t: Table<V>, b1: nat, b2: nat, queue: seq<Path>, log: Log,
                                          q: nat, d: nat)
    requires Shaped(g, t) && SearchOk(g, t, b1, b2, queue, log) && Started(queue, b1, b2) && Crowded(g.k, queue, log)
    requires q < |queue| && |queue[q].slots| <= d
    ensures q <= LastOf(g.k, d)
    decreases d
  {
    if queue[q].slots != [] {
      assert PathOk(g, t, b1, b2, queue, log, q);
      var p := log.parent[q];
      NumberBound(g, t, b1, b2, queue, log, p, d - 1);
      hide SearchOk, PathOk, Started;
      TimesMonotone(g.k, p + 1, LastOf(g.k, d - 1) + 1);
      assert g.k * (p + 1) == g.k * p + g.k;
    } else {
      assert q <= 1;
    }
  }

  lemma TimesMonotone(k: nat, x: nat, y: nat)
    requires x <= y
    ensures k * x <= k * y
  {
  }

  /** How many hops the search is sure to cover, by the slots per bucket, before
      the queue is full. */
  function Cover(k: nat): (d: nat)
    ensures 1 <= d <= MAX_DEPTH && LastOf(k, d - 1) < MAX_QUEUE - 1
  {
    assert LastOf(k, 1) == 1 + 2 * k;
    assert LastOf(k, 2) == 1 + k * (2 * k + 2);
    assert LastOf(k, 3) == 1 + k * (LastOf(k, 2) + 1);
    if k <= 5 then 4 else if k <= 15 then (TimesMonotone(k, 2 * k + 2, 32); 3) else if k <= 248 then 2 else 1
  }
}

/** When the counting map's reader can miss an entry that is there all the time:
    exactly when a relocation can move it back, which happens. */
module MissedReads {
  import opened Cuckoo
  import opened CuckooSearch
  import opened CuckooTables
  import opened CountReader
  import opened LoadFactor
  import opened Options

  // ------------------------------------------------------------- putting runs together

  lemma Join<V>(g: Geometry, h: nat, a: seq<State<V>>, ea: seq<Event<V>>, b: seq<State<V>>, eb: seq<Event<V>>)
    requires Runs(g, h, a, ea) && Runs(g, h, b, eb) && a[|ea|] == b[0]
    ensures Runs(g, h, a + b[1..], ea + eb)
    ensures (a + b[1..])[0] == a[0] && (a + b[1..])[|ea + eb|] == b[|eb|]
    ensures Throughout(h, a) && Throughout(h, b) ==> Throughout(h, a + b[1..])
  {
    hide Step;
    var ss, es := a + b[1..], ea + eb;
    forall i | 0 <= i < |es| ensures Step(g, h, ss[i], es[i], ss[i + 1]) {
      if i < |ea| {
        assert Step(g, h, a[i], ea[i], a[i + 1]);
      } else {
        var k := i - |ea|;
        assert ss[i] == b[k] && ss[i + 1] == b[k + 1];
        assert Step(g, h, b[k], eb[k], b[k + 1]);
      }
    }
  }

  lemma Single<V>(g: Geometry, h: nat, s: State<V>, e: Event<V>, s': State<V>)
    requires Step(g, h, s, e, s')
    ensures Runs(g, h, [s, s'], [e])
  {
  }

  // --------------------------------------------------------- scanning without success

  ghost predicate Without<V>(g: Geometry, t: Table<V>, b: nat, h: nat)
    requires Shaped(g, t)
  {
    forall q | Within(g, q) && q.b == b :: At(g, t, q).hash != h
  }

  lemma {:induction false} ScanFirst<V>(g: Geometry, h: nat, w: Writer<V>, j: nat)
    returns (ss: seq<State<V>>, es: seq<Event<V>>)
    requires WriterOk(g, w) && Shaped(g, w.t) && Without(g, w.t, g.B1(h), h) && j < g.k
    ensures Runs(g, h, ss, es) && ss[0] == State(w, Scan1(j)) && ss[|es|] == State(w, Scan2(0))
    ensures forall s | s in ss :: s.w == w
    decreases g.k - j
  {
    hide WriterOk;
    var s := State(w, Scan1(j));
    var s' := State(w, Loaded(g, h, w.t, s.r));
    assert At(g, w.t, Pos(g.B1(h), j)).hash != h;
    Single(g, h, s, Load, s');
    ss, es := [s, s'], [Load];
    if j + 1 < g.k {
      var rest, loads := ScanFirst(g, h, w, j + 1);
      Join(g, h, ss, es, rest, loads);
      ss, es := ss + rest[1..], es + loads;
    }
  }

  lemma {:induction false} ScanSecond<V>(g: Geometry, h: nat, w: Writer<V>, j: nat)
    returns (ss: seq<State<V>>, es: seq<Event<V>>)
    requires WriterOk(g, w) && Shaped(g, w.t) && Without(g, w.t, g.B2(h), h) && j < g.k
    ensures Runs(g, h, ss, es) && ss[0] == State(w, Scan2(j)) && ss[|es|] == State(w, Finished(None))
    ensures forall s | s in ss :: s.w == w
    decreases g.k - j
  {
    hide WriterOk;
    var s := State(w, Scan2(j));
    var s' := State(w, Loaded(g, h, w.t, s.r));
    assert At(g, w.t, Pos(g.B2(h), j)).hash != h;
    Single(g, h, s, Load, s');
    ss, es := [s, s'], [Load];
    if j + 1 < g.k {
      var rest, loads := ScanSecond(g, h, w, j + 1);
      Join(g, h, ss, es, rest, loads);
      ss, es := ss + rest[1..], es + loads;
    }
  }

  // ------------------------------------------------------------ before and after a move

  /** Before it is moved back, the entry's first bucket is without its hash. */
  lemma WithoutBefore<V>(g: Geometry, h: nat, w: Writer<V>)
    requires WriterOk(g, w) && MovesBack(g, h, w, Write(Copying))
    ensures h in w.m && Shaped(g, w.t) && Without(g, w.t, g.B1(h), h) && Enabled(g, w, Copying)
  {
    CopyingMoves(g, w);
    var j := w.job.value;
    forall q | Within(g, q) && q.b == g.B1(h) ensures At(g, w.t, q).hash != h {
      if q == j.At(j.k) {
        HoleIsOther(g, h, w);
      } else {
        ClearOfOthers(g, w, h, q);
      }
    }
  }

  lemma ClearOfOthers<V>(g: Geometry, w: Writer<V>, h: nat, q: Pos)
    requires WriterOk(g, w) && w.job.Some? && h in w.m && h in w.loc && w.loc[h].b != g.B1(h)
    requires Within(g, q) && q.b == g.B1(h) && q != w.job.value.At(w.job.value.k)
    ensures At(g, w.t, q).hash != h
  {
    hide WriterOk, Placed, Owned;
    JobFacts(g, w);
    EntryAt(g, w, h);
    assert Clear(g, w.t, w.loc[h], q);
  }

  lemma JobFacts<V>(g: Geometry, w: Writer<V>)
    requires WriterOk(g, w) && w.job.Some?
    ensures var j := w.job.value;
            && j.k < |j.slots| == |j.trail| && Distinct(j.trail) && Shaped(g, w.t)
            && !w.left && (forall i | 0 <= i < |j.slots| :: Within(g, j.At(i)))
            && Stands(g, w.t, Some(j.At(j.k)), w.m, w.loc)
            && forall i | 0 <= i < |j.trail| - 1 :: Full(g, w.t, j.trail[i])
  {
    hide Stands, Full, UsedBefore, Copy, Walk;
    var j := w.job.value;
    forall i | 0 <= i < |j.trail| - 1 ensures Full(g, w.t, j.trail[i]) {
      assert Within(g, j.At(i)) && Full(g, j.t0, j.trail[i]);
    }
  }

  /** The slot the entry is to be copied to has another hash: if it is not empty,
      its entry and this one were in different places when the path was found. */
  lemma HoleIsOther<V>(g: Geometry, h: nat, w: Writer<V>)
    requires WriterOk(g, w) && MovesBack(g, h, w, Write(Copying))
    ensures At(g, w.t, w.job.value.At(w.job.value.k)).hash != h
  {
    var j := w.job.value;
    CopyingMoves(g, w);
    NextStop(g, w, j);
    EntryAt(g, w, h);
    if j.k == |j.slots| - 1 {
      assert Stands(g, w.t, None, w.m, w.loc);
      hide Moved, Movable, Placed, Owned;
      assert Clear(g, w.t, w.loc[h], j.At(j.k));
    } else {
      assert Full(g, j.t0, j.trail[j.k]) && Full(g, j.t0, j.trail[j.k - 1]);
      hide Moved, Movable, Placed, AllClear;
      assert Used(g, j.t0, None, j.At(j.k)) && Used(g, j.t0, None, j.At(j.k - 1));
    }
  }

  /** The store after the copy, which overwrites the place it was copied from. */
  ghost function Then<V>(w: Writer<V>): Change<V>
  {
    if w.job.Some? && w.job.value.k > 0 then Copying else Fill
  }

  /** After that, the second bucket is without the hash: it is full of entries, none
      of which is this one. */
  lemma WithoutAfter<V>(g: Geometry, h: nat, w: Writer<V>)
    requires WriterOk(g, w) && MovesBack(g, h, w, Write(Copying))
    ensures var w' := Changed(g, w, Copying);
            && WriterOk(g, w') && Enabled(g, w', Then(w')) && h in w'.m
            && var w'' := Changed(g, w', Then(w'));
               WriterOk(g, w'') && !w''.left && Shaped(g, w''.t) && h in w''.m && Without(g, w''.t, g.B2(h), h)
  {
    hide WriterOk, Stands, Full;
    CopyingMoves(g, w);
    CopyingOk(g, w);
    JobFacts(g, w);
    var w' := Changed(g, w, Copying);
    Overwritten(g, h, w');
  }

  lemma Overwritten<V>(g: Geometry, h: nat, w: Writer<V>)
    requires WriterOk(g, w) && w.job.Some? && h in w.m && h in w.loc
    requires var j := w.job.value;
             j.k + 1 < |j.slots| == |j.trail| && w.loc[h] == j.At(j.k + 1) && j.trail[j.k] != j.trail[j.k + 1]
    ensures Enabled(g, w, Then(w))
    ensures var w' := Changed(g, w, Then(w));
            && WriterOk(g, w') && !w'.left && Shaped(g, w'.t) && h in w'.m
            && Without(g, w'.t, w.job.value.trail[w.job.value.k], h)
  {
    hide WriterOk, Stands;
    ChangeOk(g, w, Then(w));
    JobFacts(g, w);
    var j := w.job.value;
    var w' := Changed(g, w, Then(w));
    StillThere(g, h, w);
    StillFull(g, w);
    forall q | Within(g, q) && q.b == j.trail[j.k] ensures At(g, w'.t, q).hash != h {
      OwnedInFull(g, w', q);
    }
  }

  lemma StillThere<V>(g: Geometry, h: nat, w: Writer<V>)
    requires WriterOk(g, w) && w.job.Some? && h in w.m && h in w.loc && Enabled(g, w, Then(w))
    requires var j := w.job.value;
             j.k + 1 < |j.slots| == |j.trail| && w.loc[h] == j.At(j.k + 1)
    ensures var w' := Changed(g, w, Then(w)); h in w'.m && h in w'.loc && w'.loc[h] == w.loc[h]
  {
    hide WriterOk, Stands, Full;
    JobFacts(g, w);
    NewHasNoEntry(g, w);
    if w.job.value.k > 0 {
      CopyingMoves(g, w);
    }
  }

  lemma StillFull<V>(g: Geometry, w: Writer<V>)
    requires WriterOk(g, w) && w.job.Some? && Enabled(g, w, Then(w))
    requires var j := w.job.value; j.k + 1 < |j.slots| == |j.trail|
    ensures var j, w' := w.job.value, Changed(g, w, Then(w));
            Shaped(g, w'.t) && Full(g, w'.t, j.trail[j.k]) && (Hole(w').Some? ==> Hole(w').value.b != j.trail[j.k])
  {
    hide WriterOk, Stands, Full;
    JobFacts(g, w);
    var j := w.job.value;
    if j.k > 0 {
      CopyingMoves(g, w);
      var s := At(g, w.t, j.At(j.k - 1));
      EntryAt(g, w, s.hash);
      SetKeepsFull(g, w.t, j.At(j.k), s, j.trail[j.k]);
    } else {
      SetKeepsFull(g, w.t, j.At(0), Slot(j.x, Some(j.v)), j.trail[0]);
    }
  }

  lemma OwnedInFull<V>(g: Geometry, w: Writer<V>, q: Pos)
    requires WriterOk(g, w) && Within(g, q) && Shaped(g, w.t) && At(g, w.t, q).val.Some? && Hole(w) != Some(q)
    ensures At(g, w.t, q).hash in w.loc && w.loc[At(g, w.t, q).hash] == q
  {
    Standing(g, w);
    hide WriterOk, Hole, Placed, AllClear;
    assert Used(g, w.t, Hole(w), q);
  }

  // ------------------------------------------------------------------ main results

  /** Main result: around a step that moves the entry for a hash back, a lookup that
      loads the first bucket before it, and the second after the store that follows
      it, misses the entry, which is there at every moment. */
  lemma MovedBackIsMissed<V>(g: Geometry, h: nat, w: Writer<V>) returns (ss: seq<State<V>>, es: seq<Event<V>>)
    requires WriterOk(g, w) && MovesBack(g, h, w, Write(Copying))
    ensures Runs(g, h, ss, es) && ss[0] == State(w, Scan1(0)) && ss[|es|].r == Finished(None) && Throughout(h, ss)
    ensures !ss[|es|].w.left
  {
    hide WriterOk, Enabled, Changed, Without, MovesBack, Loaded, Then, Step;
    WithoutBefore(g, h, w);
    WithoutAfter(g, h, w);
    var w' := Changed(g, w, Copying);
    var w'' := Changed(g, w', Then(w'));
    ss, es := ScanFirst(g, h, w, 0);
    var moving, stores := Moving(g, h, w);
    Join(g, h, ss, es, moving, stores);
    ss, es := ss + moving[1..], es + stores;
    var rest, loads := ScanSecond(g, h, w'', 0);
    Join(g, h, ss, es, rest, loads);
    ss, es := ss + rest[1..], es + loads;
  }

  lemma Moving<V>(g: Geometry, h: nat, w: Writer<V>) returns (ss: seq<State<V>>, es: seq<Event<V>>)
    requires WriterOk(g, w) && Enabled(g, w, Copying) && h in w.m
    requires var w' := Changed(g, w, Copying);
             WriterOk(g, w') && Enabled(g, w', Then(w')) && h in w'.m && h in Changed(g, w', Then(w')).m
    ensures Runs(g, h, ss, es) && ss[0] == State(w, Scan2(0)) && Throughout(h, ss)
    ensures var w' := Changed(g, w, Copying); ss[|es|] == State(Changed(g, w', Then(w')), Scan2(0))
  {
    hide WriterOk, Enabled, Changed, Then;
    var w' := Changed(g, w, Copying);
    var w'' := Changed(g, w', Then(w'));
    ss, es := [State(w, Scan2(0)), State(w', Scan2(0)), State(w'', Scan2(0))], [Write(Copying), Write(Then(w'))];
  }

  /** A lookup of the hash can start now and miss it, though it always has an entry. */
  ghost predicate CanMiss<V(!new)>(g: Geometry, h: nat, w: Writer<V>)
  {
    exists ss: seq<State<V>>, es: seq<Event<V>> ::
      Runs(g, h, ss, es) && ss[0] == State(w, Scan1(0)) && Throughout(h, ss) && ss[|es|].r == Finished(None)
  }

  /** From now on, while it always has an entry, it can be moved back. */
  ghost predicate CanMoveBack<V(!new)>(g: Geometry, h: nat, w: Writer<V>)
  {
    exists ss: seq<State<V>>, es: seq<Event<V>> ::
      Runs(g, h, ss, es) && ss[0] == State(w, Scan1(0)) && Throughout(h, ss) && SomeMoveBack(g, h, ss, es)
  }

  ghost predicate SomeMoveBack<V>(g: Geometry, h: nat, ss: seq<State<V>>, es: seq<Event<V>>)
    requires |ss| == |es| + 1
  {
    exists i | 0 <= i < |es| :: WriterOk(g, ss[i].w) && MovesBack(g, h, ss[i].w, es[i])
  }

  /** The writer's steps of a run, up to its step `n`, without the loads. */
  lemma {:induction false} WithoutLoads<V>(g: Geometry, h: nat, ss: seq<State<V>>, es: seq<Event<V>>, n: nat)
    returns (ws: seq<State<V>>, cs: seq<Event<V>>)
    requires Runs(g, h, ss, es) && Throughout(h, ss) && n <= |es|
    ensures Runs(g, h, ws, cs) && Throughout(h, ws)
    ensures ws[0] == State(ss[0].w, Scan1(0)) && ws[|cs|] == State(ss[n].w, Scan1(0))
  {
    hide WriterOk, Enabled, Changed, Loaded;
    if n == 0 {
      ws, cs := [State(ss[0].w, Scan1(0))], [];
    } else {
      ws, cs := WithoutLoads(g, h, ss, es, n - 1);
      assert Step(g, h, ss[n - 1], es[n - 1], ss[n]);
      if es[n - 1].Write? {
        var last := State(ss[n].w, Scan1(0));
        Single(g, h, ws[|cs|], es[n - 1], last);
        Join(g, h, ws, cs, [ws[|cs|], last], [es[n - 1]]);
        ws, cs := ws + [ws[|cs|], last][1..], cs + [es[n - 1]];
      }
    }
  }

  /** Main result: from any state, a lookup can miss an entry that is there all the
      time if and only if a relocation can move it from its second bucket to its
      first. */
  lemma MissesIffMovedBack<V(!new)>(g: Geometry, h: nat, w: Writer<V>)
    ensures CanMiss(g, h, w) <==> CanMoveBack(g, h, w)
  {
    hide WriterOk, MovesBack, Step;
    if CanMiss(g, h, w) {
      var ss: seq<State<V>>, es: seq<Event<V>> :| Runs(g, h, ss, es) && ss[0] == State(w, Scan1(0)) &&
                                                  Throughout(h, ss) && ss[|es|].r == Finished(None);
      var i := MissMeansMovedBack(g, h, ss, es);
      assert SomeMoveBack(g, h, ss, es);
    }
    if CanMoveBack(g, h, w) {
      var ss: seq<State<V>>, es: seq<Event<V>> :| Runs(g, h, ss, es) && ss[0] == State(w, Scan1(0)) &&
                                                  Throughout(h, ss) && SomeMoveBack(g, h, ss, es);
      var i :| 0 <= i < |es| && WriterOk(g, ss[i].w) && MovesBack(g, h, ss[i].w, es[i]);
      MoveBackIsCopying(g, h, ss[i].w, es[i]);
      var ws, cs := WithoutLoads(g, h, ss, es, i);
      var rs, ls := MovedBackIsMissed(g, h, ss[i].w);
      Join(g, h, ws, cs, rs, ls);
    }
  }

  lemma MoveBackIsCopying<V>(g: Geometry, h: nat, w: Writer<V>, e: Event<V>)
    requires WriterOk(g, w) && MovesBack(g, h, w, e)
    ensures e == Write(Copying)
  {
  }

  // ----------------------------------------------------------------- and it happens

  /** Two buckets of eight: hashes below 8 belong in the first, 8 in the first or
      the second, and those up to 16 in the second. */
  ghost function Sample(): Geometry
  {
    Geometry(8, 2, x => if x < 8 then 2 * x else if x == 8 then 0x1_0000 else 0x1_0001 + 2 * (x - 9))
  }

  lemma SampleBuckets(x: nat)
    requires x <= 16
    ensures var g := Sample();
            && g.B1(x) == (if x <= 8 then 0 else 1)
            && g.B2(x) == (if x < 8 then 0 else 1)
  {
    var v := Sample().rehash(x);
    assert v == (v / 0x1_0000) * 0x1_0000 + v % 0x1_0000;
    assert v / 0x1_0000 == if x < 8 then 0 else 1;
  }

  /** The table after the hashes below `n` have been added in turn and those below
      `r` taken out, which leaves them behind in their slots. */
  ghost function Filled(r: nat, n: nat): Writer<nat>
    requires r <= n <= 16
  {
    Writer([FilledBucket(r, n, 0), FilledBucket(r, n, 1)],
           map x | x in Between(r, n) :: 1, map x | x in Between(r, n) :: Pos(x / 8, x % 8), None, false)
  }

  ghost function FilledSlot(r: nat, n: nat, x: nat): Slot<nat>
  {
    if x < r then Slot(x, None) else if x < n then Slot(x, Some(1)) else Slot(0, None)
  }

  ghost function FilledBucket(r: nat, n: nat, b: nat): (s: seq<Slot<nat>>)
    ensures |s| == 8 && forall j | 0 <= j < 8 :: s[j] == FilledSlot(r, n, 8 * b + j)
  {
    seq(8, j requires 0 <= j => FilledSlot(r, n, 8 * b + j))
  }

  ghost function Between(r: nat, n: nat): (s: set<nat>)
    requires r <= n
    ensures |s| == n - r && forall x: nat :: x in s <==> r <= x < n
    decreases n - r
  {
    if r == n then {} else Between(r, n - 1) + {n - 1}
  }

  /** The writer of a new table, which is doing nothing. */
  ghost predicate Empty<V>(g: Geometry, w: Writer<V>)
  {
    WriterOk(g, w) && w.job.None? && !w.left && w.m == map[] && forall q | Within(g, q) :: At(g, w.t, q).val.None?
  }

  lemma EmptyOk()
    ensures Empty(Sample(), Filled(0, 0))
  {
  }

  /** Two buckets of eight take 13 entries, and are left if fewer than 3 remain. */
  lemma SampleLimits()
    ensures MaxN(Sample().nb, Sample().k) == 13 && MinN(Sample().nb, Sample().k) == 3
  {
  }

  lemma Entries(r: nat, n: nat)
    requires r <= n <= 16
    ensures |Filled(r, n).m| == n - r && (n - r < 13 ==> HasRoom(Sample(), Filled(r, n)))
  {
    SampleLimits();
    assert Filled(r, n).m.Keys == Between(r, n);
  }

  lemma SlotOf(r: nat, n: nat, q: Pos)
    requires r <= n <= 16 && Within(Sample(), q)
    ensures Shaped(Sample(), Filled(r, n).t) && At(Sample(), Filled(r, n).t, q) == FilledSlot(r, n, 8 * q.b + q.j)
  {
    assert q.b == 0 || q.b == 1;
  }

  lemma BucketNext(r: nat, n: nat, b: nat)
    requires r <= n
    ensures FilledBucket(r, n + 1, b) == if n / 8 == b then FilledBucket(r, n, b)[n % 8 := Slot(n, Some(1))]
                                         else FilledBucket(r, n, b)
  {
    assert n == 8 * (n / 8) + n % 8;
  }

  /** Hashes up to 8 come first, and the others when four have been taken out. */
  ghost predicate CanAdd(r: nat, n: nat)
  {
    (r == 0 && n < 9) || (r == 4 && 9 <= n < 16)
  }

  lemma AddEnabled(r: nat, n: nat)
    requires CanAdd(r, n) && WriterOk(Sample(), Filled(r, n))
    ensures Enabled(Sample(), Filled(r, n), Add(Pos(n / 8, n % 8), n, 1))
  {
    hide WriterOk, HasRoom, FilledBucket, Between;
    SampleBuckets(n);
    Entries(r, n);
    assert n == 8 * (n / 8) + n % 8;
    var p := Pos(n / 8, n % 8);
    SlotOf(r, n, p);
    forall q | Within(Sample(), q) && q.b == p.b && q.j < p.j ensures At(Sample(), Filled(r, n).t, q).val.Some? {
      SlotOf(r, n, q);
    }
    forall q | Within(Sample(), q) && p.b != Sample().B1(n) && q.b == Sample().B1(n)
      ensures At(Sample(), Filled(r, n).t, q).val.Some?
    {
      SlotOf(r, n, q);
    }
  }

  lemma AddNext(r: nat, n: nat)
    requires CanAdd(r, n) && WriterOk(Sample(), Filled(r, n))
    requires Enabled(Sample(), Filled(r, n), Add(Pos(n / 8, n % 8), n, 1))
    ensures Changed(Sample(), Filled(r, n), Add(Pos(n / 8, n % 8), n, 1)) == Filled(r, n + 1)
  {
    hide WriterOk, Enabled, Between, FilledBucket;
    BucketNext(r, n, 0);
    BucketNext(r, n, 1);
    MapsAdded(r, n);
  }

  lemma MapsAdded(r: nat, n: nat)
    requires r <= n < 16
    ensures Filled(r, n).m[n := 1] == Filled(r, n + 1).m
    ensures Filled(r, n).loc[n := Pos(n / 8, n % 8)] == Filled(r, n + 1).loc
  {
    hide FilledBucket, Between;
    assert Between(r, n + 1) == Between(r, n) + {n};
  }

  lemma TakeNext(r: nat, n: nat)
    requires r < 4 && n == 9 && WriterOk(Sample(), Filled(r, n))
    ensures Enabled(Sample(), Filled(r, n), Store(Pos(0, r), None))
    ensures Changed(Sample(), Filled(r, n), Store(Pos(0, r), None)) == Filled(r + 1, n)
  {
    hide WriterOk, MinN, MaxN, FilledBucket, Between;
    SampleLimits();
    Entries(r + 1, n);
    SlotOf(r, n, Pos(0, r));
    BucketTaken(r, n);
    MapsTaken(r, n);
  }

  lemma BucketTaken(r: nat, n: nat)
    requires r < 4 <= n
    ensures FilledBucket(r + 1, n, 0) == FilledBucket(r, n, 0)[r := Slot(r, None)]
    ensures FilledBucket(r + 1, n, 1) == FilledBucket(r, n, 1)
  {
  }

  lemma MapsTaken(r: nat, n: nat)
    requires r < n <= 16
    ensures Filled(r, n).m - {r} == Filled(r + 1, n).m && Filled(r, n).loc - {r} == Filled(r + 1, n).loc
  {
    hide FilledBucket, Between;
    assert Between(r + 1, n) == Between(r, n) - {r};
  }

  lemma {:induction false} FillUp(r: nat, n: nat) returns (ss: seq<State<nat>>, es: seq<Event<nat>>)
    requires (r == 0 && n <= 9) || (r <= 4 && n == 9) || (r == 4 && 9 <= n <= 16)
    ensures Runs(Sample(), 8, ss, es) && WriterOk(Sample(), Filled(r, n))
    ensures ss[0] == State(Filled(0, 0), Scan1(0)) && ss[|es|] == State(Filled(r, n), Scan1(0))
    decreases r + n
  {
    hide WriterOk, Enabled, Changed, Filled;
    EmptyOk();
    ss, es := [State(Filled(0, 0), Scan1(0))], [];
    if r > 0 && n == 9 {
      ss, es := FillUp(r - 1, n);
      TakeNext(r - 1, n);
      ss, es := OneMore(Sample(), 8, ss, es, Store(Pos(0, r - 1), None));
    } else if n > 0 {
      ss, es := FillUp(r, n - 1);
      AddEnabled(r, n - 1);
      AddNext(r, n - 1);
      ss, es := OneMore(Sample(), 8, ss, es, Add(Pos((n - 1) / 8, (n - 1) % 8), n - 1, 1));
    }
  }

  /** One more change. */
  lemma OneMore<V>(g: Geometry, h: nat, ss: seq<State<V>>, es: seq<Event<V>>, c: Change<V>)
    returns (ss': seq<State<V>>, es': seq<Event<V>>)
    requires Runs(g, h, ss, es) && WriterOk(g, ss[|es|].w) && Enabled(g, ss[|es|].w, c)
    ensures Runs(g, h, ss', es') && ss'[0] == ss[0]
    ensures ss'[|es'|] == ss[|es|].(w := Changed(g, ss[|es|].w, c)) && WriterOk(g, ss'[|es'|].w)
  {
    hide WriterOk, Enabled, Changed, Loaded;
    var s := ss[|es|];
    var s' := s.(w := Changed(g, s.w, c));
    ChangeOk(g, s.w, c);
    Single(g, h, s, Write(c), s');
    Join(g, h, ss, es, [s, s'], [Write(c)]);
    ss', es' := ss + [s, s'][1..], es + [Write(c)];
  }

  /** A table with hash 8 at the start of the second bucket, which is full, and room
      at the start of the first. */
  ghost predicate Poised(t: Table<nat>)
  {
    && Shaped(Sample(), t) && Full(Sample(), t, 1)
    && At(Sample(), t, Pos(1, 0)).hash == 8 && At(Sample(), t, Pos(0, 0)).val.None?
  }

  lemma FilledIsPoised(r: nat, n: nat)
    requires r == 4 && n == 16
    ensures var w := Filled(r, n);
            w.job.None? && HasRoom(Sample(), w) && 16 !in w.m && Poised(w.t)
  {
    hide HasRoom, FilledBucket, Between;
    Entries(r, n);
    SlotOf(r, n, Pos(1, 0));
    SlotOf(r, n, Pos(0, 0));
    forall q | Within(Sample(), q) && q.b == 1 ensures At(Sample(), Filled(r, n).t, q).val.Some? {
      SlotOf(r, n, q);
    }
  }

  lemma PoisedMovable(t: Table<nat>)
    requires Poised(t)
    ensures Movable(Sample(), t, 1, 1, [0, 0], [1, 0])
  {
    hide Full;
    SampleBuckets(8);
    assert [0, 0][..1] == [0];
    assert Hop(Sample(), t, 1, 0) == 0;
    assert Walk(Sample(), t, 1, 1, [0], [1, 0]);
  }

  /** Adding a hash to the second bucket of such a table moves hash 8 back. */
  lemma PoisedMovesBack(w: Writer<nat>) returns (c: Change<nat>)
    requires WriterOk(Sample(), w) && w.job.None? && HasRoom(Sample(), w) && 16 !in w.m && Poised(w.t)
    ensures Enabled(Sample(), w, c)
    ensures var w' := Changed(Sample(), w, c);
            WriterOk(Sample(), w') && MovesBack(Sample(), 8, w', Write(Copying))
  {
    hide WriterOk, HasRoom, FullWithin, Full, Movable;
    c := Relocate(16, 1, [0, 0], [1, 0]);
    SampleBuckets(8);
    SampleBuckets(16);
    PoisedMovable(w.t);
    ZeroHops(Sample(), w.t, 1);
    ChangeOk(Sample(), w, c);
  }

  lemma ZeroHops<V>(g: Geometry, t: Table<V>, b: nat)
    requires Shaped(g, t) && Full(g, t, b)
    ensures FullWithin(g, t, b, b, 0)
  {
  }

  lemma Reached() returns (ss: seq<State<nat>>, es: seq<Event<nat>>)
    ensures Runs(Sample(), 8, ss, es) && WriterOk(Sample(), ss[|es|].w)
    ensures MovesBack(Sample(), 8, ss[|es|].w, Write(Copying))
    ensures ss[0] == State(Filled(0, 0), Scan1(0)) && ss[|es|].r == Scan1(0)
  {
    hide WriterOk, Enabled, Changed, MovesBack, Sample, Filled, Poised, HasRoom, Step;
    ss, es := FillUp(4, 16);
    FilledIsPoised(4, 16);
    var c := PoisedMovesBack(ss[|es|].w);
    ss, es := OneMore(Sample(), 8, ss, es, c);
  }

  /** Main result: from the empty table there is a run in which a lookup misses a
      hash that has an entry from before its first load until after its last.  The
      table is in use all the time, within its load limits. */
  lemma MissHappens() returns (g: Geometry, h: nat, ss: seq<State<nat>>, es: seq<Event<nat>>, i: nat)
    ensures Runs(g, h, ss, es) && i < |ss|
    ensures ss[0].r == Scan1(0) && Empty(g, ss[0].w)
    ensures ss[i].r == Scan1(0) && Throughout(h, ss[i..]) && ss[|es|].r == Finished(None) && !ss[|es|].w.left
  {
    hide WriterOk, MovesBack, Sample, Filled, Step, Empty;
    g, h := Sample(), 8;
    EmptyOk();
    var before, stores := Reached();
    i := |stores|;
    var rest, rs := MovedBackIsMissed(g, h, before[i].w);
    Join(g, h, before, stores, rest, rs);
    ss, es := before + rest[1..], stores + rs;
    assert ss[i..] == rest;
  }
}

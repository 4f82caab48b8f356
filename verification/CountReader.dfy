/** The counting map's lock-free reader, which has no counters to check: one slot
    per load, in any interleaving with a writer that adds, changes, takes out and
    relocates entries one slot at a time. */
module CountReader {
  import opened Cuckoo
  import opened CuckooSearch
  import opened CuckooTables
  import opened LoadFactor
  import opened Options

  // ---------------------------------------------------------------- the writer

  /** Relocating entries along a path of the table `t0`, to make room for `x`; the
      moves back to stop `k` have been made. */
  datatype Job<V> = Job(t0: Table<V>, loc0: map<nat, Pos>, x: nat, v: V, slots: seq<nat>, trail: seq<nat>, k: nat)
  {
    ghost function At(i: nat): Pos
      requires i < |slots| && i < |trail|
    {
      Stop(slots, trail, i)
    }
  }

  /** Memory, the entries and, for the proofs, where each of them is.  A table that
      a rehash has replaced is `left` as it is; readers may still be at it. */
  datatype Writer<V> = Writer(t: Table<V>, m: map<nat, V>, loc: map<nat, Pos>, job: Option<Job<V>>, left: bool)

  /** A slot is one word, so that every change is a single store: a copy along the
      path of a relocation, the new entry in the slot it frees, a new entry in an
      empty slot, or a new value, or none, for an entry.  A map with too many
      entries, or that finds no room, leaves for another table, and so does one
      that a removal brings below the minimum. */
  datatype Change<V> =
    | Relocate(x: nat, v: V, slots: seq<nat>, trail: seq<nat>)
    | Copying
    | Fill
    | Add(p: Pos, x: nat, v: V)
    | Store(p: Pos, r: Option<V>)
    | Leave

  ghost predicate JobOk<V>(g: Geometry, w: Writer<V>, j: Job<V>)
  {
    && Shaped(g, w.t) && Shaped(g, j.t0) && Stands(g, j.t0, None, w.m, j.loc0)
    && j.x !in w.m && Full(g, j.t0, g.B1(j.x)) && Full(g, j.t0, g.B2(j.x))
    && Movable(g, j.t0, g.B1(j.x), g.B2(j.x), j.slots, j.trail)
    && j.k < |j.slots| && (forall i | 0 <= i < |j.slots| :: Within(g, j.At(i)))
    && Moved(g, j.t0, w.t, w.m, w.loc, j.slots, j.trail, j.k)
    && At(g, w.t, j.At(j.k)) == At(g, j.t0, j.At(j.k))
  }

  ghost predicate WriterOk<V>(g: Geometry, w: Writer<V>)
  {
    && Shaped(g, w.t)
    && if w.job.None? then Stands(g, w.t, None, w.m, w.loc) else !w.left && JobOk(g, w, w.job.value)
  }

  ghost predicate Enabled<V>(g: Geometry, w: Writer<V>, c: Change<V>)
    requires WriterOk(g, w)
  {
    match c
    case Relocate(x, v, slots, trail) =>
      && w.job.None? && HasRoom(g, w) && x !in w.m && Full(g, w.t, g.B1(x)) && Full(g, w.t, g.B2(x))
      && Movable(g, w.t, g.B1(x), g.B2(x), slots, trail) && FullWithin(g, w.t, g.B1(x), g.B2(x), |slots| - 2)
    case Copying => w.job.Some? && w.job.value.k > 0
    case Fill => w.job.Some? && w.job.value.k == 0
    case Add(p, x, v) =>
      && w.job.None? && HasRoom(g, w) && x !in w.m && Within(g, p) && g.Candidate(p.b, x)
      && At(g, w.t, p).val.None? && UsedBefore(g, w.t, p) && (p.b != g.B1(x) ==> Full(g, w.t, g.B1(x)))
    case Store(p, r) => w.job.None? && !w.left && Within(g, p) && At(g, w.t, p).val.Some?
    case Leave => w.job.None? && !w.left
  }

  /** The table is in use and its load allows for one more entry. */
  ghost predicate HasRoom<V>(g: Geometry, w: Writer<V>)
  {
    !w.left && |w.m| < MaxN(g.nb, g.k)
  }

  ghost function Changed<V>(g: Geometry, w: Writer<V>, c: Change<V>): Writer<V>
    requires WriterOk(g, w) && Enabled(g, w, c)
  {
    match c
    case Relocate(x, v, slots, trail) => w.(job := Some(Job(w.t, w.loc, x, v, slots, trail, |slots| - 1)))
    case Copying =>
      var j := w.job.value;
      var s := At(g, w.t, j.At(j.k - 1));
      w.(t := Set(g, w.t, j.At(j.k), s), loc := w.loc[s.hash := j.At(j.k)], job := Some(j.(k := j.k - 1)))
    case Fill =>
      var j := w.job.value;
      Writer(Set(g, w.t, j.At(0), Slot(j.x, Some(j.v))), w.m[j.x := j.v], w.loc[j.x := j.At(0)], None, false)
    case Add(p, x, v) => Writer(Set(g, w.t, p, Slot(x, Some(v))), w.m[x := v], w.loc[x := p], None, false)
    case Store(p, r) =>
      var x := At(g, w.t, p).hash;
      var t := Set(g, w.t, p, Slot(x, r));
      if r.Some? then Writer(t, w.m[x := r.value], w.loc, None, false)
      else Writer(t, w.m - {x}, w.loc - {x}, None, |w.m - {x}| < MinN(g.nb, g.k))
    case Leave => w.(left := true)
  }

  // ---------------------------------------------------------------- the reader

  /** About to load slot `j` of the first bucket, of the second, or finished. */
  datatype Reader<V> = Scan1(j: nat) | Scan2(j: nat) | Finished(result: Option<V>)

  ghost function Loaded<V>(g: Geometry, h: nat, t: Table<V>, r: Reader<V>): Reader<V>
    requires Shaped(g, t)
  {
    match r
    case Scan1(j) =>
      var s := if j < g.k then At(g, t, Pos(g.B1(h), j)) else Slot(h, None);
      if s.hash == h then if s.val.Some? then Finished(s.val) else Scan2(0)
      else if j + 1 < g.k then Scan1(j + 1) else Scan2(0)
    case Scan2(j) =>
      var s := if j < g.k then At(g, t, Pos(g.B2(h), j)) else Slot(h, None);
      if s.hash == h then Finished(s.val)
      else if j + 1 < g.k then Scan2(j + 1) else Finished(None)
    case Finished(v) => r
  }

  // ------------------------------------------------------------------ every run

  datatype State<V> = State(w: Writer<V>, r: Reader<V>)

  datatype Event<V> = Write(c: Change<V>) | Load

  ghost predicate Step<V>(g: Geometry, h: nat, s: State<V>, e: Event<V>, s': State<V>)
  {
    && WriterOk(g, s.w)
    && match e
       case Write(c) => Enabled(g, s.w, c) && s' == s.(w := Changed(g, s.w, c))
       case Load => !s.r.Finished? && s' == s.(r := Loaded(g, h, s.w.t, s.r))
  }

  ghost predicate Runs<V>(g: Geometry, h: nat, ss: seq<State<V>>, es: seq<Event<V>>)
  {
    |ss| == |es| + 1 && forall i | 0 <= i < |es| :: Step(g, h, ss[i], es[i], ss[i + 1])
  }

  ghost predicate Throughout<V>(h: nat, ss: seq<State<V>>)
  {
    forall i | 0 <= i < |ss| :: h in ss[i].w.m
  }

  /** The step copies the entry for the hash from its second bucket to its first. */
  ghost predicate MovesBack<V>(g: Geometry, h: nat, w: Writer<V>, e: Event<V>)
    requires WriterOk(g, w)
  {
    && e == Write(Copying) && Enabled(g, w, Copying)
    && var j := w.job.value;
       At(g, w.t, j.At(j.k - 1)).hash == h && j.trail[j.k - 1] == g.B2(h) && j.trail[j.k] == g.B1(h)
  }

  // --------------------------------------------------- what the writer's steps keep

  lemma RelocateOk<V>(g: Geometry, w: Writer<V>, c: Change<V>)
    requires WriterOk(g, w) && c.Relocate? && Enabled(g, w, c)
    ensures WriterOk(g, Changed(g, w, c))
  {
    hide Placed, Owned, AllClear, Full, UsedBefore;
    var last := |c.slots| - 1;
    EmptyIsHole(g, w.t, w.m, w.loc, Stop(c.slots, c.trail, last));
    forall i | 0 <= i < |c.slots| ensures Within(g, Stop(c.slots, c.trail, i)) {
      assert i < last ==> c.slots[..last][i] == c.slots[i];
    }
  }

  lemma CopyingOk<V>(g: Geometry, w: Writer<V>)
    requires WriterOk(g, w) && Enabled(g, w, Copying)
    ensures WriterOk(g, Changed(g, w, Copying))
  {
    hide Stands, Full, UsedBefore, Walk, Copy;
    var j := w.job.value;
    MoveStep(g, j.t0, w.t, w.m, w.loc, g.B1(j.x), g.B2(j.x), j.slots, j.trail, j.k);
    NextStop(g, w, j);
    hide Moved, Movable;
    var w' := Changed(g, w, Copying);
    var j' := w'.job.value;
    assert j'.At(j'.k) == j.At(j.k - 1) != j.At(j.k);
    assert At(g, w'.t, j'.At(j'.k)) == At(g, j.t0, j'.At(j'.k));
    assert Moved(g, j'.t0, w'.t, w'.m, w'.loc, j'.slots, j'.trail, j'.k);
    assert forall i | 0 <= i < |j'.slots| :: j'.At(i) == j.At(i);
    assert JobOk(g, w', j');
  }

  /** The entry to be moved next is where the path was found. */
  lemma NextStop<V>(g: Geometry, w: Writer<V>, j: Job<V>)
    requires JobOk(g, w, j) && j.k > 0
    ensures At(g, w.t, j.At(j.k - 1)) == At(g, j.t0, j.At(j.k - 1)) && j.trail[j.k - 1] != j.trail[j.k]
  {
    hide Stands, Full, UsedBefore, Walk, Copy;
    assert Within(g, j.At(j.k - 1));
    assert w.t[j.trail[j.k - 1]] == j.t0[j.trail[j.k - 1]];
  }

  lemma FillOk<V>(g: Geometry, w: Writer<V>)
    requires WriterOk(g, w) && Enabled(g, w, Fill)
    ensures WriterOk(g, Changed(g, w, Fill))
  {
    hide Placed, Owned, AllClear, Full, UsedBefore, Copy;
    var j := w.job.value;
    var p := j.At(0);
    assert g.Candidate(p.b, j.x);
    UsedIsOther(g, w.t, Some(p), w.m, w.loc, p, j.x);
    FillNew(g, w.t, w.m, w.loc, p, j.x, j.v);
  }

  lemma AddOk<V>(g: Geometry, w: Writer<V>, c: Change<V>)
    requires WriterOk(g, w) && c.Add? && Enabled(g, w, c)
    ensures WriterOk(g, Changed(g, w, c))
  {
    hide Placed, Owned, AllClear, Full, UsedBefore, Copy;
    EmptyIsHole(g, w.t, w.m, w.loc, c.p);
    UsedIsOther(g, w.t, Some(c.p), w.m, w.loc, c.p, c.x);
    FillNew(g, w.t, w.m, w.loc, c.p, c.x, c.v);
  }

  lemma StoreOk<V>(g: Geometry, w: Writer<V>, c: Change<V>)
    requires WriterOk(g, w) && c.Store? && Enabled(g, w, c)
    ensures At(g, w.t, c.p).hash in w.m && w.loc[At(g, w.t, c.p).hash] == c.p
    ensures WriterOk(g, Changed(g, w, c))
  {
    hide AllClear;
    var x := At(g, w.t, c.p).hash;
    assert Used(g, w.t, None, c.p);
    hide Placed, Owned;
    if c.r.Some? {
      ChangeValue(g, w.t, w.m, w.loc, x, c.r.value);
    } else {
      TakeOut(g, w.t, w.m, w.loc, x);
    }
  }

  /** Every change leads from a good state to a good one, so that runs do not end
      for want of it. */
  lemma ChangeOk<V>(g: Geometry, w: Writer<V>, c: Change<V>)
    requires WriterOk(g, w) && Enabled(g, w, c)
    ensures WriterOk(g, Changed(g, w, c))
  {
    match c
    case Relocate(_, _, _, _) => RelocateOk(g, w, c);
    case Copying => CopyingOk(g, w);
    case Fill => FillOk(g, w);
    case Add(_, _, _) => AddOk(g, w, c);
    case Store(_, _) => StoreOk(g, w, c);
    case Leave =>
  }

  // ----------------------------------------------------------- what a load can see

  /** The slot of a relocation that repeats an entry. */
  ghost function Hole<V>(w: Writer<V>): Option<Pos>
  {
    if w.job.Some? && w.job.value.k < |w.job.value.slots| - 1 && w.job.value.k < |w.job.value.trail|
    then Some(w.job.value.At(w.job.value.k)) else None
  }

  lemma Standing<V>(g: Geometry, w: Writer<V>)
    requires WriterOk(g, w)
    ensures Stands(g, w.t, Hole(w), w.m, w.loc) && (Hole(w).Some? ==> Copy(g, w.t, Hole(w).value, w.m, w.loc))
  {
  }

  /** A live slot with the hash has the entry's value at that moment. */
  lemma LiveIsRight<V>(g: Geometry, w: Writer<V>, q: Pos)
    requires WriterOk(g, w) && Within(g, q) && Shaped(g, w.t) && At(g, w.t, q).val.Some?
    ensures Get(w.m, At(g, w.t, q).hash) == At(g, w.t, q).val
  {
    Standing(g, w);
    StandsCoherent(g, w.t, Hole(w), w.m, w.loc);
    hide Answers, WriterOk, Stands;
  }

  /** A leftover with the hash comes after the entry in its bucket, and is not in
      the first bucket if the entry is in the second. */
  lemma LeftoverIsLater<V>(g: Geometry, w: Writer<V>, h: nat, q: Pos)
    requires WriterOk(g, w) && h in w.m && Within(g, q) && Shaped(g, w.t) && At(g, w.t, q) == Slot(h, None)
    ensures h in w.loc && (q.b == w.loc[h].b ==> q.j > w.loc[h].j) && (w.loc[h].b != g.B1(h) ==> q.b != g.B1(h))
  {
    hide JobOk, Hole, Stands, Copy;
    Standing(g, w);
    EntryAt(g, w, h);
    ClearOfLeftover(g, w.t, Hole(w), w.m, w.loc, h, q);
  }

  lemma ClearOfLeftover<V>(g: Geometry, t: Table<V>, hole: Option<Pos>, m: map<nat, V>, loc: map<nat, Pos>, h: nat,
                           q: Pos)
    requires Stands(g, t, hole, m, loc) && (hole.Some? ==> Copy(g, t, hole.value, m, loc))
    requires h in loc && Within(g, loc[h]) && Within(g, q) && At(g, t, q).val.None?
    ensures Clear(g, t, loc[h], q)
  {
    hide Placed, Owned;
  }

  lemma EntryAt<V>(g: Geometry, w: Writer<V>, h: nat)
    requires WriterOk(g, w) && h in w.m
    ensures h in w.loc && Within(g, w.loc[h]) && Shaped(g, w.t) && At(g, w.t, w.loc[h]) == Slot(h, Some(w.m[h]))
    ensures g.Candidate(w.loc[h].b, h)
  {
    Standing(g, w);
    hide WriterOk, Hole;
    assert Used(g, w.t, Hole(w), w.loc[h]);
  }

  // ---------------------------------------------------------- misses need a move

  /** The entry is still ahead of the reader. */
  ghost predicate Ahead<V>(g: Geometry, h: nat, loc: map<nat, Pos>, r: Reader<V>)
    requires g.Valid()
  {
    h in loc &&
    match r
    case Scan1(j) => j < g.k && (loc[h].b == g.B1(h) ==> j <= loc[h].j)
    case Scan2(j) => loc[h].b != g.B1(h) && j <= loc[h].j < g.k
    case Finished(v) => v.Some?
  }

  lemma LoadKeeps<V>(g: Geometry, h: nat, w: Writer<V>, r: Reader<V>)
    requires WriterOk(g, w) && g.Valid() && Shaped(g, w.t) && h in w.m && Ahead(g, h, w.loc, r)
    ensures Ahead(g, h, w.loc, Loaded(g, h, w.t, r))
  {
    hide WriterOk, Clear;
    EntryAt(g, w, h);
    if !r.Finished? {
      var q := Pos(if r.Scan1? then g.B1(h) else g.B2(h), r.j);
      if At(g, w.t, q) == Slot(h, None) {
        LeftoverIsLater(g, w, h, q);
      }
    }
  }

  /** A copy takes the entry from one of its buckets to the other. */
  lemma CopyingMoves<V>(g: Geometry, w: Writer<V>)
    requires WriterOk(g, w) && Enabled(g, w, Copying)
    ensures var j := w.job.value;
            var h := At(g, w.t, j.At(j.k - 1)).hash;
            && h in w.m && h in w.loc && w.loc[h] == j.At(j.k - 1)
            && ((j.trail[j.k - 1] == g.B1(h) && j.trail[j.k] == g.B2(h)) ||
                (j.trail[j.k - 1] == g.B2(h) && j.trail[j.k] == g.B1(h)))
            && j.trail[j.k - 1] != j.trail[j.k]
  {
    var j := w.job.value;
    StopsOk(g, j.t0, w.t, w.m, w.loc, g.B1(j.x), g.B2(j.x), j.slots, j.trail, j.k);
    hide Moved, Movable, Full, UsedBefore, Stands;
    MoveOne(g, w.t, w.m, w.loc, j.At(j.k), j.At(j.k - 1));
    EntryAt(g, w, At(g, w.t, j.At(j.k - 1)).hash);
  }

  /** A change that does not move the entry back moves it on to its second bucket
      or not at all. */
  lemma ChangeMoves<V>(g: Geometry, h: nat, w: Writer<V>, c: Change<V>)
    requires WriterOk(g, w) && Enabled(g, w, c) && !MovesBack(g, h, w, Write(c))
    requires h in w.m && h in Changed(g, w, c).m
    ensures var loc, loc' := w.loc, Changed(g, w, c).loc;
            && h in loc && h in loc'
            && (loc'[h] == loc[h] || (loc[h].b == g.B1(h) && loc'[h].b != g.B1(h)))
  {
    hide WriterOk, Movable, FullWithin, Full, UsedBefore;
    EntryAt(g, w, h);
    match c
    case Relocate(_, _, _, _) =>
    case Copying =>
      CopyingMoves(g, w);
    case Fill =>
      NewHasNoEntry(g, w);
    case Add(_, _, _) =>
    case Store(_, _) =>
    case Leave =>
  }

  lemma NewHasNoEntry<V>(g: Geometry, w: Writer<V>)
    requires WriterOk(g, w) && w.job.Some?
    ensures w.job.value.x !in w.m
  {
  }

  lemma {:induction false} StaysAhead<V>(g: Geometry, h: nat, ss: seq<State<V>>, es: seq<Event<V>>, n: nat)
    requires Runs(g, h, ss, es) && n < |ss| && ss[0].r == Scan1(0) && es != [] && Throughout(h, ss)
    requires forall i | 0 <= i < n && WriterOk(g, ss[i].w) :: !MovesBack(g, h, ss[i].w, es[i])
    ensures g.Valid() && Ahead(g, h, ss[n].w.loc, ss[n].r)
  {
    hide WriterOk, Enabled, Changed, MovesBack;
    assert Step(g, h, ss[0], es[0], ss[1]);
    EntryAt(g, ss[0].w, h);
    if n > 0 {
      StaysAhead(g, h, ss, es, n - 1);
      assert Step(g, h, ss[n - 1], es[n - 1], ss[n]);
      EntryAt(g, ss[n - 1].w, h);
      if es[n - 1].Load? {
        LoadKeeps(g, h, ss[n - 1].w, ss[n - 1].r);
      } else {
        ChangeMoves(g, h, ss[n - 1].w, es[n - 1].c);
      }
    }
  }

  /** Main result: a lookup of a hash that has an entry all the time misses it only
      if, meanwhile, a relocation moved it from its second bucket to its first. */
  lemma MissMeansMovedBack<V>(g: Geometry, h: nat, ss: seq<State<V>>, es: seq<Event<V>>) returns (i: nat)
    requires Runs(g, h, ss, es) && ss[0].r == Scan1(0) && ss[|es|].r == Finished(None) && Throughout(h, ss)
    ensures i < |es| && WriterOk(g, ss[i].w) && MovesBack(g, h, ss[i].w, es[i])
  {
    if !exists i | 0 <= i < |es| :: WriterOk(g, ss[i].w) && MovesBack(g, h, ss[i].w, es[i]) {
      StaysAhead(g, h, ss, es, |es|);
    }
    i :| 0 <= i < |es| && WriterOk(g, ss[i].w) && MovesBack(g, h, ss[i].w, es[i]);
  }

  /** Main result: a value that a lookup returns was that of the hash at a moment of
      the lookup.  In particular, nothing is found for a hash that never has one. */
  lemma {:induction false} FoundIsRight<V>(g: Geometry, h: nat, ss: seq<State<V>>, es: seq<Event<V>>) returns (i: nat)
    requires Runs(g, h, ss, es) && !ss[0].r.Finished?
    requires ss[|es|].r.Finished? && ss[|es|].r.result.Some?
    ensures i < |ss| && h in ss[i].w.m && ss[|es|].r.result == Some(ss[i].w.m[h])
    decreases |es|
  {
    hide JobOk, Enabled, Changed, Stands;
    var n := |es| - 1;
    assert Step(g, h, ss[n], es[n], ss[n + 1]);
    if ss[n].r.Finished? {
      assert forall i | 0 <= i < n :: Step(g, h, ss[i], es[i], ss[i + 1]);
      i := FoundIsRight(g, h, ss[..n + 1], es[..n]);
    } else {
      LoadIsRight(g, h, ss[n].w, ss[n].r);
      i := n;
    }
  }

  lemma LoadIsRight<V>(g: Geometry, h: nat, w: Writer<V>, r: Reader<V>)
    requires WriterOk(g, w) && Shaped(g, w.t) && !r.Finished?
    requires var r' := Loaded(g, h, w.t, r); r'.Finished? && r'.result.Some?
    ensures h in w.m && Loaded(g, h, w.t, r).result == Some(w.m[h])
  {
    hide WriterOk;
    LiveIsRight(g, w, Pos(if r.Scan1? then g.B1(h) else g.B2(h), r.j));
  }
}

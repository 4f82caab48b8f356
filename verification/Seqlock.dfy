/** One writer and a lock-free reader of the cuckoo hash table, step by step in any
    interleaving: the reader's result is right for some moment of its search. */
module Seqlock {
  import opened Cuckoo
  import CuckooTables
  import opened Options

  // ----------------------------------------------------------- the state machine

  /** The writer is between changes or has a slot's change under way. */
  datatype Writer<V> = Idle | Writing(p: Pos, s: Slot<V>, stage: nat, m: map<nat, V>)

  /** Where the reader is: about to read the first bucket's counter, a slot's hash
      in the first bucket, that slot's node, the counter again; the same for the
      second bucket; the first bucket's counter once more; finished. */
  datatype Reader<V> =
    | Start
    | Scan1(c1: nat, j: nat)
    | Node1(c1: nat, j: nat)
    | Check1(c1: nat, node: Option<V>)
    | Start2(c1: nat)
    | Scan2(c1: nat, c2: nat, j: nat)
    | Node2(c1: nat, c2: nat, j: nat)
    | Check2(c1: nat, c2: nat, node: Option<V>)
    | Recheck(c1: nat)
    | Finished(result: Option<V>)

  /** Memory and the buckets' counters; the table as of the last completed change
      and what it stands for; writer and reader; the map, and whether it has left
      this table for another; and the answers that have been right since the
      reader started. */
  datatype State<V> = State(mem: Table<V>, cnt: seq<nat>, base: Table<V>, m: map<nat, V>,
                            w: Writer<V>, r: Reader<V>, live: map<nat, V>, left: bool, seen: seq<Option<V>>)

  /** A slot is changed by a counter step, two writes and another counter step,
      but a change of its node alone by a single write.  A rehash replaces the
      table, which is not changed any more, while the map goes on elsewhere. */
  datatype Event<V> =
    | Begin(p: Pos, s: Slot<V>, m: map<nat, V>)
    | Write
    | Poke(p: Pos, val: Option<V>, m: map<nat, V>)
    | Replace
    | Elsewhere(m: map<nat, V>)
    | Read

  ghost predicate Enabled<V>(g: Geometry, s: State<V>, e: Event<V>)
    requires Shaped(g, s.base)
  {
    match e
    case Begin(p, slot, m) => s.w.Idle? && !s.left && Within(g, p) && Coherent(g, Set(g, s.base, p, slot), m)
    case Write => s.w.Writing?
    case Poke(p, val, m) =>
      s.w.Idle? && !s.left && Within(g, p) && Coherent(g, Set(g, s.base, p, At(g, s.base, p).(val := val)), m)
    case Replace => s.w.Idle? && !s.left
    case Elsewhere(m) => s.left
    case Read => !s.r.Finished?
  }

  /** The slot in memory after so many of the two writes. */
  ghost function Partly<V>(was: Slot<V>, s: Slot<V>, stage: nat): Slot<V>
  {
    if stage == 0 then was else if stage == 1 then was.(val := s.val) else s
  }

  ghost predicate Consistent<V>(g: Geometry, s: State<V>)
  {
    && Shaped(g, s.base) && Shaped(g, s.mem) && |s.cnt| == g.nb && Coherent(g, s.base, s.m)
    && (if s.left then s.w.Idle? else s.live == s.m)
    && match s.w
       case Idle => s.mem == s.base && forall b | 0 <= b < g.nb :: s.cnt[b] % 2 == 0
       case Writing(p, slot, stage, m) =>
         && Within(g, p) && stage <= 2 && Coherent(g, Set(g, s.base, p, slot), m)
         && s.mem == Set(g, s.base, p, Partly(At(g, s.base, p), slot, stage))
         && forall b | 0 <= b < g.nb :: s.cnt[b] % 2 == if b == p.b then 1 else 0
  }

  ghost function Next<V>(g: Geometry, h: nat, s: State<V>, e: Event<V>): State<V>
    requires Consistent(g, s) && Enabled(g, s, e)
  {
    var s' := match e
      case Begin(p, slot, m) => s.(w := Writing(p, slot, 0, m), cnt := s.cnt[p.b := s.cnt[p.b] + 1])
      case Write =>
        var p := s.w.p;
        if s.w.stage < 2 then
          s.(w := s.w.(stage := s.w.stage + 1),
             mem := Set(g, s.mem, p, Partly(At(g, s.base, p), s.w.s, s.w.stage + 1)))
        else
          s.(w := Idle, cnt := s.cnt[p.b := s.cnt[p.b] + 1], base := s.mem, m := s.w.m, live := s.w.m)
      case Poke(p, val, m) =>
        var t := Set(g, s.base, p, At(g, s.base, p).(val := val));
        s.(mem := t, base := t, m := m, live := m)
      case Replace => s.(left := true)
      case Elsewhere(m) => s.(live := m)
      case Read => s.(r := ReaderNext(g, h, s));
    s'.(seen := s'.seen + [Get(s'.live, h)])
  }

  ghost function ReaderNext<V>(g: Geometry, h: nat, s: State<V>): Reader<V>
    requires Consistent(g, s)
  {
    var b1, b2 := g.B1(h), g.B2(h);
    match s.r
    case Start => if s.cnt[b1] % 2 == 1 then Start else Scan1(s.cnt[b1], 0)
    case Scan1(c1, j) =>
      if j >= g.k then Check1(c1, None)
      else if s.mem[b1][j].hash == h then Node1(c1, j) else Scan1(c1, j + 1)
    case Node1(c1, j) => Check1(c1, if j < g.k then s.mem[b1][j].val else None)
    case Check1(c1, node) => if s.cnt[b1] != c1 then Start else if node.Some? then Finished(node) else Start2(c1)
    case Start2(c1) => if s.cnt[b2] % 2 == 1 then Start2(c1) else Scan2(c1, s.cnt[b2], 0)
    case Scan2(c1, c2, j) =>
      if j >= g.k then Check2(c1, c2, None)
      else if s.mem[b2][j].hash == h then Node2(c1, c2, j) else Scan2(c1, c2, j + 1)
    case Node2(c1, c2, j) => Check2(c1, c2, if j < g.k then s.mem[b2][j].val else None)
    case Check2(c1, c2, node) =>
      if s.cnt[b2] != c2 then Start2(c1) else if node.Some? then Finished(node) else Recheck(c1)
    case Recheck(c1) => if s.cnt[b1] != c1 then Start else Finished(None)
    case Finished(v) => Finished(v)
  }

  // ------------------------------------------------------------- the invariant

  /** The counter has not moved since it was read, and then was even. */
  ghost predicate Still<V>(s: State<V>, b: nat, c: nat)
    requires b < |s.cnt|
  {
    s.cnt[b] == c
  }

  ghost predicate NoHash<V>(g: Geometry, s: State<V>, b: nat, h: nat, j: nat)
    requires Shaped(g, s.base) && b < g.nb
  {
    forall i | 0 <= i < j && i < g.k :: s.base[b][i].hash != h
  }

  /** The first bucket was found without the hash, and still is, or the hash had
      no entry when the leftover was seen. */
  ghost predicate First<V>(g: Geometry, h: nat, s: State<V>, c1: nat)
    requires Shaped(g, s.base) && |s.cnt| == g.nb
  {
    c1 % 2 == 0 && c1 <= s.cnt[g.B1(h)]
    && (Still(s, g.B1(h), c1) ==> NoHash(g, s, g.B1(h), h, g.k) || None in s.seen)
  }

  ghost predicate Counted<V>(s: State<V>, b: nat, c: nat)
    requires b < |s.cnt|
  {
    c % 2 == 0 && c <= s.cnt[b]
  }

  ghost predicate ReaderInv<V>(g: Geometry, h: nat, s: State<V>)
    requires Consistent(g, s)
  {
    var b1, b2 := g.B1(h), g.B2(h);
    match s.r
    case Start => true
    case Scan1(c1, j) => Counted(s, b1, c1) && (Still(s, b1, c1) ==> NoHash(g, s, b1, h, j))
    case Node1(c1, j) => j < g.k && Counted(s, b1, c1) && (Still(s, b1, c1) ==> FirstIn(s.base[b1], h, j))
    case Check1(c1, node) =>
      && Counted(s, b1, c1)
      && (Still(s, b1, c1) ==> node in s.seen || (node.None? && NoHash(g, s, b1, h, g.k)))
    case Start2(c1) => First(g, h, s, c1)
    case Scan2(c1, c2, j) => First(g, h, s, c1) && Counted(s, b2, c2) && (Still(s, b2, c2) ==> NoHash(g, s, b2, h, j))
    case Node2(c1, c2, j) =>
      j < g.k && First(g, h, s, c1) && Counted(s, b2, c2) && (Still(s, b2, c2) ==> FirstIn(s.base[b2], h, j))
    case Check2(c1, c2, node) =>
      && First(g, h, s, c1) && Counted(s, b2, c2)
      && (Still(s, b2, c2) ==> node in s.seen || (node.None? && (Still(s, b1, c1) ==> None in s.seen)))
    case Recheck(c1) => Counted(s, b1, c1) && (Still(s, b1, c1) ==> None in s.seen)
    case Finished(v) => v in s.seen
  }

  ghost predicate Inv<V>(g: Geometry, h: nat, s: State<V>)
  {
    Consistent(g, s) && Get(s.m, h) in s.seen && ReaderInv(g, h, s)
  }

  /** A bucket whose counter is even is not being changed. */
  lemma EvenIsStable<V>(g: Geometry, s: State<V>, b: nat)
    requires Consistent(g, s) && b < g.nb && s.cnt[b] % 2 == 0
    ensures s.mem[b] == s.base[b]
  {
  }

  // ------------------------------------------------------------- writers' steps

  /** What a writer's step means to the reader: counters only go up, and where one
      stays the same and even, so do the hashes. */
  ghost predicate Steady<V>(g: Geometry, s: State<V>, s': State<V>)
    requires Consistent(g, s) && Consistent(g, s')
  {
    && s.seen <= s'.seen && s'.r == s.r
    && (forall b | 0 <= b < g.nb :: s.cnt[b] <= s'.cnt[b])
    && (forall b, j | 0 <= b < g.nb && s'.cnt[b] == s.cnt[b] && s.cnt[b] % 2 == 0 && 0 <= j < g.k ::
          s'.base[b][j].hash == s.base[b][j].hash)
  }

  lemma SetSame<V>(g: Geometry, t: Table<V>, p: Pos)
    requires Shaped(g, t) && Within(g, p)
    ensures Set(g, t, p, At(g, t, p)) == t
  {
    assert t[p.b][p.j := t[p.b][p.j]] == t[p.b];
  }

  lemma SetTwice<V>(g: Geometry, t: Table<V>, p: Pos, a: Slot<V>, b: Slot<V>)
    requires Shaped(g, t) && Within(g, p)
    ensures Set(g, Set(g, t, p, a), p, b) == Set(g, t, p, b)
  {
    assert t[p.b][p.j := a][p.j := b] == t[p.b][p.j := b];
  }

  lemma WriterStep<V>(g: Geometry, h: nat, s: State<V>, e: Event<V>)
    requires Consistent(g, s) && Enabled(g, s, e) && !e.Read?
    ensures Consistent(g, Next(g, h, s, e)) && Steady(g, s, Next(g, h, s, e))
    ensures Get(s.m, h) in s.seen ==> Get(Next(g, h, s, e).m, h) in Next(g, h, s, e).seen
  {
    hide Coherent;
    var s' := Next(g, h, s, e);
    match e
    case Begin(p, slot, m) =>
      SetSame(g, s.base, p);
    case Write =>
      var p := s.w.p;
      if s.w.stage < 2 {
        var was := At(g, s.base, p);
        SetTwice(g, s.base, p, Partly(was, s.w.s, s.w.stage), Partly(was, s.w.s, s.w.stage + 1));
      }
    case Poke(p, val, m) =>
    case Replace =>
    case Elsewhere(m) =>
  }

  lemma SteadyReader<V>(g: Geometry, h: nat, s: State<V>, s': State<V>)
    requires Inv(g, h, s) && Consistent(g, s') && Steady(g, s, s')
    ensures ReaderInv(g, h, s')
  {
    hide Coherent;
    var b1, b2 := g.B1(h), g.B2(h);
    forall b, c, j: nat | 0 <= b < g.nb && Counted(s, b, c) && Still(s', b, c)
      ensures Still(s, b, c)
      ensures NoHash(g, s, b, h, j) ==> NoHash(g, s', b, h, j)
      ensures FirstIn(s.base[b], h, j) ==> FirstIn(s'.base[b], h, j)
    {
      assert s'.cnt[b] == s.cnt[b];
    }
  }

  // -------------------------------------------------------------- reader's steps

  /** A live slot with the hash, in a bucket not being changed, is its entry. */
  lemma SeenLive<V>(g: Geometry, h: nat, s: State<V>, b: nat, j: nat)
    requires Consistent(g, s) && b < g.nb && j < g.k && s.base[b][j].hash == h && s.base[b][j].val.Some?
    ensures Get(s.m, h) == s.base[b][j].val
  {
    hide Answers;
    assert At(g, s.base, Pos(b, j)).val.Some?;
  }

  /** A first bucket without the hash and a second where it is missing or left
      over mean that there is no entry. */
  lemma SeenNone<V>(g: Geometry, h: nat, s: State<V>, j: nat)
    requires Consistent(g, s) && NoHash(g, s, g.B1(h), h, g.k)
    requires j == g.k ==> NoHash(g, s, g.B2(h), h, g.k)
    requires j != g.k ==> FirstIn(s.base[g.B2(h)], h, j) && s.base[g.B2(h)][j].val.None?
    ensures Get(s.m, h) == None
  {
    FindInNone(s.base[g.B1(h)], h, 0);
    if j == g.k {
      FindInNone(s.base[g.B2(h)], h, 0);
    } else {
      FindInFirst(s.base[g.B2(h)], h, 0, j);
    }
    assert Find(g, s.base, h) == None;
  }

  lemma ReadFirst<V>(g: Geometry, h: nat, s: State<V>)
    requires Inv(g, h, s) && (s.r.Start? || s.r.Scan1? || s.r.Node1? || s.r.Check1?)
    ensures Inv(g, h, Next(g, h, s, Read))
  {
    hide Answers, Find;
    var s' := Next(g, h, s, Read);
    var b1 := g.B1(h);
    if s.cnt[b1] % 2 == 0 {
      EvenIsStable(g, s, b1);
    }
    assert s.seen <= s'.seen;
    if s.r.Node1? && Still(s, b1, s.r.c1) {
      if s.base[b1][s.r.j].val.Some? {
        SeenLive(g, h, s, b1, s.r.j);
      }
    }
  }

  lemma ReadSecond<V>(g: Geometry, h: nat, s: State<V>)
    requires Inv(g, h, s) && (s.r.Start2? || s.r.Check2? || s.r.Recheck?)
    ensures Inv(g, h, Next(g, h, s, Read))
  {
    hide Coherent;
    var s' := Next(g, h, s, Read);
    assert s.seen <= s'.seen;
  }

  lemma ReadScan2<V>(g: Geometry, h: nat, s: State<V>)
    requires Inv(g, h, s) && s.r.Scan2?
    ensures Inv(g, h, Next(g, h, s, Read))
  {
    var s' := Next(g, h, s, Read);
    var b1, b2 := g.B1(h), g.B2(h);
    if s.cnt[b2] % 2 == 0 {
      EvenIsStable(g, s, b2);
    }
    if s.r.j >= g.k && Still(s, b2, s.r.c2) && NoHash(g, s, b1, h, g.k) {
      SeenNone(g, h, s, g.k);
    }
    hide Coherent;
    assert s.seen <= s'.seen;
  }

  lemma ReadNode2<V>(g: Geometry, h: nat, s: State<V>)
    requires Inv(g, h, s) && s.r.Node2?
    ensures Inv(g, h, Next(g, h, s, Read))
  {
    var s' := Next(g, h, s, Read);
    var b1, b2 := g.B1(h), g.B2(h);
    if Still(s, b2, s.r.c2) {
      EvenIsStable(g, s, b2);
      if s.base[b2][s.r.j].val.Some? {
        SeenLive(g, h, s, b2, s.r.j);
      } else if NoHash(g, s, b1, h, g.k) {
        SeenNone(g, h, s, s.r.j);
      }
    }
    hide Coherent;
    assert s.seen <= s'.seen;
  }

  lemma Keeps<V>(g: Geometry, h: nat, s: State<V>, e: Event<V>)
    requires Inv(g, h, s) && Enabled(g, s, e)
    ensures Inv(g, h, Next(g, h, s, e))
  {
    hide Coherent, ReaderInv, Steady;
    if !e.Read? {
      WriterStep(g, h, s, e);
      SteadyReader(g, h, s, Next(g, h, s, e));
    } else if s.r.Start? || s.r.Scan1? || s.r.Node1? || s.r.Check1? {
      ReadFirst(g, h, s);
    } else if s.r.Scan2? {
      ReadScan2(g, h, s);
    } else if s.r.Node2? {
      ReadNode2(g, h, s);
    } else {
      ReadSecond(g, h, s);
    }
  }

  // ------------------------------------------------------------------ every run

  /** The state after the events, each of which must be possible in its turn. */
  ghost predicate Runs<V>(g: Geometry, h: nat, s: State<V>, es: seq<Event<V>>, s': State<V>)
    requires Consistent(g, s)
    decreases |es|
  {
    if es == [] then s' == s
    else Enabled(g, s, es[0]) && Consistent(g, Next(g, h, s, es[0])) && Runs(g, h, Next(g, h, s, es[0]), es[1..], s')
  }

  /** Whatever the writer and the reader do, in whatever order, a lookup that
      finishes gives an answer that was right at some moment since it started, also
      if its table is replaced meanwhile; so what is there all the time is found. */
  lemma {:induction false} Linearizable<V>(g: Geometry, h: nat, s: State<V>, es: seq<Event<V>>, s': State<V>)
    requires Consistent(g, s) && s.r.Start? && !s.left && s.seen == [Get(s.live, h)]
    requires Runs(g, h, s, es, s')
    ensures s'.r.Finished? ==> s'.r.result in s'.seen
    ensures s'.r.Finished? && None !in s'.seen ==> s'.r.result.Some?
  {
    RunKeeps(g, h, s, es, s');
  }

  lemma {:induction false} RunKeeps<V>(g: Geometry, h: nat, s: State<V>, es: seq<Event<V>>, s': State<V>)
    requires Inv(g, h, s) && Runs(g, h, s, es, s')
    ensures Inv(g, h, s')
    decreases |es|
  {
    if es != [] {
      Keeps(g, h, s, es[0]);
      RunKeeps(g, h, Next(g, h, s, es[0]), es[1..], s');
    }
  }

  // ------------------------------------------------------------------- progress

  ghost function Left(k: nat, j: nat): nat { if j < k then k - j else 0 }

  /** How many more reads it takes at most while the writer is idle: those to the end,
      and as many again for each counter that has moved since it was read. */
  ghost function Rank<V>(g: Geometry, h: nat, s: State<V>): nat
    requires Consistent(g, s)
  {
    var again1 := (c: nat) => if s.cnt[g.B1(h)] == c then 0 else 2 * g.k + 10;
    var again2 := (c: nat) => if s.cnt[g.B2(h)] == c then 0 else g.k + 10;
    match s.r
    case Start => 2 * g.k + 9
    case Scan1(c1, j) => Left(g.k, j) + g.k + 8 + again1(c1)
    case Node1(c1, j) => g.k + 7 + again1(c1)
    case Check1(c1, node) => g.k + 6 + again1(c1)
    case Start2(c1) => g.k + 5 + again1(c1)
    case Scan2(c1, c2, j) => Left(g.k, j) + 4 + again1(c1) + again2(c2)
    case Node2(c1, c2, j) => 3 + again1(c1) + again2(c2)
    case Check2(c1, c2, node) => 2 + again1(c1) + again2(c2)
    case Recheck(c1) => 1 + again1(c1)
    case Finished(v) => 0
  }

  lemma ReadComesNearer<V>(g: Geometry, h: nat, s: State<V>)
    requires Consistent(g, s) && s.w.Idle? && !s.r.Finished? && Consistent(g, Next(g, h, s, Read))
    ensures Rank(g, h, Next(g, h, s, Read)) < Rank(g, h, s)
  {
    hide Coherent;
  }

  /** From any state in which the writer is between changes, a lookup that it leaves alone
      finishes. */
  lemma {:induction false} Undisturbed<V>(g: Geometry, h: nat, s: State<V>) returns (es: seq<Event<V>>, s': State<V>)
    requires Inv(g, h, s) && s.w.Idle?
    ensures Runs(g, h, s, es, s') && s'.r.Finished? && |es| <= Rank(g, h, s)
    ensures forall e | e in es :: e.Read?
    ensures forall v | v in s'.seen :: v in s.seen || v == Get(s.live, h)
    decreases Rank(g, h, s)
  {
    hide Coherent, ReaderInv, Rank, ReaderNext;
    es, s' := [], s;
    if !s.r.Finished? {
      var next := Next(g, h, s, Read);
      Keeps(g, h, s, Read);
      ReadComesNearer(g, h, s);
      var rest;
      rest, s' := Undisturbed(g, h, next);
      es := [Read] + rest;
      assert es[1..] == rest;
    } else {
      FinishedRank(g, h, s);
    }
  }

  lemma FinishedRank<V>(g: Geometry, h: nat, s: State<V>)
    requires Consistent(g, s) && s.r.Finished?
    ensures Rank(g, h, s) == 0
  {
  }

  /** And if it also starts then, it gives what the map has. */
  lemma UndisturbedIsRight<V>(g: Geometry, h: nat, s: State<V>) returns (es: seq<Event<V>>, s': State<V>)
    requires Consistent(g, s) && s.w.Idle? && s.r.Start? && !s.left && s.seen == [Get(s.live, h)]
    ensures Runs(g, h, s, es, s') && |es| <= 2 * g.k + 9 && (forall e | e in es :: e.Read?)
    ensures s'.r.Finished? && s'.r.result == Get(s.m, h)
  {
    es, s' := Undisturbed(g, h, s);
    Linearizable(g, h, s, es, s');
  }

  // ------------------------------------------------------ the writer is the table's

  /** The changes that the table's operations go through are changes the writer
      may make, one slot at a time. */
  lemma ChangesEnabled<V>(g: Geometry, run: seq<Table<V>>, t': Table<V>, m: map<nat, V>, m': map<nat, V>, i: nat,
                          s: State<V>)
    requires i < |run| && CuckooTables.Run(g, run[0], run, t', m) && Coherent(g, t', m')
    requires s.w.Idle? && !s.left && s.base == run[i]
    ensures var (next, meaning) := if i + 1 < |run| then (run[i + 1], m) else (t', m');
            Shaped(g, s.base) && Shaped(g, next)
            && exists p | Within(g, p) ::
                 next == Set(g, s.base, p, At(g, next, p)) && Enabled(g, s, Begin(p, At(g, next, p), meaning))
  {
    hide Answers;
    assert CuckooTables.OneSlot(g, run[i], if i + 1 < |run| then run[i + 1] else t');
  }

  /** And the ones of a value alone are changes it may make in a single write. */
  lemma ValueChangesEnabled<V>(g: Geometry, t': Table<V>, m': map<nat, V>, s: State<V>)
    requires s.w.Idle? && !s.left && CuckooTables.OneValue(g, s.base, t') && Coherent(g, t', m')
    ensures exists p, val | Within(g, p) ::
            t' == Set(g, s.base, p, At(g, s.base, p).(val := val)) && Enabled(g, s, Poke(p, val, m'))
  {
    hide Answers;
    var p :| Within(g, p) && t' == Set(g, s.base, p, At(g, s.base, p).(val := At(g, t', p).val));
    assert Enabled(g, s, Poke(p, At(g, t', p).val, m'));
  }
}

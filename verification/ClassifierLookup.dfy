/** The lookup in one subtable and the main lookup loop, with the wildcard mask
    they collect.  Each step is proved to find what a plain search finds, for the
    flow at hand and for every other flow that agrees with it on the mask. */
module ClassifierLookup {
  import opened Bits
  import opened Flows
  import opened Tries
  import opened TrieLookup
  import opened ClassifierModel
  import opened Options

  /** Result of the lookup in one trie, made on demand. */
  datatype TrieCtx = TrieCtx(done: bool, maskBits: nat, plens: set<nat>)

  /** Every prefix length, the answer when the field means nothing in the flow. */
  function AllLens(width: nat): (r: set<nat>)
    ensures forall l :: l in r <==> 0 < l <= width
  {
    if width == 0 then {} else AllLens(width - 1) + {width}
  }

  ghost predicate CtxOk(fd: Field, trie: Trie, flow: Bits, ctx: TrieCtx)
    requires fd.ofs + fd.width <= |flow|
  {
    ctx.done ==>
      if fd.prereq(flow) then Answer(ctx.maskBits, ctx.plens) == Lookup(trie, FieldOf(flow, fd))
      else ctx.plens == AllLens(fd.width)
  }

  ghost predicate CtxsOk(cfg: Config, tries: seq<Trie>, flow: Bits, ctxs: seq<TrieCtx>)
    requires cfg.Valid() && |flow| == cfg.n
  {
    && |ctxs| == |tries| == |cfg.fields|
    && forall j | 0 <= j < |tries| :: CtxOk(cfg.fields[j], tries[j], flow, ctxs[j])
  }

  /** No rule of the subtable matches `flow`, nor any flow that agrees on `wc`. */
  ghost predicate NoMatch(st: Subtable, flow: Bits, wc: Bits)
    requires |flow| == |st.mask|
  {
    forall g | Agree(flow, g, wc) :: And(g, st.mask) !in st.rules
  }

  /** `cand` is what the subtable offers to `flow` and to every flow that agrees. */
  ghost predicate Decided(st: Subtable, flow: Bits, wc: Bits, version: nat, cand: seq<Match>)
    requires |flow| == |st.mask| == |wc|
  {
    && Candidates(st, flow, version) == cand
    && forall g | Agree(flow, g, wc) :: Candidates(st, g, version) == cand
  }

  lemma NoMatchDecides(st: Subtable, flow: Bits, wc: Bits, wc': Bits, version: nat)
    requires |flow| == |st.mask| == |wc| && NoMatch(st, flow, wc) && Covers(wc', wc)
    ensures Decided(st, flow, wc', version, [])
  {
    assert Agree(flow, flow, wc);
    forall g | Agree(flow, g, wc') ensures Candidates(st, g, version) == [] {
      AgreeLess(flow, g, wc', wc);
    }
  }

  // ------------------------------------------------------------------- tries

  /** A trie answer without the subtable's prefix length rules the subtable out
      once the bits the answer rests on are in the mask. */
  lemma TrieSkipSound(n: nat, st: Subtable, fd: Field, trie: Trie, plen: nat, flow: Bits, a: Answer, wc: Bits)
    requires |flow| == |st.mask| == |wc| == n && fd.ofs + fd.width <= n
    requires Wf(trie) && Fits(trie, fd.width) && a == Lookup(trie, FieldOf(flow, fd))
    requires 0 < plen <= fd.width && PrefixSet(st.mask, fd.ofs, plen)
    requires forall key | key in st.rules :: |key| == n && Count(trie, FieldOf(key, fd)[..plen]) > 0
    requires plen !in a.plens
    requires fd.ofs + a.maskBits <= n && PrefixSet(wc, fd.ofs, a.maskBits)
    ensures NoMatch(st, flow, wc)
  {
    var v := FieldOf(flow, fd);
    LookupExact(trie, v, plen);
    forall g | Agree(flow, g, wc) ensures And(g, st.mask) !in st.rules {
      var w := FieldOf(g, fd);
      assert SameBits(v, w, a.maskBits);
      LookupDetermined(trie, v, w);
      LookupExact(trie, w, plen);
      assert FieldOf(And(g, st.mask), fd)[..plen] == w[..plen];
    }
  }

  /** The check of trie `j` lets the rest of the subtable be skipped: the trie does
      not have the subtable's prefix, and its answer rests on no more bits than that
      prefix has, or on bits that are in the mask already. */
  ghost predicate Skips(t: Tables, st: Subtable, units: set<nat>, flow: Bits, wc: Bits, j: nat)
    requires SubtableOk(t.cfg, t.tries, st) && |flow| == t.cfg.n == |wc| && j < |t.tries|
  {
    var fd, plen := t.cfg.fields[j], st.triePlen[j];
    var a := Lookup(t.tries[j], FieldOf(flow, fd));
    && plen > 0 && fd.ofs / UNIT in units && fd.prereq(flow) && plen !in a.plens
    && (a.maskBits <= plen || (fd.ofs + a.maskBits <= |wc| && PrefixSet(wc, fd.ofs, a.maskBits)))
  }

  /** The first trie from `j` on that does. */
  ghost function FirstSkip(t: Tables, st: Subtable, units: set<nat>, flow: Bits, wc: Bits, j: nat): (r: Option<nat>)
    requires SubtableOk(t.cfg, t.tries, st) && |flow| == t.cfg.n == |wc| && j <= |t.tries|
    ensures r.Some? ==> j <= r.value < |t.tries| && Skips(t, st, units, flow, wc, r.value)
    decreases |t.tries| - j
  {
    if j == |t.tries| then None
    else if Skips(t, st, units, flow, wc, j) then Some(j)
    else FirstSkip(t, st, units, flow, wc, j + 1)
  }

  /** Bit `k` is among the leading bits of the field that the answer of trie `j`
      rests on. */
  ghost predicate InTrieBits(t: Tables, flow: Bits, j: nat, k: nat)
    requires t.cfg.Valid() && |flow| == t.cfg.n && j < |t.cfg.fields| == |t.tries|
  {
    var fd := t.cfg.fields[j];
    fd.ofs <= k < fd.ofs + Lookup(t.tries[j], FieldOf(flow, fd)).maskBits
  }

  /** The trie checks before a stage whose units are `units`: true if the rest of
      the subtable can be skipped. */
  method CheckTries(t: Tables, st: Subtable, units: set<nat>, flow: Bits, ctxs: seq<TrieCtx>, wc: Bits)
    returns (skip: bool, ctxs': seq<TrieCtx>, wc': Bits)
    requires SubtableOk(t.cfg, t.tries, st) && |flow| == t.cfg.n == |wc|
    requires CtxsOk(t.cfg, t.tries, flow, ctxs)
    ensures CtxsOk(t.cfg, t.tries, flow, ctxs')
    ensures Covers(wc', wc)
    ensures skip ==> NoMatch(st, flow, wc')
    ensures var j := FirstSkip(t, st, units, flow, wc, 0);
            && (skip <==> j.Some?)
            && (forall k | 0 <= k < |wc| :: wc'[k] <==> wc[k] || (j.Some? && InTrieBits(t, flow, j.value, k)))
    ensures !skip ==> wc' == wc
  {
    assert t.cfg.Valid();
    hide CtxOk, SubtableOk, PrefixSet, NoMatch;
    ctxs', wc' := ctxs, wc;
    for j := 0 to |t.tries|
      invariant CtxsOk(t.cfg, t.tries, flow, ctxs') && wc' == wc
      invariant FirstSkip(t, st, units, flow, wc, 0) == FirstSkip(t, st, units, flow, wc, j)
    {
      FieldFits(t, st, j);
      var fd, plen := t.cfg.fields[j], st.triePlen[j];
      if plen > 0 && fd.ofs / UNIT in units {
        var ctx := Consult(t, j, flow, ctxs'[j]);
        ctxs' := ctxs'[j := ctx];
        Consulted(t, st, j, flow, ctx);
        if plen !in ctx.plens {
          if ctx.maskBits <= plen {
            wc' := SetPrefix(wc, fd.ofs, ctx.maskBits);
            assert PrefixSet(wc', fd.ofs, ctx.maskBits) by { SetPrefixSet(wc, fd.ofs, ctx.maskBits); }
            SkipSound(t, st, j, flow, wc');
            return true, ctxs', wc';
          }
          if PrefixSet(wc, fd.ofs, ctx.maskBits) {
            SkipSound(t, st, j, flow, wc);
            AlreadySet(t, flow, j, wc);
            return true, ctxs', wc';
          }
        }
      }
    }
    skip := false;
  }

  lemma FieldFits(t: Tables, st: Subtable, j: nat)
    requires SubtableOk(t.cfg, t.tries, st) && j < |t.tries|
    ensures t.cfg.Valid() && |t.tries| == |t.cfg.fields| == |st.triePlen|
    ensures t.cfg.fields[j].ofs + t.cfg.fields[j].width <= t.cfg.n && st.triePlen[j] <= t.cfg.fields[j].width
  {
  }

  lemma SetPrefixSet(wc: Bits, ofs: nat, n: nat)
    requires ofs + n <= |wc|
    ensures PrefixSet(SetPrefix(wc, ofs, n), ofs, n)
  {
  }

  lemma AlreadySet(t: Tables, flow: Bits, j: nat, wc: Bits)
    requires t.cfg.Valid() && |flow| == t.cfg.n == |wc| && j < |t.cfg.fields| == |t.tries|
    requires var fd := t.cfg.fields[j];
             var n := Lookup(t.tries[j], FieldOf(flow, fd)).maskBits;
             fd.ofs + n <= |wc| && PrefixSet(wc, fd.ofs, n)
    ensures forall k | 0 <= k < |wc| && InTrieBits(t, flow, j, k) :: wc[k]
  {
  }

  /** Looks the flow up in the trie unless that has been done. */
  method Consult(t: Tables, j: nat, flow: Bits, ctx: TrieCtx) returns (ctx': TrieCtx)
    requires t.cfg.Valid() && |flow| == t.cfg.n && j < |t.cfg.fields| == |t.tries|
    requires CtxOk(t.cfg.fields[j], t.tries[j], flow, ctx)
    ensures ctx'.done && CtxOk(t.cfg.fields[j], t.tries[j], flow, ctx')
  {
    var fd := t.cfg.fields[j];
    ctx' := ctx;
    if !ctx.done {
      if fd.prereq(flow) {
        var a := Lookup(t.tries[j], FieldOf(flow, fd));
        ctx' := TrieCtx(true, a.maskBits, a.plens);
      } else {
        ctx' := TrieCtx(true, 0, AllLens(fd.width));
      }
    }
  }

  /** What the answer says of the subtable's prefix. */
  lemma Consulted(t: Tables, st: Subtable, j: nat, flow: Bits, ctx: TrieCtx)
    requires SubtableOk(t.cfg, t.tries, st) && |flow| == t.cfg.n && j < |t.tries| && st.triePlen[j] > 0
    requires ctx.done && CtxOk(t.cfg.fields[j], t.tries[j], flow, ctx)
    ensures var fd, plen := t.cfg.fields[j], st.triePlen[j];
            var a := Lookup(t.tries[j], FieldOf(flow, fd));
            && (plen !in ctx.plens <==> fd.prereq(flow) && plen !in a.plens)
            && (plen !in ctx.plens ==> ctx.maskBits == a.maskBits && fd.ofs + a.maskBits <= t.cfg.n)
  {
    hide StagesOk, PortsOk;
    LookupExact(t.tries[j], FieldOf(flow, t.cfg.fields[j]), 0);
  }

  lemma SkipSound(t: Tables, st: Subtable, j: nat, flow: Bits, wc: Bits)
    requires SubtableOk(t.cfg, t.tries, st) && |flow| == t.cfg.n == |wc| && j < |t.tries| && st.triePlen[j] > 0
    requires var fd := t.cfg.fields[j];
             var a := Lookup(t.tries[j], FieldOf(flow, fd));
             st.triePlen[j] !in a.plens && fd.ofs + a.maskBits <= t.cfg.n && PrefixSet(wc, fd.ofs, a.maskBits)
    ensures NoMatch(st, flow, wc)
  {
    hide StagesOk, PortsOk, Wf, PrefixSet, NoMatch;
    var fd := t.cfg.fields[j];
    TrieSkipSound(t.cfg.n, st, fd, t.tries[j], st.triePlen[j], flow, Lookup(t.tries[j], FieldOf(flow, fd)), wc);
  }

  // ------------------------------------------------------------------ stages

  /** A hash that the stage index does not hold rules the subtable out. */
  lemma StageMissSound(cfg: Config, tries: seq<Trie>, st: Subtable, i: nat, flow: Bits, wc: Bits)
    requires SubtableOk(cfg, tries, st) && i < |st.indices| && |flow| == cfg.n
    requires var seen := MaskIn(st.mask, Seen(st.stages, i + 1));
             Covers(wc, seen) && cfg.hash(And(flow, seen)) !in st.indices[i]
    ensures NoMatch(st, flow, wc)
  {
    var seen := MaskIn(st.mask, Seen(st.stages, i + 1));
    forall g | Agree(flow, g, wc) ensures And(g, st.mask) !in st.rules {
      AgreeLess(flow, g, wc, seen);
      AgreeMasked(flow, g, seen);
      MaskTwice(g, st.mask, seen);
    }
  }

  /** With the whole mask looked at, any flow that agrees has the same key. */
  lemma FullMaskDecides(st: Subtable, flow: Bits, wc: Bits, version: nat)
    requires |flow| == |st.mask| && Covers(wc, st.mask)
    ensures Decided(st, flow, wc, version, Candidates(st, flow, version))
  {
    forall g | Agree(flow, g, wc) ensures And(g, st.mask) == And(flow, st.mask) {
      AgreeLess(flow, g, wc, st.mask);
      AgreeMasked(flow, g, st.mask);
    }
  }

  // ------------------------------------------------------------------- ports

  /** The mask after a miss in the final stage: of the ports only the bits that
      the ports trie needed, and what was there before. */
  function PortsMask(cfg: Config, st: Subtable, wc: Bits, mbits: nat): (r: Bits)
    requires cfg.portsOfs + PORT_BITS <= |st.mask| == |wc|
    ensures |r| == PORT_BITS
    ensures forall k | cfg.portsOfs <= k < cfg.portsOfs + PORT_BITS ::
              r[k - cfg.portsOfs] == ((st.mask[k] && k < cfg.portsOfs + mbits) || wc[k])
  {
    seq(PORT_BITS, k requires 0 <= k < PORT_BITS =>
      (st.mask[cfg.portsOfs + k] && k < mbits) || wc[cfg.portsOfs + k])
  }

  lemma PortsMissSound(cfg: Config, tries: seq<Trie>, st: Subtable, flow: Bits, wc: Bits, version: nat)
    requires SubtableOk(cfg, tries, st) && |flow| == cfg.n == |wc| && st.portsLen > 0
    requires Candidates(st, flow, version) == []
    requires forall k | 0 <= k < cfg.n && !(cfg.portsOfs <= k < cfg.portsOfs + PORT_BITS) :: st.mask[k] ==> wc[k]
    requires var mbits := Lookup(st.portsTrie, PortsOf(cfg, And(flow, st.mask))).maskBits;
             forall k | cfg.portsOfs <= k < cfg.portsOfs + PORT_BITS :: st.mask[k] && k < cfg.portsOfs + mbits ==> wc[k]
    ensures Decided(st, flow, wc, version, [])
  {
    var v := PortsOf(cfg, And(flow, st.mask));
    var a := Lookup(st.portsTrie, v);
    LookupExact(st.portsTrie, v, st.portsLen);
    if st.portsLen in a.plens {
      assert Covers(wc, st.mask);
      FullMaskDecides(st, flow, wc, version);
    } else {
      forall g | Agree(flow, g, wc) ensures Candidates(st, g, version) == [] {
        var key := And(g, st.mask);
        var w := PortsOf(cfg, key);
        assert SameBits(v, w, a.maskBits);
        LookupDetermined(st.portsTrie, v, w);
        LookupExact(st.portsTrie, w, st.portsLen);
      }
    }
  }

  // --------------------------------------------------------------- a subtable

  method FindMatch(st: Subtable, version: nat, flow: Bits) returns (cand: seq<Match>)
    requires |flow| == |st.mask|
    ensures cand == Candidates(st, flow, version)
  {
    cand := [];
    var key := And(flow, st.mask);
    if key in st.rules {
      cand := st.rules[key];
      while cand != [] && !cand[0].Visible(version)
        invariant FromVisible(cand, version) == FromVisible(st.rules[key], version)
      {
        cand := cand[1..];
      }
    }
  }

  // ------------------------------------------------- the bits that are looked at

  /** Where the lookup in a subtable ends: a trie lets it skip a stage, a stage
      index does not have the flow, or the final stage is reached. */
  datatype Ending = Skipped(stage: nat, trie: nat) | Missed(stage: nat) | Final

  ghost function EndsAt(t: Tables, st: Subtable, flow: Bits, wc: Bits, i: nat): (r: Ending)
    requires SubtableOk(t.cfg, t.tries, st) && |flow| == t.cfg.n == |wc| && i <= |st.stages|
    ensures r.Skipped? ==> r.stage < |st.stages| && r.trie < |t.tries| &&
                           Skips(t, st, st.stages[r.stage], flow, wc, r.trie)
    ensures r.Missed? ==> r.stage < |st.stages|
    decreases |st.stages| - i
  {
    if i == |st.stages| then Final
    else
      var j := FirstSkip(t, st, st.stages[i], flow, wc, 0);
      if j.Some? then Skipped(i, j.value)
      else if i < |st.indices| && t.cfg.hash(And(flow, MaskIn(st.mask, Seen(st.stages, i + 1)))) !in st.indices[i] then
        Missed(i)
      else EndsAt(t, st, flow, wc, i + 1)
  }

  predicate IsPort(cfg: Config, k: nat) { cfg.portsOfs <= k < cfg.portsOfs + PORT_BITS }

  /** After a miss in the final stage, of the ports only the bits that the ports
      trie needed count. */
  ghost predicate PortNeeded(cfg: Config, st: Subtable, flow: Bits, version: nat, k: nat)
    requires cfg.Valid() && |flow| == |st.mask| == cfg.n
  {
    Candidates(st, flow, version) == [] && st.portsLen > 0 && IsPort(cfg, k) ==>
      k < cfg.portsOfs + Lookup(st.portsTrie, PortsOf(cfg, And(flow, st.mask))).maskBits
  }

  /** The lookup in the subtable rests on bit `k` of the flow: the mask's bits in the
      stages before a skip and the trie's own bits, the mask's bits in the stages up
      to a miss, or the mask. */
  ghost predicate Examined(t: Tables, st: Subtable, flow: Bits, version: nat, wc: Bits, k: nat)
    requires SubtableOk(t.cfg, t.tries, st) && |flow| == t.cfg.n == |wc| && k < |wc|
  {
    match EndsAt(t, st, flow, wc, 0)
    case Skipped(i, j) => InTrieBits(t, flow, j, k) || (st.mask[k] && k / UNIT in Seen(st.stages, i))
    case Missed(i) => st.mask[k] && k / UNIT in Seen(st.stages, i + 1)
    case Final => st.mask[k] && PortNeeded(t.cfg, st, flow, version, k)
  }

  /** `wc` with the bits that the lookup in the subtable rests on. */
  ghost function WithExamined(t: Tables, st: Subtable, flow: Bits, version: nat, wc: Bits): (r: Bits)
    requires SubtableOk(t.cfg, t.tries, st) && |flow| == t.cfg.n == |wc|
    ensures |r| == |wc| && forall k | 0 <= k < |wc| :: r[k] == (wc[k] || Examined(t, st, flow, version, wc, k))
  {
    seq(|wc|, k requires 0 <= k < |wc| => wc[k] || Examined(t, st, flow, version, wc, k))
  }

  /** A subtable adds no bit that is not in its mask; in particular the tries never
      add one that would not be added otherwise. */
  lemma ExaminedWithin(t: Tables, st: Subtable, flow: Bits, version: nat, wc: Bits, k: nat)
    requires SubtableOk(t.cfg, t.tries, st) && |flow| == t.cfg.n == |wc| && k < |wc|
    ensures Examined(t, st, flow, version, wc, k) && !wc[k] ==> st.mask[k]
  {
    hide StagesOk, PortsOk, Wf, Seen;
    var end := EndsAt(t, st, flow, wc, 0);
    if end.Skipped? && InTrieBits(t, flow, end.trie, k) {
      var fd, plen := t.cfg.fields[end.trie], st.triePlen[end.trie];
      assert PrefixSet(st.mask, fd.ofs, plen);
    }
  }

  /** The final stage, all units of the mask having been looked at.  On a miss
      the ports trie narrows the port bits that go into the mask. */
  method FinalStage(cfg: Config, ghost tries: seq<Trie>, st: Subtable, seen: set<nat>, version: nat, flow: Bits,
                    wc: Bits)
    returns (cand: seq<Match>, wc': Bits)
    requires SubtableOk(cfg, tries, st) && |flow| == cfg.n == |wc| && seen == Seen(st.stages, |st.stages|)
    ensures Covers(wc', wc)
    ensures Decided(st, flow, wc', version, cand)
    ensures forall k | 0 <= k < |wc| :: wc'[k] == (wc[k] || (st.mask[k] && PortNeeded(cfg, st, flow, version, k)))
  {
    hide Wf, TriesOk, Decided;
    cand := FindMatch(st, version, flow);
    if cand == [] && st.portsLen > 0 {
      var a := Lookup(st.portsTrie, PortsOf(cfg, And(flow, st.mask)));
      var ports := PortsMask(cfg, st, wc, a.maskBits);
      wc' := Overwrite(Or(wc, MaskIn(st.mask, seen)), cfg.portsOfs, ports);
      PortsMissSound(cfg, tries, st, flow, wc', version);
    } else {
      wc' := Or(wc, st.mask);
      FullMaskDecides(st, flow, wc', version);
    }
  }

  /** The staged lookup in one subtable.  It finds what a plain search of the
      subtable finds, and every flow that agrees on the resulting mask would
      find the same. */
  method FindMatchWc(t: Tables, st: Subtable, version: nat, flow: Bits, ctxs: seq<TrieCtx>, wc: Bits)
    returns (cand: seq<Match>, ctxs': seq<TrieCtx>, wc': Bits)
    requires SubtableOk(t.cfg, t.tries, st) && |flow| == t.cfg.n == |wc|
    requires CtxsOk(t.cfg, t.tries, flow, ctxs)
    ensures CtxsOk(t.cfg, t.tries, flow, ctxs')
    ensures Covers(wc', wc)
    ensures Decided(st, flow, wc', version, cand)
    ensures wc' == WithExamined(t, st, flow, version, wc)
  {
    hide PortNeeded, Wf, TriesOk, PortsOk;
    ctxs', wc' := ctxs, wc;
    var seen := {};
    for i := 0 to |st.stages|
      invariant CtxsOk(t.cfg, t.tries, flow, ctxs') && wc' == wc
      invariant seen == Seen(st.stages, i)
      invariant EndsAt(t, st, flow, wc, 0) == EndsAt(t, st, flow, wc, i)
    {
      var skip;
      skip, ctxs', wc' := CheckTries(t, st, st.stages[i], flow, ctxs', wc');
      if skip {
        ghost var skipped := wc';
        wc' := Or(wc', MaskIn(st.mask, seen));
        NoMatchDecides(st, flow, skipped, wc', version);
        return [], ctxs', wc';
      }
      seen := seen + st.stages[i];
      if i < |st.indices| && t.cfg.hash(And(flow, MaskIn(st.mask, seen))) !in st.indices[i] {
        wc' := Or(wc', MaskIn(st.mask, seen));
        StageMissSound(t.cfg, t.tries, st, i, flow, wc');
        NoMatchDecides(st, flow, wc', wc', version);
        return [], ctxs', wc';
      }
    }
    cand, wc' := FinalStage(t.cfg, t.tries, st, seen, version, flow, wc');
  }

  // ------------------------------------------------------------ the main loop

  /** Every flow that agrees on `wc` goes on from subtable `i` with the same
      matches as `flow`. */
  ghost predicate SameSoFar(t: Tables, i: nat, s: Scan, flow: Bits, wc: Bits, version: nat, allowConj: bool)
    requires Published(t) && i <= |t.subtables| && |flow| == t.cfg.n
  {
    forall g | Agree(flow, g, wc) ::
      ScanAll(t, g, version, allowConj) == ScanFrom(t, i, s, g, version, allowConj)
  }

  lemma SameStep(t: Tables, i: nat, s: Scan, flow: Bits, wc: Bits, wc': Bits, version: nat, allowConj: bool,
                 cand: seq<Match>)
    requires Published(t) && i < |t.subtables| && |flow| == t.cfg.n
    requires SubtableOk(t.cfg, t.tries, t.subtables[i])
    requires SameSoFar(t, i, s, flow, wc, version, allowConj) && Covers(wc', wc) && |wc'| == |flow|
    requires t.subtables[i].maxPriority > Pri(s.hard)
    requires Decided(t.subtables[i], flow, wc', version, cand)
    ensures SameSoFar(t, i + 1, Step(s, cand, allowConj), flow, wc', version, allowConj)
  {
    forall g | Agree(flow, g, wc')
      ensures ScanAll(t, g, version, allowConj) ==
              ScanFrom(t, i + 1, Step(s, cand, allowConj), g, version, allowConj)
    {
      AgreeLess(flow, g, wc', wc);
      assert ScanFrom(t, i, s, g, version, allowConj) ==
             ScanFrom(t, i + 1, Step(s, cand, allowConj), g, version, allowConj);
    }
  }

  /** Where the loop stops that has come to subtable `i`: at the end, or where the
      rest has no higher priority than the match found. */
  ghost function StopsAt(t: Tables, i: nat, s: Scan, flow: Bits, version: nat, allowConj: bool): (r: nat)
    requires i <= |t.subtables| && forall st | st in t.subtables :: |st.mask| == |flow|
    ensures i <= r <= |t.subtables|
    decreases |t.subtables| - i
  {
    if i == |t.subtables| || t.subtables[i].maxPriority <= Pri(s.hard) then i
    else StopsAt(t, i + 1, Step(s, Candidates(t.subtables[i], flow, version), allowConj), flow, version, allowConj)
  }

  /** The mask that the loop leaves, which adds what each subtable up to there rests
      on. */
  ghost function ScanMask(t: Tables, i: nat, s: Scan, flow: Bits, version: nat, allowConj: bool, wc: Bits): (r: Bits)
    requires Published(t) && i <= |t.subtables| && |flow| == t.cfg.n == |wc|
    ensures |r| == |wc|
    decreases |t.subtables| - i
  {
    if i == |t.subtables| || t.subtables[i].maxPriority <= Pri(s.hard) then wc
    else
      var st := t.subtables[i];
      assert SubtableOk(t.cfg, t.tries, st);
      ScanMask(t, i + 1, Step(s, Candidates(st, flow, version), allowConj), flow, version, allowConj,
               WithExamined(t, st, flow, version, wc))
  }

  /** Bit `k` is in the mask of a subtable that the loop visits. */
  ghost predicate InVisited(t: Tables, i: nat, s: Scan, flow: Bits, version: nat, allowConj: bool, k: nat)
    requires Published(t) && i <= |t.subtables| && |flow| == t.cfg.n && k < |flow|
  {
    exists j | i <= j < StopsAt(t, i, s, flow, version, allowConj) :: t.subtables[j].mask[k]
  }

  /** Main result: the loop adds no bit but from the masks of the subtables visited. */
  lemma {:induction false} ScanMaskWithin(t: Tables, i: nat, s: Scan, flow: Bits, version: nat, allowConj: bool,
                                          wc: Bits, k: nat)
    requires Published(t) && i <= |t.subtables| && |flow| == t.cfg.n == |wc| && k < |wc|
    ensures wc[k] ==> ScanMask(t, i, s, flow, version, allowConj, wc)[k]
    ensures ScanMask(t, i, s, flow, version, allowConj, wc)[k] && !wc[k] ==>
            InVisited(t, i, s, flow, version, allowConj, k)
    decreases |t.subtables| - i
  {
    if i < |t.subtables| && t.subtables[i].maxPriority > Pri(s.hard) {
      var st := t.subtables[i];
      assert SubtableOk(t.cfg, t.tries, st);
      hide SubtableOk, Examined, Candidates;
      var s' := Step(s, Candidates(st, flow, version), allowConj);
      ExaminedWithin(t, st, flow, version, wc, k);
      ScanMaskWithin(t, i + 1, s', flow, version, allowConj, WithExamined(t, st, flow, version, wc), k);
    }
  }

  /** What holds before subtable `i` is looked at. */
  ghost predicate Scanned(t: Tables, i: nat, s: Scan, ctxs: seq<TrieCtx>, flow: Bits, wc: Bits, version: nat,
                          allowConj: bool)
    requires Published(t) && |flow| == t.cfg.n
  {
    && i <= |t.subtables|
    && |wc| == |flow|
    && (i < |t.subtables| ==> CtxsOk(t.cfg, t.tries, flow, ctxs))
    && SameSoFar(t, i, s, flow, wc, version, allowConj)
  }

  method ScanOne(t: Tables, i: nat, s: Scan, ctxs: seq<TrieCtx>, flow: Bits, wc: Bits, version: nat, allowConj: bool)
    returns (s': Scan, ctxs': seq<TrieCtx>, wc': Bits)
    requires Published(t) && |flow| == t.cfg.n && i < |t.subtables|
    requires Scanned(t, i, s, ctxs, flow, wc, version, allowConj)
    requires t.subtables[i].maxPriority > Pri(s.hard)
    ensures Scanned(t, i + 1, s', ctxs', flow, wc', version, allowConj) && Covers(wc', wc)
    ensures ScanMask(t, i + 1, s', flow, version, allowConj, wc') == ScanMask(t, i, s, flow, version, allowConj, wc)
  {
    var st := t.subtables[i];
    assert SubtableOk(t.cfg, t.tries, st);
    var cand;
    cand, ctxs', wc' := FindMatchWc(t, st, version, flow, ctxs, wc);
    SameStep(t, i, s, flow, wc, wc', version, allowConj, cand);
    s' := Step(s, cand, allowConj);
  }

  /** The main loop: the matches a plain scan finds, and a mask such that every
      flow that agrees on it has the same matches. */
  method MainLoop(t: Tables, version: nat, flow: Bits, allowConj: bool, wc: Bits) returns (s: Scan, wc': Bits)
    requires Published(t) && |flow| == t.cfg.n == |wc|
    ensures Covers(wc', wc)
    ensures s == ScanAll(t, flow, version, allowConj)
    ensures forall g | Agree(flow, g, wc') :: ScanAll(t, g, version, allowConj) == s
    ensures wc' == ScanMask(t, 0, Scan(None, []), flow, version, allowConj, wc)
  {
    hide StagesOk, PortsOk, ListOk, OneForEachMask, WithExamined;
    var ctxs := seq(|t.tries|, _ => TrieCtx(false, 0, {}));
    s, wc' := Scan(None, []), wc;
    var i := 0;
    assert i < |t.subtables| ==> SubtableOk(t.cfg, t.tries, t.subtables[i]);
    while i < |t.subtables| && t.subtables[i].maxPriority >= Pri(s.hard) + 1
      invariant Covers(wc', wc) && Scanned(t, i, s, ctxs, flow, wc', version, allowConj)
      invariant ScanMask(t, i, s, flow, version, allowConj, wc') ==
                ScanMask(t, 0, Scan(None, []), flow, version, allowConj, wc)
    {
      s, ctxs, wc' := ScanOne(t, i, s, ctxs, flow, wc', version, allowConj);
      i := i + 1;
    }
    assert Agree(flow, flow, wc');
  }
}

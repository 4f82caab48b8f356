/** The whole lookup: main loop, then the loop that checks whether soft matches
    are real, falling back to lower priorities. */
module SoftMatches {
  import opened Bits
  import opened Flows
  import opened ClassifierModel
  import opened ClassifierLookup
  import opened Conjunctions
  import opened Options
  import opened Powers

  function ToBits(x: nat, width: nat): (r: Bits)
    ensures |r| == width
  {
    if width == 0 then [] else ToBits(x / 2, width - 1) + [x % 2 == 1]
  }

  function FromBits(b: Bits): nat
  {
    if b == [] then 0 else 2 * FromBits(b[..|b| - 1]) + if b[|b| - 1] then 1 else 0
  }

  /** The bits of an ID that fits tell it. */
  lemma {:induction false} BitsTell(x: nat, width: nat)
    requires x < Pow2(width)
    ensures FromBits(ToBits(x, width)) == x
    decreases width
  {
    if width > 0 {
      BitsTell(x / 2, width - 1);
      assert ToBits(x, width)[..width - 1] == ToBits(x / 2, width - 1);
    }
  }

  /** The flow with its conjunction ID replaced. */
  function WithConjId(cfg: Config, flow: Bits, id: nat): (r: Bits)
    requires cfg.Valid() && |flow| == cfg.n
    ensures |r| == cfg.n
  {
    Overwrite(flow, cfg.conjOfs, ToBits(id, CONJ_BITS))
  }

  lemma AgreeWithConjId(cfg: Config, f: Bits, g: Bits, wc: Bits, id: nat)
    requires cfg.Valid() && |f| == cfg.n && Agree(f, g, wc)
    ensures Agree(WithConjId(cfg, f, id), WithConjId(cfg, g, id), wc)
  {
  }

  /** The rule a satisfied conjunction stands for. */
  function ById(t: Tables, flow: Bits, version: nat, id: nat): Option<Match>
    requires Published(t) && |flow| == t.cfg.n
  {
    ScanAll(t, WithConjId(t.cfg, flow, id), version, false).hard
  }

  // ----------------------------------------------------- the steps of the loop

  type Soft = seq<seq<Match>>

  /** The list is not used up and its first rule has more than the given priority. */
  predicate Above(l: seq<Match>, pri: int)
  {
    l != [] && l[0].Priority() > pri
  }

  predicate At(l: seq<Match>, pri: int)
  {
    l != [] && l[0].Priority() == pri
  }

  ghost predicate NoneEmpty(soft: Soft, i: nat)
  {
    forall j | i <= j < |soft| :: soft[j] != []
  }

  /** Total length of the lists, which the loop brings down. */
  ghost function Total(soft: Soft): nat
  {
    if soft == [] then 0 else Total(soft[..|soft| - 1]) + |soft[|soft| - 1]|
  }

  lemma {:induction false} TotalUpdate(soft: Soft, i: nat, l: seq<Match>)
    requires i < |soft|
    ensures Total(soft[i := l]) == Total(soft) - |soft[i]| + |l|
  {
    var last := |soft| - 1;
    if i < last {
      TotalUpdate(soft[..last], i, l);
      assert soft[i := l][..last] == soft[..last][i := l];
    } else {
      assert soft[i := l][..last] == soft[..last];
    }
  }

  /** Takes soft match `i` out, moving the last one into the gap. */
  function DropAt(soft: Soft, i: nat): (r: Soft)
    requires i < |soft|
    ensures |r| == |soft| - 1 && r[..i] == soft[..i]
    ensures forall l | l in r :: l in soft
    ensures forall l | l in soft && l != soft[i] :: l in r
    ensures Total(r) <= Total(soft)
  {
    var last := |soft| - 1;
    var r := soft[i := soft[last]][..last];
    TotalUpdate(soft, i, soft[last]);
    assert forall l | l in soft && l != soft[i] :: l in r by {
      forall l | l in soft && l != soft[i] ensures l in r {
        var j :| 0 <= j < |soft| && soft[j] == l;
        assert r[if j == last then i else j] == l;
      }
    }
    r
  }

  /** Deletes the soft matches that are used up or not above `pri`. */
  function Purge(soft: Soft, i: nat, pri: int): (r: Soft)
    requires i <= |soft| && forall j | 0 <= j < i :: Above(soft[j], pri)
    ensures forall j | 0 <= j < |r| :: r[j] in soft && Above(r[j], pri)
    ensures forall l | l in soft && Above(l, pri) :: l in r
    ensures Total(r) <= Total(soft)
    decreases |soft| - i
  {
    if i == |soft| then soft
    else if !Above(soft[i], pri) then
      assert forall j | 0 <= j < i :: DropAt(soft, i)[j] == DropAt(soft, i)[..i][j] == soft[..i][j];
      Purge(DropAt(soft, i), i, pri)
    else Purge(soft, i + 1, pri)
  }

  /** Highest priority among the soft matches from `i` on. */
  function MaxPri(soft: Soft, i: nat): (r: int)
    requires i < |soft| && NoneEmpty(soft, i)
    ensures exists j | i <= j < |soft| :: At(soft[j], r)
    ensures forall j | i <= j < |soft| :: soft[j][0].Priority() <= r
    decreases |soft| - i
  {
    var p := soft[i][0].Priority();
    assert At(soft[i], p);
    if i + 1 == |soft| then p
    else
      var q := MaxPri(soft, i + 1);
      if q > p then q else p
  }

  function CountAt(soft: Soft, i: nat, pri: int): nat
    requires i <= |soft|
    decreases |soft| - i
  {
    if i == |soft| then 0 else (if At(soft[i], pri) then 1 else 0) + CountAt(soft, i + 1, pri)
  }

  /** Looks for a real match among the soft matches of priority `pri`. */
  function Round(t: Tables, flow: Bits, version: nat, soft: Soft, i: nat, pri: int, n: nat,
                 seen: Clauses): Option<Match>
    requires Published(t) && |flow| == t.cfg.n && i <= |soft|
    decreases |soft| - i
  {
    if i == |soft| then None
    else if !At(soft[i], pri) then Round(t, flow, version, soft, i + 1, pri, n, seen)
    else
      var f := FindConj(soft[i][0].conj, 0, n, seen);
      var rule := if f.id.Some? then ById(t, flow, version, f.id.value) else None;
      if rule.Some? then rule else Round(t, flow, version, soft, i + 1, pri, n, f.seen)
  }

  /** Drops every soft match of priority `pri` to the next visible rule with the
      same key; one that is no member of a conjunction is a hard match. */
  function Drop(soft: Soft, i: nat, pri: int, hard: Option<Match>, version: nat): (r: Scan)
    requires i <= |soft|
    ensures |r.soft| == |soft| && r.soft[..i] == soft[..i]
    ensures Total(r.soft) <= Total(soft)
    ensures (exists j | i <= j < |soft| :: At(soft[j], pri)) ==> Total(r.soft) < Total(soft)
    decreases |soft| - i
  {
    if i == |soft| then Scan(hard, soft)
    else if !At(soft[i], pri) then
      var r := Drop(soft, i + 1, pri, hard, version);
      assert r.soft[..i] == r.soft[..i + 1][..i];
      r
    else
      var next := FromVisible(soft[i][1..], version);
      var isHard := next != [] && next[0].conj == [];
      var soft' := soft[i := if isHard then [] else next];
      TotalUpdate(soft, i, soft'[i]);
      var r := Drop(soft', i + 1, pri, if isHard && Above(next, Pri(hard)) then Some(next[0]) else hard, version);
      assert r.soft[..i] == r.soft[..i + 1][..i];
      r
  }

  /** The soft-match loop. */
  function Resolve(t: Tables, flow: Bits, version: nat, s: Scan): Option<Match>
    requires Published(t) && |flow| == t.cfg.n
    decreases Total(s.soft)
  {
    var soft := Purge(s.soft, 0, Pri(s.hard));
    if soft == [] then s.hard
    else
      var pri := MaxPri(soft, 0);
      var rule := Round(t, flow, version, soft, 0, pri, CountAt(soft, 0, pri), map[]);
      if rule.Some? then rule
      else Resolve(t, flow, version, Drop(soft, 0, pri, s.hard, version))
  }

  /** What a lookup returns. */
  function LookupRule(t: Tables, flow: Bits, version: nat): Option<Match>
    requires Published(t) && |flow| == t.cfg.n
  {
    Resolve(t, flow, version, ScanAll(t, flow, version, true))
  }

  // -------------------------------------------------------------------- the mask

  /** The mask after the lookup by conjunction ID. */
  ghost function IdMask(t: Tables, flow: Bits, version: nat, id: nat, wc: Bits): (r: Bits)
    requires Published(t) && |flow| == t.cfg.n == |wc|
    ensures |r| == |wc|
  {
    ScanMask(t, 0, Scan(None, []), WithConjId(t.cfg, flow, id), version, false, wc)
  }

  /** The mask after a round: the lookups by ID up to the one that finds a rule add
      to it. */
  ghost function RoundMask(t: Tables, flow: Bits, version: nat, soft: Soft, i: nat, pri: int, n: nat, seen: Clauses,
                           wc: Bits): (r: Bits)
    requires Published(t) && |flow| == t.cfg.n == |wc| && i <= |soft|
    ensures |r| == |wc|
    decreases |soft| - i
  {
    if i == |soft| then wc
    else if !At(soft[i], pri) then RoundMask(t, flow, version, soft, i + 1, pri, n, seen, wc)
    else
      var f := FindConj(soft[i][0].conj, 0, n, seen);
      if f.id.None? then RoundMask(t, flow, version, soft, i + 1, pri, n, f.seen, wc)
      else
        var wc' := IdMask(t, flow, version, f.id.value, wc);
        if ById(t, flow, version, f.id.value).Some? then wc'
        else RoundMask(t, flow, version, soft, i + 1, pri, n, f.seen, wc')
  }

  ghost function ResolveMask(t: Tables, flow: Bits, version: nat, s: Scan, wc: Bits): (r: Bits)
    requires Published(t) && |flow| == t.cfg.n == |wc|
    ensures |r| == |wc|
    decreases Total(s.soft)
  {
    var soft := Purge(s.soft, 0, Pri(s.hard));
    if soft == [] then wc
    else
      var pri := MaxPri(soft, 0);
      var n := CountAt(soft, 0, pri);
      var wc' := RoundMask(t, flow, version, soft, 0, pri, n, map[], wc);
      if Round(t, flow, version, soft, 0, pri, n, map[]).Some? then wc'
      else ResolveMask(t, flow, version, Drop(soft, 0, pri, s.hard, version), wc')
  }

  /** The mask that a lookup leaves. */
  ghost function LookupMask(t: Tables, flow: Bits, version: nat, wc: Bits): (r: Bits)
    requires Published(t) && |flow| == t.cfg.n == |wc|
    ensures |r| == |wc|
  {
    ResolveMask(t, flow, version, ScanAll(t, flow, version, true),
                ScanMask(t, 0, Scan(None, []), flow, version, true, wc))
  }

  /** Bit `k` is in the mask of a subtable that the lookup by some ID visits. */
  ghost predicate InVisitedById(t: Tables, flow: Bits, version: nat, k: nat)
    requires Published(t) && |flow| == t.cfg.n && k < |flow|
  {
    exists id: nat :: InVisited(t, 0, Scan(None, []), WithConjId(t.cfg, flow, id), version, false, k)
  }

  lemma {:induction false} RoundMaskWithin(t: Tables, flow: Bits, version: nat, soft: Soft, i: nat, pri: int, n: nat,
                                           seen: Clauses, wc: Bits, k: nat)
    requires Published(t) && |flow| == t.cfg.n == |wc| && i <= |soft| && k < |wc|
    ensures var r := RoundMask(t, flow, version, soft, i, pri, n, seen, wc);
            (wc[k] ==> r[k]) && (r[k] && !wc[k] ==> InVisitedById(t, flow, version, k))
    decreases |soft| - i
  {
    hide SubtableOk, InVisited, FindConj, ById;
    if i < |soft| {
      if !At(soft[i], pri) {
        RoundMaskWithin(t, flow, version, soft, i + 1, pri, n, seen, wc, k);
      } else {
        var f := FindConj(soft[i][0].conj, 0, n, seen);
        if f.id.None? {
          RoundMaskWithin(t, flow, version, soft, i + 1, pri, n, f.seen, wc, k);
        } else {
          var id := f.id.value;
          ScanMaskWithin(t, 0, Scan(None, []), WithConjId(t.cfg, flow, id), version, false, wc, k);
          RoundMaskWithin(t, flow, version, soft, i + 1, pri, n, f.seen, IdMask(t, flow, version, id, wc), k);
        }
      }
    }
  }

  lemma {:induction false} ResolveMaskWithin(t: Tables, flow: Bits, version: nat, s: Scan, wc: Bits, k: nat)
    requires Published(t) && |flow| == t.cfg.n == |wc| && k < |wc|
    ensures var r := ResolveMask(t, flow, version, s, wc);
            (wc[k] ==> r[k]) && (r[k] && !wc[k] ==> InVisitedById(t, flow, version, k))
    decreases Total(s.soft)
  {
    hide Published, InVisitedById, RoundMask, Round;
    var soft := Purge(s.soft, 0, Pri(s.hard));
    if soft != [] {
      var pri := MaxPri(soft, 0);
      var n := CountAt(soft, 0, pri);
      RoundMaskWithin(t, flow, version, soft, 0, pri, n, map[], wc, k);
      if Round(t, flow, version, soft, 0, pri, n, map[]).None? {
        ResolveMaskWithin(t, flow, version, Drop(soft, 0, pri, s.hard, version),
                          RoundMask(t, flow, version, soft, 0, pri, n, map[], wc), k);
      }
    }
  }

  /** Main result: a lookup adds no bit to the mask but from the masks of the
      subtables it visits, in its main loop or in a lookup by conjunction ID. */
  lemma LookupMaskWithin(t: Tables, flow: Bits, version: nat, wc: Bits, k: nat)
    requires Published(t) && |flow| == t.cfg.n == |wc| && k < |wc|
    ensures wc[k] ==> LookupMask(t, flow, version, wc)[k]
    ensures LookupMask(t, flow, version, wc)[k] && !wc[k] ==>
            InVisited(t, 0, Scan(None, []), flow, version, true, k) || InVisitedById(t, flow, version, k)
  {
    hide InVisited, InVisitedById, ResolveMask;
    var wc' := ScanMask(t, 0, Scan(None, []), flow, version, true, wc);
    ScanMaskWithin(t, 0, Scan(None, []), flow, version, true, wc, k);
    ResolveMaskWithin(t, flow, version, ScanAll(t, flow, version, true), wc', k);
  }

  /** So every bit added is in the mask of a subtable. */
  lemma LookupMaskInMasks(t: Tables, flow: Bits, version: nat, wc: Bits, k: nat)
    requires Published(t) && |flow| == t.cfg.n == |wc| && k < |wc|
    ensures LookupMask(t, flow, version, wc)[k] && !wc[k] ==>
            exists j | 0 <= j < |t.subtables| :: |t.subtables[j].mask| == |wc| && t.subtables[j].mask[k]
  {
    hide LookupMask;
    LookupMaskWithin(t, flow, version, wc, k);
    assert forall st | st in t.subtables :: |st.mask| == |wc|;
  }

  // ------------------------------------------------------------- the C loops

  method PurgeLoop(soft: Soft, pri: int) returns (r: Soft)
    ensures r == Purge(soft, 0, pri)
  {
    r := soft;
    var i := 0;
    while i < |r|
      invariant i <= |r| && forall j | 0 <= j < i :: Above(r[j], pri)
      invariant Purge(r, i, pri) == Purge(soft, 0, pri)
      decreases |r| - i
    {
      if !Above(r[i], pri) {
        assert forall j | 0 <= j < i :: DropAt(r, i)[j] == DropAt(r, i)[..i][j] == r[..i][j];
        r := DropAt(r, i);
      } else {
        i := i + 1;
      }
    }
  }

  method HighestPriority(soft: Soft) returns (pri: int, n: nat)
    requires soft != [] && NoneEmpty(soft, 0)
    ensures pri == MaxPri(soft, 0) && n == CountAt(soft, 0, pri)
  {
    pri, n := soft[0][0].Priority(), 0;
    for i := 0 to |soft|
      invariant forall j | 0 <= j < i :: soft[j][0].Priority() <= pri
      invariant exists j | 0 <= j < |soft| :: At(soft[j], pri)
      invariant n + CountAt(soft, i, pri) == CountAt(soft, 0, pri)
    {
      var p := soft[i][0].Priority();
      if p > pri {
        NoneAt(soft, i, p);
        assert At(soft[i], p);
        pri, n := p, 1;
      } else if p == pri {
        n := n + 1;
      }
    }
    assert pri == MaxPri(soft, 0);
  }

  /** Counting may start at `i` if nothing before it has the priority. */
  lemma {:induction false} NoneAt(soft: Soft, i: nat, pri: int)
    requires i <= |soft| && forall j | 0 <= j < i :: !At(soft[j], pri)
    ensures CountAt(soft, 0, pri) == CountAt(soft, i, pri)
  {
    if i > 0 {
      NoneAt(soft, i - 1, pri);
    }
  }

  method DropLoop(soft: Soft, pri: int, hard: Option<Match>, version: nat) returns (r: Scan)
    ensures r == Drop(soft, 0, pri, hard, version)
  {
    var soft', hard' := soft, hard;
    for i := 0 to |soft|
      invariant |soft'| == |soft|
      invariant Drop(soft', i, pri, hard', version) == Drop(soft, 0, pri, hard, version)
    {
      if At(soft'[i], pri) {
        var next := soft'[i][1..];
        while next != [] && !next[0].Visible(version)
          invariant FromVisible(next, version) == FromVisible(soft'[i][1..], version)
        {
          next := next[1..];
        }
        if next != [] && next[0].conj == [] {
          if next[0].Priority() > Pri(hard') {
            hard' := Some(next[0]);
          }
          next := [];
        }
        soft' := soft'[i := next];
      }
    }
    r := Scan(hard', soft');
  }

  /** The round over the soft matches of one priority, with the bits that the
      lookups by conjunction ID add to the mask. */
  method RoundLoop(t: Tables, flow: Bits, version: nat, soft: Soft, pri: int, n: nat, wc: Bits)
    returns (rule: Option<Match>, wc': Bits)
    requires Published(t) && |flow| == t.cfg.n == |wc|
    ensures Covers(wc', wc)
    ensures forall g | Agree(flow, g, wc') :: Round(t, g, version, soft, 0, pri, n, map[]) == rule
    ensures wc' == RoundMask(t, flow, version, soft, 0, pri, n, map[], wc)
  {
    var seen: Clauses := map[];
    wc' := wc;
    for i := 0 to |soft|
      invariant Covers(wc', wc)
      invariant forall g | Agree(flow, g, wc') ::
                  Round(t, g, version, soft, 0, pri, n, map[]) == Round(t, g, version, soft, i, pri, n, seen)
      invariant RoundMask(t, flow, version, soft, i, pri, n, seen, wc') ==
                RoundMask(t, flow, version, soft, 0, pri, n, map[], wc)
    {
      if At(soft[i], pri) {
        var f := FindConjunctiveMatch(soft[i][0].conj, n, seen);
        if f.id.Some? {
          var s;
          ghost var before := wc';
          s, wc' := MainLoop(t, version, WithConjId(t.cfg, flow, f.id.value), false, wc');
          forall g | Agree(flow, g, wc')
            ensures Agree(flow, g, before) && ById(t, g, version, f.id.value) == s.hard
          {
            AgreeLess(flow, g, wc', before);
            AgreeWithConjId(t.cfg, flow, g, wc', f.id.value);
          }
          if s.hard.Some? {
            return s.hard, wc';
          }
        }
        seen := f.seen;
      }
    }
    rule := None;
  }

  /** The lookup.  The mask it returns is sound: every flow that agrees with
      `flow` on it has the same result, through trie skips, staged misses,
      narrowed ports, the priority cut-off and conjunctive matches. */
  method Lookup(t: Tables, version: nat, flow: Bits, wc: Bits) returns (rule: Option<Match>, wc': Bits)
    requires Published(t) && |flow| == t.cfg.n == |wc|
    ensures Covers(wc', wc)
    ensures rule == LookupRule(t, flow, version)
    ensures forall g | Agree(flow, g, wc') :: LookupRule(t, g, version) == rule
    ensures wc' == LookupMask(t, flow, version, wc)
  {
    var s;
    s, wc' := MainLoop(t, version, flow, true, wc);
    while true
      invariant Covers(wc', wc)
      invariant forall g | Agree(flow, g, wc') :: LookupRule(t, g, version) == Resolve(t, g, version, s)
      invariant ResolveMask(t, flow, version, s, wc') == LookupMask(t, flow, version, wc)
      decreases Total(s.soft)
    {
      var soft := PurgeLoop(s.soft, Pri(s.hard));
      if soft == [] {
        break;
      }
      var pri, n := HighestPriority(soft);
      ghost var before := wc';
      rule, wc' := RoundLoop(t, flow, version, soft, pri, n, wc');
      forall g | Agree(flow, g, wc') ensures Agree(flow, g, before) {
        AgreeLess(flow, g, wc', before);
      }
      if rule.Some? {
        assert Agree(flow, flow, wc');
        return;
      }
      s := DropLoop(soft, pri, s.hard, version);
    }
    rule := s.hard;
    assert Agree(flow, flow, wc');
  }
}

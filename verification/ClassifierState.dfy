/** The state of the classifier between updates, and what it must satisfy. */
module ClassifierState {
  import opened Bits
  import opened Flows
  import opened Tries
  import opened ClassifierModel
  import opened Subtables

  // ------------------------------------------------------- rules as plain sets

  ghost function Matches(st: Subtable): set<Match>
  {
    set key, m | key in st.rules && m in st.rules[key] :: m
  }

  ghost function AllMatches(subtables: map<Bits, Subtable>): set<Match>
  {
    set mask, m | mask in subtables && m in Matches(subtables[mask]) :: m
  }

  ghost function AtPriority(st: Subtable, pri: int): set<Match>
  {
    set m | m in Matches(st) && m.Priority() == pri
  }

  // ------------------------------------------------------------ prefix lengths

  function LeadingOnes(m: Bits): (n: nat)
    ensures n <= |m| && (forall k | 0 <= k < n :: m[k]) && (n < |m| ==> !m[n])
  {
    if m == [] || !m[0] then 0 else 1 + LeadingOnes(m[1..])
  }

  /** Length of the mask if it is a prefix mask, and otherwise zero. */
  function PrefixLen(m: Bits): (n: nat)
    ensures n <= |m| && forall k | 0 <= k < n :: m[k]
    ensures n > 0 ==> forall k | n <= k < |m| :: !m[k]
    ensures n == 0 && m != [] && m[0] ==> exists i, j | 0 <= i < j < |m| :: !m[i] && m[j]
  {
    var n := LeadingOnes(m);
    if forall k | n <= k < |m| :: !m[k] then n
    else
      assert exists j | n < j < |m| :: !m[n] && m[j];
      0
  }

  /** Length of the shortest prefix that holds every 1-bit. */
  function LastOne(m: Bits): (n: nat)
    ensures n <= |m| && (forall k | n <= k < |m| :: !m[k]) && (n > 0 ==> m[n - 1])
  {
    if m == [] then 0
    else if m[|m| - 1] then |m|
    else LastOne(m[..|m| - 1])
  }

  function PlensOf(cfg: Config, mask: Bits): seq<nat>
    requires cfg.Valid() && |mask| == cfg.n
  {
    seq(|cfg.fields|, j requires 0 <= j < |cfg.fields| => PrefixLen(FieldOf(mask, cfg.fields[j])))
  }

  // ------------------------------------------------------------------- stages

  predicate UnitUsed(mask: Bits, u: nat)
  {
    exists k | u * UNIT <= k < (u + 1) * UNIT && k < |mask| :: mask[k]
  }

  /** The units from `lo` up to `hi` in which the mask has a 1-bit. */
  function UnitsIn(mask: Bits, lo: nat, hi: nat): (r: set<nat>)
    ensures forall u :: u in r <==> lo <= u < hi && UnitUsed(mask, u)
    decreases if lo < hi then hi - lo else 0
  {
    if lo >= hi then {} else (if UnitUsed(mask, lo) then {lo} else {}) + UnitsIn(mask, lo + 1, hi)
  }

  lemma {:induction false} SeenAppend(stages: seq<set<nat>>, s: set<nat>, i: nat)
    requires i <= |stages|
    ensures Seen(stages + [s], i) == Seen(stages, i)
  {
    if i > 0 {
      SeenAppend(stages, s, i - 1);
    }
  }

  /** Splits the units of the mask at the segment boundaries, a stage for every
      segment that adds units; the last stage is the one without an index. */
  method MakeStages(mask: Bits, segments: seq<nat>) returns (stages: seq<set<nat>>)
    requires forall i, j | 0 <= i < j < |segments| :: segments[i] <= segments[j]
    ensures 0 < |stages| <= |segments| + 1
    ensures forall u :: u in Seen(stages, |stages|) <==> UnitUsed(mask, u)
    ensures forall i | 0 <= i < |stages| - 1 :: stages[i] != {}
  {
    stages := [];
    var prev := 0;
    for i := 0 to |segments|
      invariant |stages| <= i
      invariant i > 0 ==> prev == segments[i - 1]
      invariant i == 0 ==> prev == 0
      invariant forall u :: u in Seen(stages, |stages|) <==> u < prev && UnitUsed(mask, u)
      invariant forall k | 0 <= k < |stages| :: stages[k] != {}
    {
      var stage := UnitsIn(mask, prev, segments[i]);
      if stage != {} {
        SeenAppend(stages, stage, |stages|);
        stages := stages + [stage];
      }
      prev := segments[i];
    }
    var last := UnitsIn(mask, prev, |mask|);
    assert forall u: nat | UnitUsed(mask, u) :: u < |mask|;
    SeenAppend(stages, last, |stages|);
    if last != {} || stages == [] {
      stages := stages + [last];
    }
  }

  lemma StagesCover(mask: Bits, stages: seq<set<nat>>)
    requires forall u :: u in Seen(stages, |stages|) <==> UnitUsed(mask, u)
    ensures MaskIn(mask, Seen(stages, |stages|)) == mask
  {
    forall k | 0 <= k < |mask| && mask[k] ensures k / UNIT in Seen(stages, |stages|) {
      assert (k / UNIT) * UNIT <= k < (k / UNIT + 1) * UNIT;
      assert UnitUsed(mask, k / UNIT);
    }
  }

  // ---------------------------------------------------------------- invariants

  ghost predicate SubInv(cfg: Config, st: Subtable)
  {
    && cfg.Valid()
    && RulesOk(cfg, st)
    && (forall key | key in st.rules :: Distinct(st.rules[key]))
    && IndexExact(cfg, st.mask, st.stages, st.indices, st.rules.Keys)
    && MaskIn(st.mask, Seen(st.stages, |st.stages|)) == st.mask
    && PortsExact(cfg, st.portsLen, st.portsTrie, st.rules.Keys)
    && st.portsLen == LastOne(PortsOf(cfg, st.mask))
    && st.triePlen == PlensOf(cfg, st.mask)
  }

  /** The maximum priority is that of some rule and the count does not exceed the
      number of rules that have it. */
  ghost predicate CountOk(st: Subtable)
  {
    1 <= st.maxCount <= |AtPriority(st, st.maxPriority)|
  }

  /** A list of equal rules, seen by the tries: mask, key and prefix lengths. */
  datatype Head = Head(mask: Bits, key: Bits, plens: seq<nat>)

  ghost function Heads(subtables: map<Bits, Subtable>): set<Head>
  {
    set mask, key | mask in subtables && key in subtables[mask].rules ::
      Head(mask, key, subtables[mask].triePlen)
  }

  /** On field `j`, the head has a prefix mask and its prefix is `p`. */
  ghost predicate HasPrefix(cfg: Config, h: Head, j: nat, p: Bits)
  {
    && j < |cfg.fields| && j < |h.plens|
    && var fd := cfg.fields[j];
    && fd.ofs + fd.width <= |h.key| && 0 < h.plens[j] <= fd.width
    && FieldOf(h.key, fd)[..h.plens[j]] == p
  }

  ghost function PrefixHeads(cfg: Config, heads: set<Head>, j: nat, p: Bits): set<Head>
  {
    set h | h in heads && HasPrefix(cfg, h, j, p)
  }

  /** Every trie holds the prefix of every head once. */
  ghost predicate TrieExact(cfg: Config, heads: set<Head>, tries: seq<Trie>)
  {
    && |tries| == |cfg.fields|
    && forall j | 0 <= j < |tries| ::
         && Wf(tries[j]) && Fits(tries[j], cfg.fields[j].width)
         && forall p :: Count(tries[j], p) == |PrefixHeads(cfg, heads, j, p)|
  }

  // -------------------------------------------------- what readers can rely on

  /** The invariants of the writer give readers what they need. */
  lemma ReadersFine(cfg: Config, subtables: map<Bits, Subtable>, tries: seq<Trie>, mask: Bits)
    requires mask in subtables && SubInv(cfg, subtables[mask]) && TrieExact(cfg, Heads(subtables), tries)
    ensures SubtableOk(cfg, tries, subtables[mask])
  {
    StageReaders(cfg, subtables[mask]);
    TrieReaders(cfg, subtables, tries, mask);
    PortReaders(cfg, subtables[mask]);
    hide StagesOk, TriesOk, PortsOk;
  }

  lemma TrieReaders(cfg: Config, subtables: map<Bits, Subtable>, tries: seq<Trie>, mask: Bits)
    requires mask in subtables && SubInv(cfg, subtables[mask]) && TrieExact(cfg, Heads(subtables), tries)
    ensures TriesOk(cfg, tries, subtables[mask])
  {
    hide PortsExact, Wf, Heads;
    var st := subtables[mask];
    forall j | 0 <= j < |tries| && st.triePlen[j] > 0
      ensures PrefixSet(st.mask, cfg.fields[j].ofs, st.triePlen[j])
      ensures forall key | key in st.rules :: Count(tries[j], FieldOf(key, cfg.fields[j])[..st.triePlen[j]]) > 0
    {
      PlenReaders(cfg, subtables, tries, mask, j);
    }
  }

  lemma StageReaders(cfg: Config, st: Subtable)
    requires SubInv(cfg, st)
    ensures StagesOk(cfg, st)
  {
    forall key, i | key in st.rules && 0 <= i < |st.indices|
      ensures cfg.hash(And(key, MaskIn(st.mask, Seen(st.stages, i + 1)))) in st.indices[i]
    {
      var h := StageHash(cfg, st.mask, st.stages, key, i);
      assert key in KeysAt(cfg, st.mask, st.stages, st.rules.Keys, i, h);
      assert st.indices[i][h] == |KeysAt(cfg, st.mask, st.stages, st.rules.Keys, i, h)|;
    }
  }

  lemma HeadCounted(cfg: Config, subtables: map<Bits, Subtable>, tries: seq<Trie>, mask: Bits, j: nat, key: Bits)
    requires mask in subtables && SubInv(cfg, subtables[mask]) && TrieExact(cfg, Heads(subtables), tries)
    requires j < |tries| && subtables[mask].triePlen[j] > 0 && key in subtables[mask].rules
    ensures Count(tries[j], FieldOf(key, cfg.fields[j])[..subtables[mask].triePlen[j]]) > 0
  {
    var st := subtables[mask];
    var p := FieldOf(key, cfg.fields[j])[..st.triePlen[j]];
    assert Head(mask, key, st.triePlen) in PrefixHeads(cfg, Heads(subtables), j, p);
  }

  lemma PlenReaders(cfg: Config, subtables: map<Bits, Subtable>, tries: seq<Trie>, mask: Bits, j: nat)
    requires mask in subtables && SubInv(cfg, subtables[mask]) && TrieExact(cfg, Heads(subtables), tries)
    requires j < |tries| && subtables[mask].triePlen[j] > 0
    ensures var st := subtables[mask];
            && PrefixSet(st.mask, cfg.fields[j].ofs, st.triePlen[j])
            && forall key | key in st.rules :: Count(tries[j], FieldOf(key, cfg.fields[j])[..st.triePlen[j]]) > 0
  {
    var st, fd := subtables[mask], cfg.fields[j];
    var m := FieldOf(st.mask, fd);
    assert forall k | 0 <= k < fd.width :: m[k] == st.mask[fd.ofs + k];
    assert forall k | fd.ofs <= k < fd.ofs + st.triePlen[j] :: st.mask[k] == m[k - fd.ofs];
    forall key | key in st.rules ensures Count(tries[j], FieldOf(key, fd)[..st.triePlen[j]]) > 0 {
      HeadCounted(cfg, subtables, tries, mask, j, key);
    }
  }

  lemma PortCounted(cfg: Config, st: Subtable, key: Bits)
    requires SubInv(cfg, st) && st.portsLen > 0 && key in st.rules
    ensures Count(st.portsTrie, PortsOf(cfg, key)[..st.portsLen]) > 0
  {
    assert key in PortKeys(cfg, st.portsLen, st.rules.Keys, PortsOf(cfg, key)[..st.portsLen]);
  }

  lemma PortMask(cfg: Config, mask: Bits)
    requires cfg.Valid() && |mask| == cfg.n
    ensures forall k | cfg.portsOfs + LastOne(PortsOf(cfg, mask)) <= k < cfg.portsOfs + PORT_BITS :: !mask[k]
  {
    var m := PortsOf(cfg, mask);
    assert forall k | cfg.portsOfs <= k < cfg.portsOfs + PORT_BITS :: mask[k] == m[k - cfg.portsOfs];
  }

  lemma PortReaders(cfg: Config, st: Subtable)
    requires SubInv(cfg, st)
    ensures PortsOk(cfg, st)
  {
    hide IndexExact, Wf, ListOk;
    PortMask(cfg, st.mask);
    if st.portsLen > 0 {
      forall key | key in st.rules ensures Count(st.portsTrie, PortsOf(cfg, key)[..st.portsLen]) > 0 {
        PortCounted(cfg, st, key);
      }
    }
  }
}

/** What a reader of the flow classifier sees, and what looking a flow up means. */
module ClassifierModel {
  import opened Bits
  import opened Flows
  import opened Tries
  import opened Options

  const INT_MIN: int := -0x8000_0000

  /** A C int. */
  type Int = x: int | -0x8000_0000 <= x < 0x8000_0000
  const PORT_BITS: nat := 32
  const CONJ_BITS: nat := 32

  /** Membership of a rule in a conjunctive match. */
  datatype Conj = Conj(id: nat, clause: nat, nClauses: nat)

  /** A rule; `flow` has zeros wherever `mask` does. */
  datatype Rule = Rule(id: nat, priority: Int, flow: Bits, mask: Bits)

  /** A rule in the classifier: its versions and its conjunctions. */
  datatype Match = Match(rule: Rule, add: nat, remove: nat, conj: seq<Conj>)
  {
    function Priority(): int { rule.priority }
    predicate Visible(version: nat) { add <= version < remove }
  }

  /** A header field with a prefix trie, and the test that says whether the field
      means anything in a given flow. */
  datatype Field = Field(ofs: nat, width: nat, prereq: Bits -> bool)

  datatype Config = Config(n: nat, hash: Bits -> nat, fields: seq<Field>, portsOfs: nat, conjOfs: nat)
  {
    ghost predicate Valid()
    {
      && portsOfs + PORT_BITS <= n
      && conjOfs + CONJ_BITS <= n
      && forall f | f in fields :: f.ofs + f.width <= n
    }
  }

  /** Rules with one mask.  `rules` lists, for every masked key, the rules with
      that key; `stages` are the 64-bit units examined stage by stage, the last
      one without an index of its own. */
  datatype Subtable = Subtable(
    mask: Bits, stages: seq<set<nat>>, indices: seq<multiset<nat>>,
    triePlen: seq<nat>, portsLen: nat, portsTrie: Trie,
    rules: map<Bits, seq<Match>>, maxPriority: int, maxCount: nat)

  datatype Tables = Tables(cfg: Config, subtables: seq<Subtable>, tries: seq<Trie>)

  // -------------------------------------------------- what the indices promise

  /** The units of the first `i` stages. */
  function Seen(stages: seq<set<nat>>, i: nat): set<nat>
    requires i <= |stages|
  {
    if i == 0 then {} else Seen(stages, i - 1) + stages[i - 1]
  }

  function FieldOf(f: Bits, fd: Field): Bits
    requires fd.ofs + fd.width <= |f|
  {
    f[fd.ofs..fd.ofs + fd.width]
  }

  function PortsOf(cfg: Config, f: Bits): Bits
    requires cfg.portsOfs + PORT_BITS <= |f|
  {
    f[cfg.portsOfs..cfg.portsOfs + PORT_BITS]
  }

  ghost predicate Sorted(list: seq<Match>)
  {
    forall i, j | 0 <= i < j < |list| :: list[i].Priority() >= list[j].Priority()
  }

  ghost predicate ListOk(list: seq<Match>, key: Bits, mask: Bits, maxPriority: int)
  {
    && list != []
    && Sorted(list)
    && forall m | m in list :: m.rule.flow == key && m.rule.mask == mask && m.Priority() <= maxPriority
  }

  ghost predicate RulesOk(cfg: Config, st: Subtable)
  {
    && |st.mask| == cfg.n
    && forall key | key in st.rules ::
         && |key| == cfg.n
         && And(key, st.mask) == key
         && ListOk(st.rules[key], key, st.mask, st.maxPriority)
  }

  /** Every stage index knows every key, and the stages cover the mask. */
  ghost predicate StagesOk(cfg: Config, st: Subtable)
    requires RulesOk(cfg, st)
  {
    && |st.stages| == |st.indices| + 1
    && MaskIn(st.mask, Seen(st.stages, |st.stages|)) == st.mask
    && forall key, i | key in st.rules && 0 <= i < |st.indices| ::
         cfg.hash(And(key, MaskIn(st.mask, Seen(st.stages, i + 1)))) in st.indices[i]
  }

  /** The tries hold the prefix of every key whose mask is a prefix on the field. */
  ghost predicate TriesOk(cfg: Config, tries: seq<Trie>, st: Subtable)
    requires cfg.Valid() && RulesOk(cfg, st)
  {
    && |tries| == |cfg.fields| == |st.triePlen|
    && forall j | 0 <= j < |tries| ::
         var fd := cfg.fields[j];
         && Wf(tries[j]) && Fits(tries[j], fd.width)
         && st.triePlen[j] <= fd.width
         && (st.triePlen[j] > 0 ==>
              && PrefixSet(st.mask, fd.ofs, st.triePlen[j])
              && forall key | key in st.rules ::
                   Count(tries[j], FieldOf(key, fd)[..st.triePlen[j]]) > 0)
  }

  ghost predicate PortsOk(cfg: Config, st: Subtable)
    requires cfg.Valid() && RulesOk(cfg, st)
  {
    && st.portsLen <= PORT_BITS
    && (forall k | cfg.portsOfs + st.portsLen <= k < cfg.portsOfs + PORT_BITS :: !st.mask[k])
    && Wf(st.portsTrie) && Fits(st.portsTrie, PORT_BITS)
    && (st.portsLen > 0 ==>
         forall key | key in st.rules :: Count(st.portsTrie, PortsOf(cfg, key)[..st.portsLen]) > 0)
  }

  ghost predicate SubtableOk(cfg: Config, tries: seq<Trie>, st: Subtable)
  {
    cfg.Valid() && RulesOk(cfg, st) && StagesOk(cfg, st) && TriesOk(cfg, tries, st) && PortsOk(cfg, st)
  }

  /** A published state: every subtable is indexed and the subtables, one for each
      mask, come in order of decreasing maximum priority. */
  ghost predicate Published(t: Tables)
  {
    && t.cfg.Valid()
    && (forall st | st in t.subtables :: SubtableOk(t.cfg, t.tries, st))
    && (forall i, j | 0 <= i < j < |t.subtables| :: t.subtables[i].maxPriority >= t.subtables[j].maxPriority)
    && OneForEachMask(t.subtables)
  }

  ghost predicate OneForEachMask(subtables: seq<Subtable>)
  {
    forall i, j | 0 <= i < j < |subtables| :: subtables[i].mask != subtables[j].mask
  }

  // ------------------------------------------------------------ what it means

  /** The list from its first visible rule on. */
  function FromVisible(list: seq<Match>, version: nat): (r: seq<Match>)
    ensures |r| <= |list|
    ensures r != [] ==> r[0].Visible(version)
  {
    if list == [] || list[0].Visible(version) then list else FromVisible(list[1..], version)
  }

  /** The rules of the subtable that match `flow`, from the best visible one on. */
  function Candidates(st: Subtable, flow: Bits, version: nat): seq<Match>
    requires |flow| == |st.mask|
  {
    var key := And(flow, st.mask);
    if key in st.rules then FromVisible(st.rules[key], version) else []
  }

  function Pri(hard: Option<Match>): int
  {
    if hard.Some? then hard.value.Priority() else INT_MIN
  }

  datatype Scan = Scan(hard: Option<Match>, soft: seq<seq<Match>>)

  /** What one subtable does to the matches found so far. */
  function Step(s: Scan, cand: seq<Match>, allowConj: bool): Scan
  {
    if cand == [] || cand[0].Priority() <= Pri(s.hard) then s
    else if cand[0].conj == [] then s.(hard := Some(cand[0]))
    else if allowConj then s.(soft := s.soft + [cand])
    else s
  }

  /** The main loop from subtable `i` on. */
  function ScanFrom(t: Tables, i: nat, s: Scan, flow: Bits, version: nat, allowConj: bool): Scan
    requires i <= |t.subtables| && forall st | st in t.subtables :: |st.mask| == |flow|
    decreases |t.subtables| - i
  {
    if i == |t.subtables| || t.subtables[i].maxPriority <= Pri(s.hard) then s
    else
      ScanFrom(t, i + 1, Step(s, Candidates(t.subtables[i], flow, version), allowConj), flow, version, allowConj)
  }

  function ScanAll(t: Tables, flow: Bits, version: nat, allowConj: bool): Scan
    requires forall st | st in t.subtables :: |st.mask| == |flow|
  {
    ScanFrom(t, 0, Scan(None, []), flow, version, allowConj)
  }
}

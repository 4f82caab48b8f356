/** The priority vector that lists the subtables for lookups.  The place of an
    entry among entries of equal priority is not specified by the source; here a
    new entry goes after them. */
module SubtableVectors {
  import opened Bits
  import opened ClassifierModel

  datatype Entry = Entry(priority: int, mask: Bits)

  /** In order of decreasing priority, every subtable once. */
  ghost predicate VSorted(v: seq<Entry>)
  {
    forall i, j | 0 <= i < j < |v| :: v[i].priority >= v[j].priority && v[i].mask != v[j].mask
  }

  lemma VCons(e: Entry, v: seq<Entry>)
    requires VSorted(v) && forall x | x in v :: x.priority <= e.priority && x.mask != e.mask
    ensures VSorted([e] + v)
  {
    var r := [e] + v;
    assert forall k | 0 < k < |r| :: r[k] == v[k - 1] && r[k] in v;
  }

  lemma VTail(v: seq<Entry>)
    requires VSorted(v) && v != []
    ensures VSorted(v[1..]) && forall x | x in v[1..] :: x in v && x.priority <= v[0].priority && x.mask != v[0].mask
    ensures forall x | x in v :: x == v[0] || x in v[1..]
  {
    assert forall k | 0 <= k < |v| - 1 :: v[1..][k] == v[k + 1];
  }

  /** Inserts an entry before the first one of lower priority. */
  function VInsert(v: seq<Entry>, e: Entry): (r: seq<Entry>)
    requires VSorted(v) && forall x | x in v :: x.mask != e.mask
    ensures VSorted(r) && forall x :: x in r <==> x in v || x == e
  {
    if v == [] then [e]
    else
      VTail(v);
      if e.priority > v[0].priority then
        VCons(e, v);
        [e] + v
      else
        VCons(v[0], VInsert(v[1..], e));
        [v[0]] + VInsert(v[1..], e)
  }

  function VRemove(v: seq<Entry>, mask: Bits): (r: seq<Entry>)
    requires VSorted(v)
    ensures VSorted(r) && forall x :: x in r <==> x in v && x.mask != mask
  {
    if v == [] then []
    else
      VTail(v);
      if v[0].mask == mask then v[1..]
      else
        VCons(v[0], VRemove(v[1..], mask));
        [v[0]] + VRemove(v[1..], mask)
  }

  /** The vector lists the subtables with their maximum priorities. */
  ghost predicate OrderOk(v: seq<Entry>, subtables: map<Bits, Subtable>)
  {
    && VSorted(v)
    && (forall e | e in v :: e.mask in subtables && e.priority == subtables[e.mask].maxPriority)
    && (forall mask | mask in subtables :: Entry(subtables[mask].maxPriority, mask) in v)
  }

  lemma OrderAdd(v: seq<Entry>, subtables: map<Bits, Subtable>, mask: Bits, st: Subtable)
    requires OrderOk(v, subtables) && mask !in subtables
    ensures OrderOk(VInsert(v, Entry(st.maxPriority, mask)), subtables[mask := st])
  {
  }

  lemma OrderDrop(v: seq<Entry>, subtables: map<Bits, Subtable>, mask: Bits)
    requires OrderOk(v, subtables)
    ensures OrderOk(VRemove(v, mask), subtables - {mask})
  {
  }

  lemma OrderChange(v: seq<Entry>, subtables: map<Bits, Subtable>, mask: Bits, st: Subtable)
    requires OrderOk(v, subtables)
    ensures OrderOk(VInsert(VRemove(v, mask), Entry(st.maxPriority, mask)), subtables[mask := st])
  {
    hide VInsert, VRemove, VSorted;
    OrderDrop(v, subtables, mask);
    OrderAdd(VRemove(v, mask), subtables - {mask}, mask, st);
    assert (subtables - {mask})[mask := st] == subtables[mask := st];
  }
}

/** The connection counters: steps of one thread that creates a connection, any
    number that clean connections up, and any that change zone limits, in every
    interleaving the locks allow. */
module ZoneLimits {
  import opened Options

  /** The limit value that means the default limit. */
  const CONN_DEFAULT: int := -1

  /** A zone's entry, identified by its sequence number, which stays when the zone
      no longer has it. */
  datatype Entry = Entry(zone: nat, limit: int, count: int)

  /** How far a connection is on its way out: set aside as reclaimed, out of the
      table, its zone's entry looked up, that entry's count corrected. */
  datatype Phase = Live | Reclaimed | Unlinked | LookedUp(found: Option<nat>) | Uncounted

  /** A connection, and the zone entry it was admitted under, if any. */
  datatype Conn = Conn(zone: nat, admit: Option<nat>, phase: Phase)

  /** The thread that holds the lock: it has read the zone's limit (negative for
      none), has linked a new connection, has counted it among all. */
  datatype Creator =
    | NoCreator
    | Reading(zone: nat, entry: Option<nat>, limit: int)
    | Linked(id: nat, entry: Option<nat>, limit: int, total: int)
    | Counted(id: nat, entry: Option<nat>, limit: int)

  datatype State = State(entries: map<nat, Entry>, zones: map<nat, nat>, nextSeq: nat, defaultLimit: nat,
                         conns: map<nat, Conn>, nConn: int, connLimit: int, creator: Creator)

  datatype Event =
    // Creation, which holds the lock throughout.
    | Begin(zone: nat)
    | Admit(id: nat)
    | CountConn
    | CountZone
    // Clean-up; only unlinking holds the lock.
    | Reclaim(id: nat)
    | Unlink(id: nat)
    | FindZone(id: nat)
    | UncountZone(id: nat)
    | UncountConn(id: nat)
    // Limits; only changing an existing entry's or the default limit needs no lock.
    | SetLimit(zone: nat, limit: nat)
    | CreateLimit(zone: nat, limit: nat)
    | DeleteLimit(zone: nat)
    | SetDefault(limit: nat)
    | DeleteDefault
    | SetConnLimit(limit: nat)

  // ------------------------------------------------------------------- the steps

  function NewEntry(s: State, zone: nat, limit: int): State
  {
    s.(entries := s.entries[s.nextSeq := Entry(zone, limit, 0)],
       zones := s.zones[zone := s.nextSeq], nextSeq := s.nextSeq + 1)
  }

  /** The limit in force for the entry, negative if there is none. */
  function LimitOf(s: State, e: Entry): int
  {
    if e.limit == CONN_DEFAULT then if s.defaultLimit > 0 then s.defaultLimit else -1 else e.limit
  }

  predicate Enabled(s: State, e: Event)
  {
    match e
    case Begin(zone) => s.creator.NoCreator?
    case Admit(id) => s.creator.Reading? && id !in s.conns
    case CountConn => s.creator.Linked?
    case CountZone => s.creator.Counted?
    case Reclaim(id) => id in s.conns && s.conns[id].phase.Live?
    case Unlink(id) => id in s.conns && s.conns[id].phase.Reclaimed? && s.creator.NoCreator?
    case FindZone(id) => id in s.conns && s.conns[id].phase.Unlinked?
    case UncountZone(id) => id in s.conns && s.conns[id].phase.LookedUp?
    case UncountConn(id) => id in s.conns && s.conns[id].phase.Uncounted?
    case SetLimit(zone, limit) => zone in s.zones && s.zones[zone] in s.entries
    case CreateLimit(zone, limit) => s.creator.NoCreator? && zone !in s.zones
    case DeleteLimit(zone) => s.creator.NoCreator? && zone in s.zones && s.zones[zone] in s.entries
    case SetDefault(limit) => limit > 0
    case DeleteDefault => s.creator.NoCreator?
    case SetConnLimit(limit) => true
  }

  function Next(s: State, e: Event): State
    requires Enabled(s, e)
  {
    match e
    case Begin(zone) =>
      var t := if zone !in s.zones && s.defaultLimit > 0 then NewEntry(s, zone, CONN_DEFAULT) else s;
      if zone in t.zones && t.zones[zone] in t.entries then
        t.(creator := Reading(zone, Some(t.zones[zone]), LimitOf(t, t.entries[t.zones[zone]])))
      else
        t.(creator := Reading(zone, None, -1))
    case Admit(id) =>
      var c := s.creator;
      var full := c.limit >= 0 && c.entry.Some? && c.entry.value in s.entries &&
                  s.entries[c.entry.value].count >= c.limit;
      if full || s.nConn >= s.connLimit then s.(creator := NoCreator)
      else s.(conns := s.conns[id := Conn(c.zone, c.entry, Live)],
              creator := Linked(id, c.entry, c.limit, s.connLimit))
    case CountConn =>
      var c := s.creator;
      s.(nConn := s.nConn + 1, creator := Counted(c.id, c.entry, c.limit))
    case CountZone =>
      var c := s.creator;
      var t := s.(creator := NoCreator);
      if c.entry.Some? && c.entry.value in s.entries then AddCount(t, c.entry.value, 1) else t
    case Reclaim(id) => SetPhase(s, id, Reclaimed)
    case Unlink(id) => SetPhase(s, id, Unlinked)
    case FindZone(id) =>
      var z := s.conns[id].zone;
      SetPhase(s, id, LookedUp(if s.conns[id].admit.Some? && z in s.zones then Some(s.zones[z]) else None))
    case UncountZone(id) =>
      var c := s.conns[id];
      var t := SetPhase(s, id, Uncounted);
      if c.phase.found.Some? && c.phase.found == c.admit && c.phase.found.value in s.entries then
        AddCount(t, c.phase.found.value, -1)
      else t
    case UncountConn(id) => s.(conns := s.conns - {id}, nConn := s.nConn - 1)
    case SetLimit(zone, limit) =>
      s.(entries := s.entries[s.zones[zone] := s.entries[s.zones[zone]].(limit := limit)])
    case CreateLimit(zone, limit) => NewEntry(s, zone, limit)
    case DeleteLimit(zone) =>
      if s.defaultLimit > 0 then
        s.(entries := s.entries[s.zones[zone] := s.entries[s.zones[zone]].(limit := CONN_DEFAULT)])
      else s.(zones := s.zones - {zone})
    case SetDefault(limit) => s.(defaultLimit := limit)
    case DeleteDefault =>
      s.(defaultLimit := 0,
         zones := map z | z in s.zones &&
                          !(s.zones[z] in s.entries && s.entries[s.zones[z]].limit == CONN_DEFAULT) :: s.zones[z])
    case SetConnLimit(limit) => s.(connLimit := limit)
  }

  function SetPhase(s: State, id: nat, phase: Phase): State
    requires id in s.conns
  {
    s.(conns := s.conns[id := s.conns[id].(phase := phase)])
  }

  function AddCount(s: State, q: nat, n: int): State
    requires q in s.entries
  {
    s.(entries := s.entries[q := s.entries[q].(count := s.entries[q].count + n)])
  }

  // --------------------------------------------------------------- the invariant

  /** The connections admitted under the entry that its count stands for: those
      that have been counted and not yet taken off it. */
  ghost function Standing(s: State, q: nat): set<nat>
  {
    set id | id in s.conns && s.conns[id].admit == Some(q) && !s.conns[id].phase.Uncounted?
             && !((s.creator.Linked? || s.creator.Counted?) && s.creator.id == id)
  }

  ghost predicate ZonesOk(s: State)
  {
    && (forall q | q in s.entries :: q < s.nextSeq)
    && (forall z | z in s.zones :: s.zones[z] in s.entries && s.entries[s.zones[z]].zone == z)
  }

  /** A connection was admitted under an entry of its zone; if the zone still has
      that entry, then so it had when the connection's clean-up looked it up. */
  ghost predicate ConnsOk(s: State)
  {
    forall id | id in s.conns && s.conns[id].admit.Some? ::
      var c := s.conns[id];
      && c.admit.value in s.entries && s.entries[c.admit.value].zone == c.zone
      && (c.phase.LookedUp? && c.zone in s.zones && s.zones[c.zone] == c.admit.value ==> c.phase.found == c.admit)
  }

  ghost predicate CreatorOk(s: State)
  {
    match s.creator
    case NoCreator => true
    case Reading(zone, entry, limit) =>
      if entry.Some? then zone in s.zones && s.zones[zone] == entry.value else limit < 0
    case Linked(id, entry, limit, total) => Fresh(s, id, entry, limit) && s.nConn < total
    case Counted(id, entry, limit) => Fresh(s, id, entry, limit)
  }

  /** The connection under creation, and room for it under the limit that was read. */
  ghost predicate Fresh(s: State, id: nat, entry: Option<nat>, limit: int)
  {
    && id in s.conns && s.conns[id].admit == entry && (s.conns[id].phase.Live? || s.conns[id].phase.Reclaimed?)
    && (entry.Some? ==> s.conns[id].zone in s.zones && s.zones[s.conns[id].zone] == entry.value)
    && (entry.Some? && entry.value in s.entries && limit >= 0 ==> s.entries[entry.value].count < limit)
  }

  /** The counters: every zone's is the number of connections that stand under its
      entry, and the total that of all connections not yet taken off it. */
  ghost predicate CountsOk(s: State)
  {
    && (forall z | z in s.zones && s.zones[z] in s.entries :: s.entries[s.zones[z]].count == |Standing(s, s.zones[z])|)
    && s.nConn == |s.conns.Keys| - if s.creator.Linked? then 1 else 0
  }

  ghost predicate Inv(s: State)
  {
    ZonesOk(s) && ConnsOk(s) && CreatorOk(s) && CountsOk(s)
  }

  // ------------------------------------------------------------------ each step

  lemma KeepBegin(s: State, zone: nat)
    requires Inv(s) && Enabled(s, Begin(zone))
    ensures Inv(Next(s, Begin(zone)))
  {
    var t := Next(s, Begin(zone));
    StandingNew(s, t);
    hide Standing;
  }

  /** A new entry has no connections; those of the others are as before. */
  lemma StandingNew(s: State, t: State)
    requires Inv(s) && t.conns == s.conns && s.creator.NoCreator? && (t.creator.NoCreator? || t.creator.Reading?)
    ensures Standing(t, s.nextSeq) == {} && forall q: nat :: Standing(t, q) == Standing(s, q)
  {
    assert forall id | id in s.conns :: s.conns[id].admit != Some(s.nextSeq);
  }

  lemma KeepAdmit(s: State, id: nat)
    requires Inv(s) && Enabled(s, Admit(id))
    ensures Inv(Next(s, Admit(id)))
  {
    var t := Next(s, Admit(id));
    forall q: nat ensures Standing(t, q) == Standing(s, q) {
    }
  }

  lemma KeepCount(s: State, e: Event)
    requires Inv(s) && Enabled(s, e) && (e.CountConn? || e.CountZone?)
    ensures Inv(Next(s, e))
  {
    var t := Next(s, e);
    StandingCount(s, e);
    hide Standing;
  }

  lemma StandingCount(s: State, e: Event)
    requires Inv(s) && Enabled(s, e) && (e.CountConn? || e.CountZone?)
    ensures forall q: nat ::
              Standing(Next(s, e), q) ==
              if e.CountZone? && s.creator.entry == Some(q) then Standing(s, q) + {s.creator.id} else Standing(s, q)
    ensures forall q: nat :: s.creator.id !in Standing(s, q)
  {
  }

  lemma KeepPhase(s: State, e: Event)
    requires Inv(s) && Enabled(s, e) && (e.Reclaim? || e.Unlink? || e.FindZone?)
    ensures Inv(Next(s, e))
  {
    var t := Next(s, e);
    forall q: nat ensures Standing(t, q) == Standing(s, q) {
    }
    assert t.conns.Keys == s.conns.Keys;
  }

  lemma KeepUncountZone(s: State, id: nat)
    requires Inv(s) && Enabled(s, UncountZone(id))
    ensures Inv(Next(s, UncountZone(id)))
  {
    var t := Next(s, UncountZone(id));
    assert ZonesOk(t) && CreatorOk(t) by {
      hide Standing, CountsOk;
    }
    assert ConnsOk(t) by {
      hide Standing, CountsOk, CreatorOk;
    }
    UncountedOk(s, id);
  }

  lemma UncountedOk(s: State, id: nat)
    requires Inv(s) && Enabled(s, UncountZone(id))
    ensures CountsOk(Next(s, UncountZone(id)))
  {
    var t := Next(s, UncountZone(id));
    StandingUncount(s, id);
    hide Standing, CreatorOk;
    assert t.conns.Keys == s.conns.Keys;
  }

  lemma StandingUncount(s: State, id: nat)
    requires Inv(s) && Enabled(s, UncountZone(id))
    ensures forall q: nat ::
              Standing(Next(s, UncountZone(id)), q) ==
              if s.conns[id].admit == Some(q) then Standing(s, q) - {id} else Standing(s, q)
    ensures s.conns[id].admit.Some? ==> id in Standing(s, s.conns[id].admit.value)
  {
  }

  lemma KeepUncountConn(s: State, id: nat)
    requires Inv(s) && Enabled(s, UncountConn(id))
    ensures Inv(Next(s, UncountConn(id)))
  {
    var t := Next(s, UncountConn(id));
    forall q: nat ensures Standing(t, q) == Standing(s, q) {
    }
    assert t.conns.Keys == s.conns.Keys - {id};
  }

  lemma KeepLimit(s: State, e: Event)
    requires Inv(s) && Enabled(s, e)
    requires e.SetLimit? || e.DeleteLimit? || e.SetDefault? || e.SetConnLimit?
    ensures Inv(Next(s, e))
  {
    hide Standing, ConnsOk, CreatorOk, CountsOk;
    LimitsOnly(s, Next(s, e));
  }

  /** Neither limits nor the loss of a zone's entry matter to the counters. */
  lemma LimitsOnly(s: State, t: State)
    requires Inv(s) && t.conns == s.conns && t.creator == s.creator && t.nConn == s.nConn && t.nextSeq == s.nextSeq
    requires t.entries.Keys == s.entries.Keys
    requires forall q | q in s.entries ::
             t.entries[q].zone == s.entries[q].zone && t.entries[q].count == s.entries[q].count
    requires forall z | z in t.zones :: z in s.zones && t.zones[z] == s.zones[z]
    requires s.creator.NoCreator? || t.zones == s.zones
    ensures Inv(t)
  {
    assert forall q: nat :: Standing(t, q) == Standing(s, q);
    hide Standing;
  }

  lemma KeepZones(s: State, e: Event)
    requires Inv(s) && Enabled(s, e) && (e.CreateLimit? || e.DeleteDefault?)
    ensures Inv(Next(s, e))
  {
    StandingNew(s, Next(s, e));
  }

  lemma Keep(s: State, e: Event)
    requires Inv(s) && Enabled(s, e)
    ensures Inv(Next(s, e))
  {
    match e
    case Begin(zone) => KeepBegin(s, zone);
    case Admit(id) => KeepAdmit(s, id);
    case CountConn => KeepCount(s, e);
    case CountZone => KeepCount(s, e);
    case Reclaim(id) => KeepPhase(s, e);
    case Unlink(id) => KeepPhase(s, e);
    case FindZone(id) => KeepPhase(s, e);
    case UncountZone(id) => KeepUncountZone(s, id);
    case UncountConn(id) => KeepUncountConn(s, id);
    case CreateLimit(zone, limit) => KeepZones(s, e);
    case DeleteDefault => KeepZones(s, e);
    case _ => KeepLimit(s, e);
  }

  // ------------------------------------------------------------------ every run

  ghost predicate Init(s: State)
  {
    s.entries == map[] && s.zones == map[] && s.conns == map[] && s.nConn == 0 && s.creator.NoCreator?
  }

  ghost predicate Runs(s: State, es: seq<Event>, t: State)
    decreases |es|
  {
    if es == [] then t == s else Enabled(s, es[0]) && Runs(Next(s, es[0]), es[1..], t)
  }

  lemma {:induction false} RunKeeps(s: State, es: seq<Event>, t: State)
    requires Inv(s) && Runs(s, es, t)
    ensures Inv(t)
    decreases |es|
  {
    if es != [] {
      Keep(s, es[0]);
      RunKeeps(Next(s, es[0]), es[1..], t);
    }
  }

  /** In every reachable state: the count of a zone's entry is the number of
      connections admitted under it and not yet taken off, and the total count
      that of all connections, but for one that is just being counted. */
  lemma CountsConserved(s: State, es: seq<Event>, t: State)
    requires Init(s) && Runs(s, es, t)
    ensures forall z | z in t.zones ::
            t.zones[z] in t.entries && t.entries[t.zones[z]].count == |Standing(t, t.zones[z])|
    ensures t.nConn == |t.conns.Keys| - if t.creator.Linked? then 1 else 0
  {
    RunKeeps(s, es, t);
  }

  /** And counting a connection takes neither its zone's count past the limit that
      was in force when its admission began nor the total past the limit for all. */
  lemma LimitsRespected(s: State, es: seq<Event>, t: State)
    requires Init(s) && Runs(s, es, t)
    ensures t.creator.Counted? && t.creator.entry.Some? ==>
            var q, u := t.creator.entry.value, Next(t, CountZone);
            q in u.entries && u.entries[q].count == t.entries[q].count + 1
            && (t.creator.limit >= 0 ==> u.entries[q].count <= t.creator.limit)
    ensures t.creator.Linked? ==> Next(t, CountConn).nConn <= t.creator.total
    ensures t.creator.NoCreator? ==> forall zone: nat ::
            var u := Next(t, Begin(zone));
            zone in u.zones ==> u.zones[zone] in u.entries && u.creator.limit == LimitOf(u, u.entries[u.zones[zone]])
  {
    RunKeeps(s, es, t);
  }

  // -------------------------------------------------------- the limits in force

  /** What was configured: a default limit, zero for none, and limits of zones. */
  datatype Limits = Limits(default: nat, own: map<nat, int>)
  {
    /** Negative for none. */
    function InForce(zone: nat): int
    {
      if zone in own then own[zone] else if default > 0 then default else -1
    }

    function After(e: Event): Limits
    {
      match e
      case SetLimit(zone, limit) => Limits(default, own[zone := limit])
      case CreateLimit(zone, limit) => Limits(default, own[zone := limit])
      case DeleteLimit(zone) => Limits(default, own - {zone})
      case SetDefault(limit) => Limits(limit, own)
      case DeleteDefault => Limits(0, own)
      case _ => this
    }

    function AfterAll(es: seq<Event>): Limits
      decreases |es|
    {
      if es == [] then this else After(es[0]).AfterAll(es[1..])
    }
  }

  predicate Owns(s: State, z: nat)
  {
    z in s.zones && s.zones[z] in s.entries && s.entries[s.zones[z]].limit != CONN_DEFAULT
  }

  function Configured(s: State): Limits
  {
    Limits(s.defaultLimit, map z | z in s.zones && Owns(s, z) :: s.entries[s.zones[z]].limit)
  }

  lemma SameConfigured(s: State, t: State)
    requires ZonesOk(s) && t.zones == s.zones && t.defaultLimit == s.defaultLimit && t.entries.Keys == s.entries.Keys
    requires forall q | q in s.entries :: t.entries[q].limit == s.entries[q].limit
    ensures Configured(t) == Configured(s)
  {
    assert forall z | z in s.zones :: Owns(t, z) <==> Owns(s, z);
  }

  lemma ConfiguredNew(s: State, zone: nat, limit: int)
    requires ZonesOk(s) && zone !in s.zones
    ensures var own := Configured(s).own;
            Configured(NewEntry(s, zone, limit)) ==
            Limits(s.defaultLimit, if limit == CONN_DEFAULT then own else own[zone := limit])
  {
    var t := NewEntry(s, zone, limit);
    assert forall z | z in s.zones :: z != zone && s.zones[z] != s.nextSeq && (Owns(t, z) <==> Owns(s, z));
    assert Owns(t, zone) <==> limit != CONN_DEFAULT;
  }

  lemma ConfiguredChange(s: State, zone: nat, limit: int)
    requires ZonesOk(s) && zone in s.zones
    ensures var own, q := Configured(s).own, s.zones[zone];
            Configured(s.(entries := s.entries[q := s.entries[q].(limit := limit)])) ==
            Limits(s.defaultLimit, if limit == CONN_DEFAULT then own - {zone} else own[zone := limit])
  {
    var q := s.zones[zone];
    var t := s.(entries := s.entries[q := s.entries[q].(limit := limit)]);
    assert forall z | z in s.zones && z != zone :: s.zones[z] != q && (Owns(t, z) <==> Owns(s, z));
    assert Owns(t, zone) <==> limit != CONN_DEFAULT;
  }

  /** The entries, among them those that admissions add, hold just what was configured. */
  lemma ConfiguredAfter(s: State, e: Event)
    requires ZonesOk(s) && Enabled(s, e)
    ensures Configured(Next(s, e)) == Configured(s).After(e)
  {
    match e
    case Begin(zone) =>
      if zone !in s.zones {
        ConfiguredNew(s, zone, CONN_DEFAULT);
      }
    case SetLimit(zone, limit) => ConfiguredChange(s, zone, limit);
    case CreateLimit(zone, limit) => ConfiguredNew(s, zone, limit);
    case DeleteLimit(zone) =>
      if s.defaultLimit > 0 {
        ConfiguredChange(s, zone, CONN_DEFAULT);
      } else {
        ConfiguredWithout(s, zone);
      }
    case SetDefault(limit) => ConfiguredDefault(s, limit);
    case DeleteDefault => ConfiguredNoDefault(s);
    case _ => SameConfigured(s, Next(s, e));
  }

  lemma ConfiguredWithout(s: State, zone: nat)
    ensures Configured(s.(zones := s.zones - {zone})) == Limits(s.defaultLimit, Configured(s).own - {zone})
  {
    var t := s.(zones := s.zones - {zone});
    assert forall z | z in t.zones :: Owns(t, z) <==> Owns(s, z);
  }

  lemma ConfiguredDefault(s: State, limit: nat)
    ensures Configured(s.(defaultLimit := limit)) == Limits(limit, Configured(s).own)
  {
    assert forall z | z in s.zones :: Owns(s.(defaultLimit := limit), z) <==> Owns(s, z);
  }

  lemma ConfiguredNoDefault(s: State)
    requires ZonesOk(s) && Enabled(s, DeleteDefault)
    ensures Configured(Next(s, DeleteDefault)) == Limits(0, Configured(s).own)
  {
    var t := Next(s, DeleteDefault);
    assert forall z | z in t.zones :: Owns(t, z) <==> Owns(s, z);
  }

  lemma {:induction false} ConfiguredAfterAll(s: State, es: seq<Event>, t: State)
    requires Inv(s) && Runs(s, es, t)
    ensures Configured(t) == Configured(s).AfterAll(es)
    decreases |es|
  {
    hide ZonesOk, ConnsOk, CreatorOk, CountsOk, Configured;
    if es != [] {
      Keep(s, es[0]);
      ConfiguredAfter(s, es[0]);
      ConfiguredAfterAll(Next(s, es[0]), es[1..], t);
    }
  }

  /** A zone has an entry only for a limit of its own or while there is a default. */
  ghost predicate EntriesNeeded(s: State)
  {
    forall z | z in s.zones :: Owns(s, z) || s.defaultLimit > 0
  }

  lemma NeededAfter(s: State, e: Event)
    requires ZonesOk(s) && Enabled(s, e) && EntriesNeeded(s)
    ensures EntriesNeeded(Next(s, e))
  {
  }

  lemma {:induction false} NeededAfterAll(s: State, es: seq<Event>, t: State)
    requires Inv(s) && Runs(s, es, t) && EntriesNeeded(s)
    ensures EntriesNeeded(t)
    decreases |es|
  {
    hide ZonesOk, ConnsOk, CreatorOk, CountsOk, EntriesNeeded;
    if es != [] {
      Keep(s, es[0]);
      NeededAfter(s, es[0]);
      NeededAfterAll(Next(s, es[0]), es[1..], t);
    }
  }

  /** How many connections count for the zone. */
  ghost function ZoneCount(s: State, zone: nat): nat
  {
    if zone in s.zones then |Standing(s, s.zones[zone])| else 0
  }

  /** Room for a connection in the zone, under its limit and under the one for all. */
  ghost predicate HasRoom(s: State, zone: nat, limit: int)
  {
    (limit < 0 || ZoneCount(s, zone) < limit) && |s.conns.Keys| < s.connLimit
  }

  /** The admission that begins reads the limit in force. */
  lemma BeginReads(s: State, zone: nat)
    requires Inv(s) && Enabled(s, Begin(zone))
    ensures var t := Next(s, Begin(zone));
            && t.creator.zone == zone && t.creator.limit == Configured(s).InForce(zone)
            && ZoneCount(t, zone) == ZoneCount(s, zone) && t.conns == s.conns && t.connLimit == s.connLimit
  {
    var t := Next(s, Begin(zone));
    StandingNew(s, t);
    hide Standing;
  }

  /** And it admits the connection if and only if there is room for it. */
  lemma AdmitsExactly(s: State, id: nat)
    requires Inv(s) && Enabled(s, Admit(id))
    ensures var c, t := s.creator, Next(s, Admit(id));
            && (id in t.conns <==> HasRoom(s, c.zone, c.limit))
            && (id in t.conns ==> t.conns == s.conns[id := Conn(c.zone, c.entry, Live)] && t.creator.Linked?)
            && (id !in t.conns ==> t.conns == s.conns && t.creator.NoCreator?)
            && t.entries == s.entries && t.zones == s.zones && t.nConn == s.nConn
  {
    hide Standing, ConnsOk;
  }

  /** An admission that is not interrupted creates the connection. */
  ghost predicate Admitted(s: State, zone: nat, id: nat)
    requires s.creator.NoCreator? && id !in s.conns
  {
    var t := Next(s, Begin(zone));
    Enabled(t, Admit(id)) && id in Next(t, Admit(id)).conns
  }

  lemma AdmissionStep(s: State, zone: nat, id: nat)
    requires Inv(s) && s.creator.NoCreator? && id !in s.conns
    ensures Admitted(s, zone, id) <==> HasRoom(s, zone, Configured(s).InForce(zone))
  {
    BeginReads(s, zone);
    KeepBegin(s, zone);
    hide Inv, ZoneCount, Configured;
    var t := Next(s, Begin(zone));
    AdmitsExactly(t, id);
  }

  /** After any run: a connection can be created in a zone if and only if the zone
      has fewer than the limit that the changes so far have put in force for it, if
      there is one, and there are fewer in all than the limit for all. */
  lemma AdmissionRule(s: State, es: seq<Event>, t: State, zone: nat, id: nat)
    requires Init(s) && Runs(s, es, t) && t.creator.NoCreator? && id !in t.conns
    ensures Admitted(t, zone, id) <==>
            HasRoom(t, zone, Limits(s.defaultLimit, map[]).AfterAll(es).InForce(zone))
  {
    hide Admitted, HasRoom, Runs;
    assert Configured(s) == Limits(s.defaultLimit, map[]);
    hide Configured;
    RunKeeps(s, es, t);
    ConfiguredAfterAll(s, es, t);
    AdmissionStep(t, zone, id);
  }
}

/** The table of connections, indexed by a hash that both directions share, and
    the selection of a NAT tuple that no other connection has. */
module ConnTracking {
  import opened ConnKeys
  import opened NatPorts
  import opened Options

  datatype Conn = Conn(fwd: Key, rev: Key, action: Action, expiration: int)

  /** A node of the index: a connection, under its forward or its reply key. */
  datatype Node = Node(id: nat, reply: bool)

  /** Each zone has a map of its own; the chains in it are by hash. */
  type Place = (nat, bv32)

  function KeyOf(c: Conn, reply: bool): Key { if reply then c.rev else c.fwd }

  function PlaceOf(hashing: Hashing, key: Key): Place { (key.zone, hashing.Of(key)) }

  function Chain(index: map<Place, seq<Node>>, p: Place): seq<Node>
  {
    if p in index then index[p] else []
  }

  predicate Expired(c: Conn, now: int) { now >= c.expiration }

  // -------------------------------------------------------------- what is kept

  ghost predicate Once(chain: seq<Node>)
  {
    forall i, j | 0 <= i < j < |chain| :: chain[i] != chain[j]
  }

  /** The chains hold exactly the nodes of `nodes`, each once, where it says. */
  ghost predicate Holds(index: map<Place, seq<Node>>, nodes: map<Node, Place>)
  {
    && (forall p, n :: n in Chain(index, p) <==> n in nodes && nodes[n] == p)
    && (forall p :: Once(Chain(index, p)))
  }

  /** Every node stands for a connection and is in the place of its key; every
      connection has a node for its forward key, and if it has none for its reply
      key, that is just the reverse. */
  ghost predicate NodesOk(hashing: Hashing, conns: map<nat, Conn>, nodes: map<Node, Place>)
  {
    && (forall n | n in nodes :: n.id in conns && nodes[n] == PlaceOf(hashing, KeyOf(conns[n.id], n.reply)))
    && (forall id | id in conns :: Node(id, false) in nodes && ConnOk(conns[id], Node(id, true) in nodes))
  }

  ghost predicate ConnOk(c: Conn, twice: bool)
  {
    c.rev.zone == c.fwd.zone && (!twice ==> c.rev == c.fwd.Reverse())
  }

  /** A plain scan: a connection that has not expired has the key. */
  ghost predicate Tracked(conns: map<nat, Conn>, key: Key, now: int)
  {
    exists id :: id in conns && Has(conns[id], key, now)
  }

  ghost predicate Has(c: Conn, key: Key, now: int)
  {
    !Expired(c, now) && (c.fwd == key || c.rev == key)
  }

  /** No key belongs to two connections that have not expired. */
  ghost predicate Unique(conns: map<nat, Conn>, now: int)
  {
    forall a, b, key: Key | a in conns && b in conns && Has(conns[a], key, now) && Has(conns[b], key, now) :: a == b
  }

  /** A new connection, whose forward key was free, keeps it so if and only if its
      reply key was free too. */
  lemma StaysUnique(conns: map<nat, Conn>, id: nat, c: Conn, now: int)
    requires Unique(conns, now) && id !in conns && !Expired(c, now) && !Tracked(conns, c.fwd, now)
    ensures Unique(conns[id := c], now) <==> !Tracked(conns, c.rev, now)
  {
    var conns' := conns[id := c];
    if Tracked(conns, c.rev, now) {
      var other :| other in conns && Has(conns[other], c.rev, now);
      assert Has(conns'[other], c.rev, now) && Has(conns'[id], c.rev, now);
    } else {
      forall a, b, key: Key | a in conns' && b in conns' && Has(conns'[a], key, now) && Has(conns'[b], key, now)
        ensures a == b
      {
        assert a != id ==> Tracked(conns, key, now);
        assert b != id ==> Tracked(conns, key, now);
      }
    }
  }

  /** A connection with the key is in the chain for it, through one of its nodes. */
  lemma InChain(hashing: Hashing, conns: map<nat, Conn>, nodes: map<Node, Place>, index: map<Place, seq<Node>>,
                id: nat, key: Key)
    requires Holds(index, nodes) && NodesOk(hashing, conns, nodes)
    requires id in conns && (conns[id].fwd == key || conns[id].rev == key)
    ensures var chain := Chain(index, PlaceOf(hashing, key)); Node(id, false) in chain || Node(id, true) in chain
  {
    var c := conns[id];
    var n := Node(id, c.fwd != key && Node(id, true) in nodes);
    HashSymmetric(hashing, c.fwd);
    assert n in Chain(index, nodes[n]);
  }

  // ---------------------------------------------------------------- the changes

  /** `n` put in front of the chain at `p`. */
  function Push(index: map<Place, seq<Node>>, p: Place, n: Node): map<Place, seq<Node>>
  {
    index[p := [n] + Chain(index, p)]
  }

  function Without(chain: seq<Node>, n: Node): (r: seq<Node>)
    ensures Once(chain) ==> n !in r
    ensures forall x :: x in r ==> x in chain
    ensures forall x | x in chain && x != n :: x in r
    ensures Once(chain) ==> Once(r)
  {
    if chain == [] then []
    else if chain[0] == n then
      assert forall x | x in chain && x != n :: x in chain[1..];
      assert Once(chain) ==> Once(chain[1..]);
      chain[1..]
    else
      assert Once(chain) ==> Once(chain[1..]);
      assert Once(chain) ==> chain[0] !in chain[1..];
      [chain[0]] + Without(chain[1..], n)
  }

  function Pull(index: map<Place, seq<Node>>, p: Place, n: Node): map<Place, seq<Node>>
  {
    index[p := Without(Chain(index, p), n)]
  }

  lemma PushHolds(index: map<Place, seq<Node>>, nodes: map<Node, Place>, p: Place, n: Node)
    requires Holds(index, nodes) && n !in nodes
    ensures Holds(Push(index, p, n), nodes[n := p])
  {
    var index' := Push(index, p, n);
    assert n !in Chain(index, p);
    forall q ensures Once(Chain(index', q)) {
      assert Once(Chain(index, q));
    }
    forall q, x ensures x in Chain(index', q) <==> x in nodes[n := p] && nodes[n := p][x] == q {
      assert x in Chain(index, q) <==> x in nodes && nodes[x] == q;
      assert Chain(index', q) == if q == p then [n] + Chain(index, p) else Chain(index, q);
    }
  }

  lemma PullHolds(index: map<Place, seq<Node>>, nodes: map<Node, Place>, n: Node)
    requires Holds(index, nodes) && n in nodes
    ensures Holds(Pull(index, nodes[n], n), nodes - {n})
  {
    var index' := Pull(index, nodes[n], n);
    forall q ensures Once(Chain(index', q)) {
      assert Once(Chain(index, q));
    }
    forall q, x ensures x in Chain(index', q) <==> x in nodes - {n} && nodes[x] == q {
      assert x in Chain(index, q) <==> x in nodes && nodes[x] == q;
      assert Once(Chain(index, q));
      assert Chain(index', q) == if q == nodes[n] then Without(Chain(index, q), n) else Chain(index, q);
    }
  }

  lemma JoinNodes(hashing: Hashing, conns: map<nat, Conn>, nodes: map<Node, Place>, id: nat, c: Conn, twice: bool)
    requires NodesOk(hashing, conns, nodes) && id !in conns && ConnOk(c, twice)
    ensures Node(id, false) !in nodes && Node(id, true) !in nodes
    ensures var more := if twice then nodes[Node(id, true) := PlaceOf(hashing, c.rev)] else nodes;
            NodesOk(hashing, conns[id := c], more[Node(id, false) := PlaceOf(hashing, c.fwd)])
  {
    hide PlaceOf, ConnOk;
  }

  /** Taking a connection out leaves no node of it behind, if and only if its
      reply node, where it has one, is taken out as well. */
  lemma LeaveNodes(hashing: Hashing, conns: map<nat, Conn>, nodes: map<Node, Place>, id: nat, both: bool)
    requires NodesOk(hashing, conns, nodes) && id in conns
    ensures NodesOk(hashing, conns - {id},
                    if both then nodes - {Node(id, false)} - {Node(id, true)} else nodes - {Node(id, false)})
            <==> both || Node(id, true) !in nodes
  {
    hide PlaceOf, ConnOk;
    var rest := nodes - {Node(id, false)};
    if !both && Node(id, true) in nodes {
      assert Node(id, true) in rest;
    }
  }

  // ---------------------------------------------------------------- NAT choices

  function WithPort(key: Key, atSrc: bool, port: nat): Key
  {
    if atSrc then key.(src := key.src.(port := port)) else key.(dst := key.dst.(port := port))
  }

  /** A first port and a range to search. */
  datatype Ports = Ports(curr: nat, min: nat, max: nat)
  {
    ghost predicate Valid() { min <= max < 0x1_0000 }
    predicate Few() { max - min + 1 <= MAX_ATTEMPTS }
  }

  /** With every port of the range, the key belongs to a connection. */
  ghost predicate Taken(conns: map<nat, Conn>, key: Key, atSrc: bool, ports: Ports, now: int)
  {
    forall p | InRange(p, ports.min, ports.max) :: Tracked(conns, WithPort(key, atSrc, p), now)
  }

  predicate ValidPorts(key: Key) { key.src.port < 0x1_0000 && key.dst.port < 0x1_0000 }

  /** Privileged ports below 512 and below 1024 are replaced by such. */
  predicate SameClass(p: nat, q: nat) { (p < 512 <==> q < 512) && (p < 1024 <==> q < 1024) }

  /** For the source port: the one the sender used, or one the request names.  The
      search starts outside the range only where that has more than 128 ports. */
  function SourcePorts(info: NatInfo, key: Key, off: nat): (p: Ports)
    requires info.Valid(key.protocol.ipv4) && ValidPorts(key)
    ensures p.Valid() && p.curr < 0x1_0000
    ensures InRange(p.curr, p.min, p.max) || MAX_ATTEMPTS < p.max - p.min + 1 < 0xffff
    ensures var named := !info.action.dst && (info.action.srcPort || !info.action.src);
            && (named ==> p.min == info.minPort && p.max == info.maxPort)
            && (!named ==> p.curr == key.src.port && SameClass(p.min, p.curr) && SameClass(p.max, p.curr))
  {
    if (info.action.src && !info.action.srcPort) || info.action.dst then
      var curr := key.src.port;
      if curr < 512 then Ports(curr, 1, 511)
      else if curr < 1024 then Ports(curr, 600, 1023)
      else Ports(curr, 1024, 65535)
    else Ports(info.minPort + off % (info.maxPort - info.minPort + 1), info.minPort, info.maxPort)
  }

  function DestinationPorts(info: NatInfo, key: Key, off: nat): (p: Ports)
    requires info.Valid(key.protocol.ipv4) && ValidPorts(key)
    ensures p.Valid() && InRange(p.curr, p.min, p.max)
    ensures if info.action.dstPort then p.min == info.minPort && p.max == info.maxPort
            else p.min == p.max == key.dst.port
  {
    if info.action.dstPort then
      Ports(info.minPort + off % (info.maxPort - info.minPort + 1), info.minPort, info.maxPort)
    else Ports(key.dst.port, key.dst.port, key.dst.port)
  }

  /** The reverse of the forward key with the selected address. */
  function Addressed(fwd: Key, info: NatInfo, hash: nat): Key
    requires info.Valid(fwd.protocol.ipv4) && hash < TWO32
  {
    var addr := SelectAddress(fwd, info, hash);
    var rev := fwd.Reverse();
    if info.action.src then rev.(dst := rev.dst.(addr := addr)) else rev.(src := rev.src.(addr := addr))
  }

  /** The key that the search for ports starts with. */
  function Start(fwd: Key, info: NatInfo, hash: nat, off: nat): Key
    requires info.Valid(fwd.protocol.ipv4) && ValidPorts(fwd) && hash < TWO32
  {
    var rev := Addressed(fwd, info, hash);
    if fwd.protocol.ports then
      WithPort(WithPort(rev, true, DestinationPorts(info, fwd, off).curr), false, SourcePorts(info, fwd, off).curr)
    else rev
  }

  /** With every port that the search tries, the key belongs to a connection. */
  ghost predicate Exhausted(conns: map<nat, Conn>, key: Key, atSrc: bool, ports: Ports, random: nat -> nat, now: int)
    requires ports.Valid()
  {
    forall q | q in Tries(ports.curr, ports.min, ports.max, random) :: Tracked(conns, WithPort(key, atSrc, q), now)
  }

  /** `r` is the key with the `i`-th port tried, the first that is free. */
  ghost predicate FreeAt(conns: map<nat, Conn>, key: Key, atSrc: bool, tries: seq<nat>, now: int, r: Key, i: nat)
  {
    && i < |tries| && r == WithPort(key, atSrc, tries[i]) && !Tracked(conns, r, now)
    && (forall j | 0 <= j < i :: Tracked(conns, WithPort(key, atSrc, tries[j]), now))
  }

  ghost predicate FirstFree(conns: map<nat, Conn>, key: Key, atSrc: bool, ports: Ports, random: nat -> nat, now: int,
                            r: Key)
    requires ports.Valid()
  {
    exists i: nat :: FreeAt(conns, key, atSrc, Tries(ports.curr, ports.min, ports.max, random), now, r, i)
  }

  /** The tuple to choose: with the first free port, at the destination if the
      request is for one, and else, or if none is free there, at the source. */
  ghost predicate Chosen(conns: map<nat, Conn>, fwd: Key, info: NatInfo, hash: nat, off: nat, random: nat -> nat,
                         now: int, r: Key)
    requires info.Valid(fwd.protocol.ipv4) && ValidPorts(fwd) && hash < TWO32
  {
    var start, sports, dports :=
      Start(fwd, info, hash, off), SourcePorts(info, fwd, off), DestinationPorts(info, fwd, off);
    if !fwd.protocol.ports then r == start && !Tracked(conns, start, now)
    else if info.action.dstPort && !Exhausted(conns, start, true, dports, random, now) then
      FirstFree(conns, start, true, dports, random, now, r)
    else FirstFree(conns, start, false, sports, random, now, r)
  }

  /** No tuple can be chosen. */
  ghost predicate NoneFree(conns: map<nat, Conn>, fwd: Key, info: NatInfo, hash: nat, off: nat, random: nat -> nat,
                           now: int)
    requires info.Valid(fwd.protocol.ipv4) && ValidPorts(fwd) && hash < TWO32
  {
    var start, sports, dports :=
      Start(fwd, info, hash, off), SourcePorts(info, fwd, off), DestinationPorts(info, fwd, off);
    if !fwd.protocol.ports then Tracked(conns, start, now)
    else
      && (info.action.dstPort ==> Exhausted(conns, start, true, dports, random, now))
      && Exhausted(conns, start, false, sports, random, now)
  }

  /** The source port may be any of all 65536. */
  predicate AnyPort(fwd: Key, info: NatInfo)
  {
    && fwd.protocol.ports && !info.action.dst && (info.action.srcPort || !info.action.src)
    && info.minPort == 0 && info.maxPort == 0xffff
  }

  /** One port of the reply key is where its search starts, and the other is one that
      the search tries: the source's, if the destination's was asked for, or the
      destination's, which the original sender has its packets from. */
  ghost predicate PortsTried(fwd: Key, info: NatInfo, off: nat, random: nat -> nat, r: Key)
    requires info.Valid(fwd.protocol.ipv4) && ValidPorts(fwd)
  {
    var sports, dports := SourcePorts(info, fwd, off), DestinationPorts(info, fwd, off);
    || (info.action.dstPort && r.dst.port == sports.curr
        && r.src.port in Tries(dports.curr, dports.min, dports.max, random))
    || (r.src.port == dports.curr && r.dst.port in Tries(sports.curr, sports.min, sports.max, random))
  }

  lemma FirstFreePort(conns: map<nat, Conn>, key: Key, atSrc: bool, ports: Ports, random: nat -> nat, now: int, r: Key)
    requires ports.Valid() && FirstFree(conns, key, atSrc, ports, random, now, r)
    ensures (if atSrc then r.src.port else r.dst.port) in Tries(ports.curr, ports.min, ports.max, random)
    ensures if atSrc then r.dst == key.dst else r.src == key.src
  {
    hide Tracked, Tries;
  }

  /** A port is chosen and free, or none is. */
  lemma FirstFreeIsFree(conns: map<nat, Conn>, key: Key, atSrc: bool, ports: Ports, random: nat -> nat, now: int,
                        r: Key)
    requires ports.Valid() && FirstFree(conns, key, atSrc, ports, random, now, r)
    ensures !Tracked(conns, r, now) && !Exhausted(conns, key, atSrc, ports, random, now)
  {
    hide Tracked, Tries;
    var tries := Tries(ports.curr, ports.min, ports.max, random);
    var i: nat :| FreeAt(conns, key, atSrc, tries, now, r, i);
    assert tries[i] in tries;
  }

  /** The port that the search starts with is tried, unless the range has 65536 ports,
      with which nothing is. */
  lemma StartTried(ports: Ports, random: nat -> nat)
    requires ports.Valid() && ports.curr < 0x1_0000
    requires InRange(ports.curr, ports.min, ports.max) || ports.max - ports.min + 1 < 0xffff
    ensures var tries := Tries(ports.curr, ports.min, ports.max, random);
            if ports.min == 0 && ports.max == 0xffff then tries == []
            else ports.curr in tries
  {
    var tries := Tries(ports.curr, ports.min, ports.max, random);
    if ports.Few() {
      TriesSmall(ports.curr, ports.min, ports.max, random);
      assert tries[0] == ports.curr;
    } else {
      TriesFirst(ports.curr, ports.min, ports.max, random);
      if ports.max - ports.min + 1 < 0x1_0000 {
        assert Round(ports.curr, ports.min, ports.max, MAX_ATTEMPTS)[0] == ports.curr;
        assert tries[0] == ports.curr;
      }
    }
  }

  /** If none is free, the key that the search starts with is taken, unless any of all
      65536 ports would do, and every port of a range of at most 128. */
  lemma NoneFreeMeans(conns: map<nat, Conn>, fwd: Key, info: NatInfo, hash: nat, off: nat, random: nat -> nat, now: int)
    requires info.Valid(fwd.protocol.ipv4) && ValidPorts(fwd) && hash < TWO32
    requires NoneFree(conns, fwd, info, hash, off, random, now)
    ensures Tracked(conns, Start(fwd, info, hash, off), now) || AnyPort(fwd, info)
    ensures fwd.protocol.ports ==>
            var start, sports, dports :=
              Start(fwd, info, hash, off), SourcePorts(info, fwd, off), DestinationPorts(info, fwd, off);
            && (sports.Few() ==> Taken(conns, start, false, sports, now))
            && (info.action.dstPort && dports.Few() ==> Taken(conns, start, true, dports, now))
  {
    hide Tracked, Tries;
    var sports, dports := SourcePorts(info, fwd, off), DestinationPorts(info, fwd, off);
    if sports.Few() {
      TriesAll(sports.curr, sports.min, sports.max, random);
    }
    if dports.Few() {
      TriesAll(dports.curr, dports.min, dports.max, random);
    }
    StartTried(sports, random);
    if fwd.protocol.ports {
      var start := Start(fwd, info, hash, off);
      assert WithPort(start, false, sports.curr) == start;
    }
  }

  /** It happens that a request is refused although the table is empty: one that
      names all 65536 ports. */
  lemma WholeRangeRefused(fwd: Key, info: NatInfo, hash: nat, off: nat, random: nat -> nat, now: int)
    requires info.Valid(fwd.protocol.ipv4) && ValidPorts(fwd) && hash < TWO32
    requires AnyPort(fwd, info) && !info.action.dstPort
    ensures NoneFree(map[], fwd, info, hash, off, random, now)
  {
    hide Tracked, Tries;
    StartTried(SourcePorts(info, fwd, off), random);
  }

  /** The first free port of a round, after others where none was free. */
  lemma FoundAt(conns: map<nat, Conn>, key: Key, atSrc: bool, tries: seq<nat>, now: int, tried: seq<nat>,
                round: seq<nat>, at: nat)
    requires tried + round <= tries && at < |round| && !Tracked(conns, WithPort(key, atSrc, round[at]), now)
    requires forall q | q in tried :: Tracked(conns, WithPort(key, atSrc, q), now)
    requires forall q | q in round[..at] :: Tracked(conns, WithPort(key, atSrc, q), now)
    ensures FreeAt(conns, key, atSrc, tries, now, WithPort(key, atSrc, round[at]), |tried| + at)
  {
    hide Tracked, WithPort;
    assert (tried + round)[|tried| + at] == round[at];
    forall j | 0 <= j < |tried| + at ensures tries[j] in tried || tries[j] in round[..at] {
      assert tries[j] == (tried + round)[j];
      if j >= |tried| {
        assert round[..at][j - |tried|] == tries[j];
      }
    }
  }

  lemma SelectedZone(fwd: Key, rev: Key, action: Action)
    requires Selected(fwd, rev, action)
    ensures rev.zone == fwd.zone
  {
  }

  lemma NodePlaces(hashing: Hashing, conns: map<nat, Conn>, nodes: map<Node, Place>, id: nat)
    requires NodesOk(hashing, conns, nodes) && id in conns
    ensures Node(id, false) in nodes && nodes[Node(id, false)] == PlaceOf(hashing, conns[id].fwd)
    ensures Node(id, true) in nodes ==> nodes[Node(id, true)] == PlaceOf(hashing, conns[id].rev)
  {
  }

  class ConnTracker {
    const hashing: Hashing
    var conns: map<nat, Conn>
    var index: map<Place, seq<Node>>
    var nextId: nat
    ghost var nodes: map<Node, Place>

    ghost predicate Valid()
      reads this
    {
      && Holds(index, nodes) && NodesOk(hashing, conns, nodes)
      && (forall id | id in conns :: id < nextId)
      && (forall id | id in conns && !conns[id].action.Zero() :: Node(id, true) in nodes)
    }

    constructor (hashing: Hashing)
      ensures Valid() && conns == map[] && this.hashing == hashing
    {
      this.hashing := hashing;
      conns, index, nextId := map[], map[], 0;
      nodes := map[];
    }

    /** Finds a connection that has not expired by one of its keys. */
    method Lookup(key: Key, now: int) returns (r: Option<Node>)
      requires Valid()
      ensures r.Some? <==> Tracked(conns, key, now)
      ensures r.Some? ==> r.value.id in conns && Has(conns[r.value.id], key, now)
      ensures r.Some? ==> (r.value.reply <==> conns[r.value.id].fwd != key)
    {
      var chain := Chain(index, PlaceOf(hashing, key));
      for i := 0 to |chain|
        invariant forall j | 0 <= j < i :: chain[j].id in conns && !Has(conns[chain[j].id], key, now)
      {
        assert chain[i] in Chain(index, PlaceOf(hashing, key));
        var c := conns[chain[i].id];
        if !Expired(c, now) {
          if c.fwd == key {
            return Some(Node(chain[i].id, false));
          }
          if c.rev == key {
            return Some(Node(chain[i].id, true));
          }
        }
      }
      forall id | id in conns ensures !Has(conns[id], key, now) {
        if Has(conns[id], key, now) {
          InChain(hashing, conns, nodes, index, id, key);
        }
      }
      r := None;
    }

    /** Goes once through the range, as far as the attempts reach. */
    method SearchRound(key: Key, atSrc: bool, start: nat, min: nat, max: nat, attempts: nat, now: int)
      returns (found: bool, port: nat, ghost at: nat)
      requires Valid() && min <= max
      ensures var ports := Round(start, min, max, NatPorts.Min(attempts, Limit16(start, min, max)));
              && (found ==> at < |ports| && port == ports[at] && !Tracked(conns, WithPort(key, atSrc, port), now))
              && (found ==> forall q | q in ports[..at] :: Tracked(conns, WithPort(key, atSrc, q), now))
              && (!found ==> forall q | q in ports :: Tracked(conns, WithPort(key, atSrc, q), now))
    {
      hide Tracked;
      ghost var n := NatPorts.Min(attempts, Limit16(start, min, max));
      ghost var tried := [];
      var curr, i, left := start, 0, Limit16(start, min, max);
      while left > 0
        invariant 0 <= i <= n && i + left == Limit16(start, min, max)
        invariant Round(start, min, max, n) == tried + Round(curr, min, max, n - i)
        invariant forall q | q in tried :: Tracked(conns, WithPort(key, atSrc, q), now)
      {
        if i >= attempts {
          break;
        }
        i := i + 1;
        var other := Lookup(WithPort(key, atSrc, curr), now);
        if other.None? {
          assert Round(start, min, max, n)[..|tried|] == tried;
          return true, curr, |tried|;
        }
        tried := tried + [curr];
        curr, left := NextPort(curr, min, max), left - 1;
      }
      found, port, at := false, 0, 0;
    }

    /** Looks for a port with which no connection has the key. */
    method SearchPort(key: Key, atSrc: bool, ports: Ports, random: nat -> nat, now: int)
      returns (found: bool, port: nat)
      requires Valid() && ports.Valid()
      ensures found ==> FirstFree(conns, key, atSrc, ports, random, now, WithPort(key, atSrc, port))
      ensures !found ==> port == ports.curr && Exhausted(conns, key, atSrc, ports, random, now)
    {
      hide Tracked, Round, Rounds, Limit16, Range16;
      var min, max := ports.min, ports.max;
      var range := Range16(min, max);
      var attempts: nat, curr: nat, k: nat := NatPorts.Min(range, MAX_ATTEMPTS), ports.curr, 0;
      ghost var tried := [];
      while true
        invariant Tries(ports.curr, min, max, random) == tried + Rounds(curr, min, max, attempts, random, k)
        invariant forall q | q in tried :: Tracked(conns, WithPort(key, atSrc, q), now)
        decreases attempts
      {
        RoundsUnfold(curr, min, max, attempts, random, k);
        ghost var round := Round(curr, min, max, NatPorts.Min(attempts, Limit16(curr, min, max)));
        ghost var at;
        found, port, at := SearchRound(key, atSrc, curr, min, max, attempts, now);
        if found {
          ghost var tries := Tries(ports.curr, min, max, random);
          FoundAt(conns, key, atSrc, tries, now, tried, round, at);
          return;
        }
        if attempts < range && attempts >= 16 {
          tried := tried + round;
          attempts, curr, k := attempts / 2, min + random(k) % range, k + 1;
        } else {
          break;
        }
      }
      port := ports.curr;
    }

    /** Chooses the reply key of a new connection that does NAT, such that no
        connection that has not expired has it. */
    method SelectTuple(fwd: Key, info: NatInfo, hash: nat, off: nat, random: nat -> nat, now: int)
      returns (r: Option<Key>)
      requires Valid() && info.Valid(fwd.protocol.ipv4) && ValidPorts(fwd) && hash < TWO32
      ensures r.Some? ==> !Tracked(conns, r.value, now) && Selected(fwd, r.value, info.action)
      ensures r.Some? ==>
              (if info.action.src then r.value.dst.addr else r.value.src.addr) == SelectAddress(fwd, info, hash)
      ensures r.Some? ==> Chosen(conns, fwd, info, hash, off, random, now, r.value)
      ensures r.Some? && fwd.protocol.ports ==> PortsTried(fwd, info, off, random, r.value)
      ensures r.None? <==> NoneFree(conns, fwd, info, hash, off, random, now)
      ensures r.None? ==> Tracked(conns, Start(fwd, info, hash, off), now) || AnyPort(fwd, info)
    {
      hide Tracked, Tries, FirstFree, Exhausted;
      var start := Start(fwd, info, hash, off);
      if !fwd.protocol.ports {
        var other := Lookup(start, now);
        return if other.None? then Some(start) else None;
      }
      var sports, dports := SourcePorts(info, fwd, off), DestinationPorts(info, fwd, off);
      var found, port := false, 0;
      if info.action.dstPort {
        found, port := SearchPort(start, true, dports, random, now);
        if found {
          r := Some(WithPort(start, true, port));
          FirstFreeIsFree(conns, start, true, dports, random, now, r.value);
          FirstFreePort(conns, start, true, dports, random, now, r.value);
          return;
        }
      }
      found, port := SearchPort(start, false, sports, random, now);
      r := if found then Some(WithPort(start, false, port)) else None;
      if found {
        FirstFreeIsFree(conns, start, false, sports, random, now, r.value);
        FirstFreePort(conns, start, false, sports, random, now, r.value);
      } else {
        NoneFreeMeans(conns, fwd, info, hash, off, random, now);
      }
    }

    /** Adds a connection: with NAT, under a reply key of its own as well. */
    method Create(fwd: Key, nat_: Option<NatInfo>, hash: nat, off: nat, random: nat -> nat, now: int, expiration: int)
      returns (id: Option<nat>)
      requires Valid() && ValidPorts(fwd) && hash < TWO32 && (nat_.Some? ==> nat_.value.Valid(fwd.protocol.ipv4))
      modifies this
      ensures Valid()
      ensures id.None? ==> conns == old(conns) && nodes == old(nodes)
      ensures id.None? <==> nat_.Some? && NoneFree(old(conns), fwd, nat_.value, hash, off, random, now)
      ensures id.None? ==> Tracked(old(conns), Start(fwd, nat_.value, hash, off), now) || AnyPort(fwd, nat_.value)
      ensures id.Some? ==>
              id.value !in old(conns) && id.value in conns && conns == old(conns)[id.value := conns[id.value]]
      ensures id.Some? ==> var c := conns[id.value];
                           && c.fwd == fwd && c.expiration == expiration
                           && (nat_.None? ==> c.rev == fwd.Reverse() && c.action.Zero())
                           && (nat_.Some? ==> c.action == nat_.value.action && Selected(fwd, c.rev, c.action))
                           && (nat_.Some? ==> !Tracked(old(conns), c.rev, now))
                           && (nat_.Some? ==> Chosen(old(conns), fwd, nat_.value, hash, off, random, now, c.rev))
                           && (nat_.Some? && fwd.protocol.ports ==> PortsTried(fwd, nat_.value, off, random, c.rev))
                           && (nat_.Some? ==> (if c.action.src then c.rev.dst.addr else c.rev.src.addr) ==
                                              SelectAddress(fwd, nat_.value, hash))
                           && (Node(id.value, true) in nodes <==> nat_.Some?)
      ensures id.Some? && Unique(old(conns), now) && !Tracked(old(conns), fwd, now) && now < expiration ==>
              (Unique(conns, now) <==> nat_.Some? || !Tracked(old(conns), fwd.Reverse(), now))
    {
      hide Tracked, Holds, NodesOk, PlaceOf, Selected, Unique, SelectAddress, Chosen, NoneFree, PortsTried;
      var rev, action := fwd.Reverse(), Action(false, false, false, false);
      assert action.Zero();
      if nat_.Some? {
        action := nat_.value.action;
        var tuple := SelectTuple(fwd, nat_.value, hash, off, random, now);
        if tuple.None? {
          return None;
        }
        rev := tuple.value;
        SelectedZone(fwd, rev, action);
      }
      var c := Conn(fwd, rev, action, expiration);
      JoinNodes(hashing, conns, nodes, nextId, c, nat_.Some?);
      if nat_.Some? {
        var n := Node(nextId, true);
        PushHolds(index, nodes, PlaceOf(hashing, rev), n);
        index := Push(index, PlaceOf(hashing, rev), n);
        nodes := nodes[n := PlaceOf(hashing, rev)];
      }
      var n := Node(nextId, false);
      PushHolds(index, nodes, PlaceOf(hashing, fwd), n);
      index := Push(index, PlaceOf(hashing, fwd), n);
      nodes := nodes[n := PlaceOf(hashing, fwd)];
      if Unique(conns, now) && !Tracked(conns, fwd, now) && now < expiration {
        StaysUnique(conns, nextId, c, now);
      }
      conns := conns[nextId := c];
      id := Some(nextId);
      nextId := nextId + 1;
    }

    /** Takes a connection out.  Its reply node goes too if it does NAT; a reply
        node without that is left behind, and the table is no longer valid. */
    method Clean(id: nat)
      requires Valid() && id in conns
      modifies this
      ensures conns == old(conns) - {id} && Holds(index, nodes)
      ensures Valid() <==> old(!conns[id].action.Zero() || Node(id, true) !in nodes)
    {
      hide Holds, NodesOk, PlaceOf;
      var c := conns[id];
      LeaveNodes(hashing, conns, nodes, id, !c.action.Zero());
      NodePlaces(hashing, conns, nodes, id);
      PullHolds(index, nodes, Node(id, false));
      index := Pull(index, PlaceOf(hashing, c.fwd), Node(id, false));
      nodes := nodes - {Node(id, false)};
      if !c.action.Zero() {
        PullHolds(index, nodes, Node(id, true));
        index := Pull(index, PlaceOf(hashing, c.rev), Node(id, true));
        nodes := nodes - {Node(id, true)};
      }
      conns := conns - {id};
    }

    /** A packet of a connection moves its expiration. */
    method Touch(id: nat, expiration: int)
      requires Valid() && id in conns
      modifies this`conns
      ensures Valid() && conns == old(conns)[id := old(conns)[id].(expiration := expiration)]
    {
      hide PlaceOf;
      conns := conns[id := conns[id].(expiration := expiration)];
    }
  }

  /** It happens that two have one key: after a connection with its source translated,
      one from the translated address itself, without NAT, whose forward key is free. */
  method SharedReplyKey(hashing: Hashing, now: int) returns (t: ConnTracker, key: Key, ghost a: nat, ghost b: nat)
    ensures t.Valid() && a != b && a in t.conns && b in t.conns
    ensures t.conns[a].rev == t.conns[b].rev == key && Has(t.conns[a], key, now) && Has(t.conns[b], key, now)
    ensures !t.conns[a].action.Zero() && t.conns[b].action.Zero() && !Unique(t.conns, now)
  {
    t := new ConnTracker(hashing);
    var fwd := Key(Endpoint(1, 0), Endpoint(2, 0), Protocol(true, false, 0), 0);
    var info := NatInfo(Action(true, false, false, false), 3, 3, 0, 0);
    var first := t.Create(fwd, Some(info), 0, 0, n => n, now, now + 1);
    key := Key(Endpoint(2, 0), Endpoint(3, 0), Protocol(true, false, 0), 0);
    var second := t.Create(key.Reverse(), None, 0, 0, n => n, now, now + 1);
    a, b := first.value, second.value;
  }

  /** It happens: a NAT request that translates nothing, and whose connection is
      then cleaned up. */
  method LeaveNodeBehind(hashing: Hashing, fwd: Key, expiration: int) returns (t: ConnTracker)
    requires ValidPorts(fwd) && !fwd.protocol.ports
    ensures t.conns == map[] && !t.Valid()
  {
    t := new ConnTracker(hashing);
    var info := NatInfo(Action(false, false, false, false), 0, 0, 0, 0);
    var id := t.Create(fwd, Some(info), 0, 0, n => n, 0, expiration);
    t.Clean(id.value);
  }
}

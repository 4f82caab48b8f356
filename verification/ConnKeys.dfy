/** Connection keys, their symmetric hash, and the translation of addresses and
    ports by a connection that does NAT. */
module ConnKeys {
  import opened Options

  /** One end of a connection; `port` is whatever layer 4 identifies it by. */
  datatype Endpoint = Endpoint(addr: nat, port: nat)

  /** What the two ends have in common: the network and transport protocols. */
  datatype Protocol = Protocol(ipv4: bool, ports: bool, number: nat)

  datatype Key = Key(src: Endpoint, dst: Endpoint, protocol: Protocol, zone: nat)
  {
    function Reverse(): Key { Key(dst, src, protocol, zone) }
  }

  function Xor(a: bv32, b: bv32): bv32 { a ^ b }

  /** The hash functions of the table, under its random basis. */
  datatype Hashing = Hashing(endpoint: Endpoint -> bv32, rest: (Protocol, nat, bv32) -> bv32)
  {
    function Of(key: Key): bv32
    {
      rest(key.protocol, key.zone, Xor(endpoint(key.src), endpoint(key.dst)))
    }
  }

  /** A connection's two directions fall into the same chain. */
  lemma HashSymmetric(hashing: Hashing, key: Key)
    ensures hashing.Of(key.Reverse()) == hashing.Of(key)
    ensures key.Reverse().Reverse() == key
  {
    hide Xor;
    XorCommutes(hashing.endpoint(key.src), hashing.endpoint(key.dst));
  }

  lemma XorCommutes(a: bv32, b: bv32)
    ensures Xor(a, b) == Xor(b, a)
  {
  }

  // ----------------------------------------------------------------- translation

  /** Which addresses and ports are translated. */
  datatype Action = Action(src: bool, srcPort: bool, dst: bool, dstPort: bool)
  {
    /** Of an action on one side, that on the other. */
    function Reverse(): (r: Action)
      ensures src != dst ==> r == Action(dst, srcPort, src, dstPort)
    {
      if src then this.(src := false, dst := true)
      else if dst then this.(dst := false, src := true)
      else this
    }

    predicate Zero() { !src && !srcPort && !dst && !dstPort }
  }

  /** Rewrites a packet's addresses from the key of the opposite direction. */
  function NatAddresses(packet: Key, key: Key, action: Action): Key
  {
    if action.src then packet.(src := packet.src.(addr := key.dst.addr))
    else if action.dst then packet.(dst := packet.dst.(addr := key.src.addr))
    else packet
  }

  /** Rewrites its ports. */
  function NatPorts(packet: Key, key: Key): Key
  {
    if key.protocol.ports then
      packet.(src := packet.src.(port := key.dst.port), dst := packet.dst.(port := key.src.port))
    else packet
  }

  /** Translates a packet of a connection with the two keys. */
  function NatPacket(packet: Key, fwd: Key, rev: Key, action: Action, reply: bool): Key
  {
    var key := if reply then fwd else rev;
    var act := if reply then action.Reverse() else action;
    var p := NatAddresses(packet, key, act);
    if act.src || act.dst then NatPorts(p, key) else p
  }

  /** What tuple selection may have done to the reply key: one address replaced,
      on the side the action says, and ports where the protocol has them. */
  predicate Selected(fwd: Key, rev: Key, action: Action)
  {
    && rev.protocol == fwd.protocol && rev.zone == fwd.zone
    && (action.src ==> rev.src.addr == fwd.dst.addr)
    && (!action.src ==> rev.dst.addr == fwd.src.addr)
    && (!fwd.protocol.ports ==> rev.src.port == fwd.dst.port && rev.dst.port == fwd.src.port)
  }

  /** Forward and reply translation are inverse to each other: a forward packet
      leaves as the reverse of the reply key, and a reply as the reverse of the
      forward key; if and only if the action translates an address, or there is
      nothing to translate. */
  lemma NatInverse(fwd: Key, rev: Key, action: Action)
    requires Selected(fwd, rev, action)
    ensures (NatPacket(fwd, fwd, rev, action, false) == rev.Reverse()
             && NatPacket(rev, fwd, rev, action, true) == fwd.Reverse())
            <==> action.src || action.dst || rev == fwd.Reverse()
  {
  }

  /** So a reply to a translated packet is translated back to a reply. */
  lemma NatRoundTrip(fwd: Key, rev: Key, action: Action)
    requires Selected(fwd, rev, action) && (action.src || action.dst)
    ensures var out := NatPacket(fwd, fwd, rev, action, false);
            NatPacket(out.Reverse(), fwd, rev, action, true) == fwd.Reverse()
  {
    NatInverse(fwd, rev, action);
  }

  // ------------------------------------------------------------------- addresses

  const TWO32: nat := 0x1_0000_0000
  const TWO64: nat := 0x1_0000_0000_0000_0000
  const MAX_DELTA: nat := 0xffff_fffe

  /** An IPv6 address as its two 64-bit halves. */
  datatype Ipv6 = Ipv6(hi: nat, lo: nat)
  {
    predicate Valid() { hi < TWO64 && lo < TWO64 }
    function Value(): nat { hi * TWO64 + lo }
  }

  /** How far the range reaches, in 64-bit arithmetic, up to a 32-bit limit. */
  function Delta(min: Ipv6, max: Ipv6): (d: nat)
    requires min.Valid() && max.Valid()
    ensures d <= MAX_DELTA
    ensures min.Value() <= max.Value() ==>
            d == if max.Value() - min.Value() > MAX_DELTA then MAX_DELTA else max.Value() - min.Value()
  {
    var diff :=
      if min.hi == max.hi && min.lo <= max.lo then max.lo - min.lo
      else if (min.hi + 1) % TWO64 == max.hi && min.lo > max.lo then TWO64 - 1 - (min.lo - max.lo - 1)
      else MAX_DELTA;
    if diff > MAX_DELTA then MAX_DELTA else diff
  }

  /** Adds to an address, carrying into the upper half; `None` where that cannot
      take the carry. */
  function Increment(a: Ipv6, n: nat): (r: Option<Ipv6>)
    requires a.Valid() && n < TWO32
    ensures r.Some? <==> a.Value() + n < TWO64 * TWO64
    ensures r.Some? ==> r.value.Valid() && r.value.Value() == a.Value() + n
  {
    if TWO64 - 1 - n >= a.lo then Some(a.(lo := n + a.lo))
    else if a.hi != TWO64 - 1 then Some(Ipv6(a.hi + 1, n - (TWO64 - 1 - a.lo + 1)))
    else None
  }

  /** The address the hash selects from a range. */
  function Ipv4InRange(min: nat, max: nat, hash: nat): Option<nat>
    requires min < TWO32 && max < TWO32
  {
    var range := (max - min + 1) % TWO32;
    if range == 0 then None else Some((min + hash % range) % TWO32)
  }

  function Ipv6InRange(min: Ipv6, max: Ipv6, hash: nat): Option<Ipv6>
    requires min.Valid() && max.Valid() && hash < TWO32
  {
    var range := (Delta(min, max) + 1) % TWO32;
    if range == 0 then None else Increment(min, hash % range)
  }

  /** For a range that is not empty, and not of all addresses, which is never
      looked into, the modulus is not zero and the address is in the range. */
  lemma Ipv4Selected(min: nat, max: nat, hash: nat)
    requires min <= max < TWO32
    ensures Ipv4InRange(min, max, hash).None? <==> min == 0 && max == TWO32 - 1
    ensures var r := Ipv4InRange(min, max, hash);
            r.Some? ==> min <= r.value <= max
    ensures min > 0 && hash <= max - min ==> Ipv4InRange(min, max, hash) == Some(min + hash)
  {
    var n := max - min + 1;
    if n < TWO32 {
      Small(n);
      Remainder(hash, n);
      Small(min + hash % n);
    }
  }

  lemma Small(x: nat)
    requires x < TWO32
    ensures x % TWO32 == x
  {
  }

  lemma Remainder(x: nat, n: nat)
    requires n > 0
    ensures 0 <= x % n < n && (x < n ==> x % n == x)
  {
  }

  /** The same for IPv6: the modulus is never zero, the carry out of the upper
      half never happens, and up to 2^32 - 1 addresses every one can be selected. */
  lemma Ipv6Selected(min: Ipv6, max: Ipv6, hash: nat)
    requires min.Valid() && max.Valid() && min.Value() <= max.Value() && hash < TWO32
    ensures var r := Ipv6InRange(min, max, hash);
            r.Some? && r.value.Valid() && min.Value() <= r.value.Value() <= max.Value()
    ensures max.Value() - min.Value() <= MAX_DELTA && hash <= max.Value() - min.Value() ==>
            Ipv6InRange(min, max, hash).value.Value() == min.Value() + hash
  {
    hide Delta, Increment;
    var range := Delta(min, max) + 1;
    Small(range);
    Remainder(hash, range);
    assert max.Value() < TWO64 * TWO64;
  }

  /** A NAT request: which translation, and from which addresses and ports. */
  datatype NatInfo = NatInfo(action: Action, minAddr: nat, maxAddr: nat, minPort: nat, maxPort: nat)
  {
    ghost predicate Valid(ipv4: bool)
    {
      && minAddr <= maxAddr < (if ipv4 then TWO32 else TWO64 * TWO64)
      && minPort <= maxPort < 0x1_0000
    }
  }

  function Halves(a: nat): (r: Ipv6)
    ensures a < TWO64 * TWO64 ==> r.Valid() && r.Value() == a
  {
    Ipv6(a / TWO64, a % TWO64)
  }

  /** The address to translate to. */
  function SelectAddress(key: Key, info: NatInfo, hash: nat): (addr: nat)
    requires info.Valid(key.protocol.ipv4) && hash < TWO32
    ensures info.minAddr > 0 ==> info.minAddr <= addr <= info.maxAddr
  {
    if info.minAddr == 0 then
      if info.action.src then key.src.addr else if info.action.dst then key.dst.addr else 0
    else if key.protocol.ipv4 then
      Ipv4Selected(info.minAddr, info.maxAddr, hash);
      Ipv4InRange(info.minAddr, info.maxAddr, hash).value
    else
      Ipv6Selected(Halves(info.minAddr), Halves(info.maxAddr), hash);
      Ipv6InRange(Halves(info.minAddr), Halves(info.maxAddr), hash).value.Value()
  }

  /** A packet on its way through; its tracking state says how it was translated. */
  class Packet {
    var key: Key
    var srcNat: bool
    var dstNat: bool

    method Nat(fwd: Key, rev: Key, action: Action, reply: bool)
      modifies this
      ensures key == NatPacket(old(key), fwd, rev, action, reply)
      ensures srcNat == (old(srcNat) || (if reply then !action.src && action.dst else action.src))
      ensures dstNat == (old(dstNat) || (if reply then action.src else !action.src && action.dst))
    {
      var other := if reply then fwd else rev;
      var act := if reply then action.Reverse() else action;
      if act.src {
        srcNat := true;
      } else if act.dst {
        dstNat := true;
      }
      if act.src {
        key := key.(src := key.src.(addr := other.dst.addr));
      } else if act.dst {
        key := key.(dst := key.dst.(addr := other.src.addr));
      }
      if (act.src || act.dst) && other.protocol.ports {
        key := key.(src := key.src.(port := other.dst.port), dst := key.dst.(port := other.src.port));
      }
    }
  }
}

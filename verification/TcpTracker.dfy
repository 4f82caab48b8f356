/** The tracking of a TCP connection, one peer's state per direction, with sequence
    numbers and windows in 32-bit modular arithmetic. */
module TcpTracker {
  import opened Powers

  const TWO31: nat := 0x8000_0000
  const TWO32: nat := 0x1_0000_0000
  const MAX_WSCALE: nat := 14
  const MAX_ACK_WINDOW: nat := 0xffff + 1500

  type Seq32 = x: nat | x < TWO32

  function U32(x: int): Seq32 { x % TWO32 }

  /** The difference as a signed 32-bit number. */
  function Diff(a: int, b: int): int
  {
    var d: nat := U32(a - b);
    if d < TWO31 then d else d - TWO32
  }

  function Max(a: int, b: int): int { if a > b then a else b }

  datatype Flags = Flags(syn: bool, ack: bool, fin: bool, rst: bool, psh: bool, urg: bool)
  {
    predicate Invalid()
    {
      || (syn && (rst || fin))
      || (!syn && !ack && !rst)
      || (!ack && (fin || psh || urg))
    }
  }

  datatype Packet = Packet(flags: Flags, seqno: Seq32, ack: Seq32, win: nat, length: nat, options: seq<nat>)
  {
    ghost predicate Valid() { win < 0x1_0000 }
  }

  datatype PeerState =
    Closed | Listen | SynSent | SynRecv | Established | CloseWait | FinWait1 | Closing | LastAck | FinWait2 | TimeWait
  {
    function Rank(): nat
    {
      match this
      case Closed => 0 case Listen => 1 case SynSent => 2 case SynRecv => 3 case Established => 4 case CloseWait => 5
      case FinWait1 => 6 case Closing => 7 case LastAck => 8 case FinWait2 => 9 case TimeWait => 10
    }
    predicate AtLeast(other: PeerState) { Rank() >= other.Rank() }
  }

  datatype Result = Invalid | Valid | New | ValidNew

  /** A window scale: whether the option was seen, or the handshake was not. */
  datatype Scale = Scale(seen: bool, unknown: bool, shift: nat)

  // ------------------------------------------------------------------- the states

  datatype Pair = Pair(src: PeerState, dst: PeerState)

  /** The first packet a peer sends puts it in SynSent, whatever becomes of it. */
  function Opened(p: Pair): Pair
  {
    if p.src.AtLeast(SynSent) then p else p.(src := SynSent)
  }

  function Finned(p: Pair, f: Flags): Pair
  {
    if f.fin && !p.src.AtLeast(Closing) then p.(src := Closing) else p
  }

  function Acked(p: Pair, f: Flags): Pair
  {
    if f.ack && p.dst.SynSent? then p.(dst := Established)
    else if f.ack && p.dst.Closing? then p.(dst := FinWait2)
    else p
  }

  function Reset(p: Pair, f: Flags): Pair
  {
    if f.rst then Pair(TimeWait, TimeWait) else p
  }

  /** Around the start and the end of a connection the checks are loosened. */
  predicate Loose(p: Pair)
  {
    !p.dst.AtLeast(SynSent) || p.dst.AtLeast(FinWait2) || p.src.AtLeast(FinWait2)
  }

  /** What a packet may do to the states of its sender and its receiver. */
  ghost predicate Moves(p: Pair, f: Flags, r: Result, p': Pair)
  {
    if f.Invalid() then r.Invalid? && p' == p
    else if f.syn && !f.ack && p.src.AtLeast(FinWait2) && p.dst.AtLeast(FinWait2) then
      r.New? && p' == Pair(Closed, Closed)
    else if f.syn && !f.ack && SynSent.AtLeast(p.src) then r.ValidNew? && p' == p.(src := SynSent)
    else
      || (r.Invalid? && p' == Opened(p))
      || (r.Valid? && p' == Reset(Acked(Finned(Opened(p), f), f), f))
      || (r.Valid? && Loose(Opened(p)) && p' == Reset(Finned(Opened(p), f), f))
  }

  /** Of the eleven states six occur, and a peer that is Established or in FinWait2
      has had a packet acknowledged by one from the other. */
  ghost predicate Reachable(p: Pair)
  {
    && OfSix(p.src) && OfSix(p.dst)
    && (p.src.Established? || p.src.FinWait2? ==> p.dst.AtLeast(SynSent))
    && (p.dst.Established? || p.dst.FinWait2? ==> p.src.AtLeast(SynSent))
  }

  predicate OfSix(s: PeerState)
  {
    s.Closed? || s.SynSent? || s.Established? || s.Closing? || s.FinWait2? || s.TimeWait?
  }

  lemma MovesKeep(p: Pair, f: Flags, r: Result, p': Pair)
    requires Reachable(p) && Moves(p, f, r, p')
    ensures Reachable(p')
    ensures (p'.src.AtLeast(p.src) && p'.dst.AtLeast(p.dst)) || (r.New? && p' == Pair(Closed, Closed))
  {
  }

  function Flip(p: Pair): Pair { Pair(p.dst, p.src) }

  /** A run of packets in either direction, from a new connection. */
  ghost predicate Run(pairs: seq<Pair>, packets: seq<(bool, Flags, Result)>)
  {
    && |pairs| == |packets| + 1 && pairs[0] == Pair(SynSent, Closed)
    && forall i | 0 <= i < |packets| ::
         var (reply, f, r) := packets[i];
         if reply then Moves(Flip(pairs[i]), f, r, Flip(pairs[i + 1])) else Moves(pairs[i], f, r, pairs[i + 1])
  }

  lemma {:induction false} RunReachable(pairs: seq<Pair>, packets: seq<(bool, Flags, Result)>, i: nat)
    requires Run(pairs, packets) && i < |pairs|
    ensures Reachable(pairs[i])
  {
    if i > 0 {
      RunReachable(pairs, packets, i - 1);
      var (reply, f, r) := packets[i - 1];
      if reply {
        MovesKeep(Flip(pairs[i - 1]), f, r, Flip(pairs[i]));
      } else {
        MovesKeep(pairs[i - 1], f, r, pairs[i]);
      }
    }
  }

  /** Over any stretch of a run without the joint reset, neither peer's state goes
      back, whether the packets are judged valid or not. */
  lemma {:induction false} NeverBack(pairs: seq<Pair>, packets: seq<(bool, Flags, Result)>, i: nat, j: nat)
    requires Run(pairs, packets) && i <= j < |pairs|
    requires forall n | i <= n < j :: !packets[n].2.New?
    ensures pairs[j].src.AtLeast(pairs[i].src) && pairs[j].dst.AtLeast(pairs[i].dst)
    ensures Reachable(pairs[i]) && Reachable(pairs[j])
    decreases j
  {
    hide Moves, Reachable;
    RunReachable(pairs, packets, i);
    RunReachable(pairs, packets, j);
    if i < j {
      RunReachable(pairs, packets, j - 1);
      NeverBack(pairs, packets, i, j - 1);
      StepForward(pairs, packets, j - 1);
    }
  }

  lemma StepForward(pairs: seq<Pair>, packets: seq<(bool, Flags, Result)>, i: nat)
    requires Run(pairs, packets) && i < |packets| && Reachable(pairs[i]) && !packets[i].2.New?
    ensures pairs[i + 1].src.AtLeast(pairs[i].src) && pairs[i + 1].dst.AtLeast(pairs[i].dst)
  {
    var (reply, f, r) := packets[i];
    if reply {
      MovesKeep(Flip(pairs[i]), f, r, Flip(pairs[i + 1]));
    } else {
      MovesKeep(pairs[i], f, r, pairs[i + 1]);
    }
  }

  /** And each of the six does occur. */
  lemma SixOccur() returns (pairs: seq<Pair>, packets: seq<(bool, Flags, Result)>)
    ensures Run(pairs, packets)
    ensures forall s | OfSix(s) :: exists i | 0 <= i < |pairs| :: pairs[i].src == s || pairs[i].dst == s
  {
    var synAck, ack := Flags(true, true, false, false, false, false), Flags(false, true, false, false, false, false);
    var finAck, rst := Flags(false, true, true, false, false, false), Flags(false, false, false, true, false, false);
    packets := [(true, synAck, Valid), (false, finAck, Valid), (true, ack, Valid), (false, rst, Valid)];
    pairs := [Pair(SynSent, Closed), Pair(Established, SynSent), Pair(Closing, Established),
              Pair(FinWait2, Established), Pair(TimeWait, TimeWait)];
    assert pairs[0].dst == Closed && pairs[0].src == SynSent && pairs[1].src == Established;
    assert pairs[2].src == Closing && pairs[3].src == FinWait2 && pairs[4].src == TimeWait;
  }

  // ------------------------------------------------------------------- the options

  /** The last window scale option before the list ends. */
  function ScaleFrom(options: seq<nat>, s: Scale): (r: Scale)
    requires s.shift <= MAX_WSCALE && !s.unknown
    ensures r.shift <= MAX_WSCALE && !r.unknown
    decreases |options|
  {
    if |options| < 3 || options[0] == 0 then s
    else if options[0] == 1 then ScaleFrom(options[1..], s)
    else
      var shift := if options[2] < MAX_WSCALE then options[2] else MAX_WSCALE;
      var s' := if options[0] == 3 then Scale(true, false, shift) else s;
      var n := if options[1] < 2 then 2 else options[1];
      if n >= |options| then s' else ScaleFrom(options[n..], s')
  }

  /** Goes through the options without reading past them. */
  method GetScale(options: seq<nat>) returns (s: Scale)
    ensures s == ScaleFrom(options, Scale(false, false, 0))
  {
    s := Scale(false, false, 0);
    var i, len := 0, |options|;
    while len >= 3
      invariant len >= 0 ==> i + len == |options| && i >= 0
      invariant s.shift <= MAX_WSCALE && !s.unknown
      invariant len < 0 ==> s == ScaleFrom(options, Scale(false, false, 0))
      invariant len >= 0 ==> ScaleFrom(options[i..], s) == ScaleFrom(options, Scale(false, false, 0))
      decreases len
    {
      ghost var rest := options[i..];
      if options[i] == 0 {
        return;
      } else if options[i] == 1 {
        assert rest[1..] == options[i + 1..];
        i, len := i + 1, len - 1;
      } else {
        if options[i] == 3 {
          s := Scale(true, false, if options[i + 2] < MAX_WSCALE then options[i + 2] else MAX_WSCALE);
        }
        var n := if options[i + 1] < 2 then 2 else options[i + 1];
        if n < len {
          assert rest[n..] == options[i + n..];
        }
        i, len := i + n, len - n;
      }
    }
  }

  // ------------------------------------------------------------- the window checks

  /** What is known of a peer: how far it has sent, how far it may send, the largest
      window it has offered, not scaled, and the scale for it. */
  datatype PeerView = PeerView(seqlo: Seq32, seqhi: Seq32, maxWin: nat, scale: Scale, state: PeerState)

  function Ceil(win: nat, shift: nat): nat { (win + Pow2(shift) - 1) / Pow2(shift) }

  function End(pkt: Packet): Seq32
  {
    U32(pkt.seqno + pkt.length + (if pkt.flags.syn then 1 else 0) + if pkt.flags.fin then 1 else 0)
  }

  /** The shifts of sender and receiver: those of the handshake, or the largest if
      that was not seen; none while it is under way. */
  function Shifts(src: PeerView, dst: PeerView, f: Flags): (nat, nat)
  {
    if src.scale.seen && dst.scale.seen && !f.syn then (src.scale.shift, dst.scale.shift)
    else if src.scale.unknown && dst.scale.unknown && !f.syn then (MAX_WSCALE, MAX_WSCALE)
    else (0, 0)
  }

  /** The acknowledgment to check: none counts as one that fits. */
  function AckFor(dst: PeerView, pkt: Packet): Seq32
  {
    if !pkt.flags.ack || (pkt.ack == 0 && pkt.flags.rst) then dst.seqlo else pkt.ack
  }

  /** First and last sequence number to check: a packet without data always fits. */
  function Span(src: PeerView, pkt: Packet): (Seq32, Seq32)
  {
    if pkt.seqno == End(pkt) then (src.seqlo, src.seqlo) else (pkt.seqno, End(pkt))
  }

  /** Data and acknowledgment are within the windows; a reset must match exactly or
      by one. */
  predicate WithinWindow(src: PeerView, dst: PeerView, pkt: Packet, skew: int, sws: nat, dws: nat)
  {
    var (seqno, end) := Span(src, pkt);
    && Diff(src.seqhi, end) >= 0
    && Diff(seqno, src.seqlo - dst.maxWin * Pow2(dws)) >= 0
    && 0 - MAX_ACK_WINDOW <= skew <= MAX_ACK_WINDOW * Pow2(sws)
    && (!pkt.flags.rst || pkt.seqno == src.seqlo || pkt.seqno == U32(src.seqlo + 1) || U32(pkt.seqno + 1) == src.seqlo)
  }

  /** A peer that has sent nothing, or is done, may be about a window off. */
  predicate NearWindow(src: PeerView, dst: PeerView, pkt: Packet)
  {
    var (seqno, end) := Span(src, pkt);
    && Loose(Pair(src.state, dst.state))
    && Diff(src.seqhi + MAX_ACK_WINDOW, end) >= 0 && Diff(seqno, src.seqlo - MAX_ACK_WINDOW) >= 0
  }

  /** What becomes of a packet that is not the sender's first. */
  datatype Verdict = InWindow | Nearby | Outside

  ghost function Weigh(src: PeerView, dst: PeerView, pkt: Packet, skew: int, sws: nat, dws: nat,
                       seqCheck: bool): Verdict
  {
    if !seqCheck || WithinWindow(src, dst, pkt, skew, sws, dws) then Verdict.InWindow
    else if NearWindow(src, dst, pkt) then Verdict.Nearby
    else Outside
  }

  ghost function Judge(src: PeerView, dst: PeerView, pkt: Packet, seqCheck: bool): Verdict
  {
    var (sws, dws) := Shifts(src, dst, pkt.flags);
    Weigh(src, dst, pkt, Diff(dst.seqlo, AckFor(dst, pkt)), sws, dws, seqCheck)
  }

  /** The sender's first packet is checked against a window that it has itself set
      up: from its own sequence number to as far as the receiver's window reaches,
      or to what the receiver is known to take if that is further.  Only in the
      latter case is the acknowledgment checked. */
  ghost function JudgeFirst(src: PeerView, dst: PeerView, pkt: Packet): Verdict
  {
    var own := ScaleFrom(pkt.options, Scale(false, false, 0));
    var answer := pkt.flags.syn && dst.scale.seen;
    var (sws, dws) := if answer && own.seen then (own.shift, dst.scale.shift) else Shifts(src, dst, pkt.flags);
    var maxWin := if answer && !own.seen then dst.maxWin * Pow2(dst.scale.shift) % 0x1_0000 else dst.maxWin;
    var hi := End(pkt) + Max(1, maxWin * Pow2(dws));
    var known := src.seqhi != 1 && Diff(hi, src.seqhi) < 0;
    var last := if known then src.seqhi else U32(hi);
    var skew := if known then Diff(dst.seqlo, AckFor(dst, pkt)) else 0;
    JudgeAnew(pkt, last, maxWin, dst.state, skew, sws, dws)
  }

  /** With a window from the packet's own sequence number to `last`. */
  ghost function JudgeAnew(pkt: Packet, last: Seq32, maxWin: nat, dst: PeerState, skew: int, sws: nat,
                           dws: nat): Verdict
  {
    if Diff(last, End(pkt)) >= 0 && Diff(pkt.seqno, pkt.seqno - maxWin * Pow2(dws)) >= 0 &&
       0 - MAX_ACK_WINDOW <= skew <= MAX_ACK_WINDOW * Pow2(sws) then Verdict.InWindow
    else if Loose(Pair(SynSent, dst)) && Diff(last + MAX_ACK_WINDOW, End(pkt)) >= 0 then Verdict.Nearby
    else Outside
  }

  lemma WeighAnew(src: PeerView, dst: PeerView, pkt: Packet, skew: int, sws: nat, dws: nat)
    requires src.state == SynSent && src.seqlo == pkt.seqno
    ensures Weigh(src, dst, pkt, skew, sws, dws, true) ==
            JudgeAnew(pkt, src.seqhi, dst.maxWin, dst.state, skew, sws, dws)
  {
    hide Pow2;
  }

  ghost function Verdicts(src: PeerView, dst: PeerView, pkt: Packet, seqCheck: bool): Verdict
  {
    if !seqCheck then Verdict.InWindow
    else if src.state.AtLeast(SynSent) then Judge(src, dst, pkt, true)
    else JudgeFirst(src, dst, pkt)
  }

  // --------------------------------------------------------- what a packet changes

  ghost function After(p: Pair, f: Flags, v: Verdict): (Result, Pair)
  {
    match v
    case InWindow => (Valid, Reset(Acked(Finned(p, f), f), f))
    case Nearby => (Valid, Reset(Finned(p, f), f))
    case Outside => (Invalid, p)
  }

  /** Flags that settle the matter before any window is looked at. */
  predicate Settled(p: Pair, f: Flags)
  {
    f.Invalid() || (f.syn && !f.ack && ((p.src.AtLeast(FinWait2) && p.dst.AtLeast(FinWait2)) || SynSent.AtLeast(p.src)))
  }

  /** How far the sender has sent after a packet that ends there. */
  function Further(end: Seq32, seqlo: Seq32): Seq32
  {
    if Diff(end, seqlo) > 0 then end else seqlo
  }

  /** How far the receiver may send after an acknowledgment with a window: at least
      one byte past it, but never less than before. */
  function Reach(ack: Seq32, size: nat, seqhi: Seq32): Seq32
  {
    if Diff(ack + size, seqhi) >= 0 then U32(ack + Max(size, 1)) else seqhi
  }

  /** The peers before the check: for a first packet, as that sets them up. */
  datatype Checked = Checked(src: PeerView, dst: PeerView, win: nat, sws: nat, dws: nat, checkSkew: bool)

  /** An answer to the handshake settles the scaling, and a first packet the window. */
  function Introduced(src: PeerView, dst: PeerView, pkt: Packet): Checked
  {
    var (sws0, dws0) := Shifts(src, dst, pkt.flags);
    var answer, own := pkt.flags.syn && dst.scale.seen, ScaleFrom(pkt.options, Scale(false, false, 0));
    var scaled := answer && own.seen;
    var sws, dws := if scaled then own.shift else sws0, if scaled then dst.scale.shift else dws0;
    var win := if scaled then Ceil(pkt.win, sws) else pkt.win;
    var dst' := if answer && !own.seen then
                  dst.(maxWin := dst.maxWin * Pow2(dst.scale.shift) % 0x1_0000, scale := Scale(false, false, 0))
                else dst;
    var hi := End(pkt) + Max(1, dst'.maxWin * Pow2(dws));
    var anew := src.seqhi == 1 || Diff(hi, src.seqhi) >= 0;
    Checked(PeerView(pkt.seqno, if anew then U32(hi) else src.seqhi, Max(src.maxWin, win),
                     if answer then own else src.scale, SynSent),
            dst', win, sws, dws, !anew)
  }

  function Started(src: PeerView, dst: PeerView, pkt: Packet): Checked
  {
    var (sws, dws) := Shifts(src, dst, pkt.flags);
    if src.state.AtLeast(SynSent) then Checked(src, dst, pkt.win, sws, dws, true) else Introduced(src, dst, pkt)
  }

  /** After the verdict: a valid packet moves the windows of both. */
  ghost function Concluded(src: PeerView, dst: PeerView, pkt: Packet, win: nat, sws: nat,
                           v: Verdict): (PeerView, PeerView)
  {
    var p := After(Pair(src.state, dst.state), pkt.flags, v).1;
    if v.Outside? then (src, dst)
    else
      (src.(state := p.src, seqlo := Further(Span(src, pkt).1, src.seqlo), maxWin := Max(src.maxWin, win)),
       dst.(state := p.dst, seqhi := Reach(AckFor(dst, pkt), win * Pow2(sws), dst.seqhi)))
  }

  /** All that a packet does to its sender and its receiver. */
  ghost predicate Updated(src: PeerView, dst: PeerView, pkt: Packet, seqCheck: bool, r: Result, src': PeerView,
                          dst': PeerView)
  {
    var p := Pair(src.state, dst.state);
    if pkt.flags.Invalid() then r.Invalid? && src' == src && dst' == dst
    else if !Settled(p, pkt.flags) then
      var s, v := Started(src, dst, pkt), Verdicts(src, dst, pkt, seqCheck);
      r == After(p, pkt.flags, v).0 && (src', dst') == Concluded(s.src, s.dst, pkt, s.win, s.sws, v)
    else if src.state.AtLeast(FinWait2) && dst.state.AtLeast(FinWait2) then
      r.New? && src' == src.(state := Closed) && dst' == dst.(state := Closed)
    else r.ValidNew? && src' == src.(state := SynSent) && dst' == dst
  }

  /** Of the states, that is one of the moves; the sender's window never goes back, and
      stays where it is if the packet is invalid. */
  lemma UpdatedMoves(src: PeerView, dst: PeerView, pkt: Packet, seqCheck: bool, r: Result, src': PeerView,
                     dst': PeerView)
    requires Updated(src, dst, pkt, seqCheck, r, src', dst')
    ensures Moves(Pair(src.state, dst.state), pkt.flags, r, Pair(src'.state, dst'.state))
    ensures src.state.AtLeast(SynSent) ==> Diff(src'.seqlo, src.seqlo) >= 0
    ensures r.Invalid? && src.state.AtLeast(SynSent) ==> src' == src && dst' == dst
  {
    assert Diff(src.seqlo, src.seqlo) == 0;
    hide Pow2, Shifts, Diff, U32, ScaleFrom, Span, WithinWindow, Ceil, Reach, AckFor;
    var p, f := Pair(src.state, dst.state), pkt.flags;
    if !Settled(p, f) {
      var s, v := Started(src, dst, pkt), Verdicts(src, dst, pkt, seqCheck);
      VerdictsLoose(src, dst, pkt, seqCheck);
      StartedStates(src, dst, pkt);
      hide Started, Verdicts;
      assert Pair(src'.state, dst'.state) == After(Opened(p), f, v).1;
    }
  }

  lemma StartedStates(src: PeerView, dst: PeerView, pkt: Packet)
    ensures var s := Started(src, dst, pkt);
            && Pair(s.src.state, s.dst.state) == Opened(Pair(src.state, dst.state))
            && (src.state.AtLeast(SynSent) ==> s.src == src && s.dst == dst)
  {
    hide Pow2, Shifts, Diff, U32, ScaleFrom, Ceil;
  }

  lemma VerdictsLoose(src: PeerView, dst: PeerView, pkt: Packet, seqCheck: bool)
    ensures Verdicts(src, dst, pkt, seqCheck).Nearby? ==> Loose(Opened(Pair(src.state, dst.state)))
  {
    hide Pow2, Shifts, Diff, U32, ScaleFrom, Span, WithinWindow;
  }

  // ---------------------------------------------------------------- the connection

  class Peer {
    var seqlo: Seq32
    var seqhi: Seq32
    var maxWin: nat
    var scale: Scale
    var state: PeerState

    function View(): PeerView
      reads this
    {
      PeerView(seqlo, seqhi, maxWin, scale, state)
    }

    constructor (state: PeerState, seqlo: Seq32, seqhi: Seq32, maxWin: nat, scale: Scale)
      ensures View() == PeerView(seqlo, seqhi, maxWin, scale, state)
    {
      this.state, this.seqlo, this.seqhi, this.maxWin, this.scale := state, seqlo, seqhi, maxWin, scale;
    }
  }

  class Connection {
    const peers: array<Peer>

    ghost predicate Valid()
      reads this, peers
    {
      peers.Length == 2 && peers[0] != peers[1]
    }

    ghost function States(): Pair
      requires Valid()
      reads this, peers, peers[0], peers[1]
    {
      Pair(peers[0].state, peers[1].state)
    }

    /** From the first packet, which the sender of it starts out with. */
    constructor (pkt: Packet)
      ensures Valid() && fresh(peers) && fresh(peers[0]) && fresh(peers[1]) && States() == Pair(SynSent, Closed)
      ensures (peers[0].View(), peers[1].View()) == Created(pkt)
    {
      hide Pow2, U32, ScaleFrom;
      var f := pkt.flags;
      var scale, other := Scale(false, true, 0), Scale(false, true, 0);
      if f.syn {
        scale := GetScale(pkt.options);
        other := Scale(false, false, 0);
      }
      var win := if pkt.win > 1 then pkt.win else 1;
      if scale.shift != 0 {
        win := Ceil(win, scale.shift);
      } else {
        NoScale(win);
      }
      var hi := U32(End(pkt) + 1);
      var src := new Peer(SynSent, pkt.seqno, hi, win, scale);
      var dst := new Peer(Closed, 0, 1, 1, other);
      peers := new Peer[] [src, dst];
    }

    /** Takes in a packet of either direction. */
    method Update(pkt: Packet, reply: bool, seqCheck: bool) returns (r: Result)
      requires Valid()
      modifies peers[0], peers[1]
      ensures Valid()
      ensures if reply then Moves(Flip(old(States())), pkt.flags, r, Flip(States()))
              else Moves(old(States()), pkt.flags, r, States())
      ensures var src, dst := peers[if reply then 1 else 0], peers[if reply then 0 else 1];
              Updated(old(src.View()), old(dst.View()), pkt, seqCheck, r, src.View(), dst.View())
    {
      hide Moves, Updated;
      if reply {
        r := UpdatePeers(peers[1], peers[0], pkt, seqCheck);
      } else {
        r := UpdatePeers(peers[0], peers[1], pkt, seqCheck);
      }
    }
  }

  lemma NoScale(win: nat)
    ensures Ceil(win, 0) == win
  {
  }

  /** A new connection: from the packet on, the sender may send one byte more. */
  function Created(pkt: Packet): (PeerView, PeerView)
  {
    var scale := if pkt.flags.syn then ScaleFrom(pkt.options, Scale(false, false, 0)) else Scale(false, true, 0);
    (PeerView(pkt.seqno, U32(End(pkt) + 1), Ceil(Max(pkt.win, 1), scale.shift), scale, SynSent),
     PeerView(0, 1, 1, Scale(false, !pkt.flags.syn, 0), Closed))
  }

  method UpdatePeers(src: Peer, dst: Peer, pkt: Packet, seqCheck: bool) returns (r: Result)
    requires src != dst
    modifies src, dst
    ensures Updated(old(src.View()), old(dst.View()), pkt, seqCheck, r, src.View(), dst.View())
    ensures Moves(old(Pair(src.state, dst.state)), pkt.flags, r, Pair(src.state, dst.state))
    ensures old(src.state.AtLeast(SynSent)) ==> Diff(src.seqlo, old(src.seqlo)) >= 0
  {
    hide Pow2, Shifts, JudgeFirst, Weigh, Diff, U32, ScaleFrom, Introduced, Concluded, Moves;
    var f := pkt.flags;
    ghost var was, was' := src.View(), dst.View();
    if f.Invalid() {
      r := Invalid;
    } else if f.syn && !f.ack && dst.state.AtLeast(FinWait2) && src.state.AtLeast(FinWait2) {
      src.state, dst.state := Closed, Closed;
      r := New;
    } else if f.syn && !f.ack && SynSent.AtLeast(src.state) {
      src.state := SynSent;
      r := ValidNew;
    } else {
      var (sws, dws) := Shifts(src.View(), dst.View(), f);
      var win, checkSkew := pkt.win, true;
      if !src.state.AtLeast(SynSent) {
        win, sws, dws, checkSkew := FirstPacket(src, dst, pkt, sws, dws);
        IntroducedVerdict(was, was', pkt);
      }
      var skew := if checkSkew then Diff(dst.seqlo, AckFor(dst.View(), pkt)) else 0;
      NoCheck(src.View(), dst.View(), pkt, skew, sws, dws);
      r := Conclude(src, dst, pkt, seqCheck, win, skew, sws, dws);
      AfterOpened(was, was', pkt, Verdicts(was, was', pkt, seqCheck));
    }
    UpdatedMoves(was, was', pkt, seqCheck, r, src.View(), dst.View());
  }

  lemma AfterOpened(src: PeerView, dst: PeerView, pkt: Packet, v: Verdict)
    ensures After(Pair(src.state, dst.state), pkt.flags, v).0 ==
            After(Opened(Pair(src.state, dst.state)), pkt.flags, v).0
  {
  }

  lemma NoCheck(src: PeerView, dst: PeerView, pkt: Packet, skew: int, sws: nat, dws: nat)
    ensures Weigh(src, dst, pkt, skew, sws, dws, false) == Verdict.InWindow
  {
  }

  /** The packet is in the window, near it or outside. */
  method Conclude(src: Peer, dst: Peer, pkt: Packet, seqCheck: bool, win: nat, skew: int, sws: nat, dws: nat)
    returns (r: Result)
    requires src != dst
    modifies src, dst
    ensures var v := old(Weigh(src.View(), dst.View(), pkt, skew, sws, dws, seqCheck));
            && r == After(old(Pair(src.state, dst.state)), pkt.flags, v).0
            && (src.View(), dst.View()) == Concluded(old(src.View()), old(dst.View()), pkt, win, sws, v)
  {
    hide Pow2, Further, Reach, Span, AckFor;
    var f := pkt.flags;
    if WithinWindow(src.View(), dst.View(), pkt, skew, sws, dws) || !seqCheck {
      Slide(src, dst, pkt, win, sws);
      if f.fin && !src.state.AtLeast(Closing) {
        src.state := Closing;
      }
      if f.ack {
        if dst.state.SynSent? {
          dst.state := Established;
        } else if dst.state.Closing? {
          dst.state := FinWait2;
        }
      }
      if f.rst {
        src.state, dst.state := TimeWait, TimeWait;
      }
      r := Valid;
    } else if NearWindow(src.View(), dst.View(), pkt) {
      Slide(src, dst, pkt, win, sws);
      if f.fin && !src.state.AtLeast(Closing) {
        src.state := Closing;
      }
      if f.rst {
        src.state, dst.state := TimeWait, TimeWait;
      }
      r := Valid;
    } else {
      r := Invalid;
    }
  }

  /** The first packet of a peer sets up its window, and settles the scaling if it
      is the answer to the handshake. */
  method FirstPacket(src: Peer, dst: Peer, pkt: Packet, sws0: nat, dws0: nat)
    returns (win: nat, sws: nat, dws: nat, checkSkew: bool)
    requires src != dst && (sws0, dws0) == Shifts(src.View(), dst.View(), pkt.flags)
    modifies src, dst
    ensures Checked(src.View(), dst.View(), win, sws, dws, checkSkew) ==
            Introduced(old(src.View()), old(dst.View()), pkt)
  {
    hide Pow2, U32, Diff, Shifts, ScaleFrom, Ceil;
    win, sws, dws, checkSkew := pkt.win, sws0, dws0, true;
    if pkt.flags.syn && dst.scale.seen {
      src.scale := GetScale(pkt.options);
      if src.scale.seen {
        sws := src.scale.shift;
        win := Ceil(win, sws);
        dws := dst.scale.shift;
      } else {
        dst.maxWin := dst.maxWin * Pow2(dst.scale.shift) % 0x1_0000;
        dst.scale := Scale(false, false, 0);
      }
    }
    src.seqlo := pkt.seqno;
    src.state := SynSent;
    var hi := End(pkt) + Max(1, dst.maxWin * Pow2(dws));
    if src.seqhi == 1 || Diff(hi, src.seqhi) >= 0 {
      src.seqhi := U32(hi);
      checkSkew := false;
    }
    if win > src.maxWin {
      src.maxWin := win;
    }
  }

  /** Checked against what it has set up, a first packet fares as stated for it. */
  lemma IntroducedVerdict(src: PeerView, dst: PeerView, pkt: Packet)
    ensures var s := Introduced(src, dst, pkt);
            Weigh(s.src, s.dst, pkt, if s.checkSkew then Diff(s.dst.seqlo, AckFor(s.dst, pkt)) else 0, s.sws, s.dws,
                  true) == JudgeFirst(src, dst, pkt)
  {
    hide Pow2, U32, Diff, JudgeAnew, Weigh, Shifts, ScaleFrom, Ceil;
    var s := Introduced(src, dst, pkt);
    WeighAnew(s.src, s.dst, pkt, if s.checkSkew then Diff(s.dst.seqlo, AckFor(s.dst, pkt)) else 0, s.sws, s.dws);
  }

  /** Takes over window and sequence number, and what the other end may send. */
  method Slide(src: Peer, dst: Peer, pkt: Packet, win: nat, sws: nat)
    requires src != dst
    modifies src`maxWin, src`seqlo, dst`seqhi
    ensures src.maxWin == Max(old(src.maxWin), win)
    ensures src.seqlo == Further(old(Span(src.View(), pkt)).1, old(src.seqlo))
    ensures dst.seqhi == Reach(old(AckFor(dst.View(), pkt)), win * Pow2(sws), old(dst.seqhi))
  {
    hide Pow2, Diff, U32;
    var (_, end) := Span(src.View(), pkt);
    var ack := AckFor(dst.View(), pkt);
    if src.maxWin < win {
      src.maxWin := win;
    }
    if Diff(end, src.seqlo) > 0 {
      src.seqlo := end;
    }
    if Diff(ack + win * Pow2(sws), dst.seqhi) >= 0 {
      dst.seqhi := U32(ack + Max(win * Pow2(sws), 1));
    }
  }
}

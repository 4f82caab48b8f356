/** The windows of a tracked TCP connection over whole runs: what keeps them sound,
    and that what a peer may send is then never judged invalid. */
module TcpWindows {
  import opened Powers
  import opened TcpTracker

  /** The largest shift with which no window reaches as far as sequence numbers can
      be told apart, and how large a window and the way to the end of one can be. */
  const MAX_SHIFT: nat := 13
  const MAX_SIZE: nat := 0xffff * 8192
  const MAX_GAP: nat := MAX_SIZE + MAX_ACK_WINDOW

  /** How far `x` is past `base`. */
  function Ahead(x: int, base: int): nat { U32(x - base) }

  // ------------------------------------------------------------------- arithmetic

  /** Numbers that are `x` and `y` past the same one. */
  lemma DiffOf(a: int, b: int, base: int, x: int, y: int)
    requires U32(a) == U32(base + x) && U32(b) == U32(base + y)
    ensures Diff(a, b) == Diff(x, y)
  {
    Congruent(a, base + x);
    Congruent(b, base + y);
    var k, l := (a - (base + x)) / TWO32, (b - (base + y)) / TWO32;
    assert a - b == x - y + (k - l) * TWO32;
    Shifted(x - y, k - l);
  }

  lemma Congruent(a: int, b: int)
    requires U32(a) == U32(b)
    ensures a - b == (a - b) / TWO32 * TWO32
  {
    assert a - b == (a / TWO32 - b / TWO32) * TWO32;
  }

  lemma Shifted(x: int, k: int)
    ensures U32(x + k * TWO32) == U32(x)
  {
    var q := x / TWO32;
    assert x + k * TWO32 == (q + k) * TWO32 + U32(x);
    Unique(x + k * TWO32, q + k, U32(x));
  }

  lemma Unique(x: int, q: int, r: Seq32)
    requires x == q * TWO32 + r
    ensures U32(x) == r
  {
    var d := x / TWO32 - q;
    assert x - x / TWO32 * TWO32 == x % TWO32;
    assert r - x % TWO32 == d * TWO32;
  }

  lemma DiffSmall(x: int, y: int)
    ensures 0 - TWO31 <= x - y < TWO31 ==> Diff(x, y) == x - y
    ensures 0 - TWO32 <= x - y < 0 - TWO31 ==> Diff(x, y) == x - y + TWO32
  {
    if 0 <= x - y < TWO32 {
      Unique(x - y, 0, x - y);
    } else if 0 - TWO32 <= x - y < 0 {
      Unique(x - y, -1, x - y + TWO32);
    }
  }

  /** `x` is `Ahead(x, base)` past `base`, and what is `n` past `base` is that. */
  lemma AheadOf(x: int, base: int, n: int)
    ensures U32(x) == U32(base + Ahead(x, base))
    ensures U32(x) == U32(base + n) ==> Ahead(x, base) == U32(n)
    ensures 0 <= n < TWO32 ==> U32(n) == n
    ensures 0 - TWO32 <= n < 0 ==> U32(n) == n + TWO32
  {
    var q := (x - base) / TWO32;
    assert x == base + Ahead(x, base) + q * TWO32;
    Shifted(base + Ahead(x, base), q);
    if U32(x) == U32(base + n) {
      Congruent(x, base + n);
      Shifted(n, (x - (base + n)) / TWO32);
    }
    if 0 <= n < TWO32 {
      Unique(n, 0, n);
    } else if 0 - TWO32 <= n < 0 {
      Unique(n, -1, n + TWO32);
    }
  }

  /** Of congruent numbers one may take the place of the other. */
  lemma Same(a: int, b: int, n: int)
    requires U32(a) == U32(b)
    ensures U32(a + n) == U32(b + n)
  {
    Congruent(a, b);
    Shifted(b + n, (a - b) / TWO32);
  }

  lemma PowBound(shift: nat)
    requires shift <= MAX_SHIFT
    ensures 1 <= Pow2(shift) <= 8192
  {
    assert Pow2(MAX_SHIFT) == 8192;
    Pow2Grows(shift, MAX_SHIFT);
  }

  lemma Product(a: nat, b: nat, c: nat, d: nat)
    requires a <= c && b <= d
    ensures a * b <= c * d
  {
    assert a * b <= a * d <= c * d;
  }

  lemma Idem(x: int)
    ensures U32(U32(x)) == U32(x)
  {
  }

  lemma SizeBound(win: nat, shift: nat)
    requires win < 0x1_0000 && shift <= MAX_SHIFT
    ensures 1 <= Pow2(shift) <= 8192 && win * Pow2(shift) <= MAX_SIZE
  {
    hide Pow2;
    PowBound(shift);
    Product(win, Pow2(shift), 0xffff, 8192);
  }

  // --------------------------------------------------------------- one advertisement

  /** A peer that may send `gap` bytes more is sent a window: from `skew` bytes back, of
      that size.  It may then send as far as the further of the two ends, if and only
      if the ends are not too far apart to be told which is; if they are, what it may
      send ends before what it has sent. */
  lemma ReachAhead(seqlo: Seq32, seqhi: Seq32, ack: Seq32, size: nat)
    requires Ahead(seqhi, seqlo) < TWO31 && size < TWO31 / 2 + MAX_ACK_WINDOW
    requires 0 - MAX_ACK_WINDOW <= Diff(seqlo, ack) <= MAX_ACK_WINDOW * 0x4000
    ensures var gap, skew, gap' := Ahead(seqhi, seqlo), Diff(seqlo, ack), Ahead(Reach(ack, size, seqhi), seqlo);
            && (gap' < TWO31 <==> gap + skew <= TWO31 + size)
            && (gap' < TWO31 ==> gap' == if size - skew >= gap then Max(size, 1) - skew else gap)
  {
    var gap, skew := Ahead(seqhi, seqlo), Diff(seqlo, ack);
    Idem(ack + Max(size, 1));
    hide Diff, U32;
    AckAt(seqlo, ack);
    Same(ack, seqlo - skew, size);
    Same(ack, seqlo - skew, Max(size, 1));
    AheadOf(seqhi, seqlo, gap);
    DiffOf(ack + size, seqhi, seqlo, size - skew, gap);
    DiffSmall(size - skew, gap);
    AheadOf(U32(ack + Max(size, 1)), seqlo, Max(size, 1) - skew);
  }

  /** An acknowledgment is as far back as the skew says. */
  lemma AckAt(seqlo: Seq32, ack: Seq32)
    ensures U32(ack) == U32(seqlo - Diff(seqlo, ack))
  {
    var d: nat := U32(seqlo - ack);
    var q := (seqlo - ack) / TWO32;
    assert seqlo - ack == q * TWO32 + d;
    if d < TWO31 {
      assert ack == seqlo - d + (0 - q) * TWO32;
      Shifted(seqlo - d, 0 - q);
    } else {
      assert ack == seqlo - (d - TWO32) + (0 - q - 1) * TWO32;
      Shifted(seqlo - (d - TWO32), 0 - q - 1);
    }
  }

  // -------------------------------------------------------------------- soundness

  /** Both peers have sent packets and neither is done. */
  predicate Open(a: PeerView, b: PeerView)
  {
    a.state.AtLeast(SynSent) && !Loose(Pair(a.state, b.state))
  }

  /** No window is scaled by more than 13 bits. */
  predicate SmallScales(a: PeerView, b: PeerView)
  {
    a.scale.shift <= MAX_SHIFT && b.scale.shift <= MAX_SHIFT && !(a.scale.unknown && b.scale.unknown)
  }

  /** What a peer may send ends where it has sent up to, or not too far after. */
  ghost predicate Proper(a: PeerView)
  {
    Ahead(a.seqhi, a.seqlo) <= MAX_GAP && a.maxWin < 0x1_0000
  }

  ghost predicate Sound(a: PeerView, b: PeerView)
  {
    Proper(a) && Proper(b) && SmallScales(a, b)
  }

  /** The acknowledgment is close enough to what the other has sent. */
  predicate SkewOk(src: PeerView, dst: PeerView, pkt: Packet)
  {
    0 - MAX_ACK_WINDOW <= Diff(dst.seqlo, AckFor(dst, pkt)) <=
    MAX_ACK_WINDOW * Pow2(Shifts(src, dst, pkt.flags).0)
  }

  /** The size of the window that a packet offers. */
  function Offer(src: PeerView, dst: PeerView, pkt: Packet): nat
  {
    pkt.win * Pow2(Shifts(src, dst, pkt.flags).0)
  }

  lemma ShiftsSmall(src: PeerView, dst: PeerView, pkt: Packet)
    requires SmallScales(src, dst) && pkt.Valid()
    ensures Shifts(src, dst, pkt.flags).0 <= MAX_SHIFT && Shifts(src, dst, pkt.flags).1 <= MAX_SHIFT
    ensures Offer(src, dst, pkt) <= MAX_SIZE
    ensures SkewOk(src, dst, pkt) ==> Diff(dst.seqlo, AckFor(dst, pkt)) <= MAX_ACK_WINDOW * 8192
  {
    hide Pow2, Diff;
    var sws := Shifts(src, dst, pkt.flags).0;
    SizeBound(pkt.win, sws);
    Product(MAX_ACK_WINDOW, Pow2(sws), MAX_ACK_WINDOW, 8192);
  }

  /** With small scales the ends of two windows can be told apart. */
  lemma ReachBounded(seqlo: Seq32, seqhi: Seq32, ack: Seq32, size: nat)
    requires Ahead(seqhi, seqlo) <= MAX_GAP && size <= MAX_SIZE
    requires 0 - MAX_ACK_WINDOW <= Diff(seqlo, ack) <= MAX_ACK_WINDOW * 8192
    ensures var gap' := Ahead(Reach(ack, size, seqhi), seqlo);
            Ahead(seqhi, seqlo) <= gap' <= MAX_GAP && Max(size, 1) - Diff(seqlo, ack) <= gap'
  {
    ReachAhead(seqlo, seqhi, ack, size);
    hide Diff, U32, Reach;
  }

  lemma ReachProper(src: PeerView, dst: PeerView, pkt: Packet)
    requires SmallScales(src, dst) && pkt.Valid() && SkewOk(src, dst, pkt) && Ahead(dst.seqhi, dst.seqlo) <= MAX_GAP
    ensures var size, skew := Offer(src, dst, pkt), Diff(dst.seqlo, AckFor(dst, pkt));
            var gap, gap' := Ahead(dst.seqhi, dst.seqlo), Ahead(Reach(AckFor(dst, pkt), size, dst.seqhi), dst.seqlo);
            && gap <= gap' <= MAX_GAP && Max(size, 1) - skew <= gap'
            && 0 - MAX_ACK_WINDOW <= skew <= MAX_ACK_WINDOW * 8192
  {
    hide Pow2, Diff, U32, Offer, AckFor, Reach;
    ShiftsSmall(src, dst, pkt);
    SkewBound(src, dst, pkt);
    ReachBounded(dst.seqlo, dst.seqhi, AckFor(dst, pkt), Offer(src, dst, pkt));
  }

  lemma SkewBound(src: PeerView, dst: PeerView, pkt: Packet)
    requires SkewOk(src, dst, pkt)
    ensures 0 - MAX_ACK_WINDOW <= Diff(dst.seqlo, AckFor(dst, pkt))
  {
    hide Pow2, Diff, AckFor, Shifts;
  }

  /** A sender that moves on within its window comes nearer to the end of it. */
  lemma FurtherProper(seqlo: Seq32, seqhi: Seq32, end: Seq32)
    requires Ahead(seqhi, seqlo) <= MAX_GAP && Diff(seqhi, end) >= 0
    ensures Ahead(seqhi, Further(end, seqlo)) == Ahead(seqhi, seqlo) - Ahead(Further(end, seqlo), seqlo)
  {
    if Diff(end, seqlo) > 0 {
      var gap, n := Ahead(seqhi, seqlo), Ahead(end, seqlo);
      AheadOf(seqhi, seqlo, gap);
      AheadOf(end, seqlo, n);
      assert Diff(end, seqlo) == n;
      DiffOf(seqhi, end, seqlo, gap, n);
      DiffSmall(gap, n);
      assert Ahead(seqhi, end) == Diff(seqhi, end);
    }
  }

  /** While a connection is open, a packet is in the window or changes nothing. */
  lemma OpenUpdate(src: PeerView, dst: PeerView, pkt: Packet, r: Result, src': PeerView, dst': PeerView)
    requires Open(src, dst) && Updated(src, dst, pkt, true, r, src', dst')
    ensures src'.scale == src.scale && dst'.scale == dst.scale && src'.seqhi == src.seqhi && dst'.seqlo == dst.seqlo
    ensures r.Valid? ==>
            var (sws, dws) := Shifts(src, dst, pkt.flags);
            && WithinWindow(src, dst, pkt, Diff(dst.seqlo, AckFor(dst, pkt)), sws, dws) && SkewOk(src, dst, pkt)
            && src'.seqlo == Further(Span(src, pkt).1, src.seqlo) && src'.maxWin == Max(src.maxWin, pkt.win)
            && dst'.seqhi == Reach(AckFor(dst, pkt), Offer(src, dst, pkt), dst.seqhi) && dst'.maxWin == dst.maxWin
    ensures !r.Valid? ==>
            src'.seqlo == src.seqlo && src'.maxWin == src.maxWin && dst'.seqhi == dst.seqhi && dst'.maxWin == dst.maxWin
  {
    hide Pow2, Diff, U32, Span, AckFor, Further, Reach, Shifts;
  }

  lemma StepSound(src: PeerView, dst: PeerView, pkt: Packet, r: Result, src': PeerView, dst': PeerView)
    requires Open(src, dst) && Sound(src, dst) && pkt.Valid() && Updated(src, dst, pkt, true, r, src', dst')
    ensures Sound(src', dst')
    ensures Ahead(src'.seqhi, src'.seqlo) == Ahead(src.seqhi, src.seqlo) - Ahead(src'.seqlo, src.seqlo)
    ensures Ahead(dst'.seqhi, dst'.seqlo) >= Ahead(dst.seqhi, dst.seqlo) && Ahead(dst'.seqlo, dst.seqlo) == 0
    ensures !r.Valid? ==> dst'.seqhi == dst.seqhi
  {
    OpenUpdate(src, dst, pkt, r, src', dst');
    assert Ahead(src.seqlo, src.seqlo) == 0 && Ahead(dst.seqlo, dst.seqlo) == 0;
    if r.Valid? {
      ReachProper(src, dst, pkt);
      WindowEnd(src, dst, pkt);
      FurtherProper(src.seqlo, src.seqhi, Span(src, pkt).1);
    }
    hide Pow2, Diff, U32, Span, AckFor, Further, Reach, Shifts, Updated, WithinWindow;
  }

  lemma WindowEnd(src: PeerView, dst: PeerView, pkt: Packet)
    requires var (sws, dws) := Shifts(src, dst, pkt.flags);
             WithinWindow(src, dst, pkt, Diff(dst.seqlo, AckFor(dst, pkt)), sws, dws)
    ensures Diff(src.seqhi, Span(src, pkt).1) >= 0
  {
    hide Pow2, Diff, Shifts, AckFor;
  }

  // -------------------------------------------------------------------- every run

  /** The two peers, the one that began first. */
  datatype Peers = Peers(first: PeerView, second: PeerView)
  {
    /** The sender of a packet that is a reply or not. */
    function Of(reply: bool): PeerView { if reply then second else first }
  }

  datatype Step = Step(reply: bool, pkt: Packet, r: Result)

  ghost predicate Steps(p: Peers, s: Step, p': Peers)
  {
    s.pkt.Valid() && Updated(p.Of(s.reply), p.Of(!s.reply), s.pkt, true, s.r, p'.Of(s.reply), p'.Of(!s.reply))
  }

  /** Packets in either direction, with their sequence numbers checked. */
  ghost predicate Trace(ps: seq<Peers>, steps: seq<Step>)
  {
    |ps| == |steps| + 1 && forall i | 0 <= i < |steps| :: Steps(ps[i], steps[i], ps[i + 1])
  }

  ghost predicate OpenAll(ps: seq<Peers>, i: nat, j: nat)
  {
    forall n | i <= n <= j && n < |ps| :: Open(ps[n].first, ps[n].second)
  }

  lemma OpenEither(p: Peers, reply: bool)
    requires Open(p.first, p.second)
    ensures Open(p.Of(reply), p.Of(!reply))
  {
  }

  /** While a connection is open, its windows stay sound. */
  lemma {:induction false} StaysSound(ps: seq<Peers>, steps: seq<Step>, i: nat, j: nat)
    requires Trace(ps, steps) && i <= j < |ps| && OpenAll(ps, i, j) && Sound(ps[i].first, ps[i].second)
    ensures Sound(ps[j].first, ps[j].second)
    decreases j
  {
    hide Sound, Open, Updated;
    if i < j {
      StaysSound(ps, steps, i, j - 1);
      var p, s := ps[j - 1], steps[j - 1];
      assert Steps(p, s, ps[j]) && Open(p.first, p.second);
      OpenEither(p, s.reply);
      SoundEither(p, s.reply);
      StepSound(p.Of(s.reply), p.Of(!s.reply), s.pkt, s.r, ps[j].Of(s.reply), ps[j].Of(!s.reply));
      SoundEither(ps[j], s.reply);
    }
  }

  lemma SoundEither(p: Peers, reply: bool)
    ensures Sound(p.first, p.second) <==> Sound(p.Of(reply), p.Of(!reply))
  {
  }

  /** How many bytes the peer of that side has sent on in between. */
  ghost function Moved(ps: seq<Peers>, way: bool, i: nat, j: nat): nat
    requires i <= j < |ps|
    decreases j
  {
    if i == j then 0 else Moved(ps, way, i, j - 1) + Ahead(ps[j].Of(way).seqlo, ps[j - 1].Of(way).seqlo)
  }

  ghost function Gap(p: Peers, way: bool): nat
  {
    Ahead(p.Of(way).seqhi, p.Of(way).seqlo)
  }

  lemma {:induction false} MovedAt(ps: seq<Peers>, way: bool, i: nat, j: nat)
    requires i <= j < |ps|
    ensures U32(ps[j].Of(way).seqlo) == U32(ps[i].Of(way).seqlo + Moved(ps, way, i, j))
    decreases j
  {
    hide U32;
    if i < j {
      var was, on := ps[j - 1].Of(way).seqlo, Ahead(ps[j].Of(way).seqlo, ps[j - 1].Of(way).seqlo);
      MovedAt(ps, way, i, j - 1);
      AheadOf(ps[j].Of(way).seqlo, was, on);
      Same(was, ps[i].Of(way).seqlo + Moved(ps, way, i, j - 1), on);
    }
  }

  /** In a step, a peer comes nearer to the end of its window by what it sends on, or
      the end moves away from it; only a valid packet from the other side does that. */
  lemma StepGap(p: Peers, s: Step, p': Peers, way: bool)
    requires Steps(p, s, p') && Open(p.first, p.second) && Sound(p.first, p.second)
    ensures Gap(p', way) >= Gap(p, way) - Ahead(p'.Of(way).seqlo, p.Of(way).seqlo)
    ensures !(s.reply == !way && s.r.Valid?) ==>
            Gap(p', way) == Gap(p, way) - Ahead(p'.Of(way).seqlo, p.Of(way).seqlo)
  {
    hide Sound, Open, Updated, U32;
    OpenEither(p, s.reply);
    SoundEither(p, s.reply);
    StepSound(p.Of(s.reply), p.Of(!s.reply), s.pkt, s.r, p'.Of(s.reply), p'.Of(!s.reply));
    OpenUpdate(p.Of(s.reply), p.Of(!s.reply), s.pkt, s.r, p'.Of(s.reply), p'.Of(!s.reply));
  }

  lemma {:induction false} GapStands(ps: seq<Peers>, steps: seq<Step>, way: bool, i: nat, j: nat)
    requires Trace(ps, steps) && i <= j < |ps| && OpenAll(ps, i, j) && Sound(ps[i].first, ps[i].second)
    ensures Gap(ps[j], way) >= Gap(ps[i], way) - Moved(ps, way, i, j)
    decreases j
  {
    hide Sound, Open, Steps, Gap, Ahead;
    if i < j {
      GapStands(ps, steps, way, i, j - 1);
      StaysSound(ps, steps, i, j - 1);
      assert Steps(ps[j - 1], steps[j - 1], ps[j]) && Open(ps[j - 1].first, ps[j - 1].second);
      StepGap(ps[j - 1], steps[j - 1], ps[j], way);
    }
  }

  /** No valid packet comes from that side in between. */
  ghost predicate Silent(steps: seq<Step>, reply: bool, i: nat, j: nat)
  {
    forall n | i <= n < j && n < |steps| && steps[n].reply == reply :: !steps[n].r.Valid?
  }

  /** Until the other side's next valid packet, a peer sends no more than its window. */
  lemma {:induction false} SilentMoves(ps: seq<Peers>, steps: seq<Step>, way: bool, i: nat, j: nat)
    requires Trace(ps, steps) && i <= j < |ps| && OpenAll(ps, i, j) && Sound(ps[i].first, ps[i].second)
    requires Silent(steps, !way, i, j)
    ensures Moved(ps, way, i, j) == Gap(ps[i], way) - Gap(ps[j], way)
    decreases j
  {
    hide Sound, Open, Steps, Gap, Ahead;
    if i < j {
      SilentMoves(ps, steps, way, i, j - 1);
      StaysSound(ps, steps, i, j - 1);
      assert Steps(ps[j - 1], steps[j - 1], ps[j]) && Open(ps[j - 1].first, ps[j - 1].second);
      StepGap(ps[j - 1], steps[j - 1], ps[j], way);
    }
  }

  /** Where the window that a packet offers ends. */
  function Limit(src: PeerView, dst: PeerView, pkt: Packet): Seq32
  {
    U32(AckFor(dst, pkt) + Max(Offer(src, dst, pkt), 1))
  }

  /** A packet of data that starts where its sender has sent up to, ends within the
      limit, acknowledges something close enough, and is not one that opens or
      resets a connection. */
  ghost predicate InOrder(src: PeerView, dst: PeerView, pkt: Packet, limit: Seq32)
  {
    && !pkt.flags.Invalid() && !pkt.flags.rst && (pkt.flags.syn ==> pkt.flags.ack)
    && pkt.seqno == src.seqlo && SkewOk(src, dst, pkt)
    && Ahead(End(pkt), src.seqlo) <= Ahead(limit, src.seqlo) < TWO31
  }

  lemma InOrderWithin(src: PeerView, dst: PeerView, pkt: Packet)
    requires Sound(src, dst) && pkt.Valid() && InOrder(src, dst, pkt, src.seqhi)
    ensures var (sws, dws) := Shifts(src, dst, pkt.flags);
            WithinWindow(src, dst, pkt, Diff(dst.seqlo, AckFor(dst, pkt)), sws, dws)
  {
    hide Pow2, Diff, U32, AckFor, Shifts, End;
    var dws := Shifts(src, dst, pkt.flags).1;
    ShiftsSmall(src, dst, pkt);
    SizeBound(dst.maxWin, dws);
    BackWindow(src.seqlo, dst.maxWin * Pow2(dws));
    EndReached(src.seqlo, src.seqhi, End(pkt));
    EndReached(src.seqlo, src.seqhi, src.seqlo);
  }

  /** In order and up to the end of what the sender may send, a packet is valid. */
  lemma InOrderValid(src: PeerView, dst: PeerView, pkt: Packet, r: Result, src': PeerView, dst': PeerView)
    requires Open(src, dst) && Sound(src, dst) && pkt.Valid() && Updated(src, dst, pkt, true, r, src', dst')
    requires InOrder(src, dst, pkt, src.seqhi)
    ensures r.Valid?
  {
    InOrderWithin(src, dst, pkt);
    hide Pow2, Diff, U32, AckFor, Shifts, WithinWindow, Concluded, NearWindow, End, Sound;
  }

  lemma BackWindow(seqlo: Seq32, size: nat)
    requires size <= MAX_SIZE
    ensures Diff(seqlo, seqlo - size) >= 0
  {
    DiffOf(seqlo, seqlo - size, seqlo, 0, 0 - size);
    DiffSmall(0, 0 - size);
  }

  lemma EndReached(seqlo: Seq32, seqhi: Seq32, end: Seq32)
    requires (Ahead(end, seqlo) <= Ahead(seqhi, seqlo) || end == seqlo) && Ahead(seqhi, seqlo) < TWO31
    ensures Diff(seqhi, end) >= 0
  {
    var gap, n := Ahead(seqhi, seqlo), Ahead(end, seqlo);
    AheadOf(seqhi, seqlo, gap);
    AheadOf(end, seqlo, n);
    DiffOf(seqhi, end, seqlo, gap, n);
    DiffSmall(gap, n);
  }

  /** How far past what its receiver has sent the window of a packet ends. */
  function Offered(src: PeerView, dst: PeerView, pkt: Packet): int
  {
    Max(Offer(src, dst, pkt), 1) - Diff(dst.seqlo, AckFor(dst, pkt))
  }

  /** A valid packet lets its receiver send as far as the window that it offers. */
  lemma OfferReached(src: PeerView, dst: PeerView, pkt: Packet, r: Result, src': PeerView, dst': PeerView)
    requires Open(src, dst) && Sound(src, dst) && pkt.Valid() && Updated(src, dst, pkt, true, r, src', dst') && r.Valid?
    ensures 0 - MAX_ACK_WINDOW * 8192 <= Offered(src, dst, pkt) <= Ahead(dst'.seqhi, dst'.seqlo) <= MAX_GAP
    ensures dst'.seqlo == dst.seqlo && U32(Limit(src, dst, pkt)) == U32(dst.seqlo + Offered(src, dst, pkt))
  {
    hide Updated, Open, Diff, U32, Offer, Reach, Shifts, WithinWindow, AckFor, Span, Further, SkewOk;
    OpenUpdate(src, dst, pkt, r, src', dst');
    ReachProper(src, dst, pkt);
    var ack, size := AckFor(dst, pkt), Max(Offer(src, dst, pkt), 1);
    AckAt(dst.seqlo, ack);
    Same(ack, dst.seqlo - Diff(dst.seqlo, ack), size);
    Idem(ack + size);
  }

  /** What was offered, as seen when the sender has moved on. */
  lemma LimitWithin(was: Seq32, seqlo: Seq32, moved: nat, gap: nat, limit: Seq32, offered: int)
    requires U32(limit) == U32(was + offered) && U32(seqlo) == U32(was + moved)
    requires 0 - MAX_ACK_WINDOW * 8192 <= offered && offered - moved <= gap < TWO31 && moved < TWO31 / 2
    ensures Ahead(limit, seqlo) < TWO31 ==> Ahead(limit, seqlo) <= gap
  {
    hide U32;
    Same(was + moved, seqlo, offered - moved);
    AheadOf(limit, seqlo, offered - moved);
  }

  /** The law: while a connection is open with sound windows, data in order within a
      window that the other side has offered is never judged invalid, unless the
      sender has sent on by 2^30 bytes since. */
  lemma OfferedIsAccepted(ps: seq<Peers>, steps: seq<Step>, way: bool, i: nat, j: nat)
    requires Trace(ps, steps) && i < j < |steps| && OpenAll(ps, i, j) && Sound(ps[i].first, ps[i].second)
    requires steps[i].reply == !way && steps[i].r.Valid? && Moved(ps, way, i, j) < TWO31 / 2
    requires steps[j].reply == way
    requires InOrder(ps[j].Of(way), ps[j].Of(!way), steps[j].pkt,
                     Limit(ps[i].Of(!way), ps[i].Of(way), steps[i].pkt))
    ensures steps[j].r.Valid?
  {
    hide Sound, Open, Updated, Limit, U32, SkewOk, End, Offered, Proper;
    var p, s, p', q := ps[i], steps[i], ps[i + 1], ps[j];
    assert Steps(p, s, p') && Steps(q, steps[j], ps[j + 1]);
    assert Open(p.first, p.second) && Open(q.first, q.second);
    OpenEither(p, !way);
    OpenEither(q, way);
    SoundEither(p, !way);
    OfferReached(p.Of(!way), p.Of(way), s.pkt, s.r, p'.Of(!way), p'.Of(way));
    var limit, offered := Limit(p.Of(!way), p.Of(way), s.pkt), Offered(p.Of(!way), p.Of(way), s.pkt);
    StaysSound(ps, steps, i, i + 1);
    GapStands(ps, steps, way, i + 1, j);
    MovedOn(ps, way, i, j);
    MovedAt(ps, way, i, j);
    StaysSound(ps, steps, i, j);
    SoundEither(q, way);
    SoundGap(q, way);
    LimitWithin(p.Of(way).seqlo, q.Of(way).seqlo, Moved(ps, way, i, j), Gap(q, way), limit, offered);
    InOrderValid(q.Of(way), q.Of(!way), steps[j].pkt, steps[j].r, ps[j + 1].Of(way), ps[j + 1].Of(!way));
  }

  lemma SoundGap(p: Peers, way: bool)
    requires Sound(p.first, p.second)
    ensures Gap(p, way) < TWO31
  {
  }

  lemma {:induction false} MovedOn(ps: seq<Peers>, way: bool, i: nat, j: nat)
    requires i < j < |ps| && ps[i + 1].Of(way).seqlo == ps[i].Of(way).seqlo
    ensures Moved(ps, way, i, j) == Moved(ps, way, i + 1, j)
    decreases j
  {
    assert Ahead(ps[i].Of(way).seqlo, ps[i].Of(way).seqlo) == 0;
    if i + 1 < j {
      MovedOn(ps, way, i, j - 1);
    }
  }

  /** In particular within the window that the other side offered last. */
  lemma LastOfferIsAccepted(ps: seq<Peers>, steps: seq<Step>, way: bool, i: nat, j: nat)
    requires Trace(ps, steps) && i < j < |steps| && OpenAll(ps, i, j) && Sound(ps[i].first, ps[i].second)
    requires steps[i].reply == !way && steps[i].r.Valid? && Silent(steps, !way, i + 1, j)
    requires steps[j].reply == way
    requires InOrder(ps[j].Of(way), ps[j].Of(!way), steps[j].pkt,
                     Limit(ps[i].Of(!way), ps[i].Of(way), steps[i].pkt))
    ensures steps[j].r.Valid?
  {
    hide InOrder, Updated, U32, Limit;
    var p, s, p' := ps[i], steps[i], ps[i + 1];
    assert Steps(p, s, p') && Open(p.first, p.second);
    OpenEither(p, !way);
    OpenUpdate(p.Of(!way), p.Of(way), s.pkt, s.r, p'.Of(!way), p'.Of(way));
    StaysSound(ps, steps, i, i + 1);
    SoundEither(p', way);
    SilentMoves(ps, steps, way, i + 1, j);
    MovedOn(ps, way, i, j);
    OfferedIsAccepted(ps, steps, way, i, j);
  }

  // ------------------------------------------------- resets, and after the end

  lemma NextTo(a: Seq32, b: Seq32)
    ensures -1 <= Diff(a, b) <= 1 <==> a == b || a == U32(b + 1) || U32(a + 1) == b
  {
  }

  lemma NoSkew(src: PeerView, dst: PeerView, pkt: Packet)
    ensures Diff(dst.seqlo, dst.seqlo) == 0 <= MAX_ACK_WINDOW * Pow2(Shifts(src, dst, pkt.flags).0)
  {
    hide Pow2, Shifts;
    Product(MAX_ACK_WINDOW, 0, MAX_ACK_WINDOW, Pow2(Shifts(src, dst, pkt.flags).0));
  }

  lemma EmptyEnd(pkt: Packet)
    requires !pkt.flags.syn && !pkt.flags.fin && pkt.length == 0
    ensures End(pkt) == pkt.seqno
  {
  }

  /** A reset that is within one of where its sender has sent up to, and acknowledges
      nothing, or zero, or something close enough. */
  ghost predicate ResetFits(src: PeerView, dst: PeerView, pkt: Packet)
  {
    && -1 <= Diff(pkt.seqno, src.seqlo) <= 1
    && (pkt.flags.ack && pkt.ack != 0 ==>
          0 - MAX_ACK_WINDOW <= Diff(dst.seqlo, pkt.ack) <= MAX_ACK_WINDOW * Pow2(Shifts(src, dst, pkt.flags).0))
  }

  lemma ResetWithin(src: PeerView, dst: PeerView, pkt: Packet)
    requires Sound(src, dst) && pkt.Valid() && pkt.flags.rst && !pkt.flags.syn && !pkt.flags.fin && pkt.length == 0
    ensures var (sws, dws) := Shifts(src, dst, pkt.flags);
            WithinWindow(src, dst, pkt, Diff(dst.seqlo, AckFor(dst, pkt)), sws, dws) <==> ResetFits(src, dst, pkt)
  {
    hide Pow2, Diff, U32, Shifts, End, Ahead, SkewOk;
    EmptyEnd(pkt);
    var dws := Shifts(src, dst, pkt.flags).1;
    ShiftsSmall(src, dst, pkt);
    SizeBound(dst.maxWin, dws);
    BackWindow(src.seqlo, dst.maxWin * Pow2(dws));
    EndReached(src.seqlo, src.seqhi, src.seqlo);
    NextTo(pkt.seqno, src.seqlo);
    NoSkew(src, dst, pkt);
  }

  /** A reset without data is valid if and only if it fits. */
  lemma ResetExact(src: PeerView, dst: PeerView, pkt: Packet, r: Result, src': PeerView, dst': PeerView)
    requires Open(src, dst) && Sound(src, dst) && pkt.Valid() && Updated(src, dst, pkt, true, r, src', dst')
    requires pkt.flags.rst && !pkt.flags.fin && !pkt.flags.Invalid() && pkt.length == 0
    ensures r.Valid? <==> ResetFits(src, dst, pkt)
    ensures r.Valid? ==> src'.state == TimeWait && dst'.state == TimeWait
  {
    ResetWithin(src, dst, pkt);
    hide Pow2, Diff, U32, Shifts, End, Further, Reach, NearWindow, WithinWindow, Sound, AckFor, ResetFits;
  }

  /** Around the start and the end of a connection, a packet that starts and ends about
      a window off the sender's, counted from where it has sent up to, is valid. */
  lemma NearbyValid(src: PeerView, dst: PeerView, pkt: Packet, r: Result, src': PeerView, dst': PeerView, from: int,
                    to: int)
    requires src.state.AtLeast(SynSent) && Loose(Pair(src.state, dst.state)) && Proper(src)
    requires Updated(src, dst, pkt, true, r, src', dst')
    requires !pkt.flags.Invalid() && (pkt.flags.syn ==> pkt.flags.ack)
    requires pkt.seqno == U32(src.seqlo + from) && End(pkt) == U32(src.seqlo + to)
    requires 0 - MAX_ACK_WINDOW <= from <= to <= Ahead(src.seqhi, src.seqlo) + MAX_ACK_WINDOW
    ensures r.Valid?
  {
    var gap := Ahead(src.seqhi, src.seqlo);
    AheadOf(src.seqhi, src.seqlo, gap);
    Idem(src.seqlo + from);
    Idem(src.seqlo + to);
    hide Diff, U32, Pow2, Shifts, End, AckFor, WithinWindow, Concluded;
    Same(src.seqhi, src.seqlo + gap, MAX_ACK_WINDOW);
    NearEnd(src.seqlo, src.seqhi, gap, End(pkt), to);
    NearEnd(src.seqlo, src.seqhi, gap, src.seqlo, 0);
    NearStart(src.seqlo, pkt.seqno, from);
    NearStart(src.seqlo, src.seqlo, 0);
  }

  lemma NearEnd(seqlo: Seq32, seqhi: Seq32, gap: nat, end: Seq32, to: int)
    requires U32(seqhi + MAX_ACK_WINDOW) == U32(seqlo + gap + MAX_ACK_WINDOW) && gap <= MAX_GAP
    requires U32(end) == U32(seqlo + to) && 0 - MAX_ACK_WINDOW <= to <= gap + MAX_ACK_WINDOW
    ensures Diff(seqhi + MAX_ACK_WINDOW, end) >= 0
  {
    DiffOf(seqhi + MAX_ACK_WINDOW, end, seqlo, gap + MAX_ACK_WINDOW, to);
    DiffSmall(gap + MAX_ACK_WINDOW, to);
  }

  lemma NearStart(seqlo: Seq32, seqno: Seq32, from: int)
    requires U32(seqno) == U32(seqlo + from) && 0 - MAX_ACK_WINDOW <= from <= MAX_GAP + MAX_ACK_WINDOW
    ensures Diff(seqno, seqlo - MAX_ACK_WINDOW) >= 0
  {
    DiffOf(seqno, seqlo - MAX_ACK_WINDOW, seqlo, from, 0 - MAX_ACK_WINDOW);
    DiffSmall(from, 0 - MAX_ACK_WINDOW);
  }

  // ----------------------------------------------------------------- the handshake

  lemma CeilLess(win: nat, shift: nat)
    requires win > 0
    ensures Ceil(win, shift) <= win
  {
    var f := Pow2(shift);
    assert (win + 1) * f == win * f + f && win * f >= win;
    if Ceil(win, shift) > win {
      Product(win + 1, f, Ceil(win, shift), f);
    }
  }

  lemma NoneToCeil(shift: nat)
    ensures Ceil(0, shift) == 0
  {
  }

  /** From its first sequence number to the end of a packet and `n` bytes more. */
  lemma PastEnd(pkt: Packet, n: nat)
    requires pkt.length < 0x1_0000 && n <= MAX_GAP - 0x1_0002
    ensures Ahead(U32(End(pkt) + n), pkt.seqno) <= pkt.length + 2 + n && Ahead(U32(End(pkt)), pkt.seqno) <= MAX_GAP
    ensures Diff(U32(End(pkt) + n), End(pkt)) >= 0
  {
    hide U32, Diff;
    var l := pkt.length + (if pkt.flags.syn then 1 else 0) + if pkt.flags.fin then 1 else 0;
    Idem(pkt.seqno + l);
    Idem(End(pkt) + n);
    Same(End(pkt), pkt.seqno + l, n);
    AheadOf(U32(End(pkt) + n), pkt.seqno, l + n);
    AheadOf(U32(End(pkt)), pkt.seqno, l);
    DiffOf(U32(End(pkt) + n), End(pkt), pkt.seqno, l + n, l);
    DiffSmall(l + n, l);
  }

  lemma CreatedProper(syn: Packet)
    requires syn.Valid() && syn.length < 0x1_0000
    ensures Proper(Created(syn).0)
  {
    PastEnd(syn, 1);
    CeilLess(Max(syn.win, 1), Created(syn).0.scale.shift);
    hide Pow2, U32, End, ScaleFrom, Ceil;
  }

  /** What the answer to the handshake sets up is proper, and it is in its own window. */
  lemma AnswerProper(src: PeerView, dst: PeerView, pkt: Packet)
    requires src.seqhi == 1 && src.maxWin == 1 && src.state == Closed && Proper(dst) && dst.scale.shift <= MAX_SHIFT
    requires src.scale == Scale(false, false, 0) && !dst.scale.unknown
    requires pkt.flags.syn && pkt.Valid() && pkt.length < 0x1_0000
    requires ScaleFrom(pkt.options, Scale(false, false, 0)).shift <= MAX_SHIFT
    ensures var s := Introduced(src, dst, pkt);
            && Proper(s.src) && s.dst.maxWin < 0x1_0000 && SmallScales(s.src, s.dst)
            && s.sws <= MAX_SHIFT && s.win * Pow2(s.sws) <= MAX_SIZE && s.win < 0x1_0000
            && s.dst.seqlo == dst.seqlo && s.dst.seqhi == dst.seqhi && s.dst.state == dst.state
            && Diff(s.src.seqhi, End(pkt)) >= 0
    ensures Verdicts(src, dst, pkt, true) == Verdict.InWindow
  {
    hide Pow2, U32, Diff, ScaleFrom, Ceil, End;
    var s := Introduced(src, dst, pkt);
    var n := Max(1, s.dst.maxWin * Pow2(s.dws));
    if pkt.win > 0 {
      CeilLess(pkt.win, s.sws);
    } else {
      NoneToCeil(s.sws);
    }
    SizeBound(s.win, s.sws);
    SizeBound(s.dst.maxWin, s.dws);
    PastEnd(pkt, n);
    BackWindow(pkt.seqno, s.dst.maxWin * Pow2(s.dws));
    Product(MAX_ACK_WINDOW, 0, MAX_ACK_WINDOW, Pow2(s.sws));
  }

  /** After a handshake with small scales, in which the answer acknowledges about what
      was sent, the connection is open and its windows are sound. */
  lemma HandshakeSound(syn: Packet, answer: Packet, r: Result, b: PeerView, a: PeerView)
    requires syn.flags.syn && syn.Valid() && syn.length < 0x1_0000 && Created(syn).0.scale.shift <= MAX_SHIFT
    requires answer.flags.syn && answer.flags.ack && !answer.flags.Invalid()
    requires answer.Valid() && answer.length < 0x1_0000
    requires ScaleFrom(answer.options, Scale(false, false, 0)).shift <= MAX_SHIFT
    requires 0 - MAX_ACK_WINDOW <= Diff(syn.seqno, answer.ack) <= MAX_ACK_WINDOW
    requires Updated(Created(syn).1, Created(syn).0, answer, true, r, b, a)
    ensures r.Valid? && Open(a, b) && Sound(a, b)
  {
    var (first, second) := Created(syn);
    CreatedProper(syn);
    AnswerProper(second, first, answer);
    var s := Introduced(second, first, answer);
    ReachBounded(first.seqlo, first.seqhi, answer.ack, s.win * Pow2(s.sws));
    FurtherProper(s.src.seqlo, s.src.seqhi, End(answer));
    assert Further(s.src.seqlo, s.src.seqlo) == s.src.seqlo;
    hide Pow2, U32, Diff, ScaleFrom, Ceil, End, Verdicts, Introduced, Further, Reach;
  }

  // ------------------------------------------------------- where it does not hold

  // The packets and the peers of a connection whose handshake was not seen.
  const BEGIN: Seq32 := 2_000_000_000
  const ACK: Flags := Flags(false, true, false, false, false, false)
  const UNKNOWN: Scale := Scale(false, true, 0)
  const FIRST: Packet := Packet(ACK, BEGIN, 1, 1, 0, [])
  const OFFER: Packet := Packet(ACK, 1, BEGIN + MAX_ACK_WINDOW, 0xffff, 0, [])
  const LATE: Packet := Packet(ACK, 1, BEGIN - MAX_ACK_WINDOW * 0x4000, 0, 0, [])
  const DATA: Packet := Packet(ACK, BEGIN, 1, 1, 1, [])
  const NEW_PEERS: Peers :=
    Peers(PeerView(BEGIN, BEGIN + 1, 1, UNKNOWN, SynSent), PeerView(0, 1, 1, UNKNOWN, Closed))
  const SECOND: PeerView := PeerView(1, 1 + 0x4000, 0xffff, UNKNOWN, SynSent)
  const BEFORE: PeerView := PeerView(BEGIN, BEGIN + 0xffff * 0x4000 + MAX_ACK_WINDOW, 1, UNKNOWN, Established)
  const AFTER: PeerView := BEFORE.(seqhi := BEGIN - MAX_ACK_WINDOW * 0x4000 + 1)

  lemma AfterOffer()
    ensures Updated(NEW_PEERS.second, NEW_PEERS.first, OFFER, true, Valid, SECOND, BEFORE)
    ensures Created(FIRST) == (NEW_PEERS.first, NEW_PEERS.second)
  {
    assert Pow2(MAX_WSCALE) == 0x4000;
    hide Pow2;
    NoScale(1);
  }

  lemma AfterLate()
    ensures Updated(SECOND, BEFORE, LATE, true, Valid, SECOND, AFTER)
  {
    assert Pow2(MAX_WSCALE) == 0x4000;
    hide Pow2;
  }

  lemma AfterData()
    ensures Updated(AFTER, SECOND, DATA, true, Invalid, AFTER, SECOND)
    ensures InOrder(AFTER, SECOND, DATA, Limit(NEW_PEERS.second, NEW_PEERS.first, OFFER))
  {
    assert Pow2(MAX_WSCALE) == 0x4000;
    hide Pow2;
  }

  /** It happens where the scale is 14, as it is taken to be if the handshake was not
      seen: a late acknowledgment makes what the peer may send end before what it has
      sent, and the next byte in order, within a window offered before, is invalid. */
  lemma WindowLost() returns (ps: seq<Peers>, steps: seq<Step>)
    ensures |steps| == 3 && Trace(ps, steps) && ps[0] == Peers(Created(FIRST).0, Created(FIRST).1)
    ensures steps[0].reply && steps[1].reply && !steps[2].reply && steps[0].r.Valid? && steps[1].r.Valid?
    ensures OpenAll(ps, 1, 2) && Moved(ps, false, 0, 2) == 0
    ensures InOrder(ps[2].first, ps[2].second, steps[2].pkt, Limit(ps[0].second, ps[0].first, steps[0].pkt))
    ensures steps[2].r.Invalid?
  {
    AfterOffer();
    AfterLate();
    AfterData();
    hide Updated, InOrder, Limit, Created;
    ps := [NEW_PEERS, Peers(BEFORE, SECOND), Peers(AFTER, SECOND), Peers(AFTER, SECOND)];
    steps := [Step(true, OFFER, Valid), Step(true, LATE, Valid), Step(false, DATA, Invalid)];
    assert Ahead(BEGIN, BEGIN) == 0;
  }
}

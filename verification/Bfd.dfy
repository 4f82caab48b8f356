/** A session of Bidirectional Forwarding Detection (RFC 5880): what its operations
    do, what holds of it in every run, and of two of them over any network. */
module Bfd {
  import opened Options

  const VERSION: nat := 1
  const PACKET_LEN: nat := 24
  const DEFAULT_MULT: nat := 3

  datatype SessionState = AdminDown | Down | Init | Up
  {
    function Rank(): nat
    {
      match this case AdminDown => 0 case Down => 1 case Init => 2 case Up => 3
    }
    predicate Above(other: SessionState) { Rank() > other.Rank() }
  }

  datatype Diag = NoDiag | Expired | RemoteDown | PathDown | ConcatenatedPathDown | OtherDiag(code: nat)

  datatype Msg = Msg(version: nat, diag: Diag, state: SessionState, poll: bool, final: bool, auth: bool,
                     multipoint: bool, mult: nat, length: nat, myDisc: nat, yourDisc: nat, minTx: int, minRx: int)

  // ------------------------------------------------------------ the abstract view

  /** What the protocol's safety is about. */
  datatype Core = Core(state: SessionState, disc: nat, rmtDisc: nat, poll: bool, final: bool, inDecay: bool)

  /** Poll and Final are never both set, the session is never administratively
      down, and decay happens only while it is up. */
  ghost predicate Safe(c: Core)
  {
    !(c.poll && c.final) && !c.state.AdminDown? && (c.inDecay ==> c.state.Up?) && c.disc != 0
  }

  /** Setting a state: below Init everything learned from the peer is forgotten. */
  function WithState(c: Core, st: SessionState): Core
  {
    if st.Above(Down) then c.(state := st) else c.(state := st, rmtDisc := 0, inDecay := false)
  }

  /** Which messages a session takes notice of. */
  predicate Accepts(c: Core, m: Msg)
  {
    && m.version == VERSION && !m.auth && m.length >= PACKET_LEN && m.mult != 0 && !m.multipoint && m.myDisc != 0
    && (if m.yourDisc != 0 then m.yourDisc == c.disc else !m.state.Above(Down))
  }

  /** The state machine of section 6.8.6. */
  function NextState(st: SessionState, remote: SessionState): SessionState
  {
    match (st, remote)
    case (AdminDown, _) => AdminDown
    case (_, AdminDown) => Down
    case (Down, Down) => Init
    case (Down, Init) => Up
    case (Down, Up) => Down
    case (Init, Down) => Init
    case (Init, _) => Up
    case (Up, Down) => Down
    case (Up, _) => Up
  }

  ghost predicate Received(c: Core, m: Msg, c': Core)
  {
    if !Accepts(c, m) then c' == c
    else
      var st := NextState(c.state, m.state);
      c' == if st == c.state then Heard(c, m) else WithState(Heard(c, m), st)
  }

  function Heard(c: Core, m: Msg): Core
  {
    c.(rmtDisc := m.myDisc, poll := c.poll && !m.poll && !m.final, final := c.final || m.poll)
  }

  ghost predicate Sent(c: Core, m: Msg, c': Core)
  {
    && m.state == c.state && m.poll == c.poll && m.final == c.final && m.myDisc == c.disc && m.yourDisc == c.rmtDisc
    && c' == c.(final := false)
  }

  /** A poll may start, above Down, while neither bit is set. */
  ghost predicate MayPoll(c: Core, c': Core)
  {
    c' == c || (c.state.Above(Down) && !c.poll && !c.final && c' == c.(poll := true))
  }

  /** The timers: the session may go down for want of packets, decay may change
      while it is up, and then a poll may start. */
  ghost predicate Ran(c: Core, c': Core)
  {
    exists c1, c2 :: (c1 == c || (c.state.Above(Down) && c1 == WithState(c, Down)))
      && (c2 == c1 || (c1.state.Up? && c2 == c1.(inDecay := c2.inDecay)))
      && MayPoll(c2, c')
  }

  /** Reconfiguration: decay may be reset, a session that is not up may forget its
      peer, and a poll may start. */
  ghost predicate Configured(c: Core, c': Core)
  {
    exists c1, c2 :: (c1 == c || c1 == c.(inDecay := false))
      && (c2 == c1 || c2 == WithState(c1, c1.state))
      && MayPoll(c2, c')
  }

  lemma ConfiguredBy(c: Core, c1: Core, c2: Core, c': Core)
    requires (c1 == c || c1 == c.(inDecay := false)) && (c2 == c1 || c2 == WithState(c1, c1.state)) && MayPoll(c2, c')
    ensures Configured(c, c')
  {
  }

  lemma RanBy(c: Core, c1: Core, c2: Core, c': Core)
    requires c1 == c || (c.state.Above(Down) && c1 == WithState(c, Down))
    requires (c2 == c1 || (c1.state.Up? && c2 == c1.(inDecay := c2.inDecay))) && MayPoll(c2, c')
    ensures Ran(c, c')
  {
  }

  lemma StepsAreSafe(c: Core, m: Msg, c': Core)
    requires Safe(c)
    requires Received(c, m, c') || Sent(c, m, c') || Ran(c, c') || Configured(c, c')
    ensures Safe(c') && c'.disc == c.disc
  {
  }

  // ------------------------------------------------------------------ the session

  function Max(a: int, b: int): int { if a > b then a else b }

  lemma Jitter(interval: int, r: nat)
    requires r <= 25
    ensures interval >= 0 ==> 3 * interval / 4 <= interval - interval * r / 100 <= interval
    ensures interval >= 0 && r >= 10 ==> interval - interval * r / 100 <= interval - interval / 10
  {
    if interval >= 0 {
      var x := interval * r;
      assert 0 <= x <= interval * 25;
      assert r >= 10 ==> x >= interval * 10;
    }
  }

  /** An interval less a random part of it: up to a quarter, and with a multiplier
      of one at least a tenth. */
  function Jittered(interval: int, mult: nat, random: nat): (r: int)
    ensures interval >= 0 ==> 3 * interval / 4 <= r <= interval
    ensures interval >= 0 && mult == 1 ==> r <= interval - interval / 10
  {
    var part := if mult == 1 then 10 + random % 16 else random % 26;
    Jitter(interval, part);
    interval - interval * part / 100
  }

  /** When the session is to go down for want of packets. */
  function DetectTime(m: Msg, minRx: int, now: int): int
  {
    Max(minRx, Max(m.minTx / 1000, 1)) * m.mult + now
  }

  /** What decay is decided by from now on. */
  function NewDecay(decayMinRx: int, now: int, rxPackets: int): (int, int, int)
  {
    (rxPackets, 0, Max(decayMinRx, 2000) + now)
  }

  class Session {
    const disc: nat
    var cpathDown: bool
    var mult: nat
    var rmtMult: nat
    var state: SessionState
    var rmtState: SessionState
    var diag: Diag
    var rmtDiag: Diag
    var poll: bool
    var final: bool
    var rmtDisc: nat
    var rmtMinRx: int
    var rmtMinTx: int
    var cfgMinTx: int
    var cfgMinRx: int
    var pollMinTx: int
    var pollMinRx: int
    var minTx: int
    var minRx: int
    var lastTx: int
    var nextTx: int
    var detectTime: int
    var inDecay: bool
    var decayMinRx: int
    var decayRxCtl: int
    var decayRxPackets: int
    var decayDetectTime: int

    ghost function View(): Core
      reads this
    {
      Core(state, disc, rmtDisc, poll, final, inDecay)
    }

    /** What decay is decided by: the packets counted, the control packets since, and
        when that is to be. */
    ghost function Decay(): (int, int, int)
      reads this
    {
      (decayRxPackets, decayRxCtl, decayDetectTime)
    }

    function MinTx(): int
      reads this
    {
      if state.Up? then minTx else Max(minTx, 1000)
    }

    function TxInterval(): int
      reads this
    {
      Max(MinTx(), rmtMinRx)
    }

    function RxInterval(): int
      reads this
    {
      Max(minRx, rmtMinTx)
    }

    /** A new session is down. */
    constructor (disc: nat)
      requires disc != 0
      ensures Safe(View()) && state == Down && !poll && !final && rmtDisc == 0 && this.disc == disc
      ensures !cpathDown && mult == DEFAULT_MULT && diag == NoDiag && rmtMinRx == 1 && rmtMinTx == 0
      ensures cfgMinTx == 0 && cfgMinRx == 0 && decayMinRx == 0 && minTx == 1000 && minRx == 0
      ensures lastTx == 0 && nextTx == 0 && detectTime == 0 && Decay() == (0, 0, 0)
    {
      this.disc := disc;
      cpathDown := false;
      mult, rmtMult := DEFAULT_MULT, 0;
      state, rmtState, diag, rmtDiag := Down, Down, NoDiag, NoDiag;
      poll, final, rmtDisc := false, false, 0;
      rmtMinRx, rmtMinTx := 1, 0;
      cfgMinTx, cfgMinRx, pollMinTx, pollMinRx, minTx, minRx := 0, 0, 0, 0, 1000, 0;
      lastTx, nextTx, detectTime := 0, 0, 0;
      inDecay, decayMinRx, decayRxCtl, decayRxPackets, decayDetectTime := false, 0, 0, 0, 0;
    }

    method DecayUpdate(now: int, rxPackets: int)
      modifies `decayRxPackets, `decayRxCtl, `decayDetectTime
      ensures Decay() == NewDecay(decayMinRx, now, rxPackets)
    {
      decayRxPackets, decayRxCtl, decayDetectTime := rxPackets, 0, Max(decayMinRx, 2000) + now;
    }

    /** Drops what was learned from the peer. */
    method Forget()
      modifies `rmtState, `rmtDiag, `rmtMinRx, `rmtDisc, `rmtMinTx, `minRx, `inDecay
      ensures rmtDisc == 0 && !inDecay && rmtState == Down && rmtDiag == NoDiag && rmtMinRx == 1 && rmtMinTx == 0
      ensures minRx == if old(inDecay) then cfgMinRx else old(minRx)
    {
      rmtState, rmtDiag, rmtMinRx, rmtDisc, rmtMinTx := Down, NoDiag, 1, 0, 0;
      if inDecay {
        minRx, inDecay := cfgMinRx, false;
      }
    }

    method SetState(st: SessionState, diag0: Diag, now: int, rxPackets: int)
      modifies `state, `diag, `rmtState, `rmtDiag, `rmtMinRx, `rmtDisc, `rmtMinTx, `minRx, `inDecay
      modifies `decayRxPackets, `decayRxCtl, `decayDetectTime
      ensures View() == old(View()) || View() == WithState(old(View()), st)
      ensures old(state) != st ==> View() == WithState(old(View()), st)
      ensures diag == if cpathDown then ConcatenatedPathDown else diag0
      ensures minRx == if old(inDecay) && !inDecay then cfgMinRx else old(minRx)
      ensures old(state) != st && !st.Above(Down) ==>
              rmtState == Down && rmtDiag == NoDiag && rmtMinRx == 1 && rmtMinTx == 0
      ensures st.Above(Down) ==>
              && rmtState == old(rmtState) && rmtDiag == old(rmtDiag)
              && rmtMinRx == old(rmtMinRx) && rmtMinTx == old(rmtMinTx)
      ensures Decay() == if (old(state) != st || old(diag) != diag) && st.Up? && decayMinRx != 0
                         then NewDecay(decayMinRx, now, rxPackets) else old(Decay())
    {
      var diag' := if cpathDown then ConcatenatedPathDown else diag0;
      if state != st || diag != diag' {
        state, diag := st, diag';
        if !state.Above(Down) {
          Forget();
        }
        if state.Up? && decayMinRx != 0 {
          DecayUpdate(now, rxPackets);
        }
      }
    }

    method Poll()
      modifies `pollMinTx, `pollMinRx, `poll, `nextTx
      ensures MayPoll(old(View()), View()) && (old(poll) ==> poll)
      ensures poll && !old(poll) ==> pollMinTx == cfgMinTx && pollMinRx == if inDecay then decayMinRx else cfgMinRx
      ensures state.Above(Down) && !final ==> poll
      ensures if poll && !old(poll) then nextTx == 0
              else pollMinTx == old(pollMinTx) && pollMinRx == old(pollMinRx) && nextTx == old(nextTx)
    {
      if state.Above(Down) && !poll && !final {
        pollMinTx := cfgMinTx;
        pollMinRx := if inDecay then decayMinRx else cfgMinRx;
        poll := true;
        nextTx := 0;
      }
    }

    /** The next transmission: the interval less a random part of it. */
    method SetNextTx(random: nat)
      modifies `nextTx
      ensures nextTx == lastTx + Jittered(TxInterval(), mult, random)
    {
      var interval := TxInterval();
      if mult == 1 {
        interval := interval - interval * (10 + random % 16) / 100;
      } else {
        interval := interval - interval * (random % 26) / 100;
      }
      nextTx := lastTx + interval;
    }

    /** Takes in a packet: its TTL, and the control message unless it is too short. */
    method Receive(ttl: nat, packet: Option<Msg>, now: int, rxPackets: int, random: nat)
      modifies `rmtDisc, `rmtState, `rmtDiag, `minTx, `minRx, `poll, `final, `rmtMult, `rmtMinRx, `rmtMinTx, `nextTx
      modifies `detectTime
      modifies `state, `diag, `inDecay, `decayRxPackets, `decayRxCtl, `decayDetectTime
      ensures ttl != 255 || packet.None? ==>
              View() == old(View()) && minTx == old(minTx) && minRx == old(minRx) && diag == old(diag)
      ensures ttl == 255 && packet.Some? ==> Received(old(View()), packet.value, View())
      ensures ttl == 255 && packet.Some? && Accepts(old(View()), packet.value) ==>
              detectTime == DetectTime(packet.value, old(if poll && packet.value.final then pollMinRx else minRx), now)
              && minTx == old(if poll && packet.value.final then pollMinTx else minTx)
      ensures diag == if state == old(state) then old(diag) else if cpathDown then ConcatenatedPathDown
                      else if state == Down then RemoteDown else old(diag)
      ensures Decay() == if state != old(state) && state.Up? && decayMinRx != 0
                         then NewDecay(decayMinRx, now, rxPackets)
                         else old((decayRxPackets, decayRxCtl + 1, decayDetectTime))
    {
      decayRxCtl := decayRxCtl + 1;
      if ttl != 255 || packet.None? {
        return;
      }
      Process(packet.value, now, rxPackets, random);
    }

    method Process(m: Msg, now: int, rxPackets: int, random: nat)
      modifies `rmtDisc, `rmtState, `rmtDiag, `minTx, `minRx, `poll, `final, `rmtMult, `rmtMinRx, `rmtMinTx, `nextTx
      modifies `detectTime
      modifies `state, `diag, `inDecay, `decayRxPackets, `decayRxCtl, `decayDetectTime
      ensures Received(old(View()), m, View())
      ensures Accepts(old(View()), m) ==>
              rmtMult == m.mult && detectTime == DetectTime(m, old(if poll && m.final then pollMinRx else minRx), now)
      ensures minTx == old(if Accepts(View(), m) && poll && m.final then pollMinTx else minTx)
      ensures minRx == if old(inDecay) && !inDecay then cfgMinRx
                       else old(if Accepts(View(), m) && poll && m.final then pollMinRx else minRx)
      ensures diag == if state == old(state) then old(diag) else if cpathDown then ConcatenatedPathDown
                      else if state == Down then RemoteDown else old(diag)
      ensures Decay() == if state != old(state) && state.Up? && decayMinRx != 0
                         then NewDecay(decayMinRx, now, rxPackets) else old(Decay())
      ensures Accepts(old(View()), m) && (state == old(state) || state.Above(Down)) ==>
              && rmtState == m.state && rmtDiag == m.diag
              && rmtMinRx == Max(m.minRx / 1000, 1) && rmtMinTx == Max(m.minTx / 1000, 1)
    {
      hide NextState, DetectTime, Max, WithState, Heard;
      if m.version != VERSION || m.auth || m.length < PACKET_LEN || m.mult == 0 || m.multipoint || m.myDisc == 0 {
        return;
      }
      if m.yourDisc != 0 {
        if m.yourDisc != disc {
          return;
        }
      } else if m.state.Above(Down) {
        return;
      }
      Accept(m, now, rxPackets, random);
    }

    /** Takes notice of a message. */
    method Accept(m: Msg, now: int, rxPackets: int, random: nat)
      requires Accepts(View(), m)
      modifies `rmtDisc, `rmtState, `rmtDiag, `minTx, `minRx, `poll, `final, `rmtMult, `rmtMinRx, `rmtMinTx, `nextTx
      modifies `detectTime
      modifies `state, `diag, `inDecay, `decayRxPackets, `decayRxCtl, `decayDetectTime
      ensures var st := NextState(old(state), m.state);
              View() == if st == old(state) then Heard(old(View()), m) else WithState(Heard(old(View()), m), st)
      ensures rmtMult == m.mult && detectTime == DetectTime(m, old(if poll && m.final then pollMinRx else minRx), now)
      ensures minTx == old(if poll && m.final then pollMinTx else minTx)
      ensures minRx == if old(inDecay) && !inDecay then cfgMinRx
                       else old(if poll && m.final then pollMinRx else minRx)
      ensures diag == if state == old(state) then old(diag) else if cpathDown then ConcatenatedPathDown
                      else if state == Down then RemoteDown else old(diag)
      ensures Decay() == if state != old(state) && state.Up? && decayMinRx != 0
                         then NewDecay(decayMinRx, now, rxPackets) else old(Decay())
      ensures state == old(state) || state.Above(Down) ==>
              && rmtState == m.state && rmtDiag == m.diag
              && rmtMinRx == Max(m.minRx / 1000, 1) && rmtMinTx == Max(m.minTx / 1000, 1)
    {
      hide NextState, DetectTime, Max, Jittered, Accepts;
      Learn(m);
      LearnTimers(m, now, random);
      Advance(m.state, now, rxPackets);
    }

    /** Notes what an accepted message says of the peer, ends a poll that it
        answers, and makes ready to answer one that it asks. */
    method Learn(m: Msg)
      modifies `rmtDisc, `rmtState, `rmtDiag, `minTx, `minRx, `poll, `final
      ensures View() == Heard(old(View()), m) && rmtState == m.state && rmtDiag == m.diag
      ensures minTx == if old(poll) && m.final then pollMinTx else old(minTx)
      ensures minRx == if old(poll) && m.final then pollMinRx else old(minRx)
    {
      rmtDisc, rmtState, rmtDiag := m.myDisc, m.state, m.diag;
      if m.final && poll {
        minTx, minRx, poll := pollMinTx, pollMinRx, false;
      }
      if m.poll {
        poll, final := false, true;
      }
    }

    /** Takes over the intervals of an accepted message. */
    method LearnTimers(m: Msg, now: int, random: nat)
      modifies `rmtMult, `rmtMinRx, `rmtMinTx, `nextTx, `detectTime
      ensures rmtMult == m.mult && rmtMinRx == Max(m.minRx / 1000, 1) && rmtMinTx == Max(m.minTx / 1000, 1)
      ensures detectTime == DetectTime(m, minRx, now)
      ensures nextTx == if old(nextTx) != 0 && rmtMinRx != old(rmtMinRx)
                        then lastTx + Jittered(TxInterval(), mult, random) else old(nextTx)
    {
      hide Jittered;
      rmtMult := m.mult;
      var newMinRx := Max(m.minRx / 1000, 1);
      if rmtMinRx != newMinRx {
        rmtMinRx := newMinRx;
        if nextTx != 0 {
          SetNextTx(random);
        }
      }
      rmtMinTx := Max(m.minTx / 1000, 1);
      detectTime := RxInterval() * rmtMult + now;
    }

    /** The transitions on what the peer says of its state. */
    method Advance(remote: SessionState, now: int, rxPackets: int)
      modifies `state, `diag, `rmtState, `rmtDiag, `rmtMinRx, `rmtDisc, `rmtMinTx, `minRx, `inDecay
      modifies `decayRxPackets, `decayRxCtl, `decayDetectTime
      ensures var st := NextState(old(state), remote);
              && View() == (if st == old(state) then old(View()) else WithState(old(View()), st))
              && (st == old(state) ==> diag == old(diag))
              && (st == old(state) || st.Above(Down) ==>
                    && rmtState == old(rmtState) && rmtDiag == old(rmtDiag)
                    && rmtMinRx == old(rmtMinRx) && rmtMinTx == old(rmtMinTx))
              && (st != old(state) ==>
                    diag == if cpathDown then ConcatenatedPathDown else if st == Down then RemoteDown else old(diag))
      ensures minRx == if old(inDecay) && !inDecay then cfgMinRx else old(minRx)
      ensures Decay() == if state != old(state) && state.Up? && decayMinRx != 0
                         then NewDecay(decayMinRx, now, rxPackets) else old(Decay())
    {
      if state.AdminDown? {
        return;
      }
      if remote.AdminDown? {
        if !state.Down? {
          SetState(Down, RemoteDown, now, rxPackets);
        }
      } else {
        match state
        case Down =>
          if remote.Down? {
            SetState(Init, diag, now, rxPackets);
          } else if remote.Init? {
            SetState(Up, diag, now, rxPackets);
          }
        case Init =>
          if remote.Above(Down) {
            SetState(Up, diag, now, rxPackets);
          }
        case Up =>
          if !remote.Above(Down) {
            SetState(Down, RemoteDown, now, rxPackets);
          }
      }
    }

    /** Composes a control message. */
    method Send(now: int, random: nat) returns (m: Msg)
      requires Safe(View())
      modifies `final, `lastTx, `nextTx
      ensures Sent(old(View()), m, View()) && !(m.poll && m.final)
      ensures m.version == VERSION && m.diag == diag && m.mult == mult && m.length == PACKET_LEN
      ensures !m.auth && !m.multipoint
      ensures m.minTx == 1000 * (if poll then pollMinTx else MinTx())
      ensures m.minRx == 1000 * (if poll then pollMinRx else minRx)
      ensures !state.Up? ==> (m.minTx >= 1_000_000 <==> !poll || pollMinTx >= 1000)
      ensures lastTx == now && nextTx == now + Jittered(TxInterval(), mult, random)
      ensures TxInterval() >= 0 ==> now + 3 * TxInterval() / 4 <= nextTx <= now + TxInterval()
    {
      var tx, rx := if poll then pollMinTx else MinTx(), if poll then pollMinRx else minRx;
      m := Msg(VERSION, diag, state, poll, final, false, false, mult, PACKET_LEN, disc, rmtDisc, tx * 1000, rx * 1000);
      final := false;
      lastTx := now;
      SetNextTx(random);
    }

    /** The session goes down if it has not heard from its peer in time. */
    method Expire(now: int, rxPackets: int)
      modifies `state, `diag, `rmtState, `rmtDiag, `rmtMinRx, `rmtDisc, `rmtMinTx, `minRx, `inDecay
      modifies `decayRxPackets, `decayRxCtl, `decayDetectTime
      ensures Decay() == old(Decay())
      ensures if old(state.Above(Down) && now >= detectTime) then
                && View() == WithState(old(View()), Down)
                && diag == if cpathDown then ConcatenatedPathDown else Expired
              else View() == old(View()) && diag == old(diag) && minRx == old(minRx)
    {
      if state.Above(Down) && now >= detectTime {
        SetState(Down, Expired, now, rxPackets);
      }
    }

    /** Decay is on while hardly more than control packets come in. */
    method TryDecay(now: int, rxPackets: int)
      modifies `inDecay, `decayRxPackets, `decayRxCtl, `decayDetectTime
      ensures inDecay <==> old(rxPackets - decayRxPackets <= 2 * Max(decayRxCtl, 1))
      ensures Decay() == NewDecay(decayMinRx, now, rxPackets)
    {
      inDecay := rxPackets - decayRxPackets <= 2 * Max(decayRxCtl, 1);
      DecayUpdate(now, rxPackets);
    }

    /** The periodic work. */
    method Run(now: int, rxPackets: int)
      modifies `state, `diag, `rmtState, `rmtDiag, `rmtMinRx, `rmtDisc, `rmtMinTx, `minRx, `inDecay
      modifies `decayRxPackets, `decayRxCtl, `decayDetectTime, `pollMinTx, `pollMinRx, `poll, `nextTx
      ensures Ran(old(View()), View())
      ensures old(state.Above(Down) && now >= detectTime) ==>
              state.Down? && rmtDisc == 0 && diag == if cpathDown then ConcatenatedPathDown else Expired
      ensures !old(state.Above(Down) && now >= detectTime) ==>
              state == old(state) && diag == old(diag) && rmtDisc == old(rmtDisc) && minRx == old(minRx)
      ensures poll && !old(poll) ==>
              pollMinTx == cfgMinTx && pollMinRx == (if inDecay then decayMinRx else cfgMinRx) && nextTx == 0
      ensures if old(state.Up? && now < detectTime && decayMinRx > 0 && now >= decayDetectTime) then
                && (inDecay <==> old(rxPackets - decayRxPackets <= 2 * Max(decayRxCtl, 1)))
                && Decay() == NewDecay(decayMinRx, now, rxPackets)
              else inDecay == (state == old(state) && old(inDecay)) && Decay() == old(Decay())
      ensures minTx != cfgMinTx || (minRx != cfgMinRx && minRx != decayMinRx) || inDecay != old(inDecay) ==>
              poll || final || !state.Above(Down)
    {
      hide Max, Ran, NewDecay;
      var wasDecay := inDecay;
      Expire(now, rxPackets);
      ghost var c1 := View();
      if state.Up? && decayMinRx > 0 && now >= decayDetectTime {
        TryDecay(now, rxPackets);
      }
      ghost var c2 := View();
      if minTx != cfgMinTx || (minRx != cfgMinRx && minRx != decayMinRx) || inDecay != wasDecay {
        Poll();
      }
      RanBy(old(View()), c1, c2, View());
    }

    method SetIntervals(newMinTx: int, newMinRx: int, newDecay: int, now: int, rxPackets: int) returns (changed: bool)
      modifies `cfgMinTx, `cfgMinRx, `minTx, `minRx, `decayMinRx, `inDecay, `decayRxPackets, `decayRxCtl
      modifies `decayDetectTime
      ensures cfgMinTx == Max(newMinTx, 1) && cfgMinRx == Max(newMinRx, 1)
      ensures !changed ==> unchanged(this)
      ensures changed <==> cfgMinTx != old(cfgMinTx) || cfgMinRx != old(cfgMinRx) || newDecay != old(decayMinRx)
      ensures minTx == if old(cfgMinTx) != cfgMinTx && (!state.Up? || (!poll && cfgMinTx < old(minTx)))
                       then cfgMinTx else old(minTx)
      ensures minRx == if old(cfgMinRx) != cfgMinRx && (!state.Up? || (!poll && cfgMinRx > old(minRx)))
                       then cfgMinRx else old(minRx)
      ensures if newDecay != old(decayMinRx) || cfgMinRx != old(cfgMinRx) then
                && decayMinRx == (if 0 < newDecay < cfgMinRx then 0 else newDecay) && !inDecay
                && Decay() == NewDecay(decayMinRx, now, rxPackets)
              else decayMinRx == old(decayMinRx) && inDecay == old(inDecay) && Decay() == old(Decay())
    {
      hide Max;
      changed := false;
      var rxChanged := false;
      var tx := Max(newMinTx, 1);
      if cfgMinTx != tx {
        cfgMinTx := tx;
        if !state.Up? || (!poll && cfgMinTx < minTx) {
          minTx := cfgMinTx;
        }
        changed := true;
      }
      var rx := Max(newMinRx, 1);
      if cfgMinRx != rx {
        cfgMinRx := rx;
        if !state.Up? || (!poll && cfgMinRx > minRx) {
          minRx := cfgMinRx;
        }
        rxChanged, changed := true, true;
      }
      if decayMinRx != newDecay || rxChanged {
        decayMinRx := if newDecay > 0 && newDecay < cfgMinRx then 0 else newDecay;
        inDecay := false;
        DecayUpdate(now, rxPackets);
        changed := true;
      }
    }

    method ChangePath(newCpathDown: bool, now: int, rxPackets: int) returns (changed: bool)
      modifies `state, `diag, `rmtState, `rmtDiag, `rmtMinRx, `rmtDisc, `rmtMinTx, `minRx, `inDecay
      modifies `cpathDown, `decayRxPackets, `decayRxCtl, `decayDetectTime
      ensures View() == old(View()) || View() == WithState(old(View()), old(state))
      ensures cpathDown == newCpathDown && (changed <==> newCpathDown != old(cpathDown))
      ensures changed ==> diag == if cpathDown then ConcatenatedPathDown else NoDiag
      ensures !changed ==> unchanged(this)
    {
      changed := cpathDown != newCpathDown;
      if changed {
        cpathDown := newCpathDown;
        SetState(state, NoDiag, now, rxPackets);
      }
    }

    /** Takes over a configuration. */
    method Configure(newMult: int, newMinTx: int, newMinRx: int, newDecay: int, newCpathDown: bool, now: int,
                     rxPackets: int)
      modifies this
      ensures Configured(old(View()), View())
      ensures mult == if 1 <= newMult <= 255 then newMult else DEFAULT_MULT
      ensures cfgMinTx == Max(newMinTx, 1) && cfgMinRx == Max(newMinRx, 1) && cpathDown == newCpathDown
      ensures if cfgMinTx == old(cfgMinTx) && cfgMinRx == old(cfgMinRx) && newDecay == old(decayMinRx) &&
                 cpathDown == old(cpathDown)
              then View() == old(View()) && decayMinRx == newDecay
              else poll || final || !state.Above(Down)
      ensures poll && !old(poll) ==> pollMinTx == cfgMinTx && pollMinRx == if inDecay then decayMinRx else cfgMinRx
    {
      hide Configured, MayPoll, Max, Safe, WithState, NewDecay, Decay;
      mult := if newMult < 1 || newMult > 255 then DEFAULT_MULT else newMult;
      var needPoll := SetIntervals(newMinTx, newMinRx, newDecay, now, rxPackets);
      ghost var c1 := View();
      var pathChanged := ChangePath(newCpathDown, now, rxPackets);
      ghost var c2 := View();
      if needPoll || pathChanged {
        Poll();
      }
      ConfiguredBy(old(View()), c1, c2, View());
    }
  }

  /** A session configured for a packet a second, in Init on a first packet from the
      peer, and then configured for five: the packet it sends asks for five. */
  method PollBeforeUp() returns (m: Msg)
    ensures m.state == Init && m.poll && m.minTx == 200_000
  {
    var s := new Session(1);
    s.Configure(DEFAULT_MULT, 1000, 1000, 0, false, 0, 0);
    var down := Msg(VERSION, NoDiag, Down, false, false, false, false, DEFAULT_MULT, PACKET_LEN, 2, 0,
                    1_000_000, 1_000_000);
    s.Receive(255, Some(down), 0, 0, 0);
    s.Configure(DEFAULT_MULT, 200, 1000, 0, false, 0, 0);
    m := s.Send(0, 0);
  }

  // ------------------------------------------------------------------ two parties

  /** One side: its session, everything it ever sent, the discriminators of all
      its incarnations, and those of the packets it has processed. */
  datatype Side = Side(core: Core, sent: seq<Msg>, mine: set<nat>, processed: set<nat>)

  /** A step of one side; the network delivers any packet the peer has ever sent,
      so packets may be lost, repeated, delayed and reordered. */
  datatype Step =
    | Transmit(m: Msg, core: Core)
    | Deliver(i: nat, core: Core)
    | Timers(core: Core)
    | Reconfigure(core: Core)
    | Restart(disc: nat)

  ghost predicate CanStep(a: Side, b: Side, step: Step)
  {
    match step
    case Transmit(m, core) => Sent(a.core, m, core)
    case Deliver(i, core) => i < |b.sent| && Received(a.core, b.sent[i], core)
    case Timers(core) => Ran(a.core, core)
    case Reconfigure(core) => Configured(a.core, core)
    case Restart(disc) => disc != 0
  }

  ghost function StepTo(a: Side, b: Side, step: Step): Side
    requires CanStep(a, b, step)
  {
    match step
    case Transmit(m, core) => a.(core := core, sent := a.sent + [m])
    case Deliver(i, core) =>
      a.(core := core, processed := a.processed + if Accepts(a.core, b.sent[i]) then {b.sent[i].myDisc} else {})
    case Timers(core) => a.(core := core)
    case Reconfigure(core) => a.(core := core)
    case Restart(disc) => a.(core := Core(Down, disc, 0, false, false, false), mine := a.mine + {disc})
  }

  /** A side tells its peer only what it has heard, and a session that is up has
      been heard by the peer, which answered it. */
  ghost predicate Grounded(a: Side, b: Side)
  {
    && Safe(a.core) && a.core.disc in a.mine
    && (a.core.rmtDisc != 0 ==> a.core.rmtDisc in a.processed)
    && (forall i | 0 <= i < |a.sent| :: a.sent[i].myDisc in a.mine)
    && (forall i | 0 <= i < |a.sent| && a.sent[i].yourDisc != 0 :: a.sent[i].yourDisc in a.processed)
    && (a.core.state.Up? ==> a.core.disc in b.processed)
  }

  /** Whatever a side has processed the peer has sent. */
  ghost predicate Genuine(a: Side, b: Side)
  {
    forall d | d in a.processed :: exists i | 0 <= i < |b.sent| :: b.sent[i].myDisc == d
  }

  ghost predicate BothOk(a: Side, b: Side)
  {
    Grounded(a, b) && Grounded(b, a) && Genuine(a, b) && Genuine(b, a)
  }

  lemma StepKeeps(a: Side, b: Side, step: Step)
    requires BothOk(a, b) && CanStep(a, b, step)
    ensures BothOk(StepTo(a, b, step), b)
  {
    var a' := StepTo(a, b, step);
    StepGrounded(a, b, step);
    StepGenuine(a, b, step);
    assert Grounded(b, a') by {
      assert a.processed <= a'.processed;
    }
  }

  lemma StepGrounded(a: Side, b: Side, step: Step)
    requires BothOk(a, b) && CanStep(a, b, step)
    ensures Grounded(StepTo(a, b, step), b)
  {
    match step
    case Transmit(m, core) => StepsAreSafe(a.core, m, core);
    case Deliver(i, core) =>
      StepsAreSafe(a.core, b.sent[i], core);
      EnterUp(a.core, b.sent[i], core);
    case Timers(core) => RanOrConfigured(a.core, core);
    case Reconfigure(core) => RanOrConfigured(a.core, core);
    case Restart(disc) =>
  }

  lemma RanOrConfigured(c: Core, c': Core)
    requires Safe(c) && (Ran(c, c') || Configured(c, c'))
    ensures Safe(c') && c'.disc == c.disc && (c'.rmtDisc == 0 || c'.rmtDisc == c.rmtDisc)
    ensures c'.state.Up? ==> c.state.Up?
  {
  }

  /** A session comes up only on a packet that names it. */
  lemma EnterUp(c: Core, m: Msg, c': Core)
    requires Safe(c) && Received(c, m, c')
    ensures c'.state.Up? && !c.state.Up? ==> m.yourDisc == c.disc && m.state.Above(Down)
    ensures c'.rmtDisc != 0 && c'.rmtDisc != c.rmtDisc ==> Accepts(c, m) && c'.rmtDisc == m.myDisc
  {
  }

  lemma StepGenuine(a: Side, b: Side, step: Step)
    requires BothOk(a, b) && CanStep(a, b, step)
    ensures Genuine(StepTo(a, b, step), b) && Genuine(b, StepTo(a, b, step))
  {
    var a' := StepTo(a, b, step);
    forall d | d in b.processed ensures exists i | 0 <= i < |a'.sent| :: a'.sent[i].myDisc == d {
      var i :| 0 <= i < |a.sent| && a.sent[i].myDisc == d;
      assert a'.sent[i].myDisc == d;
    }
  }

  /** A run of the two: which side moves, and how. */
  ghost predicate Runs(a: Side, b: Side, steps: seq<(bool, Step)>, a': Side, b': Side)
    decreases |steps|
  {
    if steps == [] then a' == a && b' == b
    else if steps[0].0 then CanStep(a, b, steps[0].1) && Runs(StepTo(a, b, steps[0].1), b, steps[1..], a', b')
    else CanStep(b, a, steps[0].1) && Runs(a, StepTo(b, a, steps[0].1), steps[1..], a', b')
  }

  lemma {:induction false} RunKeeps(a: Side, b: Side, steps: seq<(bool, Step)>, a': Side, b': Side)
    requires BothOk(a, b) && Runs(a, b, steps, a', b')
    ensures BothOk(a', b')
    decreases |steps|
  {
    if steps != [] {
      hide BothOk, Grounded, Genuine, CanStep, StepTo;
      if steps[0].0 {
        StepKeeps(a, b, steps[0].1);
        RunKeeps(StepTo(a, b, steps[0].1), b, steps[1..], a', b');
      } else {
        Swap(a, b);
        StepKeeps(b, a, steps[0].1);
        Swap(StepTo(b, a, steps[0].1), a);
        RunKeeps(a, StepTo(b, a, steps[0].1), steps[1..], a', b');
      }
    }
  }

  lemma Swap(a: Side, b: Side)
    requires BothOk(a, b)
    ensures BothOk(b, a)
  {
  }

  ghost predicate New(a: Side)
  {
    a.core.disc != 0 && a == Side(Core(Down, a.core.disc, 0, false, false, false), [], {a.core.disc}, {})
  }

  /** In every run of two sessions, from the start: both are safe, and one that is
      up has, under its discriminator, sent a packet that its peer has processed. */
  lemma UpIsHeard(a: Side, b: Side, steps: seq<(bool, Step)>, a': Side, b': Side)
    requires New(a) && New(b) && Runs(a, b, steps, a', b')
    ensures Safe(a'.core) && Safe(b'.core)
    ensures a'.core.state.Up? ==>
            a'.core.disc in b'.processed && exists i | 0 <= i < |a'.sent| :: a'.sent[i].myDisc == a'.core.disc
    ensures b'.core.state.Up? ==>
            b'.core.disc in a'.processed && exists i | 0 <= i < |b'.sent| :: b'.sent[i].myDisc == b'.core.disc
  {
    RunKeeps(a, b, steps, a', b');
  }
}

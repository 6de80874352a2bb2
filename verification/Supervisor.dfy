/** The VPN supervisor (internal/service/cisco.go): one class whose methods are
    proved against functions of its state and the answers it gets. */
module Supervisor {
  import opened Basics
  import opened Addr
  import opened ServiceState
  import opened Clients
  import opened Pinner
  import opened Cisco

  const POLL_INTERVAL := 5 * SECOND
  const MAX_CONNECT_DELAY := 60 * SECOND
  const RECONNECT_GRACE := 120 * SECOND

  /** What `route.DetectLAN` reports: a failure, or an interface and its address. */
  datatype Detection = NotFound | Found(ifaddr: IfAddr, iface: string)

  /** Everything one tick learns from outside: the detection, the status answer
      (None: the command failed), the answer to "connect", whether the context was
      cancelled meanwhile, whether a forced disconnect and `pfctl -d` succeed, and
      the clock when a reconnect starts being timed and when it is measured. */
  datatype Answers = Answers(
    detection: Detection,
    status: Option<VpnState>,
    connect: ConnectAnswer,
    cancelled: bool,
    disconnectOk: bool,
    pfOk: bool,
    began: int,
    measured: int
  )

  predicate ValidAnswers(a: Answers) {
    (a.detection.Found? ==> a.detection.ifaddr.ones <= 32) && a.began <= a.measured
  }

  /** The supervisor's fields and the State it writes. */
  datatype Sup = Sup(
    st: State,
    pendingLan: LanSnapshot,
    reconnectingSince: Option<int>,
    connectDelay: int,
    readyNotified: bool,
    connectedByUs: bool
  )

  const START := Sup(INITIAL, NO_LAN, None, POLL_INTERVAL, false, false)

  // ----- LAN detection

  function NextLan(d: Detection): LanSnapshot
    requires d.Found?
  {
    LanSnapshot(Masked(d.ifaddr), d.iface)
  }

  /** A changed LAN is applied at once when none is known, else on its second sighting in a row. */
  predicate Confirmed(pending: LanSnapshot, cur: LanSnapshot, next: LanSnapshot) {
    LanChanged(cur, next) && (cur.iface == "" || pending == next)
  }

  function PendingAfter(pending: LanSnapshot, cur: LanSnapshot, next: LanSnapshot): LanSnapshot {
    if LanChanged(cur, next) && !Confirmed(pending, cur, next) then next else NO_LAN
  }

  /** The interface address `addr` was detected on LAN `next`. */
  function AfterSighting(s: Sup, next: LanSnapshot, addr: Addr): Sup {
    var cur := Lan(s.st);
    s.(pendingLan := PendingAfter(s.pendingLan, cur, next),
       st := if Confirmed(s.pendingLan, cur, next)
             then s.st.(lanSubnet := next.subnet, lanAddr := Some(addr), lanIface := next.iface)
             else if next == cur then s.st.(lanAddr := Some(addr))
             else s.st)
  }

  predicate LanApplied(s: Sup, d: Detection) {
    d.Found? && Confirmed(s.pendingLan, Lan(s.st), NextLan(d))
  }

  function AfterDetect(s: Sup, d: Detection): Sup {
    if d.NotFound? then s.(pendingLan := NO_LAN) else AfterSighting(s, NextLan(d), d.ifaddr.addr)
  }

  // ----- the VPN

  function WithConnected(st: State, connected: bool): State {
    st.(ciscoConnected := connected, pfDisabled := connected && st.pfDisabled)
  }

  function Since(s: Sup, a: Answers): int {
    if s.reconnectingSince.Some? then s.reconnectingSince.value else a.began
  }

  /** The agent is stuck past the grace period. */
  predicate Stuck(s: Sup, a: Answers) {
    a.measured - Since(s, a) > RECONNECT_GRACE
  }

  function AfterReconnecting(s: Sup, a: Answers): Sup {
    s.(st := WithConnected(s.st, false),
       reconnectingSince := if Stuck(s, a) && a.disconnectOk then None else Some(Since(s, a)))
  }

  /** A failed connect that lengthens the backoff. */
  predicate CountedFailure(a: Answers) {
    Connect(a.connect) == ConnectFailed && !a.cancelled
  }

  function AfterConnect(s: Sup, a: Answers): Sup {
    if Connect(a.connect) == Established
    then s.(st := WithConnected(s.st, true), connectDelay := POLL_INTERVAL, connectedByUs := true)
    else if CountedFailure(a)
    then s.(connectDelay := if 2 * s.connectDelay < MAX_CONNECT_DELAY then 2 * s.connectDelay else MAX_CONNECT_DELAY)
    else s
  }

  function AfterDown(s: Sup, a: Answers): Sup {
    AfterConnect(s.(reconnectingSince := None, st := WithConnected(s.st, false)), a)
  }

  function AfterStatus(s: Sup, a: Answers): Sup {
    match a.status
    case None => s
    case Some(Connected) =>
      s.(connectDelay := POLL_INTERVAL, reconnectingSince := None, st := WithConnected(s.st, true))
    case Some(Reconnecting) => AfterReconnecting(s, a)
    case Some(_) => AfterDown(s, a)
  }

  /** With the VPN up the packet filter is disabled once and readiness is announced once. */
  function AfterReady(s: Sup, a: Answers): Sup {
    if s.st.ciscoConnected
    then s.(st := s.st.(pfDisabled := s.st.pfDisabled || a.pfOk), readyNotified := true)
    else s
  }

  function AfterTick(s: Sup, a: Answers): Sup {
    AfterReady(AfterStatus(AfterDetect(s, a.detection), a), a)
  }

  /** The tick issues "vpn -s connect". */
  predicate IssuesConnect(a: Answers) {
    a.status == Some(Disconnected) || a.status == Some(Unknown)
  }

  /** The tick issues "vpn -s disconnect" against a stuck agent. */
  predicate ForcesDisconnect(s: Sup, a: Answers) {
    a.status == Some(Reconnecting) && Stuck(s, a)
  }

  function TickDelay(s: Sup, a: Answers): int {
    if IssuesConnect(a) && CountedFailure(a) then s.connectDelay else POLL_INTERVAL
  }

  /** Commands sent to the agent. */
  datatype Command = DoConnect | DoDisconnect

  function Sent(s: Sup, a: Answers): seq<Command> {
    if IssuesConnect(a) then [DoConnect] else if ForcesDisconnect(s, a) then [DoDisconnect] else []
  }

  class CiscoSupervisor {
    const s: Service
    var pendingLan: LanSnapshot
    var reconnectingSince: Option<int>
    var connectDelay: int
    var readyNotified: bool
    var connectedByUs: bool
    var lanCheck: bool          // the one-slot channel to the LAN listener's owner
    var ciscoReady: bool        // closed
    var commands: seq<Command>  // sent so far

    ghost predicate Valid()
      reads this
    {
      ciscoReady == readyNotified
    }

    ghost function View(): Sup
      reads this, s
    {
      Sup(s.status, pendingLan, reconnectingSince, connectDelay, readyNotified, connectedByUs)
    }

    constructor (s: Service)
      ensures Valid() && this.s == s && commands == [] && !lanCheck
      ensures View() == START.(st := s.status)
    {
      this.s := s;
      pendingLan, reconnectingSince, connectDelay := NO_LAN, None, POLL_INTERVAL;
      readyNotified, connectedByUs := false, false;
      lanCheck, ciscoReady, commands := false, false, [];
    }

    method ConfirmLan(cur: LanSnapshot, next: LanSnapshot) returns (ok: bool)
      modifies this`pendingLan
      ensures ok <==> Confirmed(old(pendingLan), cur, next)
      ensures pendingLan == PendingAfter(old(pendingLan), cur, next)
    {
      if !LanChanged(cur, next) {
        pendingLan := NO_LAN;
        return false;
      }
      if cur.iface != "" && pendingLan != next {
        pendingLan := next;
        return false;
      }
      pendingLan := NO_LAN;
      return true;
    }

    method DetectLan(d: Detection)
      modifies this`pendingLan, this`lanCheck, s`status, s.clients
      ensures View() == AfterDetect(old(View()), d)
      ensures s.clients.clients == if LanApplied(old(View()), d) && old(s.status).lanIface != ""
                                   then ResetNetwork(old(s.clients.clients)) else old(s.clients.clients)
      ensures lanCheck == (old(lanCheck) || LanApplied(old(View()), d))
    {
      var cur := Lan(s.status);
      if d.NotFound? {
        pendingLan := NO_LAN;
        return;
      }
      var next := LanSnapshot(Masked(d.ifaddr), d.iface);
      var confirmed := ConfirmLan(cur, next);
      if !confirmed {
        if next == cur {
          s.status := s.status.(lanAddr := Some(d.ifaddr.addr));
        }
        return;
      }
      if cur.iface != "" {
        s.clients.ForgetNetwork();
      }
      s.status := s.status.(lanSubnet := next.subnet, lanAddr := Some(d.ifaddr.addr), lanIface := d.iface);
      lanCheck := true;
    }

    method SetConnected(connected: bool)
      modifies s`status
      ensures s.status == WithConnected(old(s.status), connected)
    {
      s.status := s.status.(ciscoConnected := connected);
      if !connected {
        s.status := s.status.(pfDisabled := false);
      }
    }

    method AwaitReconnect(a: Answers)
      modifies this`reconnectingSince, this`commands
      ensures reconnectingSince == if Stuck(old(View()), a) && a.disconnectOk then None else Some(Since(old(View()), a))
      ensures commands == old(commands) + if Stuck(old(View()), a) then [DoDisconnect] else []
    {
      if reconnectingSince.None? {
        reconnectingSince := Some(a.began);
      }
      var elapsed := a.measured - reconnectingSince.value;
      if elapsed <= RECONNECT_GRACE {
        return;
      }
      commands := commands + [DoDisconnect];
      if !a.disconnectOk {
        return;
      }
      reconnectingSince := None;
    }

    method ConnectVpn(a: Answers) returns (delay: int)
      modifies this`connectDelay, this`connectedByUs, this`commands, s`status
      ensures View() == AfterConnect(old(View()), a)
      ensures delay == if CountedFailure(a) then old(connectDelay) else POLL_INTERVAL
      ensures commands == old(commands) + [DoConnect]
    {
      commands := commands + [DoConnect];
      match Connect(a.connect) {
        case Acquired =>
        case ConnectFailed =>
          if a.cancelled {
            return POLL_INTERVAL;
          }
          delay := connectDelay;
          connectDelay := if connectDelay * 2 < MAX_CONNECT_DELAY then connectDelay * 2 else MAX_CONNECT_DELAY;
          return delay;
        case Established =>
          connectDelay := POLL_INTERVAL;
          connectedByUs := true;
          SetConnected(true);
      }
      return POLL_INTERVAL;
    }

    method DisablePf(ok: bool)
      modifies s`status
      ensures s.status == old(s.status).(pfDisabled := old(s.status).pfDisabled || ok)
    {
      if s.status.pfDisabled || !ok {
        return;
      }
      s.status := s.status.(pfDisabled := true);
    }

    /** Closing a closed channel panics. */
    method CloseReady()
      requires !ciscoReady
      modifies this`ciscoReady
      ensures ciscoReady
    {
      ciscoReady := true;
    }

    /** The switch over the status answer. */
    method HandleStatus(a: Answers) returns (delay: int)
      modifies this`connectDelay, this`connectedByUs, this`reconnectingSince, this`commands, s`status
      ensures View() == AfterStatus(old(View()), a)
      ensures delay == TickDelay(old(View()), a)
      ensures commands == old(commands) + Sent(old(View()), a)
    {
      delay := POLL_INTERVAL;
      match a.status {
        case None =>
        case Some(Connected) =>
          connectDelay := POLL_INTERVAL;
          reconnectingSince := None;
          SetConnected(true);
        case Some(Reconnecting) =>
          SetConnected(false);
          AwaitReconnect(a);
        case Some(_) =>
          reconnectingSince := None;
          SetConnected(false);
          delay := ConnectVpn(a);
      }
    }

    method Tick(a: Answers) returns (delay: int)
      requires Valid()
      modifies this, s`status, s.clients
      ensures Valid()
      ensures View() == AfterTick(old(View()), a)
      ensures delay == TickDelay(old(View()), a)
      ensures commands == old(commands) + Sent(old(View()), a)
      ensures s.clients.clients == if LanApplied(old(View()), a.detection) && old(s.status).lanIface != ""
                                   then ResetNetwork(old(s.clients.clients)) else old(s.clients.clients)
      ensures lanCheck == (old(lanCheck) || LanApplied(old(View()), a.detection))
    {
      DetectLan(a.detection);
      delay := HandleStatus(a);
      if s.status.ciscoConnected {
        DisablePf(a.pfOk);
        if !readyNotified {
          CloseReady();
          readyNotified := true;
        }
      }
    }

    method Shutdown()
      modifies this`commands, s`status
      ensures s.status == WithConnected(old(s.status), false)
      ensures commands == old(commands) + if connectedByUs then [DoDisconnect] else []
    {
      SetConnected(false);
      if !connectedByUs {
        return;
      }
      commands := commands + [DoDisconnect];
    }
  }
}

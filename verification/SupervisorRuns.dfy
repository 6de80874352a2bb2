/** The supervisor over arbitrary histories of answers. */
module SupervisorRuns {
  import opened Basics
  import opened Bits
  import opened Addr
  import opened ServiceState
  import opened Clients
  import opened Pinner
  import opened Cisco
  import opened Supervisor
  import opened Network

  function After(h: seq<Answers>): Sup {
    if h == [] then START else AfterTick(After(h[..|h| - 1]), h[|h| - 1])
  }

  predicate ValidHistory(h: seq<Answers>) {
    forall i | 0 <= i < |h| :: ValidAnswers(h[i])
  }

  /** Clock readings never go back. */
  predicate Monotone(h: seq<Answers>) {
    forall i, j | 0 <= i < j < |h| :: h[i].measured <= h[j].began
  }

  /** Detection writes the LAN fields alone. */
  lemma SightingFrame(s: Sup, next: LanSnapshot, addr: Addr)
    ensures var s' := AfterSighting(s, next, addr);
            s' == s.(pendingLan := s'.pendingLan,
                     st := s.st.(lanSubnet := s'.st.lanSubnet, lanAddr := s'.st.lanAddr, lanIface := s'.st.lanIface))
  {
  }

  lemma DetectFrame(s: Sup, d: Detection)
    ensures var s' := AfterDetect(s, d);
            s' == s.(pendingLan := s'.pendingLan,
                     st := s.st.(lanSubnet := s'.st.lanSubnet, lanAddr := s'.st.lanAddr, lanIface := s'.st.lanIface))
  {
    if d.Found? {
      SightingFrame(s, NextLan(d), d.ifaddr.addr);
    }
  }

  /** The rest of a tick leaves the LAN fields alone. */
  lemma StatusFrame(s: Sup, a: Answers)
    ensures var s' := AfterReady(AfterStatus(s, a), a);
            Lan(s'.st) == Lan(s.st) && s'.st.lanAddr == s.st.lanAddr && s'.pendingLan == s.pendingLan
  {
    StatusKeepsLan(s, a);
  }

  lemma StatusKeepsLan(s: Sup, a: Answers)
    ensures var s' := AfterStatus(s, a);
            Lan(s'.st) == Lan(s.st) && s'.st.lanAddr == s.st.lanAddr && s'.pendingLan == s.pendingLan
  {
  }

  // ----- debounce

  /** A usable detection: it names an interface. */
  function Sighting(a: Answers): Option<LanSnapshot> {
    if a.detection.Found? && a.detection.iface != "" then Some(NextLan(a.detection)) else None
  }

  function Previous(h: seq<Answers>): Option<LanSnapshot> {
    if h == [] then None else Sighting(h[|h| - 1])
  }

  /** The LAN as a function of each detection and the one before it. */
  function DebouncedLan(h: seq<Answers>): LanSnapshot {
    if h == [] then NO_LAN
    else
      var before, cur, seen := h[..|h| - 1], DebouncedLan(h[..|h| - 1]), Sighting(h[|h| - 1]);
      if seen.Some? && (cur.iface == "" || Previous(before) == seen) then seen.value else cur
  }

  /** The pending change is the last sighting when it differs from the LAN in use. */
  lemma {:induction false} Debounce(h: seq<Answers>)
    ensures Lan(After(h).st) == DebouncedLan(h)
    ensures After(h).pendingLan ==
              if Previous(h).Some? && Previous(h).value != DebouncedLan(h) then Previous(h).value else NO_LAN
  {
    if h != [] {
      Debounce(h[..|h| - 1]);
      DebounceStep(After(h[..|h| - 1]), h[|h| - 1]);
    }
  }

  lemma DebounceStep(s: Sup, a: Answers)
    ensures var s', seen := AfterTick(s, a), Sighting(a);
            Lan(s'.st) == (if seen.Some? && seen.value != Lan(s.st)
                              && (Lan(s.st).iface == "" || s.pendingLan == seen.value)
                           then seen.value else Lan(s.st))
            && s'.pendingLan == (if seen.Some? && seen.value != Lan(s'.st) then seen.value else NO_LAN)
  {
    StatusFrame(AfterDetect(s, a.detection), a);
    if a.detection.Found? {
      SightingStep(s, NextLan(a.detection), a.detection.ifaddr.addr);
    }
  }

  lemma SightingStep(s: Sup, next: LanSnapshot, addr: Addr)
    ensures var s' := AfterSighting(s, next, addr);
            Lan(s'.st) == (if next.iface != "" && next != Lan(s.st) && (Lan(s.st).iface == "" || s.pendingLan == next)
                           then next else Lan(s.st))
            && s'.pendingLan == (if next.iface != "" && next != Lan(s'.st) then next else NO_LAN)
  {
  }

  /** A one-tick blip never applies; two equal sightings in a row always do. */
  lemma BlipsAndChanges(h: seq<Answers>, a: Answers)
    ensures Sighting(a).Some? && Previous(h) == Sighting(a) ==> Lan(After(h + [a]).st) == Sighting(a).value
    ensures DebouncedLan(h).iface != "" && Previous(h) != Sighting(a) ==> Lan(After(h + [a]).st) == Lan(After(h).st)
  {
    assert (h + [a])[..|h|] == h;
    Debounce(h);
    Debounce(h + [a]);
  }

  // ----- our own address

  lemma {:induction false} OwnAddressTracksLan(h: seq<Answers>)
    requires ValidHistory(h)
    ensures LanOk(After(h).st)
  {
    if h != [] {
      var s, d := After(h[..|h| - 1]), h[|h| - 1].detection;
      OwnAddressTracksLan(h[..|h| - 1]);
      StatusFrame(AfterDetect(s, d), h[|h| - 1]);
      DetectKeepsLanOk(s, d);
    }
  }

  lemma DetectKeepsLanOk(s: Sup, d: Detection)
    requires LanOk(s.st) && (d.Found? ==> d.ifaddr.ones <= 32)
    ensures LanOk(AfterDetect(s, d).st)
  {
    if d.Found? {
      OwnAddressInSubnet(d.ifaddr);
    }
  }

  /** A detection does to State and registry exactly one event of the network model. */
  lemma DetectionIsNetworkEvent(cfg: Config, s: Sup, r: Registry, arp: ArpTable, d: Detection)
    requires LanOk(s.st) && (d.Found? ==> d.ifaddr.ones <= 32)
    ensures var w := World(r, arp, s.st);
            var r' := if LanApplied(s, d) && s.st.lanIface != "" then ResetNetwork(r) else r;
            var w' := World(r', arp, AfterDetect(s, d).st);
            if LanApplied(s, d) then
              ValidEvent(w, LanDetected(d.ifaddr, d.iface)) && Step(cfg, w, LanDetected(d.ifaddr, d.iface)) == w'
            else if d.Found? && NextLan(d) == Lan(s.st) then
              ValidEvent(w, OwnAddress(d.ifaddr.addr)) && Step(cfg, w, OwnAddress(d.ifaddr.addr)) == w'
            else w' == w
  {
    if d.Found? {
      OwnAddressInSubnet(d.ifaddr);
    }
  }

  // ----- reconnect grace

  /** Tick `n` of the history forces a disconnect. */
  predicate Forced(h: seq<Answers>, n: nat)
    requires n < |h|
  {
    ForcesDisconnect(After(h[..n]), h[n])
  }

  predicate Quiet(a: Answers) {
    a.status == None || a.status == Some(Reconnecting)
  }

  /** Tick `i` does not end a streak. */
  ghost predicate Calm(h: seq<Answers>, i: nat)
    requires i < |h|
  {
    Quiet(h[i]) && !(Forced(h, i) && h[i].disconnectOk)
  }

  /** The agent was Reconnecting at tick `m`; until tick `n` every status that succeeded
      said so too, and no forced disconnect succeeded. */
  ghost predicate Streak(h: seq<Answers>, m: nat, n: nat) {
    m <= n <= |h| && (m < |h| ==> h[m].status == Some(Reconnecting))
    && forall i | m <= i < n :: Calm(h, i)
  }

  /** `reconnectingSince` is the start of the longest streak that reaches tick `n`. */
  lemma {:induction false} SinceIsStreakStart(h: seq<Answers>, n: nat)
    requires n <= |h| && ValidHistory(h) && Monotone(h)
    ensures match After(h[..n]).reconnectingSince
            case None => forall m | 0 <= m < n :: !Streak(h, m, n)
            case Some(t) => (exists m :: 0 <= m < n && Streak(h, m, n) && h[m].began == t)
                            && forall m | 0 <= m < n && Streak(h, m, n) :: t <= h[m].began
  {
    if n > 0 {
      var k := n - 1;
      SinceIsStreakStart(h, k);
      assert h[..n][..k] == h[..k] && h[..n][k] == h[k];
      StreakMore(h, k);
      var s := After(h[..k]);
      SinceStep(s, h[k]);
      assert forall m | 0 <= m < n && Streak(h, m, n) :: m == k || Streak(h, m, k);
      assert s.reconnectingSince.None? ==> forall m | 0 <= m < n && Streak(h, m, n) :: m == k;
      if Calm(h, k) {
        if s.reconnectingSince.Some? {
          var m :| 0 <= m < k && Streak(h, m, k) && h[m].began == s.reconnectingSince.value;
          assert Streak(h, m, n);
          assert h[m].began <= h[m].measured <= h[k].began;
        } else if h[k].status.Some? {
          assert Streak(h, k, n);
        }
      }
    }
  }

  lemma SinceStep(s: Sup, a: Answers)
    ensures AfterTick(s, a).reconnectingSince ==
              if !Quiet(a) || (ForcesDisconnect(s, a) && a.disconnectOk) then None
              else if a.status.Some? then Some(Since(s, a)) else s.reconnectingSince
  {
    DetectFrame(s, a.detection);
    StatusSince(AfterDetect(s, a.detection), a);
  }

  lemma StatusSince(s: Sup, a: Answers)
    ensures AfterStatus(s, a).reconnectingSince ==
              if !Quiet(a) || (ForcesDisconnect(s, a) && a.disconnectOk) then None
              else if a.status.Some? then Some(Since(s, a)) else s.reconnectingSince
  {
  }

  lemma StreakMore(h: seq<Answers>, k: nat)
    requires k < |h|
    ensures forall m | 0 <= m < k :: Streak(h, m, k + 1) <==> Streak(h, m, k) && Calm(h, k)
    ensures Streak(h, k, k + 1) <==> h[k].status == Some(Reconnecting) && Calm(h, k)
  {
    forall m | 0 <= m < k ensures Streak(h, m, k + 1) <==> Streak(h, m, k) && Calm(h, k) {
      if Streak(h, m, k + 1) {
        assert Calm(h, k);
        assert forall i | m <= i < k :: Calm(h, i);
      }
      if Streak(h, m, k) && Calm(h, k) {
        assert forall i | m <= i < k + 1 :: Calm(h, i);
      }
    }
  }

  /** A disconnect is forced exactly on a Reconnecting tick whose streak began more
      than the grace period ago; failed statuses neither break nor start a streak. */
  lemma ForcedIff(h: seq<Answers>, n: nat)
    requires n < |h| && ValidHistory(h) && Monotone(h)
    ensures Forced(h, n) <==>
              h[n].status == Some(Reconnecting)
              && exists m :: 0 <= m <= n && Streak(h, m, n) && h[n].measured - h[m].began > 120 * SECOND
  {
    SinceIsStreakStart(h, n);
    var s := After(h[..n]);
    if h[n].status == Some(Reconnecting) {
      assert Streak(h, n, n);
      if s.reconnectingSince.Some? {
        var m :| 0 <= m < n && Streak(h, m, n) && h[m].began == s.reconnectingSince.value;
        assert h[m].began <= h[m].measured <= h[n].began;
      }
    }
  }

  // ----- backoff

  /** Counted failures since the last Connected answer or successful connect. */
  function Failures(h: seq<Answers>): nat {
    if h == [] then 0
    else
      var a, k := h[|h| - 1], Failures(h[..|h| - 1]);
      if a.status == Some(Connected) || (IssuesConnect(a) && Connect(a.connect) == Established) then 0
      else if IssuesConnect(a) && CountedFailure(a) then k + 1
      else k
  }

  function Backoff(k: nat): int {
    if 5 * SECOND * Pow2(k) < 60 * SECOND then 5 * SECOND * Pow2(k) else 60 * SECOND
  }

  /** min(5 s * 2^k, 60 s) after k counted failures. */
  lemma {:induction false} BackoffClosedForm(h: seq<Answers>)
    ensures After(h).connectDelay == Backoff(Failures(h))
  {
    if h == [] {
      assert Pow2(0) == 1;
    } else {
      BackoffClosedForm(h[..|h| - 1]);
      BackoffStep(After(h[..|h| - 1]), h[|h| - 1]);
      BackoffDoubles(Failures(h[..|h| - 1]));
    }
  }

  lemma BackoffDoubles(k: nat)
    ensures Backoff(k + 1) == if 2 * Backoff(k) < 60 * SECOND then 2 * Backoff(k) else 60 * SECOND
    ensures Backoff(0) == 5 * SECOND <= Backoff(k) <= 60 * SECOND
  {
    assert Pow2(k + 1) == 2 * Pow2(k) && Pow2(0) == 1;
    assert POLL_INTERVAL * Pow2(k + 1) == 2 * (POLL_INTERVAL * Pow2(k));
  }

  lemma BackoffStep(s: Sup, a: Answers)
    ensures AfterTick(s, a).connectDelay ==
              if a.status == Some(Connected) || OwnConnect(a) then POLL_INTERVAL
              else if IssuesConnect(a) && CountedFailure(a)
              then (if 2 * s.connectDelay < MAX_CONNECT_DELAY then 2 * s.connectDelay else MAX_CONNECT_DELAY)
              else s.connectDelay
  {
    DetectFrame(s, a.detection);
  }

  /** A counted failure waits exactly its backoff; every other tick waits 5 s. */
  lemma {:induction false} DelayOfTick(h: seq<Answers>, a: Answers)
    ensures TickDelay(After(h), a) ==
              if IssuesConnect(a) && CountedFailure(a) then Backoff(Failures(h)) else 5 * SECOND
    ensures 5 * SECOND <= TickDelay(After(h), a) <= 60 * SECOND
  {
    BackoffClosedForm(h);
    BackoffDoubles(Failures(h));
  }

  /** What a tick that issues connect makes of the agent's answer: a capability conflict,
      whatever the command's exit, and a cancelled context count as no failure; a failed
      command or a re-check that does not say Connected waits the current backoff and
      doubles it, up to a minute. */
  lemma ConnectOutcome(s: Sup, a: Answers)
    requires a.status == Some(Disconnected) || a.status == Some(Unknown)
    ensures var s', delay := AfterTick(s, a), TickDelay(s, a);
            if a.connect.acquired then
              delay == 5 * SECOND && s'.connectDelay == s.connectDelay
              && !s'.st.ciscoConnected && s'.connectedByUs == s.connectedByUs
            else if !a.connect.failed && a.connect.recheck == Some(Connected) then
              delay == 5 * SECOND && s'.connectDelay == 5 * SECOND && s'.st.ciscoConnected && s'.connectedByUs
            else
              !s'.st.ciscoConnected && s'.connectedByUs == s.connectedByUs
              && if a.cancelled then delay == 5 * SECOND && s'.connectDelay == s.connectDelay
                 else delay == s.connectDelay
                      && s'.connectDelay == if 2 * s.connectDelay < 60 * SECOND then 2 * s.connectDelay else 60 * SECOND
  {
    DetectFrame(s, a.detection);
    StatusOfConnect(AfterDetect(s, a.detection), a);
  }

  lemma StatusOfConnect(s: Sup, a: Answers)
    requires a.status == Some(Disconnected) || a.status == Some(Unknown)
    ensures var s' := AfterStatus(s, a);
            var up := !a.connect.acquired && !a.connect.failed && a.connect.recheck == Some(Connected);
            s'.st.ciscoConnected == up && s'.connectedByUs == (s.connectedByUs || up)
            && s'.connectDelay == if up then 5 * SECOND
                                  else if a.connect.acquired || a.cancelled then s.connectDelay
                                  else if 2 * s.connectDelay < 60 * SECOND then 2 * s.connectDelay
                                  else 60 * SECOND
  {
  }

  /** The commands of a tick: connect on Disconnected or Unknown, disconnect on a streak of
      Reconnecting that began more than two minutes ago, nothing else. */
  lemma CommandsOfTick(h: seq<Answers>, n: nat)
    requires n < |h| && ValidHistory(h) && Monotone(h)
    ensures Sent(After(h[..n]), h[n]) ==
              if h[n].status == Some(Disconnected) || h[n].status == Some(Unknown) then [DoConnect]
              else if h[n].status == Some(Reconnecting)
                      && (exists m :: 0 <= m <= n && Streak(h, m, n) && h[n].measured - h[m].began > 120 * SECOND)
              then [DoDisconnect] else []
  {
    ForcedIff(h, n);
    assert Forced(h, n) == ForcesDisconnect(After(h[..n]), h[n]);
  }

  /** An address renewed within the subnet is taken over and changes nothing else. */
  lemma RenewalKeepsLan(s: Sup, d: Detection)
    requires d.Found? && d.ifaddr.ones <= 32 && s.st.lanIface != "" && d.iface == s.st.lanIface
    requires s.st.lanSubnet.Prefix? && s.st.lanSubnet.ones == d.ifaddr.ones
    requires exists i: IfAddr ::
               i.ones == d.ifaddr.ones && s.st.lanSubnet == Masked(i) && Contains(Masked(i), d.ifaddr.addr)
    ensures AfterDetect(s, d).st == s.st.(lanAddr := Some(d.ifaddr.addr)) && !LanApplied(s, d)
  {
    var i: IfAddr :| i.ones == d.ifaddr.ones && s.st.lanSubnet == Masked(i) && Contains(Masked(i), d.ifaddr.addr);
    MaskedIff(i, d.ifaddr);
  }

  // ----- flags

  /** The last status answer that succeeded, the re-check inside connect included. */
  function LastAnswer(h: seq<Answers>): Option<VpnState> {
    if h == [] then None
    else
      var a := h[|h| - 1];
      if a.status.None? then LastAnswer(h[..|h| - 1])
      else if IssuesConnect(a) && !a.connect.acquired && !a.connect.failed && a.connect.recheck.Some?
      then a.connect.recheck
      else a.status
  }

  predicate OwnConnect(a: Answers) {
    IssuesConnect(a) && Connect(a.connect) == Established
  }

  /** CiscoConnected is the last answer; PFDisabled implies it; readiness was announced
      exactly if some tick ended connected; an own connect is remembered for shutdown. */
  lemma {:induction false} Flags(h: seq<Answers>)
    ensures var s := After(h);
            (s.st.ciscoConnected <==> LastAnswer(h) == Some(Connected))
            && (s.st.pfDisabled ==> s.st.ciscoConnected)
            && (s.readyNotified <==> exists n :: 0 < n <= |h| && LastAnswer(h[..n]) == Some(Connected))
            && (s.connectedByUs <==> exists i :: 0 <= i < |h| && OwnConnect(h[i]))
  {
    if h != [] {
      var n := |h| - 1;
      Flags(h[..n]);
      FlagsStep(After(h[..n]), h[n]);
      PrefixesOf(h);
      assert h[..|h|] == h;
      if i :| 0 <= i < n && OwnConnect(h[..n][i]) {
        assert OwnConnect(h[i]);
      }
      if i :| 0 <= i < |h| && OwnConnect(h[i]) {
        assert i == n || OwnConnect(h[..n][i]);
      }
    }
  }

  lemma FlagsStep(s: Sup, a: Answers)
    requires s.st.pfDisabled ==> s.st.ciscoConnected
    ensures var s' := AfterTick(s, a);
            (s'.st.ciscoConnected <==> if a.status.None? then s.st.ciscoConnected
                                       else a.status == Some(Connected) || OwnConnect(a))
            && (s'.st.pfDisabled ==> s'.st.ciscoConnected)
            && s'.readyNotified == (s.readyNotified || s'.st.ciscoConnected)
            && s'.connectedByUs == (s.connectedByUs || OwnConnect(a))
  {
    DetectFrame(s, a.detection);
    FlagsAfterStatus(AfterDetect(s, a.detection), a);
  }

  lemma FlagsAfterStatus(s: Sup, a: Answers)
    requires s.st.pfDisabled ==> s.st.ciscoConnected
    ensures var s' := AfterStatus(s, a);
            (s'.st.ciscoConnected <==> if a.status.None? then s.st.ciscoConnected
                                       else a.status == Some(Connected) || OwnConnect(a))
            && (s'.st.pfDisabled ==> s'.st.ciscoConnected)
            && s'.readyNotified == s.readyNotified
            && s'.connectedByUs == (s.connectedByUs || OwnConnect(a))
  {
  }

  lemma PrefixesOf(h: seq<Answers>)
    requires h != []
    ensures var n := |h| - 1;
            (exists k :: 0 < k <= |h| && LastAnswer(h[..k]) == Some(Connected)) <==>
            (exists k :: 0 < k <= n && LastAnswer(h[..n][..k]) == Some(Connected)) || LastAnswer(h) == Some(Connected)
  {
    var n := |h| - 1;
    assert h[..|h|] == h;
    assert forall k | 0 < k <= n :: h[..n][..k] == h[..k];
    if k :| 0 < k <= n && LastAnswer(h[..n][..k]) == Some(Connected) {
      assert LastAnswer(h[..k]) == Some(Connected);
    }
    if k :| 0 < k <= |h| && LastAnswer(h[..k]) == Some(Connected) {
      assert k == |h| || LastAnswer(h[..n][..k]) == Some(Connected);
    }
  }

  /** The tick did not see the VPN go away. */
  predicate NoLoss(a: Answers) {
    a.status == None || a.status == Some(Connected)
  }

  /** `pfctl -d` has succeeded at tick `i`, which ended connected, with no loss since. */
  ghost predicate PfOffSince(h: seq<Answers>, i: nat) {
    i < |h| && h[i].pfOk && After(h[..i + 1]).st.ciscoConnected && forall k | i < k < |h| :: NoLoss(h[k])
  }

  lemma PfAfterStatus(s: Sup, a: Answers)
    requires s.st.pfDisabled ==> s.st.ciscoConnected
    ensures AfterStatus(s, a).st.pfDisabled == (s.st.pfDisabled && NoLoss(a))
  {
  }

  lemma PfStep(s: Sup, a: Answers)
    requires s.st.pfDisabled ==> s.st.ciscoConnected
    ensures var s' := AfterTick(s, a);
            s'.st.pfDisabled == (s'.st.ciscoConnected && (a.pfOk || (s.st.pfDisabled && NoLoss(a))))
  {
    var d := AfterDetect(s, a.detection);
    DetectFrame(s, a.detection);
    PfAfterStatus(d, a);
    FlagsAfterStatus(d, a);
  }

  lemma PfOffKept(h: seq<Answers>, i: nat)
    requires i + 1 < |h|
    ensures var n := |h| - 1; PfOffSince(h, i) <==> PfOffSince(h[..n], i) && NoLoss(h[n])
  {
    var n := |h| - 1;
    var before := h[..n];
    assert before[..i + 1] == h[..i + 1] && before[i] == h[i];
    assert forall k | 0 <= k < n :: before[k] == h[k];
  }

  lemma PfOffNow(h: seq<Answers>)
    requires h != []
    ensures PfOffSince(h, |h| - 1) <==> h[|h| - 1].pfOk && After(h).st.ciscoConnected
  {
    assert h[..|h| - 1 + 1] == h;
  }

  lemma PfMore(h: seq<Answers>)
    requires h != []
    ensures var n := |h| - 1;
            After(h).st.pfDisabled <==>
            (h[n].pfOk && After(h).st.ciscoConnected) || (After(h[..n]).st.pfDisabled && NoLoss(h[n]))
  {
    var n := |h| - 1;
    Flags(h[..n]);
    PfStep(After(h[..n]), h[n]);
    FlagsStep(After(h[..n]), h[n]);
  }

  /** The packet filter counts as disabled exactly when it was disabled in the current
      connected window: Cisco enables it again on every reconnect. */
  lemma {:induction false} PfDisabledIff(h: seq<Answers>)
    ensures After(h).st.pfDisabled <==> exists i: nat :: PfOffSince(h, i)
  {
    if h != [] {
      var n := |h| - 1;
      PfDisabledIff(h[..n]);
      PfOffNow(h);
      PfMore(h);
      if After(h[..n]).st.pfDisabled && NoLoss(h[n]) {
        var i: nat :| PfOffSince(h[..n], i);
        PfOffKept(h, i);
      }
      if i: nat :| PfOffSince(h, i) && i < n {
        PfOffKept(h, i);
      }
    }
  }

  // ----- services start after the first connect

  /** Where startProxy or startDNS is: in the select on ciscoReady, about to listen,
      listening, or returned. */
  datatype ServicePc = AwaitingReady | Starting | Listening | Done

  datatype Served = ProxyServer | DnsServer

  /** The supervisor and the two services that wait for it. */
  datatype Host = Host(sup: Sup, proxy: ServicePc, dns: ServicePc)

  const BOOT := Host(START, AwaitingReady, AwaitingReady)

  /** A service leaves its select when ciscoReady is closed; it exits at any point when the
      context ends, or when it cannot listen or serve. */
  datatype Event = Ticks(a: Answers) | SeesReady(v: Served) | Listens(v: Served) | Exits(v: Served)

  function PcOf(h: Host, v: Served): ServicePc {
    match v
    case ProxyServer => h.proxy
    case DnsServer => h.dns
  }

  predicate StartedFlag(h: Host, v: Served) {
    match v
    case ProxyServer => h.sup.st.proxyStarted
    case DnsServer => h.sup.st.dnsStarted
  }

  predicate EventEnabled(h: Host, e: Event) {
    match e
    case Ticks(_) => true
    case SeesReady(v) => PcOf(h, v) == AwaitingReady && h.sup.readyNotified
    case Listens(v) => PcOf(h, v) == Starting
    case Exits(v) => PcOf(h, v) != Done
  }

  function Moved(h: Host, v: Served, pc: ServicePc): Host {
    match v
    case ProxyServer => h.(proxy := pc)
    case DnsServer => h.(dns := pc)
  }

  /** The service sets its flag. */
  function Flagged(h: Host, v: Served, started: bool): Host {
    match v
    case ProxyServer => h.(sup := h.sup.(st := h.sup.st.(proxyStarted := started)))
    case DnsServer => h.(sup := h.sup.(st := h.sup.st.(dnsStarted := started)))
  }

  function AfterEvent(h: Host, e: Event): Host {
    match e
    case Ticks(a) => h.(sup := AfterTick(h.sup, a))
    case SeesReady(v) => Moved(h, v, Starting)
    case Listens(v) => Moved(Flagged(h, v, true), v, Listening)
    case Exits(v) => Moved(Flagged(h, v, false), v, Done)
  }

  function AfterEvents(es: seq<Event>): Host {
    if es == [] then BOOT else AfterEvent(AfterEvents(es[..|es| - 1]), es[|es| - 1])
  }

  predicate EnabledRun(es: seq<Event>) {
    es == [] || (EnabledRun(es[..|es| - 1]) && EventEnabled(AfterEvents(es[..|es| - 1]), es[|es| - 1]))
  }

  ghost predicate ConnectedAt(es: seq<Event>, n: nat) {
    0 < n <= |es| && es[n - 1].Ticks? && AfterEvents(es[..n]).sup.st.ciscoConnected
  }

  lemma ConnectedAtStays(es: seq<Event>, n: nat)
    requires es != [] && ConnectedAt(es[..|es| - 1], n)
    ensures ConnectedAt(es, n)
  {
    assert es[..|es| - 1][..n] == es[..n];
  }

  /** The flag says that the service listens; past its select, ciscoReady is closed. */
  predicate ServiceOk(h: Host, v: Served) {
    (StartedFlag(h, v) <==> PcOf(h, v) == Listening)
    && (PcOf(h, v) == Starting || PcOf(h, v) == Listening ==> h.sup.readyNotified)
  }

  lemma EventKeepsService(h: Host, e: Event, v: Served)
    requires ServiceOk(h, v) && EventEnabled(h, e)
    ensures ServiceOk(AfterEvent(h, e), v)
  {
    if e.Ticks? {
      ServicesFrame(h.sup, e.a);
    }
  }

  lemma ReadyComesFromTick(h: Host, e: Event)
    ensures var h' := AfterEvent(h, e);
            h'.sup.readyNotified ==> h.sup.readyNotified || (e.Ticks? && h'.sup.st.ciscoConnected)
  {
    if e.Ticks? {
      ServicesFrame(h.sup, e.a);
    }
  }

  /** A service reports itself started exactly while it listens, and then some tick has
      ended connected before. */
  lemma {:induction false} StartedAfterConnect(es: seq<Event>, v: Served)
    requires EnabledRun(es)
    ensures ServiceOk(AfterEvents(es), v)
    ensures StartedFlag(AfterEvents(es), v) || AfterEvents(es).sup.readyNotified ==> exists n :: ConnectedAt(es, n)
  {
    if es != [] {
      var m := |es| - 1;
      StartedAfterConnect(es[..m], v);
      EventKeepsService(AfterEvents(es[..m]), es[m], v);
      ReadyComesFromTick(AfterEvents(es[..m]), es[m]);
      if AfterEvents(es[..m]).sup.readyNotified {
        var n :| ConnectedAt(es[..m], n);
        ConnectedAtStays(es, n);
      } else if AfterEvents(es).sup.readyNotified {
        assert es[..|es|] == es;
        assert ConnectedAt(es, |es|);
      }
    }
  }

  lemma ServicesFrame(s: Sup, a: Answers)
    ensures var s' := AfterTick(s, a);
            s'.st.proxyStarted == s.st.proxyStarted && s'.st.dnsStarted == s.st.dnsStarted
            && s'.readyNotified == (s.readyNotified || s'.st.ciscoConnected)
  {
    DetectFrame(s, a.detection);
    ServicesStatusFrame(AfterDetect(s, a.detection), a);
  }

  lemma ServicesStatusFrame(s: Sup, a: Answers)
    ensures var s' := AfterStatus(s, a);
            s'.st.proxyStarted == s.st.proxyStarted && s'.st.dnsStarted == s.st.dnsStarted
            && s'.readyNotified == s.readyNotified
  {
  }

  // ----- the whole run

  function AllSent(h: seq<Answers>): seq<Command> {
    if h == [] then [] else AllSent(h[..|h| - 1]) + Sent(After(h[..|h| - 1]), h[|h| - 1])
  }

  function AllDelays(h: seq<Answers>): seq<int> {
    if h == [] then [] else AllDelays(h[..|h| - 1]) + [TickDelay(After(h[..|h| - 1]), h[|h| - 1])]
  }

  /** `startCisco` until its context ends: the ticks, then the deferred shutdown, which
      disconnects exactly if an own connect succeeded. */
  method StartCisco(s: Service, h: seq<Answers>) returns (sv: CiscoSupervisor, delays: seq<int>)
    requires s.status == INITIAL
    modifies s`status, s.clients
    ensures fresh(sv) && sv.s == s && sv.Valid()
    ensures delays == AllDelays(h)
    ensures s.status == WithConnected(After(h).st, false)
    ensures sv.commands == AllSent(h) + if exists i :: 0 <= i < |h| && OwnConnect(h[i]) then [DoDisconnect] else []
  {
    sv := new CiscoSupervisor(s);
    delays := [];
    for i := 0 to |h|
      invariant fresh(sv) && sv.s == s && sv.Valid()
      invariant sv.View() == After(h[..i])
      invariant sv.commands == AllSent(h[..i]) && delays == AllDelays(h[..i])
    {
      assert h[..i + 1][..i] == h[..i] && h[..i + 1][i] == h[i];
      var delay := sv.Tick(h[i]);
      delays := delays + [delay];
    }
    assert h[..|h|] == h;
    Flags(h);
    sv.Shutdown();
  }
}

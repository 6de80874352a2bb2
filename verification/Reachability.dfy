/** What single ticks and hooks guarantee about registry and kernel together. */
module Reachability {
  import opened Basics
  import opened Mac
  import opened Addr
  import opened Route
  import opened ServiceState
  import opened Clients
  import opened Pinner

  predicate StoredMacs(r: Registry, arp: ArpTable) {
    (forall ip | ip in r :: CanonicalOrEmpty(r[ip].mac)) && (forall ip | ip in arp :: IsCanonical(arp[ip].mac))
  }

  /** Clients whose entry is gone or off the LAN interface, and that can be pinned. */
  function Drifted(r: Registry, arp: ArpTable, st: State): set<string> {
    set ip | ip in r && Eligible(st, ip) && r[ip].mac != "" && !OnLan(arp, ip, st.lanIface)
  }

  /** Registry and kernel agree: no entry on the LAN interface carries another MAC. */
  ghost predicate Agree(r: Registry, arp: ArpTable, st: State) {
    forall ip | ip in r && Eligible(st, ip) && OnLan(arp, ip, st.lanIface) :: arp[ip].mac == r[ip].mac
  }

  /** Every eligible client with a MAC is pinned as registered, and no eligible
      client without one has an entry on the LAN interface. */
  ghost predicate Converged(r: Registry, arp: ArpTable, st: State) {
    forall ip | ip in r && Eligible(st, ip) ::
      if r[ip].mac != "" then Entry(arp, ip) == Some(ArpEntry(r[ip].mac, st.lanIface)) else !OnLan(arp, ip, st.lanIface)
  }

  lemma ActionCases(arp: ArpTable, st: State, ip: string, mac: string)
    requires CanonicalOrEmpty(mac) && (ip in arp ==> IsCanonical(arp[ip].mac))
    ensures ClientAction(arp, st, ip, mac) ==
              if !Eligible(st, ip) then PinNone
              else if OnLan(arp, ip, st.lanIface) then (if arp[ip].mac == mac then PinNone else PinAdopt)
              else if mac == "" then PinNone else PinRepin
  {
    CanonicalMacNotEmpty();
    if ip in arp {
      SameStoredMac(arp[ip].mac, mac);
    }
  }

  /** A tick pins exactly the drifted clients. */
  lemma PinsAreDrift(r: Registry, arp: ArpTable, st: State)
    requires StoredMacs(r, arp)
    ensures Repinned(TickPlan(r, arp, st)) == Drifted(r, arp, st)
  {
    forall ip | ip in r ensures TickPlan(r, arp, st)[ip] == PinRepin <==> ip in Drifted(r, arp, st) {
      ActionCases(arp, st, ip, r[ip].mac);
    }
  }

  lemma TickOfRegistered(r: Registry, arp: ArpTable, st: State, ip: string)
    requires StoredMacs(r, arp)
    ensures ip in r <==> ip in TickRegistry(r, arp, st)
    ensures ip in r ==>
              TickRegistry(r, arp, st)[ip] ==
                if Eligible(st, ip) && OnLan(arp, ip, st.lanIface) then r[ip].(mac := arp[ip].mac) else r[ip]
  {
    if ip in r {
      ActionCases(arp, st, ip, r[ip].mac);
      assert TickPlan(r, arp, st)[ip] == ClientAction(arp, st, ip, r[ip].mac);
    }
  }

  lemma TickOfEntry(r: Registry, arp: ArpTable, st: State, failing: set<string>, ip: string)
    requires StoredMacs(r, arp)
    ensures Entry(TickArp(r, arp, st, failing), ip) ==
              if ip in Drifted(r, arp, st) && ip !in failing
              then Some(ArpEntry(r[ip].mac, st.lanIface)) else Entry(arp, ip)
  {
    PinsAreDrift(r, arp, st);
    assert ip in Repinned(TickPlan(r, arp, st)) <==> ip in Drifted(r, arp, st);
  }

  /** The registry and kernel entries of one client after a tick. */
  lemma TickOfClient(r: Registry, arp: ArpTable, st: State, failing: set<string>, ip: string)
    requires StoredMacs(r, arp)
    ensures ip in r <==> ip in TickRegistry(r, arp, st)
    ensures ip in r ==>
              TickRegistry(r, arp, st)[ip] ==
                if Eligible(st, ip) && OnLan(arp, ip, st.lanIface) then r[ip].(mac := arp[ip].mac) else r[ip]
    ensures Entry(TickArp(r, arp, st, failing), ip) ==
              if ip in Drifted(r, arp, st) && ip !in failing
              then Some(ArpEntry(r[ip].mac, st.lanIface)) else Entry(arp, ip)
  {
    TickOfRegistered(r, arp, st, ip);
    TickOfEntry(r, arp, st, failing, ip);
  }

  lemma TickKeepsStoredMacs(r: Registry, arp: ArpTable, st: State, failing: set<string>)
    requires StoredMacs(r, arp)
    ensures StoredMacs(TickRegistry(r, arp, st), TickArp(r, arp, st, failing))
  {
    forall ip | ip in TickRegistry(r, arp, st) ensures CanonicalOrEmpty(TickRegistry(r, arp, st)[ip].mac) {
      TickOfClient(r, arp, st, failing, ip);
    }
    forall ip | ip in TickArp(r, arp, st, failing) ensures IsCanonical(TickArp(r, arp, st, failing)[ip].mac) {
      TickOfClient(r, arp, st, failing, ip);
    }
  }

  /** One tick whose pins succeed reaches a converged state, from any state. */
  lemma TickConverges(r: Registry, arp: ArpTable, st: State)
    requires StoredMacs(r, arp)
    ensures Converged(TickRegistry(r, arp, st), TickArp(r, arp, st, {}), st)
  {
    CanonicalMacNotEmpty();
    forall ip | ip in TickRegistry(r, arp, st) && Eligible(st, ip)
      ensures var mac := TickRegistry(r, arp, st)[ip].mac;
              if mac != "" then Entry(TickArp(r, arp, st, {}), ip) == Some(ArpEntry(mac, st.lanIface))
              else !OnLan(TickArp(r, arp, st, {}), ip, st.lanIface)
    {
      TickOfClient(r, arp, st, {}, ip);
    }
  }

  /** In a converged state a tick pins nobody and changes nothing. */
  lemma ConvergedIsFixpoint(r: Registry, arp: ArpTable, st: State, failing: set<string>)
    requires StoredMacs(r, arp) && Converged(r, arp, st)
    ensures Drifted(r, arp, st) == {}
    ensures TickRegistry(r, arp, st) == r && TickArp(r, arp, st, failing) == arp
  {
    forall ip | ip in r ensures ip !in Drifted(r, arp, st) && TickRegistry(r, arp, st)[ip] == r[ip] {
      TickOfRegistered(r, arp, st, ip);
    }
    assert TickRegistry(r, arp, st).Keys == r.Keys;
    assert Drifted(r, arp, st) == {};
    forall ip ensures Entry(TickArp(r, arp, st, failing), ip) == Entry(arp, ip) {
      TickOfEntry(r, arp, st, failing, ip);
    }
    SameEntries(TickArp(r, arp, st, failing), arp);
  }

  lemma SameEntries(a: ArpTable, b: ArpTable)
    requires forall ip :: Entry(a, ip) == Entry(b, ip)
    ensures a == b
  {
    assert forall ip :: ip in a <==> Entry(a, ip).Some?;
    assert forall ip :: ip in b <==> Entry(b, ip).Some?;
    forall ip | ip in a ensures a[ip] == b[ip] {
      assert Entry(a, ip) == Some(a[ip]) && Entry(b, ip) == Some(b[ip]);
    }
  }

  lemma TickEstablishesAgreement(r: Registry, arp: ArpTable, st: State, failing: set<string>)
    requires StoredMacs(r, arp)
    ensures Agree(TickRegistry(r, arp, st), TickArp(r, arp, st, failing), st)
  {
    var r', arp' := TickRegistry(r, arp, st), TickArp(r, arp, st, failing);
    forall ip | ip in r' && Eligible(st, ip) && OnLan(arp', ip, st.lanIface) ensures arp'[ip].mac == r'[ip].mac {
      TickOfClient(r, arp, st, failing, ip);
    }
  }

  // ----- the SYN hook

  lemma AcceptedIsEligible(st: State, ip: Addr)
    ensures SynAccepted(st, ip) <==> st.lanIface != "" && Eligible(st, PrintAddr(ip))
  {
    AddrTextUnique(PrintAddr(ip), ip);
    if st.lanAddr.Some? {
      AddrTextUnique(PrintAddr(ip), st.lanAddr.value);
      AddrTextUnique(PrintAddr(st.lanAddr.value), st.lanAddr.value);
    }
  }

  /** Exactly when the kernel does not keep another MAC for the sender of a frame. */
  lemma SynFixesKernelIff(r: Registry, arp: ArpTable, st: State, ip: Addr, mac: string, pinOk: bool)
    requires SynAccepted(st, ip)
    ensures var key := PrintAddr(ip);
            var arp' := SynArp(r, arp, st, ip, mac, pinOk);
            (OnLan(arp', key, st.lanIface) ==> arp'[key].mac == mac) <==>
            (OnLan(arp, key, st.lanIface) && arp[key].mac != mac ==> mac != MacOf(r, key) && st.ciscoConnected && pinOk)
  {
  }

  /** A frame's MAC outlasts the next tick under exactly the same condition; when it
      fails, as for every frame seen while the VPN is down, the tick adopts the kernel's
      old MAC back. */
  lemma FrameOutlastsTickIff(r: Registry, arp: ArpTable, st: State, ip: Addr, mac: string, now: int, pinOk: bool)
    requires SynAccepted(st, ip) && StoredMacs(r, arp) && IsCanonical(mac)
    ensures var key, up := PrintAddr(ip), st.(ciscoConnected := true);
            var r', arp' := SynRegistry(r, st, ip, mac, now), SynArp(r, arp, st, ip, mac, pinOk);
            var after := MacOf(TickRegistry(r', arp', up), key);
            var kept := OnLan(arp, key, st.lanIface) && arp[key].mac != mac ==>
                          mac != MacOf(r, key) && st.ciscoConnected && pinOk;
            if kept then after == mac else after == arp[key].mac
  {
    CanonicalMacNotEmpty();
    SynFixesKernelIff(r, arp, st, ip, mac, pinOk);
    SynKeepsStoredMacs(r, arp, st, ip, mac, now, pinOk);
    AcceptedIsEligible(st.(ciscoConnected := true), ip);
    TickOfRegistered(SynRegistry(r, st, ip, mac, now), SynArp(r, arp, st, ip, mac, pinOk), st.(ciscoConnected := true),
                     PrintAddr(ip));
  }

  lemma SetKeepsStoredMacs(r: Registry, arp: ArpTable, ip: string, e: ArpEntry)
    requires StoredMacs(r, arp) && IsCanonical(e.mac)
    ensures StoredMacs(r, arp[ip := e])
  {
  }

  lemma SeenKeepsStoredMacs(r: Registry, arp: ArpTable, ip: string, mac: string, now: int)
    requires StoredMacs(r, arp) && CanonicalOrEmpty(mac)
    ensures StoredMacs(Seen(r, ip, mac, now), arp)
  {
  }

  lemma SynKeepsStoredMacs(r: Registry, arp: ArpTable, st: State, ip: Addr, mac: string, now: int, pinOk: bool)
    requires StoredMacs(r, arp) && IsCanonical(mac)
    ensures StoredMacs(SynRegistry(r, st, ip, mac, now), SynArp(r, arp, st, ip, mac, pinOk))
  {
  }

  /** With the VPN up and the pin succeeding the frame's MAC is recorded and
      registry and kernel keep agreeing. */
  lemma SynKeepsAgreement(r: Registry, arp: ArpTable, st: State, ip: Addr, mac: string, now: int)
    requires st.ciscoConnected && Agree(r, arp, st) && IsCanonical(mac)
    ensures Agree(SynRegistry(r, st, ip, mac, now), SynArp(r, arp, st, ip, mac, true), st)
    ensures SynAccepted(st, ip) ==> MacOf(SynRegistry(r, st, ip, mac, now), PrintAddr(ip)) == mac
  {
    CanonicalMacNotEmpty();
    var key := PrintAddr(ip);
    var r', arp' := SynRegistry(r, st, ip, mac, now), SynArp(r, arp, st, ip, mac, true);
    AcceptedIsEligible(st, ip);
    if SynAccepted(st, ip) {
      SynFixesKernelIff(r, arp, st, ip, mac, true);
      forall x | x in r' && Eligible(st, x) && OnLan(arp', x, st.lanIface) ensures arp'[x].mac == r'[x].mac {
        if x != key {
          assert x in r && OnLan(arp, x, st.lanIface);
        }
      }
    }
  }
}

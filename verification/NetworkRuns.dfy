/** Properties of whole runs: how often ARP is mutated, that a rotated MAC is not
    undone, and where every stored MAC comes from. */
module NetworkRuns {
  import opened Basics
  import opened Mac
  import opened Addr
  import opened Route
  import opened ServiceState
  import opened Clients
  import opened Pinner
  import opened Reachability
  import opened Network

  // ----- amortised ARP mutation

  function Drift(w: World): set<string> {
    Drifted(w.reg, w.arp, w.st)
  }

  predicate ActiveTick(w: World, e: Event) {
    e.PinTick? && PinnerActive(w.st)
  }

  /** The `arp -S` calls one event costs the pinner, and those of them that fail. */
  function Pins(w: World, e: Event): nat {
    if ActiveTick(w, e) then |Repinned(TickPlan(w.reg, w.arp, w.st))| else 0
  }

  function Failures(w: World, e: Event): nat {
    if ActiveTick(w, e) then |Repinned(TickPlan(w.reg, w.arp, w.st)) * e.failing| else 0
  }

  /** A registered client with a MAC that can be pinned and has its entry on the LAN. */
  predicate Pinned(w: World, ip: string) {
    ip in w.reg && Eligible(w.st, ip) && w.reg[ip].mac != "" && OnLan(w.arp, ip, w.st.lanIface)
  }

  /** Clients that stop being adrift without a pin: the entry came back, the client
      expired, its address became ours, or the network changed. */
  function Relieved(cfg: Config, w: World, e: Event): nat {
    if ActiveTick(w, e) then 0 else |Drift(w) - Drift(Step(cfg, w, e))|
  }

  /** The clients an event sets adrift: a pinned one whose entry is deleted or moved off
      the LAN; one without a MAC that an accepted frame gives it, without an entry on the
      LAN; at the first detection those in the new subnet with a configured MAC and no
      entry on the new LAN; and the client at our previous address. */
  function Disturbed(cfg: Config, w: World, e: Event): set<string> {
    match e
    case ArpDelete(ip) => if Pinned(w, ip) then {ip} else {}
    case ArpSet(ip, entry) => if Pinned(w, ip) && entry.iface != w.st.lanIface then {ip} else {}
    case Syn(ip, mac, _, _) =>
      var key := PrintAddr(ip);
      if cfg.discovery && SynAccepted(w.st, ip) && MacOf(w.reg, key) == "" && !OnLan(w.arp, key, w.st.lanIface)
      then {key} else {}
    case LanDetected(ifaddr, iface) =>
      if w.st.lanIface == "" then
        (set ip | ip in w.reg && w.reg[ip].mac != "" && InSubnet(Masked(ifaddr), ip) && ip != PrintAddr(ifaddr.addr)
                  && !OnLan(w.arp, ip, iface))
      else {}
    case OwnAddress(addr) =>
      if w.st.lanAddr.Some? && w.st.lanAddr != Some(addr) then FreedAddress(w, PrintAddr(w.st.lanAddr.value)) else {}
    case _ => {}
  }

  /** `ip` was our address: its client can be pinned from now on. */
  function FreedAddress(w: World, ip: string): set<string> {
    if ip in w.reg && w.reg[ip].mac != "" && InSubnet(w.st.lanSubnet, ip) && !OnLan(w.arp, ip, w.st.lanIface)
    then {ip} else {}
  }

  function TotalPins(cfg: Config, w: World, es: seq<Event>): nat {
    if es == [] then 0
    else TotalPins(cfg, w, es[..|es| - 1]) + Pins(Run(cfg, w, es[..|es| - 1]), es[|es| - 1])
  }

  function TotalFailures(cfg: Config, w: World, es: seq<Event>): nat {
    if es == [] then 0
    else TotalFailures(cfg, w, es[..|es| - 1]) + Failures(Run(cfg, w, es[..|es| - 1]), es[|es| - 1])
  }

  function TotalDisturbances(cfg: Config, w: World, es: seq<Event>): nat {
    if es == [] then 0
    else TotalDisturbances(cfg, w, es[..|es| - 1]) + |Disturbed(cfg, Run(cfg, w, es[..|es| - 1]), es[|es| - 1])|
  }

  function TotalRelieved(cfg: Config, w: World, es: seq<Event>): nat {
    if es == [] then 0
    else TotalRelieved(cfg, w, es[..|es| - 1]) + Relieved(cfg, Run(cfg, w, es[..|es| - 1]), es[|es| - 1])
  }

  lemma SynDrift(cfg: Config, w: World, e: Event)
    requires e.Syn? && IsCanonical(e.mac)
    ensures Drift(Step(cfg, w, e)) - Drift(w) == Disturbed(cfg, w, e)
  {
    CanonicalMacNotEmpty();
    AcceptedIsEligible(w.st, e.ip);
    var w', key := Step(cfg, w, e), PrintAddr(e.ip);
    forall x ensures x in Drift(w') && x !in Drift(w) <==> x in Disturbed(cfg, w, e) {
      if x != key {
        assert Entry(w'.arp, x) == Entry(w.arp, x) && (x in w'.reg <==> x in w.reg)
               && (x in w.reg ==> w'.reg[x] == w.reg[x]);
      }
    }
  }

  lemma AcceptDrift(cfg: Config, w: World, e: Event)
    requires e.Accept?
    ensures Drift(Step(cfg, w, e)) <= Drift(w)
  {
    var w' := Step(cfg, w, e);
    if w'.reg != w.reg {
      var key := PrintAddr(e.peer.value);
      forall x | x in Drift(w') ensures x in Drift(w) {
        if x != key {
          assert x in w.reg && w'.reg[x] == w.reg[x];
        }
      }
    }
  }

  lemma ArpDrift(cfg: Config, w: World, e: Event)
    requires e.ArpDelete? || e.ArpSet?
    ensures Drift(Step(cfg, w, e)) - Drift(w) == Disturbed(cfg, w, e)
  {
    var w', ip := Step(cfg, w, e), if e.ArpDelete? then e.gone else e.at;
    forall x ensures x in Drift(w') && x !in Drift(w) <==> x in Disturbed(cfg, w, e) {
      if x != ip {
        assert Entry(w'.arp, x) == Entry(w.arp, x);
      }
    }
  }

  lemma LanDrift(cfg: Config, w: World, e: Event)
    requires LanOk(w.st) && (e.LanDetected? || e.VpnChanged?)
    ensures Drift(Step(cfg, w, e)) - Drift(w) == Disturbed(cfg, w, e)
  {
  }

  lemma OwnAddressDrift(cfg: Config, w: World, e: Event)
    requires e.OwnAddress?
    ensures Drift(Step(cfg, w, e)) - Drift(w) == Disturbed(cfg, w, e)
  {
    AddrTextUnique(PrintAddr(e.addr), e.addr);
    if w.st.lanAddr.Some? {
      AddrTextUnique(PrintAddr(e.addr), w.st.lanAddr.value);
      AddrTextUnique(PrintAddr(w.st.lanAddr.value), w.st.lanAddr.value);
    }
  }

  /** The clients an event sets adrift are exactly the disturbed ones. */
  lemma DriftGrowsByDisturbance(cfg: Config, w: World, e: Event)
    requires Inv(cfg, w) && ValidEvent(w, e)
    ensures Drift(Step(cfg, w, e)) - Drift(w) == Disturbed(cfg, w, e)
  {
    match e
    case PinTick(_) => if ActiveTick(w, e) { DriftAfterTick(cfg, w, e); }
    case Syn(_, _, _, _) => SynDrift(cfg, w, e);
    case Accept(_, _) => AcceptDrift(cfg, w, e);
    case ArpDelete(_) => ArpDrift(cfg, w, e);
    case ArpSet(_, _) => ArpDrift(cfg, w, e);
    case ExpireClients(_, _) =>
    case LanDetected(_, _) => LanDrift(cfg, w, e);
    case OwnAddress(_) => OwnAddressDrift(cfg, w, e);
    case VpnChanged(_) => LanDrift(cfg, w, e);
  }

  lemma DriftAfterTick(cfg: Config, w: World, e: Event)
    requires Inv(cfg, w) && ActiveTick(w, e)
    ensures Drift(Step(cfg, w, e)) == Drift(w) * e.failing
    ensures Repinned(TickPlan(w.reg, w.arp, w.st)) == Drift(w)
  {
    PinsAreDrift(w.reg, w.arp, w.st);
    var w' := Step(cfg, w, e);
    assert w'.reg.Keys == w.reg.Keys;
    forall ip | ip in w.reg ensures ip in Drift(w') <==> ip in Drift(w) * e.failing {
      TickOfClient(w.reg, w.arp, w.st, e.failing, ip);
    }
  }

  lemma SizesBalance(a: set<string>, b: set<string>)
    ensures |b| + |a - b| == |a| + |b - a|
  {
    assert a + b == a + (b - a) && a + b == b + (a - b);
    assert a * (b - a) == {} && b * (a - b) == {};
  }

  /** Every pin is accounted for: over any run the pins, the drift left and the drift that
      ended without a pin equal the initial drift, the disturbances and the pins that failed. */
  lemma {:induction false} PinAccounts(cfg: Config, w: World, es: seq<Event>)
    requires Inv(cfg, w) && ValidRun(cfg, w, es)
    ensures TotalPins(cfg, w, es) + |Drift(Run(cfg, w, es))| + TotalRelieved(cfg, w, es)
            == |Drift(w)| + TotalDisturbances(cfg, w, es) + TotalFailures(cfg, w, es)
  {
    if es != [] {
      var before, e := Run(cfg, w, es[..|es| - 1]), es[|es| - 1];
      PinAccounts(cfg, w, es[..|es| - 1]);
      RunKeepsInv(cfg, w, es[..|es| - 1]);
      DriftGrowsByDisturbance(cfg, before, e);
      if ActiveTick(before, e) {
        DriftAfterTick(cfg, before, e);
      } else {
        SizesBalance(Drift(before), Drift(Step(cfg, before, e)));
      }
    }
  }

  /** So the pins of any run are at most the initial drift, the disturbances and the pins
      that failed. */
  lemma AmortisedPins(cfg: Config, w: World, es: seq<Event>)
    requires Inv(cfg, w) && ValidRun(cfg, w, es)
    ensures TotalPins(cfg, w, es) + |Drift(Run(cfg, w, es))|
            <= |Drift(w)| + TotalDisturbances(cfg, w, es) + TotalFailures(cfg, w, es)
  {
    PinAccounts(cfg, w, es);
  }

  // ----- a rotated MAC is not undone

  /** What Cisco does to the table, and pinner ticks whose pins succeed. */
  predicate CiscoOrTick(iface: string, e: Event) {
    match e
    case PinTick(failing) => failing == {}
    case ArpDelete(_) => true
    case ArpSet(_, entry) => entry.iface != iface && IsCanonical(entry.mac)
    case _ => false
  }

  /** What a tick does where registry and kernel agree: no registered MAC changes, every
      eligible client with a MAC is pinned. */
  lemma AgreedTick(r: Registry, arp: ArpTable, st: State)
    requires StoredMacs(r, arp) && Agree(r, arp, st)
    ensures TickRegistry(r, arp, st) == r
    ensures var arp' := TickArp(r, arp, st, {});
            StoredMacs(r, arp') && Agree(r, arp', st)
            && forall ip | ip in r && Eligible(st, ip) && r[ip].mac != "" ::
                 Entry(arp', ip) == Some(ArpEntry(r[ip].mac, st.lanIface))
  {
    var r' := TickRegistry(r, arp, st);
    forall ip | ip in r ensures r'[ip] == r[ip] {
      TickOfRegistered(r, arp, st, ip);
    }
    assert r'.Keys == r.Keys;
    TickKeepsStoredMacs(r, arp, st, {});
    TickEstablishesAgreement(r, arp, st, {});
    TickConverges(r, arp, st);
  }

  /** Agreement survives such an event, and no registered MAC changes. */
  lemma CiscoKeepsAgreement(cfg: Config, w: World, e: Event)
    requires CiscoOrTick(w.st.lanIface, e) && StoredMacs(w.reg, w.arp) && Agree(w.reg, w.arp, w.st)
    ensures var w' := Step(cfg, w, e);
            w'.st == w.st && w'.reg == w.reg && StoredMacs(w'.reg, w'.arp) && Agree(w'.reg, w'.arp, w'.st)
    ensures e.PinTick? && PinnerActive(w.st) ==>
              var w' := Step(cfg, w, e);
              forall ip | ip in w.reg && Eligible(w.st, ip) && w.reg[ip].mac != "" ::
                Entry(w'.arp, ip) == Some(ArpEntry(w.reg[ip].mac, w.st.lanIface))
  {
    if e.PinTick? && PinnerActive(w.st) {
      AgreedTick(w.reg, w.arp, w.st);
    }
  }

  lemma {:induction false} CiscoRun(cfg: Config, w: World, es: seq<Event>)
    requires StoredMacs(w.reg, w.arp) && Agree(w.reg, w.arp, w.st)
    requires forall i | 0 <= i < |es| :: CiscoOrTick(w.st.lanIface, es[i])
    ensures var w' := Run(cfg, w, es);
            w'.st == w.st && w'.reg == w.reg && StoredMacs(w'.reg, w'.arp) && Agree(w'.reg, w'.arp, w'.st)
  {
    if es != [] {
      CiscoRun(cfg, w, es[..|es| - 1]);
      CiscoKeepsAgreement(cfg, Run(cfg, w, es[..|es| - 1]), es[|es| - 1]);
    }
  }

  /** Registry and kernel agree on `mac` for one client. */
  predicate AgreeOn(w: World, ip: string, mac: string) {
    ip in w.reg && w.reg[ip].mac == mac && (OnLan(w.arp, ip, w.st.lanIface) ==> w.arp[ip].mac == mac)
  }

  /** Anything but a frame or a LAN entry with another MAC for this client, the client's own
      expiry, and a LAN detection. */
  predicate Harmless(w: World, ip: string, mac: string, e: Event) {
    match e
    case Syn(from, m, _, _) => PrintAddr(from) != ip || m == mac
    case ExpireClients(now, live) =>
      ip in live || (ip in w.reg && !Clients.Stale(w.reg[ip], now, DISCOVERED_CLIENT_TTL))
    case ArpSet(at, entry) => at != ip || entry.iface != w.st.lanIface || entry.mac == mac
    case LanDetected(_, _) => false
    case _ => true
  }

  predicate HarmlessRun(cfg: Config, w: World, ip: string, mac: string, es: seq<Event>) {
    es == [] || (HarmlessRun(cfg, w, ip, mac, es[..|es| - 1])
        && Harmless(Run(cfg, w, es[..|es| - 1]), ip, mac, es[|es| - 1]))
  }

  lemma TickKeepsAgreeOn(cfg: Config, w: World, ip: string, mac: string, failing: set<string>)
    requires StoredMacs(w.reg, w.arp) && AgreeOn(w, ip, mac)
    ensures AgreeOn(Step(cfg, w, PinTick(failing)), ip, mac)
    ensures PinnerActive(w.st) && Eligible(w.st, ip) && mac != "" && ip !in failing ==>
              Entry(Step(cfg, w, PinTick(failing)).arp, ip) == Some(ArpEntry(mac, w.st.lanIface))
  {
    if PinnerActive(w.st) {
      TickOfClient(w.reg, w.arp, w.st, failing, ip);
    }
  }

  lemma HarmlessKeepsAgreeOn(cfg: Config, w: World, ip: string, mac: string, e: Event)
    requires Inv(cfg, w) && ValidEvent(w, e) && AgreeOn(w, ip, mac) && mac != "" && Harmless(w, ip, mac, e)
    ensures AgreeOn(Step(cfg, w, e), ip, mac) && Step(cfg, w, e).st.lanIface == w.st.lanIface
  {
    if e.PinTick? {
      TickKeepsAgreeOn(cfg, w, ip, mac, e.failing);
    } else if e.Accept? {
      AcceptKeepsAgreeOn(cfg, w, ip, mac, e);
    } else if e.Syn? {
      FrameKeepsAgreeOn(cfg, w, ip, mac, e);
    }
  }

  lemma FrameKeepsAgreeOn(cfg: Config, w: World, ip: string, mac: string, e: Event)
    requires AgreeOn(w, ip, mac) && mac != "" && e.Syn? && (PrintAddr(e.ip) != ip || e.mac == mac)
    ensures AgreeOn(Step(cfg, w, e), ip, mac)
  {
  }

  lemma AcceptKeepsAgreeOn(cfg: Config, w: World, ip: string, mac: string, e: Event)
    requires AgreeOn(w, ip, mac) && mac != "" && e.Accept?
    ensures AgreeOn(Step(cfg, w, e), ip, mac)
  {
  }

  lemma {:induction false} AgreementLasts(cfg: Config, w: World, ip: string, mac: string, es: seq<Event>)
    requires Inv(cfg, w) && ValidRun(cfg, w, es) && AgreeOn(w, ip, mac) && mac != "" && HarmlessRun(cfg, w, ip, mac, es)
    ensures AgreeOn(Run(cfg, w, es), ip, mac)
  {
    if es != [] {
      AgreementLasts(cfg, w, ip, mac, es[..|es| - 1]);
      RunKeepsInv(cfg, w, es[..|es| - 1]);
      HarmlessKeepsAgreeOn(cfg, Run(cfg, w, es[..|es| - 1]), ip, mac, es[|es| - 1]);
    }
  }

  /** A frame that leaves no other MAC in the kernel is not undone by anything but another
      frame or LAN entry of that client, its expiry or a change of network: not by Cisco's
      deletions and moves, other clients, accepts, a VPN that comes and goes, or ticks
      whichever pins fail. After every active tick that does not fail for it the kernel
      holds the frame's MAC. */
  lemma RotatedMacStays(cfg: Config, w: World, ip: Addr, mac: string, now: int, pinOk: bool, es: seq<Event>)
    requires cfg.discovery && Inv(cfg, w) && SynAccepted(w.st, ip) && IsCanonical(mac)
    requires var key := PrintAddr(ip);
             OnLan(w.arp, key, w.st.lanIface) && w.arp[key].mac != mac ==>
               mac != MacOf(w.reg, key) && w.st.ciscoConnected && pinOk
    requires var w1 := Step(cfg, w, Syn(ip, mac, now, pinOk));
             ValidRun(cfg, w1, es) && HarmlessRun(cfg, w1, PrintAddr(ip), mac, es)
    ensures var w1 := Step(cfg, w, Syn(ip, mac, now, pinOk));
            AgreeOn(Run(cfg, w1, es), PrintAddr(ip), mac)
            && (es != [] && ActiveTick(Run(cfg, w1, es[..|es| - 1]), es[|es| - 1])
                && PrintAddr(ip) !in es[|es| - 1].failing
                && Eligible(Run(cfg, w1, es).st, PrintAddr(ip)) ==>
                  Entry(Run(cfg, w1, es).arp, PrintAddr(ip)) == Some(ArpEntry(mac, Run(cfg, w1, es).st.lanIface)))
  {
    CanonicalMacNotEmpty();
    var w1, key := Step(cfg, w, Syn(ip, mac, now, pinOk)), PrintAddr(ip);
    SynFixesKernelIff(w.reg, w.arp, w.st, ip, mac, pinOk);
    StepKeepsInv(cfg, w, Syn(ip, mac, now, pinOk));
    assert AgreeOn(w1, key, mac);
    AgreementLasts(cfg, w1, key, mac, es);
    if es != [] {
      var n := |es| - 1;
      AgreementLasts(cfg, w1, key, mac, es[..n]);
      RunKeepsInv(cfg, w1, es[..n]);
      if ActiveTick(Run(cfg, w1, es[..n]), es[n]) {
        TickKeepsAgreeOn(cfg, Run(cfg, w1, es[..n]), key, mac, es[n].failing);
      }
    }
  }

  lemma RunMore(cfg: Config, w: World, es: seq<Event>, e: Event) returns (more: seq<Event>)
    requires ValidRun(cfg, w, es) && ValidEvent(Run(cfg, w, es), e)
    ensures more == es + [e] && ValidRun(cfg, w, more) && Run(cfg, w, more) == Step(cfg, Run(cfg, w, es), e)
  {
    more := es + [e];
    assert more[..|es|] == es;
  }

  /** The kernel has an entry on the LAN for a client whose newer MAC the registry knows. */
  predicate Behind(w: World, ip: Addr, stale: string, mac: string) {
    SynAccepted(w.st, ip) && MacOf(w.reg, PrintAddr(ip)) == mac
    && Entry(w.arp, PrintAddr(ip)) == Some(ArpEntry(stale, w.st.lanIface))
  }

  /** How that comes about: the entry is learned, the frame arrives while the VPN is down. */
  lemma FrameWhileDown(entries: seq<LanClient>, ifaddr: IfAddr, iface: string, ip: Addr, stale: string, mac: string)
    returns (es: seq<Event>)
    requires iface != "" && ifaddr.ones <= 32 && Contains(Masked(ifaddr), ip) && ip != ifaddr.addr
    requires IsCanonical(stale) && IsCanonical(mac)
    ensures es == [LanDetected(ifaddr, iface), ArpSet(PrintAddr(ip), ArpEntry(stale, iface)), Syn(ip, mac, 0, true)]
    ensures var cfg := Configured(entries, true);
            ValidRun(cfg, Initial(entries), es) && Behind(Run(cfg, Initial(entries), es), ip, stale, mac)
  {
    var cfg, w0, key := Configured(entries, true), Initial(entries), PrintAddr(ip);
    CanonicalMacNotEmpty();
    var e1 := RunMore(cfg, w0, [], LanDetected(ifaddr, iface));
    assert [] + [LanDetected(ifaddr, iface)] == [LanDetected(ifaddr, iface)];
    var w1 := Run(cfg, w0, e1);
    FirstDetection(cfg, entries, ifaddr, iface, ip);
    var e2 := RunMore(cfg, w0, e1, ArpSet(key, ArpEntry(stale, iface)));
    es := RunMore(cfg, w0, e2, Syn(ip, mac, 0, true));
    DownFrameRecords(cfg, Run(cfg, w0, e2), ip, stale, mac);
  }

  lemma FirstDetection(cfg: Config, entries: seq<LanClient>, ifaddr: IfAddr, iface: string, ip: Addr)
    requires iface != "" && ifaddr.ones <= 32 && Contains(Masked(ifaddr), ip) && ip != ifaddr.addr
    ensures var w := Step(cfg, Initial(entries), LanDetected(ifaddr, iface));
            SynAccepted(w.st, ip) && !w.st.ciscoConnected && w.st.lanIface == iface
  {
  }

  lemma DownFrameRecords(cfg: Config, w: World, ip: Addr, stale: string, mac: string)
    requires cfg.discovery && !w.st.ciscoConnected && SynAccepted(w.st, ip) && mac != ""
    requires Entry(w.arp, PrintAddr(ip)) == Some(ArpEntry(stale, w.st.lanIface))
    ensures Behind(Step(cfg, w, Syn(ip, mac, 0, true)), ip, stale, mac)
  {
  }

  /** A frame with the registry's own MAC is recorded and not repaired; the next tick
      adopts the kernel's old one. */
  lemma BehindIsUndone(cfg: Config, w: World, ip: Addr, stale: string, mac: string)
    requires cfg.discovery && Inv(cfg, w) && PinnerActive(w.st) && Behind(w, ip, stale, mac)
    requires IsCanonical(stale) && IsCanonical(mac) && stale != mac
    ensures var w1 := Step(cfg, w, Syn(ip, mac, 0, true));
            Behind(w1, ip, stale, mac) && MacOf(Step(cfg, w1, PinTick({})).reg, PrintAddr(ip)) == stale
  {
    CanonicalMacNotEmpty();
    assert w.st.(ciscoConnected := true) == w.st;
    FrameOutlastsTickIff(w.reg, w.arp, w.st, ip, mac, 0, true);
  }

  /** The condition fails in runs from any configuration: the kernel has learned a client's
      old MAC, its new one shows in a frame while the VPN is down and in another one, which
      the registry knows already, while it is up. The next tick restores the old MAC. */
  lemma SkippedRepairIsUndone(entries: seq<LanClient>, ifaddr: IfAddr, iface: string, ip: Addr, stale: string,
      mac: string)
    requires iface != "" && ifaddr.ones <= 32 && Contains(Masked(ifaddr), ip) && ip != ifaddr.addr
    requires IsCanonical(stale) && IsCanonical(mac) && stale != mac
    ensures var cfg := Configured(entries, true);
            var es := [LanDetected(ifaddr, iface), ArpSet(PrintAddr(ip), ArpEntry(stale, iface)), Syn(ip, mac, 0, true)]
                      + [VpnChanged(true)] + [Syn(ip, mac, 0, true)];
            ValidRun(cfg, Initial(entries), es + [PinTick({})])
            && MacOf(Run(cfg, Initial(entries), es).reg, PrintAddr(ip)) == mac
            && MacOf(Run(cfg, Initial(entries), es + [PinTick({})]).reg, PrintAddr(ip)) == stale
  {
    var cfg, w0 := Configured(entries, true), Initial(entries);
    InitialInv(entries, true);
    var e3 := FrameWhileDown(entries, ifaddr, iface, ip, stale, mac);
    var e4 := RunMore(cfg, w0, e3, VpnChanged(true));
    var w3, w4 := Run(cfg, w0, e3), Run(cfg, w0, e4);
    assert w4 == w3.(st := w3.st.(ciscoConnected := true));
    RunKeepsInv(cfg, w0, e4);
    BehindIsUndone(cfg, w4, ip, stale, mac);
    var e5 := RunMore(cfg, w0, e4, Syn(ip, mac, 0, true));
    var e6 := RunMore(cfg, w0, e5, PinTick({}));
  }

  // ----- where stored MACs come from

  /** A confirmed LAN change, other than the first detection. */
  predicate NetworkChange(w: World, e: Event) {
    e.LanDetected? && w.st.lanIface != ""
  }

  /** The event takes `mac` for `ip` from a frame or from the kernel's entry on the LAN interface. */
  predicate Wrote(cfg: Config, w: World, e: Event, ip: string, mac: string) {
    match e
    case PinTick(_) => PinnerActive(w.st) && Eligible(w.st, ip) && OnLan(w.arp, ip, w.st.lanIface)
        && w.arp[ip].mac == mac
    case Syn(a, m, _, _) => cfg.discovery && SynAccepted(w.st, a) && ip == PrintAddr(a) && m == mac
    case Accept(peer, now) =>
      cfg.discovery && AcceptRegisters(w.reg, w.st, peer, now) && ip == PrintAddr(peer.value)
      && OnLan(w.arp, ip, w.st.lanIface) && w.arp[ip].mac == mac
    case _ => false
  }

  lemma MacOrigin(cfg: Config, w: World, e: Event, ip: string)
    requires Inv(cfg, w) && ValidEvent(w, e)
    requires MacOf(Step(cfg, w, e).reg, ip) != ""
    ensures !NetworkChange(w, e)
    ensures var mac := MacOf(Step(cfg, w, e).reg, ip); Wrote(cfg, w, e, ip, mac) || MacOf(w.reg, ip) == mac
  {
    if ActiveTick(w, e) {
      TickOrigin(cfg, w, e.failing, ip);
    } else if e.Syn? || e.Accept? {
      HookOrigin(cfg, w, e, ip);
    }
  }

  lemma TickOrigin(cfg: Config, w: World, failing: set<string>, ip: string)
    requires StoredMacs(w.reg, w.arp) && PinnerActive(w.st) && MacOf(Step(cfg, w, PinTick(failing)).reg, ip) != ""
    ensures var mac := MacOf(Step(cfg, w, PinTick(failing)).reg, ip);
            Wrote(cfg, w, PinTick(failing), ip, mac) || MacOf(w.reg, ip) == mac
  {
    TickOfRegistered(w.reg, w.arp, w.st, ip);
  }

  lemma HookOrigin(cfg: Config, w: World, e: Event, ip: string)
    requires (e.Syn? && IsCanonical(e.mac)) || e.Accept?
    requires MacOf(Step(cfg, w, e).reg, ip) != ""
    ensures var mac := MacOf(Step(cfg, w, e).reg, ip); Wrote(cfg, w, e, ip, mac) || MacOf(w.reg, ip) == mac
  {
    CanonicalMacNotEmpty();
  }

  /** `mac` was written for `ip` at event `j`, and the network has not changed since. */
  ghost predicate WrittenSinceChange(cfg: Config, w: World, es: seq<Event>, ip: string, mac: string, j: nat) {
    j < |es| && Wrote(cfg, Run(cfg, w, es[..j]), es[j], ip, mac)
    && SameNetworkSince(cfg, w, es, j)
  }

  ghost predicate SameNetworkSince(cfg: Config, w: World, es: seq<Event>, j: nat) {
    forall k | j <= k < |es| :: !NetworkChange(Run(cfg, w, es[..k]), es[k])
  }

  lemma SameNetworkStays(cfg: Config, w: World, es: seq<Event>, j: nat)
    requires es != [] && j < |es| && SameNetworkSince(cfg, w, es[..|es| - 1], j)
    requires !NetworkChange(Run(cfg, w, es[..|es| - 1]), es[|es| - 1])
    ensures SameNetworkSince(cfg, w, es, j)
  {
    var n := |es| - 1;
    forall k | j <= k < |es| ensures !NetworkChange(Run(cfg, w, es[..k]), es[k]) {
      if k < n {
        assert es[..n][k] == es[k] && es[..n][..k] == es[..k];
      }
    }
  }

  lemma WrittenStays(cfg: Config, w: World, es: seq<Event>, ip: string, mac: string, j: nat)
    requires es != [] && WrittenSinceChange(cfg, w, es[..|es| - 1], ip, mac, j)
    requires !NetworkChange(Run(cfg, w, es[..|es| - 1]), es[|es| - 1])
    ensures WrittenSinceChange(cfg, w, es, ip, mac, j)
  {
    assert es[..|es| - 1][..j] == es[..j];
    SameNetworkStays(cfg, w, es, j);
  }

  /** Written since the latest network change, or initial in a run without any. */
  ghost predicate Origin(cfg: Config, w: World, es: seq<Event>, ip: string, mac: string) {
    (exists j: nat :: WrittenSinceChange(cfg, w, es, ip, mac, j))
    || (MacOf(w.reg, ip) == mac && SameNetworkSince(cfg, w, es, 0))
  }

  lemma OriginStays(cfg: Config, w: World, es: seq<Event>, ip: string, mac: string)
    requires es != [] && Origin(cfg, w, es[..|es| - 1], ip, mac)
    requires !NetworkChange(Run(cfg, w, es[..|es| - 1]), es[|es| - 1])
    ensures Origin(cfg, w, es, ip, mac)
  {
    var before := es[..|es| - 1];
    if j: nat :| WrittenSinceChange(cfg, w, before, ip, mac, j) {
      WrittenStays(cfg, w, es, ip, mac, j);
    } else {
      SameNetworkStays(cfg, w, es, 0);
    }
  }

  lemma OriginHere(cfg: Config, w: World, es: seq<Event>, ip: string, mac: string)
    requires es != [] && Wrote(cfg, Run(cfg, w, es[..|es| - 1]), es[|es| - 1], ip, mac)
    requires !NetworkChange(Run(cfg, w, es[..|es| - 1]), es[|es| - 1])
    ensures Origin(cfg, w, es, ip, mac)
  {
    assert WrittenSinceChange(cfg, w, es, ip, mac, |es| - 1);
  }

  /** After any run every stored MAC was read from a frame or from the LAN interface
      after the latest network change, or is the initial one of a run without any. */
  lemma {:induction false} MacsPostdateNetworkChange(cfg: Config, w: World, es: seq<Event>, ip: string)
    requires Inv(cfg, w) && ValidRun(cfg, w, es)
    requires MacOf(Run(cfg, w, es).reg, ip) != ""
    ensures Origin(cfg, w, es, ip, MacOf(Run(cfg, w, es).reg, ip))
  {
    if es != [] {
      var n := |es| - 1;
      var before, mac := Run(cfg, w, es[..n]), MacOf(Run(cfg, w, es).reg, ip);
      RunKeepsInv(cfg, w, es[..n]);
      MacOrigin(cfg, before, es[n], ip);
      if Wrote(cfg, before, es[n], ip, mac) {
        OriginHere(cfg, w, es, ip, mac);
      } else {
        MacsPostdateNetworkChange(cfg, w, es[..n], ip);
        OriginStays(cfg, w, es, ip, mac);
      }
    }
  }

  /** The pins of a tick after a network change: every one names an eligible client
      with a canonical MAC written since that change, and the current LAN interface. */
  lemma {:induction false} PinsPostdateNetworkChange(cfg: Config, w: World, es: seq<Event>, c: nat,
      calls: seq<PinCall>, i: nat)
    requires Inv(cfg, w) && ValidRun(cfg, w, es)
    requires c < |es| && NetworkChange(Run(cfg, w, es[..c]), es[c])
    requires var w' := Run(cfg, w, es);
             PinsExactly(calls, Repinned(TickPlan(w'.reg, w'.arp, w'.st)), w'.reg, w'.st.lanIface) && i < |calls|
    ensures var w' := Run(cfg, w, es);
            Eligible(w'.st, calls[i].ip) && calls[i].iface == w'.st.lanIface && IsCanonical(calls[i].mac)
            && exists j: nat :: j > c && WrittenSinceChange(cfg, w, es, calls[i].ip, calls[i].mac, j)
  {
    var w' := Run(cfg, w, es);
    RunKeepsInv(cfg, w, es);
    PinsAreDrift(w'.reg, w'.arp, w'.st);
    assert calls[i].ip in Drift(w');
    MacsPostdateNetworkChange(cfg, w, es, calls[i].ip);
    var j: nat :| WrittenSinceChange(cfg, w, es, calls[i].ip, calls[i].mac, j);
    assert j > c;
  }
}

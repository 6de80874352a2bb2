/** Whole runs of the pinner, the two hooks, the registry's expiry, the LAN
    detection and the kernel's own changes. Each event is atomic. */
module Network {
  import opened Basics
  import opened Mac
  import opened Addr
  import opened Route
  import opened ServiceState
  import opened Clients
  import opened Pinner
  import opened Reachability

  /** The configured client IPs, and whether LAN clients are discovered. */
  datatype Config = Config(configured: set<string>, discovery: bool)

  datatype World = World(reg: Registry, arp: ArpTable, st: State)

  datatype Event =
    | PinTick(failing: set<string>)
    | Syn(ip: Addr, mac: string, now: int, pinOk: bool)
    | Accept(peer: Option<Addr>, now: int)
    | ExpireClients(now: int, live: set<string>)
    | LanDetected(ifaddr: IfAddr, iface: string) // a confirmed detection: the first one or a change
    | OwnAddress(addr: Addr)                     // another address within the same subnet
    | VpnChanged(connected: bool)
    | ArpDelete(gone: string)
    | ArpSet(at: string, entry: ArpEntry)        // learned, or moved to another interface

  predicate ValidEvent(w: World, e: Event) {
    match e
    case Syn(_, mac, _, _) => IsCanonical(mac)
    case LanDetected(ifaddr, iface) => iface != "" && ifaddr.ones <= 32
    case OwnAddress(addr) => w.st.lanIface != "" && Contains(w.st.lanSubnet, addr)
    case ArpSet(_, entry) => IsCanonical(entry.mac)
    case _ => true
  }

  function Step(cfg: Config, w: World, e: Event): World {
    match e
    case PinTick(failing) =>
      if PinnerActive(w.st)
      then w.(reg := TickRegistry(w.reg, w.arp, w.st), arp := TickArp(w.reg, w.arp, w.st, failing)) else w
    case Syn(ip, mac, now, pinOk) =>
      if cfg.discovery
      then w.(reg := SynRegistry(w.reg, w.st, ip, mac, now), arp := SynArp(w.reg, w.arp, w.st, ip, mac, pinOk)) else w
    case Accept(peer, now) =>
      if cfg.discovery then w.(reg := AcceptRegistry(w.reg, w.arp, w.st, peer, now)) else w
    case ExpireClients(now, live) => w.(reg := Expire(w.reg, now, DISCOVERED_CLIENT_TTL, live))
    case LanDetected(ifaddr, iface) =>
      w.(reg := if w.st.lanIface == "" then w.reg else ResetNetwork(w.reg),
         st := w.st.(lanSubnet := Masked(ifaddr), lanAddr := Some(ifaddr.addr), lanIface := iface))
    case OwnAddress(addr) => w.(st := w.st.(lanAddr := Some(addr)))
    case VpnChanged(c) => w.(st := w.st.(ciscoConnected := c))
    case ArpDelete(ip) => w.(arp := w.arp - {ip})
    case ArpSet(ip, entry) => w.(arp := w.arp[ip := entry])
  }

  function Run(cfg: Config, w: World, es: seq<Event>): World {
    if es == [] then w else Step(cfg, Run(cfg, w, es[..|es| - 1]), es[|es| - 1])
  }

  predicate ValidRun(cfg: Config, w: World, es: seq<Event>) {
    es == [] ||
    (ValidRun(cfg, w, es[..|es| - 1]) && ValidEvent(Run(cfg, w, es[..|es| - 1]), es[|es| - 1]))
  }

  function Initial(entries: seq<LanClient>): World {
    World(FromConfig(entries), map[], INITIAL)
  }

  function Configured(entries: seq<LanClient>, discovery: bool): Config {
    Config((set i | 0 <= i < |entries| :: entries[i].ip), discovery)
  }

  // ----- the invariant

  predicate RegistryOk(cfg: Config, w: World) {
    cfg.configured <= w.reg.Keys
    && forall ip | ip in w.reg ::
         (w.reg[ip].isStatic <==> ip in cfg.configured)
         && (!w.reg[ip].isStatic ==> cfg.discovery && w.st.lanIface != "" && InSubnet(w.st.lanSubnet, ip))
  }

  predicate LanOk(st: State) {
    if st.lanIface == "" then st.lanSubnet == NoPrefix
    else st.lanAddr.Some? && Contains(st.lanSubnet, st.lanAddr.value)
  }

  predicate Inv(cfg: Config, w: World) {
    RegistryOk(cfg, w) && LanOk(w.st) && StoredMacs(w.reg, w.arp)
  }

  lemma {:induction false} ConfigRegistry(entries: seq<LanClient>)
    ensures FromConfig(entries).Keys == set i | 0 <= i < |entries| :: entries[i].ip
    ensures forall ip | ip in FromConfig(entries) ::
              FromConfig(entries)[ip].isStatic && FromConfig(entries)[ip].lastSeen == Never
              && CanonicalOrEmpty(FromConfig(entries)[ip].mac)
  {
    if entries != [] {
      var rest, e := entries[..|entries| - 1], entries[|entries| - 1];
      ConfigRegistry(rest);
      if Canonical(e.mac).Some? {
        CanonicalIdempotent(e.mac);
      }
      forall ip ensures ip in FromConfig(entries) <==> ip in set i | 0 <= i < |entries| :: entries[i].ip {
        if ip in FromConfig(rest) {
          var i :| 0 <= i < |rest| && rest[i].ip == ip;
          assert entries[i].ip == ip;
        }
        if i :| 0 <= i < |entries| && entries[i].ip == ip {
          assert i == |rest| || rest[i].ip == ip;
        }
      }
    }
  }

  /** The last entry for an IP is the one that counts: a MAC that parses is stored in its
      canonical form, any other is left to be learned. */
  lemma {:induction false} ConfiguredMacStored(entries: seq<LanClient>, i: nat)
    requires i < |entries| && forall j | i < j < |entries| :: entries[j].ip != entries[i].ip
    ensures entries[i].ip in FromConfig(entries)
    ensures var c := FromConfig(entries)[entries[i].ip];
            c.mac == if Canonical(entries[i].mac).Some? then Canonical(entries[i].mac).value else ""
  {
    if i < |entries| - 1 {
      ConfiguredMacStored(entries[..|entries| - 1], i);
    }
  }

  lemma InitialInv(entries: seq<LanClient>, discovery: bool)
    ensures Inv(Configured(entries, discovery), Initial(entries))
  {
    ConfigRegistry(entries);
  }

  lemma SeenKeepsRegistry(cfg: Config, w: World, ip: Addr, mac: string, now: int)
    requires RegistryOk(cfg, w) && cfg.discovery && w.st.lanIface != "" && Contains(w.st.lanSubnet, ip)
    ensures RegistryOk(cfg, w.(reg := Seen(w.reg, PrintAddr(ip), mac, now)))
  {
    AddrTextUnique(PrintAddr(ip), ip);
    var key := PrintAddr(ip);
    var r' := Seen(w.reg, key, mac, now);
    assert forall x | x in r' && x != key :: x in w.reg && r'[x] == w.reg[x];
    assert InSubnet(w.st.lanSubnet, key);
    assert r'[key].isStatic == (key in w.reg && w.reg[key].isStatic);
    assert key in cfg.configured ==> key in w.reg;
  }

  lemma TickKeepsRegistry(cfg: Config, w: World)
    requires Inv(cfg, w)
    ensures RegistryOk(cfg, w.(reg := TickRegistry(w.reg, w.arp, w.st)))
  {
    var r' := TickRegistry(w.reg, w.arp, w.st);
    assert r'.Keys == w.reg.Keys;
    assert forall ip | ip in r' :: r'[ip].isStatic == w.reg[ip].isStatic;
  }

  lemma ResetKeepsRegistry(cfg: Config, w: World, st: State)
    requires RegistryOk(cfg, w)
    ensures RegistryOk(cfg, World(ResetNetwork(w.reg), w.arp, st))
    ensures w.st.lanIface == "" ==> RegistryOk(cfg, World(w.reg, w.arp, st))
  {
    var r' := ResetNetwork(w.reg);
    assert forall ip | ip in r' :: ip in w.reg && w.reg[ip].isStatic && r'[ip].isStatic;
    assert forall ip | ip in cfg.configured :: ip in w.reg && w.reg[ip].isStatic;
  }

  /** Static entries stay exactly the configured IPs, stored MACs are canonical or
      empty, discovered clients lie in the current subnet, our address does too. */
  lemma StepKeepsInv(cfg: Config, w: World, e: Event)
    requires Inv(cfg, w) && ValidEvent(w, e)
    ensures Inv(cfg, Step(cfg, w, e))
  {
    match e
    case PinTick(failing) =>
      TickKeepsStoredMacs(w.reg, w.arp, w.st, failing);
      TickKeepsRegistry(cfg, w);
    case Syn(ip, mac, now, pinOk) =>
      SynKeepsStoredMacs(w.reg, w.arp, w.st, ip, mac, now, pinOk);
      if cfg.discovery && SynAccepted(w.st, ip) {
        SeenKeepsRegistry(cfg, w, ip, mac, now);
      }
    case Accept(peer, now) =>
      if cfg.discovery && AcceptRegisters(w.reg, w.st, peer, now) {
        SeenKeepsRegistry(cfg, w, peer.value, LearnedMac(w.arp, w.st, PrintAddr(peer.value)), now);
      }
    case ExpireClients(now, live) =>
      ExpireKeepsInv(cfg, w, now, live);
    case LanDetected(ifaddr, iface) =>
      OwnAddressInSubnet(ifaddr);
      ResetKeepsRegistry(cfg, w, Step(cfg, w, e).st);
    case OwnAddress(addr) =>
    case VpnChanged(c) =>
    case ArpDelete(ip) =>
    case ArpSet(ip, entry) =>
  }

  lemma ExpireKeepsInv(cfg: Config, w: World, now: int, live: set<string>)
    requires Inv(cfg, w)
    ensures Inv(cfg, w.(reg := Expire(w.reg, now, DISCOVERED_CLIENT_TTL, live)))
  {
    var r' := Expire(w.reg, now, DISCOVERED_CLIENT_TTL, live);
    assert forall ip | ip in r' :: ip in w.reg && r'[ip] == w.reg[ip];
    assert forall ip | ip in cfg.configured :: ip in w.reg && w.reg[ip].isStatic;
  }

  lemma {:induction false} RunKeepsInv(cfg: Config, w: World, es: seq<Event>)
    requires Inv(cfg, w) && ValidRun(cfg, w, es)
    ensures Inv(cfg, Run(cfg, w, es))
  {
    if es != [] {
      RunKeepsInv(cfg, w, es[..|es| - 1]);
      StepKeepsInv(cfg, Run(cfg, w, es[..|es| - 1]), es[|es| - 1]);
    }
  }

  /** From any configuration, after any run. */
  lemma RegistryInvariant(entries: seq<LanClient>, discovery: bool, es: seq<Event>)
    requires ValidRun(Configured(entries, discovery), Initial(entries), es)
    ensures var w := Run(Configured(entries, discovery), Initial(entries), es);
            var configured := set i | 0 <= i < |entries| :: entries[i].ip;
            (set ip | ip in w.reg && w.reg[ip].isStatic) == configured
            && (forall ip | ip in w.reg :: CanonicalOrEmpty(w.reg[ip].mac))
            && (forall ip | ip in w.reg && ip !in configured :: w.st.lanIface != "" && InSubnet(w.st.lanSubnet, ip))
            && (!discovery ==> w.reg.Keys == configured)
            && (w.st.lanIface != "" ==> w.st.lanAddr.Some? && Contains(w.st.lanSubnet, w.st.lanAddr.value))
  {
    var cfg := Configured(entries, discovery);
    InitialInv(entries, discovery);
    RunKeepsInv(cfg, Initial(entries), es);
    var w := Run(cfg, Initial(entries), es);
    assert forall ip | ip in cfg.configured :: ip in w.reg && w.reg[ip].isStatic;
  }
}

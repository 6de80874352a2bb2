/** What an accepted connection and a frame do to the registry, and how long a discovered
    client stays (internal/service/clients.go, service.go): stated on times and sightings. */
module Discovery {
  import opened Basics
  import opened Mac
  import opened Addr
  import opened Route
  import opened Clients
  import opened Reachability
  import opened Network

  // ----- one event

  /** Every other client is as before. */
  ghost predicate OthersKept(r: Registry, r': Registry, key: string) {
    (forall x | x != key :: x in r' <==> x in r) && (forall x | x != key && x in r :: r'[x] == r[x])
  }

  /** The client was seen less than a minute before `now`, and its MAC is known. */
  predicate RecentlySeen(r: Registry, key: string, now: int) {
    key in r && r[key].mac != "" && r[key].lastSeen.At? && now - r[key].lastSeen.t < 60 * SECOND
  }

  /** The peer of a connection accepted on the LAN is registered. Unless it was seen less
      than a minute ago, it counts as seen now, with the MAC of its entry on the LAN
      interface, or the one it had if there is none. */
  lemma AcceptOutcome(cfg: Config, w: World, peer: Addr, now: int)
    requires Inv(cfg, w) && cfg.discovery && w.st.lanIface != "" && Contains(w.st.lanSubnet, peer)
    ensures var w', key := Step(cfg, w, Accept(Some(peer), now)), PrintAddr(peer);
            w'.arp == w.arp && w'.st == w.st && key in w'.reg && OthersKept(w.reg, w'.reg, key)
            && if RecentlySeen(w.reg, key, now) then w'.reg == w.reg
               else w'.reg[key].lastSeen == At(now)
                    && (w'.reg[key].isStatic <==> key in w.reg && w.reg[key].isStatic)
                    && w'.reg[key].mac ==
                         if key in w.arp && w.arp[key].iface == w.st.lanIface then w.arp[key].mac
                         else if key in w.reg then w.reg[key].mac else ""
  {
    CanonicalMacNotEmpty();
  }

  /** Anyone else's connection changes nothing. */
  lemma AcceptIgnored(cfg: Config, w: World, peer: Option<Addr>, now: int)
    requires !cfg.discovery || peer.None? || w.st.lanIface == "" || !Contains(w.st.lanSubnet, peer.value)
    ensures Step(cfg, w, Accept(peer, now)) == w
  {
  }

  /** The sender of a frame from the LAN is registered as seen now, with the frame's MAC;
      with the VPN up, an entry on the LAN interface with a MAC that neither the frame nor
      the registry has is replaced. */
  lemma FrameOutcome(cfg: Config, w: World, from: Addr, mac: string, now: int, pinOk: bool)
    requires cfg.discovery && w.st.lanIface != "" && Contains(w.st.lanSubnet, from) && w.st.lanAddr != Some(from)
    requires IsCanonical(mac)
    ensures var w', key := Step(cfg, w, Syn(from, mac, now, pinOk)), PrintAddr(from);
            w'.st == w.st && key in w'.reg && OthersKept(w.reg, w'.reg, key)
            && w'.reg[key] == Client(At(now), mac, key in w.reg && w.reg[key].isStatic)
            && w'.arp == if w.st.ciscoConnected && key in w.arp && w.arp[key].iface == w.st.lanIface
                            && w.arp[key].mac != mac && !(key in w.reg && w.reg[key].mac == mac) && pinOk
                         then w.arp[key := ArpEntry(mac, w.st.lanIface)] else w.arp
  {
    CanonicalMacNotEmpty();
  }

  lemma FrameIgnored(cfg: Config, w: World, from: Addr, mac: string, now: int, pinOk: bool)
    requires !cfg.discovery || w.st.lanIface == "" || !Contains(w.st.lanSubnet, from) || w.st.lanAddr == Some(from)
    ensures Step(cfg, w, Syn(from, mac, now, pinOk)) == w
  {
  }

  /** The pinner acts with the VPN up and a LAN known, and only then: a tick whose pins
      succeed then leaves every client as it should be. */
  lemma TickOutcome(cfg: Config, w: World)
    requires Inv(cfg, w)
    ensures var w' := Step(cfg, w, PinTick({}));
            if w.st.ciscoConnected && w.st.lanIface != "" then w'.st == w.st && Converged(w'.reg, w'.arp, w'.st)
            else w' == w
  {
    if w.st.ciscoConnected && w.st.lanIface != "" {
      TickConverges(w.reg, w.arp, w.st);
    }
  }

  // ----- sightings

  /** The clock reading of an event that has one. */
  function TimeOf(e: Event): Option<int> {
    match e
    case Syn(_, _, now, _) => Some(now)
    case Accept(_, now) => Some(now)
    case ExpireClients(now, _) => Some(now)
    case _ => None
  }

  /** The event is a sighting of `ip`, last sighted at `prev`: a frame from it, or an accepted
      connection unless its MAC is known and it was sighted less than a minute ago. */
  predicate Sights(cfg: Config, w: World, e: Event, ip: string, prev: Option<int>) {
    match e
    case Syn(from, _, _, _) =>
      cfg.discovery && w.st.lanIface != "" && Contains(w.st.lanSubnet, from) && w.st.lanAddr != Some(from)
      && ip == PrintAddr(from)
    case Accept(Some(peer), now) =>
      cfg.discovery && w.st.lanIface != "" && Contains(w.st.lanSubnet, peer) && ip == PrintAddr(peer)
      && (ip !in w.reg || w.reg[ip].mac == "" || prev.None? || now - prev.value >= 60 * SECOND)
    case _ => false
  }

  /** The time of the latest sighting, after event `e`. */
  function SightingAfter(cfg: Config, w: World, e: Event, ip: string, prev: Option<int>): Option<int> {
    if Sights(cfg, w, e, ip, prev) then TimeOf(e) else prev
  }

  function LastSighting(cfg: Config, w: World, es: seq<Event>, ip: string): Option<int> {
    if es == [] then None
    else SightingAfter(cfg, Run(cfg, w, es[..|es| - 1]), es[|es| - 1], ip, LastSighting(cfg, w, es[..|es| - 1], ip))
  }

  predicate SeenAt(w: World, ip: string, sighting: Option<int>) {
    ip in w.reg ==> w.reg[ip].lastSeen == match sighting case None => Never case Some(t) => At(t)
  }

  lemma TickKeepsSeen(cfg: Config, w: World, failing: set<string>, ip: string, prev: Option<int>)
    requires Inv(cfg, w) && SeenAt(w, ip, prev)
    ensures SeenAt(Step(cfg, w, PinTick(failing)), ip, prev)
  {
    TickOfRegistered(w.reg, w.arp, w.st, ip);
  }

  lemma StepKeepsSeen(cfg: Config, w: World, e: Event, ip: string, prev: Option<int>)
    requires Inv(cfg, w) && SeenAt(w, ip, prev)
    ensures SeenAt(Step(cfg, w, e), ip, SightingAfter(cfg, w, e, ip, prev))
  {
    if e.PinTick? {
      TickKeepsSeen(cfg, w, e.failing, ip, prev);
    } else if e.Syn? || e.Accept? {
      HookKeepsSeen(cfg, w, e, ip, prev);
    }
  }

  lemma HookKeepsSeen(cfg: Config, w: World, e: Event, ip: string, prev: Option<int>)
    requires (e.Syn? || e.Accept?) && SeenAt(w, ip, prev)
    ensures SeenAt(Step(cfg, w, e), ip, SightingAfter(cfg, w, e, ip, prev))
  {
  }

  /** The run starts from a configuration. */
  predicate FromStart(cfg: Config, w: World, es: seq<Event>) {
    Inv(cfg, w) && ValidRun(cfg, w, es) && forall ip | ip in w.reg :: w.reg[ip].lastSeen == Never
  }

  lemma StartsUnseen(entries: seq<LanClient>, discovery: bool, es: seq<Event>)
    requires ValidRun(Configured(entries, discovery), Initial(entries), es)
    ensures FromStart(Configured(entries, discovery), Initial(entries), es)
  {
    InitialInv(entries, discovery);
    ConfigRegistry(entries);
  }

  /** The registry's time stamps are the latest sightings. */
  lemma {:induction false} StampsAreSightings(cfg: Config, w: World, es: seq<Event>, ip: string)
    requires FromStart(cfg, w, es)
    ensures Inv(cfg, Run(cfg, w, es)) && SeenAt(Run(cfg, w, es), ip, LastSighting(cfg, w, es, ip))
  {
    RunKeepsInv(cfg, w, es);
    if es != [] {
      StampsAreSightings(cfg, w, es[..|es| - 1], ip);
      StepKeepsSeen(cfg, Run(cfg, w, es[..|es| - 1]), es[|es| - 1], ip, LastSighting(cfg, w, es[..|es| - 1], ip));
    }
  }

  /** An expiry keeps exactly the configured clients, those with live connections and those
      whose latest sighting was less than 30 minutes ago, and changes none it keeps. */
  lemma ExpiryKeepsIff(cfg: Config, w: World, es: seq<Event>, ip: string, now: int, live: set<string>)
    requires FromStart(cfg, w, es) && ip in Run(cfg, w, es).reg
    ensures var r' := Step(cfg, Run(cfg, w, es), ExpireClients(now, live)).reg;
            var seen := LastSighting(cfg, w, es, ip);
            (ip in r' <==> ip in cfg.configured || ip in live || (seen.Some? && now < seen.value + 1800 * SECOND))
            && (ip in r' ==> r'[ip] == Run(cfg, w, es).reg[ip])
  {
    StampsAreSightings(cfg, w, es, ip);
  }

  /** No event reads an earlier time than `t`. */
  predicate NotBefore(es: seq<Event>, from: nat, t: int) {
    forall k | from <= k < |es| && TimeOf(es[k]).Some? :: TimeOf(es[k]).value >= t
  }

  /** After event `i` no expiry comes 30 minutes after `t`, unless the client is live then,
      and the network does not change. */
  ghost predicate QuietFor(cfg: Config, w: World, es: seq<Event>, i: nat, ip: string, t: int) {
    forall k | i < k < |es| ::
      (es[k].ExpireClients? ==> es[k].now < t + 1800 * SECOND || ip in es[k].live)
      && !(es[k].LanDetected? && Run(cfg, w, es[..k]).st.lanIface != "")
  }

  lemma OthersStayRegistered(cfg: Config, w: World, e: Event, ip: string)
    requires Inv(cfg, w) && ip in w.reg && !e.ExpireClients? && !(e.LanDetected? && w.st.lanIface != "")
    ensures ip in Step(cfg, w, e).reg
  {
    if e.PinTick? {
      TickOfRegistered(w.reg, w.arp, w.st, ip);
    }
  }

  lemma {:induction false} StaysWhileRecent(cfg: Config, w: World, es: seq<Event>, i: nat, ip: string, t: int)
    requires FromStart(cfg, w, es) && i < |es| && NotBefore(es, i, t) && QuietFor(cfg, w, es, i, ip, t)
    requires ip in Run(cfg, w, es[..i + 1]).reg && LastSighting(cfg, w, es[..i + 1], ip) == Some(t)
    ensures ip in Run(cfg, w, es).reg
    ensures LastSighting(cfg, w, es, ip).Some? && LastSighting(cfg, w, es, ip).value >= t
    decreases |es|
  {
    var n := |es| - 1;
    if i == n {
      assert es[..i + 1] == es;
    } else {
      PrefixQuiet(cfg, w, es, i, ip, t);
      StaysWhileRecent(cfg, w, es[..n], i, ip, t);
      StampsAreSightings(cfg, w, es[..n], ip);
      var before := Run(cfg, w, es[..n]);
      if es[n].ExpireClients? {
        ExpiryKeepsIff(cfg, w, es[..n], ip, es[n].now, es[n].live);
      } else {
        OthersStayRegistered(cfg, before, es[n], ip);
      }
    }
  }

  lemma PrefixQuiet(cfg: Config, w: World, es: seq<Event>, i: nat, ip: string, t: int)
    requires FromStart(cfg, w, es) && i + 1 < |es| && NotBefore(es, i, t) && QuietFor(cfg, w, es, i, ip, t)
    ensures var p := es[..|es| - 1];
            FromStart(cfg, w, p) && NotBefore(p, i, t) && QuietFor(cfg, w, p, i, ip, t) && p[..i + 1] == es[..i + 1]
  {
    var p := es[..|es| - 1];
    assert forall k | 0 <= k < |p| :: p[k] == es[k] && p[..k] == es[..k];
  }

  /** A client sighted at event `i`, at time `t`, stays registered: after every expiry less
      than 30 minutes later, or with a connection of its own, unless the network changes. */
  lemma SightedStays(cfg: Config, w: World, es: seq<Event>, i: nat, ip: string, t: int)
    requires FromStart(cfg, w, es) && i < |es| && TimeOf(es[i]) == Some(t)
    requires Sights(cfg, Run(cfg, w, es[..i]), es[i], ip, LastSighting(cfg, w, es[..i], ip))
    requires NotBefore(es, i, t) && QuietFor(cfg, w, es, i, ip, t)
    ensures ip in Run(cfg, w, es).reg
  {
    var before, e := Run(cfg, w, es[..i]), es[i];
    assert es[..i + 1][..i] == es[..i] && es[..i + 1][i] == e;
    PrefixStarts(cfg, w, es, i);
    SightedIsRegistered(cfg, before, e, ip, LastSighting(cfg, w, es[..i], ip));
    StaysWhileRecent(cfg, w, es, i, ip, t);
  }

  lemma SightedIsRegistered(cfg: Config, w: World, e: Event, ip: string, prev: Option<int>)
    requires Sights(cfg, w, e, ip, prev)
    ensures ip in Step(cfg, w, e).reg
  {
  }

  lemma {:induction false} PrefixStarts(cfg: Config, w: World, es: seq<Event>, i: nat)
    requires FromStart(cfg, w, es) && i <= |es|
    ensures FromStart(cfg, w, es[..i])
    decreases |es|
  {
    if i < |es| {
      PrefixStarts(cfg, w, es[..|es| - 1], i);
      assert es[..|es| - 1][..i] == es[..i];
    } else {
      assert es[..i] == es;
    }
  }

  /** A discovered client that was last sighted 30 minutes or more before an expiry, and
      has no connection, is gone after it; so is one never sighted. */
  lemma GoneWhenStale(cfg: Config, w: World, es: seq<Event>, ip: string, now: int, live: set<string>)
    requires FromStart(cfg, w, es) && ip !in cfg.configured && ip !in live
    requires match LastSighting(cfg, w, es, ip) case None => true case Some(t) => now >= t + 1800 * SECOND
    ensures ip !in Step(cfg, Run(cfg, w, es), ExpireClients(now, live)).reg
  {
    if ip in Run(cfg, w, es).reg {
      ExpiryKeepsIff(cfg, w, es, ip, now, live);
    }
  }
}

/** The pinner's tick, the SYN hook, the accept hook and LAN changes with every
    lock-protected call and every shell-out as its own step, interleaved with expiry,
    other writes of State and whatever happens to the kernel's table
    (internal/service/service.go, sniff.go, clients.go, cisco.go). Undisturbed they
    are the atomic tick and hook of `Pinner`. */
module FinePins {
  import opened Basics
  import opened Mac
  import opened Addr
  import opened Route
  import opened ServiceState
  import opened Clients
  import opened Pinner
  import opened Reachability

  /** The pinner's snapshot: for each client its MAC and the network that MAC belongs to;
      `taken` is the network that was due when it was taken. */
  datatype Snap = Snap(macs: map<string, string>, nets: map<string, nat>, taken: nat)

  /** Where the pinner is; `state` is its copy of State, `net` the network of the entry. */
  datatype Walker =
    | Idle
    | Holding(state: State)
    | Walking(state: State, snap: Snap, todo: set<string>)
    | Looked(state: State, snap: Snap, todo: set<string>, ip: string, entry: Option<ArpEntry>, net: nat)

  /** Where observeSYN is with a frame it has accepted; `net` is the sniffer's network. */
  datatype Hook =
    | Quiet
    | Accepted(state: State, ip: Addr, mac: string, net: nat)
    | Asking(state: State, ip: Addr, mac: string, net: nat)    // in repinStale, before the lookup
    | Repairing(state: State, ip: Addr, mac: string, net: nat) // the kernel's entry disagrees
    | Recording(state: State, ip: Addr, mac: string, net: nat) // before `seen`

  /** Where discoverClient is with one connection. */
  datatype Visit =
    | Met(state: State, ip: string)
    | Refreshing(state: State, ip: string, now: int) // before the lookup
    | Learned(ip: string, now: int, mac: string, net: nat) // before `seen`

  /** detectLAN between confirming a LAN and publishing it. */
  datatype Detector = Still | Confirmed(ifaddr: IfAddr, iface: string)

  /** `net` counts the network changes published. A MAC belongs to the network it was seen
      in: a frame's is the one its sniffer was started for, that of a kernel entry the one
      the kernel learned it in (`arpNet`, 0 where nothing is said). `origin` says so for
      the registry's MACs. */
  datatype Sys = Sys(
    reg: Registry,
    origin: map<string, nat>,
    arp: ArpTable,
    arpNet: map<string, nat>,
    st: State,
    net: nat,
    published: set<State>, // every State there has been
    walker: Walker,
    sniffer: Option<nat>,  // tcpdump is running, started for this network
    hook: Hook,
    visits: map<nat, Visit>,
    detector: Detector,
    calls: seq<PinCall>
  )

  datatype Step =
    | WalkGet | WalkSnapshot | WalkLookup(ip: string) | WalkAct(pinOk: bool) | WalkEnd
    | SniffStart | SniffStop
    | FrameGet(from: Addr, mac: string) | FrameKnown | FrameLookup | FramePin(ok: bool) | FrameSeen(now: int)
    | VisitGet(conn: nat, peer: Addr) | VisitKnown(conn: nat, now: int) | VisitLookup(conn: nat) | VisitSeen(conn: nat)
    | Confirm(ifaddr: IfAddr, iface: string) | Publish
    | ExpireClients(now: int, live: set<string>)
    | SetStatus(st: State) // a write of State that leaves the LAN alone
    | SetArp(arp: ArpTable, nets: map<string, nat>) // whatever the kernel or Cisco does

  predicate NetsBelow(nets: map<string, nat>, n: nat) {
    forall ip | ip in nets :: nets[ip] <= n
  }

  predicate Enabled(s: Sys, e: Step) {
    match e
    case WalkGet => s.walker.Idle?
    case WalkSnapshot => s.walker.Holding?
    case WalkLookup(ip) => s.walker.Walking? && ip in s.walker.todo
    case WalkAct(_) => s.walker.Looked?
    case WalkEnd => s.walker.Walking? && s.walker.todo == {}
    case SniffStart => s.sniffer.None? && s.st.lanIface != ""
    case SniffStop => s.sniffer.Some?
    case FrameGet(_, mac) => s.sniffer.Some? && s.hook.Quiet? && IsCanonical(mac)
    case FrameKnown => s.hook.Accepted?
    case FrameLookup => s.hook.Asking?
    case FramePin(_) => s.hook.Repairing?
    case FrameSeen(_) => s.hook.Recording?
    case VisitGet(c, _) => c !in s.visits
    case VisitKnown(c, _) => c in s.visits && s.visits[c].Met?
    case VisitLookup(c) => c in s.visits && s.visits[c].Refreshing?
    case VisitSeen(c) => c in s.visits && s.visits[c].Learned?
    case Confirm(ifaddr, iface) =>
      s.detector.Still? && ifaddr.ones <= 32 && LanChanged(Lan(s.st), LanSnapshot(Masked(ifaddr), iface))
    case Publish => s.detector.Confirmed?
    case ExpireClients(_, _) => true
    case SetStatus(st) => Lan(st) == Lan(s.st)
    case SetArp(arp, nets) => (forall ip | ip in arp :: IsCanonical(arp[ip].mac)) && NetsBelow(nets, s.net)
  }

  function Published(s: Sys, st: State): Sys {
    s.(st := st, published := s.published + {st})
  }

  /** A confirmed LAN replaces another one: the first detection is not a change. */
  predicate Changing(s: Sys) {
    s.detector.Confirmed? && s.st.lanIface != ""
  }

  /** The network that is due: from the reset on it is the next one. */
  function Due(s: Sys): nat {
    if Changing(s) then s.net + 1 else s.net
  }

  function NetOf(nets: map<string, nat>, ip: string): nat {
    if ip in nets then nets[ip] else 0
  }

  function SnapMac(snap: Snap, ip: string): string {
    if ip in snap.macs then snap.macs[ip] else ""
  }

  /** What the pinner decides from the entry it has looked up. */
  function WalkDecision(w: Walker): PinAction
    requires w.Looked?
  {
    DecidePin(w.entry, SnapMac(w.snap, w.ip), w.state.lanIface)
  }

  /** The kernel takes over the network of the MAC that is pinned. */
  function Retagged(nets: map<string, nat>, pinned: bool, ip: string, net: nat): map<string, nat> {
    if pinned then nets[ip := net] else nets
  }

  function WalkActed(s: Sys, pinOk: bool): Sys
    requires s.walker.Looked?
  {
    var w := s.walker;
    var a, mac, iface := WalkDecision(w), SnapMac(w.snap, w.ip), w.state.lanIface;
    s.(reg := ActRegistry(a, s.reg, w.entry, w.ip),
       origin := if a == PinAdopt then s.origin[w.ip := w.net] else s.origin,
       arp := ActArp(a, s.arp, w.ip, mac, iface, pinOk),
       arpNet := Retagged(s.arpNet, a == PinRepin && pinOk, w.ip, NetOf(w.snap.nets, w.ip)),
       calls := s.calls + ActCalls(a, w.ip, mac, iface),
       walker := Walking(w.state, w.snap, w.todo))
  }

  /** The walker looks up a client it may act on and passes over any other. */
  function Visited(w: Walker, ip: string, eligible: bool, entry: Option<ArpEntry>, net: nat): Walker
    requires w.Walking?
  {
    if eligible then Looked(w.state, w.snap, w.todo - {ip}, ip, entry, net)
    else Walking(w.state, w.snap, w.todo - {ip})
  }

  function WalkApply(s: Sys, e: Step): Sys
    requires Enabled(s, e)
  {
    match e
    case WalkGet => if PinnerActive(s.st) then s.(walker := Holding(s.st)) else s
    case WalkSnapshot => s.(walker := Walking(s.walker.state, Snap(Macs(s.reg), s.origin, Due(s)), s.reg.Keys))
    case WalkLookup(ip) =>
      s.(walker := Visited(s.walker, ip, Eligible(s.walker.state, ip), Entry(s.arp, ip), NetOf(s.arpNet, ip)))
    case WalkAct(pinOk) => WalkActed(s, pinOk)
    case WalkEnd => s.(walker := Idle)
    case _ => s
  }

  function FrameApply(s: Sys, e: Step): Sys
    requires Enabled(s, e)
  {
    match e
    case SniffStart => s.(sniffer := Some(s.net))
    case SniffStop => s.(sniffer := None)
    case FrameGet(ip, mac) => if SynAccepted(s.st, ip) then s.(hook := Accepted(s.st, ip, mac, s.sniffer.value)) else s
    case FrameKnown =>
      var h := s.hook;
      s.(hook := if h.mac != MacOf(s.reg, PrintAddr(h.ip)) && h.state.ciscoConnected
                 then Asking(h.state, h.ip, h.mac, h.net) else Recording(h.state, h.ip, h.mac, h.net))
    case FrameLookup =>
      var h := s.hook;
      var key := PrintAddr(h.ip);
      s.(hook := if OnLan(s.arp, key, h.state.lanIface) && s.arp[key].mac != h.mac
                 then Repairing(h.state, h.ip, h.mac, h.net) else Recording(h.state, h.ip, h.mac, h.net))
    case FramePin(ok) =>
      var h := s.hook;
      var key := PrintAddr(h.ip);
      s.(arp := if ok then s.arp[key := ArpEntry(h.mac, h.state.lanIface)] else s.arp,
         arpNet := Retagged(s.arpNet, ok, key, h.net),
         calls := s.calls + [PinCall(key, h.mac, h.state.lanIface)],
         hook := Recording(h.state, h.ip, h.mac, h.net))
    case FrameSeen(now) =>
      var key := PrintAddr(s.hook.ip);
      s.(reg := Seen(s.reg, key, s.hook.mac, now), origin := s.origin[key := s.hook.net], hook := Quiet)
    case _ => s
  }

  function VisitApply(s: Sys, e: Step): Sys
    requires Enabled(s, e)
  {
    match e
    case VisitGet(c, peer) =>
      if s.st.lanIface != "" && Contains(s.st.lanSubnet, peer)
      then s.(visits := s.visits[c := Met(s.st, PrintAddr(peer))]) else s
    case VisitKnown(c, now) =>
      var v := s.visits[c];
      s.(visits := if NeedsRefresh(s.reg, v.ip, now)
                   then s.visits[c := Refreshing(v.state, v.ip, now)] else s.visits - {c})
    case VisitLookup(c) =>
      var v := s.visits[c];
      s.(visits := s.visits[c := Learned(v.ip, v.now, LearnedMac(s.arp, v.state, v.ip), NetOf(s.arpNet, v.ip))])
    case VisitSeen(c) =>
      var v := s.visits[c];
      s.(reg := Seen(s.reg, v.ip, v.mac, v.now),
         origin := if v.mac != "" then s.origin[v.ip := v.net] else s.origin,
         visits := s.visits - {c})
    case _ => s
  }

  function OtherApply(s: Sys, e: Step): Sys
    requires Enabled(s, e)
  {
    match e
    case Confirm(ifaddr, iface) =>
      s.(reg := if s.st.lanIface == "" then s.reg else ResetNetwork(s.reg), detector := Confirmed(ifaddr, iface))
    case Publish =>
      var d := s.detector;
      Published(s.(detector := Still, net := Due(s)),
                s.st.(lanSubnet := Masked(d.ifaddr), lanAddr := Some(d.ifaddr.addr), lanIface := d.iface))
    case ExpireClients(now, live) => s.(reg := Expire(s.reg, now, DISCOVERED_CLIENT_TTL, live))
    case SetStatus(st) => Published(s, st)
    case SetArp(arp, nets) => s.(arp := arp, arpNet := nets)
    case _ => s
  }

  predicate WalkStep(e: Step) {
    e.WalkGet? || e.WalkSnapshot? || e.WalkLookup? || e.WalkAct? || e.WalkEnd?
  }

  predicate FrameStep(e: Step) {
    e.SniffStart? || e.SniffStop? || e.FrameGet? || e.FrameKnown? || e.FrameLookup? || e.FramePin? || e.FrameSeen?
  }

  predicate VisitStep(e: Step) {
    e.VisitGet? || e.VisitKnown? || e.VisitLookup? || e.VisitSeen?
  }

  function Apply(s: Sys, e: Step): Sys
    requires Enabled(s, e)
  {
    if WalkStep(e) then WalkApply(s, e)
    else if FrameStep(e) then FrameApply(s, e)
    else if VisitStep(e) then VisitApply(s, e)
    else OtherApply(s, e)
  }

  function Exec(s: Sys, es: seq<Step>): Option<Sys> {
    if es == [] then Some(s)
    else
      match Exec(s, es[..|es| - 1])
      case None => None
      case Some(m) => if Enabled(m, es[|es| - 1]) then Some(Apply(m, es[|es| - 1])) else None
  }

  /** Whatever registry and kernel hold at the start belongs to the first network. */
  predicate Start(s: Sys) {
    StoredMacs(s.reg, s.arp) && s.net == 0 && s.origin == map[] && s.arpNet == map[]
    && s.published == {s.st} && s.walker.Idle? && s.sniffer.None? && s.hook.Quiet? && s.visits == map[]
    && s.detector.Still? && s.calls == []
  }

  // ----- every pin call is well-formed

  /** A canonical MAC for an eligible client on the LAN interface, judged by `st` alone. */
  predicate JudgedBy(c: PinCall, st: State) {
    c.mac != "" && IsCanonical(c.mac) && st.ciscoConnected && c.iface == st.lanIface != "" && Eligible(st, c.ip)
  }

  ghost predicate WellFormed(c: PinCall, published: set<State>) {
    exists st :: st in published && JudgedBy(c, st)
  }

  ghost predicate CallsOk(calls: seq<PinCall>, published: set<State>) {
    forall i | 0 <= i < |calls| :: WellFormed(calls[i], published)
  }

  predicate MacsOk(macs: map<string, string>) {
    forall ip | ip in macs :: CanonicalOrEmpty(macs[ip])
  }

  predicate EntryOk(e: Option<ArpEntry>) {
    e.Some? ==> IsCanonical(e.value.mac)
  }

  predicate WalkerOk(w: Walker, published: set<State>) {
    (w.Idle? || (w.state in published && PinnerActive(w.state)))
    && (w.Walking? || w.Looked? ==> MacsOk(w.snap.macs))
    && (w.Looked? ==> Eligible(w.state, w.ip) && EntryOk(w.entry))
  }

  predicate HookOk(h: Hook, published: set<State>) {
    (!h.Quiet? ==> IsCanonical(h.mac) && h.state in published && SynAccepted(h.state, h.ip))
    && (h.Asking? || h.Repairing? ==> h.state.ciscoConnected)
  }

  predicate VisitsOk(visits: map<nat, Visit>) {
    forall c | c in visits && visits[c].Learned? :: CanonicalOrEmpty(visits[c].mac)
  }

  ghost predicate Inv(s: Sys) {
    StoredMacs(s.reg, s.arp) && s.st in s.published
    && WalkerOk(s.walker, s.published) && HookOk(s.hook, s.published) && VisitsOk(s.visits)
    && CallsOk(s.calls, s.published)
  }

  lemma MorePublished(calls: seq<PinCall>, p: set<State>, q: set<State>)
    requires p <= q && CallsOk(calls, p)
    ensures CallsOk(calls, q)
  {
    forall i | 0 <= i < |calls| ensures WellFormed(calls[i], q) {
      assert WellFormed(calls[i], p);
      var st :| st in p && JudgedBy(calls[i], st);
      assert st in q && JudgedBy(calls[i], st);
    }
  }

  /** One more pin call, judged by a published copy. */
  lemma MoreCalls(calls: seq<PinCall>, c: PinCall, st: State, published: set<State>)
    requires CallsOk(calls, published) && st in published && JudgedBy(c, st)
    ensures CallsOk(calls + [c], published)
  {
    assert WellFormed(c, published);
  }

  lemma ActKeepsInv(s: Sys, pinOk: bool)
    requires Inv(s) && s.walker.Looked?
    ensures Inv(WalkActed(s, pinOk))
  {
    var w := s.walker;
    if WalkDecision(w) == PinRepin {
      MoreCalls(s.calls, PinCall(w.ip, SnapMac(w.snap, w.ip), w.state.lanIface), w.state, s.published);
    }
  }

  lemma LookMovesWalker(s: Sys, e: Step)
    requires Enabled(s, e) && WalkStep(e) && !e.WalkAct?
    ensures WalkApply(s, e) == s.(walker := WalkApply(s, e).walker)
  {
  }

  lemma StoredMacsRead(s: Sys, ip: string)
    requires StoredMacs(s.reg, s.arp)
    ensures MacsOk(Macs(s.reg)) && EntryOk(Entry(s.arp, ip))
  {
  }

  lemma VisitedOk(w: Walker, ip: string, eligible: bool, entry: Option<ArpEntry>, net: nat, published: set<State>)
    requires w.Walking? && WalkerOk(w, published) && EntryOk(entry) && (eligible ==> Eligible(w.state, ip))
    ensures WalkerOk(Visited(w, ip, eligible, entry, net), published)
  {
  }

  lemma LookupKeepsWalker(s: Sys, ip: string)
    requires WalkerOk(s.walker, s.published) && EntryOk(Entry(s.arp, ip)) && Enabled(s, WalkLookup(ip))
    ensures WalkerOk(WalkApply(s, WalkLookup(ip)).walker, s.published)
  {
    VisitedOk(s.walker, ip, Eligible(s.walker.state, ip), Entry(s.arp, ip), NetOf(s.arpNet, ip), s.published);
  }

  lemma LookKeepsWalker(s: Sys, e: Step)
    requires s.st in s.published && WalkerOk(s.walker, s.published) && MacsOk(Macs(s.reg))
    requires Enabled(s, e) && (e.WalkGet? || e.WalkSnapshot? || e.WalkEnd?)
    ensures WalkerOk(WalkApply(s, e).walker, s.published)
  {
  }

  lemma FramePinKeepsInv(s: Sys, ok: bool)
    requires Inv(s) && s.hook.Repairing?
    ensures Inv(FrameApply(s, FramePin(ok)))
  {
    var h := s.hook;
    FrameJudged(h.state, h.ip, h.mac);
    SetKeepsStoredMacs(s.reg, s.arp, PrintAddr(h.ip), ArpEntry(h.mac, h.state.lanIface));
    MoreCalls(s.calls, PinCall(PrintAddr(h.ip), h.mac, h.state.lanIface), h.state, s.published);
  }

  lemma FrameJudged(st: State, ip: Addr, mac: string)
    requires SynAccepted(st, ip) && st.ciscoConnected && IsCanonical(mac)
    ensures JudgedBy(PinCall(PrintAddr(ip), mac, st.lanIface), st)
  {
    CanonicalMacNotEmpty();
    AcceptedIsEligible(st, ip);
  }

  lemma SeenKeepsInv(s: Sys, now: int)
    requires Inv(s) && s.hook.Recording?
    ensures Inv(FrameApply(s, FrameSeen(now)))
  {
    SeenKeepsStoredMacs(s.reg, s.arp, PrintAddr(s.hook.ip), s.hook.mac, now);
  }

  lemma FrameMovesHook(s: Sys, e: Step)
    requires Enabled(s, e) && FrameStep(e) && !e.FramePin? && !e.FrameSeen?
    ensures FrameApply(s, e) == s.(hook := FrameApply(s, e).hook, sniffer := FrameApply(s, e).sniffer)
  {
  }

  lemma FrameKeepsHook(s: Sys, e: Step)
    requires s.st in s.published && HookOk(s.hook, s.published)
    requires Enabled(s, e) && FrameStep(e) && !e.FramePin? && !e.FrameSeen?
    ensures HookOk(FrameApply(s, e).hook, s.published)
  {
  }

  lemma VisitKeepsInv(s: Sys, e: Step)
    requires Inv(s) && Enabled(s, e) && VisitStep(e)
    ensures Inv(VisitApply(s, e))
  {
  }

  lemma OtherKeepsInv(s: Sys, e: Step)
    requires Inv(s) && Enabled(s, e) && !WalkStep(e) && !FrameStep(e) && !VisitStep(e)
    ensures Inv(OtherApply(s, e))
  {
    MorePublished(s.calls, s.published, OtherApply(s, e).published);
  }

  lemma StepKeepsInv(s: Sys, e: Step)
    requires Inv(s) && Enabled(s, e)
    ensures Inv(Apply(s, e))
  {
    if e.WalkAct? {
      ActKeepsInv(s, e.pinOk);
    } else if WalkStep(e) {
      LookMovesWalker(s, e);
      StoredMacsRead(s, if e.WalkLookup? then e.ip else "");
      if e.WalkLookup? {
        LookupKeepsWalker(s, e.ip);
      } else {
        LookKeepsWalker(s, e);
      }
    } else if e.FramePin? {
      FramePinKeepsInv(s, e.ok);
    } else if e.FrameSeen? {
      SeenKeepsInv(s, e.now);
    } else if FrameStep(e) {
      FrameMovesHook(s, e);
      FrameKeepsHook(s, e);
    } else if VisitStep(e) {
      VisitKeepsInv(s, e);
    } else {
      OtherKeepsInv(s, e);
    }
  }

  /** In every interleaving each pin call carries a non-empty canonical MAC, and its
      subnet, interface and own-address checks come from one published State copy. */
  lemma {:induction false} EveryPinWellFormed(s0: Sys, es: seq<Step>)
    requires Start(s0) && Exec(s0, es).Some?
    ensures Inv(Exec(s0, es).value)
    ensures var s := Exec(s0, es).value; forall i | 0 <= i < |s.calls| :: WellFormed(s.calls[i], s.published)
  {
    if es != [] {
      EveryPinWellFormed(s0, es[..|es| - 1]);
      StepKeepsInv(Exec(s0, es[..|es| - 1]).value, es[|es| - 1]);
    }
  }

  // ----- undisturbed, the fine steps are the atomic tick and hook

  lemma After(s0: Sys, es: seq<Step>, s: Sys, e: Step) returns (more: seq<Step>, s': Sys)
    requires Exec(s0, es) == Some(s) && Enabled(s, e)
    ensures more == es + [e] && s' == Apply(s, e) && Exec(s0, more) == Some(s')
  {
    more, s' := es + [e], Apply(s, e);
    assert more[..|es|] == es;
  }

  lemma {:induction false} ExecAppend(s: Sys, es: seq<Step>, more: seq<Step>)
    requires Exec(s, es).Some?
    ensures Exec(s, es + more) == Exec(Exec(s, es).value, more)
  {
    if more == [] {
      assert es + more == es;
    } else {
      var n := |more| - 1;
      ExecAppend(s, es, more[..n]);
      assert (es + more)[..|es + more| - 1] == es + more[..n];
    }
  }

  /** The steps of a frame nothing interferes with. */
  function FrameSteps(s: Sys, ip: Addr, mac: string, now: int, ok: bool): seq<Step> {
    if !SynAccepted(s.st, ip) then [FrameGet(ip, mac)]
    else [FrameGet(ip, mac)] + AcceptedSteps(s, s.st, ip, mac, now, ok)
  }

  /** The steps after it was accepted with the State copy `st`. */
  function AcceptedSteps(s: Sys, st: State, ip: Addr, mac: string, now: int, ok: bool): seq<Step> {
    [FrameKnown] + (if mac == MacOf(s.reg, PrintAddr(ip)) || !st.ciscoConnected then [FrameSeen(now)]
                    else AskingSteps(s, st, ip, mac, now, ok))
  }

  /** The steps from repinStale's lookup on. */
  function AskingSteps(s: Sys, st: State, ip: Addr, mac: string, now: int, ok: bool): seq<Step> {
    [FrameLookup] + if OnLan(s.arp, PrintAddr(ip), st.lanIface) && s.arp[PrintAddr(ip)].mac != mac
                    then [FramePin(ok), FrameSeen(now)] else [FrameSeen(now)]
  }

  /** What the atomic hook makes of the frame. */
  predicate AtomicSyn(s: Sys, s': Sys, ip: Addr, mac: string, now: int, ok: bool) {
    s' == s.(reg := SynRegistry(s.reg, s.st, ip, mac, now),
             arp := SynArp(s.reg, s.arp, s.st, ip, mac, ok),
             origin := s'.origin, arpNet := s'.arpNet,
             calls := if SynRepins(s.reg, s.arp, s.st, ip, mac)
                      then s.calls + [PinCall(PrintAddr(ip), mac, s.st.lanIface)] else s.calls)
  }

  lemma ExecOne(s: Sys, e: Step)
    requires Enabled(s, e)
    ensures Exec(s, [e]) == Some(Apply(s, e))
  {
    var es := [e];
    assert es[..|es| - 1] == [];
  }

  lemma OneStep(s: Sys, e: Step, more: seq<Step>)
    requires Enabled(s, e)
    ensures Exec(s, [e] + more) == Exec(Apply(s, e), more)
  {
    ExecOne(s, e);
    ExecAppend(s, [e], more);
  }

  /** From a frame with State copy `st` on: what its hook does to registry, table and calls. */
  predicate FrameDone(s: Sys, s': Sys, st: State, ip: Addr, mac: string, now: int, stale: bool, ok: bool) {
    s' == s.(reg := Seen(s.reg, PrintAddr(ip), mac, now), hook := Quiet, origin := s'.origin, arpNet := s'.arpNet,
             arp := if stale && ok then s.arp[PrintAddr(ip) := ArpEntry(mac, st.lanIface)] else s.arp,
             calls := if stale then s.calls + [PinCall(PrintAddr(ip), mac, st.lanIface)] else s.calls)
  }

  lemma AskingRuns(s: Sys, now: int, ok: bool)
    requires s.hook.Asking?
    ensures var h, key := s.hook, PrintAddr(s.hook.ip);
            var end := Exec(s, AskingSteps(s, h.state, h.ip, h.mac, now, ok));
            var stale := OnLan(s.arp, key, h.state.lanIface) && s.arp[key].mac != h.mac;
            end.Some? && FrameDone(s, end.value, h.state, h.ip, h.mac, now, stale, ok)
  {
    var s1 := FrameApply(s, FrameLookup);
    if s1.hook.Repairing? {
      OneStep(s, FrameLookup, [FramePin(ok), FrameSeen(now)]);
      assert [FramePin(ok), FrameSeen(now)] == [FramePin(ok)] + [FrameSeen(now)];
      OneStep(s1, FramePin(ok), [FrameSeen(now)]);
      ExecOne(FrameApply(s1, FramePin(ok)), FrameSeen(now));
    } else {
      OneStep(s, FrameLookup, [FrameSeen(now)]);
      ExecOne(s1, FrameSeen(now));
    }
  }

  /** From an accepted frame on, whatever has happened since its State copy was taken. */
  lemma AcceptedRuns(s: Sys, now: int, ok: bool)
    requires s.hook.Accepted?
    ensures var h, key := s.hook, PrintAddr(s.hook.ip);
            var end := Exec(s, AcceptedSteps(s, h.state, h.ip, h.mac, now, ok));
            var stale := h.mac != MacOf(s.reg, key) && h.state.ciscoConnected
                         && OnLan(s.arp, key, h.state.lanIface) && s.arp[key].mac != h.mac;
            end.Some? && FrameDone(s, end.value, h.state, h.ip, h.mac, now, stale, ok)
  {
    var h := s.hook;
    var s1 := FrameApply(s, FrameKnown);
    if s1.hook.Asking? {
      OneStep(s, FrameKnown, AskingSteps(s, h.state, h.ip, h.mac, now, ok));
      AskingRuns(s1, now, ok);
    } else {
      OneStep(s, FrameKnown, [FrameSeen(now)]);
      ExecOne(s1, FrameSeen(now));
    }
  }

  lemma {:induction false} FrameIsAtomicSyn(s: Sys, ip: Addr, mac: string, now: int, ok: bool)
    requires s.sniffer.Some? && s.hook.Quiet? && IsCanonical(mac)
    ensures var end := Exec(s, FrameSteps(s, ip, mac, now, ok)); end.Some? && AtomicSyn(s, end.value, ip, mac, now, ok)
  {
    if SynAccepted(s.st, ip) {
      var s1 := FrameApply(s, FrameGet(ip, mac));
      OneStep(s, FrameGet(ip, mac), AcceptedSteps(s, s.st, ip, mac, now, ok));
      AcceptedRuns(s1, now, ok);
    } else {
      ExecOne(s, FrameGet(ip, mac));
    }
  }

  /** The steps of an accept hook nothing interferes with. */
  function VisitSteps(s: Sys, c: nat, peer: Addr, now: int): seq<Step> {
    if s.st.lanIface == "" || !Contains(s.st.lanSubnet, peer) then [VisitGet(c, peer)]
    else [VisitGet(c, peer)] + ([VisitKnown(c, now)]
         + if NeedsRefresh(s.reg, PrintAddr(peer), now) then [VisitLookup(c)] + [VisitSeen(c)] else [])
  }

  lemma KnownVisitRuns(s: Sys, c: nat, now: int)
    requires c in s.visits && s.visits[c].Met?
    ensures var v := s.visits[c];
            var rest := if NeedsRefresh(s.reg, v.ip, now) then [VisitLookup(c)] + [VisitSeen(c)] else [];
            var end := Exec(s, [VisitKnown(c, now)] + rest);
            end.Some? && end.value ==
              s.(visits := s.visits - {c}, origin := end.value.origin,
                 reg := if NeedsRefresh(s.reg, v.ip, now)
                        then Seen(s.reg, v.ip, LearnedMac(s.arp, v.state, v.ip), now) else s.reg)
  {
    var v, s1 := s.visits[c], VisitApply(s, VisitKnown(c, now));
    if NeedsRefresh(s.reg, v.ip, now) {
      OneStep(s, VisitKnown(c, now), [VisitLookup(c)] + [VisitSeen(c)]);
      RefreshRuns(s1, c);
      assert s1.visits - {c} == s.visits - {c};
    } else {
      ExecOne(s, VisitKnown(c, now));
      assert [VisitKnown(c, now)] + [] == [VisitKnown(c, now)];
    }
  }

  lemma RefreshRuns(s: Sys, c: nat)
    requires c in s.visits && s.visits[c].Refreshing?
    ensures var v, end := s.visits[c], Exec(s, [VisitLookup(c)] + [VisitSeen(c)]);
            end.Some? && end.value ==
              s.(visits := s.visits - {c}, origin := end.value.origin,
                 reg := Seen(s.reg, v.ip, LearnedMac(s.arp, v.state, v.ip), v.now))
  {
    var s1 := VisitApply(s, VisitLookup(c));
    OneStep(s, VisitLookup(c), [VisitSeen(c)]);
    ExecOne(s1, VisitSeen(c));
    assert s1.visits - {c} == s.visits - {c};
  }

  lemma {:induction false} VisitIsAtomicAccept(s: Sys, c: nat, peer: Addr, now: int)
    requires c !in s.visits
    ensures var end := Exec(s, VisitSteps(s, c, peer, now));
            end.Some? && end.value ==
              s.(reg := AcceptRegistry(s.reg, s.arp, s.st, Some(peer), now), origin := end.value.origin)
  {
    if s.st.lanIface == "" || !Contains(s.st.lanSubnet, peer) {
      ExecOne(s, VisitGet(c, peer));
    } else {
      var s1 := VisitApply(s, VisitGet(c, peer));
      var rest := if NeedsRefresh(s.reg, PrintAddr(peer), now) then [VisitLookup(c)] + [VisitSeen(c)] else [];
      OneStep(s, VisitGet(c, peer), [VisitKnown(c, now)] + rest);
      KnownVisitRuns(s1, c, now);
      assert s1.visits - {c} == s.visits;
    }
  }

  /** What the walker does about one client. */
  function ClientSteps(st: State, failing: set<string>, ip: string): seq<Step> {
    if Eligible(st, ip) then [WalkLookup(ip), WalkAct(ip !in failing)] else [WalkLookup(ip)]
  }

  function WalkSteps(st: State, failing: set<string>, order: seq<string>): seq<Step> {
    if order == [] then [WalkGet, WalkSnapshot]
    else WalkSteps(st, failing, order[..|order| - 1]) + ClientSteps(st, failing, order[|order| - 1])
  }

  /** `s` is `s0` with a walk under way that has visited the clients in `on`. */
  predicate Walked(s0: Sys, s: Sys, t: Tick, on: set<string>) {
    s == s0.(reg := t.reg, arp := t.arp, calls := s0.calls + t.calls, origin := s.origin, arpNet := s.arpNet,
             walker := Walking(s0.st, Snap(Macs(s0.reg), s0.origin, Due(s0)), s0.reg.Keys - on))
  }

  lemma ClientIsAction(s: Sys, failing: set<string>, ip: string)
    requires s.walker.Walking? && ip in s.walker.todo
    ensures var w := s.walker;
            var st, mac := w.state, SnapMac(w.snap, ip);
            var a := ClientAction(s.arp, st, ip, mac);
            var end := Exec(s, ClientSteps(st, failing, ip));
            end.Some? && end.value ==
              s.(reg := ActRegistry(a, s.reg, Entry(s.arp, ip), ip),
                 arp := ActArp(a, s.arp, ip, mac, st.lanIface, ip !in failing),
                 calls := s.calls + ActCalls(a, ip, mac, st.lanIface),
                 origin := end.value.origin, arpNet := end.value.arpNet,
                 walker := Walking(w.state, w.snap, w.todo - {ip}))
  {
    var st := s.walker.state;
    var s1 := WalkApply(s, WalkLookup(ip));
    if Eligible(st, ip) {
      assert ClientSteps(st, failing, ip) == [WalkLookup(ip)] + [WalkAct(ip !in failing)];
      OneStep(s, WalkLookup(ip), [WalkAct(ip !in failing)]);
      ExecOne(s1, WalkAct(ip !in failing));
    } else {
      ExecOne(s, WalkLookup(ip));
      assert s.calls + [] == s.calls;
    }
  }

  lemma ClientMore(s0: Sys, s: Sys, t: Tick, on: set<string>, ip: string)
    requires Walked(s0, s, t, on)
    ensures s.walker.todo - {ip} == s0.reg.Keys - (on + {ip})
    ensures forall more: seq<PinCall> :: s.calls + more == s0.calls + (t.calls + more)
  {
  }

  lemma WalkStarts(s0: Sys)
    requires s0.walker.Idle? && PinnerActive(s0.st)
    ensures Exec(s0, [WalkGet, WalkSnapshot]).Some?
    ensures Walked(s0, Exec(s0, [WalkGet, WalkSnapshot]).value, Tick(s0.reg, s0.arp, []), {})
  {
    assert [WalkGet, WalkSnapshot] == [WalkGet] + [WalkSnapshot];
    OneStep(s0, WalkGet, [WalkSnapshot]);
    ExecOne(WalkApply(s0, WalkGet), WalkSnapshot);
    assert s0.reg.Keys - {} == s0.reg.Keys && s0.calls + [] == s0.calls;
  }

  lemma {:induction false} WalkIsTickOver(s0: Sys, failing: set<string>, order: seq<string>)
    requires s0.walker.Idle? && PinnerActive(s0.st) && Distinct(order) && forall ip | ip in order :: ip in s0.reg
    ensures Exec(s0, WalkSteps(s0.st, failing, order)).Some?
    ensures Walked(s0, Exec(s0, WalkSteps(s0.st, failing, order)).value,
                   TickOver(s0.reg, s0.arp, s0.st, failing, order), set ip | ip in order)
  {
    if order == [] {
      WalkStarts(s0);
      assert (set ip | ip in order) == {};
    } else {
      var rest, ip := order[..|order| - 1], order[|order| - 1];
      WalkIsTickOver(s0, failing, rest);
      ElementsOfOrder(order);
      var t := TickOver(s0.reg, s0.arp, s0.st, failing, rest);
      var s, on := Exec(s0, WalkSteps(s0.st, failing, rest)).value, set x | x in rest;
      ExecAppend(s0, WalkSteps(s0.st, failing, rest), ClientSteps(s0.st, failing, ip));
      ClientIsAction(s, failing, ip);
      ClientMore(s0, s, t, on, ip);
    }
  }

  /** A walk nothing interferes with does what the atomic tick does, in any order. */
  lemma WalkIsAtomicTick(s0: Sys, failing: set<string>, order: seq<string>)
    requires s0.walker.Idle? && PinnerActive(s0.st) && Distinct(order) && forall ip :: ip in order <==> ip in s0.reg
    ensures var end := Exec(s0, WalkSteps(s0.st, failing, order) + [WalkEnd]);
            end.Some? && end.value.walker.Idle? && end.value.st == s0.st
            && end.value.reg == TickRegistry(s0.reg, s0.arp, s0.st)
            && end.value.arp == TickArp(s0.reg, s0.arp, s0.st, failing)
            && s0.calls <= end.value.calls
            && PinsExactly(end.value.calls[|s0.calls|..], Repinned(TickPlan(s0.reg, s0.arp, s0.st)), s0.reg,
              s0.st.lanIface)
  {
    WalkIsTickOver(s0, failing, order);
    TickOrderIndependent(s0.reg, s0.arp, s0.st, failing, order);
    var t := TickOver(s0.reg, s0.arp, s0.st, failing, order);
    var s := Exec(s0, WalkSteps(s0.st, failing, order)).value;
    assert s.walker.todo == {};
    ExecAppend(s0, WalkSteps(s0.st, failing, order), [WalkEnd]);
    ExecOne(s, WalkEnd);
    assert (s0.calls + t.calls)[|s0.calls|..] == t.calls;
  }
}

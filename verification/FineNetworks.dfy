/** Which network the MACs in the registry and in the pins belong to, over every
    interleaving of single calls. The source means a MAC of one network never to be
    pinned on the next (internal/service/clients.go, cisco.go); it takes no lock across
    a hook or a tick, so that holds exactly for the interleavings described here. */
module FineNetworks {
  import opened Basics
  import opened Mac
  import opened Addr
  import opened Route
  import opened ServiceState
  import opened Clients
  import opened Pinner
  import opened Reachability
  import opened FinePins

  /** Every MAC in the registry belongs to the network that is due. */
  predicate StoredCurrent(s: Sys) {
    forall ip | ip in s.reg && s.reg[ip].mac != "" :: NetOf(s.origin, ip) == Due(s)
  }

  /** The step stores a MAC; the value is the network the MAC belongs to. */
  function StoredNet(s: Sys, e: Step): Option<nat>
    requires Enabled(s, e)
  {
    match e
    case FrameSeen(_) => Some(s.hook.net)
    case VisitSeen(c) => if s.visits[c].mac != "" then Some(s.visits[c].net) else None
    case WalkAct(_) => if WalkDecision(s.walker) == PinAdopt && s.walker.ip in s.reg then Some(s.walker.net) else None
    case _ => None
  }

  /** The step calls pin for a client whose entry is gone, with the snapshot's MAC. */
  predicate RepinsFromSnapshot(s: Sys, e: Step)
    requires Enabled(s, e)
  {
    e.WalkAct? && WalkDecision(s.walker) == PinRepin
  }

  /** If the step calls pin, the MAC belongs to the network that is due. */
  predicate PinsCurrent(s: Sys, e: Step)
    requires Enabled(s, e)
  {
    (e.FramePin? ==> s.hook.net == Due(s))
    && (RepinsFromSnapshot(s, e) ==> NetOf(s.walker.snap.nets, s.walker.ip) == Due(s))
  }

  /** No network change is under way, and none has been published since `net` was. */
  predicate UpToDate(s: Sys, net: nat) {
    !Changing(s) && net == s.net
  }

  /** A frame is recorded or pinned only from a sniffer, and an entry adopted only if the
      kernel learned it, since the last network change; a pin from the snapshot needs a
      snapshot taken since then. */
  predicate Timely(s: Sys, e: Step)
    requires Enabled(s, e)
  {
    (StoredNet(s, e).Some? ==> UpToDate(s, StoredNet(s, e).value))
    && (e.FramePin? ==> UpToDate(s, s.hook.net))
    && (RepinsFromSnapshot(s, e) ==> UpToDate(s, s.walker.snap.taken))
  }

  /** Throughout the run, every MAC stored or pinned belongs to the network that is due. */
  predicate NeverOld(s0: Sys, es: seq<Step>)
    requires Exec(s0, es).Some?
  {
    StoredCurrent(Exec(s0, es).value)
    && (es == [] || (NeverOld(s0, es[..|es| - 1]) && PinsCurrent(Exec(s0, es[..|es| - 1]).value, es[|es| - 1])))
  }

  predicate AllTimely(s0: Sys, es: seq<Step>)
    requires Exec(s0, es).Some?
  {
    es == [] || (AllTimely(s0, es[..|es| - 1]) && Timely(Exec(s0, es[..|es| - 1]).value, es[|es| - 1]))
  }

  // ----- what every run keeps

  /** No sniffer, entry, snapshot or stored MAC is ahead of the published network. */
  predicate Bounded(s: Sys) {
    NetsBelow(s.origin, s.net) && NetsBelow(s.arpNet, s.net)
    && (s.walker.Walking? || s.walker.Looked? ==> NetsBelow(s.walker.snap.nets, s.net))
    && (s.walker.Looked? ==> s.walker.net <= s.net)
    && (s.sniffer.Some? ==> s.sniffer.value <= s.net)
    && (!s.hook.Quiet? ==> s.hook.net <= s.net)
    && forall c | c in s.visits && s.visits[c].Learned? :: s.visits[c].net <= s.net
  }

  lemma ActKeepsBounded(s: Sys, e: Step)
    requires Bounded(s) && Enabled(s, e) && e.WalkAct?
    ensures Bounded(WalkApply(s, e))
  {
  }

  lemma LookKeepsBounded(s: Sys, e: Step)
    requires Bounded(s) && Enabled(s, e) && WalkStep(e) && !e.WalkAct?
    ensures Bounded(WalkApply(s, e))
  {
  }

  lemma WalkKeepsBounded(s: Sys, e: Step)
    requires Bounded(s) && Enabled(s, e) && WalkStep(e)
    ensures Bounded(WalkApply(s, e))
  {
    if e.WalkAct? {
      ActKeepsBounded(s, e);
    } else {
      LookKeepsBounded(s, e);
    }
  }

  lemma FrameKeepsBounded(s: Sys, e: Step)
    requires Bounded(s) && Enabled(s, e) && FrameStep(e)
    ensures Bounded(FrameApply(s, e))
  {
  }

  lemma VisitKeepsBounded(s: Sys, e: Step)
    requires Bounded(s) && Enabled(s, e) && VisitStep(e)
    ensures Bounded(VisitApply(s, e))
  {
  }

  lemma OtherKeepsBounded(s: Sys, e: Step)
    requires Bounded(s) && Enabled(s, e) && !WalkStep(e) && !FrameStep(e) && !VisitStep(e)
    ensures Bounded(OtherApply(s, e))
  {
  }

  lemma StepKeepsBounded(s: Sys, e: Step)
    requires Bounded(s) && Enabled(s, e)
    ensures Bounded(Apply(s, e))
  {
    if WalkStep(e) {
      WalkKeepsBounded(s, e);
    } else if FrameStep(e) {
      FrameKeepsBounded(s, e);
    } else if VisitStep(e) {
      VisitKeepsBounded(s, e);
    } else {
      OtherKeepsBounded(s, e);
    }
  }

  /** The MACs of the snapshot belong to the network that was due when it was taken. */
  predicate SnapCurrent(w: Walker) {
    w.Walking? || w.Looked? ==>
      forall ip | ip in w.snap.macs && w.snap.macs[ip] != "" :: NetOf(w.snap.nets, ip) == w.snap.taken
  }

  lemma StepKeepsSnap(s: Sys, e: Step)
    requires StoredCurrent(s) && SnapCurrent(s.walker) && Enabled(s, e)
    ensures SnapCurrent(Apply(s, e).walker)
  {
    if !e.WalkSnapshot? {
      SnapStays(s, e);
    }
  }

  lemma SnapStays(s: Sys, e: Step)
    requires Enabled(s, e) && !e.WalkSnapshot?
    ensures var w, w' := s.walker, Apply(s, e).walker;
            w'.Walking? || w'.Looked? ==> (w.Walking? || w.Looked?) && w'.snap == w.snap
  {
    if !WalkStep(e) {
      WalkerStays(s, e);
    }
  }

  lemma WalkerStays(s: Sys, e: Step)
    requires Enabled(s, e) && !WalkStep(e)
    ensures Apply(s, e).walker == s.walker
  {
  }

  // ----- one step

  /** A step that stores no MAC keeps the registry current. */
  lemma NoWriteKeepsCurrent(s: Sys, e: Step)
    requires StoredCurrent(s) && Enabled(s, e) && StoredNet(s, e).None?
    ensures StoredCurrent(Apply(s, e))
  {
    if WalkStep(e) {
      WalkKeepsMacs(s, e);
    } else if FrameStep(e) {
      FrameKeepsMacs(s, e);
    } else if VisitStep(e) {
      VisitKeepsMacs(s, e);
    } else if !e.Confirm? {
      OtherKeepsMacs(s, e);
    }
  }

  /** Every MAC in `s'` was there before, with the same origin. */
  predicate OnlyOldMacs(s: Sys, s': Sys) {
    Due(s') == Due(s)
    && forall ip | ip in s'.reg && s'.reg[ip].mac != "" ::
         ip in s.reg && s'.reg[ip].mac == s.reg[ip].mac && NetOf(s'.origin, ip) == NetOf(s.origin, ip)
  }

  lemma ActKeepsMacs(s: Sys, e: Step)
    requires Enabled(s, e) && StoredNet(s, e).None? && e.WalkAct?
    ensures OnlyOldMacs(s, WalkApply(s, e))
  {
  }

  lemma LookKeepsMacs(s: Sys, e: Step)
    requires Enabled(s, e) && StoredNet(s, e).None? && WalkStep(e) && !e.WalkAct?
    ensures OnlyOldMacs(s, WalkApply(s, e))
  {
  }

  lemma WalkKeepsMacs(s: Sys, e: Step)
    requires Enabled(s, e) && StoredNet(s, e).None? && WalkStep(e)
    ensures OnlyOldMacs(s, WalkApply(s, e))
  {
    if e.WalkAct? {
      ActKeepsMacs(s, e);
    } else {
      LookKeepsMacs(s, e);
    }
  }

  lemma FrameKeepsMacs(s: Sys, e: Step)
    requires Enabled(s, e) && StoredNet(s, e).None? && FrameStep(e)
    ensures OnlyOldMacs(s, FrameApply(s, e))
  {
  }

  lemma VisitKeepsMacs(s: Sys, e: Step)
    requires Enabled(s, e) && StoredNet(s, e).None? && VisitStep(e)
    ensures OnlyOldMacs(s, VisitApply(s, e))
  {
  }

  lemma OtherKeepsMacs(s: Sys, e: Step)
    requires Enabled(s, e) && StoredNet(s, e).None? && !WalkStep(e) && !FrameStep(e) && !VisitStep(e) && !e.Confirm?
    ensures OnlyOldMacs(s, OtherApply(s, e))
  {
  }

  /** A step that stores one keeps it current exactly if its copy is up to date. */
  lemma WriteKeepsCurrentIff(s: Sys, e: Step)
    requires Inv(s) && Bounded(s) && StoredCurrent(s) && Enabled(s, e) && StoredNet(s, e).Some?
    ensures StoredCurrent(Apply(s, e)) <==> UpToDate(s, StoredNet(s, e).value)
  {
    WriteStores(s, e);
    var ip := WrittenFor(s, e);
    assert ip in Apply(s, e).reg;
  }

  /** The client a storing step stores for. */
  function WrittenFor(s: Sys, e: Step): string
    requires Enabled(s, e) && StoredNet(s, e).Some?
  {
    if e.FrameSeen? then PrintAddr(s.hook.ip) else if e.VisitSeen? then s.visits[e.conn].ip else s.walker.ip
  }

  lemma WriteStores(s: Sys, e: Step)
    requires Inv(s) && Bounded(s) && Enabled(s, e) && StoredNet(s, e).Some?
    ensures var s', ip, net := Apply(s, e), WrittenFor(s, e), StoredNet(s, e).value;
            Due(s') == Due(s) && net <= s.net && ip in s'.reg && s'.reg[ip].mac != ""
            && s'.origin == s.origin[ip := net]
            && forall x | x in s'.reg && x != ip :: x in s.reg && s'.reg[x] == s.reg[x]
    ensures forall x | x in s.reg && x != WrittenFor(s, e) :: x in Apply(s, e).reg && Apply(s, e).reg[x] == s.reg[x]
  {
    CanonicalMacNotEmpty();
  }

  lemma PinsCurrentIff(s: Sys, e: Step)
    requires Bounded(s) && SnapCurrent(s.walker) && Enabled(s, e)
    ensures PinsCurrent(s, e) <==>
              (e.FramePin? ==> UpToDate(s, s.hook.net))
                && (RepinsFromSnapshot(s, e) ==> UpToDate(s, s.walker.snap.taken))
  {
  }

  lemma StepIff(s: Sys, e: Step)
    requires Inv(s) && Bounded(s) && StoredCurrent(s) && SnapCurrent(s.walker) && Enabled(s, e)
    ensures StoredCurrent(Apply(s, e)) && PinsCurrent(s, e) <==> Timely(s, e)
  {
    PinsCurrentIff(s, e);
    if StoredNet(s, e).Some? {
      WriteKeepsCurrentIff(s, e);
    } else {
      NoWriteKeepsCurrent(s, e);
    }
  }

  // ----- every run

  lemma {:induction false} RunKeepsBounded(s0: Sys, es: seq<Step>)
    requires Start(s0) && Exec(s0, es).Some?
    ensures Bounded(Exec(s0, es).value)
    ensures NeverOld(s0, es) ==> SnapCurrent(Exec(s0, es).value.walker)
  {
    if es != [] {
      RunKeepsBounded(s0, es[..|es| - 1]);
      var s := Exec(s0, es[..|es| - 1]).value;
      StepKeepsBounded(s, es[|es| - 1]);
      if NeverOld(s0, es) {
        NeverOldNow(s0, es[..|es| - 1]);
        StepKeepsSnap(s, es[|es| - 1]);
      }
    }
  }

  lemma NeverOldNow(s0: Sys, es: seq<Step>)
    requires Exec(s0, es).Some? && NeverOld(s0, es)
    ensures StoredCurrent(Exec(s0, es).value)
  {
  }

  /** No MAC of an older network is ever stored or pinned if and only if every step that
      stores one, and every pin, is up to date. */
  lemma {:induction false} NeverOldIff(s0: Sys, es: seq<Step>)
    requires Start(s0) && Exec(s0, es).Some?
    ensures NeverOld(s0, es) <==> AllTimely(s0, es)
  {
    if es != [] {
      var before, e := es[..|es| - 1], es[|es| - 1];
      NeverOldIff(s0, before);
      if NeverOld(s0, before) {
        NeverOldNow(s0, before);
        EveryPinWellFormed(s0, before);
        RunKeepsBounded(s0, before);
        StepIff(Exec(s0, before).value, e);
      }
    }
  }

  // ----- the coarse runs are among them

  predicate AtRest(s: Sys) {
    s.walker.Idle? && s.hook.Quiet? && s.visits == map[]
  }

  /** The entry of `ip` on the LAN of a State copy, if any, was learned in this network. */
  predicate LearnedHere(s: Sys, st: State, ip: string) {
    OnLan(s.arp, ip, st.lanIface) ==> NetOf(s.arpNet, ip) == s.net
  }

  /** A network change is confirmed with no tick and no hook in flight and published at
      once; no frame comes from a sniffer started before the last change, and no entry
      that is looked up on the LAN was learned before it. */
  predicate QuietStep(s: Sys, e: Step)
    requires Enabled(s, e)
  {
    (Changing(s) ==> e.Publish?)
    && (e.Confirm? && s.st.lanIface != "" ==> AtRest(s))
    && (e.FrameGet? ==> s.sniffer == Some(s.net))
    && (e.WalkLookup? ==> LearnedHere(s, s.walker.state, e.ip))
    && (e.VisitLookup? ==> LearnedHere(s, s.visits[e.conn].state, s.visits[e.conn].ip))
  }

  predicate QuietRun(s0: Sys, es: seq<Step>)
    requires Exec(s0, es).Some?
  {
    es == [] || (QuietRun(s0, es[..|es| - 1]) && QuietStep(Exec(s0, es[..|es| - 1]).value, es[|es| - 1]))
  }

  /** Whatever is in flight was seen, learned or taken in the present network. */
  predicate Fresh(s: Sys) {
    (Changing(s) ==> AtRest(s))
    && (s.walker.Walking? || s.walker.Looked? ==> s.walker.snap.taken == s.net)
    && (s.walker.Looked? && s.walker.entry.Some? && s.walker.entry.value.iface == s.walker.state.lanIface ==>
          s.walker.net == s.net)
    && (!s.hook.Quiet? ==> s.hook.net == s.net)
    && forall c | c in s.visits && s.visits[c].Learned? && s.visits[c].mac != "" :: s.visits[c].net == s.net
  }

  lemma ActKeepsFresh(s: Sys, e: Step)
    requires Fresh(s) && Enabled(s, e) && QuietStep(s, e) && e.WalkAct?
    ensures Fresh(WalkApply(s, e)) && Timely(s, e)
  {
  }

  lemma LookKeepsFresh(s: Sys, e: Step)
    requires Fresh(s) && Enabled(s, e) && QuietStep(s, e) && WalkStep(e) && !e.WalkAct?
    ensures Fresh(WalkApply(s, e)) && Timely(s, e)
  {
  }

  lemma WalkKeepsFresh(s: Sys, e: Step)
    requires Fresh(s) && Enabled(s, e) && QuietStep(s, e) && WalkStep(e)
    ensures Fresh(WalkApply(s, e)) && Timely(s, e)
  {
    if e.WalkAct? {
      ActKeepsFresh(s, e);
    } else {
      LookKeepsFresh(s, e);
    }
  }

  lemma FrameEndKeepsFresh(s: Sys, e: Step)
    requires Fresh(s) && Enabled(s, e) && QuietStep(s, e) && (e.FramePin? || e.FrameSeen?)
    ensures Fresh(FrameApply(s, e)) && Timely(s, e)
  {
  }

  lemma FrameStartKeepsFresh(s: Sys, e: Step)
    requires Fresh(s) && Enabled(s, e) && QuietStep(s, e) && FrameStep(e) && !e.FramePin? && !e.FrameSeen?
    ensures Fresh(FrameApply(s, e)) && Timely(s, e)
  {
  }

  lemma FrameKeepsFresh(s: Sys, e: Step)
    requires Fresh(s) && Enabled(s, e) && QuietStep(s, e) && FrameStep(e)
    ensures Fresh(FrameApply(s, e)) && Timely(s, e)
  {
    if e.FramePin? || e.FrameSeen? {
      FrameEndKeepsFresh(s, e);
    } else {
      FrameStartKeepsFresh(s, e);
    }
  }

  lemma VisitKeepsFresh(s: Sys, e: Step)
    requires Fresh(s) && Enabled(s, e) && QuietStep(s, e) && VisitStep(e)
    ensures Fresh(VisitApply(s, e)) && Timely(s, e)
  {
  }

  lemma OtherKeepsFresh(s: Sys, e: Step)
    requires Fresh(s) && Enabled(s, e) && QuietStep(s, e) && !WalkStep(e) && !FrameStep(e) && !VisitStep(e)
    ensures Fresh(OtherApply(s, e)) && Timely(s, e)
  {
  }

  lemma StepKeepsFresh(s: Sys, e: Step)
    requires Fresh(s) && Enabled(s, e) && QuietStep(s, e)
    ensures Fresh(Apply(s, e)) && Timely(s, e)
  {
    if WalkStep(e) {
      WalkKeepsFresh(s, e);
    } else if FrameStep(e) {
      FrameKeepsFresh(s, e);
    } else if VisitStep(e) {
      VisitKeepsFresh(s, e);
    } else {
      OtherKeepsFresh(s, e);
    }
  }

  /** If nothing of the old network is in flight when a change is confirmed, and neither its
      sniffer nor the kernel reports it afterwards, no MAC outlives its network, however
      ticks, hooks and everything else interleave between changes. */
  lemma {:induction false} QuietChangesAreTimely(s0: Sys, es: seq<Step>)
    requires Start(s0) && Exec(s0, es).Some? && QuietRun(s0, es)
    ensures Fresh(Exec(s0, es).value) && AllTimely(s0, es) && NeverOld(s0, es)
  {
    if es != [] {
      QuietChangesAreTimely(s0, es[..|es| - 1]);
      StepKeepsFresh(Exec(s0, es[..|es| - 1]).value, es[|es| - 1]);
    }
    NeverOldIff(s0, es);
  }

  // ----- how a MAC outlives its network

  lemma {:induction false} TimelyPrefix(s0: Sys, es: seq<Step>, more: seq<Step>)
    requires Exec(s0, es + more).Some? && more != []
    ensures Exec(s0, es).Some?
    ensures AllTimely(s0, es + more) ==> Enabled(Exec(s0, es).value, more[0]) && Timely(Exec(s0, es).value, more[0])
  {
    var n := |more| - 1;
    assert (es + more)[..|es + more| - 1] == es + more[..n];
    if n > 0 {
      TimelyPrefix(s0, es, more[..n]);
    } else {
      assert es + more[..n] == es;
    }
  }

  /** One step that is late suffices. */
  lemma LateStep(s0: Sys, es: seq<Step>, s: Sys, more: seq<Step>)
    requires Start(s0) && Exec(s0, es) == Some(s) && Exec(s0, es + more).Some?
    requires more != [] && Enabled(s, more[0]) && !Timely(s, more[0])
    ensures !NeverOld(s0, es + more)
  {
    TimelyPrefix(s0, es, more);
    NeverOldIff(s0, es + more);
  }

  lemma Chain(s0: Sys, es: seq<Step>, s: Sys, more: seq<Step>, s': Sys)
    requires Exec(s0, es) == Some(s) && Exec(s, more) == Some(s')
    ensures Exec(s0, es + more) == Some(s')
  {
    ExecAppend(s0, es, more);
  }

  function PinWalk(key: string): seq<Step> {
    [WalkGet, WalkSnapshot, WalkLookup(key), WalkAct(true)]
  }

  /** A walk that reaches a client without an entry pins the MAC the registry holds. */
  lemma WalkPins(s: Sys, key: string)
    requires s.walker.Idle? && PinnerActive(s.st) && Eligible(s.st, key) && key !in s.arp
    requires key in s.reg && s.reg[key].mac != ""
    ensures var end := Exec(s, PinWalk(key));
            end.Some? && end.value.calls == s.calls + [PinCall(key, s.reg[key].mac, s.st.lanIface)]
  {
    WalkStarts(s);
    var s2 := Exec(s, [WalkGet, WalkSnapshot]).value;
    assert [WalkGet, WalkSnapshot] + [WalkLookup(key), WalkAct(true)] == PinWalk(key);
    ExecAppend(s, [WalkGet, WalkSnapshot], [WalkLookup(key), WalkAct(true)]);
    ClientIsAction(s2, {}, key);
    assert [WalkLookup(key), WalkAct(true)] == ClientSteps(s.st, {}, key);
  }

  /** The State a change to `iface` publishes. */
  function NextState(st: State, ifaddr: IfAddr, iface: string): State {
    st.(lanSubnet := Masked(ifaddr), lanAddr := Some(ifaddr.addr), lanIface := iface)
  }

  /** A change of network after which `ip` is a client. */
  predicate ChangeTo(st: State, ip: Addr, ifaddr: IfAddr, iface: string) {
    st.lanIface != "" && st.ciscoConnected && ifaddr.ones <= 32
    && LanChanged(Lan(st), LanSnapshot(Masked(ifaddr), iface)) && Contains(Masked(ifaddr), ip) && ifaddr.addr != ip
  }

  lemma NextAccepts(st: State, ip: Addr, ifaddr: IfAddr, iface: string)
    requires ChangeTo(st, ip, ifaddr, iface)
    ensures SynAccepted(NextState(st, ifaddr, iface), ip) && Eligible(NextState(st, ifaddr, iface), PrintAddr(ip))
  {
    AcceptedIsEligible(NextState(st, ifaddr, iface), ip);
  }

  // The states of the runs below, one step at a time.

  function Confirming(s: Sys, ifaddr: IfAddr, iface: string): Sys {
    s.(reg := ResetNetwork(s.reg), detector := Confirmed(ifaddr, iface))
  }

  lemma ConfirmRuns(s: Sys, ifaddr: IfAddr, iface: string)
    requires Enabled(s, Confirm(ifaddr, iface)) && s.st.lanIface != ""
    ensures Exec(s, [Confirm(ifaddr, iface)]) == Some(Confirming(s, ifaddr, iface))
  {
    ExecOne(s, Confirm(ifaddr, iface));
  }

  /** The change published. */
  function Changed(s: Sys): Sys
    requires s.detector.Confirmed?
  {
    var st := NextState(s.st, s.detector.ifaddr, s.detector.iface);
    s.(st := st, published := s.published + {st}, net := Due(s), detector := Still)
  }

  lemma PublishRuns(s: Sys)
    requires s.detector.Confirmed?
    ensures Exec(s, [Publish]) == Some(Changed(s))
  {
    ExecOne(s, Publish);
  }

  /** A change nothing comes between. */
  lemma ChangeRuns(s: Sys, ifaddr: IfAddr, iface: string)
    requires Enabled(s, Confirm(ifaddr, iface)) && s.st.lanIface != ""
    ensures Exec(s, [Confirm(ifaddr, iface), Publish]) == Some(Changed(Confirming(s, ifaddr, iface)))
  {
    ConfirmRuns(s, ifaddr, iface);
    PublishRuns(Confirming(s, ifaddr, iface));
    Chain(s, [Confirm(ifaddr, iface)], Confirming(s, ifaddr, iface), [Publish], Changed(Confirming(s, ifaddr, iface)));
  }

  lemma SniffRuns(s: Sys)
    requires s.sniffer.None? && s.st.lanIface != ""
    ensures Exec(s, [SniffStart]) == Some(s.(sniffer := Some(s.net)))
  {
    ExecOne(s, SniffStart);
  }

  lemma GetRuns(s: Sys, ip: Addr, mac: string)
    requires s.sniffer.Some? && s.hook.Quiet? && IsCanonical(mac) && SynAccepted(s.st, ip)
    ensures Exec(s, [FrameGet(ip, mac)]) == Some(s.(hook := Accepted(s.st, ip, mac, s.sniffer.value)))
  {
    ExecOne(s, FrameGet(ip, mac));
  }

  /** A frame in flight finds neither its MAC in the registry nor an entry. */
  predicate Unknown(s: Sys) {
    !s.hook.Quiet? && s.hook.mac != "" && s.hook.state.ciscoConnected
    && MacOf(s.reg, PrintAddr(s.hook.ip)) == "" && PrintAddr(s.hook.ip) !in s.arp
  }

  lemma KnownThenLookup(s: Sys)
    requires s.hook.Accepted? && Unknown(s)
    ensures var h := s.hook;
            Exec(s, [FrameKnown, FrameLookup]) == Some(s.(hook := Recording(h.state, h.ip, h.mac, h.net)))
  {
    var s1 := s.(hook := Asking(s.hook.state, s.hook.ip, s.hook.mac, s.hook.net));
    assert [FrameKnown, FrameLookup] == [FrameKnown] + [FrameLookup];
    OneStep(s, FrameKnown, [FrameLookup]);
    ExecOne(s1, FrameLookup);
  }

  /** The frame recorded. */
  function Recorded(s: Sys): Sys
    requires s.hook.Recording?
  {
    var key := PrintAddr(s.hook.ip);
    s.(reg := Seen(s.reg, key, s.hook.mac, 0), origin := s.origin[key := s.hook.net], hook := Quiet)
  }

  lemma SeenRuns(s: Sys)
    requires s.hook.Recording? && s.hook.mac != ""
    ensures Exec(s, [FrameSeen(0)]) == Some(Recorded(s))
    ensures PrintAddr(s.hook.ip) in Recorded(s).reg && Recorded(s).reg[PrintAddr(s.hook.ip)].mac == s.hook.mac
  {
    ExecOne(s, FrameSeen(0));
  }

  lemma ResetForgets(r: Registry, ip: string)
    ensures MacOf(ResetNetwork(r), ip) == ""
  {
  }

  /** A frame of an older network that is recorded in the present one is pinned. */
  lemma LateFramePinned(s: Sys, ip: Addr, mac: string)
    requires s.hook.Recording? && s.hook.ip == ip && s.hook.mac == mac && mac != "" && s.hook.net < s.net
    requires PinnerActive(s.st) && Eligible(s.st, PrintAddr(ip)) && PrintAddr(ip) !in s.arp && s.walker.Idle?
    ensures var end := Exec(s, [FrameSeen(0)] + PinWalk(PrintAddr(ip)));
            end.Some? && end.value.calls == s.calls + [PinCall(PrintAddr(ip), mac, s.st.lanIface)]
    ensures !Timely(s, FrameSeen(0))
  {
    SeenRuns(s);
    WalkPins(Recorded(s), PrintAddr(ip));
    Chain(s, [FrameSeen(0)], Recorded(s), PinWalk(PrintAddr(ip)), Exec(Recorded(s), PinWalk(PrintAddr(ip))).value);
  }

  /** A run that is late at a state from which its remainder pins `mac` on `iface`. */
  lemma LateRun(s0: Sys, es: seq<Step>, s: Sys, more: seq<Step>, c: PinCall)
    requires Start(s0) && Exec(s0, es) == Some(s) && more != [] && Enabled(s, more[0]) && !Timely(s, more[0])
    requires Exec(s, more).Some? && Exec(s, more).value.calls == s.calls + [c]
    ensures Exec(s0, es + more).Some? && !NeverOld(s0, es + more) && Exec(s0, es + more).value.calls == s.calls + [c]
  {
    Chain(s0, es, s, more, Exec(s, more).value);
    LateStep(s0, es, s, more);
  }

  /** The sniffer outlives the change. It goes on listening on the old interface until it
      polls State, at rest and with nothing else in flight: a client's MAC on the old
      network is registered and pinned on the new one, if its address has no entry. */
  lemma SnifferOutlivesChange(s0: Sys, ip: Addr, mac: string, ifaddr: IfAddr, iface: string)
    requires Start(s0) && ChangeTo(s0.st, ip, ifaddr, iface) && IsCanonical(mac) && PrintAddr(ip) !in s0.arp
    ensures var es := [SniffStart] + [Confirm(ifaddr, iface), Publish] + [FrameGet(ip, mac)] + [FrameKnown, FrameLookup]
                      + ([FrameSeen(0)] + PinWalk(PrintAddr(ip)));
            Exec(s0, es).Some? && !NeverOld(s0, es) && Exec(s0, es).value.calls == [PinCall(PrintAddr(ip), mac, iface)]
  {
    var change := [Confirm(ifaddr, iface), Publish];
    CanonicalMacNotEmpty();
    SniffRuns(s0);
    var s1 := s0.(sniffer := Some(s0.net));
    ChangeRuns(s1, ifaddr, iface);
    var s3 := Changed(Confirming(s1, ifaddr, iface));
    Chain(s0, [SniffStart], s1, change, s3);
    NextAccepts(s0.st, ip, ifaddr, iface);
    ResetForgets(s0.reg, PrintAddr(ip));
    GetRuns(s3, ip, mac);
    var s4 := s3.(hook := Accepted(s3.st, ip, mac, s0.net));
    Chain(s0, [SniffStart] + change, s3, [FrameGet(ip, mac)], s4);
    LateAccepted(s0, [SniffStart] + change + [FrameGet(ip, mac)], s4, ip, mac);
  }

  lemma LateAccepted(s0: Sys, es: seq<Step>, s: Sys, ip: Addr, mac: string)
    requires Start(s0) && Exec(s0, es) == Some(s) && s.hook.Accepted? && Unknown(s) && s.hook.ip == ip
             && s.hook.mac == mac
    requires s.hook.net < s.net && PinnerActive(s.st) && Eligible(s.st, PrintAddr(ip)) && s.walker.Idle?
             && s.calls == []
    ensures var all := es + [FrameKnown, FrameLookup] + ([FrameSeen(0)] + PinWalk(PrintAddr(ip)));
            Exec(s0, all).Some? && !NeverOld(s0, all)
            && Exec(s0, all).value.calls == [PinCall(PrintAddr(ip), mac, s.st.lanIface)]
  {
    KnownThenLookup(s);
    var s2 := s.(hook := Recording(s.hook.state, ip, mac, s.hook.net));
    Chain(s0, es, s, [FrameKnown, FrameLookup], s2);
    LateFramePinned(s2, ip, mac);
    LateRun(s0, es + [FrameKnown, FrameLookup], s2, [FrameSeen(0)] + PinWalk(PrintAddr(ip)),
            PinCall(PrintAddr(ip), mac, s.st.lanIface));
  }

  /** The same for a frame accepted under the old State before the change and looked up
      and recorded after it, for every address that is a client in both networks. */
  lemma FrameSpansChange(s0: Sys, ip: Addr, mac: string, ifaddr: IfAddr, iface: string)
    requires Start(s0) && SynAccepted(s0.st, ip) && ChangeTo(s0.st, ip, ifaddr, iface) && IsCanonical(mac)
    requires PrintAddr(ip) !in s0.arp
    ensures var es := [SniffStart] + [FrameGet(ip, mac)] + [Confirm(ifaddr, iface), Publish] + [FrameKnown, FrameLookup]
                      + ([FrameSeen(0)] + PinWalk(PrintAddr(ip)));
            Exec(s0, es).Some? && !NeverOld(s0, es) && Exec(s0, es).value.calls == [PinCall(PrintAddr(ip), mac, iface)]
  {
    var change := [Confirm(ifaddr, iface), Publish];
    CanonicalMacNotEmpty();
    SniffRuns(s0);
    var s1 := s0.(sniffer := Some(s0.net));
    GetRuns(s1, ip, mac);
    var s2 := s1.(hook := Accepted(s0.st, ip, mac, s0.net));
    Chain(s0, [SniffStart], s1, [FrameGet(ip, mac)], s2);
    ChangeRuns(s2, ifaddr, iface);
    var s4 := Changed(Confirming(s2, ifaddr, iface));
    Chain(s0, [SniffStart] + [FrameGet(ip, mac)], s2, change, s4);
    NextAccepts(s0.st, ip, ifaddr, iface);
    ResetForgets(s0.reg, PrintAddr(ip));
    LateAccepted(s0, [SniffStart] + [FrameGet(ip, mac)] + change, s4, ip, mac);
  }

  /** And for one handled between resetNetwork and setStatus. */
  lemma OldNetworkMacPinned(s0: Sys, ip: Addr, mac: string, ifaddr: IfAddr, iface: string)
    requires Start(s0) && SynAccepted(s0.st, ip) && ChangeTo(s0.st, ip, ifaddr, iface) && IsCanonical(mac)
    requires PrintAddr(ip) !in s0.arp
    ensures var es := [SniffStart] + [Confirm(ifaddr, iface)] + [FrameGet(ip, mac)] + [FrameKnown, FrameLookup]
                      + ([FrameSeen(0)] + ([Publish] + PinWalk(PrintAddr(ip))));
            Exec(s0, es).Some? && !NeverOld(s0, es) && Exec(s0, es).value.calls == [PinCall(PrintAddr(ip), mac, iface)]
  {
    CanonicalMacNotEmpty();
    SniffRuns(s0);
    var s1 := s0.(sniffer := Some(s0.net));
    ConfirmRuns(s1, ifaddr, iface);
    var s2 := Confirming(s1, ifaddr, iface);
    Chain(s0, [SniffStart], s1, [Confirm(ifaddr, iface)], s2);
    GetRuns(s2, ip, mac);
    var s3 := s2.(hook := Accepted(s0.st, ip, mac, s0.net));
    Chain(s0, [SniffStart] + [Confirm(ifaddr, iface)], s2, [FrameGet(ip, mac)], s3);
    ResetForgets(s0.reg, PrintAddr(ip));
    KnownThenLookup(s3);
    var s5 := s3.(hook := Recording(s0.st, ip, mac, s0.net));
    var es5 := [SniffStart] + [Confirm(ifaddr, iface)] + [FrameGet(ip, mac)];
    Chain(s0, es5, s3, [FrameKnown, FrameLookup], s5);
    EarlySeenPinned(s5, ip, mac, ifaddr, iface);
    LateRun(s0, es5 + [FrameKnown, FrameLookup], s5, [FrameSeen(0)] + ([Publish] + PinWalk(PrintAddr(ip))),
            PinCall(PrintAddr(ip), mac, iface));
  }

  lemma EarlySeenPinned(s: Sys, ip: Addr, mac: string, ifaddr: IfAddr, iface: string)
    requires s.hook.Recording? && s.hook.ip == ip && s.hook.mac == mac && mac != ""
    requires s.detector == Confirmed(ifaddr, iface) && ChangeTo(s.st, ip, ifaddr, iface)
    requires PrintAddr(ip) !in s.arp && s.walker.Idle?
    ensures var end := Exec(s, [FrameSeen(0)] + ([Publish] + PinWalk(PrintAddr(ip))));
            end.Some? && end.value.calls == s.calls + [PinCall(PrintAddr(ip), mac, iface)]
    ensures !Timely(s, FrameSeen(0))
  {
    SeenRuns(s);
    PublishIsPinned(Recorded(s), ip, mac, ifaddr, iface);
    var rest := [Publish] + PinWalk(PrintAddr(ip));
    Chain(s, [FrameSeen(0)], Recorded(s), rest, Exec(Recorded(s), rest).value);
  }

  lemma PublishIsPinned(s: Sys, ip: Addr, mac: string, ifaddr: IfAddr, iface: string)
    requires s.detector == Confirmed(ifaddr, iface) && ChangeTo(s.st, ip, ifaddr, iface) && mac != ""
    requires PrintAddr(ip) !in s.arp && s.walker.Idle? && PrintAddr(ip) in s.reg && s.reg[PrintAddr(ip)].mac == mac
    ensures var end := Exec(s, [Publish] + PinWalk(PrintAddr(ip)));
            end.Some? && end.value.calls == s.calls + [PinCall(PrintAddr(ip), mac, iface)]
  {
    PublishRuns(s);
    NextAccepts(s.st, ip, ifaddr, iface);
    WalkPins(Changed(s), PrintAddr(ip));
    Chain(s, [Publish], Changed(s), PinWalk(PrintAddr(ip)), Exec(Changed(s), PinWalk(PrintAddr(ip))).value);
  }

  /** A walk that has just looked up `key` and found `mac` on the LAN. */
  function LookedUp(s: Sys, key: string, mac: string): Sys {
    s.(walker := Looked(s.st, Snap(Macs(s.reg), s.origin, Due(s)), s.reg.Keys - {key}, key,
                        Some(ArpEntry(mac, s.st.lanIface)), NetOf(s.arpNet, key)))
  }

  function LookupWalk(key: string): seq<Step> {
    [WalkGet, WalkSnapshot] + [WalkLookup(key)]
  }

  lemma LookupRuns(s: Sys, key: string, mac: string)
    requires s.walker.Idle? && PinnerActive(s.st) && Eligible(s.st, key) && key in s.reg
    requires Entry(s.arp, key) == Some(ArpEntry(mac, s.st.lanIface))
    ensures Exec(s, LookupWalk(key)) == Some(LookedUp(s, key, mac))
  {
    WalkStartsOnly(s);
    var s2 := s.(walker := Walking(s.st, Snap(Macs(s.reg), s.origin, Due(s)), s.reg.Keys));
    ExecOne(s2, WalkLookup(key));
    Chain(s, [WalkGet, WalkSnapshot], s2, [WalkLookup(key)], WalkApply(s2, WalkLookup(key)));
  }

  lemma WalkStartsOnly(s: Sys)
    requires s.walker.Idle? && PinnerActive(s.st)
    ensures Exec(s, [WalkGet, WalkSnapshot]) ==
              Some(s.(walker := Walking(s.st, Snap(Macs(s.reg), s.origin, Due(s)), s.reg.Keys)))
  {
    assert [WalkGet, WalkSnapshot] == [WalkGet] + [WalkSnapshot];
    OneStep(s, WalkGet, [WalkSnapshot]);
    ExecOne(WalkApply(s, WalkGet), WalkSnapshot);
  }

  /** The pinner adopts an entry of the old network that it looked up before the change. */
  lemma OldEntryAdopted(s0: Sys, ip: Addr, mac: string, ifaddr: IfAddr, iface: string)
    requires Start(s0) && SynAccepted(s0.st, ip) && ChangeTo(s0.st, ip, ifaddr, iface)
    requires var key := PrintAddr(ip); key in s0.reg && s0.reg[key].isStatic && s0.reg[key].mac != mac
                                       && Entry(s0.arp, key) == Some(ArpEntry(mac, s0.st.lanIface))
    ensures var es := LookupWalk(PrintAddr(ip)) + [Confirm(ifaddr, iface), Publish] + [WalkAct(true)];
            Exec(s0, es).Some? && !NeverOld(s0, es) && MacOf(Exec(s0, es).value.reg, PrintAddr(ip)) == mac
  {
    var key, change := PrintAddr(ip), [Confirm(ifaddr, iface), Publish];
    AcceptedIsEligible(s0.st, ip);
    LookupRuns(s0, key, mac);
    var s3 := LookedUp(s0, key, mac);
    ChangeRuns(s3, ifaddr, iface);
    var s5 := Changed(Confirming(s3, ifaddr, iface));
    Chain(s0, LookupWalk(key), s3, change, s5);
    StoredIsCanonical(s0, key);
    LateAdoption(s0, LookupWalk(key) + change, s5, mac);
  }

  lemma StoredIsCanonical(s: Sys, key: string)
    requires StoredMacs(s.reg, s.arp)
    ensures key in s.reg ==> CanonicalOrEmpty(s.reg[key].mac)
    ensures key in s.arp ==> IsCanonical(s.arp[key].mac) && s.arp[key].mac != ""
  {
    CanonicalMacNotEmpty();
  }

  /** It adopts one after the change as well, if the kernel has kept it: the new network is
      on the interface of the old one. The first adoption of a static client is then the MAC
      that resetNetwork has just erased, our own pin included. */
  lemma KeptEntryAdopted(s0: Sys, ip: Addr, mac: string, ifaddr: IfAddr)
    requires Start(s0) && ChangeTo(s0.st, ip, ifaddr, s0.st.lanIface)
    requires var key := PrintAddr(ip); key in s0.reg && s0.reg[key].isStatic
                                       && Entry(s0.arp, key) == Some(ArpEntry(mac, s0.st.lanIface))
    ensures var es := [Confirm(ifaddr, s0.st.lanIface), Publish] + LookupWalk(PrintAddr(ip)) + [WalkAct(true)];
            Exec(s0, es).Some? && !NeverOld(s0, es) && MacOf(Exec(s0, es).value.reg, PrintAddr(ip)) == mac
  {
    var key, change := PrintAddr(ip), [Confirm(ifaddr, s0.st.lanIface), Publish];
    StoredIsCanonical(s0, key);
    ChangeRuns(s0, ifaddr, s0.st.lanIface);
    var s2 := Changed(Confirming(s0, ifaddr, s0.st.lanIface));
    NextAccepts(s0.st, ip, ifaddr, s0.st.lanIface);
    ResetForgets(s0.reg, key);
    LookupRuns(s2, key, mac);
    Chain(s0, change, s2, LookupWalk(key), LookedUp(s2, key, mac));
    LateAdoption(s0, change + LookupWalk(key), LookedUp(s2, key, mac), mac);
  }

  lemma LateAdoption(s0: Sys, es: seq<Step>, s: Sys, mac: string)
    requires Start(s0) && Exec(s0, es) == Some(s) && s.walker.Looked? && s.walker.net < s.net
    requires s.walker.entry == Some(ArpEntry(mac, s.walker.state.lanIface)) && s.walker.ip in s.reg
    requires IsCanonical(mac) && CanonicalOrEmpty(SnapMac(s.walker.snap, s.walker.ip))
             && SnapMac(s.walker.snap, s.walker.ip) != mac
    ensures var end := Exec(s0, es + [WalkAct(true)]);
            end.Some? && MacOf(end.value.reg, s.walker.ip) == mac && !NeverOld(s0, es + [WalkAct(true)])
  {
    SameStoredMac(mac, SnapMac(s.walker.snap, s.walker.ip));
    assert WalkDecision(s.walker) == PinAdopt;
    ExecOne(s, WalkAct(true));
    ExecAppend(s0, es, [WalkAct(true)]);
    LateStep(s0, es, s, [WalkAct(true)]);
  }
}

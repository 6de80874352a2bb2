/** The LAN listener's owner, its accept loops, the supervisor's notifications and
    the proxy's shutdown as interleaved steps (internal/service/lan.go, proxy.go).
    Each channel operation, lock-protected call or listener operation is one step. */
module LanProtocol {
  import opened Basics
  import opened ServiceState

  /** What `acceptConns` returns: nil, or the listener-closed error. */
  datatype Outcome = Clean | ClosedUnexpectedly

  datatype LoopPc =
    | Accepting
    | Got(conn: nat)            // Accept returned a connection, not yet tracked
    | Erred(closedError: bool)  // Accept returned an error
    | BackingOff
    | Returned(outcome: Outcome)
    | Gone

  /** A listener with its context and accept loop; `result` is the slot of the
      `done` channel. `intruded`: closed by someone else while the context was live. */
  datatype Loop = Loop(
    bound: LanSnapshot,
    pc: LoopPc,
    cancelled: bool,
    closed: bool,
    intruded: bool,
    result: Option<Outcome>,
    received: bool
  )

  datatype OwnerPc =
    | Top
    | Cancelling | Closing | Joining | Dropping // closing the listener of an old LAN
    | Binding
    | Selecting
    | ExitCancelling | ExitClosing | ExitJoining // the deferred close
    | Leaving(outcome: Outcome)                  // received from `done`
    | Stopped(exit: Outcome, viaDone: bool)

  datatype MainPc = Waiting | Clearing | Returned

  /** loops[0] is the loopback listener, every later one a LAN listener. `tracker`
      maps a tracked connection to the loop that accepted it. */
  datatype System = System(
    lan: LanSnapshot,       // in State
    notifying: bool,        // the supervisor is between setStatus and notify
    lanCheck: bool,         // the one-slot channel
    ctxDone: bool,
    owner: OwnerPc,
    cur: Option<nat>,
    want: LanSnapshot,
    retryArmed: bool,
    loops: seq<Loop>,
    tracker: map<nat, nat>,
    closedConns: set<nat>,
    nextConn: nat,
    acceptor: seq<nat>,     // for each connection so far, the loop that accepted it
    watching: bool,         // dropConnsOnVPNLoss has not returned
    main: MainPc
  )

  datatype Step =
    | SetLan(lan: LanSnapshot) | Notify
    | OwnerRead | OwnerCancel | OwnerClose | OwnerJoin | OwnerDrop | OwnerBind(ok: bool)
    | OwnerChecks | OwnerRetries | OwnerSeesCancel | OwnerSeesDone | OwnerLeaves
    | LoopAccepts(g: nat) | LoopFails(g: nat) | LoopAdds(g: nat) | LoopInspects(g: nat)
    | LoopResumes(g: nat) | LoopGivesUp(g: nat) | LoopSends(g: nat)
    | Intrude(g: nat)
    | CancelCtx | CloseLoopback
    | ConnFinishes(conn: nat)
    | WatcherDrops | WatcherExits
    | MainJoins | MainClears

  function NewLoop(bound: LanSnapshot): Loop {
    Loop(bound, Accepting, false, false, false, None, false)
  }

  /** The proxy starts after the first connect, whatever the LAN is by then. */
  predicate Start(s: System) {
    s.owner == Top && s.cur == None && !s.retryArmed && !s.ctxDone
    && s.loops == [NewLoop(NO_LAN)] && s.tracker == map[] && s.closedConns == {} && s.nextConn == 0
    && s.acceptor == []
    && s.watching && s.main == Waiting
  }

  /** The context of loop `g` is done. */
  predicate CtxErr(s: System, g: nat)
    requires g < |s.loops|
  {
    s.ctxDone || s.loops[g].cancelled
  }

  predicate LoopAt(s: System, g: nat, pc: LoopPc) {
    g < |s.loops| && s.loops[g].pc == pc
  }

  /** The owner acts on the held listener. */
  predicate HoldStep(e: Step) {
    e.OwnerCancel? || e.OwnerClose? || e.OwnerJoin? || e.OwnerSeesDone? || e.OwnerLeaves?
  }

  /** The owner only moves on, drops connections or opens a listener. */
  predicate MoveStep(e: Step) {
    e.OwnerRead? || e.OwnerDrop? || e.OwnerBind? || e.OwnerChecks? || e.OwnerRetries? || e.OwnerSeesCancel?
  }

  predicate LoopStep(e: Step) {
    e.LoopAccepts? || e.LoopFails? || e.LoopAdds? || e.LoopInspects? || e.LoopResumes? || e.LoopGivesUp? || e.LoopSends?
  }

  predicate HoldEnabled(s: System, e: Step) {
    s.cur.Some? && s.cur.value < |s.loops|
    && match e
       case OwnerCancel => s.owner == Cancelling || s.owner == ExitCancelling
       case OwnerClose => s.owner == Closing || s.owner == ExitClosing
       case OwnerJoin => (s.owner == Joining || s.owner == ExitJoining) && s.loops[s.cur.value].result.Some?
       case OwnerSeesDone => s.owner == Selecting && s.loops[s.cur.value].result.Some?
       case OwnerLeaves => s.owner.Leaving?
       case _ => false
  }

  predicate MoveEnabled(s: System, e: Step) {
    match e
    case OwnerRead => s.owner == Top
    case OwnerDrop => s.owner == Dropping
    case OwnerBind(ok) => s.owner == Binding
    case OwnerChecks => s.owner == Selecting && s.lanCheck
    case OwnerRetries => s.owner == Selecting && s.retryArmed
    case OwnerSeesCancel => s.owner == Selecting && s.ctxDone
    case _ => false
  }

  predicate LoopEnabled(s: System, e: Step) {
    LoopStep(e)
    && match e
       case LoopAccepts(g) => LoopAt(s, g, Accepting) && !s.loops[g].closed
       case LoopFails(g) => LoopAt(s, g, Accepting)
       case LoopAdds(g) => g < |s.loops| && s.loops[g].pc.Got?
       case LoopInspects(g) => g < |s.loops| && s.loops[g].pc.Erred?
       case LoopResumes(g) => LoopAt(s, g, BackingOff)
       case LoopGivesUp(g) => LoopAt(s, g, BackingOff) && CtxErr(s, g)
       case LoopSends(g) => g < |s.loops| && s.loops[g].pc.Returned?
       case _ => false
  }

  predicate OtherEnabled(s: System, e: Step) {
    match e
    case SetLan(lan) => !s.notifying && LanChanged(s.lan, lan)
    case Notify => s.notifying
    case Intrude(g) => g < |s.loops| && !s.loops[g].closed
    case CancelCtx => true
    case CloseLoopback => s.ctxDone && |s.loops| > 0
    case ConnFinishes(c) => c in s.tracker
    case WatcherDrops => s.watching
    case WatcherExits => s.ctxDone
    case MainJoins =>
      s.main == Waiting && s.owner.Stopped? && !s.watching && LoopAt(s, 0, Gone)
    case MainClears => s.main == Clearing
    case _ => false
  }

  predicate Enabled(s: System, e: Step) {
    if HoldStep(e) then HoldEnabled(s, e)
    else if MoveStep(e) then MoveEnabled(s, e)
    else if LoopStep(e) then LoopEnabled(s, e)
    else OtherEnabled(s, e)
  }

  function SetLoop(s: System, g: nat, l: Loop): System
    requires g < |s.loops|
  {
    s.(loops := s.loops[g := l])
  }

  /** Close and forget the connections in `cs`. */
  function Drop(s: System, cs: set<nat>): System {
    s.(tracker := s.tracker - cs, closedConns := s.closedConns + (s.tracker.Keys * cs))
  }

  function LanConns(s: System): set<nat> {
    set c | c in s.tracker && s.tracker[c] > 0
  }

  /** The tail of the owner's loop: arm the retry and wait. */
  function Park(s: System): System {
    s.(owner := Selecting, retryArmed := s.cur.None? && s.want.iface != "")
  }

  /** The step of the owner on the loop it holds: what becomes of the loop ... */
  function HeldLoop(l: Loop, e: Step): Loop {
    match e
    case OwnerCancel => l.(cancelled := true)
    case OwnerClose => l.(closed := true)
    case OwnerJoin => l.(result := None, received := true)
    case OwnerSeesDone => l.(result := None, received := true)
    case OwnerLeaves => l.(cancelled := true)
    case _ => l
  }

  /** ... and where the owner goes. */
  function OwnerAfter(o: OwnerPc, l: Loop, e: Step): OwnerPc {
    match e
    case OwnerCancel => if o == Cancelling then Closing else ExitClosing
    case OwnerClose => if o == Closing then Joining else ExitJoining
    case OwnerJoin => if o == Joining then Dropping else Stopped(Clean, false)
    case OwnerSeesDone => if l.result.Some? then Leaving(l.result.value) else o
    case OwnerLeaves => if o.Leaving? then Stopped(o.outcome, true) else o
    case _ => o
  }

  function HoldApply(s: System, e: Step): System
    requires HoldEnabled(s, e)
  {
    var l := s.loops[s.cur.value];
    SetLoop(s, s.cur.value, HeldLoop(l, e))
      .(owner := OwnerAfter(s.owner, l, e), cur := if e.OwnerJoin? || e.OwnerLeaves? then None else s.cur)
  }

  function MoveApply(s: System, e: Step): System
    requires MoveEnabled(s, e)
  {
    match e
    case OwnerRead =>
      var stale := s.cur.Some? && s.cur.value < |s.loops| && s.loops[s.cur.value].bound != s.lan;
      s.(want := s.lan, owner := if stale then Cancelling else Binding)
    case OwnerDrop => Drop(s, LanConns(s)).(owner := Binding)
    case OwnerBind(ok) =>
      if s.cur.None? && s.want.iface != "" && ok
      then Park(s.(cur := Some(|s.loops|), loops := s.loops + [NewLoop(s.want)]))
      else Park(s)
    case OwnerChecks => s.(lanCheck := false, owner := Top)
    case OwnerRetries => s.(owner := Top)
    case OwnerSeesCancel => s.(owner := if s.cur.Some? then ExitCancelling else Stopped(Clean, false))
  }

  /** What a step of its own makes of a loop; `ctxErr`: its context is done, `conn`: the
      next connection. */
  function SteppedLoop(l: Loop, e: Step, ctxErr: bool, conn: nat): Loop {
    match e
    case LoopAccepts(_) => l.(pc := Got(conn))
    case LoopFails(_) => l.(pc := Erred(l.closed))
    case LoopAdds(_) => l.(pc := Accepting)
    case LoopInspects(_) =>
      l.(pc := if ctxErr then LoopPc.Returned(Clean)
               else if l.pc.Erred? && l.pc.closedError then LoopPc.Returned(ClosedUnexpectedly)
               else BackingOff)
    case LoopResumes(_) => l.(pc := Accepting)
    case LoopGivesUp(_) => l.(pc := LoopPc.Returned(Clean))
    case LoopSends(_) => if l.pc.Returned? then l.(pc := Gone, result := Some(l.pc.outcome)) else l
    case _ => l
  }

  function LoopApply(s: System, e: Step): System
    requires LoopEnabled(s, e)
  {
    var l := s.loops[e.g];
    SetLoop(s, e.g, SteppedLoop(l, e, CtxErr(s, e.g), s.nextConn))
      .(tracker := if e.LoopAdds? then s.tracker[l.pc.conn := e.g] else s.tracker,
        nextConn := if e.LoopAccepts? then s.nextConn + 1 else s.nextConn,
        acceptor := if e.LoopAccepts? then s.acceptor + [e.g] else s.acceptor)
  }

  function OtherApply(s: System, e: Step): System
    requires OtherEnabled(s, e)
  {
    match e
    case SetLan(lan) => s.(lan := lan, notifying := true)
    case Notify => s.(lanCheck := true, notifying := false)
    case Intrude(g) => SetLoop(s, g, s.loops[g].(closed := true, intruded := !CtxErr(s, g)))
    case CancelCtx => s.(ctxDone := true)
    case CloseLoopback => SetLoop(s, 0, s.loops[0].(closed := true))
    case ConnFinishes(c) => Drop(s, {c})
    case WatcherDrops => Drop(s, s.tracker.Keys)
    case WatcherExits => s.(watching := false)
    case MainJoins => s.(main := Clearing)
    case MainClears => Drop(s, s.tracker.Keys).(main := MainPc.Returned)
  }

  function Apply(s: System, e: Step): System
    requires Enabled(s, e)
  {
    if HoldStep(e) then HoldApply(s, e)
    else if MoveStep(e) then MoveApply(s, e)
    else if LoopStep(e) then LoopApply(s, e)
    else OtherApply(s, e)
  }

  /** The interleaving `es` from `s`; None when a step in it is not enabled. */
  function Exec(s: System, es: seq<Step>): Option<System> {
    if es == [] then Some(s)
    else
      match Exec(s, es[..|es| - 1])
      case None => None
      case Some(m) => if Enabled(m, es[|es| - 1]) then Some(Apply(m, es[|es| - 1])) else None
  }

  /** Loop `g`, not finished yet, has moved; nothing but its progress, the tracker
      and the connection counter has changed. */
  ghost predicate LoopMoved(s: System, s': System, g: nat) {
    g < |s.loops| == |s'.loops|
    && s' == s.(loops := s'.loops, tracker := s'.tracker, nextConn := s'.nextConn, acceptor := s'.acceptor)
    && (forall h | 0 <= h < |s.loops| && h != g :: s'.loops[h] == s.loops[h])
    && s.loops[g].pc != Gone
    && s'.loops[g] == s.loops[g].(pc := s'.loops[g].pc, result := s'.loops[g].result)
  }

  // ----- the invariant

  predicate LoopOk(l: Loop, ctxDone: bool) {
    (l.pc.Gone? <==> l.result.Some? || l.received)
    && !(l.result.Some? && l.received)
    && (l.closed ==> ctxDone || l.cancelled || l.intruded)
    && (l.intruded ==> l.closed)
    && (l.pc.Erred? && l.pc.closedError ==> l.closed)
    && (l.pc.Returned? && l.pc.outcome == ClosedUnexpectedly ==> l.intruded)
    && (l.result.Some? && l.result.value == ClosedUnexpectedly ==> l.intruded)
    && (l.pc.Returned? || l.pc.Gone? ==> ctxDone || l.cancelled || l.closed)
  }

  ghost predicate LoopsOk(s: System) {
    |s.loops| > 0 && forall g | 0 <= g < |s.loops| :: LoopOk(s.loops[g], s.ctxDone)
  }

  predicate Exiting(o: OwnerPc) {
    o == ExitCancelling || o == ExitClosing || o == ExitJoining
  }

  predicate ClosingOld(o: OwnerPc) {
    o == Cancelling || o == Closing || o == Joining
  }

  /** The owner has left through `done`, or is about to. */
  predicate DoneBranch(o: OwnerPc) {
    o.Leaving? || (o.Stopped? && o.viaDone)
  }

  /** The held listener, if any, is the newest; its result is still to be received,
      except between receiving it from `done` and leaving. */
  predicate HeldOk(s: System) {
    match s.cur
    case None => !ClosingOld(s.owner) && !Exiting(s.owner) && !s.owner.Leaving?
    case Some(g) =>
      0 < g == |s.loops| - 1
      && (s.loops[g].received <==> s.owner.Leaving?)
      && s.owner != Dropping && !s.owner.Stopped?
      && (s.owner == Closing || s.owner == ExitClosing ==> s.loops[g].cancelled)
      && (s.owner == Joining || s.owner == ExitJoining ==> s.loops[g].cancelled && s.loops[g].closed)
  }

  /** Every LAN listener but the held one has been joined, and closed unless the owner
      left through `done`; an error exit names an intruded listener. */
  ghost predicate RetiredOk(s: System) {
    (forall g | 0 < g < |s.loops| && s.cur != Some(g) ::
       s.loops[g].pc.Gone? && s.loops[g].cancelled
       && (s.loops[g].closed || (s.owner.Stopped? && s.owner.viaDone && g == |s.loops| - 1)))
    && (s.owner == Leaving(ClosedUnexpectedly) || s.owner == Stopped(ClosedUnexpectedly, true) ==>
          |s.loops| > 1 && s.loops[|s.loops| - 1].intruded)
    && s.owner != Stopped(ClosedUnexpectedly, false)
  }

  /** No notification is lost between reading State and waiting. */
  predicate WakeOk(s: System) {
    (s.owner != Top && !Exiting(s.owner) && !DoneBranch(s.owner) && !s.owner.Stopped? ==>
       s.want == s.lan || s.lanCheck || s.notifying)
    && (s.owner == Binding || s.owner == Selecting ==>
          s.cur.Some? && s.cur.value < |s.loops| ==> s.loops[s.cur.value].bound == s.want)
    && (s.owner == Selecting ==> (s.retryArmed <==> s.cur.None? && s.want.iface != ""))
  }

  /** A tracked LAN connection was accepted by the held listener, unless its
      listener has just been joined or the owner has stopped. */
  predicate TrackedOk(s: System) {
    forall c | c in s.tracker :: c < s.nextConn && s.tracker[c] < |s.loops|
      && (s.tracker[c] == 0 || s.cur == Some(s.tracker[c]) || s.owner == Dropping || s.owner.Stopped?)
  }

  /** Every accepted connection is tracked, closed, or about to be tracked. */
  ghost predicate HandsOk(s: System) {
    (forall g | 0 <= g < |s.loops| && s.loops[g].pc.Got? :: s.loops[g].pc.conn < s.nextConn)
    && (forall c: nat | c < s.nextConn :: c in s.tracker || c in s.closedConns || InHand(s, c))
  }

  /** The tracker names the loop that accepted the connection. */
  ghost predicate AcceptorOk(s: System) {
    |s.acceptor| == s.nextConn
    && (forall c | c in s.tracker :: c < |s.acceptor| && s.acceptor[c] == s.tracker[c])
    && (forall g | 0 <= g < |s.loops| && s.loops[g].pc.Got? ::
          s.loops[g].pc.conn < |s.acceptor| && s.acceptor[s.loops[g].pc.conn] == g)
  }

  predicate MainOk(s: System) {
    (s.main != Waiting ==> s.owner.Stopped? && LoopAt(s, 0, Gone))
    && (s.main == MainPc.Returned ==> s.tracker == map[])
  }

  /** Accepted by some loop that has not tracked it yet. */
  ghost predicate InHand(s: System, c: nat) {
    exists g :: 0 <= g < |s.loops| && s.loops[g].pc == Got(c)
  }

  ghost predicate Inv(s: System) {
    LoopsOk(s) && HeldOk(s) && RetiredOk(s) && WakeOk(s) && TrackedOk(s) && HandsOk(s) && AcceptorOk(s)
    && MainOk(s)
  }
}

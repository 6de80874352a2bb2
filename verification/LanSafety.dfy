/** What holds after every interleaving of the LAN protocol, and how it goes on. */
module LanSafety {
  import opened Basics
  import opened ServiceState
  import opened LanProtocol
  import opened LanInvariant

  // ----- the properties, after any interleaving

  /** Some interleaving from the start of the proxy leads here. */
  ghost predicate Reachable(s: System) {
    exists s0, es :: Start(s0) && Exec(s0, es) == Some(s)
  }

  lemma ReachableInv(s: System)
    requires Reachable(s)
    ensures Inv(s)
  {
    var s0, es :| Start(s0) && Exec(s0, es) == Some(s);
    EveryRun(s0, es);
  }

  /** No lost wake-up: an owner that waits with nothing pending holds a listener on
      exactly State's LAN, or none while a retry is armed or there is no LAN. */
  lemma NoLostWakeup(s: System)
    requires Reachable(s)
    ensures s.owner == Selecting && !s.lanCheck && !s.notifying ==>
              s.want == s.lan
              && match s.cur
                 case Some(g) => g < |s.loops| && s.loops[g].bound == s.lan
                 case None => s.retryArmed || s.lan.iface == ""
  {
    ReachableInv(s);
  }

  /** Old-network connections never survive a re-bind: at every head and wait of the
      owner's loop each tracked LAN connection belongs to the held listener, and no
      other LAN listener is open. */
  lemma OnlyHeldListener(s: System)
    requires Reachable(s)
    ensures s.owner == Top || s.owner == Selecting ==>
              (forall c | c in s.tracker && s.tracker[c] > 0 :: s.cur == Some(s.tracker[c]))
              && (forall g | 0 < g < |s.loops| && !s.loops[g].closed :: s.cur == Some(g))
  {
    ReachableInv(s);
  }

  /** After a re-bind every connection of an earlier listener has been closed. */
  lemma OldConnectionsClosed(s: System, c: nat)
    requires Reachable(s)
    requires s.owner == Selecting && c < s.nextConn && c !in s.closedConns
    ensures c < |s.acceptor| && (s.acceptor[c] == 0 || s.cur == Some(s.acceptor[c]))
    ensures if c in s.tracker then s.tracker[c] == s.acceptor[c]
            else exists g :: 0 <= g < |s.loops| && s.loops[g].pc == Got(c) && (g == 0 || s.cur == Some(g))
  {
    ReachableInv(s);
    if c !in s.tracker {
      var g :| 0 <= g < |s.loops| && s.loops[g].pc == Got(c);
      assert g == 0 || s.cur == Some(g);
    }
  }

  /** Steps a loop still takes once its context is cancelled and its listener closed. */
  function Rank(pc: LoopPc): nat {
    match pc
    case Got(_) => 4
    case BackingOff => 4
    case Accepting => 3
    case Erred(_) => 2
    case Returned(_) => 1
    case Gone => 0
  }

  /** The loop steps of `g`. */
  predicate StepOf(e: Step, g: nat) {
    LoopStep(e) && e.g == g
  }

  /** The owner is in `<-ll.done`. */
  predicate JoiningNow(s: System) {
    s.owner == Joining || s.owner == ExitJoining
  }

  /** The step a loop that has not finished can always take when its listener is closed. */
  function NextOf(s: System, g: nat): Step
    requires g < |s.loops|
  {
    match s.loops[g].pc
    case Accepting => LoopFails(g)
    case Got(_) => LoopAdds(g)
    case Erred(_) => LoopInspects(g)
    case BackingOff => LoopResumes(g)
    case Returned(_) => LoopSends(g)
    case Gone => LoopSends(g)
  }

  lemma UnfinishedCanMove(s: System, g: nat)
    requires g < |s.loops| && s.loops[g].pc != Gone
    ensures StepOf(NextOf(s, g), g) && Enabled(s, NextOf(s, g))
  {
  }

  lemma CancelledRankDrops(s: System, e: Step, g: nat)
    requires g < |s.loops| && s.loops[g].closed && s.loops[g].cancelled && StepOf(e, g) && Enabled(s, e)
    ensures Rank(Apply(s, e).loops[g].pc) < Rank(s.loops[g].pc)
  {
    match e
    case LoopFails(_) => assert Apply(s, e).loops[g].pc == Erred(true);
    case LoopAdds(_) => assert Apply(s, e).loops[g].pc == Accepting;
    case LoopInspects(_) => assert Apply(s, e).loops[g].pc == LoopPc.Returned(Clean);
    case LoopResumes(_) => assert Apply(s, e).loops[g].pc == Accepting;
    case LoopGivesUp(_) => assert Apply(s, e).loops[g].pc == LoopPc.Returned(Clean);
    case LoopSends(_) => assert Apply(s, e).loops[g].pc == Gone;
  }

  /** The joined loop's result has not been received, and its context and listener are gone. */
  predicate JoinSound(s: System) {
    s.cur.Some? && s.cur.value < |s.loops|
    && var l := s.loops[s.cur.value]; !l.received && l.cancelled && l.closed && (l.pc == Gone ==> l.result.Some?)
  }

  lemma JoinIsSound(s: System)
    requires LoopsOk(s) && HeldOk(s) && JoiningNow(s)
    ensures JoinSound(s)
  {
  }

  /** Joins never hang: while the owner joins, the result has not been received yet; it
      is there, or the loop can move ... */
  lemma JoinsNeverHang(s: System)
    requires Reachable(s) && JoiningNow(s)
    ensures JoinSound(s)
    ensures s.loops[s.cur.value].result.None? ==>
              StepOf(NextOf(s, s.cur.value), s.cur.value) && Enabled(s, NextOf(s, s.cur.value))
  {
    ReachableInv(s);
    JoinIsSound(s);
    if s.loops[s.cur.value].pc != Gone {
      UnfinishedCanMove(s, s.cur.value);
    }
  }

  /** ... and every move it can make lowers its rank. */
  lemma JoinedLoopNearsItsEnd(s: System, e: Step, g: nat)
    requires Reachable(s) && JoiningNow(s) && s.cur == Some(g) && StepOf(e, g) && Enabled(s, e)
    ensures g < |s.loops| == |Apply(s, e).loops| && Rank(Apply(s, e).loops[g].pc) < Rank(s.loops[g].pc)
  {
    ReachableInv(s);
    JoinIsSound(s);
    LoopStepMoves(s, e);
    CancelledRankDrops(s, e, g);
  }

  predicate Receives(e: Step) {
    e.OwnerJoin? || e.OwnerSeesDone?
  }

  /** Each loop's result is produced once, and whoever receives one is the first to. */
  lemma ResultsReceivedOnce(s: System, e: Step, g: nat)
    requires Reachable(s) && g < |s.loops|
    ensures s.loops[g].pc == Gone <==> s.loops[g].result.Some? != s.loops[g].received
    ensures Enabled(s, e) && e == LoopSends(g) ==> s.loops[g].result.None? && !s.loops[g].received
    ensures Enabled(s, e) && Receives(e) && s.cur == Some(g) ==> !s.loops[g].received && Apply(s, e).loops[g].received
  {
    ReachableInv(s);
    assert LoopOk(s.loops[g], s.ctxDone);
  }

  /** The step an owner that is neither waiting nor joining takes next. */
  function OwnerNext(o: OwnerPc): Step {
    match o
    case Top => OwnerRead
    case Cancelling => OwnerCancel
    case ExitCancelling => OwnerCancel
    case Closing => OwnerClose
    case ExitClosing => OwnerClose
    case Dropping => OwnerDrop
    case Binding => OwnerBind(false)
    case Leaving(_) => OwnerLeaves
    case _ => OwnerChecks
  }

  /** The owner is stuck in no reachable state: it has stopped, waits in select with
      everything done or a wake-up on its way, joins a loop that can move, or can move. */
  lemma OwnerNeverStuck(s: System)
    requires Reachable(s)
    ensures s.owner.Stopped? || Enabled(s, OwnerNext(s.owner))
            || (JoiningNow(s) && s.cur.Some? && s.cur.value < |s.loops|
                && (Enabled(s, OwnerJoin) || Enabled(s, NextOf(s, s.cur.value))))
            || (s.owner == Selecting
                && (s.notifying || (s.want == s.lan && (s.cur.Some? || s.retryArmed || s.lan.iface == ""))))
  {
    ReachableInv(s);
    if JoiningNow(s) {
      JoinIsSound(s);
      if s.loops[s.cur.value].pc != Gone {
        UnfinishedCanMove(s, s.cur.value);
      }
    }
  }

  /** While the owner joins, the steps of everyone else leave the joined loop and the
      wait alone. */
  lemma JoinUndisturbed(s: System, e: Step)
    requires HeldOk(s) && JoiningNow(s) && Enabled(s, e) && !StepOf(e, s.cur.value) && !e.OwnerJoin?
    ensures JoiningNow(Apply(s, e)) && Apply(s, e).cur == s.cur
    ensures s.cur.value < |s.loops| <= |Apply(s, e).loops|
    ensures Apply(s, e).loops[s.cur.value].pc == s.loops[s.cur.value].pc
    ensures Apply(s, e).loops[s.cur.value].result == s.loops[s.cur.value].result
  {
    if LoopStep(e) {
      LoopStepMoves(s, e);
    } else {
      assert !HoldStep(e) && !MoveStep(e);
      OtherStepsKeepLoops(s, e);
    }
  }

  /** Steps of the supervisor, the environment, the watcher and startProxy. */
  lemma OtherStepsKeepLoops(s: System, e: Step)
    requires OtherEnabled(s, e)
    ensures var s' := OtherApply(s, e);
            s'.owner == s.owner && s'.cur == s.cur && |s'.loops| == |s.loops|
            && forall g | 0 <= g < |s.loops| ::
                 s'.loops[g].pc == s.loops[g].pc && s'.loops[g].result == s.loops[g].result
  {
    if !e.Intrude? && !e.CloseLoopback? {
      assert OtherApply(s, e).loops == s.loops;
    }
  }

  /** Deliberate closes are never fatal: serveLAN fails only if the listener it held
      was closed by someone else while its context was live. */
  lemma ErrorMeansIntrusion(s: System)
    requires Reachable(s)
    ensures s.owner.Stopped? && s.owner.exit == ClosedUnexpectedly ==>
              s.owner.viaDone && |s.loops| > 1 && s.loops[|s.loops| - 1].intruded
  {
    ReachableInv(s);
  }

  /** Shutdown is complete: when startProxy has returned, no accept loop is left,
      the tracker is empty and every connection ever accepted has been closed. */
  lemma ShutdownComplete(s: System)
    requires Reachable(s)
    ensures s.main == MainPc.Returned ==>
              (forall g | 0 <= g < |s.loops| :: s.loops[g].pc == Gone)
              && s.tracker == map[]
              && forall c: nat | c < s.nextConn :: c in s.closedConns
  {
    ReachableInv(s);
    if s.main == MainPc.Returned {
      assert forall g | 0 <= g < |s.loops| :: s.loops[g].pc == Gone;
      assert forall c: nat :: !InHand(s, c);
    }
  }

  // ----- what ends a loop

  /** An accept loop ends only with its context or its listener. */
  lemma LoopsEndForAReason(s: System, g: nat)
    requires Reachable(s) && g < |s.loops| && (s.loops[g].pc.Returned? || s.loops[g].pc.Gone?)
    ensures CtxErr(s, g) || s.loops[g].closed
  {
    ReachableInv(s);
    assert LoopOk(s.loops[g], s.ctxDone);
  }

  /** Loop `g` backs off. */
  function BackedOff(s: System, g: nat, pc: LoopPc): System
    requires g < |s.loops|
  {
    s.(loops := s.loops[g := s.loops[g].(pc := pc)])
  }

  /** A transient error under a live context with the listener open: the loop backs off
      and accepts again, in two steps that are the only ones it has; listener, tracker and
      everything else stay. */
  lemma TransientErrorRecovers(s: System, g: nat)
    requires Reachable(s) && g < |s.loops| && s.loops[g].pc.Erred? && !CtxErr(s, g) && !s.loops[g].closed
    ensures forall e | StepOf(e, g) && Enabled(s, e) :: Apply(s, e) == BackedOff(s, g, BackingOff)
    ensures Enabled(s, LoopInspects(g))
    ensures var s1 := BackedOff(s, g, BackingOff);
            Enabled(s1, LoopResumes(g))
            && forall e | StepOf(e, g) && Enabled(s1, e) :: Apply(s1, e) == BackedOff(s, g, Accepting)
  {
    ReachableInv(s);
    assert LoopOk(s.loops[g], s.ctxDone);
    ErrorBacksOff(s, g);
    BackOffResumes(BackedOff(s, g, BackingOff), g);
    assert BackedOff(BackedOff(s, g, BackingOff), g, Accepting) == BackedOff(s, g, Accepting);
  }

  lemma ErrorBacksOff(s: System, g: nat)
    requires g < |s.loops| && s.loops[g].pc == Erred(false) && !CtxErr(s, g)
    ensures forall e | StepOf(e, g) && Enabled(s, e) :: Apply(s, e) == BackedOff(s, g, BackingOff)
  {
    forall e | StepOf(e, g) && Enabled(s, e) ensures Apply(s, e) == BackedOff(s, g, BackingOff) {
      assert e == LoopInspects(g);
    }
  }

  lemma BackOffResumes(s: System, g: nat)
    requires g < |s.loops| && s.loops[g].pc == BackingOff && !CtxErr(s, g)
    ensures forall e | StepOf(e, g) && Enabled(s, e) :: Apply(s, e) == BackedOff(s, g, Accepting)
  {
    forall e | StepOf(e, g) && Enabled(s, e) ensures Apply(s, e) == BackedOff(s, g, Accepting) {
      assert e == LoopResumes(g);
    }
  }

  /** An accept on a closed listener under a live context ends the loop with the error ... */
  lemma ClosedListenerIsFatal(s: System, g: nat)
    requires g < |s.loops| && s.loops[g].pc == Accepting && s.loops[g].closed && !CtxErr(s, g)
    ensures forall e | StepOf(e, g) && Enabled(s, e) :: e == LoopFails(g)
    ensures Exec(s, [LoopFails(g)] + [LoopInspects(g)] + [LoopSends(g)]) ==
              Some(SetLoop(s, g, s.loops[g].(pc := Gone, result := Some(ClosedUnexpectedly))))
  {
    ClosedAcceptFails(s, g);
    var s1, s2 := BackedOff(s, g, Erred(true)), BackedOff(s, g, LoopPc.Returned(ClosedUnexpectedly));
    ClosedErrorReturns(s1, g);
    assert BackedOff(s1, g, LoopPc.Returned(ClosedUnexpectedly)) == s2;
    ResultIsSent(s2, g, ClosedUnexpectedly);
    var s3 := SetLoop(s2, g, s2.loops[g].(pc := Gone, result := Some(ClosedUnexpectedly)));
    assert s3 == SetLoop(s, g, s.loops[g].(pc := Gone, result := Some(ClosedUnexpectedly)));
    ThreeSteps(s, LoopFails(g), s1, LoopInspects(g), s2, LoopSends(g), s3);
  }

  lemma ClosedAcceptFails(s: System, g: nat)
    requires g < |s.loops| && s.loops[g].pc == Accepting && s.loops[g].closed
    ensures forall e | StepOf(e, g) && Enabled(s, e) :: e == LoopFails(g)
    ensures OneTo(s, LoopFails(g), BackedOff(s, g, Erred(true)))
  {
    LoopRuns(s, LoopFails(g), BackedOff(s, g, Erred(true)));
  }

  predicate OneTo(s: System, e: Step, s': System) {
    Enabled(s, e) && Apply(s, e) == s'
  }

  lemma ThreeSteps(s: System, e: Step, s1: System, f: Step, s2: System, h: Step, s3: System)
    requires OneTo(s, e, s1) && OneTo(s1, f, s2) && OneTo(s2, h, s3)
    ensures Exec(s, [e] + [f] + [h]) == Some(s3)
  {
    After2(s, e, s1, f, s2);
    var more, s' := After(s, [e] + [f], s2, h);
  }

  lemma ClosedErrorReturns(s: System, g: nat)
    requires g < |s.loops| && s.loops[g].pc == Erred(true) && !CtxErr(s, g)
    ensures OneTo(s, LoopInspects(g), BackedOff(s, g, LoopPc.Returned(ClosedUnexpectedly)))
  {
    LoopRuns(s, LoopInspects(g), BackedOff(s, g, LoopPc.Returned(ClosedUnexpectedly)));
  }

  lemma ResultIsSent(s: System, g: nat, r: Outcome)
    requires g < |s.loops| && s.loops[g].pc == LoopPc.Returned(r)
    ensures OneTo(s, LoopSends(g), SetLoop(s, g, s.loops[g].(pc := Gone, result := Some(r))))
  {
    LoopRuns(s, LoopSends(g), SetLoop(s, g, s.loops[g].(pc := Gone, result := Some(r))));
  }

  /** One step of a loop, spelled out. */
  lemma LoopRuns(s: System, e: Step, s': System)
    requires LoopEnabled(s, e) && e.g < |s.loops|
    requires s' == SetLoop(s, e.g, SteppedLoop(s.loops[e.g], e, CtxErr(s, e.g), s.nextConn))
    requires !e.LoopAdds? && !e.LoopAccepts?
    ensures Enabled(s, e) && Apply(s, e) == s'
  {
  }

  lemma After2(s: System, e: Step, s1: System, f: Step, s2: System)
    requires OneTo(s, e, s1) && OneTo(s1, f, s2)
    ensures Exec(s, [e] + [f]) == Some(s2)
  {
    ExecOne(s, e);
    var more, s' := After(s, [e], s1, f);
  }

  /** ... and the owner stops with exactly the outcome its listener's loop has left. */
  lemma OwnerStopsWithResult(s: System, g: nat)
    requires s.owner == Selecting && s.cur == Some(g) && g < |s.loops| && s.loops[g].result.Some?
    ensures Exec(s, [OwnerSeesDone] + [OwnerLeaves]).Some?
    ensures Exec(s, [OwnerSeesDone] + [OwnerLeaves]).value.owner == Stopped(s.loops[g].result.value, true)
  {
    var s1 := HoldApply(s, OwnerSeesDone);
    After2(s, OwnerSeesDone, s1, OwnerLeaves, HoldApply(s1, OwnerLeaves));
  }

  /** Once the owner has stopped every LAN context is released. */
  lemma ContextsReleased(s: System, g: nat)
    requires Reachable(s) && s.owner.Stopped? && 0 < g < |s.loops|
    ensures s.loops[g].cancelled && s.loops[g].pc == Gone
  {
    ReachableInv(s);
  }

  /** A check that finds the LAN unchanged keeps the listener, its loop and every connection. */
  lemma UnchangedCheckKeeps(s: System, g: nat, ok: bool)
    requires s.owner == Top && s.cur == Some(g) && g < |s.loops| && s.loops[g].bound == s.lan
    ensures Enabled(s, OwnerRead) && Enabled(Apply(s, OwnerRead), OwnerBind(ok))
    ensures Apply(Apply(s, OwnerRead), OwnerBind(ok)) == s.(owner := Selecting, want := s.lan, retryArmed := false)
  {
  }

  /** Dropping the connections of an old LAN closes exactly those that a LAN listener
      accepted: loopback connections stay. */
  lemma DropClosesLanOnly(s: System, c: nat)
    requires Reachable(s) && s.owner == Dropping && c in s.tracker
    ensures c < |s.acceptor| && Enabled(s, OwnerDrop)
    ensures var s' := Apply(s, OwnerDrop);
            if s.acceptor[c] == 0 then c in s'.tracker && (c in s'.closedConns <==> c in s.closedConns)
            else c !in s'.tracker && c in s'.closedConns
  {
    ReachableInv(s);
  }

  /** A VPN loss closes every tracked connection, one that has been served only itself;
      both forget what they close and leave listeners and loops alone. */
  lemma DropOutcomes(s: System, c: nat)
    requires s.watching && c in s.tracker
    ensures Enabled(s, WatcherDrops) && Enabled(s, ConnFinishes(c))
    ensures Apply(s, WatcherDrops) == s.(tracker := map[], closedConns := s.closedConns + s.tracker.Keys)
    ensures Apply(s, ConnFinishes(c)) == s.(tracker := s.tracker - {c}, closedConns := s.closedConns + {c})
  {
    assert s.tracker - s.tracker.Keys == map[] && s.tracker.Keys * s.tracker.Keys == s.tracker.Keys;
    assert s.tracker.Keys * {c} == {c};
  }

  // ----- the owner catches up

  /** The owner is in its loop: it is neither on its way out nor gone. */
  predicate InLoop(o: OwnerPc) {
    o == Top || ClosingOld(o) || o == Dropping || o == Binding || o == Selecting
  }

  /** The owner waits with nothing pending and serves State's LAN. */
  predicate CaughtUp(s: System) {
    s.owner == Selecting && !s.lanCheck && !s.notifying && s.want == s.lan
    && match s.cur
       case Some(g) => g < |s.loops| && s.loops[g].bound == s.lan
       case None => s.lan.iface == ""
  }

  function HeldRank(s: System): nat {
    match s.cur
    case Some(g) => LoopRank(s, g)
    case None => 0
  }

  /** How far the owner is from its next wait with a listener. */
  function LoopBodyRank(s: System): nat {
    match s.owner
    case Top => 14
    case Cancelling => 13
    case Closing => 12
    case Joining => 7 + HeldRank(s)
    case Dropping => 6
    case Binding => 5
    case Selecting => if s.retryArmed then 15 else 0
    case _ => 0
  }

  function CatchUpRank(s: System): nat {
    (if s.notifying then 17 else 0) + (if s.lanCheck then 16 else 0) + LoopBodyRank(s)
  }

  /** Notify, then let the owner, and the loop it joins, go on; the bind succeeds. */
  function CatchUpNext(s: System): Step {
    if s.notifying then Notify
    else
      match s.owner
      case Top => OwnerRead
      case Cancelling => OwnerCancel
      case Closing => OwnerClose
      case Joining =>
        if s.cur.Some? && s.cur.value < |s.loops| && s.loops[s.cur.value].pc != Gone
        then NextOf(s, s.cur.value) else OwnerJoin
      case Dropping => OwnerDrop
      case Binding => OwnerBind(true)
      case _ => if s.lanCheck then OwnerChecks else OwnerRetries
  }

  /** One step of the way. */
  ghost predicate Nearer(s: System) {
    Enabled(s, CatchUpNext(s))
    && var s' := Apply(s, CatchUpNext(s));
       InLoop(s'.owner) && s'.lan == s.lan && CatchUpRank(s') < CatchUpRank(s)
  }

  lemma NotifyNearer(s: System)
    requires InLoop(s.owner) && s.notifying
    ensures Nearer(s)
  {
    assert OtherApply(s, Notify) == s.(lanCheck := true, notifying := false);
  }

  lemma MoveNearer(s: System)
    requires InLoop(s.owner) && !ClosingOld(s.owner) && !s.notifying
    requires s.owner == Selecting ==> s.lanCheck || s.retryArmed
    ensures Nearer(s)
  {
  }

  lemma HoldNearer(s: System)
    requires LoopsOk(s) && HeldOk(s) && !s.notifying && (s.owner == Cancelling || s.owner == Closing)
    ensures Nearer(s)
  {
    HeldChange(s, HoldApply(s, CatchUpNext(s)), s.cur.value);
    assert LoopRank(s, s.cur.value) <= 4;
  }

  lemma JoinNearer(s: System)
    requires LoopsOk(s) && HeldOk(s) && !s.notifying && s.owner == Joining
    ensures Nearer(s)
  {
    JoinIsSound(s);
    var g := s.cur.value;
    if s.loops[g].pc != Gone {
      UnfinishedCanMove(s, g);
      LoopStepMoves(s, NextOf(s, g));
      CancelledRankDrops(s, NextOf(s, g), g);
    }
  }

  lemma SelectingIsCaughtUp(s: System)
    requires HeldOk(s) && WakeOk(s) && s.owner == Selecting && !s.notifying && !s.lanCheck && !s.retryArmed
    ensures CaughtUp(s)
  {
  }

  lemma CatchUpDescends(s: System)
    requires Inv(s) && InLoop(s.owner) && !CaughtUp(s)
    ensures Nearer(s)
  {
    if s.notifying {
      NotifyNearer(s);
    } else if s.owner == Joining {
      JoinNearer(s);
    } else if ClosingOld(s.owner) {
      HoldNearer(s);
    } else {
      if s.owner == Selecting && !s.lanCheck && !s.retryArmed {
        SelectingIsCaughtUp(s);
      }
      MoveNearer(s);
    }
  }

  lemma {:induction false} CatchUpFrom(s: System) returns (es: seq<Step>)
    requires Inv(s) && InLoop(s.owner)
    ensures |es| <= CatchUpRank(s) && Exec(s, es).Some? && CaughtUp(Exec(s, es).value) && Exec(s, es).value.lan == s.lan
    decreases CatchUpRank(s)
  {
    if CaughtUp(s) {
      return [];
    }
    CatchUpDescends(s);
    var e := CatchUpNext(s);
    StepKeepsInv(s, e);
    var rest := CatchUpFrom(Apply(s, e));
    StepThen(s, e, rest);
    return [e] + rest;
  }

  /** From every reachable state whose owner is in its loop, at most 48 steps of supervisor,
      owner and the loop it joins lead to a wait with a listener on exactly State's LAN, if
      there is a LAN and it can be bound. */
  lemma OwnerCanCatchUp(s: System)
    requires Reachable(s) && InLoop(s.owner)
    ensures exists es ::
              |es| <= 48 && Exec(s, es).Some? && CaughtUp(Exec(s, es).value) && Exec(s, es).value.lan == s.lan
  {
    ReachableInv(s);
    var es := CatchUpFrom(s);
    assert HeldRank(s) <= 4;
    assert CatchUpRank(s) <= 48;
  }

  /** How far the owner is from having stopped, in a cancelled context. */
  function OwnerRank(o: OwnerPc): nat {
    match o
    case Top => 11
    case Cancelling => 10
    case Closing => 9
    case Joining => 8
    case Dropping => 7
    case Binding => 6
    case Selecting => 5
    case ExitCancelling => 4
    case ExitClosing => 3
    case ExitJoining => 2
    case Leaving(_) => 1
    case Stopped(_, _) => 0
  }

  /** What is left of the loop in slot `g`. */
  function LoopRank(s: System, g: nat): nat {
    if g < |s.loops| then Rank(s.loops[g].pc) else 0
  }

  /** What is left of the shutdown. */
  function ShutdownRank(s: System): nat {
    OwnerRank(s.owner) + LoopRank(s, 0)
    + (match s.cur case Some(g) => LoopRank(s, g) case None => 0)
    + (if 0 < |s.loops| && s.loops[0].closed then 0 else 1)
    + (if s.watching then 1 else 0)
    + (match s.main case Waiting => 2 case Clearing => 1 case Returned => 0)
  }

  /** The owner's way out of a cancelled context. */
  function OwnerExit(s: System): Step {
    match s.owner
    case Selecting => OwnerSeesCancel
    case Joining => OwnerJoin
    case ExitJoining => OwnerJoin
    case o => OwnerNext(o)
  }

  /** The step of owner, closer of the loopback listener, loop, watcher or startProxy that
      the shutdown goes on with. Loops are asked to move only once their listener is closed. */
  function ShutdownNext(s: System): Step
    requires |s.loops| > 0 && (s.cur.Some? ==> s.cur.value < |s.loops|)
  {
    if JoiningNow(s) && s.cur.Some? && s.loops[s.cur.value].pc != Gone then NextOf(s, s.cur.value)
    else if !s.owner.Stopped? then OwnerExit(s)
    else if !s.loops[0].closed then CloseLoopback
    else if s.loops[0].pc != Gone then NextOf(s, 0)
    else if s.watching then WatcherExits
    else if s.main == Waiting then MainJoins
    else MainClears
  }

  lemma MoveExitDescends(s: System)
    requires s.ctxDone && (s.owner == Top || s.owner == Dropping || s.owner == Binding || s.owner == Selecting)
    ensures Enabled(s, OwnerExit(s)) && ShutdownRank(Apply(s, OwnerExit(s))) < ShutdownRank(s)
  {
    var s' := Apply(s, OwnerExit(s));
    assert s'.loops == s.loops && s'.cur == s.cur && s'.watching == s.watching && s'.main == s.main;
    assert OwnerRank(s'.owner) < OwnerRank(s.owner);
  }

  lemma HoldExitDescends(s: System)
    requires |s.loops| > 0 && HeldOk(s) && s.cur.Some? && !JoiningNow(s)
    requires ClosingOld(s.owner) || Exiting(s.owner) || s.owner.Leaving?
    ensures Enabled(s, OwnerExit(s)) && ShutdownRank(Apply(s, OwnerExit(s))) < ShutdownRank(s)
  {
    var g, s' := s.cur.value, HoldApply(s, OwnerExit(s));
    HeldChange(s, s', g);
    OwnerNearer(s, s');
  }

  lemma JoinExitDescends(s: System)
    requires LoopsOk(s) && HeldOk(s) && JoiningNow(s) && (s.cur.Some? ==> s.loops[s.cur.value].pc == Gone)
    ensures Enabled(s, OwnerJoin) && ShutdownRank(Apply(s, OwnerJoin)) < ShutdownRank(s)
  {
    JoinIsSound(s);
    var g, s' := s.cur.value, HoldApply(s, OwnerJoin);
    HeldChange(s, s', g);
    OwnerNearer(s, s');
  }

  /** Only the owner gets nearer to the end. */
  lemma OwnerNearer(s: System, s': System)
    requires OwnerRank(s'.owner) < OwnerRank(s.owner) && (s'.cur == s.cur || s'.cur.None?)
    requires forall h: nat :: LoopRank(s', h) == LoopRank(s, h)
    requires |s'.loops| == |s.loops| && (|s.loops| > 0 && s.loops[0].closed ==> s'.loops[0].closed)
    requires s'.watching == s.watching && s'.main == s.main
    ensures ShutdownRank(s') < ShutdownRank(s)
  {
  }

  /** A step on the held loop that does not move it. */
  lemma HeldChange(s: System, s': System, g: nat)
    requires g < |s.loops| == |s'.loops| && s'.loops[g].pc == s.loops[g].pc
    requires forall h | 0 <= h < |s.loops| && h != g :: s'.loops[h] == s.loops[h]
    ensures forall h: nat :: LoopRank(s', h) == LoopRank(s, h)
  {
  }

  lemma OwnerExitDescends(s: System)
    requires LoopsOk(s) && HeldOk(s) && s.ctxDone && !s.owner.Stopped?
    requires JoiningNow(s) && s.cur.Some? ==> s.loops[s.cur.value].pc == Gone
    ensures Enabled(s, OwnerExit(s)) && ShutdownRank(Apply(s, OwnerExit(s))) < ShutdownRank(s)
  {
    if JoiningNow(s) {
      JoinExitDescends(s);
    } else if ClosingOld(s.owner) || Exiting(s.owner) || s.owner.Leaving? {
      HoldExitDescends(s);
    } else {
      MoveExitDescends(s);
    }
  }

  lemma NextLowersRank(s: System, g: nat)
    requires g < |s.loops| && s.ctxDone && s.loops[g].pc != Gone
    ensures LoopEnabled(s, NextOf(s, g)) && Rank(LoopApply(s, NextOf(s, g)).loops[g].pc) < Rank(s.loops[g].pc)
  {
  }

  lemma LoopExitDescends(s: System, g: nat)
    requires g < |s.loops| && s.ctxDone && s.loops[g].pc != Gone && (g == 0 || s.cur == Some(g))
    ensures Enabled(s, NextOf(s, g)) && ShutdownRank(Apply(s, NextOf(s, g))) < ShutdownRank(s)
  {
    NextLowersRank(s, g);
    LoopStepMoves(s, NextOf(s, g));
    LoopMovedRank(s, LoopApply(s, NextOf(s, g)), g);
  }

  lemma LoopMovedRank(s: System, s': System, g: nat)
    requires LoopMoved(s, s', g) && Rank(s'.loops[g].pc) < Rank(s.loops[g].pc) && (g == 0 || s.cur == Some(g))
    ensures ShutdownRank(s') < ShutdownRank(s)
  {
  }

  lemma ShutdownDescends(s: System)
    requires Inv(s) && s.ctxDone && s.main != MainPc.Returned
    ensures Enabled(s, ShutdownNext(s)) && ShutdownRank(Apply(s, ShutdownNext(s))) < ShutdownRank(s)
  {
    if JoiningNow(s) && s.loops[s.cur.value].pc != Gone {
      LoopExitDescends(s, s.cur.value);
    } else if !s.owner.Stopped? {
      OwnerExitDescends(s);
    } else if s.loops[0].closed && s.loops[0].pc != Gone {
      LoopExitDescends(s, 0);
    }
  }

  lemma HoldKeepsCancelled(s: System, e: Step)
    requires HoldEnabled(s, e) && s.ctxDone
    ensures HoldApply(s, e).ctxDone
  {
  }

  lemma MoveKeepsCancelled(s: System, e: Step)
    requires MoveEnabled(s, e) && s.ctxDone
    ensures MoveApply(s, e).ctxDone
  {
  }

  lemma LoopKeepsCancelled(s: System, e: Step)
    requires LoopEnabled(s, e) && s.ctxDone
    ensures LoopApply(s, e).ctxDone
  {
  }

  lemma OtherKeepsCancelled(s: System, e: Step)
    requires OtherEnabled(s, e) && s.ctxDone
    ensures OtherApply(s, e).ctxDone
  {
  }

  lemma CancelledStays(s: System, e: Step)
    requires Enabled(s, e) && s.ctxDone
    ensures Apply(s, e).ctxDone
  {
    if HoldStep(e) {
      HoldKeepsCancelled(s, e);
    } else if MoveStep(e) {
      MoveKeepsCancelled(s, e);
    } else if LoopStep(e) {
      LoopKeepsCancelled(s, e);
    } else {
      OtherKeepsCancelled(s, e);
    }
  }

  /** Once the context is cancelled every reachable state can go on shutting down, by a
      step that brings the end nearer ... */
  lemma ShutdownNeverStuck(s: System)
    requires Reachable(s) && s.ctxDone && s.main != MainPc.Returned
    ensures |s.loops| > 0 && (s.cur.Some? ==> s.cur.value < |s.loops|)
    ensures Enabled(s, ShutdownNext(s)) && ShutdownRank(Apply(s, ShutdownNext(s))) < ShutdownRank(s)
  {
    ReachableInv(s);
    ShutdownDescends(s);
  }

  lemma {:induction false} FinishFrom(s: System) returns (es: seq<Step>)
    requires Inv(s) && s.ctxDone
    ensures |es| <= ShutdownRank(s) && Exec(s, es).Some? && Exec(s, es).value.main == MainPc.Returned
    decreases ShutdownRank(s)
  {
    if s.main == MainPc.Returned {
      return [];
    }
    ShutdownDescends(s);
    var e := ShutdownNext(s);
    StepKeepsInv(s, e);
    CancelledStays(s, e);
    var rest := FinishFrom(Apply(s, e));
    StepThen(s, e, rest);
    return [e] + rest;
  }

  /** ... and startProxy can return, with all of `ShutdownComplete`, within 23 steps. */
  lemma ShutdownCanFinish(s: System)
    requires Reachable(s) && s.ctxDone
    ensures exists es :: |es| <= 23 && Exec(s, es).Some? && Exec(s, es).value.main == MainPc.Returned
  {
    ReachableInv(s);
    var es := FinishFrom(s);
    assert ShutdownRank(s) <= 23;
  }

  lemma ExecOne(s: System, e: Step)
    requires Enabled(s, e)
    ensures Exec(s, [e]) == Some(Apply(s, e))
  {
    var es := [e];
    assert es[..|es| - 1] == [];
  }

  lemma {:induction false} StepThen(s: System, e: Step, es: seq<Step>)
    requires Enabled(s, e)
    ensures Exec(s, [e] + es) == Exec(Apply(s, e), es)
  {
    if es == [] {
      ExecOne(s, e);
      assert [e] + es == [e];
    } else {
      StepThen(s, e, es[..|es| - 1]);
      assert ([e] + es)[..|es|] == [e] + es[..|es| - 1];
    }
  }

  lemma OpenListenerAtStop(s: System, g: nat)
    requires RetiredOk(s) && HeldOk(s) && s.owner.Stopped? && 0 < g < |s.loops| && !s.loops[g].closed
    ensures s.owner.viaDone && g == |s.loops| - 1
    ensures s.loops[|s.loops| - 1].intruded || s.owner.exit == Clean
  {
  }

  /** A LAN listener is still open after the owner stopped only if the owner left
      through `done` without an error. */
  lemma OpenAfterExit(s: System, g: nat)
    requires Reachable(s)
    requires s.owner.Stopped? && 0 < g < |s.loops| && !s.loops[g].closed
    ensures s.owner == Stopped(Clean, true) && g == |s.loops| - 1
  {
    ReachableInv(s);
    OpenListenerAtStop(s, g);
    assert LoopOk(s.loops[g], s.ctxDone);
  }

  /** The listeners that someone else closed. */
  function Intruders(es: seq<Step>): set<nat> {
    set e | e in es && e.Intrude? :: e.g
  }

  lemma MoreIntruders(es: seq<Step>, e: Step)
    ensures Intruders(es + [e]) == Intruders(es) + if e.Intrude? then {e.g} else {}
  {
    assert forall x :: x in es + [e] <==> x in es || x == e;
  }

  /** The held listener is closed only while it is being joined, unless someone else
      closed it; so is the last one once the owner has left through `done`. */
  predicate ClosedOnlyBy(s: System, others: set<nat>) {
    (forall g | g in others :: g < |s.loops|)
    && (s.cur.Some? && 0 < s.cur.value < |s.loops| ==>
          (s.loops[s.cur.value].closed <==> JoiningNow(s) || s.cur.value in others))
    && (s.owner.Stopped? && s.owner.viaDone ==>
          |s.loops| > 1 && (s.loops[|s.loops| - 1].closed <==> |s.loops| - 1 in others))
  }

  lemma HoldKeepsClosed(s: System, others: set<nat>, e: Step)
    requires HeldOk(s) && ClosedOnlyBy(s, others) && HoldEnabled(s, e)
    ensures ClosedOnlyBy(HoldApply(s, e), others)
  {
  }

  lemma MoveKeepsClosed(s: System, others: set<nat>, e: Step)
    requires HeldOk(s) && ClosedOnlyBy(s, others) && MoveEnabled(s, e)
    ensures ClosedOnlyBy(MoveApply(s, e), others)
  {
  }

  lemma LoopKeepsClosed(s: System, others: set<nat>, e: Step)
    requires HeldOk(s) && ClosedOnlyBy(s, others) && LoopEnabled(s, e)
    ensures ClosedOnlyBy(LoopApply(s, e), others)
  {
    LoopStepMoves(s, e);
    MovedKeepsClosed(s, LoopApply(s, e), others, e.g);
  }

  lemma MovedKeepsClosed(s: System, s': System, others: set<nat>, g: nat)
    requires ClosedOnlyBy(s, others) && LoopMoved(s, s', g)
    ensures ClosedOnlyBy(s', others)
  {
  }

  lemma OtherKeepsClosed(s: System, others: set<nat>, e: Step)
    requires HeldOk(s) && ClosedOnlyBy(s, others) && OtherEnabled(s, e)
    ensures ClosedOnlyBy(OtherApply(s, e), others + if e.Intrude? then {e.g} else {})
  {
  }

  lemma StepKeepsClosed(s: System, others: set<nat>, e: Step)
    requires Inv(s) && ClosedOnlyBy(s, others) && Enabled(s, e)
    ensures ClosedOnlyBy(Apply(s, e), others + if e.Intrude? then {e.g} else {})
  {
    assert others + {} == others;
    if HoldStep(e) {
      HoldKeepsClosed(s, others, e);
    } else if MoveStep(e) {
      MoveKeepsClosed(s, others, e);
    } else if LoopStep(e) {
      LoopKeepsClosed(s, others, e);
    } else {
      OtherKeepsClosed(s, others, e);
    }
  }

  lemma NobodyYet(s: System)
    requires Start(s)
    ensures ClosedOnlyBy(s, Intruders([]))
  {
  }

  lemma LastIntruder(es: seq<Step>)
    requires es != []
    ensures var n := |es| - 1; Intruders(es) == Intruders(es[..n]) + if es[n].Intrude? then {es[n].g} else {}
  {
    var n := |es| - 1;
    MoreIntruders(es[..n], es[n]);
    assert es == es[..n] + [es[n]];
  }

  lemma {:induction false} EveryRunClosesOnlyBy(s0: System, es: seq<Step>)
    requires Start(s0) && Exec(s0, es).Some?
    ensures ClosedOnlyBy(Exec(s0, es).value, Intruders(es))
  {
    if es == [] {
      NobodyYet(s0);
    } else {
      var n := |es| - 1;
      EveryRunClosesOnlyBy(s0, es[..n]);
      EveryRun(s0, es[..n]);
      LastIntruder(es);
      StepKeepsClosed(Exec(s0, es[..n]).value, Intruders(es[..n]), es[n]);
    }
  }

  lemma OpenIff(s: System, others: set<nat>)
    requires Inv(s) && ClosedOnlyBy(s, others) && s.owner.Stopped?
    ensures s.owner.viaDone ==> |s.loops| > 1
    ensures (exists g :: 0 < g < |s.loops| && !s.loops[g].closed) <==> s.owner.viaDone && |s.loops| - 1 !in others
  {
  }

  lemma IntruderIff(es: seq<Step>, g: nat)
    ensures g in Intruders(es) <==> Intrude(g) in es
  {
    if Intrude(g) in es {
      assert Intrude(g).g in Intruders(es);
    }
  }

  lemma OpenIffNot(s: System, es: seq<Step>)
    requires Inv(s) && ClosedOnlyBy(s, Intruders(es)) && s.owner.Stopped?
    ensures s.owner.viaDone ==> |s.loops| > 1
    ensures (exists g :: 0 < g < |s.loops| && !s.loops[g].closed) <==>
            s.owner.viaDone && Intrude(|s.loops| - 1) !in es
  {
    OpenIff(s, Intruders(es));
    if s.owner.viaDone {
      IntruderIff(es, |s.loops| - 1);
    }
  }

  /** serveLAN leaves a LAN listener open exactly if it returned through `done` and nobody
      else has closed the listener it held; no other LAN listener is ever left open. */
  lemma OpenAfterExitIff(s0: System, es: seq<Step>, s: System)
    requires Start(s0) && Exec(s0, es) == Some(s) && s.owner.Stopped?
    ensures s.owner.viaDone ==> |s.loops| > 1
    ensures (exists g :: 0 < g < |s.loops| && !s.loops[g].closed) <==>
            s.owner.viaDone && Intrude(|s.loops| - 1) !in es
  {
    EveryRun(s0, es);
    EveryRunClosesOnlyBy(s0, es);
    OpenIffNot(s, es);
  }

  /** And that happens: the context is cancelled, the loop sees it after a transient
      error, and the owner takes the result before it sees the cancellation. */
  lemma OpenListenerExample(lan: LanSnapshot)
    requires lan.iface != ""
    ensures exists s :: Reachable(s) && s.owner == Stopped(Clean, true)
                        && |s.loops| == 2 && s.loops[1].bound == lan && !s.loops[1].closed
  {
    var l := NewLoop(lan);
    ListenerOpens(lan);
    LoopSeesCancel(lan, l);
    var returned := l.(pc := LoopPc.Returned(Clean));
    LoopSendsResult(lan, returned);
    var sent := l.(pc := Gone, result := Some(Clean));
    OwnerTakesResult(lan, sent);
  }

  /** The owner has opened a listener on `lan`, whose loop is `l`; nothing else has happened. */
  function Held(lan: LanSnapshot, l: Loop, owner: OwnerPc, ctxDone: bool): System {
    System(lan, false, false, ctxDone, owner, Some(1), lan, false, [NewLoop(NO_LAN), l], map[], {}, 0, [], true,
           Waiting)
  }

  lemma ReachesMore(s: System, e: Step)
    requires Reachable(s) && Enabled(s, e)
    ensures Reachable(Apply(s, e))
  {
    var s0, es :| Start(s0) && Exec(s0, es) == Some(s);
    var more, s' := After(s0, es, s, e);
  }

  lemma ListenerOpens(lan: LanSnapshot)
    requires lan.iface != ""
    ensures Reachable(Held(lan, NewLoop(lan), Selecting, false))
  {
    var s0 := System(lan, false, false, false, Top, None, NO_LAN, false, [NewLoop(NO_LAN)], map[], {}, 0, [], true,
                     Waiting);
    assert Start(s0) && Exec(s0, []) == Some(s0);
    ReachesMore(s0, OwnerRead);
    assert MoveApply(s0, OwnerRead) == s0.(want := lan, owner := Binding);
    ListenerBinds(s0.(want := lan, owner := Binding));
  }

  lemma ListenerBinds(s: System)
    requires Reachable(s) && s.owner == Binding && s.cur.None? && s.want == s.lan && s.lan.iface != ""
    requires s == Held(s.lan, NewLoop(s.lan), Binding, false).(cur := None, loops := [NewLoop(NO_LAN)])
    ensures Reachable(Held(s.lan, NewLoop(s.lan), Selecting, false))
  {
    ReachesMore(s, OwnerBind(true));
    BindOpens(s);
    assert [NewLoop(NO_LAN)] + [NewLoop(s.lan)] == [NewLoop(NO_LAN), NewLoop(s.lan)];
  }

  /** A bind that succeeds opens a listener on the LAN read last. */
  lemma BindOpens(s: System)
    requires s.owner == Binding && s.cur.None? && s.want.iface != ""
    ensures Enabled(s, OwnerBind(true))
    ensures Apply(s, OwnerBind(true)) ==
              s.(owner := Selecting, cur := Some(|s.loops|), loops := s.loops + [NewLoop(s.want)], retryArmed := false)
  {
  }

  /** A transient error, then the cancellation. */
  lemma LoopSeesCancel(lan: LanSnapshot, l: Loop)
    requires l.pc == Accepting && !l.closed && Reachable(Held(lan, l, Selecting, false))
    ensures Reachable(Held(lan, l.(pc := LoopPc.Returned(Clean)), Selecting, true))
  {
    var s2, failed := Held(lan, l, Selecting, false), l.(pc := Erred(false));
    ReachesMore(s2, LoopFails(1));
    assert LoopApply(s2, LoopFails(1)) == Held(lan, failed, Selecting, false);
    CancelIsSeen(lan, failed);
  }

  lemma CancelIsSeen(lan: LanSnapshot, l: Loop)
    requires l.pc == Erred(false) && Reachable(Held(lan, l, Selecting, false))
    ensures Reachable(Held(lan, l.(pc := LoopPc.Returned(Clean)), Selecting, true))
  {
    ReachesMore(Held(lan, l, Selecting, false), CancelCtx);
    var s4 := Held(lan, l, Selecting, true);
    ReachesMore(s4, LoopInspects(1));
    assert LoopApply(s4, LoopInspects(1)) == Held(lan, l.(pc := LoopPc.Returned(Clean)), Selecting, true);
  }

  lemma LoopSendsResult(lan: LanSnapshot, l: Loop)
    requires l.pc == LoopPc.Returned(Clean) && Reachable(Held(lan, l, Selecting, true))
    ensures Reachable(Held(lan, l.(pc := Gone, result := Some(Clean)), Selecting, true))
  {
    var s5 := Held(lan, l, Selecting, true);
    ReachesMore(s5, LoopSends(1));
    assert LoopApply(s5, LoopSends(1)) == Held(lan, l.(pc := Gone, result := Some(Clean)), Selecting, true);
  }

  /** The owner takes the result before it sees the cancellation. */
  lemma OwnerTakesResult(lan: LanSnapshot, l: Loop)
    requires l.result == Some(Clean) && Reachable(Held(lan, l, Selecting, true))
    ensures var l' := l.(result := None, received := true, cancelled := true);
            Reachable(Held(lan, l', Stopped(Clean, true), true).(cur := None))
  {
    var s6, taken := Held(lan, l, Selecting, true), l.(result := None, received := true);
    ReachesMore(s6, OwnerSeesDone);
    var s7 := Held(lan, taken, Leaving(Clean), true);
    assert HoldApply(s6, OwnerSeesDone) == s7;
    ReachesMore(s7, OwnerLeaves);
    assert HoldApply(s7, OwnerLeaves) == Held(lan, taken.(cancelled := true), Stopped(Clean, true), true).(cur := None);
  }

  lemma After(s0: System, es: seq<Step>, s: System, e: Step) returns (more: seq<Step>, s': System)
    requires Exec(s0, es) == Some(s) && Enabled(s, e)
    ensures more == es + [e] && s' == Apply(s, e) && Exec(s0, more) == Some(s')
  {
    more, s' := es + [e], Apply(s, e);
    assert more[..|es|] == es;
  }
}

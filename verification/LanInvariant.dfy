/** Every step of the LAN protocol keeps its invariant. */
module LanInvariant {
  import opened Basics
  import opened LanProtocol

  lemma StartInv(s: System)
    requires Start(s)
    ensures Inv(s)
  {
  }

  lemma LoopEnabledCases(s: System, e: Step)
    requires LoopEnabled(s, e)
    ensures e.g < |s.loops| && s.loops[e.g].pc != Gone && (e.LoopSends? <==> s.loops[e.g].pc.Returned?)
  {
  }

  lemma SteppedLoopFrame(l: Loop, e: Step, ctxErr: bool, conn: nat)
    requires LoopStep(e) && (e.LoopSends? <==> l.pc.Returned?)
    ensures var l' := SteppedLoop(l, e, ctxErr, conn);
            l' == l.(pc := l'.pc, result := l'.result) && (!e.LoopSends? ==> l'.result == l.result)
            && (e.LoopSends? <==> l'.pc == Gone)
  {
  }

  lemma ReplacedLoop(s: System, g: nat, l: Loop, tracker: map<nat, nat>, next: nat, acceptor: seq<nat>)
    requires g < |s.loops| && s.loops[g].pc != Gone && l == s.loops[g].(pc := l.pc, result := l.result)
    ensures LoopMoved(s, SetLoop(s, g, l).(tracker := tracker, nextConn := next, acceptor := acceptor), g)
  {
  }

  lemma LoopStepMoves(s: System, e: Step)
    requires LoopEnabled(s, e)
    ensures LoopMoved(s, LoopApply(s, e), e.g)
  {
    LoopEnabledCases(s, e);
    var l' := SteppedLoop(s.loops[e.g], e, CtxErr(s, e.g), s.nextConn);
    SteppedLoopFrame(s.loops[e.g], e, CtxErr(s, e.g), s.nextConn);
    LoopApplyReplaces(s, e);
    ReplacedLoop(s, e.g, l', LoopApply(s, e).tracker, LoopApply(s, e).nextConn, LoopApply(s, e).acceptor);
  }

  lemma LoopApplyReplaces(s: System, e: Step)
    requires LoopEnabled(s, e) && e.g < |s.loops|
    ensures var s' := LoopApply(s, e);
            s' == SetLoop(s, e.g, SteppedLoop(s.loops[e.g], e, CtxErr(s, e.g), s.nextConn))
                    .(tracker := s'.tracker, nextConn := s'.nextConn, acceptor := s'.acceptor)
  {
  }

  lemma HoldKeepsLoops(s: System, e: Step)
    requires LoopsOk(s) && HeldOk(s) && HoldEnabled(s, e)
    ensures LoopsOk(HoldApply(s, e))
  {
  }

  lemma MoveKeepsLoops(s: System, e: Step)
    requires LoopsOk(s) && HeldOk(s) && MoveEnabled(s, e)
    ensures LoopsOk(MoveApply(s, e))
  {
  }

  lemma LoopKeepsLoops(s: System, e: Step)
    requires LoopsOk(s) && HeldOk(s) && LoopEnabled(s, e)
    ensures LoopsOk(LoopApply(s, e))
  {
  }

  lemma OtherKeepsLoops(s: System, e: Step)
    requires LoopsOk(s) && HeldOk(s) && OtherEnabled(s, e)
    ensures LoopsOk(OtherApply(s, e))
  {
  }

  lemma HoldKeepsHeld(s: System, e: Step)
    requires LoopsOk(s) && HeldOk(s) && HoldEnabled(s, e)
    ensures HeldOk(HoldApply(s, e))
  {
  }

  lemma BindKeepsHeld(s: System, e: Step)
    requires LoopsOk(s) && HeldOk(s) && MoveEnabled(s, e) && e.OwnerBind?
    ensures HeldOk(MoveApply(s, e))
  {
  }

  lemma StayKeepsHeld(s: System, e: Step)
    requires LoopsOk(s) && HeldOk(s) && MoveEnabled(s, e) && !e.OwnerBind?
    ensures HeldOk(MoveApply(s, e))
  {
  }

  lemma MoveKeepsHeld(s: System, e: Step)
    requires LoopsOk(s) && HeldOk(s) && MoveEnabled(s, e)
    ensures HeldOk(MoveApply(s, e))
  {
    if e.OwnerBind? {
      BindKeepsHeld(s, e);
    } else {
      StayKeepsHeld(s, e);
    }
  }

  lemma MovedKeepsHeld(s: System, s': System, g: nat)
    requires LoopsOk(s) && HeldOk(s) && LoopMoved(s, s', g)
    ensures HeldOk(s')
  {
  }

  lemma LoopKeepsHeld(s: System, e: Step)
    requires LoopsOk(s) && HeldOk(s) && LoopEnabled(s, e)
    ensures HeldOk(LoopApply(s, e))
  {
    LoopStepMoves(s, e);
    MovedKeepsHeld(s, LoopApply(s, e), e.g);
  }

  lemma OtherKeepsHeld(s: System, e: Step)
    requires LoopsOk(s) && HeldOk(s) && OtherEnabled(s, e)
    ensures HeldOk(OtherApply(s, e))
  {
  }

  lemma HoldKeepsRetired(s: System, e: Step)
    requires LoopsOk(s) && HeldOk(s) && RetiredOk(s) && HoldEnabled(s, e)
    ensures RetiredOk(HoldApply(s, e))
  {
  }

  lemma MoveKeepsRetired(s: System, e: Step)
    requires LoopsOk(s) && HeldOk(s) && RetiredOk(s) && MoveEnabled(s, e)
    ensures RetiredOk(MoveApply(s, e))
  {
  }

  lemma MovedKeepsRetired(s: System, s': System, g: nat)
    requires LoopsOk(s) && HeldOk(s) && RetiredOk(s) && LoopMoved(s, s', g)
    ensures RetiredOk(s')
  {
  }

  lemma LoopKeepsRetired(s: System, e: Step)
    requires LoopsOk(s) && HeldOk(s) && RetiredOk(s) && LoopEnabled(s, e)
    ensures RetiredOk(LoopApply(s, e))
  {
    LoopStepMoves(s, e);
    MovedKeepsRetired(s, LoopApply(s, e), e.g);
  }

  lemma CloseKeepsRetired(s: System, e: Step)
    requires LoopsOk(s) && HeldOk(s) && RetiredOk(s) && OtherEnabled(s, e) && (e.Intrude? || e.CloseLoopback?)
    ensures RetiredOk(OtherApply(s, e))
  {
  }

  lemma RestKeepsRetired(s: System, e: Step)
    requires LoopsOk(s) && HeldOk(s) && RetiredOk(s) && OtherEnabled(s, e) && !(e.Intrude? || e.CloseLoopback?)
    ensures RetiredOk(OtherApply(s, e))
  {
  }

  lemma OtherKeepsRetired(s: System, e: Step)
    requires LoopsOk(s) && HeldOk(s) && RetiredOk(s) && OtherEnabled(s, e)
    ensures RetiredOk(OtherApply(s, e))
  {
    if e.Intrude? || e.CloseLoopback? {
      CloseKeepsRetired(s, e);
    } else {
      RestKeepsRetired(s, e);
    }
  }

  lemma HoldKeepsWake(s: System, e: Step)
    requires HeldOk(s) && WakeOk(s) && HoldEnabled(s, e)
    ensures WakeOk(HoldApply(s, e))
  {
  }

  lemma BindKeepsWake(s: System, e: Step)
    requires HeldOk(s) && WakeOk(s) && MoveEnabled(s, e) && e.OwnerBind?
    ensures WakeOk(MoveApply(s, e))
  {
  }

  lemma StayKeepsWake(s: System, e: Step)
    requires HeldOk(s) && WakeOk(s) && MoveEnabled(s, e) && !e.OwnerBind?
    ensures WakeOk(MoveApply(s, e))
  {
  }

  lemma MoveKeepsWake(s: System, e: Step)
    requires HeldOk(s) && WakeOk(s) && MoveEnabled(s, e)
    ensures WakeOk(MoveApply(s, e))
  {
    if e.OwnerBind? {
      BindKeepsWake(s, e);
    } else {
      StayKeepsWake(s, e);
    }
  }

  lemma MovedKeepsWake(s: System, s': System, g: nat)
    requires HeldOk(s) && WakeOk(s) && LoopMoved(s, s', g)
    ensures WakeOk(s')
  {
  }

  lemma LoopKeepsWake(s: System, e: Step)
    requires HeldOk(s) && WakeOk(s) && LoopEnabled(s, e)
    ensures WakeOk(LoopApply(s, e))
  {
    LoopStepMoves(s, e);
    MovedKeepsWake(s, LoopApply(s, e), e.g);
  }

  lemma OtherKeepsWake(s: System, e: Step)
    requires HeldOk(s) && WakeOk(s) && OtherEnabled(s, e)
    ensures WakeOk(OtherApply(s, e))
  {
    OtherFrame(s, e);
    FrameKeepsWake(s, OtherApply(s, e));
  }

  /** The owner's own fields and what its listeners are bound to stay; a LAN that is
      published is going to be notified. */
  ghost predicate OwnerUntouched(s: System, s': System) {
    s'.owner == s.owner && s'.cur == s.cur && s'.want == s.want && s'.retryArmed == s.retryArmed
    && |s'.loops| == |s.loops| && (forall g | 0 <= g < |s.loops| :: s'.loops[g].bound == s.loops[g].bound)
    && (s'.lan == s.lan || s'.notifying) && (s.lanCheck || s.notifying ==> s'.lanCheck || s'.notifying)
  }

  lemma OtherFrame(s: System, e: Step)
    requires OtherEnabled(s, e)
    ensures OwnerUntouched(s, OtherApply(s, e))
  {
    if e.Intrude? || e.CloseLoopback? {
      CloseFrame(s, e);
    } else {
      RestFrame(s, e);
    }
  }

  lemma CloseFrame(s: System, e: Step)
    requires OtherEnabled(s, e) && (e.Intrude? || e.CloseLoopback?)
    ensures OwnerUntouched(s, OtherApply(s, e))
  {
  }

  lemma RestFrame(s: System, e: Step)
    requires OtherEnabled(s, e) && !e.Intrude? && !e.CloseLoopback?
    ensures OwnerUntouched(s, OtherApply(s, e))
  {
    assert OtherApply(s, e).loops == s.loops;
  }

  lemma FrameKeepsWake(s: System, s': System)
    requires WakeOk(s) && OwnerUntouched(s, s')
    ensures WakeOk(s')
  {
  }

  lemma HoldKeepsTracked(s: System, e: Step)
    requires LoopsOk(s) && HeldOk(s) && RetiredOk(s) && TrackedOk(s) && HoldEnabled(s, e)
    ensures TrackedOk(HoldApply(s, e))
  {
  }

  lemma DropKeepsTracked(s: System, e: Step)
    requires LoopsOk(s) && HeldOk(s) && RetiredOk(s) && TrackedOk(s) && MoveEnabled(s, e) && e.OwnerDrop?
    ensures TrackedOk(MoveApply(s, e))
  {
  }

  lemma StayKeepsTracked(s: System, e: Step)
    requires LoopsOk(s) && HeldOk(s) && RetiredOk(s) && TrackedOk(s) && MoveEnabled(s, e) && !e.OwnerDrop?
    ensures TrackedOk(MoveApply(s, e))
  {
  }

  lemma MoveKeepsTracked(s: System, e: Step)
    requires LoopsOk(s) && HeldOk(s) && RetiredOk(s) && TrackedOk(s) && MoveEnabled(s, e)
    ensures TrackedOk(MoveApply(s, e))
  {
    if e.OwnerDrop? {
      DropKeepsTracked(s, e);
    } else {
      StayKeepsTracked(s, e);
    }
  }

  lemma LiveLoopIsHeld(s: System, g: nat)
    requires RetiredOk(s) && g < |s.loops| && s.loops[g].pc != Gone
    ensures g == 0 || s.cur == Some(g)
  {
  }

  lemma AddKeepsTracked(s: System, g: nat)
    requires TrackedOk(s) && LoopEnabled(s, LoopAdds(g)) && s.loops[g].pc.conn < s.nextConn
             && (g == 0 || s.cur == Some(g))
    ensures TrackedOk(LoopApply(s, LoopAdds(g)))
  {
  }

  lemma MoveKeepsTrackedLoops(s: System, s': System)
    requires TrackedOk(s) && s'.tracker == s.tracker && s'.owner == s.owner && s'.cur == s.cur
    requires |s'.loops| == |s.loops| && s'.nextConn >= s.nextConn
    ensures TrackedOk(s')
  {
  }

  lemma LoopKeepsTracked(s: System, e: Step)
    requires LoopsOk(s) && HeldOk(s) && RetiredOk(s) && TrackedOk(s) && HandsOk(s) && LoopEnabled(s, e)
    ensures TrackedOk(LoopApply(s, e))
  {
    if e.LoopAdds? {
      LiveLoopIsHeld(s, e.g);
      AddKeepsTracked(s, e.g);
    } else {
      MoveKeepsTrackedLoops(s, LoopApply(s, e));
    }
  }

  lemma OtherKeepsTracked(s: System, e: Step)
    requires LoopsOk(s) && HeldOk(s) && RetiredOk(s) && TrackedOk(s) && OtherEnabled(s, e)
    ensures TrackedOk(OtherApply(s, e))
  {
  }

  /** Nothing leaves a loop's hands unless it becomes tracked. */
  lemma HandKept(s: System, s': System, c: nat)
    requires InHand(s, c) && |s.loops| <= |s'.loops|
    requires forall g | 0 <= g < |s.loops| && s.loops[g].pc == Got(c) :: s'.loops[g].pc == Got(c) || c in s'.tracker
    ensures InHand(s', c) || c in s'.tracker
  {
    var g :| 0 <= g < |s.loops| && s.loops[g].pc == Got(c);
    assert s'.loops[g].pc == Got(c) || c in s'.tracker;
  }

  lemma HandsKept(s: System, s': System)
    requires HandsOk(s) && |s.loops| <= |s'.loops| && s'.nextConn == s.nextConn
    requires forall c | c in s.tracker :: c in s'.tracker || c in s'.closedConns
    requires s.closedConns <= s'.closedConns
    requires forall g | 0 <= g < |s.loops| && s.loops[g].pc.Got? ::
               s'.loops[g].pc == s.loops[g].pc || s.loops[g].pc.conn in s'.tracker
    requires forall g | 0 <= g < |s'.loops| && s'.loops[g].pc.Got? :: g < |s.loops| && s.loops[g].pc == s'.loops[g].pc
    ensures HandsOk(s')
  {
    forall c: nat | c < s'.nextConn ensures c in s'.tracker || c in s'.closedConns || InHand(s', c) {
      if c !in s.tracker && c !in s.closedConns {
        HandKept(s, s', c);
      }
    }
  }

  lemma HoldKeepsHands(s: System, e: Step)
    requires HandsOk(s) && HoldEnabled(s, e)
    ensures HandsOk(HoldApply(s, e))
  {
    HandsKept(s, HoldApply(s, e));
  }

  lemma MoveKeepsHands(s: System, e: Step)
    requires HandsOk(s) && MoveEnabled(s, e)
    ensures HandsOk(MoveApply(s, e))
  {
    HandsKept(s, MoveApply(s, e));
  }

  lemma LoopKeepsHands(s: System, e: Step)
    requires HandsOk(s) && LoopEnabled(s, e)
    ensures HandsOk(LoopApply(s, e))
  {
    var s' := LoopApply(s, e);
    if e.LoopAccepts? {
      assert s'.loops[e.g].pc == Got(s.nextConn);
      forall c: nat | c < s'.nextConn ensures c in s'.tracker || c in s'.closedConns || InHand(s', c) {
        if c < s.nextConn && c !in s.tracker && c !in s.closedConns {
          HandKept(s, s', c);
        }
      }
    } else {
      HandsKept(s, s');
    }
  }

  lemma OtherKeepsHands(s: System, e: Step)
    requires HandsOk(s) && OtherEnabled(s, e)
    ensures HandsOk(OtherApply(s, e))
  {
    HandsKept(s, OtherApply(s, e));
  }

  lemma HoldKeepsAcceptor(s: System, e: Step)
    requires AcceptorOk(s) && HoldEnabled(s, e)
    ensures AcceptorOk(HoldApply(s, e))
  {
  }

  lemma MoveKeepsAcceptor(s: System, e: Step)
    requires AcceptorOk(s) && MoveEnabled(s, e)
    ensures AcceptorOk(MoveApply(s, e))
  {
  }

  lemma LoopKeepsAcceptor(s: System, e: Step)
    requires AcceptorOk(s) && LoopEnabled(s, e)
    ensures AcceptorOk(LoopApply(s, e))
  {
  }

  lemma OtherKeepsAcceptor(s: System, e: Step)
    requires AcceptorOk(s) && OtherEnabled(s, e)
    ensures AcceptorOk(OtherApply(s, e))
  {
  }

  lemma HoldKeepsMain(s: System, e: Step)
    requires LoopsOk(s) && HeldOk(s) && RetiredOk(s) && TrackedOk(s) && MainOk(s) && HoldEnabled(s, e)
    ensures MainOk(HoldApply(s, e))
  {
  }

  lemma MoveKeepsMain(s: System, e: Step)
    requires LoopsOk(s) && HeldOk(s) && RetiredOk(s) && TrackedOk(s) && MainOk(s) && MoveEnabled(s, e)
    ensures MainOk(MoveApply(s, e))
  {
  }

  lemma LoopKeepsMain(s: System, e: Step)
    requires LoopsOk(s) && HeldOk(s) && RetiredOk(s) && TrackedOk(s) && MainOk(s) && LoopEnabled(s, e)
    ensures MainOk(LoopApply(s, e))
  {
  }

  lemma OtherKeepsMain(s: System, e: Step)
    requires LoopsOk(s) && HeldOk(s) && RetiredOk(s) && TrackedOk(s) && MainOk(s) && OtherEnabled(s, e)
    ensures MainOk(OtherApply(s, e))
  {
  }

  /** Every step keeps the invariant. */
  lemma StepKeepsInv(s: System, e: Step)
    requires Inv(s) && Enabled(s, e)
    ensures Inv(Apply(s, e))
  {
    if HoldStep(e) {
      HoldKeepsLoops(s, e);
      HoldKeepsHeld(s, e);
      HoldKeepsRetired(s, e);
      HoldKeepsWake(s, e);
      HoldKeepsTracked(s, e);
      HoldKeepsHands(s, e);
      HoldKeepsAcceptor(s, e);
      HoldKeepsMain(s, e);
    } else if MoveStep(e) {
      MoveKeepsLoops(s, e);
      MoveKeepsHeld(s, e);
      MoveKeepsRetired(s, e);
      MoveKeepsWake(s, e);
      MoveKeepsTracked(s, e);
      MoveKeepsHands(s, e);
      MoveKeepsAcceptor(s, e);
      MoveKeepsMain(s, e);
    } else if LoopStep(e) {
      LoopKeepsLoops(s, e);
      LoopKeepsHeld(s, e);
      LoopKeepsRetired(s, e);
      LoopKeepsWake(s, e);
      LoopKeepsTracked(s, e);
      LoopKeepsHands(s, e);
      LoopKeepsAcceptor(s, e);
      LoopKeepsMain(s, e);
    } else {
      OtherKeepsLoops(s, e);
      OtherKeepsHeld(s, e);
      OtherKeepsRetired(s, e);
      OtherKeepsWake(s, e);
      OtherKeepsTracked(s, e);
      OtherKeepsHands(s, e);
      OtherKeepsAcceptor(s, e);
      OtherKeepsMain(s, e);
    }
  }

  lemma {:induction false} EveryRun(s0: System, es: seq<Step>)
    requires Start(s0) && Exec(s0, es).Some?
    ensures Inv(Exec(s0, es).value)
  {
    if es == [] {
      StartInv(s0);
    } else {
      EveryRun(s0, es[..|es| - 1]);
      StepKeepsInv(Exec(s0, es[..|es| - 1]).value, es[|es| - 1]);
    }
  }
}

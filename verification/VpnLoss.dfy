/** A VPN loss leaves no gated connection behind: the supervisor's writes of
    CiscoConnected, the watcher's polls and the CONNECT gate on one clock
    (internal/service/proxy.go, socks.go, cisco.go). */
module VpnLoss {
  import opened Basics
  import opened Cisco
  import opened Supervisor
  import opened SupervisorRuns
  import opened Tracker

  // ----- the supervisor's writes

  /** A write of CiscoConnected. */
  datatype Write = Write(t: int, up: bool)

  /** One tick: its answers, when it began, when it wrote (first, then second), when it ended. */
  datatype TimedTick = TimedTick(a: Answers, start: int, first: int, second: int, end: int)

  function WritesOf(k: TimedTick): seq<Write> {
    match k.a.status
    case None => []
    case Some(Connected) => [Write(k.first, true)]
    case Some(Reconnecting) => [Write(k.first, false)]
    case Some(_) =>
      [Write(k.first, false)] + if Connect(k.a.connect) == Established then [Write(k.second, true)] else []
  }

  function Answered(ks: seq<TimedTick>): seq<Answers> {
    if ks == [] then [] else Answered(ks[..|ks| - 1]) + [ks[|ks| - 1].a]
  }

  function Writes(ks: seq<TimedTick>): seq<Write> {
    if ks == [] then [] else Writes(ks[..|ks| - 1]) + WritesOf(ks[|ks| - 1])
  }

  /** Ticks run one after the other, each after the delay its predecessor returned. */
  predicate Scheduled(ks: seq<TimedTick>) {
    if ks == [] then true
    else
      var n := |ks| - 1;
      var k := ks[n];
      Scheduled(ks[..n]) && k.start <= k.first <= k.second <= k.end
      && (n > 0 ==> k.start >= ks[n - 1].end + TickDelay(After(Answered(ks[..n - 1])), ks[n - 1].a))
  }

  /** Two ticks are at least the poll interval apart. */
  lemma TicksApart(ks: seq<TimedTick>)
    requires |ks| > 1 && Scheduled(ks)
    ensures var n := |ks| - 1; Scheduled(ks[..n]) && ks[n].first >= ks[n - 1].end + 5 * SECOND
  {
    var n := |ks| - 1;
    DelayOfTick(Answered(ks[..n - 1]), ks[n - 1].a);
  }

  lemma {:induction false} WritesWithinTicks(ks: seq<TimedTick>)
    requires ks != [] && Scheduled(ks)
    ensures forall i | 0 <= i < |Writes(ks)| :: Writes(ks)[i].t <= ks[|ks| - 1].end
  {
    var n := |ks| - 1;
    if n > 0 {
      WritesWithinTicks(ks[..n]);
      assert ks[..n][n - 1] == ks[n - 1];
      TicksApart(ks);
    }
  }

  /** Every connected window lasts at least the poll interval. */
  lemma {:induction false} ConnectedWindows(ks: seq<TimedTick>, i: nat, j: nat)
    requires Scheduled(ks) && i < j < |Writes(ks)| && Writes(ks)[i].up && !Writes(ks)[j].up
    ensures Writes(ks)[j].t >= Writes(ks)[i].t + POLL_INTERVAL
  {
    var n := |ks| - 1;
    var before := Writes(ks[..n]);
    if j < |before| {
      ConnectedWindows(ks[..n], i, j);
    } else if n > 0 {
      assert i < |before|;
      WritesWithinTicks(ks[..n]);
      assert ks[..n][n - 1] == ks[n - 1];
      TicksApart(ks);
    }
  }

  lemma WritesOfTick(k: TimedTick)
    ensures WritesOf(k) == [] <==> k.a.status.None?
    ensures k.a.status.Some? ==>
              (WritesOf(k)[|WritesOf(k)| - 1].up <==> k.a.status == Some(Connected) || OwnConnect(k.a))
  {
  }

  /** The flag a history ends with is its last write. */
  lemma {:induction false} LastWriteIsFlag(ks: seq<TimedTick>)
    ensures After(Answered(ks)).st.ciscoConnected <==> Writes(ks) != [] && Writes(ks)[|Writes(ks)| - 1].up
  {
    var h := Answered(ks);
    if ks != [] {
      var n := |ks| - 1;
      LastWriteIsFlag(ks[..n]);
      WritesOfTick(ks[n]);
      assert h[..|h| - 1] == Answered(ks[..n]);
      Flags(h[..|h| - 1]);
      FlagsStep(After(h[..|h| - 1]), ks[n].a);
    }
  }

  // ----- the watcher, the gate and the connections

  datatype Event =
    | SetVpn(t: int, up: bool)
    | WatchStarts(t: int)
    | Poll(t: int)
    | Accepted(t: int, conn: nat)
    | Request(t: int, conn: nat)   // reaches the CONNECT gate
    | Finished(t: int, conn: nat)

  /** `tracked` maps a live connection to whether it has passed the gate; `reading`
      is the watcher's last reading of the flag, `sawUp` whether any reading was up. */
  datatype Proxy = Proxy(
    connected: bool,
    upSince: int,
    tracked: map<nat, bool>,
    reading: Option<bool>,
    sawUp: bool,
    lastPoll: int,
    now: int
  )

  const IDLE := Proxy(false, 0, map[], None, false, 0, 0)

  predicate ReadUp(p: Proxy) {
    p.reading.Some? && p.reading.value
  }

  predicate ReadDown(p: Proxy) {
    p.reading.Some? && !p.reading.value
  }

  function Apply(p: Proxy, e: Event): Proxy {
    var q := p.(now := e.t);
    match e
    case SetVpn(t, up) => q.(connected := up, upSince := if up && !p.connected then t else p.upSince)
    case WatchStarts(t) => q.(reading := Some(p.connected), sawUp := p.connected, lastPoll := t)
    case Poll(t) =>
      q.(tracked := if ReadUp(p) && !p.connected then map[] else p.tracked,
         reading := Some(p.connected), sawUp := p.sawUp || p.connected, lastPoll := t)
    case Accepted(_, c) => q.(tracked := p.tracked[c := false])
    case Request(_, c) => if p.connected && c in p.tracked then q.(tracked := p.tracked[c := true]) else q
    case Finished(_, c) => q.(tracked := p.tracked - {c})
  }

  /** Time advances, readings are less than `gap` apart, ids are not reused, and a
      window that is closed has been open for the poll interval. */
  predicate Allowed(p: Proxy, e: Event, gap: int) {
    p.now <= e.t &&
    match e
    case SetVpn(t, up) => p.connected && !up ==> t >= p.upSince + POLL_INTERVAL
    case WatchStarts(_) => p.reading.None?
    case Poll(t) => p.reading.Some? && t < p.lastPoll + gap
    case Accepted(_, c) => c !in p.tracked
    case _ => true
  }

  function Watch(es: seq<Event>): Proxy {
    if es == [] then IDLE else Apply(Watch(es[..|es| - 1]), es[|es| - 1])
  }

  predicate AllowedRun(es: seq<Event>, gap: int) {
    es == [] || (AllowedRun(es[..|es| - 1], gap) && Allowed(Watch(es[..|es| - 1]), es[|es| - 1], gap))
  }

  predicate NoneGated(p: Proxy) {
    forall c | c in p.tracked :: !p.tracked[c]
  }

  /** After a "down" reading that follows an "up" one: no window has opened since, or
      the one that did is still open, or the next reading is already overdue. */
  predicate Guarded(p: Proxy) {
    p.sawUp && ReadDown(p) ==>
      (!p.connected && NoneGated(p))
      || (p.connected && p.upSince >= p.lastPoll)
      || p.now >= p.lastPoll + POLL_INTERVAL
  }

  predicate Sane(p: Proxy) {
    (p.sawUp ==> p.reading.Some?) && (ReadUp(p) ==> p.sawUp)
    && (p.reading.Some? ==> p.lastPoll <= p.now) && Guarded(p)
  }

  lemma StepKeepsSane(p: Proxy, e: Event)
    requires Sane(p) && Allowed(p, e, POLL_INTERVAL)
    ensures Sane(Apply(p, e))
    ensures e.Poll? && p.sawUp && !p.connected ==> NoneGated(Apply(p, e))
  {
  }

  lemma {:induction false} RunIsSane(es: seq<Event>)
    requires AllowedRun(es, POLL_INTERVAL)
    ensures Sane(Watch(es))
  {
    if es != [] {
      RunIsSane(es[..|es| - 1]);
      StepKeepsSane(Watch(es[..|es| - 1]), es[|es| - 1]);
    }
  }

  /** At every "down" poll after an "up" reading, once the tracker has been cleared if
      it had to be, no tracked connection has passed the gate. */
  lemma NoGatedConnectionSurvives(es: seq<Event>, t: int)
    requires AllowedRun(es + [Poll(t)], POLL_INTERVAL)
    requires Watch(es).sawUp && !Watch(es).connected
    ensures NoneGated(Watch(es + [Poll(t)]))
  {
    assert (es + [Poll(t)])[..|es|] == es;
    RunIsSane(es);
    StepKeepsSane(Watch(es), Poll(t));
  }

  // ----- the window condition is what the supervisor delivers

  function VpnWrites(es: seq<Event>): seq<Write> {
    if es == [] then []
    else
      var e := es[|es| - 1];
      VpnWrites(es[..|es| - 1]) + if e.SetVpn? then [Write(e.t, e.up)] else []
  }

  /** Everything `Allowed` asks for except the window condition. */
  predicate Ordinary(p: Proxy, e: Event, gap: int) {
    p.now <= e.t && (e.SetVpn? || Allowed(p, e, gap))
  }

  predicate OrdinaryRun(es: seq<Event>, gap: int) {
    es == [] || (OrdinaryRun(es[..|es| - 1], gap) && Ordinary(Watch(es[..|es| - 1]), es[|es| - 1], gap))
  }

  /** While connected, the current window was opened by an "up" write. */
  lemma {:induction false} WindowOpened(es: seq<Event>)
    ensures Watch(es).connected ==>
              exists i :: 0 <= i < |VpnWrites(es)| && VpnWrites(es)[i] == Write(Watch(es).upSince, true)
  {
    if es != [] {
      var rest, e := es[..|es| - 1], es[|es| - 1];
      WindowOpened(rest);
      var ws, rs := VpnWrites(es), VpnWrites(rest);
      assert rs <= ws;
      if Watch(es).connected {
        if e.SetVpn? && !Watch(rest).connected {
          assert ws[|ws| - 1] == Write(e.t, true);
        } else {
          var i :| 0 <= i < |rs| && rs[i] == Write(Watch(rest).upSince, true);
          assert ws[i] == rs[i];
        }
      }
    }
  }

  /** Whenever the writes are a prefix of those of a scheduled supervisor, the run is allowed. */
  lemma {:induction false} SupervisedRunIsAllowed(es: seq<Event>, ks: seq<TimedTick>, gap: int)
    requires OrdinaryRun(es, gap) && Scheduled(ks) && VpnWrites(es) <= Writes(ks)
    ensures AllowedRun(es, gap)
  {
    if es != [] {
      var rest, e := es[..|es| - 1], es[|es| - 1];
      var ws, rs := VpnWrites(es), VpnWrites(rest);
      assert rs <= ws;
      SupervisedRunIsAllowed(rest, ks, gap);
      if e.SetVpn? && !e.up && Watch(rest).connected {
        WindowOpened(rest);
        var i :| 0 <= i < |rs| && rs[i] == Write(Watch(rest).upSince, true);
        assert Writes(ks)[i] == rs[i] && Writes(ks)[|rs|] == ws[|rs|] == Write(e.t, false);
        ConnectedWindows(ks, i, |rs|);
      }
    }
  }

  /** The two parts together: any supervisor schedule, any interleaving with polls
      less than 5 s apart, accepts, requests and closes. */
  lemma VpnLossLeavesNoGatedConnection(es: seq<Event>, t: int, ks: seq<TimedTick>)
    requires OrdinaryRun(es + [Poll(t)], 5 * SECOND)
    requires Scheduled(ks) && VpnWrites(es + [Poll(t)]) <= Writes(ks)
    requires Watch(es).sawUp && !Watch(es).connected
    ensures NoneGated(Watch(es + [Poll(t)]))
  {
    SupervisedRunIsAllowed(es + [Poll(t)], ks, 5 * SECOND);
    NoGatedConnectionSurvives(es, t);
  }

  /** Readings a full poll interval apart would not do: a window fits between them. */
  lemma GapBoundIsTight()
    ensures exists es, t ::
              AllowedRun(es + [Poll(t)], POLL_INTERVAL + 1) && Watch(es).sawUp && !Watch(es).connected
              && !NoneGated(Watch(es + [Poll(t)]))
  {
    var p5, p10 := POLL_INTERVAL, 2 * POLL_INTERVAL;
    var e0: seq<Event> := [];
    var gap := POLL_INTERVAL + 1;
    assert AllowedRun(e0, gap) && Watch(e0) == IDLE;
    var e1 := Extend(e0, SetVpn(0, true), gap);
    var e2 := Extend(e1, WatchStarts(0), gap);
    var e3 := Extend(e2, SetVpn(p5, false), gap);
    var e4 := Extend(e3, Poll(p5), gap);
    var e5 := Extend(e4, SetVpn(p5, true), gap);
    var e6 := Extend(e5, Accepted(p5, 7), gap);
    var e7 := Extend(e6, Request(p5, 7), gap);
    var e8 := Extend(e7, SetVpn(p10, false), gap);
    var e9 := Extend(e8, Poll(p10), gap);
    assert 7 in Watch(e9).tracked && Watch(e9).tracked[7];
  }

  lemma Extend(es: seq<Event>, e: Event, gap: int) returns (more: seq<Event>)
    requires AllowedRun(es, gap) && Allowed(Watch(es), e, gap)
    ensures more == es + [e] && AllowedRun(more, gap) && Watch(more) == Apply(Watch(es), e)
  {
    more := es + [e];
    assert more[..|es|] == es;
  }

  // ----- the poll is the watcher's

  /** The model's tracked connections are those of the tracker, under the names `id`. */
  ghost predicate Represents(p: Proxy, w: VpnLossWatcher, id: map<Conn, nat>)
    reads w, w.conns
  {
    w.conns.conns.Keys <= id.Keys && p.tracked.Keys == (set c | c in w.conns.conns :: id[c])
    && p.reading == Some(w.wasConnected)
  }

  /** A poll event is what the watcher's poll does: the tracker is emptied, and every
      connection closed, exactly if the VPN was up at the last reading and is down now. */
  method PollEvent(w: VpnLossWatcher, ghost p: Proxy, ghost id: map<Conn, nat>, t: int, connected: bool)
    requires Represents(p, w, id) && p.connected == connected
    modifies w, w.conns, w.conns.conns.Keys
    ensures Represents(Apply(p, Poll(t)), w, id)
    ensures w.conns.conns == old(w.conns.conns) || w.conns.conns == map[]
    ensures Apply(p, Poll(t)).tracked == if old(w.wasConnected) && !connected then map[] else p.tracked
    ensures forall c | c in old(w.conns.conns) :: c !in w.conns.conns ==> c.closed
  {
    w.Poll(connected);
  }

  /** While the VPN stays up, or stays down, a poll keeps every connection. */
  lemma PollKeeps(p: Proxy, t: int)
    requires p.reading.Some? && (p.connected || !p.reading.value)
    ensures Apply(p, Poll(t)).tracked == p.tracked && Apply(p, Poll(t)).reading == Some(p.connected)
  {
  }

  /** A request passes the gate exactly while the VPN is up; a refused one is as it was. */
  lemma GateOutcome(p: Proxy, t: int, c: nat)
    requires c in p.tracked
    ensures var q := Apply(p, Request(t, c));
            q.tracked.Keys == p.tracked.Keys && (q.tracked[c] <==> p.connected || p.tracked[c])
            && forall d | d in p.tracked && d != c :: q.tracked[d] == p.tracked[d]
  {
  }
}

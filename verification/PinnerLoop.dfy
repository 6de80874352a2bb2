/** The pinner's loop (`startPinner`, internal/service/service.go) and the hooks that
    connections and frames go through (proxy.go, sniff.go): their methods do to registry,
    table and State exactly what events of the network model do. */
module PinnerLoop {
  import opened Basics
  import opened Addr
  import opened Clients
  import opened Pinner
  import opened Tracker
  import opened Network

  const CLIENT_EXPIRE_INTERVAL := 60 * SECOND

  ghost function WorldOf(s: Service): World
    reads s, s.clients, s.kernel
  {
    World(s.clients.clients, s.kernel.table, s.status)
  }

  /** A minute has passed since the last expiry, or there was none. */
  predicate ExpiryDue(lastExpire: Stamp, now: int) {
    lastExpire.Never? || now - lastExpire.t >= 60 * SECOND
  }

  /** What one turn of the loop does: an expiry when it is due, then a tick. */
  function Turn(lastExpire: Stamp, now: int, live: set<string>, failing: set<string>): seq<Event> {
    (if ExpiryDue(lastExpire, now) then [ExpireClients(now, live)] else []) + [PinTick(failing)]
  }

  lemma RunOne(cfg: Config, w: World, e: Event)
    ensures Run(cfg, w, [e]) == Step(cfg, w, e)
  {
    assert Run(cfg, w, [e][..0]) == w;
  }

  lemma RunTwo(cfg: Config, w: World, e: Event, f: Event)
    ensures Run(cfg, w, [e] + [f]) == Step(cfg, Step(cfg, w, e), f)
  {
    RunOne(cfg, w, e);
    assert ([e] + [f])[..1] == [e];
  }

  /** The registry's expiry, if it is due. */
  function Expired(w: World, lastExpire: Stamp, now: int, live: set<string>): World {
    if ExpiryDue(lastExpire, now)
    then w.(reg := Expire(w.reg, now, DISCOVERED_CLIENT_TTL, live)) else w
  }

  lemma TurnRuns(cfg: Config, w: World, lastExpire: Stamp, now: int, live: set<string>, failing: set<string>)
    ensures Run(cfg, w, Turn(lastExpire, now, live, failing))
            == Step(cfg, Expired(w, lastExpire, now, live), PinTick(failing))
  {
    RunOne(cfg, w, PinTick(failing));
    RunTwo(cfg, w, ExpireClients(now, live), PinTick(failing));
    assert [] + [PinTick(failing)] == [PinTick(failing)];
  }

  /** The stamp the loop holds after turns at these times. */
  function LastExpiry(times: seq<int>): Stamp {
    if times == [] then Never
    else
      var n := |times| - 1;
      if ExpiryDue(LastExpiry(times[..n]), times[n]) then At(times[n]) else LastExpiry(times[..n])
  }

  /** Turn `i` expires clients. */
  predicate Expires(times: seq<int>, i: nat)
    requires i < |times|
  {
    ExpiryDue(LastExpiry(times[..i]), times[i])
  }

  /** Turn `i` is the latest of the first `n` that expired clients. */
  ghost predicate LastOf(times: seq<int>, n: nat, i: nat) {
    i < n <= |times| && Expires(times, i) && forall j | i < j < n :: !Expires(times, j)
  }

  /** The stamp is the time of the latest turn that expired clients. */
  lemma {:induction false} StampIsLastExpiry(times: seq<int>, n: nat)
    requires n <= |times|
    ensures match LastExpiry(times[..n])
            case Never => forall i | 0 <= i < n :: !Expires(times, i)
            case At(t) => exists i: nat :: LastOf(times, n, i) && times[i] == t
  {
    if n > 0 {
      var k := n - 1;
      StampIsLastExpiry(times, k);
      assert times[..n][..k] == times[..k] && times[..n][k] == times[k];
      if Expires(times, k) {
        assert LastOf(times, n, k);
      } else if LastExpiry(times[..k]).At? {
        var i: nat :| LastOf(times, k, i) && times[i] == LastExpiry(times[..k]).t;
        assert LastOf(times, n, i);
      }
    }
  }

  /** With a clock that does not go back a turn expires clients exactly if every earlier
      turn that did is at least a minute ago. */
  lemma ExpiresIff(times: seq<int>, k: nat)
    requires k < |times| && forall i, j | 0 <= i < j < |times| :: times[i] <= times[j]
    ensures Expires(times, k) <==> forall i | 0 <= i < k && Expires(times, i) :: times[k] - times[i] >= 60 * SECOND
  {
    StampIsLastExpiry(times, k);
    if LastExpiry(times[..k]).At? {
      var i: nat :| LastOf(times, k, i) && times[i] == LastExpiry(times[..k]).t;
      forall j | 0 <= j < k && Expires(times, j) ensures times[j] <= times[i] {
        assert j <= i;
        assert j < i ==> times[j] <= times[i];
      }
      assert Expires(times, i) && i < k;
    }
  }

  class PinnerLoop {
    const s: Service
    const conns: ConnTracker
    var lastExpire: Stamp

    constructor (s: Service, conns: ConnTracker)
      ensures this.s == s && this.conns == conns && lastExpire == Never
    {
      this.s, this.conns := s, conns;
      lastExpire := Never;
    }

    /** Clients with live connections stay. */
    method DropExpired(now: int)
      modifies this, s.clients
      ensures var live := set c | c in conns.conns && c.peer.Some? :: c.peer.value;
              WorldOf(s) == Expired(old(WorldOf(s)), old(lastExpire), now, live)
      ensures lastExpire == if ExpiryDue(old(lastExpire), now) then At(now) else old(lastExpire)
    {
      if Elapsed(lastExpire, now, CLIENT_EXPIRE_INTERVAL) {
        lastExpire := At(now);
        var ips := conns.RemoteIps();
        var _ := s.clients.DropStale(now, DISCOVERED_CLIENT_TTL, ips);
      }
    }

    method TickWhenActive(failing: set<string>, ghost cfg: Config)
      modifies s.clients, s.kernel
      ensures WorldOf(s) == Step(cfg, old(WorldOf(s)), PinTick(failing))
    {
      var state := s.status;
      if !state.ciscoConnected || state.lanIface == "" {
        return;
      }
      ghost var _ := s.PinClients(state, failing);
    }

    method Iterate(now: int, failing: set<string>, ghost cfg: Config)
      modifies this, s.clients, s.kernel
      ensures var live := set c | c in conns.conns && c.peer.Some? :: c.peer.value;
              WorldOf(s) == Run(cfg, old(WorldOf(s)), Turn(old(lastExpire), now, live, failing))
      ensures lastExpire == if ExpiryDue(old(lastExpire), now) then At(now) else old(lastExpire)
    {
      ghost var live := set c | c in conns.conns && c.peer.Some? :: c.peer.value;
      TurnRuns(cfg, WorldOf(s), lastExpire, now, live, failing);
      DropExpired(now);
      TickWhenActive(failing, cfg);
    }
  }

  /** `startPinner` over turns at the given times, from its start. */
  method StartPinner(s: Service, conns: ConnTracker, times: seq<int>, failing: seq<set<string>>, ghost cfg: Config)
    returns (loop: PinnerLoop)
    requires |failing| == |times|
    modifies s.clients, s.kernel
    ensures loop.s == s && loop.conns == conns && loop.lastExpire == LastExpiry(times)
  {
    loop := new PinnerLoop(s, conns);
    for i := 0 to |times|
      invariant fresh(loop) && loop.s == s && loop.conns == conns && loop.lastExpire == LastExpiry(times[..i])
    {
      assert times[..i + 1][..i] == times[..i];
      loop.Iterate(times[i], failing[i], cfg);
    }
    assert times[..|times|] == times;
  }

  class ClientHooks {
    const s: Service
    const conns: ConnTracker

    constructor (s: Service, conns: ConnTracker)
      ensures this.s == s && this.conns == conns
    {
      this.s, this.conns := s, conns;
    }

    /** A frame the sniffer reports; it does not run without discovery. */
    method HandleFrame(ip: Addr, mac: string, now: int, pinOk: bool, ghost cfg: Config)
      requires cfg.discovery == s.discovery
      modifies s.clients, s.kernel
      ensures WorldOf(s) == Step(cfg, old(WorldOf(s)), Syn(ip, mac, now, pinOk))
    {
      if s.discovery {
        s.ObserveSyn(ip, mac, now, pinOk);
      }
    }

    /** An accepted connection, up to the point where it is served. */
    method HandleConn(c: Conn, lan: bool, now: int, ghost cfg: Config)
      requires cfg.discovery == s.discovery
      modifies conns, s.clients
      ensures conns.conns == old(conns.conns)[c := lan]
      ensures WorldOf(s) == if lan then Step(cfg, old(WorldOf(s)), Accept(PeerAddr(c), now)) else old(WorldOf(s))
    {
      conns.Add(c, lan);
      if lan && s.discovery {
        s.DiscoverClient(PeerAddr(c), now);
      }
    }

    /** Serving ends with the connection closed. */
    method FinishConn(c: Conn)
      modifies conns, c
      ensures c.closed && conns.conns == old(conns.conns) - {c}
    {
      c.Close();
      conns.Remove(c);
    }
  }

  /** The peer's IPv4 address, if the connection has one. */
  function PeerAddr(c: Conn): Option<Addr> {
    match c.peer
    case None => None
    case Some(text) => ParseAddr(text)
  }
}

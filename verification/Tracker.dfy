/** The live connections of the proxy and the poll that drops them when the VPN
    goes away (internal/service/proxy.go). */
module Tracker {
  import opened Basics

  /** A client connection; `peer` is the text of its remote IP when it is TCP. */
  class Conn {
    var closed: bool
    const peer: Option<string>

    constructor (peer: Option<string>)
      ensures !closed && this.peer == peer
    {
      closed := false;
      this.peer := peer;
    }

    method Close()
      modifies this
      ensures closed
    {
      closed := true;
    }
  }

  class ConnTracker {
    var conns: map<Conn, bool> // accepted on the LAN listener?

    constructor ()
      ensures conns == map[]
    {
      conns := map[];
    }

    method Add(c: Conn, lan: bool)
      modifies this
      ensures conns == old(conns)[c := lan]
    {
      conns := conns[c := lan];
    }

    method Remove(c: Conn)
      modifies this
      ensures conns == old(conns) - {c}
    {
      conns := conns - {c};
    }

    method CloseAll() returns (n: nat)
      modifies this, conns.Keys
      ensures conns == map[] && n == |old(conns)|
      ensures forall c | c in old(conns) :: c.closed
    {
      n := |conns|;
      var todo := conns.Keys;
      while todo != {}
        invariant todo <= conns.Keys && conns == old(conns)
        invariant forall c | c in conns.Keys - todo :: c.closed
        decreases |todo|
      {
        var c :| c in todo;
        c.Close();
        todo := todo - {c};
      }
      conns := map[];
    }

    method Drop(c: Conn)
      modifies this, c
      ensures c.closed && conns == old(conns) - {c}
    {
      c.Close();
      conns := conns - {c};
    }

    /** Drops exactly the connections accepted on the LAN listener. */
    method CloseLan() returns (n: nat)
      modifies this, conns.Keys
      ensures conns == map c | c in old(conns) && !old(conns)[c] :: false
      ensures forall c | c in old(conns) :: c.closed == (old(conns)[c] || old(c.closed))
      ensures n == |set c | c in old(conns) && old(conns)[c]|
    {
      n := 0;
      var todo := conns.Keys;
      ghost var dropped: set<Conn> := {};
      while todo != {}
        invariant todo <= conns.Keys <= old(conns).Keys
        invariant forall c | c in conns :: conns[c] == old(conns)[c]
        invariant forall c :: c in dropped <==> c in old(conns) && c !in todo && old(conns)[c]
        invariant conns.Keys == old(conns).Keys - dropped
        invariant forall c | c in old(conns) :: c.closed == (c in dropped || old(c.closed))
        invariant n == |dropped|
        decreases |todo|
      {
        var c :| c in todo;
        todo := todo - {c};
        if !conns[c] {
          continue;
        }
        Drop(c);
        dropped := dropped + {c};
        n := n + 1;
      }
      assert dropped == set c | c in old(conns) && old(conns)[c];
    }

    method RemoteIps() returns (ips: set<string>)
      ensures ips == set c | c in conns && c.peer.Some? :: c.peer.value
    {
      ips := {};
      var todo := conns.Keys;
      while todo != {}
        invariant todo <= conns.Keys
        invariant ips == set c | c in conns.Keys - todo && c.peer.Some? :: c.peer.value
        decreases |todo|
      {
        var c :| c in todo;
        todo := todo - {c};
        if c.peer.Some? {
          ips := ips + {c.peer.value};
        }
      }
    }
  }

  /** The loop state of `dropConnsOnVPNLoss`. */
  class VpnLossWatcher {
    const conns: ConnTracker
    var wasConnected: bool

    constructor (conns: ConnTracker, connected: bool)
      ensures this.conns == conns && wasConnected == connected
    {
      this.conns := conns;
      wasConnected := connected;
    }

    method Poll(connected: bool)
      modifies this, conns, conns.conns.Keys
      ensures wasConnected == connected
      ensures conns.conns == if old(wasConnected) && !connected then map[] else old(conns.conns)
      ensures forall c | c in old(conns.conns) :: c.closed == ((old(wasConnected) && !connected) || old(c.closed))
    {
      if wasConnected && !connected {
        var _ := conns.CloseAll();
      }
      wasConnected := connected;
    }
  }
}

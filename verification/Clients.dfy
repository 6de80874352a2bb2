/** The shared state of the service (internal/service/service.go). */
module ServiceState {
  import opened Basics
  import opened Addr

  /** The LAN the proxy serves; the zero value has no interface. */
  datatype LanSnapshot = LanSnapshot(subnet: Prefix, iface: string)

  const NO_LAN := LanSnapshot(NoPrefix, "")

  datatype State = State(
    lanSubnet: Prefix,
    lanAddr: Option<Addr>,
    lanIface: string,
    ciscoConnected: bool,
    pfDisabled: bool,
    proxyStarted: bool,
    dnsStarted: bool
  )

  const INITIAL := State(NoPrefix, None, "", false, false, false, false)

  function Lan(st: State): LanSnapshot {
    LanSnapshot(st.lanSubnet, st.lanIface)
  }

  /** Losing the LAN is not a change. */
  predicate LanChanged(cur: LanSnapshot, next: LanSnapshot) {
    next.iface != "" && next != cur
  }
}

/** The registry of LAN clients (internal/service/clients.go). */
module Clients {
  import opened Basics
  import opened Mac

  /** A clock reading; Never is Go's zero time. */
  datatype Stamp = Never | At(t: int)

  /** At least `d` between `s` and `now`; the zero time is always long ago. */
  predicate Elapsed(s: Stamp, now: int, d: int) {
    s.Never? || now - s.t >= d
  }

  const DISCOVERED_CLIENT_TTL := 1800 * SECOND
  const CLIENT_REFRESH_INTERVAL := 60 * SECOND

  datatype LanClient = LanClient(ip: string, mac: string)

  datatype Client = Client(lastSeen: Stamp, mac: string, isStatic: bool)

  /** Clients by the text of their IP. */
  type Registry = map<string, Client>

  function ConfiguredMac(mac: string): string {
    match Canonical(mac)
    case None => ""
    case Some(c) => c
  }

  function FromConfig(entries: seq<LanClient>): Registry {
    if entries == [] then map[]
    else
      var e := entries[|entries| - 1];
      FromConfig(entries[..|entries| - 1])[e.ip := Client(Never, ConfiguredMac(e.mac), true)]
  }

  function MacOf(r: Registry, ip: string): string {
    if ip in r then r[ip].mac else ""
  }

  function Seen(r: Registry, ip: string, mac: string, now: int): Registry {
    var e := if ip in r then r[ip] else Client(Never, "", false);
    r[ip := Client(At(now), if mac != "" then mac else e.mac, e.isStatic)]
  }

  function SetMac(r: Registry, ip: string, mac: string): Registry {
    if ip in r then r[ip := r[ip].(mac := mac)] else r
  }

  predicate Stale(c: Client, now: int, ttl: int) {
    !c.isStatic && Elapsed(c.lastSeen, now, ttl)
  }

  function Expire(r: Registry, now: int, ttl: int, live: set<string>): Registry {
    map ip | ip in r && (ip in live || !Stale(r[ip], now, ttl)) :: r[ip]
  }

  function ResetNetwork(r: Registry): Registry {
    map ip | ip in r && r[ip].isStatic :: r[ip].(mac := "")
  }

  function Macs(r: Registry): map<string, string> {
    map ip | ip in r :: r[ip].mac
  }

  /** Whether the discovery hook looks the client up again. */
  predicate NeedsRefresh(r: Registry, ip: string, now: int) {
    ip !in r || r[ip].mac == "" || Elapsed(r[ip].lastSeen, now, CLIENT_REFRESH_INTERVAL)
  }

  class ClientRegistry {
    var clients: Registry

    constructor (entries: seq<LanClient>)
      ensures clients == FromConfig(entries)
    {
      clients := map[];
      new;
      for i := 0 to |entries|
        invariant clients == FromConfig(entries[..i])
      {
        var c := CanonicalMAC(entries[i].mac);
        var mac := if c.Some? then c.value else "";
        clients := clients[entries[i].ip := Client(Never, mac, true)];
        assert entries[..i + 1][..i] == entries[..i];
      }
      assert entries[..|entries|] == entries;
    }

    method Observe(ip: string, mac: string, now: int) returns (isNew: bool)
      modifies this
      ensures clients == Seen(old(clients), ip, mac, now)
      ensures isNew <==> ip !in old(clients)
    {
      isNew := ip !in clients;
      if isNew {
        clients := clients[ip := Client(Never, "", false)];
      }
      if mac != "" {
        clients := clients[ip := clients[ip].(mac := mac)];
      }
      clients := clients[ip := clients[ip].(lastSeen := At(now))];
    }

    method Lookup(ip: string) returns (r: Option<Client>)
      ensures r == if ip in clients then Some(clients[ip]) else None
    {
      if ip !in clients {
        return None;
      }
      return Some(clients[ip]);
    }

    method AdoptMac(ip: string, mac: string)
      modifies this
      ensures clients == SetMac(old(clients), ip, mac)
    {
      if ip in clients {
        clients := clients[ip := clients[ip].(mac := mac)];
      }
    }

    /** A copy: later changes of the registry do not show in it. */
    method Snapshot() returns (out: map<string, string>)
      ensures out == Macs(clients)
    {
      out := map[];
      var todo := clients.Keys;
      while todo != {}
        invariant todo <= clients.Keys
        invariant out.Keys == clients.Keys - todo
        invariant forall ip | ip in out :: out[ip] == clients[ip].mac
        decreases |todo|
      {
        var ip :| ip in todo;
        out := out[ip := clients[ip].mac];
        todo := todo - {ip};
      }
    }

    method DropStale(now: int, ttl: int, live: set<string>) returns (expired: seq<string>)
      modifies this
      ensures clients == Expire(old(clients), now, ttl, live)
      ensures forall ip :: ip in expired <==> ip in old(clients).Keys - clients.Keys
      ensures forall i, j | 0 <= i < j < |expired| :: expired[i] != expired[j]
    {
      expired := [];
      var todo := clients.Keys;
      while todo != {}
        invariant todo <= clients.Keys <= old(clients).Keys
        invariant forall ip | ip in clients :: clients[ip] == old(clients)[ip]
        invariant forall ip | ip in old(clients).Keys - todo ::
            ip in clients <==> ip in live || !Stale(old(clients)[ip], now, ttl)
        invariant forall ip :: ip in expired <==> ip in old(clients).Keys - clients.Keys
        invariant forall i, j | 0 <= i < j < |expired| :: expired[i] != expired[j]
        decreases |todo|
      {
        var ip :| ip in todo;
        todo := todo - {ip};
        var e := clients[ip];
        if !(e.isStatic || ip in live || !Elapsed(e.lastSeen, now, ttl)) {
          assert ip in clients && ip !in expired;
          expired := expired + [ip];
          clients := clients - {ip};
        }
      }
    }

    method ForgetNetwork()
      modifies this
      ensures clients == ResetNetwork(old(clients))
    {
      var todo := clients.Keys;
      while todo != {}
        invariant todo <= clients.Keys <= old(clients).Keys
        invariant forall ip | ip in clients :: clients[ip] == old(clients)[ip]
        invariant forall ip | ip in old(clients).Keys - todo :: ip in clients <==> old(clients)[ip].isStatic
        decreases |todo|
      {
        var ip :| ip in todo;
        todo := todo - {ip};
        if !clients[ip].isStatic {
          clients := clients - {ip};
        }
      }
      todo := clients.Keys;
      while todo != {}
        invariant todo <= clients.Keys
        invariant clients.Keys == ResetNetwork(old(clients)).Keys
        invariant forall ip | ip in clients ::
            clients[ip] == if ip in todo then old(clients)[ip] else old(clients)[ip].(mac := "")
        decreases |todo|
      {
        var ip :| ip in todo;
        todo := todo - {ip};
        clients := clients[ip := clients[ip].(mac := "")];
      }
    }
  }
}

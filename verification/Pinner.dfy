/** The pinner, the SYN hook and the accept hook over one registry and one
    kernel ARP table (internal/service/service.go, sniff.go, clients.go). */
module Pinner {
  import opened Basics
  import opened Addr
  import opened Route
  import opened ServiceState
  import opened Clients

  /** Entries by the text of their IP. */
  type ArpTable = map<string, ArpEntry>

  function Entry(arp: ArpTable, ip: string): Option<ArpEntry> {
    if ip in arp then Some(arp[ip]) else None
  }

  predicate OnLan(arp: ArpTable, ip: string, iface: string) {
    ip in arp && arp[ip].iface == iface
  }

  predicate InSubnet(subnet: Prefix, ip: string) {
    ParseAddr(ip).Some? && Contains(subnet, ParseAddr(ip).value)
  }

  predicate IsOwn(st: State, ip: string) {
    st.lanAddr.Some? && ip == PrintAddr(st.lanAddr.value)
  }

  /** The pinner may act on this client. */
  predicate Eligible(st: State, ip: string) {
    InSubnet(st.lanSubnet, ip) && !IsOwn(st, ip)
  }

  /** A call of `arp -S`. */
  datatype PinCall = PinCall(ip: string, mac: string, iface: string)

  // ----- one pinner tick

  /** What a tick does about one client, given the MAC the registry holds. */
  function ClientAction(arp: ArpTable, st: State, ip: string, mac: string): (a: PinAction)
    ensures a == PinAdopt ==> OnLan(arp, ip, st.lanIface)
  {
    if Eligible(st, ip) then DecidePin(Entry(arp, ip), mac, st.lanIface) else PinNone
  }

  // What the registry, the table and the calls become when action `a` is taken for a client.

  function ActRegistry(a: PinAction, r: Registry, e: Option<ArpEntry>, ip: string): Registry {
    if a == PinAdopt && e.Some? then SetMac(r, ip, e.value.mac) else r
  }

  function ActArp(a: PinAction, arp: ArpTable, ip: string, mac: string, iface: string, pinOk: bool): ArpTable {
    if a == PinRepin && pinOk then arp[ip := ArpEntry(mac, iface)] else arp
  }

  function ActCalls(a: PinAction, ip: string, mac: string, iface: string): seq<PinCall> {
    if a == PinRepin then [PinCall(ip, mac, iface)] else []
  }

  datatype Tick = Tick(reg: Registry, arp: ArpTable, calls: seq<PinCall>)

  predicate PinSucceeds(failing: set<string>, ip: string) {
    ip !in failing
  }

  /** One client handled. */
  function Handled(t: Tick, st: State, ip: string, mac: string, pinOk: bool): Tick {
    var a := ClientAction(t.arp, st, ip, mac);
    Tick(ActRegistry(a, t.reg, Entry(t.arp, ip), ip),
         ActArp(a, t.arp, ip, mac, st.lanIface, pinOk),
         t.calls + ActCalls(a, ip, mac, st.lanIface))
  }

  predicate Distinct(s: seq<string>) {
    forall i, j | 0 <= i < j < |s| :: s[i] != s[j]
  }

  /** The tick's loop over the snapshot of `r` in the given order. */
  function TickOver(r: Registry, arp: ArpTable, st: State, failing: set<string>, order: seq<string>): Tick
    requires forall ip | ip in order :: ip in r
  {
    if order == [] then Tick(r, arp, [])
    else
      var ip := order[|order| - 1];
      Handled(TickOver(r, arp, st, failing, order[..|order| - 1]), st, ip, r[ip].mac, PinSucceeds(failing, ip))
  }

  // The same tick without an order.

  /** The actions of one tick. */
  type Plan = map<string, PinAction>

  function TickPlan(r: Registry, arp: ArpTable, st: State): Plan {
    map ip | ip in r :: ClientAction(arp, st, ip, r[ip].mac)
  }

  /** The registry after the clients in `on` have been handled. */
  function AdoptAll(plan: Plan, r: Registry, arp: ArpTable, on: set<string>): Registry {
    map ip | ip in r ::
      if ip in on && ip in plan && plan[ip] == PinAdopt && ip in arp then r[ip].(mac := arp[ip].mac) else r[ip]
  }

  /** The table after the clients in `on` have been handled; `arp -S` fails for `failing`. */
  function RepinAll(plan: Plan, r: Registry, arp: ArpTable, iface: string, failing: set<string>,
      on: set<string>): ArpTable {
    arp + map ip | ip in r && ip in on && ip in plan && ip !in failing && plan[ip] == PinRepin
               :: ArpEntry(r[ip].mac, iface)
  }

  /** The clients a plan pins. */
  function Repinned(plan: Plan): set<string> {
    set ip | ip in plan && plan[ip] == PinRepin
  }

  function TickRegistry(r: Registry, arp: ArpTable, st: State): Registry {
    AdoptAll(TickPlan(r, arp, st), r, arp, r.Keys)
  }

  function TickArp(r: Registry, arp: ArpTable, st: State, failing: set<string>): ArpTable {
    RepinAll(TickPlan(r, arp, st), r, arp, st.lanIface, failing, r.Keys)
  }

  /** The gate in front of the tick. */
  predicate PinnerActive(st: State) {
    st.ciscoConnected && st.lanIface != ""
  }

  /** The calls a tick makes: one for each client in `ips`, with its registry MAC. */
  predicate PinsExactly(calls: seq<PinCall>, ips: set<string>, r: Registry, iface: string) {
    |calls| == |ips|
    && (forall i | 0 <= i < |calls| :: calls[i].ip in ips && calls[i].ip in r
          && calls[i] == PinCall(calls[i].ip, r[calls[i].ip].mac, iface))
    && (forall ip | ip in ips :: exists i :: 0 <= i < |calls| && calls[i].ip == ip)
  }

  /** The kernel's table and the log of `arp -S` calls on it. */
  class Kernel {
    var table: ArpTable
    var calls: seq<PinCall>

    constructor ()
      ensures table == map[] && calls == []
    {
      table, calls := map[], [];
    }

    method Lookup(ip: string) returns (e: Option<ArpEntry>)
      ensures e == Entry(table, ip)
    {
      if ip in table {
        return Some(table[ip]);
      }
      return None;
    }

    /** `Pin`; `ok` is the exit status of `arp -S`. */
    method Pin(ip: string, mac: string, iface: string, ok: bool)
      modifies this
      ensures calls == old(calls) + [PinCall(ip, mac, iface)]
      ensures table == if ok then old(table)[ip := ArpEntry(mac, iface)] else old(table)
    {
      calls := calls + [PinCall(ip, mac, iface)];
      if ok {
        table := table[ip := ArpEntry(mac, iface)];
      }
    }
  }

  // ----- one observed SYN

  predicate SynAccepted(st: State, ip: Addr) {
    st.lanIface != "" && Contains(st.lanSubnet, ip) && st.lanAddr != Some(ip)
  }

  /** The frame replaces a disagreeing kernel entry on the LAN interface. */
  predicate SynRepins(r: Registry, arp: ArpTable, st: State, ip: Addr, mac: string) {
    var key := PrintAddr(ip);
    SynAccepted(st, ip) && mac != MacOf(r, key) && st.ciscoConnected
    && OnLan(arp, key, st.lanIface) && arp[key].mac != mac
  }

  function SynRegistry(r: Registry, st: State, ip: Addr, mac: string, now: int): Registry {
    if SynAccepted(st, ip) then Seen(r, PrintAddr(ip), mac, now) else r
  }

  function SynArp(r: Registry, arp: ArpTable, st: State, ip: Addr, mac: string, pinOk: bool): ArpTable {
    if SynRepins(r, arp, st, ip, mac) && pinOk then arp[PrintAddr(ip) := ArpEntry(mac, st.lanIface)] else arp
  }

  // ----- one accepted connection

  /** What the hook reads from ARP for a LAN peer. */
  function LearnedMac(arp: ArpTable, st: State, ip: string): string {
    if OnLan(arp, ip, st.lanIface) then arp[ip].mac else ""
  }

  /** `peer` is None when the remote address is not an IPv4 TCP address. */
  predicate AcceptRegisters(r: Registry, st: State, peer: Option<Addr>, now: int) {
    peer.Some? && st.lanIface != "" && Contains(st.lanSubnet, peer.value) && NeedsRefresh(r, PrintAddr(peer.value), now)
  }

  function AcceptRegistry(r: Registry, arp: ArpTable, st: State, peer: Option<Addr>, now: int): Registry {
    if AcceptRegisters(r, st, peer, now)
    then Seen(r, PrintAddr(peer.value), LearnedMac(arp, st, PrintAddr(peer.value)), now)
    else r
  }

  class Service {
    const clients: ClientRegistry
    const kernel: Kernel
    var status: State
    const discovery: bool

    constructor (entries: seq<LanClient>, discovery: bool)
      ensures fresh(clients) && fresh(kernel)
      ensures clients.clients == FromConfig(entries) && kernel.table == map[] && kernel.calls == []
      ensures status == INITIAL && this.discovery == discovery
    {
      clients := new ClientRegistry(entries);
      kernel := new Kernel();
      status := INITIAL;
      this.discovery := discovery;
    }

    /** Registry, table and calls. */
    ghost function Ticked(): Tick
      reads clients, kernel
    {
      Tick(clients.clients, kernel.table, kernel.calls)
    }

    /** The body of the tick's loop for one client. */
    method PinClient(ip: string, mac: string, state: State, pinOk: bool)
      modifies clients, kernel
      ensures Ticked() == Handled(old(Ticked()), state, ip, mac, pinOk)
    {
      var addr := ParseAddr(ip);
      if addr.None? || !Contains(state.lanSubnet, addr.value) {
        return;
      }
      if state.lanAddr.Some? && ip == PrintAddr(state.lanAddr.value) {
        return;
      }
      var entry := kernel.Lookup(ip);
      match DecidePin(entry, mac, state.lanIface)
      case PinAdopt =>
        clients.AdoptMac(ip, entry.value.mac);
      case PinRepin =>
        kernel.Pin(ip, mac, state.lanIface, pinOk);
      case PinNone =>
    }

    /** One tick: whatever order the snapshot map is walked in, the result is the
        same function of the registry, the table and the State copy. */
    method PinClients(state: State, failing: set<string>) returns (ghost made: seq<PinCall>)
      modifies clients, kernel
      ensures clients.clients == TickRegistry(old(clients.clients), old(kernel.table), state)
      ensures kernel.table == TickArp(old(clients.clients), old(kernel.table), state, failing)
      ensures kernel.calls == old(kernel.calls) + made
      ensures PinsExactly(made, Repinned(TickPlan(old(clients.clients), old(kernel.table), state)),
                          old(clients.clients), state.lanIface)
    {
      ghost var r, arp, calls := clients.clients, kernel.table, kernel.calls;
      var snapshot := clients.Snapshot();
      var todo := snapshot.Keys;
      ghost var order: seq<string> := [];
      made := [];
      assert calls + [] == calls;
      while todo != {}
        invariant todo <= r.Keys && Distinct(order) && forall ip :: ip in order <==> ip in r.Keys - todo
        invariant made == TickOver(r, arp, state, failing, order).calls
        invariant Ticked() == After(calls, TickOver(r, arp, state, failing, order))
        decreases |todo|
      {
        var ip :| ip in todo;
        OrderMore(r, arp, state, failing, order, ip);
        HandledAfter(calls, TickOver(r, arp, state, failing, order), state, ip, r[ip].mac, PinSucceeds(failing, ip));
        PinClient(ip, snapshot[ip], state, PinSucceeds(failing, ip));
        order := order + [ip];
        made := TickOver(r, arp, state, failing, order).calls;
        todo := todo - {ip};
      }
      TickOrderIndependent(r, arp, state, failing, order);
    }

    method ObserveSyn(ip: Addr, mac: string, now: int, pinOk: bool)
      modifies clients, kernel
      ensures clients.clients == SynRegistry(old(clients.clients), status, ip, mac, now)
      ensures kernel.table == SynArp(old(clients.clients), old(kernel.table), status, ip, mac, pinOk)
      ensures kernel.calls == old(kernel.calls)
                + if SynRepins(old(clients.clients), old(kernel.table), status, ip, mac)
                  then [PinCall(PrintAddr(ip), mac, status.lanIface)] else []
    {
      var state := status;
      if state.lanIface == "" || !Contains(state.lanSubnet, ip) || Some(ip) == state.lanAddr {
        return;
      }
      var key := PrintAddr(ip);
      var known := clients.Lookup(key);
      var oldMac := if known.Some? then known.value.mac else "";
      if mac != oldMac {
        RepinStale(state, key, mac, pinOk);
      }
      var _ := clients.Observe(key, mac, now);
    }

    method RepinStale(state: State, ip: string, mac: string, pinOk: bool)
      modifies kernel
      ensures var stale := state.ciscoConnected && OnLan(old(kernel.table), ip, state.lanIface)
              && old(kernel.table)[ip].mac != mac;
              kernel.calls == old(kernel.calls) + (if stale then [PinCall(ip, mac, state.lanIface)] else [])
              && kernel.table == if stale && pinOk then old(kernel.table)[ip := ArpEntry(mac, state.lanIface)]
                                 else old(kernel.table)
    {
      if !state.ciscoConnected {
        return;
      }
      var entry := kernel.Lookup(ip);
      if entry.None? || entry.value.iface != state.lanIface || entry.value.mac == mac {
        return;
      }
      kernel.Pin(ip, mac, state.lanIface, pinOk);
    }

    method DiscoverClient(peer: Option<Addr>, now: int)
      modifies clients
      ensures clients.clients == AcceptRegistry(old(clients.clients), kernel.table, status, peer, now)
    {
      if peer.None? {
        return;
      }
      var state := status;
      if state.lanIface == "" || !Contains(state.lanSubnet, peer.value) {
        return;
      }
      var ip := PrintAddr(peer.value);
      var known := clients.Lookup(ip);
      if !(known.None? || known.value.mac == "" || Elapsed(known.value.lastSeen, now, CLIENT_REFRESH_INTERVAL)) {
        return;
      }
      var mac := "";
      var e := kernel.Lookup(ip);
      if e.Some? && e.value.iface == state.lanIface {
        mac := e.value.mac;
      }
      var _ := clients.Observe(ip, mac, now);
    }
  }

  /** `t` with calls that were made before it. */
  function After(calls: seq<PinCall>, t: Tick): Tick {
    t.(calls := calls + t.calls)
  }

  lemma HandledAfter(calls: seq<PinCall>, t: Tick, st: State, ip: string, mac: string, pinOk: bool)
    ensures Handled(After(calls, t), st, ip, mac, pinOk) == After(calls, Handled(t, st, ip, mac, pinOk))
  {
  }

  /** The action depends on the client's own entry alone. */
  lemma ClientActionLocal(arp: ArpTable, arp': ArpTable, st: State, ip: string, mac: string)
    requires Entry(arp, ip) == Entry(arp', ip)
    ensures ClientAction(arp, st, ip, mac) == ClientAction(arp', st, ip, mac)
  {
  }

  /** The registry, the table and the calls after the clients in `on` have been handled. */
  ghost predicate Progress(plan: Plan, r: Registry, arp: ArpTable, iface: string, failing: set<string>, on: set<string>,
                           r': Registry, arp': ArpTable, calls: seq<PinCall>) {
    r' == AdoptAll(plan, r, arp, on)
    && arp' == RepinAll(plan, r, arp, iface, failing, on)
    && PinsExactly(calls, Repinned(plan) * on, r, iface)
  }

  lemma ProgressStart(plan: Plan, r: Registry, arp: ArpTable, iface: string, failing: set<string>)
    ensures Progress(plan, r, arp, iface, failing, {}, r, arp, [])
  {
    assert Repinned(plan) * {} == {};
  }

  /** Handling one more client as planned touches that client's entries alone. */
  lemma ProgressStep(plan: Plan, r: Registry, arp: ArpTable, iface: string, failing: set<string>, on: set<string>,
                     r': Registry, arp': ArpTable, calls: seq<PinCall>, ip: string)
    requires Progress(plan, r, arp, iface, failing, on, r', arp', calls)
    requires ip in r && ip !in on && plan.Keys == r.Keys && (plan[ip] == PinAdopt ==> ip in arp)
    ensures Entry(arp', ip) == Entry(arp, ip)
    ensures Progress(plan, r, arp, iface, failing, on + {ip},
                     ActRegistry(plan[ip], r', Entry(arp', ip), ip),
                     ActArp(plan[ip], arp', ip, r[ip].mac, iface, ip !in failing),
                     calls + ActCalls(plan[ip], ip, r[ip].mac, iface))
  {
    AdoptOneMore(plan, r, arp, on, ip);
    RepinOneMore(plan, r, arp, iface, failing, on, ip);
    PinsOneMore(calls, plan, on, r, iface, ip);
  }

  lemma AdoptOneMore(plan: Plan, r: Registry, arp: ArpTable, on: set<string>, ip: string)
    requires ip in r && ip !in on && plan.Keys == r.Keys && (plan[ip] == PinAdopt ==> ip in arp)
    ensures AdoptAll(plan, r, arp, on + {ip}) ==
              if plan[ip] == PinAdopt then SetMac(AdoptAll(plan, r, arp, on), ip, arp[ip].mac)
              else AdoptAll(plan, r, arp, on)
  {
  }

  lemma RepinOneMore(plan: Plan, r: Registry, arp: ArpTable, iface: string, failing: set<string>, on: set<string>,
      ip: string)
    requires ip in r && ip !in on && plan.Keys == r.Keys
    ensures Entry(RepinAll(plan, r, arp, iface, failing, on), ip) == Entry(arp, ip)
    ensures RepinAll(plan, r, arp, iface, failing, on + {ip}) ==
              if plan[ip] == PinRepin && ip !in failing
              then RepinAll(plan, r, arp, iface, failing, on)[ip := ArpEntry(r[ip].mac, iface)]
              else RepinAll(plan, r, arp, iface, failing, on)
  {
  }

  lemma PinsOneMore(calls: seq<PinCall>, plan: Plan, done: set<string>, r: Registry, iface: string, ip: string)
    requires PinsExactly(calls, Repinned(plan) * done, r, iface) && ip !in done && ip in plan && ip in r
    ensures PinsExactly(calls + ActCalls(plan[ip], ip, r[ip].mac, iface),
                        Repinned(plan) * (done + {ip}), r, iface)
  {
    var ips := Repinned(plan) * done;
    if plan[ip] == PinRepin {
      assert Repinned(plan) * (done + {ip}) == ips + {ip};
      var more := calls + [PinCall(ip, r[ip].mac, iface)];
      forall x | x in ips + {ip} ensures exists i :: 0 <= i < |more| && more[i].ip == x {
        if x == ip {
          assert more[|calls|].ip == x;
        } else {
          var i :| 0 <= i < |calls| && calls[i].ip == x;
          assert more[i].ip == x;
        }
      }
    } else {
      assert Repinned(plan) * (done + {ip}) == ips;
      assert calls + [] == calls;
    }
  }

  lemma ElementsOfOrder(order: seq<string>)
    requires order != []
    ensures var n := |order| - 1; (set x | x in order) == (set x | x in order[..n]) + {order[n]}
    ensures var n := |order| - 1; Distinct(order) ==> Distinct(order[..n]) && order[n] !in order[..n]
  {
    var n := |order| - 1;
    assert order == order[..n] + [order[n]];
  }

  /** Visiting one more client at the end of the order. */
  lemma OrderMore(r: Registry, arp: ArpTable, st: State, failing: set<string>, order: seq<string>, ip: string)
    requires Distinct(order) && ip !in order && ip in r && forall x | x in order :: x in r
    ensures Distinct(order + [ip]) && forall x :: x in order + [ip] <==> x in order || x == ip
    ensures TickOver(r, arp, st, failing, order + [ip])
            == Handled(TickOver(r, arp, st, failing, order), st, ip, r[ip].mac, PinSucceeds(failing, ip))
  {
    assert (order + [ip])[..|order|] == order;
  }

  lemma {:induction false} TickOverIsProgress(r: Registry, arp: ArpTable, st: State, failing: set<string>,
      order: seq<string>)
    requires Distinct(order) && forall ip | ip in order :: ip in r
    ensures var t := TickOver(r, arp, st, failing, order);
            Progress(TickPlan(r, arp, st), r, arp, st.lanIface, failing, (set ip | ip in order), t.reg, t.arp, t.calls)
  {
    var plan := TickPlan(r, arp, st);
    if order == [] {
      ProgressStart(plan, r, arp, st.lanIface, failing);
      assert (set ip | ip in order) == {};
    } else {
      var ip, rest := order[|order| - 1], order[..|order| - 1];
      var t := TickOver(r, arp, st, failing, rest);
      TickOverIsProgress(r, arp, st, failing, rest);
      var on := set x | x in rest;
      ElementsOfOrder(order);
      ProgressStep(plan, r, arp, st.lanIface, failing, on, t.reg, t.arp, t.calls, ip);
      ClientActionLocal(t.arp, arp, st, ip, r[ip].mac);
    }
  }

  /** Every order that visits each client once gives the same registry and table,
      and the same pins up to order. */
  lemma TickOrderIndependent(r: Registry, arp: ArpTable, st: State, failing: set<string>, order: seq<string>)
    requires Distinct(order) && forall ip :: ip in order <==> ip in r
    ensures var t := TickOver(r, arp, st, failing, order);
            t.reg == TickRegistry(r, arp, st) && t.arp == TickArp(r, arp, st, failing)
            && PinsExactly(t.calls, Repinned(TickPlan(r, arp, st)), r, st.lanIface)
  {
    TickOverIsProgress(r, arp, st, failing, order);
    var plan := TickPlan(r, arp, st);
    assert (set ip | ip in order) == r.Keys;
    assert Repinned(plan) * r.Keys == Repinned(plan);
  }
}

# LAN reachability of the Cisco SOCKS service

The service runs a SOCKS5 proxy through a Cisco VPN and keeps it reachable from the local
network while Cisco reroutes that network into the tunnel. Four state machines share one
`State`: the owner of the LAN listener, the pinner with its client registry and the kernel's
ARP table, the VPN supervisor, and the watcher that drops connections when the VPN goes away.
This project models them, and the MAC, ARP and tcpdump texts they read, and proves what they
keep over every run.

| file | contents |
|---|---|
| `Text.dfy`, `Mac.dfy`, `Addr.dfy`, `Route.dfy` | strings, MAC addresses, IPv4 prefixes, ARP entries, the pin decision, tcpdump lines |
| `Clients.dfy` | `State` and the client registry (a class over a map) |
| `Pinner.dfy` | one pinner tick, `observeSYN` and `discoverClient`: functions of registry, table and State, and the class proved against them |
| `Reachability.dfy` | what one tick or frame guarantees: convergence, agreement, when a frame wins |
| `Network.dfy`, `NetworkRuns.dfy` | runs of atomic events: the registry invariant, the amortised number of pins, rotated MACs, where stored MACs come from |
| `Discovery.dfy` | what one accept, frame or tick does, and how long a discovered client stays, on times and sightings |
| `PinnerLoop.dfy` | the pinner's loop, frames and connections as events of those runs |
| `FinePins.dfy`, `FineNetworks.dfy` | the pinner, the SYN hook, the accept hook and LAN changes with each lock-protected call and shell-out as its own step; which network stored and pinned MACs belong to |
| `Cisco.dfy`, `Supervisor.dfy`, `SupervisorRuns.dfy` | CLI answers, one supervisor tick (class and functions), histories of ticks |
| `Tracker.dfy`, `VpnLoss.dfy` | live connections, the VPN-loss poll, the CONNECT gate on one clock |
| `LanProtocol.dfy`, `LanInvariant.dfy`, `LanSafety.dfy` | listener owner, accept loops, notifications and shutdown as interleaved steps, the invariant every step keeps, and what follows for every interleaving |

## How to read it

- Each class method is proved equal to a function of the old state; the lemmas are about those
  functions. `Network` and `SupervisorRuns` iterate the same functions.
- The answers of the operating system and of the `vpn` command are parameters: whether a pin,
  a bind, a disconnect or `pfctl -d` succeeds, what a detection or a status query reports, what
  the clock reads. A pin that fails leaves the table unchanged. Time is integer nanoseconds.
- In `Network` one tick of the pinner, one `observeSYN`, one `discoverClient` and one
  `detectLAN` is one event. The source takes no lock across them, and neither tcpdump nor the
  kernel's table knows of a network change, so a MAC can outlive the network it was seen in.
  In `FinePins` a frame's MAC belongs to the network its sniffer was started for, a MAC from
  the kernel to the network the kernel learned the entry in; networks are counted by published
  changes. `FineNetworks.NeverOldIff` says exactly when no MAC of an older network is ever
  stored or pinned: when, outside a network change (internal/service/cisco.go:128-135), frames
  are recorded or pinned only from a sniffer started since the last change, entries are adopted
  only if the kernel learned them since, and pins come from a snapshot taken since.
  `QuietChangesAreTimely` gives a sufficient discipline: no tick and no hook is in flight when
  a change is confirmed, the change is published at once, and afterwards no frame comes from
  the old sniffer and no lookup returns an entry of the old network. What survives any
  interleaving is `FinePins.EveryPinWellFormed`; undisturbed fine steps are the atomic ones
  (`FrameIsAtomicSyn`, `WalkIsAtomicTick`).
- In `LanProtocol` each channel operation, lock-protected call and listener operation is one
  step; the context may be cancelled at any of them. "Joins never hang" means that the joined
  loop can always move and each of its moves brings it closer to its end.
- Assumed: clock readings never go back; consecutive polls of the VPN-loss watcher are less
  than 5 s apart; `ServeConn` closes its connection when it returns.

Where code and comments disagree, the code is modelled:

- `observeSYN` does not always correct the kernel's entry: it does nothing when the frame's MAC
  is the registry's (internal/service/sniff.go:95-97). `Reachability.SynFixesKernelIff` and
  `FrameOutlastsTickIff` give the exact condition, `NetworkRuns.SkippedRepairIsUndone` runs
  from every configuration in which it fails.
- A LAN listener may stay open after `serveLAN` returns: leaving through `done` only cancels
  (internal/service/lan.go:119-123). `LanSafety.OpenAfterExitIff` says exactly when,
  `OpenListenerExample` that it happens.
- A MAC of an old network can be pinned on the new one, or be stored for it, against
  internal/service/clients.go:130-133. Runs in which it happens: a sniffer that has not yet
  noticed the change (`FineNetworks.SnifferOutlivesChange`), a frame in flight across it
  (`FrameSpansChange`) or during it (`OldNetworkMacPinned`), an entry looked up before it
  (`OldEntryAdopted`) or kept by the kernel on the same interface (`KeptEntryAdopted`).
- A mask that is not contiguous is read as /0 (`Addr.NonContiguousMaskCoversAll`);
  `Addr.MembershipIsMaskAndIff` says for which masks that matters.

## Model

| member | source | states |
|---|---|---|
| LanSafety.NoLostWakeup | internal/service/lan.go:82-125 | in every interleaving, an owner that waits with an empty `lanCheck` and no notification on its way has read State's present LAN, and holds a listener on exactly that LAN, or none while a retry is armed or there is no LAN |
| LanSafety.OnlyHeldListener | internal/service/lan.go:61-97 | at every loop head and wait, tracked LAN connections were accepted by the held listener and no other LAN listener is open |
| LanSafety.OldConnectionsClosed | internal/service/proxy.go:182-215 | while the owner waits, every connection ever accepted and not closed was accepted on loopback or by the held listener, and the tracker says so or a loop still holds it |
| LanSafety.JoinsNeverHang | internal/service/lan.go:59-65 | while `close` waits for `done`, context and listener are gone, the result has not been received, and it is there or the loop can move |
| LanSafety.JoinedLoopNearsItsEnd | internal/service/proxy.go:182-215 | every move of the joined loop lowers its rank, so it ends after at most four |
| LanSafety.JoinUndisturbed | internal/service/lan.go:59-65 | no step of anyone else moves the joined loop, takes its result or ends the wait |
| LanSafety.ResultsReceivedOnce | internal/service/lan.go:109-147 | a loop's result is produced once and never received a second time, by `close` or by the `done` branch |
| LanSafety.OwnerNeverStuck | internal/service/lan.go:71-126 | in every reachable state the owner has stopped, can step, joins a loop that can, or waits with nothing left to do or with a notification on its way |
| LanSafety.OwnerCanCatchUp | internal/service/lan.go:82-125 | from every reachable state with the owner in its loop, at most 48 steps of supervisor, owner and joined loop lead to a wait with nothing pending and a listener on exactly State's LAN, or to none without a LAN |
| LanSafety.ErrorMeansIntrusion | internal/service/lan.go:109-123 | `serveLAN` fails only if its newest listener was closed by someone else while its context was live |
| LanSafety.LoopsEndForAReason | internal/service/proxy.go:182-202 | an accept loop has returned only if its context is done or its listener is closed |
| LanSafety.TransientErrorRecovers | internal/service/proxy.go:189-202 | after an error with the context live and the listener open, the loop's only two steps lead back to accepting, and listener, tracker and everything else are unchanged |
| LanSafety.ClosedListenerIsFatal | internal/service/proxy.go:189-191 | an accept on a closed listener under a live context ends the loop with the error in its `done` slot |
| LanSafety.OwnerStopsWithResult | internal/service/lan.go:119-123 | the owner that receives a loop's result stops with exactly that outcome |
| LanSafety.ContextsReleased | internal/service/lan.go:59-65 | once the owner has stopped, every LAN loop is gone and its context cancelled |
| LanSafety.UnchangedCheckKeeps | internal/service/lan.go:83-95 | a check that finds the LAN unchanged keeps the listener, its loop and all connections |
| LanSafety.DropClosesLanOnly | internal/service/proxy.go:69-88 | dropping an old LAN's connections closes exactly those a LAN listener accepted |
| LanSafety.DropOutcomes | internal/service/proxy.go:53-65 | a VPN loss closes and forgets every tracked connection, the end of one connection only that one |
| LanSafety.ShutdownComplete | internal/service/proxy.go:135-177 | once `startProxy` has returned no accept loop is left, the tracker is empty, every connection ever accepted is closed |
| LanSafety.OpenAfterExitIff | internal/service/lan.go:114-124 | in every run in which the owner has stopped, some LAN listener is open if and only if the owner left through `done` and nobody else has closed the listener it held |
| LanSafety.OpenAfterExit | internal/service/lan.go:114-124 | a LAN listener still open after the owner stopped is the last one, and the owner left without error |
| LanSafety.OpenListenerExample | internal/service/lan.go:119-123 | such a run exists for every LAN |
| LanSafety.ShutdownNeverStuck | internal/service/proxy.go:147-173 | once the context is cancelled, until `startProxy` has returned, a step of owner, accept loop, loopback closer, watcher or `startProxy` is enabled that lowers a measure |
| LanSafety.ShutdownCanFinish | internal/service/proxy.go:135-177 | from every such state `startProxy` can return within 23 steps |
| LanInvariant.EveryRun | internal/service/lan.go:71-147 | the protocol invariant holds after every interleaving from the start of the proxy |
| LanInvariant.StepKeepsInv | internal/service/lan.go:82-125 | every step of owner, loops, supervisor, watcher, environment and `startProxy` keeps it |
| Pinner.Service.PinClient | internal/service/service.go:160-191 | one client of the tick: registry, table and pin call as decided from the kernel's entry |
| Pinner.Service.PinClients | internal/service/service.go:159-193 | one tick is an order-free function of registry, table and State, and calls pin once per client to re-pin, with its registry MAC, and for nobody else |
| Pinner.TickOrderIndependent | internal/service/service.go:159-193 | walking the snapshot in any order gives the same registry and table and the same pins up to order |
| Pinner.TickOverIsProgress | internal/service/service.go:159-193 | after any part of the walk exactly the visited clients have been handled |
| Pinner.Service.ObserveSyn | internal/service/sniff.go:86-107 | registry, table and pins after a frame; nothing for senders off the LAN, our own address or an unknown LAN |
| Pinner.Service.RepinStale | internal/service/sniff.go:114-129 | pins exactly when the VPN is up and the LAN interface's entry carries another MAC |
| Pinner.Service.DiscoverClient | internal/service/clients.go:167-194 | the registry after a LAN connection is accepted is the atomic accept's |
| Discovery.AcceptOutcome | internal/service/clients.go:173-200 | the LAN peer of an accepted connection is registered; unless its MAC is known and it was seen less than a minute ago it counts as seen now, with the MAC of its entry on the LAN interface or else the one it had; nothing else changes |
| Discovery.AcceptIgnored | internal/service/clients.go:168-176 | without discovery, a LAN, an IPv4 peer or the subnet nothing changes |
| Discovery.FrameOutcome | internal/service/sniff.go:86-124 | the sender of a LAN frame is registered as seen now with the frame's MAC, and the entry is replaced exactly with the VPN up, another MAC on the LAN interface, a MAC new to the registry and a pin that succeeds |
| Discovery.FrameIgnored | internal/service/sniff.go:87-90 | other frames change nothing |
| Discovery.TickOutcome | internal/service/service.go:145-150 | the pinner acts exactly with the VPN up and a LAN known, and then converges |
| Discovery.StampsAreSightings | internal/service/clients.go:55-72 | after every run a client's time stamp is its latest sighting |
| Discovery.ExpiryKeepsIff | internal/service/clients.go:109-128 | after every run an expiry keeps exactly configured clients, those with a connection, and those sighted less than 30 minutes before |
| Discovery.SightedStays | internal/service/clients.go:15-22 | a client sighted at `t` is registered after any further run, if every expiry in it comes less than 30 minutes after `t` or finds it live, and the network does not change |
| Discovery.GoneWhenStale | internal/service/clients.go:109-128 | a discovered client without a connection is gone after an expiry 30 minutes or more after its latest sighting |
| Pinner.Kernel.Pin | internal/utils/route/route.go:270-280 | a pin that succeeds sets that entry, one that fails changes nothing |
| PinnerLoop.ClientHooks.HandleFrame | internal/service/sniff.go:25-28 | a reported frame is one event of the network model, and nothing happens without discovery |
| PinnerLoop.ClientHooks.HandleConn | internal/service/proxy.go:205-212 | an accepted connection is tracked; on the LAN it is one accept event of the network model |
| PinnerLoop.ClientHooks.FinishConn | internal/service/proxy.go:207-215 | a served connection is closed and forgotten |
| PinnerLoop.PinnerLoop.Iterate | internal/service/service.go:134-151 | a turn of the loop is an expiry, if there was none or the last is at least a minute ago, then a tick |
| PinnerLoop.ExpiresIff | internal/service/service.go:137-138 | over any sequence of turns, a turn expires clients exactly if every earlier turn that did is at least a minute ago |
| PinnerLoop.StartPinner | internal/service/service.go:134-154 | the loop over any turns holds the stamp of the latest expiry |
| Reachability.PinsAreDrift | internal/utils/route/route.go:244-257 | a tick pins exactly the drifted clients |
| Reachability.TickOfClient | internal/service/service.go:173-189 | each client's registry MAC and kernel entry after a tick |
| Reachability.TickConverges | internal/service/service.go:159-193 | after one tick with successful pins every eligible client with a MAC has exactly that entry on the LAN interface, one without has none there |
| Reachability.ConvergedIsFixpoint | internal/service/service.go:156-158 | then a tick pins nobody and changes nothing |
| Reachability.TickEstablishesAgreement | internal/utils/route/route.go:244-257 | after any tick registry and kernel agree, whichever pins failed |
| Reachability.SynFixesKernelIff | internal/service/sniff.go:92-121 | the kernel keeps no other MAC for a frame's sender if and only if it had none, or the registry's MAC differs from the frame's, the VPN is up and the pin succeeds |
| Reachability.FrameOutlastsTickIff | internal/service/sniff.go:109-113 | under the same condition the next tick keeps the frame's MAC; otherwise it adopts the kernel's old one |
| Reachability.SynKeepsAgreement | internal/service/sniff.go:86-124 | with the VPN up and the pin succeeding a frame's MAC is recorded and agreement is kept |
| Network.RegistryInvariant | internal/service/clients.go:37-145 | after every run static entries are the configured IPs, MACs are canonical or empty, discovered clients lie in the current subnet, nobody is added without discovery, our address lies in the subnet |
| Network.StepKeepsInv | internal/service/clients.go:160-194 | every event keeps this |
| Network.ConfigRegistry | internal/service/clients.go:37-51 | the registry built from the configuration: its IPs, all static and never seen |
| Network.ConfiguredMacStored | internal/service/clients.go:40-48 | a configured MAC that parses is stored in canonical form, any other is left empty; the last entry for an IP counts |
| NetworkRuns.PinAccounts | internal/service/service.go:156-193 | over any run, exactly: pins, drift left and drift that ended otherwise equal initial drift, disturbances and failed pins |
| NetworkRuns.AmortisedPins | internal/service/service.go:156-193 | so the pins of any run are at most initial drift, disturbances and failed pins |
| NetworkRuns.DriftGrowsByDisturbance | internal/utils/route/route.go:227-257 | the clients an event sets adrift are exactly these: a pinned one whose entry is deleted or moved off the LAN, one that an accepted frame gives its first MAC without an entry on the LAN, at the first detection those with a configured MAC in the subnet without one, and the client at our previous address |
| NetworkRuns.DriftAfterTick | internal/service/service.go:173-189 | a tick leaves adrift exactly the clients whose pin failed |
| NetworkRuns.RotatedMacStays | internal/service/sniff.go:109-113 | a frame's MAC, unless the kernel keeps another, survives everything but another frame or LAN entry of that client, its expiry and a LAN detection: Cisco's deletions and moves, other clients, accepts, VPN flaps, failing pins; after each active tick that does not fail for the client the kernel holds it |
| NetworkRuns.SkippedRepairIsUndone | internal/service/sniff.go:95-97 | from every configuration a run in which a frame with the VPN up is not repaired and the next tick restores the old MAC |
| NetworkRuns.CiscoRun | internal/service/service.go:173-189 | over any run of Cisco's deletions and moves and of ticks with successful pins, agreement of all clients and every registered MAC are kept |
| NetworkRuns.MacsPostdateNetworkChange | internal/service/clients.go:130-145 | every stored MAC was read from a frame or from the LAN interface since the latest network change, or is the initial one of a run without a change |
| NetworkRuns.PinsPostdateNetworkChange | internal/service/cisco.go:121-139 | each pin of a tick after a network change names an eligible client, the LAN interface and a canonical MAC written after that change |
| NetworkRuns.MacOrigin | internal/service/clients.go:55-94 | a non-empty MAC after an event was written by it or held before, and no network change leaves one |
| FinePins.EveryPinWellFormed | internal/service/service.go:160-185 | in every interleaving of single calls, each pin has a non-empty canonical MAC and its subnet, interface and own-address checks come from one published State |
| FinePins.FrameIsAtomicSyn | internal/service/sniff.go:86-129 | the hook's separate steps, undisturbed, do what the atomic hook does |
| FinePins.VisitIsAtomicAccept | internal/service/clients.go:167-194 | the accept hook's separate steps, undisturbed, do what the atomic accept does |
| FinePins.WalkIsAtomicTick | internal/service/service.go:159-193 | the tick's separate steps, undisturbed and in any order, end in the atomic tick's registry and table and make exactly its pins |
| FineNetworks.NeverOldIff | internal/service/clients.go:130-145 | over every interleaving, no MAC of an older network is ever stored or pinned if and only if, outside a network change, frames are recorded or pinned only from a sniffer, entries adopted only if learned, and pins made only from a snapshot, since the last change |
| FineNetworks.StepIff | internal/service/cisco.go:121-139 | one step: the registry stays current and the pin is current exactly under that guard |
| FineNetworks.QuietChangesAreTimely | internal/service/cisco.go:121-139 | this holds if no tick and no hook is in flight when a change is confirmed, it is published at once, and afterwards neither the old sniffer reports a frame nor a lookup an entry learned before; everything else interleaves freely |
| FineNetworks.SnifferOutlivesChange | internal/service/sniff.go:60-82 | a frame from the old interface's sniffer after the change, with nothing else in flight, gets its MAC registered and pinned on the new network: from any registry, for every client address without a kernel entry |
| FineNetworks.OldNetworkMacPinned | internal/service/cisco.go:128-135 | so does one handled between `resetNetwork` and `setStatus`, for addresses that are clients in both networks |
| FineNetworks.FrameSpansChange | internal/service/sniff.go:86-99 | so does one accepted before the change and recorded after it |
| FineNetworks.OldEntryAdopted | internal/service/service.go:173-177 | the pinner adopts into the new network, for a static client, an entry it looked up before the change |
| FineNetworks.KeptEntryAdopted | internal/utils/route/route.go:244-249 | and one it looks up after the change, if the kernel has kept it and the interface is the same: the MAC `resetNetwork` has erased comes back |
| SupervisorRuns.StartCisco | internal/service/cisco.go:35-47 | over any answers: the commands sent, the delays slept, the final State; shutdown disconnects exactly if an own connect succeeded |
| Supervisor.CiscoSupervisor.Tick | internal/service/cisco.go:50-85 | one tick: new state, delay, commands, registry reset, notification, and readiness closed at most once |
| Supervisor.CiscoSupervisor.DetectLan | internal/service/cisco.go:93-140 | the LAN fields, the registry reset on a change and the notification |
| Supervisor.CiscoSupervisor.ConfirmLan | internal/service/cisco.go:146-162 | the first detection applies at once, a change on its second sighting in a row |
| Supervisor.CiscoSupervisor.HandleStatus | internal/service/cisco.go:57-73 | what each status answer does; connect only on Disconnected or Unknown |
| Supervisor.CiscoSupervisor.AwaitReconnect | internal/service/cisco.go:178-202 | disconnects exactly when stuck past the grace period |
| Supervisor.CiscoSupervisor.ConnectVpn | internal/service/cisco.go:206-230 | result and backoff of a connect |
| Supervisor.CiscoSupervisor.SetConnected | internal/service/cisco.go:167-174 | losing the connection resets PFDisabled |
| Supervisor.CiscoSupervisor.DisablePf | internal/service/cisco.go:232-250 | PFDisabled is set only by a successful `pfctl -d` |
| Supervisor.CiscoSupervisor.Shutdown | internal/service/cisco.go:254-267 | disconnects only what this process connected |
| SupervisorRuns.Debounce | internal/service/cisco.go:142-162 | after any history the LAN is the two-sample function of the detections |
| SupervisorRuns.BlipsAndChanges | internal/service/cisco.go:142-145 | one-tick blips never apply, two equal sightings in a row always do |
| SupervisorRuns.OwnAddressTracksLan | internal/service/cisco.go:107-135 | in every reachable State with a LAN our address lies in its subnet |
| SupervisorRuns.DetectionIsNetworkEvent | internal/service/cisco.go:93-140 | a detection is exactly one event of the network model, or none |
| SupervisorRuns.SinceIsStreakStart | internal/service/cisco.go:57-71 | `reconnectingSince` is the start of the longest current streak of Reconnecting answers, failed answers ignored |
| SupervisorRuns.ForcedIff | internal/service/cisco.go:178-202 | a disconnect is forced if and only if the tick is Reconnecting and its streak began more than 2 minutes ago |
| SupervisorRuns.BackoffClosedForm | internal/service/cisco.go:212-224 | `connectDelay` is min(5 s * 2^k, 60 s) after k counted failures |
| SupervisorRuns.DelayOfTick | internal/service/cisco.go:204-230 | a counted failure waits exactly that long, every other tick 5 s; always within 5 s to 60 s |
| SupervisorRuns.ConnectOutcome | internal/utils/cisco/cisco.go:35-56 | on the agent's answer: a capability conflict, whatever the exit, and a cancelled context are no failure; a failed command or a re-check other than Connected waits and doubles the backoff; success resets it |
| SupervisorRuns.CommandsOfTick | internal/service/cisco.go:57-73 | connect is issued exactly on Disconnected or Unknown, disconnect exactly on a streak of Reconnecting begun more than 2 minutes ago |
| SupervisorRuns.RenewalKeepsLan | internal/service/cisco.go:110-119 | another address in the same subnet is taken over and is no change of LAN |
| SupervisorRuns.Flags | internal/service/cisco.go:55-84 | CiscoConnected is the last successful answer, PFDisabled implies it, readiness and own connects are remembered exactly |
| SupervisorRuns.PfDisabledIff | internal/service/cisco.go:164-174 | PFDisabled holds exactly if `pfctl -d` succeeded in the current connected window |
| SupervisorRuns.StartedAfterConnect | internal/service/proxy.go:117-139 | ProxyStarted, and DNSStarted, hold exactly while the service listens; it leaves its select only when `ciscoReady` is closed, and then some tick has ended connected |
| VpnLoss.VpnLossLeavesNoGatedConnection | internal/service/proxy.go:219-240 | for any supervisor schedule and any interleaving with polls less than 5 s apart, no tracked connection has passed the gate after a "down" poll that follows an "up" reading |
| VpnLoss.NoGatedConnectionSurvives | internal/service/socks.go:38-54 | the same, from the length of connected windows alone |
| VpnLoss.ConnectedWindows | internal/service/cisco.go:206-229 | an "up" write and a later "down" write are at least 5 s apart |
| VpnLoss.SupervisedRunIsAllowed | internal/service/cisco.go:62-72 | the supervisor's writes meet the window condition in every interleaving |
| VpnLoss.LastWriteIsFlag | internal/service/cisco.go:167-174 | the timed writes end with the CiscoConnected of the supervisor's history |
| VpnLoss.GapBoundIsTight | internal/service/proxy.go:219-240 | with polls a full 5 s apart a gated connection can survive |
| VpnLoss.PollEvent | internal/service/proxy.go:232-239 | a poll event is what the watcher's poll does to the tracker and its connections |
| VpnLoss.PollKeeps | internal/service/proxy.go:232-239 | a poll while the VPN stays up, or stays down, keeps every connection |
| VpnLoss.GateOutcome | internal/service/socks.go:38-69 | a request passes exactly while the VPN is up |
| Tracker.ConnTracker.CloseAll | internal/service/proxy.go:53-65 | closes and forgets every tracked connection and counts them |
| Tracker.ConnTracker.CloseLan | internal/service/proxy.go:69-88 | closes, forgets and counts exactly the LAN connections |
| Tracker.ConnTracker.RemoteIps | internal/service/proxy.go:91-104 | the peers' IPs, those of TCP connections only |
| Tracker.VpnLossWatcher.Poll | internal/service/proxy.go:232-239 | drops everything exactly on an up-to-down change between two polls |
| Clients.ClientRegistry.constructor | internal/service/clients.go:37-51 | static entries; a MAC that does not parse becomes empty |
| Clients.ClientRegistry.Observe | internal/service/clients.go:55-72 | an empty MAC never replaces a known one; reports whether the client is new |
| Clients.ClientRegistry.AdoptMac | internal/service/clients.go:87-94 | only a known client adopts |
| Clients.ClientRegistry.Snapshot | internal/service/clients.go:97-107 | the MACs of all clients |
| Clients.ClientRegistry.DropStale | internal/service/clients.go:111-128 | drops and returns, once each, the discovered clients not seen for the TTL and without a connection |
| Clients.ClientRegistry.ForgetNetwork | internal/service/clients.go:134-145 | keeps the static clients, without MACs |
| Mac.MacRoundTrip | internal/utils/route/route.go:282-299 | 6, 8 or 20 octets in any mix of cases and dropped zeros canonicalise to the lowercase two-digit form |
| Mac.CanonicalMAC | internal/utils/route/route.go:285-299 | the in-place loop computes the canonical form, which is its own |
| Mac.CanonicalIff | internal/utils/route/route.go:282-299 | a text has a canonical form if and only if, padded, it is 6, 8 or 20 octets written as colon pairs, dash pairs or dotted quads in either case; the form is those octets in lowercase colon pairs |
| Mac.ParseMacIff | internal/utils/route/route.go:293-296 | the parser accepts exactly the written forms, with their octets |
| Mac.CanonicalIdempotent | internal/utils/route/route.go:285-299 | canonicalising twice changes nothing |
| Mac.SameMacIffSameOctets | internal/utils/route/route.go:301-306 | true exactly when both texts parse to the same octets |
| Route.ParseArpEntry | internal/utils/route/route.go:203-225 | reads the last "at" and "on" fields; a result has a canonical MAC and an interface |
| Route.ArpRoundTrip | internal/utils/route/route.go:201-225 | every line of the documented format is read back |
| Route.ArpUnresolved | internal/utils/route/route.go:201-202 | no entry when no field after "at" is a MAC |
| Route.ArpIncomplete | internal/utils/route/route.go:201-202 | a line with "(incomplete)", or any such word, for the MAC yields no entry |
| Route.ArpNoEntry | internal/utils/route/route.go:201-202 | a "-- no entry" line yields none |
| Route.AfterLastIs | internal/utils/route/route.go:208-215 | the field after the last "at" or "on" is what is read |
| Route.PickCandidate | internal/utils/route/route.go:149-162 | the first candidate on the preferred interface, else the first |
| Route.SynRoundTrip | internal/utils/route/syn.go:38-74 | every documented tcpdump line yields the sender's IP and canonical MAC |
| Route.SynFrameMeans | internal/utils/route/syn.go:41-73 | a line that yields a frame starts with that MAC and has the dotted quad and a port in the second field after the length |
| Route.SynRefused | internal/utils/route/syn.go:41-71 | a line without a MAC in front or without such a sender yields no frame |
| Addr.PrefixMembershipIsMaskAnd | internal/utils/route/route.go:164-182 | for contiguous 4- or 16-byte masks membership is equality under the mask; when the prefix is refused |
| Addr.MembershipIsMaskAndIff | internal/utils/route/route.go:164-182 | membership is equality under the mask for every address if and only if the mask is contiguous or its last four bytes are zero |
| Addr.NonContiguousMaskCoversAll | internal/utils/route/route.go:172-181 | a mask that is not contiguous yields /0 |
| Addr.OwnAddressInSubnet | internal/service/cisco.go:107-109 | an interface address lies in its masked prefix |
| Addr.AddrTextUnique | internal/service/service.go:163-171 | a text is an address exactly when it is that address printed, so comparing texts compares addresses |
| Addr.AddrFields | internal/service/sniff.go:92 | the text has the octets in order, in decimal |
| Addr.MaskedIff | internal/service/cisco.go:107-112 | two interface addresses give the same subnet exactly if one lies in the other's, with the same length |
| Addr.PrefixAddress | internal/utils/route/route.go:166-170 | the prefix keeps the interface's own address, from 4 bytes or an IPv4-mapped 16 |
| Cisco.ParseState | internal/utils/cisco/cisco.go:86-105 | the loop over the lines reports the state of the last state line |
| Cisco.StateRoundTrip | internal/utils/cisco/cisco.go:86-105 | an output whose last state line is blanks, ">> state: ", a word and perhaps more is Connected, Disconnected or Reconnecting exactly for those words in either language, else Unknown |
| Cisco.NoStateIsUnknown | internal/utils/cisco/cisco.go:86-105 | an output without a state line is Unknown |
| Cisco.LastStateLineWins | internal/utils/cisco/cisco.go:86-93 | lines after the last state line change nothing |

## Left out

- LanProtocol: `serveLAN`, `acceptConns` and `startProxy` are steps of one transition system, not methods with loops, because they run concurrently; fairness and "eventually" are not stated, only that nothing is stuck.
- VpnLoss.SupervisedRunIsAllowed: does not cover the write of the supervisor's shutdown; the context is done by then and `startProxy` closes every connection itself.
- Pinner.Service.PinClients: is one atomic call; what interleaving changes is in `FinePins`.
- Supervisor.CiscoSupervisor.Shutdown: the timeout and the answer of the disconnect are not modelled, nothing depends on them.
- VpnLoss.NoGatedConnectionSurvives: the gated resolver is the same gate as CONNECT here; the reply the gate writes (network unreachable, section 6 of RFC 1928) is not modelled.
- Mac.CanonicalMAC: `net.ParseMAC` and `HardwareAddr.String` are restated from their documentation, as are `netip.ParseAddr` for IPv4, `Prefix.Contains`, `IPMask.Size` and `strings.Fields`; texts are sequences of characters, not bytes.
- Shell commands (`arp`, `route`, `netstat`, `tcpdump`, `pfctl`, `vpn`) and the recognition of the capability conflict in the output of connect: their outcomes are parameters.
- Sockets, interface enumeration, the SOCKS and DNS libraries: only "accept returns a connection or an error" and "a served connection ends up closed" remain.
- The sniffer's LAN poll and its retry delay: it may be stopped and started at any time, and runs as long as it likes.
- `discoveryEnabled`: whether clients are discovered is a parameter.
- The DNS forwarder, configuration checks, the warning about own addresses, the terminal UI, logging: they would only add easy members.

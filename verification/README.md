# OPNsense Hub: a verified model

This project models the stateful parts of OPNsense Hub and proves what they promise over whole
runs, all interleavings or all inputs. `dafny verify dfyconfig.toml` checks everything.

OPNsense Hub is a dashboard that reaches firewalls over a WireGuard overlay. A plugin on each
firewall enrolls it, edits the firewall's `config.xml` and brings the tunnel up; a connector on the
administrator's machine and raw TCP relays on the Hub give access to a firewall's web interface.

## How the model is built

Each component has a specification on values, the imperative code proved against it, and theorems
about the specification.

- **Raw TCP relays** (`TcpRelaySpec`, `TcpRelay`, `RelayAccess`, and the results in `RelayRuns`,
  `RelayOpens`, `RelayClients` and `RelayProgress`). `TcpRelay` is the relay manager as the object it
  is; each method is one uninterrupted section of a coroutine.
  `RelayAccess` interleaves these sections: a step is what one task does from one wait to the next,
  under the manager lock and the per-device locks. A run is any sequence of steps; a step that is
  not enabled changes nothing, so a statement about all sequences covers every interleaving. A
  request may be cancelled wherever it waits. `RelayRuns` says what revocation leaves behind and how
  requests end, `RelayOpens` when an open succeeds, `RelayClients` who is admitted and forwards, and
  `RelayProgress` that nobody waits for ever on the two locks.
- **Connector tunnels** (`ConnectorRegistry`, `ConnectorAccess`, `ConnectorSessions`). The module-level
  tables of counts, sockets and tasks, and every interleaving of tunnels with revocation. A re-check
  is two steps, because a worker thread reads the database and the tunnel sees the answer later.
  `ConnectorSessions` says what a tunnel was authorized by, from the session rows alone.
- **Tunnel isolation** (`PacketFilter`, `TunnelIsolation`, `FirewallHost`). Packets, rules, chains
  with jumps, nftables base chains on one hook, and the commands of both back ends. Rules that were
  there before are arbitrary: their matches are decided by an arbitrary environment.
- **Configuration editor** (`ConfigSpec`, `ConfigRules`, `ConfigListen`, `ConfigIntegration`,
  `ConfigEditor`) and its **WireGuard file** (`WireguardFile`).
- **Rate limiter** (`RateLimitSpec`, `RateLimitRuns`, `RateLimit`). The sliding-window table against
  a log that never forgets.
- **Addresses and peers** (`TunnelAddresses`, `PeerTable`, `WireguardPeers`) and **enrollment**
  (`EnrollmentRuns`, `Enrollment`): transactions with compensation, interleaved.
- **Byte relay** (`ByteRelay`, `RelayPipes`): any number of chunking hops over TCP and WebSocket
  (binary messages, section 5.6 of RFC 6455).
- **Hub archive** (`ArchiveRows`, `ArchiveRules`, `BackupPayloads`, `Archive`, `ArchiveStore`): export,
  parse and restore under limits. The checks of a parse are modelled on JSON, as the code makes
  them, and proved to be conditions on the database; `ArchiveRules.HUB_RULES` is the Hub's list.

`Text`, `Lists`, `Options` and `Powers` hold what several of these share.

## Where the code does less than one would expect

Each is stated exactly, with the condition under which the code does meet the expectation.

- A connector tunnel whose first re-check fails never gives its slot back, because `finally` meets
  an unbound variable; nor does one that is cancelled before it is tracked
  (`ConnectorAccess.SlotsComeBackUnlessLost`).
- A request to open a relay that finds its device revoked, and is cancelled while it waits to close
  the relay again, leaves the relay live until it expires
  (`RelayRuns.RevokedDeviceHasNoLiveRelay`, `RelayRuns.ACancelledUndoLeavesItsRelay`).
- Deleting a company closes no relay of its devices (`RelayRuns.GoneDeviceHasNoLiveRelay`,
  `RelayRuns.CompanyDeletionClosesNothing`).
- An enrollment whose `add_peer` raises anything but a `WireGuardError`, a timeout for one, or whose
  answer cannot be built afterwards, fails and keeps its device and its used code; and a compensation
  misses the audit row of a device that was deleted meanwhile
  (`EnrollmentRuns.FailedRequestsLeaveNothing`, `EnrollmentRuns.ATimeoutKeepsTheEnrollment`,
  `EnrollmentRuns.ADeletionHidesTheAuditRow`).
- With ip6tables, a drop rule that is already present is left where it is, so a rule in front of it
  may still forward tunnel packets (`TunnelIsolation.TunnelForward6`).
- The two firewall back ends differ on a host whose own INPUT chain drops: the iptables back end puts
  the Hub's rules in front of that chain's, while an accept in the Hub's nftables chain leaves the
  packet to it (`TunnelIsolation.BackEndsPartExactlyThere`, `TunnelIsolation.AClosedHostStaysClosed`).
- Hits that reach the rate limiter's lock out of order may be rejected by hits that have expired
  (`RateLimitRuns.OutOfOrderHitsPart`); by how much is bounded by the disorder
  (`RateLimitRuns.RejectionIsEarned`).
- The integration asks for two firewall rules and ends with one: the floating call takes over the
  rule that the plain call wrote. README.md:373 of the repository promises one narrow pass rule, and
  that is what a fresh configuration gets (`ConfigIntegration.IntegratingAFreshConfig`).
- A second integration drops children of a `<floating>` element (`ConfigIntegration.IntegrateTwice`).
- Restoring an archive respells stored firewall backups that are not in canonical spelling; those
  that came in by uploads and restores always are (`Archive.ArchiveRoundTrip`,
  `BackupPayloads.StoredPayloadsAreCanonical`).

Called directly, `export_backup_bundle` strips the passphrase and `parse_backup_bundle` does not
(`Archive.ExportsPassTheChecks`); no route shows this, because each cleans the passphrase first
(`Archive.RoutesAlwaysOpen`).

## Model

| member | source | states |
|---|---|---|
| `RelayRuns.RevokedDeviceHasNoLiveRelay` | dashboard/app/routers/proxy.py:546-585 | For every interleaving of open, revoke, delete, expiry, shutdown, failing starts and cancelled requests: once every open request of a device has ended and one revoke or delete of it has finished, a relay of the device is live if and only if some step of the run cancelled its request between the failed re-check and the closing, and no step closed it; without such a cancellation the device has no live relay |
| `RelayRuns.GoneDeviceHasNoLiveRelay` | dashboard/app/routers/devices.py:1112-1144 | For every interleaving: when a device is revoked or gone from the database and all its requests have ended, a relay of it is live only if it was left behind like that, unless some step of the run left nobody to close its relays: its company was deleted, or the request that would have closed them was cancelled |
| `RelayRuns.CompanyDeletionClosesNothing` | dashboard/app/routers/settings.py:1020-1050 | After every run, a device that goes with its company keeps its relays and all their handlers |
| `RelayRuns.ClosedByStep` | dashboard/app/services/tcp_relay.py:173-207 | A relay is detached by closing its device, by undoing an open of an equal allocation, by its own expiry or by the shutdown of the Hub, and by nothing else |
| `RelayRuns.LiveAfterRevokeIsUnconfirmed` | dashboard/app/routers/devices.py:1086-1107 | After a finished revoke, a relay of the device that is still live belongs to an open request that has not read the database again, or read it and was cancelled on its way to closing; and the database no longer has the device as active |
| `RelayRuns.RevocationEndsForwarding` | dashboard/app/routers/devices.py:1086-1107 | For every interleaving: once a revoke of a device has finished and all its requests have ended, a handler still forwarding for the device was cancelled if and only if the shutdown of its relay has begun; and it has begun unless some step of the run abandoned that relay, by a failing start, a cancelled request or the shutdown of the Hub |
| `RelayRuns.ACancelledUndoLeavesItsRelay` | dashboard/app/routers/proxy.py:582-585 | A concrete run in which the revocation of a device has finished, all its requests have ended and its relay is live |
| `RelayRuns.GivenUpExactlyWhen` | dashboard/app/routers/proxy.py:582-585 | A request ends with its relay left behind exactly when some step of the run cancelled it there |
| `RelayRuns.EndedExactlyWhen` | dashboard/app/routers/proxy.py:490-586 | For every interleaving: a request has succeeded, was refused, is closed or has given up if and only if a step of the run ended it so, told from the device, the locks and the request as that step found them |
| `RelayOpens.OpenedExactlyWhen` | dashboard/app/routers/proxy.py:559-586 | For every interleaving: an open of relay `id` succeeds if and only if some step of the run read the database again after that relay was published, found the device active, and its answer was committed |
| `RelayOpens.RecheckDecides` | dashboard/app/routers/proxy.py:559-586 | A re-check that does not confirm leads to closing the relay again, at whatever step of a run it is made |
| `RelayOpens.OpenedIsLiveUnlessClosed` | dashboard/app/routers/proxy.py:546-586 | After every run the relay of an open that succeeded is live if and only if no step of the run closed it |
| `RelayOpens.EveryRequestArrivedInOrder` | dashboard/app/routers/proxy.py:516-530 | After every run each request arrived at some step; unless it was refused, the device was active then, or revoked where the request is to delete it |
| `RelayOpens.RowsFollowTheSteps` | dashboard/app/routers/devices.py:1086-1137 | After every run and one more step: a device is active from its enrollment until a revoke of it commits or it goes with its company, and deleted for good once it went so or was deleted after its revocation |
| `RelayOpens.AnUndisturbedOpenServes` | dashboard/app/routers/proxy.py:490-586 | After every run: with the device active and without a relay, both locks and the port free, an open that nobody disturbs ends with a live relay of its own on that port, and nothing else has changed |
| `RelayOpens.AnOpenReplacesTheRelay` | dashboard/app/routers/proxy.py:497-506 | After every run: where the device still has a live relay, such an open closes it first, cancels its handlers, and then ends with a live relay of its own |
| `RelayOpens.TheFirstOpenServes` | dashboard/app/routers/proxy.py:490-586 | A concrete run from the start that ends with an opened, live relay |
| `RelayProgress.NoRequestIsStuck` | dashboard/app/routers/proxy.py:490-586 | No reachable state is stuck: as long as a request has not ended, some request or shutdown can go on, without a cancellation, a failure or an arrival |
| `RelayProgress.EveryRequestCanEnd` | dashboard/app/routers/proxy.py:490-586 | Every run can be continued by such steps alone to a state in which every request has ended, in spite of the two locks |
| `RelayClients.AdmittedExactlyWhen` | dashboard/app/services/tcp_relay.py:215-231 | After every run each client came to its relay at some step, and was admitted if and only if its address was allowed and the relay was then open and below its cap |
| `RelayClients.ForwarderWasConnected` | dashboard/app/services/tcp_relay.py:233-253 | A client that forwards was connected to its firewall at some step of the run at which its relay was still open |
| `RelayClients.AnUndisturbedClientForwards` | dashboard/app/services/tcp_relay.py:215-253 | After every run: a new client whose connections succeed forwards, is counted and is listed with both writers if and only if its address is allowed and its relay is open and below the cap; otherwise it does not count |
| `RelayClients.AnEndedClientLeavesNoTrace` | dashboard/app/services/tcp_relay.py:254-263 | When it ends, counter and tasks are as before it came, and its writers are gone |
| `RelayClients.CancelledHandlersEnd` | dashboard/app/services/tcp_relay.py:254-263 | After every run: delivering its cancellation ends a handler; where it forwards or connects it stops and takes back its count, task and writers, and inside `finally` it is gone at once and its count stays |
| `RelayClients.UnwantedConnectionsEnd` | dashboard/app/services/tcp_relay.py:233-263 | After every run: a client whose connection fails, or comes up after its relay was closed, forwards nothing and takes back its count, task and writers |
| `RelayRuns.AtMostOneLiveRelayPerDevice` | dashboard/app/routers/proxy.py:490-506 | Creating only under the device lock, after that device was closed, leaves at most one live relay per device in every reachable state |
| `RelayRuns.EachRelayIsLiveOrDetachedOnce` | dashboard/app/services/tcp_relay.py:105-207 | In every reachable state each dictionary entry sits under its own port, inside the range, and is neither closing nor withdrawn; every other relay was detached exactly once or withdrawn because its server did not start; created is live plus detached plus withdrawn |
| `RelayRuns.ExpiryRemovesOnlyItsOwnRelay` | dashboard/app/services/tcp_relay.py:319-329 | An expiry task ends its own relay or changes nothing, even when the port has been reused by a newer relay |
| `RelayRuns.LiveRelayCountsItsHandlers` | dashboard/app/services/tcp_relay.py:209-263 | The connection counter never exceeds the cap; on a live relay it is the number of handlers past admission, and `tasks` is the handlers still running |
| `RelayRuns.NoForwardingStartsAfterDetach` | dashboard/app/services/tcp_relay.py:245-253 | If a relay is closing after the first k steps of a run, then after the whole run every handler that forwards on it was forwarding on it already after those k steps |
| `RelayRuns.ShutdownReachesEveryForwarder` | dashboard/app/services/tcp_relay.py:336-351 | Every forwarding handler is in `tasks` with both writers in `writers`, so the shutdown snapshot reaches it; it has been cancelled if and only if the snapshot was taken; handlers of live relays are never cancelled |
| `RelayAccess.RunKeeps` | dashboard/app/services/tcp_relay.py:83-263 | Every run of steps keeps the invariant that ties dictionary, locks, counters, tasks, shutdowns and requests together |
| `RelayAccess.LocksMove` | dashboard/app/routers/proxy.py:497-513 | A step that takes or gives back a lock leaves every device lock and the manager lock with exactly the request that is inside it |
| `RelayAccess.DetachEmpties` | dashboard/app/services/tcp_relay.py:182-191 | Closing a device leaves none of its relays live |
| `TcpRelaySpec.DetachStep` | dashboard/app/services/tcp_relay.py:190-191 | Detaching relays one after another, in whatever order the dictionary yields, is detaching the set |
| `TcpRelaySpec.DetachSetConsistent` | dashboard/app/services/tcp_relay.py:331-334 | Detaching a set of live relays removes exactly these from the dictionary and keeps it consistent |
| `TcpRelaySpec.PublishConsistent` | dashboard/app/services/tcp_relay.py:145-154 | Publishing on a free port keeps the dictionary consistent |
| `TcpRelaySpec.WithdrawConsistent` | dashboard/app/services/tcp_relay.py:157-161 | Popping a relay whose server did not start takes it, and no other, out of the dictionary |
| `TcpRelay.TcpRelayManager.CreateRelay` | dashboard/app/services/tcp_relay.py:101-171 | The first candidate port that is neither taken nor refused by the system gets the relay, unless its server does not start to serve: then the port is free again and the relay is withdrawn without being marked closing; there is no such port exactly when every port of the range is taken or refused, and then nothing changes |
| `TcpRelay.TcpRelayManager.CloseAllocation` | dashboard/app/services/tcp_relay.py:173-180 | Closes the relay whose allocation equals the given one, or nothing |
| `TcpRelay.TcpRelayManager.CloseDevice` | dashboard/app/services/tcp_relay.py:182-196 | Detaches exactly the live relays of the device and returns how many there were |
| `TcpRelay.TcpRelayManager.CloseAll` | dashboard/app/services/tcp_relay.py:198-207 | Detaches every live relay and returns how many there were |
| `TcpRelay.TcpRelayManager.ExpireRelay` | dashboard/app/services/tcp_relay.py:323-326 | Detaches the relay only if its port still maps to this very object |
| `TcpRelay.TcpRelayManager.DetachRelay` | dashboard/app/services/tcp_relay.py:331-334 | Marks the relay closing and frees its port |
| `TcpRelay.TcpRelayManager.BeginClient` | dashboard/app/services/tcp_relay.py:215-231 | Admission of a client: not closing, allowed peer, below the cap; counts it and registers its writer |
| `TcpRelay.TcpRelayManager.UpstreamOpened` | dashboard/app/services/tcp_relay.py:245-247 | Forwarding is prepared only if the relay was not closed while the upstream connection was opened |
| `TcpRelay.TcpRelayManager.EndClient` | dashboard/app/services/tcp_relay.py:254-263 | What the end of a handler takes back |
| `ConnectorAccess.NoLiveTunnelAfterPop` | dashboard/app/routers/proxy.py:640-675 | For every interleaving: after a revoke has popped a device's tunnels, each of them that passed a re-check, is being accepted or is relaying has already been cancelled |
| `ConnectorAccess.NothingAcceptedAfterPop` | dashboard/app/routers/proxy.py:869-912 | ... and no tunnel of the device reaches acceptance from then on: every other one fails a re-check |
| `ConnectorAccess.CounterIsHolders` | dashboard/app/routers/proxy.py:597-603 | A session's counter is the number of its tunnels that hold a slot, and never above the cap |
| `ConnectorAccess.SlotsComeBackUnlessLost` | dashboard/app/routers/proxy.py:616-637 | When all tunnels of a session are over, its counter is gone if and only if no step of the run made one of them lose its slot: a cancellation before it is tracked, a failed or raising first re-check, or a cancellation before `agent` is bound or inside `finally` |
| `ConnectorAccess.LostExactlyWhen` | dashboard/app/routers/proxy.py:865-877 | Over a whole run, a tunnel ends without releasing its slot if and only if some step of the run was such a one |
| `ConnectorAccess.AFailedFirstRecheckKeepsItsSlot` | dashboard/app/routers/proxy.py:871-875 | A concrete run in which a slot never comes back: the early return meets an unbound `agent` in `finally` |
| `ConnectorAccess.StepKeeps` | dashboard/app/routers/proxy.py:597-675 | Every step keeps: counters, tracked tunnels and cancellations agree with where the tunnels are |
| `ConnectorSessions.EveryTunnelArrivedInOrder` | dashboard/app/services/proxy_auth.py:158-200 | After every run each tunnel arrived at some step with its session and device; unless it was turned away, the session row was then for that very device and valid, and the device not revoked |
| `ConnectorSessions.RejectedExactlyWhen` | dashboard/app/routers/proxy.py:841-866 | Over a whole run a tunnel is rejected if and only if its session was not in order when it arrived, or had no slot left when it asked for one |
| `ConnectorSessions.RowsFollowTheSteps` | dashboard/app/routers/proxy.py:665-675 | Over a whole run a device is revoked exactly when some step committed that, its tunnels were popped exactly when some step did so after that, and a session is valid until some step ends it |
| `ConnectorSessions.AcceptedWasConfirmedTwice` | dashboard/app/routers/proxy.py:871-912 | A tunnel that is being accepted or is relaying read the database at two steps of the run, for its first re-check and for its second, and at both its session was for its device and valid and the device not revoked |
| `ConnectorSessions.AnswersSayWhatTheRowsSay` | dashboard/app/routers/proxy.py:703-713 | A re-check answers yes exactly when the rows say so at that step |
| `ConnectorSessions.AnUndisturbedTunnelRelays` | dashboard/app/routers/proxy.py:841-912 | After every run: a new tunnel that nobody disturbs comes to relay bytes, counted and tracked, if and only if its session is for its device and valid, the device is not revoked, and a slot is left; otherwise it leaves the tables alone |
| `ConnectorSessions.AnEndedTunnelLeavesNoTrace` | dashboard/app/routers/proxy.py:616-637 | When such a tunnel ends, all three tables are exactly as before it came |
| `ConnectorSessions.PopCancelsItsOwn` | dashboard/app/routers/proxy.py:665-675 | After every run: revoking a device cancels every tracked tunnel of it, no tunnel of another, and gives no slot back |
| `ConnectorSessions.CancelledOnlyLeaves` | dashboard/app/routers/proxy.py:640-663 | After every run: a tunnel that was cancelled only leaves; at most the answer of its worker thread still comes back |
| `ConnectorSessions.ShutdownCancelsTheTracked` | dashboard/app/routers/proxy.py:678-697 | After every run: the shutdown of the Hub cancels every tracked tunnel and no other, and empties the tables of tunnels |
| `ConnectorRegistrySpec.MembersAfter` | dashboard/app/routers/proxy.py:606-637 | What tracking, releasing and popping do to the tracked tunnels of each device |
| `ConnectorRegistry.ConnectorTables.Reserve` | dashboard/app/routers/proxy.py:597-603 | Takes a slot unless the session is at its cap |
| `ConnectorRegistry.ConnectorTables.Track` | dashboard/app/routers/proxy.py:606-613 | Adds the tunnel to its device's sockets and tasks |
| `ConnectorRegistry.ConnectorTables.Release` | dashboard/app/routers/proxy.py:616-637 | Gives the slot back and forgets the tunnel, and empty entries with it |
| `ConnectorRegistry.ConnectorTables.PopDevice` | dashboard/app/routers/proxy.py:667-669 | Forgets and returns exactly the device's sockets and tasks |
| `TunnelIsolation.TunnelInputIsDecidedAlike` | dashboard/app/hardening.py:451-499 | Whatever rules were there before, a packet from the tunnel to the Hub gets the policy's verdict from iptables or ip6tables, and that is the verdict of the nftables chain |
| `TunnelIsolation.NftInputIsThePolicy` | dashboard/app/hardening.py:561-627 | The nftables input chain lets tunnel packets through exactly as the policy says, the forward chain none; both let packets of other interfaces through |
| `TunnelIsolation.BackEndsPartExactlyThere` | dashboard/app/hardening.py:539-627 | On one host, with any base chains around iptables' INPUT chain and the Hub's nftables chain at any priority, in both families: the two back ends part on a tunnel packet exactly where the policy permits it, every other base chain lets it through and the old INPUT chain drops it |
| `TunnelIsolation.AClosedHostStaysClosed` | dashboard/app/hardening.py:539-627 | A concrete host where they part: its INPUT chain drops by policy; the iptables back end opens the control port to the tunnel, and with the nftables back end the connection is dropped |
| `TunnelIsolation.AcceptedExactlyWhen` | dashboard/app/hardening.py:390-413 | Both back ends accept the settings if and only if network and address are IPv4, the address lies in the network, and the port is 1 to 65535 |
| `TunnelIsolation.IptablesIsolatesTheTunnel` | dashboard/app/hardening.py:680-714 | After an accepted installation, on whatever chains there were: a packet from the interface of the settings passes INPUT if and only if its connection is known, or it is a new TCP connection from HUB_WG_CIDR to the Hub's address and control port; none is forwarded over IPv4; packets of other interfaces keep their verdict in both chains and both families |
| `TunnelIsolation.NftablesIsolatesTheTunnel` | dashboard/app/hardening.py:531-627 | The same of the settings for the nftables table, its chains standing anywhere on their hooks |
| `TunnelIsolation.OnlyTheTunnelConnects` | dashboard/app/hardening.py:390-499 | After an accepted installation a new connection to the control port passes INPUT if and only if its source lies in the aligned block of addresses that HUB_WG_CIDR names |
| `TunnelIsolation.NetworksAreBlocks` | dashboard/app/hardening.py:390-395 | An address is in a network exactly when it lies in the aligned block of the network's size around the address it is written with |
| `PacketFilter.HookAsksEveryone` | dashboard/app/hardening.py:539-627 | A hook passes a packet exactly when each of its base chains does; an accept ends one base chain only |
| `PacketFilter.HookAround` | dashboard/app/hardening.py:539-627 | A base chain put anywhere on a hook adds its own verdict and no more |
| `TunnelIsolation.TunnelForwardIsDropped4` | dashboard/app/hardening.py:691-694 | No IPv4 packet from the tunnel is forwarded; with nftables no packet of either family is, whatever other base chains say |
| `TunnelIsolation.TunnelForward6` | dashboard/app/hardening.py:702-714 | Where only the input chain jumps into the Hub's chain: an IPv6 packet from the tunnel is forwarded if and only if the drop rule was there before and the old rules in front of it let the packet through |
| `TunnelIsolation.NothingForwarded6` | dashboard/app/hardening.py:702-714 | Nothing is forwarded where the drop rule was missing or stood first |
| `TunnelIsolation.TunnelForward6Anyway` | dashboard/app/hardening.py:702-714 | The same equivalence for any ruleset, the rules in front of the drop rule being read with the Hub's chain in place |
| `TunnelIsolation.AnOlderAcceptStillForwards` | dashboard/app/hardening.py:702-703 | A concrete ruleset for that: the present drop rule is not moved to the top |
| `TunnelIsolation.OtherTrafficKeepsItsVerdict` | dashboard/app/hardening.py:640-714 | A packet from any other interface keeps its verdict in INPUT and FORWARD, in both families, in any ruleset whose jumps into the Hub's chains are restricted to the tunnel; and on an nftables hook, wherever the Hub's base chain is put |
| `TunnelIsolation.LastInstallationWins` | dashboard/app/hardening.py:680-714 | Installing again, with the same or other settings for the interface, leaves what the last installation alone would leave |
| `TunnelIsolation.DropRuleCuts` | dashboard/app/hardening.py:702-714 | For a packet from the tunnel a rule list ends at the Hub's drop rule |
| `PacketFilter.UnreachedChainsDoNotMatter` | dashboard/app/hardening.py:680-714 | What is in chains that a packet never reaches does not matter to it |
| `PacketFilter.RemovingKeepsVerdict` | dashboard/app/hardening.py:656-666 | Deleting a rule that does not apply to a packet keeps the packet's verdict |
| `PacketFilter.PassingRulesDoNotMatter` | dashboard/app/hardening.py:539-627 | A rule that decides nothing, a counter or a log, may stand anywhere |
| `PacketFilter.ReturnEndsTheChain` | dashboard/app/hardening.py:539-627 | A return that applies hides the rest of its chain |
| `FirewallHost.EnsureChain` | dashboard/app/hardening.py:630-637 | The chain exists and is empty, whether or not it was there |
| `FirewallHost.InstallJump` | dashboard/app/hardening.py:640-677 | The jump stands first in its parent chain, and an older copy is gone |
| `FirewallHost.InstallIptables` | dashboard/app/hardening.py:680-714 | Command by command: succeeds exactly for IPv4 settings with the Hub inside the network and a valid port; refused settings change nothing, otherwise both tables end as `IptablesIsolatesTheTunnel` says |
| `FirewallHost.VerifyIptables` | dashboard/app/hardening.py:502-528 | Passes exactly when every required rule is in its chain |
| `FirewallHost.InstallationVerifies` | dashboard/app/hardening.py:502-528 | What an installation leaves always passes the verification |
| `FirewallHost.InstallNftables` | dashboard/app/hardening.py:531-627 | Succeeds for exactly these settings, and then an older table of the Hub is replaced by exactly its two chains, as `NftablesIsolatesTheTunnel` says |
| `ConfigIntegration.IntegrateTwice` | net-mgmt/os-opnsensehub/src/opnsense/scripts/OPNsense/OPNsenseHub/connect.py:695-720 | Integrating twice with one payload, at any two times, leaves what integrating once leaves, if and only if the rule that the floating call takes over had nothing inside `<floating>`; either way the rule that lets the Hub in is there |
| `ConfigIntegration.CleanupUndoesIntegration` | net-mgmt/os-opnsensehub/src/opnsense/scripts/OPNsense/OPNsenseHub/connect.py:662-683 | Cleanup after an integration gives back the interfaces and the rules, each if and only if nothing of it was the Hub's before, and the listen values if the key was not among them before, and only then unless a node named it in children and text |
| `ConfigIntegration.IntegratingAFreshConfig` | net-mgmt/os-opnsensehub/src/opnsense/scripts/OPNsense/OPNsenseHub/connect.py:695-720 | On a configuration without Hub artefacts and without a reference to the fresh key: the key is the least unused `optN`, an interface under it carries the tunnel, exactly one rule is added, the floating rule that lets the Hub in, and cleanup gives everything back |
| `ConfigIntegration.IntegrationLetsTheHubIn` | net-mgmt/os-opnsensehub/src/opnsense/scripts/OPNsense/OPNsenseHub/connect.py:695-720 | For every configuration, told from payload and configuration alone: afterwards an interface carries `wgopnhub` with the firewall's address, and an inbound floating rule on that interface passes TCP from the Hub's /32 to the firewall's /32 and the WebGUI's port; a rule is added only if none matched, and rules that are not the Hub's stay |
| `ConfigIntegration.PortAnswers` | net-mgmt/os-opnsensehub/src/opnsense/scripts/OPNsense/OPNsenseHub/connect.py:501-509 | The port is the stripped one of the WebGUI where it is set, else 80 exactly for plain http, else 443 |
| `ConfigIntegration.TrafficIsHubTraffic` | net-mgmt/os-opnsensehub/src/opnsense/scripts/OPNsense/OPNsenseHub/connect.py:544-555 | The match by traffic holds exactly for rules that pass TCP on the tunnel interface from the Hub's address to the WebGUI's |
| `ConfigIntegration.FirstOfOursIsTaken` | net-mgmt/os-opnsensehub/src/opnsense/scripts/OPNsense/OPNsenseHub/connect.py:469-487 | The first interface with the tunnel's device or the Hub's description is taken over and no interface is added; when there is none, one is appended under the least `optN` that none has |
| `ConfigRules.OtherRulesStay` | net-mgmt/os-opnsensehub/src/opnsense/scripts/OPNsense/OPNsenseHub/connect.py:583-600 | A rule is added exactly when the plain call matches none, and a rule that neither call matches stays as and where it was |
| `ConfigIntegration.NestedFloatingIsLost` | net-mgmt/os-opnsensehub/src/opnsense/scripts/OPNsense/OPNsenseHub/connect.py:561-572 | A concrete rule for which a second integration changes something |
| `ConfigIntegration.EnsureAssignedTwice` | net-mgmt/os-opnsensehub/src/opnsense/scripts/OPNsense/OPNsenseHub/connect.py:464-498 | Assigning the interface twice is assigning it once, also when several children share a tag |
| `ConfigIntegration.CleanupRestoresInterfaces` | net-mgmt/os-opnsensehub/src/opnsense/scripts/OPNsense/OPNsenseHub/connect.py:646-659 | Removing the assigned interface gives the list back if and only if none was assigned before |
| `ConfigIntegration.FoundAgain` | net-mgmt/os-opnsensehub/src/opnsense/scripts/OPNsense/OPNsenseHub/connect.py:469-487 | After an integration the first matching interface is the one that was configured, under the same key |
| `ConfigIntegration.ConfiguredInterface` | net-mgmt/os-opnsensehub/src/opnsense/scripts/OPNsense/OPNsenseHub/connect.py:490-496 | Configuring an interface twice is configuring it once |
| `ConfigIntegration.InterfaceTexts` | net-mgmt/os-opnsensehub/src/opnsense/scripts/OPNsense/OPNsenseHub/connect.py:490-496 | What the assigned interface says; other children of it stay |
| `ConfigSpec.FreshIndex` | net-mgmt/os-opnsensehub/src/opnsense/scripts/OPNsense/OPNsenseHub/connect.py:478-483 | The fresh key is the least `optN` that is not in use, found within one more try than there are keys in use |
| `ConfigSpec.TriedFits` | net-mgmt/os-opnsensehub/src/opnsense/scripts/OPNsense/OPNsenseHub/connect.py:478-483 | Keys tried in vain are different keys in use, so there are no more of them than keys in use |
| `ConfigRules.EnsureRulesTwice` | net-mgmt/os-opnsensehub/src/opnsense/scripts/OPNsense/OPNsenseHub/connect.py:583-600 | Both rule calls, run again at any later time, change nothing, exactly under that condition, although the plain call first takes the floating rule over |
| `ConfigRules.EnsuredRules` | net-mgmt/os-opnsensehub/src/opnsense/scripts/OPNsense/OPNsenseHub/connect.py:583-600 | The plain call leaves a rule that the floating call matches, so the floating call never adds one; where it lands |
| `ConfigRules.OneFloatingRule` | net-mgmt/os-opnsensehub/src/opnsense/scripts/OPNsense/OPNsenseHub/connect.py:705-718 | Rules that have nothing to do with the Hub stay as they are and one rule is added, floating, inbound, for the Hub's traffic |
| `ConfigRules.CleanupRestoresRules` | net-mgmt/os-opnsensehub/src/opnsense/scripts/OPNsense/OPNsenseHub/connect.py:603-613 | Removing the Hub's rules after an integration gives the list back if and only if no rule was the Hub's by description or by traffic |
| `ConfigRules.Configured` | net-mgmt/os-opnsensehub/src/opnsense/scripts/OPNsense/OPNsenseHub/connect.py:544-555 | A configured rule matches both calls afterwards, by description and by traffic |
| `ConfigRules.ConfiguredInbound` | net-mgmt/os-opnsensehub/src/opnsense/scripts/OPNsense/OPNsenseHub/connect.py:562-567 | A configured rule is inbound, quick and keeps state |
| `ConfigRules.OtherChildrenStay` | net-mgmt/os-opnsensehub/src/opnsense/scripts/OPNsense/OPNsenseHub/connect.py:558-580 | Children that the configuration does not name survive it |
| `ConfigRules.ConfigureAgain` | net-mgmt/os-opnsensehub/src/opnsense/scripts/OPNsense/OPNsenseHub/connect.py:558-580 | Reconfiguring a floating rule as a plain one and back is the identity exactly when `<floating>` had no children |
| `ConfigListen.CleanupRestoresListening` | net-mgmt/os-opnsensehub/src/opnsense/scripts/OPNsense/OPNsenseHub/connect.py:616-643 | Removing the key gives the listen values back if the key was not among them before; and only then, unless a node named the key in its children and in its text |
| `ConfigListen.RemoveUndoesAdd` | net-mgmt/os-opnsensehub/src/opnsense/scripts/OPNsense/OPNsenseHub/connect.py:512-541 | ... and the very nodes too, unless the list is one comma-separated text |
| `ConfigListen.Added` | net-mgmt/os-opnsensehub/src/opnsense/scripts/OPNsense/OPNsenseHub/connect.py:521-541 | In each of the three shapes the WebGUI afterwards listens on the key and on everything it listened on before; an empty list is left to mean everywhere |
| `ConfigListen.AddedInItsShape` | net-mgmt/os-opnsensehub/src/opnsense/scripts/OPNsense/OPNsenseHub/connect.py:532-541 | The key joins as another child of the first node, in its one text with commas, or as a node of its own, and everything else stays |
| `ConfigListen.AddTwice` | net-mgmt/os-opnsensehub/src/opnsense/scripts/OPNsense/OPNsenseHub/connect.py:529-530 | Adding the key twice is adding it once |
| `ConfigListen.Removed` | net-mgmt/os-opnsensehub/src/opnsense/scripts/OPNsense/OPNsenseHub/connect.py:622-643 | After removal the key is among the listen values if and only if a node has children that are all the key and a text that names it too |
| `ConfigListen.JoinedValues` | net-mgmt/os-opnsensehub/src/opnsense/scripts/OPNsense/OPNsenseHub/connect.py:536-537 | Values survive being joined with commas and split again |
| `ConfigEditor.ConfigureFirewallRule` | net-mgmt/os-opnsensehub/src/opnsense/scripts/OPNsense/OPNsenseHub/connect.py:558-580 | Edit by edit, the rule ends as specified; an unset `changed` means an unchanged rule |
| `ConfigEditor.ConfigureAssigned` | net-mgmt/os-opnsensehub/src/opnsense/scripts/OPNsense/OPNsenseHub/connect.py:490-496 | The same for the assigned interface |
| `ConfigEditor.SetChildText` | net-mgmt/os-opnsensehub/src/opnsense/scripts/OPNsense/OPNsenseHub/connect.py:448-453 | Changes the text of one child, made if missing; reports exactly whether anything changed |
| `ConfigEditor.RemoveChild` | net-mgmt/os-opnsensehub/src/opnsense/scripts/OPNsense/OPNsenseHub/connect.py:456-461 | Removes one child; reports exactly whether anything changed |
| `ConfigEditor.Document.FreshKey` | net-mgmt/os-opnsensehub/src/opnsense/scripts/OPNsense/OPNsenseHub/connect.py:479-483 | The counting loop ends at the least unused key |
| `ConfigEditor.Document.EnsureAssignedInterface` | net-mgmt/os-opnsensehub/src/opnsense/scripts/OPNsense/OPNsenseHub/connect.py:464-498 | Finds or makes the interface and configures it |
| `ConfigEditor.Document.EnsureFirewallRule` | net-mgmt/os-opnsensehub/src/opnsense/scripts/OPNsense/OPNsenseHub/connect.py:583-600 | Configures the first matching rule or appends a new one |
| `ConfigEditor.Document.EnsureListenInterface` | net-mgmt/os-opnsensehub/src/opnsense/scripts/OPNsense/OPNsenseHub/connect.py:512-541 | Adds the key to the listen list in its shape |
| `ConfigEditor.Document.RemoveListenInterface` | net-mgmt/os-opnsensehub/src/opnsense/scripts/OPNsense/OPNsenseHub/connect.py:616-643 | Removes the key from every listen node, and nodes that become empty |
| `ConfigEditor.Document.RemoveMatchingRules` | net-mgmt/os-opnsensehub/src/opnsense/scripts/OPNsense/OPNsenseHub/connect.py:603-613 | Removes exactly the rules with one of the two descriptions |
| `ConfigEditor.Document.RemoveAssignedInterface` | net-mgmt/os-opnsensehub/src/opnsense/scripts/OPNsense/OPNsenseHub/connect.py:646-659 | Removes the first matching interface |
| `ConfigEditor.Document.EnsureIntegration` | net-mgmt/os-opnsensehub/src/opnsense/scripts/OPNsense/OPNsenseHub/connect.py:695-720 | The whole integration: the document ends as specified, with the tunnel carried and the Hub let in over it; an unset `changed` means an unchanged document, so skipping the write loses nothing |
| `ConfigEditor.Document.CleanUp` | net-mgmt/os-opnsensehub/src/opnsense/scripts/OPNsense/OPNsenseHub/connect.py:662-683 | The whole cleanup, with the same promise for `changed` |
| `WireguardFile.LoadsWhatWasRendered` | net-mgmt/os-opnsensehub/src/opnsense/scripts/OPNsense/OPNsenseHub/connect.py:420-438 | Loading a rendered file gives the stripped values of all single-line inputs, or nothing when a required one is blank, although keys contain `=` and comment lines stand between |
| `WireguardFile.RoundTrip` | net-mgmt/os-opnsensehub/src/opnsense/scripts/OPNsense/OPNsenseHub/connect.py:262-277 | All five fields come back if and only if the four texts are trimmed and not empty |
| `WireguardFile.LoadWireguardConfig` | net-mgmt/os-opnsensehub/src/opnsense/scripts/OPNsense/OPNsenseHub/connect.py:420-438 | The line loop loads what the specification says |
| `WireguardFile.KeyValue` | net-mgmt/os-opnsensehub/src/opnsense/scripts/OPNsense/OPNsenseHub/connect.py:427-428 | A line splits at its first `=`, and name and value lose their blanks |
| `WireguardFile.SplitUnlines` | net-mgmt/os-opnsensehub/src/opnsense/scripts/OPNsense/OPNsenseHub/connect.py:424 | Lines written one after another are the lines read |
| `RateLimitRuns.FollowsTheLog` | dashboard/app/security/rate_limit.py:55-73 | When hits take the lock in the order of their times, a key that was not evicted is admitted exactly when a log that never forgets would admit it, and its bucket holds exactly the hits that a later window can still count |
| `RateLimitRuns.DecidesLikeTheLog` | dashboard/app/security/rate_limit.py:64-73 | In that order, the decision on the next hit is the log's decision |
| `RateLimitRuns.OutOfOrderHitsPart` | dashboard/app/security/rate_limit.py:56-73 | Two hits that take the lock out of order, after which the limiter rejects a hit that the log admits: an expired hit is kept behind one that is not |
| `RateLimitRuns.NoMoreThanTheLimit` | dashboard/app/security/rate_limit.py:52-73 | For every run, in whatever order the hits take the lock: limit-plus-one successive admitted hits of a key that was not evicted span the window it was called with, less the skew of the run |
| `RateLimitRuns.AdmittedHitsSpanTheWindow` | dashboard/app/security/rate_limit.py:69-73 | In the log, limit-plus-one successive admitted hits span at least the window |
| `RateLimitRuns.RejectionIsEarned` | dashboard/app/security/rate_limit.py:71-72 | For every run, evictions or not: a rejected hit had at least `limit` admitted hits in its window, the window taken longer by the skew of the run |
| `RateLimitRuns.LostAreExpired` | dashboard/app/security/rate_limit.py:36-70 | Whatever a bucket has lost without an eviction had expired by the latest time any hit read |
| `RateLimitRuns.HoldsTheLatest` | dashboard/app/security/rate_limit.py:69-73 | A bucket holds a suffix of the key's admitted hits |
| `RateLimitRuns.RunIsBounded` | dashboard/app/security/rate_limit.py:63-64 | The limiter never holds more than its maximum of buckets, one per key |
| `RateLimitRuns.EvictionIsLeastRecentlyUsed` | dashboard/app/security/rate_limit.py:62-68 | A key is evicted only if at least as many other keys as there are buckets were hit since its own last hit |
| `RateLimitRuns.EvictedExactlyWhen` | dashboard/app/security/rate_limit.py:62-68 | Over a whole run a key was evicted if and only if some hit left it without a bucket although it still had hits inside its window |
| `RateLimitRuns.PruneHits` | dashboard/app/security/rate_limit.py:36-50 | Global pruning acts on each key as dropping that key's expired hits alone |
| `RateLimitSpec.WindowReadsBack` | dashboard/app/security/rate_limit.py:39-43 | The window that pruning reads out of a key is the window printed into it, whatever the other parts contain |
| `RateLimitSpec.KeyCutoff` | dashboard/app/security/rate_limit.py:58 | Pruning and the hit itself use the same cutoff |
| `RateLimitSpec.SharedBuckets` | dashboard/app/security/rate_limit.py:52-53 | Two hits share a bucket exactly when window and text in front of it agree; where no bucket name contains a colon, exactly when bucket, key and window all agree |
| `RateLimitSpec.AColonMixesBuckets` | dashboard/app/security/rate_limit.py:52-53 | A concrete pair of names that share a bucket because one contains a colon |
| `RateLimit.MemoryRateLimitBackend.Hit` | dashboard/app/security/rate_limit.py:55-73 | The locked code, loop by loop, does to the table what the specification says and admits what it admits |
| `RateLimit.MemoryRateLimitBackend.PruneExpired` | dashboard/app/security/rate_limit.py:36-50 | The two pruning loops drop every expired hit and every bucket left empty |
| `RateLimit.MemoryRateLimitBackend.constructor` | dashboard/app/security/rate_limit.py:31-34 | At least one bucket; zero and absent mean the configured number |
| `RateLimit.MemoryRateLimitBackend.Clear` | dashboard/app/security/rate_limit.py:75-77 | Forgets everything |
| `TunnelAddresses.AllocationIsLeastFree` | dashboard/app/wireguard.py:351-382 | Allocation gives the least usable host that neither the Hub nor a stored row has; it reports exhaustion exactly when all rows pass and none is free; any other error is the complaint about some row |
| `TunnelAddresses.AddressesStayDistinct` | dashboard/app/wireguard.py:351-382 | Over every run of enrollments, deletions and restores all device addresses are distinct hosts inside the network and not the Hub's, so the allocator never fails on a stored row |
| `TunnelAddresses.ValidatedIsSound` | dashboard/app/wireguard.py:72-100 | Settings are accepted if and only if they are an IPv4 network from /1 to /30, /12 or narrower unless broad networks are allowed, with the Hub on an address of it that is neither the first nor the last |
| `TunnelAddresses.RefusalsSayWhy` | dashboard/app/wireguard.py:72-100 | Each refusal of the settings names its reason, and the reasons are told apart exactly |
| `TunnelAddresses.ExhaustionNeedsDevices` | dashboard/app/wireguard.py:378-382 | The pool runs out only when every host but the Hub's belongs to a device |
| `TunnelAddresses.NextFreeTunnelIp` | dashboard/app/wireguard.py:351-382 | Both loops of the allocator compute that result |
| `TunnelAddresses.RestoreKeepsDistinct` | dashboard/app/services/backup_service.py:341-371 | A backup's addresses are accepted if and only if they are distinct hosts other than the Hub, and are restored as they are |
| `TunnelAddresses.ValidateRestoredIps` | dashboard/app/services/backup_service.py:341-371 | The loop with its `seen` set computes that result |
| `PeerTable.ReconcileIsExact` | dashboard/app/services/backup_service.py:1122-1133 | From any runtime table, whatever the bootstrap set first: exactly one peer per device with exactly its /32, if and only if no two devices share an address |
| `PeerTable.OrderDoesNotMatter` | dashboard/app/services/backup_service.py:1128-1133 | The result does not depend on the order of devices and peers |
| `PeerTable.KeepsItsRoute` | dashboard/app/wireguard.py:427-436 | A peer keeps the route it was given until the route is given to another |
| `PeerTable.SetPeerKeepsExclusive` | dashboard/app/wireguard.py:427-436 | No route ever stands under two peers |
| `PeerTable.KeysAreBase64` | dashboard/app/wireguard.py:19-69 | A key is well-formed exactly when it is 43 characters of the Base64 alphabet, the padding, and at most one newline |
| `WireguardPeers.WireguardInterface.AddPeer` | dashboard/app/wireguard.py:411-436 | Succeeds exactly for a well-formed key and an IPv4 address inside the network that is not the Hub's; then the peer has that /32 and nothing else, and every other peer has lost it |
| `WireguardPeers.WireguardInterface.RemovePeer` | dashboard/app/wireguard.py:545-552 | Removes exactly that peer |
| `WireguardPeers.WireguardInterface.SyncPeers` | dashboard/app/wireguard.py:307-313 | Sets peers in order up to the first refused device |
| `WireguardPeers.WireguardInterface.Reconcile` | dashboard/app/services/backup_service.py:1122-1133 | Bootstrap, removal of the unexpected and setting again, loop by loop |
| `EnrollmentRuns.UsedCodesAreEnrollments` | dashboard/app/routers/enrollment.py:41-52 | For every interleaving and every failure point: a code is used exactly while one request with it has its enrollment committed, whether it succeeded, is not done, or ended by an exception after its commit; and there is only one such request |
| `EnrollmentRuns.FailedRequestsLeaveNothing` | dashboard/app/routers/enrollment.py:55-71 | A request that ended without success holds no claim and has no device, event or audit row if and only if no step of the run raised out of it after its commit (out of `add_peer` with anything but a `WireGuardError`, out of the compensation, or out of the answer) and none deleted its device |
| `EnrollmentRuns.ATimeoutKeepsTheEnrollment` | dashboard/app/routers/enrollment.py:170-182 | A concrete run: `add_peer` times out, the request fails, and code, device, event and audit row stay |
| `EnrollmentRuns.ADeletionHidesTheAuditRow` | dashboard/app/routers/enrollment.py:55-71 | A concrete run: the device is deleted while its peer is being added, the peer is refused, and the compensation misses the audit row, which no longer names the device |
| `EnrollmentRuns.DeletedExactlyWhen` | dashboard/app/routers/devices.py:1112-1137 | A device counts as deleted exactly when some step of the run deleted it |
| `EnrollmentRuns.KeptExactlyWhen` | dashboard/app/routers/enrollment.py:170-195 | A request ends with its enrollment kept exactly when such a step raised |
| `EnrollmentRuns.DoneExactlyWhen` | dashboard/app/routers/enrollment.py:170-195 | Over a whole run a request has succeeded if and only if some step answered it after its peer was added and while its device was in the database |
| `EnrollmentRuns.CompletedRequestsLeaveADevice` | dashboard/app/routers/enrollment.py:137-168 | A request that succeeded left its device under its key, its event and its audit row; once the device is deleted, an audit row without its name |
| `EnrollmentRuns.DevicesStayDistinct` | dashboard/app/routers/enrollment.py:148-155 | Devices always have distinct keys and distinct host addresses that are not the Hub's, although addresses are picked before they are locked |
| `EnrollmentRuns.AllocatedWasLeastFree` | dashboard/app/wireguard.py:351-382 | After every run: the address that a request holds was the least free one of the database when it was picked |
| `EnrollmentRuns.CompensationUndoesCommit` | dashboard/app/routers/enrollment.py:170-182 | Commit, failed peer add and compensation leave the database as a failed commit would |
| `EnrollmentRuns.ClaimKeepsCodes` | dashboard/app/routers/enrollment.py:41-52 | The conditional update lets at most one of several requests claim a code |
| `EnrollmentRuns.StepKeeps` | dashboard/app/routers/enrollment.py:95-182 | Every step keeps codes, rows, ids and requests in agreement |
| `EnrollmentRuns.AnUndisturbedRequestEnrolls` | dashboard/app/routers/enrollment.py:95-195 | After every run: a request that nobody disturbs enrolls if and only if its code is unused and unexpired; then code, device, event and audit row are exactly as they should be, and otherwise nothing has changed |
| `Enrollment.Session.EnrollDevice` | dashboard/app/routers/enrollment.py:95-182 | One request, statement by statement: it is refused as invalid exactly when the OTP opens no stored, unused, unexpired code; a success, and an exception after the commit, uses up the first such code and leaves exactly the device with key and free address, event and audit row; a conflict means that a device has the key or the address; any other failure changes nothing |
| `Enrollment.Session.ClaimCode` | dashboard/app/routers/enrollment.py:41-52 | Changes one row, and says so, exactly when the code is there, unused and not expired |
| `Enrollment.Session.CompensateFailedPeerAdd` | dashboard/app/routers/enrollment.py:55-71 | Takes device, event and audit row away and frees the code |
| `Enrollment.Session.AddPeerAndAnswer` | dashboard/app/routers/enrollment.py:170-195 | After the commit: added and answered, refused and undone, or an exception that leaves everything as committed |
| `Enrollment.UndoneIsBefore` | dashboard/app/routers/enrollment.py:55-71 | The compensation takes back exactly what a success leaves |
| `Enrollment.UsableIsThere` | dashboard/app/routers/enrollment.py:98-108 | The matched code is the first, in the order of the rows, that is stored, unused and unexpired and that the OTP opens; none is matched exactly when no row is such a code |
| `ByteRelay.DeliveredIsPrefixOfSent` | dashboard/app/routers/proxy.py:730-811 | Over any number of hops, for any chunks and any cancellation: what came out is a prefix of what was sent |
| `ByteRelay.QuietMeansDelivered` | connector/opnsense_hub_connector.py:293-305 | When no hop was stopped and nothing is on its way, everything sent has come out |
| `ByteRelay.EverythingSentCanArrive` | connector/opnsense_hub_connector.py:293-305 | As long as no foreign frame comes and nothing is cancelled, any run can be continued by reading and passing on alone until exactly what was sent has come out, over any number of hops |
| `ByteRelay.NothingPassesAStoppedHop` | connector/opnsense_hub_connector.py:313-325 | A hop that had stopped after the first k steps stays stopped for the rest of the run, and neither behind it nor at the far end does more come out than was written behind it by then |
| `ByteRelay.StoppedExactlyWhen` | dashboard/app/routers/proxy.py:730-811 | Over a whole run a hop has stopped if and only if some step cancelled it or made it read a frame that is not binary |
| `ByteRelay.AForeignFrameStops` | dashboard/app/routers/proxy.py:793-811 | A frame that is not binary stops the hop that reads it, and nothing of it is passed on |
| `ByteRelay.FramesFitAChunk` | dashboard/app/wireguard_agent.py:297-301 | No hop sends a frame of more than 64 KiB |
| `ByteRelay.StepKeeps` | dashboard/app/wireguard_agent.py:281-301 | Around every running hop, the bytes behind it, in its hand and unread before it are the bytes put in, in order |
| `RelayPipes.PipeTcpToWebSocket` | dashboard/app/routers/proxy.py:746-750 | The whole stream goes out in order, in non-empty frames of at most one chunk |
| `RelayPipes.PipeWebSocketToTcp` | dashboard/app/routers/proxy.py:730-743 | The binary frames go out in order up to the first frame that is something else, which closes the socket |
| `RelayPipes.RelayThroughOneHop` | connector/opnsense_hub_connector.py:293-305 | What goes into one hop comes out of it, whatever the chunks |
| `Archive.ArchiveRoundTrip` | dashboard/app/services/backup_service.py:1136-1149 | Export, parse and restore: an archive opened as it was made is accepted if and only if the database meets the rules; then every table comes back row by row with each stored firewall backup in canonical spelling, and the files too; it is the same database if and only if every stored payload was canonical |
| `Archive.RunningHubRoundTrip` | dashboard/app/services/backup_service.py:1136-1149 | Where the firewall backups came in by uploads, removals and restores in any order, a database that meets the rules comes back exactly |
| `Archive.ExportsPassTheChecks` | dashboard/app/services/backup_service.py:882-1040 | What parse makes of every export: no size, member, count, version or shape check refuses it, the rules across tables do exactly when the database does not meet them, and firewall backups come out canonical |
| `Archive.CheckedExport` | dashboard/app/services/backup_service.py:408-727 | The checks on the JSON of an export succeed exactly when the database has one settings row with id 1, keeps every rule, has distinct usable tunnel addresses and only valid firewall backups |
| `Archive.ValidateTwice` | dashboard/app/services/backup_service.py:1142 | Validating what was validated changes nothing, for any archive, whoever wrote it |
| `Archive.ABlankInFrontIsLost` | dashboard/app/services/backup_service.py:641-644 | A stored payload with a blank in front, which JSON ignores, comes back without it |
| `Archive.RoutesAlwaysOpen` | dashboard/app/services/common.py:13-17 | A passphrase cleaned as the routes clean it always opens what was exported with it |
| `Archive.ExportedExactlyWhen` | dashboard/app/services/backup_service.py:882-978 | An export succeeds if and only if the estimate, every member, their number, their sum and the result keep the limits; it is encrypted, with the stripped passphrase, exactly when there is one that is not blank |
| `Archive.OnlyThePassphraseOpens` | dashboard/app/services/backup_service.py:840-880 | An encrypted export opens with its own passphrase and no other, and asks for one when none is given; an unencrypted one opens with any |
| `Archive.AcceptedExactlyWhen` | dashboard/app/services/backup_service.py:981-1040 | The members of an archive are accepted if and only if they are few and small enough, known, with a readable manifest and data of the right version, tables and counts, and the data keeps every rule; what is returned |
| `Archive.SizesPass` | dashboard/app/services/backup_service.py:821-837 | The running size checks pass exactly when every member and the total fit |
| `Archive.SerializedPasses` | dashboard/app/services/backup_service.py:245-288 | Serialized data has every table, matching counts and passing rows, and restores to the database it came from |
| `ArchiveRules.RulesTranslate` | dashboard/app/services/backup_service.py:427-705 | Whatever the list of column rules: they pass on the JSON of a sound database exactly when the database keeps them; references mean that a row with that id exists |
| `ArchiveRules.CheckTranslates` | dashboard/app/services/backup_service.py:427-705 | Each kind of check on JSON, with defaults and case, is a condition on the stored cell |
| `ArchiveRules.RefersIsExists` | dashboard/app/services/backup_service.py:415-426 | The sets of ids read from the JSON are the ids of the rows |
| `ArchiveRules.LongIntervalsAreRefused` | dashboard/app/services/backup_service.py:539-565 | With the Hub's rules a stored interval above 720 hours makes the archive unrestorable, while a retention count of zero passes as the default |
| `ArchiveRules.NothingDangles` | dashboard/app/services/backup_service.py:427-705 | In a database that keeps the Hub's rules no membership, code, device, backup, event or audit row refers to a row that is not there |
| `ArchiveRules.DevicesAreSound` | dashboard/app/services/backup_service.py:480-600 | ... and every device has a well-formed key, a known status, and settings within their ranges |
| `BackupPayloads.StoredPayloadsAreCanonical` | dashboard/app/routers/devices.py:455-510 | Whatever was uploaded, removed and restored, in whatever order: every stored payload is a valid envelope for its device in canonical spelling |
| `BackupPayloads.UploadedExactlyWhen` | dashboard/app/routers/devices.py:461-500 | After every run an upload is stored, as it was sent, if and only if its format is known and its envelope passes the checks for its device |
| `BackupPayloads.RestoredExactlyWhen` | dashboard/app/services/backup_service.py:598-644 | After every run an archive replaces the stored backups if and only if each of its payloads is a valid envelope for its device and its rows have the right shape |
| `BackupPayloads.RowsTranslate` | dashboard/app/services/backup_service.py:598-644 | Rewriting an exported table succeeds exactly when every stored payload is a valid envelope of a known format for its device, and gives the export of the canonical rows |
| `BackupPayloads.UnchangedIffCanonical` | dashboard/app/services/backup_service.py:637-644 | Valid payloads stay as they are if and only if they are canonical |
| `BackupPayloads.RewriteAgain` | dashboard/app/services/backup_service.py:637-644 | Rewriting a second time changes nothing, and touches nothing but the payload |
| `BackupPayloads.RewrittenPass` | dashboard/app/services/backup_service.py:637-644 | Rewritten rows keep their shape |
| `ArchiveRows.RowRoundTrip` | dashboard/app/services/backup_service.py:138-200 | A stored row survives serialization and deserialization and passes the shape checks |
| `ArchiveRows.CellRoundTrip` | dashboard/app/services/backup_service.py:183-200 | Each kind of column reads back what it wrote |
| `ArchiveRows.BooleansRead` | dashboard/app/services/backup_service.py:173-196 | A boolean column reads booleans and the numbers 0 and 1 and nothing else; a number column reads no boolean |
| `ArchiveRows.RowsRoundTrip` | dashboard/app/services/backup_service.py:896-902 | So does a whole table, in order |
| `ArchiveStore.ValidateArchiveMembers` | dashboard/app/services/backup_service.py:802-837 | The checks in their order, with the running total |
| `ArchiveStore.ValidateManifest` | dashboard/app/services/backup_service.py:245-288 | Passes exactly when the manifest counts every table right |
| `ArchiveStore.RewriteBackups` | dashboard/app/services/backup_service.py:598-644 | The loop over the stored backups replaces each payload as specified, or refuses at the first bad one |
| `ArchiveStore.Store.ExportRows` | dashboard/app/services/backup_service.py:896-902 | The export loops write every row of every table |
| `ArchiveStore.Store.Restore` | dashboard/app/services/backup_service.py:1136-1149 | Validation, emptying and inserting leave exactly the validated rows; a refused archive changes nothing |

## Left out

General:

- Sockets, subprocesses, HTTP, mail, LDAP, templates and migrations are I/O; what they decide is a parameter.
- Text of addresses, times, UUIDs, JSON, zip and encryption: parsing and printing are parameters with laws, or the parsed value is the input.
- HTML and URL rewriting, dashboards, notifications, role lookups and log retention would only add easy members.

Relays and tunnels:

- RelayRuns.RevokedDeviceHasNoLiveRelay: it speaks of a revoke that has run to its end; one that was cancelled half-way is a step of the model, but does not count as finished.
- RelayRuns.RevocationEndsForwarding: a cancelled handler stops when its cancellation is delivered; that the event loop delivers it is not modelled, and nor are the idle timeouts that end the other handlers.
- RelayRuns.LiveRelayCountsItsHandlers: on a relay that is closing the counter may be too high, because a cancellation can land inside `finally`; the exact count is stated for live relays only.
- RelayRuns.GoneDeviceHasNoLiveRelay: restoring a backup can make a revoked device active again (settings.py:859) and is no step of the model.
- The re-check of an open request reads the database as committed at that moment (read committed isolation); role and company checks are one yes or no.
- RelayProgress.EveryRequestCanEnd: going on ends every request; that the event loop gives every task its turn is not modelled.
- All tasks share one event loop, as the code does; several worker processes would each have a manager of their own.
- ConnectorAccess.NoLiveTunnelAfterPop: sessions that expire or log out are covered by the re-checks only, because nothing cancels their tunnels until the periodic monitor does; the monitor and the HTTP side of the connector are not modelled.

Tunnel isolation:

- Wildcard interface names, `goto`, `queue`, sets and maps, and `nft` and `iptables` commands that fail on their own.
- TunnelIsolation.OtherTrafficKeepsItsVerdict: asks that jumps into the Hub's own chains are restricted to the tunnel interface, as the Hub's are; without that, replacing the content of these chains would show.

Configuration editor and WireGuard file:

- Several children of one interface or one rule with the same tag: the children are a map, so the first one found is the only one.
- The order of children inside one rule, comments and attributes of the XML tree; several `<interfaces>` or `<filter>` elements under the root.
- Configuration locking, writing the file back, and reloading services.
- `str.lower` beyond ASCII, and the forms of `int()` with blanks, underscores or other digits; the keepalive of a rendered file is an integer printed by the plugin.
- WireguardFile.LoadsWhatWasRendered: inputs are single lines, as the Hub sends them; a value with a line break could define further keys.

Rate limiter, enrollment, peers:

- The Redis and edge back ends of the rate limiter.
- RateLimitRuns.FollowsTheLog: hits are taken to get the lock in the order of their times, and so they are in RateLimitRuns.DecidesLikeTheLog and in RateLimitRuns.AdmittedHitsSpanTheWindow; the code reads the clock before it takes the lock (rate_limit.py:56-59). RateLimitRuns.OutOfOrderHitsPart shows that the statement fails otherwise; the bounds for any order do not compare with the log.
- The row locks that PostgreSQL takes on the candidate codes: leaving them out allows more interleavings. The update of one code row waits for another open claim of it, and so does an insert for an open insert with the same key or address.
- The checks of an enrollment's payload before any database row is read, and its rate limit.
- A crash of the process between the commit of an enrollment and the end of its request, and the audit rows without a device that failed requests write.
- EnrollmentRuns.UsedCodesAreEnrollments: restoring a backup or deleting a company while enrollments are under way would replace or remove codes, and neither is a step of the model.
- PeerTable.ReconcileIsExact: peers that change during the reconciliation, and dry-run mode, are not modelled; nor is an enrollment of a device that overlaps its own revocation, where the peer is added after the commit.

Byte relay and archive:

- Timing: idle timeouts, authorization monitors and session ends are cancellations that may come at any point.
- ByteRelay.EverythingSentCanArrive: reading and passing on brings everything through; that the event loop gives every hop its turn is not modelled.
- A WebSocket message is sent whole or not at all.
- Archive.ArchiveRoundTrip: the checks inside an envelope, of the logo and of the WireGuard key are parameters, and so are `str.lower` and the spelling of JSON. A refusal is one error, whichever rule caused it. The tables' other columns are arbitrary.
- The staging database: it repeats the database's own constraints, which a stored database meets.
- BackupPayloads.StoredPayloadsAreCanonical: rows written by hand or by a migration are no step of the model.
- The salt of the encryption and the creation time in the manifest; staging of files before a restore.

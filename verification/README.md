# Solar Connect hub: verified model

This project models the access, power and packet logic of the Solar Connect ESP32 hub and proves properties of it
with Dafny. The hub is a Wi-Fi router on a solar battery. A phone that joins its access point is held in a captive
portal until its owner presses "confirm"; it then gets up to an hour of internet per UTC day. An RFID card switches
the charging sockets, and a battery state machine may forbid them.

Every piece of state the firmware updates in place is a class over arrays here, with methods that take the source's
branches in the source's order. Each method is tied by its `ensures` to a function on values, and the properties are
lemmas about those functions and about whole runs of events.

| component | files |
|---|---|
| sessions, daily quota, admitted clients, NAPT | `ClientAcl`, `QuotaBooks`, `PortalModel` (effects on values), `PortalServer` (the code), `PortalIndex`, `PortalAdmission`, `PortalRuns`, `PortalAccess`, `PortalReach` (every reachable state), `PortalHeartbeat`, `PortalEndings` (whose session ends), `PortalGrants` (what is granted), `PortalNapt`, `PortalFlag`, `PortalCharges`, `PortalQuota`, `PortalLosses`, `PortalDay`, `PortalWitnesses` (runs that show where guards fail) |
| packet path: incremental checksum, redirection, filter | `Checksum`, `PacketHook`, `PacketProbes` (what a probe is), `AccessPath` |
| energy meter: Modbus CRC-16, framing, daily energy | `ModbusCrc`, `PzemReader` |
| captive name server: walkers, keys, responses, cache, server loop | `DnsWire`, `DnsKey`, `DnsResponse`, `DnsCache`, `DnsServer`, `DnsRuns`, `DnsAccess` (who is resolved for), `DnsReplies` and `DnsService` (what is answered) |
| battery debounce and RFID interlock | `BatteryMonitor`, `RfidReader`, `PowerInterlock` |
| form decoder and HTML escaper | `FormDecoder`, `HtmlEscape` |
| shared: options, clocks, first match, pigeonhole; bytes, words, bits | `Basics`, `Words` |

Verify the whole with `dafny verify dfyconfig.toml`.

## What a run is

The firmware's tasks share the session arrays and the power pins without a lock. The model takes each event (a press
of "confirm", a name lookup, a station that connects, gets a lease or leaves, a heartbeat, a battery sample, a card
poll, a name query) as one step with one reading of each clock. Clocks, credentials, station lookups, driver results,
upstream answers, card reads and voltages are inputs of the step.

The portal's runs start at boot. What holds in every run, whoever the clients are, is in `PortalReach`; it asks only that
a new session token differs from all live ones. The other run theorems name what they assume of the world as predicates
on the state just before each event: `PortalRuns.Identified` (the client's hardware address is known and not zero),
`PortalRuns.KeepsStep` and `PortalDay.Undisturbed`. The last two are exact: the code has the intended property across an
event if and only if they hold, and `PortalWitnesses` gives runs from boot after which one more event violates them.

* The client table is an exact index of the session table after an event if and only if `KeepsStep` held before it
  (`PortalRuns.StepKeepsIndexIff`). It fails when a known client confirms from an address that another live session
  holds, when a new session displaces one that has an address, and when a lease gives a client an address that another
  session still has.
* Every session of a client that an event ends or hands to another client is charged, but for its last started second,
  if and only if the event does not lose its time (`PortalLosses.StepLosesIff`). Four places do:
  `main/http_server.c:724` drops an expired session, `main/http_server.c:733-761` and `main/http_server.c:765-771`
  overwrite a live one, and `main/http_server.c:708-710` hands a live one to another client at its address.
* The ledger of a client (its record equals what its sessions were charged, and its grants fit its quota) survives an
  event of the day if and only if the event neither loses its time nor grants it time it has had
  (`PortalDay.StepBalancesIff`). Too much is granted when the quota is read before the sweep charges the client's
  overdue session, and when a client takes over a session that was charged to somebody else.

## Model

| member | source | states |
|---|---|---|
| `ClientAcl.AclTable.constructor` | main/client_acl.c:27-32 | the table starts empty |
| `ClientAcl.AclTable.Clear` | main/client_acl.c:34-37 | afterwards nobody is admitted |
| `ClientAcl.AclTable.Admit` | main/client_acl.c:39-81 | the scans over the slots amount to one table update, `AfterAdmit`: the first entry with the client's hardware address, else the one with its network address, else a free one; with none, nothing changes |
| `ClientAcl.AclTable.RevokeByIp` | main/client_acl.c:83-96 | every entry with the address goes, no other; address 0 is ignored |
| `ClientAcl.AclTable.RevokeByMac` | main/client_acl.c:98-111 | every entry with the hardware address goes, no other |
| `ClientAcl.AclTable.IsAdmitted` | main/client_acl.c:113-131 | answers whether some used entry has the address, never for address 0, without changing the table |
| `ClientAcl.AdmitBinds` | main/client_acl.c:39-81 | read as a map from hardware to network address, admission binds exactly the client and takes the address from whoever else had it; the table stays an injective binding |
| `ClientAcl.AdmitLeaves` | main/client_acl.c:39-81 | admission leaves the entries of other clients at other addresses in place |
| `ClientAcl.AdmitOpens` | main/client_acl.c:39-81 | in any table, with or without hardware addresses: afterwards the address is admitted unless every entry is in use; no other comes in, and none goes but that of the same client |
| `ClientAcl.AdmitAgain` | main/client_acl.c:59-70 | admitting an address again without a hardware address changes nothing |
| `ClientAcl.RevokeIpUnbinds` | main/client_acl.c:83-96 | revoking an address unbinds its holder and nobody else |
| `ClientAcl.RevokeMacUnbinds` | main/client_acl.c:98-111 | revoking a hardware address unbinds that client and nobody else |
| `ClientAcl.RevokedIsShut` | main/client_acl.c:83-96 | in any table, revoking an address shuts it and no other |
| `ClientAcl.AdmittedIffBound` | main/client_acl.c:113-131 | an address is admitted if and only if it is bound to some client |
| `QuotaBooks.LookupKeeps` | main/http_server.c:366-403 | looking a record up keeps the books sound: record addresses known and distinct, no record above 3600 s |
| `QuotaBooks.LookupDisplaces` | main/http_server.c:389-402 | a lookup never displaces a client from slots 1 to 19; it displaces the one in slot 0 only when all twenty records belong to others |
| `QuotaBooks.LookupCharges` | main/http_server.c:366-403 | a lookup leaves what any client has used on its day unchanged unless it is displaced; on a new day the client starts from 0 |
| `QuotaBooks.RemainingIsRest` | main/http_server.c:405-424 | what a client may still have is 3600 s less what it has used today |
| `QuotaBooks.ChargeKeeps` | main/http_server.c:454-461 | charging keeps the books sound |
| `QuotaBooks.ChargeCharges` | main/http_server.c:454-461 | a charge raises one client's use by the amount, capped at 3600 s, and nobody else's |
| `QuotaBooks.ChargeTwice` | main/http_server.c:454-461 | two charges on one day are one charge of their sum |
| `PortalServer.Portal.constructor` | main/http_server.c:173-179 | the portal boots with no session, no quota record and nobody admitted |
| `PortalServer.Portal.FindByIp` | main/http_server.c:181-189 | the first active session with the address, -1 for none |
| `PortalServer.Portal.FindByMac` | main/http_server.c:191-203 | the first active session with the hardware address, -1 for none |
| `PortalServer.Portal.FindByToken` | main/http_server.c:205-217 | the first active session with the token, -1 for none and for the empty token |
| `PortalServer.Portal.FindFreeSlot` | main/http_server.c:219-227 | the first inactive slot, -1 for none |
| `PortalServer.Portal.CurrentDayId` | main/http_server.c:245-262 | the UTC day of a valid clock, which becomes the hint; the hint, or 1, without one |
| `PortalServer.Portal.FindOrAllocRecord` | main/http_server.c:366-403 | in place, the books become those of `QuotaBooks.FindOrAlloc`, and the slot is the one it names |
| `PortalServer.Portal.GetQuotaRemaining` | main/http_server.c:405-424 | returns the rest of the quota and leaves the books as `QuotaBooks.Remaining` says |
| `PortalServer.Portal.ChargeRecord` | main/http_server.c:454-461 | adds seconds to a client's record, capped |
| `PortalServer.Portal.CheckpointUsage` | main/http_server.c:426-469 | whatever has run since the last checkpoint moves to the record of the session's day |
| `PortalServer.Portal.HasAccess` | main/http_server.c:509-524 | whether the global window is open or an admitted session is live |
| `PortalServer.Portal.DisableNaptIfIdle` | main/http_server.c:526-547 | NAPT goes off only without access and only if the driver agrees |
| `PortalServer.Portal.RefreshPortal` | main/http_server.c:471-507 | the in-place sweep amounts to `PortalModel.Refresh` |
| `PortalServer.Portal.EnableNapt` | main/http_server.c:801-819 | NAPT is on afterwards exactly if it was or the driver agrees |
| `PortalServer.Portal.RevokeSession` | main/http_server.c:821-853 | an active session is checkpointed, unlisted and ended, then the portal is refreshed; an inactive slot is left alone |
| `PortalServer.Portal.StartOrResumeSession` | main/http_server.c:674-799 | all paths of starting, reusing, replacing and displacing amount to `PortalModel.StartOrResume`, in state and in slot returned |
| `PortalServer.Portal.GetRemainingSeconds` | main/http_server.c:971-1023 | the seconds left to the session of an address, found by address or by hardware address and then rebound; an expired one is revoked and gives -1 |
| `PortalServer.Portal.HandleConnect` | main/http_server.c:1034-1080 | a client with part of its quota left is resumed without an address; one with a fresh or spent quota is not |
| `PortalServer.Portal.HandleIpAssigned` | main/http_server.c:1093-1127 | the client's live session moves to the leased address and is listed there |
| `PortalServer.Portal.HandleDisconnect` | main/http_server.c:1129-1170 | every session of the station is revoked; with no match, no station left and one active session, that one is |
| `PortalServer.Portal.HeartbeatPass` | main/http_server.c:1172-1214 | every session with credentials is checkpointed and, with less than a second left, revoked |
| `PortalServer.Portal.HandleConfirm` | main/http_server.c:1904-2012 | the session part of the handler: quota, midnight cut, uplink, NAPT, start or resume, closing query |
| `PortalIndex.UnlistUnbinds` | main/http_server.c:838-845 | unlisting an ended session removes its own binding and no one else's |
| `PortalIndex.UnlistShuts` | main/http_server.c:838-845 | in any table, unlisting clears exactly the entries with the session's address or its client |
| `PortalIndex.SweepKeeps` | main/http_server.c:471-507 | an expiry sweep keeps the client table an index of the session table |
| `PortalIndex.SweepEffect` | main/http_server.c:476-496 | a sweep deactivates exactly the expired sessions and touches no other slot |
| `PortalIndex.SweepCommutes` | main/http_server.c:476-496 | a sweep neither reads nor writes a slot that has not expired |
| `PortalIndex.RefreshKeeps` | main/http_server.c:471-507 | so does the whole refresh |
| `PortalIndex.RevokeKeeps` | main/http_server.c:821-853 | so does a revocation |
| `PortalIndex.RoomToAdmit` | main/client_acl.c:61-80 | whenever a session has to be listed a client slot is free for it: both tables hold twenty |
| `PortalAdmission.StartKeepsIndexIff` | main/http_server.c:674-799 | confirming from a known address keeps the index if and only if it does not collide with another session |
| `PortalAdmission.ResumeKeepsIndexIff` | main/http_server.c:674-799 | resuming without an address keeps the index if and only if the session replaced had no address |
| `PortalAdmission.IpAssignedKeepsIndexIff` | main/http_server.c:1093-1127 | a lease keeps the index if and only if the client has no live session to rebind or no other session has the address |
| `PortalAdmission.GetRemainingKeeps` | main/http_server.c:971-1023 | a query keeps the index, also when it rebinds or revokes a session |
| `PortalAdmission.DisconnectKeeps` | main/http_server.c:1129-1170 | a disconnect keeps the index |
| `PortalAdmission.HeartbeatKeeps` | main/http_server.c:1172-1214 | a heartbeat keeps the index |
| `PortalAdmission.SharedAddressBreaks` | main/http_server.c:695-720 | two live sessions with one address break the index |
| `PortalAdmission.DisplacedEntryBreaks` | main/http_server.c:763-797 | overwriting slot 0 strands the entry of the session that was there |
| `PortalAdmission.ExpiredHolderBreaks` | main/http_server.c:1107-1125 | leasing an address an expired session still has leaves the new owner unlisted after the sweep |
| `PortalRuns.StepKeepsIndexIff` | main/http_server.c:674-1214 | from a state in step, any event ends in step if and only if its guard holds |
| `PortalRuns.RunKeepsIndex` | main/http_server.c:674-1214 | every run whose events meet their guards stays in step |
| `PortalRuns.AdmittedIffOwned` | main/http_server.c:674-1214 | after every such run from boot the packet path admits an address if and only if an active session owns it |
| `PortalReach.StepLasts` | main/http_server.c:674-1214 | every event, whoever the clients are, keeps one session to a known client at most, sessions that end, and sound quota records; among identified clients it keeps sound sessions sound |
| `PortalReach.RunLasts` | main/http_server.c:674-1214 | so does every run from boot in which tokens do not repeat |
| `PortalReach.OneSessionEach` | main/http_server.c:695-799 | in every reachable state at most one active session belongs to a known client |
| `PortalReach.RecordsAreSound` | main/http_server.c:366-469 | in every reachable state record addresses are known and distinct and nobody has used more than 3600 s of a day |
| `PortalReach.RecordsNeverEvicted` | main/http_server.c:389-402 | over every run, a client whose record is in one of the slots 1 to 19 keeps it there ever after |
| `PortalReach.RefreshDecidesAlways` | main/http_server.c:471-524 | in every reachable state a refresh leaves no expired session active, and the portal flag says exactly whether someone has access |
| `PortalFlag.FlagIsRight` | main/http_server.c:471-507 | in every run, every event that begins or ends a session or moves a window leaves the portal flag saying exactly whether somebody is served |
| `PortalEndings.RefreshEnds` | main/http_server.c:476-496 | a refresh leaves every session that still runs exactly as it was, and of the others none |
| `PortalEndings.RevokeEnds` | main/http_server.c:821-853 | revoking ends the session in the slot; every other that still runs is unchanged |
| `PortalEndings.DisconnectEndsOwn` | main/http_server.c:1144-1163 | when a station that had sessions leaves, none of its is active afterwards and every other that still runs is unchanged |
| `PortalEndings.DisconnectFallsBack` | main/http_server.c:1144-1169 | when it had none: with no station left and exactly one session active, that one has ended; otherwise nothing changes |
| `PortalEndings.DisconnectShuts` | main/http_server.c:838-845 | whoever the clients are, when a station leaves the address of every session that ends is shut and none is opened |
| `PortalEndings.HeartbeatSpares` | main/http_server.c:1172-1214 | a pass leaves every session with a whole second left, or with time left and no credentials, as it was but for what is accounted |
| `PortalEndings.HeartbeatAccounts` | main/http_server.c:1189-1190 | and it brings the account of each such session with credentials and a known client up to the time it has run |
| `PortalEndings.HeartbeatShuts` | main/http_server.c:838-845 | the same for a heartbeat |
| `PortalEndings.LeaseMoves` | main/http_server.c:1093-1127 | the client's live session is at the leased address afterwards, admitted and otherwise unchanged, and so are all others that still run |
| `PortalEndings.LeaseShutsOld` | main/http_server.c:1107-1125 | a client that moves leaves its old address shut, in any state |
| `PortalEndings.LeaseIgnored` | main/http_server.c:1093-1127 | without a live session of the client nothing changes |
| `PortalGrants.TodayIsUtcDay` | main/http_server.c:245-262 | with the clock set, a day number is today's if and only if the clock is within that UTC day |
| `PortalGrants.TodayGoesOn` | main/http_server.c:245-262 | while the clock is lost the last day known goes on; before any it is day 1 |
| `PortalGrants.RenewsAtMidnight` | main/http_server.c:366-424 | what is left of a quota is 3600 s less what the client's record shows if that is of this very UTC day |
| `PortalGrants.GrantIsUpToMidnight` | main/http_server.c:264-275 | the rest of the quota is granted if the clock is unset or the UTC day is long enough; otherwise the grant ends with the day |
| `PortalGrants.OneGrant` | main/http_server.c:264-275 | nothing else is so granted |
| `PortalGrants.ConfirmBegins` | main/http_server.c:1904-2012 | a press that passes and falls into no running session begins one: the rest of the quota or up to midnight UTC, exactly, 3600 s for a client whose address is not found; the window for everybody is closed, or lasts as long for a client without an address; the portal is authenticated, NAPT on, the address admitted unless the table is full, and every other running session unchanged |
| `PortalGrants.ConfirmGoesOn` | main/http_server.c:695-722 | a press that falls into a running session goes on with it: slot, times, accounts and token stay |
| `PortalGrants.ConfirmRefused` | main/http_server.c:1904-1975 | a press without quota, uplink or NAPT changes nothing but the books |
| `PortalGrants.StartTakes` | main/http_server.c:724-771 | a new session with an address takes the slot of the expired one found by address alone, else the first free one, else slot 0 |
| `PortalGrants.WindowOnly` | main/http_server.c:684-693 | without an address and a token no session begins, only the window for everybody |
| `PortalGrants.ConnectBegins` | main/http_server.c:1034-1080 | a reconnecting station that has used some of its hour gets exactly what is left |
| `PortalGrants.ConnectRefused` | main/http_server.c:1034-1065 | any other reconnect changes nothing but the books |
| `PortalNapt.RefreshSwitchesIff` | main/http_server.c:471-547 | after a refresh NAPT is on if and only if it was and somebody is served or the driver refuses |
| `PortalNapt.StartWired` | main/http_server.c:674-799 | whatever is started or resumed leaves NAPT on and the portal authenticated |
| `PortalNapt.NobodyIsCutOff` | main/http_server.c:471-547 | over every run, whatever the driver answers, whoever is served is served with NAPT on, and the portal is authenticated only with NAPT on |
| `PortalNapt.NaptIffAuthenticated` | main/http_server.c:471-547 | over every run, if the driver's switch-off succeeds, NAPT is on at an event boundary if and only if the portal is authenticated |
| `PortalCharges.ElapsedIsTime` | main/http_server.c:446-449 | what a checkpoint accounts is the time the session has run up to its end, in whole seconds |
| `PortalCharges.NeverOvercharged` | main/http_server.c:426-469 | over every run on a clock that does not go back, no session, ended or running, was charged for more than it had |
| `PortalHeartbeat.HeartbeatLeavesLively` | main/http_server.c:1172-1214 | after a pass, whatever the table was, no active session with credentials has less than a second left; a pass only ends sessions |
| `PortalHeartbeat.OverstayBounded` | main/http_server.c:1172-1214 | over every run whose sessions come with credentials and whose clock does not go back, an active session ends later than any heartbeat behind it: it outlives its end by less than the time since the last one |
| `PortalAccess.RefreshDecides` | main/http_server.c:471-524 | the same for any table whose active sessions have an end |
| `PortalAccess.StartAuthenticates` | main/http_server.c:674-799 | starting or resuming a session always ends with the portal authenticated |
| `PortalAccess.NaptImpliesAuthenticated` | main/http_server.c:471-547 | over every run, NAPT is on at an event boundary only while the portal is authenticated, if the driver's switch-off succeeds |
| `PortalAccess.ConfirmKeepsEndTime` | main/http_server.c:707-722 | confirming again during a live session leaves its start as it is if and only if the address is known or nothing is started, and then its end as well |
| `PortalAccess.ConfirmGrantBounded` | main/http_server.c:1930-1943 | every confirm that is not answered by a live session, after an expired one or without an address too, opens one no longer than the remaining quota that, with a valid clock, ends less than a second after the next UTC midnight |
| `PortalQuota.CheckpointBalances` | main/http_server.c:426-469 | a checkpoint moves seconds from a session to its client's record one for one; the cap never bites |
| `PortalQuota.CheckpointTwice` | main/http_server.c:426-469 | two checkpoints in either order are one at the later time |
| `PortalQuota.ScheduleIndependent` | main/http_server.c:426-469 | however many checkpoints of a session come together, in whatever order, the books are as after one at the latest of their times |
| `PortalQuota.ScheduleCharges` | main/http_server.c:436-461 | and the client has then used min(3600, initial + what of min(granted, whole seconds elapsed) was not yet accounted) |
| `PortalDay.ClosingCheckpoint` | main/http_server.c:426-469 | after any undisturbed day of heartbeats, lookups and other clients, a closing checkpoint leaves in the record exactly what the ended sessions were charged and the whole seconds, within the grant, of the running one |
| `PortalQuota.EndChargedIff` | main/http_server.c:426-461 | a session that ends has lost less than one second to the books if and only if nothing chargeable was left on it |
| `PortalQuota.CloseBalances` | main/http_server.c:821-847 | revocation and expiry keep the client's ledger balanced |
| `PortalQuota.SweepBalances` | main/http_server.c:476-491 | so does a sweep |
| `PortalQuota.RevokeBalances` | main/http_server.c:821-853 | so does a whole revocation with its refresh |
| `PortalLosses.CloseCharges` | main/http_server.c:836-849 | a revoked or expired session is fully charged |
| `PortalLosses.StartLosesIff` | main/http_server.c:704-797 | starting from a known address loses no time of a client if and only if the session it drops or takes over, if any, is not one of that client with a whole second left to charge |
| `PortalLosses.ResumeLosesIff` | main/http_server.c:685-797 | the same for resuming without an address, where expired sessions are swept first |
| `PortalLosses.StepLosesIff` | main/http_server.c:674-1214 | for every event and client: all sessions of the client that it ends or hands over are fully charged if and only if it does not take one with time to charge |
| `PortalDay.SweepOwes` | main/http_server.c:476-491 | a sweep adds to a client's record exactly the seconds its overdue session owes |
| `PortalDay.TakeOverBalancesIff` | main/http_server.c:706-722 | a client that takes over a live session keeps a balanced ledger if and only if nothing of it was charged, it is of that day, and it fits the rest of the quota |
| `PortalDay.ResumeBalancesIff` | main/http_server.c:684-797 | resuming keeps the client's ledger balanced if and only if the grant and what an overdue session of its owes fit the rest of the quota |
| `PortalDay.StepBalancesIff` | main/http_server.c:674-1214 | every event of a day keeps a client's ledger balanced (its record shows what was charged for its ended sessions and the running one, and its grants fit the quota) if and only if it neither loses the client's time nor grants it too much |
| `PortalDay.RunBalances` | main/http_server.c:674-1214 | so does every run of such events |
| `PortalDay.DailyBound` | main/http_server.c:366-469 | over every such run from boot, in k sessions of one day a client whose record is not displaced gets at most 3600 s and k seconds less k microseconds, and its record never exceeds 3600 s |
| `PortalWitnesses.ExpiredIsLost` | main/http_server.c:724 | a run from boot after which confirming again once the session has expired loses its hour |
| `PortalWitnesses.ReplacedIsLost` | main/http_server.c:733-761 | a run from boot after which confirming without an address loses the time of the client's own live session |
| `PortalWitnesses.TakenOverIsLost` | main/http_server.c:708-710 | a run from boot after which another client's confirm from the address loses the owner's time |
| `PortalWitnesses.DisplacedIsLost` | main/http_server.c:763-771 | a run from boot of twenty clients after which a newcomer loses the time of the one in slot 0 |
| `PortalWitnesses.OverdueIsGrantedTwice` | main/http_server.c:684-686 | a run from boot after which one confirm gives a client two full hours of one day in two sessions, beyond the daily bound |
| `PortalWitnesses.TakeOverUnbalances` | main/http_server.c:708-710 | a run from boot after which taking over a session charged to somebody else unbalances the newcomer's ledger |
| `PortalWitnesses.CollisionBreaksIndex` | main/http_server.c:695-720 | a run from boot after which a known client's move to an address in use puts the client table out of step |
| `PortalWitnesses.DisplacementBreaksIndex` | main/http_server.c:763-797 | a run from boot of twenty clients after which a newcomer does |
| `PortalWitnesses.LeaseBreaksIndex` | main/http_server.c:1107-1125 | a run from boot after which the lease of an address an expired session still has does |
| `Checksum.ChecksumAdjust` | main/lwip_hooks.c:27-59 | the two loops in place leave the buffer as it was but for the two checksum bytes, which are `Adjusted` of the old ones |
| `Checksum.TakeOut` | main/lwip_hooks.c:34-43 | the loop over the old data, with its borrow, is ones'-complement subtraction word by word |
| `Checksum.PutIn` | main/lwip_hooks.c:45-54 | the loop over the new data, with its carry, is ones'-complement addition word by word |
| `Checksum.SubtractAllResidue` | main/lwip_hooks.c:34-43 | subtracting keeps the residue modulo 65535; once x is in 1..65535 it stays there |
| `Checksum.AddAllResidue` | main/lwip_hooks.c:45-54 | adding keeps the residue, and the result is 0 only if there was nothing to add to nothing |
| `Checksum.AdjustConserves` | main/lwip_hooks.c:27-59 | the data's word sum plus the checksum is the same before and after, modulo 65535 |
| `Checksum.AdjustIsRecompute` | main/lwip_hooks.c:27-59 | for a checksum that was right, the incremental result is bit for bit the recomputed checksum of section 2 of RFC 1071, if and only if nothing was taken out or the data is not all zero afterwards |
| `PacketHook.RewriteProbe` | main/lwip_hooks.c:61-130 | the header is rewritten in place exactly for probes, as `Redirected` says; any other packet is untouched |
| `PacketHook.Redirect` | main/lwip_hooks.c:82-122 | transport checksum, header checksum and destination become those of the redirected packet |
| `PacketHook.HookInput` | main/lwip_hooks.c:132-170 | hands the packet on, rewritten or not, or drops it, as `Filtered` says |
| `PacketHook.RedirectFrame` | main/lwip_hooks.c:117-122 | a redirection changes no byte but the destination and the two checksums |
| `PacketHook.RedirectKeepsChecksums` | main/lwip_hooks.c:61-122 | IP header sum and transport sum are multiples of 65535 afterwards if and only if they were before; source and header length stay; a UDP datagram without a checksum stays without |
| `PacketHook.RedirectRecomputes` | main/lwip_hooks.c:27-122 | bit for bit: both checksums of a redirected probe are those computed afresh for the portal if and only if they were right before, all ones counting as zero |
| `PacketHook.HookConfines` | main/lwip_hooks.c:132-170 | a packet is handed on if and only if it is local, unsourced, from an admitted client or a redirectable probe; in the last case its destination is the portal |
| `PacketProbes.ProbeIff` | main/lwip_hooks.c:61-107 | in bytes: a probe is the first fragment of a TCP segment to port 80 or a UDP datagram to port 53 whose header is in the buffer, and the checksum adjusted is at offset 16 or 6 of it |
| `PacketProbes.OnlyProbesPass` | main/lwip_hooks.c:132-170 | a packet that is not local, has a source and is not from an admitted client is handed on if and only if it is a probe |
| `PacketProbes.OthersPass` | main/lwip_hooks.c:140-146 | a packet from another interface or shorter than a header is handed on as it came |
| `PacketProbes.TcpArrives` | main/lwip_hooks.c:61-122 | a TCP segment assembled from its fields arrives at the portal, with its checksum adjusted and all else the same, exactly if it is to port 80 and unfragmented or first |
| `PacketProbes.UdpArrives` | main/lwip_hooks.c:61-122 | so does a UDP datagram to port 53; one without a checksum stays without |
| `AccessPath.OnlySessionsPass` | main/lwip_hooks.c:132-170 | after every run from boot a packet goes through as it came exactly if an active session owns its source or it stays local; whatever else gets through goes to the portal |
| `AccessPath.OverstayOnPath` | main/http_server.c:1172-1214 | an admitted address belongs to a session that ends later than any heartbeat behind |
| `AccessPath.NoSessionNoPath` | main/client_acl.c:113-131 | an address without an active session is not admitted |
| `ModbusCrc.Crc16` | main/pzem_reader.c:51-61 | the nested loops compute `Crc` of the first bytes of the buffer |
| `ModbusCrc.StepsFeed` | main/pzem_reader.c:54-59 | mixing bits into the register at once and shifting is feeding them one at a time |
| `ModbusCrc.CrcIsFeed` | main/pzem_reader.c:51-61 | the byte-wise computation is the bit-serial one, over any message |
| `ModbusCrc.PresetToOnes` | main/pzem_reader.c:53 | the register begins at all ones: the first sixteen bits of a message count turned over |
| `ModbusCrc.FeedLinear` | main/pzem_reader.c:54-59 | the register is linear over exclusive-or in contents and input |
| `ModbusCrc.AppendedPasses` | main/pzem_reader.c:88-90 | every message followed by its CRC, low byte first, passes the check |
| `ModbusCrc.PassesIffZero` | main/pzem_reader.c:115-117 | a frame passes if and only if the register ends at zero over the whole of it |
| `ModbusCrc.UndetectedIffNull` | main/pzem_reader.c:115-121 | a damaged frame passes if and only if the pattern of wrong bits takes the zero register back to zero |
| `ModbusCrc.BurstsDetected` | main/pzem_reader.c:115-121 | two frames of one length that pass and differ only within 16 consecutive bits are the same frame |
| `ModbusCrc.GeneratorUndetected` | main/pzem_reader.c:56 | sixteen is the limit: the generator x^16 + x^15 + x^2 + 1 goes unnoticed anywhere |
| `ModbusCrc.OddErrorsDetected` | main/pzem_reader.c:115-121 | two frames of one length that pass never differ in an odd number of bits |
| `PzemReader.BuildRequest` | main/pzem_reader.c:81-90 | the eight bytes of the request, which pass the check |
| `PzemReader.Read` | main/pzem_reader.c:93-135 | timeout, failure or reading as `Verdict` says |
| `PzemReader.OkIffFrame` | main/pzem_reader.c:93-135 | a read gives a reading if and only if 8 bytes went out, 25 came back and they are the frame of that reading from some address |
| `PzemReader.TimeoutIff` | main/pzem_reader.c:93-109 | a timeout means that the request went out whole and nothing came back; all else without a reading is a failure |
| `PzemReader.FrameIsAccepted` | main/pzem_reader.c:110-135 | every reading in range survives framing and decoding |
| `PzemReader.AcceptedIsFrame` | main/pzem_reader.c:110-135 | an accepted response is byte for byte the frame of what it decodes to |
| `PzemReader.DamageIsRefused` | main/pzem_reader.c:115-121 | a good response damaged by a burst of at most 16 bits or in an odd number of bits is refused |
| `PzemReader.EnergyMeter.EnergyToday` | main/pzem_reader.c:146-167 | in place, anchor and report are those of `After` and `Reported` |
| `PzemReader.AnchorIsLeast` | main/pzem_reader.c:146-167 | over any history the anchor is the least reading since the day number last changed |
| `PzemReader.ReportIsSinceLeast` | main/pzem_reader.c:163-166 | the report is the current reading less that least one, so the unsigned subtraction never wraps |
| `PzemReader.ReportGrows` | main/pzem_reader.c:160-166 | within a day, while the meter does not go back, the report grows by exactly what the meter does |
| `DnsWire.SkipName` | main/dns_server.c:176-197 | the loop finds the end `SkipFrom` says, 0 for none |
| `DnsWire.GetQuestionInfo` | main/dns_server.c:215-262 | the loop gives what `QuestionInfo` says: success, text so far and type |
| `DnsWire.CopyLabel` | main/dns_server.c:239-247 | a label is appended to the text as far as the 95 bytes reach, with a dot before all but the first |
| `DnsWire.WireRoundTrip` | main/dns_server.c:176-197 | the reference parser reads every list of labels back from its wire form, wherever it stands |
| `DnsWire.WalkersAgree` | main/dns_server.c:176-262 | the question reader succeeds if and only if the packet holds a question by the reference parser; then its text is the dotted name cut to 95 bytes, its type is right, and the name skipper finds the same end |
| `DnsWire.BrokenQuestion` | main/dns_server.c:221-262 | a question that cannot be read to its end leaves the text of the labels before, cut to 95 bytes, and type 0; a packet under 16 bytes leaves "<unknown>" |
| `DnsKey.Normalize` | main/dns_server.c:76-81 | the buffer is put into lower case up to its NUL and left alone beyond |
| `DnsKey.LowerIff` | main/dns_server.c:76-81 | two bytes fall together exactly if they are the same or the two cases of a letter |
| `DnsKey.SameKeyIff` | main/dns_server.c:480-493 | two questions whose labels hold no dot or NUL and whose text fits have the same key if and only if they have the same type and the same labels up to case |
| `DnsKey.SameQuestionIff` | main/dns_server.c:480-493 | a query that shares the key of such a question asks the same, up to case, if and only if it is such a question itself |
| `DnsKey.LongNamesCollide` | main/dns_server.c:239-247 | names that fill the buffer share a text whatever follows |
| `DnsKey.UncleanNamesCollide` | main/dns_server.c:237-247 | a dot or a NUL inside a label makes different names share a text |
| `DnsResponse.BuildResponse` | main/dns_server.c:264-311 | -1 exactly when no response can be built; otherwise the bytes are `Response` and their number is returned; every access is within the buffers |
| `DnsResponse.BuildServfail` | main/dns_server.c:313-322 | the same without answers and with RCODE 2 |
| `DnsResponse.ResponseReadsBack` | main/dns_server.c:264-322 | an RFC 1035 parser reads from the response the query's id and question, QR set, and one A record for the name with TTL 60 and the portal's address, or none; it can read it at all if and only if the query counts one question and that is well formed |
| `DnsResponse.AnswerRead` | main/dns_server.c:297-308 | the sixteen answer bytes read as one A record under the question's name |
| `DnsCache.Ttl` | main/dns_server.c:57-74 | a cached answer lives until the next UTC midnight, or twelve hours without a clock |
| `DnsCache.Cache.Lookup` | main/dns_server.c:84-101 | the slot is the first unexpired one with the key; expired entries passed on the way are dropped, nothing else changes |
| `DnsCache.Cache.FindPlace` | main/dns_server.c:112-132 | the first free slot or the key's own, else the first of the earliest to expire |
| `DnsCache.Cache.Insert` | main/dns_server.c:105-141 | one slot changes, to the new entry; empty and oversized responses are ignored |
| `DnsCache.LookupFinds` | main/dns_server.c:84-101 | a lookup hits if and only if the map has the key unexpired, and finds what the map has |
| `DnsCache.MissPurges` | main/dns_server.c:84-101 | on a miss the cache becomes the unexpired part of the map, and the key is not in it |
| `DnsCache.HitKeeps` | main/dns_server.c:84-101 | on a hit only expired entries may be gone |
| `DnsCache.InsertAdds` | main/dns_server.c:105-141 | inserting a new key adds it to the map; only a full cache loses an entry, one that expires no later than any other; keys stay distinct |
| `DnsCache.InsertAgainIff` | main/dns_server.c:112-141 | inserting a key that is there replaces its entry if and only if no slot before it is free; otherwise the key is there twice |
| `DnsServer.Server.ReadKey` | main/dns_server.c:480-493 | name buffer, case folding and C string reading give the key of the packet |
| `DnsServer.Server.HandleQuery` | main/dns_server.c:476-530 | cache and reply after one datagram are those of `Serve`: ignored, captive, cached, forwarded or SERVFAIL |
| `DnsServer.Server.CheckARecord` | main/dns_server.c:199-213 | whether the question is for an A record of class IN |
| `DnsServer.Server.BuildCached` | main/dns_server.c:146-158 | the cached bytes with the first two replaced by the live id |
| `DnsRuns.RunTells` | main/dns_server.c:476-530 | over every run the cache represents a map that holds for each of its keys what was last stored under it |
| `DnsRuns.HitIsLastStored` | main/dns_server.c:500-512 | over every run a query is answered from the cache only with what the resolvers last answered to its key, unexpired and unchanged but for the id; and if at each store fewer keys held unexpired answers than there are slots, it is so answered whenever there is one |
| `DnsRuns.LogIsGood` | main/dns_server.c:505-510 | only answers with RCODE 0 and a record, given to authenticated queries, are ever stored |
| `DnsRuns.CachedAnswersTheQuestion` | main/dns_server.c:480-512 | an answer from the cache is what answered an earlier query with the same key; for a question whose labels hold no dot or NUL and whose text fits, that query asked for the same labels up to case and the same type if and only if it was such a question too |
| `DnsRuns.AnotherAnswerIsServed` | main/dns_server.c:237-247 | a run in which the answer to a single label holding a dot is served to the question for the two labels around it |
| `DnsRuns.ShortPacketsCollide` | main/dns_server.c:221-228 | packets too short for a question share a key, and the second is served what answered the first |
| `DnsRuns.Isolated` | main/dns_server.c:517-528 | over every run, clients without a session leave no trace in the cache and their replies do not depend on it |
| `DnsAccess.AuthenticatesIff` | main/http_server.c:971-1028 | a query by address gives some seconds if and only if the session at the address or, where none is, that of the client last seen there has a whole second left |
| `DnsAccess.SecondsLeft` | main/http_server.c:971-1023 | the seconds told are the whole ones left; an expired session is ended, and -1 told |
| `DnsAccess.ResolvesIff` | main/dns_server.c:490-528 | after every run in step a name is resolved, from the cache or upstream, if and only if such a session exists; any other sender gets the captive answer and leaves the cache alone |
| `DnsAccess.PathAgrees` | main/http_server.c:971-1028 | once an address was asked about, its packets pass if it was resolved for; and if they pass and do not stay local it was, or its session is in its last second |
| `DnsReplies.MissReplies` | main/dns_server.c:476-515 | what is no query gets nothing; a query with a session and no kept answer gets the upstream bytes, and without any RCODE 2, its id and question and no record |
| `DnsReplies.CaptiveReplies` | main/dns_server.c:517-526 | without a session a query gets its question back with one A record, the portal's address, if it asks for type 1 and class 1 and that fits, and no record otherwise |
| `DnsReplies.FitsIff` | main/dns_server.c:264-296 | a response can be built if and only if the query fits the buffer, the buffer has 32 bytes, and the answer fits behind the question |
| `DnsReplies.HitReplies` | main/dns_server.c:500-504 | over every run, a kept answer is a good one given before to the same key, and goes out under the live id |
| `DnsReplies.GoodAnswersAreKept` | main/dns_server.c:505-511 | after any run, an upstream answer is given to the next query with its key if and only if it had no error and a record and has not expired |
| `DnsService.EveryReply` | main/dns_server.c:476-530 | after every run of the portal in step and of the server: captive, kept, forwarded or failed, with the bytes each of these means |
| `BatteryMonitor.DebounceIsExact` | main/battery_sensor.c:173-242 | one sample keeps each counter at the number of samples in a row, since the state was entered, that meet its condition, below 6 and zero outside its state; the state changes exactly when a condition has held six times running |
| `BatteryMonitor.RunIsExact` | main/battery_sensor.c:153-242 | so over every history |
| `BatteryMonitor.SixSamplesEach` | main/battery_sensor.c:153-242 | n samples make at most n/6 transitions |
| `BatteryMonitor.NeverWakesAgain` | main/battery_sensor.c:217-227 | no run comes back to WAKE_UP |
| `BatteryMonitor.CriticalToNormal` | main/battery_sensor.c:203-240 | from CRITICAL a run reaches NORMAL only after six samples above 12.8 V and then six above 13.2 V |
| `BatteryMonitor.RecoveryNeedsBoth` | main/battery_sensor.c:203-240 | the same for WAKE_UP, and for reaching WARNING |
| `BatteryMonitor.ChargingOnHasNoFloor` | main/battery_sensor.c:229-240 | in CHARGING_ON no low voltage ends the state: while no sample exceeds 13.2 V the ports stay permitted |
| `BatteryMonitor.BootPortsIff` | main/battery_sensor.c:244-257 | at boot the ports are permitted if and only if the voltage is above 12.8 V or in (11.8, 12.4] |
| `BatteryMonitor.BootRanges` | main/battery_sensor.c:244-257 | each state has its range of boot voltages |
| `BatteryMonitor.BootIsStable` | main/battery_sensor.c:244-257 | while the voltage is what it was at boot the state stays |
| `BatteryMonitor.BootVoltageIsMean` | main/battery_sensor.c:265-276 | the boot voltage is the one voltage the successful readings deviate from by nothing in all |
| `BatteryMonitor.BatteryPercent` | main/battery_sensor.c:44-54 | between 0 and 100, 100 exactly from 13.02 V, 0 exactly to 11.6 V |
| `BatteryMonitor.PercentGrows` | main/battery_sensor.c:44-54 | a higher voltage never shows a lower charge, and a strictly higher one within the range |
| `BatteryMonitor.PercentIsLinear` | main/battery_sensor.c:44-54 | within the range equal steps of voltage are equal steps of charge |
| `RfidReader.Reader.constructor` | main/rfid_reader.c:290-303 | all pins low, ports permitted, no card |
| `RfidReader.Reader.SetPowerState` | main/rfid_reader.c:305-322 | the pins follow the request as far as the battery permits, and are not written when nothing changes |
| `RfidReader.Reader.SetPortsAllowed` | main/rfid_reader.c:324-337 | withdrawing permission cuts powered pins; granting it powers none |
| `RfidReader.Reader.PollOnce` | main/rfid_reader.c:345-407 | one round of the loop amounts to `Poll` |
| `PowerInterlock.Monitor.EvaluateTransitions` | main/battery_sensor.c:173-242 | battery state, access point, pins and permission after a sample are those of `Step` |
| `PowerInterlock.Monitor.TransitionTo` | main/battery_sensor.c:153-168 | a transition clears all four counters and applies the new state's actions |
| `PowerInterlock.Monitor.ApplyActions` | main/battery_sensor.c:135-151 | access point on in NORMAL alone, ports permitted in NORMAL, WARNING and CHARGING_ON |
| `PowerInterlock.Monitor.BootUp` | main/battery_sensor.c:265-279 | the boot state is decided on the mean of the readings that succeeded, 0 V without any |
| `PowerInterlock.StepKeepsSafe` | main/rfid_reader.c:305-407 | every event keeps the six pins alike, permission equal to the battery state's, and power only with permission and a card |
| `PowerInterlock.RunIsSafe` | main/rfid_reader.c:305-407 | so in every reachable state, and the presence callback has been told true, false, true, … and last what is the case |
| `PowerInterlock.PowerExplained` | main/rfid_reader.c:305-390 | over every run the outputs are powered if and only if an authorized card was read at most 1000 ms before the last poll and neither another card nor the battery has undone it since |
| `PowerInterlock.RunIsFresh` | main/rfid_reader.c:345-407 | over every run, power means an authorized read at most 1000 ms before the last poll, across wraps of the 32-bit tick counter |
| `PowerInterlock.PresentIffNoticed` | main/rfid_reader.c:345-407 | over every run a card counts as present if and only if an authorized one was read, no other since, and no poll more than 1000 ms after the last authorized read found none |
| `PowerInterlock.Interlock` | main/rfid_reader.c:290-407 | if any pin is powered after any run, all six are, the battery is in NORMAL, WARNING or CHARGING_ON, a card counts as present, and an authorized number was read at most 1000 ms before the last poll |
| `PowerInterlock.ApFollowsBattery` | main/battery_sensor.c:138-143 | the users' access point is up exactly in NORMAL while the radio's switches succeed |
| `PowerInterlock.BatteryRunsAlone` | main/battery_sensor.c:259-316 | card polls do not disturb the debouncing |
| `FormDecoder.Preprocess` | components/cmd_router/cmd_router.c:67-97 | in place, the buffer holds the left-to-right decoding of the string, its NUL, and beyond that what it held before |
| `FormDecoder.DecodeInverts` | components/cmd_router/cmd_router.c:67-97 | decoding inverts every percent/plus encoder, whatever it leaves as it is and whichever case it writes its digits in, and the encoded text has no NUL |
| `FormDecoder.AnyDigit` | components/cmd_router/cmd_router.c:75-88 | characters that are no digits count as well, by their distance from the digits or letters, modulo 256 |
| `FormDecoder.IdentityIffPlain` | components/cmd_router/cmd_router.c:67-97 | a string is left alone if and only if it has no '+' and no '%' with two characters after it |
| `FormDecoder.DecodeForm` | components/cmd_router/cmd_router.c:67-97 | on the buffer: an encoded text is replaced by the text, terminated where it ends |
| `HtmlEscape.Escape` | main/http_server.c:1327-1344 | the buffer is allocated at the exact size, filled to its last byte with the escaped text and a NUL, and never overrun |
| `HtmlEscape.EscapedLength` | main/http_server.c:1328-1332 | each of the six special characters takes four more bytes |
| `HtmlEscape.EscapedIsHarmless` | main/http_server.c:1335-1341 | no backslash or quote comes out, and '&', '#' and ';' only as parts of a five-character reference |
| `HtmlEscape.EscapeRoundTrip` | main/http_server.c:1327-1344 | reading numeric references back gives the source, for every string |

## Left out

- Interleavings inside an event: the tasks share sessions, records, the client table and the pins without locks, and a
  step here is atomic. In particular `main/rfid_reader.c:305-316` interleaved with `main/rfid_reader.c:324-334` can
  leave the pins at odds with the permission; that is not modelled.
- PortalRuns.AdmittedIffOwned: stated for runs whose events are identified and keep step; the sessions of clients whose
  hardware address cannot be found have no key the client table could be indexed by.
- PortalDay.DailyBound: stated for identified clients, and for runs that do not disturb the client's ledger; where they do,
  `PortalWitnesses.OverdueIsGrantedTwice` exceeds the bound.
- DnsWire.WalkersAgree: the reference parser does not enforce the 255-byte limit on names (section 2.3.4 of RFC 1035),
  because neither walker does.
- PacketHook.RedirectKeepsChecksums: sums are compared modulo 65535; `PacketHook.RedirectRecomputes` compares the bytes.
- PacketHook.RedirectRecomputes: a checksum of 65535 is covered unless the portal is at 0.0.0.0. An adjusted UDP checksum
  may become 0, as a fresh one would before RFC 768 replaces it by 65535, and is then read as absent.
- DnsRuns.HitIsLastStored: when a store finds every slot taken by an unexpired answer, `DnsCache.InsertAdds` says which
  is lost.
- DnsAccess.ResolvesIff: for runs in step, as `PortalRuns.AdmittedIffOwned`; the query and the reply are two events.
- DnsService.EveryReply: likewise.
- PowerInterlock.PresentIffNoticed: a poll that finds no card comes less than a wrap of the tick counter after the last
  authorized read; later the age of that read could not be told.
- PortalGrants.TodayIsUtcDay: for dates before day 2^32, where the source's cast of the day to 32 bits would lose digits.
- BatteryMonitor.BatteryPercent: over the reals, like all voltages; the rounding of 32-bit floats is not modelled.
- PzemReader.Read: readings in the meter's integer units; the divisions to floats that follow are left out.
- Clocks: microseconds since boot stay below 136 years, where the source's cast of elapsed seconds to 32 bits would
  lose digits. The reader loop is never a whole wrap of the tick counter late.
- NVS persistence of quota records: a boot clears what was stored (`main/http_server.c:339-346`).
- Supabase updates, queues and heartbeats, network diagnostics, logging: network calls with no local guarantee.
- Web pages, HTTP plumbing, admin forms and authentication, console commands, port map, DHCP options, tokens and hashes.
- SPI, UART, I2C, ADC, Wi-Fi and lwIP drivers: their results are inputs. Upstream name resolution is one input per
  query, whichever of the three resolvers answers.
- `main/port_sensors.c`: its in-use seconds lose the fraction of every poll, so the intended count does not hold.
- The build variants with card or battery enforcement switched off.
- Antenna handling, delays and the anticollision checksum of a card read.

Where documentation and code differ the model follows the code. `SYSTEM_ARCHITECTURE.md:229` puts a full battery at
13.9 V, `main/battery_sensor.h:82` at 13.02 V. `main/rfid_reader.h:20-22` speaks of ports forced off in Critical; the code
forces them off in Wake Up as well.

# Mapping daemon: a verified model

A CPE daemon behind DS-Lite gives LAN devices inbound port mappings over UPnP IGD, PCP and NAT-PMP. This project
models its control plane in Dafny and proves what it promises. `dafny verify dfyconfig.toml` checks everything.

Objects the daemon updates in place are classes whose methods are proved against a specification function on a value
state; theorems about whole runs are stated over those functions. What each function answers is also proved in terms
that do not name it: members, counts, bits and constants written out. Clocks, sockets, the connection table, the outcome
of raising a datapath, random identifiers and the keyed hash are inputs of each step.

| files | part of the daemon |
|---|---|
| `lease_table`, `table_laws`, `table_clock` | the lease table: allocation, quota, refresh, collectors, eviction, moves, restore |
| `facade`, `agreement`, `facade_laws`, `facade_runs` | the facade: a second index, sorted by label, that must agree with the table |
| `grant_answers`, `edit_answers`, `collecting` | what its grants, deletes, wildcard labels, yields, stamps and collectors answer and change, in written-out terms |
| `agreement_exact`, `self_mapped`, `containment`, `backed_runs`, `lost_agreement` | exactly when that agreement holds, whom a caller can touch, and runs that lose it |
| `text`, `persist`, `respawn`, `respawn_runs`, `respawn_index`, `file_forms` | lease file and index file, and the respawn that rebuilds both |
| `engine`, `engine_laws`, `engine_history`, `engine_release`, `engine_claims`, `engine_probes` | the observation engine's tick: budgets, pins, claims, probes and releases over whole runs |
| `http_head`, `dispatch`, `dispatch_laws`, `dispatch_answers`, `parity` | header lookup, SOAP dispatch, POST and M-POST parity |
| `civil_date`, `http_date` | the HTTP date |
| `octets`, `stun`, `stun_answers`, `pcp`, `pcp_options`, `shared_port`, `shared_replies` | STUN attributes, PCP requests and options, the port PCP shares with NAT-PMP |
| `vote`, `dp`, `dp_runs`, `dp_laws`, `gena`, `gena_runs`, `gena_terms` | the STUN vote, DeviceProtection sessions, eventing |
| `net`, `seqs` | machine integers, addresses, and vector operations |

## What the code does not promise

Each of these is stated with the exact condition under which the code does meet the property.

- A refresh may relabel an entry onto a label another entry of the same caller has, and label 0, which a
  PCP or NAT-PMP client that suggests no port uses, is never taken over. Deleting a label the caller has several times
  tears down one slot and drops every entry:
  `LostAgreement.RelabelLosesAgreement` and `LostAgreement.LabelZeroLosesAgreement` are such runs, and
  `FacadeLaws.DeleteExactly` and `Containment.GrantThenDeleteExactly` say exactly when.
- The table finds a mapping by its target and the index by its requester. For a caller lifted to map for others the two
  keep the same mappings exactly when both lookups hit or both miss (`FacadeLaws.RecordExactly`,
  `Containment.GrantExactly`). Two hits on different mappings still part the terms, unless both carry them already:
  `LostAgreement.LiftedRefreshPartsTerms` is such a run, and `FacadeLaws.RecordTermsExactly` and
  `AgreementExact.GrantAgreesExactly` give the condition with the terms.
- Nothing else costs the agreement: `AgreementExact.RunAgreesExactly` says so of every run.
- `restore_bind_port` does not ask whether the old port is still free: `TableLaws.RestorePortCollides` and, exactly,
  `TableLaws.RestorePortExactly`.
- A lease that had expired at a respawn comes back with a second to live while its index entry keeps the old expiry:
  table and index agree on terms exactly when none had (`RespawnIndex.RespawnKeepsAgreement`).
- A restore with a zero lifetime would abort in `clamp`; it is an error value here, and
  `Respawn.RestoreGrantsExactly` names it among the conditions.
- Action names are documented as case-sensitive but compared without regard to case; the model follows the code
  (`DispatchLaws.ParsesExactly`).
- POST and M-POST part ways for a namespace token with a colon in it, since its header's name ends there: no action is
  found, and a token such as `SID:` even names an event marker. `Parity.ParityExactly` says for every request line which
  tokens these are, and `Parity.StatusParts` and `Parity.MarkerParts` give the texts that fail.
- None of this costs more than the agreement: a respawn rebuilds the table after every run
  (`RespawnIndex.RespawnAfterAnyRun`), and callers that map for themselves stay contained
  (`BackedRuns.ContainedAfterAnyRun`).

## Model

| member | source | states |
|---|---|---|
| `LeaseTables.LeaseTable.constructor` | src/slot.rs:152-160 | A new table is empty and reserves nothing. |
| `LeaseTables.LeaseTable.FindFreeBindPort` | src/slot.rs:175-183 | The allocation scan gives the lowest port of the range that is neither held nor reserved, or none when there is none. |
| `LeaseTables.LeaseTable.UpsertPcp` | src/slot.rs:297-345 | A refresh of a held key keeps its port and target; else the client's quota is judged before the capacity and the free ports; otherwise one slot joins. A refusal leaves the table as it was. |
| `LeaseTables.LeaseTable.AddStatic` | src/slot.rs:348-369 | A static map joins on its port or is refused for a port outside the range or a held one, in that order, and does not ask for capacity. |
| `LeaseTables.LeaseTable.DeleteByBindPort` | src/slot.rs:377-386 | The slot on that port goes, the last slot takes its place, and nothing else changes. |
| `LeaseTables.LeaseTable.Gc` | src/slot.rs:389-410 | The drain keeps, in order, exactly the slots that are static, no more than the grace past their lease, or seen within the grace, and returns exactly the ports of the rest. |
| `LeaseTables.LeaseTable.GcIdle` | src/slot.rs:428-444 | The sweep frees exactly the UDP grants not seen within the backstop, and returns their ports. |
| `LeaseTables.LeaseTable.StampActivityIfStale` | src/slot.rs:413-423 | The last-seen clock of one slot moves to now when it is older than the interval; all else stays. |
| `LeaseTables.LeaseTable.EvictIdleClient` | src/slot.rs:447-471 | The candidate is a UDP grant of another client, silent beyond the grace, and no such grant has been silent for longer; none exactly when no slot qualifies. |
| `LeaseTables.LeaseTable.ReserveLive` | src/slot.rs:188-196 | Exactly the live ports inside the range are reserved, replacing earlier reservations. |
| `LeaseTables.LeaseTable.MoveBindPort` | src/slot.rs:225-235 | A slot moves to the lowest free port, which is returned; with nowhere to go nothing moves. |
| `LeaseTables.LeaseTable.RestoreBindPort` | src/slot.rs:238-243 | The slot on the one port goes back to the other, without asking whether that one is free. |
| `LeaseTables.LeaseTable.RestoreAll` | src/slot.rs:474-511 | Statics then grants are rebuilt in order up to the first rejection, which leaves exactly what was rebuilt before it; a remaining second at least and the lifetime at most; a zero lifetime is the clamp failure. |
| `LeaseTables.RefusalChangesNothing` | src/slot.rs:297-345 | An upsert that is not admitted returns the very same table. |
| `TableLaws.UpsertPort` | src/slot.rs:297-345 | A fresh grant takes the lowest port neither held nor reserved; a refresh never moves its port. |
| `TableLaws.DeleteMembers` | src/slot.rs:384-386 | With distinct ports a delete takes the slot on that port and no other. |
| `TableLaws.RestorePortExactly` | src/slot.rs:238-243 | Putting a lease back keeps ports distinct if and only if the slot is missing, the port is unchanged, or no slot holds the target. |
| `TableLaws.RestorePortCollides` | src/slot.rs:225-243 | From an empty table a grant, a move, new reservations, a grant to another client and the move taken back end with two slots on one port. |
| `TableLaws.DoSize` | src/slot.rs:297-369 | Only a static insert can pass the capacity. |
| `TableLaws.DoKeeps` | src/slot.rs:297-471 | Every table operation keeps ports distinct and in range, keys distinct and quotas respected. |
| `TableLaws.EveryRunKeepsTheTable` | src/slot.rs:175-471 | The same over every sequence of operations in which a lease is only put back onto a free port of the range. |
| `TableClock.RunStaysInStep` | src/slot.rs:297-425 | Over every run with a nondecreasing clock, each grant records its last admitted request and a last-seen time no older than peer traffic less the stamp limit. |
| `TableClock.GrantsAreRemembered` | src/slot.rs:297-345 | In a run from a table without grants, every grant goes back to an admitted request of that run. |
| `TableClock.GcWaitsOutTheLease` | src/slot.rs:389-410 | The expiry scan never frees a grant before its last request plus lifetime plus grace. |
| `TableClock.GcIdleSparesTraffic` | src/slot.rs:413-444 | The backstop sweep never frees a grant that peer traffic reached within the backstop less the stamp interval. |
| `Facade.UpnpFacade.constructor` | src/upnpsvc.rs:171-183 | Rows read back for ports the table no longer holds are dropped, the rest are the index. |
| `Facade.UpnpFacade.ApplyInPlace` | src/upnpsvc.rs:2782-2845 | An entry of the same internal port is rewritten and re-sorted, else one of the same non-zero label is taken over and its old port returned, else one is added. |
| `Facade.UpnpFacade.EvictCandidate` | src/upnpsvc.rs:996-1020 | The evicted slot and the entries of its port go together. |
| `Facade.UpnpFacade.UpsertUnderPressure` | src/upnpsvc.rs:514-546 | A full table is relieved by at most one eviction and one more try; otherwise the state is left alone. |
| `Facade.UpnpFacade.RecordGrant` | src/upnpsvc.rs:605-625 | The admitted slot gets its entry and the slot its owner thereby abandons goes. |
| `Facade.UpnpFacade.GrantMapping` | src/upnpsvc.rs:490-630 | Containment, reservation, admission, datapath rollback and recording give exactly the granted state or an error with the state restored up to reservations and relief; GrantAnswers says which. |
| `Facade.UpnpFacade.FreeRequestedPort` | src/upnpsvc.rs:2543-2556 | The label found is the lowest from 1024 that no entry of the protocol uses, or 65535 when all are in use. |
| `Facade.UpnpFacade.AllocatePreferred` | src/upnpsvc.rs:1177-1215 | Containment is judged on the request as sent; then the label is resolved and granted. |
| `Facade.UpnpFacade.DeleteMapping` | src/upnpsvc.rs:1072-1114 | The first entry of the caller under the label names the slot torn down; every entry of the caller under that label is dropped. |
| `Facade.UpnpFacade.DeleteMappingRange` | src/upnpsvc.rs:1218-1241 | Each entry of the range the caller may touch is deleted under its own owner; none is an error. |
| `Facade.UpnpFacade.YieldPort` | src/upnpsvc.rs:1558-1623 | Slot and entry move to the new port together, or the slot is put back when the datapath does not come up. |
| `Facade.UpnpFacade.TearDownPorts` | src/upnpsvc.rs:1662-1680 | The entries of exactly the freed ports leave the index. |
| `Facade.UpnpFacade.CollectExpired` | src/upnpsvc.rs:1625-1660 | One expiry pass over table and index; Collecting says what goes. |
| `Facade.UpnpFacade.CollectIdle` | src/upnpsvc.rs:1625-1660 | One backstop pass over table and index; Collecting says what goes. |
| `Facade.UpnpFacade.StampClient` | src/upnpsvc.rs:1683-1700 | Every slot that an entry targeting the client is bound to is stamped. |
| `Agreement.TermsThenIdentity` | src/upnpsvc.rs:2782-2845 | Agreement on terms contains agreement on identity. |
| `Agreement.EvictKeepsAgreement` | src/upnpsvc.rs:996-1020 | Pressure eviction frees the same mapping on both sides. |
| `Agreement.CollectKeepsAgreement` | src/upnpsvc.rs:1662-1680 | Either collector frees the same mappings on both sides. |
| `Agreement.StampPortsKeepsAgreement` | src/upnpsvc.rs:1683-1700 | Stamping moves no mapping on either side. |
| `Agreement.FailedYieldOnlyReserves` | src/upnpsvc.rs:1585-1596 | A yield whose datapath fails leaves the table as it was, but for the old port, which stays reserved. |
| `Agreement.YieldKeepsAgreement` | src/upnpsvc.rs:1558-1623 | A yield moves both sides to the same new port, or neither. |
| `FacadeLaws.DeleteExactly` | src/upnpsvc.rs:1072-1114 | From agreement, a delete keeps it if and only if the caller has that label once; otherwise one slot is torn down and several entries are dropped. |
| `FacadeLaws.FreshIsRecorded` | src/upnpsvc.rs:2782-2845 | A fresh slot and its entry join in agreement, also when the entry takes over a label whose slot is then torn down. |
| `FacadeLaws.RefreshIsRecorded` | src/upnpsvc.rs:2782-2845 | A refreshed slot and its rewritten entry stay in agreement. |
| `FacadeLaws.RecordExactly` | src/upnpsvc.rs:542-622 | The table looks up by client and the index by owner: recording an admitted mapping keeps the identities in agreement if and only if both lookups hit or both miss. |
| `FacadeLaws.RecordTermsExactly` | src/upnpsvc.rs:542-622 | It keeps lifetime and expiry in agreement too if and only if both miss, both hit one mapping, or the two mappings they hit already carry the terms asked for. |
| `AgreementExact.GrantableExactly` | src/upnpsvc.rs:500-603 | A grant succeeds if and only if it is contained, on the LAN, admitted once pressure has made room, and, for a fresh slot, its datapath comes up. |
| `AgreementExact.GrantAgreesExactly` | src/upnpsvc.rs:490-630 | For any caller, label and view a grant keeps table and index in agreement, terms included, if and only if one of those guards refuses it or its lookups, made once pressure has made room, meet in that sense. |
| `AgreementExact.StepwiseExactly` | src/upnpsvc.rs:1218-1241 | Whether each delete of a range finds its label once shows in the entries before the first: after some deletes a label is all there or all gone. |
| `AgreementExact.DeleteAllAgreesExactly` | src/upnpsvc.rs:1218-1241 | A range delete keeps agreement if and only if, in the entries before it, every label of the range whose first entry the caller may touch is there once; otherwise a granted slot without an entry is left for good. |
| `AgreementExact.StepAgreesExactly` | src/upnpsvc.rs:490-1680 | Any step keeps agreement if and only if the lookups of its grant meet and the labels it deletes are there once, both judged before the step. |
| `AgreementExact.RunAgreesExactly` | src/upnpsvc.rs:490-1680 | Over every run of any callers under any labels, table and index agree all along if and only if every step meets that condition. |
| `FacadeRuns.EveryRunStaysSorted` | src/upnpsvc.rs:2772-2845 | Over every run of grant, refresh, supersede, delete, range delete, both collectors, eviction, yield and every rollback, the index stays sorted by label and protocol. |
| `FacadeRuns.RollbackUndoes` | src/upnpsvc.rs:562-602 | Taking back a slot just granted restores the very same table. |
| `FacadeRuns.StepKeepsInv` | src/upnpsvc.rs:490-1680 | Each disciplined step keeps table invariant, agreement on identity and terms, and distinct labels and internal ports per owner. |
| `FacadeRuns.EveryDisciplinedRunAgrees` | src/upnpsvc.rs:490-1680 | Over every run in which callers map for themselves under non-zero labels and never relabel onto another of their own, slots and entries are in bijection: bind port, protocol, client, internal port, lifetime and expiry. |
| `SelfMappedRuns.SelfStepExactly` | src/upnpsvc.rs:490-1680 | A step of a self-mapping caller, under label 0 or relabelling as it likes, loses the agreement if and only if it deletes a label the owner has several times. |
| `SelfMappedRuns.EverySelfMappedRunAgrees` | src/upnpsvc.rs:490-1680 | So over every run in which callers map for themselves and delete a label only while they have it once, slots and entries are in bijection with their terms. |
| `SelfMappedRuns.SelfMappedRunMeets` | src/upnpsvc.rs:490-1680 | Such a run meets the exact condition of every run at every step. |
| `SelfMappedRuns.DisciplinedIsSelfMapped` | src/upnpsvc.rs:2796-2807 | A run under non-zero labels without a relabelling clash is such a run. |
| `Containment.SelfGrantSparesOthers` | src/upnpsvc.rs:514-546 | A grant changes no other owner's entry or slot, except that of the one evicted slot, which is a maximally idle UDP grant of another client silent beyond the grace. |
| `Containment.ContainedGrantSparesOthers` | src/upnpsvc.rs:2569-2574 | A contained caller either maps for itself, and then spares the others, or is refused. |
| `Containment.DeleteSpares` | src/upnpsvc.rs:1072-1114 | A delete touches only the caller's own entries and slots. |
| `Containment.ContainedPreferredSparesOthers` | src/upnpsvc.rs:1177-1215 | The same for AddAnyPortMapping, whose label is resolved after the request was judged. |
| `Containment.ContainedRangeSparesOthers` | src/upnpsvc.rs:1218-1241 | A contained range delete takes the caller's own entries and slots only. |
| `Containment.GrantExactly` | src/upnpsvc.rs:500-630 | For any caller, lifted ones included, an admitted grant keeps the identities in agreement if and only if both lookups, made once pressure has made room, hit or both miss. |
| `Containment.GrantThenDeleteExactly` | src/upnpsvc.rs:2796-2830 | A mapping granted to its own caller under any label and then deleted by it: agreement holds if and only if the caller then has the label once, which the entries before the grant already decide. |
| `BackedRuns.StepKeepsBacked` | src/upnpsvc.rs:490-1680 | Any step of a self-mapping caller, deletes of a label it has several times included, leaves each entry's slot its owner's. |
| `BackedRuns.EverySelfMappingRunStaysBacked` | src/upnpsvc.rs:490-1680 | The same over every run of self-mapping callers, whatever labels they use and delete. |
| `BackedRuns.ContainedAfterAnyRun` | src/upnpsvc.rs:2569-2579 | After any such run, a contained caller's add, delete or range delete changes no other owner's entry or slot, except the one evicted slot, a maximally idle UDP grant of another client silent beyond the grace. |
| `LostAgreement.RelabelLosesAgreement` | src/upnpsvc.rs:2796-2807 | From an empty facade, labels 5 and 6 granted to a client, 6 refreshed as 5, and 5 deleted: a granted slot without an entry is left. |
| `LostAgreement.LabelZeroLosesAgreement` | src/upnpsvc.rs:2808-2830 | The same after two grants under label 0, which is never taken over, and its delete. |
| `LostAgreement.LiftedRefreshPartsTerms` | src/upnpsvc.rs:542-622 | A lifted caller maps for one client and then asks for the mapping a second client made: slots and entries still match, their terms do not. |
| `Containment.WildcardLabelIsFree` | src/upnpsvc.rs:2543-2590 | A label found for a wildcard request is used by no entry of the protocol while one below 65535 is free, so relabelling onto it never clashes. |
| `Persist.WriteTsv` | src/persist.rs:74-93 | The printed bytes are the rows in bind-port order, one line each. |
| `Persist.ReadLeases` | src/persist.rs:121-180 | The rows that parse come back in order and the rest are counted as skipped. |
| `Persist.Snapshot` | src/persist.rs:38-71 | One row a slot, in the order of the table, each under the slot's bind port. |
| `Persist.RowRoundTrip` | src/persist.rs:121-180 | A printed row parses to itself. |
| `Persist.TsvRoundTrip` | src/persist.rs:74-180 | Printing and parsing gives the rows sorted by bind port with none skipped. |
| `Persist.TsvIgnoresOrder` | src/persist.rs:74-93 | For distinct bind ports the bytes are the same for every input order. |
| `Respawn.RestoreGrantsExactly` | src/slot.rs:474-511 | A restore of grants succeeds if and only if every port is in range and not held, they differ, and no lifetime is zero; each record is then one slot, in order. |
| `Respawn.RespawnBuilds` | src/main.rs:758-785 | From a restorable table, snapshot, print, parse, filter and restore never errs and appends the restored records to the statics. |
| `Respawn.RespawnRebuilds` | src/main.rs:758-785 | The rebuilt table is exactly the configured statics and every grant again under its port, key, target and lifetime; an unexpired lease keeps its expiry and an expired one gets now plus one. |
| `Respawn.RespawnKeepsTheTable` | src/slot.rs:474-511 | The rebuilt table satisfies the table invariant and is itself restorable. |
| `RespawnRuns.StepHolds` | src/upnpsvc.rs:490-1680 | Any step of any caller under any label leaves a restorable table restorable and no entry on the port of a static. |
| `RespawnRuns.EveryRunIsRestorable` | src/upnpsvc.rs:490-1680 | Whatever a run of any callers under any labels does before a respawn, lifted callers and lost agreement included, the table it reaches can be restored then. |
| `RespawnRuns.AgreementIsGrounded` | src/upnpsvc.rs:171-183 | A state whose table and index agree has no entry on the port of a static, so such runs may start there. |
| `RespawnIndex.EntryRoundTrip` | src/upnpsvc.rs:3241-3289 | An index row parses back to its entry. |
| `RespawnIndex.IndexRoundTrip` | src/upnpsvc.rs:3241-3300 | The index file reads back as the index in its order, with nothing skipped. |
| `RespawnIndex.RespawnKeepsAgreement` | src/upnpsvc.rs:3292-3300 | After a respawn table and index agree on identity, and on terms if and only if no lease had expired. |
| `RespawnIndex.EveryRunStaysClean` | src/upnpsvc.rs:2597-2604 | Over every run whose requests carry descriptions without separators, no stored description has one. |
| `RespawnIndex.RespawnedIndex` | src/upnpsvc.rs:171-183 | What a respawn makes of any index with clean descriptions: exactly the entries whose port the table held, still on no static. |
| `RespawnIndex.RespawnAfterAnyRun` | src/main.rs:758-785 | After any run of any callers a respawn from both files never errs, rebuilds every static and every grant, brings back exactly the entries whose port was held, and leaves a state runs and respawns can go on from. |
| `RespawnIndex.RespawnAfterAgreeingRun` | src/main.rs:758-785 | After a run that met the exact condition of agreement all along no entry is dropped, and index and table agree on identity, and on terms if and only if no lease had expired. |
| `Engine.ObservationEngine.PinAdd` | src/engine.rs:72-74 | A self-pin is added under its port, or a failed add has dropped the key. |
| `Engine.ObservationEngine.PinDel` | src/engine.rs:76-80 | Only a pin on the NAT address is taken away. |
| `Engine.ObservationEngine.Bookkeep` | src/engine.rs:223-247 | Missing and silent ticks of every hold move as the live list and the inbound counter say. |
| `Engine.ObservationEngine.TryClaim` | src/engine.rs:249-352 | A candidate is claimed, refused, or given up at any of its four steps with its pins rolled back. |
| `Engine.ObservationEngine.AgeCandidates` | src/engine.rs:356-375 | Ages move and are pruned only on a tick with a live list. |
| `Engine.ObservationEngine.QuietHolds` | src/engine.rs:378-391 | A device packet or a peer datagram resets the quiet count. |
| `Engine.ObservationEngine.ProbeHolds` | src/engine.rs:398-407 | One probe counts for every hold of that device. |
| `Engine.ObservationEngine.WatchLiveness` | src/engine.rs:354-410 | The liveness pass: ageing, quiet counts, and one device probed every third tick. |
| `Engine.ObservationEngine.ReleaseDue` | src/engine.rs:413-455 | The swap-remove loop terminates in the state of the sweep. |
| `Engine.ObservationEngine.HoldingTick` | src/engine.rs:199-456 | One whole holding tick, pass by pass; EngineClaims, EngineProbes and EngineRelease say what it does over runs. |
| `EngineLaws.ClaimKeeps` | src/engine.rs:249-352 | Every claim and every rollback keeps budgets, distinct tuples and pins that match the holds. |
| `EngineLaws.SweepRemovesExactly` | src/engine.rs:413-455 | The exit loop removes exactly the holds with a release reason. |
| `EngineLaws.TickKeeps` | src/engine.rs:199-456 | After a tick: tuples distinct, total and per-device budgets kept, self-pins and accepts exactly those of the holds, and no held tuple owned by an allocation. |
| `EngineLaws.EveryRunHolds` | src/engine.rs:199-456 | The same over every run of ticks. |
| `EngineHistory.PeakBounds` | src/engine.rs:363-371 | The running maximum is a bound that some tick of the unbroken stretch attains. |
| `EngineHistory.StreakIsSteady` | src/engine.rs:363-371 | The quiet streak is at least n if and only if each of the last n listed ticks was steady. |
| `EngineHistory.EveryRunRemembers` | src/engine.rs:356-375 | In every run the ages are those of the history of ticks with a non-empty live list. |
| `EngineHistory.QuietMeansSteady` | src/engine.rs:253-260 | A flow's quiet count reaches n if and only if the last n listed ticks were steady. |
| `EngineHistory.ClaimsOnlyTheQuiet` | src/engine.rs:249-265 | A tick takes up a flow only if in each of the last three listed ticks it was live and did not exceed the running maximum of its packets. |
| `EngineRelease.TickOn` | src/engine.rs:199-456 | After a tick a tuple is held exactly when the sweep found it held and not due, with the counters the sweep saw. |
| `EngineRelease.EveryHoldFollows` | src/engine.rs:223-410 | In every run each hold's counters are the run's own account: ticks absent, ticks the peer or both ends were silent, probes missed, latest readings. |
| `EngineRelease.ReleasedExactly` | src/engine.rs:480-499 | A hold ends if and only if an allocation owns its tuple, three probes in a row missed, the flow was gone and the peer silent for the last 150 ticks, or both ends were silent for that long. |
| `CivilDate.CivilIsCalendar` | src/upnp.rs:1048-1076 | For every day count the era arithmetic gives the date reached by stepping day by day from 1 January 1970 under the Gregorian leap rule, a valid month and day. |
| `CivilDate.WeekdayAdvances` | src/upnp.rs:1048-1076 | The first day is a Thursday and the weekday moves by one each day. |
| `CivilDate.CivilIsInjective` | src/upnp.rs:1048-1076 | No two day counts share a date. |
| `HttpDates.DateLineTellsSeconds` | src/upnp.rs:1066-1076 | No two seconds share a date line. |
| `HttpHead.TrimWhite` | src/upnp.rs:59-67 | The two trimming loops give the trimmed text. |
| `HttpHead.TrimUndoesPadding` | src/upnp.rs:59-67 | Trimming is the inverse of padding with spaces, tabs, CR and LF. |
| `HttpHead.EqualIgnoringCase` | src/upnp.rs:33-43 | Equality up to ASCII case, position by position. |
| `HttpHead.FindIgnoringCase` | src/upnp.rs:113-126 | A match at some position, or none at any. |
| `HttpHead.Scan` | src/upnp.rs:79-103 | The index loop stops at the first such octet or at the end. |
| `HttpHead.FindHeader` | src/upnp.rs:79-103 | The index loops find the first line after the request line whose name is the key, and its trimmed value. |
| `HttpHead.HeaderOnWire` | src/upnp.rs:79-103 | Looking a key up in a written head finds the first header of that name, trimmed. |
| `Dispatch.ActionName` | src/upnp.rs:549-580 | Each name has the length and fourth letter that tell it from the other 27 in any case. |
| `Dispatch.FindLastHash` | src/upnp.rs:584-592 | The reverse scan finds the last hash sign. |
| `Dispatch.ReadSoapAction` | src/upnp.rs:583-631 | The first action whose name equals the text after the last hash sign, ignoring case. |
| `Dispatch.ReadParams` | src/upnp.rs:665-686 | The first ns parameter decides, even when its token has no usable length. |
| `Dispatch.ReadNs` | src/upnp.rs:651-687 | The namespace token of a MAN value that names the envelope address. |
| `Dispatch.ClassifyHead` | src/upnp.rs:724-808 | The class of a head by verb, path, event markers and action header. |
| `DispatchLaws.LinesAreClassified` | src/upnp.rs:771-807 | A POST or M-POST is classified by the path of its first line and the lines after it. |
| `DispatchLaws.ManCarriesNs` | src/upnp.rs:651-687 | The MAN value a client writes carries its token. |
| `DispatchLaws.PostAndMPostAlike` | src/upnp.rs:724-808 | A POST and an M-POST with the same target and earlier lines, whose action headers are followed by the same text, classify alike: for every text of any length, line feeds included, and every token that can name a header. |
| `DispatchLaws.ColonTokenFindsNothing` | src/upnp.rs:690-699 | A token with a colon names no header on any lines, so such an M-POST finds no action. |
| `Parity.ColonTokenIsRefused` | src/upnp.rs:771-807 | With a colon in its token an M-POST never reaches an action, and without event or SID lines it is an invalid action. |
| `Parity.StatusParts` | src/upnp.rs:771-807 | On a path with a service a request for the status tells the two transports apart for every such token. |
| `Parity.MarkerParts` | src/upnp.rs:771-807 | A token whose own header is SID or NT, as SID: is, makes the M-POST an event request for a text that leaves the POST a SOAP one. |
| `Parity.NoServiceAlike` | src/upnp.rs:771-807 | Without a service on the path, and without such a name, every text classifies alike. |
| `Parity.ParityExactly` | src/upnp.rs:724-808 | For every request line, with no event or SID line ahead, every text classifies alike over both transports if and only if the token has no colon, or the path has no service and the token names no marker. |
| `DispatchLaws.ParsesExactly` | src/upnp.rs:583-631 | A value parses to an action if and only if its text is that action's name in some mix of case. |
| `DispatchLaws.PostReachesAction` | src/upnp.rs:724-808 | A POST naming a service type and an action invokes exactly that action on the path's service, as version 2 if and only if the type is that of WANIPConnection:2. |
| `Stun.ReadAddress` | src/stun.rs:55-72 | One attribute's address, unmasked octet by octet. |
| `Stun.ParseMapped` | src/stun.rs:38-79 | The walk by index over any octets stays in range and gives the first address attribute. |
| `Stun.WalkFindsFirst` | src/stun.rs:38-79 | On any serialised attribute list the walk finds the first MAPPED or XOR-MAPPED IPv4 address, or none. |
| `Stun.ParseFindsFirst` | src/stun.rs:38-79 | The same for a whole message with anything behind it. |
| `Stun.MappedRoundTrip` | src/stun.rs:82-107 | An address attribute, masked or plain, reads back as its address (sections 15.1 and 15.2 of RFC 5389). |
| `Stun.ResponseRoundTrip` | src/stun.rs:82-107 | A built response gives back its address. |
| `Stun.TruncatedGivesNothing` | src/stun.rs:38-79 | Cut anywhere before its end, a response gives nothing. |
| `Pcp.ReadOptions` | src/pcp.rs:119-173 | The option loop by index is the walk of the options from there. |
| `Pcp.ParseRequest` | src/pcp.rs:225-310 | A datagram is dropped, refused with its code, or a request, in the order of the checks. |
| `Pcp.DecodeSerialized` | src/pcp.rs:119-173 | Every option list can be sent: its octets decode to it. |
| `Pcp.TakeAllMeans` | src/pcp.rs:119-173 | The filters are the non-zero-prefix ones after the last zero-prefix one, in order; the last third party and any prefer-failure hold (section 13.3 of RFC 6887). |
| `Pcp.WalkExactly` | src/pcp.rs:119-173 | Options are accepted if and only if the octets are a list of options none of which refuses. |
| `Pcp.AlignedNeverTrails` | src/pcp.rs:166-173 | On a length that is a multiple of four the trailing-length refusal is unreachable: a refusal names an option, acceptance consumes all (section 7.3 of RFC 6887). |
| `Pcp.MapRequestExactly` | src/pcp.rs:225-310 | A well-formed MAP is accepted if and only if its options are, with the header's fields and what the options mean. |
| `SharedPort.BuildError` | src/pcp.rs:346-363 | An error reply for a request with room for the fields it overwrites, every index in range. |
| `SharedPort.PadToFour` | src/pcp.rs:346-352 | The request cut at the message limit and padded to four. |
| `SharedPort.Serve` | src/upnpsvc.rs:797-951 | The reply to a datagram, or silence, through sniffing, parsing and building. |
| `SharedPort.ErrorsHaveRoom` | src/upnpsvc.rs:797-820 | For every datagram an error is built only when the whole header is there. |
| `SharedPort.NoReplyLoop` | src/upnpsvc.rs:797-951 | Any reply fed back draws silence, except the NAT-PMP version error, whose own reply then does. |
| `SharedPort.VersionErrorExactly` | src/pcp.rs:400-456 | The version error is drawn if and only if the datagram is short and its version octet is neither dialect's. |
| `SharedPort.TupleReplyReadsBack` | src/pcp.rs:313-338 | A MAP or PEER reply reads back as the request's fields and the admission's answer. |
| `SharedPort.ErrorReplyKeeps` | src/pcp.rs:346-363 | An error reply keeps every octet it does not overwrite. |
| `Votes.VoteState.Observe` | src/vote.rs:42-71 | One report moves the vote by the decision it returns. |
| `Votes.PendingIsLatest` | src/vote.rs:42-71 | In every run a pending report is its server's latest since the last clear; pending reports are pairwise distinct and never the confirmed tuple. |
| `Votes.MovesExactly` | src/vote.rs:42-71 | After the first, a confirmation moves if and only if two distinct tracked servers' latest reports since the last clear are that tuple. |
| `Votes.OneServerNeverMovesIt` | src/vote.rs:42-71 | One server alone, however often it reports, never moves a confirmed tuple. |
| `DeviceProtection.DpState.BeginUserLogin` | src/dp.rs:379-400 | A challenge is issued for a known user and replaces the last one; an unknown user changes nothing. |
| `DeviceProtection.DpState.MatchIdentity` | src/dp.rs:440-452 | The first enrolled control point whose authenticator verifies. |
| `DeviceProtection.DpState.UserLogin` | src/dp.rs:403-465 | Challenge, user, device and identity checks in order; a failure counts and the fifth frees the challenge; success names user and control point. |
| `DeviceProtection.DpState.UserLogout` | src/dp.rs:468-476 | The session starts over without a principal. |
| `DeviceProtection.DpState.TouchSession` | src/dp.rs:479-483 | Only the last activity moves. |
| `DeviceProtection.DpState.AddIdentityList` | src/dp.rs:542-558 | An identity whose identifier or name is present already is left out; the added ones are returned. |
| `DeviceProtection.DpState.RemoveIdentityNamed` | src/dp.rs:561-565 | The named identity goes. |
| `DeviceProtection.DpState.SetUserLoginPassword` | src/dp.rs:568-592 | A user of that name gets the new secret; another name becomes a user when an identity has it or any control point is enrolled. |
| `DeviceProtection.DpState.AddRolesForIdentity` | src/dp.rs:595-613 | The missing roles are added to the user of that name, else the identity. |
| `DeviceProtection.DpState.RemoveRolesForIdentity` | src/dp.rs:616-634 | The roles are taken from the user of that name, else the identity. |
| `DeviceProtectionRuns.EveryTraceFollows` | src/dp.rs:379-483 | In every trace each session is what the trace says: last challenge, last login and its principal since the last logout, last activity. |
| `DeviceProtectionRuns.IssueInTrace` | src/dp.rs:379-400 | The last issued challenge is an event of the trace with no newer one and no logout after it. |
| `DeviceProtectionRuns.LoginInTrace` | src/dp.rs:403-465 | The last login is a successful one of the trace with no newer one and no logout after it. |
| `DeviceProtectionRuns.LoginAnswersLastChallenge` | src/dp.rs:403-465 | A successful login answers the last issued nonce under that challenge user's stored secret, for the device and an enrolled control point. |
| `DeviceProtectionRuns.EnforceExactly` | src/dp.rs:522-534 | A role-gated action passes if and only if a login succeeded after the last logout, activity is within the idle limit, and a current role of its principal satisfies the need. |
| `DeviceProtectionRuns.ActivityInTrace` | src/dp.rs:398-415 | A logged-in key was last active at an event of the trace, its last login or later. |
| `DeviceProtectionRuns.EnforceMeansLogin` | src/dp.rs:403-534 | If a role-gated action passes, the key logged in without a later logout, answering the nonce it was last issued, with an authenticator that verified for an enrolled control point under that user's stored secret; its last activity is within the limit; and user or control point has a role now that satisfies the need. |
| `DeviceProtectionRuns.FailuresStayBelowLimit` | src/dp.rs:418-428 | Failures stay below the limit in every trace, so the check of the limit never fires. |
| `DeviceProtectionRuns.AddKeepsKeyed` | src/dp.rs:542-558 | Adding identities keeps names and identifiers distinct. |
| `DeviceProtectionRuns.EveryTraceStaysKeyed` | src/dp.rs:542-634 | Over every trace names and identifiers stay distinct. |
| `Gena.SidSet.Add` | src/upnp.rs:433-441 | An identifier joins unless the set is full or has it. |
| `Gena.SidSet.Remove` | src/upnp.rs:443-454 | The identifier goes and the last one takes its place. |
| `Gena.SidSet.Has` | src/upnp.rs:423-431 | Membership among the slots in use. |
| `Gena.PatchGivesNow` | src/upnpsvc.rs:2647-2680 | A body patches any view that agrees with the previous one to the new one, and is empty if and only if nothing moved. |
| `Gena.GenaState.NotifyView` | src/upnpsvc.rs:1425-1471 | An offered view is an event exactly when forced or moved, and then the key advances. |
| `Gena.GenaState.AddSubscription` | src/upnpsvc.rs:1307-1351 | A subscription within the bound gets its identifier mirrored and an initial full event. |
| `Gena.GenaState.RenewSubscription` | src/upnpsvc.rs:1354-1368 | The expiry of a live subscription moves and nothing else. |
| `Gena.GenaState.RemoveSubscription` | src/upnpsvc.rs:1371-1380 | The subscription goes and its identifier with it. |
| `Gena.GenaState.MoveUpdateId` | src/upnpsvc.rs:1400-1403 | The update identifier steps by one and wraps at 2 to the 32. |
| `Gena.GenaState.PruneExpired` | src/upnpsvc.rs:1473-1490 | Expired subscriptions go and the mirror is rebuilt; GenaTerms.PruneExactly says who stays. |
| `GenaRuns.EveryRunMirrors` | src/upnpsvc.rs:1307-1490 | In every run the mirror is exactly the live identifiers, each once, at most eight. |
| `GenaRuns.UnsubscribeExactly` | src/upnpsvc.rs:1371-1380 | An unsubscription succeeds if and only if the identifier is live. |
| `GenaRuns.EverySubscriberKnows` | src/upnpsvc.rs:1425-1471 | In every run replaying the delivered bodies gives exactly the last offered view, and the i-th event carries key i modulo 2 to the 32. |
| `GenaRuns.EventExactlyWhenMoved` | src/upnpsvc.rs:1425-1471 | An offer to a live subscription makes an event if and only if the view differs from the last one offered. |
| `GrantAnswers.FreshGrantExactly` | src/upnpsvc.rs:514-546 | A fresh grant takes port p if and only if the request is contained and on the LAN, the datapath comes up, the client has no such mapping and is below its quota, and p is the lowest port of the range neither held nor set aside (the live ones when the probe works and the owner has no such mapping, else the earlier reservations), where a table without room first frees the longest idle slot of another client. |
| `GrantAnswers.RefusalsExactly` | src/upnpsvc.rs:490-521 | Not authorized if and only if outside the containment, invalid if and only if contained and off the /24 LAN; any other refusal is a failed action. |
| `GrantAnswers.RefreshExactly` | src/slot.rs:297-345 | A grant is a refresh on port p if and only if the guards let it by and the client has that very mapping on p. |
| `GrantAnswers.GrantStores` | src/upnpsvc.rs:542-622 | Every admitted request is stored: slot and entry with client, ports, label, description, the lifetime asked for (2 to the 32 less one for none) and its saturated expiry. |
| `GrantAnswers.FreshGrantSparesLive` | src/slot.rs:175-196 | With the probe working, a mapping its owner does not have yet is in range and off every live port, and each lower port is live, held afterwards, or the one a label take-over gives up. |
| `EditAnswers.DeleteAnswersExactly` | src/upnpsvc.rs:1072-1114 | No such entry if and only if the caller has none under the label; not authorized if and only if its first one is not its own or, on the v2 face, has a port below 1024; otherwise that one's slot goes, every entry of the caller under the label goes, and nothing else. |
| `EditAnswers.RangeAnswersExactly` | src/upnpsvc.rs:1218-1241 | An error if and only if the range holds no entry of the protocol the caller may touch; otherwise exactly the labels whose first entry it may touch go, each with that entry's slot. |
| `EditAnswers.PreferredAnswersExactly` | src/upnpsvc.rs:1177-1215 | Containment is judged on the request as it came; the label granted and answered is the one asked for, or for none the lowest from 1024 that no mapping of the protocol has, 65535 when all are in use. |
| `EditAnswers.StampExactly` | src/upnpsvc.rs:1683-1700 | A client's action sets to now the clock of exactly the slots that entries targeting it are bound to. |
| `EditAnswers.YieldExactly` | src/upnpsvc.rs:1558-1623 | A slot with an entry has its port set aside, and slot and entry move to the lowest port neither held nor set aside, unless there is none or the datapath does not come up; else nothing changes. |
| `Collecting.ExpiryPassExactly` | src/slot.rs:389-410 | An expiry pass keeps a slot if and only if it is static, its lease ended no more than the grace ago, or it was seen within the grace, and an entry if and only if the slot of its port stays. |
| `Collecting.BackstopPassExactly` | src/slot.rs:428-444 | A backstop pass takes exactly the UDP grants not seen for 604800 seconds, with their entries. |
| `Collecting.ForgottenGrantGoes` | src/slot.rs:389-410 | Over clocked runs, a grant whose last request, lifetime and grace are past and that was last seen before the grace is in neither table nor index after an expiry pass. |
| `Collecting.SilentGrantGoes` | src/slot.rs:428-444 | Over clocked runs, a UDP grant last seen more than a week ago is in neither after a backstop pass. |
| `TableClock.RunStaysSeen` | src/slot.rs:297-425 | Over every run with a nondecreasing clock no grant's last-seen time is later than the last request or stamp that reached it. |
| `EngineClaims.ClaimsExactly` | src/engine.rs:249-352 | In every run a candidate's turn adds its hold if and only if it is not held, was steady in the last three listed ticks, its device has fewer than the per-device budget, no allocation owns it, the total budget has room and all four steps work; it is reported if and only if only the owner stands in the way. |
| `EngineClaims.TickTakesUpExactly` | src/engine.rs:199-456 | The same for a whole tick: a live flow not held before is held after if and only if at its turn those conditions held. |
| `EngineProbes.ProbesExactly` | src/engine.rs:392-410 | In every run a tick probes if and only if its number is a multiple of three and something is held, and then the device of the hold after the last one probed, round robin. |
| `EngineProbes.ReasonExactly` | src/engine.rs:480-499 | The reason of a release over the run: an owning allocation first, then three missed probes, then silence for 150 ticks. |
| `EngineProbes.ReportedExactly` | src/engine.rs:223-275 | After a tick a flow is on report if and only if it is live and was on report, or this tick refused it for its owner alone. |
| `HttpDates.DateLineReadsBack` | src/upnp.rs:1066-1076 | A reader of the fixed form of section 7.1.1.1 of RFC 7231, with its own tables of names, reads back weekday, civil date and time of day. |
| `DispatchAnswers.LettersFold` | src/upnp.rs:33-43 | The 26 capitals fold to their letters and nothing else folds. |
| `DispatchAnswers.ConnectionNamesExactly` | src/upnp.rs:549-631 | Each of these actions is named by its own text and no other, in any mix of case. |
| `DispatchAnswers.MappingNamesExactly` | src/upnp.rs:549-631 | The same for the mapping actions. |
| `DispatchAnswers.LoginNamesExactly` | src/upnp.rs:549-631 | The same for the login actions. |
| `DispatchAnswers.IdentityNamesExactly` | src/upnp.rs:549-631 | The same for the identity actions. |
| `DispatchAnswers.RoleNamesExactly` | src/upnp.rs:549-631 | The same for the password and role actions. |
| `DispatchAnswers.OtherVerbsExactly` | src/upnp.rs:741-770 | GET of a description path, SUBSCRIBE with event headers or an identifier, UNSUBSCRIBE with an identifier, over the lines of any head; all else they ask for is not found. |
| `DispatchAnswers.UnknownVerbExactly` | src/upnp.rs:771-775 | Any verb but the five is not found. |
| `StunAnswers.XorIsFlipped` | src/stun.rs:55-72 | Unmasking flips exactly the bits of the mask. |
| `StunAnswers.ReadingExactly` | src/stun.rs:55-72 | An attribute gives address e if and only if it is of type 1 with e's octets or of type 32 with e's octets under the flipped bits of 0x2112A442, of family 1 and at least eight octets (sections 15.1 and 15.2 of RFC 5389). |
| `StunAnswers.ResponseExactly` | src/stun.rs:38-54 | A response is 20 octets or more of type 0x0101 with the cookie. |
| `StunAnswers.SampleResponseReads` | src/stun.rs:55-72 | The IPv4 sample of section 2.2 of RFC 5769 reads as 192.0.2.1 port 32853. |
| `PcpOptions.AddressExactly` | src/pcp.rs:82-96 | Sixteen octets are an IPv4 address if and only if they begin with ten zeros and two octets 255. |
| `PcpOptions.OptionExactly` | src/pcp.rs:119-173 | Options 1, 2 and 3 are malformed if and only if they have not 16, 0 and 20 octets; any other is unsupported if and only if its top bit is clear. |
| `PcpOptions.AsksReadBack` | src/pcp.rs:119-173 | Any list of options, written out octet by octet, is accepted and means what it asks, in order. |
| `PcpOptions.MapReadsBack` | src/pcp.rs:225-310 | A MAP request with such options reads back as its header fields and what the options ask. |
| `SharedReplies.NpmpMapExactly` | src/upnpsvc.rs:931-946 | A NAT-PMP map reply reads back with the request's opcode and internal port and the answer's result, port and lifetime; a request for port zero that is not a delete is refused. |
| `SharedReplies.NpmpPublicExactly` | src/upnpsvc.rs:905-930 | The public address request gets result zero, the epoch and the address. |
| `SharedReplies.NpmpUnknownExactly` | src/pcp.rs:494-505 | Any other opcode comes back with the response bit and result five. |
| `SharedReplies.SilenceExactly` | src/upnpsvc.rs:797-951 | No opcode, a response, a NAT-PMP map cut short or a PCP header cut short draws silence. |
| `SharedReplies.RefusalExactly` | src/pcp.rs:225-310 | Which code a whole PCP header is refused with: version 1, length or data 3, address 12, opcode 4, port zero 3. |
| `SharedReplies.AnnounceExactly` | src/pcp.rs:341-344 | An announcement draws the bare header with the epoch. |
| `SharedReplies.PeerExactly` | src/upnpsvc.rs:797-951 | A PEER reply reads back with the request's fields and the answer's. |
| `SharedReplies.MapExactly` | src/upnpsvc.rs:797-951 | A MAP for another host without the lift is refused with 2, one that insists on its suggestion with 11, both with the suggestion for 1800 seconds; else the reply reads back with the answer's fields. |
| `SharedReplies.BadOptionsExactly` | src/pcp.rs:119-173 | A MAP whose options do not hold is refused with 5 or 6. |
| `DeviceProtectionRuns.LadderExactly` | src/dp.rs:194-216 | Over every trace: a need of Admin passes if and only if Admin is held, of Basic if and only if Basic or Admin is, of any other role if and only if that role is; a list passes if and only if one of its members does. |
| `DeviceProtectionLaws.LoginExactly` | src/dp.rs:287-465 | A login succeeds if and only if the pending challenge is answered, fewer than five attempts failed, its user is on record, and the first sixteen octets of the keyed hash over challenge, device and some enrolled control point are the authenticator's. |
| `DeviceProtectionLaws.WrongAnswersExactly` | src/dp.rs:418-428 | A wrong answer counts; the fifth takes the challenge away; the principal stays. |
| `DeviceProtectionLaws.FifthWrongAnswerEnds` | src/dp.rs:379-428 | Over any trace, a challenge just issued outlives four wrong answers in a row and falls with the fifth. |
| `DeviceProtectionLaws.GrantedRolesExactly` | src/dp.rs:595-613 | Which user and which control point hold which role after a grant of roles to a name. |
| `DeviceProtectionLaws.RevokedRolesExactly` | src/dp.rs:616-634 | The same after roles are taken from a name. |
| `DeviceProtectionLaws.EnrolExactly` | src/dp.rs:542-558 | Which identities are on the list after an enrolment. |
| `DeviceProtectionLaws.ExpelExactly` | src/dp.rs:561-565 | An expulsion takes exactly the identities of the name. |
| `DeviceProtectionLaws.PasswordExactly` | src/dp.rs:568-592 | Whose secret a password sets, and when it makes a new user. |
| `GenaTerms.EveryTermHolds` | src/upnpsvc.rs:1307-1490 | In every run a live subscription ends twice its timeout, clamped to 1 to 1800 seconds, after the last subscribe or renew that took effect for it. |
| `GenaTerms.PruneExactly` | src/upnpsvc.rs:1473-1490 | After any run and a prune, a subscriber is live if and only if it was before and that end is still ahead. |
| `GenaTerms.UnsubscribeTakesExactly` | src/upnpsvc.rs:1371-1380 | An unsubscription takes that identifier and leaves every other subscriber as it was. |
| `GenaTerms.SubscribeTakesUpExactly` | src/upnpsvc.rs:1307-1351 | Who is live after a run and a subscribe. |
| `GenaTerms.UpdateIdCounts` | src/upnpsvc.rs:1400-1403 | In every run the update identifier is the number of moves modulo 2 to the 32. |
| `FileForms.LeaseLineSpelled` | src/persist.rs:74-93 | The nine columns of a slot's line, static or granted. |
| `FileForms.OlderLeaseLineReads` | src/persist.rs:121-180 | A line of eight columns reads as the same row over UDP. |
| `FileForms.SkippedExactly` | src/persist.rs:121-180 | Every line is a row or is counted as skipped. |
| `FileForms.EntryLineSpelled` | src/upnpsvc.rs:3241-3254 | The nine columns of an entry's line. |
| `FileForms.OlderEntryLineReads` | src/upnpsvc.rs:3257-3289 | Lines of eight and seven columns read as the same entry, owned by its client, the shorter without a description. |
| `FileForms.StrangeOwnerReads` | src/upnpsvc.rs:3257-3289 | An owner that is not an address is the client. |

## Left out

- Facade methods are one atomic step each; the daemon releases its locks between sub-steps, and interleavings there
  are not modelled. A grant reads the clock for the admission and again for the eviction, so those are two inputs.
- Persisting, change signals and log lines are not part of a facade step.
- The reserved ports of the table are kept as a set; their order only shows in a log line.
- Finding collided ports in the connection table: the port to yield is an input.
- Presence probing of mapped clients: each release it leads to is a delete without containment.
- Sockets, tasks, timers, `/proc` reading, netfilter rule text, raw sockets, the TCP splice, TLS and the front channel.
- The accept set is shared with granted slots in the daemon; only the engine's own contribution is modelled.
- Engine: the log-only stage, the allowlist filter ahead of the tick, the per-flow vote and its report. The tick
  counter and the probe cursor are unbounded.
- `EngineLaws.TickKeeps`: candidates share the one NAT address and no device has it, as the candidate source gives them.
- `EngineHistory.ClaimsOnlyTheQuiet`: no tick lists a tuple twice.
- SHA-256, HMAC and PBKDF2: the keyed hash is a parameter. Base64, the user file and the role table of actions.
- DeviceProtection documents and argument parsing; challenges and salts are inputs.
- Eventing: callback addresses and delivery. A body is the set of variables it carries, not its XML; the view each
  caller is shown is an input.
- SSDP search and announcements, description and SOAP documents, XML parsing, faults.
- Octets of an HTTP head are characters; the lookup looks only at ASCII ones.
- White space around the protocol column of the index file is trimmed for ASCII only.
- The MAP and PEER admission behind a PCP or NAT-PMP reply: its answer is an input of the reply. Its grant and
  its delete are the facade's, under the suggested port or the stored label.
- The modules `carrier`, `mapping`, `obs`, `cdc`, `keepalive` and `presence`.

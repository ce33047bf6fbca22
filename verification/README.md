# NetPilot in Dafny

NetPilot turns user rules into route-table and hosts-file changes. This project models the algorithms behind that
and proves what they guarantee.

- **Rules to routes.** `Planner` groups what enabled rules and children ask for, excludes conflicts and chooses one
  route per destination. `WindowsRoutes` and `MacRoutes` reconcile a persisted inventory with a kernel table that
  loses rows at reboot, is edited by others and fails at will. `EndToEnd` composes planner and inventory, with an
  example in `HostBits`; `Restart` composes the inventory with its text form in `InventoryText` and with the cleanup at
  every stop and start. `WindowsOutcome` is what the answer of the service says. `Ipv4` is the mask arithmetic,
  `BrowserReconnect` a user of it.
- **Hosts file.** `ManagedHosts` is the rewriter of the managed block and the resolver's reader of the same file,
  over the lexing in `HostsText`; `HostsTheorems` proves exactly when rewriting is idempotent and preserves,
  `HostsAgreement` exactly when reader and writer agree. `AddressTexts` spells out which texts the parts of the program
  take for addresses, prefixes, names and routes.
- **The controller.** `Controller` is the state machine of the overlapping asynchronous operations: one step is the
  code between two awaits, and the index of an operation is its token. `NetPilotController` is the object; its
  `Perform` does every step and `PerformAll` every run. `Convergence`, `StaleSaves`, `Toggles` and `SavedRules` are
  the theorems over all interleavings, `Requests` what each step sends; `HostMappings` is the mapping collector.
- **Application routing.** `AppRouting` is the pause and resume machine, as state machine, object and theorems over
  runs.
- **The service pipe.** `Codec` holds the laws of reading and writing, `Messages` the four messages, `ServicePipe`
  the buffers, encoders and decoders, `PipeTheorems` the inverse laws, `CanonicalForms` which bytes are canonical,
  `WireFormat` the bytes written out.
- **The relay.** `Relay` is the copying loop, `RelayEngine` the threads, counters and shutdown, `RelayLedger` the
  counters in terms of the events of a run.
- **Backup.** `Destination` is the destination parser, `Backup` the encoder, the decoder and their normal form.

How the model reads the code:

- Classes carry the state that the source's objects update, and each of their methods is proved equal to a function
  of the old state; loops are loops. The theorems are about those functions and about runs of them.
- The environment appears as parameters and events: oracles say which native call or command fails, which address
  text parses, what a lookup or a scan returned and when. A run may contain any of them at any point.
- Unique identifiers are new: an id that a new rule or an import receives has not been handed out before.
- A resumed operation that waits for its apply may go on at any time after it was chained; the theorems hold for all
  of these schedules.
- SHA-256 is taken to be injective, so a configuration hash is the configuration that is hashed.

Where the code does less than one might hope, the model gives an input and a condition, exact but for lookups:

- A refresh or an import can bring a deleted rule back or undo a toggle (`StaleSaves.DeletionLasts`,
  `Toggles.ToggleLasts`).
- The planner compares destination texts, so host bits can hide a conflict (`HostBits.HostBitsDefeatThePlanner`,
  `EndToEnd.RulesToKernelExactly`).
- A start of the service removes what it reads of the saved inventory and forgets the rest: rows whose removal fails,
  and rows of accepted tags that are not read back (`Restart.FailingRemovalForgets`, `Restart.CutTagIsForgotten`,
  `Restart.CleanupForgetsNothingExactly`, `Restart.TagsThatForget`).
- The first block that the hosts rewrite appends to a file ending with a carriage return locks the file
  (`HostsTheorems.ReturnLocksTheFile`, `HostsTheorems.RewriteIsIdempotent`).
- Reader and writer of the hosts file cut lines at different newlines
  (`HostsAgreement.ExoticNewlineDefeatsAgreement`, `HostsAgreement.AgreementExactly`).
- On macOS a recorded route whose row the table has lost is not added again while traffic happens to go its way
  (`MacRoutes.InForceIsNotPresence`, `MacRoutes.ReconcileExactly`).
- A `Stop` of the relay that returns at once promises nothing while another one is under way
  (`RelayEngine.ImmediateStopExactly`).
- A failing lookup that ends the newest save of a rule can leave the routes out of date until something else starts
  an apply (`Convergence.FailingLookupStrands`, `Convergence.QuiescentConvergence`).
- A dotted quad with a trailing dot changes its kind in a backup (`Backup.BackupNormalForm`).

## Model

| member | source | states |
|---|---|---|
| Planner.PlanFromRules | lib/core/utils/route_reconciler.dart:59-149 | the loops over rules, groups and signatures produce a plan: one sorted route per unconflicted destination, chosen by the least rule id, and a message for every requester of a conflicted one |
| Planner.CollectCandidates | lib/core/utils/route_reconciler.dart:63-93 | exactly the expansions of enabled rules and of enabled children of enabled rules |
| Planner.SortByDestination | lib/core/utils/route_reconciler.dart:140-143 | the same routes, in strictly ascending destination order |
| Planner.PlanRoutesExactly | lib/core/utils/route_reconciler.dart:105-138 | a destination is routed, and once, if and only if some enabled rule or child asks for it and all who ask agree on adapter and gateway |
| Planner.PlanServesAskers | lib/core/utils/route_reconciler.dart:135-137 | a route carries the adapter and gateway of everyone who asked for its destination |
| Planner.PlanBlamesExactly | lib/core/utils/route_reconciler.dart:112-132 | a rule or child carries a conflict message for a destination if and only if it asks for it and the askers disagree |
| Planner.PlanOrderIndependent | lib/core/utils/route_reconciler.dart:105-143 | any permutation of the rules gives the identical route list |
| Planner.RouteListUnique | lib/core/utils/route_reconciler.dart:135-143 | what the plan must be determines the route list completely, although the sort is not stable |
| Planner.RoutesExactly | lib/core/utils/route_reconciler.dart:153-170 | in terms of the rules: a text is routed, and once, if and only if some enabled rule or enabled child needs it and all that want it agree on adapter and gateway, and then over these; a resolved address of a name and a literal address are needed as "/32", a prefix as it is written |
| Planner.RouteNamesLeast | lib/core/utils/route_reconciler.dart:135-143 | a route bears the id of the rule, or of the rule and its child, that needs it and comes first among all that do |
| Planner.BlamesWanters | lib/core/utils/route_reconciler.dart:112-132 | a rule or child gets a conflict message if and only if it wants the text and the wanters disagree, and the message names exactly the adapters it is wanted over |
| Ipv4.MaskedMembershipIsInterval | windows/native/service/browser_reconnect.cpp:42-47 | for every network, length 0..32 and address, masked comparison means network <= address < network + 2^(32 - length) |
| Ipv4.MaskingIsCanonical | windows/native/service/route_manager.cpp:64-69 | masking twice is masking once, and an address lies in its own masked prefix |
| Ipv4.ProbeInsideOwnPrefix | windows/native/service/route_manager.cpp:215-221 | the address that `Inspect` asks the system about lies in the prefix of the route it inspects |
| Ipv4.NestedOrDisjoint | macos/Runner/NetPilotShared/RouteManager.swift:366-383 | two prefixes are nested or share no address |
| BrowserReconnect.ParseCidrs | windows/native/service/browser_reconnect.cpp:22-40 | the loop keeps the readable values, masked, in order |
| BrowserReconnect.SelectedExactly | windows/native/service/browser_reconnect.cpp:22-47 | an address is selected if and only if it lies in the block of some value that parses with a length 0..32 |
| WindowsRoutes.RouteManager.Reconcile | windows/native/service/route_manager.cpp:110-182 | validation, the removal loop and the add/repair loop do to inventory, table and answer what the specification function says |
| WindowsRoutes.RouteManager.CheckAndRepair | windows/native/service/route_manager.cpp:158-170 | one inspection, the repair of a recorded route that the table lost, and the conclusions drawn |
| WindowsRoutes.RouteManager.AddRoute | windows/native/service/route_manager.cpp:251-258 | creating a row; "already exists" counts as success, a failure changes nothing |
| WindowsRoutes.RouteManager.RemoveRoute | windows/native/service/route_manager.cpp:260-271 | deleting a row; "not found" counts as success, a failure changes nothing |
| WindowsRoutes.RouteManager.Validate | windows/native/service/route_manager.cpp:113-122 | no error if and only if every requested route is valid |
| WindowsRoutes.RouteManager.Cleanup | windows/native/service/route_manager.cpp:273-280 | every entry is removed, failures are ignored, and the inventory is empty |
| WindowsRoutes.CleanupExactly | windows/native/service/route_manager.cpp:273-280 | a row is left in the table, or ours, if and only if it was before and no removal of an entry for it went through |
| WindowsRoutes.ReconcileConverges | windows/native/service/route_manager.cpp:124-173 | without native failures the inventory becomes the request and the table becomes: the old rows minus those of entries no longer wanted, plus all wanted rows, even where a removed and a retained entry share a row |
| WindowsRoutes.ReconcileTwice | windows/native/service/route_manager.cpp:124-173 | repeating a request adds nothing, removes nothing and leaves the table alone |
| WindowsRoutes.OkIsTruthful | windows/native/service/route_manager.cpp:141-180 | for any failures, an answer "ok" implies that the inventory is the request and every requested row is in the table |
| WindowsRoutes.ReconcileForgetsNothing | windows/native/service/route_manager.cpp:128-173 | one call with any failures: every row the service created and has not deleted belongs to an inventory entry |
| WindowsRoutes.NoForgottenRoute | windows/native/service/route_manager.cpp:128-173 | the same over every run of requests, failures, reboots and outside edits of the table |
| WindowsOutcome.AnswerExactly | windows/native/service/route_manager.cpp:124-182 | for any failures: the counts are the removals that went through and the native adds; there is one check for each kept request, in order; the answer is ok if and only if nothing is stuck and every request is kept and verified; a destination is in the resets if and only if a removal for it went through, or a route for it was created or repaired and a check for it is verified; the inventory is what is stuck and what is kept |
| WindowsOutcome.AnswerWithoutFailures | windows/native/service/route_manager.cpp:124-182 | without failures every entry no longer wanted counts as removed, and every request that is unrecorded or whose row is missing when its turn comes as added; each request has a check, in order, that finds its row |
| WindowsOutcome.InspectExactly | windows/native/service/route_manager.cpp:184-249 | a check finds a row if the table can be read and has it, and verifies a route if besides the best route uses its adapter and, where it has a gateway, that gateway |
| WindowsOutcome.RowExactly | windows/native/service/route_manager.cpp:45-82 | which row a route stands for: masked address, length, adapter number of 64 bits and next hop; none unless all four texts parse |
| WindowsOutcome.RefusedExactly | windows/native/service/route_manager.cpp:113-122 | a request with an unacceptable route does nothing, and the answer names the tag of each such route, in order |
| EndToEnd.RulesToKernel | lib/core/utils/route_reconciler.dart:95-138 | with canonical destination texts, an ok reconcile of a plan leaves all planned rows in the table and no two managed rows with one prefix on different adapters or gateways |
| EndToEnd.CanonicalTextIsPrefix | windows/native/service/route_manager.cpp:54-69 | canonical texts of one prefix are the same text |
| EndToEnd.RulesToKernelExactly | windows/native/service/route_manager.cpp:54-69 | after an ok reconcile of any plan no two managed rows of one prefix differ, if and only if all undisputed askers of texts that mask to one prefix agree on adapter and next hop |
| EndToEnd.WantedHostIsRouted | lib/core/utils/route_reconciler.dart:153-170 | after an ok reconcile of a plan the row for an undisputed resolved or literal address has length 32, adapter and gateway of the rule, and contains exactly that address |
| HostBits.HostBitsDefeatThePlanner | windows/native/service/route_manager.cpp:64-69 | two enabled rules for 10.0.0.1/8 and 10.0.0.2/8 on different adapters are planned without a conflict and reconciled with "ok" into two rows of one prefix |
| InventoryText.Load | windows/native/service/route_manager.cpp:282-295 | the scan of what a stream in text mode reads yields the leftmost non-overlapping matches of the entry pattern, never unescaped |
| InventoryText.Save | windows/native/service/route_manager.cpp:297-313 | the printed text, as a stream in text mode writes it |
| InventoryText.TextOfFile | windows/native/service/route_manager.cpp:282-313 | a written text is read back up to the first character 0x1A, whatever its line ends |
| InventoryText.ScanOfSave | windows/native/service/route_manager.cpp:282-313 | what was saved is read back with every field escaped, in order, when no field holds a quote or the character 0x1A |
| InventoryText.SavedInventoryRoundTrip | windows/native/service/route_manager.cpp:282-313 | the inventory is read back unchanged if and only if no field holds a quote, a backslash or the character 0x1A |
| InventoryText.AcceptedFieldsArePlain | windows/native/common/netpilot_protocol.cpp:272-288 | of an accepted route only the tag can break the round trip |
| Restart.LoadKeepsExactly | windows/native/service/route_manager.cpp:282-313 | reading the saved inventory back gives, in order and up to the first entry whose tag holds a 0x1A, exactly the entries whose tag has "}" right behind its first quote and no 0x1A before, or neither a quote nor a 0x1A; only tags change |
| Restart.CleanupForgetsNothingExactly | windows/native/service/service_runtime.cpp:147-190 | a start or an orderly stop leaves no row of ours outside the inventory, if and only if every row of ours has an entry that is read back (at a start) and whose removal goes through |
| Restart.NoForgottenRouteAcrossRestarts | windows/native/service/route_manager.cpp:108-182 | over any run of requests, failures, outside edits, stops and restarts: at every point each row of ours belongs to an entry, if and only if every stop and restart of the run is of that kind |
| Restart.TagsThatForget | windows/native/common/netpilot_protocol.cpp:272-288 | when no native call fails, for any set of acceptable tags: no run that requests only these ever forgets a row, if and only if none holds a 0x1A and each has no quote or has "}" right behind its first quote |
| Restart.RequestThenRestart | windows/native/service/service_runtime.cpp:147-148 | one request and a restart: the inventory is empty, and the row is still there if and only if the tag is not read back or the removal fails |
| Restart.CutTagIsForgotten | windows/native/common/netpilot_protocol.cpp:272-288 | two accepted tags, one ending with a quote and one with 0x1A, whose row a restart forgets although nothing fails |
| Restart.FailingRemovalForgets | windows/native/service/route_manager.cpp:273-280 | an accepted route with a plain tag whose row a restart forgets because its removal fails |
| AddressTexts.ValidRouteExactly | windows/native/common/netpilot_protocol.cpp:272-288 | a route is accepted if and only if its destination is an address, a slash and a length, its gateway is empty or an address, its adapter a number of up to twenty digits, and its tag one of the program of up to 200 bytes |
| AddressTexts.AddressExactly | windows/native/common/netpilot_protocol.cpp:272-288 | the patterns of the service and the test of the user interface accept the same addresses: four octets with dots between |
| MacRoutes.RouteManager.Reconcile | macos/Runner/NetPilotShared/RouteManager.swift:99-186 | the three loops over routes to remove, to add and to repair follow the specification function |
| MacRoutes.ReconcileAccounts | macos/Runner/NetPilotShared/RouteManager.swift:109-170 | one call with any command failures keeps every created row accounted for by an entry |
| MacRoutes.NoForgottenRoute | macos/Runner/NetPilotShared/RouteManager.swift:99-186 | the same over every run with outside edits of the table |
| MacRoutes.ReconcileExactly | macos/Runner/NetPilotShared/RouteManager.swift:99-186 | for any failures: the entries whose delete went through are dropped, the new ones whose add went through are recorded in order, rows and counts are those of these and of the recorded routes that an inspection did not find in force and whose repair went through |
| MacRoutes.ReconcileWithoutFailures | macos/Runner/NetPilotShared/RouteManager.swift:99-186 | without failing commands the inventory as a set is the request, new rows are in the table, and every other row stays unless only dropped entries denote it |
| MacRoutes.NewRoutesAreKeptOrReported | macos/Runner/NetPilotShared/RouteManager.swift:128-136 | for any failures: a requested route that was not recorded is recorded with its row in the table, or reported as not added |
| MacRoutes.ErrorsExactly | macos/Runner/NetPilotShared/RouteManager.swift:109-170 | which errors the answer holds: failed deletes, adds and repairs, and the messages of inspections that do not find their route in force |
| MacRoutes.WarningsOnce | macos/Runner/NetPilotShared/RouteManager.swift:139-170 | no such message is in the answer twice |
| MacRoutes.ChecksExactly | macos/Runner/NetPilotShared/RouteManager.swift:143-170 | there is one check for each requested route, in order: whether the last inspection finds it in force, not if its repair failed |
| MacRoutes.ResetsExactly | macos/Runner/NetPilotShared/RouteManager.swift:172-184 | connections are reset exactly for destinations of dropped entries, and of created and restored routes that a check verifies |
| MacRoutes.InForceIsNotPresence | macos/Runner/NetPilotShared/RouteManager.swift:139-170 | a recorded route that an inspection finds in force is not added again although the table has lost its row: recorded, requested, answered without an error, not there |
| Codec.LittleRoundTrips | windows/native/common/netpilot_protocol.cpp:14-22 | a little-endian number of any width that fits is read back, whatever follows |
| Codec.LittleExact | windows/native/common/netpilot_protocol.cpp:35-47 | the bytes a number is read from are those it is written as |
| Codec.StringRoundTrips | windows/native/common/netpilot_protocol.cpp:24-58 | a string of at most 4 MiB is read back, whatever follows |
| Codec.StringExact | windows/native/common/netpilot_protocol.cpp:49-58 | the bytes a string is read from are those it is written as |
| Codec.PairLaws | windows/native/common/netpilot_protocol.cpp:77-82 | reading fields one after the other inherits round trip, locality and soundness |
| Codec.ManyLaws | windows/native/common/netpilot_protocol.cpp:72-86 | a count with its limit and that many items inherit them too |
| Codec.PrefixFree | windows/native/common/netpilot_protocol.cpp:85 | no accepted buffer is a strict prefix of another one |
| ServicePipe.BufferWriter.PutString | windows/native/common/netpilot_protocol.cpp:24-27 | appends the size and the bytes |
| ServicePipe.BufferReader.TakeString | windows/native/common/netpilot_protocol.cpp:49-58 | takes a string off the front or fails; never reads past the end |
| ServicePipe.BufferReader.TakeLittle | windows/native/common/netpilot_protocol.cpp:35-47 | takes a number off the front or fails without moving |
| ServicePipe.EncodeRoutes | windows/native/common/netpilot_protocol.cpp:60-68 | appends exactly the route message |
| ServicePipe.DecodeRoutes | windows/native/common/netpilot_protocol.cpp:70-86 | succeeds exactly on whole route messages |
| ServicePipe.EncodeAppRules | windows/native/common/netpilot_protocol.cpp:88-105 | appends exactly the application rules message |
| ServicePipe.DecodeAppRules | windows/native/common/netpilot_protocol.cpp:107-140 | succeeds exactly on whole application rules messages |
| ServicePipe.EncodeStatus | windows/native/common/netpilot_protocol.cpp:142-162 | appends exactly the status message |
| ServicePipe.DecodeStatus | windows/native/common/netpilot_protocol.cpp:164-195 | succeeds exactly on whole status messages; metrics are pushed behind those the object already has |
| ServicePipe.EncodeReconcileResult | windows/native/common/netpilot_protocol.cpp:197-223 | appends exactly the result message |
| ServicePipe.DecodeReconcileResult | windows/native/common/netpilot_protocol.cpp:225-270 | succeeds exactly on whole result messages; list items are pushed behind those the object already has |
| PipeTheorems.RoutesComeBack | windows/native/common/netpilot_protocol.cpp:60-86 | every route list within the limits is decoded from its encoding |
| PipeTheorems.RoutesAreCanonical | windows/native/common/netpilot_protocol.cpp:70-86 | encoding a decoded route list gives the same bytes, and it is within the limits |
| PipeTheorems.AppRulesComeBack | windows/native/common/netpilot_protocol.cpp:88-140 | every application rules message within the limits is decoded from its encoding |
| PipeTheorems.StatusComesBack | windows/native/common/netpilot_protocol.cpp:142-195 | every status within the limits is decoded from its encoding |
| PipeTheorems.OutcomeComesBack | windows/native/common/netpilot_protocol.cpp:197-270 | every reconcile result within the limits is decoded from its encoding |
| PipeTheorems.FreshObjectNeeded | windows/native/common/netpilot_protocol.cpp:164-268 | decoding a result or a status into an object gives the message itself if and only if the lists of the object were empty |
| PipeTheorems.AcceptedMessagesFit | windows/native/common/netpilot_protocol.cpp:107-270 | whatever is accepted is within the limits, so it survives another round trip |
| CanonicalForms.AppRulesCanonical | windows/native/common/netpilot_protocol.cpp:107-140 | encoding a decoded application rules message gives the same bytes if and only if a reader that takes only 0 and 1 for a flag accepts them |
| CanonicalForms.StatusCanonical | windows/native/common/netpilot_protocol.cpp:164-195 | the same for a status |
| CanonicalForms.OutcomeCanonical | windows/native/common/netpilot_protocol.cpp:225-270 | the same for a reconcile result |
| WireFormat.RoutesOnTheWire | windows/native/common/netpilot_protocol.cpp:60-68 | the bytes of a route request written out: little-endian count, then destination, gateway, adapter and tag of each route, sized |
| WireFormat.AppRulesOnTheWire | windows/native/common/netpilot_protocol.cpp:88-105 | the same for the application rules |
| WireFormat.StatusOnTheWire | windows/native/common/netpilot_protocol.cpp:142-162 | the same for a status |
| WireFormat.OutcomeOnTheWire | windows/native/common/netpilot_protocol.cpp:197-223 | the same for a reconcile result |
| PipeTheorems.OnlyWholeMessages | windows/native/common/netpilot_protocol.cpp:85 | strict prefixes and extensions of an accepted buffer are rejected, for all four messages |
| ManagedHosts.HostsFile.Reconcile | macos/Runner/NetPilotShared/ManagedHosts.swift:62-108 | the file becomes what the rewrite gives, or stays as it was on every refusal and failure |
| ManagedHosts.ParseRequest | macos/Runner/NetPilotShared/ManagedHosts.swift:68-81 | the mappings of a request, or a refusal of malformed items, conflicting items and more than 1024 items |
| ManagedHosts.SplitLines | macos/Runner/NetPilotShared/ManagedHosts.swift:112-118 | the lines of the file with their terminators |
| ManagedHosts.FindBlock | macos/Runner/NetPilotShared/ManagedHosts.swift:119-133 | the block if there is exactly one well-formed one, none if there is no marker, a refusal otherwise |
| ManagedHosts.CheckUnmanaged | macos/Runner/NetPilotShared/ManagedHosts.swift:134-152 | a refusal if an unmanaged line contradicts a mapping, else the mappings that no unmanaged line provides |
| ManagedHosts.Update | macos/Runner/NetPilotShared/ManagedHosts.swift:110-161 | the whole rewrite |
| ManagedHosts.ReadHostsAddresses | macos/Runner/NetworkInventoryService.swift:235-252 | the addresses the resolver finds for a name |
| HostsTheorems.PayloadIsValid | macos/Runner/NetPilotShared/ManagedHosts.swift:16-36 | an accepted request holds only accepted hosts and canonical addresses |
| HostsTheorems.RequestsExactly | macos/Runner/NetPilotShared/ManagedHosts.swift:68-81 | a request is accepted if and only if it has at most 1024 items, each a mapping with an accepted host and address, and no two with the same lower-case host differ in address; then a host is mapped to an address if and only if some item says so |
| AddressTexts.HelperAcceptsExactly | macos/Runner/NetPilotShared/ManagedHosts.swift:16-36 | the helper accepts as a host exactly what the user interface accepts as a host name, unless it is an address or stands for the machine itself |
| AddressTexts.HelperAddressExactly | macos/Runner/NetPilotShared/ManagedHosts.swift:16-36 | and as an address four numbers up to 255 without leading zeros |
| HostsText.AppendIsConcatenation | macos/Runner/NetPilotShared/ManagedHosts.swift:160 | concatenating the bytes of two texts is concatenating their Characters, except that a line feed joins a carriage return in front of it |
| HostsTheorems.RewriteIsReadBack | macos/Runner/NetPilotShared/ManagedHosts.swift:96-104 | the bytes that the rewrite writes are read back as the Characters it meant |
| HostsTheorems.Relex | macos/Runner/NetPilotShared/ManagedHosts.swift:112-160 | relexing the rewritten text finds the lines and the block that the rewrite meant to write, if and only if it does not glue: append a first block to a file that ends with a carriage return by itself |
| HostsTheorems.RewriteIsIdempotent | macos/Runner/NetPilotShared/ManagedHosts.swift:110-161 | the rewrite accepts its own output and leaves it alone, if and only if it did not glue |
| HostsTheorems.OutsideKept | macos/Runner/NetPilotShared/ManagedHosts.swift:156-160 | the rewritten file is read again and the text outside the block stays, or gains one newline that completes its last line, if and only if the rewrite did not glue |
| HostsTheorems.OutsideKeptForever | macos/Runner/NetPilotShared/ManagedHosts.swift:62-161 | over any sequence of requests, refused or not: at every point there is at most one block and the text outside it is the original or the original with one newline, if and only if no request glues |
| HostsTheorems.UndoRestores | macos/Runner/NetPilotShared/ManagedHosts.swift:153-160 | inserting a block and then asking for nothing restores the file if and only if it was empty or ended with a newline |
| HostsTheorems.ReturnLocksTheFile | macos/Runner/NetPilotShared/ManagedHosts.swift:160 | the file "x" and a carriage return: any mapping is written once, and from then on every request is refused |
| HostsAgreement.AgreementExactly | macos/Runner/NetworkInventoryService.swift:235-252 | after a successful rewrite a mapped host resolves to exactly its mapping, if and only if the system accepts the address, no piece the reader sees outside the block gives the host another address, and, if the writer left the host out of the block, some such piece gives it one |
| HostsAgreement.RequestedHostResolves | macos/Runner/NetPilotShared/ManagedHosts.swift:62-108 | the same from the items of a call: after it a host that some item asks for resolves to exactly that address, under the same condition |
| HostsAgreement.UnrequestedHostResolves | macos/Runner/NetPilotShared/ManagedHosts.swift:62-108 | and a host that no item asks for resolves as in the file with the block cut out |
| HostsAgreement.CallExactly | macos/Runner/NetPilotShared/ManagedHosts.swift:62-108 | the file stays as it is unless the answer says changed, and then it is what the rewrite gives; a call is refused if and only if it is late, its items are not accepted, the file cannot be read, the rewrite is refused, or a changed file cannot be written |
| HostsAgreement.RewriteRefusedExactly | macos/Runner/NetPilotShared/ManagedHosts.swift:110-152 | the rewrite is refused if and only if there is more than one well-formed block or a stray marker, or a line outside the block gives a mapped host another address |
| HostsAgreement.ReaderSeesMapping | macos/Runner/NetworkInventoryService.swift:235-252 | after a successful rewrite every mapped host resolves to exactly its mapping when "\n" is the only newline Character of the file |
| HostsAgreement.ReaderSeesOthers | macos/Runner/NetworkInventoryService.swift:235-252 | every other name resolves as in the file with the block cut out, whatever its newlines |
| HostsAgreement.ExoticNewlineDefeatsAgreement | macos/Runner/NetworkInventoryService.swift:242 | files on which a mapped host resolves to another address too: behind a comment that ends with any newline Character other than "\n", for every host and every two addresses |
| HostMappings.DesiredHostMappings | lib/features/routing_rules/domain/netpilot_controller.dart:880-908 | the loops over rules and children, with the conflict that throws |
| HostMappings.CollectedExactly | lib/features/routing_rules/domain/netpilot_controller.dart:880-908 | collecting succeeds if and only if no host is asked for with two addresses, and then gives exactly the mappings asked for |
| AddressTexts.MappingsExactly | lib/features/routing_rules/domain/netpilot_controller.dart:880-908 | the same spelled out: of enabled rules with a pin, other than the one left out, the pin and the enabled host-name children with one address, a private one |
| AddressTexts.PrivateExactly | lib/features/routing_rules/domain/netpilot_controller.dart:936-942 | an address is private if and only if its number lies in 10.0.0.0/8, 172.16.0.0/12 or 192.168.0.0/16 |
| HostMappings.ExcludingKeepsCompatible | lib/features/routing_rules/domain/netpilot_controller.dart:880-908 | leaving a rule out cannot create a conflict |
| NetPilotController.NetPilotController.ReplaceRule | lib/features/routing_rules/domain/netpilot_controller.dart:944-954 | replaces the first rule of the id or appends |
| NetPilotController.NetPilotController.ReconcileHosts | lib/features/routing_rules/domain/netpilot_controller.dart:910-934 | sends the host request or throws |
| NetPilotController.NetPilotController.DeleteRule | lib/features/routing_rules/domain/netpilot_controller.dart:425-431 | removes the token and every rule of the id |
| NetPilotController.NetPilotController.ImportLookedUp | lib/features/routing_rules/domain/netpilot_controller.dart:490-500 | the recheck after the lookups; the list to be assigned is fixed before the save |
| NetPilotController.NetPilotController.ApplyHostsAnswered | lib/features/routing_rules/domain/netpilot_controller.dart:624-678 | the plan of the rules as they are now is sent |
| NetPilotController.NetPilotController.Perform | lib/features/routing_rules/domain/netpilot_controller.dart:194-678 | whatever event may happen next, the object goes to the state that the state machine goes to; an event of the apply can only carry the plan that the planner finds |
| NetPilotController.NetPilotController.PerformAll | lib/features/routing_rules/domain/netpilot_controller.dart:153-678 | after any run of events the object is in the state that the theorems about runs speak of |
| Convergence.QuiescentConvergence | lib/features/routing_rules/domain/netpilot_controller.dart:194-678 | for every interleaving of all operations in which saves, host requests and applies succeed, the helper is enabled and every failing lookup that ends a newest save owing an apply happens while another apply is owed or will still plan, or is followed by such a time: when nothing is pending, the last route request is the plan of the current rules (or empty in System Default), the last host request is exactly the current mappings and the last saved list is the current one; only the final mappings need be free of conflict |
| Convergence.AnsweredIsHarmless | lib/features/routing_rules/domain/netpilot_controller.dart:194-265 | runs without failing lookups satisfy that condition |
| Convergence.FailingLookupStrands | lib/features/routing_rules/domain/netpilot_controller.dart:219-314 | without the condition on lookups it fails: a save of an address, overtaken by a save whose lookup fails, leaves an enabled rule without its route, nothing pending |
| Convergence.StepKeeps | lib/features/routing_rules/domain/netpilot_controller.dart:153-678 | the invariant of every step: out of date implies an apply is still owed |
| StaleSaves.OvertakenSaveIsInert | lib/features/routing_rules/domain/netpilot_controller.dart:219-225 | over every interleaving with any failures, a save that a newer save or a deletion overtook changes no rule, saves nothing and starts no apply |
| StaleSaves.StaleStays | lib/features/routing_rules/domain/netpilot_controller.dart:222-225 | once its token is replaced or removed, a save stays stale |
| StaleSaves.StartedOrdered | lib/features/routing_rules/domain/netpilot_controller.dart:219-222 | in every reachable state tokens name operations that have begun and every id in use was handed out: what the theorems about overtaken saves and deletions assume |
| StaleSaves.DeletionLasts | lib/features/routing_rules/domain/netpilot_controller.dart:425-431 | a deleted rule stays deleted in every run that does not save it again, if and only if no refresh iterates a list with it and no import waits for the save of a list with it |
| Toggles.ToggleLasts | lib/features/routing_rules/domain/netpilot_controller.dart:267-314 | a switched flag survives every run in which it is not meant to change, if and only if no refresh or import holds a list with the other value and the unwritten save that owns the rule began with the other value, sets this one, or adds a rule |
| SavedRules.SaveWritesExactly | lib/features/routing_rules/domain/netpilot_controller.dart:219-314 | in every state: a save that gets its addresses while it is the newest of a rule that still exists puts in place a rule with the kind, destination and adapter of its draft, these addresses, no children, the pin of the draft or the one private answer, and the flag switched in the meantime or that of the draft; every other rule stays and the list is saved; a save that comes too late changes nothing |
| SavedRules.LastWriterWins | lib/features/routing_rules/domain/netpilot_controller.dart:194-314 | over every run: until another save writes the rule, it is deleted or switched, or an older list replaces it, the rule has what the draft of the last save that wrote it asked for |
| SavedRules.SavedRuleIsRouted | lib/features/routing_rules/domain/netpilot_controller.dart:194-678 | when nothing is pending: the file holds the rule of the last save that wrote it, and each text that this draft needs and nobody disputes is in the last route request, over the adapter of the draft |
| SavedRules.BeginsExactly | lib/features/routing_rules/domain/netpilot_controller.dart:203-222 | which drafts are refused: a pin that is no address, or for something else than a name, or where host mappings are not supported |
| SavedRules.DeletesExactly | lib/features/routing_rules/domain/netpilot_controller.dart:425-431 | a deletion takes every rule of the id out, with its token, and nothing else |
| SavedRules.SwitchesExactly | lib/features/routing_rules/domain/netpilot_controller.dart:411-423 | a switch changes the flag of the first rule of the id and nothing else |
| SavedRules.SwitchesChildExactly | lib/features/routing_rules/domain/netpilot_controller.dart:388-409 | a child switch changes the flag of the children of that id and nothing else |
| SavedRules.ScansExactly | lib/features/routing_rules/domain/netpilot_controller.dart:335-385 | a scan gives the rule of its save the children it found, or none when it failed, unless the save was overtaken; nothing else changes |
| SavedRules.ImportFixesList | lib/features/routing_rules/domain/netpilot_controller.dart:490-500 | the list an import saves: the rules of that moment, and behind them the additions without a rule of the same destination and adapter |
| SavedRules.OthersKeepRules | lib/features/routing_rules/domain/netpilot_controller.dart:107-678 | no other event changes a rule |
| SavedRules.GatewayExactly | lib/features/routing_rules/domain/netpilot_controller.dart:624-637 | the gateway of a rule is that of the first adapter that its id names by native id, name or id |
| Requests.RoutesAreSentExactly | lib/features/routing_rules/domain/netpilot_controller.dart:552-680 | routes are sent only behind an accepted host request, as the plan of the rules and adapters of that moment, and, if there are any, only to an enabled helper; in System Default none |
| Requests.ApplyAsksHosts | lib/features/routing_rules/domain/netpilot_controller.dart:910-934 | an apply sends exactly the mappings the rules ask for, if no two conflict and they can be published, and otherwise ends without a request |
| Requests.NameBegins | lib/features/routing_rules/domain/netpilot_controller.dart:229-250 | a save that refreshes a pin first asks for all mappings but its own rule's; any other name is looked up at once |
| Requests.RefreshRestores | lib/features/routing_rules/domain/netpilot_controller.dart:251-257 | behind the lookup everybody's mappings are asked for again, whatever it brought |
| Requests.StagesExactly | lib/features/routing_rules/domain/netpilot_controller.dart:314-385 | behind its write a save goes on to apply, scan, children and their apply as long as the rule is its own, and ends when it is not |
| AppRouting.AppRoutingController.Perform | lib/features/app_routing/domain/app_routing_controller.dart:196-302 | whatever happens next, the object goes to the state that the state machine goes to |
| AppRouting.AppRoutingController.PerformAll | lib/features/app_routing/domain/app_routing_controller.dart:196-302 | after any run of events the object is in the state that the theorems about runs speak of |
| AppRouting.ResumeStartsAppliedConfiguration | lib/features/app_routing/domain/app_routing_controller.dart:196-264 | over every interleaving of edits, applies, pauses, resumes, failures and status reports, a start issued by resume carries the hash that was the applied one when the last pause began, and the master flag |
| AppRouting.ResumeStartsExactly | lib/features/app_routing/domain/app_routing_controller.dart:196-264 | after a pause that went through, resume starts if and only if the master flag was on, nothing was pending at the pause and the configuration is the same again; pending changes are reported accordingly |
| AppRouting.PauseAndResumeKeepConfiguration | lib/features/app_routing/domain/app_routing_controller.dart:195-264 | pausing and resuming change neither the rules, the master flag nor what is stored |
| AppRouting.SendsExactly | lib/features/app_routing/domain/app_routing_controller.dart:196-302 | which requests are made, and what they carry: the rules as they are, a hash of what is carried, and the master flag, off in a pause |
| AppRouting.AppliedIsNotPending | lib/features/app_routing/domain/app_routing_controller.dart:279-327 | whatever happens while an apply is under way: once the platform has applied it and routing is on, changes are pending if and only if flag or rules differ from those sent |
| AppRouting.EditsExactly | lib/features/app_routing/domain/app_routing_controller.dart:111-193 | an edit changes its rule, in its place, and nothing else |
| AppRouting.StoredIsCurrent | lib/features/app_routing/domain/app_routing_controller.dart:111-302 | after every run what is stored is the flag and the rules as they are |
| AppRouting.FailuresAreTakenBack | lib/features/app_routing/domain/app_routing_controller.dart:210-258 | a failing pause leaves routing on, a failing resume leaves it paused and can be tried again with the same request, a failing apply changes nothing |
| Relay.SendAll | windows/native/service/relay_engine.cpp:406-411 | the partial-send loop sends a prefix of the buffer, all of it unless a send fails |
| Relay.Pump | windows/native/service/relay_engine.cpp:392-414 | what is delivered is a prefix of what was read, and all of the stream at a clean end; the counter of the direction grows by the bytes read, modulo 2^64 |
| RelayEngine.FlowsAreLiveRelays | windows/native/service/relay_engine.cpp:387-425 | under every interleaving `active_flows` of a rule is the number of its relays in progress |
| RelayEngine.CountersAreBytesDue | windows/native/service/relay_engine.cpp:392-525 | under every interleaving the byte counters of a rule are the bytes its relays have counted, modulo 2^64, and these are the bytes due, but for those of relays right before counting; due are, of TCP, all bytes received and, of UDP, those of datagrams passed on and of the first packet |
| RelayEngine.RelayCountsExactly | windows/native/service/relay_engine.cpp:392-525 | one relay has counted exactly what is due in a direction if and only if it does not stand between receiving (UDP: passing on) some bytes and counting them |
| RelayLedger.RelayCountsEvents | windows/native/service/relay_engine.cpp:392-525 | the same in terms of the events of the run: a TCP relay has counted the bytes of all its receives, a UDP session in progress those of its opening packet and of all its receives, but for those it stands before counting or passing on |
| RelayEngine.StopLeavesNothing | windows/native/service/relay_engine.cpp:137-168 | when the `Stop` that cleared the flag returns, no worker and no listener thread is left and all flow counters are zero |
| RelayEngine.StaysStopped | windows/native/service/relay_engine.cpp:137-168 | until the next `Start` nothing begins |
| RelayEngine.ImmediateStopExactly | windows/native/service/relay_engine.cpp:137-168 | a `Stop` that finds the flag cleared leaves no worker, listener or flow in any reachable state, if and only if no other `Stop` is still under way; wherever another one waits, a relay may be in progress |
| Destination.RawParsesAlike | lib/core/utils/destination_parser.dart:37-39 | parsing the raw text that parsing kept gives the same result |
| Destination.NormalizedParses | lib/core/utils/destination_parser.dart:43-110 | a host name or address in normal form parses to itself, unless the host name is a dotted quad |
| Destination.TrailingDotQuad | lib/core/utils/destination_parser.dart:101-109 | a host name is a dotted quad if and only if the user wrote a dotted quad with a trailing dot |
| AddressTexts.ParsesExactly | lib/core/utils/destination_parser.dart:30-110 | a text is accepted, and read as this kind and normal form, if and only if, trimmed, it has the form of a URL with a host, a prefix, an address or a host name; no text has two |
| Backup.ReadBackup | lib/features/routing_rules/data/rules_transfer.dart:32-123 | the decoding loop with its limits and refusals |
| Backup.ReadDependencies | lib/features/routing_rules/data/rules_transfer.dart:74-98 | the loop over dependencies with the duplicate check |
| Backup.AcceptsExactly | lib/features/routing_rules/data/rules_transfer.dart:32-123 | a backup is accepted, and read as these rules, if and only if it says so field by field: every value of its kind and within its limits, no dependency named twice in a rule, a pin only on a name |
| Backup.WrittenFile | lib/features/routing_rules/data/rules_transfer.dart:12-30 | the fields of the file a list of rules is written to |
| Backup.BackupAgain | lib/features/routing_rules/data/rules_transfer.dart:12-123 | every accepted backup can be written and read again; at most dotted quads change from host name to address |
| Backup.BackupNormalForm | lib/features/routing_rules/data/rules_transfer.dart:12-123 | it reads back unchanged if and only if no dependency was a dotted quad with a trailing dot |
| Backup.SecondRoundTripChangesNothing | lib/features/routing_rules/data/rules_transfer.dart:12-123 | after one round trip the rules are stable |

## Left out

- Convergence.QuiescentConvergence: assumes that saves, host requests and applies succeed, that requests take effect
  in the order in which they are sent, and that the helper is enabled. A failing lookup is excluded only where it
  ends the newest save of a rule that took over an owed apply, no running apply has yet to plan with the current
  mappings sent, and no operation ever owes one afterwards; the routes may then still be right by coincidence.
- WindowsRoutes.OkIsTruthful: "verified" is not claimed at the end of a call, because a later add in the same call
  can change an earlier best route; exact presence is.
- WindowsRoutes.RouteManager.Reconcile: the destinations of inventory entries have the form of a prefix, as requests
  and saved text make them; an edited inventory file on which `std::stoi` throws is not modelled. Texts of error
  messages are reduced to their kinds.
- WindowsRoutes.NoForgottenRoute: one process of the service; stops and restarts are in
  `Restart.NoForgottenRouteAcrossRestarts`. A row that already existed counts as somebody else's.
- Restart.NoForgottenRouteAcrossRestarts: the inventory file is written as a whole and every write succeeds; a crash
  between a table change and `Save` is not an event.
- MacRoutes.NoForgottenRoute: the JSON form of the macOS inventory is not modelled, so this run has no restarts; a
  command names one table row.
- EndToEnd.RulesToKernel: the bridge between the application and the service passes the four fields of a route
  unchanged.
- ManagedHosts.HostsFile.Reconcile: the size limit, file checks, deadline and atomic replacement are three flags of
  a call; lower case is that of ASCII, and so is white space but for the newline Characters. The noncharacter U+FFFE
  stands for the Character of a carriage return and a line feed.
- NetPilotController.NetPilotController.Perform: a save starts after parsing and validation of the editor's input.
  Statuses, messages, diagnostics, busy flags and time stamps are left out; a status-only rewrite is a step that
  saves the same rules. Two gaps of one microtask are part of the step before them: from a throw in a pin refresh to
  its `finally` block, and from the helper's status to what follows it. An `applyAll` or a refresh of the helper
  status that no other operation asks for is not an event.
- NetPilotController.NetPilotController.ImportLookedUp: the additions that the lookups of an import produce are
  arbitrary rules with new ids.
- NetPilotController.NetPilotController.SaveChildren: the children that a scan finds are arbitrary, so it is not stated
  that they take id and flag from the children of the same destination that the save replaced.
- Controller.Started: `start` itself is left out; runs begin when it chains the first apply. Disposal of the
  controller is left out.
- AppRouting.AppRoutingController.Apply: the outcome of the validation of rules and interfaces is a parameter; a
  rule is what the provider sees of it.
- RelayEngine.StopLeavesNothing: no `Start` happens while a `Stop` is under way and no `Stop` inside `Start`, between
  the flag and its threads; that `Stop` terminates is not claimed. The last error of a metric and the 32-bit width of
  a flow counter are left out.
- Relay.Pump: one direction, with a counter of its own; `RelayEngine.CountersAreBytesDue` is about the shared one.
  UDP sessions share only the accounting.
- Planner.SortByDestination: orders by code points, where Dart compares UTF-16 code units; the two differ only
  outside the Basic Multilingual Plane.
- Backup.ReadBackup: JSON text, its size limit and time stamps are left out; URL parsing and integer parsing are
  parameters.
- The Flutter interface, channels, XPC, pipes, signing checks, installers and service control.
- The packet filter driver and policies, process restarts, and the lookup of socket owners.
- Fetching and scanning of pages and DNS, beyond their results.
- `RouteReconciler.diff`, launch at login and the validation of application rules: they would only add easy members.
- Rule contexts made by FNV hashing: freedom from collisions does not hold for all inputs.

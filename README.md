# gerente-snmp, modelled in Dafny

gerente-snmp controls Internet access in a computer lab by switching ports on
the lab's switches over SNMP. This project models its decision logic and proves
properties of that model. The model does not include the SNMP transport, the CSV
files, the crontab library or the Streamlit pages.

The parts modelled are:

- **The record store** (`app/storage.py`). It is an in-memory map from entity name to rows: module `Storage`, class `RecordStore`. Its operations:
  - `load_all`;
  - `save_all`, which replaces the whole table;
  - `append`;
  - `next_id`, the maximum parsed id plus one, skipping ids that do not parse;
  - refusal of an unknown entity;
  - normalisation of each row to the entity's field list. Values are rendered as `str()` renders them, and missing or `None` values are stored as `""`.
- **The SNMP manager** (`app/snmp.py`), module `Snmp`, class `SnmpManager`.
  - The switch is an abstract `Net` value. Which sessions open, what a `get` or `walk` answers and whether a `set` is accepted are its parameters.
  - The constructor's parameter resolution and session fallback.
  - Forwarding-table decoding, grouping of addresses by port, the bridge address, the port status list, `set_port_state`, the short-circuiting `set_ports` and the state-code mapping.
  - The manager records every SET it issues, in order, in `sent`.
- **The re-entry point** (`run_snmp_action.py`), module `SnmpAction`: it parses the port list, selects the state and maps the outcome to exit codes 0, 2, 3 and 4.
- **Start-up reconciliation** (`streamlit_app.py` 47-368):
  - `Inventory` holds the address normalisation, the MAC to OID-suffix conversion, the `access_allowed` tri-state, the schedulable-machine filter and the binding upsert. The binding upsert keeps at most one binding per (machine, switch).
  - `AutoSync` is the switch probe pass.
  - `Snapshots` is the snapshot builder and the live "replace this switch's rows" merge.
  - `Reconcile` is the pass from snapshots to machines and bindings, plus the start-up order.
- **Scheduled block windows** (`streamlit_app.py` 470-538 and 738-752), module `Schedule`.
  - Times are truncated to the minute, and the end is forced after the start.
  - Each window becomes two tagged crontab jobs. The crontab is written, the schedule row is recorded and the jobs are read back.
  - Tagged jobs can be listed and removed.
  - The crontab is class `CronTab`. It holds the in-memory jobs and the installed ones.
- **The HTTP endpoints** (`app/routes/routes.py`), module `Routes`: the create endpoints and `alterar_porta`.
  - `alterar_porta` finds the switch, writes the port, and then updates the status of the first matching binding.

Python's built-ins get their own modules:

- `Text` models `strip`, `split`, `join`, `upper`/`lower` on ASCII, `int()` of a string (Unicode-free whitespace, sign, `0x`, underscores), `str(int)` and `'%02X'`.
- `Common` models `Option`, `Result` and insertion-ordered dictionaries.

Where the code does something its comments or its documentation do not announce, the model follows the code:

- A forwarding-table suffix keeps its leading decodable octets.
- `alterar_porta` updates the binding whether or not the SNMP write succeeded.
- A schedule row is appended only after `cron.write()` returns.
- The read-back of the two tags inspects the in-memory crontab, so after a successful write it always finds both jobs.
- Every machine that one reconciliation pass creates gets the same id. The pass reads `next_id` from the persisted table, and that table does not change during the pass.
- Because created machines share that id, two new addresses seen on the same switch are bound under the same (machine, switch) pair. The later address's port and status overwrite the earlier one's in that single binding.

## Model

| member | source | states |
|---|---|---|
| Storage.FieldsOf | app/storage.py:46-50 | an entity outside `ENTITIES` is an error; otherwise its field list |
| Storage.NormalizeRowShape | app/storage.py:74-77 | a normalised row has exactly the entity's fields: present values rendered with `str()`, missing and `None` values as `""` |
| Storage.NormalizeShapedRows | app/storage.py:68-77 | saving rows that already have exactly the fields stores them unchanged |
| Storage.NormalizeIdempotent | app/storage.py:74-77 | normalising twice gives the same table as normalising once |
| Storage.NextIdUnique | app/storage.py:92-102 | the "maximum parsed id plus one, at least 1" characterisation has one solution |
| Storage.NextIdFrom | app/storage.py:92-102 | `next_id` meets that characterisation over the parsed ids, where `""` counts as 0 and unparseable ids are skipped |
| Storage.NextIdOf | app/storage.py:92-102 | the loop returns a value ≥ 1 that is above every parsed id, and is 1 or one more than some parsed id |
| Storage.MaxPlusOne | app/storage.py:94-102 | the max-plus-one loop over parsed ids: ≥ 1, above every id, 1 or attained |
| Storage.RecordStore.constructor | app/storage.py:53-61 | a fresh store holds no tables, so every entity reads as empty |
| Storage.RecordStore.LoadAll | app/storage.py:53-65 | an unknown entity fails; otherwise the stored rows, each with exactly the entity's fields; nothing changes |
| Storage.RecordStore.SaveAll | app/storage.py:68-77 | an unknown entity fails with nothing written; otherwise the entity's table becomes the normalised rows and every other table is unchanged |
| Storage.RecordStore.Append | app/storage.py:80-89 | an unknown entity fails; otherwise exactly one normalised row is added at the end and all existing rows stay |
| Storage.RecordStore.NextId | app/storage.py:92-102 | an unknown entity fails; otherwise `next_id` of the stored rows |
| Common.PutSpec | streamlit_app.py:264-270 | a dict assignment: the key reads as the new value, other keys are unchanged, the size grows only for a new key, and positions are kept |
| Common.PutAllSpec | streamlit_app.py:264-270 | a run of assignments: the last value wins per key; earlier keys keep their positions; keys stay unique |
| Common.AllSome | run_snmp_action.py:21-30 | the list of values exists exactly when every element parsed, and then holds them in order |
| Text.StripIdempotent | run_snmp_action.py:23 | stripping twice is stripping once |
| Text.StripEnds | run_snmp_action.py:23-25 | a stripped text is empty or starts and ends with non-space |
| Text.UpperStrip | streamlit_app.py:155 | `strip().upper()` is idempotent |
| Text.SplitJoin | run_snmp_action.py:22 | splitting a join on a separator absent from the parts gives the parts back |
| Text.DropEmptyAppend | app/snmp.py:67 | dropping empty parts distributes over concatenation |
| Text.PlainDigitsParse | run_snmp_action.py:27 | `int()` of an optional minus followed by decimal digits is their value, with that sign |
| Text.ParseIntToString | streamlit_app.py:310-311 | `int(str(n)) == n` for every integer |
| Text.ParseHex2 | streamlit_app.py:60 | `int('%02X' % n, 16) == n` |
| Text.Hex2Byte | app/snmp.py:73 | a byte renders as exactly two hexadecimal digits |
| Snmp.ResolveParams | app/snmp.py:19-33 | no `host` and no truthy `hostname` raises; a truthy `hostname` replaces a missing host; a truthy `community` without a read community sets both communities; read defaults to `public` and write to the read community |
| Snmp.OpenSessions | app/snmp.py:35-42 | both sessions open, on the resolved host, with the read and write communities and the version |
| Snmp.SnmpManager.Open | app/snmp.py:19-42 | construction fails exactly when resolution or both session attempts fail; a new manager has issued no SET and holds the resolved sessions |
| Snmp.StateOfCodeSpec | app/snmp.py:193-203 | code 1 maps to ENABLED, every other code to DISABLED, and a state's own value maps back to it |
| Snmp.LeadingSomeRun | app/snmp.py:69-75 | the byte loop keeps exactly the parts before the first one that is not an integer |
| Snmp.SuffixOctetsPrefix | app/snmp.py:67-75 | octets followed by a non-integer part decode to exactly those octets |
| Snmp.FdbEntriesAppend | app/snmp.py:56-89 | decoding a walk is decoding its parts in order, concatenated |
| Snmp.FdbEntriesBound | app/snmp.py:56-89 | no more entries than walked bindings; all when every binding decodes, none when none does |
| Snmp.MacsOnExact | app/snmp.py:91-102 | an address is listed under a port exactly when some entry has that address and port |
| Snmp.MacsOnEmpty | app/snmp.py:96-100 | a port has no list exactly when no entry carries it; entries without a port are in no list |
| Snmp.MacsOnCount | app/snmp.py:91-102 | a port's list is exactly as long as the number of entries learned on that port |
| Snmp.MacsOnMultiplicity | app/snmp.py:91-102 | an address occurs in a port's list once per entry that learned it on that port |
| Snmp.GroupedStep | app/snmp.py:96-101 | one `setdefault(p, []).append(mac)` step keeps the grouping invariant |
| Snmp.BridgeMacRoundTrip | app/snmp.py:104-118 | each raw byte becomes one two-digit hexadecimal group that reads back as the byte |
| Snmp.BridgeMacFailure | app/snmp.py:107-122 | a failed read or an absent value gives `''` |
| Snmp.StatusesSpec | app/snmp.py:166-184 | a positive port gives one record for that port; port 0 gives as many records as the shorter walk, numbered from 1, pairing the i-th oper with the i-th admin |
| Snmp.AttemptsPrefix | app/snmp.py:186-190 | `set_ports` writes a prefix of the list, in order, every write but the last accepted |
| Snmp.AttemptsOutcome | app/snmp.py:186-190 | the whole list when every write succeeds; otherwise it stops right after the first failure |
| Snmp.StopsAtFailure | app/snmp.py:186-190 | with port 4 failing, `[3, 4, 5]` writes 3 and 4 and not 5 |
| Snmp.AttemptsUpTo | app/snmp.py:186-190 | after i accepted writes the loop has written the first i ports and goes on or stops as the next write says |
| Snmp.SnmpManager.GetPortsByMac | app/snmp.py:44-49 | a non-empty suffix does one `get` of that instance; the empty suffix walks the whole table |
| Snmp.SnmpManager.GetFdbEntries | app/snmp.py:51-89 | the decodable bindings of the walk, in walk order; nothing when the walk raises |
| Snmp.DecodeBinding | app/snmp.py:58-86 | one binding decodes to its leading `%02X` bytes joined by `:` and `int(value)` or no port; nothing when no byte decodes |
| Snmp.LeadingHex | app/snmp.py:69-75 | the inner loop yields the `%02X` forms of the parts up to the first non-integer |
| Snmp.SnmpManager.GetMacsByPort | app/snmp.py:91-102 | a port is a key exactly when some entry carries it, and it maps to that port's addresses in walk order |
| Snmp.SnmpManager.GetBridgeMac | app/snmp.py:104-122 | the rendered bridge address of one `get` |
| Snmp.SnmpManager.SetPortState | app/snmp.py:157-163 | one SET of the state's value on the port's admin-status instance; the result is the switch's acceptance and failures read as false |
| Snmp.SnmpManager.FetchPortStatus | app/snmp.py:166-184 | exactly the records described by `StatusesSpec`; a raising read propagates |
| Snmp.SnmpManager.SetPorts | app/snmp.py:186-190 | true exactly when every port accepts; the SETs issued are those of the attempted prefix |
| Snmp.SnmpManager.ChangePortState | app/snmp.py:193-206 | one SET with ENABLED for 1 and DISABLED otherwise |
| Snmp.SnmpManager.ChangePortsState | app/snmp.py:208-217 | `set_ports` with the mapped state |
| SnmpAction.StateOf | run_snmp_action.py:38 | `enable` selects ENABLED (value 1), `disable` selects DISABLED (value 2) |
| SnmpAction.ParsePorts | run_snmp_action.py:21-30 | the port loop yields the parsed list, or no list when a segment is not an integer |
| SnmpAction.PortListOrder | run_snmp_action.py:21-27 | the list exists exactly when every non-empty stripped segment parses, and then it is those integers in input order |
| SnmpAction.BadSegment | run_snmp_action.py:26-30 | one unparseable segment anywhere means no list |
| SnmpAction.PortsCsvRoundTrip | run_snmp_action.py:22-27 | the comma list the scheduler builds from a port text parses back to the same ports |
| SnmpAction.NoPortsInCommas | run_snmp_action.py:22-25 | `",,"` has no segments and parses to the empty list |
| SnmpAction.Run | run_snmp_action.py:19-45 | exit 2 for a bad port list, 3 when no manager opens, else the state's SETs on the ports up to the first refused one and 0 when all were accepted, 4 otherwise |
| SnmpAction.BadPortExitsEarly | run_snmp_action.py:28-30 | a bad segment exits 2 having issued no SET, before any manager is built |
| SnmpAction.OutcomeCodes | run_snmp_action.py:19-45 | the code is 0, 2, 3 or 4; 2 exactly for a bad list; 3 exactly when the list parses and the manager fails; 0 exactly when the list parses, the manager opens and every write is accepted; 2 and 3 write nothing; for 4 the last write was refused |
| SnmpAction.OutcomeWrites | run_snmp_action.py:38-39 | the SETs issued are the selected state on a prefix of the parsed ports, in order; code 0 means all of them |
| SnmpAction.EmptyListSucceeds | run_snmp_action.py:39-42 | a list with no ports exits 0 once the manager opens |
| Inventory.NormalMacIdempotent | streamlit_app.py:155 | the `(mac or '').strip().upper()` normalisation is idempotent |
| Inventory.NonHexKeepsInput | streamlit_app.py:59-63 | a non-hexadecimal group makes the conversion return the input unchanged |
| Inventory.SeparatorsAgree | streamlit_app.py:58 | `-` and `:` separators give the same groups and the same suffix |
| Inventory.OidSuffixInvertsDecoding | streamlit_app.py:55-63 | for byte octets, MAC text to OID suffix inverts the suffix decoding of app/snmp.py |
| Inventory.SetAccessSpec | streamlit_app.py:378-384 | after the toggle the tri-state reads as the wanted value; an unchanged toggle leaves the row as it was; other fields are untouched |
| Inventory.SchedulableOfSpec | streamlit_app.py:442-455 | a machine is offered exactly when it has an id and an address, is not a teacher's machine, and its access reads as allowed (`''` or `true`) |
| Inventory.ListSchedulable | streamlit_app.py:439-455 | the filter loop yields the schedulable machines and their addresses, in order |
| Inventory.FirstMatch | streamlit_app.py:117-127 | the first binding with the pair, or none exactly when no binding has it |
| Inventory.RefreshFields | streamlit_app.py:121-122 | an updated binding keeps its pair, gets the status, and gets the port when one parsed |
| Inventory.UpsertSpec | streamlit_app.py:117-137 | afterwards the pair has a binding with the new status and port; only the first match changes; one row is added exactly when none matched |
| Inventory.UpsertKeeps | streamlit_app.py:117-137 | an upsert never changes a pair, keeps bindings well-formed and never creates a duplicate pair |
| Inventory.UpsertUnique | streamlit_app.py:129-137 | at most one binding per (machine, switch) is preserved |
| Inventory.UpsertBinding | streamlit_app.py:117-137 | the loop computes the upsert and reports whether a binding matched |
| Inventory.UpsertsSettle | streamlit_app.py:316-328 | after a run of upserts every written pair has a binding, and a pair's first binding holds the values of the pair's last upsert |
| Inventory.UpsertsOnBound | streamlit_app.py:316-328 | upserts over rows that already bind their pairs add no row, keep every pair, and only write a pair's last values into its first binding |
| Inventory.UpsertsIdempotent | streamlit_app.py:316-328 | running the same upserts again leaves the bindings unchanged |
| AutoSync.VisitAllExtends | streamlit_app.py:76-139 | probing machines only updates or appends bindings: existing pairs stay, uniqueness and well-formedness are kept, the counters only grow |
| AutoSync.SyncAllExtends | streamlit_app.py:65-139 | the same over all switches |
| AutoSync.VisitAllCounts | streamlit_app.py:76-139 | `updated + added` grows by the number of successful probes; the errors are those of the failed probes, in order |
| AutoSync.SyncAllCounts | streamlit_app.py:65-139 | over all switches, `updated + added` is the number of located machines and the errors are the connection and probe failures, in order |
| AutoSync.VisitFound | streamlit_app.py:114-137 | a machine found on a port has a binding to that switch with the found status and port |
| AutoSync.ProbeMachine | streamlit_app.py:80-112 | one probe: the port from the reply, its admin status, or an error |
| AutoSync.VisitMachines | streamlit_app.py:76-139 | the machine loop of one switch computes the modelled tally |
| AutoSync.SyncSwitches | streamlit_app.py:65-139 | the switch loop computes the modelled tally |
| AutoSync.SyncAllShaped | streamlit_app.py:141-142 | saving the bindings stores them exactly as computed |
| AutoSync.AutoSyncSwitches | streamlit_app.py:47-146 | the counters and errors of the pass, and only the bindings table changes, to the pass's bindings |
| Snapshots.FirstIn | streamlit_app.py:209-214 | the first learned address that is a known machine address, or `''` exactly when none is |
| Snapshots.MacOfMachineKnown | streamlit_app.py:219-233 | a prior binding's address is a known machine address |
| Snapshots.PortRowChoice | streamlit_app.py:209-250 | a port is written exactly when a learned address matches a machine or a prior binding gives one; its address is the match, else the prior one |
| Snapshots.BuildAllKnown | streamlit_app.py:169-251 | every snapshot row the builder writes names a known machine address |
| Snapshots.BuildAllAborts | streamlit_app.py:173 | a switch whose `versao_snmp` is not an integer aborts the whole builder |
| Snapshots.IndexBindings | streamlit_app.py:157-164 | the `switch|port` index of the prior bindings, last binding winning |
| Snapshots.FindKnown | streamlit_app.py:210-214 | the matching loop returns the first known learned address |
| Snapshots.FindMachineMac | streamlit_app.py:222-233 | the machine search returns the normalised address of the first machine with the id |
| Snapshots.ChoosePortMac | streamlit_app.py:200-236 | the chosen address of one port |
| Snapshots.SwitchSnapshots | streamlit_app.py:180-251 | one switch's rows over its status list, its address groups and its bridge address; a failing status read gives an empty list |
| Snapshots.BuildSwitches | streamlit_app.py:169-251 | the switch loop computes the modelled build and its row count |
| Snapshots.GenerateSnapshots | streamlit_app.py:149-259 | an aborted build writes nothing; otherwise the snapshot table is replaced once by all rows, and the count and errors are returned |
| Snapshots.LiveRows | streamlit_app.py:680-713 | one live row per status record |
| Snapshots.PreservedMembers | streamlit_app.py:720 | the kept rows are exactly those whose switch id and switch address both differ from the refreshed switch |
| Snapshots.PreservedAppend | streamlit_app.py:720 | the filter keeps the rows' order |
| Snapshots.NormalizeKept | streamlit_app.py:721-722 | the kept rows are stored unchanged in front of the new rows |
| Snapshots.LiveSwitchRows | streamlit_app.py:664-713 | the live rows of the switch, or none when the status read raises |
| Snapshots.RefreshSwitch | streamlit_app.py:663-724 | when the live read works the snapshot table becomes the other switches' rows, in their order, followed by this switch's new rows; otherwise nothing changes |
| Reconcile.NewMachineFields | streamlit_app.py:311 | a created machine has exactly the machine fields, the new id, the address and `access_allowed` `True` |
| Reconcile.SyncAllGrows | streamlit_app.py:294-330 | the pass only appends machines and only upserts bindings: persisted machines and pairs stay, bindings stay unique and well-formed |
| Reconcile.SyncAllCovers | streamlit_app.py:306-314 | every processed address has a machine afterwards |
| Reconcile.SyncAllUpdated | streamlit_app.py:323-328 | any processed address marks the bindings modified |
| Reconcile.SyncAllAdded | streamlit_app.py:308-314 | the machines are marked modified exactly when the pass created one |
| Reconcile.SyncAllSound | streamlit_app.py:291-313 | the address index only points at machines with that address |
| Reconcile.MacMapNormal | streamlit_app.py:273-277 | the address map's keys are non-empty normalised addresses, each appearing once |
| Reconcile.EveryAddressHasMachine | streamlit_app.py:263-314 | every distinct address of the latest snapshot per (switch, port) has a machine with that address afterwards |
| Reconcile.SyncOneBinds | streamlit_app.py:316-328 | right after its step, an address's machine has a binding to the snapshot's switch with the snapshot's port and up/down status |
| Reconcile.CreatedIds | streamlit_app.py:308-311 | the new id is ≥ 1 and above every persisted id, and every created machine carries it and access `True` |
| Reconcile.SharedId | streamlit_app.py:308-313 | two addresses without machines get distinct machines that share the one `next_id` |
| Reconcile.SyncAllUpserts | streamlit_app.py:316-328 | on the binding side the pass is the run of its items' upserts, each under the machine its address has at the end |
| Reconcile.ReconciledBinds | streamlit_app.py:294-328 | at the end of the pass every address's (machine, switch) pair has a binding; with no later item under the same pair, it holds the snapshot's port and up/down status |
| Reconcile.SyncAllMachines | streamlit_app.py:306-313 | with each address visited once, the pass appends exactly the discovered machines, and unvisited addresses keep their coverage |
| Reconcile.CreatedMachines | streamlit_app.py:306-313 | the machines afterwards are the stored ones followed by one new machine per address that had none, in address-map order |
| Reconcile.CreatedAddresses | streamlit_app.py:273-313 | every created machine carries a non-empty address-map key that no stored machine had, so a snapshot without an address creates none |
| Reconcile.ReconcileIdempotent | streamlit_app.py:261-328 | a second pass over the same snapshots, on the saved machines and bindings, creates no machine and leaves every binding as it is |
| Reconcile.IndexSnapshots | streamlit_app.py:263-270 | the `latest` loop: the last snapshot per `switch|port` wins |
| Reconcile.IndexAddresses | streamlit_app.py:273-277 | the address loop over the latest snapshots, last record winning per address |
| Reconcile.SyncItems | streamlit_app.py:294-330 | the address loop computes the modelled pass, with `next_id` of the persisted machines |
| Reconcile.SyncFromSnapshots | streamlit_app.py:261-344 | machines are saved only when one was created, bindings only when some address was processed, each as computed by the pass; the snapshots are untouched |
| Reconcile.SeedAndReconcile | streamlit_app.py:352-366 | seeding runs only when there are no snapshots and replaces the snapshot table; an aborted seeding skips the pass and leaves the store unchanged; otherwise the tables become those of the reconciliation pass over the (seeded) tables |
| Reconcile.RunStartup | streamlit_app.py:347-368 | the probe pass first; with snapshots present no seeding and one reconciliation pass, which leaves the snapshots as they were; the final tables are the probe pass's bindings, then the seeding and the reconciliation pass applied to them |
| Schedule.Truncate | streamlit_app.py:474-475 | the start of the moment's minute |
| Schedule.WindowOf | streamlit_app.py:474-479 | a window starts before it ends, on minute boundaries; there is no window exactly when the end had to move past `datetime.max` |
| Schedule.LastMinute | streamlit_app.py:479 | a minute after an aligned moment is aligned, and only the last minute has none |
| Schedule.WindowBounds | streamlit_app.py:474-479 | the start is the requested start's minute; the end is the requested end's minute, or one minute after the start exactly when that was not later |
| Schedule.WindowStable | streamlit_app.py:474-479 | a window built from a window's ends is that window, unadjusted |
| Schedule.CronTimeOf | streamlit_app.py:497 | the cron minute and hour are in range; day and month come from the calendar |
| Schedule.CronClock | streamlit_app.py:497 | hour and minute are the moment's minute of the day |
| Schedule.TagsDiffer | streamlit_app.py:496-500 | the `_start` and `_end` tags of one uid differ and both carry the `ogmr_` prefix |
| Schedule.CronTab.constructor | streamlit_app.py:493 | the crontab as read: jobs and installed jobs are the current ones |
| Schedule.CronTab.Add | streamlit_app.py:496-501 | one job added at the end, nothing installed |
| Schedule.CronTab.Write | streamlit_app.py:503 | a writable crontab installs exactly its jobs; otherwise nothing is installed |
| Schedule.CronTab.RemoveTagged | streamlit_app.py:745-746 | the jobs become exactly the untagged ones, in order |
| Schedule.TaggedSplit | streamlit_app.py:740-746 | removal keeps exactly the untagged jobs and lists exactly the tagged ones, and together they account for every job |
| Schedule.UntaggedKeeps | streamlit_app.py:740 | with no tagged job nothing is listed or removed |
| Schedule.UntaggedIdempotent | streamlit_app.py:740-747 | removing twice removes nothing more |
| Schedule.ReadBackAppend | streamlit_app.py:526 | the read-back count of a concatenation is the sum of the counts |
| Schedule.WindowJobs | streamlit_app.py:488-501 | two jobs with the window's tags: `_start` runs disable; `_end` runs the same command with enable |
| Schedule.JobsKeepPorts | streamlit_app.py:488-491 | both jobs are given the form's ports, in order |
| Schedule.MachineFor | streamlit_app.py:506-512 | no address, or no schedulable machine with it, gives `''`; otherwise the id of the first schedulable machine with exactly that address |
| Schedule.Submit | streamlit_app.py:470-532 | a window past `datetime.max` changes nothing; otherwise both jobs are added; a failed write records nothing; a successful write installs them and appends one row with the uid, the address, the machine and both ends, and the read-back finds both jobs |
| Schedule.ReadBackFindsBoth | streamlit_app.py:526-527 | whatever the crontab held, the read-back after adding the two jobs counts at least two |
| Schedule.RemoveAll | streamlit_app.py:738-748 | lists exactly the tagged jobs; on confirmation removes them and writes, leaving the untagged jobs installed |
| Routes.RecordOf | app/routes/routes.py:19-106 | the row holds the id when the endpoint numbers rows, the required body keys, and the optional keys with their defaults, and no other key |
| Routes.Defaults | app/routes/routes.py:27 | `dados.get(k, default)` adds exactly the optional keys and leaves the others |
| Routes.Create | app/routes/routes.py:19-106 | a missing required key fails with nothing written; otherwise exactly one row is appended, numbered with `next_id` when the endpoint numbers rows |
| Routes.CreatedIdFresh | app/routes/routes.py:22-29 | the appended row's id reads back as `next_id`, which is ≥ 1 and above every persisted id |
| Routes.CreatedMachineAllowed | app/routes/routes.py:68-77 | a machine created through the API has an empty `access_allowed`, which reads as allowed |
| Routes.NormalizeRowLacks | app/storage.py:88 | a field the data lacks is written empty |
| Routes.FirstMarked | app/routes/routes.py:129-133 | a search that stops at a match returns a matching position |
| Routes.FirstMarkedFirst | app/routes/routes.py:129-133 | a match at j means the search finds one at j or before |
| Routes.FindSwitch | app/routes/routes.py:127-135 | the switch found has the requested id |
| Routes.FindSwitchFirst | app/routes/routes.py:127-138 | any switch with the id means one is found, at that position or before it, so the earliest wins and 404 means none has it; rows that do not parse never match |
| Routes.FirstBinding | app/routes/routes.py:152-159 | the binding found is for the requested machine and switch |
| Routes.FirstBindingFirst | app/routes/routes.py:152-159 | any matching binding means one is found, at that position or before it |
| Routes.MarkStatusSpec | app/routes/routes.py:150-159 | only the first matching binding changes, and only its status, which becomes `True` exactly for status 1; no row is added and bindings stay well-formed |
| Routes.LocateSwitch | app/routes/routes.py:127-138 | the search loop returns the first switch with the id, or none |
| Routes.UpdateBinding | app/routes/routes.py:150-159 | the binding loop computes the marked bindings and reports whether one matched |
| Routes.WritePort | app/routes/routes.py:140-147 | a switch whose version is not an integer, or whose sessions do not open, gives no write; otherwise one SET of the mapped state on the port |
| Routes.RecordStatus | app/routes/routes.py:150-162 | the bindings are saved, with the first match marked, only when one matched |
| Routes.AlterPort | app/routes/routes.py:114-168 | a non-integer status gives 400 with no write and no store change; no switch gives 404; no manager gives a server error; otherwise one SET, the binding update whether or not it was accepted, and a reply echoing the port, the status and the SET's result |

## Left out

- SNMP transport: sessions, timeouts, retries and exceptions are the abstract `Net`. The model only says whether a session opens, what a read answers and whether a SET is accepted.
- `Net` answers as a function of the request. Repeated identical GETs or SETs therefore always get identical answers: a port listed twice in `set_ports` is accepted or refused both times.
- `get_if_phys_addresses` (app/snmp.py:124-154): it is not used by the modelled code.
- The print and logging side effects of `set_port_state`, `alterar_estado_porta(s)` and `run_snmp_action.py`.
- Argument parsing in `run_snmp_action.py`: the action is a two-valued type, so the `choices` validation cannot fail.
- CSV files: the on-disk format, the directory creation, the header written by `load_all`, and a `save_all` or `append` that raises. Each store call either succeeds or refuses an unknown entity.
- The Streamlit pages: login, forms, tabs, tables, messages, the immediate action form, the per-machine status display, and the checkbox loop. Only the rules the pages apply are modelled: the tri-state, the schedulable filter, the live merge.
- Crontab details:
  - the library itself, the command strings and their shell quoting, and the interpreter and script paths;
  - `CronTab(user=True)` failing to read;
  - a job's slices beyond minute, hour, day and month.
- Values given as parameters:
  - the uuid;
  - `datetime.now`;
  - the calendar that maps a day number to day and month;
  - `isoformat`.
- Strings: Unicode case mapping beyond ASCII, and Unicode whitespace beyond the ASCII and common separators that `Text.IsSpace` lists.
- Text.ParseInt: Python's `int()` also accepts non-ASCII Unicode decimal digits; the model accepts ASCII digits only.
- Snmp.BridgeMacRoundTrip: covers a raw value whose characters are below 256. A character of 256 or more renders as more than two hex digits, in the source and in `BridgeMacText` alike. The `except` that falls back to `str(raw)` cannot be reached by such a value and is left out.
- Snmp.MacsOnCount: the count is stated per port. The total over all ports of the mapping is not summed.
- Routes.AlterPort: the JSON `porta` is taken as an integer. A missing request key (`KeyError`) is not modelled. Only the status conversion failure is.
- JSON floats: the `Value` type has no floats. So `int()` truncating a float status, `id_switch` or `id_maquina` in `alterar_porta`, and `str()` of a float in the create endpoints, are not modelled.
- Routes.Create: a JSON body that is not an object is not modelled.
- The create endpoints store `str()` of JSON values through `Render`. Nested lists and objects have no rendering in the model.
- AutoSync.AutoSyncSwitches: `save_all` raising is not modelled, so its error string never appears.
- Reconcile.SyncFromSnapshots: a `save_all` failure and its sidebar message are not modelled.
- Reconcile.RunStartup: the exceptions swallowed by the outer `try/except: pass` are modelled only where the code can raise: the seeding abort on a non-integer `versao_snmp`.

/**
 * The port snapshots (`status_portas`) of streamlit_app.py: the seeding pass
 * `generate_status_portas_from_switches`, which keeps only ports tied to a known
 * machine, and the live refresh that replaces one switch's snapshots.
 */
module Snapshots {
  import opened Common
  import opened Text
  import opened Storage
  import opened Snmp
  import opened Inventory
  import opened AutoSync

  /** The error lines of the seeding pass. */
  datatype BuildError =
    | Unreachable(switchId: string, ip: string)        // the manager could not be built
    | StatusUnavailable(switchId: string, ip: string)  // `fetch_port_status(0)` raised

  /** The keys of `mac_to_machine`: every machine address that is present, normalised. */
  function KnownMacs(machines: seq<Row>): set<string> {
    set i | 0 <= i < |machines| && Get(machines[i], "mac") != "" :: NormalMac(Get(machines[i], "mac"))
  }

  /** The key of `conex_map`: a binding's switch and port. */
  function BindingKey(c: Row): string {
    Get(c, "id_switch") + "|" + Get(c, "porta")
  }

  /** The bindings as `conex_map` entries, in store order. */
  function KeyedBindings(conex: seq<Row>): Dict<string, Row> {
    if conex == [] then []
    else KeyedBindings(conex[..|conex| - 1]) + [(BindingKey(conex[|conex| - 1]), conex[|conex| - 1])]
  }

  /** What the pass knows before it asks any switch. */
  datatype Prior = Prior(known: set<string>, conexMap: Dict<string, Row>, machines: seq<Row>)

  /** `mac_to_machine` and `conex_map` (the last binding per key wins). */
  function PriorOf(machines: seq<Row>, conex: seq<Row>): Prior {
    Prior(KnownMacs(machines), PutAll([], KeyedBindings(conex)), machines)
  }

  /** `learned_norm`: the learned addresses that are present, normalised, in order. */
  function LearnedNorm(learned: seq<string>): seq<string> {
    if learned == [] then []
    else LearnedNorm(learned[..|learned| - 1]) + (if learned[|learned| - 1] != "" then [NormalMac(learned[|learned| - 1])] else [])
  }

  /** The first of `xs` that is known, or "" when none is. */
  function FirstIn(xs: seq<string>, known: set<string>): (r: string)
    ensures r != "" ==> r in known && exists i :: 0 <= i < |xs| && xs[i] == r && forall j :: 0 <= j < i ==> xs[j] !in known
    ensures (forall i :: 0 <= i < |xs| ==> xs[i] != "") ==> (r == "" <==> forall i :: 0 <= i < |xs| ==> xs[i] !in known)
  {
    if xs == [] then ""
    else if xs[0] in known then xs[0]
    else
      var r := FirstIn(xs[1..], known);
      assert r != "" ==> exists i :: 0 <= i < |xs[1..]| && xs[1..][i] == r && forall j :: 0 <= j < i ==> xs[1..][j] !in known;
      r
  }

  /** The normalised address of the first machine with the id, or "" when there is none. */
  function MacOfMachine(machines: seq<Row>, mid: string): string {
    if machines == [] then ""
    else if Get(machines[0], "id_maquina") == mid then NormalMac(Get(machines[0], "mac"))
    else MacOfMachine(machines[1..], mid)
  }

  /** `prior_mac`: the address of the machine an existing binding for this switch and port names. */
  function PriorMac(p: Prior, sid: string, port: int): string {
    match Lookup(p.conexMap, sid + "|" + IntToString(port))
    case None => ""
    case Some(c) => if c == map[] then "" else MacOfMachine(p.machines, Get(c, "id_maquina"))
  }

  /** `matched_mac or prior_mac`: a known learned address first, else the prior one. */
  function ChosenMac(learned: seq<string>, p: Prior, sid: string, port: int): string {
    var matched := FirstIn(LearnedNorm(learned), p.known);
    if matched != "" then matched else PriorMac(p, sid, port)
  }

  /** A text value that may be `None`. */
  function Optional(o: Option<string>): Value {
    match o
    case None => Null
    case Some(t) => Str(t)
  }

  /** A port snapshot, as the passes build it before it is handed to the store. */
  datatype Snapshot = Snapshot(switchId: string, switchIp: string, port: int, operational: Option<string>,
                               administrative: Option<string>, mac: string, bridgeMac: string)

  /** The dict handed to the store for a snapshot; it has no `access_allowed`. */
  function SnapshotRecord(r: Snapshot): Record {
    map["id_switch" := Str(r.switchId), "switch_ip" := Str(r.switchIp),
        "port" := Number(r.port), "operational" := Optional(r.operational),
        "administrative" := Optional(r.administrative), "mac" := Str(r.mac), "bridge_mac" := Str(r.bridgeMac)]
  }

  function SnapshotRecords(rows: seq<Snapshot>): seq<Record> {
    seq(|rows|, i requires 0 <= i < |rows| => SnapshotRecord(rows[i]))
  }

  /** The snapshot written for a port. */
  function SnapshotOf(sw: Row, st: PortStatus, mac: string, bridge: string): Snapshot {
    Snapshot(Get(sw, "id_switch"), Get(sw, "ip"), st.port, st.operational, st.administrative, mac, bridge)
  }

  /** One status record: written only when an address was chosen for its port. */
  function PortRow(sw: Row, bridge: string, fdb: seq<FdbEntry>, p: Prior, st: PortStatus): Option<Snapshot> {
    var mac := ChosenMac(MacsOn(fdb, st.port), p, Get(sw, "id_switch"), st.port);
    if mac == "" then None else Some(SnapshotOf(sw, st, mac, bridge))
  }

  /** The snapshots of a switch's status records, in record order. */
  function PortRows(sw: Row, bridge: string, fdb: seq<FdbEntry>, p: Prior, statuses: seq<PortStatus>): seq<Snapshot> {
    if statuses == [] then []
    else
      var row := PortRow(sw, bridge, fdb, p, statuses[|statuses| - 1]);
      PortRows(sw, bridge, fdb, p, statuses[..|statuses| - 1]) + (if row.Some? then [row.value] else [])
  }

  /** The rows collected so far (`global_rows`) and the error lines. */
  datatype Build = Build(rows: seq<Snapshot>, errors: seq<BuildError>)

  /**
   * One switch. `None` when its version is no integer: that `int()` is outside any
   * `try`, so the whole pass raises. A switch that cannot be reached adds an error;
   * a failed status walk adds an error and contributes no rows.
   */
  function BuildSwitch(net: Net, b: Build, sw: Row, p: Prior): Option<Build> {
    if SwitchVersion(sw).None? then None
    else
      match SwitchSessions(net, sw)
      case None => Some(b.(errors := b.errors + [Unreachable(Get(sw, "id_switch"), Get(sw, "ip"))]))
      case Some(sessions) =>
        var s := sessions.0;
        var reply := StatusesOf(net, s, 0);
        var statuses := if reply.Answer? then reply.value else [];
        var bridge := BridgeMacText(net.get(s, Object(BridgeAddressOid)));
        Some(Build(b.rows + PortRows(sw, bridge, FdbEntriesOf(net, s), p, statuses),
                   if reply.Raised? then b.errors + [StatusUnavailable(Get(sw, "id_switch"), Get(sw, "ip"))] else b.errors))
  }

  /** The switches in order; the first bad version aborts the pass. */
  function BuildAll(net: Net, switches: seq<Row>, p: Prior): Option<Build> {
    if switches == [] then Some(Build([], []))
    else
      match BuildAll(net, switches[..|switches| - 1], p)
      case None => None
      case Some(b) => BuildSwitch(net, b, switches[|switches| - 1], p)
  }

  // ------------------------------------------------------------ what a snapshot names

  /** A snapshot whose address is one of the known machine addresses. */
  predicate NamesKnown(r: Snapshot, known: set<string>) {
    r.mac != "" && r.mac in known
  }

  /** The address of a machine, normalised, is known unless it is empty. */
  lemma {:induction false} MacOfMachineKnown(machines: seq<Row>, mid: string)
    ensures MacOfMachine(machines, mid) != "" ==> MacOfMachine(machines, mid) in KnownMacs(machines)
  {
    if machines != [] && Get(machines[0], "id_maquina") != mid {
      MacOfMachineKnown(machines[1..], mid);
      if MacOfMachine(machines, mid) != "" {
        var i :| 0 <= i < |machines[1..]| && Get(machines[1..][i], "mac") != "" && NormalMac(Get(machines[1..][i], "mac")) == MacOfMachine(machines, mid);
        assert machines[i + 1] == machines[1..][i];
      }
    } else if machines != [] && MacOfMachine(machines, mid) != "" {
      assert Get(machines[0], "mac") != "";
    }
  }

  /**
   * A port is written only for an inventory machine: whether the address came from
   * the learned list or from an earlier binding, it is a known machine's address.
   */
  lemma PortRowKnown(sw: Row, bridge: string, fdb: seq<FdbEntry>, machines: seq<Row>, conex: seq<Row>, st: PortStatus)
    ensures var row := PortRow(sw, bridge, fdb, PriorOf(machines, conex), st);
      row.Some? ==> NamesKnown(row.value, KnownMacs(machines))
  {
    var p := PriorOf(machines, conex);
    var c := Lookup(p.conexMap, Get(sw, "id_switch") + "|" + IntToString(st.port));
    if c.Some? && c.value != map[] {
      MacOfMachineKnown(machines, Get(c.value, "id_maquina"));
    }
  }

  /** Every snapshot names a known address. */
  ghost predicate AllKnown(rows: seq<Snapshot>, known: set<string>) {
    forall i :: 0 <= i < |rows| ==> NamesKnown(rows[i], known)
  }

  lemma AllKnownConcat(a: seq<Snapshot>, b: seq<Snapshot>, known: set<string>)
    requires AllKnown(a, known) && AllKnown(b, known)
    ensures AllKnown(a + b, known)
  {
    assert forall i :: |a| <= i < |a + b| ==> (a + b)[i] == b[i - |a|];
  }

  lemma {:induction false} PortRowsKnown(sw: Row, bridge: string, fdb: seq<FdbEntry>, machines: seq<Row>, conex: seq<Row>, statuses: seq<PortStatus>)
    ensures AllKnown(PortRows(sw, bridge, fdb, PriorOf(machines, conex), statuses), KnownMacs(machines))
  {
    if statuses != [] {
      var p := PriorOf(machines, conex);
      var init := statuses[..|statuses| - 1];
      PortRowsKnown(sw, bridge, fdb, machines, conex, init);
      var row := PortRow(sw, bridge, fdb, p, statuses[|statuses| - 1]);
      PortRowKnown(sw, bridge, fdb, machines, conex, statuses[|statuses| - 1]);
      AllKnownConcat(PortRows(sw, bridge, fdb, p, init), if row.Some? then [row.value] else [], KnownMacs(machines));
    }
  }

  /** One switch adds only snapshots that name known addresses. */
  lemma BuildSwitchKnown(net: Net, b: Build, sw: Row, machines: seq<Row>, conex: seq<Row>)
    requires AllKnown(b.rows, KnownMacs(machines))
    ensures var after := BuildSwitch(net, b, sw, PriorOf(machines, conex));
      after.Some? ==> AllKnown(after.value.rows, KnownMacs(machines))
  {
    if SwitchVersion(sw).Some? {
      match SwitchSessions(net, sw)
      case None =>
      case Some(sessions) =>
        var s := sessions.0;
        var reply := StatusesOf(net, s, 0);
        var bridge := BridgeMacText(net.get(s, Object(BridgeAddressOid)));
        var statuses := if reply.Answer? then reply.value else [];
        PortRowsKnown(sw, bridge, FdbEntriesOf(net, s), machines, conex, statuses);
        AllKnownConcat(b.rows, PortRows(sw, bridge, FdbEntriesOf(net, s), PriorOf(machines, conex), statuses), KnownMacs(machines));
    }
  }

  /** Every snapshot the seeding pass writes names a known machine's address. */
  lemma {:induction false} BuildAllKnown(net: Net, switches: seq<Row>, machines: seq<Row>, conex: seq<Row>)
    ensures var b := BuildAll(net, switches, PriorOf(machines, conex));
      b.Some? ==> AllKnown(b.value.rows, KnownMacs(machines))
  {
    if switches != [] {
      BuildAllKnown(net, switches[..|switches| - 1], machines, conex);
      match BuildAll(net, switches[..|switches| - 1], PriorOf(machines, conex))
      case None =>
      case Some(b) =>
        BuildSwitchKnown(net, b, switches[|switches| - 1], machines, conex);
    }
  }

  /**
   * A port is written exactly when a learned address is known or an earlier binding
   * names a machine with an address; the learned one wins.
   */
  lemma PortRowChoice(sw: Row, bridge: string, fdb: seq<FdbEntry>, p: Prior, st: PortStatus)
    ensures var matched := FirstIn(LearnedNorm(MacsOn(fdb, st.port)), p.known);
      var prior := PriorMac(p, Get(sw, "id_switch"), st.port);
      var row := PortRow(sw, bridge, fdb, p, st);
      && (row.Some? <==> matched != "" || prior != "")
      && (row.Some? ==> row.value.mac == if matched != "" then matched else prior)
  {
  }

  /** Once a version fails, the pass stays aborted whatever follows. */
  lemma {:induction false} BuildAllAborts(net: Net, switches: seq<Row>, n: nat, p: Prior)
    requires n <= |switches| && BuildAll(net, switches[..n], p).None?
    ensures BuildAll(net, switches, p).None?
  {
    if n < |switches| {
      assert switches[..|switches| - 1][..n] == switches[..n];
      BuildAllAborts(net, switches[..|switches| - 1], n, p);
    } else {
      assert switches[..n] == switches;
    }
  }

  // ------------------------------------------------------------ the seeding pass

  /** The `conex_map` loop: the last binding per switch and port wins. */
  method IndexBindings(conex: seq<Row>) returns (conexMap: Dict<string, Row>)
    ensures conexMap == PutAll([], KeyedBindings(conex))
  {
    conexMap := [];
    for i := 0 to |conex|
      invariant conexMap == PutAll([], KeyedBindings(conex[..i]))
    {
      assert conex[..i + 1][..i] == conex[..i];
      conexMap := Put(conexMap, BindingKey(conex[i]), conex[i]);
    }
    assert conex[..|conex|] == conex;
  }

  /** The `matched_mac` loop: the first normalised learned address that is known. */
  method FindKnown(learnedNorm: seq<string>, known: set<string>) returns (matched: string)
    ensures matched == FirstIn(learnedNorm, known)
  {
    matched := "";
    var i := 0;
    while i < |learnedNorm|
      invariant 0 <= i <= |learnedNorm|
      invariant FirstIn(learnedNorm, known) == FirstIn(learnedNorm[i..], known)
    {
      assert learnedNorm[i..][1..] == learnedNorm[i + 1..];
      if learnedNorm[i] in known {
        matched := learnedNorm[i];
        return;
      }
      i := i + 1;
    }
  }

  /** The `prior_mac` loop: the first machine with the binding's id. */
  method FindMachineMac(machines: seq<Row>, mid: string) returns (mac: string)
    ensures mac == MacOfMachine(machines, mid)
  {
    mac := "";
    var i := 0;
    while i < |machines|
      invariant 0 <= i <= |machines|
      invariant MacOfMachine(machines, mid) == MacOfMachine(machines[i..], mid)
    {
      assert machines[i..][1..] == machines[i + 1..];
      if Get(machines[i], "id_maquina") == mid {
        mac := NormalMac(Get(machines[i], "mac"));
        return;
      }
      i := i + 1;
    }
  }

  /** The address chosen for a port, as the loop body computes it. */
  method ChoosePortMac(learned: seq<string>, p: Prior, sid: string, port: int) returns (mac: string)
    ensures mac == ChosenMac(learned, p, sid, port)
  {
    var matched := FindKnown(LearnedNorm(learned), p.known);
    var prior := "";
    var priorConn := Lookup(p.conexMap, sid + "|" + IntToString(port));
    if priorConn.Some? && priorConn.value != map[] {
      prior := FindMachineMac(p.machines, Get(priorConn.value, "id_maquina"));
    }
    mac := if matched != "" then matched else prior;
  }

  /** One more status record: its snapshot, if any, goes last. */
  lemma PortRowsStep(sw: Row, bridge: string, fdb: seq<FdbEntry>, p: Prior, statuses: seq<PortStatus>, i: nat)
    requires i < |statuses|
    ensures var row := PortRow(sw, bridge, fdb, p, statuses[i]);
      PortRows(sw, bridge, fdb, p, statuses[..i + 1]) == PortRows(sw, bridge, fdb, p, statuses[..i]) + (if row.Some? then [row.value] else [])
  {
    assert statuses[..i + 1][..i] == statuses[..i];
  }

  /** The port loop of one reachable switch: its snapshots, their number, and whether the status walk raised. */
  method SwitchSnapshots(snmp: SnmpManager, sw: Row, p: Prior) returns (rows: seq<Snapshot>, count: nat, failed: bool)
    ensures var reply := StatusesOf(snmp.net, snmp.readSession, 0);
      && failed == reply.Raised?
      && rows == PortRows(sw, BridgeMacText(snmp.net.get(snmp.readSession, Object(BridgeAddressOid))),
                          FdbEntriesOf(snmp.net, snmp.readSession), p, if reply.Answer? then reply.value else [])
      && count == |rows|
  {
    var reply := snmp.FetchPortStatus(0);
    failed := reply.Raised?;
    var statuses := if reply.Answer? then reply.value else [];
    var macsByPort := snmp.GetMacsByPort();
    var bridge := snmp.GetBridgeMac();
    ghost var fdb := FdbEntriesOf(snmp.net, snmp.readSession);
    rows, count := [], 0;
    for i := 0 to |statuses|
      invariant rows == PortRows(sw, bridge, fdb, p, statuses[..i])
      invariant count == |rows|
    {
      PortRowsStep(sw, bridge, fdb, p, statuses, i);
      var st := statuses[i];
      var learned := if st.port in macsByPort then macsByPort[st.port] else [];
      assert learned == MacsOn(fdb, st.port);
      var mac := ChoosePortMac(learned, p, Get(sw, "id_switch"), st.port);
      if mac == "" {
        continue;
      }
      rows := rows + [SnapshotOf(sw, st, mac, bridge)];
      count := count + 1;
    }
    assert statuses[..|statuses|] == statuses;
  }

  /** The switch loop of the seeding pass; `None` where a version raises. */
  method BuildSwitches(net: Net, sws: seq<Row>, p: Prior) returns (r: Option<Build>, total: nat)
    ensures r == BuildAll(net, sws, p)
    ensures r.Some? ==> total == |r.value.rows|
  {
    var b := Build([], []);
    total := 0;
    for i := 0 to |sws|
      invariant BuildAll(net, sws[..i], p) == Some(b)
      invariant total == |b.rows|
    {
      assert sws[..i + 1][..i] == sws[..i];
      var sw := sws[i];
      var version := SwitchVersion(sw);
      if version.None? {
        BuildAllAborts(net, sws, i + 1, p);
        return None, total;
      }
      var community := Get(sw, "chave_community");
      var manager := SnmpManager.Open(net, host := Some(Get(sw, "ip")), communityRead := Some(community),
                                      communityWrite := Some(community), version := version.value);
      if manager.Err? {
        b := b.(errors := b.errors + [Unreachable(Get(sw, "id_switch"), Get(sw, "ip"))]);
        continue;
      }
      var rows, count, failed := SwitchSnapshots(manager.value, sw, p);
      b := Build(b.rows + rows, if failed then b.errors + [StatusUnavailable(Get(sw, "id_switch"), Get(sw, "ip"))] else b.errors);
      total := total + count;
    }
    assert sws[..|sws|] == sws;
    r := Some(b);
  }

  /**
   * `generate_status_portas_from_switches`: `None` when a version raises, and then
   * nothing is saved; otherwise the snapshot table is replaced once by the rows
   * collected, and the number written comes back with the error lines.
   */
  method GenerateSnapshots(store: RecordStore, net: Net) returns (r: Option<(nat, seq<BuildError>)>)
    requires store.Valid()
    modifies store
    ensures store.Valid()
    ensures var b := BuildAll(net, old(store.Table(Switches)), PriorOf(old(store.Table(Machines)), old(store.Table(Bindings))));
      && (b.None? ==> r.None? && store.tables == old(store.tables))
      && (b.Some? ==> r == Some((|b.value.rows|, b.value.errors))
                      && store.tables == old(store.tables)[Snapshots := NormalizeRows(Entities[Snapshots], SnapshotRecords(b.value.rows))])
  {
    var switches := store.LoadAll(Switches);
    var machines := store.LoadAll(Machines);
    var conex := store.LoadAll(Bindings);
    var conexMap := IndexBindings(conex.value);
    var built, total := BuildSwitches(net, switches.value, Prior(KnownMacs(machines.value), conexMap, machines.value));
    if built.None? {
      return None;
    }
    var saved := store.SaveAll(Snapshots, SnapshotRecords(built.value.rows));
    r := Some((total, built.value.errors));
  }

  // ------------------------------------------------------------ the live refresh

  /** `mac_single`: the first address learned on the port, normalised; "" without one. */
  function FirstLearned(learned: seq<string>): string {
    if learned == [] then "" else NormalMac(learned[0])
  }

  /** The fresh snapshots of one switch: one per status record, with its first learned address. */
  function LiveRows(sw: Row, bridge: string, fdb: seq<FdbEntry>, statuses: seq<PortStatus>): (rows: seq<Snapshot>)
    ensures |rows| == |statuses|
  {
    if statuses == [] then []
    else
      var st := statuses[|statuses| - 1];
      LiveRows(sw, bridge, fdb, statuses[..|statuses| - 1]) + [SnapshotOf(sw, st, FirstLearned(MacsOn(fdb, st.port)), bridge)]
  }

  /** A snapshot of another switch: neither its switch id nor its address is this switch's. */
  predicate OtherSwitch(r: Row, sw: Row) {
    Get(r, "id_switch") != Get(sw, "id_switch") && Get(r, "switch_ip") != Get(sw, "ip")
  }

  /** `preserved`: the snapshots of other switches, in order. */
  function Preserved(snaps: seq<Row>, sw: Row): seq<Row> {
    if snaps == [] then []
    else Preserved(snaps[..|snaps| - 1], sw) + (if OtherSwitch(snaps[|snaps| - 1], sw) then [snaps[|snaps| - 1]] else [])
  }

  /** The preserved rows are exactly the other switches' rows. */
  lemma {:induction false} PreservedMembers(snaps: seq<Row>, sw: Row)
    ensures forall r :: r in Preserved(snaps, sw) <==> r in snaps && OtherSwitch(r, sw)
  {
    if snaps != [] {
      PreservedMembers(snaps[..|snaps| - 1], sw);
      assert snaps == snaps[..|snaps| - 1] + [snaps[|snaps| - 1]];
    }
  }

  /** Filtering distributes over concatenation, so the preserved rows keep their order. */
  lemma {:induction false} PreservedAppend(snaps: seq<Row>, more: seq<Row>, sw: Row)
    ensures Preserved(snaps + more, sw) == Preserved(snaps, sw) + Preserved(more, sw)
  {
    if more == [] {
      assert snaps + more == snaps;
    } else {
      PreservedAppend(snaps, more[..|more| - 1], sw);
      assert (snaps + more)[..|snaps + more| - 1] == snaps + more[..|more| - 1];
    }
  }

  /**
   * The fresh snapshots of one switch: `None` when its version is no integer, it
   * cannot be reached or its status walk raises (the warning path).
   */
  function LiveSnapshots(net: Net, sw: Row): Option<seq<Snapshot>> {
    match SwitchSessions(net, sw)
    case None => None
    case Some(sessions) =>
      var s := sessions.0;
      match StatusesOf(net, s, 0)
      case Raised => None
      case Answer(statuses) =>
        Some(LiveRows(sw, BridgeMacText(net.get(s, Object(BridgeAddressOid))), FdbEntriesOf(net, s), statuses))
  }

  /** Normalising stored rows followed by new records leaves the stored rows as they were. */
  lemma NormalizeKept(fields: seq<string>, kept: seq<Row>, news: seq<Record>)
    requires forall i :: 0 <= i < |kept| ==> Shaped(fields, kept[i])
    ensures NormalizeRows(fields, LiftRows(kept) + news) == kept + NormalizeRows(fields, news)
  {
    NormalizeShapedRows(fields, kept);
    assert NormalizeRows(fields, LiftRows(kept) + news)[..|kept|] == NormalizeRows(fields, LiftRows(kept));
  }

  /** The preserved snapshots are stored rows of other switches, so they keep their shape. */
  lemma PreservedShaped(snaps: seq<Row>, sw: Row, fields: seq<string>)
    requires forall i :: 0 <= i < |snaps| ==> Shaped(fields, snaps[i])
    ensures forall i :: 0 <= i < |Preserved(snaps, sw)| ==> Shaped(fields, Preserved(snaps, sw)[i])
  {
    PreservedMembers(snaps, sw);
    forall i | 0 <= i < |Preserved(snaps, sw)| ensures Shaped(fields, Preserved(snaps, sw)[i]) {
      var r := Preserved(snaps, sw)[i];
      assert r in snaps;
    }
  }

  /**
   * The live refresh of one switch (`preserved + new_rows_for_switch`): when it gets
   * through, the snapshot table becomes the other switches' snapshots, unchanged and
   * in their order, followed by this switch's fresh ones; otherwise nothing changes.
   */
  method RefreshSwitch(store: RecordStore, net: Net, sw: Row) returns (refreshed: bool)
    requires store.Valid()
    modifies store
    ensures store.Valid()
    ensures var live := LiveSnapshots(net, sw);
      && refreshed == live.Some?
      && (live.None? ==> store.tables == old(store.tables))
      && (live.Some? ==> store.tables == old(store.tables)[Snapshots :=
            Preserved(old(store.Table(Snapshots)), sw) + NormalizeRows(Entities[Snapshots], SnapshotRecords(live.value))])
  {
    var version := SwitchVersion(sw);
    if version.None? {
      return false;
    }
    var community := Get(sw, "chave_community");
    var manager := SnmpManager.Open(net, host := Some(Get(sw, "ip")), communityRead := Some(community),
                                    communityWrite := Some(community), version := version.value);
    if manager.Err? {
      return false;
    }
    var news := LiveSwitchRows(manager.value, sw);
    if news.None? {
      return false;
    }
    var snaps := store.LoadAll(Snapshots);
    var kept := Preserved(snaps.value, sw);
    PreservedShaped(snaps.value, sw, Entities[Snapshots]);
    NormalizeKept(Entities[Snapshots], kept, SnapshotRecords(news.value));
    var saved := store.SaveAll(Snapshots, LiftRows(kept) + SnapshotRecords(news.value));
    refreshed := true;
  }

  /** The status loop of the live refresh: one fresh snapshot per status record. */
  method LiveSwitchRows(snmp: SnmpManager, sw: Row) returns (news: Option<seq<Snapshot>>)
    ensures var reply := StatusesOf(snmp.net, snmp.readSession, 0);
      && (reply.Raised? ==> news.None?)
      && (reply.Answer? ==> news == Some(LiveRows(sw, BridgeMacText(snmp.net.get(snmp.readSession, Object(BridgeAddressOid))),
                                                  FdbEntriesOf(snmp.net, snmp.readSession), reply.value)))
  {
    var reply := snmp.FetchPortStatus(0);
    if reply.Raised? {
      return None;
    }
    var macsByPort := snmp.GetMacsByPort();
    var bridge := snmp.GetBridgeMac();
    ghost var fdb := FdbEntriesOf(snmp.net, snmp.readSession);
    var statuses := reply.value;
    var rows: seq<Snapshot> := [];
    for i := 0 to |statuses|
      invariant rows == LiveRows(sw, bridge, fdb, statuses[..i])
    {
      assert statuses[..i + 1][..i] == statuses[..i];
      var st := statuses[i];
      var learned := if st.port in macsByPort then macsByPort[st.port] else [];
      assert learned == MacsOn(fdb, st.port);
      rows := rows + [SnapshotOf(sw, st, FirstLearned(learned), bridge)];
    }
    assert statuses[..|statuses|] == statuses;
    news := Some(rows);
  }
}

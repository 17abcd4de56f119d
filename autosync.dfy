/**
 * `auto_sync_switches` (streamlit_app.py): every switch is asked, for every known
 * machine address, on which port it learned that address; the answer is upserted as
 * the (machine, switch) binding with the port's administrative state.
 */
module AutoSync {
  import opened Common
  import opened Text
  import opened Storage
  import opened Snmp
  import opened Inventory

  /** The error lines the pass collects: one per switch that cannot be reached, one per failed probe. */
  datatype SyncError = ConnectFailed(switchId: string) | ProbeFailed(mac: string, switchId: string)

  /** What probing one machine's address on a switch yields. */
  datatype Probe =
    | Failed                              // the FDB query raised
    | Skipped                             // no port came back
    | Found(port: Option<int>, up: bool)  // the port (`None` when it is no integer) and whether it is up

  /** The port value of a probe reply: the GET's value, or the first walked binding's. */
  function ReplyPort(r: ProbeReply): Option<string> {
    match r
    case One(v) => v.value
    case Many(vs) => if |vs| > 0 then vs[0].value else None
  }

  /** `stats[0].get('administrative')`, with a raised query or no record read as `None`. */
  function AdminOf(r: Reply<seq<PortStatus>>): Option<string> {
    if r.Answer? && |r.value| > 0 then r.value[0].administrative else None
  }

  /**
   * The probe of one address: the FDB port for its index, then the status of that
   * port (`porta_int or 0`, so a port that is no integer asks for the whole table).
   */
  function ProbeResult(net: Net, s: Session, mac: string): Probe {
    match ProbeOf(net, s, MacToOidSuffix(mac))
    case Raised => Failed
    case Answer(reply) =>
      var port := ReplyPort(reply);
      if !Truthy(port) then Skipped
      else
        var portInt := ParseDecimal(port.value);
        var admin := AdminOf(StatusesOf(net, s, if portInt.Some? then portInt.value else 0));
        Found(portInt, admin.Some? && IsUp(admin.value))
  }

  /** `str(porta_int)`, or `None` when there is no integer port. */
  function PortText(port: Option<int>): Option<string> {
    match port
    case None => None
    case Some(n) => Some(IntToString(n))
  }

  /** The bindings being rebuilt, the `updated` and `added` counters and the error lines. */
  datatype Tally = Tally(conex: seq<Row>, updated: nat, added: nat, errors: seq<SyncError>)

  /** One machine on one switch: skipped without an address, an error when the probe raises, else an upsert. */
  function Visit(t: Tally, sid: string, m: Row, probe: string -> Probe): Tally {
    var mac := Get(m, "mac");
    if mac == "" then t
    else
      match probe(mac)
      case Skipped => t
      case Failed => t.(errors := t.errors + [ProbeFailed(mac, sid)])
      case Found(port, up) => Upserted(t, (Get(m, "id_maquina"), sid), PortText(port), BoolText(up))
  }

  /** The machines visited in order. */
  function VisitAll(t: Tally, sid: string, ms: seq<Row>, probe: string -> Probe): Tally {
    if ms == [] then t
    else Visit(VisitAll(t, sid, ms[..|ms| - 1], probe), sid, ms[|ms| - 1], probe)
  }

  /** `int(sw.get('versao_snmp') or 2)`; `None` where it raises. */
  function SwitchVersion(sw: Row): Option<int> {
    var v := Get(sw, "versao_snmp");
    if v == "" then Some(2) else ParseDecimal(v)
  }

  /** The manager for a switch row: its address, its community for both directions, its version. */
  function SwitchSessions(net: Net, sw: Row): Option<(Session, Session)> {
    match SwitchVersion(sw)
    case None => None
    case Some(version) =>
      var community := Get(sw, "chave_community");
      match Connect(net, host := Some(Get(sw, "ip")), communityRead := Some(community),
                    communityWrite := Some(community), version := version)
      case Err(_) => None
      case Ok(sessions) => Some(sessions)
  }

  /** Probing through a switch's read session. */
  function ProbeOn(net: Net, s: Session): string -> Probe {
    mac => ProbeResult(net, s, mac)
  }

  /** One switch: an error when no manager can be built, otherwise every machine visited. */
  function SyncSwitch(net: Net, t: Tally, sw: Row, machines: seq<Row>): Tally {
    match SwitchSessions(net, sw)
    case None => t.(errors := t.errors + [ConnectFailed(Get(sw, "id_switch"))])
    case Some(sessions) => VisitAll(t, Get(sw, "id_switch"), machines, ProbeOn(net, sessions.0))
  }

  /** The switches visited in order. */
  function SyncAll(net: Net, t: Tally, switches: seq<Row>, machines: seq<Row>): Tally {
    if switches == [] then t
    else SyncSwitch(net, SyncAll(net, t, switches[..|switches| - 1], machines), switches[|switches| - 1], machines)
  }

  // ------------------------------------------------------------ what a pass keeps

  /**
   * `after` grows out of `before`: rows are only appended, one per `added`; no row
   * changes its pair; the counters never go down; errors are only appended; and
   * well-formed, duplicate-free bindings stay so.
   */
  ghost predicate Extends(before: Tally, after: Tally) {
    && after.updated >= before.updated && after.added >= before.added
    && |after.conex| == |before.conex| + (after.added - before.added)
    && (forall k :: 0 <= k < |before.conex| ==> PairOf(after.conex[k]) == PairOf(before.conex[k]))
    && before.errors <= after.errors
    && (AllBindings(before.conex) ==> AllBindings(after.conex))
    && (UniquePairs(before.conex) ==> UniquePairs(after.conex))
  }

  lemma ExtendsTrans(a: Tally, b: Tally, c: Tally)
    requires Extends(a, b) && Extends(b, c)
    ensures Extends(a, c)
  {
    assert forall k :: 0 <= k < |a.conex| ==> PairOf(c.conex[k]) == PairOf(b.conex[k]);
  }

  /** The upsert step of a visit, with its counters. */
  function Upserted(t: Tally, pair: (string, string), porta: Option<string>, status: string): Tally {
    var isNew := FirstMatch(t.conex, pair).None?;
    Tally(Upsert(t.conex, pair, porta, status),
          if isNew then t.updated else t.updated + 1,
          if isNew then t.added + 1 else t.added,
          t.errors)
  }

  lemma UpsertedExtends(t: Tally, pair: (string, string), porta: Option<string>, status: string)
    ensures Extends(t, Upserted(t, pair, porta, status))
  {
    UpsertKeeps(t.conex, pair, porta, status);
  }

  lemma VisitExtends(t: Tally, sid: string, m: Row, probe: string -> Probe)
    ensures Extends(t, Visit(t, sid, m, probe))
  {
    var mac := Get(m, "mac");
    if mac != "" && probe(mac).Found? {
      UpsertedExtends(t, (Get(m, "id_maquina"), sid), PortText(probe(mac).port), BoolText(probe(mac).up));
    }
  }

  lemma {:induction false} VisitAllExtends(t: Tally, sid: string, ms: seq<Row>, probe: string -> Probe)
    ensures Extends(t, VisitAll(t, sid, ms, probe))
  {
    if ms != [] {
      var mid := VisitAll(t, sid, ms[..|ms| - 1], probe);
      VisitAllExtends(t, sid, ms[..|ms| - 1], probe);
      VisitExtends(mid, sid, ms[|ms| - 1], probe);
      ExtendsTrans(t, mid, VisitAll(t, sid, ms, probe));
    }
  }

  /**
   * A whole pass appends rows without disturbing the pairs of the old ones, keeps
   * every binding well-formed, and never creates a second binding for a pair.
   */
  lemma {:induction false} SyncAllExtends(net: Net, t: Tally, switches: seq<Row>, machines: seq<Row>)
    ensures Extends(t, SyncAll(net, t, switches, machines))
  {
    if switches != [] {
      var mid := SyncAll(net, t, switches[..|switches| - 1], machines);
      SyncAllExtends(net, t, switches[..|switches| - 1], machines);
      var sw := switches[|switches| - 1];
      match SwitchSessions(net, sw)
      case None =>
      case Some(sessions) =>
        VisitAllExtends(mid, Get(sw, "id_switch"), machines, ProbeOn(net, sessions.0));
      ExtendsTrans(t, mid, SyncAll(net, t, switches, machines));
    }
  }

  // ------------------------------------------------------------ what a pass counts

  /** The machines whose address the switch located. */
  function FoundCount(ms: seq<Row>, probe: string -> Probe): nat {
    if ms == [] then 0
    else
      var mac := Get(ms[|ms| - 1], "mac");
      FoundCount(ms[..|ms| - 1], probe) + (if mac != "" && probe(mac).Found? then 1 else 0)
  }

  /** The error lines of the probes that raised, in order. */
  function ProbeErrors(sid: string, ms: seq<Row>, probe: string -> Probe): seq<SyncError> {
    if ms == [] then []
    else
      var mac := Get(ms[|ms| - 1], "mac");
      ProbeErrors(sid, ms[..|ms| - 1], probe) + (if mac != "" && probe(mac).Failed? then [ProbeFailed(mac, sid)] else [])
  }

  /**
   * On one switch, `updated + added` grows by exactly the number of located machines,
   * and the errors are exactly the failed probes, in machine order.
   */
  lemma {:induction false} VisitAllCounts(t: Tally, sid: string, ms: seq<Row>, probe: string -> Probe)
    ensures VisitAll(t, sid, ms, probe).updated + VisitAll(t, sid, ms, probe).added == t.updated + t.added + FoundCount(ms, probe)
    ensures VisitAll(t, sid, ms, probe).errors == t.errors + ProbeErrors(sid, ms, probe)
  {
    if ms != [] {
      VisitAllCounts(t, sid, ms[..|ms| - 1], probe);
    }
  }

  /** The machines one switch locates; none when it cannot be reached. */
  function SwitchLocated(net: Net, sw: Row, machines: seq<Row>): nat {
    match SwitchSessions(net, sw)
    case None => 0
    case Some(sessions) => FoundCount(machines, ProbeOn(net, sessions.0))
  }

  /** The error lines of one switch: the connection failure, else its failed probes. */
  function SwitchErrors(net: Net, sw: Row, machines: seq<Row>): seq<SyncError> {
    match SwitchSessions(net, sw)
    case None => [ConnectFailed(Get(sw, "id_switch"))]
    case Some(sessions) => ProbeErrors(Get(sw, "id_switch"), machines, ProbeOn(net, sessions.0))
  }

  /** The machines located on every reachable switch. */
  function LocatedCount(net: Net, switches: seq<Row>, machines: seq<Row>): nat {
    if switches == [] then 0
    else LocatedCount(net, switches[..|switches| - 1], machines) + SwitchLocated(net, switches[|switches| - 1], machines)
  }

  /** The error lines of a pass, switch by switch. */
  function PassErrors(net: Net, switches: seq<Row>, machines: seq<Row>): seq<SyncError> {
    if switches == [] then []
    else PassErrors(net, switches[..|switches| - 1], machines) + SwitchErrors(net, switches[|switches| - 1], machines)
  }

  /** One switch adds its located machines to the counters and its error lines to the errors. */
  lemma SyncSwitchCounts(net: Net, t: Tally, sw: Row, machines: seq<Row>)
    ensures var r := SyncSwitch(net, t, sw, machines);
      && r.updated + r.added == t.updated + t.added + SwitchLocated(net, sw, machines)
      && r.errors == t.errors + SwitchErrors(net, sw, machines)
  {
    match SwitchSessions(net, sw)
    case None =>
    case Some(sessions) =>
      VisitAllCounts(t, Get(sw, "id_switch"), machines, ProbeOn(net, sessions.0));
  }

  /**
   * Over the whole pass, `updated + added` is the number of successful probes, and
   * the errors are one per unreachable switch plus one per failed probe; an error
   * never stops the pass.
   */
  lemma {:induction false} SyncAllCounts(net: Net, t: Tally, switches: seq<Row>, machines: seq<Row>)
    ensures var r := SyncAll(net, t, switches, machines);
      && r.updated + r.added == t.updated + t.added + LocatedCount(net, switches, machines)
      && r.errors == t.errors + PassErrors(net, switches, machines)
  {
    if switches != [] {
      var mid := SyncAll(net, t, switches[..|switches| - 1], machines);
      SyncAllCounts(net, t, switches[..|switches| - 1], machines);
      SyncSwitchCounts(net, mid, switches[|switches| - 1], machines);
    }
  }

  /** A located machine ends up bound to the switch with the probed state, and port when it is an integer. */
  lemma VisitFound(t: Tally, sid: string, m: Row, probe: string -> Probe)
    requires Get(m, "mac") != "" && probe(Get(m, "mac")).Found?
    ensures var after := Visit(t, sid, m, probe).conex;
      var found := probe(Get(m, "mac"));
      var j := FirstMatch(after, (Get(m, "id_maquina"), sid));
      && j.Some?
      && Get(after[j.value], "status") == BoolText(found.up)
      && (found.port.Some? ==> Get(after[j.value], "porta") == IntToString(found.port.value))
  {
    var found := probe(Get(m, "mac"));
    UpsertSpec(t.conex, (Get(m, "id_maquina"), sid), PortText(found.port), BoolText(found.up));
  }

  // ------------------------------------------------------------ the pass itself

  /** The body of the machine loop for one address (the `try` around `get_ports_by_mac`). */
  method ProbeMachine(snmp: SnmpManager, mac: string) returns (p: Probe)
    ensures p == ProbeResult(snmp.net, snmp.readSession, mac)
  {
    var res := snmp.GetPortsByMac(MacToOidSuffix(mac));
    if res.Raised? {
      return Failed;
    }
    var port := ReplyPort(res.value);
    if !Truthy(port) {
      return Skipped;
    }
    var portInt := ParseDecimal(port.value);
    var stats := snmp.FetchPortStatus(if portInt.Some? then portInt.value else 0);
    var admin := AdminOf(stats);
    p := Found(portInt, admin.Some? && IsUp(admin.value));
  }

  /** The machine loop on one switch. */
  method VisitMachines(snmp: SnmpManager, t0: Tally, sid: string, machines: seq<Row>) returns (t: Tally)
    ensures t == VisitAll(t0, sid, machines, ProbeOn(snmp.net, snmp.readSession))
  {
    ghost var probe := ProbeOn(snmp.net, snmp.readSession);
    t := t0;
    for i := 0 to |machines|
      invariant t == VisitAll(t0, sid, machines[..i], probe)
    {
      assert machines[..i + 1][..i] == machines[..i];
      var m := machines[i];
      var mac := Get(m, "mac");
      if mac == "" {
        continue;
      }
      var p := ProbeMachine(snmp, mac);
      assert p == probe(mac);
      match p
      case Skipped =>
      case Failed =>
        t := t.(errors := t.errors + [ProbeFailed(mac, sid)]);
      case Found(port, up) =>
        var conex, matched := UpsertBinding(t.conex, (Get(m, "id_maquina"), sid), PortText(port), BoolText(up));
        t := Tally(conex, if matched then t.updated + 1 else t.updated, if matched then t.added else t.added + 1, t.errors);
    }
    assert machines[..|machines|] == machines;
  }

  /** The switch loop: a switch whose manager cannot be built adds an error and the loop goes on. */
  method SyncSwitches(net: Net, t0: Tally, switches: seq<Row>, machines: seq<Row>) returns (t: Tally)
    ensures t == SyncAll(net, t0, switches, machines)
  {
    t := t0;
    for i := 0 to |switches|
      invariant t == SyncAll(net, t0, switches[..i], machines)
    {
      assert switches[..i + 1][..i] == switches[..i];
      var sw := switches[i];
      var version := SwitchVersion(sw);
      if version.None? {
        t := t.(errors := t.errors + [ConnectFailed(Get(sw, "id_switch"))]);
        continue;
      }
      var community := Get(sw, "chave_community");
      var manager := SnmpManager.Open(net, host := Some(Get(sw, "ip")), communityRead := Some(community),
                                      communityWrite := Some(community), version := version.value);
      if manager.Err? {
        t := t.(errors := t.errors + [ConnectFailed(Get(sw, "id_switch"))]);
        continue;
      }
      t := VisitMachines(manager.value, t, Get(sw, "id_switch"), machines);
    }
    assert switches[..|switches|] == switches;
  }

  /** What the pass saves back is what it built: its rows already have the binding fields. */
  lemma SyncAllShaped(net: Net, t: Tally, switches: seq<Row>, machines: seq<Row>)
    requires AllBindings(t.conex)
    ensures NormalizeRows(Entities[Bindings], LiftRows(SyncAll(net, t, switches, machines).conex)) == SyncAll(net, t, switches, machines).conex
  {
    SyncAllExtends(net, t, switches, machines);
    NormalizeShapedRows(Entities[Bindings], SyncAll(net, t, switches, machines).conex);
  }

  /**
   * `auto_sync_switches`: reads switches, machines and bindings, rebuilds the
   * bindings, and saves them whatever happened.
   */
  method AutoSyncSwitches(store: RecordStore, net: Net) returns (updated: nat, added: nat, errors: seq<SyncError>)
    requires store.Valid()
    modifies store
    ensures store.Valid()
    ensures var t := SyncAll(net, Tally(old(store.Table(Bindings)), 0, 0, []), old(store.Table(Switches)), old(store.Table(Machines)));
      && updated == t.updated && added == t.added && errors == t.errors
      && store.tables == old(store.tables)[Bindings := t.conex]
  {
    var switches := store.LoadAll(Switches);
    var machines := store.LoadAll(Machines);
    var conex := store.LoadAll(Bindings);
    var t0 := Tally(conex.value, 0, 0, []);
    var t := SyncSwitches(net, t0, switches.value, machines.value);
    SyncAllShaped(net, t0, switches.value, machines.value);
    var saved := store.SaveAll(Bindings, LiftRows(t.conex));
    updated, added, errors := t.updated, t.added, t.errors;
  }
}

/**
 * The HTTP endpoints (app/routes/routes.py): the create endpoints, which append one
 * row per request, and `alterar_porta`, which writes a port's state on a switch and
 * records the new state on the machine's binding to that switch.
 */
module Routes {
  import opened Common
  import opened Text
  import opened Storage
  import opened Snmp
  import opened Inventory
  import opened AutoSync

  /** `int(v)` of a JSON value: an integer text, a number or a boolean; `None` raises. */
  function IntOf(v: Value): Option<int> {
    match v
    case Null => None
    case Str(s) => ParseDecimal(s)
    case Number(n) => Some(n)
    case Flag(b) => Some(if b then 1 else 0)
  }

  /** `int(text) == int(v)` with both conversions succeeding; a failing one skips the row. */
  predicate SameId(text: string, v: Value) {
    ParseDecimal(text).Some? && IntOf(v).Some? && ParseDecimal(text) == IntOf(v)
  }

  // ------------------------------------------------------------ create endpoints

  /**
   * A create endpoint: the entity it appends to, the id field it numbers (if any),
   * the body keys it requires, and the optional keys with their defaults.
   */
  datatype Endpoint = Endpoint(entity: string, idField: Option<string>, required: seq<string>,
                               optional: seq<(string, Value)>)

  const CreateRoom := Endpoint(Rooms, Some("id_sala"), ["numero", "bloco"], [("numero_pcs", Str(""))])
  const CreateSwitch := Endpoint(Switches, Some("id_switch"), ["numero_portas", "ip", "mac", "versao_snmp"],
    [("porta_uplink", Str("")), ("chave_community", Str("")), ("protocolo_autenticacao", Str("")),
     ("protocolo_criptografia", Str("")), ("chave_autenticacao", Str("")), ("chave_privada", Str("")),
     ("nivel_seguranca", Str(""))])
  const CreateMachine := Endpoint(Machines, Some("id_maquina"), ["nome", "ip", "tipo_maquina"],
    [("id_sala", Str("")), ("mac", Str(""))])
  const CreateLink := Endpoint(RoomSwitchLinks, None, ["id_sala", "id_switch"], [])
  const CreateSchedule := Endpoint(Schedules, None, [],
    [("id_sala", Str("")), ("id_switch", Str("")), ("mac", Str("")), ("id_maquina", Str("")),
     ("data_inicio", Null), ("data_fim", Null)])

  /** Whether the body lacks a required key (`KeyError`). */
  predicate Missing(ep: Endpoint, body: Record) {
    exists i :: 0 <= i < |ep.required| && ep.required[i] !in body
  }

  /** The value an optional key takes: the body's, else the default (`dados.get(k, default)`). */
  function Optional(body: Record, k: string, default: Value): Value {
    if k in body then body[k] else default
  }

  /** The keys an endpoint fills in from its optional list. */
  function OptionalKeys(optional: seq<(string, Value)>): set<string> {
    set j | 0 <= j < |optional| :: optional[j].0
  }

  /** The row an endpoint builds from a body that has every required key. */
  function RecordOf(ep: Endpoint, body: Record, id: int): (r: Record)
    ensures ep.idField.Some? ==> ep.idField.value in r && r[ep.idField.value] == Number(id)
    ensures r.Keys == (set k | k in ep.required && k in body) + OptionalKeys(ep.optional)
                      + (if ep.idField.Some? then {ep.idField.value} else {})
    ensures forall k :: k in ep.required && k in body && k !in OptionalKeys(ep.optional) && Some(k) != ep.idField ==>
      r[k] == body[k]
  {
    var withRequired := map k | k in ep.required && k in body :: body[k];
    var withOptional := Defaults(withRequired, body, ep.optional);
    if ep.idField.Some? then withOptional[ep.idField.value := Number(id)] else withOptional
  }

  /** The optional keys, added after the required ones. */
  function Defaults(r: Record, body: Record, optional: seq<(string, Value)>): (out: Record)
    ensures out.Keys == r.Keys + OptionalKeys(optional)
    ensures forall k :: k in r && k !in OptionalKeys(optional) ==> out[k] == r[k]
  {
    if optional == [] then r
    else
      var (k, d) := optional[|optional| - 1];
      Defaults(r, body, optional[..|optional| - 1])[k := Optional(body, k, d)]
  }

  /** How a create request ends: 201 with the row appended, or a server error for a missing key. */
  datatype Created = Created | MissingKey

  /**
   * A create endpoint: `next_id` of the entity (when it numbers its rows), then one
   * appended row; a missing required key fails before anything is written.
   */
  method Create(store: RecordStore, ep: Endpoint, body: Record) returns (r: Created)
    requires store.Valid() && ep.entity in Entities
    modifies store
    ensures store.Valid()
    ensures Missing(ep, body) ==> r == MissingKey && store.tables == old(store.tables)
    ensures !Missing(ep, body) ==>
      var id := if ep.idField.Some? then NextIdFrom(old(store.Table(ep.entity)), ep.idField.value) else 0;
      && r == Created
      && store.tables == old(store.tables)[ep.entity := old(store.Table(ep.entity)) + [NormalizeRow(Entities[ep.entity], RecordOf(ep, body, id))]]
  {
    var id := 0;
    if ep.idField.Some? {
      var next := store.NextId(ep.entity, ep.idField.value);
      id := next.value;
    }
    var i := 0;
    while i < |ep.required|
      invariant 0 <= i <= |ep.required|
      invariant forall j :: 0 <= j < i ==> ep.required[j] in body
    {
      if ep.required[i] !in body {
        return MissingKey;
      }
      i := i + 1;
    }
    var _ := store.Append(ep.entity, RecordOf(ep, body, id));
    r := Created;
  }

  /**
   * The row a numbering endpoint appends carries `next_id` of the persisted rows as
   * its id: above every id already there, and at least 1.
   */
  lemma CreatedIdFresh(ep: Endpoint, body: Record, rows: seq<Row>)
    requires ep.entity in Entities && ep.idField.Some? && ep.idField.value in Entities[ep.entity]
    ensures var n := NextIdFrom(rows, ep.idField.value);
      var row := NormalizeRow(Entities[ep.entity], RecordOf(ep, body, n));
      && IdValue(row, ep.idField.value) == Some(n) && n >= 1
      && forall i :: 0 <= i < |rows| && IdValue(rows[i], ep.idField.value).Some? ==> IdValue(rows[i], ep.idField.value).value < n
  {
    var n := NextIdFrom(rows, ep.idField.value);
    var row := NormalizeRow(Entities[ep.entity], RecordOf(ep, body, n));
    NormalizeRowShape(Entities[ep.entity], RecordOf(ep, body, n));
    assert row[ep.idField.value] == IntToString(n);
    ParseIntToString(n);
    assert ParseDecimal("") == None;
  }

  /** A key that is neither required, optional nor the id is absent from the built row. */
  lemma RecordOfLacks(ep: Endpoint, body: Record, id: int, k: string)
    requires k !in ep.required && k !in OptionalKeys(ep.optional) && ep.idField != Some(k)
    ensures k !in RecordOf(ep, body, id)
  {
  }

  /** A machine created through the API has no `access_allowed` yet, which reads as allowed. */
  lemma CreatedMachineAllowed(body: Record, id: int)
    ensures var row := NormalizeRow(Entities[Machines], RecordOf(CreateMachine, body, id));
      Get(row, "access_allowed") == "" && AccessAllowed(Get(row, "access_allowed"))
  {
    var fields := Entities[Machines];
    assert fields[6] == "access_allowed";
    forall j | 0 <= j < |CreateMachine.optional|
      ensures CreateMachine.optional[j].0 != "access_allowed"
    {
    }
    RecordOfLacks(CreateMachine, body, id, "access_allowed");
    NormalizeRowLacks(fields, RecordOf(CreateMachine, body, id), "access_allowed");
  }

  /** A field the record lacks is written empty. */
  lemma NormalizeRowLacks(fields: seq<string>, r: Record, k: string)
    requires k in fields && k !in r
    ensures Get(NormalizeRow(fields, r), k) == ""
  {
  }

  // ------------------------------------------------------------ alterar_porta

  /** The body of a port request: `int()` is applied to the ids and the status, not to the port. */
  datatype PortRequest = PortRequest(switchId: Value, machineId: Value, porta: int, status: Value)

  /** A switch row with the requested id. */
  predicate SwitchIs(r: Row, id: Value) {
    SameId(Get(r, "id_switch"), id)
  }

  /** The first marked position from `i` on: the search loop that stops at its first match. */
  function FirstMarked(marks: seq<bool>, i: nat): (r: Option<nat>)
    requires i <= |marks|
    decreases |marks| - i
    ensures r.Some? ==> i <= r.value < |marks| && marks[r.value]
  {
    if i == |marks| then None
    else if marks[i] then Some(i)
    else FirstMarked(marks, i + 1)
  }

  /** A marked position at `j` means one is found, at `j` or before. */
  lemma {:induction false} FirstMarkedFirst(marks: seq<bool>, i: nat, j: nat)
    requires i <= j < |marks| && marks[j]
    decreases j - i
    ensures FirstMarked(marks, i).Some? && FirstMarked(marks, i).value <= j
  {
    if !marks[i] {
      FirstMarkedFirst(marks, i + 1, j);
    }
  }

  /** Which switch rows carry the requested id. */
  function SwitchMarks(switches: seq<Row>, id: Value): (m: seq<bool>)
    ensures |m| == |switches|
  {
    seq(|switches|, j requires 0 <= j < |switches| => SwitchIs(switches[j], id))
  }

  /** The index of the first switch whose id equals the request's. */
  function FindSwitch(switches: seq<Row>, id: Value): (r: Option<nat>)
    ensures r.Some? ==> r.value < |switches| && SwitchIs(switches[r.value], id)
  {
    FirstMarked(SwitchMarks(switches, id), 0)
  }

  /** Any switch with the requested id means one is found, and it is that switch or an earlier one. */
  lemma FindSwitchFirst(switches: seq<Row>, id: Value, j: nat)
    requires j < |switches| && SwitchIs(switches[j], id)
    ensures FindSwitch(switches, id).Some? && FindSwitch(switches, id).value <= j
  {
    FirstMarkedFirst(SwitchMarks(switches, id), 0, j);
  }

  /** A binding of the requested machine to the requested switch. */
  predicate BindingFor(r: Row, req: PortRequest) {
    SameId(Get(r, "id_maquina"), req.machineId) && SameId(Get(r, "id_switch"), req.switchId)
  }

  /** Which bindings are for the requested machine and switch. */
  function BindingMarks(regs: seq<Row>, req: PortRequest): (m: seq<bool>)
    ensures |m| == |regs|
  {
    seq(|regs|, j requires 0 <= j < |regs| => BindingFor(regs[j], req))
  }

  /** The first binding for the request's machine and switch. */
  function FirstBinding(regs: seq<Row>, req: PortRequest): (r: Option<nat>)
    ensures r.Some? ==> r.value < |regs| && BindingFor(regs[r.value], req)
  {
    FirstMarked(BindingMarks(regs, req), 0)
  }

  /** Any matching binding means one is found, and it is that binding or an earlier one. */
  lemma FirstBindingFirst(regs: seq<Row>, req: PortRequest, j: nat)
    requires j < |regs| && BindingFor(regs[j], req)
    ensures FirstBinding(regs, req).Some? && FirstBinding(regs, req).value <= j
  {
    FirstMarkedFirst(BindingMarks(regs, req), 0, j);
  }

  /** The bindings after the request: the first matching one gets the new status. */
  function MarkStatus(regs: seq<Row>, req: PortRequest, status: int): seq<Row> {
    match FirstBinding(regs, req)
    case Some(j) => regs[j := regs[j]["status" := BoolText(status == 1)]]
    case None => regs
  }

  /**
   * Only the first matching binding changes, and only its status, to "True" exactly
   * for status 1; no row is added or removed, and well-formed bindings stay so.
   */
  lemma MarkStatusSpec(regs: seq<Row>, req: PortRequest, status: int)
    ensures var after := MarkStatus(regs, req, status);
      && |after| == |regs|
      && (forall i :: 0 <= i < |regs| && Some(i) != FirstBinding(regs, req) ==> after[i] == regs[i])
      && (FirstBinding(regs, req).Some? ==>
            var j := FirstBinding(regs, req).value;
            && Get(after[j], "status") == (if status == 1 then "True" else "False")
            && (forall k :: k != "status" ==> Get(after[j], k) == Get(regs[j], k))
            && (AllBindings(regs) ==> AllBindings(after)))
      && (FirstBinding(regs, req).None? ==> after == regs)
  {
    match FirstBinding(regs, req)
    case None =>
    case Some(j) => SetStatusSpec(regs, j, BoolText(status == 1));
  }

  /** Setting one row's status changes that field of that row and nothing else. */
  lemma SetStatusSpec(regs: seq<Row>, j: nat, v: string)
    requires j < |regs|
    ensures var after := regs[j := regs[j]["status" := v]];
      && |after| == |regs|
      && (forall i :: 0 <= i < |regs| && i != j ==> after[i] == regs[i])
      && Get(after[j], "status") == v
      && (forall k :: k != "status" ==> Get(after[j], k) == Get(regs[j], k))
      && (AllBindings(regs) ==> AllBindings(after))
  {
    var after := regs[j := regs[j]["status" := v]];
    if AllBindings(regs) {
      assert IsBinding(regs[j]);
      assert IsBinding(after[j]);
    }
  }

  /** The manager for the switch row: `hostname` its address, its community both ways, its version. */
  function PortSessions(net: Net, sw: Row): Option<(Session, Session)> {
    match SwitchVersion(sw)
    case None => None
    case Some(v) =>
      match Connect(net, hostname := Some(Get(sw, "ip")), communityRead := Some(Get(sw, "chave_community")),
                    communityWrite := Some(Get(sw, "chave_community")), version := v)
      case Err(_) => None
      case Ok(s) => Some(s)
  }

  /** How the request ends: 400, 404, a server error when the manager cannot be built, or the reply. */
  datatype Reply = BadStatus | SwitchNotFound | ManagerFailed | Changed(success: bool, porta: int, status: int)

  /** The HTTP status of a reply. */
  function HttpStatus(r: Reply): int {
    match r
    case BadStatus => 400
    case SwitchNotFound => 404
    case ManagerFailed => 500
    case Changed(_, _, _) => 200
  }

  /** The switch search: the first row whose id parses to the request's; rows that do not parse are skipped. */
  method LocateSwitch(switches: seq<Row>, id: Value) returns (found: Option<Row>)
    ensures FindSwitch(switches, id).None? ==> found.None?
    ensures FindSwitch(switches, id).Some? ==> found == Some(switches[FindSwitch(switches, id).value])
  {
    var i := 0;
    while i < |switches|
      invariant 0 <= i <= |switches|
      invariant FindSwitch(switches, id) == FirstMarked(SwitchMarks(switches, id), i)
    {
      assert SwitchMarks(switches, id)[i] == SwitchIs(switches[i], id);
      if SwitchIs(switches[i], id) {
        return Some(switches[i]);
      }
      i := i + 1;
    }
    found := None;
  }

  /** The binding loop: overwrite the first matching binding's status and stop. */
  method UpdateBinding(regs: seq<Row>, req: PortRequest, status: int) returns (after: seq<Row>, updated: bool)
    ensures after == MarkStatus(regs, req, status)
    ensures updated <==> FirstBinding(regs, req).Some?
  {
    var i := 0;
    while i < |regs|
      invariant 0 <= i <= |regs|
      invariant FirstBinding(regs, req) == FirstMarked(BindingMarks(regs, req), i)
    {
      assert BindingMarks(regs, req)[i] == BindingFor(regs[i], req);
      if BindingFor(regs[i], req) {
        after := regs[i := regs[i]["status" := if status == 1 then "True" else "False"]];
        return after, true;
      }
      i := i + 1;
    }
    after, updated := regs, false;
  }

  /** The write: a manager on the switch, then `alterar_estado_porta` with the request's port and status. */
  method WritePort(net: Net, sw: Row, porta: int, status: int) returns (ok: Option<bool>, writes: seq<SetRequest>)
    ensures match PortSessions(net, sw)
      case None => ok.None? && writes == []
      case Some(s) => ok == Some(Accepted(net, s.1, porta, StateOfCode(status))) && writes == [Request(s.1, porta, StateOfCode(status))]
  {
    var version := SwitchVersion(sw);
    if version.None? {
      return None, [];
    }
    var manager := SnmpManager.Open(net, hostname := Some(Get(sw, "ip")),
                                   communityRead := Some(Get(sw, "chave_community")),
                                   communityWrite := Some(Get(sw, "chave_community")), version := version.value);
    if manager.Err? {
      return None, [];
    }
    var snmp := manager.value;
    var accepted := snmp.ChangePortState(porta, status);
    ok, writes := Some(accepted), snmp.sent;
  }

  /** The binding side: the first matching binding gets the status, and the table is saved only then. */
  method RecordStatus(store: RecordStore, req: PortRequest, status: int)
    requires store.Valid()
    modifies store
    ensures store.Valid()
    ensures store.tables == (if FirstBinding(old(store.Table(Bindings)), req).Some?
                             then old(store.tables)[Bindings := MarkStatus(old(store.Table(Bindings)), req, status)]
                             else old(store.tables))
  {
    var regs := store.LoadAll(Bindings);
    var after, updated := UpdateBinding(regs.value, req, status);
    if updated {
      MarkStatusSpec(regs.value, req, status);
      NormalizeShapedRows(Entities[Bindings], after);
      var _ := store.SaveAll(Bindings, LiftRows(after));
    }
  }

  /**
   * `alterar_porta`: a status that is no integer is refused before anything else;
   * then the switch is looked up, the port is written with Enabled for 1 and
   * Disabled otherwise, and the binding's status is updated whether or not the
   * write was accepted; the bindings are saved only when one matched.
   */
  method AlterPort(store: RecordStore, net: Net, req: PortRequest) returns (reply: Reply, writes: seq<SetRequest>)
    requires store.Valid()
    modifies store
    ensures store.Valid()
    ensures IntOf(req.status).None? ==> reply == BadStatus && writes == [] && store.tables == old(store.tables)
    ensures IntOf(req.status).Some? ==>
      var status := IntOf(req.status).value;
      var switches := old(store.Table(Switches));
      match FindSwitch(switches, req.switchId)
      case None => reply == SwitchNotFound && writes == [] && store.tables == old(store.tables)
      case Some(k) =>
        match PortSessions(net, switches[k])
        case None => reply == ManagerFailed && writes == [] && store.tables == old(store.tables)
        case Some(s) =>
          var state := StateOfCode(status);
          && reply == Changed(Accepted(net, s.1, req.porta, state), req.porta, status)
          && writes == [Request(s.1, req.porta, state)]
          && store.tables == (if FirstBinding(old(store.Table(Bindings)), req).Some?
                              then old(store.tables)[Bindings := MarkStatus(old(store.Table(Bindings)), req, status)]
                              else old(store.tables))
  {
    var code := IntOf(req.status);
    if code.None? {
      return BadStatus, [];
    }
    var status := code.value;
    var switches := store.LoadAll(Switches);
    var sw := LocateSwitch(switches.value, req.switchId);
    if sw.None? {
      return SwitchNotFound, [];
    }
    var ok;
    ok, writes := WritePort(net, sw.value, req.porta, status);
    if ok.None? {
      return ManagerFailed, [];
    }
    RecordStatus(store, req, status);
    reply := Changed(ok.value, req.porta, status);
  }
}

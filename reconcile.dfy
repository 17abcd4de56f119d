/**
 * `sync_csvs_from_status_portas` (streamlit_app.py) and the start-up
 * sequence that runs the passes: every address in the latest snapshots gets a
 * machine (created when missing) and a (machine, switch) binding with the
 * snapshot's port and state.
 */
module Reconcile {
  import opened Common
  import opened Text
  import opened Storage
  import opened Snmp
  import opened Inventory
  import opened AutoSync
  import opened Snapshots

  /** The key of `latest`: a stored snapshot's switch and port. */
  function SnapKey(r: Row): string {
    Get(r, "id_switch") + "|" + Get(r, "port")
  }

  function KeyedSnapshots(snaps: seq<Row>): Dict<string, Row> {
    if snaps == [] then []
    else KeyedSnapshots(snaps[..|snaps| - 1]) + [(SnapKey(snaps[|snaps| - 1]), snaps[|snaps| - 1])]
  }

  /** `latest`: the last snapshot per switch and port, in first-seen order. */
  function Latest(snaps: seq<Row>): Dict<string, Row> {
    PutAll([], KeyedSnapshots(snaps))
  }

  /** The `mac_map` insertions: each snapshot with an address, under that address normalised. */
  function MacEntries(recs: seq<Row>): Dict<string, Row> {
    if recs == [] then []
    else
      var rec := recs[|recs| - 1];
      var mac := NormalMac(Get(rec, "mac"));
      MacEntries(recs[..|recs| - 1]) + (if mac != "" then [(mac, rec)] else [])
  }

  /** `mac_map`: each distinct address of the latest snapshots, with the last snapshot that shows it. */
  function MacMap(snaps: seq<Row>): Dict<string, Row> {
    PutAll([], MacEntries(Values(Latest(snaps))))
  }

  /** `mac_to_machine`: machines with an address, under that address normalised; the last one wins. */
  function MachineIndex(machines: seq<Row>): map<string, Row> {
    if machines == [] then map[]
    else
      var m := machines[|machines| - 1];
      var index := MachineIndex(machines[..|machines| - 1]);
      if Get(m, "mac") != "" then index[NormalMac(Get(m, "mac")) := m] else index
  }

  /** The machine created for an address no machine has. */
  function NewMachine(id: string, mac: string): Row {
    map["id_maquina" := id, "nome" := "", "ip" := "", "tipo_maquina" := "", "id_sala" := "",
        "mac" := mac, "access_allowed" := "True"]
  }

  /** A created machine has exactly the machine fields, the given id and address, and access allowed. */
  lemma NewMachineFields(id: string, mac: string)
    ensures Shaped(Entities[Machines], NewMachine(id, mac))
    ensures Get(NewMachine(id, mac), "id_maquina") == id && Get(NewMachine(id, mac), "mac") == mac
    ensures Get(NewMachine(id, mac), "access_allowed") == "True"
  {
    assert NewMachine(id, mac).Keys == FieldSet(Entities[Machines]);
  }

  /** The pass's working state: `maquinas`, `mac_to_machine`, `conex_index` and the two flags. */
  datatype Sync = Sync(machines: seq<Row>, index: map<string, Row>, conex: seq<Row>,
                       machinesAdded: bool, conexUpdated: bool)

  /** Whether the address has a (non-empty) machine in the index. */
  predicate Covers(st: Sync, mac: string) {
    mac in st.index && st.index[mac] != map[]
  }

  /** The id of the address's machine. */
  function MachineId(st: Sync, mac: string): string {
    if mac in st.index then Get(st.index[mac], "id_maquina") else ""
  }

  /** The binding state a snapshot reports: its administrative state read as up or down. */
  function StatusOf(rec: Row): string {
    BoolText(IsUp(Get(rec, "administrative")))
  }

  /** The machine step of an item: the address keeps its machine, or gets a new one with `newId`. */
  function WithMachine(st: Sync, mac: string, newId: string): Sync {
    if Covers(st, mac) then st
    else st.(machines := st.machines + [NewMachine(newId, mac)],
             index := st.index[mac := NewMachine(newId, mac)], machinesAdded := true)
  }

  /** The binding step of an item: upsert (machine, snapshot's switch) with the snapshot's port and state. */
  function Bound(st: Sync, mac: string, rec: Row): Sync {
    st.(conex := Upsert(st.conex, (MachineId(st, mac), Get(rec, "id_switch")), Some(Get(rec, "port")), StatusOf(rec)),
        conexUpdated := true)
  }

  /** One `mac_map` item. */
  function SyncOne(st: Sync, mac: string, rec: Row, newId: string): Sync {
    Bound(WithMachine(st, mac, newId), mac, rec)
  }

  /** The items in dict order. */
  function SyncAll(st: Sync, items: Dict<string, Row>, newId: string): Sync {
    if items == [] then st
    else SyncOne(SyncAll(st, items[..|items| - 1], newId), items[|items| - 1].0, items[|items| - 1].1, newId)
  }

  /**
   * The whole pass over the stored tables. `next_id` reads the persisted machines,
   * which the pass does not save until it is done, so every machine it creates gets
   * the same id.
   */
  function Reconciled(snaps: seq<Row>, machines: seq<Row>, conex: seq<Row>): Sync {
    SyncAll(Sync(machines, MachineIndex(machines), conex, false, false), MacMap(snaps),
            IntToString(NextIdFrom(machines, "id_maquina")))
  }

  // ------------------------------------------------------------ what the pass keeps

  /** Machines created with the given id: machine-shaped, that id, access allowed. */
  ghost predicate Created(ms: seq<Row>, newId: string) {
    forall j :: 0 <= j < |ms| ==>
      Shaped(Entities[Machines], ms[j]) && Get(ms[j], "id_maquina") == newId && Get(ms[j], "access_allowed") == "True"
  }

  /**
   * The machine side of `b` grows out of `a`: machines are only appended, and only
   * created ones; covered addresses keep their machine; newly covered ones get a
   * created machine; the flag stays set.
   */
  ghost predicate MachinesGrow(a: Sync, b: Sync, newId: string) {
    && |a.machines| <= |b.machines| && b.machines[..|a.machines|] == a.machines
    && Created(b.machines[|a.machines|..], newId)
    && (forall k :: Covers(a, k) ==> Covers(b, k) && b.index[k] == a.index[k])
    && (forall k :: Covers(b, k) && !Covers(a, k) ==> Get(b.index[k], "id_maquina") == newId)
    && (a.machinesAdded ==> b.machinesAdded)
  }

  /** The binding side grows: rows keep their pairs and stay well-formed and duplicate-free. */
  ghost predicate ConexGrows(a: Sync, b: Sync) {
    && (a.conexUpdated ==> b.conexUpdated)
    && |b.conex| >= |a.conex|
    && (forall k :: 0 <= k < |a.conex| ==> PairOf(b.conex[k]) == PairOf(a.conex[k]))
    && (AllBindings(a.conex) ==> AllBindings(b.conex))
    && (UniquePairs(a.conex) ==> UniquePairs(b.conex))
  }

  ghost predicate Grows(a: Sync, b: Sync, newId: string) {
    MachinesGrow(a, b, newId) && ConexGrows(a, b)
  }

  lemma MachinesGrowTrans(a: Sync, b: Sync, c: Sync, newId: string)
    requires MachinesGrow(a, b, newId) && MachinesGrow(b, c, newId)
    ensures MachinesGrow(a, c, newId)
  {
    assert c.machines[..|a.machines|] == c.machines[..|b.machines|][..|a.machines|];
    forall j | 0 <= j < |c.machines| - |a.machines|
      ensures Shaped(Entities[Machines], c.machines[|a.machines|..][j])
      ensures Get(c.machines[|a.machines|..][j], "id_maquina") == newId
      ensures Get(c.machines[|a.machines|..][j], "access_allowed") == "True"
    {
      if |a.machines| + j < |b.machines| {
        assert c.machines[|a.machines|..][j] == b.machines[|a.machines|..][j];
      } else {
        assert c.machines[|a.machines|..][j] == c.machines[|b.machines|..][j - (|b.machines| - |a.machines|)];
      }
    }
  }

  lemma ConexGrowsTrans(a: Sync, b: Sync, c: Sync)
    requires ConexGrows(a, b) && ConexGrows(b, c)
    ensures ConexGrows(a, c)
  {
  }

  /** A step that leaves the machine side alone. */
  lemma MachinesSame(a: Sync, b: Sync, newId: string)
    requires b.machines == a.machines && b.index == a.index && b.machinesAdded == a.machinesAdded
    ensures MachinesGrow(a, b, newId)
  {
    assert b.machines[|a.machines|..] == [];
  }

  lemma WithMachineGrows(st: Sync, mac: string, newId: string)
    ensures Grows(st, WithMachine(st, mac, newId), newId) && Covers(WithMachine(st, mac, newId), mac)
  {
    var st1 := WithMachine(st, mac, newId);
    if Covers(st, mac) {
      MachinesSame(st, st1, newId);
    } else {
      NewMachineFields(newId, mac);
      assert st1.machines[|st.machines|..] == [NewMachine(newId, mac)];
      assert st1.machines[..|st.machines|] == st.machines;
    }
  }

  lemma BoundGrows(st: Sync, mac: string, rec: Row, newId: string)
    ensures Grows(st, Bound(st, mac, rec), newId) && Bound(st, mac, rec).conexUpdated
  {
    UpsertKeeps(st.conex, (MachineId(st, mac), Get(rec, "id_switch")), Some(Get(rec, "port")), StatusOf(rec));
    MachinesSame(st, Bound(st, mac, rec), newId);
  }

  lemma SyncOneGrows(st: Sync, mac: string, rec: Row, newId: string)
    ensures Grows(st, SyncOne(st, mac, rec, newId), newId)
    ensures Covers(SyncOne(st, mac, rec, newId), mac) && SyncOne(st, mac, rec, newId).conexUpdated
  {
    var st1 := WithMachine(st, mac, newId);
    WithMachineGrows(st, mac, newId);
    BoundGrows(st1, mac, rec, newId);
    MachinesGrowTrans(st, st1, SyncOne(st, mac, rec, newId), newId);
    ConexGrowsTrans(st, st1, SyncOne(st, mac, rec, newId));
  }

  /**
   * A whole pass only appends created machines, never changes the machine an
   * address had, and keeps the bindings well-formed and free of duplicate pairs.
   */
  lemma {:induction false} SyncAllGrows(st: Sync, items: Dict<string, Row>, newId: string)
    ensures Grows(st, SyncAll(st, items, newId), newId)
  {
    if items == [] {
      MachinesSame(st, st, newId);
    } else {
      var mid := SyncAll(st, items[..|items| - 1], newId);
      SyncAllGrows(st, items[..|items| - 1], newId);
      SyncOneGrows(mid, items[|items| - 1].0, items[|items| - 1].1, newId);
      MachinesGrowTrans(st, mid, SyncAll(st, items, newId), newId);
      ConexGrowsTrans(st, mid, SyncAll(st, items, newId));
    }
  }

  /** Every address the pass visits is covered afterwards. */
  lemma {:induction false} SyncAllCovers(st: Sync, items: Dict<string, Row>, newId: string, j: nat)
    requires j < |items|
    ensures Covers(SyncAll(st, items, newId), items[j].0)
  {
    var init := items[..|items| - 1];
    var mid := SyncAll(st, init, newId);
    var last := items[|items| - 1];
    assert SyncAll(st, items, newId) == SyncOne(mid, last.0, last.1, newId);
    SyncOneGrows(mid, last.0, last.1, newId);
    var after := SyncOne(mid, last.0, last.1, newId);
    if j == |init| {
      assert items[j] == last;
    } else {
      SyncAllCovers(st, init, newId, j);
      assert items[j] == init[j];
      CoversKept(mid, after, newId, init[j].0);
    }
  }

  lemma CoversKept(a: Sync, b: Sync, newId: string, k: string)
    requires MachinesGrow(a, b, newId) && Covers(a, k)
    ensures Covers(b, k)
  {
  }

  /** Any item marks the bindings updated. */
  lemma SyncAllUpdated(st: Sync, items: Dict<string, Row>, newId: string)
    requires items != []
    ensures SyncAll(st, items, newId).conexUpdated
  {
    SyncOneGrows(SyncAll(st, items[..|items| - 1], newId), items[|items| - 1].0, items[|items| - 1].1, newId);
  }

  /** One item creates a machine exactly when its address had none. */
  lemma SyncOneAdded(st: Sync, mac: string, rec: Row, newId: string)
    ensures var after := SyncOne(st, mac, rec, newId);
      if Covers(st, mac) then after.machines == st.machines && after.machinesAdded == st.machinesAdded
      else after.machines == st.machines + [NewMachine(newId, mac)] && after.machinesAdded
  {
  }

  /** The pass sets `maquinas_added` exactly when it created a machine. */
  lemma {:induction false} SyncAllAdded(st: Sync, items: Dict<string, Row>, newId: string)
    requires !st.machinesAdded
    ensures SyncAll(st, items, newId).machinesAdded <==> |SyncAll(st, items, newId).machines| > |st.machines|
  {
    if items != [] {
      var mid := SyncAll(st, items[..|items| - 1], newId);
      SyncAllAdded(st, items[..|items| - 1], newId);
      SyncAllGrows(st, items[..|items| - 1], newId);
      SyncOneAdded(mid, items[|items| - 1].0, items[|items| - 1].1, newId);
    }
  }

  // ------------------------------------------------------------ which machine an address gets

  /** Every index entry is a machine of the list whose address normalises to its key. */
  ghost predicate IndexSound(st: Sync) {
    forall k :: k in st.index ==> st.index[k] in st.machines && NormalMac(Get(st.index[k], "mac")) == k
  }

  /** Non-empty addresses that are already normal forms, as every `mac_map` key is. */
  ghost predicate NormalKeys(items: Dict<string, Row>) {
    forall j :: 0 <= j < |items| ==> items[j].0 != "" && NormalMac(items[j].0) == items[j].0
  }

  lemma {:induction false} MachineIndexSound(machines: seq<Row>)
    ensures forall k :: k in MachineIndex(machines) ==>
      MachineIndex(machines)[k] in machines && NormalMac(Get(MachineIndex(machines)[k], "mac")) == k
  {
    if machines != [] {
      MachineIndexSound(machines[..|machines| - 1]);
      assert forall m :: m in machines[..|machines| - 1] ==> m in machines;
    }
  }

  lemma SyncOneSound(st: Sync, mac: string, rec: Row, newId: string)
    requires IndexSound(st) && NormalMac(mac) == mac
    ensures IndexSound(SyncOne(st, mac, rec, newId))
  {
    var st1 := WithMachine(st, mac, newId);
    if !Covers(st, mac) {
      NewMachineFields(newId, mac);
      forall k | k in st1.index ensures st1.index[k] in st1.machines && NormalMac(Get(st1.index[k], "mac")) == k {
        if k != mac {
          assert st1.index[k] == st.index[k];
        }
      }
    }
    assert SyncOne(st, mac, rec, newId).index == st1.index;
    assert SyncOne(st, mac, rec, newId).machines == st1.machines;
  }

  lemma {:induction false} SyncAllSound(st: Sync, items: Dict<string, Row>, newId: string)
    requires IndexSound(st) && NormalKeys(items)
    ensures IndexSound(SyncAll(st, items, newId))
  {
    if items != [] {
      var init := items[..|items| - 1];
      assert NormalKeys(init) by {
        assert forall j :: 0 <= j < |init| ==> init[j] == items[j];
      }
      SyncAllSound(st, init, newId);
      SyncOneSound(SyncAll(st, init, newId), items[|items| - 1].0, items[|items| - 1].1, newId);
    }
  }

  /** Every `mac_map` key is a normalised address. */
  lemma {:induction false} MacEntriesNormal(recs: seq<Row>)
    ensures NormalKeys(MacEntries(recs))
  {
    if recs != [] {
      MacEntriesNormal(recs[..|recs| - 1]);
      NormalMacIdempotent(Get(recs[|recs| - 1], "mac"));
    }
  }

  /** Every `mac_map` key is a non-empty normalised address, and each appears once. */
  lemma MacMapNormal(snaps: seq<Row>)
    ensures NormalKeys(MacMap(snaps))
    ensures UniqueKeys(MacMap(snaps))
  {
    var es := MacEntries(Values(Latest(snaps)));
    MacEntriesNormal(Values(Latest(snaps)));
    PutAllSpec([], es);
    forall j | 0 <= j < |MacMap(snaps)| ensures MacMap(snaps)[j].0 != "" && NormalMac(MacMap(snaps)[j].0) == MacMap(snaps)[j].0 {
      var k := MacMap(snaps)[j].0;
      assert KeyAt(MacMap(snaps), k).Some?;
      assert Lookup(es, k).Some?;
    }
  }

  /** Some machine of the list has the address. */
  ghost predicate HasMachine(machines: seq<Row>, mac: string) {
    exists i :: 0 <= i < |machines| && NormalMac(Get(machines[i], "mac")) == mac
  }

  /**
   * After the pass, every distinct address of the latest snapshots has a machine
   * with that address, created by the pass when there was none.
   */
  lemma EveryAddressHasMachine(snaps: seq<Row>, machines: seq<Row>, conex: seq<Row>)
    ensures var r := Reconciled(snaps, machines, conex);
      forall j :: 0 <= j < |MacMap(snaps)| ==> HasMachine(r.machines, MacMap(snaps)[j].0)
  {
    var st := Sync(machines, MachineIndex(machines), conex, false, false);
    var newId := IntToString(NextIdFrom(machines, "id_maquina"));
    var items := MacMap(snaps);
    MachineIndexSound(machines);
    MacMapNormal(snaps);
    SyncAllSound(st, items, newId);
    var r := SyncAll(st, items, newId);
    forall j | 0 <= j < |items| ensures HasMachine(r.machines, items[j].0) {
      SyncAllCovers(st, items, newId, j);
      var m := r.index[items[j].0];
      var i :| 0 <= i < |r.machines| && r.machines[i] == m;
    }
  }

  /** The item's binding carries the snapshot's port and up/down state right after its step. */
  lemma SyncOneBinds(st: Sync, mac: string, rec: Row, newId: string)
    ensures var after := SyncOne(st, mac, rec, newId);
      var j := FirstMatch(after.conex, (MachineId(after, mac), Get(rec, "id_switch")));
      && Covers(after, mac)
      && j.Some?
      && Get(after.conex[j.value], "porta") == Get(rec, "port")
      && Get(after.conex[j.value], "status") == StatusOf(rec)
  {
    SyncOneGrows(st, mac, rec, newId);
    var st1 := WithMachine(st, mac, newId);
    UpsertSpec(st1.conex, (MachineId(st1, mac), Get(rec, "id_switch")), Some(Get(rec, "port")), StatusOf(rec));
  }

  // ------------------------------------------------------------ the pass as a whole

  /** The (machine, switch) pair an item is bound under, with the machines of `st`. */
  function ItemPair(st: Sync, item: (string, Row)): (string, string) {
    (MachineId(st, item.0), Get(item.1, "id_switch"))
  }

  /** The binding upserts of the items, in order, with the machine ids of `st`. */
  function ItemOps(st: Sync, items: Dict<string, Row>): seq<Op> {
    seq(|items|, j requires 0 <= j < |items| => Op(ItemPair(st, items[j]), Get(items[j].1, "port"), StatusOf(items[j].1)))
  }

  /**
   * On the binding side the pass is the run of its items' upserts, each under the
   * machine its address has at the end of the pass.
   */
  lemma {:induction false} SyncAllUpserts(st: Sync, items: Dict<string, Row>, newId: string)
    ensures var fin := SyncAll(st, items, newId);
      fin.conex == Upserts(st.conex, ItemOps(fin, items))
  {
    if items != [] {
      var n := |items| - 1;
      var init := items[..n];
      var last := items[n];
      var mid := SyncAll(st, init, newId);
      var fin := SyncAll(st, items, newId);
      assert fin == SyncOne(mid, last.0, last.1, newId);
      SyncAllUpserts(st, init, newId);
      SyncOneGrows(mid, last.0, last.1, newId);
      forall j | 0 <= j < n ensures ItemOps(fin, items)[j] == ItemOps(mid, init)[j] {
        SyncAllCovers(st, init, newId, j);
        assert init[j] == items[j];
      }
      assert ItemOps(fin, items)[..n] == ItemOps(mid, init);
    }
  }

  /**
   * At the end of the pass every `mac_map` item's (machine, switch) pair has a
   * binding. When no later item is bound under the same pair, that binding holds the
   * item's snapshot port and up/down state; a later item with the same pair (two
   * created machines sharing the new id, say) overwrites it.
   */
  lemma ReconciledBinds(snaps: seq<Row>, machines: seq<Row>, conex: seq<Row>, j: nat)
    requires j < |MacMap(snaps)|
    ensures var r := Reconciled(snaps, machines, conex);
      var items := MacMap(snaps);
      var m := FirstMatch(r.conex, ItemPair(r, items[j]));
      && Covers(r, items[j].0)
      && m.Some?
      && ((forall k :: j < k < |items| ==> ItemPair(r, items[k]) != ItemPair(r, items[j])) ==>
            Get(r.conex[m.value], "porta") == Get(items[j].1, "port") && Get(r.conex[m.value], "status") == StatusOf(items[j].1))
  {
    var st := Sync(machines, MachineIndex(machines), conex, false, false);
    var newId := IntToString(NextIdFrom(machines, "id_maquina"));
    var items := MacMap(snaps);
    var r := SyncAll(st, items, newId);
    var ops := ItemOps(r, items);
    SyncAllCovers(st, items, newId, j);
    SyncAllUpserts(st, items, newId);
    UpsertsSettle(conex, ops, j);
    if forall k :: j < k < |items| ==> ItemPair(r, items[k]) != ItemPair(r, items[j]) {
      assert LastFor(ops, j);
      HoldsFields(r.conex[FirstMatch(r.conex, ops[j].pair).value], ops[j]);
    }
  }

  /** The machines a pass creates: one per `mac_map` address without a machine at the start, in order. */
  function Discovered(index: map<string, Row>, items: Dict<string, Row>, newId: string): seq<Row> {
    if items == [] then []
    else
      var k := items[|items| - 1].0;
      Discovered(index, items[..|items| - 1], newId) + (if k in index && index[k] != map[] then [] else [NewMachine(newId, k)])
  }

  /**
   * With each address visited once, the pass appends exactly the discovered machines,
   * and an address it does not visit keeps its place in the index.
   */
  lemma {:induction false} SyncAllMachines(st: Sync, items: Dict<string, Row>, newId: string)
    requires UniqueKeys(items)
    ensures var fin := SyncAll(st, items, newId);
      && fin.machines == st.machines + Discovered(st.index, items, newId)
      && forall k :: (forall j :: 0 <= j < |items| ==> items[j].0 != k) ==> Covers(fin, k) == Covers(st, k)
  {
    if items != [] {
      var n := |items| - 1;
      var init := items[..n];
      var last := items[n];
      var mid := SyncAll(st, init, newId);
      var fin := SyncAll(st, items, newId);
      assert fin == SyncOne(mid, last.0, last.1, newId);
      assert forall j :: 0 <= j < n ==> init[j] == items[j];
      assert UniqueKeys(init);
      SyncAllMachines(st, init, newId);
      assert forall j :: 0 <= j < n ==> init[j].0 != last.0;
      assert Covers(mid, last.0) == Covers(st, last.0);
      SyncOneAdded(mid, last.0, last.1, newId);
      DiscoveredStep(st, mid, fin, items, newId);
      forall k | forall j :: 0 <= j < |items| ==> items[j].0 != k
        ensures Covers(fin, k) == Covers(st, k)
      {
        assert forall j :: 0 <= j < n ==> init[j].0 != k;
        SyncOneCoversOther(mid, last.0, last.1, newId, k);
      }
    }
  }

  /** The machine lists of one more visited address, when the address is new to the pass. */
  lemma DiscoveredStep(st: Sync, mid: Sync, fin: Sync, items: Dict<string, Row>, newId: string)
    requires items != []
    requires mid.machines == st.machines + Discovered(st.index, items[..|items| - 1], newId)
    requires Covers(mid, items[|items| - 1].0) == Covers(st, items[|items| - 1].0)
    requires fin.machines == if Covers(mid, items[|items| - 1].0) then mid.machines
                             else mid.machines + [NewMachine(newId, items[|items| - 1].0)]
    ensures fin.machines == st.machines + Discovered(st.index, items, newId)
  {
    var k := items[|items| - 1].0;
    var d := Discovered(st.index, items[..|items| - 1], newId);
    if !Covers(st, k) {
      assert st.machines + d + [NewMachine(newId, k)] == st.machines + (d + [NewMachine(newId, k)]);
    } else {
      assert d + [] == d;
    }
  }

  /** A step for one address leaves the coverage of every other address alone. */
  lemma SyncOneCoversOther(st: Sync, mac: string, rec: Row, newId: string, k: string)
    requires k != mac
    ensures Covers(SyncOne(st, mac, rec, newId), k) == Covers(st, k)
  {
    assert SyncOne(st, mac, rec, newId).index == WithMachine(st, mac, newId).index;
  }

  /** Every discovered machine is a created machine for one of the visited addresses that had none. */
  lemma {:induction false} DiscoveredFrom(index: map<string, Row>, items: Dict<string, Row>, newId: string, i: nat)
    requires i < |Discovered(index, items, newId)|
    ensures exists j :: 0 <= j < |items| && Discovered(index, items, newId)[i] == NewMachine(newId, items[j].0)
                        && !(items[j].0 in index && index[items[j].0] != map[])
  {
    var n := |items| - 1;
    var d := Discovered(index, items[..n], newId);
    if i < |d| {
      DiscoveredFrom(index, items[..n], newId, i);
      var j :| 0 <= j < n && d[i] == NewMachine(newId, items[..n][j].0) && !(items[..n][j].0 in index && index[items[..n][j].0] != map[]);
      assert items[..n][j] == items[j];
    } else {
      assert Discovered(index, items, newId)[i] == NewMachine(newId, items[n].0);
    }
  }

  /**
   * The machines after the pass are the stored ones followed by one created machine
   * per `mac_map` address that no machine had, in `mac_map` order.
   */
  lemma CreatedMachines(snaps: seq<Row>, machines: seq<Row>, conex: seq<Row>)
    ensures Reconciled(snaps, machines, conex).machines
            == machines + Discovered(MachineIndex(machines), MacMap(snaps), IntToString(NextIdFrom(machines, "id_maquina")))
  {
    MacMapNormal(snaps);
    SyncAllMachines(Sync(machines, MachineIndex(machines), conex, false, false), MacMap(snaps),
                    IntToString(NextIdFrom(machines, "id_maquina")));
  }

  /**
   * Each machine the pass creates carries a `mac_map` address, non-empty, that no
   * stored machine had; so a snapshot without an address creates none.
   */
  lemma CreatedAddresses(snaps: seq<Row>, machines: seq<Row>, conex: seq<Row>, i: nat)
    requires |machines| <= i < |Reconciled(snaps, machines, conex).machines|
    ensures var items := MacMap(snaps);
      exists j :: 0 <= j < |items| && Reconciled(snaps, machines, conex).machines[i]
                                        == NewMachine(IntToString(NextIdFrom(machines, "id_maquina")), items[j].0)
                  && items[j].0 != "" && items[j].0 !in MachineIndex(machines)
  {
    var newId := IntToString(NextIdFrom(machines, "id_maquina"));
    var d := Discovered(MachineIndex(machines), MacMap(snaps), newId);
    CreatedMachines(snaps, machines, conex);
    MacMapNormal(snaps);
    assert Reconciled(snaps, machines, conex).machines[i] == d[i - |machines|];
    DiscoveredAddress(machines, MacMap(snaps), newId, i - |machines|);
  }

  /** A discovered machine belongs to a non-empty visited address that had no machine. */
  lemma DiscoveredAddress(machines: seq<Row>, items: Dict<string, Row>, newId: string, i: nat)
    requires NormalKeys(items) && i < |Discovered(MachineIndex(machines), items, newId)|
    ensures exists j :: 0 <= j < |items| && Discovered(MachineIndex(machines), items, newId)[i] == NewMachine(newId, items[j].0)
                        && items[j].0 != "" && items[j].0 !in MachineIndex(machines)
  {
    var index := MachineIndex(machines);
    DiscoveredFrom(index, items, newId, i);
    var j :| 0 <= j < |items| && Discovered(index, items, newId)[i] == NewMachine(newId, items[j].0)
             && !(items[j].0 in index && index[items[j].0] != map[]);
    if items[j].0 in index {
      MachineIndexFilled(machines, items[j].0);
    }
  }

  /** The index holds only machines with an address, so no entry is empty. */
  lemma {:induction false} MachineIndexFilled(machines: seq<Row>, k: string)
    requires k in MachineIndex(machines)
    ensures MachineIndex(machines)[k] != map[]
  {
    var n := |machines| - 1;
    if !(Get(machines[n], "mac") != "" && k == NormalMac(Get(machines[n], "mac"))) {
      MachineIndexFilled(machines[..n], k);
    }
  }

  // ------------------------------------------------------------ running the pass again

  /** The index built from the machine list, as the pass starts it. */
  ghost predicate IndexExact(st: Sync) {
    st.index == MachineIndex(st.machines)
  }

  lemma SyncOneExact(st: Sync, mac: string, rec: Row, newId: string)
    requires IndexExact(st) && mac != "" && NormalMac(mac) == mac
    ensures IndexExact(SyncOne(st, mac, rec, newId))
  {
    if !Covers(st, mac) {
      var m := NewMachine(newId, mac);
      var ms := st.machines + [m];
      assert ms[..|ms| - 1] == st.machines;
      assert MachineIndex(ms) == MachineIndex(st.machines)[mac := m];
    }
  }

  /** The pass keeps the index equal to the one built from its machine list. */
  lemma {:induction false} SyncAllExact(st: Sync, items: Dict<string, Row>, newId: string)
    requires IndexExact(st) && NormalKeys(items)
    ensures IndexExact(SyncAll(st, items, newId))
  {
    if items != [] {
      var n := |items| - 1;
      assert NormalKeys(items[..n]) by {
        assert forall j :: 0 <= j < n ==> items[..n][j] == items[j];
      }
      SyncAllExact(st, items[..n], newId);
      SyncOneExact(SyncAll(st, items[..n], newId), items[n].0, items[n].1, newId);
    }
  }

  /** When every visited address already has a machine, the pass leaves the machine side alone. */
  lemma {:induction false} SyncAllCovered(st: Sync, items: Dict<string, Row>, newId: string)
    requires forall j :: 0 <= j < |items| ==> Covers(st, items[j].0)
    ensures var fin := SyncAll(st, items, newId);
      fin.machines == st.machines && fin.index == st.index && fin.machinesAdded == st.machinesAdded
  {
    if items != [] {
      var n := |items| - 1;
      assert forall j :: 0 <= j < n ==> items[..n][j] == items[j];
      SyncAllCovered(st, items[..n], newId);
    }
  }

  /** What the pass saves as machines is its final machine list: unchanged when it created none. */
  lemma SavedMachines(st: Sync, items: Dict<string, Row>, newId: string)
    requires !st.machinesAdded
    ensures var r := SyncAll(st, items, newId);
      (if r.machinesAdded then r.machines else st.machines) == r.machines
  {
    var r := SyncAll(st, items, newId);
    SyncAllAdded(st, items, newId);
    SyncAllGrows(st, items, newId);
    if !r.machinesAdded {
      assert r.machines == r.machines[..|st.machines|];
    }
  }

  /**
   * A second pass over the same items, started from the machines and bindings of the
   * first, creates no machine and leaves the bindings as they are.
   */
  lemma SyncAllAgain(st: Sync, items: Dict<string, Row>, newId: string, newId2: string)
    requires IndexExact(st) && NormalKeys(items)
    ensures var r := SyncAll(st, items, newId);
      var again := SyncAll(Sync(r.machines, MachineIndex(r.machines), r.conex, false, false), items, newId2);
      again.machines == r.machines && !again.machinesAdded && again.conex == r.conex
  {
    var r := SyncAll(st, items, newId);
    SyncAllExact(st, items, newId);
    var st2 := Sync(r.machines, MachineIndex(r.machines), r.conex, false, false);
    assert st2.index == r.index;
    forall j | 0 <= j < |items| ensures Covers(st2, items[j].0) {
      SyncAllCovers(st, items, newId, j);
    }
    SyncAllCovered(st2, items, newId2);
    var again := SyncAll(st2, items, newId2);
    SyncAllUpserts(st, items, newId);
    SyncAllUpserts(st2, items, newId2);
    assert ItemOps(again, items) == ItemOps(r, items);
    UpsertsIdempotent(st.conex, ItemOps(r, items));
  }

  /**
   * Reconciliation is idempotent: a second pass over the same snapshots, on the
   * machines and bindings the first pass saved, creates no machine and leaves every
   * binding as it is.
   */
  lemma ReconcileIdempotent(snaps: seq<Row>, machines: seq<Row>, conex: seq<Row>)
    ensures var r := Reconciled(snaps, machines, conex);
      var saved := if r.machinesAdded then r.machines else machines;
      var again := Reconciled(snaps, saved, r.conex);
      again.machines == saved && !again.machinesAdded && again.conex == r.conex
  {
    var st := Sync(machines, MachineIndex(machines), conex, false, false);
    var newId := IntToString(NextIdFrom(machines, "id_maquina"));
    var r := SyncAll(st, MacMap(snaps), newId);
    MacMapNormal(snaps);
    SavedMachines(st, MacMap(snaps), newId);
    SyncAllAgain(st, MacMap(snaps), newId, IntToString(NextIdFrom(r.machines, "id_maquina")));
  }

  /** The id text `next_id` gives reads back as that id. */
  lemma NewIdValue(m: Row, n: int)
    requires n >= 1 && Get(m, "id_maquina") == IntToString(n)
    ensures IdValue(m, "id_maquina") == Some(n)
  {
    ParseIntToString(n);
    assert ParseDecimal("") == None;
  }

  /**
   * A created machine's id is `next_id` of the persisted machines: it parses above
   * every persisted id, and every machine the pass creates has that same id.
   */
  lemma CreatedIds(snaps: seq<Row>, machines: seq<Row>, conex: seq<Row>)
    ensures var r := Reconciled(snaps, machines, conex);
      var n := NextIdFrom(machines, "id_maquina");
      && n >= 1
      && (forall i :: 0 <= i < |machines| && IdValue(machines[i], "id_maquina").Some? ==> IdValue(machines[i], "id_maquina").value < n)
      && (forall j :: |machines| <= j < |r.machines| ==>
            IdValue(r.machines[j], "id_maquina") == Some(n) && Get(r.machines[j], "access_allowed") == "True")
  {
    var st := Sync(machines, MachineIndex(machines), conex, false, false);
    var n := NextIdFrom(machines, "id_maquina");
    var items := MacMap(snaps);
    var newId := IntToString(n);
    var r := SyncAll(st, items, newId);
    SyncAllGrows(st, items, newId);
    assert IsNextId(IdValues(machines, "id_maquina"), n);
    forall j | |machines| <= j < |r.machines|
      ensures IdValue(r.machines[j], "id_maquina") == Some(n) && Get(r.machines[j], "access_allowed") == "True"
    {
      assert r.machines[j] == r.machines[|machines|..][j - |machines|];
      NewIdValue(r.machines[j], n);
    }
  }

  /**
   * Any two addresses with no machine before the pass end up with distinct machines
   * that share one id: `next_id` is not re-read after a creation.
   */
  lemma SharedId(snaps: seq<Row>, machines: seq<Row>, conex: seq<Row>, i: nat, j: nat)
    requires i < |MacMap(snaps)| && j < |MacMap(snaps)|
    requires MacMap(snaps)[i].0 !in MachineIndex(machines) && MacMap(snaps)[j].0 !in MachineIndex(machines)
    ensures var r := Reconciled(snaps, machines, conex);
      var a, b := MacMap(snaps)[i].0, MacMap(snaps)[j].0;
      && Covers(r, a) && Covers(r, b)
      && MachineId(r, a) == MachineId(r, b) == IntToString(NextIdFrom(machines, "id_maquina"))
      && (a != b ==> r.index[a] != r.index[b])
  {
    var st := Sync(machines, MachineIndex(machines), conex, false, false);
    var newId := IntToString(NextIdFrom(machines, "id_maquina"));
    var items := MacMap(snaps);
    SyncAllGrows(st, items, newId);
    SyncAllCovers(st, items, newId, i);
    SyncAllCovers(st, items, newId, j);
    MachineIndexSound(machines);
    MacMapNormal(snaps);
    SyncAllSound(st, items, newId);
    var r := SyncAll(st, items, newId);
    assert Covers(r, items[i].0) && !Covers(st, items[i].0);
    assert Covers(r, items[j].0) && !Covers(st, items[j].0);
  }

  // ------------------------------------------------------------ the pass with the store

  /** The `latest` loop. */
  method IndexSnapshots(snaps: seq<Row>) returns (latest: Dict<string, Row>)
    ensures latest == Latest(snaps)
  {
    latest := [];
    for i := 0 to |snaps|
      invariant latest == PutAll([], KeyedSnapshots(snaps[..i]))
    {
      assert snaps[..i + 1][..i] == snaps[..i];
      latest := Put(latest, SnapKey(snaps[i]), snaps[i]);
    }
    assert snaps[..|snaps|] == snaps;
  }

  /** The `mac_map` loop over `latest.values()`. */
  method IndexAddresses(latest: Dict<string, Row>) returns (macMap: Dict<string, Row>)
    ensures macMap == PutAll([], MacEntries(Values(latest)))
  {
    var recs := Values(latest);
    macMap := [];
    for i := 0 to |recs|
      invariant macMap == PutAll([], MacEntries(recs[..i]))
    {
      assert recs[..i + 1][..i] == recs[..i];
      ghost var es := MacEntries(recs[..i]);
      var mac := NormalMac(Get(recs[i], "mac"));
      if mac != "" {
        assert MacEntries(recs[..i + 1]) == es + [(mac, recs[i])];
        assert (es + [(mac, recs[i])])[..|es|] == es;
        macMap := Put(macMap, mac, recs[i]);
      } else {
        assert MacEntries(recs[..i + 1]) == es + [];
        assert es + [] == es;
      }
    }
    assert recs[..|recs|] == recs;
  }

  /** The item loop: each address gets its machine and its binding. */
  method SyncItems(store: RecordStore, st0: Sync, items: Dict<string, Row>) returns (st: Sync)
    ensures st == SyncAll(st0, items, IntToString(NextIdFrom(store.Table(Machines), "id_maquina")))
  {
    ghost var newId := IntToString(NextIdFrom(store.Table(Machines), "id_maquina"));
    st := st0;
    for i := 0 to |items|
      invariant st == SyncAll(st0, items[..i], newId)
    {
      assert items[..i + 1][..i] == items[..i];
      ghost var prev := st;
      var (mac, rec) := items[i];
      if !(mac in st.index && st.index[mac] != map[]) {
        var next := store.NextId(Machines, "id_maquina");
        var m := NewMachine(IntToString(next.value), mac);
        st := st.(machines := st.machines + [m], index := st.index[mac := m], machinesAdded := true);
      }
      assert st == WithMachine(prev, mac, newId);
      var status := BoolText(IsUp(Get(rec, "administrative")));
      var conex, _ := UpsertBinding(st.conex, (Get(st.index[mac], "id_maquina"), Get(rec, "id_switch")), Some(Get(rec, "port")), status);
      st := st.(conex := conex, conexUpdated := true);
    }
    assert items[..|items|] == items;
  }

  /** Machine-shaped machines, so saving them stores them as they are. */
  lemma MachinesSaved(st: Sync, items: Dict<string, Row>, newId: string)
    requires forall i :: 0 <= i < |st.machines| ==> Shaped(Entities[Machines], st.machines[i])
    ensures var ms := SyncAll(st, items, newId).machines;
      NormalizeRows(Entities[Machines], LiftRows(ms)) == ms
  {
    SyncAllGrows(st, items, newId);
    var ms := SyncAll(st, items, newId).machines;
    forall i | 0 <= i < |ms| ensures Shaped(Entities[Machines], ms[i]) {
      if i < |st.machines| {
        assert ms[i] == ms[..|st.machines|][i];
      } else {
        assert ms[i] == ms[|st.machines|..][i - |st.machines|];
      }
    }
    NormalizeShapedRows(Entities[Machines], ms);
  }

  /** Well-formed bindings stay well-formed, so saving them stores them as they are. */
  lemma ConexSaved(st: Sync, items: Dict<string, Row>, newId: string)
    requires AllBindings(st.conex)
    ensures var cs := SyncAll(st, items, newId).conex;
      NormalizeRows(Entities[Bindings], LiftRows(cs)) == cs
  {
    SyncAllGrows(st, items, newId);
    NormalizeShapedRows(Entities[Bindings], SyncAll(st, items, newId).conex);
  }

  /**
   * `sync_csvs_from_status_portas`: machines are saved only when one was created,
   * bindings only when some address was processed.
   */
  method SyncFromSnapshots(store: RecordStore) returns (machinesAdded: bool, conexUpdated: bool)
    requires store.Valid()
    modifies store
    ensures store.Valid()
    ensures var r := Reconciled(old(store.Table(Storage.Snapshots)), old(store.Table(Machines)), old(store.Table(Bindings)));
      var t := if r.machinesAdded then old(store.tables)[Machines := r.machines] else old(store.tables);
      && machinesAdded == r.machinesAdded && conexUpdated == r.conexUpdated
      && store.tables == (if r.conexUpdated then t[Bindings := r.conex] else t)
    ensures store.Table(Storage.Snapshots) == old(store.Table(Storage.Snapshots))
    ensures store.tables == SyncedTables(old(store.tables))
  {
    var snaps := store.LoadAll(Storage.Snapshots);
    var latest := IndexSnapshots(snaps.value);
    var macMap := IndexAddresses(latest);
    var machines := store.LoadAll(Machines);
    var conex := store.LoadAll(Bindings);
    var st := SyncItems(store, Sync(machines.value, MachineIndex(machines.value), conex.value, false, false), macMap);
    ghost var st0 := Sync(machines.value, MachineIndex(machines.value), conex.value, false, false);
    MachinesSaved(st0, macMap, IntToString(NextIdFrom(machines.value, "id_maquina")));
    ConexSaved(st0, macMap, IntToString(NextIdFrom(machines.value, "id_maquina")));
    if st.machinesAdded {
      var saved := store.SaveAll(Machines, LiftRows(st.machines));
    }
    if st.conexUpdated {
      var saved := store.SaveAll(Bindings, LiftRows(st.conex));
    }
    machinesAdded, conexUpdated := st.machinesAdded, st.conexUpdated;
  }

  /**
   * The tables after `sync_csvs_from_status_portas`: the machines replaced when one
   * was created, the bindings when some address was processed.
   */
  function SyncedTables(tables: map<string, seq<Row>>): map<string, seq<Row>> {
    var r := Reconciled(TableIn(tables, Storage.Snapshots), TableIn(tables, Machines), TableIn(tables, Bindings));
    var t := if r.machinesAdded then tables[Machines := r.machines] else tables;
    if r.conexUpdated then t[Bindings := r.conex] else t
  }

  // ------------------------------------------------------------ start-up

  /** The tables after `auto_sync_switches`: its bindings replace the stored ones. */
  function AutoSyncedTables(net: Net, tables: map<string, seq<Row>>): map<string, seq<Row>> {
    tables[Bindings := AutoSync.SyncAll(net, Tally(TableIn(tables, Bindings), 0, 0, []),
                                        TableIn(tables, Switches), TableIn(tables, Machines)).conex]
  }

  /**
   * The tables after the seeding step and `sync_csvs_from_status_portas`: seeding runs
   * only on an empty snapshot table and replaces it; `None` when the seeding raised,
   * which skips the rest.
   */
  function SeededSyncedTables(net: Net, tables: map<string, seq<Row>>): Option<map<string, seq<Row>>> {
    if TableIn(tables, Storage.Snapshots) != [] then Some(SyncedTables(tables))
    else
      match BuildAll(net, TableIn(tables, Switches), PriorOf(TableIn(tables, Machines), TableIn(tables, Bindings)))
      case None => None
      case Some(b) =>
        Some(SyncedTables(tables[Storage.Snapshots := NormalizeRows(Entities[Storage.Snapshots], SnapshotRecords(b.rows))]))
  }

  /** The tables after the whole start-up sequence. */
  function StartupTables(net: Net, tables: map<string, seq<Row>>): map<string, seq<Row>> {
    var t := AutoSyncedTables(net, tables);
    match SeededSyncedTables(net, t)
    case None => t
    case Some(t') => t'
  }

  /** What start-up reports: the counters and errors of `auto_sync_switches`, the seeding outcome, and the flags of `sync_csvs_from_status_portas`. */
  datatype Startup = Startup(updated: nat, added: nat, syncErrors: seq<SyncError>,
                             seeded: Option<(nat, seq<BuildError>)>, reconciled: Option<(bool, bool)>)

  /**
   * The start-up sequence: `auto_sync_switches`, then the seeding pass only when
   * there are no snapshots at all, then `sync_csvs_from_status_portas` unless the
   * seeding raised.
   */
  method RunStartup(store: RecordStore, net: Net) returns (report: Startup)
    requires store.Valid()
    modifies store
    ensures store.Valid()
    ensures old(store.Table(Storage.Snapshots)) != [] ==>
      report.seeded.None? && report.reconciled.Some? && store.Table(Storage.Snapshots) == old(store.Table(Storage.Snapshots))
    ensures old(store.Table(Storage.Snapshots)) == [] ==> (report.reconciled.Some? <==> report.seeded.Some?)
    ensures store.tables == StartupTables(net, old(store.tables))
  {
    ghost var snaps0 := store.Table(Storage.Snapshots);
    var updated, added, errors := AutoSyncSwitches(store, net);
    assert store.Table(Storage.Snapshots) == snaps0;
    var seeded, reconciled := SeedAndReconcile(store, net);
    report := Startup(updated, added, errors, seeded, reconciled);
  }

  /** The part of start-up after `auto_sync_switches`. */
  method SeedAndReconcile(store: RecordStore, net: Net) returns (seeded: Option<(nat, seq<BuildError>)>, reconciled: Option<(bool, bool)>)
    requires store.Valid()
    modifies store
    ensures store.Valid()
    ensures old(store.Table(Storage.Snapshots)) != [] ==>
      seeded.None? && reconciled.Some? && store.Table(Storage.Snapshots) == old(store.Table(Storage.Snapshots))
    ensures old(store.Table(Storage.Snapshots)) == [] ==>
      var b := BuildAll(net, old(store.Table(Switches)), PriorOf(old(store.Table(Machines)), old(store.Table(Bindings))));
      && (seeded.Some? <==> b.Some?)
      && (reconciled.Some? <==> seeded.Some?)
      && (seeded.None? ==> store.tables == old(store.tables))
    ensures var t := SeededSyncedTables(net, old(store.tables));
      && (reconciled.Some? <==> t.Some?)
      && store.tables == (if t.Some? then t.value else old(store.tables))
  {
    seeded, reconciled := None, None;
    var snaps := store.LoadAll(Storage.Snapshots);
    if snaps.value == [] {
      seeded := GenerateSnapshots(store, net);
      if seeded.None? {
        return;
      }
    }
    var machinesAdded, conexUpdated := SyncFromSnapshots(store);
    reconciled := Some((machinesAdded, conexUpdated));
  }
}

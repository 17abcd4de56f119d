/**
 * The rules the dashboard (streamlit_app.py) applies to the stored rows of machines
 * and their bindings to switch ports: how a MAC address is compared and turned into
 * a forwarding-table index, when a port counts as up, the machine permission
 * tri-state, and the upsert of a (machine, switch) binding that every pass shares.
 */
module Inventory {
  import opened Common
  import opened Text
  import opened Storage
  import opened Snmp

  /** `r.get(k)` on a stored row; every stored row has all of its entity's fields, and a missing one reads as "". */
  function Get(r: Row, k: string): string {
    if k in r then r[k] else ""
  }

  /** `(x or '').strip().upper()`: the form in which MAC addresses are compared. */
  function NormalMac(s: string): string {
    Upper(Strip(s))
  }

  /** A normalised address is its own normal form. */
  lemma NormalMacIdempotent(s: string)
    ensures NormalMac(NormalMac(s)) == NormalMac(s)
  {
    UpperStrip(s);
  }

  /** A port is up when its ifAdminStatus reads `1` or starts with `up`, in any case. */
  predicate IsUp(admin: string) {
    admin == "1" || StartsWith(Lower(admin), "up")
  }

  // ------------------------------------------------------------ MAC to FDB index

  /** The groups of a MAC address: `-` read as `:`, split on `:`, empty groups dropped. */
  function MacGroups(mac: string): seq<string> {
    DropEmpty(Split(Replace(mac, '-', ':'), ':'))
  }

  /** `int(p, 16)` for each group. */
  function HexParsed(parts: seq<string>): seq<Option<int>> {
    seq(|parts|, i requires 0 <= i < |parts| => ParseInt(parts[i], Hexadecimal))
  }

  /** Every group of the address is a hexadecimal number. */
  predicate HexMac(mac: string) {
    AllSome(HexParsed(MacGroups(mac))).Some?
  }

  /**
   * `mac_to_oid_suffix_local`: the dotted-decimal forwarding-table index of a MAC
   * address; "" for an empty address, and the address itself when a group is not
   * hexadecimal.
   */
  function MacToOidSuffix(mac: string): string {
    if mac == "" then ""
    else
      match AllSome(HexParsed(MacGroups(mac)))
      case None => mac
      case Some(octets) => Join(DecimalAll(octets), '.')
  }

  /** A group that is not hexadecimal makes the conversion give back its input. */
  lemma NonHexKeepsInput(mac: string, i: nat)
    requires mac != "" && i < |MacGroups(mac)| && ParseInt(MacGroups(mac)[i], Hexadecimal).None?
    ensures !HexMac(mac)
    ensures MacToOidSuffix(mac) == mac
  {
    assert HexParsed(MacGroups(mac))[i].None?;
  }

  lemma ReplaceTwice(s: string, a: char, b: char)
    ensures Replace(Replace(s, a, b), a, b) == Replace(s, a, b)
  {
  }

  /** `-` and `:` separate the groups alike: both spellings of an address give the same index. */
  lemma SeparatorsAgree(mac: string)
    ensures MacGroups(Replace(mac, '-', ':')) == MacGroups(mac)
    ensures HexMac(Replace(mac, '-', ':')) == HexMac(mac)
    ensures mac != "" && HexMac(mac) ==> MacToOidSuffix(Replace(mac, '-', ':')) == MacToOidSuffix(mac)
  {
    ReplaceTwice(mac, '-', ':');
    if mac != "" {
      assert Replace(mac, '-', ':') != "";
    }
  }

  /** The two-digit renderings of byte values, as `get_fdb_entries` writes an address. */
  lemma HexBytes(octets: seq<int>)
    requires forall i :: 0 <= i < |octets| ==> 0 <= octets[i] < 256
    ensures forall i :: 0 <= i < |Hex2All(octets)| ==>
              Hex2All(octets)[i] != [] && '-' !in Hex2All(octets)[i] && ':' !in Hex2All(octets)[i]
    ensures HexParsed(Hex2All(octets)) == seq(|octets|, i requires 0 <= i < |octets| => Some(octets[i]))
  {
    forall i | 0 <= i < |octets|
      ensures Hex2(octets[i]) != [] && '-' !in Hex2(octets[i]) && ':' !in Hex2(octets[i])
      ensures ParseInt(Hex2(octets[i]), Hexadecimal) == Some(octets[i])
    {
      Hex2Byte(octets[i]);
      ParseHex2(octets[i]);
    }
  }

  /** The groups of an address as `get_fdb_entries` writes it are its two-digit bytes. */
  lemma MacTextGroups(octets: seq<int>)
    requires |octets| >= 1 && forall i :: 0 <= i < |octets| ==> 0 <= octets[i] < 256
    ensures MacGroups(MacText(octets)) == Hex2All(octets)
  {
    var parts := Hex2All(octets);
    HexBytes(octets);
    ReplaceJoin(parts, ':', '-', ':');
    SplitJoin(parts, ':');
    DropEmptyNone(parts);
  }

  /** An address written by `get_fdb_entries` from at least one byte is not empty. */
  lemma MacTextNonEmpty(octets: seq<int>)
    requires |octets| >= 1 && 0 <= octets[0] < 256
    ensures MacText(octets) != ""
  {
    Hex2Byte(octets[0]);
    if |octets| > 1 {
      assert MacText(octets) == Hex2(octets[0]) + [':'] + Join(Hex2All(octets)[1..], ':');
    }
  }

  lemma AllPresent<T>(vs: seq<T>)
    ensures AllSome(seq(|vs|, i requires 0 <= i < |vs| => Some(vs[i]))) == Some(vs)
  {
    var os := seq(|vs|, i requires 0 <= i < |vs| => Some(vs[i]));
    assert forall i :: 0 <= i < |os| ==> os[i].Some?;
    var r := AllSome(os);
    assert r.value == vs;
  }

  /** The groups of such an address are all hexadecimal, and their values are the bytes. */
  lemma MacTextOctets(octets: seq<int>)
    requires |octets| >= 1 && forall i :: 0 <= i < |octets| ==> 0 <= octets[i] < 256
    ensures AllSome(HexParsed(MacGroups(MacText(octets)))) == Some(octets)
  {
    MacTextGroups(octets);
    HexBytes(octets);
    AllPresent(octets);
  }

  /**
   * Converting an address that `get_fdb_entries` decoded gives back the index it was
   * decoded from: for byte values, the conversion inverts the FDB suffix decoding.
   */
  lemma OidSuffixInvertsDecoding(octets: seq<int>)
    requires |octets| >= 1 && forall i :: 0 <= i < |octets| ==> 0 <= octets[i] < 256
    ensures HexMac(MacText(octets))
    ensures MacToOidSuffix(MacText(octets)) == Join(DecimalAll(octets), '.')
    ensures SuffixOctets(MacToOidSuffix(MacText(octets))) == octets
  {
    MacTextOctets(octets);
    MacTextNonEmpty(octets);
    SuffixOctetsOfDecimal(octets);
  }

  // ------------------------------------------------------------ machine permission

  /** `True if acc == '' else str(acc).lower() == 'true'`: an unset permission allows. */
  predicate AccessAllowed(acc: string) {
    acc == "" || Lower(acc) == "true"
  }

  /** The permission checkbox saved back: the field is rewritten only when the wanted value differs. */
  function SetAccess(m: Row, wanted: bool): Row {
    if wanted != AccessAllowed(Get(m, "access_allowed")) then m["access_allowed" := BoolText(wanted)] else m
  }

  /** The text written for the checkbox reads back as the checkbox; leaving it as shown changes nothing. */
  lemma SetAccessSpec(m: Row, wanted: bool)
    ensures AccessAllowed(Get(SetAccess(m, wanted), "access_allowed")) == wanted
    ensures wanted == AccessAllowed(Get(m, "access_allowed")) ==> SetAccess(m, wanted) == m
    ensures forall k :: k != "access_allowed" ==> Get(SetAccess(m, wanted), k) == Get(m, k)
  {
    assert Lower("True") == "true";
    assert Lower("False") == "false";
  }

  // ------------------------------------------------------------ schedulable machines

  /** A machine offered for scheduling: it has an id and a MAC, is not a teacher's machine, and is allowed. */
  predicate Schedulable(m: Row) {
    && Get(m, "id_maquina") != ""
    && Get(m, "mac") != ""
    && Lower(Get(m, "tipo_maquina")) != "true"
    && AccessAllowed(Get(m, "access_allowed"))
  }

  /** The schedulable machines, in stored order. */
  function SchedulableOf(machines: seq<Row>): seq<Row> {
    if machines == [] then []
    else
      var last := machines[|machines| - 1];
      SchedulableOf(machines[..|machines| - 1]) + (if Schedulable(last) then [last] else [])
  }

  function MacsOf(machines: seq<Row>): (macs: seq<string>)
    ensures |macs| == |machines| && forall i :: 0 <= i < |machines| ==> macs[i] == Get(machines[i], "mac")
  {
    seq(|machines|, i requires 0 <= i < |machines| => Get(machines[i], "mac"))
  }

  /** The filter keeps exactly the schedulable machines and loses none of them. */
  lemma {:induction false} SchedulableOfSpec(machines: seq<Row>)
    ensures forall m :: m in SchedulableOf(machines) <==> m in machines && Schedulable(m)
    ensures |SchedulableOf(machines)| <= |machines|
  {
    if machines != [] {
      var init := machines[..|machines| - 1];
      SchedulableOfSpec(init);
      assert machines == init + [machines[|machines| - 1]];
    }
  }

  /** The loop that fills the MAC drop-down of the schedule form, with the machines behind it. */
  method ListSchedulable(machines: seq<Row>) returns (macOptions: seq<string>, valid: seq<Row>)
    ensures valid == SchedulableOf(machines)
    ensures macOptions == MacsOf(valid)
  {
    macOptions, valid := [], [];
    for i := 0 to |machines|
      invariant valid == SchedulableOf(machines[..i])
      invariant macOptions == MacsOf(valid)
    {
      assert machines[..i + 1][..i] == machines[..i];
      var m := machines[i];
      assert SchedulableOf(machines[..i + 1]) == valid + (if Schedulable(m) then [m] else []);
      if Get(m, "id_maquina") == "" || Get(m, "mac") == "" {
        continue;
      }
      if Lower(Get(m, "tipo_maquina")) != "true" && AccessAllowed(Get(m, "access_allowed")) {
        assert MacsOf(valid + [m]) == MacsOf(valid) + [Get(m, "mac")];
        macOptions := macOptions + [Get(m, "mac")];
        valid := valid + [m];
      }
    }
    assert machines[..|machines|] == machines;
  }

  // ------------------------------------------------------------ bindings

  /** The (machine, switch) pair of a binding row, compared as text. */
  function PairOf(r: Row): (string, string) {
    (Get(r, "id_maquina"), Get(r, "id_switch"))
  }

  /** The position of the first binding for a pair. */
  function FirstMatch(rows: seq<Row>, pair: (string, string)): (r: Option<nat>)
    ensures r.Some? ==> r.value < |rows| && PairOf(rows[r.value]) == pair
    ensures r.Some? ==> forall j :: 0 <= j < r.value ==> PairOf(rows[j]) != pair
    ensures r.None? <==> forall j :: 0 <= j < |rows| ==> PairOf(rows[j]) != pair
  {
    if rows == [] then None
    else if PairOf(rows[0]) == pair then Some(0)
    else
      match FirstMatch(rows[1..], pair)
      case None => None
      case Some(k) => Some(k + 1)
  }

  /** At most one binding per (machine, switch) pair. */
  ghost predicate UniquePairs(rows: seq<Row>) {
    forall i, j :: 0 <= i < j < |rows| ==> PairOf(rows[i]) != PairOf(rows[j])
  }

  /** A binding row with exactly the binding fields. */
  predicate IsBinding(r: Row) {
    Shaped(Entities[Bindings], r)
  }

  ghost predicate AllBindings(rows: seq<Row>) {
    forall i :: 0 <= i < |rows| ==> IsBinding(rows[i])
  }

  /** A matched binding refreshed: `status` always, `porta` only when a port is given. */
  function Refresh(r: Row, porta: Option<string>, status: string): Row {
    (if porta.Some? then r["porta" := porta.value] else r)["status" := status]
  }

  /** The binding appended for a pair that had none; without a port, `porta` is "". */
  function NewBinding(pair: (string, string), porta: Option<string>, status: string): Row {
    map["id_maquina" := pair.0, "id_switch" := pair.1, "status" := status,
        "porta" := if porta.Some? then porta.value else ""]
  }

  /** The upsert of both passes: refresh the first binding for the pair, or append one. */
  function Upsert(rows: seq<Row>, pair: (string, string), porta: Option<string>, status: string): seq<Row> {
    match FirstMatch(rows, pair)
    case Some(j) => rows[j := Refresh(rows[j], porta, status)]
    case None => rows + [NewBinding(pair, porta, status)]
  }

  /** A refreshed binding keeps its pair and carries the new status, and the new port when one is given. */
  lemma RefreshFields(r: Row, porta: Option<string>, status: string)
    ensures PairOf(Refresh(r, porta, status)) == PairOf(r)
    ensures Get(Refresh(r, porta, status), "status") == status
    ensures porta.Some? ==> Get(Refresh(r, porta, status), "porta") == porta.value
  {
  }

  /**
   * After the upsert the pair has a binding with the new status (and port, when one
   * was given); at most one row is added, only when the pair had none; every other
   * row is unchanged; no row changes its pair.
   */
  lemma UpsertSpec(rows: seq<Row>, pair: (string, string), porta: Option<string>, status: string)
    ensures var after := Upsert(rows, pair, porta, status);
      var j := FirstMatch(after, pair);
      && j.Some?
      && Get(after[j.value], "status") == status
      && (porta.Some? ==> Get(after[j.value], "porta") == porta.value)
      && |after| == |rows| + (if FirstMatch(rows, pair).None? then 1 else 0)
      && (forall k :: 0 <= k < |rows| ==> PairOf(after[k]) == PairOf(rows[k]))
      && (forall k :: 0 <= k < |rows| && Some(k) != FirstMatch(rows, pair) ==> after[k] == rows[k])
  {
    var after := Upsert(rows, pair, porta, status);
    match FirstMatch(rows, pair)
    case Some(j) =>
      RefreshFields(rows[j], porta, status);
      FirstMatchAt(after, pair, j);
    case None =>
      assert PairOf(NewBinding(pair, porta, status)) == pair;
      FirstMatchAt(after, pair, |rows|);
  }

  /**
   * What the passes rely on: the upsert appends one row exactly when the pair had no
   * binding, leaves every row's pair as it was, and keeps well-formed, duplicate-free
   * bindings so.
   */
  lemma UpsertKeeps(rows: seq<Row>, pair: (string, string), porta: Option<string>, status: string)
    ensures var after := Upsert(rows, pair, porta, status);
      && |after| == |rows| + (if FirstMatch(rows, pair).None? then 1 else 0)
      && (forall k :: 0 <= k < |rows| ==> PairOf(after[k]) == PairOf(rows[k]))
      && (AllBindings(rows) ==> AllBindings(after))
      && (UniquePairs(rows) ==> UniquePairs(after))
  {
    UpsertSpec(rows, pair, porta, status);
    if AllBindings(rows) {
      UpsertShaped(rows, pair, porta, status);
    }
    if UniquePairs(rows) {
      UpsertUnique(rows, pair, porta, status);
    }
  }

  /** A row for the pair with none before it is the first match. */
  lemma FirstMatchAt(rows: seq<Row>, pair: (string, string), j: nat)
    requires j < |rows| && PairOf(rows[j]) == pair
    requires forall k :: 0 <= k < j ==> PairOf(rows[k]) != pair
    ensures FirstMatch(rows, pair) == Some(j)
  {
  }

  /** The upsert never creates a second binding for a pair. */
  lemma UpsertUnique(rows: seq<Row>, pair: (string, string), porta: Option<string>, status: string)
    requires UniquePairs(rows)
    ensures UniquePairs(Upsert(rows, pair, porta, status))
  {
    var after := Upsert(rows, pair, porta, status);
    UpsertSpec(rows, pair, porta, status);
    if FirstMatch(rows, pair).None? {
      assert PairOf(after[|rows|]) == pair;
    }
  }

  /** Bindings keep exactly their fields through the upsert. */
  lemma UpsertShaped(rows: seq<Row>, pair: (string, string), porta: Option<string>, status: string)
    requires AllBindings(rows)
    ensures AllBindings(Upsert(rows, pair, porta, status))
  {
    match FirstMatch(rows, pair)
    case Some(j) =>
      assert IsBinding(Refresh(rows[j], porta, status));
    case None =>
      assert IsBinding(NewBinding(pair, porta, status));
  }

  /** Two binding lists with the same pairs up to the first one's end find a bound pair at the same row. */
  lemma SamePairsMatch(a: seq<Row>, b: seq<Row>, pair: (string, string))
    requires |a| <= |b| && forall k :: 0 <= k < |a| ==> PairOf(b[k]) == PairOf(a[k])
    requires FirstMatch(a, pair).Some? || |a| == |b|
    ensures FirstMatch(b, pair) == FirstMatch(a, pair)
  {
    match FirstMatch(a, pair)
    case Some(j) => FirstMatchAt(b, pair, j);
    case None =>
  }

  // ------------------------------------------------------------ runs of upserts

  /** One upsert of a pass: the pair, and the port and state it writes. */
  datatype Op = Op(pair: (string, string), porta: string, status: string)

  /** The upserts applied one after the other, each with a port. */
  function Upserts(rows: seq<Row>, ops: seq<Op>): seq<Row> {
    if ops == [] then rows
    else
      var o := ops[|ops| - 1];
      Upsert(Upserts(rows, ops[..|ops| - 1]), o.pair, Some(o.porta), o.status)
  }

  /** No later upsert of the run writes the same pair as upsert `j`. */
  predicate LastFor(ops: seq<Op>, j: nat)
    requires j < |ops|
  {
    forall k :: j < k < |ops| ==> ops[k].pair != ops[j].pair
  }

  /** The row already holds the upsert's port and state: writing them again changes nothing. */
  predicate Holds(r: Row, o: Op) {
    Refresh(r, Some(o.porta), o.status) == r
  }

  lemma RefreshTwice(r: Row, a: Op, b: Op)
    ensures Refresh(Refresh(r, Some(a.porta), a.status), Some(b.porta), b.status) == Refresh(r, Some(b.porta), b.status)
  {
  }

  /** A row holding an upsert's values reads back that port and state. */
  lemma HoldsFields(r: Row, o: Op)
    requires Holds(r, o)
    ensures Get(r, "porta") == o.porta && Get(r, "status") == o.status
  {
    RefreshFields(r, Some(o.porta), o.status);
  }

  /** A run of upserts only appends rows and never changes a row's pair. */
  lemma {:induction false} UpsertsKeep(rows: seq<Row>, ops: seq<Op>)
    ensures var after := Upserts(rows, ops);
      |after| >= |rows| && forall k :: 0 <= k < |rows| ==> PairOf(after[k]) == PairOf(rows[k])
  {
    if ops != [] {
      var o := ops[|ops| - 1];
      UpsertsKeep(rows, ops[..|ops| - 1]);
      UpsertKeeps(Upserts(rows, ops[..|ops| - 1]), o.pair, Some(o.porta), o.status);
    }
  }

  /** The row an upsert writes holds its values, and is the pair's first binding. */
  lemma UpsertHolds(rows: seq<Row>, o: Op)
    ensures var after := Upsert(rows, o.pair, Some(o.porta), o.status);
      var m := FirstMatch(after, o.pair);
      m.Some? && Holds(after[m.value], o)
  {
    var after := Upsert(rows, o.pair, Some(o.porta), o.status);
    UpsertSpec(rows, o.pair, Some(o.porta), o.status);
    match FirstMatch(rows, o.pair)
    case Some(i) =>
      SamePairsMatch(rows, after, o.pair);
      RefreshTwice(rows[i], o, o);
    case None =>
      FirstMatchAt(after, o.pair, |rows|);
      assert Holds(NewBinding(o.pair, Some(o.porta), o.status), o);
  }

  /**
   * After a run of upserts every pair it wrote has a binding, and the first binding
   * of a pair holds the values of the pair's last upsert.
   */
  lemma {:induction false} UpsertsSettle(rows: seq<Row>, ops: seq<Op>, j: nat)
    requires j < |ops|
    ensures var after := Upserts(rows, ops);
      var m := FirstMatch(after, ops[j].pair);
      m.Some? && (LastFor(ops, j) ==> Holds(after[m.value], ops[j]))
  {
    var n := |ops| - 1;
    var init := ops[..n];
    var o := ops[n];
    var y := Upserts(rows, init);
    assert Upserts(rows, ops) == Upsert(y, o.pair, Some(o.porta), o.status);
    if j == n {
      UpsertHolds(y, o);
    } else {
      assert ops[j] == init[j];
      UpsertsSettle(rows, init, j);
      if LastFor(ops, j) {
        assert LastFor(init, j) by {
          forall k | j < k < |init| ensures init[k].pair != init[j].pair {
            assert init[k] == ops[k];
          }
        }
      }
      SettleKept(y, o, ops[j], LastFor(ops, j));
    }
  }

  /** An upsert of another pair keeps a settled pair's first binding as it was. */
  lemma SettleKept(y: seq<Row>, o: Op, p: Op, last: bool)
    requires FirstMatch(y, p.pair).Some?
    requires last ==> o.pair != p.pair && Holds(y[FirstMatch(y, p.pair).value], p)
    ensures var after := Upsert(y, o.pair, Some(o.porta), o.status);
      var m := FirstMatch(after, p.pair);
      m.Some? && (last ==> Holds(after[m.value], p))
  {
    var after := Upsert(y, o.pair, Some(o.porta), o.status);
    UpsertKeeps(y, o.pair, Some(o.porta), o.status);
    SamePairsMatch(y, after, p.pair);
    if last {
      UpsertSpec(y, o.pair, Some(o.porta), o.status);
    }
  }

  /** Row `k` is `v` because the last upsert of some pair whose first binding is `k` wrote into it. */
  ghost predicate WrittenBy(rows: seq<Row>, ops: seq<Op>, k: nat, v: Row)
    requires k < |rows|
  {
    exists j :: 0 <= j < |ops| && LastFor(ops, j) && FirstMatch(rows, ops[j].pair) == Some(k)
                && v == Refresh(rows[k], Some(ops[j].porta), ops[j].status)
  }

  /** The last upsert of a run over bound rows writes into its pair's first binding. */
  lemma OnBoundHit(rows: seq<Row>, ops: seq<Op>, y: seq<Row>, q: nat)
    requires ops != [] && q < |rows| == |y| && FirstMatch(rows, ops[|ops| - 1].pair) == Some(q)
    requires y[q] == rows[q] || WrittenBy(rows, ops[..|ops| - 1], q, y[q])
    ensures WrittenBy(rows, ops, q, Refresh(y[q], Some(ops[|ops| - 1].porta), ops[|ops| - 1].status))
  {
    var n := |ops| - 1;
    var o := ops[n];
    if y[q] != rows[q] {
      var init := ops[..n];
      var j :| 0 <= j < |init| && LastFor(init, j) && FirstMatch(rows, init[j].pair) == Some(q)
               && y[q] == Refresh(rows[q], Some(init[j].porta), init[j].status);
      RefreshTwice(rows[q], init[j], o);
    }
    assert LastFor(ops, n);
  }

  /** A row written by an earlier upsert stays written by it when the last upsert goes elsewhere. */
  lemma OnBoundMiss(rows: seq<Row>, ops: seq<Op>, k: nat, v: Row)
    requires ops != [] && k < |rows| && FirstMatch(rows, ops[|ops| - 1].pair) != Some(k)
    requires WrittenBy(rows, ops[..|ops| - 1], k, v)
    ensures WrittenBy(rows, ops, k, v)
  {
    var n := |ops| - 1;
    var init := ops[..n];
    var j :| 0 <= j < |init| && LastFor(init, j) && FirstMatch(rows, init[j].pair) == Some(k)
             && v == Refresh(rows[k], Some(init[j].porta), init[j].status);
    assert ops[j] == init[j];
    assert FirstMatch(rows, ops[j].pair) == Some(k);
    LastForExtend(ops, j);
  }

  /** An upsert that is last for its pair stays so when one more upsert of another pair follows. */
  lemma LastForExtend(ops: seq<Op>, j: nat)
    requires j < |ops| - 1 && LastFor(ops[..|ops| - 1], j) && ops[|ops| - 1].pair != ops[j].pair
    ensures LastFor(ops, j)
  {
    var n := |ops| - 1;
    forall i | j < i < |ops| ensures ops[i].pair != ops[j].pair {
      if i < n {
        assert ops[..n][i] == ops[i] && ops[..n][j] == ops[j];
      }
    }
  }

  /**
   * A run of upserts over rows that already bind every pair it writes adds no row,
   * keeps every pair, and changes a row only by writing into the first binding of a
   * pair the values of that pair's last upsert.
   */
  lemma {:induction false} UpsertsOnBound(rows: seq<Row>, ops: seq<Op>)
    requires forall j :: 0 <= j < |ops| ==> FirstMatch(rows, ops[j].pair).Some?
    ensures var after := Upserts(rows, ops);
      && |after| == |rows|
      && (forall k :: 0 <= k < |rows| ==> PairOf(after[k]) == PairOf(rows[k]))
      && forall k :: 0 <= k < |rows| ==> after[k] == rows[k] || WrittenBy(rows, ops, k, after[k])
  {
    if ops != [] {
      var n := |ops| - 1;
      var init := ops[..n];
      var o := ops[n];
      assert forall j :: 0 <= j < n ==> init[j] == ops[j];
      UpsertsOnBound(rows, init);
      var y := Upserts(rows, init);
      var after := Upserts(rows, ops);
      assert after == Upsert(y, o.pair, Some(o.porta), o.status);
      SamePairsMatch(rows, y, o.pair);
      var q := FirstMatch(rows, o.pair).value;
      assert after == y[q := Refresh(y[q], Some(o.porta), o.status)];
      RefreshFields(y[q], Some(o.porta), o.status);
      forall k | 0 <= k < |rows| ensures after[k] == rows[k] || WrittenBy(rows, ops, k, after[k]) {
        if k == q {
          OnBoundHit(rows, ops, y, q);
        } else if y[k] != rows[k] {
          OnBoundMiss(rows, ops, k, y[k]);
        }
      }
    }
  }

  /** Running the same upserts a second time changes nothing. */
  lemma UpsertsIdempotent(rows: seq<Row>, ops: seq<Op>)
    ensures Upserts(Upserts(rows, ops), ops) == Upserts(rows, ops)
  {
    var d := Upserts(rows, ops);
    forall j | 0 <= j < |ops| ensures FirstMatch(d, ops[j].pair).Some? {
      UpsertsSettle(rows, ops, j);
    }
    UpsertsOnBound(d, ops);
    var e := Upserts(d, ops);
    forall k | 0 <= k < |d| ensures e[k] == d[k] {
      if e[k] != d[k] {
        assert WrittenBy(d, ops, k, e[k]);
        var j :| 0 <= j < |ops| && LastFor(ops, j) && FirstMatch(d, ops[j].pair) == Some(k)
                 && e[k] == Refresh(d[k], Some(ops[j].porta), ops[j].status);
        UpsertsSettle(rows, ops, j);
      }
    }
  }

  /** The scan `for r in conex: if pair matches: ...; break` and the append when none matched. */
  method UpsertBinding(rows: seq<Row>, pair: (string, string), porta: Option<string>, status: string)
    returns (after: seq<Row>, matched: bool)
    ensures after == Upsert(rows, pair, porta, status)
    ensures matched <==> FirstMatch(rows, pair).Some?
  {
    var i := 0;
    while i < |rows|
      invariant 0 <= i <= |rows|
      invariant forall j :: 0 <= j < i ==> PairOf(rows[j]) != pair
    {
      if Get(rows[i], "id_maquina") == pair.0 && Get(rows[i], "id_switch") == pair.1 {
        assert FirstMatch(rows, pair) == Some(i);
        return rows[i := Refresh(rows[i], porta, status)], true;
      }
      i := i + 1;
    }
    after, matched := rows + [NewBinding(pair, porta, status)], false;
  }
}

/**
 * The tabular record store (app/storage.py): one table of rows per entity.
 * Each entity has a fixed list of fields; every stored row carries exactly those
 * fields, as text. The CSV files become an in-memory map from entity name to rows.
 */
module Storage {
  import opened Common
  import opened Text

  /** A stored row: field name to text, as `csv.DictReader` yields it. */
  type Row = map<string, string>

  /** A value handed to the store before normalisation (Python `None`, `str`, `int`, `bool`). */
  datatype Value = Null | Str(s: string) | Number(n: int) | Flag(b: bool)

  /** A row before normalisation: the dict a caller passes to `save_all` or `append`. */
  type Record = map<string, Value>

  const Rooms := "salas"
  const Switches := "switches"
  const Machines := "maquinas"
  const RoomSwitchLinks := "ligacao_sala_switch"
  const Schedules := "agendamento_sala_switch"
  const Bindings := "maquinas_conectadas_switch"
  const Snapshots := "status_portas"

  /** `ENTITIES`: each entity's fields, in column order. */
  const Entities: map<string, seq<string>> := map[
    Rooms := ["id_sala", "numero", "bloco", "numero_pcs"],
    Switches := ["id_switch", "numero_portas", "ip", "mac", "versao_snmp", "porta_uplink",
                 "chave_community", "protocolo_autenticacao", "protocolo_criptografia",
                 "chave_autenticacao", "chave_privada", "nivel_seguranca"],
    Machines := ["id_maquina", "nome", "ip", "tipo_maquina", "id_sala", "mac", "access_allowed"],
    RoomSwitchLinks := ["id_sala", "id_switch"],
    Schedules := ["uid", "id_sala", "id_switch", "mac", "id_maquina", "data_inicio", "data_fim"],
    Bindings := ["id_maquina", "id_switch", "status", "porta"],
    Snapshots := ["id_switch", "switch_ip", "port", "operational", "administrative", "mac",
                  "bridge_mac", "access_allowed"]
  ]

  datatype StoreError = UnknownEntity(name: string)

  /** The field list of an entity; an unknown name is an error before any read or write. */
  function FieldsOf(entity: string): (r: Result<seq<string>, StoreError>)
    ensures r.Err? <==> entity !in Entities
    ensures r.Ok? ==> r.value == Entities[entity]
  {
    if entity in Entities then Ok(Entities[entity]) else Err(UnknownEntity(entity))
  }

  function FieldSet(fields: seq<string>): set<string> {
    set k | k in fields
  }

  /** A row that has exactly the given fields. */
  predicate Shaped(fields: seq<string>, row: Row) {
    row.Keys == FieldSet(fields)
  }

  /** `str(b)` for a Python boolean. */
  function BoolText(b: bool): string {
    if b then "True" else "False"
  }

  /** `str(v)`, with `None` written as the empty text. */
  function Render(v: Value): string {
    match v
    case Null => ""
    case Str(s) => s
    case Number(n) => IntToString(n)
    case Flag(b) => BoolText(b)
  }

  /** `{k: str(r.get(k)) if r.get(k) is not None else "" for k in fields}`. */
  function NormalizeRow(fields: seq<string>, r: Record): Row {
    map k | k in fields :: if k in r then Render(r[k]) else ""
  }

  function NormalizeRows(fields: seq<string>, rows: seq<Record>): seq<Row> {
    seq(|rows|, i requires 0 <= i < |rows| => NormalizeRow(fields, rows[i]))
  }

  /** A stored row handed back to the store unchanged: every value is text. */
  function Lift(row: Row): Record {
    map k | k in row :: Str(row[k])
  }

  function LiftRows(rows: seq<Row>): seq<Record> {
    seq(|rows|, i requires 0 <= i < |rows| => Lift(rows[i]))
  }

  /**
   * Each normalised row has exactly the entity's fields; a field absent from the
   * record or `None` becomes "", every other value its `str()`, extra keys are dropped.
   */
  lemma NormalizeRowShape(fields: seq<string>, r: Record)
    ensures Shaped(fields, NormalizeRow(fields, r))
    ensures forall k :: k in fields && k in r ==> NormalizeRow(fields, r)[k] == Render(r[k])
    ensures forall k :: k in fields && k !in r ==> NormalizeRow(fields, r)[k] == ""
    ensures forall k :: k in r && r[k] == Null && k in fields ==> NormalizeRow(fields, r)[k] == ""
  {
  }

  /** Normalising a row that already has exactly the fields gives it back. */
  lemma NormalizeShaped(fields: seq<string>, row: Row)
    requires Shaped(fields, row)
    ensures NormalizeRow(fields, Lift(row)) == row
  {
    assert forall k :: k in row <==> k in fields;
  }

  lemma NormalizeShapedRows(fields: seq<string>, rows: seq<Row>)
    requires forall i :: 0 <= i < |rows| ==> Shaped(fields, rows[i])
    ensures NormalizeRows(fields, LiftRows(rows)) == rows
  {
    forall i | 0 <= i < |rows| ensures NormalizeRows(fields, LiftRows(rows))[i] == rows[i] {
      NormalizeShaped(fields, rows[i]);
    }
  }

  /** Normalisation is idempotent: saving what was saved writes the same rows again. */
  lemma NormalizeIdempotent(fields: seq<string>, rows: seq<Record>)
    ensures NormalizeRows(fields, LiftRows(NormalizeRows(fields, rows))) == NormalizeRows(fields, rows)
  {
    var once := NormalizeRows(fields, rows);
    forall i | 0 <= i < |once| ensures Shaped(fields, once[i]) {
      NormalizeRowShape(fields, rows[i]);
    }
    NormalizeShapedRows(fields, once);
  }

  /** `int(r.get(id_field) or 0)`: a missing or empty id counts as 0; `None` where `int` raises. */
  function IdValue(r: Row, idField: string): Option<int> {
    if idField !in r || r[idField] == "" then Some(0) else ParseDecimal(r[idField])
  }

  /** `n` is one more than the largest present id, and at least 1. */
  ghost predicate IsNextId(ids: seq<Option<int>>, n: int) {
    && n >= 1
    && (forall i :: 0 <= i < |ids| && ids[i].Some? ==> ids[i].value < n)
    && (n == 1 || exists i :: 0 <= i < |ids| && ids[i] == Some(n - 1))
  }

  /** The next id is determined by the ids: two values that both qualify are equal. */
  lemma NextIdUnique(ids: seq<Option<int>>, n: int, m: int)
    requires IsNextId(ids, n) && IsNextId(ids, m)
    ensures n == m
  {
  }

  /** One more than the largest present value, and at least 1. */
  function MaxPlusOneOf(ids: seq<Option<int>>): (n: int)
    ensures IsNextId(ids, n)
  {
    if ids == [] then 1
    else
      var init := ids[..|ids| - 1];
      var before := MaxPlusOneOf(init);
      var id := ids[|ids| - 1];
      assert forall i :: 0 <= i < |init| ==> ids[i] == init[i];
      if id.Some? && id.value + 1 > before then id.value + 1 else before
  }

  /** The id `next_id` hands out for the rows. */
  function NextIdFrom(rows: seq<Row>, idField: string): (n: int)
    ensures IsNextId(IdValues(rows, idField), n)
  {
    MaxPlusOneOf(IdValues(rows, idField))
  }

  /** The ids of the rows, as `next_id` reads them. */
  function IdValues(rows: seq<Row>, idField: string): (ids: seq<Option<int>>)
    ensures |ids| == |rows| && forall i :: 0 <= i < |rows| ==> ids[i] == IdValue(rows[i], idField)
  {
    seq(|rows|, i requires 0 <= i < |rows| => IdValue(rows[i], idField))
  }

  /** The loop of `next_id` over already-loaded rows: the largest parsable id plus one. */
  method NextIdOf(rows: seq<Row>, idField: string) returns (next: int)
    ensures next >= 1
    ensures forall i :: 0 <= i < |rows| && IdValue(rows[i], idField).Some? ==> IdValue(rows[i], idField).value < next
    ensures next == 1 || exists i :: 0 <= i < |rows| && IdValue(rows[i], idField) == Some(next - 1)
    ensures next == NextIdFrom(rows, idField)
  {
    var ids := IdValues(rows, idField);
    next := MaxPlusOne(ids);
    NextIdUnique(ids, next, NextIdFrom(rows, idField));
  }

  /** One more than the largest present value (values below 0 count as 0). */
  method MaxPlusOne(ids: seq<Option<int>>) returns (next: int)
    ensures next >= 1
    ensures forall i :: 0 <= i < |ids| && ids[i].Some? ==> ids[i].value < next
    ensures next == 1 || exists i :: 0 <= i < |ids| && ids[i] == Some(next - 1)
  {
    var maxId := 0;
    var i := 0;
    while i < |ids|
      invariant 0 <= i <= |ids| && maxId >= 0
      invariant forall j :: 0 <= j < i && ids[j].Some? ==> ids[j].value <= maxId
      invariant maxId == 0 || exists j :: 0 <= j < i && ids[j] == Some(maxId)
    {
      var v := ids[i];
      if v.Some? && v.value > maxId {
        maxId := v.value;
      }
      i := i + 1;
    }
    next := maxId + 1;
  }

  /** An entity's rows in a set of persisted tables; a never-written entity has none. */
  function TableIn(tables: map<string, seq<Row>>, entity: string): seq<Row> {
    if entity in tables then tables[entity] else []
  }

  /** The persisted tables, one sequence of rows per entity that has been touched. */
  class RecordStore {
    var tables: map<string, seq<Row>>

    /** Only known entities have tables, and every stored row has exactly its entity's fields. */
    ghost predicate Valid()
      reads this
    {
      forall e | e in tables :: e in Entities && forall i | 0 <= i < |tables[e]| :: Shaped(Entities[e], tables[e][i])
    }

    constructor ()
      ensures Valid() && tables == map[]
    {
      tables := map[];
    }

    /** The rows of an entity; a never-written entity has none. */
    function Table(entity: string): seq<Row>
      reads this
    {
      TableIn(tables, entity)
    }

    /**
     * `load_all`: the entity's rows. A never-written entity reads as empty; the file
     * created for it then holds only its header, so the rows stay as they were.
     */
    method LoadAll(entity: string) returns (r: Result<seq<Row>, StoreError>)
      ensures entity !in Entities ==> r == Err(UnknownEntity(entity))
      ensures entity in Entities ==> r == Ok(Table(entity))
      ensures Valid() && r.Ok? ==> forall i :: 0 <= i < |r.value| ==> Shaped(Entities[entity], r.value[i])
    {
      if entity !in Entities {
        return Err(UnknownEntity(entity));
      }
      r := Ok(Table(entity));
    }

    /** `save_all`: replaces the entity's whole table with the normalised rows. */
    method SaveAll(entity: string, rows: seq<Record>) returns (r: Result<(), StoreError>)
      requires Valid()
      modifies this
      ensures Valid()
      ensures entity !in Entities ==> r == Err(UnknownEntity(entity)) && tables == old(tables)
      ensures entity in Entities ==> r == Ok(()) && tables == old(tables)[entity := NormalizeRows(Entities[entity], rows)]
    {
      var fields := FieldsOf(entity);
      if fields.Err? {
        return Err(fields.error);
      }
      var stored := NormalizeRows(fields.value, rows);
      forall i | 0 <= i < |stored| ensures Shaped(fields.value, stored[i]) {
        NormalizeRowShape(fields.value, rows[i]);
      }
      tables := tables[entity := stored];
      r := Ok(());
    }

    /** `append`: adds one normalised row at the end, leaving the existing rows as they were. */
    method Append(entity: string, record: Record) returns (r: Result<(), StoreError>)
      requires Valid()
      modifies this
      ensures Valid()
      ensures entity !in Entities ==> r == Err(UnknownEntity(entity)) && tables == old(tables)
      ensures entity in Entities ==>
                r == Ok(()) && tables == old(tables)[entity := old(Table(entity)) + [NormalizeRow(Entities[entity], record)]]
    {
      var fields := FieldsOf(entity);
      if fields.Err? {
        return Err(fields.error);
      }
      NormalizeRowShape(fields.value, record);
      tables := tables[entity := Table(entity) + [NormalizeRow(fields.value, record)]];
      r := Ok(());
    }

    /** `next_id`: one more than the largest parsable id of the persisted rows. */
    method NextId(entity: string, idField: string) returns (r: Result<int, StoreError>)
      ensures entity !in Entities ==> r == Err(UnknownEntity(entity))
      ensures entity in Entities ==> r == Ok(NextIdFrom(Table(entity), idField))
    {
      var rows := LoadAll(entity);
      if rows.Err? {
        return Err(rows.error);
      }
      var next := NextIdOf(rows.value, idField);
      r := Ok(next);
    }
  }
}

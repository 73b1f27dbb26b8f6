/** Exporting a user's data, and replacing it with an archive's. */
module Backups {
  import opened Wrappers

  // --- values, and how they are written to the archive -----------------------------------

  datatype Json =
    | JNull | JBool(flag: bool) | JInt(n: int) | JReal(r: real) | JText(text: string)
    | JList(items: seq<Json>) | JDict(fields: map<string, Json>)

  /** A stored value. Amounts, times and dates are exact; `Native` values are
      those that JSON has itself. */
  datatype Value = Null | Uuid(id: nat) | Decimal(units: int) | DateTime(instant: int) | Date(day: int) | Native(json: Json)

  /** A column's type; `target` is the backed-up table a foreign key refers to. */
  datatype ColumnType = UuidColumn(target: Option<nat>) | DecimalColumn | DateTimeColumn | DateColumn | NativeColumn

  /** How scalars become text and are read back. */
  datatype Codec = Codec(
    uuidText: nat -> string, uuidOf: string -> Option<nat>,
    decimalText: int -> string, decimalOf: string -> Option<int>,
    dateTimeText: int -> string, dateTimeOf: string -> Option<int>,
    dateText: int -> string, dateOf: string -> Option<int>)

  /** Reading back what was written gives the scalar again. */
  ghost predicate Faithful(codec: Codec) {
    && (forall n: nat :: codec.uuidOf(codec.uuidText(n)) == Some(n))
    && (forall n :: codec.decimalOf(codec.decimalText(n)) == Some(n))
    && (forall n :: codec.dateTimeOf(codec.dateTimeText(n)) == Some(n))
    && (forall n :: codec.dateOf(codec.dateText(n)) == Some(n))
  }

  predicate Fits(columnType: ColumnType, v: Value) {
    match v
    case Null => true
    case Uuid(_) => columnType.UuidColumn?
    case Decimal(_) => columnType.DecimalColumn?
    case DateTime(_) => columnType.DateTimeColumn?
    case Date(_) => columnType.DateColumn?
    case Native(json) => columnType.NativeColumn? && json != JNull
  }

  function Serialized(codec: Codec, v: Value): Json {
    match v
    case Null => JNull
    case Uuid(id) => JText(codec.uuidText(id))
    case Decimal(units) => JText(codec.decimalText(units))
    case DateTime(instant) => JText(codec.dateTimeText(instant))
    case Date(day) => JText(codec.dateText(day))
    case Native(json) => json
  }

  /** None where the archive's value has the wrong form. */
  function Deserialized(codec: Codec, columnType: ColumnType, json: Json): Option<Value> {
    if json == JNull then Some(Null)
    else if columnType.NativeColumn? then Some(Native(json))
    else if !json.JText? then None
    else
      match columnType
      case UuidColumn(_) =>
        var v := codec.uuidOf(json.text);
        if v.Some? then Some(Uuid(v.value)) else None
      case DecimalColumn =>
        var v := codec.decimalOf(json.text);
        if v.Some? then Some(Decimal(v.value)) else None
      case DateTimeColumn =>
        var v := codec.dateTimeOf(json.text);
        if v.Some? then Some(DateTime(v.value)) else None
      case DateColumn =>
        var v := codec.dateOf(json.text);
        if v.Some? then Some(Date(v.value)) else None
      case NativeColumn => Some(Native(json))
  }

  lemma ValueRoundTrip(codec: Codec, columnType: ColumnType, v: Value)
    requires Faithful(codec) && Fits(columnType, v)
    ensures Deserialized(codec, columnType, Serialized(codec, v)) == Some(v)
  {
  }

  // --- tables --------------------------------------------------------------------------------

  type Row = map<string, Value>
  type JsonRow = map<string, Json>
  type Table = map<nat, Row>
  type Dataset = seq<Table>
  type IdMap = map<nat, nat>

  datatype TableDef = TableDef(name: string, version: int, columns: map<string, ColumnType>)

  /** The backed-up tables, in dependency order, with where categories and
      their groups are; the preference fields, and the obsolete ones that an
      archive may still carry; and what the database checks of a table, besides
      its references, and of the user's preferences. */
  datatype Config = Config(
    codec: Codec, tables: seq<TableDef>, categories: nat, groups: nat,
    preferences: set<string>, obsolete: set<string>,
    accepts: (nat, Table) -> bool, acceptsPreferences: map<string, Json> -> bool)

  ghost predicate Sound(config: Config) {
    && Faithful(config.codec)
    && config.categories < |config.tables| && config.groups < |config.tables|
    && (forall t | 0 <= t < |config.tables| :: TableSound(config.tables[t], t))
    && (forall t, u | 0 <= t < u < |config.tables| :: config.tables[t].name != config.tables[u].name)
    && CategoryColumns(config)
  }

  ghost predicate TableSound(def: TableDef, t: nat) {
    && "id" in def.columns && def.columns["id"] == UuidColumn(None)
    && forall c | c in def.columns :: InOrder(def.columns[c], t)
  }

  /** A foreign key refers to an earlier table, or to its own. */
  predicate InOrder(columnType: ColumnType, t: nat) {
    columnType.UuidColumn? && columnType.target.Some? ==> columnType.target.value <= t
  }

  ghost predicate CategoryColumns(config: Config)
    requires config.categories < |config.tables| && config.groups < |config.tables|
  {
    var columns := config.tables[config.categories].columns;
    && "color" in columns && columns["color"] == NativeColumn
    && "updated_at" in columns && columns["updated_at"] == DateTimeColumn
    && "group_id" in columns && columns["group_id"] == UuidColumn(Some(config.groups))
    && "color" in config.tables[config.groups].columns
    && config.tables[config.groups].columns["color"] == NativeColumn
    && config.categories != config.groups
  }

  /** A row of table `t` as the database keeps it: filed under its id, every
      column of the right type. */
  ghost predicate RowFits(config: Config, t: nat, id: nat, row: Row)
    requires t < |config.tables|
  {
    && row.Keys == config.tables[t].columns.Keys
    && "id" in row && row["id"] == Uuid(id)
    && forall c | c in row :: Fits(config.tables[t].columns[c], row[c])
  }

  /** Every reference of the row is to a row of the dataset. */
  predicate RowClosed(config: Config, t: nat, row: Row, data: Dataset)
    requires t < |config.tables|
  {
    forall c | c in row && c in config.tables[t].columns && row[c].Uuid? ::
      var columnType := config.tables[t].columns[c];
      columnType.UuidColumn? && columnType.target.Some? ==>
        columnType.target.value < |data| && row[c].id in data[columnType.target.value]
  }

  predicate TableClosed(config: Config, t: nat, table: Table, data: Dataset)
    requires t < |config.tables|
  {
    forall id | id in table :: RowClosed(config, t, table[id], data)
  }

  ghost predicate DataFits(config: Config, data: Dataset) {
    && |data| == |config.tables|
    && forall t, id | 0 <= t < |data| && id in data[t] :: RowFits(config, t, id, data[t][id])
  }

  /** No dangling reference anywhere. */
  ghost predicate DataClosed(config: Config, data: Dataset) {
    && |data| == |config.tables|
    && forall t | 0 <= t < |data| :: TableClosed(config, t, data[t], data)
  }

  // --- export ----------------------------------------------------------------------------------

  function SerializedRow(codec: Codec, row: Row): JsonRow {
    map c | c in row :: Serialized(codec, row[c])
  }

  /** `ids` lists the keys of the table, smallest first. */
  ghost predicate Lists(ids: seq<nat>, table: Table) {
    && (forall i, j | 0 <= i < j < |ids| :: ids[i] < ids[j])
    && (forall id :: id in ids <==> id in table)
  }

  ghost predicate ExportsTable(codec: Codec, table: Table, rows: seq<JsonRow>, ids: seq<nat>) {
    && Lists(ids, table) && |rows| == |ids|
    && forall i | 0 <= i < |ids| :: ids[i] in table && rows[i] == SerializedRow(codec, table[ids[i]])
  }

  predicate Least(id: nat, s: set<nat>) {
    id in s && forall n | n in s :: id <= n
  }

  lemma {:induction false} LeastExists(s: set<nat>) returns (least: nat)
    requires s != {}
    ensures Least(least, s)
  {
    var x :| x in s;
    if s == {x} {
      least := x;
    } else {
      var next := LeastExists(s - {x});
      least := if x < next then x else next;
      assert forall n | n in s :: n == x || n in s - {x};
    }
  }

  /** The rows taken so far: those not in `left`, and all smaller than it. */
  ghost predicate Exporting(codec: Codec, table: Table, rows: seq<JsonRow>, ids: seq<nat>, left: set<nat>) {
    && left <= table.Keys && |rows| == |ids|
    && (forall id :: id in ids <==> id in table && id !in left)
    && (forall i, j | 0 <= i < j < |ids| :: ids[i] < ids[j])
    && (forall i, n | 0 <= i < |ids| && n in left :: ids[i] < n)
    && (forall i | 0 <= i < |ids| :: ids[i] in table && rows[i] == SerializedRow(codec, table[ids[i]]))
  }

  lemma ExportsNext(codec: Codec, table: Table, rows: seq<JsonRow>, ids: seq<nat>, left: set<nat>, id: nat)
    requires Exporting(codec, table, rows, ids, left) && Least(id, left)
    ensures Exporting(codec, table, rows + [SerializedRow(codec, table[id])], ids + [id], left - {id})
  {
    hide SerializedRow;
    var more := ids + [id];
    forall other ensures other in more <==> other in table && other !in left - {id} {
    }
  }

  lemma ExportStartsAndEnds(codec: Codec, table: Table)
    ensures Exporting(codec, table, [], [], table.Keys)
    ensures forall rows, ids :: Exporting(codec, table, rows, ids, {}) ==> ExportsTable(codec, table, rows, ids)
  {
  }

  method ExportTable(codec: Codec, table: Table) returns (rows: seq<JsonRow>)
    ensures exists ids :: ExportsTable(codec, table, rows, ids)
  {
    hide Exporting, ExportsTable, SerializedRow, Least;
    rows := [];
    ghost var ids: seq<nat> := [];
    var left := table.Keys;
    ExportStartsAndEnds(codec, table);
    while left != {}
      invariant left <= table.Keys && Exporting(codec, table, rows, ids, left)
    {
      ghost var least := LeastExists(left);
      var id :| id in left && Least(id, left);
      ExportsNext(codec, table, rows, ids, left, id);
      rows, ids := rows + [SerializedRow(codec, table[id])], ids + [id];
      left := left - {id};
    }
    assert ExportsTable(codec, table, rows, ids);
  }

  /** The rows of every table, and which row of the table each one is. */
  ghost predicate ExportsData(config: Config, data: Dataset, rows: seq<seq<JsonRow>>, ids: seq<seq<nat>>) {
    && |rows| == |ids| == |data|
    && forall t | 0 <= t < |data| :: ExportsTable(config.codec, data[t], rows[t], ids[t])
  }

  // --- the payload ------------------------------------------------------------------------------

  /** Python's `==` between a decoded number and an integer. */
  predicate IsNumber(json: Json, n: int) {
    || json == JInt(n) || json == JReal(n as real)
    || (json == JBool(true) && n == 1) || (json == JBool(false) && n == 0)
  }

  /** A table's block: its version, and rows with exactly the table's columns. */
  predicate BlockOk(def: TableDef, block: Json) {
    && block.JDict? && "version" in block.fields && IsNumber(block.fields["version"], def.version)
    && "rows" in block.fields && block.fields["rows"].JList?
    && forall i | 0 <= i < |block.fields["rows"].items| ::
        var raw := block.fields["rows"].items[i];
        raw.JDict? && raw.fields.Keys == def.columns.Keys
  }

  function BlockRows(def: TableDef, block: Json): seq<JsonRow>
    requires BlockOk(def, block)
  {
    var items := block.fields["rows"].items;
    seq(|items|, i requires 0 <= i < |items| => items[i].fields)
  }

  predicate HeaderOk(config: Config, payload: Json) {
    && payload.JDict?
    && "app_version" in payload.fields && payload.fields["app_version"].JText?
    && "exported_at" in payload.fields && payload.fields["exported_at"].JText?
    && config.codec.dateTimeOf(payload.fields["exported_at"].text).Some?
    && "preferences" in payload.fields && payload.fields["preferences"].JDict?
    && config.preferences <= payload.fields["preferences"].fields.Keys <= config.preferences + config.obsolete
    && "omissions" in payload.fields && payload.fields["omissions"].JList?
    && forall i | 0 <= i < |payload.fields["omissions"].items| :: payload.fields["omissions"].items[i].JText?
  }

  function Names(config: Config): set<string> {
    set t | 0 <= t < |config.tables| :: config.tables[t].name
  }

  predicate PayloadOk(config: Config, payload: Json) {
    && HeaderOk(config, payload)
    && "data" in payload.fields && payload.fields["data"].JDict?
    && payload.fields["data"].fields.Keys == Names(config)
    && forall t | 0 <= t < |config.tables| ::
        && config.tables[t].name in payload.fields["data"].fields
        && BlockOk(config.tables[t], payload.fields["data"].fields[config.tables[t].name])
  }

  /** The rows of each table of a valid payload. */
  function PayloadRows(config: Config, payload: Json): seq<seq<JsonRow>>
    requires PayloadOk(config, payload)
  {
    seq(|config.tables|, t requires 0 <= t < |config.tables| =>
      BlockRows(config.tables[t], payload.fields["data"].fields[config.tables[t].name]))
  }

  /** The preference fields of a valid payload. */
  function PayloadPreferences(config: Config, payload: Json): map<string, Json>
    requires HeaderOk(config, payload)
  {
    map p | p in config.preferences :: payload.fields["preferences"].fields[p]
  }

  function AsDicts(rows: seq<JsonRow>): seq<Json> {
    seq(|rows|, i requires 0 <= i < |rows| => JDict(rows[i]))
  }

  /** An archive of `data` and `preferences`: valid, and read back row for row;
      `ids` says which row of its table each exported row is. */
  ghost predicate Archives(config: Config, data: Dataset, preferences: map<string, Json>, payload: Json, ids: seq<seq<nat>>) {
    && PayloadOk(config, payload)
    && ExportsData(config, data, PayloadRows(config, payload), ids)
    && PayloadPreferences(config, payload) == preferences
  }

  ghost predicate BlockHolds(def: TableDef, block: Json, rows: seq<JsonRow>) {
    BlockOk(def, block) && BlockRows(def, block) == rows
  }

  lemma BlockReadsBack(def: TableDef, rows: seq<JsonRow>)
    requires forall i | 0 <= i < |rows| :: rows[i].Keys == def.columns.Keys
    ensures BlockHolds(def, JDict(map["version" := JInt(def.version), "rows" := JList(AsDicts(rows))]), rows)
  {
    var block := JDict(map["version" := JInt(def.version), "rows" := JList(AsDicts(rows))]);
    assert BlockOk(def, block);
    assert |BlockRows(def, block)| == |rows|;
  }

  lemma ExportedColumns(config: Config, data: Dataset, t: nat, rows: seq<JsonRow>, ids: seq<nat>)
    requires DataFits(config, data) && t < |data|
    requires ExportsTable(config.codec, data[t], rows, ids)
    ensures forall i | 0 <= i < |rows| :: rows[i].Keys == config.tables[t].columns.Keys
  {
    forall i | 0 <= i < |rows| ensures rows[i].Keys == config.tables[t].columns.Keys {
      assert RowFits(config, t, ids[i], data[t][ids[i]]);
    }
  }

  /** The blocks of the first `n` tables, filed by name, hold `rows`. */
  ghost predicate Blocks(config: Config, n: nat, blocks: map<string, Json>, rows: seq<seq<JsonRow>>) {
    && n <= |config.tables| && |rows| == n
    && (forall name :: name in blocks <==> exists u :: 0 <= u < n && config.tables[u].name == name)
    && (forall u | 0 <= u < n :: config.tables[u].name in blocks && BlockHolds(config.tables[u], blocks[config.tables[u].name], rows[u]))
  }

  lemma NoBlocks(config: Config)
    ensures Blocks(config, 0, map[], [])
  {
  }

  lemma AnotherBlock(config: Config, n: nat, blocks: map<string, Json>, rows: seq<seq<JsonRow>>, block: Json, exported: seq<JsonRow>)
    requires Sound(config) && n < |config.tables| && Blocks(config, n, blocks, rows)
    requires BlockHolds(config.tables[n], block, exported)
    ensures Blocks(config, n + 1, blocks[config.tables[n].name := block], rows + [exported])
  {
    hide BlockHolds, Faithful, TableSound, CategoryColumns;
  }

  lemma BlocksReadBack(config: Config, blocks: map<string, Json>, rows: seq<seq<JsonRow>>, payload: Json)
    requires Blocks(config, |config.tables|, blocks, rows)
    requires HeaderOk(config, payload) && "data" in payload.fields && payload.fields["data"] == JDict(blocks)
    ensures PayloadOk(config, payload) && PayloadRows(config, payload) == rows
  {
    hide HeaderOk, BlockOk, BlockRows;
    assert blocks.Keys == Names(config);
    forall u | 0 <= u < |config.tables|
      ensures BlockOk(config.tables[u], blocks[config.tables[u].name])
      ensures BlockRows(config.tables[u], blocks[config.tables[u].name]) == rows[u]
    {
      assert BlockHolds(config.tables[u], blocks[config.tables[u].name], rows[u]);
    }
    assert PayloadRows(config, payload) == rows;
  }

  /** The export: every table's rows in order of id, with the user's
      preferences. */
  method ExportBackup(config: Config, data: Dataset, preferences: map<string, Json>, version: string, now: int, omissions: seq<string>)
    returns (payload: Json)
    requires Sound(config) && DataFits(config, data) && preferences.Keys == config.preferences
    ensures exists ids :: Archives(config, data, preferences, payload, ids)
  {
    hide ExportsTable, Blocks, BlockHolds, RowFits, Lists, TableSound, CategoryColumns;
    var blocks: map<string, Json> := map[];
    ghost var rows: seq<seq<JsonRow>> := [];
    ghost var ids: seq<seq<nat>> := [];
    NoBlocks(config);
    for t := 0 to |config.tables|
      invariant |ids| == t && Blocks(config, t, blocks, rows) && |rows| == t
      invariant forall u | 0 <= u < t :: ExportsTable(config.codec, data[u], rows[u], ids[u])
    {
      var exported := ExportTable(config.codec, data[t]);
      ghost var listed :| ExportsTable(config.codec, data[t], exported, listed);
      var block := JDict(map["version" := JInt(config.tables[t].version), "rows" := JList(AsDicts(exported))]);
      assert BlockHolds(config.tables[t], block, exported) by {
        ExportedColumns(config, data, t, exported, listed);
        BlockReadsBack(config.tables[t], exported);
      }
      AnotherBlock(config, t, blocks, rows, block, exported);
      blocks, rows, ids := blocks[config.tables[t].name := block], rows + [exported], ids + [listed];
    }
    payload := JDict(map[
      "app_version" := JText(version), "exported_at" := JText(config.codec.dateTimeText(now)),
      "preferences" := JDict(preferences),
      "omissions" := JList(seq(|omissions|, i requires 0 <= i < |omissions| => JText(omissions[i]))),
      "data" := JDict(blocks)]);
    BlocksReadBack(config, blocks, rows, payload);
    assert Archives(config, data, preferences, payload, ids);
  }
}

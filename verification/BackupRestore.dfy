/** Replacing a user's data with an archive's: new ids, remapped references,
    and all or nothing. */
module BackupRestore {
  import opened Wrappers
  import opened Backups
  import CascadeDelete
  import Store

  // --- new ids -----------------------------------------------------------------------------------

  /** The id drawn for row `i` of table `t`; no draw repeats. */
  type Draws = (nat, nat) -> nat

  ghost predicate Distinct(draws: Draws) {
    forall t, i, u, j :: draws(t, i) == draws(u, j) ==> t == u && i == j
  }

  function OldId(codec: Codec, raw: JsonRow): Option<nat> {
    if "id" in raw && raw["id"].JText? then codec.uuidOf(raw["id"].text) else None
  }

  /** Every id is well formed and none occurs twice. */
  predicate IdsOk(codec: Codec, rows: seq<JsonRow>) {
    && (forall i | 0 <= i < |rows| :: OldId(codec, rows[i]).Some?)
    && (forall i, j | 0 <= i < j < |rows| :: OldId(codec, rows[i]) != OldId(codec, rows[j]))
  }

  /** From the archive's id of each row to the id drawn for it. */
  function IdMapOf(codec: Codec, t: nat, rows: seq<JsonRow>, draws: Draws): IdMap
    requires IdsOk(codec, rows)
  {
    map i | 0 <= i < |rows| :: OldId(codec, rows[i]).value := draws(t, i)
  }

  predicate AllIdsOk(codec: Codec, rows: seq<seq<JsonRow>>) {
    forall t | 0 <= t < |rows| :: IdsOk(codec, rows[t])
  }

  function IdMapsOf(codec: Codec, rows: seq<seq<JsonRow>>, draws: Draws): (maps: seq<IdMap>)
    requires AllIdsOk(codec, rows)
    ensures |maps| == |rows|
  {
    seq(|rows|, t requires 0 <= t < |rows| => IdMapOf(codec, t, rows[t], draws))
  }

  lemma IdMapped(codec: Codec, t: nat, rows: seq<JsonRow>, draws: Draws, i: nat)
    requires IdsOk(codec, rows) && i < |rows|
    ensures OldId(codec, rows[i]).value in IdMapOf(codec, t, rows, draws)
    ensures IdMapOf(codec, t, rows, draws)[OldId(codec, rows[i]).value] == draws(t, i)
  {
    hide OldId;
  }

  lemma NoIds(codec: Codec, t: nat, rows: seq<JsonRow>, draws: Draws)
    ensures IdsOk(codec, rows[..0]) && IdMapOf(codec, t, rows[..0], draws) == map[]
  {
  }

  lemma OneMoreId(codec: Codec, t: nat, rows: seq<JsonRow>, draws: Draws, i: nat)
    requires i < |rows| && IdsOk(codec, rows[..i])
    ensures IdsOk(codec, rows[..i + 1]) <==>
      OldId(codec, rows[i]).Some? && OldId(codec, rows[i]).value !in IdMapOf(codec, t, rows[..i], draws)
    ensures IdsOk(codec, rows[..i + 1]) ==>
      IdMapOf(codec, t, rows[..i + 1], draws) == IdMapOf(codec, t, rows[..i], draws)[OldId(codec, rows[i]).value := draws(t, i)]
  {
    hide OldId;
    var sofar, more := rows[..i], rows[..i + 1];
    if IdsOk(codec, more) {
      assert forall j | 0 <= j < i :: more[j] == sofar[j];
      assert more[i] == rows[i];
      var m, n := IdMapOf(codec, t, sofar, draws), IdMapOf(codec, t, more, draws);
      forall known | known in n ensures known in m[OldId(codec, rows[i]).value := draws(t, i)] && n[known] == m[OldId(codec, rows[i]).value := draws(t, i)][known] {
      }
    }
  }

  lemma IdsStayBad(codec: Codec, rows: seq<JsonRow>, i: nat)
    requires i <= |rows| && !IdsOk(codec, rows[..i])
    ensures !IdsOk(codec, rows)
  {
    hide OldId;
  }

  method MakeIdMap(codec: Codec, t: nat, rows: seq<JsonRow>, draws: Draws) returns (m: Option<IdMap>)
    ensures m.Some? <==> IdsOk(codec, rows)
    ensures m.Some? ==> m.value == IdMapOf(codec, t, rows, draws)
  {
    hide OldId, IdsOk, IdMapOf;
    var mapping: IdMap := map[];
    NoIds(codec, t, rows, draws);
    for i := 0 to |rows|
      invariant IdsOk(codec, rows[..i]) && mapping == IdMapOf(codec, t, rows[..i], draws)
    {
      var oldId := OldId(codec, rows[i]);
      OneMoreId(codec, t, rows, draws, i);
      if oldId.None? || oldId.value in mapping {
        IdsStayBad(codec, rows, i + 1);
        return None;
      }
      mapping := mapping[oldId.value := draws(t, i)];
    }
    assert rows[..|rows|] == rows;
    m := Some(mapping);
  }

  method MakeIdMaps(codec: Codec, rows: seq<seq<JsonRow>>, draws: Draws) returns (maps: Option<seq<IdMap>>)
    ensures maps.Some? <==> AllIdsOk(codec, rows)
    ensures maps.Some? ==> maps.value == IdMapsOf(codec, rows, draws)
  {
    hide IdsOk, IdMapOf;
    var made: seq<IdMap> := [];
    for t := 0 to |rows|
      invariant |made| == t
      invariant forall u | 0 <= u < t :: IdsOk(codec, rows[u]) && made[u] == IdMapOf(codec, u, rows[u], draws)
    {
      var m := MakeIdMap(codec, t, rows[t], draws);
      if m.None? {
        return None;
      }
      made := made + [m.value];
    }
    maps := Some(made);
  }

  // --- one row ---------------------------------------------------------------------------------------

  /** A value of the archive as the new row holds it: read back, and carried to
      the new id when the column refers to a backed-up table. */
  function RestoredValue(codec: Codec, columnType: ColumnType, json: Json, maps: seq<IdMap>): Option<Value> {
    var v := Deserialized(codec, columnType, json);
    if v.None? || !columnType.UuidColumn? || columnType.target.None? || !v.value.Uuid? then v
    else if columnType.target.value < |maps| && v.value.id in maps[columnType.target.value] then
      Some(Uuid(maps[columnType.target.value][v.value.id]))
    else None
  }

  function RestoredColumn(config: Config, t: nat, raw: JsonRow, c: string, maps: seq<IdMap>): Option<Value>
    requires t < |config.tables| && t < |maps| && c in raw && c in config.tables[t].columns
  {
    if c == "id" then
      var oldId := OldId(config.codec, raw);
      if oldId.Some? && oldId.value in maps[t] then Some(Uuid(maps[t][oldId.value])) else None
    else RestoredValue(config.codec, config.tables[t].columns[c], raw[c], maps)
  }

  predicate RowRestores(config: Config, t: nat, raw: JsonRow, maps: seq<IdMap>)
    requires t < |config.tables| && t < |maps| && raw.Keys == config.tables[t].columns.Keys
  {
    forall c | c in raw :: RestoredColumn(config, t, raw, c, maps).Some?
  }

  function RestoredRow(config: Config, t: nat, raw: JsonRow, maps: seq<IdMap>): (row: Row)
    requires t < |config.tables| && t < |maps| && raw.Keys == config.tables[t].columns.Keys
    requires RowRestores(config, t, raw, maps)
  {
    map c | c in raw :: RestoredColumn(config, t, raw, c, maps).value
  }

  method RestoreRow(config: Config, t: nat, raw: JsonRow, maps: seq<IdMap>) returns (row: Option<Row>)
    requires t < |config.tables| && t < |maps| && raw.Keys == config.tables[t].columns.Keys
    ensures row.Some? <==> RowRestores(config, t, raw, maps)
    ensures row.Some? ==> row.value == RestoredRow(config, t, raw, maps)
  {
    hide RestoredColumn;
    var values: Row := map[];
    var left := raw.Keys;
    while left != {}
      invariant left <= raw.Keys && values.Keys == raw.Keys - left
      invariant forall c | c in values :: RestoredColumn(config, t, raw, c, maps) == Some(values[c])
    {
      var c :| c in left;
      var v := RestoredColumn(config, t, raw, c, maps);
      if v.None? {
        return None;
      }
      values := values[c := v.value];
      left := left - {c};
    }
    row := Some(values);
  }

  // --- one table ------------------------------------------------------------------------------------

  predicate ColumnsOk(config: Config, t: nat, rows: seq<JsonRow>)
    requires t < |config.tables|
  {
    forall i | 0 <= i < |rows| :: rows[i].Keys == config.tables[t].columns.Keys
  }

  predicate TableRestores(config: Config, t: nat, rows: seq<JsonRow>, maps: seq<IdMap>)
    requires t < |config.tables| && t < |maps| && ColumnsOk(config, t, rows)
  {
    forall i | 0 <= i < |rows| :: RowRestores(config, t, rows[i], maps)
  }

  function RestoredTable(config: Config, t: nat, rows: seq<JsonRow>, draws: Draws, maps: seq<IdMap>): (table: Table)
    requires Distinct(draws)
    requires t < |config.tables| && t < |maps| && ColumnsOk(config, t, rows)
    requires TableRestores(config, t, rows, maps)
  {
    map i | 0 <= i < |rows| :: draws(t, i) := RestoredRow(config, t, rows[i], maps)
  }

  /** A restored row carries the id drawn for it. */
  lemma RestoredId(config: Config, t: nat, rows: seq<JsonRow>, draws: Draws, maps: seq<IdMap>, i: nat)
    requires t < |config.tables| && t < |maps| && ColumnsOk(config, t, rows) && i < |rows|
    requires "id" in config.tables[t].columns
    requires RowRestores(config, t, rows[i], maps)
    requires IdsOk(config.codec, rows) && maps[t] == IdMapOf(config.codec, t, rows, draws)
    ensures var row := RestoredRow(config, t, rows[i], maps); "id" in row && row["id"] == Uuid(draws(t, i))
  {
    hide IdMapOf, IdsOk, OldId, RestoredValue;
    IdMapped(config.codec, t, rows, draws, i);
    assert RestoredColumn(config, t, rows[i], "id", maps).Some?;
  }

  lemma NoRows(config: Config, t: nat, rows: seq<JsonRow>, draws: Draws, maps: seq<IdMap>)
    requires Distinct(draws) && t < |config.tables| && t < |maps|
    ensures TableRestores(config, t, rows[..0], maps) && RestoredTable(config, t, rows[..0], draws, maps) == map[]
  {
  }

  lemma OneMoreRow(config: Config, t: nat, rows: seq<JsonRow>, draws: Draws, maps: seq<IdMap>, i: nat)
    requires Distinct(draws)
    requires t < |config.tables| && t < |maps| && ColumnsOk(config, t, rows) && i < |rows|
    requires TableRestores(config, t, rows[..i], maps) && RowRestores(config, t, rows[i], maps)
    ensures TableRestores(config, t, rows[..i + 1], maps)
    ensures RestoredTable(config, t, rows[..i + 1], draws, maps)
      == RestoredTable(config, t, rows[..i], draws, maps)[draws(t, i) := RestoredRow(config, t, rows[i], maps)]
  {
    hide RowRestores, RestoredRow;
    assert forall j | 0 <= j < i :: rows[..i + 1][j] == rows[..i][j];
  }

  method RestoreTable(config: Config, t: nat, rows: seq<JsonRow>, ghost draws: Draws, maps: seq<IdMap>) returns (table: Option<Table>)
    requires Distinct(draws)
    requires t < |config.tables| && t < |maps| && ColumnsOk(config, t, rows)
    requires "id" in config.tables[t].columns
    requires IdsOk(config.codec, rows) && maps[t] == IdMapOf(config.codec, t, rows, draws)
    ensures table.Some? <==> TableRestores(config, t, rows, maps)
    ensures table.Some? ==> table.value == RestoredTable(config, t, rows, draws, maps)
  {
    hide RowRestores, RestoredRow, RestoredTable, IdMapOf, IdsOk, Distinct;
    var filled: Table := map[];
    NoRows(config, t, rows, draws, maps);
    for i := 0 to |rows|
      invariant TableRestores(config, t, rows[..i], maps)
      invariant filled == RestoredTable(config, t, rows[..i], draws, maps)
    {
      var row := RestoreRow(config, t, rows[i], maps);
      if row.None? {
        return None;
      }
      RestoredId(config, t, rows, draws, maps, i);
      OneMoreRow(config, t, rows, draws, maps, i);
      filled := filled[row.value["id"].id := row.value];
    }
    assert rows[..|rows|] == rows;
    table := Some(filled);
  }

  // --- the whole dataset ------------------------------------------------------------------------------

  /** Rows for every table, with exactly the table's columns. */
  predicate ContentFits(config: Config, rows: seq<seq<JsonRow>>) {
    && |rows| == |config.tables|
    && forall t | 0 <= t < |rows| :: ColumnsOk(config, t, rows[t])
  }

  predicate DataRestores(config: Config, rows: seq<seq<JsonRow>>, maps: seq<IdMap>)
    requires ContentFits(config, rows) && |maps| == |rows|
  {
    forall t | 0 <= t < |rows| :: TableRestores(config, t, rows[t], maps)
  }

  /** The first `n` tables restored, the others still empty. */
  ghost function RestoredData(config: Config, rows: seq<seq<JsonRow>>, draws: Draws, maps: seq<IdMap>, n: nat): (data: Dataset)
    requires Distinct(draws) && ContentFits(config, rows) && |maps| == |rows| && n <= |rows|
    requires forall t | 0 <= t < n :: TableRestores(config, t, rows[t], maps)
  {
    seq(|rows|, t requires 0 <= t < |rows| => if t < n then RestoredTable(config, t, rows[t], draws, maps) else map[])
  }

  /** `data` with every table from `n` on emptied. */
  function Emptied(data: Dataset, n: nat): Dataset {
    seq(|data|, t requires 0 <= t < |data| => if t < n then data[t] else map[])
  }

  /** The last statement: a category takes its group's colour, which touches its
      modification time. */
  function Recoloured(row: Row, groups: Table, now: int): Row {
    if "group_id" in row && row["group_id"].Uuid? && row["group_id"].id in groups && "color" in groups[row["group_id"].id] then
      row["color" := groups[row["group_id"].id]["color"]]["updated_at" := DateTime(now)]
    else
      row
  }

  function WithGroupColours(config: Config, data: Dataset, now: int): Dataset
    requires config.categories < |data| && config.groups < |data|
  {
    data[config.categories := map id | id in data[config.categories] :: Recoloured(data[config.categories][id], data[config.groups], now)]
  }

  /** What the archive's rows become: None when an id or a value is malformed, a
      reference is unknown, or the database refuses a table. */
  ghost function Replacement(config: Config, rows: seq<seq<JsonRow>>, draws: Draws, now: int): Option<Dataset>
    requires Sound(config) && Distinct(draws) && ContentFits(config, rows)
  {
    if !AllIdsOk(config.codec, rows) then None else
    var maps := IdMapsOf(config.codec, rows, draws);
    if !DataRestores(config, rows, maps) then None else
    var data := RestoredData(config, rows, draws, maps, |rows|);
    if exists t :: 0 <= t < |rows| && !config.accepts(t, data[t]) then None else
    var last := WithGroupColours(config, data, now);
    if config.accepts(config.categories, last[config.categories]) then Some(last) else None
  }

  // --- no statement meets a dangling reference -----------------------------------------------------------

  /** The registry's order: wherever the application has a foreign key between
      backed-up tables, the target comes no later. */
  function Position(table: Store.Table): Option<nat> {
    match table
    case Institutions => Some(0) case Accounts => Some(1) case CategoryGroups => Some(2) case Categories => Some(3)
    case CategorizationRules => Some(4) case Budgets => Some(5) case BudgetAllocations => Some(6)
    case ExpectedIncome => Some(7) case RecurringRules => Some(8) case Loans => Some(9) case Goals => Some(10)
    case ManualRates => Some(11) case Transactions => Some(12) case Reconciliations => Some(13)
    case ReconciliationEntries => Some(14) case InvestmentWallets => Some(15) case InvestmentAssets => Some(16)
    case InvestmentTransactions => Some(17)
    case Unjournaled(_) => None
  }

  lemma RegistryIsInOrder(table: Store.Table, col: Store.Column)
    requires CascadeDelete.References(table, col).Some?
    ensures var target := CascadeDelete.References(table, col).value.target;
      Position(table).Some? && Position(target).Some? && Position(target).value <= Position(table).value
  {
  }

  /** Emptying the tables from the last one back never strands a reference. */
  lemma EmptiedIsClosed(config: Config, data: Dataset, n: nat)
    requires Sound(config) && DataClosed(config, data)
    ensures DataClosed(config, Emptied(data, n))
  {
    hide Faithful, CategoryColumns;
    forall t, id | 0 <= t < |data| && t < n && id in data[t] ensures RowClosed(config, t, data[t][id], Emptied(data, n)) {
      assert TableClosed(config, t, data[t], data) && RowClosed(config, t, data[t][id], data);
      assert TableSound(config.tables[t], t);
    }
  }

  /** The references of a row of table `t` are new ids of the archive's rows, in
      tables no later than `t`. */
  ghost predicate ReferencesMapped(config: Config, t: nat, row: Row, maps: seq<IdMap>)
    requires t < |config.tables| && t < |maps|
  {
    forall c | c in row && c in config.tables[t].columns && row[c].Uuid? :: ReferenceMapped(config.tables[t].columns[c], t, row[c].id, maps)
  }

  ghost predicate ReferenceMapped(columnType: ColumnType, t: nat, id: nat, maps: seq<IdMap>)
    requires t < |maps|
  {
    columnType.UuidColumn? && columnType.target.Some? ==>
      columnType.target.value <= t && id in maps[columnType.target.value].Values
  }

  /** A restored row refers only to rows restored with it or before it. */
  lemma RestoredReferences(config: Config, t: nat, raw: JsonRow, maps: seq<IdMap>)
    requires t < |config.tables| && t < |maps| && raw.Keys == config.tables[t].columns.Keys
    requires RowRestores(config, t, raw, maps) && TableSound(config.tables[t], t)
    ensures ReferencesMapped(config, t, RestoredRow(config, t, raw, maps), maps)
  {
    hide OldId, Deserialized;
    var row := RestoredRow(config, t, raw, maps);
    forall c | c in row && row[c].Uuid? ensures ReferenceMapped(config.tables[t].columns[c], t, row[c].id, maps) {
      assert RestoredColumn(config, t, raw, c, maps).Some?;
      assert InOrder(config.tables[t].columns[c], t);
    }
  }

  lemma MappedIsClosed(config: Config, t: nat, row: Row, maps: seq<IdMap>, n: nat, data: Dataset)
    requires t < n <= |maps| == |data| == |config.tables|
    requires ReferencesMapped(config, t, row, maps)
    requires forall u | 0 <= u < n :: maps[u].Values <= data[u].Keys
    ensures RowClosed(config, t, row, data)
  {
    forall c | c in row && c in config.tables[t].columns && row[c].Uuid?
      && config.tables[t].columns[c].UuidColumn? && config.tables[t].columns[c].target.Some?
      ensures row[c].id in data[config.tables[t].columns[c].target.value]
    {
      assert ReferenceMapped(config.tables[t].columns[c], t, row[c].id, maps);
    }
  }

  /** The restored table holds every id its map hands out. */
  lemma ValuesAreRestored(config: Config, t: nat, rows: seq<JsonRow>, draws: Draws, maps: seq<IdMap>)
    requires Distinct(draws) && t < |config.tables| && t < |maps|
    requires IdsOk(config.codec, rows) && maps[t] == IdMapOf(config.codec, t, rows, draws)
    requires ColumnsOk(config, t, rows) && TableRestores(config, t, rows, maps)
    ensures maps[t].Values <= RestoredTable(config, t, rows, draws, maps).Keys
  {
    hide IdsOk, IdMapOf, OldId, Distinct, RestoredTable, RowRestores, RestoredRow, ColumnsOk, TableRestores;
    forall id | id in maps[t].Values ensures id in RestoredTable(config, t, rows, draws, maps) {
      var i := DrawnFor(config.codec, t, rows, draws, id);
      DrawnIsRestored(config, t, rows, draws, maps, i);
    }
  }

  lemma DrawnFor(codec: Codec, t: nat, rows: seq<JsonRow>, draws: Draws, id: nat) returns (i: nat)
    requires IdsOk(codec, rows) && id in IdMapOf(codec, t, rows, draws).Values
    ensures i < |rows| && draws(t, i) == id
  {
    var known :| known in IdMapOf(codec, t, rows, draws) && IdMapOf(codec, t, rows, draws)[known] == id;
    i :| 0 <= i < |rows| && OldId(codec, rows[i]).value == known && draws(t, i) == id;
  }

  lemma DrawnIsRestored(config: Config, t: nat, rows: seq<JsonRow>, draws: Draws, maps: seq<IdMap>, i: nat)
    requires Distinct(draws) && t < |config.tables| && t < |maps|
    requires ColumnsOk(config, t, rows) && TableRestores(config, t, rows, maps) && i < |rows|
    ensures draws(t, i) in RestoredTable(config, t, rows, draws, maps)
    ensures RestoredTable(config, t, rows, draws, maps)[draws(t, i)] == RestoredRow(config, t, rows[i], maps)
  {
    hide RowRestores, RestoredRow;
  }

  /** So each insert, made in the registry's order, leaves every reference whole. */
  lemma RestoredIsClosed(config: Config, rows: seq<seq<JsonRow>>, draws: Draws, maps: seq<IdMap>, n: nat)
    requires Sound(config) && Distinct(draws) && ContentFits(config, rows)
    requires AllIdsOk(config.codec, rows) && maps == IdMapsOf(config.codec, rows, draws)
    requires n <= |rows| && forall u | 0 <= u < n :: TableRestores(config, u, rows[u], maps)
    ensures DataClosed(config, RestoredData(config, rows, draws, maps, n))
  {
    hide Sound, TableSound, IdsOk, IdMapOf, Distinct, RowRestores, RestoredRow, RestoredTable, RowClosed, TableRestores, ColumnsOk, ReferencesMapped;
    var data := RestoredData(config, rows, draws, maps, n);
    forall u | 0 <= u < n ensures maps[u].Values <= data[u].Keys {
      ValuesAreRestored(config, u, rows[u], draws, maps);
    }
    forall t, id | 0 <= t < n && id in data[t] ensures RowClosed(config, t, data[t][id], data) {
      RestoredTableReferences(config, t, rows[t], draws, maps, id);
      MappedIsClosed(config, t, data[t][id], maps, n, data);
    }
  }

  lemma RestoredTableReferences(config: Config, t: nat, rows: seq<JsonRow>, draws: Draws, maps: seq<IdMap>, id: nat)
    requires Sound(config) && Distinct(draws) && t < |config.tables| && t < |maps|
    requires ColumnsOk(config, t, rows) && TableRestores(config, t, rows, maps)
    requires id in RestoredTable(config, t, rows, draws, maps)
    ensures ReferencesMapped(config, t, RestoredTable(config, t, rows, draws, maps)[id], maps)
  {
    hide RowRestores, RestoredRow, ReferencesMapped, Faithful, CategoryColumns, TableSound, Distinct;
    var i :| 0 <= i < |rows| && draws(t, i) == id && RestoredTable(config, t, rows, draws, maps)[id] == RestoredRow(config, t, rows[i], maps);
    assert TableSound(config.tables[t], t);
    RestoredReferences(config, t, rows[i], maps);
  }

  lemma RecolouredIsClosed(config: Config, data: Dataset, now: int)
    requires Sound(config) && DataClosed(config, data)
    ensures DataClosed(config, WithGroupColours(config, data, now))
  {
    hide Faithful, TableSound;
    var last := WithGroupColours(config, data, now);
    forall t, id | 0 <= t < |data| && id in last[t] ensures RowClosed(config, t, last[t][id], last) {
      assert TableClosed(config, t, data[t], data) && RowClosed(config, t, data[t][id], data);
      assert forall u | 0 <= u < |data| :: last[u].Keys == data[u].Keys;
    }
  }

  lemma TableStopsReplacement(config: Config, rows: seq<seq<JsonRow>>, draws: Draws, now: int, maps: seq<IdMap>, t: nat)
    requires Sound(config) && Distinct(draws) && ContentFits(config, rows)
    requires AllIdsOk(config.codec, rows) && maps == IdMapsOf(config.codec, rows, draws) && t < |rows|
    requires TableRestores(config, t, rows[t], maps) ==> !config.accepts(t, RestoredTable(config, t, rows[t], draws, maps))
    ensures Replacement(config, rows, draws, now).None?
  {
    hide Sound, Distinct, ContentFits, AllIdsOk, IdMapsOf, RestoredTable, TableRestores;
    if DataRestores(config, rows, maps) {
      assert !config.accepts(t, RestoredData(config, rows, draws, maps, |rows|)[t]);
    }
  }

  lemma AllAccepted(config: Config, rows: seq<seq<JsonRow>>, draws: Draws, now: int, maps: seq<IdMap>)
    requires Sound(config) && Distinct(draws) && ContentFits(config, rows)
    requires AllIdsOk(config.codec, rows) && maps == IdMapsOf(config.codec, rows, draws)
    requires DataRestores(config, rows, maps)
    requires forall t | 0 <= t < |rows| :: config.accepts(t, RestoredTable(config, t, rows[t], draws, maps))
    ensures var last := WithGroupColours(config, RestoredData(config, rows, draws, maps, |rows|), now);
      Replacement(config, rows, draws, now) == if config.accepts(config.categories, last[config.categories]) then Some(last) else None
  {
    hide Distinct, ContentFits, AllIdsOk, IdMapsOf, RestoredTable, TableRestores, DataRestores, WithGroupColours, Faithful, TableSound;
  }

  function Counts(rows: seq<seq<JsonRow>>): seq<nat> {
    seq(|rows|, t requires 0 <= t < |rows| => |rows[t]|)
  }

  // --- the user's data -----------------------------------------------------------------------------------

  /** What the archive would put in place; None when it is invalid or refused. */
  ghost function Outcome(config: Config, payload: Json, draws: Draws, now: int): Option<Dataset>
    requires Sound(config) && Distinct(draws)
  {
    if PayloadOk(config, payload) && config.acceptsPreferences(PayloadPreferences(config, payload)) then
      PayloadFits(config, payload);
      Replacement(config, PayloadRows(config, payload), draws, now)
    else
      None
  }

  lemma PayloadFits(config: Config, payload: Json)
    requires PayloadOk(config, payload)
    ensures ContentFits(config, PayloadRows(config, payload))
  {
    hide HeaderOk;
  }

  class UserData {
    var tables: Dataset
    var preferences: map<string, Json>

    constructor (tables: Dataset, preferences: map<string, Json>)
      ensures this.tables == tables && this.preferences == preferences
    {
      this.tables, this.preferences := tables, preferences;
    }

    /** DELETE of one table's rows; no foreign key reacts. */
    method EmptyTable(config: Config, t: nat)
      requires t < |tables| && DataClosed(config, tables[t := map[]])
      modifies this`tables
      ensures tables == old(tables)[t := map[]]
    {
      tables := tables[t := map[]];
    }

    /** The flush of one table's inserts, with the database's checks. */
    method InsertTable(config: Config, t: nat, table: Table) returns (ok: bool)
      requires t < |tables| == |config.tables| && tables[t] == map[]
      modifies this`tables
      ensures ok <==> TableClosed(config, t, table, old(tables)[t := table]) && config.accepts(t, table)
      ensures tables == if ok then old(tables)[t := table] else old(tables)
    {
      ok := TableClosed(config, t, table, tables[t := table]) && config.accepts(t, table);
      if ok {
        tables := tables[t := table];
      }
    }

    method EmptyAll(config: Config)
      requires Sound(config) && DataClosed(config, tables)
      modifies this`tables
      ensures tables == Emptied(old(tables), 0)
    {
      hide Sound, TableClosed;
      var n := |tables|;
      while n > 0
        invariant 0 <= n <= |old(tables)| && tables == Emptied(old(tables), n)
      {
        n := n - 1;
        EmptiedIsClosed(config, old(tables), n);
        assert tables[n := map[]] == Emptied(old(tables), n);
        EmptyTable(config, n);
      }
    }

    /** Inserts the tables in order; stops at the first that is malformed or refused. */
    method InsertAll(config: Config, rows: seq<seq<JsonRow>>, ghost draws: Draws, maps: seq<IdMap>, ghost now: int) returns (counts: Option<seq<nat>>)
      requires Sound(config) && Distinct(draws) && ContentFits(config, rows)
      requires AllIdsOk(config.codec, rows) && maps == IdMapsOf(config.codec, rows, draws)
      requires tables == RestoredData(config, rows, draws, maps, 0)
      modifies this`tables
      ensures counts.Some? <==>
        (DataRestores(config, rows, maps)
         && forall t | 0 <= t < |rows| :: config.accepts(t, RestoredTable(config, t, rows[t], draws, maps)))
      ensures counts.Some? ==> tables == RestoredData(config, rows, draws, maps, |rows|) && counts.value == Counts(rows)
      ensures counts.None? ==> Replacement(config, rows, draws, now).None?
    {
      hide Distinct, IdsOk, IdMapOf, RestoredTable, TableRestores, Faithful, CategoryColumns, Replacement, RowClosed;
      var inserted: seq<nat> := [];
      for t := 0 to |rows|
        invariant forall u | 0 <= u < t :: TableRestores(config, u, rows[u], maps)
        invariant forall u | 0 <= u < t :: config.accepts(u, RestoredTable(config, u, rows[u], draws, maps))
        invariant tables == RestoredData(config, rows, draws, maps, t)
        invariant |inserted| == t && forall u | 0 <= u < t :: inserted[u] == |rows[u]|
      {
        assert TableSound(config.tables[t], t);
        var table := RestoreTable(config, t, rows[t], draws, maps);
        if table.None? {
          TableStopsReplacement(config, rows, draws, now, maps, t);
          return None;
        }
        assert tables[t := table.value] == RestoredData(config, rows, draws, maps, t + 1);
        RestoredIsClosed(config, rows, draws, maps, t + 1);
        assert TableClosed(config, t, tables[t := table.value][t], tables[t := table.value]);
        var ok := InsertTable(config, t, table.value);
        if !ok {
          TableStopsReplacement(config, rows, draws, now, maps, t);
          return None;
        }
        inserted := inserted + [|rows[t]|];
      }
      counts := Some(inserted);
    }

    /** The replacement inside the caller's transaction: on None the caller rolls
        back. The user's row is checked with the first table's inserts. */
    method Replace(config: Config, newPreferences: map<string, Json>, rows: seq<seq<JsonRow>>, draws: Draws, now: int) returns (counts: Option<seq<nat>>)
      requires Sound(config) && Distinct(draws) && ContentFits(config, rows)
      requires DataClosed(config, tables)
      modifies this
      ensures counts.Some? <==> config.acceptsPreferences(newPreferences) && Replacement(config, rows, draws, now).Some?
      ensures counts.Some? ==>
        && counts.value == Counts(rows)
        && tables == Replacement(config, rows, draws, now).value && DataClosed(config, tables)
        && preferences == newPreferences
    {
      var maps := MakeIdMaps(config.codec, rows, draws);
      if maps.None? {
        return None;
      }
      hide Distinct, AllIdsOk, IdMapsOf, DataRestores, RestoredTable, WithGroupColours, Replacement, TableRestores, Faithful, TableSound, CategoryColumns, TableClosed;
      EmptyAll(config);
      preferences := newPreferences;
      if !config.acceptsPreferences(newPreferences) {
        return None;
      }
      assert tables == RestoredData(config, rows, draws, maps.value, 0);
      counts := InsertAll(config, rows, draws, maps.value, now);
      if counts.None? {
        return;
      }
      AllAccepted(config, rows, draws, now, maps.value);
      RestoredIsClosed(config, rows, draws, maps.value, |rows|);
      RecolouredIsClosed(config, tables, now);
      var last := WithGroupColours(config, tables, now);
      if !config.accepts(config.categories, last[config.categories]) {
        return None;
      }
      tables := last;
    }

    /** A trial restore inside a savepoint that is always rolled back. */
    method PreviewBackup(config: Config, payload: Json, draws: Draws, now: int) returns (counts: Option<seq<nat>>)
      requires Sound(config) && Distinct(draws) && DataClosed(config, tables)
      modifies this
      ensures tables == old(tables) && preferences == old(preferences)
      ensures counts.Some? <==> Outcome(config, payload, draws, now).Some?
      ensures counts.Some? ==> counts.value == Counts(PayloadRows(config, payload))
    {
      hide Sound, Distinct, HeaderOk, Replacement, DataClosed;
      if !PayloadOk(config, payload) {
        return None;
      }
      PayloadFits(config, payload);
      var savedTables, savedPreferences := tables, preferences;
      counts := Replace(config, PayloadPreferences(config, payload), PayloadRows(config, payload), draws, now);
      tables, preferences := savedTables, savedPreferences;
    }

    /** The restore: committed whole, or rolled back whole. */
    method RestoreBackup(config: Config, payload: Json, draws: Draws, now: int) returns (counts: Option<seq<nat>>)
      requires Sound(config) && Distinct(draws) && DataClosed(config, tables)
      modifies this
      ensures DataClosed(config, tables)
      ensures counts.Some? <==> Outcome(config, payload, draws, now).Some?
      ensures counts.Some? ==>
        && counts.value == Counts(PayloadRows(config, payload))
        && tables == Outcome(config, payload, draws, now).value
        && preferences == PayloadPreferences(config, payload)
      ensures counts.None? ==> tables == old(tables) && preferences == old(preferences)
    {
      hide Sound, Distinct, HeaderOk, Replacement, DataClosed;
      if !PayloadOk(config, payload) {
        return None;
      }
      PayloadFits(config, payload);
      var savedTables, savedPreferences := tables, preferences;
      counts := Replace(config, PayloadPreferences(config, payload), PayloadRows(config, payload), draws, now);
      if counts.None? {
        tables, preferences := savedTables, savedPreferences;
      }
    }
  }
}

/** Restoring an exported archive gives the exported data under new ids. */
module BackupRoundTrip {
  import opened Wrappers
  import opened Backups
  import opened BackupRestore

  // --- renaming ids ----------------------------------------------------------------------------------

  function RenamedValue(columnType: ColumnType, v: Value, maps: seq<IdMap>): Value {
    if columnType.UuidColumn? && columnType.target.Some? && v.Uuid?
      && columnType.target.value < |maps| && v.id in maps[columnType.target.value]
    then Uuid(maps[columnType.target.value][v.id])
    else v
  }

  /** The row under its new id, each reference carried along, every other column kept. */
  function RenamedRow(config: Config, t: nat, id: nat, row: Row, maps: seq<IdMap>): Row
    requires t < |config.tables| && t < |maps| && id in maps[t] && row.Keys <= config.tables[t].columns.Keys
  {
    map c | c in row :: if c == "id" then Uuid(maps[t][id]) else RenamedValue(config.tables[t].columns[c], row[c], maps)
  }

  ghost predicate Injective(m: IdMap) {
    forall id, other | id in m && other in m && m[id] == m[other] :: id == other
  }

  ghost predicate TableRenamed(config: Config, t: nat, from: Table, to: Table, maps: seq<IdMap>)
    requires t < |config.tables| && t < |maps|
  {
    && maps[t].Keys == from.Keys && Injective(maps[t]) && to.Keys == maps[t].Values
    && forall id | id in from ::
        && from[id].Keys == config.tables[t].columns.Keys
        && maps[t][id] in to && to[maps[t][id]] == RenamedRow(config, t, id, from[id], maps)
  }

  /** `to` is `from` up to ids: a bijection of ids for each table that keeps every
      column and carries the references along. */
  ghost predicate Isomorphic(config: Config, from: Dataset, to: Dataset, maps: seq<IdMap>) {
    && |from| == |to| == |maps| == |config.tables|
    && forall t | 0 <= t < |from| :: TableRenamed(config, t, from[t], to[t], maps)
  }

  // --- the exported rows come back ---------------------------------------------------------------------

  lemma ExportedIds(config: Config, t: nat, table: Table, rows: seq<JsonRow>, ids: seq<nat>)
    requires Faithful(config.codec) && t < |config.tables| && "id" in config.tables[t].columns
    requires forall id | id in table :: RowFits(config, t, id, table[id])
    requires ExportsTable(config.codec, table, rows, ids)
    ensures forall i | 0 <= i < |rows| :: OldId(config.codec, rows[i]) == Some(ids[i])
    ensures IdsOk(config.codec, rows)
  {
    forall i | 0 <= i < |rows| ensures OldId(config.codec, rows[i]) == Some(ids[i]) {
      assert RowFits(config, t, ids[i], table[ids[i]]);
    }
  }

  lemma ExportedMap(config: Config, t: nat, table: Table, rows: seq<JsonRow>, ids: seq<nat>, draws: Draws)
    requires Distinct(draws) && IdsOk(config.codec, rows)
    requires Lists(ids, table) && |ids| == |rows|
    requires forall i | 0 <= i < |rows| :: OldId(config.codec, rows[i]) == Some(ids[i])
    ensures var m := IdMapOf(config.codec, t, rows, draws);
      && m.Keys == table.Keys && Injective(m)
      && forall i | 0 <= i < |rows| :: ids[i] in m && m[ids[i]] == draws(t, i)
  {
    hide OldId;
    var m := IdMapOf(config.codec, t, rows, draws);
    forall i | 0 <= i < |rows| ensures ids[i] in m && m[ids[i]] == draws(t, i) {
      IdMapped(config.codec, t, rows, draws, i);
    }
    assert m.Keys == table.Keys;
  }

  /** An exported row, read back, is the row renamed. */
  lemma RowComesBack(config: Config, t: nat, id: nat, row: Row, maps: seq<IdMap>, data: Dataset)
    requires Faithful(config.codec) && t < |config.tables| == |maps| == |data| && TableSound(config.tables[t], t)
    requires RowFits(config, t, id, row) && RowClosed(config, t, row, data)
    requires id in maps[t] && forall u | 0 <= u < |maps| :: maps[u].Keys == data[u].Keys
    ensures var raw := SerializedRow(config.codec, row);
      && RowRestores(config, t, raw, maps)
      && RestoredRow(config, t, raw, maps) == RenamedRow(config, t, id, row, maps)
  {
    var raw := SerializedRow(config.codec, row);
    forall c | c in raw
      ensures RestoredColumn(config, t, raw, c, maps)
        == Some(if c == "id" then Uuid(maps[t][id]) else RenamedValue(config.tables[t].columns[c], row[c], maps))
    {
      ColumnComesBack(config, t, id, row, maps, data, c);
    }
  }

  lemma ColumnComesBack(config: Config, t: nat, id: nat, row: Row, maps: seq<IdMap>, data: Dataset, c: string)
    requires Faithful(config.codec) && t < |config.tables| == |maps| == |data| && TableSound(config.tables[t], t)
    requires RowFits(config, t, id, row) && RowClosed(config, t, row, data)
    requires id in maps[t] && forall u | 0 <= u < |maps| :: maps[u].Keys == data[u].Keys
    requires c in row
    ensures RestoredColumn(config, t, SerializedRow(config.codec, row), c, maps)
      == Some(if c == "id" then Uuid(maps[t][id]) else RenamedValue(config.tables[t].columns[c], row[c], maps))
  {
    if c == "id" {
      assert config.codec.uuidOf(config.codec.uuidText(id)) == Some(id);
    } else {
      ValueRoundTrip(config.codec, config.tables[t].columns[c], row[c]);
      assert InOrder(config.tables[t].columns[c], t);
    }
  }

  lemma ListedRowComesBack(config: Config, data: Dataset, t: nat, rows: seq<JsonRow>, ids: seq<nat>, maps: seq<IdMap>, i: nat)
    requires Sound(config) && DataFits(config, data) && DataClosed(config, data)
    requires t < |data| == |maps| && ExportsTable(config.codec, data[t], rows, ids)
    requires forall u | 0 <= u < |maps| :: maps[u].Keys == data[u].Keys
    requires i < |rows|
    ensures ids[i] in data[t] && data[t][ids[i]].Keys == config.tables[t].columns.Keys
    ensures rows[i].Keys == config.tables[t].columns.Keys && RowRestores(config, t, rows[i], maps)
    ensures RestoredRow(config, t, rows[i], maps) == RenamedRow(config, t, ids[i], data[t][ids[i]], maps)
  {
    hide Faithful, CategoryColumns, TableSound, RowRestores, RestoredRow, RenamedRow, RowClosed;
    var row := data[t][ids[i]];
    assert RowFits(config, t, ids[i], row) && TableSound(config.tables[t], t);
    assert TableClosed(config, t, data[t], data);
    assert RowClosed(config, t, row, data);
    RowComesBack(config, t, ids[i], row, maps, data);
  }

  lemma TableComesBack(config: Config, data: Dataset, t: nat, rows: seq<JsonRow>, ids: seq<nat>, draws: Draws, maps: seq<IdMap>)
    requires Sound(config) && Distinct(draws) && DataFits(config, data) && DataClosed(config, data)
    requires t < |data| == |maps| && ExportsTable(config.codec, data[t], rows, ids)
    requires forall u | 0 <= u < |maps| :: maps[u].Keys == data[u].Keys
    requires MapHolds(data[t], maps[t], t, ids, draws)
    ensures ColumnsOk(config, t, rows) && TableRestores(config, t, rows, maps)
    ensures TableRenamed(config, t, data[t], RestoredTable(config, t, rows, draws, maps), maps)
  {
    hide Sound, Faithful, DataFits, DataClosed, RowRestores, RestoredRow, RenamedRow, Distinct, Injective, TableRenamed, RestoredTable, MapHolds;
    SameTables(config, data);
    forall i | 0 <= i < |rows|
      ensures data[t][ids[i]].Keys == config.tables[t].columns.Keys
      ensures rows[i].Keys == config.tables[t].columns.Keys && RowRestores(config, t, rows[i], maps)
      ensures ids[i] in maps[t] && RestoredRow(config, t, rows[i], maps) == RenamedRow(config, t, ids[i], data[t][ids[i]], maps)
    {
      ListedRowComesBack(config, data, t, rows, ids, maps, i);
    }
    TableFromRows(config, data[t], t, rows, ids, draws, maps);
  }

  /** Rows that come back one by one make a table that comes back. */
  lemma TableFromRows(config: Config, from: Table, t: nat, rows: seq<JsonRow>, ids: seq<nat>, draws: Draws, maps: seq<IdMap>)
    requires Distinct(draws) && t < |maps| && t < |config.tables| && Lists(ids, from) && |ids| == |rows|
    requires MapHolds(from, maps[t], t, ids, draws)
    requires ColumnsOk(config, t, rows) && TableRestores(config, t, rows, maps)
    requires forall i | 0 <= i < |rows| ::
      && from[ids[i]].Keys == config.tables[t].columns.Keys
      && RestoredRow(config, t, rows[i], maps) == RenamedRow(config, t, ids[i], from[ids[i]], maps)
    ensures TableRenamed(config, t, from, RestoredTable(config, t, rows, draws, maps), maps)
  {
    hide RowRestores, RestoredRow, RenamedRow, Distinct, Injective, RestoredTable, ColumnsOk, TableRestores;
    var table := RestoredTable(config, t, rows, draws, maps);
    forall id | id in from
      ensures from[id].Keys == config.tables[t].columns.Keys
      ensures maps[t][id] in table && table[maps[t][id]] == RenamedRow(config, t, id, from[id], maps)
    {
      var i :| 0 <= i < |ids| && ids[i] == id;
      DrawnIsRestored(config, t, rows, draws, maps, i);
    }
    forall id | id in table ensures id in maps[t].Values {
      var i := RestoredIsDrawn(config, t, rows, draws, maps, id);
      assert maps[t][ids[i]] == id;
    }
  }

  lemma RestoredIsDrawn(config: Config, t: nat, rows: seq<JsonRow>, draws: Draws, maps: seq<IdMap>, id: nat) returns (i: nat)
    requires Distinct(draws) && t < |config.tables| && t < |maps|
    requires ColumnsOk(config, t, rows) && TableRestores(config, t, rows, maps)
    requires id in RestoredTable(config, t, rows, draws, maps)
    ensures i < |rows| && draws(t, i) == id
  {
    i :| 0 <= i < |rows| && draws(t, i) == id;
  }

  lemma ExportedMaps(config: Config, data: Dataset, rows: seq<seq<JsonRow>>, ids: seq<seq<nat>>, draws: Draws)
    requires Sound(config) && Distinct(draws) && DataFits(config, data)
    requires ExportsData(config, data, rows, ids)
    ensures AllIdsOk(config.codec, rows)
    ensures forall t | 0 <= t < |data| :: MapHolds(data[t], IdMapsOf(config.codec, rows, draws)[t], t, ids[t], draws)
  {
    hide Faithful, CategoryColumns, RowFits, IdsOk, IdMapOf, Distinct, Injective, OldId;
    forall t | 0 <= t < |data| ensures IdsOk(config.codec, rows[t]) && MapHolds(data[t], IdMapOf(config.codec, t, rows[t], draws), t, ids[t], draws) {
      assert TableSound(config.tables[t], t);
      ExportedIds(config, t, data[t], rows[t], ids[t]);
      ExportedMap(config, t, data[t], rows[t], ids[t], draws);
    }
  }

  /** `m` is a bijection from the table's ids, sending its `i`-th id to the `i`-th draw. */
  ghost predicate MapHolds(table: Table, m: IdMap, t: nat, ids: seq<nat>, draws: Draws) {
    && m.Keys == table.Keys && Injective(m)
    && forall i | 0 <= i < |ids| :: ids[i] in m && m[ids[i]] == draws(t, i)
  }

  lemma DataComesBack(config: Config, data: Dataset, rows: seq<seq<JsonRow>>, ids: seq<seq<nat>>, draws: Draws)
    requires Sound(config) && Distinct(draws) && DataFits(config, data) && DataClosed(config, data)
    requires ExportsData(config, data, rows, ids)
    ensures AllIdsOk(config.codec, rows) && ContentFits(config, rows)
    ensures var maps := IdMapsOf(config.codec, rows, draws);
      && DataRestores(config, rows, maps)
      && Isomorphic(config, data, RestoredData(config, rows, draws, maps, |rows|), maps)
  {
    hide Sound, Distinct, DataFits, DataClosed, ExportsTable, IdMapsOf, AllIdsOk, TableRestores, RestoredTable, TableRenamed, ColumnsOk, Injective;
    ExportedMaps(config, data, rows, ids, draws);
    SameTables(config, data);
    var maps := IdMapsOf(config.codec, rows, draws);
    forall t | 0 <= t < |data|
      ensures ColumnsOk(config, t, rows[t]) && TableRestores(config, t, rows[t], maps)
      ensures TableRenamed(config, t, data[t], RestoredTable(config, t, rows[t], draws, maps), maps)
    {
      ExportedLength(config, data, rows, ids, t);
      assert MapHolds(data[t], maps[t], t, ids[t], draws);
      TableComesBack(config, data, t, rows[t], ids[t], draws, maps);
    }
  }

  lemma SameTables(config: Config, data: Dataset)
    requires DataFits(config, data)
    ensures |data| == |config.tables|
  {
  }

  lemma ExportedLength(config: Config, data: Dataset, rows: seq<seq<JsonRow>>, ids: seq<seq<nat>>, t: nat)
    requires ExportsData(config, data, rows, ids) && t < |data|
    ensures |rows[t]| == |ids[t]|
  {
  }

  // --- group colours ---------------------------------------------------------------------------------

  /** Recolouring and renaming commute. */
  lemma ColoursCommute(config: Config, from: Dataset, to: Dataset, maps: seq<IdMap>, now: int)
    requires Sound(config) && DataFits(config, from) && DataClosed(config, from)
    requires Isomorphic(config, from, to, maps)
    ensures Isomorphic(config, WithGroupColours(config, from, now), WithGroupColours(config, to, now), maps)
  {
    hide Faithful, TableSound, RowClosed, RenamedRow, Recoloured, RowFits, Injective, CategoryColumns;
    var k, g := config.categories, config.groups;
    assert TableRenamed(config, k, from[k], to[k], maps);
    var painted, repainted := WithGroupColours(config, from, now)[k], WithGroupColours(config, to, now)[k];
    forall id | id in from[k]
      ensures painted[id].Keys == config.tables[k].columns.Keys
      ensures repainted[maps[k][id]] == RenamedRow(config, k, id, painted[id], maps)
    {
      assert RowFits(config, k, id, from[k][id]);
      assert TableClosed(config, k, from[k], from);
      assert RowClosed(config, k, from[k][id], from);
      ColourCommutes(config, from, to, maps, now, id);
    }
    assert TableRenamed(config, k, painted, repainted, maps);
  }

  lemma ColourCommutes(config: Config, from: Dataset, to: Dataset, maps: seq<IdMap>, now: int, id: nat)
    requires Sound(config) && Isomorphic(config, from, to, maps)
    requires id in from[config.categories] && RowFits(config, config.categories, id, from[config.categories][id])
    requires RowClosed(config, config.categories, from[config.categories][id], from)
    requires maps[config.categories].Keys == from[config.categories].Keys
    ensures var row := from[config.categories][id];
      var renamed := RenamedRow(config, config.categories, id, row, maps);
      var painted := Recoloured(row, from[config.groups], now);
      painted.Keys == row.Keys
      && Recoloured(renamed, to[config.groups], now) == RenamedRow(config, config.categories, id, painted, maps)
  {
    hide Faithful, TableSound, Injective, RenamedRow;
    var row := from[config.categories][id];
    var gid := row["group_id"];
    assert Fits(config.tables[config.categories].columns["group_id"], gid);
    if gid.Uuid? {
      assert gid.id in from[config.groups];
      assert TableRenamed(config, config.groups, from[config.groups], to[config.groups], maps);
      GroupColourKept(config, gid.id, from[config.groups][gid.id], maps);
    }
    PaintedRow(config, id, row, from[config.groups], to[config.groups], maps, now);
  }

  lemma GroupColourKept(config: Config, id: nat, row: Row, maps: seq<IdMap>)
    requires config.categories < |config.tables| && config.groups < |config.tables| && CategoryColumns(config)
    requires config.groups < |maps| && id in maps[config.groups] && row.Keys == config.tables[config.groups].columns.Keys
    ensures "color" in row
    ensures var renamed := RenamedRow(config, config.groups, id, row, maps);
      "color" in renamed && renamed["color"] == row["color"]
  {
  }

  lemma PaintedRow(config: Config, id: nat, row: Row, groups: Table, renamedGroups: Table, maps: seq<IdMap>, now: int)
    requires config.categories < |config.tables| == |maps| && config.groups < |config.tables| && CategoryColumns(config)
    requires id in maps[config.categories] && row.Keys == config.tables[config.categories].columns.Keys
    requires row["group_id"].Uuid? ==>
      var gid := row["group_id"].id;
      && gid in groups && gid in maps[config.groups] && maps[config.groups][gid] in renamedGroups
      && "color" in groups[gid] && "color" in renamedGroups[maps[config.groups][gid]]
      && renamedGroups[maps[config.groups][gid]]["color"] == groups[gid]["color"]
    ensures var painted := Recoloured(row, groups, now);
      && painted.Keys == row.Keys
      && Recoloured(RenamedRow(config, config.categories, id, row, maps), renamedGroups, now)
        == RenamedRow(config, config.categories, id, painted, maps)
  {
    var renamed := RenamedRow(config, config.categories, id, row, maps);
    var painted := Recoloured(row, groups, now);
    assert painted.Keys == row.Keys;
    var both := RenamedRow(config, config.categories, id, painted, maps);
    forall c | c in row ensures Recoloured(renamed, renamedGroups, now)[c] == both[c] {
    }
  }

  // --- the round trip ----------------------------------------------------------------------------------

  /** The database's checks do not depend on which ids the rows have: they say
      the same of two whole datasets that are one another's renaming. */
  ghost predicate IgnoresIds(config: Config) {
    forall from, to, maps, t | Isomorphic(config, from, to, maps) && DataClosed(config, from) && 0 <= t < |from| ::
      config.accepts(t, from[t]) == config.accepts(t, to[t])
  }

  /** No two rows of the table agree on the column, unless it is null. */
  ghost predicate Unique(table: Table, c: string) {
    forall id, other | id in table && other in table && c in table[id] && c in table[other]
                       && table[id][c] == table[other][c] && table[id][c] != Null :: id == other
  }

  /** A UNIQUE constraint on a foreign key (of goals, wallets and reconciliations,
      say) is such a check. */
  lemma UniqueLinksIgnoreIds(config: Config, t: nat, c: string)
    requires t < |config.tables| && c in config.tables[t].columns && c != "id"
    requires config.tables[t].columns[c].UuidColumn? && config.tables[t].columns[c].target.Some?
    requires forall u, table :: config.accepts(u, table) <==> (u == t ==> Unique(table, c))
    ensures IgnoresIds(config)
  {
    hide Unique, DataClosed, TableRenamed;
    forall from, to, maps, u | Isomorphic(config, from, to, maps) && DataClosed(config, from) && 0 <= u < |from|
      ensures config.accepts(u, from[u]) == config.accepts(u, to[u])
    {
      if u == t {
        UniqueRenamed(config, from, to, maps, t, c);
      }
    }
  }

  lemma UniqueRenamed(config: Config, from: Dataset, to: Dataset, maps: seq<IdMap>, t: nat, c: string)
    requires Isomorphic(config, from, to, maps) && DataClosed(config, from) && t < |from|
    requires c in config.tables[t].columns && c != "id"
    requires config.tables[t].columns[c].UuidColumn? && config.tables[t].columns[c].target.Some?
    ensures Unique(from[t], c) <==> Unique(to[t], c)
  {
    hide RowClosed, RenamedRow, Injective;
    assert TableRenamed(config, t, from[t], to[t], maps) && TableClosed(config, t, from[t], from);
    forall id, other | id in from[t] && other in from[t]
      ensures c in to[t][maps[t][id]] && c in from[t][id] && c in to[t][maps[t][other]] && c in from[t][other]
      ensures from[t][id][c] == from[t][other][c] <==> to[t][maps[t][id]][c] == to[t][maps[t][other]][c]
      ensures from[t][id][c] == Null <==> to[t][maps[t][id]][c] == Null
      ensures id == other <==> maps[t][id] == maps[t][other]
    {
      assert RowClosed(config, t, from[t][id], from) && RowClosed(config, t, from[t][other], from);
      LinkRenamed(config, from, to, maps, t, c, id, other);
      InjectiveAt(maps[t], id, other);
    }
    if Unique(from[t], c) {
      forall id, other | id in to[t] && other in to[t] && to[t][id][c] == to[t][other][c] && to[t][id][c] != Null ensures id == other {
        var i :| i in maps[t] && maps[t][i] == id;
        var j :| j in maps[t] && maps[t][j] == other;
      }
    }
    if Unique(to[t], c) {
      forall id, other | id in from[t] && other in from[t] && from[t][id][c] == from[t][other][c] && from[t][id][c] != Null ensures id == other {
        assert maps[t][id] in to[t] && maps[t][other] in to[t];
      }
    }
  }

  lemma InjectiveAt(m: IdMap, id: nat, other: nat)
    requires Injective(m) && id in m && other in m
    ensures id == other <==> m[id] == m[other]
  {
  }

  lemma LinkRenamed(config: Config, from: Dataset, to: Dataset, maps: seq<IdMap>, t: nat, c: string, id: nat, other: nat)
    requires Isomorphic(config, from, to, maps) && t < |from| && id in from[t] && other in from[t]
    requires RowClosed(config, t, from[t][id], from) && RowClosed(config, t, from[t][other], from)
    requires c in config.tables[t].columns && c != "id"
    requires config.tables[t].columns[c].UuidColumn? && config.tables[t].columns[c].target.Some?
    ensures id in maps[t] && other in maps[t] && maps[t][id] in to[t] && maps[t][other] in to[t]
    ensures c in from[t][id] && c in from[t][other] && c in to[t][maps[t][id]] && c in to[t][maps[t][other]]
    ensures from[t][id][c] == from[t][other][c] <==> to[t][maps[t][id]][c] == to[t][maps[t][other]][c]
    ensures from[t][id][c] == Null <==> to[t][maps[t][id]][c] == Null
  {
    hide RowClosed, Injective;
    assert TableRenamed(config, t, from[t], to[t], maps);
    LinkValue(config, from, to, maps, t, c, from[t][id]);
    LinkValue(config, from, to, maps, t, c, from[t][other]);
    var target := config.tables[t].columns[c].target.value;
    if from[t][id][c].Uuid? && from[t][other][c].Uuid? {
      InjectiveAt(maps[target], from[t][id][c].id, from[t][other][c].id);
    }
  }

  lemma LinkValue(config: Config, from: Dataset, to: Dataset, maps: seq<IdMap>, t: nat, c: string, row: Row)
    requires Isomorphic(config, from, to, maps) && t < |from| && RowClosed(config, t, row, from)
    requires c in row && c in config.tables[t].columns
    requires config.tables[t].columns[c].UuidColumn? && config.tables[t].columns[c].target.Some?
    ensures var columnType := config.tables[t].columns[c];
      row[c].Uuid? ==>
        && columnType.target.value < |maps| && row[c].id in maps[columnType.target.value]
        && Injective(maps[columnType.target.value])
        && RenamedValue(columnType, row[c], maps) == Uuid(maps[columnType.target.value][row[c].id])
  {
    hide RenamedRow, Injective;
    var target := config.tables[t].columns[c].target.value;
    if row[c].Uuid? {
      assert TableRenamed(config, target, from[target], to[target], maps);
    }
  }

  ghost predicate Accepted(config: Config, data: Dataset, now: int)
    requires config.categories < |data| && config.groups < |data|
  {
    && (forall t | 0 <= t < |data| :: config.accepts(t, data[t]))
    && config.accepts(config.categories, WithGroupColours(config, data, now)[config.categories])
  }

  lemma IsomorphicAccepted(config: Config, data: Dataset, restored: Dataset, maps: seq<IdMap>, now: int)
    requires Sound(config) && DataFits(config, data) && DataClosed(config, data)
    requires Isomorphic(config, data, restored, maps)
    requires IgnoresIds(config) && Accepted(config, data, now)
    ensures Accepted(config, restored, now)
  {
    hide Faithful, TableSound, CategoryColumns, TableRenamed, WithGroupColours, DataFits, DataClosed;
    SameTables(config, data);
    ColoursCommute(config, data, restored, maps, now);
    RecolouredIsClosed(config, data, now);
    RecolouredLength(config, data, now);
    var painted, repainted := WithGroupColours(config, data, now), WithGroupColours(config, restored, now);
    assert config.accepts(config.categories, painted[config.categories]) == config.accepts(config.categories, repainted[config.categories]);
    forall t | 0 <= t < |data| ensures config.accepts(t, restored[t]) {
      assert config.accepts(t, data[t]) == config.accepts(t, restored[t]);
    }
  }

  lemma RecolouredLength(config: Config, data: Dataset, now: int)
    requires config.categories < |data| && config.groups < |data|
    ensures |WithGroupColours(config, data, now)| == |data|
  {
  }

  /** Restoring an archive of `data` gives the same data under new ids: every
      column kept and every reference carried along, save that each category
      takes its group's colour and the time of the restore. It is refused only if
      the database's checks depend on ids, or refuse the data with those colours
      or the preferences. */
  lemma BackupRoundTrip(config: Config, data: Dataset, preferences: map<string, Json>, payload: Json, ids: seq<seq<nat>>, draws: Draws, now: int)
    requires Sound(config) && Distinct(draws) && DataFits(config, data) && DataClosed(config, data)
    requires Archives(config, data, preferences, payload, ids)
    ensures AllIdsOk(config.codec, PayloadRows(config, payload))
    ensures Outcome(config, payload, draws, now).Some? ==>
      var maps := IdMapsOf(config.codec, PayloadRows(config, payload), draws);
      Isomorphic(config, WithGroupColours(config, data, now), Outcome(config, payload, draws, now).value, maps)
    ensures IgnoresIds(config) && Accepted(config, data, now) && config.acceptsPreferences(preferences) ==> Outcome(config, payload, draws, now).Some?
  {
    hide Faithful, TableSound, CategoryColumns, Distinct, DataFits, DataClosed, ExportsData, AllIdsOk, IdMapsOf, TableRenamed, IgnoresIds, PayloadOk, PayloadRows, TableRestores, ContentFits, RestoredData, WithGroupColours;
    SameTables(config, data);
    var rows := PayloadRows(config, payload);
    DataComesBack(config, data, rows, ids, draws);
    var maps := IdMapsOf(config.codec, rows, draws);
    var restored := RestoredData(config, rows, draws, maps, |rows|);
    ColoursCommute(config, data, restored, maps, now);
    if IgnoresIds(config) && Accepted(config, data, now) {
      IsomorphicAccepted(config, data, restored, maps, now);
    }
  }

  // --- when the round trip is exact ---------------------------------------------------------------------

  /** Every category has its group's colour, and was modified at `now`. */
  ghost predicate AlreadyPainted(config: Config, data: Dataset, now: int)
    requires config.categories < |data| && config.groups < |data|
  {
    forall id | id in data[config.categories] :: Painted(data[config.categories][id], data[config.groups], now)
  }

  predicate Painted(row: Row, groups: Table, now: int) {
    "group_id" in row && row["group_id"].Uuid? && row["group_id"].id in groups && "color" in groups[row["group_id"].id] ==>
      && "color" in row && row["color"] == groups[row["group_id"].id]["color"]
      && "updated_at" in row && row["updated_at"] == DateTime(now)
  }

  lemma PaintedIff(config: Config, data: Dataset, now: int)
    requires config.categories < |data| && config.groups < |data|
    ensures WithGroupColours(config, data, now) == data <==> AlreadyPainted(config, data, now)
  {
    var k, painted := config.categories, WithGroupColours(config, data, now);
    forall id | id in data[k] ensures painted[k][id] == data[k][id] <==> Painted(data[k][id], data[config.groups], now) {
      RowPaintedIff(data[k][id], data[config.groups], now);
    }
    if AlreadyPainted(config, data, now) {
      assert painted[k] == data[k];
    }
  }

  lemma RowPaintedIff(row: Row, groups: Table, now: int)
    ensures Recoloured(row, groups, now) == row <==> Painted(row, groups, now)
  {
    var painted := Recoloured(row, groups, now);
    if Painted(row, groups, now) {
      assert painted == row;
    } else {
      assert painted["color"] == groups[row["group_id"].id]["color"] && painted["updated_at"] == DateTime(now);
    }
  }

  /** A renamed category shows its own colour and time: two categories that
      rename to the same row differ in neither. */
  lemma RenamingShowsPaint(config: Config, id: nat, row: Row, groups: Table, now: int, maps: seq<IdMap>)
    requires config.categories < |config.tables| == |maps| && config.groups < |config.tables| && CategoryColumns(config)
    requires id in maps[config.categories] && row.Keys == config.tables[config.categories].columns.Keys
    requires Recoloured(row, groups, now).Keys == row.Keys
    requires RenamedRow(config, config.categories, id, row, maps)
          == RenamedRow(config, config.categories, id, Recoloured(row, groups, now), maps)
    ensures Recoloured(row, groups, now) == row
  {
    var painted := Recoloured(row, groups, now);
    forall c | c in row ensures painted[c] == row[c] {
      if c == "color" || c == "updated_at" {
        assert RenamedRow(config, config.categories, id, row, maps)[c] == row[c];
        assert RenamedRow(config, config.categories, id, painted, maps)[c] == painted[c];
      }
    }
  }

  lemma ExactIff(config: Config, data: Dataset, restored: Dataset, maps: seq<IdMap>, now: int)
    requires Sound(config) && |data| == |config.tables|
    requires Isomorphic(config, WithGroupColours(config, data, now), restored, maps)
    ensures Isomorphic(config, data, restored, maps) <==> AlreadyPainted(config, data, now)
  {
    hide Faithful, TableSound, CategoryColumns, Recoloured, RenamedRow, Injective, Painted;
    PaintedIff(config, data, now);
    var k := config.categories;
    if Isomorphic(config, data, restored, maps) {
      var painted := WithGroupColours(config, data, now);
      assert TableRenamed(config, k, data[k], restored[k], maps);
      assert TableRenamed(config, k, painted[k], restored[k], maps);
      forall id | id in data[k] ensures painted[k][id] == data[k][id] {
        RenamingShowsPaint(config, id, data[k][id], data[config.groups], now, maps);
      }
      assert painted[k] == data[k];
    }
  }

  /** What a restore puts in place has its groups' colours. */
  lemma OutcomePainted(config: Config, payload: Json, draws: Draws, now: int)
    requires Sound(config) && Distinct(draws) && Outcome(config, payload, draws, now).Some?
    ensures var outcome := Outcome(config, payload, draws, now).value;
      && |outcome| == |config.tables| && config.categories < |outcome| && config.groups < |outcome|
      && AlreadyPainted(config, outcome, now)
  {
    hide Faithful, TableSound, Distinct, AllIdsOk, IdMapsOf, TableRestores, RestoredData, PayloadOk, AlreadyPainted, WithGroupColours;
    PayloadFits(config, payload);
    var rows := PayloadRows(config, payload);
    var maps := IdMapsOf(config.codec, rows, draws);
    var data := RestoredData(config, rows, draws, maps, |rows|);
    RestoredLength(config, rows, draws, maps);
    RecolouredLength(config, data, now);
    PaintIsPainted(config, data, now);
  }

  lemma RestoredLength(config: Config, rows: seq<seq<JsonRow>>, draws: Draws, maps: seq<IdMap>)
    requires Distinct(draws) && ContentFits(config, rows) && |maps| == |rows| && DataRestores(config, rows, maps)
    ensures |RestoredData(config, rows, draws, maps, |rows|)| == |config.tables|
  {
  }

  lemma PaintIsPainted(config: Config, data: Dataset, now: int)
    requires config.categories < |data| && config.groups < |data| && config.categories != config.groups
    ensures AlreadyPainted(config, WithGroupColours(config, data, now), now)
  {
  }

  /** Renaming carries the paint back: if the renamed data has its groups'
      colours, so has the data. */
  lemma PaintCarriesBack(config: Config, from: Dataset, to: Dataset, maps: seq<IdMap>, now: int)
    requires Sound(config) && DataClosed(config, from) && Isomorphic(config, from, to, maps)
    requires AlreadyPainted(config, to, now)
    ensures AlreadyPainted(config, from, now)
  {
    hide Faithful, TableSound, CategoryColumns, RowClosed, RenamedRow, Injective, Painted;
    var k, g := config.categories, config.groups;
    assert TableRenamed(config, k, from[k], to[k], maps) && TableClosed(config, k, from[k], from);
    forall id | id in from[k] ensures Painted(from[k][id], from[g], now) {
      assert RowClosed(config, k, from[k][id], from);
      assert Painted(to[k][maps[k][id]], to[g], now);
      RowPaintCarriesBack(config, from, to, maps, now, id);
    }
  }

  lemma RowPaintCarriesBack(config: Config, from: Dataset, to: Dataset, maps: seq<IdMap>, now: int, id: nat)
    requires Sound(config) && Isomorphic(config, from, to, maps) && id in from[config.categories]
    requires RowClosed(config, config.categories, from[config.categories][id], from)
    requires id in maps[config.categories] && maps[config.categories][id] in to[config.categories]
    requires Painted(to[config.categories][maps[config.categories][id]], to[config.groups], now)
    ensures Painted(from[config.categories][id], from[config.groups], now)
  {
    hide Faithful, TableSound, Injective, RenamedRow, RowClosed;
    var k, g := config.categories, config.groups;
    assert TableRenamed(config, k, from[k], to[k], maps) && TableRenamed(config, g, from[g], to[g], maps);
    var row := from[k][id];
    LinkValue(config, from, to, maps, k, "group_id", row);
    CategoryShows(config, id, row, maps);
    if row["group_id"].Uuid? {
      GroupColourKept(config, row["group_id"].id, from[g][row["group_id"].id], maps);
    }
  }

  /** A renamed category shows its colour and time, and its group renamed. */
  lemma CategoryShows(config: Config, id: nat, row: Row, maps: seq<IdMap>)
    requires config.categories < |config.tables| == |maps| && config.groups < |config.tables| && CategoryColumns(config)
    requires id in maps[config.categories] && row.Keys == config.tables[config.categories].columns.Keys
    ensures var renamed := RenamedRow(config, config.categories, id, row, maps);
      && renamed.Keys == row.Keys && renamed["color"] == row["color"] && renamed["updated_at"] == row["updated_at"]
      && renamed["group_id"] == RenamedValue(config.tables[config.categories].columns["group_id"], row["group_id"], maps)
  {
  }

  /** The round trip is a plain isomorphism, under some bijections of ids, if and
      only if every category had its group's colour already, and was modified at
      the very time of the restore. */
  lemma RoundTripIsExactIff(config: Config, data: Dataset, preferences: map<string, Json>, payload: Json, ids: seq<seq<nat>>, draws: Draws, now: int)
    requires Sound(config) && Distinct(draws) && DataFits(config, data) && DataClosed(config, data)
    requires Archives(config, data, preferences, payload, ids)
    requires Outcome(config, payload, draws, now).Some?
    ensures config.categories < |data| && config.groups < |data|
    ensures (exists maps :: Isomorphic(config, data, Outcome(config, payload, draws, now).value, maps)) <==> AlreadyPainted(config, data, now)
  {
    hide Faithful, TableSound, CategoryColumns, Distinct, DataFits, DataClosed, AllIdsOk, IdMapsOf, Isomorphic, PayloadOk, PayloadRows, Outcome, WithGroupColours, AlreadyPainted, ExportsData;
    SameTables(config, data);
    var outcome := Outcome(config, payload, draws, now).value;
    if AlreadyPainted(config, data, now) {
      BackupRoundTrip(config, data, preferences, payload, ids, draws, now);
      var drawn := IdMapsOf(config.codec, PayloadRows(config, payload), draws);
      ExactIff(config, data, outcome, drawn, now);
      assert Isomorphic(config, data, outcome, drawn);
    }
    OutcomePainted(config, payload, draws, now);
    if maps :| Isomorphic(config, data, outcome, maps) {
      PaintCarriesBack(config, data, outcome, maps, now);
    }
  }

  function BlankRow(config: Config, t: nat, id: nat): Row
    requires t < |config.tables|
  {
    map c | c in config.tables[t].columns :: if c == "id" then Uuid(id) else Null
  }

  const RED := Native(JText("red"))

  function RedGroup(config: Config): Row
    requires config.groups < |config.tables|
  {
    BlankRow(config, config.groups, 1)["color" := RED]
  }

  function RedCategory(config: Config, modified: int): Row
    requires config.categories < |config.tables|
  {
    BlankRow(config, config.categories, 2)["color" := RED]["group_id" := Uuid(1)]["updated_at" := DateTime(modified)]
  }

  /** One group and one category of the same colour, last modified at `modified`. */
  function OneCategory(config: Config, modified: int): Dataset
    requires config.groups < |config.tables| && config.categories < |config.tables|
  {
    seq(|config.tables|, t requires 0 <= t < |config.tables| =>
      if t == config.groups then map[1 := RedGroup(config)]
      else if t == config.categories then map[2 := RedCategory(config, modified)]
      else map[])
  }

  lemma RedGroupStands(config: Config, data: Dataset)
    requires Sound(config)
    ensures RowFits(config, config.groups, 1, RedGroup(config)) && RowClosed(config, config.groups, RedGroup(config), data)
    ensures "color" in RedGroup(config) && RedGroup(config)["color"] == RED
  {
    hide Faithful;
    assert TableSound(config.tables[config.groups], config.groups);
  }

  lemma RedCategoryStands(config: Config, modified: int, data: Dataset)
    requires Sound(config) && config.groups < |data| && 1 in data[config.groups]
    ensures RowFits(config, config.categories, 2, RedCategory(config, modified))
    ensures RowClosed(config, config.categories, RedCategory(config, modified), data)
    ensures var row := RedCategory(config, modified);
      "group_id" in row && row["group_id"] == Uuid(1) && "updated_at" in row && row["updated_at"] == DateTime(modified)
  {
    hide Faithful;
    assert TableSound(config.tables[config.categories], config.categories);
  }

  /** Even with the colours right, a category modified before the restore does
      not come back as it was. */
  lemma TimeIsLost(config: Config, modified: int, now: int)
    requires Sound(config) && modified < now
    ensures var data := OneCategory(config, modified);
      DataFits(config, data) && DataClosed(config, data) && !AlreadyPainted(config, data, now)
  {
    hide Faithful, TableSound, RowFits, RowClosed, RedGroup, RedCategory;
    var data := OneCategory(config, modified);
    RedGroupStands(config, data);
    RedCategoryStands(config, modified, data);
    assert !Painted(data[config.categories][2], data[config.groups], now);
  }

  lemma {:induction false} ListsEveryId(ids: seq<nat>, keys: set<nat>)
    requires forall i, j | 0 <= i < j < |ids| :: ids[i] < ids[j]
    requires forall id :: id in ids <==> id in keys
    ensures |ids| == |keys|
  {
    if ids == [] {
      assert keys == {};
    } else {
      var last, rest := ids[|ids| - 1], ids[..|ids| - 1];
      assert ids == rest + [last];
      ListsEveryId(rest, keys - {last});
      assert keys == (keys - {last}) + {last};
    }
  }

  /** The counts a restore of the archive reports are the sizes of the exported tables. */
  lemma RestoredCounts(config: Config, data: Dataset, preferences: map<string, Json>, payload: Json, ids: seq<seq<nat>>)
    requires Archives(config, data, preferences, payload, ids)
    ensures Counts(PayloadRows(config, payload)) == seq(|data|, t requires 0 <= t < |data| => |data[t]|)
  {
    hide HeaderOk, BlockOk, BlockRows;
    var rows := PayloadRows(config, payload);
    forall t | 0 <= t < |data| ensures |rows[t]| == |data[t]| {
      assert ExportsTable(config.codec, data[t], rows[t], ids[t]);
      ListsEveryId(ids[t], data[t].Keys);
    }
  }
}

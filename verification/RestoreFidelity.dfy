/** What a restored row owes to the archive, cell by cell, and which archives
    are refused. */
module RestoreFidelity {
  import opened Wrappers
  import opened Backups
  import opened BackupRestore

  /** The archive writes the id `known` for a row. */
  predicate HasId(codec: Codec, raw: JsonRow, known: nat) {
    "id" in raw && raw["id"].JText? && codec.uuidOf(raw["id"].text) == Some(known)
  }

  /** Every row has a well-formed id, and no two rows of a table share one. */
  predicate IdsAreDistinct(codec: Codec, rows: seq<seq<JsonRow>>) {
    forall t, i | 0 <= t < |rows| && 0 <= i < |rows[t]| ::
      && "id" in rows[t][i] && rows[t][i]["id"].JText? && codec.uuidOf(rows[t][i]["id"].text).Some?
      && forall j | i < j < |rows[t]| && "id" in rows[t][j] && rows[t][j]["id"].JText? ::
           codec.uuidOf(rows[t][j]["id"].text) != codec.uuidOf(rows[t][i]["id"].text)
  }

  /** The cell stands for the value: null for null, and any other value in the
      notation of its column. A reference is the id that the archive gives to one of
      its own rows, and stands for the id drawn for that row. */
  ghost predicate Told(codec: Codec, columnType: ColumnType, rows: seq<seq<JsonRow>>, draws: Draws, json: Json, v: Value) {
    match v
    case Null => json == JNull
    case Native(x) => columnType.NativeColumn? && json == x && x != JNull
    case Decimal(n) => columnType.DecimalColumn? && json.JText? && codec.decimalOf(json.text) == Some(n)
    case DateTime(n) => columnType.DateTimeColumn? && json.JText? && codec.dateTimeOf(json.text) == Some(n)
    case Date(n) => columnType.DateColumn? && json.JText? && codec.dateOf(json.text) == Some(n)
    case Uuid(n) => (
      && columnType.UuidColumn? && json.JText? && codec.uuidOf(json.text).Some?
      && (columnType.target.None? ==> codec.uuidOf(json.text) == Some(n))
      && (columnType.target.Some? ==>
            var u := columnType.target.value;
            u < |rows| && exists j | 0 <= j < |rows[u]| ::
              HasId(codec, rows[u][j], codec.uuidOf(json.text).value) && draws(u, j) == n))
  }

  /** The cell stands for some value. A cell that names no row of the archive,
      where its column refers to one, stands for none. */
  ghost predicate Readable(codec: Codec, columnType: ColumnType, rows: seq<seq<JsonRow>>, json: Json) {
    || json == JNull || columnType.NativeColumn?
    || (json.JText? &&
        match columnType
        case DecimalColumn => codec.decimalOf(json.text).Some?
        case DateTimeColumn => codec.dateTimeOf(json.text).Some?
        case DateColumn => codec.dateOf(json.text).Some?
        case NativeColumn => true
        case UuidColumn(None) => codec.uuidOf(json.text).Some?
        case UuidColumn(Some(u)) => (
          && codec.uuidOf(json.text).Some? && u < |rows|
          && exists j | 0 <= j < |rows[u]| :: HasId(codec, rows[u][j], codec.uuidOf(json.text).value)))
  }

  ghost predicate AllReadable(config: Config, rows: seq<seq<JsonRow>>)
    requires ContentFits(config, rows)
  {
    forall t, i, c | 0 <= t < |rows| && 0 <= i < |rows[t]| && c in rows[t][i] && c != "id" ::
      Readable(config.codec, config.tables[t].columns[c], rows, rows[t][i][c])
  }

  ghost predicate RowTold(config: Config, rows: seq<seq<JsonRow>>, draws: Draws, t: nat, i: nat, row: Row)
    requires ContentFits(config, rows) && t < |rows| && i < |rows[t]|
  {
    && row.Keys == rows[t][i].Keys
    && ("id" in row ==> row["id"] == Uuid(draws(t, i)))
    && forall c | c in row && c != "id" :: Told(config.codec, config.tables[t].columns[c], rows, draws, rows[t][i][c], row[c])
  }

  /** A category that has a group wears its colour and the time of the restore. */
  ghost predicate CategoryTold(config: Config, rows: seq<seq<JsonRow>>, draws: Draws, now: int, i: nat, row: Row, groups: Table)
    requires Sound(config) && ContentFits(config, rows) && i < |rows[config.categories]|
  {
    && row.Keys == rows[config.categories][i].Keys && "group_id" in row
    && if row["group_id"] == Null then RowTold(config, rows, draws, config.categories, i, row) else
       && row["group_id"].Uuid? && row["group_id"].id in groups && "color" in groups[row["group_id"].id]
       && "color" in row && row["color"] == groups[row["group_id"].id]["color"]
       && "updated_at" in row && row["updated_at"] == DateTime(now)
       && "id" in row && row["id"] == Uuid(draws(config.categories, i))
       && forall c | c in row && c !in {"id", "color", "updated_at"} ::
            Told(config.codec, config.tables[config.categories].columns[c], rows, draws, rows[config.categories][i][c], row[c])
  }

  // --- one cell ---------------------------------------------------------------------------

  lemma IdsAgree(codec: Codec, rows: seq<seq<JsonRow>>)
    ensures AllIdsOk(codec, rows) <==> IdsAreDistinct(codec, rows)
  {
    if IdsAreDistinct(codec, rows) {
      forall t | 0 <= t < |rows| ensures IdsOk(codec, rows[t]) {
        forall i, j | 0 <= i < j < |rows[t]| ensures OldId(codec, rows[t][i]) != OldId(codec, rows[t][j]) {
          assert "id" in rows[t][j] && rows[t][j]["id"].JText?;
        }
      }
    }
  }

  /** Looking a reference up finds the new id of the one row that it names. */
  lemma LookedUp(codec: Codec, rows: seq<seq<JsonRow>>, draws: Draws, u: nat, known: nat, n: nat)
    requires AllIdsOk(codec, rows) && u < |rows|
    ensures var m := IdMapsOf(codec, rows, draws)[u];
      known in m && m[known] == n <==> exists j | 0 <= j < |rows[u]| :: HasId(codec, rows[u][j], known) && draws(u, j) == n
  {
    assert IdsOk(codec, rows[u]);
    var m := IdMapsOf(codec, rows, draws)[u];
    assert m == IdMapOf(codec, u, rows[u], draws);
    if known in m && m[known] == n {
      var j :| 0 <= j < |rows[u]| && OldId(codec, rows[u][j]).value == known && draws(u, j) == n;
      assert HasId(codec, rows[u][j], known);
    }
    if j :| 0 <= j < |rows[u]| && HasId(codec, rows[u][j], known) && draws(u, j) == n {
      IdMapped(codec, u, rows[u], draws, j);
    }
  }

  /** A cell becomes a value exactly when it stands for it. */
  lemma CellIsTold(config: Config, rows: seq<seq<JsonRow>>, draws: Draws, t: nat, raw: JsonRow, c: string, v: Value)
    requires AllIdsOk(config.codec, rows) && t < |config.tables| && t < |rows|
    requires c in raw && c in config.tables[t].columns && c != "id"
    ensures RestoredColumn(config, t, raw, c, IdMapsOf(config.codec, rows, draws)) == Some(v)
      <==> Told(config.codec, config.tables[t].columns[c], rows, draws, raw[c], v)
  {
    hide AllIdsOk, IdMapsOf, HasId;
    var codec, columnType, json := config.codec, config.tables[t].columns[c], raw[c];
    if columnType.UuidColumn? && columnType.target.Some? && columnType.target.value < |rows| && json.JText? && codec.uuidOf(json.text).Some? {
      var u, known := columnType.target.value, codec.uuidOf(json.text).value;
      var m := IdMapsOf(codec, rows, draws)[u];
      if v.Uuid? {
        LookedUp(codec, rows, draws, u, known, v.id);
      }
    }
  }

  /** And it becomes one at all exactly when it is readable. */
  lemma CellIsReadable(config: Config, rows: seq<seq<JsonRow>>, draws: Draws, t: nat, raw: JsonRow, c: string)
    requires AllIdsOk(config.codec, rows) && t < |config.tables| && t < |rows|
    requires c in raw && c in config.tables[t].columns && c != "id"
    ensures RestoredColumn(config, t, raw, c, IdMapsOf(config.codec, rows, draws)).Some?
      <==> Readable(config.codec, config.tables[t].columns[c], rows, raw[c])
  {
    hide AllIdsOk, IdMapsOf, HasId;
    var codec, columnType, json := config.codec, config.tables[t].columns[c], raw[c];
    if columnType.UuidColumn? && columnType.target.Some? && columnType.target.value < |rows| && json.JText? && codec.uuidOf(json.text).Some? {
      var u, known := columnType.target.value, codec.uuidOf(json.text).value;
      var m := IdMapsOf(codec, rows, draws)[u];
      if known in m {
        LookedUp(codec, rows, draws, u, known, m[known]);
      }
      if j :| 0 <= j < |rows[u]| && HasId(codec, rows[u][j], known) {
        LookedUp(codec, rows, draws, u, known, draws(u, j));
      }
    }
  }

  // --- rows and tables -----------------------------------------------------------------------

  lemma RowIsTold(config: Config, rows: seq<seq<JsonRow>>, draws: Draws, t: nat, i: nat)
    requires ContentFits(config, rows) && AllIdsOk(config.codec, rows) && t < |rows| && i < |rows[t]|
    requires RowRestores(config, t, rows[t][i], IdMapsOf(config.codec, rows, draws))
    requires "id" in config.tables[t].columns
    ensures RowTold(config, rows, draws, t, i, RestoredRow(config, t, rows[t][i], IdMapsOf(config.codec, rows, draws)))
  {
    hide Told, RestoredColumn, IdMapOf, IdsOk;
    var maps := IdMapsOf(config.codec, rows, draws);
    var raw := rows[t][i];
    var row := RestoredRow(config, t, raw, maps);
    RestoredId(config, t, rows[t], draws, maps, i);
    forall c | c in row && c != "id" ensures Told(config.codec, config.tables[t].columns[c], rows, draws, raw[c], row[c]) {
      assert RestoredColumn(config, t, raw, c, maps) == Some(row[c]);
      CellIsTold(config, rows, draws, t, raw, c, row[c]);
    }
  }

  lemma ReadableRestores(config: Config, rows: seq<seq<JsonRow>>, draws: Draws)
    requires ContentFits(config, rows) && AllIdsOk(config.codec, rows)
    ensures DataRestores(config, rows, IdMapsOf(config.codec, rows, draws)) <==> AllReadable(config, rows)
  {
    hide Readable, RestoredColumn, IdMapOf, IdsOk, IdMapsOf;
    var maps := IdMapsOf(config.codec, rows, draws);
    forall t, i, c | 0 <= t < |rows| && 0 <= i < |rows[t]| && c in rows[t][i]
      ensures c != "id" ==> (RestoredColumn(config, t, rows[t][i], c, maps).Some? <==>
                             Readable(config.codec, config.tables[t].columns[c], rows, rows[t][i][c]))
      ensures c == "id" ==> RestoredColumn(config, t, rows[t][i], c, maps).Some?
    {
      if c == "id" {
        OwnIdRestores(config, rows, draws, t, i);
      } else {
        CellIsReadable(config, rows, draws, t, rows[t][i], c);
      }
    }
    if DataRestores(config, rows, maps) {
      forall t, i, c | 0 <= t < |rows| && 0 <= i < |rows[t]| && c in rows[t][i] && c != "id"
        ensures Readable(config.codec, config.tables[t].columns[c], rows, rows[t][i][c])
      {
        assert TableRestores(config, t, rows[t], maps) && RowRestores(config, t, rows[t][i], maps);
        assert RestoredColumn(config, t, rows[t][i], c, maps).Some?;
      }
    }
  }

  lemma OwnIdRestores(config: Config, rows: seq<seq<JsonRow>>, draws: Draws, t: nat, i: nat)
    requires ContentFits(config, rows) && AllIdsOk(config.codec, rows) && t < |rows| && i < |rows[t]|
    requires "id" in rows[t][i]
    ensures RestoredColumn(config, t, rows[t][i], "id", IdMapsOf(config.codec, rows, draws)).Some?
  {
    IdMapped(config.codec, t, rows[t], draws, i);
  }

  /** Where the database has no objection, an archive is accepted exactly when it
      is well formed, its ids are distinct and every cell can be read. */
  lemma AcceptedIff(config: Config, payload: Json, draws: Draws, now: int)
    requires Sound(config) && Distinct(draws)
    requires forall preferences :: config.acceptsPreferences(preferences)
    requires forall t, table :: config.accepts(t, table)
    ensures PayloadOk(config, payload) ==> ContentFits(config, PayloadRows(config, payload))
    ensures Outcome(config, payload, draws, now).Some? <==>
      && PayloadOk(config, payload)
      && IdsAreDistinct(config.codec, PayloadRows(config, payload))
      && AllReadable(config, PayloadRows(config, payload))
  {
    hide IdsOk, AllIdsOk, IdMapOf, IdMapsOf, AllReadable, RestoredTable, HeaderOk, BlockOk,
      Distinct, TableRestores, IdsAreDistinct, Faithful, ContentFits;
    if PayloadOk(config, payload) {
      PayloadFits(config, payload);
      var rows := PayloadRows(config, payload);
      IdsAgree(config.codec, rows);
      if AllIdsOk(config.codec, rows) {
        ReadableRestores(config, rows, draws);
        var maps := IdMapsOf(config.codec, rows, draws);
        if DataRestores(config, rows, maps) {
          var data := RestoredData(config, rows, draws, maps, |rows|);
          assert forall t | 0 <= t < |rows| :: config.accepts(t, data[t]);
          var last := WithGroupColours(config, data, now);
          assert config.accepts(config.categories, last[config.categories]);
        }
      }
    }
  }

  /** An archive that says of a row what cannot be read is refused, whatever the
      database would accept: nothing is dropped or set to null in its place. */
  lemma UnreadableIsRefused(config: Config, payload: Json, draws: Draws, now: int)
    requires Sound(config) && Distinct(draws) && PayloadOk(config, payload)
    ensures ContentFits(config, PayloadRows(config, payload))
    ensures !IdsAreDistinct(config.codec, PayloadRows(config, payload))
            || !AllReadable(config, PayloadRows(config, payload)) ==>
      Outcome(config, payload, draws, now).None?
  {
    hide IdsOk, AllIdsOk, IdMapOf, IdMapsOf, AllReadable, RestoredData, WithGroupColours, HeaderOk, BlockOk, PayloadRows,
      Distinct, DataRestores, IdsAreDistinct, Faithful, ContentFits, TableSound, CategoryColumns;
    PayloadFits(config, payload);
    var rows := PayloadRows(config, payload);
    IdsAgree(config.codec, rows);
    if AllIdsOk(config.codec, rows) {
      ReadableRestores(config, rows, draws);
    }
  }

  // --- the whole dataset ----------------------------------------------------------------------

  lemma TableIsTold(config: Config, rows: seq<seq<JsonRow>>, draws: Draws, t: nat)
    requires Distinct(draws) && ContentFits(config, rows) && AllIdsOk(config.codec, rows) && t < |rows|
    requires "id" in config.tables[t].columns
    requires TableRestores(config, t, rows[t], IdMapsOf(config.codec, rows, draws))
    ensures var table := RestoredTable(config, t, rows[t], draws, IdMapsOf(config.codec, rows, draws));
      && (forall id :: id in table <==> exists i :: 0 <= i < |rows[t]| && draws(t, i) == id)
      && forall i | 0 <= i < |rows[t]| :: draws(t, i) in table && RowTold(config, rows, draws, t, i, table[draws(t, i)])
  {
    hide RowTold, RowRestores, RestoredRow, IdMapsOf, AllIdsOk;
    var maps := IdMapsOf(config.codec, rows, draws);
    forall i | 0 <= i < |rows[t]|
      ensures RowTold(config, rows, draws, t, i, RestoredTable(config, t, rows[t], draws, maps)[draws(t, i)])
    {
      RowIsTold(config, rows, draws, t, i);
      DrawnIsRestored(config, t, rows[t], draws, maps, i);
    }
  }

  /** The restored data is the archive's: each table holds one row for each row of
      the archive, filed under its drawn id, and every cell stands for its value. */
  ghost predicate DataTold(config: Config, rows: seq<seq<JsonRow>>, draws: Draws, now: int, data: Dataset)
    requires Sound(config) && ContentFits(config, rows)
  {
    && |data| == |rows|
    && (forall t, id | 0 <= t < |rows| :: id in data[t] <==> exists i :: 0 <= i < |rows[t]| && draws(t, i) == id)
    && (forall t, i | 0 <= t < |rows| && 0 <= i < |rows[t]| ::
          draws(t, i) in data[t] && (t != config.categories ==> RowTold(config, rows, draws, t, i, data[t][draws(t, i)])))
    && (forall i | 0 <= i < |rows[config.categories]| ::
          draws(config.categories, i) in data[config.categories]
          && CategoryTold(config, rows, draws, now, i, data[config.categories][draws(config.categories, i)], data[config.groups]))
  }

  lemma ArchiveIsRestored(config: Config, payload: Json, draws: Draws, now: int)
    requires Sound(config) && Distinct(draws) && Outcome(config, payload, draws, now).Some?
    ensures ContentFits(config, PayloadRows(config, payload))
    ensures DataTold(config, PayloadRows(config, payload), draws, now, Outcome(config, payload, draws, now).value)
  {
    hide HeaderOk, BlockOk, PayloadRows, Distinct, Faithful, RowTold, CategoryTold, AllIdsOk, IdMapsOf, RestoredTable,
      TableRestores, ContentFits, WithGroupColours, TableSound, CategoryColumns;
    PayloadFits(config, payload);
    var rows := PayloadRows(config, payload);
    var maps := IdMapsOf(config.codec, rows, draws);
    var data := RestoredData(config, rows, draws, maps, |rows|);
    DatasetIsTold(config, rows, draws, now, data);
  }

  lemma DatasetIsTold(config: Config, rows: seq<seq<JsonRow>>, draws: Draws, now: int, data: Dataset)
    requires Sound(config) && Distinct(draws) && ContentFits(config, rows) && AllIdsOk(config.codec, rows)
    requires DataRestores(config, rows, IdMapsOf(config.codec, rows, draws))
    requires data == RestoredData(config, rows, draws, IdMapsOf(config.codec, rows, draws), |rows|)
    ensures DataTold(config, rows, draws, now, WithGroupColours(config, data, now))
  {
    hide Distinct, Sound, RowTold, CategoryTold, AllIdsOk, IdMapsOf, RestoredTable, TableRestores, Recoloured, WithGroupColours;
    LastIsRecoloured(config, data, now);
    var last := WithGroupColours(config, data, now);
    forall t | 0 <= t < |rows|
      ensures forall id :: id in data[t] <==> exists i :: 0 <= i < |rows[t]| && draws(t, i) == id
      ensures forall i | 0 <= i < |rows[t]| :: draws(t, i) in data[t] && RowTold(config, rows, draws, t, i, data[t][draws(t, i)])
    {
      HasIds(config, t);
      TableIsTold(config, rows, draws, t);
    }
    forall i | 0 <= i < |rows[config.categories]|
      ensures CategoryTold(config, rows, draws, now, i, last[config.categories][draws(config.categories, i)], last[config.groups])
    {
      CategoryIsTold(config, rows, draws, now, data, i);
    }
  }

  lemma HasIds(config: Config, t: nat)
    requires Sound(config) && t < |config.tables|
    ensures "id" in config.tables[t].columns
  {
    assert TableSound(config.tables[t], t);
  }

  lemma LastIsRecoloured(config: Config, data: Dataset, now: int)
    requires Sound(config) && |data| == |config.tables|
    ensures config.categories < |data| && config.groups < |data|
    ensures var last := WithGroupColours(config, data, now);
      && |last| == |data|
      && (forall t | 0 <= t < |data| && t != config.categories :: last[t] == data[t])
      && last[config.groups] == data[config.groups]
      && (forall id :: id in last[config.categories] <==> id in data[config.categories])
      && (forall id | id in data[config.categories] ::
            last[config.categories][id] == Recoloured(data[config.categories][id], data[config.groups], now))
  {
    hide Recoloured;
  }

  lemma CategoryIsTold(config: Config, rows: seq<seq<JsonRow>>, draws: Draws, now: int, data: Dataset, i: nat)
    requires Sound(config) && ContentFits(config, rows) && |data| == |rows| && i < |rows[config.categories]|
    requires draws(config.categories, i) in data[config.categories]
    requires RowTold(config, rows, draws, config.categories, i, data[config.categories][draws(config.categories, i)])
    requires forall j | 0 <= j < |rows[config.groups]| ::
      draws(config.groups, j) in data[config.groups]
      && RowTold(config, rows, draws, config.groups, j, data[config.groups][draws(config.groups, j)])
    ensures CategoryTold(config, rows, draws, now, i,
      Recoloured(data[config.categories][draws(config.categories, i)], data[config.groups], now), data[config.groups])
  {
    assert |rows| == |config.tables|;
    hide Faithful, Told, ContentFits;
    var row := data[config.categories][draws(config.categories, i)];
    assert "group_id" in row && "id" in row by { CategoryHas(config, rows, i); }
    if row["group_id"] != Null {
      GroupOf(config, rows, draws, data, i);
      var wearing := Recoloured(row, data[config.groups], now);
      forall c | c in wearing && c !in {"id", "color", "updated_at"} ensures wearing[c] == row[c] {
      }
      assert wearing.Keys == row.Keys;
    }
  }

  lemma CategoryHas(config: Config, rows: seq<seq<JsonRow>>, i: nat)
    requires Sound(config) && ContentFits(config, rows) && i < |rows[config.categories]|
    ensures {"id", "group_id", "color", "updated_at"} <= rows[config.categories][i].Keys
    ensures forall j | 0 <= j < |rows[config.groups]| :: "color" in rows[config.groups][j]
  {
    hide Faithful;
    assert ColumnsOk(config, config.categories, rows[config.categories]);
    assert ColumnsOk(config, config.groups, rows[config.groups]);
    assert TableSound(config.tables[config.categories], config.categories);
  }

  lemma GroupOf(config: Config, rows: seq<seq<JsonRow>>, draws: Draws, data: Dataset, i: nat)
    requires Sound(config) && ContentFits(config, rows) && |data| == |rows| && i < |rows[config.categories]|
    requires draws(config.categories, i) in data[config.categories]
    requires RowTold(config, rows, draws, config.categories, i, data[config.categories][draws(config.categories, i)])
    requires forall j | 0 <= j < |rows[config.groups]| ::
      draws(config.groups, j) in data[config.groups]
      && RowTold(config, rows, draws, config.groups, j, data[config.groups][draws(config.groups, j)])
    ensures var row := data[config.categories][draws(config.categories, i)];
      {"id", "group_id", "color", "updated_at"} <= row.Keys
      && (row["group_id"] != Null ==>
            row["group_id"].Uuid? && row["group_id"].id in data[config.groups] && "color" in data[config.groups][row["group_id"].id])
  {
    assert |rows| == |config.tables|;
    hide Faithful, ContentFits, HasId, TableSound;
    CategoryHas(config, rows, i);
    var row := data[config.categories][draws(config.categories, i)];
    var cell := rows[config.categories][i]["group_id"];
    assert Told(config.codec, UuidColumn(Some(config.groups)), rows, draws, cell, row["group_id"]);
    if row["group_id"] != Null {
      var j :| 0 <= j < |rows[config.groups]| && HasId(config.codec, rows[config.groups][j], config.codec.uuidOf(cell.text).value)
               && draws(config.groups, j) == row["group_id"].id;
      assert RowTold(config, rows, draws, config.groups, j, data[config.groups][draws(config.groups, j)]);
    }
  }

  /** An accepted archive carries every table under its name, in the version and
      with the columns that the application has now. */
  lemma AcceptedShape(config: Config, payload: Json, draws: Draws, now: int, t: nat)
    requires Sound(config) && Distinct(draws) && Outcome(config, payload, draws, now).Some? && t < |config.tables|
    ensures payload.JDict? && {"app_version", "exported_at", "preferences", "omissions", "data"} <= payload.fields.Keys
    ensures payload.fields["data"].JDict?
      && payload.fields["data"].fields.Keys == set u | 0 <= u < |config.tables| :: config.tables[u].name
    ensures payload.fields["preferences"].JDict?
      && forall p | p in payload.fields["preferences"].fields :: p in config.preferences || p in config.obsolete
    ensures forall p | p in config.preferences :: p in payload.fields["preferences"].fields
    ensures var block := payload.fields["data"].fields[config.tables[t].name];
      && block.JDict? && "version" in block.fields && "rows" in block.fields && block.fields["rows"].JList?
      && (block.fields["version"].JInt? ==> block.fields["version"].n == config.tables[t].version)
      && (block.fields["version"].JReal? ==> block.fields["version"].r == config.tables[t].version as real)
      && !block.fields["version"].JText? && !block.fields["version"].JNull?
      && forall raw | raw in block.fields["rows"].items :: raw.JDict? && raw.fields.Keys == config.tables[t].columns.Keys
  {
    hide Faithful, Replacement, TableSound, CategoryColumns;
    assert BlockOk(config.tables[t], payload.fields["data"].fields[config.tables[t].name]);
  }
}

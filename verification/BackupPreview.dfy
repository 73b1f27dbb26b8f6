/** What a preview says holds of the restore that follows it, whatever ids that
    one draws and whenever it comes. */
module BackupPreview {
  import opened Wrappers
  import opened Backups
  import opened BackupRestore
  import opened BackupRoundTrip

  // --- two sets of draws -------------------------------------------------------------------------------

  /** From the ids of one set of draws to those of the other. */
  function Redraw(t: nat, count: nat, draws: Draws, others: Draws): IdMap
    requires Distinct(draws)
  {
    map i | 0 <= i < count :: draws(t, i) := others(t, i)
  }

  function Redraws(rows: seq<seq<JsonRow>>, draws: Draws, others: Draws): seq<IdMap>
    requires Distinct(draws)
  {
    seq(|rows|, t requires 0 <= t < |rows| => Redraw(t, |rows[t]|, draws, others))
  }

  /** `redrawn` leads from what `m` hands out to what `other` hands out. */
  ghost predicate Leads(m: IdMap, other: IdMap, redrawn: IdMap) {
    && m.Keys == other.Keys
    && forall id | id in m :: m[id] in redrawn && redrawn[m[id]] == other[id]
  }

  ghost predicate AllLead(maps: seq<IdMap>, others: seq<IdMap>, redrawn: seq<IdMap>) {
    && |maps| == |others| == |redrawn|
    && forall t | 0 <= t < |maps| :: Leads(maps[t], others[t], redrawn[t])
  }

  lemma RedrawLeads(codec: Codec, t: nat, rows: seq<JsonRow>, draws: Draws, others: Draws)
    requires IdsOk(codec, rows) && Distinct(draws)
    ensures Leads(IdMapOf(codec, t, rows, draws), IdMapOf(codec, t, rows, others), Redraw(t, |rows|, draws, others))
  {
    hide OldId;
    var m, other, redrawn := IdMapOf(codec, t, rows, draws), IdMapOf(codec, t, rows, others), Redraw(t, |rows|, draws, others);
    forall id | id in m ensures id in other && m[id] in redrawn && redrawn[m[id]] == other[id] {
      var i :| 0 <= i < |rows| && OldId(codec, rows[i]).value == id;
      IdMapped(codec, t, rows, draws, i);
      IdMapped(codec, t, rows, others, i);
      assert draws(t, i) in redrawn;
    }
    assert m.Keys == other.Keys;
  }

  lemma RedrawsLead(config: Config, rows: seq<seq<JsonRow>>, draws: Draws, others: Draws)
    requires AllIdsOk(config.codec, rows) && Distinct(draws)
    ensures AllLead(IdMapsOf(config.codec, rows, draws), IdMapsOf(config.codec, rows, others), Redraws(rows, draws, others))
  {
    hide IdsOk, IdMapOf, Leads, Redraw, Distinct;
    forall t | 0 <= t < |rows|
      ensures Leads(IdMapOf(config.codec, t, rows[t], draws), IdMapOf(config.codec, t, rows[t], others), Redraw(t, |rows[t]|, draws, others))
    {
      RedrawLeads(config.codec, t, rows[t], draws, others);
    }
  }

  // --- one row, one table ---------------------------------------------------------------------------------

  /** A column restores under the one set of ids as it does under the other. */
  lemma ColumnRedrawn(config: Config, t: nat, raw: JsonRow, c: string, maps: seq<IdMap>, others: seq<IdMap>, redrawn: seq<IdMap>)
    requires AllLead(maps, others, redrawn) && t < |config.tables| && t < |maps|
    requires c in raw && c in config.tables[t].columns
    ensures RestoredColumn(config, t, raw, c, maps).Some? <==> RestoredColumn(config, t, raw, c, others).Some?
    ensures RestoredColumn(config, t, raw, c, maps).Some? && c != "id" ==>
      RestoredColumn(config, t, raw, c, others).value
      == RenamedValue(config.tables[t].columns[c], RestoredColumn(config, t, raw, c, maps).value, redrawn)
  {
    hide OldId, Deserialized;
    assert Leads(maps[t], others[t], redrawn[t]);
    var columnType := config.tables[t].columns[c];
    if columnType.UuidColumn? && columnType.target.Some? && columnType.target.value < |maps| {
      assert Leads(maps[columnType.target.value], others[columnType.target.value], redrawn[columnType.target.value]);
    }
  }

  lemma RowRedrawn(config: Config, t: nat, raw: JsonRow, id: nat, maps: seq<IdMap>, others: seq<IdMap>, redrawn: seq<IdMap>)
    requires AllLead(maps, others, redrawn) && t < |config.tables| && t < |maps|
    requires raw.Keys == config.tables[t].columns.Keys && "id" in raw
    ensures RowRestores(config, t, raw, maps) <==> RowRestores(config, t, raw, others)
    ensures RowRestores(config, t, raw, maps) && id in redrawn[t] && RestoredRow(config, t, raw, maps)["id"] == Uuid(id) ==>
      RestoredRow(config, t, raw, others) == RenamedRow(config, t, id, RestoredRow(config, t, raw, maps), redrawn)
  {
    hide RestoredColumn, RenamedValue, Leads;
    forall c | c in raw
      ensures RestoredColumn(config, t, raw, c, maps).Some? <==> RestoredColumn(config, t, raw, c, others).Some?
      ensures RestoredColumn(config, t, raw, c, maps).Some? && c != "id" ==>
        RestoredColumn(config, t, raw, c, others).value
        == RenamedValue(config.tables[t].columns[c], RestoredColumn(config, t, raw, c, maps).value, redrawn)
    {
      ColumnRedrawn(config, t, raw, c, maps, others, redrawn);
    }
    if RowRestores(config, t, raw, maps) && id in redrawn[t] && RestoredRow(config, t, raw, maps)["id"] == Uuid(id) {
      IdRedrawn(config, t, raw, id, maps, others, redrawn);
    }
  }

  lemma IdRedrawn(config: Config, t: nat, raw: JsonRow, id: nat, maps: seq<IdMap>, others: seq<IdMap>, redrawn: seq<IdMap>)
    requires AllLead(maps, others, redrawn) && t < |config.tables| && t < |maps|
    requires "id" in raw && "id" in config.tables[t].columns
    requires RestoredColumn(config, t, raw, "id", maps) == Some(Uuid(id)) && id in redrawn[t]
    ensures RestoredColumn(config, t, raw, "id", others) == Some(Uuid(redrawn[t][id]))
  {
    assert Leads(maps[t], others[t], redrawn[t]);
  }

  /** The rows of a restored table fit it, each filed under its id. */
  lemma RestoredTableFits(config: Config, t: nat, rows: seq<JsonRow>, draws: Draws, maps: seq<IdMap>)
    requires Distinct(draws) && t < |config.tables| && t < |maps| && TableSound(config.tables[t], t)
    requires IdsOk(config.codec, rows) && maps[t] == IdMapOf(config.codec, t, rows, draws)
    requires ColumnsOk(config, t, rows) && TableRestores(config, t, rows, maps)
    ensures forall id | id in RestoredTable(config, t, rows, draws, maps) :: RowFits(config, t, id, RestoredTable(config, t, rows, draws, maps)[id])
  {
    hide RowRestores, RestoredRow, RowFits, IdsOk, IdMapOf, Distinct;
    var table := RestoredTable(config, t, rows, draws, maps);
    forall id | id in table ensures RowFits(config, t, id, table[id]) {
      var i := RestoredIsDrawn(config, t, rows, draws, maps, id);
      DrawnIsRestored(config, t, rows, draws, maps, i);
      RestoredId(config, t, rows, draws, maps, i);
      RestoredRowFits(config, t, rows[i], maps, id);
    }
  }

  lemma RestoredRowFits(config: Config, t: nat, raw: JsonRow, maps: seq<IdMap>, id: nat)
    requires t < |config.tables| && t < |maps| && TableSound(config.tables[t], t)
    requires raw.Keys == config.tables[t].columns.Keys && RowRestores(config, t, raw, maps)
    requires RestoredRow(config, t, raw, maps)["id"] == Uuid(id)
    ensures RowFits(config, t, id, RestoredRow(config, t, raw, maps))
  {
    hide OldId;
    var row := RestoredRow(config, t, raw, maps);
    forall c | c in row ensures Fits(config.tables[t].columns[c], row[c]) {
      assert RestoredColumn(config, t, raw, c, maps).Some?;
    }
  }

  lemma TableRedrawn(config: Config, t: nat, rows: seq<JsonRow>, draws: Draws, others: Draws,
                     maps: seq<IdMap>, otherMaps: seq<IdMap>, redrawn: seq<IdMap>)
    requires Distinct(draws) && Distinct(others) && t < |config.tables| && t < |maps| && TableSound(config.tables[t], t)
    requires AllLead(maps, otherMaps, redrawn) && redrawn[t] == Redraw(t, |rows|, draws, others)
    requires IdsOk(config.codec, rows) && maps[t] == IdMapOf(config.codec, t, rows, draws)
    requires ColumnsOk(config, t, rows)
    ensures TableRestores(config, t, rows, maps) <==> TableRestores(config, t, rows, otherMaps)
    ensures TableRestores(config, t, rows, maps) ==>
      TableRenamed(config, t, RestoredTable(config, t, rows, draws, maps), RestoredTable(config, t, rows, others, otherMaps), redrawn)
  {
    hide RowRestores, RestoredRow, RenamedRow, IdsOk, IdMapOf, Leads, RestoredTable, Distinct, Redraw, Injective;
    forall i | 0 <= i < |rows|
      ensures RowRestores(config, t, rows[i], maps) <==> RowRestores(config, t, rows[i], otherMaps)
    {
      RowRedrawn(config, t, rows[i], draws(t, i), maps, otherMaps, redrawn);
    }
    if TableRestores(config, t, rows, maps) {
      var table, other := RestoredTable(config, t, rows, draws, maps), RestoredTable(config, t, rows, others, otherMaps);
      RedrawnKeys(config, t, rows, draws, others, maps, otherMaps);
      forall id | id in table
        ensures table[id].Keys == config.tables[t].columns.Keys
        ensures redrawn[t][id] in other && other[redrawn[t][id]] == RenamedRow(config, t, id, table[id], redrawn)
      {
        var i := RestoredIsDrawn(config, t, rows, draws, maps, id);
        DrawnIsRestored(config, t, rows, draws, maps, i);
        DrawnIsRestored(config, t, rows, others, otherMaps, i);
        RestoredId(config, t, rows, draws, maps, i);
        RedrawAt(t, |rows|, draws, others, i);
        RowRedrawn(config, t, rows[i], id, maps, otherMaps, redrawn);
        RestoredKeys(config, t, rows[i], maps);
      }
    }
  }

  lemma RestoredKeys(config: Config, t: nat, raw: JsonRow, maps: seq<IdMap>)
    requires t < |config.tables| && t < |maps| && raw.Keys == config.tables[t].columns.Keys && RowRestores(config, t, raw, maps)
    ensures RestoredRow(config, t, raw, maps).Keys == config.tables[t].columns.Keys
  {
  }

  lemma RedrawAt(t: nat, count: nat, draws: Draws, others: Draws, i: nat)
    requires Distinct(draws) && i < count
    ensures draws(t, i) in Redraw(t, count, draws, others) && Redraw(t, count, draws, others)[draws(t, i)] == others(t, i)
  {
  }

  lemma RedrawBijects(t: nat, count: nat, draws: Draws, others: Draws)
    requires Distinct(draws) && Distinct(others)
    ensures Injective(Redraw(t, count, draws, others))
  {
  }

  lemma Redrawn(t: nat, count: nat, draws: Draws, others: Draws, id: nat) returns (i: nat)
    requires Distinct(draws) && id in Redraw(t, count, draws, others)
    ensures i < count && draws(t, i) == id && Redraw(t, count, draws, others)[id] == others(t, i)
  {
    i :| 0 <= i < count && draws(t, i) == id;
  }

  lemma RedrawnKeys(config: Config, t: nat, rows: seq<JsonRow>, draws: Draws, others: Draws, maps: seq<IdMap>, otherMaps: seq<IdMap>)
    requires Distinct(draws) && Distinct(others) && t < |config.tables| && t < |maps| && t < |otherMaps|
    requires ColumnsOk(config, t, rows) && TableRestores(config, t, rows, maps) && TableRestores(config, t, rows, otherMaps)
    ensures var redrawn := Redraw(t, |rows|, draws, others);
      && redrawn.Keys == RestoredTable(config, t, rows, draws, maps).Keys && Injective(redrawn)
      && RestoredTable(config, t, rows, others, otherMaps).Keys == redrawn.Values
  {
    hide TableRestores, ColumnsOk, RestoredTable, Redraw, Injective, Distinct;
    var redrawn := Redraw(t, |rows|, draws, others);
    var table, other := RestoredTable(config, t, rows, draws, maps), RestoredTable(config, t, rows, others, otherMaps);
    RedrawBijects(t, |rows|, draws, others);
    forall id | id in table ensures id in redrawn {
      var i := RestoredIsDrawn(config, t, rows, draws, maps, id);
      RedrawAt(t, |rows|, draws, others, i);
    }
    forall id | id in redrawn ensures id in table && redrawn[id] in other {
      var i := Redrawn(t, |rows|, draws, others, id);
      DrawnIsRestored(config, t, rows, draws, maps, i);
      DrawnIsRestored(config, t, rows, others, otherMaps, i);
    }
    forall id | id in other ensures id in redrawn.Values {
      var i := RestoredIsDrawn(config, t, rows, others, otherMaps, id);
      RedrawAt(t, |rows|, draws, others, i);
    }
  }

  // --- the whole archive -------------------------------------------------------------------------------------

  lemma DataRedrawn(config: Config, rows: seq<seq<JsonRow>>, draws: Draws, others: Draws)
    requires Sound(config) && Distinct(draws) && Distinct(others) && ContentFits(config, rows) && AllIdsOk(config.codec, rows)
    ensures var maps, otherMaps := IdMapsOf(config.codec, rows, draws), IdMapsOf(config.codec, rows, others);
      && (DataRestores(config, rows, maps) <==> DataRestores(config, rows, otherMaps))
      && (DataRestores(config, rows, maps) ==>
            && DataFits(config, RestoredData(config, rows, draws, maps, |rows|))
            && Isomorphic(config, RestoredData(config, rows, draws, maps, |rows|), RestoredData(config, rows, others, otherMaps, |rows|),
                          Redraws(rows, draws, others)))
  {
    hide Faithful, CategoryColumns, TableSound, Distinct, IdsOk, IdMapOf, TableRestores, RestoredTable, TableRenamed, Leads, Redraw, RowFits, ColumnsOk;
    var maps, otherMaps := IdMapsOf(config.codec, rows, draws), IdMapsOf(config.codec, rows, others);
    var redrawn := Redraws(rows, draws, others);
    RedrawsLead(config, rows, draws, others);
    forall t | 0 <= t < |rows|
      ensures TableRestores(config, t, rows[t], maps) <==> TableRestores(config, t, rows[t], otherMaps)
      ensures TableRestores(config, t, rows[t], maps) ==>
        && TableRenamed(config, t, RestoredTable(config, t, rows[t], draws, maps), RestoredTable(config, t, rows[t], others, otherMaps), redrawn)
        && forall id | id in RestoredTable(config, t, rows[t], draws, maps) :: RowFits(config, t, id, RestoredTable(config, t, rows[t], draws, maps)[id])
    {
      assert TableSound(config.tables[t], t);
      TableRedrawn(config, t, rows[t], draws, others, maps, otherMaps, redrawn);
      if TableRestores(config, t, rows[t], maps) {
        RestoredTableFits(config, t, rows[t], draws, maps);
      }
    }
  }

  // --- the verdict ---------------------------------------------------------------------------------------------

  /** The tables differ at most in when their rows were modified. */
  ghost predicate SameButTimes(a: Table, b: Table) {
    && a.Keys == b.Keys
    && forall id | id in a ::
        && a[id].Keys == b[id].Keys
        && forall c | c in a[id] :: a[id][c] == b[id][c] || (c == "updated_at" && a[id][c].DateTime? && b[id][c].DateTime?)
  }

  /** The database's checks of categories do not depend on modification times. */
  ghost predicate IgnoresTimes(config: Config) {
    forall a, b | SameButTimes(a, b) :: config.accepts(config.categories, a) == config.accepts(config.categories, b)
  }

  lemma PaintedSameButTimes(config: Config, data: Dataset, now: int, later: int)
    requires config.categories < |data| && config.groups < |data|
    ensures SameButTimes(WithGroupColours(config, data, now)[config.categories], WithGroupColours(config, data, later)[config.categories])
  {
  }

  lemma SameVerdict(config: Config, rows: seq<seq<JsonRow>>, draws: Draws, now: int, others: Draws, later: int)
    requires Sound(config) && Distinct(draws) && Distinct(others) && ContentFits(config, rows)
    requires IgnoresIds(config) && IgnoresTimes(config)
    ensures Replacement(config, rows, draws, now).Some? <==> Replacement(config, rows, others, later).Some?
  {
    hide Faithful, CategoryColumns, TableSound, Distinct, IdsOk, IdMapsOf, DataRestores, RestoredData, WithGroupColours, TableRenamed, DataFits, DataClosed, SameButTimes, Redraws, ContentFits;
    if AllIdsOk(config.codec, rows) {
      DataRedrawn(config, rows, draws, others);
      if DataRestores(config, rows, IdMapsOf(config.codec, rows, draws)) {
        SameChecks(config, rows, draws, now, others, later);
      }
    }
  }

  lemma SameChecks(config: Config, rows: seq<seq<JsonRow>>, draws: Draws, now: int, others: Draws, later: int)
    requires Sound(config) && Distinct(draws) && Distinct(others) && ContentFits(config, rows) && AllIdsOk(config.codec, rows)
    requires IgnoresIds(config) && IgnoresTimes(config)
    requires DataRestores(config, rows, IdMapsOf(config.codec, rows, draws))
    requires DataRestores(config, rows, IdMapsOf(config.codec, rows, others))
    ensures var data := RestoredData(config, rows, draws, IdMapsOf(config.codec, rows, draws), |rows|);
      var other := RestoredData(config, rows, others, IdMapsOf(config.codec, rows, others), |rows|);
      var k := config.categories;
      && (forall t | 0 <= t < |rows| :: config.accepts(t, data[t]) == config.accepts(t, other[t]))
      && config.accepts(k, WithGroupColours(config, data, now)[k]) == config.accepts(k, WithGroupColours(config, other, later)[k])
  {
    hide Faithful, CategoryColumns, TableSound, Distinct, IdsOk, IdMapsOf, TableRestores, RestoredTable, WithGroupColours, TableRenamed, DataFits, DataClosed, SameButTimes, Redraws, ColumnsOk;
    var maps, otherMaps := IdMapsOf(config.codec, rows, draws), IdMapsOf(config.codec, rows, others);
    var data, other := RestoredData(config, rows, draws, maps, |rows|), RestoredData(config, rows, others, otherMaps, |rows|);
    var redrawn, k := Redraws(rows, draws, others), config.categories;
    DataRedrawn(config, rows, draws, others);
    RestoredIsClosed(config, rows, draws, maps, |rows|);
    ColoursCommute(config, data, other, redrawn, now);
    RecolouredIsClosed(config, data, now);
    RecolouredLength(config, data, now);
    forall t | 0 <= t < |rows| ensures config.accepts(t, data[t]) == config.accepts(t, other[t]) {
    }
    var painted, repainted := WithGroupColours(config, data, now), WithGroupColours(config, other, now);
    assert config.accepts(k, painted[k]) == config.accepts(k, repainted[k]);
    PaintedSameButTimes(config, other, now, later);
  }

  /** A preview foretells the restore: unless the database's checks depend on ids
      or modification times, an archive is accepted under all draws of new ids and
      at all times, or under none. */
  lemma PreviewForetells(config: Config, payload: Json, draws: Draws, now: int, others: Draws, later: int)
    requires Sound(config) && Distinct(draws) && Distinct(others)
    requires IgnoresIds(config) && IgnoresTimes(config)
    ensures Outcome(config, payload, draws, now).Some? <==> Outcome(config, payload, others, later).Some?
  {
    hide Sound, Distinct, PayloadOk, PayloadRows, IgnoresIds, IgnoresTimes, Replacement, ContentFits;
    if PayloadOk(config, payload) {
      PayloadFits(config, payload);
      SameVerdict(config, PayloadRows(config, payload), draws, now, others, later);
    }
  }
}

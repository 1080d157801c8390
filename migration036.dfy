/**
 * Migration 36, "update with quality converters": adds `QualityProfiles.Items`
 * when it is missing, rewrites every quality profile's legacy `Allowed` list
 * into the full weight-ordered item list, and flattens the legacy nested
 * quality model held in the `Quality` column of `Blacklist`, `EpisodeFiles`
 * and `History`.
 */
module Migration036 {
  import opened Wrappers
  import opened QualityModels
  import opened ProfileItems
  import opened TableStore

  const QualityProfiles: string := "QualityProfiles"
  const Blacklist: string := "Blacklist"
  const EpisodeFiles: string := "EpisodeFiles"
  const History: string := "History"

  const IdColumn: string := "Id"
  const AllowedColumn: string := "Allowed"
  const ItemsColumn: string := "Items"
  const QualityColumn: string := "Quality"

  // ---------------------------------------------------------------------------
  // Structural step

  /** `QualityProfiles` after the existence-checked ADD COLUMN of `Items`. */
  function EnsureItemsColumn(t: Table): Table
  {
    if ItemsColumn in t.columns then t else WithColumn(t, ItemsColumn)
  }

  /** The structural step keeps `QualityProfiles` readable by the profile pass. */
  lemma EnsureItemsColumnKeepsReadable(t: Table, codec: Codec)
    requires ProfilesReadable(t, codec)
    ensures ProfilesReadable(EnsureItemsColumn(t), codec) && ItemsColumn in EnsureItemsColumn(t).columns
  {
    var r := EnsureItemsColumn(t);
    forall i | 0 <= i < |t.rows|
      ensures ProfileRowReadable(r.rows[i], codec) && r.rows[i][IdColumn] == t.rows[i][IdColumn]
    {
      assert IdColumn != ItemsColumn && AllowedColumn != ItemsColumn;
      assert ProfileRowReadable(t.rows[i], codec);
    }
  }

  /** The column is there afterwards, and a second application changes nothing. */
  lemma EnsureItemsColumnIdempotent(t: Table)
    ensures ItemsColumn in EnsureItemsColumn(t).columns
    ensures EnsureItemsColumn(t).columns == t.columns + {ItemsColumn}
    ensures EnsureItemsColumn(EnsureItemsColumn(t)) == EnsureItemsColumn(t)
    ensures ItemsColumn in t.columns ==> EnsureItemsColumn(t) == t
  {
  }

  // ---------------------------------------------------------------------------
  // Quality profiles

  /** A profile row the pass can read: an integer id and an `Allowed` text the strict deserialiser accepts. */
  predicate ProfileRowReadable(r: Row, codec: Codec)
  {
    && IdColumn in r && r[IdColumn].Int?
    && AllowedColumn in r && r[AllowedColumn].Text?
    && codec.deserializeAllowed(r[AllowedColumn].s).Some?
  }

  /** No two rows share an `Id` (the table's primary key). */
  predicate DistinctIds(rows: seq<Row>)
  {
    forall i, j :: 0 <= i < j < |rows| && IdColumn in rows[i] && IdColumn in rows[j] ==>
      rows[i][IdColumn] != rows[j][IdColumn]
  }

  /** `QualityProfiles` as the pass needs it: readable rows with distinct ids. */
  predicate ProfilesReadable(t: Table, codec: Codec)
  {
    && t.WellFormed()
    && IdColumn in t.columns && AllowedColumn in t.columns
    && (forall i :: 0 <= i < |t.rows| ==> ProfileRowReadable(t.rows[i], codec))
    && DistinctIds(t.rows)
  }

  /** The legacy allowed qualities of a profile row. */
  function AllowedOf(r: Row, codec: Codec): seq<Quality>
    requires ProfileRowReadable(r, codec)
  {
    codec.deserializeAllowed(r[AllowedColumn].s).value
  }

  /** The serialised item list written into a profile row's `Items`. */
  function ItemsFor(r: Row, catalog: seq<QualityDefinition>, codec: Codec): Value
    requires ProfileRowReadable(r, codec)
  {
    Text(codec.serializeItems(CanonicalItems(catalog, AllowedOf(r, codec))))
  }

  /** The profile rows once the first `k` of them have been converted. */
  function ProfilesConvertedUpTo(rows: seq<Row>, k: nat, catalog: seq<QualityDefinition>, codec: Codec): seq<Row>
    requires forall i :: 0 <= i < |rows| ==> ProfileRowReadable(rows[i], codec)
    requires k <= |rows|
  {
    seq(|rows|, i requires 0 <= i < |rows| =>
      if i < k then rows[i][ItemsColumn := ItemsFor(rows[i], catalog, codec)] else rows[i])
  }

  /**
   * `QualityProfiles` after the profile pass: each row's `Items` holds the
   * item list of its own `Allowed`; every other column, and the row count,
   * are as before.
   */
  function ConvertProfiles(t: Table, catalog: seq<QualityDefinition>, codec: Codec): (r: Table)
    requires ProfilesReadable(t, codec)
    ensures r.columns == t.columns && |r.rows| == |t.rows|
    ensures forall i :: 0 <= i < |t.rows| ==>
      ItemsColumn in r.rows[i] && r.rows[i][ItemsColumn] == ItemsFor(t.rows[i], catalog, codec)
    ensures forall i, c :: 0 <= i < |t.rows| && c in t.rows[i] && c != ItemsColumn ==>
      c in r.rows[i] && r.rows[i][c] == t.rows[i][c]
    ensures ItemsColumn in t.columns ==> r.WellFormed() && ProfilesReadable(r, codec)
  {
    Table(t.columns, ProfilesConvertedUpTo(t.rows, |t.rows|, catalog, codec))
  }

  /** With distinct ids, `UPDATE ... WHERE Id = ?` for row `k` converts row `k` and no other. */
  lemma UpdateByIdConvertsOneRow(rows: seq<Row>, k: nat, catalog: seq<QualityDefinition>, codec: Codec)
    requires forall i :: 0 <= i < |rows| ==> ProfileRowReadable(rows[i], codec)
    requires DistinctIds(rows)
    requires k < |rows|
    ensures UpdateRows(ProfilesConvertedUpTo(rows, k, catalog, codec),
                       ItemsColumn, ItemsFor(rows[k], catalog, codec), IdColumn, rows[k][IdColumn])
         == ProfilesConvertedUpTo(rows, k + 1, catalog, codec)
  {
    var before := ProfilesConvertedUpTo(rows, k, catalog, codec);
    var updated := UpdateRows(before, ItemsColumn, ItemsFor(rows[k], catalog, codec), IdColumn, rows[k][IdColumn]);
    var after := ProfilesConvertedUpTo(rows, k + 1, catalog, codec);
    forall i | 0 <= i < |rows|
      ensures updated[i] == after[i]
    {
      assert IdColumn in before[i] && before[i][IdColumn] == rows[i][IdColumn];
      if i < k {
        assert rows[i][IdColumn] != rows[k][IdColumn];
      } else if k < i {
        assert rows[k][IdColumn] != rows[i][IdColumn];
      }
    }
  }

  /**
   * The profile pass: reads every profile's id and `Allowed`, builds its item
   * list and writes it into that profile's `Items`.
   */
  method ConvertQualityProfiles(db: Store, catalog: seq<QualityDefinition>, codec: Codec)
    requires db.Valid() && QualityProfiles in db.tables
    requires ProfilesReadable(db.tables[QualityProfiles], codec)
    requires ItemsColumn in db.tables[QualityProfiles].columns
    modifies db
    ensures db.Valid()
    ensures db.tables == old(db.tables)[QualityProfiles := ConvertProfiles(old(db.tables)[QualityProfiles], catalog, codec)]
  {
    ghost var t := db.tables[QualityProfiles];
    var reader := db.SelectPairs(QualityProfiles, IdColumn, AllowedColumn);
    assert ProfilesConvertedUpTo(t.rows, 0, catalog, codec) == t.rows;
    var i := 0;
    while i < |reader|
      invariant 0 <= i <= |reader| == |t.rows|
      invariant db.Valid()
      invariant db.tables == old(db.tables)[QualityProfiles := Table(t.columns, ProfilesConvertedUpTo(t.rows, i, catalog, codec))]
    {
      var id := reader[i].0.i;
      var allowedJson := reader[i].1.s;
      var allowed := codec.deserializeAllowed(allowedJson).value;
      var items := CanonicalItems(catalog, allowed);
      UpdateByIdConvertsOneRow(t.rows, i, catalog, codec);
      db.Update(QualityProfiles, ItemsColumn, Text(codec.serializeItems(items)), IdColumn, Int(id));
      i := i + 1;
    }
  }

  // ---------------------------------------------------------------------------
  // Quality models

  /** A table whose `Quality` column holds text in every row. */
  predicate ModelTableReadable(t: Table)
  {
    && t.WellFormed()
    && QualityColumn in t.columns
    && forall i :: 0 <= i < |t.rows| ==> QualityColumn in t.rows[i] && t.rows[i][QualityColumn].Text?
  }

  /**
   * The value a legacy quality value is rewritten to: the serialised flat
   * model when the tolerant deserialiser accepts it, None (skip) otherwise.
   */
  function NewQuality(legacy: Value, codec: Codec): (r: Option<Value>)
    ensures r.Some? <==> legacy.Text? && codec.tryDeserializeSource(legacy.s).Some?
    ensures r.Some? ==> exists source :: (codec.tryDeserializeSource(legacy.s) == Some(source) &&
      r.value == Text(codec.serializeDestination(DestinationQualityModel(source.quality.id, source.proper))))
  {
    if !legacy.Text? then None
    else
      match codec.tryDeserializeSource(legacy.s)
      case None => None
      case Some(source) => Some(Text(codec.serializeDestination(Flatten(source))))
  }

  /** One step of the pass: every row holding `legacy` gets its new value, or nothing changes when it does not parse. */
  function RewriteValue(rows: seq<Row>, legacy: Value, codec: Codec): seq<Row>
  {
    match NewQuality(legacy, codec)
    case None => rows
    case Some(written) => UpdateRows(rows, QualityColumn, written, QualityColumn, legacy)
  }

  /** One step seen from one row: the row changes only if it holds `legacy` and `legacy` parses. */
  lemma RewriteValueAt(rows: seq<Row>, legacy: Value, codec: Codec, i: int)
    requires 0 <= i < |rows|
    ensures |RewriteValue(rows, legacy, codec)| == |rows|
    ensures RewriteValue(rows, legacy, codec)[i] ==
      (if QualityColumn in rows[i] && rows[i][QualityColumn] == legacy && NewQuality(legacy, codec).Some?
       then rows[i][QualityColumn := NewQuality(legacy, codec).value]
       else rows[i])
  {
  }

  /** A step for a value that parses is the UPDATE writing its flattened form. */
  lemma RewriteValueParsed(rows: seq<Row>, legacy: Value, codec: Codec, source: SourceQualityModel)
    requires legacy.Text? && codec.tryDeserializeSource(legacy.s) == Some(source)
    ensures RewriteValue(rows, legacy, codec)
         == UpdateRows(rows, QualityColumn, Text(codec.serializeDestination(Flatten(source))), QualityColumn, legacy)
  {
  }

  /** The rows after the steps for `legacyValues`, taken in order. */
  function RewriteAll(rows: seq<Row>, legacyValues: seq<Value>, codec: Codec): seq<Row>
  {
    if legacyValues == [] then rows
    else
      var n := |legacyValues| - 1;
      RewriteValue(RewriteAll(rows, legacyValues[..n], codec), legacyValues[n], codec)
  }

  /** A model table after its pass: one step per distinct `Quality` value, read before any rewriting. */
  function ConvertModelTable(t: Table, codec: Codec): Table
    requires ModelTableReadable(t)
  {
    Table(t.columns, RewriteAll(t.rows, Distinct(ColumnValues(t.rows, QualityColumn)), codec))
  }

  lemma RewriteAllSnoc(rows: seq<Row>, legacyValues: seq<Value>, codec: Codec, i: int)
    requires 0 <= i < |legacyValues|
    ensures RewriteAll(rows, legacyValues[..i + 1], codec)
         == RewriteValue(RewriteAll(rows, legacyValues[..i], codec), legacyValues[i], codec)
  {
    assert legacyValues[..i + 1][..i] == legacyValues[..i];
  }

  /** Every distinct `Quality` value of a readable model table is a text. */
  lemma DistinctQualitiesAreText(t: Table)
    requires ModelTableReadable(t)
    ensures forall v :: v in Distinct(ColumnValues(t.rows, QualityColumn)) ==> v.Text?
  {
  }

  /** A row with its legacy quality flattened, or the row itself when that value does not parse. */
  function FlattenRow(r: Row, codec: Codec): Row
  {
    if QualityColumn in r && NewQuality(r[QualityColumn], codec).Some?
    then r[QualityColumn := NewQuality(r[QualityColumn], codec).value]
    else r
  }

  /**
   * No flattened value is itself another legacy value of the list that
   * parses; without this a row rewritten early could be rewritten again by a
   * later step.
   */
  predicate NoChain(legacyValues: seq<Value>, codec: Codec)
  {
    forall x, y ::
      (x in legacyValues && y in legacyValues && x != y && NewQuality(x, codec).Some? && NewQuality(y, codec).Some?)
      ==> NewQuality(x, codec).value != y
  }

  /** The pass keeps the row count, the columns of each row and every column but `Quality`. */
  lemma {:induction false} RewriteAllKeepsOtherColumns(rows: seq<Row>, legacyValues: seq<Value>, codec: Codec)
    ensures |RewriteAll(rows, legacyValues, codec)| == |rows|
    ensures forall i :: 0 <= i < |rows| && QualityColumn in rows[i] ==>
      RewriteAll(rows, legacyValues, codec)[i].Keys == rows[i].Keys
    ensures forall i, c :: 0 <= i < |rows| && c in rows[i] && c != QualityColumn ==>
      c in RewriteAll(rows, legacyValues, codec)[i] && RewriteAll(rows, legacyValues, codec)[i][c] == rows[i][c]
  {
    if legacyValues != [] {
      RewriteAllKeepsOtherColumns(rows, legacyValues[..|legacyValues| - 1], codec);
    }
  }

  /** Tolerant skip: a row whose legacy value does not parse is left exactly as it was. */
  lemma {:induction false} RewriteAllSkipsUnparseable(rows: seq<Row>, legacyValues: seq<Value>, codec: Codec, i: int)
    requires 0 <= i < |rows| && QualityColumn in rows[i]
    requires NewQuality(rows[i][QualityColumn], codec).None?
    ensures |RewriteAll(rows, legacyValues, codec)| == |rows|
    ensures RewriteAll(rows, legacyValues, codec)[i] == rows[i]
  {
    RewriteAllKeepsOtherColumns(rows, legacyValues, codec);
    if legacyValues != [] {
      RewriteAllSkipsUnparseable(rows, legacyValues[..|legacyValues| - 1], codec, i);
    }
  }

  /**
   * Value-keyed rewrite: after the steps for a duplicate-free list of legacy
   * values, whatever its order, each row holding one of them is flattened and
   * every other row is untouched.
   */
  lemma {:induction false} RewriteAllFlattens(rows: seq<Row>, legacyValues: seq<Value>, codec: Codec)
    requires forall i :: 0 <= i < |rows| ==> QualityColumn in rows[i]
    requires NoDuplicates(legacyValues) && NoChain(legacyValues, codec)
    ensures |RewriteAll(rows, legacyValues, codec)| == |rows|
    ensures forall i :: 0 <= i < |rows| ==>
      RewriteAll(rows, legacyValues, codec)[i] == (if rows[i][QualityColumn] in legacyValues then FlattenRow(rows[i], codec) else rows[i])
  {
    RewriteAllKeepsOtherColumns(rows, legacyValues, codec);
    if legacyValues != [] {
      var n := |legacyValues| - 1;
      var init, last := legacyValues[..n], legacyValues[n];
      assert legacyValues == init + [last];
      assert NoChain(init, codec);
      RewriteAllFlattens(rows, init, codec);
      var before := RewriteAll(rows, init, codec);
      forall i | 0 <= i < |rows|
        ensures RewriteAll(rows, legacyValues, codec)[i] ==
          (if rows[i][QualityColumn] in legacyValues then FlattenRow(rows[i], codec) else rows[i])
      {
        var q := rows[i][QualityColumn];
        RewriteValueAt(before, last, codec, i);
        if q in init {
          assert q != last;
          assert before[i] == FlattenRow(rows[i], codec);
          if NewQuality(q, codec).Some? && NewQuality(last, codec).Some? {
            assert NewQuality(q, codec).value != last;
          }
        } else {
          assert before[i] == rows[i];
        }
      }
    }
  }

  /**
   * The pass over one model table, whatever its name: each distinct legacy
   * `Quality` value is read once, skipped when it does not parse, and
   * otherwise written, flattened, into every row holding it.
   */
  method ConvertQualityModel(db: Store, tableName: string, codec: Codec)
    requires db.Valid() && tableName in db.tables && ModelTableReadable(db.tables[tableName])
    modifies db
    ensures db.Valid()
    ensures db.tables == old(db.tables)[tableName := ConvertModelTable(old(db.tables)[tableName], codec)]
  {
    ghost var t := db.tables[tableName];
    var legacyValues := db.SelectDistinct(tableName, QualityColumn);
    DistinctQualitiesAreText(t);
    assert legacyValues[..0] == [];
    var i := 0;
    while i < |legacyValues|
      invariant 0 <= i <= |legacyValues|
      invariant db.Valid()
      invariant db.tables == old(db.tables)[tableName := Table(t.columns, RewriteAll(t.rows, legacyValues[..i], codec))]
    {
      RewriteAllSnoc(t.rows, legacyValues, codec, i);
      var qualityJson := legacyValues[i].s;
      var sourceQuality := codec.tryDeserializeSource(qualityJson);
      if sourceQuality.None? {
        i := i + 1;
        continue;
      }
      var qualityNew := Flatten(sourceQuality.value);
      RewriteValueParsed(RewriteAll(t.rows, legacyValues[..i], codec), legacyValues[i], codec, sourceQuality.value);
      db.Update(tableName, QualityColumn, Text(codec.serializeDestination(qualityNew)), QualityColumn, Text(qualityJson));
      i := i + 1;
    }
    assert legacyValues[..i] == legacyValues;
  }

  /** The three tables holding a quality model, each readable. */
  predicate ModelTablesReadable(tables: map<string, Table>)
  {
    && Blacklist in tables && ModelTableReadable(tables[Blacklist])
    && EpisodeFiles in tables && ModelTableReadable(tables[EpisodeFiles])
    && History in tables && ModelTableReadable(tables[History])
  }

  /** The store after the quality-model passes over `Blacklist`, `EpisodeFiles` and `History`, in that order. */
  function ConvertModels(tables: map<string, Table>, codec: Codec): map<string, Table>
    requires ModelTablesReadable(tables)
  {
    var afterBlacklist := tables[Blacklist := ConvertModelTable(tables[Blacklist], codec)];
    var afterEpisodeFiles := afterBlacklist[EpisodeFiles := ConvertModelTable(afterBlacklist[EpisodeFiles], codec)];
    afterEpisodeFiles[History := ConvertModelTable(afterEpisodeFiles[History], codec)]
  }

  /** The quality-model passes, table by table. */
  method ConvertQualityModels(db: Store, codec: Codec)
    requires db.Valid() && ModelTablesReadable(db.tables)
    modifies db
    ensures db.Valid()
    ensures db.tables == ConvertModels(old(db.tables), codec)
  {
    ConvertQualityModel(db, Blacklist, codec);
    ConvertQualityModel(db, EpisodeFiles, codec);
    ConvertQualityModel(db, History, codec);
  }

  // ---------------------------------------------------------------------------
  // The whole migration

  /** What the migration needs of the store it runs against. */
  predicate UpgradeReady(tables: map<string, Table>, codec: Codec)
  {
    && QualityProfiles in tables && ProfilesReadable(tables[QualityProfiles], codec)
    && ModelTablesReadable(tables)
  }

  /** The store after the migration: the structural step, then the profile pass, then the model passes. */
  function Upgrade(tables: map<string, Table>, catalog: seq<QualityDefinition>, codec: Codec): map<string, Table>
    requires UpgradeReady(tables, codec)
  {
    var withItems := tables[QualityProfiles := EnsureItemsColumn(tables[QualityProfiles])];
    var profiled := withItems[QualityProfiles := ConvertProfiles(withItems[QualityProfiles], catalog, codec)];
    ConvertModels(profiled, codec)
  }

  /** The migration body: add `Items` if it is missing, then convert profiles, then quality models. */
  method MainDbUpgrade(db: Store, catalog: seq<QualityDefinition>, codec: Codec)
    requires db.Valid() && UpgradeReady(db.tables, codec)
    modifies db
    ensures db.Valid()
    ensures db.tables == Upgrade(old(db.tables), catalog, codec)
  {
    ghost var start := db.tables;
    if !db.HasColumn(QualityProfiles, ItemsColumn) {
      db.AddColumn(QualityProfiles, ItemsColumn);
    }
    assert db.tables == start[QualityProfiles := EnsureItemsColumn(start[QualityProfiles])];
    EnsureItemsColumnKeepsReadable(start[QualityProfiles], codec);
    assert ModelTablesReadable(db.tables);
    ConvertQualityProfiles(db, catalog, codec);
    assert ModelTablesReadable(db.tables);
    ConvertQualityModels(db, codec);
  }

  /**
   * Schema and scope: the same tables exist afterwards, `QualityProfiles`
   * has gained exactly the `Items` column, every table keeps its row count,
   * and no table but the four the migration names is touched.
   */
  lemma UpgradeScope(tables: map<string, Table>, catalog: seq<QualityDefinition>, codec: Codec)
    requires UpgradeReady(tables, codec)
    ensures var r := Upgrade(tables, catalog, codec);
      && r.Keys == tables.Keys
      && r[QualityProfiles].columns == tables[QualityProfiles].columns + {ItemsColumn}
      && (forall name :: name in tables ==> |r[name].rows| == |tables[name].rows|)
      && (forall name :: name in tables && name != QualityProfiles ==> r[name].columns == tables[name].columns)
      && (forall name :: name in tables && name !in {QualityProfiles, Blacklist, EpisodeFiles, History} ==>
            r[name] == tables[name])
  {
    var r := Upgrade(tables, catalog, codec);
    forall name | name in tables
      ensures |r[name].rows| == |tables[name].rows|
    {
      if name in {Blacklist, EpisodeFiles, History} {
        var t := tables[name];
        RewriteAllKeepsOtherColumns(t.rows, Distinct(ColumnValues(t.rows, QualityColumn)), codec);
      }
    }
  }

  /**
   * The profile rows afterwards: each is the old row with `Items` set to the
   * item list of its own `Allowed`, whether or not the column existed before.
   */
  lemma UpgradeProfileRows(tables: map<string, Table>, catalog: seq<QualityDefinition>, codec: Codec)
    requires UpgradeReady(tables, codec)
    ensures var before := tables[QualityProfiles].rows;
      var after := Upgrade(tables, catalog, codec)[QualityProfiles].rows;
      && |after| == |before|
      && forall i :: 0 <= i < |before| ==> after[i] == before[i][ItemsColumn := ItemsFor(before[i], catalog, codec)]
  {
    var before := tables[QualityProfiles].rows;
    var withItems := EnsureItemsColumn(tables[QualityProfiles]);
    var after := Upgrade(tables, catalog, codec)[QualityProfiles].rows;
    forall i | 0 <= i < |before|
      ensures after[i] == before[i][ItemsColumn := ItemsFor(before[i], catalog, codec)]
    {
      assert withItems.rows[i][ItemsColumn := ItemsFor(before[i], catalog, codec)]
          == before[i][ItemsColumn := ItemsFor(before[i], catalog, codec)];
    }
  }

  /**
   * The model tables afterwards: rows whose legacy value does not parse are
   * unchanged; and when no flattened value is another parseable legacy value
   * of the same table, every row is exactly its flattened self, the same rule
   * for all three tables.
   */
  lemma UpgradeModelRows(tables: map<string, Table>, catalog: seq<QualityDefinition>, codec: Codec, name: string)
    requires UpgradeReady(tables, codec)
    requires name == Blacklist || name == EpisodeFiles || name == History
    ensures var before := tables[name].rows;
      var after := Upgrade(tables, catalog, codec)[name].rows;
      && |after| == |before|
      && (forall i :: 0 <= i < |before| && NewQuality(before[i][QualityColumn], codec).None? ==> after[i] == before[i])
      && (NoChain(ColumnValues(before, QualityColumn), codec) ==>
            forall i :: 0 <= i < |before| ==> after[i] == FlattenRow(before[i], codec))
  {
    var before := tables[name].rows;
    var values := ColumnValues(before, QualityColumn);
    var legacyValues := Distinct(values);
    assert Upgrade(tables, catalog, codec)[name] == ConvertModelTable(tables[name], codec);
    RewriteAllKeepsOtherColumns(before, legacyValues, codec);
    forall i | 0 <= i < |before| && NewQuality(before[i][QualityColumn], codec).None?
      ensures RewriteAll(before, legacyValues, codec)[i] == before[i]
    {
      RewriteAllSkipsUnparseable(before, legacyValues, codec, i);
    }
    if NoChain(values, codec) {
      assert NoChain(legacyValues, codec);
      RewriteAllFlattens(before, legacyValues, codec);
      forall i | 0 <= i < |before|
        ensures before[i][QualityColumn] in legacyValues
      {
        assert values[i] == before[i][QualityColumn];
      }
    }
  }
}

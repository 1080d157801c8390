# Sonarr migration 36 (`update_with_quality_converters`) in Dafny

This project models the body of Sonarr's database migration 36. The migration makes three changes, in order:

1. It adds a nullable `Items` column to `QualityProfiles`, but only when the schema does not already have it.
2. It rewrites every quality profile. The legacy `Allowed` list (the qualities the profile accepts) becomes a complete
   item list: one `{quality, allowed}` item per quality definition, in ascending definition weight. The list is
   serialised into the profile's `Items` column.
3. It flattens the legacy quality model in the `Quality` column of `Blacklist`, then `EpisodeFiles`, then `History`.
   Each distinct legacy value is parsed tolerantly. A value that does not parse is skipped. A value that parses is
   reduced to `{Quality: nested id, Proper}`, serialised, and written into every row holding the old value.

Layout:

- `wrappers.dfy`: `Option`.
- `quality_models.dfy`: the value shapes of the migration (`SourceQualityModel036`, `SourceQuality036`,
  `DestinationQualityModel036`, quality definitions, profile items), the flattening `Flatten`, and `Codec`.
  `Codec` bundles the foreign serialisers as function parameters: the strict JSON deserialiser of `Allowed`, the
  tolerant deserialiser of a legacy quality model, and the two embedded-document converters.
- `weight_order.dfy`: LINQ `OrderBy(v => v.Weight)` as a stable insertion sort.
- `profile_items.dfy`: the item list built for one profile, and its properties.
- `table_store.dfy`: the database as a `Store` object holding a map from table name to table (a column set and a
  sequence of rows, each row a map from column to value). Its methods are the schema check, ADD COLUMN, the two
  SELECTs and the UPDATE that the migration issues.
- `migration036.dfy`: `MainDbUpgrade`, `ConvertQualityProfiles`, `ConvertQualityModels` and `ConvertQualityModel`.
  These are imperative methods over the `Store`. Each is proved against a specification function
  (`Upgrade`, `ConvertProfiles`, `ConvertModels`, `ConvertModelTable`). Lemmas state what those functions promise.

The quality-definition catalog (`Quality.DefaultQualityDefinitions`) is an input sequence of `{quality, weight}`.

## Model

All source paths are in `src/NzbDrone.Core/Datastore/Migration/036_update_with_quality_converters.cs`.

| member | source | states |
|---|---|---|
| QualityModels.FlattenIsBijective | src/NzbDrone.Core/Datastore/Migration/036_update_with_quality_converters.cs:90-94 | The flat model holds exactly the nested quality id and the proper flag. Flattening and nesting are mutual inverses, so nothing the parsed legacy class `SourceQualityModel036` (nested id and proper flag) carries is lost. Other fields of the stored nested quality object are dropped by the parse itself. |
| WeightOrder.SortByWeight | src/NzbDrone.Core/Datastore/Migration/036_update_with_quality_converters.cs:45 | The ordered catalog has non-decreasing weights and is a permutation of the catalog (same multiset, same length). |
| WeightOrder.SortByWeightStable | src/NzbDrone.Core/Datastore/Migration/036_update_with_quality_converters.cs:45 | The ordering is stable. For every weight, the definitions of that weight keep their catalog order. |
| WeightOrder.InsertWithWeight | src/NzbDrone.Core/Datastore/Migration/036_update_with_quality_converters.cs:45 | Inserting a definition into a weight-sorted list puts it after every definition of equal weight and leaves the others in place. |
| WeightOrder.SortByWeightOfSorted | src/NzbDrone.Core/Datastore/Migration/036_update_with_quality_converters.cs:45 | A catalog already in weight order is kept as it is. |
| ProfileItems.CanonicalItems | src/NzbDrone.Core/Datastore/Migration/036_update_with_quality_converters.cs:45 | The item list has one entry per catalog definition. An item is allowed exactly when its quality is in the legacy allowed list. |
| ProfileItems.ItemsCoverCatalogOnce | src/NzbDrone.Core/Datastore/Migration/036_update_with_quality_converters.cs:45 | For a catalog with distinct qualities, every catalog quality appears in exactly one item and every item names a catalog quality. |
| ProfileItems.ItemsInWeightOrder | src/NzbDrone.Core/Datastore/Migration/036_update_with_quality_converters.cs:45 | Items follow ascending catalog weight, whatever the order of the legacy list. |
| ProfileItems.ItemsIgnoreAllowedOrder | src/NzbDrone.Core/Datastore/Migration/036_update_with_quality_converters.cs:45 | Only which qualities the legacy list contains matters, not their order or repetition. |
| ProfileItems.EmptyAllowedDisallowsAll | src/NzbDrone.Core/Datastore/Migration/036_update_with_quality_converters.cs:45 | An empty legacy list gives a full-length list with every item disallowed. |
| ProfileItems.PermutationKeepsDistinct | src/NzbDrone.Core/Datastore/Migration/036_update_with_quality_converters.cs:45 | Reordering a catalog with distinct qualities keeps them distinct; used to show no quality gets two items. |
| ProfileItems.CanonicalItemsOfSorted | src/NzbDrone.Core/Datastore/Migration/036_update_with_quality_converters.cs:45 | For a catalog already in weight order, item i is catalog entry i's quality, with its membership flag. |
| ProfileItems.ThreeQualitiesExample | src/NzbDrone.Core/Datastore/Migration/036_update_with_quality_converters.cs:45 | Catalog {1,2,3} with only 2 allowed gives [(1,false),(2,true),(3,false)]. |
| TableStore.WithColumn | src/NzbDrone.Core/Datastore/Migration/036_update_with_quality_converters.cs:20 | Adding a nullable column adds it to the schema. Every existing row holds NULL in the new column and keeps every other value, and the table stays well-formed. |
| TableStore.UpdateRows | src/NzbDrone.Core/Datastore/Migration/036_update_with_quality_converters.cs:99 | An UPDATE sets the SET column to the given value in every row matching the WHERE value, and changes nothing else in that row. It keeps the row count and every row's column set, and leaves rows that do not match unchanged. |
| TableStore.Distinct | src/NzbDrone.Core/Datastore/Migration/036_update_with_quality_converters.cs:78 | SELECT DISTINCT yields each value of the column exactly once and no other value. |
| TableStore.Store.AddColumn | src/NzbDrone.Core/Datastore/Migration/036_update_with_quality_converters.cs:20 | ALTER TABLE ADD COLUMN is refused for an existing column. Otherwise it replaces just that table by its widened form. |
| TableStore.Store.SelectPairs | src/NzbDrone.Core/Datastore/Migration/036_update_with_quality_converters.cs:35-41 | The profile reader yields the (Id, Allowed) pair of every row, in row order. |
| TableStore.Store.SelectDistinct | src/NzbDrone.Core/Datastore/Migration/036_update_with_quality_converters.cs:78-83 | The loop returns the column's distinct values without duplicates, exactly the values some row holds. |
| TableStore.Store.Update | src/NzbDrone.Core/Datastore/Migration/036_update_with_quality_converters.cs:99-105 | The UPDATE replaces only the named table, by its updated rows, and keeps the store well-formed. |
| Migration036.EnsureItemsColumnIdempotent | src/NzbDrone.Core/Datastore/Migration/036_update_with_quality_converters.cs:18-21 | After the structural step `Items` exists and no other column is added. Applying the step again changes nothing, and it is a no-op when the column already exists. |
| Migration036.EnsureItemsColumnKeepsReadable | src/NzbDrone.Core/Datastore/Migration/036_update_with_quality_converters.cs:18-21 | Adding `Items` keeps every profile's Id and Allowed, so the profile pass can still read them. |
| Migration036.ConvertProfiles | src/NzbDrone.Core/Datastore/Migration/036_update_with_quality_converters.cs:38-56 | Each profile row's `Items` holds the serialised item list of that row's own `Allowed`. All other columns, the column set and the row count are unchanged. |
| Migration036.UpdateByIdConvertsOneRow | src/NzbDrone.Core/Datastore/Migration/036_update_with_quality_converters.cs:47-56 | With distinct ids, `UPDATE QualityProfiles SET Items = ? WHERE Id = ?` converts the current row and no other. |
| Migration036.ConvertQualityProfiles | src/NzbDrone.Core/Datastore/Migration/036_update_with_quality_converters.cs:27-61 | The reader loop leaves `QualityProfiles` equal to `ConvertProfiles` of its old value and every other table unchanged. |
| Migration036.NewQuality | src/NzbDrone.Core/Datastore/Migration/036_update_with_quality_converters.cs:85-94 | A legacy value gets a new value exactly when the tolerant deserialiser accepts it. The new value is the serialised `{Quality = source.Quality.Id, Proper = source.Proper}`. |
| Migration036.RewriteValueAt | src/NzbDrone.Core/Datastore/Migration/036_update_with_quality_converters.cs:99-105 | One rewrite step changes a row only if the row holds that legacy value and the value parses. |
| Migration036.RewriteAllKeepsOtherColumns | src/NzbDrone.Core/Datastore/Migration/036_update_with_quality_converters.cs:99-105 | The model pass keeps the row count, each row's column set and every column other than `Quality`. |
| Migration036.RewriteAllSkipsUnparseable | src/NzbDrone.Core/Datastore/Migration/036_update_with_quality_converters.cs:85-88 | A row whose legacy value fails to parse is left exactly as it was, with no condition on the other values. |
| Migration036.RewriteAllFlattens | src/NzbDrone.Core/Datastore/Migration/036_update_with_quality_converters.cs:78-105 | This is the value-keyed rewrite. Take any duplicate-free list of legacy values, in any order, where no flattened value is another parseable value of the list. After its steps, a row holding a listed value is flattened, and every other row is unchanged. |
| Migration036.ConvertQualityModel | src/NzbDrone.Core/Datastore/Migration/036_update_with_quality_converters.cs:71-110 | For whatever table name it is given, the loop leaves that table equal to `ConvertModelTable` of its old value. Every other table is unchanged. |
| Migration036.ConvertQualityModels | src/NzbDrone.Core/Datastore/Migration/036_update_with_quality_converters.cs:63-69 | The model pass runs over `Blacklist`, then `EpisodeFiles`, then `History`. |
| Migration036.MainDbUpgrade | src/NzbDrone.Core/Datastore/Migration/036_update_with_quality_converters.cs:16-25 | The migration adds `Items` only when it is missing, then runs the profile pass, then the model passes. The final store is `Upgrade` of the old one. |
| Migration036.UpgradeScope | src/NzbDrone.Core/Datastore/Migration/036_update_with_quality_converters.cs:16-25 | After the upgrade the same tables exist and `QualityProfiles` has gained exactly `Items`. Every table keeps its row count. No table other than the four named ones changes. |
| Migration036.UpgradeProfileRows | src/NzbDrone.Core/Datastore/Migration/036_update_with_quality_converters.cs:18-56 | Each profile row ends as the old row with `Items` set to its item list, whether or not the column existed before. |
| Migration036.UpgradeModelRows | src/NzbDrone.Core/Datastore/Migration/036_update_with_quality_converters.cs:63-110 | The same rule holds for each of the three model tables. Unparseable rows are unchanged. When no flattened value is another parseable value of that table, every row ends as its flattened self. |

## Left out

- The migration runner: version bookkeeping for `[Migration(36)]`, the transaction and its rollback. No atomicity or exactly-once claim is made beyond this one body.
- `ConvertQualityProfiles` takes as preconditions that every `Allowed` is text the strict deserialiser accepts and every `Id` is an integer. The source throws on anything else (line 43 and the typed reads at lines 40-41), and that failure path is not modelled.
- `ConvertQualityProfiles` takes the profile ids to be distinct, as the table's primary key guarantees.
- `ConvertQualityModel` takes every `Quality` value to be non-null text, which `GetString` needs.
- NewQuality: takes the tolerant deserialiser never to accept a legacy value without a nested quality (an object lacking `quality`, `"quality": null`, or the literal `null`). For such a value the source dereferences `sourceQuality.Quality.Id` at line 92 and throws a NullReferenceException that aborts the migration. The model has no absent nested quality, so it cannot represent that input or that exception; `RewriteAllFlattens` and `UpgradeModelRows` speak only of values with a nested quality.
- Both passes read their whole reader before issuing any UPDATE: `SelectPairs` and `SelectDistinct` take a snapshot of the table. The source issues each UPDATE while the reader is still open (lines 36-58 and 79-107). For profiles this changes nothing, because `Items` is never read back. For the model pass it would matter only if the open cursor returned a freshly written flat value that then parsed as a legacy value; the model does not capture that interleaving.
- `Store.SelectDistinct` returns values in first-occurrence order, while SQL leaves the order of SELECT DISTINCT unspecified. `RewriteAllFlattens` shows the result does not depend on the order as long as no flattened value is another parseable legacy value of the same table. If one is, a row could be rewritten twice. The model does the rewrites sequentially, as the code does, and makes no claim for that case.
- The JSON serialiser, `EmbeddedDocumentConverter`, `QualityIntConverter` and `Json.TryDeserialize` are opaque functions in `Codec`. Their formats, and the round trip of a written value read back, are not modelled.
- `Quality` equality (used by `Contains`) is taken to be equality of ids. The `Quality` class is not part of this model.
- `Id` values are unbounded integers, not 32-bit ones.
- The migration, as written, rewrites by distinct value rather than row by row. The effect on a row is the same: a row whose value does not parse is skipped.
- `frontend/src/Settings/Notifications/Notifications/Notification.js` (a UI component) and `src/Sonarr.Api.V3/ProviderBulkResource.cs` (an API resource with a pass-through mapper) are not part of the migration and are not modelled.

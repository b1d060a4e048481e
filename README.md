# yii-nosql record core, modelled in Dafny

This project models the core of yii-nosql, a MongoDB active-record layer for the Yii framework, in three parts.

**The record base (`CNoSqlModel`).**
- Construction applies the attribute defaults and seeds each embedded document by its kind: `class`, `object` or `array`.
- It also covers the embedded-document and description/default lookups, `increment` / `decrement`, `objectId` / `isNewRecord`, and `model`.

**The MongoDB record (`CMongoModel`).**
- The deleted-record guard on every mutator.
- The `beforeSave` stamps and the change-tracking diff.
- Serialisation of embedded documents on `insert` / `update` / `force`.
- The nested `_config` store and its defaults.
- Materialisation of found documents: `populateRecord` / `populateRecords` / `findById`.
- The rule scans: `requiredAttributes`, `uniqueAttributes`, `isAttributeRequired`.
- `updateAll`, `import` and `validateUnique`.
- `status` / `lock` / `unlock`.
- The push / pop / set / unset item helpers.

**The record browser (`CMongoRecordBrowser`).**
- A builder that accumulates filter leaves, grouped by boolean operator, and cache-key tokens.
- It folds the leaves into `$and` / `$or` criteria.
- It serves one page at a time through the application cache.

Files and modules:

| file | module | contents |
|---|---|---|
| `values.dfy` | `PhpValues` | PHP values: null, bool, int, string, ordered arrays, objects, record instances. Also the casts, truthiness, `empty` / `isset`, loose `==`, string conversion, `trim`, `explode` / `implode`, and keyed array operations. |
| `schema.dfy` | `RecordSchema` | What a record class declares: attribute names, defaults, descriptions, embedded descriptors, primary key, tracking flag, config options, rules. Also the rule scans and the pure lookups of the base class. |
| `config.dfy` | `RecordConfig` | The group → name → value config store. |
| `store.dfy` | `DocumentStore` | The collection the driver talks to: a `Store` class holding a map from id to document, with the few driver calls the core makes. |
| `savepipeline.dfy` | `SavePipeline` | The save as functions: stamps, the change entry, serialised fields, the documents written by `insert` / `update` / `force`. |
| `record.dfy` | `MongoRecord` | The `Record` class, with the record's state as fields and its operations as methods. |
| `populate.dfy` | `RecordFinder` | Materialisation of found documents, `findById`, `updateAll`, `import`. |
| `criteria.dfy` | `BrowseCriteria` | Browser leaves, tokens, the operator groups, the criteria fold, the page window. |
| `browser.dfy` | `RecordBrowser` | The `Cache` and `Browser` classes. |

The runtime environment enters the model as parameters:

- The clock and the session user are the `now` and `actor` parameters of the saving operations.
- The id the driver assigns on insert is the `newId` parameter. `import` takes one such id per record.
- The model class's `validate()` is a `valid` function parameter of `import`.
- For the browser:
  - the model class's `count` and `findAll` are constant function fields of the `Browser`;
  - so is `md5`, the `digest` field;
  - so is the pager's `getPageCount`, the `pageCountOf` field;
  - `getCacheKey` is `Browser.CacheKey`, the digest of the model type and the tokens joined with `::`.
- The Yii application cache is a `Cache` object passed to `browse` and `cachePages`.

## Model

| member | source | states |
|---|---|---|
| PhpValues.ToArray | src/NoSQL/CMongoModel.php:349-351 | `(array)` always yields an array. An array is unchanged, an object's or record's properties become its entries, and null becomes the empty array. |
| PhpValues.ToObject | src/NoSQL/CMongoModel.php:352-354 | `(object)` always yields an object. An object is unchanged, an array's entries become its properties, and null becomes the empty object. |
| PhpValues.CastsRoundTrip | src/NoSQL/CMongoModel.php:349-354 | Both casts are idempotent. An array survives array → object → array, and an object survives object → array → object. |
| PhpValues.LooseEqSymmetric | src/NoSQL/CMongoModel.php:1040-1057 | The loose `==` that `status` uses is symmetric and reflexive. |
| PhpValues.LooseEqOne | src/NoSQL/CMongoModel.php:1077-1088 | `lock`'s `== 1` test accepts 1, "1", " 01" and true. It rejects 0, "2" and null. |
| PhpValues.TrimProperties | src/NoSQL/CMongoModel.php:1160-1184 | A trimmed name neither starts nor ends with whitespace, and trimming twice is trimming once. |
| PhpValues.SplitJoin | src/NoSQL/CMongoModel.php:1160-1184 | Joining the pieces of `explode` with the separator gives back the input, and no piece contains the separator. |
| PhpValues.SplitAtFirst | src/NoSQL/CMongoModel.php:1160-1184 | `explode` cuts at the first separator, and the rest is split the same way. |
| PhpValues.SetKeyThenLookup | src/NoSQL/CMongoModel.php:888-907 | After an array item is set under a key, reading that key gives the item. |
| PhpValues.UnsetThenLookup | src/NoSQL/CMongoModel.php:916-935 | After an item is unset, its key reads as absent. |
| PhpValues.LookupFound | src/NoSQL/CMongoModel.php:916-935 | A key reads as present exactly when the array holds an entry with that key. |
| PhpValues.LookupAppend | src/NoSQL/CMongoModel.php:832-851 | Appending an entry under an absent key makes that key read as the appended value. |
| RecordSchema.ContributionMembership | src/NoSQL/CMongoModel.php:1160-1184 | One rule contributes exactly the trimmed, comma-split names it lists, when its trimmed, lower-cased label is the tag. |
| RecordSchema.RuleAttributesMembership | src/NoSQL/CMongoModel.php:1160-1231 | A name is in the required (or unique) list exactly when some rule lists it under that label. |
| RecordSchema.RuleAttributesAppend | src/NoSQL/CMongoModel.php:1160-1231 | The scan of concatenated rules concatenates the scans, so names come out in rule order. |
| RecordSchema.IsAttributeRequiredMeans | src/NoSQL/CMongoModel.php:1191-1199 | `isAttributeRequired(a)` holds exactly when some rule labelled `required` lists `a`. |
| RecordSchema.RequiredScenario | src/NoSQL/CMongoModel.php:1160-1231 | A concrete rule set yields the required list `[Name, Email]` and an empty unique list. `Email` is required and `Age` is not. |
| RecordSchema.AttributeDescription | src/NoSQL/CNoSqlModel.php:230-238 | The mapped description, or null exactly when none is mapped. |
| RecordSchema.AttributeDefault | src/NoSQL/CNoSqlModel.php:247-255 | The mapped default, or null exactly when none is mapped. |
| RecordSchema.FreshEmbedded | src/NoSQL/CNoSqlModel.php:127-152 | The fresh default by kind, compared case-insensitively: a `class` kind gives a fresh nested instance, `array` gives `[]`, and anything else gives an empty object. |
| RecordSchema.EmbeddedDoc | src/NoSQL/CNoSqlModel.php:127-152 | Fails exactly for an undeclared name. Otherwise it returns the stored value when one is set, and a fresh default by kind when not. |
| RecordSchema.EmbeddedDocShape | src/NoSQL/CNoSqlModel.php:127-152 | With nothing stored, every declared name yields a nested record, an array or an object; a `class` kind yields a record. |
| RecordSchema.ModelFor | src/NoSQL/CNoSqlModel.php:453-464 | `model(class)` picks the requested class when it exists and the called class when none is named (null or ""). It fails exactly for a named class that does not exist. |
| RecordConfig.ConfigValue | src/NoSQL/CMongoModel.php:74-81 | The stored value, or null for an absent store, group or name. |
| RecordConfig.ConfigValues | src/NoSQL/CMongoModel.php:89-100 | A named, present group gives that group's entries. No group, an empty name or an absent group gives the whole store, and a null store gives an empty one. |
| RecordConfig.ConfigPut | src/NoSQL/CMongoModel.php:110-120 | Setting (g, n) stores v there. It adds g and n to the key sets and changes no other group or name. |
| RecordConfig.ConfigPutThenValue | src/NoSQL/CMongoModel.php:74-120 | After `configValueSet(g, n, v)`, `configValue(g, n)` is v, and every other entry reads as before. |
| RecordConfig.DefaultsKeepSetEntries | src/NoSQL/CMongoModel.php:125-148 | `configSetDefaults` leaves every entry that is set and not loosely null untouched. |
| RecordConfig.DefaultsTouchOnlyOptions | src/NoSQL/CMongoModel.php:125-148 | Entries that no option names are neither added nor changed. |
| RecordConfig.DefaultsFillOptions | src/NoSQL/CMongoModel.php:125-148 | After the defaults, every declared option has an entry. |
| RecordConfig.DefaultsFillMissing | src/NoSQL/CMongoModel.php:125-148 | An entry that was missing or loosely null (the `!isset(...) \|\| $value == null` test), and that exactly one option declares, ends up holding that option's `default`, or `''` when it has none. |
| RecordConfig.ConfigDetails | src/NoSQL/CMongoModel.php:156-170 | The first declared option for (group, name), or nothing exactly when no option declares it. |
| DocumentStore.SetFields | src/NoSQL/CMongoModel.php:439 | `$set` overwrites the given fields and keeps every other field. `_config` and `_changeLog` are replaced only when given. |
| DocumentStore.Store.InsertOne | src/NoSQL/CMongoModel.php:366-374 | Stores the document under a fresh id and reports one insertion. A taken id reports none and changes nothing. |
| DocumentStore.Store.FindOne | src/NoSQL/CMongoModel.php:557 | The document stored under the id, or nothing when the id is null or unknown. |
| DocumentStore.Store.FindOneAndUpdate | src/NoSQL/CMongoModel.php:439 | Applies `$set` to the document with that id, and changes nothing when there is none. |
| DocumentStore.Store.FindOneAndDelete | src/NoSQL/CMongoModel.php:536 | Removes the document with that id and keeps every other document. |
| DocumentStore.Store.UpdateMany | src/NoSQL/CMongoModel.php:1354-1381 | Applies `$set` to exactly the matching documents, keeps the rest and the ids, and reports the number matched. |
| DocumentStore.Store.Count | src/NoSQL/CMongoModel.php:639-646 | Positive exactly when some document other than the excluded id matches the filter. |
| DocumentStore.SetPlainKeepsBookkeeping | src/NoSQL/CMongoModel.php:1354-1381 | A plain `$set` keeps `_config` and `_changeLog`, and the updated document matches the changes. |
| SavePipeline.DiffAssoc | src/NoSQL/CMongoModel.php:241-242 | `array_diff_assoc`: exactly the keys of the first map that are missing from the second or whose string forms differ, with their first-map values. |
| SavePipeline.DiffAssocSelf | src/NoSQL/CMongoModel.php:241-242 | A map differs from itself nowhere. |
| SavePipeline.DiffAssocSameKeys | src/NoSQL/CMongoModel.php:241-242 | On maps with the same keys, both diffs have the same keys. They are empty exactly when every value has the same string form. |
| SavePipeline.DropIfSet | src/NoSQL/CMongoModel.php:245-250 | The isset-then-unset removes a non-null entry. A null entry may remain, null. Other keys are untouched. |
| SavePipeline.StampFields | src/NoSQL/CMongoModel.php:223-237 | `LastModified` is stamped on every save when set or declared. `CreatorID` is stamped only when new. `CreationDate` is stamped only when new and empty. No other attribute changes. |
| SavePipeline.ChangeForMeans | src/NoSQL/CMongoModel.php:240-261 | An entry is logged exactly when tracking is on and some attribute changed. It carries the date and the actor, the current values of exactly the changed attributes as `NewValues`, and the baseline values of exactly the superseded ones as `PreviousValues`. `LastModified` can survive on either side only as null. |
| SavePipeline.StampedSaveOmitsLastModified | src/NoSQL/CMongoModel.php:235-250 | After stamping, a logged entry's new values never contain `LastModified`. |
| SavePipeline.PreviousMayKeepNullLastModified | src/NoSQL/CMongoModel.php:241-250 | A null baseline `LastModified` stays in `PreviousValues`, because `isset` is false for null. |
| SavePipeline.ChangeForIntendedOmitsLastModified | src/NoSQL/CMongoModel.php:244-250 | The corrected entry never holds `LastModified` and is the as-written entry without it; the as-written entry is logged where the corrected one is not only when its new values are a lone null `LastModified`. |
| SavePipeline.SavedFieldsShape | src/NoSQL/CMongoModel.php:334-356 | The saved fields are the attributes plus the embedded fields. A `class` is saved as its nested attributes, an `array` as an array, an `object` as an object; other attributes are unchanged. |
| SavePipeline.InsertDocumentShape | src/NoSQL/CMongoModel.php:334-366 | The inserted document has no primary-key alias and no change log. It carries `_config` exactly when the config is set, and holds every other saved field. |
| MongoRecord.WithDefaultsMeans | src/NoSQL/CNoSqlModel.php:157-169 | Each default is assigned exactly when its name is an existing property; other names are ignored and other attributes are kept. |
| MongoRecord.WithDefaultsIdempotent | src/NoSQL/CNoSqlModel.php:157-169 | Applying the defaults twice, as the constructor and `init` do, equals applying them once. |
| MongoRecord.DefaultsLoop | src/NoSQL/CNoSqlModel.php:157-169 | The `foreach` over the defaults computes the defaults function. |
| MongoRecord.SeedLoop | src/NoSQL/CNoSqlModel.php:34-51 | The `foreach` over the embedded descriptors computes the seeding function. |
| MongoRecord.ConstructedMeans | src/NoSQL/CNoSqlModel.php:24-51 | After construction, each seeded descriptor holds a fresh instance (`class`), an empty object (`object`) or `[]` (`array`); other properties hold their default or are absent. |
| MongoRecord.SerialiseFields | src/NoSQL/CMongoModel.php:336-356 | Fails, naming the field, exactly when some `class` field has no attributes to read. Otherwise it yields the saved fields. |
| MongoRecord.SavedLogGrowsByAtMostOne | src/NoSQL/CMongoModel.php:239-261 | A save appends at most one entry, keeps the earlier entries in order, and appends nothing without tracking. |
| MongoRecord.IsAttributeRejectsDeclared | src/NoSQL/CMongoModel.php:818-823 | Every declared attribute is accepted by the corrected `isAttribute` and rejected as written. |
| MongoRecord.PushItemMeans | src/NoSQL/CMongoModel.php:832-878 | A push appends one entry under the next integer key, which was free before, and a pop undoes it. |
| MongoRecord.UniqueOutcome | src/NoSQL/CMongoModel.php:1284-1323 | An empty value with `allowEmpty` gives no error. An array value gives the invalid-value error. Otherwise it reports in-use exactly when the count is positive. |
| MongoRecord.UniqueExclusion | src/NoSQL/CMongoModel.php:1284-1323 | The record's own id is excluded from the count exactly when `objectId()` is non-empty. |
| MongoRecord.AddError | src/NoSQL/CMongoModel.php:1284-1323 | The message is appended to the attribute's errors, and other attributes' errors are untouched. |
| MongoRecord.ItemEditApplies | src/NoSQL/CMongoModel.php:832-935 | An item edit applies exactly to an empty or array value; an unset applies exactly when the key is set. The reset list is what the edit starts from. |
| MongoRecord.Record.constructor | src/NoSQL/CNoSqlModel.php:24-32 | A new record is new and not deleted, has no id, an empty config, log and baseline, and the constructed attributes. |
| MongoRecord.Record.SetDefaults | src/NoSQL/CNoSqlModel.php:157-169 | The attributes become the defaults function of the old attributes; nothing else changes. |
| MongoRecord.Record.SeedEmbeddables | src/NoSQL/CNoSqlModel.php:34-51 | The attributes become the seeding function of the old attributes; nothing else changes. |
| MongoRecord.Record.SetId | src/NoSQL/CMongoModel.php:189-195 | `_id` and the primary-key alias both become the new id, and `objectId()` returns it. |
| MongoRecord.Record.ConfigValueSet | src/NoSQL/CMongoModel.php:110-120 | A null config is left null and nothing changes. Otherwise the entry is stored. With auto-update, `update` runs on the record with the new config (`UpdatedFrom`): a deleted record fails with nothing written; a live one has its properties stamped and its change log grown, and the stored document receives the `$set` unless an embedded `class` field is unreadable. The baseline and the errors never change. |
| MongoRecord.Record.ConfigSetDefaults | src/NoSQL/CMongoModel.php:125-148 | The config becomes the defaults fold over the declared options; a null config stays null. |
| MongoRecord.Record.AfterFind | src/NoSQL/CMongoModel.php:200-208 | With tracking on, the baseline becomes the current attributes. The config defaults are applied. |
| MongoRecord.Record.BeforeSave | src/NoSQL/CMongoModel.php:214-262 | The attributes become the stamped ones, and the log becomes the saved log (diffed against the baseline). |
| MongoRecord.Record.Insert | src/NoSQL/CMongoModel.php:319-378 | A deleted record fails with nothing changed. Otherwise it stamps and logs, fails on an unreadable embedded field or a taken id, and on success stores the document, sets the id and clears the new flag. |
| MongoRecord.Record.Update | src/NoSQL/CMongoModel.php:394-442 | A deleted record fails. Otherwise it stamps and logs, and `$set`s the serialised fields, config and log on the stored document. |
| MongoRecord.UpdatedStoreHolds | src/NoSQL/CMongoModel.php:394-442 | After the `$set`, the stored document with the record's id holds each plain declared attribute as the record has it; the ids and the other documents are unchanged. |
| MongoRecord.AssignedValueStored | src/NoSQL/CNoSqlModel.php:177-197 | The value `increment`, `decrement`, `status`, `lock` or `unlock` assigns to a plain declared field that the stamps do not overwrite is what the stored document holds after the update. |
| MongoRecord.Record.Force | src/NoSQL/CMongoModel.php:448-492 | A deleted record fails. Otherwise it serialises the fields and log as they were, then stamps, and writes the pre-stamp document. |
| MongoRecord.Record.Delete | src/NoSQL/CMongoModel.php:526-541 | A deleted record fails. Otherwise it removes the document, sets the deleted flag and returns true, so a second delete fails. |
| MongoRecord.Record.Refresh | src/NoSQL/CMongoModel.php:383-388 | Fails exactly for a deleted record. |
| MongoRecord.Record.Increment | src/NoSQL/CNoSqlModel.php:177-183 | A field neither set nor declared leaves the record and the store unchanged. Otherwise the field becomes `(int)field + (int)cnt` and `update` runs (`UpdatedFrom`): a deleted record fails; else the properties are stamped, the change log grows, and the stored document with the record's id gets the `$set` of the result, unless an embedded `class` field is unreadable. |
| MongoRecord.Record.Decrement | src/NoSQL/CNoSqlModel.php:191-197 | As `Increment`, with `(int)field - (int)cnt`: no change for a field neither set nor declared, otherwise the stamped, logged `$set` of the new value on the stored document; a deleted record fails. |
| MongoRecord.Record.Status | src/NoSQL/CMongoModel.php:1040-1057 | No declared `Status` gives false and no change. Assigning (a set `Status`, a non-empty status, `set`) puts the status on the property and runs `update` (`UpdatedFrom`: stamped properties, grown log, `$set` on the stored document); it answers true, or the update's failure. Otherwise nothing changes and it answers the current status for an empty argument, or whether it loosely equals the argument. |
| MongoRecord.Record.Lock | src/NoSQL/CMongoModel.php:1077-1088 | No declared `IsLocked` gives false and no change. A set flag not loosely 1 becomes 1 and `update` runs (`UpdatedFrom`), answering true or the update's failure. Otherwise it answers null with the record and the store unchanged. |
| MongoRecord.Record.Unlock | src/NoSQL/CMongoModel.php:1095-1106 | No declared `IsLocked` gives false and no change. A set flag becomes 0 and `update` runs (`UpdatedFrom`), answering true or the update's failure. Otherwise it answers null with the record and the store unchanged. |
| MongoRecord.Record.EditItem | src/NoSQL/CMongoModel.php:832-935 | Given `isAttribute`'s answer: a rejected name changes nothing. For an accepted one an empty value is reset to `[]` first; the edit applies exactly when the list edit succeeds, and then the attribute holds the edited list. Flags, log and config stay. |
| MongoRecord.Record.FinishItem | src/NoSQL/CMongoModel.php:832-935 | Without an applied edit or without `save` it answers whether the edit applied and changes nothing. Otherwise `update` runs (`UpdatedFrom`): stamped properties, grown log, `$set` on the stored document; it answers true or the update's failure. |
| MongoRecord.Record.EditAttributeItem | src/NoSQL/CMongoModel.php:832-935 | The whole item helper given `isAttribute`'s answer (`ItemEdited`): rejected, nothing changes and it answers false; a failed list edit answers false with only the empty-to-`[]` reset; without `save` the edited list is kept and it answers true; with `save` the edited record is updated as `UpdatedFrom` says. |
| MongoRecord.Record.EditDeclaredItem | src/NoSQL/CMongoModel.php:818-935 | The item helpers with `isAttribute` as intended: the edit is offered exactly to declared attributes, and true is answered only for one. |
| MongoRecord.Record.PushAttributeItem | src/NoSQL/CMongoModel.php:832-851 | As written, `isAttribute` rejects every name, so it answers false and changes neither the record nor the store. The edit it would make is `ItemEdited` with the as-written answer. |
| MongoRecord.Record.PopAttributeItem | src/NoSQL/CMongoModel.php:859-878 | As written, it answers false and changes neither the record nor the store. |
| MongoRecord.Record.SetAttributeItem | src/NoSQL/CMongoModel.php:888-907 | As written, it answers false and changes neither the record nor the store. |
| MongoRecord.Record.UnsetAttributeItem | src/NoSQL/CMongoModel.php:916-935 | As written, it answers false and changes neither the record nor the store. |
| MongoRecord.Record.ValidateUnique | src/NoSQL/CMongoModel.php:1284-1323 | Without a `message` param, an object or nested-record value (past the `allowEmpty` and array checks) raises, since the default message interpolates it; the errors stay. Otherwise the errors gain the message the unique decision names (the given one or the default), or stay as they were. Nothing else changes. |
| MongoRecord.InsertedStillNewAsWritten | src/NoSQL/CNoSqlModel.php:77-80 | A record just saved by `insert` still answers true from `isNewRecord()` as written, while its new flag is cleared. |
| RecordFinder.OverlayKeys | src/NoSQL/CMongoModel.php:735-745 | Assigning a sub-document to a nested instance keeps the instance's property list and order. |
| RecordFinder.OverlayUntouched | src/NoSQL/CMongoModel.php:735-745 | A property the sub-document does not mention keeps its fresh value. |
| RecordFinder.OverlayReads | src/NoSQL/CMongoModel.php:735-745 | A property the sub-document mentions reads as the sub-document's last value for it. |
| RecordFinder.FoundValueShape | src/NoSQL/CMongoModel.php:728-752 | A `class` field becomes a nested record of that class with the fresh instance's keys. An `array` field becomes an array, an `object` field an object; other fields are kept. |
| RecordFinder.ExpandLoop | src/NoSQL/CMongoModel.php:723-754 | The `foreach` over the raw document computes the found attributes. |
| RecordFinder.FoundAttrsMeans | src/NoSQL/CMongoModel.php:716-772 | The primary-key alias is the restored id. Fields that name properties are expanded; the rest keep the new instance's values, and nothing outside the properties appears. |
| RecordFinder.FoundConfig | src/NoSQL/CMongoModel.php:755-760 | The found record's config is null exactly when the document's `_config` is null. |
| RecordFinder.PopulateRecord | src/NoSQL/CMongoModel.php:716-772 | `false` (no document) gives null. Otherwise a fresh record is found from it, with afterFind applied on request, and the prototype's config is reset when the document's config is null. |
| RecordFinder.FindById | src/NoSQL/CMongoModel.php:549-570 | A record exactly when the id is stored, found from that document with afterFind. A miss leaves the prototype unchanged; a hit empties the prototype's set config store when the document's `_config` is null, and keeps every other prototype property. |
| RecordFinder.InsertThenFound | src/NoSQL/CMongoModel.php:716-772 | Finding an inserted document gives back the id, plain attributes, arrays and objects, the config (or an empty one) and an empty log. |
| RecordFinder.InsertThenFoundNested | src/NoSQL/CMongoModel.php:716-772 | A nested record's properties that the fresh instance declares survive insert-then-find. |
| RecordFinder.LastPositionsMeans | src/NoSQL/CMongoModel.php:786-801 | The keyed form holds exactly the keys that occur, each at its last occurrence. |
| RecordFinder.IndexOfStep | src/NoSQL/CMongoModel.php:786-801 | Adding a record to the keyed form overwrites its key's entry. |
| RecordFinder.PresentStep | src/NoSQL/CMongoModel.php:786-801 | Documents that could not be found are skipped. |
| RecordFinder.PopulateList | src/NoSQL/CMongoModel.php:786-801 | One fresh found record per present document, in input order. |
| RecordFinder.PopulateOne | src/NoSQL/CMongoModel.php:790-797 | One pass of the list loop: the records already found stay as they are, and a present document appends one fresh found record. |
| RecordFinder.KeyRecords | src/NoSQL/CMongoModel.php:786-801 | Each key maps to the record at its last occurrence. |
| RecordFinder.PopulateIndexed | src/NoSQL/CMongoModel.php:786-801 | The records keyed by `$record->$index`, with the last record of each key kept. |
| RecordFinder.PopulateRecords | src/NoSQL/CMongoModel.php:786-801 | The ordered list without an index, or the keyed map with one. The prototype's set config store is emptied when some document's `_config` is null; every other prototype property is kept. |
| RecordFinder.Permitted | src/NoSQL/CMongoModel.php:1365-1373 | Exactly the changes whose keys are declared attributes. |
| RecordFinder.UpdateAll | src/NoSQL/CMongoModel.php:1354-1381 | Empty changes give false and no write. Otherwise it `$set`s only declared keys on the matching documents and answers the number matched. |
| RecordFinder.UpdateAllWritesDeclared | src/NoSQL/CMongoModel.php:1354-1381 | A bulk update adds only declared fields, writes no config or change log, and keeps undeclared fields. |
| RecordFinder.Assigned | src/NoSQL/CMongoModel.php:507 | `setAttributes` assigns exactly the declared names and keeps the rest. |
| RecordFinder.ImportItem | src/NoSQL/CMongoModel.php:506-517 | An invalid record is skipped with no change. A valid one is inserted under its id; a taken id is a caught `Persistence` failure with no change; an embedded `class` field without an instance is an `EmbeddedAttributes` error with no change. |
| RecordFinder.Import | src/NoSQL/CMongoModel.php:500-521 | The store ends as `Imported` says. A run through every item answers success. With `dieOnError` a caught failure at item x answers "item x of y"; an unreadable embedded `class` field ends the import with that error whatever `dieOnError` is. |
| RecordFinder.ImportStops | src/NoSQL/CMongoModel.php:500-521 | Once the import has stopped at an item, further items change nothing. |
| RecordFinder.ImportFailureBounds | src/NoSQL/CMongoModel.php:500-521 | A stop names an item between 1 and the number visited. Without `dieOnError` only an error nothing catches stops the import, and that item is valid and has an embedded `class` field without an instance. |
| RecordFinder.ImportKeepsStored | src/NoSQL/CMongoModel.php:500-521 | Import never changes or removes a stored document, and adds documents only under the ids of the items visited. |
| BrowseCriteria.CompareLeafMeans | src/NoSQL/CMongoRecordBrowser.php:238-329 | The `eq`/`ne`/`gt`/`gte`/`lt`/`lte` leaves select, on integers, exactly what their operator names. |
| BrowseCriteria.BetweenAsWrittenSelectsNothing | src/NoSQL/CMongoRecordBrowser.php:341-347 | As written, a between leaf selects no integer for any bounds. |
| BrowseCriteria.BetweenLeafMeans | src/NoSQL/CMongoRecordBrowser.php:341-347 | The corrected between leaf selects exactly the integers strictly between the bounds. |
| BrowseCriteria.BetweenIgnoresLow | src/NoSQL/CMongoRecordBrowser.php:341-347 | As written, the filter does not depend on the low value, while the token does: two low values with different string forms give different tokens. |
| BrowseCriteria.AddLeafMeans | src/NoSQL/CMongoRecordBrowser.php:168-434 | A condition appends exactly its leaf to its operator's list and leaves every other operator's list alone. |
| BrowseCriteria.AddLeafOrder | src/NoSQL/CMongoRecordBrowser.php:168-434 | A new operator is added after the existing ones; a known one keeps its place. |
| BrowseCriteria.AddLeafKeepsDistinct | src/NoSQL/CMongoRecordBrowser.php:168-434 | No operator ever gets a second group. |
| BrowseCriteria.AppendUnderMeans | src/NoSQL/CMongoRecordBrowser.php:445-449 | The inner loop appends the leaves, in order, under one key and touches no other key. |
| BrowseCriteria.GenerateMeans | src/NoSQL/CMongoRecordBrowser.php:440-453 | Under each key, the fold appends the leaves of the operators mapping to it, in insertion order, after what was there. No key is removed. |
| BrowseCriteria.GenerateTwice | src/NoSQL/CMongoRecordBrowser.php:603-604 | Generating twice, as `browse` does, lists every leaf twice. |
| BrowseCriteria.OffsetWindows | src/NoSQL/CMongoRecordBrowser.php:597-598 | Page 1 (and page 0) starts at 0, and each next page starts `perPage` further on; page 3 of 10 starts at 20. |
| BrowseCriteria.TokensUpToOrder | src/NoSQL/CMongoRecordBrowser.php:532-545 | After caching pages 1..n, page x's four tokens sit at positions 4(x−1)..4x, so pages are visited in ascending order. |
| RecordBrowser.PageArg | src/NoSQL/CMongoRecordBrowser.php:593 | A null page argument means the stored page; anything else is cast to int. |
| RecordBrowser.DirectionSet | src/NoSQL/CMongoRecordBrowser.php:144-157 | An argument loosely equal to 0 stores nothing (a query). One loosely equal to −1 stores −1, and anything else stores 1. Only ±1 are ever stored. |
| RecordBrowser.DirectionSetCases | src/NoSQL/CMongoRecordBrowser.php:144-157 | Null and 0 query the direction. −1 and `true` set −1, and 2 sets 1. |
| RecordBrowser.PageOptions | src/NoSQL/CMongoRecordBrowser.php:618-625 | The query window is skip = offset and limit = perPage. A sort is added exactly when `sortBy` is non-empty, with a null direction read as 0. |
| RecordBrowser.Cache.Add | src/NoSQL/CMongoRecordBrowser.php:630 | `add` stores only under an absent key and reports whether it stored. |
| RecordBrowser.ServedMeans | src/NoSQL/CMongoRecordBrowser.php:609-637 | A hit happens exactly when refreshing is not forced and a non-empty result is cached, and returns it with nothing changed. A miss returns the query's result. No cached entry is lost or replaced. |
| RecordBrowser.ServedAgainHits | src/NoSQL/CMongoRecordBrowser.php:609-637 | Once a page is served non-empty, serving the same key again without refreshing is a hit that returns the cached records. |
| RecordBrowser.Browser.constructor | src/NoSQL/CMongoRecordBrowser.php:52-63 | A browser starts with no tokens or conditions, 5 per page, page 0, lifetime 300, no sort and no hit. |
| RecordBrowser.NewBrowser | src/NoSQL/CMongoRecordBrowser.php:52-63 | Creation fails exactly when the model type names no class. |
| RecordBrowser.Browser.CtCondition | src/NoSQL/CMongoRecordBrowser.php:168-175 | Adds a case-insensitive regex leaf on the value, and the token `ctCondition-attr-value`; nothing else changes. |
| RecordBrowser.Browser.BwCondition | src/NoSQL/CMongoRecordBrowser.php:186-193 | As `ct`, with the pattern anchored at the start. |
| RecordBrowser.Browser.EwCondition | src/NoSQL/CMongoRecordBrowser.php:204-211 | As `ct`, with the pattern anchored at the end. |
| RecordBrowser.Browser.RegexCondition | src/NoSQL/CMongoRecordBrowser.php:220-227 | Adds the regex leaf. The token carries the regex's string form `/pattern/i`. |
| RecordBrowser.Browser.EqCondition | src/NoSQL/CMongoRecordBrowser.php:238-244 | Adds an `$eq` leaf and its token; nothing else changes. |
| RecordBrowser.Browser.NeCondition | src/NoSQL/CMongoRecordBrowser.php:255-261 | Adds a `$ne` leaf and its token. |
| RecordBrowser.Browser.GtCondition | src/NoSQL/CMongoRecordBrowser.php:272-278 | Adds a `$gt` leaf and its token. |
| RecordBrowser.Browser.GteCondition | src/NoSQL/CMongoRecordBrowser.php:289-295 | Adds a `$gte` leaf and its token. |
| RecordBrowser.Browser.LtCondition | src/NoSQL/CMongoRecordBrowser.php:306-312 | Adds a `$lt` leaf and its token. |
| RecordBrowser.Browser.LteCondition | src/NoSQL/CMongoRecordBrowser.php:323-329 | Adds a `$lte` leaf and its token. |
| RecordBrowser.Browser.BetweenCondition | src/NoSQL/CMongoRecordBrowser.php:341-347 | Adds the range leaf as written (the high value under both `$lt` and `$gt`, which `BetweenAsWrittenSelectsNothing` shows selects nothing) joined by the operator, and appends the token carrying both bounds; nothing else changes. |
| RecordBrowser.Browser.InCondition | src/NoSQL/CMongoRecordBrowser.php:356-362 | Adds an `$in` leaf on the list. The token is the name and attribute followed directly by the imploded list. |
| RecordBrowser.Browser.NotInCondition | src/NoSQL/CMongoRecordBrowser.php:372-378 | Adds a `$nin` leaf and its token. The `type` argument is ignored. |
| RecordBrowser.Browser.IsNullCondition | src/NoSQL/CMongoRecordBrowser.php:386-392 | Adds the text leaf `attr IS NULL` and the token `isNullCondition-attr`. |
| RecordBrowser.Browser.ArrayAllCondition | src/NoSQL/CMongoRecordBrowser.php:400-406 | Adds an `$all` leaf and its token. |
| RecordBrowser.Browser.ArrayMatchCondition | src/NoSQL/CMongoRecordBrowser.php:414-420 | Adds an `$elemMatch` leaf and its token. |
| RecordBrowser.Browser.IsNotNullCondition | src/NoSQL/CMongoRecordBrowser.php:428-434 | Adds the text leaf `attr IS NOT NULL` and the token `isNotNullCondition-attr`. |
| RecordBrowser.Browser.OrderBy | src/NoSQL/CMongoRecordBrowser.php:68-72 | Adds the token `ORDERBY-order` and sets `sortBy`; nothing else changes. |
| RecordBrowser.Browser.SortDirection | src/NoSQL/CMongoRecordBrowser.php:144-157 | A query answers the current direction and changes nothing. Otherwise it stores the direction `DirectionSet` names and returns the browser. |
| RecordBrowser.Browser.PageNoSet | src/NoSQL/CMongoRecordBrowser.php:483-488 | The page number becomes the argument cast to int; no token is added. |
| RecordBrowser.Browser.PerPageSet | src/NoSQL/CMongoRecordBrowser.php:503-508 | The page size becomes the argument cast to int; no token is added. |
| RecordBrowser.Browser.CacheLifeSet | src/NoSQL/CMongoRecordBrowser.php:111-116 | The lifetime is stored as given. |
| RecordBrowser.Browser.GenerateCriteria | src/NoSQL/CMongoRecordBrowser.php:440-453 | The nested loops compute the criteria fold over all conditions, appended to the old criteria. |
| RecordBrowser.Browser.RecordCount | src/NoSQL/CMongoRecordBrowser.php:467-476 | Generates once more and answers the count of the resulting criteria. |
| RecordBrowser.Browser.PageCount | src/NoSQL/CMongoRecordBrowser.php:522-527 | Generates once more and answers the pager's page count, which counting does not refresh. |
| RecordBrowser.Browser.PagingInfo | src/NoSQL/CMongoRecordBrowser.php:552-568 | The pager gets current page p−1, a fresh count and the page size, and is returned. |
| RecordBrowser.Browser.PreparePage | src/NoSQL/CMongoRecordBrowser.php:593-606 | Adds the four page tokens, generates twice, and sets the pager to (count, p−1, perPage). |
| RecordBrowser.Browser.FetchPage | src/NoSQL/CMongoRecordBrowser.php:608-637 | Serves the page under the current key from the cache or from the query. A hit sets `cacheHit`. |
| RecordBrowser.Browser.Browse | src/NoSQL/CMongoRecordBrowser.php:586-638 | The tokens, criteria, pager and cache protocol of one page. Together with `ServedMeans`, a forced refresh never reads the cache, and the cache only gains an entry under an absent key. |
| RecordBrowser.Browser.CacheOnePage | src/NoSQL/CMongoRecordBrowser.php:539-542 | One loop step: page x's tokens are added, two more generations happen, and every cached entry stays. |
| RecordBrowser.Browser.CachePages | src/NoSQL/CMongoRecordBrowser.php:532-545 | Browses pages 1..n in order, where n is the page count the pager held on entry. The key gains exactly their tokens, the criteria 1+2n generations, and the pager ends on page n−1. |

## Left out

- Connection setup, the driver and its errors are left out. The collection is a map from id to document. An id the driver cannot parse (`new ObjectID` throwing) is not modelled: ids are plain strings, and a null id finds nothing.
- Time, the session user and the new insert id are parameters. So is `validate()`, whose rule evaluation is not part of this model.
- `getDbConnection`, `getDbConnectionString`, `export`, the dump/export routines, the `table*` stubs and the session handler in `src/NoSQL/Session/MongoSession.php` are not part of this model. They are I/O glue.
- `src/NoSQL/CNoSqlEmbeddedModel.php` is not part of this model. It is an abstract stub that repeats the base class.
- Regular-expression matching is not modelled: a regex leaf is data. Query matching is modelled only for the integer comparison operators (`PassesTest`); general BSON comparison is not.
- The `AppPagination` helper is not modelled beyond the three values the browser gives it. Its page count is a function parameter, and `details()` is represented by the pager state itself.
- Cache expiry (`cacheLife`) is not modelled: entries never expire.
- `cacheEnabled` and `caching` have no setter, so both are always true. The "caching disabled" branches of `browse` cannot be reached and are not modelled.
- Float values and PHP 8 string-to-number comparison are not modelled. `LooseEq` follows PHP 7 for null, bool, int and string.
- PhpValues.LooseEq: two arrays, objects or records are compared structurally, key order included. PHP's `==` on arrays ignores key order and compares the elements loosely.
- A `null` argument to `populateRecord` (a fresh record in the source) is not modelled apart from an empty document: a document is either missing (`false`) or present.
- The session user is a `string` parameter. The `null` that `sessionGet('UserID')` can return, stamped as `CreatorID` and logged as `ChangedBy`, is not modelled.
- DocumentStore.Matches: store filters are equality only, field by field. There are no query operators, so an operator-valued filter such as `['$in' => ...]` passed to `updateAll` is read as a literal value. An array field does not match one of its elements, as MongoDB would.
- PHP array key normalisation is only partly modelled. Keyed results use the string form of the index value as key, so `false` and `""` share the key `""` where PHP would use 0 for false.
- The iteration order of attribute maps, config stores and the criteria map is not modelled: they are Dafny maps. Ordered PHP arrays (values, condition groups, tokens) are sequences.
- `updateAll`'s key filter uses loose `in_array` in the source. In the model, attribute names are compared as strings, so a numeric key that loosely equals a declared name is dropped.
- RecordConfig.ConfigDetails: `configDetails` compares group and name with loose `==`; the model compares them as strings, so a numeric group or name that only loosely matches is not found.
- RecordSchema.IsAttributeRequired: `isAttributeRequired` tests membership with loose `in_array`; the model tests exact string membership.
- SavePipeline.DiffAssoc: the string form of an object or nested record is `""` in the model, while PHP's string cast of an object without `__toString` raises an error. So with `trackChanges`, a record with an embedded `object` or `class` field makes `beforeSave` fail in PHP, where the model compares `""` with `""`.
- MongoRecord.Record.Increment: PHP integers are 64 bits and overflow to float, and `(int)` of a numeric string beyond the range saturates at `PHP_INT_MAX`; the model's integers are unbounded.
- MongoRecord.Record.Decrement: as `Increment`, 64-bit overflow to float and the saturating `(int)` cast are not modelled.
- PhpValues.NextIndex: PHP pushes at the array's next free slot, which `unset` never lowers; the model uses one past the largest integer key present. After `[0 => a, 1 => b]`, `unset($a[1])` and a push, PHP uses key 2 and the model key 1.
- RecordSchema.EmbeddedDoc: no member of `CNoSqlModel` writes `_embedded`, so in the source the stored-value branch is never taken; the model keeps it as written, with the stored table a parameter.
- RecordFinder.Import: only the two outcomes of `insert` that the model has are distinguished: a taken id (a caught exception) and an embedded `class` field without an instance (an `\Error`, which `catch (\Exception ...)` lets through). Other driver errors are not modelled.
- RecordFinder.Overlay: the nested `setAttributes` on a found `class` sub-document treats every property of the fresh instance as safe. Yii's safe-attribute rules are not modelled.
- RecordFinder.Assigned: `import`'s `setAttributes` is approximated by the declared attribute names.
- RecordFinder.PopulateIndexed: builds the keyed form in a second pass over the ordered list. The records and keys are the same as in the source's single loop, but this is not the same step sequence. An index property whose value is an array, an object or a nested record is an illegal array offset in PHP (a warning that skips the record in PHP 7, a `TypeError` in PHP 8); the model keeps such a record under the key `"Array"` or `""`.
- `findAll`, `find`, `findByAttributes`, `countByAttributes` and the record-navigation helpers are outside the core. The browser uses `count`/`findAll` only as its function parameters.
- MongoRecord.Record.Insert: a record read back by `populateRecord` keeps its new flag (the source never clears it), so an update of a found record re-stamps `CreatorID`. This is modelled as written, not corrected.

## Findings

| source | as written | input that shows it | evidently intended | confidence | as-written member | corrected member |
|---|---|---|---|---|---|---|
| src/NoSQL/CNoSqlModel.php:77-80 | `isNewRecord()` reads `CNoSqlModel`'s private `_isNewRecord`. Only its constructor ever writes it, and `CMongoModel` writes a different private slot of the same name. | Construct a record and insert it successfully: `isNewRecord()` still answers true. | Answer the flag `insert` clears, false after a successful insert. | high, not executed | MongoRecord.InsertedStillNewAsWritten | MongoRecord.Record.Insert |
| src/NoSQL/CMongoModel.php:818-823 | `in_array($this->attributeNames(), $attribute)` passes the haystack and the needle in swapped order, so no name is ever accepted. | Any declared attribute, such as `Tags` for a schema declaring it: `pushAttributeItem('Tags', 1)` answers false and changes nothing. | `in_array($attribute, $this->attributeNames())`. | high, not executed | MongoRecord.IsAttributeRejectsDeclared | MongoRecord.Record.EditDeclaredItem |
| src/NoSQL/CMongoRecordBrowser.php:341-347 | `betweenCondition` files the high value under both `$lt` and `$gt`, and never uses the low value in the filter. | `betweenCondition('Age', 10, 20)` selects no document, since no integer is both below and above 20. | `['$lt' => $hi_value, '$gt' => $low_value]` | high, not executed | BrowseCriteria.BetweenAsWrittenSelectsNothing | BrowseCriteria.BetweenLeafMeans |
| src/NoSQL/CMongoModel.php:244-250 | The comment says `LastModified` need not be tracked, but the `isset` guards remove it only when it is set, so a null baseline `LastModified` stays in `PreviousValues`. | Baseline `{LastModified: null, Title: "a"}` saved as `{LastModified: 7, Title: "b"}`: `PreviousValues` is `{LastModified: null, Title: "a"}`. | `unset` of `LastModified` on both sides whatever its value. | medium, not executed | SavePipeline.PreviousMayKeepNullLastModified | SavePipeline.ChangeForIntendedOmitsLastModified |

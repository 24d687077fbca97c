# FXDPL persistence core in Dafny

This project models the persistence core of FXDPL, a small JavaFX data
layer, and proves properties of the model. The core has three parts.

- **BasicDAO.** It keeps a cached `ObservableList` of rows and three tracking
  lists: added items, update pairs `Pair(idx, initValue, lastValue)`, and
  removed items. A list listener files every structural edit into these
  lists. `cancel` undoes the edits with classification suspended by the
  `skip` flag. `open` installs freshly loaded rows.
- **DefaultWrapper.** It turns the current row of a result set into an entity
  object. It walks the entity's class levels field by field. For each
  readable, writable and persistable property it reads the column through a
  fixed getter table. A failure is caught per field and per level. The first
  completed wrap fills a registry of properties, which answers lookups by
  property name and by column name.
- **The property references.** `DBPropertyReference`,
  `DBPropertyReferenceProps` and `DBPropertyReferenceAnnotation` derive
  accessor names. They pair a property with the `IField` constant
  `FIELD_NAME_<NAME>` or with its `PersistedField` annotation. `BaseEntity`
  concatenates field arrays.

Layout, one module per file:

- `common.dfy`: `Common`. Java `null` as `Option`, the exceptions, `indexOf`,
  `remove(Object)`, `trim().isEmpty()` and ASCII upper-casing.
- `tracking.dfy`: `Tracking`. The classification rules of the listener, and
  the ledger that proves what they account for.
- `dao.dfy`: `BasicDao`. The cache, the three list commands
  (`ReplaceAt`, `RemoveAt`, `InsertAt`), `open`.
- `rollback.dfy`: `Rollback`. `cancel`, as written and null-safe, and the
  baseline-restoration theorem.
- `scenarios.dfy`: `Scenarios`. Concrete edit sequences, worked out.
- `jdbc.dfy`: `Jdbc`. Rows, getters, SQL NULL and the getter dispatch table.
- `entities.dfy`: `Entities`. `IField`, the shared `initDBProperty` scan,
  and `BaseEntity`.
- `fieldref.dfy`, `propsref.dfy`, `annotationref.dfy`: the three reference
  kinds.
- `wrapper.dfy`: `DefaultWrapper`.

Key modelling choices:

- Java `null` is `None` throughout.
- A list edit is a command. It produces the change record JavaFX would report:
  the run that left the list at `from` and the run that replaced it.
- Reflection is replaced by explicit tables. A class level lists its declared
  fields and the method signatures `getMethod` finds.
- The row of a result set is a map from column label to SQL NULL or a raw
  value. The driver's conversion is a parameter `convert`, which returns
  `None` when it throws. The setter's reflective call is a parameter
  `accepts`.

The central result is `Rollback.CancelAfterEditsRestoresBaseline`. Start
from a baseline without `null` rows and apply any sequence of non-`null`
commands. Then `cancel` leaves the list holding exactly the baseline's items,
counted with multiplicity but not in order, and nothing stays tracked. It
rests on the ledger `Tracking.ListenAccounts`: every change is accounted for
by what it takes out of the list and puts into it. `null` values break the
theorem twice:

- a `null` written over a stored row escapes tracking;
- a `null` row defeats `cancel` as written (first finding below).

## Model

| member | source | states |
|---|---|---|
| `Tracking.FindPair` | src/data/managers/BasicDAO.java:159-167 | The position of the first pair whose last value equals the item, or -1 exactly when no pair has it. |
| `Tracking.ReplaceOne` | src/data/managers/BasicDAO.java:150-170 | A `null` on either side or equal values change nothing. A replaced pending addition is overwritten in place. Otherwise the first pair with that last value is retargeted, keeping its store value, or one new pair is appended. |
| `Tracking.RemoveOne` | src/data/managers/BasicDAO.java:175-195 | A removed addition is dropped from the added items. A removed edited value drops its pair and owes the pair's store value, not the edited one. Any other value is owed itself. |
| `Tracking.InsertOne` | src/data/managers/BasicDAO.java:197-202 | An inserted value that is owed settles one occurrence of the debt. Any other value is filed as added. |
| `Tracking.RemoveRun` | src/data/managers/BasicDAO.java:173-195 | Every removed item is filed exactly once: it cancels a pending addition or joins the owed items at their tail. So the added items only lose entries and the pairs never grow. `Tracking.RemoveRunAccounts` adds the multiset ledger. |
| `Tracking.InsertRun` | src/data/managers/BasicDAO.java:196-202 | Every inserted item is filed exactly once: it settles an owed item or joins the added items at their tail. The pairs are untouched. `Tracking.InsertRunAccounts` adds the multiset ledger. |
| `Tracking.ReplaceRunAsWritten` | src/data/managers/BasicDAO.java:142-172 | The loop as written throws IndexOutOfBounds exactly when the two runs differ in length. It never files a removal and never lengthens the added items, so the surplus of a longer old run is never owed. `Tracking.UnequalRunLosesRemoval` exhibits the lost removal. |
| `Tracking.ReplaceRun` | src/data/managers/BasicDAO.java:142-172 | The corrected replaced-run rule: the added items minus the owed removals change by exactly the new run's length minus the old run's. Neither list grows by more than the run that feeds it. `Tracking.ReplaceRunAccounts` adds the multiset ledger. |
| `Tracking.ListenAsWritten` | src/data/managers/BasicDAO.java:139-205 | The listener as written throws exactly for a replaced change whose runs differ in length. For a replaced change it files no removal at all. `Tracking.ListenAgreesOnEqualRuns` shows it agrees with `Tracking.Listen` on runs of equal length. |
| `Tracking.Listen` | src/data/managers/BasicDAO.java:139-205 | The corrected listener files every item of a change exactly once. The added items minus the owed removals change by the number of items added minus the number removed. No tracking list grows by more than the run that feeds it. `Tracking.ListenAccounts` adds the multiset ledger. |
| `Tracking.ReplaceOneAccounts` | src/data/managers/BasicDAO.java:150-170 | One replacement of non-null values keeps the ledger. Pending values gain the new item, or owed values gain the old one, in exact balance. |
| `Tracking.RemoveOneAccounts` | src/data/managers/BasicDAO.java:175-195 | One removal keeps the ledger: the item leaves the pending values or joins the owed ones. |
| `Tracking.InsertOneAccounts` | src/data/managers/BasicDAO.java:197-202 | One insertion keeps the ledger: the item joins the pending values or leaves the owed ones. |
| `Tracking.RemoveRunAccounts` | src/data/managers/BasicDAO.java:173-195 | A removed run keeps the ledger for the whole run. |
| `Tracking.InsertRunAccounts` | src/data/managers/BasicDAO.java:196-202 | An added run keeps the ledger for the whole run. |
| `Tracking.PairwiseReplaceAccounts` | src/data/managers/BasicDAO.java:147-172 | Positions of a replaced run paired by index keep the ledger for both runs. |
| `Tracking.ReplaceRunAccounts` | src/data/managers/BasicDAO.java:142-172 | The corrected replaced-run rule keeps the ledger for runs of any lengths: surplus old items are removals, surplus new items are insertions. |
| `Tracking.ListenAccounts` | src/data/managers/BasicDAO.java:139-205 | The corrected listener accounts for every item of every non-null change. What left the list cancels a pending edit or is owed back. What entered it is pending or settles a debt. |
| `Tracking.ReplaceOnePending` | src/data/managers/BasicDAO.java:150-170 | A replacement swaps a pending old value for the new one, or adds the new one when the old value came from the store. |
| `Tracking.RemoveOnePending` | src/data/managers/BasicDAO.java:175-195 | A removal takes a pending item out of the pending values and leaves them alone otherwise. |
| `Tracking.InsertOnePending` | src/data/managers/BasicDAO.java:197-202 | An insertion adds at most the inserted item to the pending values. |
| `Tracking.ReplaceRunAsWrittenPairwise` | src/data/managers/BasicDAO.java:145-149 | On runs of equal length the loop as written applies the single rule position by position and does not throw. |
| `Tracking.ListenAgreesOnEqualRuns` | src/data/managers/BasicDAO.java:139-205 | When the two runs of a change have equal length, the listener as written and the corrected one give the same lists, and neither throws. |
| `Tracking.UnequalRunLosesRemoval` | src/data/managers/BasicDAO.java:145-149 | Two stored items replaced by one make the listener as written throw IndexOutOfBounds. The second item's removal is never recorded, and the ledger no longer balances. |
| `BasicDao.Perform` | src/data/managers/BasicDAO.java:138-141 | A command changes the list by exactly what its change record reports. With `skip` set, the tracking lists stay as they were. |
| `BasicDao.Step` | src/data/managers/BasicDAO.java:138-141 | A command the list rejects throws IndexOutOfBounds and changes nothing. With `skip` set, an accepted one leaves the tracking lists alone. |
| `BasicDao.Run` | src/data/managers/BasicDAO.java:138-141 | A command sequence never changes `skip`, and while a rollback has set it nothing is filed. `Rollback.RunKeepsBalance` shows that any non-null sequence keeps the cache balanced. |
| `BasicDao.ReplaceAtClassified` | src/data/managers/BasicDAO.java:142-172 | A single `set` reaches the tracking lists as one replacement of the slot's old value by the new one. |
| `BasicDao.RemoveAtClassified` | src/data/managers/BasicDAO.java:173-195 | A single `remove` reaches the tracking lists as one removal of the slot's value. |
| `BasicDao.InsertAtClassified` | src/data/managers/BasicDAO.java:196-202 | A single `add` reaches the tracking lists as one insertion. |
| `BasicDao.Open` | src/data/managers/BasicDAO.java:230-256 | With a query, a wrapper, a connection and a non-empty select text, the list becomes the loaded rows in order. Otherwise it becomes empty. A failing query propagates its SQLException and leaves the cache alone. The tracking lists are never cleared. |
| `BasicDao.OpenWith` | src/data/managers/BasicDAO.java:217-222 | Without a query it throws. Otherwise it sets the parameters on the query and opens it, keeping the tracking lists. |
| `BasicDao.OpenLoadsFresh` | src/data/managers/BasicDAO.java:230-256 | On a DAO with nothing tracked, `open` yields a fresh cache whose baseline is the loaded rows, or an empty list when it cannot query. Only a failing query leaves the old cache, and then it reports the failure. |
| `Rollback.RestoreSlot` | src/data/managers/BasicDAO.java:269-273 | The advisory slot when it still holds the pair's last value, else the first slot holding it, else none. The slot found always holds the last value. |
| `Rollback.RestorePairs` | src/data/managers/BasicDAO.java:268-275 | The pair loop with a null-safe slot test keeps the list's length and leaves the tracking lists to the later `clear` calls. |
| `Rollback.RestorePairsAsWritten` | src/data/managers/BasicDAO.java:268-275 | The pair loop as written can only fail with NullPointerException, and it never touches the tracking lists. |
| `Rollback.RemoveAdded` | src/data/managers/BasicDAO.java:278-280 | Taking out the added items never lengthens the list and files nothing. |
| `Rollback.AppendRemoved` | src/data/managers/BasicDAO.java:283-285 | The removed items come back at the end of the list in removal order. |
| `Rollback.Settle` | src/data/managers/BasicDAO.java:276-289 | After the pairs, every tracking list is cleared, `skip` is lifted, and the list ends with the removed items. |
| `Rollback.Cancel` | src/data/managers/BasicDAO.java:265-290 | The null-safe `cancel` always ends with nothing tracked and `skip` false, with the removed items at the tail. |
| `Rollback.CancelAsWritten` | src/data/managers/BasicDAO.java:265-290 | `cancel` as written: `finally` always lifts `skip`. If the pair loop throws, it is a NullPointerException and every tracking list is left as it was. Otherwise all are cleared. |
| `Rollback.CancelIdempotent` | src/data/managers/BasicDAO.java:265-290 | A second `cancel` changes nothing. |
| `Rollback.CancelNothingTracked` | src/data/managers/BasicDAO.java:265-290 | A `cancel` with nothing tracked leaves the list as it is. |
| `Rollback.RestorePairsAgree` | src/data/managers/BasicDAO.java:268-275 | On a list without `null` slots the pair loop as written never throws and agrees with the null-safe one. |
| `Rollback.CancelAsWrittenAgrees` | src/data/managers/BasicDAO.java:265-290 | On a list without `null` slots `cancel` as written agrees with the null-safe `cancel`. |
| `Rollback.RestorePairsMoves` | src/data/managers/BasicDAO.java:268-275 | Writing the pairs back takes their last values out of the list and puts their store values in, while keeping any other values the list covers. |
| `Rollback.RemoveAddedTakes` | src/data/managers/BasicDAO.java:278-280 | When the list holds the added items, the loop takes out exactly one occurrence of each. |
| `Rollback.CancelRestoresBaseline` | src/data/managers/BasicDAO.java:265-290 | A cache balanced against its baseline rolls back to exactly the baseline's items, counted with multiplicity. |
| `Rollback.PerformCovers` | src/data/managers/BasicDAO.java:138-205 | Every pending value is still in the list after any non-null command. |
| `Rollback.PerformKeepsBalance` | src/data/managers/BasicDAO.java:138-205 | A non-null command keeps the cache balanced: baseline plus pending equals list plus owed, and the list covers the pending values. |
| `Rollback.RunKeepsBalance` | src/data/managers/BasicDAO.java:138-205 | Any sequence of non-null commands keeps the cache balanced and free of `null` rows. |
| `Rollback.CancelAfterEditsRestoresBaseline` | src/data/managers/BasicDAO.java:25 | The promise "Cancel updates": after any non-null commands from a baseline without `null` rows, `cancel` restores the baseline's items (order aside) and clears every tracking list. `cancel` as written does the same. |
| `Rollback.OpenedDaoCancels` | src/data/managers/BasicDAO.java:230-290 | For a DAO opened with nothing tracked, any non-null edits followed by `cancel` give back the rows `open` loaded (order aside), with nothing tracked. |
| `Rollback.StaleRemovalSurvivesOpen` | src/data/managers/BasicDAO.java:250-253 | `open` keeps the tracking lists, so a removal made before reopening is appended to the newly loaded rows by the next `cancel`. |
| `Rollback.NullReplaceEscapesCancel` | src/data/managers/BasicDAO.java:151 | A `null` written over a stored row is not tracked, so `cancel` cannot bring the row back. |
| `Rollback.NullSlotDefeatsCancelAsWritten` | src/data/managers/BasicDAO.java:271 | With a `null` baseline row under a shifted advisory slot, `cancel` as written throws and keeps every tracking list. The null-safe `cancel` restores the baseline. |
| `Scenarios.AddedThenRemovedCollapses` | src/data/managers/BasicDAO.java:175-202 | Inserting any value and removing it again leaves the list and every tracking list as before. That holds for a new item, a `null`, and another copy of a stored row. |
| `Scenarios.UpdateThenRevertKeepsPair` | src/data/managers/BasicDAO.java:157-170 | Editing a stored row and editing it back keeps a pair whose store and last values agree. |
| `Scenarios.RemoveOfUpdatedOwesOriginal` | src/data/managers/BasicDAO.java:182-191 | Removing an edited row owes the store's value, not the edited one, and drops the pair. |
| `Scenarios.PendingValueTrackedTwice` | src/data/managers/BasicDAO.java:197-202 | A value can be pending both as an added item and as a pair's last value, since the insert rule looks only at the removed items. |
| `Scenarios.EndToEndEdits` | src/data/managers/BasicDAO.java:139-205 | Baseline [A, B, C]; B becomes D, D is removed, E is appended: E is added, B is owed, and no pair is left. |
| `Scenarios.EndToEndCancel` | src/data/managers/BasicDAO.java:265-290 | Rolling that state back takes E out and appends B, giving [A, C, B] with nothing tracked. |
| `Scenarios.EndToEnd` | src/data/managers/BasicDAO.java:138-290 | The whole scenario ends as [A, C, B] with nothing tracked. |
| `Jdbc.Fetch` | src/data/wrappers/DefaultWrapper.java:49-80 | A read fails with SQLException exactly for a null or missing column or a value the getter cannot convert. SQL NULL gives the zero of a primitive getter and `null` otherwise. |
| `Jdbc.GetterDispatch` | src/data/wrappers/DefaultWrapper.java:49-80 | Exactly the eight listed class names have a getter of their own, five of them primitive. Every other type reads a string. |
| `Jdbc.NullDateReadsNull` | src/data/wrappers/DefaultWrapper.java:68-77 | A NULL date or timestamp column assigns `null` rather than failing. |
| `Common.IndexOf` | src/data/managers/BasicDAO.java:154 | `List.indexOf`: the first position holding the value, and -1 exactly when the list does not hold it. |
| `Common.RemoveFirst` | src/data/managers/BasicDAO.java:193-199 | `List.remove(Object)`: with the value present, exactly one occurrence leaves the list; otherwise the list is unchanged. |
| `Entities.FieldKey` | src/data/wrappers/DBPropertyReference.java:76 | The key starts with `FIELD_NAME_`, is as long as the prefix plus the name, and holds no lower-case letter after the prefix. |
| `Entities.FieldKeyIgnoresCase` | src/data/wrappers/DBPropertyReference.java:76 | Two property names share a key exactly when they agree up to ASCII case. |
| `Entities.SelectField` | src/data/wrappers/DBPropertyReference.java:77-84 | The scan finds nothing exactly when every constant is non-null and unusable. It throws exactly when it reaches a null constant first. A hit is the first constant with the key and a non-blank column name. |
| `Entities.Lookup` | src/data/wrappers/DBPropertyReferenceProps.java:48-61 | It throws NullPointerException exactly when the entity or its field array is null, or when the scan reaches a null constant before any usable one. If a usable constant exists, the selection becomes the first one. With no usable constant, the previous selection is kept. |
| `Entities.FirstUsableWins` | src/data/wrappers/DBPropertyReferenceProps.java:50-60 | The first usable constant wins even when later ones are usable too. |
| `Entities.FlattenLength` | src/data/entities/BaseEntity.java:9-15 | The concatenation holds as many elements as the non-null arrays together. |
| `Entities.NullArraySkipped` | src/data/entities/BaseEntity.java:12-20 | A null argument array contributes nothing, wherever it stands. |
| `Entities.AllFieldNames` | src/data/entities/BaseEntity.java:9-22 | The result's length is the sum of the non-null arrays' lengths. Its elements are theirs, in order. |
| `Entities.DefaultFieldNames` | src/data/entities/BaseEntity.java:24-27 | The default `getFieldNames` returns an empty array. |
| `FieldReference.Capitalize` | src/data/wrappers/DBPropertyReference.java:47 | The first character upper-cased and the rest unchanged. An empty name throws IndexOutOfBounds. |
| `FieldReference.SameAccessorNames` | src/data/wrappers/DBPropertyReference.java:47-50 | Two field names resolve the same accessor names exactly when they differ at most in the case of their first letter. |
| `FieldReference.New` | src/data/wrappers/DBPropertyReference.java:45-70 | A null field or class throws NullPointerException. Construction succeeds exactly when the setter exists and a `get` or `is` reader exists. A built reference is readable, writable and not yet persistable. |
| `FieldReference.GetterPreferred` | src/data/wrappers/DBPropertyReference.java:51-57 | With both readers present the `get` reader is chosen. |
| `FieldReference.InitDBProperty` | src/data/wrappers/DBPropertyReference.java:72-85 | A null entity throws. It fails exactly when the shared lookup fails, and then with NullPointerException. On success the selection is the lookup's: the first usable constant keyed on the field's name, or the previous one. Nothing else changes. |
| `FieldReference.FreshPersistableHasColumn` | src/data/wrappers/DBPropertyReference.java:72-117 | A new reference becomes persistable exactly when the entity lists a usable constant for the property. It then holds the first such constant, named after the property, with a non-blank column name. |
| `FieldReference.DBFieldName` | src/data/wrappers/DBPropertyReference.java:111-117 | `null` unless the reference is persistable, and then the selected constant's column name. `FieldReference.FreshPersistableHasColumn` shows that after initialisation from an entity this is the first usable constant's non-blank column. |
| `FieldReference.Set` | src/data/wrappers/DBPropertyReference.java:87-96 | A no-op without a setter. A failed reflective call throws. Otherwise only the property's value changes. |
| `FieldReference.Get` | src/data/wrappers/DBPropertyReference.java:98-109 | `null` without a reader. With a reader, a getter that throws makes `get` throw, and only then. An unset property reads `null`. |
| `FieldReference.GetAfterSet` | src/data/wrappers/DBPropertyReference.java:87-109 | What a successful `set` stores, `get` reads back. |
| `FieldReference.ConstructedHasAccessors` | src/data/wrappers/DBPropertyReference.java:30-38 | A constructed reference always writes, so the guard in `set` never skips it. |
| `PropsReference.NewFromField` | src/data/wrappers/DBPropertyReferenceProps.java:39-42 | A null field throws NullPointerException. Otherwise the reference takes the field's name and is not persistable. |
| `PropsReference.NewFromName` | src/data/wrappers/DBPropertyReferenceProps.java:44-46 | The reference takes the given name and is not persistable. |
| `PropsReference.InitDBProperty` | src/data/wrappers/DBPropertyReferenceProps.java:48-61 | A null entity throws. It fails exactly when the shared lookup fails. On success the selection is the lookup's: the first usable constant of the entity for the property's name, or the previous one. Nothing else changes. |
| `PropsReference.ColumnIsFirstUsable` | src/data/wrappers/DBPropertyReferenceProps.java:48-84 | After a successful lookup on a new reference, `getDBFieldName` is non-null exactly when the entity lists a usable constant for the property. It is then the non-blank column name of the first such constant. |
| `PropsReference.DBFieldName` | src/data/wrappers/DBPropertyReferenceProps.java:78-84 | `null` unless the reference is persistable, and then the selected constant's column name. `PropsReference.ColumnIsFirstUsable` shows which constant that is. |
| `PropsReference.SameSelectionAsFieldReference` | src/data/wrappers/DBPropertyReferenceProps.java:48-61 | Both reference kinds select the same constant for the same property name and report the same column. |
| `AnnotationReference.New` | src/data/wrappers/DBPropertyReferenceAnnotation.java:15-27 | A new reference has looked nothing up and has no column name. |
| `AnnotationReference.FindEntityMark` | src/data/wrappers/DBPropertyReferenceAnnotation.java:39-40 | True exactly when the class carries a PersistedEntity with a non-blank value. |
| `AnnotationReference.FieldValue` | src/data/wrappers/DBPropertyReferenceAnnotation.java:43-53 | A blank PersistedField value gives `null`. Without a PersistedField the name is unchanged. With only non-blank ones, it is one of their values. |
| `AnnotationReference.InitOnce` | src/data/wrappers/DBPropertyReferenceAnnotation.java:35-58 | The lookup runs once. An unmarked class leaves the name alone. An undeclared field gives `null`. A name set by the lookup is a non-blank PersistedField value of a field of a marked class. |
| `AnnotationReference.IsPersistable` | src/data/wrappers/DBPropertyReferenceAnnotation.java:29-33 | It runs the lookup, then answers whether a column name was found. |
| `AnnotationReference.DBFieldName` | src/data/wrappers/DBPropertyReferenceAnnotation.java:60-66 | It runs the lookup, as `isPersistable` does, and reports a column name exactly when the reference is persistable: the name the lookup found. `AnnotationReference.FreshPersistableIff` states which name that is. |
| `AnnotationReference.AskedTwice` | src/data/wrappers/DBPropertyReferenceAnnotation.java:29-37 | Asking again recomputes nothing and gives the same answer. |
| `AnnotationReference.FreshPersistableIff` | src/data/wrappers/DBPropertyReferenceAnnotation.java:29-58 | A new reference is persistable exactly when the class and the field are both marked. Its column is then a non-blank PersistedField value of the field. |
| `DefaultWrapper.FirstWrapFillsRegistry` | src/data/wrappers/DefaultWrapper.java:20-21 | A new wrapper reports no property and answers both lookups with `null`. Its first completed wrap closes the registry over registered properties only, so later lookups never throw. |
| `DefaultWrapper.PropertyRefFor` | src/data/wrappers/DefaultWrapper.java:33-37 | A reference built for a field reads and writes it. If persistable, it has a usable column name. |
| `DefaultWrapper.Writes` | src/data/wrappers/DefaultWrapper.java:44-80 | A field writes a value exactly when four things hold: its reference builds, it passes the filter, the type's getter reads the value from the reference's column, and the setter accepts it. The value written is the one read. |
| `DefaultWrapper.HandleField` | src/data/wrappers/DefaultWrapper.java:41-95 | One field iteration: on the first wrap the registry grows by at most one registered property, and later it is untouched. The object gains exactly the value `Writes` gives, and nothing on failure. |
| `DefaultWrapper.HandleFields` | src/data/wrappers/DefaultWrapper.java:39-96 | The field loop only appends registered properties to the registry, and only on the first wrap. |
| `DefaultWrapper.HandleLevels` | src/data/wrappers/DefaultWrapper.java:117-127 | The level loop only appends registered properties to the registry, and only on the first wrap. |
| `DefaultWrapper.Wrap` | src/data/wrappers/DefaultWrapper.java:105-134 | A failed instantiation returns `null` and changes nothing. Otherwise an object comes back and the registry closes. The registry only ever grows by registered properties. |
| `DefaultWrapper.RegistryFixedAfterFirstWrap` | src/data/wrappers/DefaultWrapper.java:128-129 | After the first completed wrap, no later wrap changes the wrapper. |
| `DefaultWrapper.RegisteredEvenIfReadFails` | src/data/wrappers/DefaultWrapper.java:45-51 | On the first wrap an eligible field is registered even when its column is missing. The object is then unchanged. |
| `DefaultWrapper.PropertyRefIgnoresValues` | src/data/wrappers/DefaultWrapper.java:33-37 | Building a reference consults only the entity's field constants, not its current values. |
| `DefaultWrapper.FieldsIgnoreRegistry` | src/data/wrappers/DefaultWrapper.java:41-95 | The object the field loop produces does not depend on the registry. |
| `DefaultWrapper.FailingFieldIsolated` | src/data/wrappers/DefaultWrapper.java:82-95 | A field that writes nothing can be dropped without changing the object: the fields after it still run. |
| `DefaultWrapper.FieldsFrame` | src/data/wrappers/DefaultWrapper.java:41-95 | Fields of other names leave a property's value alone. |
| `DefaultWrapper.FieldValueLands` | src/data/wrappers/DefaultWrapper.java:41-95 | A field that reads a value keeps it, whatever the fields before it do and however later fields of other names fail. |
| `DefaultWrapper.LevelsFrame` | src/data/wrappers/DefaultWrapper.java:117-127 | Class levels that declare no field of a name leave that property's value alone. |
| `DefaultWrapper.LevelValueLands` | src/data/wrappers/DefaultWrapper.java:117-127 | A value a field reads survives the rest of the level loop, unless a later field of its level or a superclass field of the same name writes over it. Subclass levels handled before it may declare the name. |
| `DefaultWrapper.WrappedValueLands` | src/data/wrappers/DefaultWrapper.java:105-134 | The entity `wrap` returns holds that value, under the same conditions. |
| `DefaultWrapper.FailingLevelIsolated` | src/data/wrappers/DefaultWrapper.java:117-127 | A level whose fields cannot be listed can be dropped without changing anything: the levels above it still run. |
| `DefaultWrapper.CountNamed` | src/data/wrappers/DefaultWrapper.java:140 | The count is positive exactly when some registered property has the name. |
| `DefaultWrapper.HasProperty` | src/data/wrappers/DefaultWrapper.java:136-143 | True exactly when some registered property has the name. |
| `DefaultWrapper.GetProperty` | src/data/wrappers/DefaultWrapper.java:145-153 | Nothing is found exactly when every property is rejected without throwing. A hit is the first accepted property. A property with a `null` column name reached first throws. |
| `DefaultWrapper.RegistryLookupSafe` | src/data/wrappers/DefaultWrapper.java:148-150 | Over a registry the wrapper filled, the filter never throws. |
| `DefaultWrapper.GetPropertyByName` | src/data/wrappers/DefaultWrapper.java:155-158 | An empty registry gives `null`. A hit is a registered property of that name. |
| `DefaultWrapper.GetPropertyByFieldName` | src/data/wrappers/DefaultWrapper.java:161-164 | An empty registry gives `null`. A hit is a registered property with that column name. |
| `DefaultWrapper.ByNameFindsFirst` | src/data/wrappers/DefaultWrapper.java:136-158 | Over the wrapper's registry, lookup by name finds the first property of that name. It finds one exactly when `hasProperty` holds. |
| `DefaultWrapper.ByFieldNameFindsFirst` | src/data/wrappers/DefaultWrapper.java:145-164 | Over the wrapper's registry, lookup by column name finds the first property with that column name. It finds one exactly when one exists. |

## Left out

- Statement preparation and execution in `open` (BasicDAO.java lines
  236-249), the JDBC driver, `FirebirdConnection` and the query objects are
  I/O. `open` receives the materialised rows, or the SQLException they
  raised, as a parameter.
- `commit` is left out because its body is empty.
- `LookupWrapper` and `DataSource` are not part of this model. The first
  delegates to an opaque callback; the second is JavaFX binding glue.
- Reflection (`newInstance`, `getDeclaredFields`, `getMethod`, `invoke`,
  annotation retrieval) and JavaFX's `PropertyReference` are replaced by
  explicit tables. A class level's fields, its method signatures, whether a
  setter call succeeds (`accepts`), and a property's readability and
  writability are given as inputs.
- Value conversion is opaque. Raw column values and converted values are one
  type parameter, and `convert` says which conversions succeed. No floating
  point is modelled.
- `WeakListChangeListener` and garbage collection are left out, and every
  theorem about tracking assumes the listener always fires. In the code the
  lambda wrapped at BasicDAO.java line 138 is held only through the
  `WeakListChangeListener`'s weak reference, so nothing keeps it alive, and
  tracking can stop silently after any garbage collection.
- `dataProperty` notifications and JavaFX batching of several sub-changes
  into one event are left out. A command produces exactly one sub-change.
  The replaced-run rule is still modelled for runs of any lengths.
- Edits made before the first `open` are not modelled. The list created
  with the DAO (BasicDAO.java line 94) has no listener; `open` attaches
  `listChangeListener` only to the list it creates (lines 252-253). Every
  cache in the model is a list `open` produced, so every command on it is
  filed.
- Edits made through a list that an earlier `open` returned are not
  modelled. `open` adds the listener to each new list (line 252) but never
  removes it from the old one, despite the "rebind" in its comment (line
  224). So after a second `open`, edits to a superseded list are still filed
  into the shared tracking lists, with that list's indices, and the next
  `cancel` replays them onto the new list. The model has one cached list,
  so it cannot express a second list still feeding the tracking lists.
- Rows are compared as values, as `equals` compares them. An entity edited
  through its own setters fires no list change, so nothing tracks it, and
  `cancel` restores which rows the list holds, not their field values.
- Logging in the catch blocks (`printStackTrace`, `System.err`) is left out.
- The plain getters (`getCls`, `getType`, `getName`, `getDbFieldInfo`,
  `getDbFieldName`, the list getters) are left out.
- `Common.Upper`: upper-cases ASCII letters only, because Java's full
  Unicode case mapping is out of scope.
- `Common.Blank`: `trim().isEmpty()` is modelled as "every character is at
  most U+0020", which is what `trim` removes.
- `FieldReference.Get`: does not state what a readable reference returns
  for a property that was already set. That is stated by
  `FieldReference.GetAfterSet` instead.
- User accessors invoked by reflection are modelled as a plain store or read
  of the named property, as the JavaBeans convention expects. A setter or
  getter with other side effects is not modelled. `FieldReference.GetAfterSet`,
  `DefaultWrapper.FieldsFrame`, `DefaultWrapper.FieldValueLands` and
  `DefaultWrapper.FailingFieldIsolated` rely on this.
- The argument checks in JavaFX's `PropertyReference` constructor are not
  modelled: a `null` or blank name, which throws NullPointerException or
  IllegalArgumentException there, and a `null` class. So
  `PropsReference.NewFromName`, `PropsReference.NewFromField` and
  `AnnotationReference.New` never fail on them.
- A SecurityException from `getDeclaredFields` appears only as a class level
  whose fields cannot be listed (`declared` is None). One from
  `getDeclaredField` in the annotation lookup is not distinguished from the
  field being absent, and both lead to `null`.
- The annotation lookup's `dbFieldName == null` test (line 46) is dead code,
  because an annotation value cannot be `null`. It is not modelled.
- The code behaves as follows where a reader might expect otherwise; the
  model follows the code:
  - `open` does not clear the three tracking lists.
  - A missing query, wrapper, connection or select text yields an empty list
    rather than an error.
  - A field whose read fails keeps whatever value the freshly instantiated
    object had, not a zero value.
  - The tracking lists are not cleared when `cancel` throws.
  - A value can be pending in two lists at once
    (`Scenarios.PendingValueTrackedTwice`), so the three tracking lists are
    not mutually exclusive.

## Findings

| source | as written | input that shows it | evidently intended | confidence | as-written member | corrected member |
|---|---|---|---|---|---|---|
| src/data/managers/BasicDAO.java:271 | `data.get(i).equals(pair.getLastValue())` dereferences the slot at the pair's advisory index, which can hold a `null` row. The NullPointerException skips all three `clear()` calls; only `finally` runs. | Baseline `[null, a]`, slot 1 set to `b`, then `x` inserted at 0: the pair's advisory slot 1 now holds `null`. | A null-safe comparison that falls back to searching for the last value, so `cancel` completes and clears the lists. | not executed | `Rollback.NullSlotDefeatsCancelAsWritten` (on `Rollback.CancelAsWritten`) | `Rollback.Cancel`, with `Rollback.CancelAfterEditsRestoresBaseline` |
| src/data/managers/BasicDAO.java:145-149 | The replaced-run loop runs to the longer run's length but indexes both runs, so unequal runs throw IndexOutOfBounds part-way. The rest of the change is never filed. | A change replacing the stored run `[a, b]` by `[c]`: `b`'s removal is lost. | Pair positions up to the shorter run; file the surplus old items as removals and the surplus new items as insertions. | not executed | `Tracking.UnequalRunLosesRemoval` (on `Tracking.ListenAsWritten`) | `Tracking.Listen`, with `Tracking.ListenAccounts` |

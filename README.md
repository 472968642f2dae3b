# Layered configuration engine — Dafny model

This project models the core of a PHP configuration library. The library keeps
per-class configuration in *collections*, merges prioritised fragments into them,
runs reads through a chain of *middlewares*, and puts PSR-6 cache pools in front
of them. The repository ships two generations, and both are modelled:

* The current generation lives under `src/Collections`, `src/MergeStrategy` and
  `src/Middleware`:
  * `MemoryConfigCollection` is keyed by lower-cased class name and optional field name.
  * `CachedConfigCollection` builds its collection lazily from a pool, or from a
    creator callback, and memoises answers per class.
  * `DeltaConfigCollection` is a nested, locally editable layer over a parent.
  * `Priority` is the deep-merge strategy.
  * `CacheMiddleware` adds memory and pool caching of middleware results.
* The legacy generation lives under `src/micmania1/config`:
  * `ConfigCollection` is a flat key/value collection.
  * It has its own `Priority`, `CachedConfigCollection` and `CacheMiddleware`.
  * The `MiddlewareAware` trait is shared by both generations.

Modelling choices:

* PHP arrays are modelled as ordered sequences of `(key, value)` pairs
  (`Php.Entries`).
  * Keys are integers or strings.
  * `$a[] = v` appends at one past the largest integer key (`Php.NextIndex`).
  * `isset` (present and not null) is kept apart from `array_key_exists` (present).
* `strtolower` is ASCII lower-casing (`Php.Lower`). `str_replace` of one
  character is `Php.ReplaceChar`.
* The state of a current-generation collection is one value, `ConfigState.Snapshot`.
  It holds the config map, the history map, the metadata map and the tracking flag.
  * The `ConfigState` functions define what each operation does to it.
  * Each class exposes `State()`.
  * Each method's `ensures` ties the new state to the function applied to `old(State())`.
* A middleware is a function from a class name and a continuation to a value.
  The chain that `callMiddleware` builds is the right fold `MiddlewareAware.Chain`.
* A PSR-6 pool is the class `CachePool.Pool`. It has a committed store, a
  deferred-save buffer and a commit counter.

## Model

| member | source | states |
|---|---|---|
| MiddlewareAware.CallMiddleware | src/micmania1/config/Middleware/MiddlewareAware.php:47-58 | The loop that wraps middlewares from back to front returns exactly the right fold `Chain(ms, last)` applied to the class. With no middleware this is `last(class)`; otherwise the first middleware is outermost and gets the chain of the rest as `$next`. |
| MiddlewareAware.Chain | src/micmania1/config/Middleware/MiddlewareAware.php:50-57 | Definition of the composed continuation as a right fold: no middleware gives `$last`; otherwise the first middleware is wrapped around the chain of the rest. `CallMiddleware`, `NextOfPosition` and `ChainConcat` relate it to the source's loop. |
| MiddlewareAware.AddMiddleware | src/micmania1/config/Middleware/MiddlewareAware.php:34-38 | Adding keeps the existing list as a prefix and places the new middleware last. |
| MiddlewareAware.Wrap | src/micmania1/config/Middleware/MiddlewareAware.php:53-55 | The closure built for one middleware answers any class by calling that middleware with the inner continuation. |
| MiddlewareAware.NextOfPosition | src/micmania1/config/Middleware/MiddlewareAware.php:51-57 | The continuation handed to the i-th middleware is the chain of the middlewares after it, ending in `$last`. |
| MiddlewareAware.ChainConcat | src/micmania1/config/Middleware/MiddlewareAware.php:47-58 | Chaining a list `a + b` equals chaining `a` around the chain of `b`. |
| MiddlewareAware.AddedMiddlewareIsInnermost | src/micmania1/config/Middleware/MiddlewareAware.php:34-38 | A middleware added with `addMiddleware` runs innermost, directly around `$last`. |
| MiddlewareAware.ForwardingChainReachesLast | src/micmania1/config/Middleware/MiddlewareAware.php:47-58 | When every middleware forwards the class unchanged to `$next`, the chain answers what `$last` answers. |
| MiddlewareAware.ShortCircuitHidesInner | src/micmania1/config/Middleware/MiddlewareAware.php:47-58 | A first middleware that never calls `$next` makes the result independent of every inner middleware and of `$last`. |
| MiddlewareAware.TwoMiddlewareOrder | src/micmania1/config/Middleware/MiddlewareAware.php:50-57 | With two middlewares, the first is called with a continuation that calls the second with `$last`. |
| MiddlewareAware.Continuation.Call | src/Middleware/CacheMiddleware.php:71 | Invoking the `$next` callback answers the resolver's value for the class and counts one invocation. |
| MiddlewareAware.Continuation.constructor | src/Middleware/CacheMiddleware.php:53-71 | A fresh callback has been invoked zero times. |
| Priority.StepKeepsOtherStrKey | src/MergeStrategy/Priority.php:64-89 | One merge step leaves every other string key's value unchanged. |
| Priority.MergeArrayUnfold | src/MergeStrategy/Priority.php:63-89 | `mergeArray` processes the high-priority entries left to right, each step applied to the array produced by the previous one. |
| Priority.MergeArray | src/MergeStrategy/Priority.php:61-91 | Definition of the current `mergeArray` loop: per high entry, a scalar is appended under an integer key and put under a string key; an array is appended under an integer key, put under a string key whose low value is missing or not an array, and otherwise merged recursively. Its properties are the `Priority.MergeArray*` lemmas. |
| Priority.MergeArrayKeepsUnmentionedStrKey | src/MergeStrategy/Priority.php:61-91 | A string key the high-priority array does not mention keeps its low-priority value (or stays absent). |
| Priority.MergeArrayKeepsIntKey | src/MergeStrategy/Priority.php:65-84 | An integer key already present in the low-priority array keeps its value: integer-keyed high entries are always appended, never merged in place. |
| Priority.MergeArrayAtStrKey | src/MergeStrategy/Priority.php:61-91 | At every string key of the high array, the result is the high value when either side is not an array or the low value is not set, and otherwise the recursive merge of the two arrays. |
| Priority.MergeArrayIntValues | src/MergeStrategy/Priority.php:65-84 | The integer-keyed values of the result are those of the low array followed by those of the high array, in order (`array_merge` behaviour for lists). |
| Priority.MergeArrayKeepsLow | src/MergeStrategy/Priority.php:61-91 | Merging an empty array changes nothing. The result is never shorter than the low array and keeps its key order. Entries whose key is not a string key of the high array are untouched. |
| Priority.MergeArrayDistinct | src/MergeStrategy/Priority.php:61-91 | The result of merging into an array with distinct keys again has distinct keys. |
| Priority.MergeArrayNotIdempotent | src/MergeStrategy/Priority.php:65-84 | Merging the same array twice differs from merging it once whenever it has integer-keyed values, because list items are appended again. |
| Priority.DisjointStrKeysCommute | src/MergeStrategy/Priority.php:61-91 | Two arrays with disjoint string keys give the same value at every string key whichever is merged into the other. |
| Priority.NormaliseItem | src/MergeStrategy/Priority.php:100-111 | The normalised item has a value and a metadata entry: the given ones when they are set, otherwise `''` and `[]`. |
| Priority.InheritMetadataAsWrittenMissesMixedCase | src/MergeStrategy/Priority.php:39-44 | As written, an item merged under `Foo` with empty metadata does not inherit the metadata stored under `foo`. |
| Priority.InheritMetadataAsWritten | src/MergeStrategy/Priority.php:39-44 | Definition of the metadata step as written: falsy metadata takes the target's metadata looked up under the class name exactly as given, when it is set there. |
| Priority.InheritMetadata | src/MergeStrategy/Priority.php:39-44 | Corrected (lower-cased lookup; see Findings): truthy metadata of the item is kept. Otherwise the metadata recorded for the lower-cased class is inherited when it is set, and the item's own falsy metadata is kept when it is not. |
| Priority.InheritMetadataIgnoresCase | src/MergeStrategy/Priority.php:39-44 | Two spellings of a class that lower-case alike inherit the same metadata. |
| LegacyPriority.MergeArrayUnfold | src/micmania1/config/MergeStrategy/Priority.php:62-92 | The legacy `mergeArray` processes high-priority entries left to right. |
| LegacyPriority.MergeArray | src/micmania1/config/MergeStrategy/Priority.php:62-92 | Definition of the legacy `mergeArray` loop: like the current one, except that an array merges recursively whenever the low value at the same key, integer keys included, is a set array. |
| LegacyPriority.MergeArrayConcat | src/micmania1/config/MergeStrategy/Priority.php:64-89 | The foreach over `a + b` equals the foreach over `a` followed by the one over `b`. |
| LegacyPriority.StepKeepsOtherKey | src/micmania1/config/MergeStrategy/Priority.php:64-89 | One legacy merge step leaves every other string key, and every other integer key already present, unchanged. |
| LegacyPriority.MergeArrayKeepsUnmentioned | src/micmania1/config/MergeStrategy/Priority.php:62-92 | A key the high array does not mention keeps its low value when it is a string key or already present. |
| LegacyPriority.MergeArrayAtKey | src/micmania1/config/MergeStrategy/Priority.php:62-92 | At a string key, or at an integer key where both sides hold arrays, the result is the high value or the recursive merge, as in the current strategy. |
| LegacyPriority.IntKeyAppends | src/micmania1/config/MergeStrategy/Priority.php:66-85 | An integer-keyed entry is appended wherever it stands in the high array when it is a scalar, or an array that meets nothing, null or a non-array at its key in the array merged so far (the guard that tests `!isset` or `!is_array`). Processing entry j adds its value after the integer-keyed values left by the entries before j, and those stay in place. |
| LegacyPriority.IntKeyedArrayDivergence | src/micmania1/config/MergeStrategy/Priority.php:77-88 | An array under an integer key whose low counterpart is an array is merged in place by the legacy strategy. The current strategy leaves the low array at that key and appends instead, so it ends with one more list item per high list item. |
| LegacyPriority.MergeArrayDistinct | src/micmania1/config/MergeStrategy/Priority.php:62-92 | The legacy merge preserves distinct keys. |
| ConfigState.Empty | src/Collections/MemoryConfigCollection.php:47-50 | A new collection has no config, metadata or history and keeps the tracking flag it was given. |
| ConfigState.Track | src/Collections/MemoryConfigCollection.php:77-90 | Without tracking, nothing is recorded. With tracking, the metadata of the key is replaced. The previous value and metadata are pushed onto the front of the key's history only when both were set. Config is unchanged. |
| ConfigState.Set | src/Collections/MemoryConfigCollection.php:74-101 | Definition of `set`: `Track` under the lower-cased class, then a named write puts the field into the class array (an empty one if none was set), and an unnamed write replaces the whole class config. Its properties are `SetThenRead`, `SetOtherClass`, `SetOtherField`, `SetHistory` and `SetCanonical`. |
| ConfigState.Remove | src/Collections/MemoryConfigCollection.php:128-137 | Definition of `remove`: unset the field of the lower-cased class's array, or the whole class entry. Its properties are `RemoveEffect` and `RemoveCanonical`. |
| ConfigState.Exists | src/Collections/MemoryConfigCollection.php:116-126 | Definition of the `exists` test on a class config: false for null; with a name, `array_key_exists` on the array; otherwise true. |
| ConfigState.RemoveAll | src/Collections/MemoryConfigCollection.php:139-144 | Removing everything empties config, metadata and history and keeps the tracking flag. |
| ConfigState.MetadataView | src/Collections/MemoryConfigCollection.php:186-193 | The metadata reported is empty unless tracking is on, in which case it is the recorded metadata. |
| ConfigState.HistoryView | src/Collections/MemoryConfigCollection.php:198-205 | The history reported is empty unless tracking is on, in which case it is the recorded history. |
| ConfigState.Stored | src/Collections/MemoryConfigCollection.php:249-251 | The final continuation of the chain answers the stored class config whatever class it is asked for. |
| ConfigState.ClassConfig | src/Collections/MemoryConfigCollection.php:240-257 | A class with no stored config reads as null, even through middleware. Without middleware, or with none installed, the stored config is answered. |
| ConfigState.Field | src/Collections/MemoryConfigCollection.php:103-114 | Without a name the whole class config is answered. With a name on a non-array, null is answered. |
| ConfigState.SetCanonical | src/Collections/MemoryConfigCollection.php:74-101 | `set` keeps the invariant that every stored class key is lower-case. |
| ConfigState.RemoveCanonical | src/Collections/MemoryConfigCollection.php:128-137 | `remove` keeps the invariant that every stored class key is lower-case. |
| ConfigState.SetThenRead | src/Collections/MemoryConfigCollection.php:74-114 | After `set`, any spelling of the class reads back the data. With a name, that field reads back the data and exists. |
| ConfigState.SetOtherClass | src/Collections/MemoryConfigCollection.php:92-100 | `set` leaves the config of every class with a different lower-cased name unchanged. |
| ConfigState.SetOtherField | src/Collections/MemoryConfigCollection.php:92-99 | A named `set` leaves every other field of the class unchanged. A class that was not set starts as an array holding only that field. |
| ConfigState.SetHistory | src/Collections/MemoryConfigCollection.php:77-90 | The history of the key after `set` is exactly what tracking prescribes. Other keys' history is unchanged. |
| ConfigState.RemoveEffect | src/Collections/MemoryConfigCollection.php:128-137 | `remove` leaves metadata, history and other classes alone. Without a name the class reads as null; with a name the field no longer exists. |
| ConfigState.NullFieldExists | src/Collections/MemoryConfigCollection.php:116-126 | A field explicitly set to null reads null and still exists (`array_key_exists`, not `isset`). |
| ConfigState.MissingClassReadsNull | src/Collections/MemoryConfigCollection.php:103-126 | A class that was never set reads null and does not exist, with or without a name and with or without middleware. |
| MemoryCollection.MergeValue | src/Collections/MemoryConfigCollection.php:170-181 | A value that is not an array, or that lands on a non-array, replaces what was there. Two arrays merge into an array. |
| MemoryCollection.MergeSpecMerges | src/Collections/MemoryConfigCollection.php:170-181 | Merging an array into a class whose config is an array leaves the class holding an array. A string key the merged value does not mention keeps its old value. |
| MemoryCollection.MemoryConfigCollection.constructor | src/Collections/MemoryConfigCollection.php:47-50 | A new collection is empty, with the given tracking flag and no middleware. |
| MemoryCollection.MemoryConfigCollection.Track | src/Collections/MemoryConfigCollection.php:77-90 | The collection's state becomes the tracking function applied to the old state. |
| MemoryCollection.MemoryConfigCollection.Set | src/Collections/MemoryConfigCollection.php:74-101 | The new state is `ConfigState.Set` of the old one; the properties of `Set` are the lemmas above. Middleware is untouched. |
| MemoryCollection.MemoryConfigCollection.GetClassConfig | src/Collections/MemoryConfigCollection.php:240-257 | Answers the stored config of the lower-cased class, through the middleware chain when asked to. |
| MemoryCollection.MemoryConfigCollection.Get | src/Collections/MemoryConfigCollection.php:103-114 | Answers the class config, or the named field of it (null when absent or not an array). |
| MemoryCollection.MemoryConfigCollection.Exists | src/Collections/MemoryConfigCollection.php:116-126 | True exactly when the class config is not null (without a name), or when it is an array holding the named key. |
| MemoryCollection.MemoryConfigCollection.Remove | src/Collections/MemoryConfigCollection.php:128-137 | The new state is `ConfigState.Remove` of the old one (see `RemoveEffect`). |
| MemoryCollection.MemoryConfigCollection.RemoveAll | src/Collections/MemoryConfigCollection.php:139-144 | Empties config, metadata and history. |
| MemoryCollection.MemoryConfigCollection.GetAll | src/Collections/MemoryConfigCollection.php:151-154 | Answers the whole config map. Every class reads as its lower-cased entry there, or null. |
| MemoryCollection.MemoryConfigCollection.Merge | src/Collections/MemoryConfigCollection.php:170-181 | The new state is the old config with the value deep-merged over the current one (see `MergeSpecMerges`). |
| MemoryCollection.MemoryConfigCollection.Update | src/Collections/MemoryConfigCollection.php:164-168 | `update` is `merge`. |
| MemoryCollection.MemoryConfigCollection.GetMetadata | src/Collections/MemoryConfigCollection.php:186-193 | Empty unless tracking, otherwise the recorded metadata. |
| MemoryCollection.MemoryConfigCollection.GetHistory | src/Collections/MemoryConfigCollection.php:198-205 | Empty unless tracking, otherwise the recorded history. |
| MemoryCollection.MemoryConfigCollection.Serialize | src/Collections/MemoryConfigCollection.php:207-218 | Fails exactly when middleware is installed; otherwise yields the full state. |
| MemoryCollection.MemoryConfigCollection.Unserialize | src/Collections/MemoryConfigCollection.php:220-228 | Restores exactly the serialised state. |
| MemoryCollection.MemoryConfigCollection.Nest | src/Collections/MemoryConfigCollection.php:230-233 | Answers a fresh clone with the same state and middleware. |
| MemoryCollection.MemoryConfigCollection.GetMiddlewares | src/micmania1/config/Middleware/MiddlewareAware.php:15-18 | Answers the installed middleware list. |
| MemoryCollection.MemoryConfigCollection.SetMiddlewares | src/micmania1/config/Middleware/MiddlewareAware.php:24-28 | Replaces the middleware list and leaves the config state unchanged. |
| MemoryCollection.MemoryConfigCollection.AddMiddleware | src/micmania1/config/Middleware/MiddlewareAware.php:34-38 | Appends a middleware and leaves the config state unchanged. |
| MemoryCollection.SerializeRoundTrip | src/Collections/MemoryConfigCollection.php:207-228 | Serialising and unserialising into a new collection succeeds exactly when no middleware is installed. It then yields a distinct collection with the same state. |
| PriorityMerge.Merge | src/MergeStrategy/Priority.php:16-49 | Corrected (metadata inherited from the lower-cased class; see Findings): the loop over the fragments leaves the target collection in the state of the left fold `MergeAll` of the items over the old state, and returns the target. |
| PriorityMerge.MergeItem | src/MergeStrategy/Priority.php:20-45 | Corrected (see Findings): definition of one loop step. A class that does not exist through middleware is set to the normalised value and metadata; otherwise the value is `MergeValue` over the raw stored value and falsy metadata is inherited through `Priority.InheritMetadata`. |
| PriorityMerge.MergeItemAsWritten | src/MergeStrategy/Priority.php:20-45 | Definition of the same step exactly as written, inheriting metadata through `Priority.InheritMetadataAsWritten`. |
| PriorityMerge.MergeAll | src/MergeStrategy/Priority.php:18-46 | Definition of the loop as a left fold of `MergeItem` over the items in order. |
| PriorityMerge.MergeItemAbsent | src/MergeStrategy/Priority.php:25-28 | An item whose class does not exist (after middleware) is stored as its normalised value, with its own metadata when tracking. |
| PriorityMerge.MergeItemPresent | src/MergeStrategy/Priority.php:31-45 | Corrected (see Findings): an item whose class exists is deep-merged over the current value. Its metadata is inherited from the lower-cased class when its own is falsy. |
| PriorityMerge.MergeItemAsWrittenAgreesOnLowerCase | src/MergeStrategy/Priority.php:31-45 | For a class name that is already lower-case, the item step as written and the corrected one give the same state. |
| PriorityMerge.MergeItemAsWrittenDropsMetadata | src/MergeStrategy/Priority.php:39-44 | As written, merging `Foo` with empty metadata replaces the truthy metadata stored for `foo` by the empty array; the corrected step keeps it. |
| PriorityMerge.MergeItemOtherClass | src/MergeStrategy/Priority.php:16-49 | Merging one item leaves every other class unchanged. |
| PriorityMerge.MergeAllOtherClass | src/MergeStrategy/Priority.php:19-47 | Merging a list of items leaves every class none of them names unchanged. |
| PriorityMerge.MergeAllConcat | src/MergeStrategy/Priority.php:19-47 | Merging `a + b` equals merging `a` and then `b`. |
| PriorityMerge.ExistsConsultsMiddleware | src/MergeStrategy/Priority.php:25-28 | The existence test goes through middleware: a middleware that hides every class makes the item replace the stored config instead of merging with it. |
| LegacyCollection.GetSpec | src/micmania1/config/ConfigCollection.php:84-92 | A key reads its lower-cased entry, or null when absent. |
| LegacyCollection.SetReplaces | src/micmania1/config/ConfigCollection.php:63-82 | After `set`, every spelling of the key reads back the value and exists. |
| LegacyCollection.NullKeyExists | src/micmania1/config/ConfigCollection.php:97-101 | A key set to null reads null but still exists. |
| LegacyCollection.DeleteKeepsMetadata | src/micmania1/config/ConfigCollection.php:106-110 | After `delete` the key no longer exists, while its metadata and history remain. |
| LegacyCollection.ConfigCollection.constructor | src/micmania1/config/ConfigCollection.php:43-48 | A new collection is empty and keeps its transformers and tracking flag. |
| LegacyCollection.ConfigCollection.Set | src/micmania1/config/ConfigCollection.php:63-82 | Same state change as an unnamed current-generation `set`. |
| LegacyCollection.ConfigCollection.Get | src/micmania1/config/ConfigCollection.php:84-92 | Answers the lower-cased key's value or null. |
| LegacyCollection.ConfigCollection.Exists | src/micmania1/config/ConfigCollection.php:97-101 | True exactly when the lower-cased key is present. |
| LegacyCollection.ConfigCollection.Delete | src/micmania1/config/ConfigCollection.php:106-110 | Removes the key's config only. |
| LegacyCollection.ConfigCollection.DeleteAll | src/micmania1/config/ConfigCollection.php:115-120 | Empties config, metadata and history. |
| LegacyCollection.ConfigCollection.GetMetadata | src/micmania1/config/ConfigCollection.php:125-132 | Empty unless tracking, otherwise the recorded metadata. |
| LegacyCollection.ConfigCollection.GetHistory | src/micmania1/config/ConfigCollection.php:137-144 | Empty unless tracking, otherwise the recorded history. |
| LegacyCollection.ConfigCollection.Serialize | src/micmania1/config/ConfigCollection.php:152-161 | Yields the full state. |
| LegacyCollection.ConfigCollection.Unserialize | src/micmania1/config/ConfigCollection.php:172-180 | Restores exactly the serialised state and keeps the transformers. |
| LegacyCollection.ConfigCollection.GetNest | src/micmania1/config/ConfigCollection.php:182-192 | Answers a fresh clone with the same state; the clone drops the transformers. |
| LegacyCollection.SerializeRoundTrip | src/micmania1/config/ConfigCollection.php:152-180 | Serialising into a new collection yields a distinct collection with the same state. |
| LegacyPriorityMerge.MergeValue | src/micmania1/config/MergeStrategy/Priority.php:34-37 | A value that is not an array, or that lands on a non-array, replaces what was there. |
| LegacyPriorityMerge.Merge | src/micmania1/config/MergeStrategy/Priority.php:17-50 | Corrected (metadata inherited from the lower-cased key; see Findings): the loop leaves the target in the state of the left fold of the items and returns it. |
| LegacyPriorityMerge.MergeItem | src/micmania1/config/MergeStrategy/Priority.php:21-46 | Corrected (see Findings): definition of one legacy loop step. An absent key is set to the normalised item; a present one gets the legacy `MergeValue` over its stored value and inherits falsy metadata from the lower-cased key. |
| LegacyPriorityMerge.MergeItemAsWritten | src/micmania1/config/MergeStrategy/Priority.php:21-46 | Definition of the same step exactly as written, inheriting metadata under the key as given. |
| LegacyPriorityMerge.MergeAll | src/micmania1/config/MergeStrategy/Priority.php:19-47 | Definition of the legacy loop as a left fold of `MergeItem` over the items in order. |
| LegacyPriorityMerge.MergeItemValue | src/micmania1/config/MergeStrategy/Priority.php:19-46 | After merging an item, the key reads the normalised value when the key was absent, and the legacy deep merge over the current value otherwise. |
| LegacyPriorityMerge.MergeItemInheritsMetadata | src/micmania1/config/MergeStrategy/Priority.php:40-45 | Corrected (see Findings): an item with falsy metadata for an existing key inherits the metadata recorded for the lower-cased key. |
| LegacyPriorityMerge.MergeItemAsWrittenAgreesOnLowerCase | src/micmania1/config/MergeStrategy/Priority.php:33-45 | For a key that is already lower-case, the item step as written and the corrected one give the same state. |
| LegacyPriorityMerge.MergeItemAsWrittenDropsMetadata | src/micmania1/config/MergeStrategy/Priority.php:40-45 | As written, merging `Foo` with empty metadata replaces the truthy metadata stored for `foo` by the empty array; the corrected step keeps it. |
| LegacyPriorityMerge.MergeAllOtherKey | src/micmania1/config/MergeStrategy/Priority.php:19-47 | Keys not named by any item keep their value. |
| DeltaOverlay.Resolve | src/Collections/DeltaConfigCollection.php:66-95 | A class without local config answers null. Without middleware the local config is answered. A delegation to the parent happens only for an unaltered class with no cached answer, and uses the lower-cased name. |
| DeltaOverlay.Alter | src/Collections/DeltaConfigCollection.php:121-127 | Corrected (see Findings): altering marks the lower-cased class as altered and drops its cached middleware answer. |
| DeltaOverlay.AlterAsWritten | src/Collections/DeltaConfigCollection.php:121-127 | Definition of `alter` as written: the class name as passed is added to the altered set and removed from the cache. |
| DeltaOverlay.Set | src/Collections/DeltaConfigCollection.php:103-107 | Corrected (see Findings): definition of `set` as the corrected `alter` followed by `ConfigState.Set` on the local store. |
| DeltaOverlay.SetAsWritten | src/Collections/DeltaConfigCollection.php:103-107 | Definition of `set` as written: `AlterAsWritten` followed by `ConfigState.Set` on the local store. |
| DeltaOverlay.Remove | src/Collections/DeltaConfigCollection.php:97-101 | Corrected (see Findings): definition of `remove` as the corrected `alter` followed by `ConfigState.Remove` on the local store. |
| DeltaOverlay.RemoveAsWritten | src/Collections/DeltaConfigCollection.php:97-101 | Definition of `remove` as written: `AlterAsWritten` followed by `ConfigState.Remove`. |
| DeltaOverlay.Fill | src/Collections/DeltaConfigCollection.php:92-93 | Definition of the cache fill: a middleware-applied answer for a class present in the local store is cached under the lower-cased class; any other lookup leaves the overlay alone. |
| DeltaOverlay.RemoveAll | src/Collections/DeltaConfigCollection.php:109-113 | `removeAll` clears the local store and the middleware cache and keeps the altered set. |
| DeltaOverlay.MissingIsNull | src/Collections/DeltaConfigCollection.php:70-72 | A class missing from the local store answers null. |
| DeltaOverlay.UnalteredDelegates | src/Collections/DeltaConfigCollection.php:80-82 | An unaltered, uncached class is delegated to the parent. |
| DeltaOverlay.FilledCacheAnswers | src/Collections/DeltaConfigCollection.php:75-77 | Once an answer is cached for a class, it is answered directly. |
| DeltaOverlay.SetThenResolve | src/Collections/DeltaConfigCollection.php:103-107 | After `set` (corrected), every spelling of the class is resolved locally and never delegated or served stale. |
| DeltaOverlay.RemoveThenResolve | src/Collections/DeltaConfigCollection.php:97-101 | After removing a class, it answers null. |
| DeltaOverlay.SetOtherClassPlan | src/Collections/DeltaConfigCollection.php:103-107 | Setting one class does not change how an unaltered other class is resolved. |
| DeltaOverlay.RemoveAllResolvesNull | src/Collections/DeltaConfigCollection.php:109-113 | After `removeAll` every class answers null, and the altered set is kept. |
| DeltaOverlay.StaleAfterMixedCaseSet | src/Collections/DeltaConfigCollection.php:121-127 | As written, setting `Foo` leaves the cached answer for `foo` in place, so reads of `foo` answer the stale value. |
| DeltaOverlay.UnalteredAfterMixedCaseSet | src/Collections/DeltaConfigCollection.php:121-140 | As written, setting `Foo` leaves `foo` unaltered, so reads of `foo` still go to the parent. |
| CachePool.Pool.constructor | src/Collections/CachedConfigCollection.php:186-193 | A new pool is empty with no commits. |
| CachePool.Pool.GetItem | src/Middleware/CacheMiddleware.php:63-68 | The item is a hit exactly when the key is stored, and then carries the stored value. |
| CachePool.Pool.Save | src/Middleware/CacheMiddleware.php:71-75 | Saving an item with a value stores it immediately. Anything else is refused and changes nothing. |
| CachePool.Pool.SaveDeferred | src/Collections/CachedConfigCollection.php:135-139 | A deferred save buffers the item without touching the store. |
| CachePool.Pool.Commit | src/Collections/CachedConfigCollection.php:146-151 | A commit moves every deferred item into the store and empties the buffer. |
| CachePool.Pool.Clear | src/Collections/CachedConfigCollection.php:225-232 | Clearing empties the store and the buffer. |
| CachePool.NormaliseKey | src/Middleware/CacheMiddleware.php:87-90 | The key keeps its length, contains no backslash and no upper-case letter, and every other character is unchanged. |
| CachePool.NormaliseKeyIdempotent | src/Middleware/CacheMiddleware.php:87-90 | Normalising twice equals normalising once. |
| CachePool.SameKeyIff | src/Middleware/CacheMiddleware.php:87-90 | Two class names share a cache key exactly when they have the same length and agree character by character after lower-casing and mapping `\` to `,`. |
| CachePool.NamespacedClassCollides | src/Middleware/CacheMiddleware.php:78-90 | `App\Foo` and `app,foo` share a cache key. |
| CacheMiddlewares.CacheMiddleware.constructor | src/Middleware/CacheMiddleware.php:37-44 | The memory cache starts empty. With flush the pool is cleared; otherwise it is untouched. |
| CacheMiddlewares.CacheMiddleware.GetClassConfig | src/Middleware/CacheMiddleware.php:53-76 | Three cases on the normalised key. A set memory entry is answered directly. Otherwise a pool hit is answered and memoised. Otherwise `$next` is called once, and its result is saved to the pool, memoised and answered. |
| CacheMiddlewares.LookupTwice | src/Middleware/CacheMiddleware.php:53-76 | Two lookups of the same class give the same answer and call `$next` at most once. |
| CacheMiddlewares.NullIsNotMemoised | src/Middleware/CacheMiddleware.php:58-60 | A null result is saved to the pool but the memory cache does not count it (`isset` fails), so the next lookup goes to the pool again. |
| CacheMiddlewares.SpellingsShareEntry | src/Middleware/CacheMiddleware.php:53-90 | Spellings of a class that normalise alike share one cache entry: same answer, at most one call of `$next`. |
| LegacyCacheMiddlewares.Thunk.constructor | src/micmania1/config/Middleware/CacheMiddleware.php:48 | A fresh `$next` has been called zero times. |
| LegacyCacheMiddlewares.Thunk.Call | src/micmania1/config/Middleware/CacheMiddleware.php:48 | Calling `$next()` answers its value and counts one call. |
| LegacyCacheMiddlewares.CacheMiddleware.constructor | src/micmania1/config/Middleware/CacheMiddleware.php:26-33 | With flush the pool is cleared; otherwise it is untouched. |
| LegacyCacheMiddlewares.CacheMiddleware.GetClassConfigAsWritten | src/micmania1/config/Middleware/CacheMiddleware.php:42-52 | The model's version of the code as written: a hit answers the stored value. On a miss the model calls `$next`, has its refused raw save change nothing, and answers the result. In PHP the typed `save` raises a `TypeError` at line 50 instead, and nothing is answered. |
| LegacyCacheMiddlewares.CacheMiddleware.GetClassConfig | src/micmania1/config/Middleware/CacheMiddleware.php:42-52 | Corrected: a miss stores the result under the class name, so the next lookup is a hit. |
| LegacyCacheMiddlewares.RepeatedMissAsWritten | src/micmania1/config/Middleware/CacheMiddleware.php:44-51 | Under the model's refused raw save, two lookups of an uncached class call `$next` twice and leave it uncached. In PHP the first miss already raises a `TypeError` at line 50, so there is no second lookup. |
| LegacyCacheMiddlewares.RepeatedMissCorrected | src/micmania1/config/Middleware/CacheMiddleware.php:44-51 | Corrected, two lookups call `$next` once and leave the result cached. |
| LegacyCacheMiddlewares.CaseSensitiveKeys | src/micmania1/config/Middleware/CacheMiddleware.php:44 | The legacy middleware uses the class name as the key unchanged: an entry under `foo` does not answer `Foo`. |
| CachedCollections.MemoKeyInjective | src/Collections/CachedConfigCollection.php:251 | The memo key built from a class and the middleware flag determines both. |
| CachedCollections.Uncached | src/Collections/CachedConfigCollection.php:268-279 | Without middleware, or with none installed, the uncached answer is the built collection's raw class config. |
| CachedCollections.CollectionCreator.constructor | src/Collections/CachedConfigCollection.php:199-203 | A new creator callback has been called zero times. |
| CachedCollections.CollectionCreator.Create | src/Collections/CachedConfigCollection.php:131 | Each call builds a fresh collection from the seed state without middleware and counts one call. |
| CachedCollections.CachedConfigCollection.constructor | src/Collections/CachedConfigCollection.php:16-68 | A new cached collection has no pool, collection or creator, empty memo and middleware lists, and is neither flushing nor dirty. |
| CachedCollections.CachedConfigCollection.GetCollection | src/Collections/CachedConfigCollection.php:114-141 | Answers the current collection once it is built. Otherwise it takes the pool's entry when it is a hit and no flush was asked. Otherwise it calls the creator, defers a save of the new collection and marks the cache dirty. |
| CachedCollections.CachedConfigCollection.Close | src/Collections/CachedConfigCollection.php:146-151 | A dirty collection commits the pool once; a clean one leaves the pool as it was. |
| CachedCollections.CachedConfigCollection.SetPool | src/Collections/CachedConfigCollection.php:186-193 | Installs the pool and clears it when flushing, leaving its commit count. Collection, dirty flag, flag, memo, creator and both middleware lists are unchanged. |
| CachedCollections.CachedConfigCollection.SetFlush | src/Collections/CachedConfigCollection.php:225-232 | Sets the flag and clears the installed pool when flushing, leaving its commit count. Pool, collection, dirty flag, memo, creator and both middleware lists are unchanged. |
| CachedCollections.CachedConfigCollection.SetCollectionCreator | src/Collections/CachedConfigCollection.php:199-203 | Installs the creator. Pool, flag, collection, dirty flag, memo and both middleware lists are unchanged. |
| CachedCollections.CachedConfigCollection.SetNestedMiddlewares | src/Collections/CachedConfigCollection.php:174-178 | Records the middleware for nested collections. The collection's own middleware list and every other field are unchanged. |
| CachedCollections.CachedConfigCollection.SetMiddlewares | src/micmania1/config/Middleware/MiddlewareAware.php:24-28 | Replaces the middleware list. The nested middleware list and every other field are unchanged. |
| CachedCollections.CachedConfigCollection.GetUncachedClassConfig | src/Collections/CachedConfigCollection.php:268-279 | Answers the class config of the collection that `getCollection` builds, through this collection's middleware when asked to. |
| CachedCollections.CachedConfigCollection.GetClassConfig | src/Collections/CachedConfigCollection.php:249-259 | A memoised answer is returned without building. Otherwise the uncached answer is computed and memoised under the class/flag key. |
| CachedCollections.CachedConfigCollection.Get | src/Collections/CachedConfigCollection.php:69-80 | Answers the field of the lower-cased class's memoised or fresh config. It memoises that config: a memo hit touches nothing else, and a miss has exactly the effects of `getCollection` (`Memoises`). |
| CachedCollections.CachedConfigCollection.Exists | src/Collections/CachedConfigCollection.php:87-97 | Existence of the class or field in the memoised or fresh config. The memo and build effects are those of `get` (`Memoises`); the flag and nested middleware are unchanged. |
| CachedCollections.CachedConfigCollection.GetAll | src/Collections/CachedConfigCollection.php:82-85 | Answers the built collection's whole config. |
| CachedCollections.CachedConfigCollection.GetMetadata | src/Collections/CachedConfigCollection.php:99-102 | Answers the built collection's metadata view. |
| CachedCollections.CachedConfigCollection.GetHistory | src/Collections/CachedConfigCollection.php:104-107 | Answers the built collection's history view. |
| CachedCollections.CachedConfigCollection.Nest | src/Collections/CachedConfigCollection.php:153-164 | Answers a fresh delta collection whose parent is this collection. It holds the built config, the nested middleware, no altered class and no cached answer. Its store is a distinct object from the built collection and from the pool's `__CONFIG__` entry, so writes to the delta cannot reach either. |
| CachedCollections.DeltaConfigCollection.constructor | src/Collections/DeltaConfigCollection.php:39-43 | A new delta starts from a copy of the parent's config, with no middleware, no altered class and no cached answer. |
| CachedCollections.DeltaConfigCollection.SetParent | src/Collections/DeltaConfigCollection.php:49-54 | Installs the parent and copies its config into the local store, leaving metadata, middleware, altered set and cache alone. |
| CachedCollections.DeltaConfigCollection.Alter | src/Collections/DeltaConfigCollection.php:121-127 | Corrected: marks the lower-cased class altered and drops its cached answer. |
| CachedCollections.DeltaConfigCollection.AlterAsWritten | src/Collections/DeltaConfigCollection.php:121-127 | The new overlay is `DeltaOverlay.AlterAsWritten` of the old one: the name as passed is recorded and invalidated. The parent is kept. |
| CachedCollections.DeltaConfigCollection.IsAltered | src/Collections/DeltaConfigCollection.php:137-140 | True exactly when the class was altered. |
| CachedCollections.DeltaConfigCollection.Set | src/Collections/DeltaConfigCollection.php:103-107 | Corrected (lower-cased `alter`; see Findings): alters the class, then sets it locally (`DeltaOverlay.Set`). |
| CachedCollections.DeltaConfigCollection.SetAsWritten | src/Collections/DeltaConfigCollection.php:103-107 | The new overlay is `DeltaOverlay.SetAsWritten` of the old one, so a mixed-case `set` behaves as in `StaleAfterMixedCaseSet` and `UnalteredAfterMixedCaseSet`. |
| CachedCollections.DeltaConfigCollection.Remove | src/Collections/DeltaConfigCollection.php:97-101 | Corrected (lower-cased `alter`; see Findings): alters the class, then removes it locally (`DeltaOverlay.Remove`). |
| CachedCollections.DeltaConfigCollection.RemoveAsWritten | src/Collections/DeltaConfigCollection.php:97-101 | The new overlay is `DeltaOverlay.RemoveAsWritten` of the old one. |
| CachedCollections.DeltaConfigCollection.RemoveAll | src/Collections/DeltaConfigCollection.php:109-113 | Clears the local store and the cache and keeps the altered set. |
| CachedCollections.DeltaConfigCollection.GetClassConfig | src/Collections/DeltaConfigCollection.php:66-95 | Follows the resolution plan. A local answer leaves the parent, its pool and its creator unchanged. A delegation answers the parent's memoised or fresh answer for the lower-cased class, with the parent's memo and build effects (`Memoises`). The middleware cache is filled as `DeltaOverlay.Fill` says. |
| CachedCollections.MemoOutlivesChanges | src/Collections/CachedConfigCollection.php:249-259 | Once a class is memoised, a later `set` on the built collection does not change what the cached collection answers for it. |
| CachedCollections.MemoKey | src/Collections/CachedConfigCollection.php:251 | Definition of the memo key `$class . '-' . $includeMiddleware`, with true printed as `1` and false as the empty string. `MemoKeyInjective` proves that distinct lookups never share a key. |
| CachedCollections.DeltaWritesStayLocal | src/Collections/DeltaConfigCollection.php:97-107 | Overlay isolation: after `nest`, a `set` on the delta leaves the parent's built store as it was built, and the delta reads its own value back. |
| CachedCollections.DeltaWriteKeepsParentAnswer | src/Collections/DeltaConfigCollection.php:103-107 | Overlay isolation: after `nest`, the parent answers the same for the class before and after a `set` of it on the delta. That answer is the parent's answer from before the nest. |
| CachedCollections.FrozenStoreLiveDelegation | src/Collections/DeltaConfigCollection.php:49-54 | After `nest`, a write to the parent's built collection is invisible to the delta's raw read, which answers the value frozen at nesting. The delta's middleware read of the unaltered class goes to the live parent. It answers the parent's memo when the parent had one, and otherwise the chain over the parent's new store. |
| LegacyCachedCollections.CollectionCreator.constructor | src/micmania1/config/CachedConfigCollection.php:49-54 | A new creator callback has been called zero times. |
| LegacyCachedCollections.CollectionCreator.Create | src/micmania1/config/CachedConfigCollection.php:120-124 | Each call builds a fresh collection from the seed and counts one call. |
| LegacyCachedCollections.CachedConfigCollection.constructor | src/micmania1/config/CachedConfigCollection.php:49-54 | Keeps pool, creator and flush flag; nothing is built yet and the cache is clean. |
| LegacyCachedCollections.CachedConfigCollection.GetCollection | src/micmania1/config/CachedConfigCollection.php:105-131 | Answers the current collection once it is built. Otherwise it takes the pool's hit unless flushing. Otherwise it creates one and defers a save of a distinct clone, so later local edits do not reach the saved copy. |
| LegacyCachedCollections.CachedConfigCollection.SetCollection | src/micmania1/config/CachedConfigCollection.php:137-141 | Installs the given collection. |
| LegacyCachedCollections.CachedConfigCollection.Set | src/micmania1/config/CachedConfigCollection.php:56-59 | As written: succeeds exactly when a collection is already built, and then sets the key in it. Before any build it fails (the source's call on null) and changes nothing. |
| LegacyCachedCollections.CachedConfigCollection.SetBuilt | src/micmania1/config/CachedConfigCollection.php:56-59 | Corrected: has the effects of `getCollection` (`BuildEffects`) and leaves the built collection holding the upcoming store with the key set. |
| LegacyCachedCollections.CachedConfigCollection.Get | src/micmania1/config/CachedConfigCollection.php:64-67 | Answers the key's value in the collection `getCollection` yields. |
| LegacyCachedCollections.CachedConfigCollection.Exists | src/micmania1/config/CachedConfigCollection.php:72-75 | Answers the key's existence in that collection. |
| LegacyCachedCollections.CachedConfigCollection.Delete | src/micmania1/config/CachedConfigCollection.php:77-80 | Has the effects of `getCollection` on pool, creator and flags (`BuildEffects`), and leaves the built collection holding the upcoming store with the key deleted. |
| LegacyCachedCollections.CachedConfigCollection.DeleteAll | src/micmania1/config/CachedConfigCollection.php:82-85 | Has the effects of `getCollection` (`BuildEffects`), and leaves the built collection empty. |
| LegacyCachedCollections.CachedConfigCollection.GetMetadata | src/micmania1/config/CachedConfigCollection.php:87-90 | Answers that collection's metadata view. |
| LegacyCachedCollections.CachedConfigCollection.GetHistory | src/micmania1/config/CachedConfigCollection.php:95-98 | Answers that collection's history view. |
| LegacyCachedCollections.CachedConfigCollection.GetNest | src/micmania1/config/CachedConfigCollection.php:167-170 | Answers a fresh clone of that collection without transformers. |
| LegacyCachedCollections.CachedConfigCollection.Close | src/micmania1/config/CachedConfigCollection.php:160-165 | A dirty collection commits the pool once, moving the deferred saves into the store and emptying the deferred list; a clean one leaves it alone. |
| LegacyCachedCollections.LocalEditsStayLocal | src/micmania1/config/CachedConfigCollection.php:113-130 | After a cache miss, a `set` changes the built collection while the deferred cache entry keeps the creator's seed. |

## Left out

- Transformers (`transform`, the YAML and PHP-file parsers) call into code outside this
  model. The legacy collection keeps the transformer list only as data. The current
  collection's `transform` is not modelled.
- Serialisation is the identity on the state tuple. JSON/`serialize` encoding, and
  `json_encode` failing on invalid UTF-8, are not modelled.
- Real PSR-6 pools are replaced by `CachePool.Pool`. `getItem` does not see deferred
  items. Saving a raw value where the interface demands an item is refused (returns
  false, stores nothing) rather than raising a `TypeError`. An item without a value is
  refused as well.
- Floats, objects and closures as config values are not modelled. Values are null,
  booleans, integers, strings and arrays.
- PHP's coercion of numeric-string array keys to integer keys is not modelled: a string
  key stays a string key.
- ConfigState.Field: a named read of a class whose config is a string answers null. In PHP, `isset($config[$name])` with a numeric name such as `'1'` is a string offset, and it answers that character (`'b'` for `'abc'`). String offsets are not modelled. Every `get` with a name inherits this: `MemoryCollection.MemoryConfigCollection.Get` and `CachedCollections.CachedConfigCollection.Get`.
- ConfigState.Set: a named `set` on a class whose config is a non-null scalar is a
  precondition (`NamedWritable`). PHP would raise an error or silently convert there.
- ConfigState.Remove: removing a named field of a non-array config is a no-op. Asking
  `exists` with a name on a non-array answers false.
- Php.NextIndex: PHP's next free index is a high-water mark that survives `unset`. The
  model recomputes it from the keys present.
- MemoryCollection.MemoryConfigCollection.GetAll: PHP arrays are ordered, but the model
  answers a map, so the insertion order of classes is not captured.
- MemoryCollection.MergeValue: `merge` calls `Priority::mergeArray` statically, which
  PHP 8 rejects and PHP 7 cannot complete (the nested call uses `$this`). The model
  treats it as an instance call of the current merge strategy.
- CachedCollections.CachedConfigCollection.GetUncachedClassConfig: the source hands the
  chain a lazy closure, so a short-circuiting middleware never builds the collection.
  The model builds it before running the chain.
- Stateful middlewares such as `CacheMiddleware` are modelled on their own. They are not
  placed inside the pure middleware chain.
- `ExtensionMiddleware` calls into the host framework's extension system and is left out.
- CachedCollections.DeltaConfigCollection: its parent is fixed to the current cached
  collection. `getParent` is the `parent` field.
- CachedCollections.DeltaConfigCollection: the `Collections\ConfigCollection` base class
  is not part of this model. Its storage is taken to behave as `MemoryConfigCollection`,
  reached through the `base` field.
- CachedCollections.CachedConfigCollection.Nest: `DeltaConfigCollection::create()` is
  not part of this model, so the delta is constructed directly.
- CachedCollections.CachedConfigCollection.constructor: `nestedMiddlewares` defaults to
  null in the source. A delta nested before `setNestedMiddlewares` would then hold null
  middleware, and `array_reverse` would fail on it. The model uses the empty list.
- The collection and middleware interfaces are only declarations. They are represented
  by the classes that implement them.
- LegacyCollection.DeleteKeepsMetadata: the legacy interface documents that `delete`
  removes metadata. The code does not, and the model follows the code.
- LegacyCacheMiddlewares.Thunk: the legacy middleware calls `$next()` with no arguments,
  so the continuation is a zero-argument callback.
- LegacyCacheMiddlewares.CacheMiddleware.GetClassConfig: PSR-6 rejects keys that contain
  `\`. The legacy middleware passes class names unchanged, and the model does not check
  key syntax.
- The legacy cached collection's `normaliseKey` is never called from its own code. Its
  behaviour is the shared `CachePool.NormaliseKey`.
- Priority.InheritMetadata: states the corrected lookup under the lower-cased class; the source looks the class up as given. The lookup as written is `Priority.InheritMetadataAsWritten`.
- DeltaOverlay.Alter: records and invalidates the lower-cased class; the source uses the name as passed. The as-written `alter` is `DeltaOverlay.AlterAsWritten`, with its consequences in `StaleAfterMixedCaseSet` and `UnalteredAfterMixedCaseSet`.
- DeltaOverlay.Set: goes through the corrected `alter`; `DeltaOverlay.SetAsWritten` is the version as written.
- DeltaOverlay.Remove: goes through the corrected `alter`; `DeltaOverlay.RemoveAsWritten` is the version as written.
- CachedCollections.DeltaConfigCollection.Alter: the corrected lower-cased `alter`. The as-written one is `CachedCollections.DeltaConfigCollection.AlterAsWritten`.
- CachedCollections.DeltaConfigCollection.Set: runs the corrected `alter`. The as-written path is `CachedCollections.DeltaConfigCollection.SetAsWritten`.
- CachedCollections.DeltaConfigCollection.Remove: runs the corrected `alter`. The as-written path is `CachedCollections.DeltaConfigCollection.RemoveAsWritten`.
- Pool entries are shared references. On a hit both cached collections adopt the object stored in `CachePool.Pool` itself, while a PSR-6 pool hands out a fresh unserialised copy. In the model a later edit to an adopted collection therefore also changes the pool's stored entry. Examples are the legacy `SetBuilt`, `Delete` and `DeleteAll` after a hit.
- PriorityMerge.MergeItem: inherits metadata from the lower-cased class; the source looks it up under the class name as given (src/MergeStrategy/Priority.php:41). The step as written is `PriorityMerge.MergeItemAsWritten`.
- LegacyPriorityMerge.MergeItem: inherits metadata from the lower-cased key; the source looks it up under the key as given (src/micmania1/config/MergeStrategy/Priority.php:42). The step as written is `LegacyPriorityMerge.MergeItemAsWritten`.
- LegacyCacheMiddlewares.CacheMiddleware.GetClassConfigAsWritten: on a miss PHP raises a `TypeError` at the `save` call (src/micmania1/config/Middleware/CacheMiddleware.php:50), because a raw value is not a cache item, and nothing is returned. The model refuses the save, leaves the pool unchanged, and answers the result of `$next`; the fatal error is not modelled.
- LegacyCacheMiddlewares.RepeatedMissAsWritten: describes two lookups under the model's refused save. In PHP the first miss ends in the `TypeError`, so the second lookup never happens.
- PriorityMerge.MergeItemPresent: states the corrected metadata lookup (lower-cased class). The step as written is `PriorityMerge.MergeItemAsWritten`, which agrees with it on lower-case names only.
- PriorityMerge.Merge: folds the corrected item step, not the as-written lookup of the class name as given.
- LegacyPriorityMerge.MergeItemInheritsMetadata: states the corrected metadata lookup (lower-cased key). The step as written is `LegacyPriorityMerge.MergeItemAsWritten`.
- LegacyPriorityMerge.Merge: folds the corrected item step, not the as-written lookup of the key as given.
- CachedCollections.CachedConfigCollection.GetCollection: requires `Buildable()`. Without a built collection, a pool, or (on a miss or flush) a factory, the source fails fatally (`getItem` on null at line 122, `call_user_func` on null at line 131); that fatal path is not modelled.
- CachedCollections.CachedConfigCollection.GetUncachedClassConfig: requires `Buildable()` because it goes through `getCollection`; the same fatal path is not modelled.
- CachedCollections.CachedConfigCollection.GetClassConfig: requires `Buildable()` because it goes through `getCollection`; the same fatal path is not modelled.
- CachedCollections.CachedConfigCollection.Get: requires `Buildable()` because it goes through `getCollection`; the same fatal path is not modelled.
- CachedCollections.CachedConfigCollection.Exists: requires `Buildable()` because it goes through `getCollection`; the same fatal path is not modelled.
- CachedCollections.CachedConfigCollection.GetAll: requires `Buildable()` because it goes through `getCollection`; the same fatal path is not modelled.
- CachedCollections.CachedConfigCollection.GetMetadata: requires `Buildable()` because it goes through `getCollection`; the same fatal path is not modelled.
- CachedCollections.CachedConfigCollection.GetHistory: requires `Buildable()` because it goes through `getCollection`; the same fatal path is not modelled.
- CachedCollections.CachedConfigCollection.Nest: requires `Buildable()` because it goes through `getCollection`; the same fatal path is not modelled.
- LegacyCachedCollections.CachedConfigCollection.Set: models the call on null before any build as a failure that changes nothing, not as a fatal error.
- `__destruct` is modelled as an explicit `Close` method, because object lifetime is
  outside the model.

## Findings

| source | as written | input that shows it | evidently intended | confidence | as-written member | corrected member |
|---|---|---|---|---|---|---|
| src/MergeStrategy/Priority.php:39-44 | Metadata to inherit is looked up under the class name as given, but collections store metadata under the lower-cased name. | Merge an item for `Foo` with empty metadata into a collection tracking metadata under `foo`. | Inherit the metadata recorded for the lower-cased class. | not executed | Priority.InheritMetadataAsWrittenMissesMixedCase | Priority.InheritMetadataIgnoresCase |
| src/Collections/DeltaConfigCollection.php:121-127 | `alter` records and invalidates the class name as given, while `getClassConfig` looks up the lower-cased name (line 68). | `set('Foo', …)` after `foo` has a cached middleware answer: reading `foo` answers the stale value, or is delegated to the parent. | Alter the lower-cased class so that every spelling sees the local change. | not executed | DeltaOverlay.StaleAfterMixedCaseSet | DeltaOverlay.SetThenResolve |
| src/micmania1/config/Middleware/CacheMiddleware.php:48-51 | On a miss the raw result is passed to `save` instead of the cache item, so nothing is stored. | The first lookup of an uncached class: in PHP, `save(CacheItemInterface $item)` receives a non-item and raises a `TypeError`. The model refuses the raw save instead, so two lookups call `$next` twice and the class stays uncached. | Set the result on the item and save the item. | not executed | LegacyCacheMiddlewares.RepeatedMissAsWritten | LegacyCacheMiddlewares.RepeatedMissCorrected |
| src/micmania1/config/MergeStrategy/Priority.php:40-45 | The legacy merge looks up metadata to inherit under the key as given, while collections store it under the lower-cased key. | Merge `Foo => []` into a collection holding `foo` with truthy metadata: the stored metadata is replaced by the empty array. | Inherit the metadata recorded for the lower-cased key. | not executed | LegacyPriorityMerge.MergeItemAsWrittenDropsMetadata | LegacyPriorityMerge.MergeItemInheritsMetadata |
| src/micmania1/config/CachedConfigCollection.php:56-59 | `set` writes to `$this->collection` without calling `getCollection`, unlike `get`, `exists` and `delete` (lines 64-80). | `set` on a freshly constructed cached collection: the collection is still null, so the call is fatal. | Build the collection first, as the other accessors do. | not executed | LegacyCachedCollections.CachedConfigCollection.Set | LegacyCachedCollections.CachedConfigCollection.SetBuilt |

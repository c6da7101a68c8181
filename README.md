# Flagpole outline engine, in Dafny

This project models the core of the VS Code extension that explores Flagpole feature-flag files. A
Flagpole file is a YAML document whose `options` mapping holds one entry per feature flag. Each
feature has a creation date, an `enabled` flag, an owner, and a list of segments. Each segment has a
name, a rollout percentage and a list of conditions (property, operator, value). The extension reads
this structure in two independent ways, and the model covers both:

- **The outline engine** (`src/transform/transformers.*`, `src/stores/outlineStore.*`). It turns the
  document-symbol tree reported by the editor into logical features, segments and conditions. It
  computes each segment's and feature's rollout state (`0%`, `partial`, `100%`) and the
  "extra segments" warning. It builds four indexes of the features: by owner, rollout state,
  `enabled` and creation date. It caches one outline per document, polls the symbol provider at
  most six times, and emits an event when an outline is rebuilt.
- **The flag-file indexer** (`src/flagpoleFile.ts`, `src/fileMap.ts`). It works from the parsed
  `options` entries. It files every feature into JavaScript `Map`s of `Set`s keyed by creation
  date, `enabled`, name, owner and rollout. It files every segment by name, and every distinct
  segment definition (the segment without its rollout) by name. It sorts the maps by key. It finds
  the feature nearest before a cursor, and the offset of a feature's key.

The supporting pieces are also modelled: `appendToMap`, `sortMapByKeys`, `getRolloutEmoji`, the
name patterns and enumerations of `src/types.*`, the selection filter of
`src/stores/selectedElementsStore.ts`, and the table of open flag files.

The modules are:

- `Types`: rollout states, operators, properties, and the Feature/Segment/Condition records.
- `FeatureNames`: the two regular expressions.
- `JsMaps`: a JavaScript `Map` as insertion order plus table, with `appendToMap`, the group-by
  fold built from it, and `sortMapByKeys` with JavaScript's default sort.
- `Transformers`, `OutlineStores`, `FlagpoleFiles`, `FileMaps`, `RolloutEmojis` and
  `SelectedElements`: one module per source file.
- `RolloutAgreement`: sets the two rollout computations side by side and proves where they agree
  and where they differ.

The source is in two revisions: the TypeScript files and their compiled `.js` twins. They agree
everywhere except in how the transformer resolves a feature's owner. The model takes a `Revision`
parameter for that one difference.

## Model

| member | source | states |
|---|---|---|
| Types.ParseRolloutState | src/types.ts:22 | A parsed text is the text of the state returned; `None` exactly when no rollout state has that text. |
| Types.RolloutTextRoundTrip | src/types.ts:22 | Every rollout state parses back from its own text, so the enumeration is closed and its texts are distinct. |
| Types.NumberOfCanonicalTexts | src/transform/transformers.ts:126 | `Number("0")` is 0, `Number("100")` is 100, `Number("00")` is 0, `Number("+5")` is 5, and `Number("abc")` and `Number("-")` are NaN. |
| Types.OperatorOf | src/types.ts:62 | A name denotes an operator exactly when it is listed in `OPERATORS`, and the operator's name is that text. |
| Types.OperatorsAreTheOperatorNames | src/types.ts:117-124 | `OPERATORS` has six distinct entries: every operator of the condition union appears, and every entry parses as an operator. |
| Types.PropertiesAreDistinctAndTyped | src/types.ts:90-115 | `PROPERTIES` names 24 distinct properties, and the newer `PROPERTIES` object types exactly those names. |
| Types.BooleanProperties | src/types.js:6-31 | Exactly seven properties are boolean, and they are the seven listed. |
| Types.NumberProperties | src/types.js:6-31 | `project_id` is the only number property. |
| Types.StringProperties | src/types.js:6-31 | Every property that is neither boolean nor `project_id` is a string. |
| Types.OperatorValueShapes | src/types.ts:24-60 | `in` and `not_in` take exactly the homogeneous arrays. `contains` and `not_contains` take exactly the non-boolean scalars. A boolean scalar fits `equals` and `not_equals` only. |
| FeatureNames.FeatureNamePatternExamples | src/types.ts:12 | On concrete names only: the pattern accepts an organization and a project name with lower-case slugs, and rejects an empty slug, an upper-case slug and a `users` scope. |
| FeatureNames.FeatureNamePatternIsLowerCase | src/types.js:4 | A matching name has no upper-case letter and is longer than its scope prefix. |
| FeatureNames.FeatureNameLineRecognizerIsExact | src/types.ts:13 | The scanning recogniser accepts a line exactly when it splits as the line expression describes: spaces, an optional quote, the scope, one or more word characters or dashes, an optional quote, then a colon. |
| FeatureNames.QuotedFeatureKeyLinesMatch | src/types.ts:13 | Every indented, quoted feature key followed by a colon matches the line expression, whatever follows it. |
| FeatureNames.BareFeatureKeyLinesMatch | src/types.js:5 | Every indented, unquoted feature key followed by a colon matches the line expression, whatever follows it. |
| FeatureNames.FeatureNameLineRejectsEmptyName | src/types.ts:13 | A scope prefix with no name before the colon does not match. |
| JsMaps.EmptyMap | src/flagpoleFile.ts:23-32 | A new map is well formed and holds no key. |
| JsMaps.Get | src/fileMap.ts:26-28 | A lookup finds a value exactly when the key is present, and the value found is the stored one. |
| JsMaps.Set | src/fileMap.ts:11 | `set` stores the value under the key and keeps every other entry. The key joins the insertion order only when it is new. |
| JsMaps.Delete | src/fileMap.ts:22-24 | `delete` removes exactly that key and leaves an absent key's map unchanged. |
| JsMaps.Values | src/fileMap.ts:30-32 | `values()` lists every stored value once, in insertion order of the keys. |
| JsMaps.AppendToMap | src/utils/appendToMap.ts:1-10 | Afterwards the key is present with the value in its bucket. A new key gets exactly `{value}` and joins the insertion order. An existing key keeps the order. Every other bucket is unchanged, and the key count grows by at most one. |
| JsMaps.AppendToMapBuckets | src/utils/appendToMap.ts:9 | The key's bucket gains the value with set semantics, other buckets are untouched, and set-valued buckets stay sets. |
| JsMaps.SetAddKeepsSet | src/utils/appendToMap.ts:9 | Adding to a set keeps it duplicate-free and its members are the old ones plus the value. |
| JsMaps.AppendToMapIdempotent | src/utils/appendToMap.ts:9 | Repeating a call with the same key and value leaves the map unchanged. |
| JsMaps.GroupBySnoc | src/flagpoleFile.ts:58-63 | Filing one more item is one `appendToMap` under the item's key, and it extends that key's matches by the item. |
| JsMaps.GroupByBucket | src/flagpoleFile.ts:58-63 | After filing items, each key's bucket is the initial bucket followed by the items with that key, in order, without repeats. |
| JsMaps.GroupByHasKey | src/utils/appendToMap.ts:6-8 | After filing items, a key is present exactly when it was present already or some item has it. |
| JsMaps.GroupByKeyPresent | src/utils/appendToMap.ts:6-8 | A key absent at the start is present after filing exactly when some item has that key. |
| JsMaps.GroupByKeepsSets | src/utils/appendToMap.ts:9 | Filing keeps every bucket duplicate-free. |
| JsMaps.DedupSpec | src/utils/appendToMap.ts:9 | Set insertion drops repeats and keeps every member. |
| JsMaps.FilterMembers | src/flagpoleFile.ts:58-63 | The items filed under a key are exactly the items with that key. |
| JsMaps.FilterNonEmpty | src/flagpoleFile.ts:58-63 | Some item is filed under a key exactly when some item has that key. |
| JsMaps.GroupByMembers | src/flagpoleFile.ts:58-63 | Starting from empty buckets, a bucket's members are exactly the items with its key, without duplicates. |
| JsMaps.GroupByNonEmptyBuckets | src/utils/appendToMap.ts:6-9 | Starting from an empty map, no bucket is empty. |
| JsMaps.GroupByAppend | src/flagpoleFile.ts:58-87 | Filing two runs of items one after the other is filing their concatenation. |
| JsMaps.GroupByKeepsOrderPrefix | src/flagpoleFile.ts:34-38 | Filing never reorders keys already present: the initial key order is a prefix of the result's. |
| JsMaps.TextLeTotal | src/utils/sortMapByKeys.ts:2 | The comparison of the default sort is total. |
| JsMaps.TextLeTransitive | src/utils/sortMapByKeys.ts:2 | The comparison of the default sort is transitive. |
| JsMaps.TextLeAntisymmetric | src/utils/sortMapByKeys.ts:2 | The comparison of the default sort is antisymmetric. |
| JsMaps.InsertKey | src/utils/sortMapByKeys.ts:2 | Inserting a key into a sorted run adds exactly that key. |
| JsMaps.SortKeys | src/utils/sortMapByKeys.ts:2 | The sort returns a permutation of its input. |
| JsMaps.InsertKeySorted | src/utils/sortMapByKeys.ts:2 | Inserting into a sorted run keeps it sorted. |
| JsMaps.SortKeysSorted | src/utils/sortMapByKeys.ts:2 | The sort's output is ordered by the string forms of the entries. |
| JsMaps.SortKeysOfSorted | src/utils/sortMapByKeys.ts:2 | An already sorted key order is left as it is. |
| JsMaps.SortMapByKeys | src/utils/sortMapByKeys.ts:1-3 | The new map has exactly the same key-to-value pairs and size, and its keys are ordered by the string forms of the `[key, value]` entries. |
| JsMaps.SortKeysStable | src/utils/sortMapByKeys.ts:2 | The sort is stable: for every entry text, the keys that print as that text come out in the order they went in. |
| JsMaps.SortMapByKeysStable | src/utils/sortMapByKeys.ts:2 | In the sorted map, keys whose entries print alike (such as `undefined` and `''`) keep their insertion order. |
| JsMaps.TiedKeysKeepOrder | src/utils/sortMapByKeys.ts:2 | `undefined` and `''` print alike, so either order of the two is kept. |
| JsMaps.SortMapByKeysIdempotent | src/utils/sortMapByKeys.ts:2 | Sorting twice gives the same map as sorting once. |
| JsMaps.SortTwoKeys | src/utils/sortMapByKeys.ts:2 | Two keys come out in the order of their entry strings. |
| JsMaps.SortComparesEntryTexts | src/utils/sortMapByKeys.ts:2 | The sort compares the entry strings, not the keys: `"a b"` sorts before `"a"`, because `' '` is less than `','`. |
| JsMaps.UndefinedSortsFirst | src/utils/sortMapByKeys.ts:2 | An `undefined` key sorts before any key that starts with a lower-case letter. |
| Transformers.FirstNamed | src/transform/transformers.ts:72-75 | `find` by name returns the first child with that name; `None` exactly when no child has it. |
| Transformers.FindChild | src/transform/transformers.ts:105-107 | The child found is the first one with the name; `None` exactly when no child has it. |
| Transformers.ConditionValueOf | src/transform/transformers.ts:147 | The value is the placeholder `['...']` exactly when the detail is absent or empty; otherwise it is the detail text. |
| Transformers.SymbolToLogicalCondition | src/transform/transformers.ts:133-152 | A missing operator or property becomes `''` and a present one is its detail. The value is the placeholder exactly when the value detail is not truthy, and is otherwise that detail's text (`ConditionValueOf`). |
| Transformers.SegmentRolloutState | src/transform/transformers.ts:110-120 | `0%` exactly when the rollout detail is `"0"`, whatever the conditions. `100%` exactly when the detail is absent or `"100"` and there are no conditions. `partial` in every other case. |
| Transformers.RolloutNumber | src/transform/transformers.ts:126 | A segment's rollout defaults to 100 and is otherwise the numeric value of its detail. |
| Transformers.SymbolToLogicalSegment | src/transform/transformers.js:78-103 | The segment's name defaults to `''`. Its conditions are those of the first `conditions` child, in order. Its state and number follow from the rollout detail and the condition count. |
| Transformers.FeatureRolloutState | src/transform/transformers.ts:78-86 | The fold seeded with `0%` gives `100%` exactly when some segment is `100%`, `partial` exactly when none is `100%` and some is `partial`, and `0%` otherwise. |
| Transformers.SegmentsRolloutStateMeaning | src/transform/transformers.js:49-57 | A feature is `100%` exactly when some segment is, `partial` exactly when none is `100%` and some is `partial`, and a feature without segments is `0%`. |
| Transformers.OwnerOfSource | src/transform/transformers.ts:96 | The TypeScript revision's owner is the owner detail, or `''` when there is no owner node or no detail. |
| Transformers.OwnerOfCompiled | src/transform/transformers.js:59-64 | The compiled revision uses a truthy owner detail; otherwise, when the owner node has children, the `email` detail, then the `team` detail, then `''`; with neither a detail nor children, `''`. |
| Transformers.OwnerRevisionsAgree | src/transform/transformers.js:59-64 | The two revisions can disagree on an owner only when the owner node has children and no truthy detail. |
| Transformers.HasExtraSegments | src/transform/transformers.ts:88 | The warning holds exactly when the feature is `100%` and its last segment has at least one condition. |
| Transformers.SymbolToLogicalFeature | src/transform/transformers.ts:71-102 | Creation date and owner default to `''`. `enabled` is false exactly when its detail is `"false"`. The segments are those of the first `segments` child, in order. The rollout state and warning are derived from them. |
| Transformers.RevisionsDifferOnlyInOwner | src/transform/transformers.js:43-77 | The two revisions build the same logical feature apart from the owner. |
| Transformers.ToConditionValue | src/transform/transformers.ts:63 | A detail value becomes a string scalar, and the placeholder list becomes an array of the same strings. |
| Transformers.LogicalFeatureToFeature | src/transform/transformers.ts:50-69 | The record keeps the name, creation date, `enabled` and owner, and the rollout becomes the feature's state. Segments and their conditions keep their order, names, rollouts, properties, operators and values; a value is carried over as `ToConditionValue` states. |
| Transformers.LogicalValue.constructor | src/transform/transformers.ts:4-10 | A new bucket holds its URI and key and has no features. |
| Transformers.LogicalValue.AddFeature | src/transform/transformers.ts:12-15 | The feature is appended at the end of `children`, the same bucket is returned, and the URI and key are constant. |
| OutlineStores.FeaturesWithKeySnoc | src/stores/outlineStore.ts:55-58 | The features of a key grow by a new feature exactly when the feature has that key. |
| OutlineStores.FeaturesWithKeyMembers | src/stores/outlineStore.ts:55-58 | The features listed under a key are exactly the features with that key. |
| OutlineStores.ViewOfHolds | src/stores/outlineStore.ts:50-58 | Filing features one at a time leaves, under each key some feature has, exactly that key's features in order. |
| OutlineStores.FeaturesOfElements | src/stores/outlineStore.ts:50-53 | There is one logical feature per child of `options`, in order. |
| OutlineStores.FlatteningKeepsEverything | src/stores/outlineStore.ts:60-66 | Every segment of every feature appears in the flattened segment list. |
| OutlineStores.FlattenFeature | src/stores/outlineStore.ts:60-66 | One feature's segments are appended in order, and its conditions follow the conditions already collected. |
| OutlineStores.FlattenOptions | src/stores/outlineStore.js:54-67 | The loop collects one feature per child of `options` in order, with the segments and conditions flattened in document order. |
| OutlineStores.AddToBucket | src/stores/outlineStore.ts:55-58 | The key's existing bucket is reused, or a fresh one is made for a new key. Either way it is filed under its key and gains the feature at the end. |
| OutlineStores.FileEach | src/stores/outlineStore.js:57-60 | The index has exactly the keys that some feature has. Each bucket holds its key's features in document order. |
| OutlineStores.IndexBy | src/stores/outlineStore.ts:55-58 | Each bucket's `value` is its key. Every feature lands in its key's bucket. Each bucket's children are the features with that key, in document order, and no bucket is empty. |
| OutlineStores.DocumentSymbolsToMap | src/stores/outlineStore.ts:33-80 | `None` exactly when no top-level symbol is named `options`; otherwise the outline of the first such symbol. It has one feature per child, the flattened segments and conditions, and all four indexes hold. |
| OutlineStores.GetSymbols | src/stores/outlineStore.ts:131-143 | The source is queried at most once per delay up to 5000 ms, and at least once from delay 0. The answer is the first non-`undefined` one. `undefined` means every allowed query came back empty. |
| OutlineStores.NothingYet | src/stores/outlineStore.js:123-132 | A failed first query followed by failed retries is a run of failed queries from the first delay. |
| OutlineStores.PollingIsBounded | src/stores/outlineStore.ts:131-143 | From delay 0 the source is queried between one and six times. The result is `undefined` exactly when all six queries fail. |
| OutlineStores.OutlineStore.constructor | src/stores/outlineStore.ts:29-31 | A new store knows no URI, caches nothing and has emitted nothing. |
| OutlineStores.OutlineStore.KnownUris | src/stores/outlineStore.ts:95-97 | The known URIs are listed in insertion order. Each of them has a cached outline, and that outline was built from its own symbols (`BuiltFrom`), since the cache is only ever filled by `getOutline`. |
| OutlineStores.BuildOutline | src/stores/outlineStore.ts:111-113 | The outline holds the URI and the symbols. It has no map exactly when there is no `options` symbol. Otherwise its map describes that symbol, and each of its four indexes files exactly the features with each key (`IndexesFiled`). |
| OutlineStores.OutlineStore.GetOutline | src/stores/outlineStore.ts:102-118 | A hit returns the cached outline and changes nothing; that outline holds the URI and its symbols and describes their `options` node, as every cached outline does. A miss with no symbols returns `undefined` and changes nothing. A miss with symbols caches the new outline, even when it has no map, and records the URI under its `fsPath`. That outline is built from the polled symbols as `BuildOutline` states, its four indexes included. |
| OutlineStores.OutlineStore.Record | src/stores/outlineStore.ts:114-115 | An outline built from its own symbols is cached, and its URI recorded under its `fsPath`, keeping the store's invariant; the events and the outline's index buckets are untouched. |
| OutlineStores.OutlineStore.ForgetOutline | src/stores/outlineStore.ts:123-128 | A cached URI is removed from both tables; an uncached one is a no-op. |
| OutlineStores.OutlineStore.Notify | src/stores/outlineStore.ts:91 | One event carrying the outline is appended; the tables and the outline's index buckets are untouched. |
| OutlineStores.OutlineStore.Fire | src/stores/outlineStore.ts:87-93 | The document is forgotten and rebuilt. When the rebuild succeeds, exactly one event carrying the new outline is emitted. The new outline is cached in place of the old one, built from the polled symbols as `BuildOutline` states, its four indexes included, and the URI is re-recorded under its `fsPath`. When the rebuild fails, no event is emitted, the document stays forgotten in both tables, and every other entry is unchanged. |
| FlagpoleFiles.GetSegmentRollout | src/flagpoleFile.ts:147-156 | `0%` exactly when the rollout is 0. `100%` exactly when the rollout is absent or 100 and there are no conditions. `partial` otherwise. |
| FlagpoleFiles.FeatureRolloutAsWritten | src/flagpoleFile.ts:77-85 | The fold seeded with `undefined` is `undefined` exactly when there are no segments. It is `100%` when some segment is `100%`, and otherwise the first segment's state, so a later `partial` does not lift a leading `0%`. |
| FlagpoleFiles.SegmentRolloutsElements | src/flagpoleFile.ts:73-74 | Each segment contributes its own state, in order. |
| FlagpoleFiles.FeaturesOfElements | src/flagpoleFile.ts:58-59 | There is one feature per `options` entry, in document order, with the rollout its segments reduce to. |
| FlagpoleFiles.RolloutSeed | src/flagpoleFile.ts:34-38 | The rollout map starts well formed, with only empty buckets and no `undefined` key. |
| FlagpoleFiles.NearestIsUnique | src/flagpoleFile.ts:128-138 | At most one item is the nearest key at or before the cursor. |
| FlagpoleFiles.NearestOption | src/flagpoleFile.ts:128-138 | The scan finds nothing exactly when every key starts after the cursor. Otherwise it finds the first item with the greatest key offset at or before the cursor. |
| FlagpoleFiles.FirstItemNamed | src/flagpoleFile.ts:112 | The item found is the first whose key is the name; `None` exactly when none is. |
| FlagpoleFiles.DuplicateKeyGivesFirst | src/flagpoleFile.ts:112 | With the key `a` written twice, at offsets 1 and 5, the lookup gives 1. |
| FlagpoleFiles.FindKeyOffset | src/flagpoleFile.ts:103-116 | `undefined` when the contents are not a collection. An error exactly when there is no `options` mapping or no key with the feature's name. Otherwise the offset of the first key with that name, so a duplicated key (which the parser keeps, recording an error) gives its first occurrence. |
| FlagpoleFiles.FlagpoleFile.constructor | src/flagpoleFile.ts:46-54 | A new file keeps its URI, syntax tree and options, and its maps are those `prepareTreeMaps` builds from the options. |
| FlagpoleFiles.FlagpoleFile.PrepareTreeMaps | src/flagpoleFile.ts:56-101 | The fresh maps become the sorted group-by of the features by creation date, `enabled`, name and owner, and of the segment occurrences and fingerprints by name. The rollout map is the unsorted group-by seeded with its three buckets. |
| FlagpoleFiles.FlagpoleFile.NearestFeatureFrom | src/flagpoleFile.ts:118-144 | `undefined` for a non-collection, and an error without an `options` mapping. Otherwise: nothing when every key starts after the cursor; and when some key does not, a nearest key exists, and the result is exactly the first feature filed under that key's name (`undefined` when none is filed). |
| FlagpoleFiles.FirstFiled | src/flagpoleFile.ts:141 | A feature is found exactly when the name has a non-empty bucket, and it is the bucket's first feature. |
| FlagpoleFiles.FileOptions | src/flagpoleFile.ts:58-87 | The loop leaves each map the group-by of the features, or of the segment occurrences and fingerprints, over all entries in document order. |
| FlagpoleFiles.FileInto | src/flagpoleFile.ts:60-63 | Filing a feature extends the group-by by that feature. |
| FlagpoleFiles.FileSegments | src/flagpoleFile.ts:65-75 | The inner loop files each segment by name, files each fingerprint by name, and collects the segment states in order. |
| FlagpoleFiles.UniqueSegments | src/flagpoleFile.ts:89-93 | Copying the fingerprint buckets into the empty unique-segment map reproduces the group-by of the fingerprints. |
| FlagpoleFiles.CopyBucket | src/flagpoleFile.ts:90-92 | Copying one bucket of distinct fingerprints adds that name as a new last key with exactly those fingerprints. |
| FlagpoleFiles.CopyBuckets | src/flagpoleFile.ts:89-93 | Copying non-empty, duplicate-free buckets in key order gives back the same map. |
| FlagpoleFiles.SortedGroupBucket | src/flagpoleFile.ts:95-100 | After sorting, a key's bucket is still its items in document order without repeats, and its members are exactly the items with that key. |
| FlagpoleFiles.SortedGroupHasKey | src/flagpoleFile.ts:95-100 | After sorting, a key is present exactly when some item has it. |
| FlagpoleFiles.PreparedFeatureMaps | src/flagpoleFile.ts:59-63 | Each feature map holds, under each key, the features with that creation date, raw `enabled` value, name or owner, in document order. Each map's keys are sorted. |
| FlagpoleFiles.RolloutMapLayout | src/flagpoleFile.ts:86 | The rollout map still starts with `0%`, `partial`, `100%`, is never re-sorted, and holds under each key the features with that rollout. |
| FlagpoleFiles.FeatureRolloutUndefined | src/flagpoleFile.ts:77-85 | A feature's rollout is `undefined` exactly when it has no segments. |
| FlagpoleFiles.UndefinedRolloutBucket | src/flagpoleFile.ts:86 | The rollout map gains an `undefined` key exactly when some feature has no segments. |
| FlagpoleFiles.UndefinedBucketAfter | src/flagpoleFile.ts:86 | From any map without an `undefined` key, filing by rollout adds that key exactly when some feature has no segments. |
| FlagpoleFiles.FeatureAtRolloutUndefined | src/flagpoleFile.ts:77-86 | The feature of an entry is filed under `undefined` exactly when the entry has no segments. |
| FlagpoleFiles.OccurrencesOfMembers | src/flagpoleFile.ts:66-67 | The segments filed are exactly the segments of every feature, one occurrence per position. |
| FlagpoleFiles.FingerprintsOfMembers | src/flagpoleFile.ts:69-71 | The fingerprints filed are exactly the fingerprints of every segment. |
| FlagpoleFiles.AllSegmentsByName | src/flagpoleFile.ts:67 | After sorting, a segment occurrence is in a name's bucket exactly when it is a segment of some feature with that name. |
| FlagpoleFiles.UniqueSegmentsByName | src/flagpoleFile.ts:89-93 | Each unique-segment bucket has no duplicates, and it holds exactly the fingerprints of the segments with that name. |
| FlagpoleFiles.SegmentsDifferingInRolloutCollapse | src/flagpoleFile.ts:69-71 | Two segments with the same name and conditions have one fingerprint. It is in their bucket, and it is the only entry with those conditions there, whatever the rollouts. |
| RolloutAgreement.FeatureReductionsAgree | src/flagpoleFile.ts:77-85 | The indexer's fold and the transformer's fold agree exactly when the feature has segments and either one is `100%`, none is `partial`, or the first is `partial`. |
| RolloutAgreement.LeadingOffSegmentDisagrees | src/transform/transformers.ts:78-86 | For segments `0%` then `partial`, the transformer says `partial` while the indexer keeps `0%`. |
| RolloutAgreement.ParsedRollout | src/flagpoleFile.ts:147-156 | The parsed rollout is absent exactly when the detail is. A detail written empty (YAML `null` or `''`) is a value that is neither 0 nor 100, and any other detail is the number `Number()` reads from it. |
| RolloutAgreement.SegmentStatesAgree | src/flagpoleFile.ts:147-156 | The two segment computations agree except when a non-empty detail other than `"0"` or `"100"` parses to 0, or parses to 100 with no conditions. |
| RolloutAgreement.EmptyRolloutAgrees | src/flagpoleFile.ts:147-156 | A rollout written empty is partial for both computations. |
| RolloutAgreement.ZeroWithLeadingZeroDisagrees | src/transform/transformers.ts:111 | A rollout written `00` is `0%` for the indexer and `partial` for the transformer. |
| RolloutEmojis.GetRolloutEmoji | src/utils/getRolloutEmoji.ts:3-14 | The emoji is returned exactly for the three rollout state texts, and it is one code point (🟠 and 🟢 are two UTF-16 units each in JavaScript). Any other text raises `Unknown rollout state: <text>`. |
| RolloutEmojis.EmojiOfEachState | src/utils/getRolloutEmoji.js:5-11 | `0%` gives ⭕, `partial` gives 🟠 and `100%` gives 🟢. |
| RolloutEmojis.EmojiIsInjective | src/utils/getRolloutEmoji.ts:4-11 | Every state has an emoji and no two states share one. |
| SelectedElements.AnySelectionIntersects | src/stores/selectedElementsStore.ts:34-38 | The inner loop answers true exactly when some selection intersects the range. |
| SelectedElements.FilterSelectedElements | src/stores/selectedElementsStore.ts:28-41 | The result is the elements that some selection intersects, in order, and `[]` without selections. |
| SelectedElements.SelectedMembers | src/stores/selectedElementsStore.ts:32-40 | An element is kept exactly when there are selections and one of them intersects its range. |
| SelectedElements.SelectedIsSubsequence | src/stores/selectedElementsStore.ts:33 | The result is an order-preserving sublist of the elements. |
| SelectedElements.NothingSelected | src/stores/selectedElementsStore.ts:32-40 | Undefined selections and an empty selection list both select nothing. |
| FileMaps.FileMap.constructor | src/fileMap.ts:6 | A new table holds no file. |
| FileMaps.FileMap.ReadFile | src/fileMap.ts:8-12 | A freshly prepared file for the URI is stored under `uri.toString()`, replacing any earlier entry. |
| FileMaps.FileMap.Add | src/fileMap.ts:14-16 | `add` stores a freshly prepared file under the URI's text, exactly as `update` does. |
| FileMaps.FileMap.Update | src/fileMap.ts:18-20 | `update` stores a freshly prepared file under the URI's text, exactly as `add` does. |
| FileMaps.FileMap.Remove | src/fileMap.ts:22-24 | `remove` deletes exactly that URI's entry. |
| FileMaps.FileMap.GetFile | src/fileMap.ts:26-28 | The file stored under the URI's text, or `undefined` when there is none. |
| FileMaps.FileMap.Files | src/fileMap.ts:30-32 | The stored files, one per entry, in insertion order. |
| FileMaps.StoredFileIsFound | src/fileMap.ts:26-28 | After storing a file, it is found under its URI, and every other lookup is unchanged. |
| FileMaps.RemovedFileIsGone | src/fileMap.ts:22-28 | After `remove`, the URI's lookup gives `undefined` and every other lookup is unchanged. |
| FileMaps.FilesAreTheStoredValues | src/fileMap.ts:30-32 | A file is listed exactly when it is stored under some key. |

## Left out

- The flag file is assumed to follow the schema of `src/types.ts`: every feature has a
  `segments` list, every segment has a `conditions` list, and owners, creation dates and names are
  strings, `enabled` a boolean, and rollouts numbers. The source throws a TypeError for a feature
  without `segments` (`src/flagpoleFile.ts:66`), and for a segment without `conditions` whose
  rollout is absent or 100 (`src/flagpoleFile.ts:152`). An owner written as a mapping would
  give each such feature its own `featuresByOwner` bucket (`src/flagpoleFile.ts:63`), keyed by
  object identity and sorting as `[object Object],[object Set]`.
  None of these inputs can be written in the model, so those behaviours are not modelled.
- The YAML parser, `ast.toJS()` and `fs.readFileSync` are inputs. A flag file is given as its
  already-parsed `options` entries (name and definition) and the syntax-tree facts the lookups use
  (each options key with its offset).
- The document-symbol provider, its waits and the promises of `getSymbols` are left out. The provider
  is a function from the delay to its answer. Only the queries issued and their order are modelled,
  not time or interleaving of overlapping `fire` calls.
- `document.positionAt` and `openTextDocument` are outside the model.
  `FlagpoleFiles.FindKeyOffset` stops at the key offset that `findPosition` hands to `positionAt`.
- `vscode.Range.intersection` is a parameter predicate. `SelectedElementsStore.register` and its
  `selections` WeakMap are UI state and are not modelled.
- `Number()` is modelled for decimal integers with an optional `+` or `-` sign, and `""` as 0.
  Any other text is NaN. Fractions, exponents, hexadecimal, `Infinity`, `-0` and surrounding
  whitespace are not modelled.
- `JSON.stringify` / `JSON.parse` of a fingerprint is abstracted as the segment record without its
  rollout, and two fingerprints are equal when their names and conditions are equal. The real
  strings also depend on the key order inside each condition object and on any extra keys a
  condition carries. Two conditions that differ only in key order, or in keys outside property,
  operator and value, are one fingerprint in the model but two in the source. Fingerprint
  order and equality beyond this abstraction are not modelled.
- The outline cache is a `WeakMap` keyed by URI object identity. It is modelled as a map keyed by a
  URI value that carries an identity; garbage collection is not modelled.
- `OutlineStores.OutlineStore.KnownUris`: two URI objects with the same `fsPath` are cached
  separately but share one `_uris` entry. After forgetting one of them, the other stays cached but
  is no longer listed. The contract states only that every listed URI is cached.
- The event emitter is modelled as the sequence of outlines fired; listeners are not modelled.
- `OutlineStores.DocumentSymbolsToMap`: the source makes one pass over the features that both
  flattens them and updates the four indexes. The model makes the flattening pass, then one pass per
  index. The buckets and the features in each bucket, in document order, are the same. The
  indexes are modelled as maps without a key order, so the enumeration order of the source's
  objects is not modelled. That order is integer-like keys first, then insertion order.
- `OutlineStores.DocumentSymbolsToMap`: the indexes are plain `{}` objects in the source. An owner
  or creation date such as `constructor`, `toString` or `__proto__` finds an inherited
  `Object.prototype` member instead of `undefined`. `.addFeature` then is not a function, so the
  source throws and `getOutline` caches nothing. The model files such a key like any other and
  returns an outline.
- `FlagpoleFiles.FlagpoleFile.PrepareTreeMaps`: `appendToMap` mutates the `Map` and `Set`
  objects in place. The model treats a map as a value that each call returns updated. The loop fills
  local maps that are assigned to the fields at the end, which gives the same final state. Sharing
  of the `Set` objects is not modelled.
- A feature object is created with `rollout: undefined` and given its rollout before it is filed
  under that rollout. The maps filled earlier hold the same object, so every map sees the final
  rollout. The model files the finished feature everywhere.
- `FlagpoleFiles.FlagpoleFile.PrepareTreeMaps` requires the maps as the field initialisers make
  them, because the source calls it once, from the constructor.
- JavaScript `Set`s of objects compare by identity. Features are distinct through their names,
  which are distinct keys of a YAML mapping. Segment occurrences carry the feature name and position
  to stand for their identity. `uniqueSegmentsByName` holds parsed copies, which are distinct objects
  after the string fingerprints were made unique.
- `sortMapByKeys` compares strings by Unicode code point. JavaScript compares UTF-16 code units, and
  the two orders differ only for characters outside the Basic Multilingual Plane.
- `FlagpoleFiles.FindKeyOffset` returns an error where the source reads a property of `undefined`.
  The source throws there instead of returning `undefined` for a missing feature, and the model
  follows the code.
- The indexer's feature reduction is modelled as written. `[false, 'partial'].includes(prev)` can
  only match `'partial'`, so a leading `0%` segment is never lifted by a later `partial` one.
  `RolloutAgreement` proves where this differs from the transformer.
- `getRolloutStateIconPath`, the tree views, code lenses, commands, webviews, terminal integration
  and telemetry are user interface and host glue, and are not modelled.

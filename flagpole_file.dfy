/** The text-based indexer of src/flagpoleFile.ts. A `FlagpoleFile` reads the parsed `options`
    mapping of a flag file and files every feature, in document order, into maps keyed by its
    creation date, its `enabled` value, its name, its owner and its rollout state; it files
    every segment by name, and every distinct segment definition (the segment without its
    rollout) by name. All maps but the rollout one are then sorted by key. Two lookups work on the
    YAML syntax tree: the feature nearest before a cursor, and the offset of a feature's key. */
module FlagpoleFiles {
  import opened Wrappers
  import opened Types
  import opened JsMaps
  import opened Sequences

  // ---------------------------------------------------------------------------------------
  // Rollout states

  /** `getSegmentRollout(segment)`: off for a rollout of exactly 0; full when the rollout is
      absent or exactly 100 and there are no conditions; partial otherwise. */
  function GetSegmentRollout(segment: Segment): (r: RolloutState)
    ensures r == Off <==> segment.rollout == Some(Finite(0))
    ensures r == Full <==> (segment.rollout.None? || segment.rollout == Some(Finite(100))) && segment.conditions == []
  {
    if segment.rollout == Some(Finite(0)) then Off
    else if (segment.rollout == None || segment.rollout == Some(Finite(100))) && |segment.conditions| == 0 then Full
    else Partial
  }

  /** `[false, 'partial'].includes(prev)`: `prev` is a rollout state or `undefined`, never
      `false`, so only `'partial'` matches. */
  predicate IncludesFalseOrPartial(prev: Option<RolloutState>)
  {
    prev == Some(Partial)
  }

  /** One step of the `reduce` over the segment states, starting from `undefined`. */
  function RolloutStep(prev: Option<RolloutState>, rollout: RolloutState): Option<RolloutState>
  {
    if prev.None? || rollout == Full then Some(rollout)
    else if IncludesFalseOrPartial(prev) && rollout == Partial then Some(Partial)
    else prev
  }

  /** `segmentRollouts.reduce(step, undefined)` */
  function ReduceRollouts(states: seq<RolloutState>): Option<RolloutState>
  {
    if states == [] then None
    else RolloutStep(ReduceRollouts(states[..|states| - 1]), states[|states| - 1])
  }

  /** The feature state as the reduction computes it: undefined without segments, full when
      some segment is full, and otherwise the state of the first segment; a later partial
      segment does not lift a leading off one. */
  lemma {:induction false} FeatureRolloutAsWritten(states: seq<RolloutState>)
    ensures ReduceRollouts(states).None? <==> states == []
    ensures Full in states ==> ReduceRollouts(states) == Some(Full)
    ensures states != [] && Full !in states ==> ReduceRollouts(states) == Some(states[0])
  {
    if states != [] {
      var prefix, last := states[..|states| - 1], states[|states| - 1];
      FeatureRolloutAsWritten(prefix);
      SplitLast(states);
      if prefix != [] {
        assert prefix[0] == states[0];
      }
    }
  }

  /** The state of each segment, in order (`segmentRollouts`). */
  function SegmentRollouts(segments: seq<Segment>): (r: seq<RolloutState>)
    ensures |r| == |segments|
  {
    if segments == [] then []
    else SegmentRollouts(segments[..|segments| - 1]) + [GetSegmentRollout(segments[|segments| - 1])]
  }

  lemma {:induction false} SegmentRolloutsElements(segments: seq<Segment>)
    ensures forall i | 0 <= i < |segments| :: SegmentRollouts(segments)[i] == GetSegmentRollout(segments[i])
  {
    if segments != [] {
      SegmentRolloutsElements(segments[..|segments| - 1]);
    }
  }

  // ---------------------------------------------------------------------------------------
  // What the maps hold

  /** One entry of the parsed `options` mapping, in document order: the feature name and its
      definition. */
  datatype OptionEntry = OptionEntry(name: string, definition: Definition)

  /** The feature object built for an entry, with the rollout its segments reduce to. */
  function FeatureOf(entry: OptionEntry): Feature
  {
    Feature(entry.name, entry.definition, ReduceRollouts(SegmentRollouts(entry.definition.segments)))
  }

  function FeaturesOf(options: seq<OptionEntry>): (r: seq<Feature>)
    ensures |r| == |options|
  {
    if options == [] then []
    else FeaturesOf(options[..|options| - 1]) + [FeatureOf(options[|options| - 1])]
  }

  lemma FeaturesOfSnoc(options: seq<OptionEntry>, entry: OptionEntry)
    ensures FeaturesOf(options + [entry]) == FeaturesOf(options) + [FeatureOf(entry)]
  {
    DropLastOfSnoc(options, entry);
  }

  lemma {:induction false} FeaturesOfElements(options: seq<OptionEntry>)
    ensures forall i | 0 <= i < |options| :: FeaturesOf(options)[i] == FeatureOf(options[i])
  {
    if options != [] {
      FeaturesOfElements(options[..|options| - 1]);
    }
  }

  /** A value that is `undefined` when the YAML leaves it out. */
  function TextKey(v: Option<string>): Key
  {
    match v
    case None => Undefined
    case Some(s) => Str(s)
  }

  /** The keys each feature is filed under. `enabled` is the raw value, not defaulted. */
  function CreatedAtKey(f: Feature): Key { TextKey(f.definition.createdAt) }

  function EnabledKey(f: Feature): Key
  {
    match f.definition.enabled
    case None => Undefined
    case Some(b) => Bool(b)
  }

  function NameKey(f: Feature): Key { Str(f.name) }

  function OwnerKey(f: Feature): Key { TextKey(f.definition.owner) }

  function RolloutKey(f: Feature): Key
  {
    match f.rollout
    case None => Undefined
    case Some(state) => Str(RolloutText(state))
  }

  /** A segment as it sits in the document: `Set`s of segments hold objects, so two segments with
      the same fields are still two members; the feature and position stand for that identity. */
  datatype SegmentOccurrence = SegmentOccurrence(feature: string, position: nat, segment: Segment)

  function OccurrencesIn(feature: string, segments: seq<Segment>): (r: seq<SegmentOccurrence>)
    ensures |r| == |segments|
  {
    if segments == [] then []
    else OccurrencesIn(feature, segments[..|segments| - 1])
           + [SegmentOccurrence(feature, |segments| - 1, segments[|segments| - 1])]
  }

  function OccurrencesOf(options: seq<OptionEntry>): seq<SegmentOccurrence>
  {
    if options == [] then []
    else
      var last := options[|options| - 1];
      OccurrencesOf(options[..|options| - 1]) + OccurrencesIn(last.name, last.definition.segments)
  }

  function OccurrenceKey(o: SegmentOccurrence): Key { Str(o.segment.name) }

  /** `JSON.parse(JSON.stringify({name, conditions}))`: the segment without its rollout. */
  function Fingerprint(s: Segment): Segment
  {
    Segment(s.name, None, s.conditions)
  }

  function FingerprintsIn(segments: seq<Segment>): (r: seq<Segment>)
    ensures |r| == |segments|
  {
    if segments == [] then []
    else FingerprintsIn(segments[..|segments| - 1]) + [Fingerprint(segments[|segments| - 1])]
  }

  function FingerprintsOf(options: seq<OptionEntry>): seq<Segment>
  {
    if options == [] then []
    else
      var last := options[|options| - 1];
      FingerprintsOf(options[..|options| - 1]) + FingerprintsIn(last.definition.segments)
  }

  function FingerprintKey(s: Segment): Key { Str(s.name) }

  /** `featuresByRollout` before any feature: empty buckets for off, partial and full, in that
      order. */
  function RolloutSeed(): (r: JsMap<Key, seq<Feature>>)
    ensures JsMaps.Valid(r) && EmptyBuckets(r)
    ensures Undefined !in r.table
  {
    JsMap([Str("0%"), Str("partial"), Str("100%")], map[Str("0%") := [], Str("partial") := [], Str("100%") := []])
  }

  // ---------------------------------------------------------------------------------------
  // The syntax tree

  /** A key of the `options` mapping in the syntax tree, with the offset where it starts. */
  datatype OptionItem = OptionItem(key: string, keyOffset: int)

  /** The document's contents: not a collection (`!contents || !('items' in contents)`), or a
      collection whose first `options` entry holds a mapping with these items, or `None` when
      there is no such entry or its value has no items. */
  datatype YamlContents = NoCollection | Collection(options: Option<seq<OptionItem>>)

  /** The item `nearestFeatureFrom` settles on: the first of the items with the greatest key
      offset at or before the cursor. */
  ghost predicate IsNearest(items: seq<OptionItem>, cursor: int, i: int)
  {
    && 0 <= i < |items|
    && items[i].keyOffset <= cursor
    && (forall j | 0 <= j < |items| && items[j].keyOffset <= cursor :: items[j].keyOffset <= items[i].keyOffset)
    && (forall j | 0 <= j < i && items[j].keyOffset <= cursor :: items[j].keyOffset < items[i].keyOffset)
  }

  /** There is at most one such item. */
  lemma NearestIsUnique(items: seq<OptionItem>, cursor: int, i: int, k: int)
    requires IsNearest(items, cursor, i) && IsNearest(items, cursor, k)
    ensures i == k
  {
  }

  /** The scan of `nearestFeatureFrom`: an item replaces the one found so far when its key is at
      or before the cursor and starts later than the found one's. */
  method NearestOption(items: seq<OptionItem>, cursor: int) returns (r: Option<nat>)
    ensures r.None? <==> forall j | 0 <= j < |items| :: items[j].keyOffset > cursor
    ensures r.Some? ==> IsNearest(items, cursor, r.value)
  {
    r := None;
    var i := 0;
    while i < |items|
      invariant 0 <= i <= |items|
      invariant r.None? <==> forall j | 0 <= j < i :: items[j].keyOffset > cursor
      invariant r.Some? ==> IsNearest(items[..i], cursor, r.value)
    {
      var value := items[i];
      var cursorIsAfterThisFeature := value.keyOffset <= cursor;
      var thisFeatureIsLaterThanNearest := if r.Some? then value.keyOffset > items[r.value].keyOffset else true;
      if cursorIsAfterThisFeature && thisFeatureIsLaterThanNearest {
        r := Some(i);
      }
      assert items[..i + 1][..i] == items[..i];
      i := i + 1;
    }
    assert items[..i] == items;
  }

  /** `findIndex` of the option item whose key is `name`. */
  function FirstItemNamed(items: seq<OptionItem>, name: string): (r: Option<nat>)
    ensures r.None? <==> forall i | 0 <= i < |items| :: items[i].key != name
    ensures r.Some? ==> r.value < |items| && items[r.value].key == name
    ensures r.Some? ==> forall j | 0 <= j < r.value :: items[j].key != name
  {
    if items == [] then None
    else if items[0].key == name then Some(0)
    else
      match FirstItemNamed(items[1..], name)
      case None => None
      case Some(i) => Some(i + 1)
  }

  /** The `options`-key lookup of `findPosition(feature)`: `undefined` when the contents are not
      a collection; the offset of the first key named like the feature otherwise. Without an
      `options` mapping, or without that key, the source reads a property of `undefined` and
      throws. Turning the offset into a position is left to the host. */
  function FindKeyOffset(contents: YamlContents, name: string): (r: Result<Option<int>, string>)
    ensures contents.NoCollection? ==> r == Ok(None)
    ensures r.Ok? && contents.Collection? ==>
      && contents.options.Some?
      && r.value.Some?
      && exists i | 0 <= i < |contents.options.value| ::
           && contents.options.value[i].key == name
           && (forall j | 0 <= j < i :: contents.options.value[j].key != name)
           && contents.options.value[i].keyOffset == r.value.value
    ensures r.Err? <==>
      && contents.Collection?
      && (contents.options.None? || forall i | 0 <= i < |contents.options.value| :: contents.options.value[i].key != name)
  {
    match contents
    case NoCollection => Ok(None)
    case Collection(None) => Err("TypeError: Cannot read properties of undefined (reading 'filter')")
    case Collection(Some(items)) =>
      match FirstItemNamed(items, name)
      case None => Err("TypeError: Cannot read properties of undefined (reading 'srcToken')")
      case Some(i) => Ok(Some(items[i].keyOffset))
  }

  /** A key written twice: the lookup settles on the first occurrence. */
  lemma DuplicateKeyGivesFirst()
    ensures FindKeyOffset(Collection(Some([OptionItem("a", 1), OptionItem("a", 5)])), "a") == Ok(Some(1))
  {
  }

  // ---------------------------------------------------------------------------------------
  // The file

  /** `FlagpoleFile`: the document, its syntax tree and parsed `options`, and the maps built from
      them. */
  class FlagpoleFile {
    const uri: Uri
    const contents: YamlContents
    const options: seq<OptionEntry>
    var featuresByCreatedAt: JsMap<Key, seq<Feature>>
    var featuresByEnabled: JsMap<Key, seq<Feature>>
    var featuresByName: JsMap<Key, seq<Feature>>
    var featuresByOwner: JsMap<Key, seq<Feature>>
    var featuresByRollout: JsMap<Key, seq<Feature>>
    var allSegmentsByName: JsMap<Key, seq<SegmentOccurrence>>
    var uniqueSegmentsByName: JsMap<Key, seq<Segment>>

    /** The maps as the field initialisers make them. */
    ghost predicate Fresh()
      reads this
    {
      && featuresByCreatedAt == EmptyMap() && featuresByEnabled == EmptyMap()
      && featuresByName == EmptyMap() && featuresByOwner == EmptyMap()
      && featuresByRollout == RolloutSeed()
      && allSegmentsByName == EmptyMap() && uniqueSegmentsByName == EmptyMap()
    }

    /** The maps after `prepareTreeMaps(options)`. */
    ghost predicate Prepared()
      reads this
    {
      && featuresByCreatedAt == SortMapByKeys(GroupBy(EmptyMap(), FeaturesOf(options), CreatedAtKey))
      && featuresByEnabled == SortMapByKeys(GroupBy(EmptyMap(), FeaturesOf(options), EnabledKey))
      && featuresByName == SortMapByKeys(GroupBy(EmptyMap(), FeaturesOf(options), NameKey))
      && featuresByOwner == SortMapByKeys(GroupBy(EmptyMap(), FeaturesOf(options), OwnerKey))
      && featuresByRollout == GroupBy(RolloutSeed(), FeaturesOf(options), RolloutKey)
      && allSegmentsByName == SortMapByKeys(GroupBy(EmptyMap(), OccurrencesOf(options), OccurrenceKey))
      && uniqueSegmentsByName == SortMapByKeys(GroupBy(EmptyMap(), FingerprintsOf(options), FingerprintKey))
    }

    constructor(uri: Uri, contents: YamlContents, options: seq<OptionEntry>)
      ensures this.uri == uri && this.contents == contents && this.options == options
      ensures Prepared()
    {
      this.uri := uri;
      this.contents := contents;
      this.options := options;
      featuresByCreatedAt := EmptyMap();
      featuresByEnabled := EmptyMap();
      featuresByName := EmptyMap();
      featuresByOwner := EmptyMap();
      featuresByRollout := RolloutSeed();
      allSegmentsByName := EmptyMap();
      uniqueSegmentsByName := EmptyMap();
      new;
      PrepareTreeMaps();
    }

    /** `prepareTreeMaps(options)`, run once, from the constructor, on the freshly made maps. The
        loop fills the maps (`FileOptions`), the fingerprints are copied into
        `uniqueSegmentsByName`, and every map but `featuresByRollout` is re-made in key order. */
    method PrepareTreeMaps()
      requires Fresh()
      modifies this
      ensures Prepared()
    {
      var createdAt0, enabled0, name0, owner0, rollout0, segments0 :=
        featuresByCreatedAt, featuresByEnabled, featuresByName, featuresByOwner, featuresByRollout, allSegmentsByName;
      assert createdAt0 == enabled0 == name0 == owner0 == EmptyMap();
      assert rollout0 == RolloutSeed() && segments0 == EmptyMap();
      var byCreatedAt, byEnabled, byName, byOwner, byRollout, allSegments, fingerprints :=
        FileOptions(options, createdAt0, enabled0, name0, owner0, rollout0, segments0);
      var unique := UniqueSegments(fingerprints, options);
      featuresByCreatedAt := SortMapByKeys(byCreatedAt);
      featuresByEnabled := SortMapByKeys(byEnabled);
      featuresByName := SortMapByKeys(byName);
      featuresByOwner := SortMapByKeys(byOwner);
      featuresByRollout := byRollout;
      allSegmentsByName := SortMapByKeys(allSegments);
      uniqueSegmentsByName := SortMapByKeys(unique);
    }

    /** `nearestFeatureFrom(cursorOffset)`: `undefined` when the contents are not a collection;
        otherwise the first feature filed under the name of the nearest key at or before the
        cursor, or `undefined` when no key is. Without an `options` mapping the source iterates
        `undefined` and throws. */
    method NearestFeatureFrom(cursorOffset: int) returns (r: Result<Option<Feature>, string>)
      ensures contents.NoCollection? ==> r == Ok(None)
      ensures contents.Collection? && contents.options.None? ==> r.Err?
      ensures contents.Collection? && contents.options.Some? ==>
        var items := contents.options.value;
        && r.Ok?
        && (r.value.Some? ==> exists i :: IsNearest(items, cursorOffset, i)
                                && Get(featuresByName, Str(items[i].key)).Some?
                                && |Get(featuresByName, Str(items[i].key)).value| > 0
                                && r.value.value == Get(featuresByName, Str(items[i].key)).value[0])
        && ((forall j | 0 <= j < |items| :: items[j].keyOffset > cursorOffset) ==> r.value.None?)
        && ((exists j | 0 <= j < |items| :: items[j].keyOffset <= cursorOffset) ==>
              exists i :: IsNearest(items, cursorOffset, i))
        && (forall i | IsNearest(items, cursorOffset, i) :: r.value == FirstFiled(featuresByName, items[i].key))
    {
      match contents
      case NoCollection =>
        return Ok(None);
      case Collection(None) =>
        return Err("TypeError: optionsValue is not iterable");
      case Collection(Some(items)) =>
        var nearest := NearestOption(items, cursorOffset);
        if nearest.None? {
          return Ok(None);
        }
        forall i | IsNearest(items, cursorOffset, i)
          ensures i == nearest.value
        {
          NearestIsUnique(items, cursorOffset, i, nearest.value);
        }
        return Ok(FirstFiled(featuresByName, items[nearest.value].key));
    }
  }

  /** `Array.from(featuresByName.get(name) ?? []).at(0)`: the first feature filed under a name,
      or `undefined` when none is. */
  function FirstFiled(m: JsMap<Key, seq<Feature>>, name: string): (r: Option<Feature>)
    ensures r.Some? <==> Str(name) in m.table && m.table[Str(name)] != []
    ensures r.Some? ==> r.value == m.table[Str(name)][0]
  {
    match Get(m, Str(name))
    case None => None
    case Some(bucket) => if |bucket| > 0 then Some(bucket[0]) else None
  }

  /** The loop of `prepareTreeMaps` over the options, appending to the maps it is given: every
      feature is filed in the five feature maps, every segment in `allSegmentsByName`, and every
      fingerprint in `segmentFingerprintsByName`. */
  method FileOptions(options: seq<OptionEntry>,
                     byCreatedAt0: JsMap<Key, seq<Feature>>, byEnabled0: JsMap<Key, seq<Feature>>,
                     byName0: JsMap<Key, seq<Feature>>, byOwner0: JsMap<Key, seq<Feature>>,
                     byRollout0: JsMap<Key, seq<Feature>>, allSegments0: JsMap<Key, seq<SegmentOccurrence>>)
    returns (byCreatedAt: JsMap<Key, seq<Feature>>, byEnabled: JsMap<Key, seq<Feature>>,
             byName: JsMap<Key, seq<Feature>>, byOwner: JsMap<Key, seq<Feature>>,
             byRollout: JsMap<Key, seq<Feature>>, allSegments: JsMap<Key, seq<SegmentOccurrence>>,
             segmentFingerprintsByName: JsMap<Key, seq<Segment>>)
    requires JsMaps.Valid(byCreatedAt0) && JsMaps.Valid(byEnabled0) && JsMaps.Valid(byName0)
    requires JsMaps.Valid(byOwner0) && JsMaps.Valid(byRollout0) && JsMaps.Valid(allSegments0)
    ensures byCreatedAt == GroupBy(byCreatedAt0, FeaturesOf(options), CreatedAtKey)
    ensures byEnabled == GroupBy(byEnabled0, FeaturesOf(options), EnabledKey)
    ensures byName == GroupBy(byName0, FeaturesOf(options), NameKey)
    ensures byOwner == GroupBy(byOwner0, FeaturesOf(options), OwnerKey)
    ensures byRollout == GroupBy(byRollout0, FeaturesOf(options), RolloutKey)
    ensures allSegments == GroupBy(allSegments0, OccurrencesOf(options), OccurrenceKey)
    ensures segmentFingerprintsByName == GroupBy(EmptyMap(), FingerprintsOf(options), FingerprintKey)
  {
    byCreatedAt, byEnabled, byName, byOwner, byRollout, allSegments :=
      byCreatedAt0, byEnabled0, byName0, byOwner0, byRollout0, allSegments0;
    segmentFingerprintsByName := EmptyMap();
    ghost var features: seq<Feature> := [];
    var i := 0;
    while i < |options|
      invariant 0 <= i <= |options|
      invariant features == FeaturesOf(options[..i])
      invariant byCreatedAt == GroupBy(byCreatedAt0, features, CreatedAtKey)
      invariant byEnabled == GroupBy(byEnabled0, features, EnabledKey)
      invariant byName == GroupBy(byName0, features, NameKey)
      invariant byOwner == GroupBy(byOwner0, features, OwnerKey)
      invariant byRollout == GroupBy(byRollout0, features, RolloutKey)
      invariant allSegments == GroupBy(allSegments0, OccurrencesOf(options[..i]), OccurrenceKey)
      invariant segmentFingerprintsByName == GroupBy(EmptyMap(), FingerprintsOf(options[..i]), FingerprintKey)
    {
      var entry := options[i];
      SliceSnoc(options, i);
      ghost var done := options[..i];
      var segmentRollouts;
      allSegments, segmentFingerprintsByName, segmentRollouts :=
        FileSegments(entry, allSegments, segmentFingerprintsByName);
      GroupByAppend(allSegments0, OccurrencesOf(done), OccurrencesIn(entry.name, entry.definition.segments), OccurrenceKey);
      GroupByAppend(EmptyMap(), FingerprintsOf(done), FingerprintsIn(entry.definition.segments), FingerprintKey);
      var feature := Feature(entry.name, entry.definition, ReduceRollouts(segmentRollouts));
      byCreatedAt := FileInto(byCreatedAt, CreatedAtKey, feature, byCreatedAt0, features);
      byEnabled := FileInto(byEnabled, EnabledKey, feature, byEnabled0, features);
      byName := FileInto(byName, NameKey, feature, byName0, features);
      byOwner := FileInto(byOwner, OwnerKey, feature, byOwner0, features);
      byRollout := FileInto(byRollout, RolloutKey, feature, byRollout0, features);
      FeaturesOfSnoc(done, entry);
      features := features + [feature];
      i := i + 1;
    }
    assert options[..i] == options;
  }

  /** One `appendToMap(map, keyOf(feature), feature)`: the map grouped over the features read so
      far becomes the map grouped over those and one more. */
  method FileInto(m: JsMap<Key, seq<Feature>>, keyOf: Feature -> Key, feature: Feature,
                  ghost init: JsMap<Key, seq<Feature>>, ghost features: seq<Feature>)
    returns (r: JsMap<Key, seq<Feature>>)
    requires JsMaps.Valid(init) && m == GroupBy(init, features, keyOf)
    ensures r == GroupBy(init, features + [feature], keyOf)
  {
    GroupBySnoc(init, features, feature, keyOf);
    r := AppendToMap(m, keyOf(feature), feature);
  }

  /** One pass of the inner loop of `prepareTreeMaps`, over the segments of one feature: each
      segment is filed by name, its fingerprint is filed by name, and its state is pushed. */
  method FileSegments(entry: OptionEntry, allSegmentsByName: JsMap<Key, seq<SegmentOccurrence>>,
                      fingerprints: JsMap<Key, seq<Segment>>)
    returns (allSegments': JsMap<Key, seq<SegmentOccurrence>>, fingerprints': JsMap<Key, seq<Segment>>,
             segmentRollouts: seq<RolloutState>)
    requires JsMaps.Valid(allSegmentsByName) && JsMaps.Valid(fingerprints)
    ensures allSegments' == GroupBy(allSegmentsByName, OccurrencesIn(entry.name, entry.definition.segments), OccurrenceKey)
    ensures fingerprints' == GroupBy(fingerprints, FingerprintsIn(entry.definition.segments), FingerprintKey)
    ensures segmentRollouts == SegmentRollouts(entry.definition.segments)
  {
    var segments := entry.definition.segments;
    allSegments', fingerprints', segmentRollouts := allSegmentsByName, fingerprints, [];
    var j := 0;
    while j < |segments|
      invariant 0 <= j <= |segments|
      invariant allSegments' == GroupBy(allSegmentsByName, OccurrencesIn(entry.name, segments[..j]), OccurrenceKey)
      invariant fingerprints' == GroupBy(fingerprints, FingerprintsIn(segments[..j]), FingerprintKey)
      invariant segmentRollouts == SegmentRollouts(segments[..j])
    {
      var segment := segments[j];
      SliceSnoc(segments, j);
      DropLastOfSnoc(segments[..j], segment);
      var occurrence := SegmentOccurrence(entry.name, j, segment);
      GroupBySnoc(allSegmentsByName, OccurrencesIn(entry.name, segments[..j]), occurrence, OccurrenceKey);
      GroupBySnoc(fingerprints, FingerprintsIn(segments[..j]), Fingerprint(segment), FingerprintKey);
      allSegments' := AppendToMap(allSegments', OccurrenceKey(occurrence), occurrence);
      fingerprints' := AppendToMap(fingerprints', FingerprintKey(Fingerprint(segment)), Fingerprint(segment));
      segmentRollouts := segmentRollouts + [GetSegmentRollout(segment)];
      j := j + 1;
    }
    assert segments[..j] == segments;
  }

  /** The map of fingerprints built from `options`, copied by `CopyBuckets`, comes out unchanged. */
  method UniqueSegments(fingerprints: JsMap<Key, seq<Segment>>, ghost options: seq<OptionEntry>)
    returns (r: JsMap<Key, seq<Segment>>)
    requires fingerprints == GroupBy(EmptyMap(), FingerprintsOf(options), FingerprintKey)
    ensures r == GroupBy(EmptyMap(), FingerprintsOf(options), FingerprintKey)
  {
    GroupByKeepsSets(EmptyMap(), FingerprintsOf(options), FingerprintKey);
    GroupByNonEmptyBuckets(FingerprintsOf(options), FingerprintKey);
    r := CopyBuckets(fingerprints);
  }

  /** The inner loop of `CopyBuckets`: the fingerprints of one name, appended one by one to a
      map that does not hold the name yet, arrive as they are, after the keys already there. */
  method CopyBucket(m: JsMap<Key, seq<Segment>>, name: Key, fingerprints: seq<Segment>)
    returns (r: JsMap<Key, seq<Segment>>)
    requires JsMaps.Valid(m) && name !in m.table
    requires fingerprints != [] && NoDuplicates(fingerprints)
    ensures JsMaps.Valid(r)
    ensures r.order == m.order + [name]
    ensures r.table == m.table[name := fingerprints]
  {
    r := m;
    var j := 0;
    while j < |fingerprints|
      invariant 0 <= j <= |fingerprints|
      invariant JsMaps.Valid(r)
      invariant j == 0 ==> r == m
      invariant j > 0 ==> r.order == m.order + [name] && r.table == m.table[name := fingerprints[..j]]
    {
      SliceSnoc(fingerprints, j);
      assert fingerprints[j] !in fingerprints[..j] by {
        assert forall a | 0 <= a < j :: fingerprints[a] != fingerprints[j];
      }
      r := AppendToMap(r, name, fingerprints[j]);
      j := j + 1;
    }
    assert fingerprints[..j] == fingerprints;
  }

  /** The last loop of `prepareTreeMaps`: every fingerprint of every name, in map order, is
      parsed back and appended to a new map under that name. Each name's set is copied as it
      is, and the keys keep their order. */
  method CopyBuckets(source: JsMap<Key, seq<Segment>>) returns (r: JsMap<Key, seq<Segment>>)
    requires JsMaps.Valid(source) && BucketsAreSets(source)
    requires forall k | k in source.table :: source.table[k] != []
    ensures r == source
  {
    r := EmptyMap();
    var i := 0;
    while i < |source.order|
      invariant 0 <= i <= |source.order|
      invariant JsMaps.Valid(r)
      invariant r.order == source.order[..i]
      invariant forall k | k in r.table :: k in source.table && r.table[k] == source.table[k]
    {
      var name := source.order[i];
      var fingerprints := source.table[name];
      assert name !in r.table by {
        assert forall j | 0 <= j < i :: source.order[j] != name;
      }
      r := CopyBucket(r, name, fingerprints);
      SliceSnoc(source.order, i);
      i := i + 1;
    }
    assert source.order[..i] == source.order;
    assert r.table.Keys == source.table.Keys;
  }

  // ---------------------------------------------------------------------------------------
  // What the prepared maps hold

  /** A grouping re-made in key order: each key's bucket holds the items with that key, each once,
      in document order. */
  lemma SortedGroupBucket<T>(items: seq<T>, keyOf: T -> Key, key: Key)
    ensures BucketOf(SortMapByKeys(GroupBy(EmptyMap(), items, keyOf)), key) == Dedup(Filter(items, keyOf, key))
    ensures forall x :: x in BucketOf(SortMapByKeys(GroupBy(EmptyMap(), items, keyOf)), key) <==> x in items && keyOf(x) == key
    ensures NoDuplicates(BucketOf(SortMapByKeys(GroupBy(EmptyMap(), items, keyOf)), key))
  {
    GroupByBucket(EmptyMap(), items, keyOf, key);
    AppendEmptyLeft(Filter(items, keyOf, key));
    GroupByMembers(EmptyMap(), items, keyOf, key);
  }

  /** A key is in a grouping re-made in key order exactly when some item has it. */
  lemma SortedGroupHasKey<T>(items: seq<T>, keyOf: T -> Key, key: Key)
    ensures key in SortMapByKeys(GroupBy(EmptyMap(), items, keyOf)).table <==>
              exists i | 0 <= i < |items| :: keyOf(items[i]) == key
  {
    GroupByKeyPresent(EmptyMap(), items, keyOf, key);
  }

  /** After `prepareTreeMaps`, every feature is filed under its creation date, its raw `enabled`
      value, its name and its owner: each bucket of those maps holds exactly the features with
      that key, once each, in document order, and each map's keys are in sorted order. */
  lemma PreparedFeatureMaps(file: FlagpoleFile, key: Key)
    requires file.Prepared()
    ensures BucketOf(file.featuresByCreatedAt, key) == Dedup(Filter(FeaturesOf(file.options), CreatedAtKey, key))
    ensures BucketOf(file.featuresByEnabled, key) == Dedup(Filter(FeaturesOf(file.options), EnabledKey, key))
    ensures BucketOf(file.featuresByName, key) == Dedup(Filter(FeaturesOf(file.options), NameKey, key))
    ensures BucketOf(file.featuresByOwner, key) == Dedup(Filter(FeaturesOf(file.options), OwnerKey, key))
    ensures SortedByEntry(file.featuresByCreatedAt.order) && SortedByEntry(file.featuresByEnabled.order)
    ensures SortedByEntry(file.featuresByName.order) && SortedByEntry(file.featuresByOwner.order)
  {
    var features := FeaturesOf(file.options);
    SortedGroupBucket(features, CreatedAtKey, key);
    SortedGroupBucket(features, EnabledKey, key);
    SortedGroupBucket(features, NameKey, key);
    SortedGroupBucket(features, OwnerKey, key);
  }

  /** `featuresByRollout` keeps its seeded order: off, partial and full come first whatever the
      features, and each bucket holds the features in that state, once each, in document order. */
  lemma RolloutMapLayout(options: seq<OptionEntry>, key: Key)
    ensures |GroupBy(RolloutSeed(), FeaturesOf(options), RolloutKey).order| >= 3
    ensures GroupBy(RolloutSeed(), FeaturesOf(options), RolloutKey).order[..3] == [Str("0%"), Str("partial"), Str("100%")]
    ensures BucketOf(GroupBy(RolloutSeed(), FeaturesOf(options), RolloutKey), key)
              == Dedup(Filter(FeaturesOf(options), RolloutKey, key))
  {
    GroupByKeepsOrderPrefix(RolloutSeed(), FeaturesOf(options), RolloutKey);
    GroupByBucket(RolloutSeed(), FeaturesOf(options), RolloutKey, key);
    AppendEmptyLeft(Filter(FeaturesOf(options), RolloutKey, key));
  }

  /** A feature's rollout is `undefined` exactly when it has no segments. */
  lemma FeatureRolloutUndefined(entry: OptionEntry)
    ensures FeatureOf(entry).rollout.None? <==> entry.definition.segments == []
  {
    FeatureRolloutAsWritten(SegmentRollouts(entry.definition.segments));
  }

  /** `featuresByRollout` gains an `undefined` bucket exactly when some feature has no segments. */
  lemma UndefinedRolloutBucket(options: seq<OptionEntry>)
    ensures Undefined in GroupBy(RolloutSeed(), FeaturesOf(options), RolloutKey).table <==>
              exists i | 0 <= i < |options| :: options[i].definition.segments == []
  {
    UndefinedBucketAfter(RolloutSeed(), options);
  }

  lemma UndefinedBucketAfter(init: JsMap<Key, seq<Feature>>, options: seq<OptionEntry>)
    requires JsMaps.Valid(init) && Undefined !in init.table
    ensures Undefined in GroupBy(init, FeaturesOf(options), RolloutKey).table <==>
              exists i | 0 <= i < |options| :: options[i].definition.segments == []
  {
    var features := FeaturesOf(options);
    GroupByKeyPresent(init, features, RolloutKey, Undefined);
    if i :| 0 <= i < |options| && options[i].definition.segments == [] {
      FeatureAtRolloutUndefined(options, i);
    }
    if i :| 0 <= i < |features| && RolloutKey(features[i]) == Undefined {
      FeatureAtRolloutUndefined(options, i);
    }
  }

  lemma FeatureAtRolloutUndefined(options: seq<OptionEntry>, i: int)
    requires 0 <= i < |options|
    ensures RolloutKey(FeaturesOf(options)[i]) == Undefined <==> options[i].definition.segments == []
  {
    FeaturesOfElements(options);
    FeatureRolloutUndefined(options[i]);
  }

  lemma {:induction false} OccurrencesInElements(feature: string, segments: seq<Segment>)
    ensures forall j | 0 <= j < |segments| :: OccurrencesIn(feature, segments)[j] == SegmentOccurrence(feature, j, segments[j])
  {
    if segments != [] {
      OccurrencesInElements(feature, segments[..|segments| - 1]);
    }
  }

  lemma {:induction false} FingerprintsInElements(segments: seq<Segment>)
    ensures forall j | 0 <= j < |segments| :: FingerprintsIn(segments)[j] == Fingerprint(segments[j])
  {
    if segments != [] {
      FingerprintsInElements(segments[..|segments| - 1]);
    }
  }

  /** The segments read from `options`, each tagged with its feature and position. */
  lemma {:induction false} OccurrencesOfMembers(options: seq<OptionEntry>, o: SegmentOccurrence)
    ensures o in OccurrencesOf(options) <==>
              exists i, j | 0 <= i < |options| && 0 <= j < |options[i].definition.segments| ::
                o == SegmentOccurrence(options[i].name, j, options[i].definition.segments[j])
  {
    if options != [] {
      var prefix, last := options[..|options| - 1], options[|options| - 1];
      var tail := OccurrencesIn(last.name, last.definition.segments);
      OccurrencesOfMembers(prefix, o);
      OccurrencesInElements(last.name, last.definition.segments);
      assert OccurrencesOf(options) == OccurrencesOf(prefix) + tail;
      if o in OccurrencesOf(prefix) {
        var i, j :| 0 <= i < |prefix| && 0 <= j < |prefix[i].definition.segments|
                    && o == SegmentOccurrence(prefix[i].name, j, prefix[i].definition.segments[j]);
        assert options[i] == prefix[i];
      } else if o in tail {
        var j :| 0 <= j < |tail| && tail[j] == o;
        assert options[|options| - 1] == last;
      } else {
        forall i, j | 0 <= i < |options| && 0 <= j < |options[i].definition.segments|
          ensures o != SegmentOccurrence(options[i].name, j, options[i].definition.segments[j])
        {
          if i < |prefix| {
            assert options[i] == prefix[i];
          } else {
            assert tail[j] in tail;
          }
        }
      }
    }
  }

  /** The fingerprints read from `options`: one per segment. */
  lemma {:induction false} FingerprintsOfMembers(options: seq<OptionEntry>, s: Segment)
    ensures s in FingerprintsOf(options) <==>
              exists i, j | 0 <= i < |options| && 0 <= j < |options[i].definition.segments| ::
                s == Fingerprint(options[i].definition.segments[j])
  {
    if options != [] {
      var prefix, last := options[..|options| - 1], options[|options| - 1];
      var tail := FingerprintsIn(last.definition.segments);
      FingerprintsOfMembers(prefix, s);
      FingerprintsInElements(last.definition.segments);
      assert FingerprintsOf(options) == FingerprintsOf(prefix) + tail;
      if s in FingerprintsOf(prefix) {
        var i, j :| 0 <= i < |prefix| && 0 <= j < |prefix[i].definition.segments|
                    && s == Fingerprint(prefix[i].definition.segments[j]);
        assert options[i] == prefix[i];
      } else if s in tail {
        var j :| 0 <= j < |tail| && tail[j] == s;
        assert options[|options| - 1] == last;
      } else {
        forall i, j | 0 <= i < |options| && 0 <= j < |options[i].definition.segments|
          ensures s != Fingerprint(options[i].definition.segments[j])
        {
          if i < |prefix| {
            assert options[i] == prefix[i];
          } else {
            assert tail[j] in tail;
          }
        }
      }
    }
  }

  /** `allSegmentsByName` holds every segment of every feature under the segment's name, and
      nothing else. */
  lemma AllSegmentsByName(options: seq<OptionEntry>, key: Key, o: SegmentOccurrence)
    ensures o in BucketOf(SortMapByKeys(GroupBy(EmptyMap(), OccurrencesOf(options), OccurrenceKey)), key) <==>
              && key == Str(o.segment.name)
              && exists i, j | 0 <= i < |options| && 0 <= j < |options[i].definition.segments| ::
                   o == SegmentOccurrence(options[i].name, j, options[i].definition.segments[j])
  {
    SortedGroupBucket(OccurrencesOf(options), OccurrenceKey, key);
    OccurrencesOfMembers(options, o);
  }

  /** `uniqueSegmentsByName` holds, under each name, every distinct definition of a segment of
      that name without its rollout, each once. */
  lemma UniqueSegmentsByName(options: seq<OptionEntry>, key: Key, s: Segment)
    ensures NoDuplicates(BucketOf(SortMapByKeys(GroupBy(EmptyMap(), FingerprintsOf(options), FingerprintKey)), key))
    ensures s in BucketOf(SortMapByKeys(GroupBy(EmptyMap(), FingerprintsOf(options), FingerprintKey)), key) <==>
              && key == Str(s.name)
              && exists i, j | 0 <= i < |options| && 0 <= j < |options[i].definition.segments| ::
                   s == Fingerprint(options[i].definition.segments[j])
  {
    SortedGroupBucket(FingerprintsOf(options), FingerprintKey, key);
    FingerprintsOfMembers(options, s);
  }

  /** Two segments of the same name and conditions, whatever their rollouts, share one entry of
      `uniqueSegmentsByName`: their common definition is there, and every entry under that name
      with those conditions is that definition. */
  lemma SegmentsDifferingInRolloutCollapse(options: seq<OptionEntry>, i: int, j: int, k: int, l: int)
    requires 0 <= i < |options| && 0 <= j < |options[i].definition.segments|
    requires 0 <= k < |options| && 0 <= l < |options[k].definition.segments|
    requires options[i].definition.segments[j].name == options[k].definition.segments[l].name
    requires options[i].definition.segments[j].conditions == options[k].definition.segments[l].conditions
    ensures var a, b := options[i].definition.segments[j], options[k].definition.segments[l];
      var bucket := BucketOf(SortMapByKeys(GroupBy(EmptyMap(), FingerprintsOf(options), FingerprintKey)), Str(a.name));
      && Fingerprint(a) == Fingerprint(b)
      && Fingerprint(a) in bucket
      && forall x | x in bucket && x.conditions == a.conditions :: x == Fingerprint(a)
  {
    var a := options[i].definition.segments[j];
    var key := Str(a.name);
    var bucket := BucketOf(SortMapByKeys(GroupBy(EmptyMap(), FingerprintsOf(options), FingerprintKey)), key);
    UniqueSegmentsByName(options, key, Fingerprint(a));
    forall x | x in bucket && x.conditions == a.conditions
      ensures x == Fingerprint(a)
    {
      UniqueSegmentsByName(options, key, x);
    }
  }
}

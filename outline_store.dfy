/** The outline builder and cache of src/stores/outlineStore.ts and its compiled twin
    src/stores/outlineStore.js. The builder walks the features under the document's `options`
    node once, flattening features, segments and conditions in document order and filling four
    indexes of features (by owner, rollout state, enabled flag and creation date). The store
    caches one outline per document and remembers the documents it has seen by path. */
module OutlineStores {
  import opened Wrappers
  import opened Types
  import opened JsMaps
  import opened Transformers
  import opened Sequences

  // ---------------------------------------------------------------------------------------
  // Specification of the outline

  /** The features filed under `key`, in document order. */
  function FeaturesWithKey(features: seq<LogicalFeature>, d: Dimension, key: string): seq<LogicalFeature>
  {
    if features == [] then []
    else
      var last := features[|features| - 1];
      FeaturesWithKey(features[..|features| - 1], d, key) + (if KeyOf(d, last) == key then [last] else [])
  }

  lemma FeaturesWithKeySnoc(features: seq<LogicalFeature>, f: LogicalFeature, d: Dimension, key: string)
    ensures FeaturesWithKey(features + [f], d, key)
         == FeaturesWithKey(features, d, key) + (if KeyOf(d, f) == key then [f] else [])
  {
    assert (features + [f])[..|features|] == features;
  }

  /** A feature is in the bucket of a key exactly when the key is its own: every feature lands in
      exactly one bucket of each index. */
  lemma {:induction false} FeaturesWithKeyMembers(features: seq<LogicalFeature>, d: Dimension, key: string)
    ensures forall f :: f in FeaturesWithKey(features, d, key) <==> f in features && KeyOf(d, f) == key
  {
    if features != [] {
      var prefix := features[..|features| - 1];
      FeaturesWithKeyMembers(prefix, d, key);
      assert features == prefix + [features[|features| - 1]];
    }
  }

  lemma {:induction false} FeaturesWithKeyEmpty(features: seq<LogicalFeature>, d: Dimension, key: string)
    requires forall i | 0 <= i < |features| :: KeyOf(d, features[i]) != key
    ensures FeaturesWithKey(features, d, key) == []
  {
    if features != [] {
      FeaturesWithKeyEmpty(features[..|features| - 1], d, key);
    }
  }

  /** What an index holds, as a value: each key with the features filed under it. The view
      of a feature list holds each key some feature has, with that key's features in order. */
  ghost predicate ViewHolds(view: map<string, seq<LogicalFeature>>, features: seq<LogicalFeature>, d: Dimension)
  {
    && (forall k | k in view :: view[k] == FeaturesWithKey(features, d, k))
    && (forall i | 0 <= i < |features| :: KeyOf(d, features[i]) in view)
    && (forall k | k in view :: FeaturesWithKey(features, d, k) != [])
  }

  /** Filing one more feature: its key's list grows by the feature, or starts with it. */
  ghost function ViewAdd(view: map<string, seq<LogicalFeature>>, key: string, f: LogicalFeature): map<string, seq<LogicalFeature>>
  {
    view[key := (if key in view then view[key] else []) + [f]]
  }

  lemma ViewAddHolds(view: map<string, seq<LogicalFeature>>, features: seq<LogicalFeature>, n: nat, d: Dimension)
    requires n < |features|
    requires ViewHolds(view, features[..n], d)
    ensures ViewHolds(ViewAdd(view, KeyOf(d, features[n]), features[n]), features[..n + 1], d)
  {
    var prefix, f := features[..n], features[n];
    assert prefix + [f] == features[..n + 1];
    var key := KeyOf(d, f);
    var view' := ViewAdd(view, key, f);
    forall k | k in view' ensures view'[k] == FeaturesWithKey(prefix + [f], d, k) {
      FeaturesWithKeySnoc(prefix, f, d, k);
      if k == key && key !in view {
        FeaturesWithKeyEmpty(prefix, d, key);
      }
    }
    forall k | k in view' ensures FeaturesWithKey(prefix + [f], d, k) != [] {
      FeaturesWithKeySnoc(prefix, f, d, k);
    }
  }

  /** The view an index has once the first `n` features are filed into it, one after another. */
  ghost function ViewOf(features: seq<LogicalFeature>, n: nat, d: Dimension): map<string, seq<LogicalFeature>>
    requires n <= |features|
  {
    if n == 0 then map[]
    else ViewAdd(ViewOf(features, n - 1, d), KeyOf(d, features[n - 1]), features[n - 1])
  }

  lemma ViewOfStep(features: seq<LogicalFeature>, i: nat, d: Dimension)
    requires i < |features|
    ensures ViewOf(features, i + 1, d) == ViewAdd(ViewOf(features, i, d), KeyOf(d, features[i]), features[i])
  {
  }

  /** Filing features one after another builds exactly the index they should have. */
  lemma {:induction false} ViewOfHolds(features: seq<LogicalFeature>, n: nat, d: Dimension)
    requires n <= |features|
    ensures ViewHolds(ViewOf(features, n, d), features[..n], d)
  {
    if n > 0 {
      ViewOfHolds(features, n - 1, d);
      ViewAddHolds(ViewOf(features, n - 1, d), features, n - 1, d);
    }
  }

  /** An index of the outline holds each bucket under its own key, with the features of that
      key in order, has a bucket for every feature's key, and no empty bucket. */
  ghost predicate IndexHolds(index: map<string, LogicalValue>, features: seq<LogicalFeature>, d: Dimension, uri: Uri)
    reads set k | k in index :: index[k]
  {
    && (forall k | k in index :: index[k].value == k && index[k].uri == uri)
    && (forall k | k in index :: index[k].children == FeaturesWithKey(features, d, k))
    && (forall i | 0 <= i < |features| :: KeyOf(d, features[i]) in index)
    && (forall k | k in index :: FeaturesWithKey(features, d, k) != [])
  }

  /** The features of an `options` node, in document order. */
  function FeaturesOf(uri: Uri, options: seq<Symbol>, revision: Revision): seq<LogicalFeature>
  {
    if options == [] then []
    else
      FeaturesOf(uri, options[..|options| - 1], revision)
        + [SymbolToLogicalFeature(uri, options[|options| - 1], revision)]
  }

  lemma FeaturesOfSnoc(uri: Uri, options: seq<Symbol>, s: Symbol, revision: Revision)
    ensures FeaturesOf(uri, options + [s], revision)
         == FeaturesOf(uri, options, revision) + [SymbolToLogicalFeature(uri, s, revision)]
  {
    assert (options + [s])[..|options|] == options;
  }

  /** One feature per child of `options`, each built from its own child. */
  lemma {:induction false} FeaturesOfElements(uri: Uri, options: seq<Symbol>, revision: Revision)
    ensures |FeaturesOf(uri, options, revision)| == |options|
    ensures forall i | 0 <= i < |options| ::
      FeaturesOf(uri, options, revision)[i] == SymbolToLogicalFeature(uri, options[i], revision)
  {
    if options != [] {
      var prefix := options[..|options| - 1];
      FeaturesOfElements(uri, prefix, revision);
      SplitLast(options);
    }
  }

  /** The segments of the features, one feature after another. */
  function SegmentsOfFeatures(features: seq<LogicalFeature>): seq<LogicalSegment>
  {
    if features == [] then []
    else SegmentsOfFeatures(features[..|features| - 1]) + features[|features| - 1].segments
  }

  /** The conditions of the segments, one segment after another. */
  function ConditionsOfSegments(segments: seq<LogicalSegment>): seq<LogicalCondition>
  {
    if segments == [] then []
    else ConditionsOfSegments(segments[..|segments| - 1]) + segments[|segments| - 1].conditions
  }

  lemma SegmentsOfFeaturesSnoc(features: seq<LogicalFeature>, f: LogicalFeature)
    ensures SegmentsOfFeatures(features + [f]) == SegmentsOfFeatures(features) + f.segments
  {
    assert (features + [f])[..|features|] == features;
  }

  lemma ConditionsOfSegmentsSnoc(segments: seq<LogicalSegment>, s: LogicalSegment)
    ensures ConditionsOfSegments(segments + [s]) == ConditionsOfSegments(segments) + s.conditions
  {
    assert (segments + [s])[..|segments|] == segments;
  }

  /** Every segment of every feature is in the flattening, and every condition of every
      segment. */
  lemma {:induction false} FlatteningKeepsEverything(features: seq<LogicalFeature>, i: nat, j: nat)
    requires i < |features| && j < |features[i].segments|
    ensures features[i].segments[j] in SegmentsOfFeatures(features)
  {
    var prefix := features[..|features| - 1];
    if i < |features| - 1 {
      FlatteningKeepsEverything(prefix, i, j);
    }
  }

  /** The outline of the `options` node (`SymbolMap`). The four `Record`s hold one bucket per
      key. */
  datatype SymbolMap = SymbolMap(
    range: Range, selectionRange: Range,
    allFeatures: seq<LogicalFeature>, allSegments: seq<LogicalSegment>, allConditions: seq<LogicalCondition>,
    allOwners: map<string, LogicalValue>, allRollouts: map<string, LogicalValue>,
    allEnabled: map<string, LogicalValue>, allCreatedAt: map<string, LogicalValue>)

  function Index(m: SymbolMap, d: Dimension): map<string, LogicalValue>
  {
    match d
    case ByOwner => m.allOwners
    case ByRollout => m.allRollouts
    case ByEnabled => m.allEnabled
    case ByCreatedAt => m.allCreatedAt
  }

  // ---------------------------------------------------------------------------------------
  // documentSymbolsToMap

  /** A bucket of an outline of `uri`, filed under `key`. */
  ghost predicate Bucket(v: LogicalValue, key: string, uri: Uri)
    reads v
  {
    v.value == key && v.uri == uri
  }

  /** Buckets that hold the view of the features hold the index of the features. */
  lemma IndexOfView(index: map<string, LogicalValue>, features: seq<LogicalFeature>, d: Dimension, uri: Uri)
    requires index.Keys == ViewOf(features, |features|, d).Keys
    requires forall k | k in index :: Bucket(index[k], k, uri) && index[k].children == ViewOf(features, |features|, d)[k]
    ensures IndexHolds(index, features, d, uri)
  {
    ViewOfHolds(features, |features|, d);
    assert features[..|features|] == features;
  }

  /** The statement `record[key] = (record[key] ?? new LogicalValue(uri, key)).addFeature(feature)`
      of the loop of `documentSymbolsToMap`, for one index, applied to every feature in turn.
      Every bucket is created here, so nothing allocated before is touched. */
  method IndexBy(uri: Uri, features: seq<LogicalFeature>, d: Dimension) returns (index: map<string, LogicalValue>)
    ensures IndexHolds(index, features, d, uri)
    ensures forall k | k in index :: fresh(index[k])
  {
    ghost var view;
    index, view := FileEach(uri, features, d);
    IndexOfView(index, features, d, uri);
  }

  /** The loop of `IndexBy`: the buckets it creates hold the view of the features. */
  method FileEach(uri: Uri, features: seq<LogicalFeature>, d: Dimension)
    returns (index: map<string, LogicalValue>, ghost view: map<string, seq<LogicalFeature>>)
    ensures view == ViewOf(features, |features|, d)
    ensures index.Keys == view.Keys
    ensures forall k | k in index :: Bucket(index[k], k, uri) && index[k].children == view[k]
    ensures forall k | k in index :: fresh(index[k])
  {
    index := map[];
    view := map[];
    var i := 0;
    while i < |features|
      invariant 0 <= i <= |features|
      invariant view == ViewOf(features, i, d)
      invariant index.Keys == view.Keys
      invariant forall k | k in index :: Bucket(index[k], k, uri) && fresh(index[k]) && index[k].children == view[k]
    {
      var feature := features[i];
      var key := KeyOf(d, feature);
      ghost var before := index;
      ViewOfStep(features, i, d);
      var bucket := AddToBucket(index, key, feature, uri);
      index := index[key := bucket];
      view := ViewAdd(view, key, feature);
      forall k | k in index && k != key ensures index[k].children == view[k] {
        assert before[k].value != key;
      }
      i := i + 1;
    }
  }

  /** `(record[key] ?? new LogicalValue(uri, key)).addFeature(feature)`: the bucket of the key,
      created when the key has none yet, with the feature appended. */
  method AddToBucket(index: map<string, LogicalValue>, key: string, feature: LogicalFeature, uri: Uri)
    returns (bucket: LogicalValue)
    requires key in index ==> Bucket(index[key], key, uri)
    modifies if key in index then {index[key]} else {}
    ensures key in index ==> bucket == index[key]
    ensures key !in index ==> fresh(bucket)
    ensures Bucket(bucket, key, uri)
    ensures bucket.children == (if key in index then old(index[key].children) else []) + [feature]
  {
    if key in index {
      bucket := index[key];
    } else {
      bucket := new LogicalValue(uri, key);
    }
    bucket := bucket.AddFeature(feature);
  }

  /** The inner loops of `documentSymbolsToMap`: pushes the feature's segments, and the
      conditions of each, onto the flat lists. */
  method FlattenFeature(segments: seq<LogicalSegment>, conditions: seq<LogicalCondition>, feature: LogicalFeature)
    returns (allSegments: seq<LogicalSegment>, allConditions: seq<LogicalCondition>)
    requires conditions == ConditionsOfSegments(segments)
    ensures allSegments == segments + feature.segments
    ensures allConditions == ConditionsOfSegments(allSegments)
  {
    allSegments, allConditions := segments, conditions;
    var j := 0;
    while j < |feature.segments|
      invariant 0 <= j <= |feature.segments|
      invariant allSegments == segments + feature.segments[..j]
      invariant allConditions == ConditionsOfSegments(allSegments)
    {
      var segment := feature.segments[j];
      ghost var segmentsBefore := allSegments;
      allSegments := allSegments + [segment];
      assert feature.segments[..j + 1] == feature.segments[..j] + [segment];
      ConditionsOfSegmentsSnoc(segmentsBefore, segment);
      var c := 0;
      while c < |segment.conditions|
        invariant 0 <= c <= |segment.conditions|
        invariant allConditions == ConditionsOfSegments(segmentsBefore) + segment.conditions[..c]
      {
        allConditions := allConditions + [segment.conditions[c]];
        assert segment.conditions[..c + 1] == segment.conditions[..c] + [segment.conditions[c]];
        c := c + 1;
      }
      assert segment.conditions[..c] == segment.conditions;
      j := j + 1;
    }
    assert feature.segments[..j] == feature.segments;
  }

  /** The loop of `documentSymbolsToMap` over the children of `options`: builds each feature
      and pushes it, its segments and their conditions onto the flat lists. */
  method FlattenOptions(uri: Uri, options: seq<Symbol>, revision: Revision)
    returns (allFeatures: seq<LogicalFeature>, allSegments: seq<LogicalSegment>, allConditions: seq<LogicalCondition>)
    ensures allFeatures == FeaturesOf(uri, options, revision)
    ensures allSegments == SegmentsOfFeatures(allFeatures)
    ensures allConditions == ConditionsOfSegments(allSegments)
  {
    allFeatures, allSegments, allConditions := [], [], [];
    var i := 0;
    while i < |options|
      invariant 0 <= i <= |options|
      invariant allFeatures == FeaturesOf(uri, options[..i], revision)
      invariant allSegments == SegmentsOfFeatures(allFeatures)
      invariant allConditions == ConditionsOfSegments(allSegments)
    {
      var feature := SymbolToLogicalFeature(uri, options[i], revision);
      SliceSnoc(options, i);
      FeaturesOfSnoc(uri, options[..i], options[i], revision);
      SegmentsOfFeaturesSnoc(allFeatures, feature);
      allFeatures := allFeatures + [feature];
      allSegments, allConditions := FlattenFeature(allSegments, allConditions, feature);
      i := i + 1;
    }
    assert options[..i] == options;
  }

  /** The lists of an outline are those of the `options` node: its ranges, one feature per child
      in order, and the segments and conditions flattened in document order. */
  ghost predicate DescribesOptions(m: SymbolMap, uri: Uri, options: Symbol, revision: Revision)
  {
    && m.range == options.range && m.selectionRange == options.selectionRange
    && m.allFeatures == FeaturesOf(uri, options.children, revision)
    && m.allSegments == SegmentsOfFeatures(m.allFeatures)
    && m.allConditions == ConditionsOfSegments(m.allSegments)
  }

  /** The buckets of an outline's four indexes. */
  ghost function Buckets(m: SymbolMap): set<LogicalValue>
  {
    (set k | k in m.allOwners :: m.allOwners[k]) + (set k | k in m.allRollouts :: m.allRollouts[k])
    + (set k | k in m.allEnabled :: m.allEnabled[k]) + (set k | k in m.allCreatedAt :: m.allCreatedAt[k])
  }

  /** Each of the four indexes of `m` files its features as `IndexHolds` states. */
  ghost predicate IndexesHold(m: SymbolMap, uri: Uri)
    reads Buckets(m)
  {
    forall d :: IndexHolds(Index(m, d), m.allFeatures, d, uri)
  }

  /** `documentSymbolsToMap(uri, symbols)`: `None` exactly when no top-level symbol is named
      `options`; otherwise the outline of the first such symbol. */
  method DocumentSymbolsToMap(uri: Uri, symbols: seq<Symbol>, revision: Revision) returns (r: Option<SymbolMap>)
    ensures r.None? <==> FindChild(symbols, "options").None?
    ensures r.Some? ==> DescribesOptions(r.value, uri, FindChild(symbols, "options").value, revision)
    ensures r.Some? ==> forall d :: IndexHolds(Index(r.value, d), r.value.allFeatures, d, uri)
    ensures r.Some? ==> forall d, k | k in Index(r.value, d) :: fresh(Index(r.value, d)[k])
  {
    var found := FindChild(symbols, "options");
    if found.None? {
      return None;
    }
    var options := found.value;
    var allFeatures, allSegments, allConditions := FlattenOptions(uri, options.children, revision);
    var allOwners := IndexBy(uri, allFeatures, ByOwner);
    var allRollouts := IndexBy(uri, allFeatures, ByRollout);
    var allEnabled := IndexBy(uri, allFeatures, ByEnabled);
    var allCreatedAt := IndexBy(uri, allFeatures, ByCreatedAt);
    var m := SymbolMap(options.range, options.selectionRange, allFeatures, allSegments, allConditions,
                       allOwners, allRollouts, allEnabled, allCreatedAt);
    forall d
      ensures IndexHolds(Index(m, d), allFeatures, d, uri)
      ensures forall k | k in Index(m, d) :: fresh(Index(m, d)[k])
    {
      match d
      case ByOwner =>
      case ByRollout =>
      case ByEnabled =>
      case ByCreatedAt =>
    }
    r := Some(m);
  }

  // ---------------------------------------------------------------------------------------
  // getSymbols

  /** The answer of the document-symbol provider to the query issued after waiting `delay` ms:
      `None` when it reports nothing (`undefined`). */
  type SymbolSource = nat -> Option<seq<Symbol>>

  /** The result of polling: the symbols found, if any, and how many queries were issued. */
  datatype Poll = Poll(symbols: Option<seq<Symbol>>, queries: nat)

  /** How many of the delays `timeout`, `timeout + 1000`, ... do not exceed 5000 ms, the last
      delay `getSymbols` waits before giving up. */
  function AttemptsFrom(timeout: nat): nat
  {
    if timeout > 5_000 then 0 else (5_000 - timeout) / 1_000 + 1
  }

  /** `getSymbols(uri, timeout)`: gives up once the delay exceeds 5000 ms; otherwise waits,
      queries, and either returns the answer or tries again 1000 ms later. An empty list is an
      answer; only `undefined` is retried. */
  function GetSymbols(source: SymbolSource, timeout: nat): (r: Poll)
    decreases 6_000 - timeout
    ensures r.queries <= AttemptsFrom(timeout)
    ensures timeout <= 5_000 ==> 1 <= r.queries
    ensures r.symbols.Some? ==>
      && 1 <= r.queries
      && r.symbols == source(timeout + 1_000 * (r.queries - 1))
    ensures forall q | 0 <= q < r.queries - 1 :: source(timeout + 1_000 * q).None?
    ensures r.symbols.None? ==>
      && r.queries == AttemptsFrom(timeout)
      && forall q | 0 <= q < r.queries :: source(timeout + 1_000 * q).None?
  {
    if timeout > 5_000 then Poll(None, 0)
    else if source(timeout).Some? then Poll(source(timeout), 1)
    else
      var rest := GetSymbols(source, timeout + 1_000);
      NothingYet(source, timeout, if rest.symbols.None? then rest.queries else rest.queries - 1);
      Poll(rest.symbols, rest.queries + 1)
  }

  /** A query that found nothing, followed by `n` more that found nothing, is `n + 1` queries
      that found nothing. */
  lemma NothingYet(source: SymbolSource, timeout: nat, n: nat)
    requires source(timeout).None?
    requires forall q | 0 <= q < n :: source(timeout + 1_000 + 1_000 * q).None?
    ensures forall q | 0 <= q < n + 1 :: source(timeout + 1_000 * q).None?
  {
    forall q | 0 <= q < n + 1 ensures source(timeout + 1_000 * q).None? {
      if q > 0 {
        var p := q - 1;
        assert timeout + 1_000 * q == timeout + 1_000 + 1_000 * p;
        assert source(timeout + 1_000 + 1_000 * p).None?;
      }
    }
  }

  /** Polling from the start queries at most six times, after 0, 1000, ..., 5000 ms, and finds
      nothing exactly when every one of those six queries found nothing. */
  lemma PollingIsBounded(source: SymbolSource)
    ensures 1 <= GetSymbols(source, 0).queries <= 6
    ensures GetSymbols(source, 0).symbols.None? <==> forall q | 0 <= q < 6 :: source(1_000 * q).None?
  {
    var r := GetSymbols(source, 0);
    if r.symbols.Some? {
      assert source(1_000 * (r.queries - 1)).Some?;
    }
  }

  // ---------------------------------------------------------------------------------------
  // The store

  /** `Outline`: the document, its symbols, and their outline (`None` without `options`). */
  datatype Outline = Outline(uri: Uri, symbols: seq<Symbol>, symbolMap: Option<SymbolMap>)

  /** `o` is the outline `getOutline` builds for `uri` from `symbols`: no symbol map exactly
      when there is no `options` node, and otherwise one that describes that node. */
  ghost predicate BuiltFrom(o: Outline, uri: Uri, symbols: seq<Symbol>, revision: Revision)
  {
    && o.uri == uri && o.symbols == symbols
    && (o.symbolMap.None? <==> FindChild(symbols, "options").None?)
    && (o.symbolMap.Some? ==> DescribesOptions(o.symbolMap.value, uri, FindChild(symbols, "options").value, revision))
  }

  /** The buckets of an outline's indexes, none when it has no symbol map. */
  ghost function OutlineBuckets(o: Outline): set<LogicalValue>
  {
    if o.symbolMap.Some? then Buckets(o.symbolMap.value) else {}
  }

  /** The four indexes of an outline's symbol map, if it has one, file its features. */
  ghost predicate IndexesFiled(o: Outline)
    reads OutlineBuckets(o)
  {
    o.symbolMap.Some? ==> IndexesHold(o.symbolMap.value, o.uri)
  }

  /** The outline of the document `uri` with the polled `symbols`. */
  method BuildOutline(uri: Uri, symbols: seq<Symbol>, revision: Revision) returns (o: Outline)
    ensures BuiltFrom(o, uri, symbols, revision) && IndexesFiled(o)
  {
    var symbolMap := DocumentSymbolsToMap(uri, symbols, revision);
    o := Outline(uri, symbols, symbolMap);
  }

  /** The paths table once `uri` is forgotten: its path is dropped only when it was cached. */
  function Forgotten(uris: JsMap<string, Uri>, cache: map<Uri, Outline>, uri: Uri): (r: JsMap<string, Uri>)
    requires JsMaps.Valid(uris)
    ensures JsMaps.Valid(r)
  {
    if uri in cache then JsMaps.Delete(uris, uri.fsPath) else uris
  }

  /** An outline's indexes stay filed while none of their buckets changes. */
  twostate lemma IndexesFiledKept(o: Outline)
    requires old(IndexesFiled(o)) && unchanged(OutlineBuckets(o))
    ensures IndexesFiled(o)
  {
  }

  /** `OutlineStore`: a cache of outlines keyed by document (a `WeakMap` keyed by the `Uri`
      object, so by its identity), the documents seen so far keyed by path, and the outlines the
      store has fired to its listeners. The symbol transformers are those of `revision`. */
  class OutlineStore {
    var uris: JsMap<string, Uri>
    var cache: map<Uri, Outline>
    var fired: seq<Outline>
    const revision: Revision

    /** Every known document is cached and filed under its own path; every cached outline is the
        outline of the document it is filed under. */
    ghost predicate Valid()
      reads this
    {
      && JsMaps.Valid(uris)
      && (forall p | p in uris.table :: uris.table[p] in cache && uris.table[p].fsPath == p)
      && (forall u | u in cache :: BuiltFrom(cache[u], u, cache[u].symbols, revision))
    }

    constructor(revision: Revision)
      ensures Valid()
      ensures uris.table == map[] && cache == map[] && fired == [] && this.revision == revision
    {
      uris := EmptyMap();
      cache := map[];
      fired := [];
      this.revision := revision;
    }

    /** `knownUris()`: the known documents, in the order their paths were first recorded. */
    function KnownUris(): (r: seq<Uri>)
      reads this
      requires Valid()
      ensures |r| == |uris.order|
      ensures forall i | 0 <= i < |r| :: r[i] == uris.table[uris.order[i]]
      ensures forall u | u in r :: u in cache && BuiltFrom(cache[u], u, cache[u].symbols, revision)
    {
      Values(uris)
    }

    /** `getOutline(uri)`: a cached outline is returned as it is, without polling. Otherwise the
        symbols are polled for; when none come, nothing changes; when they come, the outline is
        built, cached and its document recorded under its path, even when there is no
        `options` node. */
    method GetOutline(uri: Uri, source: SymbolSource) returns (r: Option<Outline>)
      requires Valid()
      modifies this
      ensures Valid()
      ensures fired == old(fired)
      ensures uri in old(cache) ==> r == Some(old(cache)[uri]) && cache == old(cache) && uris == old(uris)
      ensures uri in old(cache) ==> BuiltFrom(r.value, uri, r.value.symbols, revision)
      ensures uri !in old(cache) && GetSymbols(source, 0).symbols.None? ==>
        r.None? && cache == old(cache) && uris == old(uris)
      ensures uri !in old(cache) && GetSymbols(source, 0).symbols.Some? ==>
        && r.Some?
        && cache == old(cache)[uri := r.value]
        && uris == JsMaps.Set(old(uris), uri.fsPath, uri)
        && BuiltFrom(r.value, uri, GetSymbols(source, 0).symbols.value, revision)
        && IndexesFiled(r.value)
    {
      if uri in cache {
        return Some(cache[uri]);
      }
      var symbols := GetSymbols(source, 0).symbols;
      if symbols.None? {
        return None;
      }
      var outline := BuildOutline(uri, symbols.value, revision);
      Record(outline);
      r := Some(outline);
    }

    /** Fires `outline` to the listeners. */
    method Notify(outline: Outline)
      requires Valid()
      requires IndexesFiled(outline)
      modifies this
      ensures Valid()
      ensures IndexesFiled(outline)
      ensures fired == old(fired) + [outline] && cache == old(cache) && uris == old(uris)
    {
      fired := fired + [outline];
    }

    /** Caches `outline` and records its document under its path. */
    method Record(outline: Outline)
      requires Valid()
      requires BuiltFrom(outline, outline.uri, outline.symbols, revision)
      requires IndexesFiled(outline)
      modifies this
      ensures Valid()
      ensures IndexesFiled(outline)
      ensures fired == old(fired)
      ensures cache == old(cache)[outline.uri := outline]
      ensures uris == JsMaps.Set(old(uris), outline.uri.fsPath, outline.uri)
    {
      uris := JsMaps.Set(uris, outline.uri.fsPath, outline.uri);
      cache := cache[outline.uri := outline];
      IndexesFiledKept(outline);
    }

    /** `forgetOutline(uri)`: drops a cached document from both tables; does nothing for a
        document that is not cached. */
    method ForgetOutline(uri: Uri)
      requires Valid()
      modifies this
      ensures Valid()
      ensures fired == old(fired)
      ensures uri in old(cache) ==> cache == old(cache) - {uri} && uris == JsMaps.Delete(old(uris), uri.fsPath)
      ensures uri !in old(cache) ==> cache == old(cache) && uris == old(uris)
      ensures uri !in cache
      ensures uris == Forgotten(old(uris), old(cache), uri)
    {
      if uri in cache {
        uris := JsMaps.Delete(uris, uri.fsPath);
        cache := cache - {uri};
      }
    }

    /** `fire({uri})`: forgets the document, rebuilds its outline, and fires it to the listeners
        exactly when the rebuild gives one. */
    method Fire(uri: Uri, source: SymbolSource)
      requires Valid()
      modifies this
      ensures Valid()
      ensures GetSymbols(source, 0).symbols.None? ==>
        && fired == old(fired)
        && cache == old(cache) - {uri}
        && uris == Forgotten(old(uris), old(cache), uri)
      ensures GetSymbols(source, 0).symbols.Some? ==>
        && uri in cache
        && fired == old(fired) + [cache[uri]]
        && cache == (old(cache) - {uri})[uri := cache[uri]]
        && uris == JsMaps.Set(Forgotten(old(uris), old(cache), uri), uri.fsPath, uri)
        && BuiltFrom(cache[uri], uri, GetSymbols(source, 0).symbols.value, revision)
        && IndexesFiled(cache[uri])
    {
      ForgetOutline(uri);
      var outline := GetOutline(uri, source);
      if outline.Some? {
        Notify(outline.value);
      }
    }
  }
}

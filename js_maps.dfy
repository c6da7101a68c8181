/** JavaScript `Map` and `Set` values as the core uses them (src/utils/appendToMap.ts and
    src/utils/sortMapByKeys.ts). A `Map` remembers the order in which its keys were first set
    and iterates in that order; a `Set` keeps each element once, in insertion order. */
module JsMaps {
  import opened Wrappers
  import opened Sequences

  /** A `Map`: keys in insertion order, and the value of each key. */
  datatype JsMap<K, V> = JsMap(order: seq<K>, table: map<K, V>)

  ghost predicate NoDuplicates<T>(s: seq<T>)
  {
    forall i, j | 0 <= i < j < |s| :: s[i] != s[j]
  }

  /** The order lists each key of the table exactly once. */
  ghost predicate Valid<K(!new), V>(m: JsMap<K, V>)
  {
    && NoDuplicates(m.order)
    && (forall k :: k in m.table <==> k in m.order)
  }

  /** `new Map()` */
  function EmptyMap<K(!new), V>(): (r: JsMap<K, V>)
    ensures Valid(r) && r.table == map[]
  {
    JsMap([], map[])
  }

  /** `map.get(key)` */
  function Get<K(!new), V>(m: JsMap<K, V>, key: K): (r: Option<V>)
    ensures r.Some? <==> key in m.table
    ensures r.Some? ==> r.value == m.table[key]
  {
    if key in m.table then Some(m.table[key]) else None
  }

  /** `map.set(key, value)`: a new key goes to the end, an existing key keeps its place. */
  function Set<K(!new), V>(m: JsMap<K, V>, key: K, value: V): (r: JsMap<K, V>)
    requires Valid(m)
    ensures Valid(r)
    ensures r.table == m.table[key := value]
    ensures r.order == if key in m.table then m.order else m.order + [key]
  {
    if key in m.table then JsMap(m.order, m.table[key := value])
    else JsMap(m.order + [key], m.table[key := value])
  }

  /** `map.delete(key)`: the other keys keep their order. */
  function Delete<K(!new), V>(m: JsMap<K, V>, key: K): (r: JsMap<K, V>)
    requires Valid(m)
    ensures Valid(r)
    ensures r.table == m.table - {key}
    ensures key !in m.table ==> r == m
  {
    RemoveMembers(m.order, key);
    RemoveKeepsNoDuplicates(m.order, key);
    RemoveAbsent(m.order, key);
    assert key !in m.table ==> m.table - {key} == m.table;
    JsMap(Remove(m.order, key), m.table - {key})
  }

  /** The sequence without `x`. */
  function Remove<T(==)>(s: seq<T>, x: T): seq<T>
  {
    if s == [] then []
    else if s[0] == x then Remove(s[1..], x)
    else [s[0]] + Remove(s[1..], x)
  }

  lemma {:induction false} RemoveMembers<T>(s: seq<T>, x: T)
    ensures forall y :: y in Remove(s, x) <==> y in s && y != x
  {
    if s != [] {
      RemoveMembers(s[1..], x);
    }
  }

  lemma {:induction false} RemoveKeepsNoDuplicates<T>(s: seq<T>, x: T)
    requires NoDuplicates(s)
    ensures NoDuplicates(Remove(s, x))
  {
    if s != [] {
      RemoveKeepsNoDuplicates(s[1..], x);
      if s[0] != x {
        var r := Remove(s, x);
        var t := Remove(s[1..], x);
        RemoveMembers(s[1..], x);
        assert r == [s[0]] + t;
        forall i, j | 0 <= i < j < |r| ensures r[i] != r[j] {
          if i == 0 {
            assert r[j] == t[j - 1] && t[j - 1] in t;
            assert s[0] !in s[1..];
          } else {
            assert r[i] == t[i - 1] && r[j] == t[j - 1];
          }
        }
      }
    }
  }

  lemma {:induction false} RemoveAbsent<T>(s: seq<T>, x: T)
    ensures x !in s ==> Remove(s, x) == s
  {
    if s != [] && x !in s {
      RemoveAbsent(s[1..], x);
      assert s == [s[0]] + s[1..];
    }
  }

  /** `Array.from(map.values())` */
  function Values<K(!new), V>(m: JsMap<K, V>): (r: seq<V>)
    requires Valid(m)
    ensures |r| == |m.order|
    ensures forall i | 0 <= i < |r| :: r[i] == m.table[m.order[i]]
  {
    seq(|m.order|, i requires 0 <= i < |m.order| => m.table[m.order[i]])
  }

  /** `set.add(value)` on a `Set` held as its elements in insertion order. */
  function SetAdd<T(==)>(s: seq<T>, value: T): (r: seq<T>)
  {
    if value in s then s else s + [value]
  }

  /** Every bucket holds each element once, as a `Set` does. */
  ghost predicate BucketsAreSets<K(!new), T>(m: JsMap<K, seq<T>>)
  {
    forall k | k in m.table :: NoDuplicates(m.table[k])
  }

  lemma SetAddKeepsSet<T>(s: seq<T>, value: T)
    requires NoDuplicates(s)
    ensures NoDuplicates(SetAdd(s, value))
    ensures value in SetAdd(s, value)
    ensures forall x :: x in SetAdd(s, value) <==> x in s || x == value
  {
  }

  /** `appendToMap(map, key, value)`: creates the bucket of `key` when it is missing, then adds
      `value` to it. */
  function AppendToMap<K(==,!new), T(==)>(m: JsMap<K, seq<T>>, key: K, value: T): (r: JsMap<K, seq<T>>)
    requires Valid(m)
    ensures Valid(r)
    ensures key in r.table && value in r.table[key]
    ensures key !in m.table ==> r.table[key] == [value] && r.order == m.order + [key]
    ensures key in m.table ==> r.order == m.order
    ensures r.table - {key} == m.table - {key}
    ensures |r.order| <= |m.order| + 1
  {
    Set(m, key, SetAdd(if key in m.table then m.table[key] else [], value))
  }

  /** The bucket of `key`, empty when the key is absent. */
  function BucketOf<K(==,!new), T(==)>(m: JsMap<K, seq<T>>, key: K): seq<T>
  {
    if key in m.table then m.table[key] else []
  }

  /** Appending grows the bucket of `key` as a `Set` grows, keeps every bucket a set, and leaves
      every other bucket as it was. */
  lemma AppendToMapBuckets<K(!new), T>(m: JsMap<K, seq<T>>, key: K, value: T, other: K)
    requires Valid(m)
    ensures BucketOf(AppendToMap(m, key, value), key) == SetAdd(BucketOf(m, key), value)
    ensures other != key ==> BucketOf(AppendToMap(m, key, value), other) == BucketOf(m, other)
    ensures BucketsAreSets(m) ==> BucketsAreSets(AppendToMap(m, key, value))
  {
    var r := AppendToMap(m, key, value);
    if other != key {
      assert other in r.table <==> other in m.table;
      if other in m.table {
        assert r.table[other] == (r.table - {key})[other];
      }
    }
    if BucketsAreSets(m) {
      forall k | k in r.table ensures NoDuplicates(r.table[k]) {
        if k == key {
          SetAddKeepsSet(BucketOf(m, key), value);
        } else {
          assert r.table[k] == (r.table - {key})[k] == m.table[k];
        }
      }
    }
  }

  /** Appending the same value under the same key a second time changes nothing. */
  lemma AppendToMapIdempotent<K(!new), T>(m: JsMap<K, seq<T>>, key: K, value: T)
    requires Valid(m)
    ensures AppendToMap(AppendToMap(m, key, value), key, value) == AppendToMap(m, key, value)
  {
    var once := AppendToMap(m, key, value);
    assert SetAdd(once.table[key], value) == once.table[key];
    assert once.table[key := once.table[key]] == once.table;
  }

  // ---------------------------------------------------------------------------------------
  // Grouping: the effect of appending a sequence of items, one after another.

  /** The items whose key is `key`, in order. */
  function Filter<K(==,!new), T(==)>(items: seq<T>, keyOf: T -> K, key: K): seq<T>
  {
    if items == [] then []
    else Filter(items[..|items| - 1], keyOf, key)
         + (if keyOf(items[|items| - 1]) == key then [items[|items| - 1]] else [])
  }

  /** The elements of `s`, each at its first occurrence: what adding them to a `Set` keeps. */
  function Dedup<T(==)>(s: seq<T>): seq<T>
  {
    if s == [] then [] else SetAdd(Dedup(s[..|s| - 1]), s[|s| - 1])
  }

  /** Appending every item of `items`, in order, under its key. */
  function GroupBy<K(==,!new), T(==)>(init: JsMap<K, seq<T>>, items: seq<T>, keyOf: T -> K): (r: JsMap<K, seq<T>>)
    requires Valid(init)
    ensures Valid(r)
  {
    if items == [] then init
    else
      var last := items[|items| - 1];
      AppendToMap(GroupBy(init, items[..|items| - 1], keyOf), keyOf(last), last)
  }

  /** Grouping one more item is one more append. */
  lemma GroupBySnoc<K(!new), T>(init: JsMap<K, seq<T>>, items: seq<T>, x: T, keyOf: T -> K)
    requires Valid(init)
    ensures GroupBy(init, items + [x], keyOf) == AppendToMap(GroupBy(init, items, keyOf), keyOf(x), x)
    ensures Filter(items + [x], keyOf, keyOf(x)) == Filter(items, keyOf, keyOf(x)) + [x]
    ensures forall k | k != keyOf(x) :: Filter(items + [x], keyOf, k) == Filter(items, keyOf, k)
  {
    assert (items + [x])[..|items|] == items;
  }

  /** What grouping builds: each key's bucket holds its starting contents followed by the items
      with that key, in order, each kept once. */
  lemma {:induction false} GroupByBucket<K(!new), T>(init: JsMap<K, seq<T>>, items: seq<T>, keyOf: T -> K, key: K)
    requires Valid(init) && BucketsAreSets(init)
    ensures BucketOf(GroupBy(init, items, keyOf), key) == Dedup(BucketOf(init, key) + Filter(items, keyOf, key))
  {
    if items == [] {
      DedupOfSet(BucketOf(init, key));
      assert BucketOf(init, key) + [] == BucketOf(init, key);
    } else {
      var prefix, last := items[..|items| - 1], items[|items| - 1];
      GroupByBucket(init, prefix, keyOf, key);
      AppendToMapBuckets(GroupBy(init, prefix, keyOf), keyOf(last), last, key);
      if keyOf(last) == key {
        AppendAssoc(BucketOf(init, key), Filter(prefix, keyOf, key), [last]);
        DropLastOfSnoc(BucketOf(init, key) + Filter(prefix, keyOf, key), last);
      } else {
        AppendEmpty(Filter(prefix, keyOf, key));
      }
    }
  }

  /** A key is present after grouping exactly when it was present at the start or some item
      has it. */
  lemma {:induction false} GroupByHasKey<K(!new), T>(init: JsMap<K, seq<T>>, items: seq<T>, keyOf: T -> K, key: K)
    requires Valid(init)
    ensures key in GroupBy(init, items, keyOf).table <==> key in init.table || Filter(items, keyOf, key) != []
  {
    if items != [] {
      var prefix, last := items[..|items| - 1], items[|items| - 1];
      GroupByHasKey(init, prefix, keyOf, key);
      var before := GroupBy(init, prefix, keyOf);
      var after := AppendToMap(before, keyOf(last), last);
      if key != keyOf(last) {
        assert key in after.table <==> key in before.table by {
          assert key in after.table <==> key in after.table - {keyOf(last)};
          assert key in before.table <==> key in before.table - {keyOf(last)};
        }
      }
    }
  }

  /** A key the initial map lacks is present after grouping exactly when some item has it. */
  lemma GroupByKeyPresent<K(!new), T>(init: JsMap<K, seq<T>>, items: seq<T>, keyOf: T -> K, key: K)
    requires Valid(init) && key !in init.table
    ensures key in GroupBy(init, items, keyOf).table <==> exists i | 0 <= i < |items| :: keyOf(items[i]) == key
  {
    GroupByHasKey(init, items, keyOf, key);
    FilterNonEmpty(items, keyOf, key);
  }

  /** Grouping keeps every bucket a set. */
  lemma {:induction false} GroupByKeepsSets<K(!new), T>(init: JsMap<K, seq<T>>, items: seq<T>, keyOf: T -> K)
    requires Valid(init) && BucketsAreSets(init)
    ensures BucketsAreSets(GroupBy(init, items, keyOf))
  {
    if items != [] {
      var prefix, last := items[..|items| - 1], items[|items| - 1];
      GroupByKeepsSets(init, prefix, keyOf);
      AppendToMapBuckets(GroupBy(init, prefix, keyOf), keyOf(last), last, keyOf(last));
    }
  }

  /** A sequence that is already a set is its own first-occurrence list. */
  lemma {:induction false} DedupOfSet<T>(s: seq<T>)
    requires NoDuplicates(s)
    ensures Dedup(s) == s
  {
    if s != [] {
      var prefix, last := s[..|s| - 1], s[|s| - 1];
      assert NoDuplicates(prefix) by {
        forall i, j | 0 <= i < j < |prefix| ensures prefix[i] != prefix[j] {
          assert prefix[i] == s[i] && prefix[j] == s[j];
        }
      }
      DedupOfSet(prefix);
      assert last !in prefix by {
        forall i | 0 <= i < |prefix| ensures prefix[i] != last {
          assert prefix[i] == s[i];
        }
      }
      assert prefix + [last] == s;
    }
  }

  /** Dedup keeps exactly the elements, once each. */
  lemma {:induction false} DedupSpec<T>(s: seq<T>)
    ensures NoDuplicates(Dedup(s))
    ensures forall x :: x in Dedup(s) <==> x in s
  {
    if s != [] {
      var prefix := s[..|s| - 1];
      DedupSpec(prefix);
      SetAddKeepsSet(Dedup(prefix), s[|s| - 1]);
      assert s == prefix + [s[|s| - 1]];
    }
  }

  /** The items with a given key, as a set: exactly the members of `items` with that key. */
  lemma {:induction false} FilterMembers<K(!new), T>(items: seq<T>, keyOf: T -> K, key: K)
    ensures forall x :: x in Filter(items, keyOf, key) <==> x in items && keyOf(x) == key
    ensures NoDuplicates(items) ==> NoDuplicates(Filter(items, keyOf, key))
  {
    if items != [] {
      var prefix, last := items[..|items| - 1], items[|items| - 1];
      assert items == prefix + [last];
      FilterMembers(prefix, keyOf, key);
      if NoDuplicates(items) {
        assert NoDuplicates(prefix);
        assert last !in prefix;
      }
    }
  }

  /** Some item has the key exactly when its filter is not empty. */
  lemma FilterNonEmpty<K(!new), T>(items: seq<T>, keyOf: T -> K, key: K)
    ensures Filter(items, keyOf, key) != [] <==> exists i | 0 <= i < |items| :: keyOf(items[i]) == key
  {
    var filtered := Filter(items, keyOf, key);
    FilterMembers(items, keyOf, key);
    if filtered != [] {
      assert filtered[0] in filtered;
    }
    if exists i | 0 <= i < |items| :: keyOf(items[i]) == key {
      var i :| 0 <= i < |items| && keyOf(items[i]) == key;
      assert items[i] in filtered;
    }
  }

  /** Every bucket is empty, as in a freshly made or freshly seeded map. */
  ghost predicate EmptyBuckets<K(!new), T>(m: JsMap<K, seq<T>>)
  {
    forall k | k in m.table :: m.table[k] == []
  }

  /** Grouping into empty buckets files an item under a key exactly when the item has that key,
      and keeps each item once. */
  lemma GroupByMembers<K(!new), T>(init: JsMap<K, seq<T>>, items: seq<T>, keyOf: T -> K, key: K)
    requires Valid(init) && EmptyBuckets(init)
    ensures forall x :: x in BucketOf(GroupBy(init, items, keyOf), key) <==> x in items && keyOf(x) == key
    ensures NoDuplicates(BucketOf(GroupBy(init, items, keyOf), key))
  {
    GroupByBucket(init, items, keyOf, key);
    assert BucketOf(init, key) == [];
    AppendEmptyLeft(Filter(items, keyOf, key));
    DedupSpec(Filter(items, keyOf, key));
    FilterMembers(items, keyOf, key);
  }

  /** Grouping into empty buckets leaves no bucket empty that an item did not create. */
  lemma GroupByNonEmptyBuckets<K(!new), T>(items: seq<T>, keyOf: T -> K)
    ensures forall k | k in GroupBy(EmptyMap(), items, keyOf).table :: GroupBy(EmptyMap(), items, keyOf).table[k] != []
  {
    var r := GroupBy(EmptyMap(), items, keyOf);
    forall k | k in r.table ensures r.table[k] != [] {
      GroupByHasKey(EmptyMap(), items, keyOf, k);
      GroupByMembers(EmptyMap(), items, keyOf, k);
      var f := Filter(items, keyOf, k);
      FilterMembers(items, keyOf, k);
      assert f[0] in f;
    }
  }

  /** Grouping two lists one after the other is grouping their concatenation. */
  lemma {:induction false} GroupByAppend<K(!new), T>(init: JsMap<K, seq<T>>, items: seq<T>, more: seq<T>, keyOf: T -> K)
    requires Valid(init)
    ensures GroupBy(GroupBy(init, items, keyOf), more, keyOf) == GroupBy(init, items + more, keyOf)
  {
    if more == [] {
      AppendEmpty(items);
    } else {
      var prefix, last := more[..|more| - 1], more[|more| - 1];
      GroupByAppend(init, items, prefix, keyOf);
      AppendAssoc(items, prefix, [last]);
      SplitLast(more);
      GroupBySnoc(init, items + prefix, last, keyOf);
    }
  }

  /** Grouping keeps the starting keys first, in their order. */
  lemma {:induction false} GroupByKeepsOrderPrefix<K(!new), T>(init: JsMap<K, seq<T>>, items: seq<T>, keyOf: T -> K)
    requires Valid(init)
    ensures |init.order| <= |GroupBy(init, items, keyOf).order|
    ensures GroupBy(init, items, keyOf).order[..|init.order|] == init.order
  {
    if items != [] {
      var prefix := items[..|items| - 1];
      var last := items[|items| - 1];
      GroupByKeepsOrderPrefix(init, prefix, keyOf);
      var before := GroupBy(init, prefix, keyOf);
      PrefixOfAppend(before.order, [keyOf(last)], |init.order|);
    }
  }

  // ---------------------------------------------------------------------------------------
  // sortMapByKeys

  /** The keys these maps use: strings, booleans and `undefined`. Two keys are the same key
      exactly when they are the same JavaScript value. */
  datatype Key = Undefined | Str(s: string) | Bool(b: bool)

  /** How a key prints inside an array: `undefined` prints as the empty string. */
  function KeyText(k: Key): string
  {
    match k
    case Undefined => ""
    case Str(s) => s
    case Bool(b) => if b then "true" else "false"
  }

  /** `String([key, set])`, what the default sort compares: the key's text, a comma, and the
      text of a `Set`. */
  function EntryText(k: Key): string
  {
    KeyText(k) + ",[object Set]"
  }

  /** `a <= b` on JavaScript strings: lexicographic, a prefix before its extensions. */
  predicate TextLe(a: string, b: string)
  {
    if a == [] then true
    else if b == [] then false
    else if a[0] == b[0] then TextLe(a[1..], b[1..])
    else a[0] < b[0]
  }

  lemma {:induction false} TextLeTotal(a: string, b: string)
    ensures TextLe(a, b) || TextLe(b, a)
  {
    if a != [] && b != [] && a[0] == b[0] {
      TextLeTotal(a[1..], b[1..]);
    }
  }

  lemma {:induction false} TextLeTransitive(a: string, b: string, c: string)
    requires TextLe(a, b) && TextLe(b, c)
    ensures TextLe(a, c)
  {
    if a != [] && b != [] && c != [] && a[0] == b[0] == c[0] {
      TextLeTransitive(a[1..], b[1..], c[1..]);
    }
  }

  lemma {:induction false} TextLeAntisymmetric(a: string, b: string)
    requires TextLe(a, b) && TextLe(b, a)
    ensures a == b
  {
    if a != [] && b != [] {
      TextLeAntisymmetric(a[1..], b[1..]);
      assert a == [a[0]] + a[1..];
      assert b == [b[0]] + b[1..];
    }
  }

  /** The entry comparison of the default sort. */
  predicate EntryLe(a: Key, b: Key)
  {
    TextLe(EntryText(a), EntryText(b))
  }

  ghost predicate SortedByEntry(s: seq<Key>)
  {
    forall i, j | 0 <= i < j < |s| :: EntryLe(s[i], s[j])
  }

  /** Places `k` before the first key it does not sort after: ahead of equal keys, which come
      later in the input, so that the sort is stable. */
  function InsertKey(k: Key, sorted: seq<Key>): (r: seq<Key>)
    ensures multiset(r) == multiset(sorted) + multiset{k}
    ensures |r| == |sorted| + 1
  {
    if sorted == [] then [k]
    else if EntryLe(k, sorted[0]) then [k] + sorted
    else
      assert sorted == [sorted[0]] + sorted[1..];
      [sorted[0]] + InsertKey(k, sorted[1..])
  }

  /** The stable sort of `Array.prototype.sort` with no comparison function. */
  function SortKeys(keys: seq<Key>): (r: seq<Key>)
    ensures multiset(r) == multiset(keys)
    ensures |r| == |keys|
  {
    if keys == [] then []
    else
      assert keys == [keys[0]] + keys[1..];
      InsertKey(keys[0], SortKeys(keys[1..]))
  }

  lemma EntryLeTotal(a: Key, b: Key)
    ensures EntryLe(a, b) || EntryLe(b, a)
  {
    TextLeTotal(EntryText(a), EntryText(b));
  }

  lemma EntryLeTransitive(a: Key, b: Key, c: Key)
    requires EntryLe(a, b) && EntryLe(b, c)
    ensures EntryLe(a, c)
  {
    TextLeTransitive(EntryText(a), EntryText(b), EntryText(c));
  }

  /** The head of a sorted sequence sorts before every later key. */
  lemma SortedHeadFirst(s: seq<Key>, x: Key)
    requires SortedByEntry(s) && s != [] && x in s[1..]
    ensures EntryLe(s[0], x)
  {
    var i :| 0 <= i < |s[1..]| && s[1..][i] == x;
    assert s[i + 1] == x;
  }

  lemma {:induction false} InsertKeyMembers(k: Key, sorted: seq<Key>)
    ensures forall x :: x in InsertKey(k, sorted) <==> x == k || x in sorted
  {
    var r := InsertKey(k, sorted);
    forall x ensures x in r <==> x == k || x in sorted {
      assert x in r <==> x in multiset(r);
      assert x in sorted <==> x in multiset(sorted);
    }
  }

  /** A key that sorts before every key of a sorted sequence can go in front of it. */
  lemma ConsSorted(x: Key, t: seq<Key>)
    requires SortedByEntry(t)
    requires forall y | y in t :: EntryLe(x, y)
    ensures SortedByEntry([x] + t)
  {
    var r := [x] + t;
    forall i, j | 0 <= i < j < |r| ensures EntryLe(r[i], r[j]) {
      assert r[j] == t[j - 1];
      if i > 0 {
        assert r[i] == t[i - 1];
      }
    }
  }

  lemma {:induction false} InsertKeySorted(k: Key, sorted: seq<Key>)
    requires SortedByEntry(sorted)
    ensures SortedByEntry(InsertKey(k, sorted))
  {
    if sorted == [] {
    } else if EntryLe(k, sorted[0]) {
      forall y | y in sorted ensures EntryLe(k, y) {
        if y != sorted[0] {
          SortedHeadFirst(sorted, y);
          EntryLeTransitive(k, sorted[0], y);
        }
      }
      ConsSorted(k, sorted);
    } else {
      var tail := sorted[1..];
      assert SortedByEntry(tail) by {
        forall i, j | 0 <= i < j < |tail| ensures EntryLe(tail[i], tail[j]) {
          assert tail[i] == sorted[i + 1] && tail[j] == sorted[j + 1];
        }
      }
      InsertKeySorted(k, tail);
      var t := InsertKey(k, tail);
      InsertKeyMembers(k, tail);
      EntryLeTotal(k, sorted[0]);
      forall y | y in t ensures EntryLe(sorted[0], y) {
        if y != k {
          SortedHeadFirst(sorted, y);
        }
      }
      ConsSorted(sorted[0], t);
    }
  }

  lemma {:induction false} SortKeysSorted(keys: seq<Key>)
    ensures SortedByEntry(SortKeys(keys))
  {
    if keys != [] {
      SortKeysSorted(keys[1..]);
      InsertKeySorted(keys[0], SortKeys(keys[1..]));
    }
  }

  /** Sorting keys that are already in order leaves them where they are. */
  lemma {:induction false} SortKeysOfSorted(keys: seq<Key>)
    requires SortedByEntry(keys)
    ensures SortKeys(keys) == keys
  {
    if keys != [] {
      SortKeysOfSorted(keys[1..]);
      assert keys == [keys[0]] + keys[1..];
    }
  }

  /** The keys of `s` whose entry text is `t`, in order. */
  function WithText(s: seq<Key>, t: string): seq<Key>
  {
    if s == [] then []
    else (if EntryText(s[0]) == t then [s[0]] else []) + WithText(s[1..], t)
  }

  lemma {:induction false} TextLeReflexive(a: string)
    ensures TextLe(a, a)
  {
    if a != [] {
      TextLeReflexive(a[1..]);
    }
  }

  /** Inserting a key puts it ahead of every key with its entry text: the keys it passes sort
      strictly before it. */
  lemma {:induction false} InsertKeyWithText(k: Key, sorted: seq<Key>, t: string)
    ensures WithText(InsertKey(k, sorted), t) == (if EntryText(k) == t then [k] else []) + WithText(sorted, t)
  {
    if sorted == [] {
      WithTextCons(k, [], t);
    } else if EntryLe(k, sorted[0]) {
      WithTextCons(k, sorted, t);
    } else {
      InsertKeyWithText(k, sorted[1..], t);
      InsertPastWithText(k, sorted, t);
    }
  }

  /** The step past a head that sorts strictly before `k`: the head's text differs from `k`'s. */
  lemma InsertPastWithText(k: Key, sorted: seq<Key>, t: string)
    requires sorted != [] && !EntryLe(k, sorted[0])
    requires WithText(InsertKey(k, sorted[1..]), t) == (if EntryText(k) == t then [k] else []) + WithText(sorted[1..], t)
    ensures WithText(InsertKey(k, sorted), t) == (if EntryText(k) == t then [k] else []) + WithText(sorted, t)
  {
    var h, rest := sorted[0], sorted[1..];
    PassedKeyTextDiffers(k, h);
    var inserted := InsertKey(k, rest);
    assert InsertKey(k, sorted) == [h] + inserted;
    WithTextCons(h, inserted, t);
    assert sorted == [h] + rest;
    WithTextCons(h, rest, t);
    if EntryText(h) == t {
      assert WithText(InsertKey(k, sorted), t) == [h] + WithText(inserted, t);
      assert WithText(inserted, t) == WithText(rest, t);
    } else {
      assert WithText(InsertKey(k, sorted), t) == WithText(inserted, t);
      assert WithText(sorted, t) == WithText(rest, t);
    }
  }

  lemma PassedKeyTextDiffers(k: Key, h: Key)
    requires !EntryLe(k, h)
    ensures EntryText(h) != EntryText(k)
  {
    TextLeReflexive(EntryText(k));
  }

  lemma WithTextCons(h: Key, s: seq<Key>, t: string)
    ensures WithText([h] + s, t) == (if EntryText(h) == t then [h] else []) + WithText(s, t)
  {
    assert ([h] + s)[1..] == s;
  }

  /** The sort is stable: the keys that print alike come out in the order they went in. */
  lemma {:induction false} SortKeysStable(keys: seq<Key>, t: string)
    ensures WithText(SortKeys(keys), t) == WithText(keys, t)
  {
    if keys != [] {
      SortKeysStable(keys[1..], t);
      InsertKeyWithText(keys[0], SortKeys(keys[1..]), t);
    }
  }

  /** `sortMapByKeys(map)`: a new map with the same entries, ordered by the default sort. */
  function SortMapByKeys<V>(m: JsMap<Key, V>): (r: JsMap<Key, V>)
    requires Valid(m)
    ensures Valid(r)
    ensures r.table == m.table
    ensures |r.order| == |m.order|
    ensures SortedByEntry(r.order)
  {
    var keys := SortKeys(m.order);
    SortKeysSorted(m.order);
    PermutationKeepsSet(m.order, keys);
    JsMap(keys, m.table)
  }

  /** A permutation of a duplicate-free sequence is duplicate-free and has the same members. */
  lemma PermutationKeepsSet<T>(s: seq<T>, t: seq<T>)
    requires NoDuplicates(s) && multiset(s) == multiset(t)
    ensures NoDuplicates(t)
    ensures forall x :: x in s <==> x in t
  {
    forall x ensures x in s <==> x in t {
      assert x in s <==> x in multiset(s);
      assert x in t <==> x in multiset(t);
    }
    forall i, j | 0 <= i < j < |t| ensures t[i] != t[j] {
      if t[i] == t[j] {
        MultiplicityAtLeastTwo(t, i, j);
        MultiplicityAtMostOne(s, t[i]);
        assert false;
      }
    }
  }

  lemma {:induction false} MultiplicityAtLeastTwo<T>(t: seq<T>, i: nat, j: nat)
    requires i < j < |t| && t[i] == t[j]
    ensures multiset(t)[t[i]] >= 2
  {
    var x := t[i];
    assert t == t[..i] + [x] + t[i + 1..j] + [x] + t[j + 1..];
    assert multiset(t) == multiset(t[..i]) + multiset{x} + multiset(t[i + 1..j]) + multiset{x} + multiset(t[j + 1..]);
  }

  lemma {:induction false} MultiplicityAtMostOne<T>(s: seq<T>, x: T)
    requires NoDuplicates(s)
    ensures multiset(s)[x] <= 1
  {
    if s != [] {
      assert s == [s[0]] + s[1..];
      assert NoDuplicates(s[1..]);
      MultiplicityAtMostOne(s[1..], x);
      if s[0] == x {
        assert x !in s[1..];
        assert multiset(s[1..])[x] == 0;
      }
    }
  }

  /** Sorting a sorted map again changes nothing. */
  lemma SortMapByKeysIdempotent<V>(m: JsMap<Key, V>)
    requires Valid(m)
    ensures SortMapByKeys(SortMapByKeys(m)) == SortMapByKeys(m)
  {
    SortKeysOfSorted(SortMapByKeys(m).order);
  }

  /** Keys whose entries print alike keep their insertion order in the sorted map. */
  lemma SortMapByKeysStable<V>(m: JsMap<Key, V>, t: string)
    requires Valid(m)
    ensures WithText(SortMapByKeys(m).order, t) == WithText(m.order, t)
  {
    SortKeysStable(m.order, t);
  }

  /** `undefined` and the empty string print alike, so each keeps the place it was filed in. */
  lemma TiedKeysKeepOrder()
    ensures SortKeys([Str(""), Undefined]) == [Str(""), Undefined]
    ensures SortKeys([Undefined, Str("")]) == [Undefined, Str("")]
  {
    TextLeReflexive(EntryText(Undefined));
    assert EntryText(Str("")) == EntryText(Undefined);
    SortTwoKeys(Str(""), Undefined);
    SortTwoKeys(Undefined, Str(""));
  }

  /** Texts compare at their first difference. */
  lemma {:induction false} TextLeAtFirstDifference(p: string, c: char, d: char, x: string, y: string)
    requires c < d
    ensures TextLe(p + [c] + x, p + [d] + y)
    ensures !TextLe(p + [d] + y, p + [c] + x)
  {
    if p != [] {
      TextLeAtFirstDifference(p[1..], c, d, x, y);
      assert (p + [c] + x)[1..] == p[1..] + [c] + x;
      assert (p + [d] + y)[1..] == p[1..] + [d] + y;
    }
  }

  /** Sorting two keys: the second goes first exactly when the first does not sort before it. */
  lemma SortTwoKeys(a: Key, b: Key)
    ensures SortKeys([a, b]) == if EntryLe(a, b) then [a, b] else [b, a]
  {
    assert [a, b][1..] == [b];
  }

  /** The default sort compares `key + ",[object Set]"`, not the keys themselves: a key that
      extends another with a character below the comma sorts first. */
  lemma SortComparesEntryTexts()
    ensures SortKeys([Str("a"), Str("a b")]) == [Str("a b"), Str("a")]
  {
    var tail := "[object Set]";
    TextLeAtFirstDifference("a", ' ', ',', "b," + tail, tail);
    assert EntryText(Str("a b")) == "a" + [' '] + ("b," + tail);
    assert EntryText(Str("a")) == "a" + [','] + tail;
    SortTwoKeys(Str("a"), Str("a b"));
  }

  /** `undefined` prints as the empty string, so it sorts before every key that starts with a
      letter. */
  lemma UndefinedSortsFirst(name: string)
    requires name != [] && 'a' <= name[0] <= 'z'
    ensures SortKeys([Str(name), Undefined]) == [Undefined, Str(name)]
  {
    var tail := "[object Set]";
    TextLeAtFirstDifference([], ',', name[0], tail, name[1..] + "," + tail);
    assert EntryText(Undefined) == [] + [','] + tail;
    assert EntryText(Str(name)) == [] + [name[0]] + (name[1..] + "," + tail);
    SortTwoKeys(Str(name), Undefined);
  }
}

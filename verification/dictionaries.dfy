/** `GetValueOrCreate` (DictionaryExtensions.cs) and the re-entrant memoising
    `DictionaryCache` (DictionaryCache/DictionaryCache.cs). */
module Dictionaries {
  import opened Base

  /** `GetValueOrCreate(key, getNewPairValue)`: the returned value and the
      dictionary afterwards. `getNewPairValue` is the outcome of the factory,
      which only matters when the key is absent. */
  function GetValueOrCreate<K, V>(source: map<K, V>, key: K, getNewPairValue: Result<V>): (r: (Result<V>, map<K, V>))
    ensures key in source ==> r == (Ok(source[key]), source)
    ensures key !in source && getNewPairValue.Ok? ==> r.0 == getNewPairValue && r.1 == source[key := getNewPairValue.value]
    ensures key !in source && getNewPairValue.Throw? ==> r == (getNewPairValue, source)
    ensures r.0.Ok? ==> key in r.1 && r.1[key] == r.0.value
    ensures r.1.Keys - {key} == source.Keys - {key}
    ensures forall k :: k != key && k in source ==> r.1[k] == source[k]
  {
    if key in source then (Ok(source[key]), source)
    else match getNewPairValue
      case Throw(e) => (Throw(e), source)
      case Ok(value) => (Ok(value), source[key := value])
  }

  /** A cached key is returned without consulting the factory. */
  lemma GetValueOrCreateIgnoresFactoryOnHit<K, V>(source: map<K, V>, key: K, f1: Result<V>, f2: Result<V>)
    requires key in source
    ensures GetValueOrCreate(source, key, f1) == GetValueOrCreate(source, key, f2)
  {
  }

  /** A second call with the same key returns the first call's value. */
  lemma GetValueOrCreateIdempotent<K, V>(source: map<K, V>, key: K, f1: Result<V>, f2: Result<V>)
    requires GetValueOrCreate(source, key, f1).0.Ok?
    ensures GetValueOrCreate(GetValueOrCreate(source, key, f1).1, key, f2) == GetValueOrCreate(source, key, f1)
  {
  }

  /** `GetValueOrCreate` with a factory that may read and write `source`
      while it runs, as `DictionaryCache`'s factory does through nested
      lookups: the factory maps the dictionary to its outcome and the
      dictionary it leaves. The key is added afterwards, so a factory that
      added the key itself makes `Add` throw; the factory's own writes stay in
      every case. */
  function GetValueOrCreateWith<K, V>(source: map<K, V>, key: K, getNewPairValue: map<K, V> -> (Result<V>, map<K, V>)): (r: (Result<V>, map<K, V>))
    ensures key in source ==> r == (Ok(source[key]), source)
    ensures key !in source ==>
      var (made, after) := getNewPairValue(source);
      (r.0.Ok? <==> made.Ok? && key !in after) &&
      (r.0.Ok? ==> r.0 == made) &&
      (made.Throw? ==> r.0 == made) &&
      (made.Ok? && key in after ==> r.0 == Throw(DuplicateKey)) &&
      r.1.Keys - {key} == after.Keys - {key} &&
      (forall k :: k != key && k in after ==> k in r.1 && r.1[k] == after[k]) &&
      (key in after ==> key in r.1 && r.1[key] == after[key])
    ensures r.0.Ok? ==> key in r.1 && r.1[key] == r.0.value
  {
    if key in source then (Ok(source[key]), source)
    else
      var (made, after) := getNewPairValue(source);
      match made
      case Throw(e) => (Throw(e), after)
      case Ok(value) =>
        if key in after then (Throw(DuplicateKey), after)
        else (Ok(value), after[key := value])
  }

  /** A factory that leaves the dictionary alone is just its outcome: the
      general form agrees with `GetValueOrCreate`. */
  lemma PureFactoryAgrees<K, V>(source: map<K, V>, key: K, getNewPairValue: map<K, V> -> (Result<V>, map<K, V>))
    requires getNewPairValue(source).1 == source
    ensures GetValueOrCreateWith(source, key, getNewPairValue) == GetValueOrCreate(source, key, getNewPairValue(source).0)
  {
  }

  /** A factory that stores the key itself makes the lookup throw, even
      though the factory succeeded, and its entry stays. */
  lemma FactoryAddingKeyThrows<K, V>(source: map<K, V>, key: K, getNewPairValue: map<K, V> -> (Result<V>, map<K, V>))
    requires key !in source
    requires getNewPairValue(source).0.Ok? && key in getNewPairValue(source).1
    ensures GetValueOrCreateWith(source, key, getNewPairValue) == (Throw(DuplicateKey), getNewPairValue(source).1)
  {
  }

  // ---------------------------------------------------------------------------
  // DictionaryCache

  /** The computation `getNewValue(key, cache)`: it looks up `dependencies`
      through the cache, in order, and then combines their values (or throws).
      The one-argument constructor's factory has no dependencies. */
  datatype Recipe<K, !V> = Recipe(dependencies: seq<K>, combine: seq<V> -> Result<V>)

  /** The cache's state: `dict` and `calcKeys`. */
  datatype CacheState<K, V> = CacheState(stored: map<K, V>, inProgress: set<K>)

  /** A cache as the constructors create it. */
  function NewCache<K, V>(): (r: CacheState<K, V>)
    ensures r.stored == map[] && r.inProgress == {}
  {
    CacheState(map[], {})
  }

  /** The exception a re-entrant lookup throws, naming the key as `show`
      (the key's `ToString`) renders it. */
  function DuplicateCalcKey(keyText: string): (r: Exception)
    ensures r.InvalidOperation? && |r.message| == |DuplicateCalcKeyPrefix| + |keyText|
    ensures r.message[..|DuplicateCalcKeyPrefix|] == DuplicateCalcKeyPrefix && r.message[|DuplicateCalcKeyPrefix|..] == keyText
  {
    InvalidOperation(DuplicateCalcKeyPrefix + keyText)
  }

  const DuplicateCalcKeyPrefix: string := "duplicate calc key: "

  /** The indexer `this[key]`. `depth` is the nesting the call stack still
      allows; a computation that would nest deeper throws StackOverflow. */
  function Get<K, V>(getNewValue: K -> Recipe<K, V>, show: K -> string, key: K, st: CacheState<K, V>, depth: nat): (r: (Result<V>, CacheState<K, V>))
    ensures r.1.inProgress == st.inProgress
    ensures st.stored.Keys <= r.1.stored.Keys
    ensures forall k :: k in st.stored ==> r.1.stored[k] == st.stored[k]
    ensures key in st.stored ==> r == (Ok(st.stored[key]), st)
    ensures key !in st.stored && key in st.inProgress ==> r == (Throw(DuplicateCalcKey(show(key))), st)
    ensures r.0.Ok? ==> key in r.1.stored && r.1.stored[key] == r.0.value
    ensures r.0.Throw? && key !in st.stored ==> key !in r.1.stored
    ensures forall k :: k in r.1.stored && k !in st.stored ==> k !in st.inProgress
    ensures r.0.Ok? && key !in st.stored ==> forall d :: d in getNewValue(key).dependencies ==> d in r.1.stored
    decreases depth, 0
  {
    if key in st.stored then (Ok(st.stored[key]), st)
    else if key in st.inProgress then (Throw(DuplicateCalcKey(show(key))), st)
    else if depth == 0 then (Throw(StackOverflow), st)
    else
      var recipe := getNewValue(key);
      var (values, after) := GetAll(getNewValue, show, recipe.dependencies, st.(inProgress := st.inProgress + {key}), depth - 1);
      var outcome := if values.Ok? then recipe.combine(values.value) else Throw(values.error);
      var restored := after.(inProgress := after.inProgress - {key});
      match outcome
      case Ok(v) => (Ok(v), restored.(stored := restored.stored[key := v]))
      case Throw(e) => (Throw(e), restored)
  }

  /** Looks up `keys` through the cache in order, stopping at the first
      exception. */
  function GetAll<K, V>(getNewValue: K -> Recipe<K, V>, show: K -> string, keys: seq<K>, st: CacheState<K, V>, depth: nat): (r: (Result<seq<V>>, CacheState<K, V>))
    ensures r.1.inProgress == st.inProgress
    ensures st.stored.Keys <= r.1.stored.Keys
    ensures forall k :: k in st.stored ==> r.1.stored[k] == st.stored[k]
    ensures r.0.Ok? ==> |r.0.value| == |keys|
    ensures r.0.Ok? ==> forall i :: 0 <= i < |keys| ==> keys[i] in r.1.stored && r.1.stored[keys[i]] == r.0.value[i]
    ensures forall k :: k in r.1.stored && k !in st.stored ==> k !in st.inProgress
    decreases depth, 1, |keys|
  {
    if |keys| == 0 then (Ok([]), st)
    else
      var (first, st1) := Get(getNewValue, show, keys[0], st, depth);
      match first
      case Throw(e) => (Throw(e), st1)
      case Ok(v) =>
        var (rest, st2) := GetAll(getNewValue, show, keys[1..], st1, depth);
        match rest
        case Throw(e) => (Throw(e), st2)
        case Ok(vs) => (Ok([v] + vs), st2)
  }

  /** `Values`: the stored values, one for each stored key. */
  ghost function Values<K, V(!new)>(st: CacheState<K, V>): (r: multiset<V>)
    ensures |r| == |st.stored|
    ensures forall v :: v in r <==> v in st.stored.Values
  {
    ValuesOf(st.stored)
  }

  /** The keys a map sends to `v`. */
  ghost function KeysWith<K, V>(m: map<K, V>, v: V): set<K> {
    set k | k in m && m[k] == v
  }

  /** The values of a map, counted once per key: each value as often as
      there are keys that map to it. */
  ghost function ValuesOf<K, V(!new)>(m: map<K, V>): (r: multiset<V>)
    ensures forall v :: r[v] == |KeysWith(m, v)|
    ensures |r| == |m|
    ensures forall v :: v in r <==> v in m.Values
    decreases |m|
  {
    if |m| == 0 then multiset{}
    else
      var k :| k in m;
      RemoveKey(m, k);
      ValuesOf(m - {k}) + multiset{m[k]}
  }

  /** Removing one key removes one entry, one key from those mapped to its
      value, and nothing else from the values. */
  lemma RemoveKey<K, V>(m: map<K, V>, k: K)
    requires k in m
    ensures |m - {k}| == |m| - 1
    ensures forall v :: |KeysWith(m, v)| == |KeysWith(m - {k}, v)| + (if m[k] == v then 1 else 0)
    ensures m.Values == (m - {k}).Values + {m[k]}
  {
    var rest := m - {k};
    assert rest.Keys == m.Keys - {k};
    forall v ensures |KeysWith(m, v)| == |KeysWith(rest, v)| + (if m[k] == v then 1 else 0) {
      assert KeysWith(m, v) == KeysWith(rest, v) + (if m[k] == v then {k} else {});
    }
    forall v | v in m.Values ensures v in rest.Values + {m[k]} {
      var j :| j in m && m[j] == v;
      if j != k { assert j in rest; }
    }
  }

  /** A computation that asks for its own key fails with "duplicate calc
      key" instead of recursing, and leaves the cache as it was. */
  lemma SelfDependencyThrows<K, V>(getNewValue: K -> Recipe<K, V>, show: K -> string, key: K, st: CacheState<K, V>, depth: nat)
    requires key !in st.stored && key !in st.inProgress && depth >= 1
    requires getNewValue(key).dependencies == [key]
    ensures Get(getNewValue, show, key, st, depth) == (Throw(DuplicateCalcKey(show(key))), st)
  {
    var inner := st.(inProgress := st.inProgress + {key});
    assert Get(getNewValue, show, key, inner, depth - 1) == (Throw(DuplicateCalcKey(show(key))), inner);
    assert inner.(inProgress := inner.inProgress - {key}) == st;
  }

  /** A second lookup of a key that was computed returns the stored value
      and changes nothing, whatever the factory would now do. */
  lemma SecondLookupHitsCache<K, V>(getNewValue: K -> Recipe<K, V>, other: K -> Recipe<K, V>, show: K -> string, key: K, st: CacheState<K, V>, depth: nat, depth2: nat)
    requires Get(getNewValue, show, key, st, depth).0.Ok?
    ensures var (r1, st1) := Get(getNewValue, show, key, st, depth);
      Get(other, show, key, st1, depth2) == (r1, st1)
  {
  }

  /** The values `m` stores under `keys`, in order. */
  function StoredValues<K, V>(m: map<K, V>, keys: seq<K>): (r: seq<V>)
    requires forall i :: 0 <= i < |keys| ==> keys[i] in m
    ensures |r| == |keys| && forall i :: 0 <= i < |keys| ==> r[i] == m[keys[i]]
  {
    seq(|keys|, i requires 0 <= i < |keys| => m[keys[i]])
  }

  /** A miss that succeeds returns what the factory computes from the values
      its lookups answered, and those are the values the cache now stores
      under the keys it asked for. */
  lemma {:induction false} MissComputesFactory<K, V>(getNewValue: K -> Recipe<K, V>, show: K -> string, key: K, st: CacheState<K, V>, depth: nat)
    requires key !in st.stored
    requires Get(getNewValue, show, key, st, depth).0.Ok?
    ensures var (r, after) := Get(getNewValue, show, key, st, depth);
      var deps := getNewValue(key).dependencies;
      (forall d :: d in deps ==> d in after.stored) &&
      r == getNewValue(key).combine(StoredValues(after.stored, deps))
  {
    var recipe := getNewValue(key);
    var inner := st.(inProgress := st.inProgress + {key});
    var (values, mid) := GetAll(getNewValue, show, recipe.dependencies, inner, depth - 1);
    assert key !in mid.stored;
    assert values.Ok?;
    var v := recipe.combine(values.value).value;
    var after := mid.(inProgress := mid.inProgress - {key}).(stored := mid.stored[key := v]);
    assert Get(getNewValue, show, key, st, depth) == (Ok(v), after);
    forall i | 0 <= i < |recipe.dependencies|
      ensures recipe.dependencies[i] != key && after.stored[recipe.dependencies[i]] == values.value[i]
    {
      assert recipe.dependencies[i] in mid.stored;
    }
    assert StoredValues(after.stored, recipe.dependencies) == values.value;
  }

  /** A cache whose factory ignores the cache (the one-argument constructor)
      computes `getNewValue(key)` on a miss. */
  lemma IndependentFactory<K, V>(f: K -> Result<V>, show: K -> string, key: K, st: CacheState<K, V>, depth: nat)
    requires key !in st.stored && key !in st.inProgress && depth >= 1
    ensures Get((k: K) => Recipe([], (_: seq<V>) => f(k)), show, key, st, depth).0 == f(key)
  {
  }
}

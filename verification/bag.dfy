/**
 * `Bag`: an insertion-ordered map from string keys to values, with an
 * optional validator naming the class every stored value must be an
 * instance of. `FilterBag`, `SorterBag` and `ElementBag` are this bag with
 * the validator fixed to their item class.
 *
 * A PHP array is modelled by the sequence of its keys in insertion order
 * plus a map from key to value. Class lookup and `instanceof` are outside
 * the model and are supplied as a `Checker`.
 */
module Bags {
  import opened Wrappers
  import opened Errors
  import opened Values

  datatype Bag<V> = Bag(keys: seq<string>, m: map<string, V>, validator: string)

  /** Class lookup and instance test: `classExists(c)` is PHP's
      `class_exists`, `conforms(v, c)` says that `v` passes `instanceof c`
      (for an array value, that every item does). */
  datatype Checker<!V> = Checker(classExists: string -> bool, conforms: (V, string) -> bool)

  predicate UniqueKeys(ks: seq<string>) {
    forall i, j :: 0 <= i < j < |ks| ==> ks[i] != ks[j]
  }

  /** Keys are unique and are exactly the keys of the map. */
  predicate Valid<V>(b: Bag<V>) {
    && UniqueKeys(b.keys)
    && (forall k :: k in b.m ==> k in b.keys)
    && (forall i :: 0 <= i < |b.keys| ==> b.keys[i] in b.m)
  }

  /** The keys of an array given as its entries. */
  function EntryKeys<V>(a: seq<(string, V)>): (r: seq<string>)
    ensures |r| == |a| && forall i :: 0 <= i < |a| ==> r[i] == a[i].0
  {
    if |a| == 0 then [] else [a[0].0] + EntryKeys(a[1..])
  }

  /** The entries of an array as a map. */
  function AsMap<V>(a: seq<(string, V)>): map<string, V> {
    if |a| == 0 then map[] else map[a[0].0 := a[0].1] + AsMap(a[1..])
  }

  /** The validator is on: a truthy class name of an existing class. */
  predicate ValidatorActive<V>(validator: string, c: Checker<V>) {
    !IsEmptyString(validator) && c.classExists(validator)
  }

  /** `validateInstance` of a single value passes. */
  predicate Accepts<V>(validator: string, c: Checker<V>, v: V) {
    !ValidatorActive(validator, c) || c.conforms(v, validator)
  }

  /** `validateInstance` of an array passes. */
  predicate AcceptsAll<V>(validator: string, c: Checker<V>, a: seq<(string, V)>) {
    forall i :: 0 <= i < |a| ==> Accepts(validator, c, a[i].1)
  }

  /** The bag built from an array without validation. */
  function FromEntries<V>(a: seq<(string, V)>, validator: string): Bag<V> {
    Bag(EntryKeys(a), AsMap(a), validator)
  }

  /** `new Bag($array)` with the validator the subclass fixes before
      calling the parent constructor. */
  function NewBag<V>(a: seq<(string, V)>, validator: string, c: Checker<V>): (r: Result<Bag<V>, Error>)
    requires UniqueKeys(EntryKeys(a))
    ensures r.Success? <==> AcceptsAll(validator, c, a)
    ensures r.Success? ==> Valid(r.value) && Items(r.value) == a && r.value.validator == validator
    ensures r.Failure? ==> r.error == InvalidBagValue
  {
    if AcceptsAll(validator, c, a) then
      FromEntriesItems(a, validator);
      Success(FromEntries(a, validator))
    else Failure(InvalidBagValue)
  }

  /** `all()` (and what iteration yields): the entries in key order. */
  function Items<V>(b: Bag<V>): (r: seq<(string, V)>)
    requires Valid(b)
    ensures |r| == |b.keys|
  {
    seq(|b.keys|, i requires 0 <= i < |b.keys| => (b.keys[i], b.m[b.keys[i]]))
  }

  /** `count()`. */
  function Count<V>(b: Bag<V>): nat {
    |b.keys|
  }

  /** `has($key)`. */
  predicate Has<V>(b: Bag<V>, k: string) {
    k in b.m
  }

  /** `get($key, $default)`. */
  function Get<V>(b: Bag<V>, k: string, default: V): V {
    if k in b.m then b.m[k] else default
  }

  /** `$this->array[$key] = $value`: a present key keeps its position, a
      new key goes last. */
  function Put<V>(b: Bag<V>, k: string, v: V): Bag<V> {
    if k in b.m then b.(m := b.m[k := v]) else b.(keys := b.keys + [k], m := b.m[k := v])
  }

  /** `set($key, $value)`: validation first, then assignment. */
  function Set<V>(b: Bag<V>, k: string, v: V, c: Checker<V>): (r: Result<Bag<V>, Error>)
    ensures r.Success? <==> Accepts(b.validator, c, v)
    ensures r.Success? ==> r.value == Put(b, k, v)
    ensures r.Failure? ==> r.error == InvalidBagValue
  {
    if Accepts(b.validator, c, v) then Success(Put(b, k, v)) else Failure(InvalidBagValue)
  }

  /** `remove($key)`. */
  function Remove<V>(b: Bag<V>, k: string): Bag<V> {
    b.(keys := Without(b.keys, k), m := b.m - {k})
  }

  /** The keys of `ks` other than `k`, in order. */
  function Without(ks: seq<string>, k: string): seq<string> {
    if |ks| == 0 then [] else (if ks[0] == k then [] else [ks[0]]) + Without(ks[1..], k)
  }

  /** `replace($array)`: validation first, then the array is taken whole. */
  function Replace<V>(b: Bag<V>, a: seq<(string, V)>, c: Checker<V>): (r: Result<Bag<V>, Error>)
    requires UniqueKeys(EntryKeys(a))
    ensures r.Success? <==> AcceptsAll(b.validator, c, a)
    ensures r.Success? ==> Valid(r.value) && r.value.validator == b.validator
    ensures r.Failure? ==> r.error == InvalidBagValue
  {
    if AcceptsAll(b.validator, c, a) then
      FromEntriesItems(a, b.validator);
      Success(FromEntries(a, b.validator))
    else Failure(InvalidBagValue)
  }

  /** `array_replace($this->array, $array)`: entries put one by one. */
  function PutAll<V>(b: Bag<V>, a: seq<(string, V)>): Bag<V>
    decreases |a|
  {
    if |a| == 0 then b else PutAll(Put(b, a[0].0, a[0].1), a[1..])
  }

  /** `add($array)`: validation first, then `array_replace`. */
  function Add<V>(b: Bag<V>, a: seq<(string, V)>, c: Checker<V>): (r: Result<Bag<V>, Error>)
    ensures r.Success? <==> AcceptsAll(b.validator, c, a)
    ensures r.Success? ==> r.value == PutAll(b, a)
    ensures r.Failure? ==> r.error == InvalidBagValue
  {
    if AcceptsAll(b.validator, c, a) then Success(PutAll(b, a)) else Failure(InvalidBagValue)
  }

  /** `setInstanceValidator`: the new validator is stored and the current
      contents are not checked against it. */
  function SetInstanceValidator<V>(b: Bag<V>, validator: string): (r: Bag<V>)
    requires Valid(b)
    ensures Valid(r) && r.validator == validator
    ensures Items(r) == Items(b)
  {
    b.(validator := validator)
  }

  /** Every value replaced by `f(key, value)` with the keys and their order
      kept: the in-place updates a caller makes to the objects a bag holds. */
  function MapEntries<V>(b: Bag<V>, f: (string, V) -> V): Bag<V> {
    b.(m := map k | k in b.m :: f(k, b.m[k]))
  }

  // ---------------------------------------------------------------------
  // Lemmas

  lemma UniqueTail(ks: seq<string>)
    requires UniqueKeys(ks) && |ks| > 0
    ensures UniqueKeys(ks[1..]) && ks[0] !in ks[1..]
  {
    forall i, j | 0 <= i < j < |ks[1..]| ensures ks[1..][i] != ks[1..][j] {
      assert ks[1..][i] == ks[i + 1] && ks[1..][j] == ks[j + 1];
    }
    forall i | 0 <= i < |ks[1..]| ensures ks[1..][i] != ks[0] {
      assert ks[1..][i] == ks[i + 1];
    }
  }

  lemma UniqueCons(x: string, ks: seq<string>)
    requires UniqueKeys(ks) && x !in ks
    ensures UniqueKeys([x] + ks)
  {
    forall i, j | 0 <= i < j < |[x] + ks| ensures ([x] + ks)[i] != ([x] + ks)[j] {
      assert ([x] + ks)[j] == ks[j - 1];
      if i > 0 {
        assert ([x] + ks)[i] == ks[i - 1];
      }
    }
  }

  lemma {:induction false} WithoutMembers(ks: seq<string>, k: string)
    ensures forall x :: x in Without(ks, k) <==> x in ks && x != k
    decreases |ks|
  {
    if |ks| > 0 {
      WithoutMembers(ks[1..], k);
      assert ks == [ks[0]] + ks[1..];
    }
  }

  lemma {:induction false} WithoutUnique(ks: seq<string>, k: string)
    requires UniqueKeys(ks)
    ensures UniqueKeys(Without(ks, k))
    decreases |ks|
  {
    if |ks| > 0 {
      UniqueTail(ks);
      WithoutUnique(ks[1..], k);
      if ks[0] != k {
        WithoutMembers(ks[1..], k);
        UniqueCons(ks[0], Without(ks[1..], k));
      }
    }
  }

  lemma {:induction false} WithoutAbsent(ks: seq<string>, k: string)
    requires k !in ks
    ensures Without(ks, k) == ks
    decreases |ks|
  {
    if |ks| > 0 {
      WithoutAbsent(ks[1..], k);
      assert ks == [ks[0]] + ks[1..];
    }
  }

  lemma PutValid<V>(b: Bag<V>, k: string, v: V)
    requires Valid(b)
    ensures Valid(Put(b, k, v)) && Put(b, k, v).validator == b.validator
  {
    if k !in b.m {
      UniqueKeys2(b.keys, k);
    }
  }

  lemma UniqueKeys2(ks: seq<string>, k: string)
    requires UniqueKeys(ks) && k !in ks
    ensures UniqueKeys(ks + [k])
  {
  }

  lemma {:induction false} PutAllValid<V>(b: Bag<V>, a: seq<(string, V)>)
    requires Valid(b)
    ensures Valid(PutAll(b, a)) && PutAll(b, a).validator == b.validator
    decreases |a|
  {
    if |a| > 0 {
      PutValid(b, a[0].0, a[0].1);
      PutAllValid(Put(b, a[0].0, a[0].1), a[1..]);
    }
  }

  lemma RemoveValid<V>(b: Bag<V>, k: string)
    requires Valid(b)
    ensures Valid(Remove(b, k)) && Remove(b, k).validator == b.validator
  {
    WithoutMembers(b.keys, k);
    WithoutUnique(b.keys, k);
    var r := Remove(b, k);
    forall i | 0 <= i < |r.keys| ensures r.keys[i] in r.m {
      assert r.keys[i] in Without(b.keys, k);
    }
  }

  lemma {:induction false} AsMapSpec<V>(a: seq<(string, V)>)
    requires UniqueKeys(EntryKeys(a))
    ensures forall k :: k in AsMap(a) <==> k in EntryKeys(a)
    ensures forall i :: 0 <= i < |a| ==> a[i].0 in AsMap(a) && AsMap(a)[a[i].0] == a[i].1
    decreases |a|
  {
    if |a| > 0 {
      var ks := EntryKeys(a);
      assert EntryKeys(a[1..]) == ks[1..];
      assert UniqueKeys(ks[1..]) by {
        forall i, j | 0 <= i < j < |ks[1..]| ensures ks[1..][i] != ks[1..][j] {
          assert ks[1..][i] == ks[i + 1] && ks[1..][j] == ks[j + 1];
        }
      }
      AsMapSpec(a[1..]);
      forall i | 0 <= i < |a| ensures a[i].0 in AsMap(a) && AsMap(a)[a[i].0] == a[i].1 {
        if i > 0 {
          assert a[i] == a[1..][i - 1];
          assert ks[i] != ks[0];
        }
      }
      forall k ensures k in AsMap(a) <==> k in ks {
        assert k in ks <==> k == ks[0] || k in ks[1..];
      }
    }
  }

  lemma FromEntriesItems<V>(a: seq<(string, V)>, validator: string)
    requires UniqueKeys(EntryKeys(a))
    ensures Valid(FromEntries(a, validator)) && Items(FromEntries(a, validator)) == a
  {
    AsMapSpec(a);
  }

  /** `has` agrees with `keys()`. */
  lemma HasIffKey<V>(b: Bag<V>, k: string)
    requires Valid(b)
    ensures Has(b, k) <==> k in b.keys
    ensures Has(b, k) <==> exists i :: 0 <= i < |Items(b)| && Items(b)[i].0 == k
  {
    if Has(b, k) {
      var i :| 0 <= i < |b.keys| && b.keys[i] == k;
      assert Items(b)[i].0 == k;
    }
  }

  /** `count()` is the number of keys and of iterated entries, and the
      entries pair each key with its value. */
  lemma CountAndItems<V>(b: Bag<V>)
    requires Valid(b)
    ensures Count(b) == |b.keys| == |Items(b)|
    ensures forall i :: 0 <= i < |Items(b)| ==> Items(b)[i].0 == b.keys[i] && Items(b)[i].1 == Get(b, b.keys[i], Items(b)[i].1)
  {
  }

  /** `get` returns the value stored under a present key, whatever it is,
      and the default for an absent key. */
  lemma GetPresentOrDefault<V>(b: Bag<V>, k: string, default: V)
    requires Valid(b)
    ensures forall i :: 0 <= i < |Items(b)| && Items(b)[i].0 == k ==> Get(b, k, default) == Items(b)[i].1
    ensures k !in b.keys ==> Get(b, k, default) == default
  {
  }

  /** After `set(k, v)` the bag maps `k` to `v`; an existing key keeps its
      position and the count, a new key is appended; nothing else changes. */
  lemma PutSpec<V>(b: Bag<V>, k: string, v: V)
    requires Valid(b)
    ensures Valid(Put(b, k, v))
    ensures var r := Put(b, k, v);
      && Has(r, k) && r.m[k] == v
      && (k in b.keys ==> r.keys == b.keys && Count(r) == Count(b))
      && (k !in b.keys ==> r.keys == b.keys + [k])
      && (forall j :: j != k ==> (j in r.m <==> j in b.m) && (j in b.m ==> r.m[j] == b.m[j]))
  {
    PutValid(b, k, v);
  }

  /** `remove(k)` deletes `k` only and keeps the order of the other keys;
      removing an absent key changes nothing. */
  lemma RemoveSpec<V>(b: Bag<V>, k: string)
    requires Valid(b)
    ensures Valid(Remove(b, k))
    ensures !Has(Remove(b, k), k)
    ensures forall j :: j != k ==> (Has(Remove(b, k), j) <==> Has(b, j)) && (j in b.m ==> Remove(b, k).m[j] == b.m[j])
    ensures Remove(b, k).keys == Without(b.keys, k)
    ensures !Has(b, k) ==> Remove(b, k) == b
  {
    RemoveValid(b, k);
    if !Has(b, k) {
      RemoveAbsent(b, k);
    }
  }

  lemma RemoveAbsent<V>(b: Bag<V>, k: string)
    requires Valid(b) && !Has(b, k)
    ensures Remove(b, k) == b
  {
    assert k !in b.keys;
    WithoutAbsent(b.keys, k);
    assert b.m - {k} == b.m;
  }

  /** After a successful `replace(a)` the contents are exactly `a`: no
      earlier key survives unless `a` holds it. */
  lemma ReplaceSpec<V>(b: Bag<V>, a: seq<(string, V)>, c: Checker<V>)
    requires UniqueKeys(EntryKeys(a))
    requires Replace(b, a, c).Success?
    ensures Items(Replace(b, a, c).value) == a
    ensures forall k :: k in b.keys && k !in EntryKeys(a) ==> !Has(Replace(b, a, c).value, k)
  {
    FromEntriesItems(a, b.validator);
    AsMapSpec(a);
  }

  /** The keys `a` brings that `ks` lacks, in `a`'s order. */
  function Appended<V>(ks: seq<string>, a: seq<(string, V)>): seq<string> {
    if |a| == 0 then [] else (if a[0].0 in ks then [] else [a[0].0]) + Appended(ks, a[1..])
  }

  lemma {:induction false} AppendedIgnoresOwnKeys<V>(ks: seq<string>, k: string, a: seq<(string, V)>)
    requires k !in EntryKeys(a)
    ensures Appended(ks + [k], a) == Appended(ks, a)
    decreases |a|
  {
    if |a| > 0 {
      assert EntryKeys(a)[0] == a[0].0;
      assert EntryKeys(a[1..]) == EntryKeys(a)[1..];
      AppendedIgnoresOwnKeys(ks, k, a[1..]);
    }
  }

  lemma {:induction false} PutAllKeys<V>(b: Bag<V>, a: seq<(string, V)>)
    requires Valid(b) && UniqueKeys(EntryKeys(a))
    ensures PutAll(b, a).keys == b.keys + Appended(b.keys, a)
    decreases |a|
  {
    if |a| > 0 {
      var ks := EntryKeys(a);
      assert EntryKeys(a[1..]) == ks[1..];
      UniqueTail(ks);
      var b1 := Put(b, a[0].0, a[0].1);
      PutValid(b, a[0].0, a[0].1);
      PutAllKeys(b1, a[1..]);
      if a[0].0 !in b.keys {
        AppendedIgnoresOwnKeys(b.keys, a[0].0, a[1..]);
      }
    }
  }

  lemma {:induction false} PutAllMap<V>(b: Bag<V>, a: seq<(string, V)>)
    ensures PutAll(b, a).m == b.m + AsMap(a)
    decreases |a|
  {
    if |a| > 0 {
      var b1 := Put(b, a[0].0, a[0].1);
      PutAllMap(b1, a[1..]);
      assert b1.m + AsMap(a[1..]) == b.m + AsMap(a);
    }
  }

  /** `add(a)`: keys already present keep their position and take `a`'s
      value, new keys are appended in `a`'s order, and every other entry is
      untouched. */
  lemma PutAllSpec<V>(b: Bag<V>, a: seq<(string, V)>, default: V)
    requires Valid(b) && UniqueKeys(EntryKeys(a))
    ensures Valid(PutAll(b, a))
    ensures PutAll(b, a).keys == b.keys + Appended(b.keys, a)
    ensures forall i :: 0 <= i < |a| ==> Get(PutAll(b, a), a[i].0, default) == a[i].1
    ensures forall k :: k !in EntryKeys(a) ==> Get(PutAll(b, a), k, default) == Get(b, k, default)
  {
    PutAllValid(b, a);
    PutAllKeys(b, a);
    PutAllValues(b, a, default);
  }

  lemma PutAllValues<V>(b: Bag<V>, a: seq<(string, V)>, default: V)
    requires UniqueKeys(EntryKeys(a))
    ensures forall i :: 0 <= i < |a| ==> Get(PutAll(b, a), a[i].0, default) == a[i].1
    ensures forall k :: k !in EntryKeys(a) ==> Get(PutAll(b, a), k, default) == Get(b, k, default)
  {
    PutAllMap(b, a);
    AsMapSpec(a);
  }

  /** Updating in place keeps the keys and their order and changes each
      entry by `f` alone. */
  lemma MapEntriesSpec<V>(b: Bag<V>, f: (string, V) -> V)
    requires Valid(b)
    ensures Valid(MapEntries(b, f)) && MapEntries(b, f).keys == b.keys
    ensures MapEntries(b, f).validator == b.validator
    ensures forall k :: Has(MapEntries(b, f), k) <==> Has(b, k)
    ensures forall k :: k in b.m ==> MapEntries(b, f).m[k] == f(k, b.m[k])
  {
  }
}

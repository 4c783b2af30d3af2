/**
 * The in-memory collection helpers: `getUniqueValues`, `createData`,
 * `updateData` and `deleteData`. Each returns a new array and leaves its
 * input alone, so each is a function on sequences of records.
 */
module Collections {
  import opened JsValues

  /** `item.id`, the property that `updateData` and `deleteData` match on. */
  function IdOf(item: Record): Value
  {
    Get(item, "id")
  }

  predicate NoDuplicates<T(==,!new)>(s: seq<T>)
  {
    forall i, j :: 0 <= i < j < |s| ==> s[i] != s[j]
  }

  /** The position where `v` first occurs in `s`. */
  function FirstIndex<T(==,!new)>(s: seq<T>, v: T): (k: nat)
    requires v in s
    ensures k < |s| && s[k] == v && v !in s[..k]
  {
    if s[0] == v then 0
    else
      var k' := FirstIndex(s[1..], v);
      assert s[..k' + 1] == [s[0]] + s[1..][..k'];
      k' + 1
  }

  /** `r` draws from `s` and lists its values in the order they first occur in `s`. */
  predicate InFirstOccurrenceOrder<T(==,!new)>(s: seq<T>, r: seq<T>)
  {
    && (forall v :: v in r ==> v in s)
    && (forall i, j :: 0 <= i < j < |r| ==> FirstIndex(s, r[i]) < FirstIndex(s, r[j]))
  }

  /**
   * `[...new Set(s)]`. A Set keeps insertion order and ignores a value it
   * already holds, so the result is built by adding the values of `s` one by
   * one, skipping repeats.
   */
  function Distinct<T(==,!new)>(s: seq<T>): (r: seq<T>)
    ensures NoDuplicates(r)
    ensures forall v :: v in r <==> v in s
  {
    if s == [] then []
    else
      var p := Distinct(s[..|s| - 1]);
      assert s == s[..|s| - 1] + [s[|s| - 1]];
      if s[|s| - 1] in p then p else p + [s[|s| - 1]]
  }

  /** A value occurring in a prefix of `s` first occurs at the same place in `s`. */
  lemma FirstIndexInPrefix<T(!new)>(s: seq<T>, n: nat, v: T)
    requires n <= |s| && v in s[..n]
    ensures FirstIndex(s, v) == FirstIndex(s[..n], v) < n
  {
    var k := FirstIndex(s[..n], v);
    var k' := FirstIndex(s, v);
    assert s[..n][..k] == s[..k];
  }

  lemma {:induction false} DistinctInFirstOccurrenceOrder<T(!new)>(s: seq<T>)
    ensures InFirstOccurrenceOrder(s, Distinct(s))
  {
    if s != [] {
      var n := |s| - 1;
      var t, x := s[..n], s[n];
      var p := Distinct(t);
      DistinctInFirstOccurrenceOrder(t);
      forall i | 0 <= i < |p|
        ensures p[i] in t && p[i] in s
        ensures FirstIndex(s, p[i]) == FirstIndex(t, p[i]) < n
      {
        FirstIndexInPrefix(s, n, p[i]);
      }
      if x !in p {
        assert x !in s[..n];
        assert FirstIndex(s, x) == n;
        var r := p + [x];
        assert r == Distinct(s);
        forall i, j | 0 <= i < j < |r|
          ensures FirstIndex(s, r[i]) < FirstIndex(s, r[j])
        {
          if j < |p| {
            assert r[i] == p[i] && r[j] == p[j];
          } else {
            assert r[i] == p[i] && r[j] == x;
          }
        }
      }
    }
  }

  /** Two such sequences with the same values start with the same value. */
  lemma FirstOccurrenceOrderHead<T(!new)>(s: seq<T>, a: seq<T>, b: seq<T>)
    requires a != []
    requires forall v :: v in a <==> v in b
    requires InFirstOccurrenceOrder(s, a) && InFirstOccurrenceOrder(s, b)
    ensures b != [] && a[0] == b[0]
  {
    assert a[0] in a;
    var j :| 0 <= j < |b| && b[j] == a[0];
    assert b[0] in b;
    var i :| 0 <= i < |a| && a[i] == b[0];
    assert i == 0;
  }

  /**
   * Having no duplicates, drawing exactly the values of `s`, and listing them
   * in first-occurrence order determines a sequence completely.
   */
  lemma {:induction false} FirstOccurrenceOrderUnique<T(!new)>(s: seq<T>, a: seq<T>, b: seq<T>)
    requires NoDuplicates(a) && NoDuplicates(b)
    requires forall v :: v in a <==> v in b
    requires InFirstOccurrenceOrder(s, a) && InFirstOccurrenceOrder(s, b)
    ensures a == b
  {
    if a == [] {
      if b != [] {
        FirstOccurrenceOrderHead(s, b, a);
      }
    } else {
      FirstOccurrenceOrderHead(s, a, b);
      assert a == [a[0]] + a[1..] && b == [b[0]] + b[1..];
      forall v
        ensures v in a[1..] ==> v in b[1..]
        ensures v in b[1..] ==> v in a[1..]
      {
        if v in a[1..] {
          var i :| 0 <= i < |a[1..]| && a[1..][i] == v;
          assert a[i + 1] == v && v in a;
        }
        if v in b[1..] {
          var j :| 0 <= j < |b[1..]| && b[1..][j] == v;
          assert b[j + 1] == v && v in b;
        }
      }
      FirstOccurrenceOrderUnique(s, a[1..], b[1..]);
    }
  }

  /** `data.map((item) => item[field])`. */
  function Project(items: seq<Record>, field: string): (r: seq<Value>)
    ensures |r| == |items|
    ensures forall i :: 0 <= i < |items| ==> r[i] == Get(items[i], field)
  {
    seq(|items|, i requires 0 <= i < |items| => Get(items[i], field))
  }

  /**
   * `getUniqueValues(data, field)`: the values of `field` across `data`,
   * each once, in the order they first occur; `[]` when `data` is not an
   * array or `field` is not a string.
   */
  function GetUniqueValues(data: Arg<seq<Record>>, field: Arg<string>): (r: seq<Value>)
    ensures data.WrongType? || field.WrongType? ==> r == []
    ensures data.Given? && field.Given? ==>
      && NoDuplicates(r)
      && (forall v :: v in r <==> exists i :: 0 <= i < |data.value| && Get(data.value[i], field.value) == v)
      && InFirstOccurrenceOrder(Project(data.value, field.value), r)
  {
    if data.WrongType? || field.WrongType? then []
    else
      var values := Project(data.value, field.value);
      DistinctInFirstOccurrenceOrder(values);
      assert forall v :: v in values ==> exists i :: 0 <= i < |data.value| && Get(data.value[i], field.value) == v by {
        forall v | v in values
          ensures exists i :: 0 <= i < |data.value| && Get(data.value[i], field.value) == v
        {
          var i :| 0 <= i < |values| && values[i] == v;
        }
      }
      assert forall i :: 0 <= i < |data.value| ==> Get(data.value[i], field.value) in values by {
        forall i | 0 <= i < |data.value|
          ensures Get(data.value[i], field.value) in values
        {
          assert values[i] == Get(data.value[i], field.value);
        }
      }
      Distinct(values)
  }

  /** The contract of `GetUniqueValues` leaves only one possible answer. */
  lemma GetUniqueValuesCharacterized(items: seq<Record>, field: string, r: seq<Value>)
    requires NoDuplicates(r)
    requires forall v :: v in r <==> v in Project(items, field)
    requires InFirstOccurrenceOrder(Project(items, field), r)
    ensures r == GetUniqueValues(Given(items), Given(field))
  {
    var values := Project(items, field);
    DistinctInFirstOccurrenceOrder(values);
    FirstOccurrenceOrderUnique(values, r, Distinct(values));
  }

  /**
   * `createData(array, newObject)`: a new array holding `arr` and then
   * `newObject`; `[]` when `arr` is not an array or `newObject` not an object.
   */
  function CreateData(arr: Arg<seq<Record>>, newObject: Arg<Record>): (r: seq<Record>)
    ensures arr.WrongType? || newObject.WrongType? ==> r == []
    ensures arr.Given? && newObject.Given? ==>
      && |r| == |arr.value| + 1
      && r[..|arr.value|] == arr.value
      && r[|arr.value|] == newObject.value
  {
    if arr.WrongType? || newObject.WrongType? then []
    else arr.value + [newObject.value]
  }

  /** `{ ...item, ...data }`: the keys of both, with `data`'s values winning. */
  function Merge(item: Record, data: Record): (m: Record)
    ensures m.Keys == item.Keys + data.Keys
    ensures forall k :: k in data ==> m[k] == data[k]
    ensures forall k :: k in item && k !in data ==> m[k] == item[k]
  {
    item + data
  }

  /** The callback `(item) => (item.id === id ? { ...item, ...data } : item)`. */
  function UpdateItem(item: Record, id: Value, data: Record): (r: Record)
    ensures IdOf(item) != id ==> r == item
    ensures IdOf(item) == id ==>
      && r.Keys == item.Keys + data.Keys
      && (forall k :: k in data ==> r[k] == data[k])
      && (forall k :: k in item && k !in data ==> r[k] == item[k])
  {
    if IdOf(item) == id then Merge(item, data) else item
  }

  /** Merging the same data into an item a second time changes nothing. */
  lemma UpdateItemIdempotent(item: Record, id: Value, data: Record)
    ensures UpdateItem(UpdateItem(item, id, data), id, data) == UpdateItem(item, id, data)
  {
    if IdOf(item) == id {
      var m := Merge(item, data);
      assert Merge(m, data) == m;
    }
  }

  /** `items.map(...)` with that callback. */
  function UpdateEach(items: seq<Record>, id: Value, data: Record): (r: seq<Record>)
    ensures |r| == |items|
    ensures forall i :: 0 <= i < |items| ==> r[i] == UpdateItem(items[i], id, data)
  {
    if items == [] then []
    else [UpdateItem(items[0], id, data)] + UpdateEach(items[1..], id, data)
  }

  /**
   * `updateData(array, id, data)`: every item whose `id` is `id` merged with
   * `data`, the others as they were, in the same order; `[]` when `arr` is
   * not an array or `data` not an object.
   */
  function UpdateData(arr: Arg<seq<Record>>, id: Value, data: Arg<Record>): (r: seq<Record>)
    ensures arr.WrongType? || data.WrongType? ==> r == []
    ensures arr.Given? && data.Given? ==>
      && |r| == |arr.value|
      && (forall i :: 0 <= i < |r| && IdOf(arr.value[i]) == id ==> r[i] == Merge(arr.value[i], data.value))
      && (forall i :: 0 <= i < |r| && IdOf(arr.value[i]) != id ==> r[i] == arr.value[i])
      && ((forall i :: 0 <= i < |r| ==> IdOf(arr.value[i]) != id) ==> r == arr.value)
  {
    if arr.WrongType? || data.WrongType? then []
    else UpdateEach(arr.value, id, data.value)
  }

  /** Updating twice with the same arguments is updating once. */
  lemma UpdateDataIdempotent(items: seq<Record>, id: Value, data: Record)
    ensures UpdateData(Given(UpdateData(Given(items), id, Given(data))), id, Given(data))
         == UpdateData(Given(items), id, Given(data))
  {
    UpdateEachIdempotent(items, id, data);
  }

  lemma UpdateEachIdempotent(items: seq<Record>, id: Value, data: Record)
    ensures UpdateEach(UpdateEach(items, id, data), id, data) == UpdateEach(items, id, data)
  {
    forall i | 0 <= i < |items|
      ensures UpdateItem(UpdateItem(items[i], id, data), id, data) == UpdateItem(items[i], id, data)
    {
      UpdateItemIdempotent(items[i], id, data);
    }
  }

  /**
   * A sequence `r` obtained from `s` by dropping elements: the elements of
   * `r` appear in `s` in the same relative order.
   */
  predicate IsSubsequence<T(==,!new)>(r: seq<T>, s: seq<T>)
    decreases |s|
  {
    || r == []
    || (s != [] && ((r[0] == s[0] && IsSubsequence(r[1..], s[1..])) || IsSubsequence(r, s[1..])))
  }

  /** `items.filter((item) => item.id !== id)`. */
  function Without(items: seq<Record>, id: Value): (r: seq<Record>)
    ensures forall x :: x in r ==> x in items && IdOf(x) != id
  {
    if items == [] then []
    else if IdOf(items[0]) != id then [items[0]] + Without(items[1..], id)
    else Without(items[1..], id)
  }

  /** The filter keeps each non-matching item as often as it occurs, and no matching one. */
  lemma {:induction false} WithoutCounts(items: seq<Record>, id: Value)
    ensures |Without(items, id)| <= |items|
    ensures forall x :: multiset(Without(items, id))[x] == if IdOf(x) == id then 0 else multiset(items)[x]
  {
    if items != [] {
      WithoutCounts(items[1..], id);
      assert items == [items[0]] + items[1..];
    }
  }

  /** The filter keeps the relative order of what it keeps. */
  lemma {:induction false} WithoutIsSubsequence(items: seq<Record>, id: Value)
    ensures IsSubsequence(Without(items, id), items)
  {
    if items != [] {
      WithoutIsSubsequence(items[1..], id);
      var rest := Without(items[1..], id);
      if IdOf(items[0]) != id {
        assert ([items[0]] + rest)[1..] == rest;
      }
    }
  }

  /** When no item matches, the filter keeps everything. */
  lemma {:induction false} WithoutNoMatch(items: seq<Record>, id: Value)
    requires forall x :: x in items ==> IdOf(x) != id
    ensures Without(items, id) == items
  {
    if items != [] {
      assert forall x :: x in items[1..] ==> x in items;
      WithoutNoMatch(items[1..], id);
      assert items == [items[0]] + items[1..];
    }
  }

  /**
   * `deleteData(array, id)`: exactly the items whose `id` is not `id`, each
   * as often as in `arr` and in their original order; `[]` when `arr` is
   * not an array.
   */
  function DeleteData(arr: Arg<seq<Record>>, id: Value): (r: seq<Record>)
    ensures arr.WrongType? ==> r == []
    ensures arr.Given? ==>
      && |r| <= |arr.value|
      && (forall x :: multiset(r)[x] == if IdOf(x) == id then 0 else multiset(arr.value)[x])
      && IsSubsequence(r, arr.value)
  {
    if arr.WrongType? then []
    else
      WithoutCounts(arr.value, id);
      WithoutIsSubsequence(arr.value, id);
      Without(arr.value, id)
  }

  /** When no item has the id, the result equals the input. */
  lemma DeleteDataNoMatch(items: seq<Record>, id: Value)
    requires forall x :: x in items ==> IdOf(x) != id
    ensures DeleteData(Given(items), id) == items
  {
    WithoutNoMatch(items, id);
  }

  /** Deleting twice by the same id is deleting once. */
  lemma DeleteDataIdempotent(items: seq<Record>, id: Value)
    ensures DeleteData(Given(DeleteData(Given(items), id)), id) == DeleteData(Given(items), id)
  {
    var once := DeleteData(Given(items), id);
    forall x | x in once
      ensures IdOf(x) != id
    {
      assert multiset(once)[x] > 0;
    }
    WithoutNoMatch(once, id);
  }

  lemma {:induction false} WithoutAppend(a: seq<Record>, b: seq<Record>, id: Value)
    ensures Without(a + b, id) == Without(a, id) + Without(b, id)
  {
    if a == [] {
      assert a + b == b;
    } else {
      assert (a + b)[0] == a[0];
      assert (a + b)[1..] == a[1..] + b;
      WithoutAppend(a[1..], b, id);
    }
  }

  /** Deleting by the id of a freshly created record gives back the original array. */
  lemma DeleteUndoesCreate(items: seq<Record>, newObject: Record)
    requires forall x :: x in items ==> IdOf(x) != IdOf(newObject)
    ensures DeleteData(Given(CreateData(Given(items), Given(newObject))), IdOf(newObject)) == items
  {
    var id := IdOf(newObject);
    WithoutAppend(items, [newObject], id);
    WithoutNoMatch(items, id);
    assert Without([newObject], id) == [];
  }

  /**
   * Deleting by `id` after updating by `id` with data that keeps the `id`
   * is deleting by `id` alone.
   */
  lemma {:induction false} DeleteAfterUpdate(items: seq<Record>, id: Value, data: Record)
    requires "id" in data ==> data["id"] == id
    ensures DeleteData(Given(UpdateData(Given(items), id, Given(data))), id) == DeleteData(Given(items), id)
  {
    if items != [] {
      DeleteAfterUpdate(items[1..], id, data);
      var u := UpdateEach(items, id, data);
      assert u[1..] == UpdateEach(items[1..], id, data);
      assert IdOf(u[0]) == id <==> IdOf(items[0]) == id;
    }
  }
}

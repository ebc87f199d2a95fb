/** The JavaScript objects the user handlers build and filter: an object is
    its entries in insertion order (what `Object.entries` yields), property
    read and assignment follow JavaScript, and `Written` is how the store
    applies an update object to a stored row (an `undefined` value means
    "leave the column alone"). */
module JsObject {
  import opened Entities

  /** The property values the handlers meet. */
  datatype Value = Null | Undefined | Text(s: string) | Number(n: int) | When(d: Date)

  type Entries = seq<(string, Value)>

  /** JavaScript truthiness: `null`, `undefined`, `""` and `0` are falsy, a
      Date object is truthy. */
  predicate Truthy(v: Value) {
    match v
    case Null => false
    case Undefined => false
    case Text(s) => s != ""
    case Number(n) => n != 0
    case When(_) => true
  }

  predicate HasKey(obj: Entries, k: string) {
    exists e :: e in obj && e.0 == k
  }

  /** No key occurs twice, as in every object `Object.entries` describes. */
  predicate UniqueKeys(obj: Entries) {
    forall i, j :: 0 <= i < j < |obj| ==> obj[i].0 != obj[j].0
  }

  predicate Distinct(keys: seq<string>) {
    forall i, j :: 0 <= i < j < |keys| ==> keys[i] != keys[j]
  }

  /** Two lists of distinct names with nothing in common are distinct
      together. */
  lemma DistinctAppend(a: seq<string>, b: seq<string>)
    requires Distinct(a) && Distinct(b) && forall k :: k in a ==> k !in b
    ensures Distinct(a + b)
  {
    forall i, j | 0 <= i < j < |a + b| ensures (a + b)[i] != (a + b)[j] {
      if i < |a| && j >= |a| { assert (a + b)[i] in a && (a + b)[j] == b[j - |a|]; }
    }
  }

  /** The entries after the first of an object with unique keys have unique
      keys, none of them the first entry's. */
  lemma UniqueKeysTail(obj: Entries)
    requires UniqueKeys(obj) && obj != []
    ensures UniqueKeys(obj[1..]) && !HasKey(obj[1..], obj[0].0)
  {
    var tail := obj[1..];
    forall i, j | 0 <= i < j < |tail| ensures tail[i].0 != tail[j].0 {
      assert tail[i] == obj[i + 1] && tail[j] == obj[j + 1];
    }
    forall i | 0 <= i < |tail| ensures tail[i].0 != obj[0].0 {
      assert tail[i] == obj[i + 1];
    }
  }

  /** An entry whose key is new goes in front without a clash. */
  lemma UniqueKeysCons(e: (string, Value), obj: Entries)
    requires UniqueKeys(obj) && !HasKey(obj, e.0)
    ensures UniqueKeys([e] + obj)
  {
    var r := [e] + obj;
    forall i, j | 0 <= i < j < |r| ensures r[i].0 != r[j].0 {
      assert r[j] == obj[j - 1];
      if i > 0 { assert r[i] == obj[i - 1]; }
    }
  }

  /** `obj[k]`: the value stored under `k`, or `undefined` when there is
      none. */
  function Get(obj: Entries, k: string): (r: Value)
    ensures HasKey(obj, k) ==> (k, r) in obj
    ensures !HasKey(obj, k) ==> r == Undefined
  {
    if obj == [] then Undefined
    else if obj[0].0 == k then obj[0].1
    else
      assert forall e :: e in obj && e.0 == k ==> e in obj[1..];
      Get(obj[1..], k)
  }

  /** `obj[k] = v`: an existing key keeps its place and takes the new value,
      a new key goes at the end. */
  function Set(obj: Entries, k: string, v: Value): Entries {
    if obj == [] then [(k, v)]
    else if obj[0].0 == k then [(k, v)] + obj[1..]
    else [obj[0]] + Set(obj[1..], k, v)
  }

  /** After an assignment the key reads as the new value and every other key
      as before. */
  lemma {:induction false} SetReads(obj: Entries, k: string, v: Value)
    ensures Get(Set(obj, k, v), k) == v
    ensures forall j :: j != k ==> Get(Set(obj, k, v), j) == Get(obj, j)
  {
    if obj != [] && obj[0].0 != k {
      SetReads(obj[1..], k, v);
      assert forall j :: Get(Set(obj, k, v), j) == if obj[0].0 == j then obj[0].1 else Get(Set(obj[1..], k, v), j);
    }
  }

  /** The keys after an assignment are the old ones and `k`; a new key is
      appended. */
  lemma {:induction false} SetKeys(obj: Entries, k: string, v: Value)
    ensures forall j :: HasKey(Set(obj, k, v), j) <==> HasKey(obj, j) || j == k
    ensures !HasKey(obj, k) ==> Set(obj, k, v) == obj + [(k, v)]
  {
    if obj != [] {
      assert forall j :: HasKey(obj, j) <==> obj[0].0 == j || HasKey(obj[1..], j);
      if obj[0].0 == k {
        assert forall e :: e in [(k, v)] + obj[1..] <==> e == (k, v) || e in obj[1..];
      } else {
        var rest := Set(obj[1..], k, v);
        SetKeys(obj[1..], k, v);
        assert forall e :: e in [obj[0]] + rest <==> e == obj[0] || e in rest;
        assert forall j :: HasKey([obj[0]] + rest, j) <==> obj[0].0 == j || HasKey(rest, j);
      }
    }
  }

  /** Assignment keeps every key unique: it adds a key only when it is new. */
  lemma {:induction false} SetKeepsUniqueKeys(obj: Entries, k: string, v: Value)
    requires UniqueKeys(obj)
    ensures UniqueKeys(Set(obj, k, v))
  {
    if obj != [] {
      UniqueKeysTail(obj);
      if obj[0].0 != k {
        SetKeepsUniqueKeys(obj[1..], k, v);
        SetKeys(obj[1..], k, v);
        UniqueKeysCons(obj[0], Set(obj[1..], k, v));
      } else {
        UniqueKeysCons((k, v), obj[1..]);
      }
    }
  }

  /** `Object.fromEntries(Object.entries(obj).filter(([_, v]) => v !== null))`:
      the entries whose value is not `null`, in their order; `undefined`
      values stay. */
  function RemoveNullFields(obj: Entries): (r: Entries)
    ensures forall e :: e in r <==> e in obj && e.1 != Null
    ensures |r| <= |obj|
  {
    if obj == [] then []
    else
      assert forall e :: e in obj <==> e == obj[0] || e in obj[1..];
      (if obj[0].1 == Null then [] else [obj[0]]) + RemoveNullFields(obj[1..])
  }

  /** Filtering keeps keys unique. */
  lemma {:induction false} RemoveNullFieldsKeepsUniqueKeys(obj: Entries)
    requires UniqueKeys(obj)
    ensures UniqueKeys(RemoveNullFields(obj))
  {
    if obj != [] {
      UniqueKeysTail(obj);
      RemoveNullFieldsKeepsUniqueKeys(obj[1..]);
      var rest := RemoveNullFields(obj[1..]);
      if obj[0].1 != Null {
        assert !HasKey(rest, obj[0].0);
        UniqueKeysCons(obj[0], rest);
        assert RemoveNullFields(obj) == [obj[0]] + rest;
      } else {
        assert RemoveNullFields(obj) == rest;
      }
    }
  }

  /** Filtering distributes over concatenation, so it keeps the relative
      order of the entries it keeps. */
  lemma {:induction false} RemoveNullFieldsAppend(a: Entries, b: Entries)
    ensures RemoveNullFields(a + b) == RemoveNullFields(a) + RemoveNullFields(b)
  {
    if a != [] {
      assert (a + b)[0] == a[0] && (a + b)[1..] == a[1..] + b;
      RemoveNullFieldsAppend(a[1..], b);
      var head := if a[0].1 == Null then [] else [a[0]];
      assert RemoveNullFields(a + b) == head + RemoveNullFields(a[1..] + b);
      assert head + (RemoveNullFields(a[1..]) + RemoveNullFields(b)) == (head + RemoveNullFields(a[1..])) + RemoveNullFields(b);
    } else {
      assert a + b == b;
    }
  }

  /** An object without `null` values comes back unchanged. */
  lemma {:induction false} RemoveNullFieldsKeepsNullFree(obj: Entries)
    requires forall e :: e in obj ==> e.1 != Null
    ensures RemoveNullFields(obj) == obj
  {
    if obj != [] {
      assert forall e :: e in obj[1..] ==> e in obj;
      RemoveNullFieldsKeepsNullFree(obj[1..]);
    }
  }

  /** Reading a filtered object: a `null` property reads as absent, every
      other one as before. */
  lemma {:induction false} GetRemoveNullFields(obj: Entries, k: string)
    requires UniqueKeys(obj)
    ensures Get(RemoveNullFields(obj), k) == if Get(obj, k) == Null then Undefined else Get(obj, k)
  {
    if obj != [] {
      UniqueKeysTail(obj);
      GetRemoveNullFields(obj[1..], k);
      if obj[0].0 == k {
        assert !HasKey(RemoveNullFields(obj[1..]), k);
      }
    }
  }

  /** The object `{f1: value(f1), ..., fn: value(fn)}`: listing the fields
      `keys`, each with its value. */
  function Fields(keys: seq<string>, value: string -> Value): (r: Entries)
    ensures |r| == |keys|
    ensures forall i :: 0 <= i < |keys| ==> r[i] == (keys[i], value(keys[i]))
  {
    seq(|keys|, i requires 0 <= i < |keys| => (keys[i], value(keys[i])))
  }

  /** Reading such an object: a listed field reads as its value, any other
      as absent; distinct fields give distinct keys. */
  lemma GetFields(keys: seq<string>, value: string -> Value, k: string)
    requires Distinct(keys)
    ensures UniqueKeys(Fields(keys, value))
    ensures HasKey(Fields(keys, value), k) <==> k in keys
    ensures Get(Fields(keys, value), k) == if k in keys then value(k) else Undefined
  {
    var p := Fields(keys, value);
    if k in keys {
      var i :| 0 <= i < |keys| && keys[i] == k;
      assert p[i] == (k, value(k));
      assert (k, Get(p, k)) in p;
    } else {
      assert forall e :: e in p ==> e.0 in keys;
    }
  }

  /** Reading a concatenation: the first part wins where it has the key. */
  lemma {:induction false} GetAppend(a: Entries, b: Entries, k: string)
    ensures Get(a + b, k) == if HasKey(a, k) then Get(a, k) else Get(b, k)
  {
    if a == [] {
      assert a + b == b;
    } else {
      assert (a + b)[1..] == a[1..] + b;
      assert forall e :: e in a <==> e == a[0] || e in a[1..];
      GetAppend(a[1..], b, k);
    }
  }

  /** Two objects without a common key concatenate into one with unique keys. */
  lemma UniqueKeysAppend(a: Entries, b: Entries)
    requires UniqueKeys(a) && UniqueKeys(b)
    requires forall e :: e in b ==> !HasKey(a, e.0)
    ensures UniqueKeys(a + b)
  {
    var c := a + b;
    forall i, j | 0 <= i < j < |c| ensures c[i].0 != c[j].0 {
      if j >= |a| {
        assert c[j] == b[j - |a|];
        if i < |a| {
          assert c[i] in a;
        } else {
          assert c[i] == b[i - |a|];
        }
      }
    }
  }

  /** The stored row after an update with `data`: each entry whose value is
      not `undefined` is written, the rest of the row is kept. */
  function Written(row: Entries, data: Entries): Entries
    decreases |data|
  {
    if data == [] then row
    else Written(if data[0].1 == Undefined then row else Set(row, data[0].0, data[0].1), data[1..])
  }

  /** After an update a column is present exactly when the row had it or the
      data gives it a value. */
  lemma {:induction false} WrittenKeys(row: Entries, data: Entries)
    ensures forall j :: HasKey(Written(row, data), j) <==>
      HasKey(row, j) || (exists e :: e in data && e.0 == j && e.1 != Undefined)
    decreases |data|
  {
    if data != [] {
      var next := if data[0].1 == Undefined then row else Set(row, data[0].0, data[0].1);
      SetKeys(row, data[0].0, data[0].1);
      WrittenKeys(next, data[1..]);
      assert forall e :: e in data <==> e == data[0] || e in data[1..];
    }
  }

  /** Reading the row after an update: a column the update carries a value
      for reads as that value, every other column as before. */
  lemma {:induction false} GetWritten(row: Entries, data: Entries, k: string)
    requires UniqueKeys(data)
    ensures Get(Written(row, data), k) == if Get(data, k) == Undefined then Get(row, k) else Get(data, k)
    decreases |data|
  {
    if data != [] {
      UniqueKeysTail(data);
      var next := if data[0].1 == Undefined then row else Set(row, data[0].0, data[0].1);
      SetReads(row, data[0].0, data[0].1);
      GetWritten(next, data[1..], k);
    }
  }
}

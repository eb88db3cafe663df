/** Java's LinkedHashMap with string keys: entries in insertion order, an overwritten key keeps its place. */
module LinkedMap {
  import opened Options

  datatype Entry<+V> = Entry(key: string, value: V)

  function Get<V>(m: seq<Entry<V>>, key: string): Option<V> {
    if m == [] then None
    else if m[0].key == key then Some(m[0].value)
    else Get(m[1..], key)
  }

  function Put<V>(m: seq<Entry<V>>, key: string, value: V): seq<Entry<V>> {
    if m == [] then [Entry(key, value)]
    else if m[0].key == key then [Entry(key, value)] + m[1..]
    else [m[0]] + Put(m[1..], key, value)
  }

  function Remove<V>(m: seq<Entry<V>>, key: string): seq<Entry<V>> {
    if m == [] then []
    else if m[0].key == key then m[1..]
    else [m[0]] + Remove(m[1..], key)
  }

  /** `values().removeIf` of the values that fail `keep`. */
  function Keep<V>(m: seq<Entry<V>>, keep: V -> bool): seq<Entry<V>> {
    if m == [] then []
    else (if keep(m[0].value) then [m[0]] else []) + Keep(m[1..], keep)
  }

  function Values<V>(m: seq<Entry<V>>): (values: seq<V>)
    ensures |values| == |m|
  {
    seq(|m|, i requires 0 <= i < |m| => m[i].value)
  }

  /** Reload a persisted list of values: put each under its own key, in list order. */
  function Load<V>(values: seq<V>, keyOf: V -> string): seq<Entry<V>> {
    if values == [] then []
    else
      var last := values[|values| - 1];
      Put(Load(values[..|values| - 1], keyOf), keyOf(last), last)
  }

  /** No key occurs twice, and every value is stored under its own key. */
  ghost predicate Valid<V>(m: seq<Entry<V>>, keyOf: V -> string) {
    && (forall i, j :: 0 <= i < j < |m| ==> m[i].key != m[j].key)
    && forall i :: 0 <= i < |m| ==> keyOf(m[i].value) == m[i].key
  }

  lemma {:induction false} GetPut<V>(m: seq<Entry<V>>, key: string, value: V, other: string)
    ensures Get(Put(m, key, value), other) == if other == key then Some(value) else Get(m, other)
  {
    if m != [] {
      GetPut(m[1..], key, value, other);
    }
  }

  lemma {:induction false} GetAbsent<V>(m: seq<Entry<V>>, key: string)
    ensures Get(m, key) == None <==> forall i :: 0 <= i < |m| ==> m[i].key != key
  {
    if m != [] {
      GetAbsent(m[1..], key);
      assert m == [m[0]] + m[1..];
    }
  }

  lemma {:induction false} GetValue<V>(m: seq<Entry<V>>, keyOf: V -> string, key: string)
    requires Valid(m, keyOf) && Get(m, key).Some?
    ensures keyOf(Get(m, key).value) == key
  {
    if m[0].key != key {
      GetValue(m[1..], keyOf, key);
    }
  }

  /** Putting a key that is there replaces its value in place; a new one goes to the end. */
  lemma {:induction false} PutExactly<V>(m: seq<Entry<V>>, key: string, value: V, i: nat)
    requires i <= |m| && (i < |m| ==> m[i].key == key) && forall j :: 0 <= j < i ==> m[j].key != key
    ensures Put(m, key, value) == if i < |m| then m[i := Entry(key, value)] else m + [Entry(key, value)]
  {
    if i > 0 {
      PutExactly(m[1..], key, value, i - 1);
      assert m == [m[0]] + m[1..];
    }
  }

  /** Where a key is, or would be put. */
  lemma {:induction false} PlaceOf<V>(m: seq<Entry<V>>, key: string) returns (i: nat)
    ensures i <= |m| && (i < |m| ==> m[i].key == key) && forall j :: 0 <= j < i ==> m[j].key != key
  {
    if m == [] || m[0].key == key {
      i := 0;
    } else {
      i := PlaceOf(m[1..], key);
      i := i + 1;
    }
  }

  lemma PutValid<V>(m: seq<Entry<V>>, keyOf: V -> string, key: string, value: V)
    requires Valid(m, keyOf) && keyOf(value) == key
    ensures Valid(Put(m, key, value), keyOf)
  {
    var i := PlaceOf(m, key);
    PutExactly(m, key, value, i);
  }

  lemma {:induction false} RemoveKeys<V>(m: seq<Entry<V>>, keyOf: V -> string, key: string, other: string)
    requires Valid(m, keyOf)
    ensures Get(Remove(m, key), other) == if other == key then None else Get(m, other)
  {
    if m != [] {
      RemoveKeys(m[1..], keyOf, key, other);
      GetAbsent(m[1..], m[0].key);
    }
  }

  lemma {:induction false} RemoveMembers<V>(m: seq<Entry<V>>, key: string, e: Entry<V>)
    requires e in Remove(m, key)
    ensures e in m
  {
    if m[0].key != key && e != m[0] {
      RemoveMembers(m[1..], key, e);
    }
  }

  lemma {:induction false} RemoveValid<V>(m: seq<Entry<V>>, keyOf: V -> string, key: string)
    requires Valid(m, keyOf)
    ensures Valid(Remove(m, key), keyOf)
  {
    if m != [] && m[0].key != key {
      RemoveValid(m[1..], keyOf, key);
      var tail := Remove(m[1..], key);
      forall i | 0 <= i < |tail| ensures tail[i].key != m[0].key {
        RemoveMembers(m[1..], key, tail[i]);
      }
    }
  }

  lemma {:induction false} KeepKeys<V>(m: seq<Entry<V>>, keyOf: V -> string, keep: V -> bool, other: string)
    requires Valid(m, keyOf)
    ensures Get(Keep(m, keep), other)
         == if Get(m, other).Some? && keep(Get(m, other).value) then Get(m, other) else None
  {
    if m != [] {
      KeepKeys(m[1..], keyOf, keep, other);
      GetAbsent(m[1..], m[0].key);
      var tail := Keep(m[1..], keep);
      assert Keep(m, keep) == if keep(m[0].value) then [m[0]] + tail else tail;
    }
  }

  lemma {:induction false} KeepMembers<V>(m: seq<Entry<V>>, keep: V -> bool, e: Entry<V>)
    requires e in Keep(m, keep)
    ensures e in m
  {
    if e !in (if keep(m[0].value) then [m[0]] else []) {
      KeepMembers(m[1..], keep, e);
    }
  }

  lemma {:induction false} KeepValid<V>(m: seq<Entry<V>>, keyOf: V -> string, keep: V -> bool)
    requires Valid(m, keyOf)
    ensures Valid(Keep(m, keep), keyOf)
  {
    if m != [] {
      KeepValid(m[1..], keyOf, keep);
      var tail := Keep(m[1..], keep);
      forall i | 0 <= i < |tail| ensures tail[i].key != m[0].key {
        KeepMembers(m[1..], keep, tail[i]);
      }
      assert Keep(m, keep) == if keep(m[0].value) then [m[0]] + tail else tail;
    }
  }

  /** Removing a key takes out its entry and moves nothing else. */
  lemma {:induction false} RemoveExactly<V>(m: seq<Entry<V>>, key: string, i: nat)
    requires i <= |m| && (i < |m| ==> m[i].key == key) && forall j :: 0 <= j < i ==> m[j].key != key
    ensures Remove(m, key) == if i < |m| then m[..i] + m[i + 1..] else m
  {
    if i > 0 {
      RemoveExactly(m[1..], key, i - 1);
      assert m == [m[0]] + m[1..];
    }
  }

  /** A filtered map has the kept entries of its parts, one after the other. */
  lemma {:induction false} KeepAppend<V>(a: seq<Entry<V>>, b: seq<Entry<V>>, keep: V -> bool)
    ensures Keep(a + b, keep) == Keep(a, keep) + Keep(b, keep)
  {
    if a == [] {
      assert a + b == b;
    } else {
      KeepAppend(a[1..], b, keep);
      assert (a + b)[0] == a[0] && (a + b)[1..] == a[1..] + b;
    }
  }

  /** Reloading the persisted values rebuilds the map, order included. */
  lemma {:induction false} LoadValues<V>(m: seq<Entry<V>>, keyOf: V -> string)
    requires Valid(m, keyOf)
    ensures Load(Values(m), keyOf) == m
  {
    if m != [] {
      var n := |m| - 1;
      LoadValues(m[..n], keyOf);
      assert Values(m)[..n] == Values(m[..n]);
      PutExactly(m[..n], m[n].key, m[n].value, n);
      assert m == m[..n] + [m[n]];
    }
  }
}

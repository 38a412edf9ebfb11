/** What the index stores, as the sorted list its bottom level spells out, and what the operations of
    trash/duplicate-implementations-2025-06-12/skiplist_simple_version.c do to it. */
module Entries {
  import opened KeyOrder
  import opened Options

  datatype Entry<V> = Entry(key: Key, value: V)

  ghost predicate Sorted<V>(es: seq<Entry<V>>) {
    forall i, j :: 0 <= i < j < |es| ==> Le(es[i].key, es[j].key)
  }

  /** A linear scan: the value of the first entry with the key. */
  function Find<V>(es: seq<Entry<V>>, key: Key): Option<V> {
    if es == [] then None
    else if es[0].key == key then Some(es[0].value)
    else Find(es[1..], key)
  }

  /** Where the written walk of insert (line 70) stops: after every key that is not greater. */
  function Place<V>(es: seq<Entry<V>>, key: Key): (p: nat)
    ensures p <= |es|
  {
    if es == [] || !Le(es[0].key, key) then 0 else 1 + Place(es[1..], key)
  }

  function PutAt<T>(s: seq<T>, p: nat, x: T): seq<T>
    requires p <= |s|
  {
    s[..p] + [x] + s[p..]
  }

  function Inserted<V>(es: seq<Entry<V>>, key: Key, value: V): seq<Entry<V>> {
    PutAt(es, Place(es, key), Entry(key, value))
  }

  lemma {:induction false} PlaceSplits<V>(es: seq<Entry<V>>, key: Key, p: nat)
    requires p <= |es|
    requires forall i :: 0 <= i < p ==> Le(es[i].key, key)
    requires p < |es| ==> !Le(es[p].key, key)
    ensures Place(es, key) == p
  {
    if p > 0 {
      forall i | 0 <= i < p - 1 ensures Le(es[1..][i].key, key) { assert es[1..][i] == es[i + 1]; }
      PlaceSplits(es[1..], key, p - 1);
    }
  }

  lemma {:induction false} PlaceBounds<V>(es: seq<Entry<V>>, key: Key)
    requires Sorted(es)
    ensures forall i :: 0 <= i < Place(es, key) ==> Le(es[i].key, key)
    ensures forall i :: Place(es, key) <= i < |es| ==> !Le(es[i].key, key)
  {
    OrderFacts();
    hide Compare, Le;
    if es != [] && Le(es[0].key, key) {
      PlaceBounds(es[1..], key);
      forall i | Place(es, key) <= i < |es| ensures !Le(es[i].key, key) {
        assert es[i] == es[1..][i - 1];
      }
    }
  }

  /** The written insert keeps the list sorted. */
  lemma InsertedSorted<V>(es: seq<Entry<V>>, key: Key, value: V)
    requires Sorted(es)
    ensures Sorted(Inserted(es, key, value))
  {
    PlaceBounds(es, key);
    OrderFacts();
    hide Compare, Le, Place;
  }

  lemma InsertedAt<V>(es: seq<Entry<V>>, key: Key, value: V, p: nat)
    requires Sorted(es) && p <= |es|
    requires forall i :: 0 <= i < p ==> Le(es[i].key, key)
    requires p < |es| ==> !Le(es[p].key, key)
    ensures Inserted(es, key, value) == PutAt(es, p, Entry(key, value)) && Sorted(PutAt(es, p, Entry(key, value)))
  {
    PlaceSplits(es, key, p);
    InsertedSorted(es, key, value);
  }

  lemma {:induction false} FindSkips<V>(a: seq<Entry<V>>, b: seq<Entry<V>>, key: Key)
    ensures Find(a + b, key) == if Find(a, key).Some? then Find(a, key) else Find(b, key)
  {
    if a == [] {
      assert a + b == b;
    } else {
      assert (a + b)[1..] == a[1..] + b;
      FindSkips(a[1..], b, key);
    }
  }

  lemma {:induction false} FindAbsent<V>(es: seq<Entry<V>>, key: Key)
    ensures Find(es, key).None? <==> forall i :: 0 <= i < |es| ==> es[i].key != key
  {
    if es != [] {
      FindAbsent(es[1..], key);
      assert forall i :: 1 <= i < |es| ==> es[i] == es[1..][i - 1];
    }
  }

  /** The written insert never replaces a value: a search finds what it found before, except that a key
      that was absent is now found with the new value. */
  lemma FindAfterInsert<V>(es: seq<Entry<V>>, key: Key, value: V, other: Key)
    requires Sorted(es)
    ensures Find(Inserted(es, key, value), other)
         == if other == key && Find(es, key).None? then Some(value) else Find(es, other)
  {
    var p := Place(es, key);
    PlaceBounds(es, key);
    FindSkips(es[..p] + [Entry(key, value)], es[p..], other);
    FindSkips(es[..p], [Entry(key, value)], other);
    assert es[..p] + es[p..] == es;
    FindSkips(es[..p], es[p..], other);
    FindAbsent(es[p..], key);
    TotalOrder(key, key, key);
    assert Find([Entry(key, value)], other) == if other == key then Some(value) else None by {
      assert [Entry(key, value)][1..] == [];
    }
  }

  /** Where a walk to the last strictly smaller key ends, the linear scan is decided. */
  lemma {:induction false} FindAt<V>(es: seq<Entry<V>>, key: Key, p: nat)
    requires Sorted(es) && p <= |es|
    requires forall i :: 0 <= i < p ==> !Le(key, es[i].key)
    requires p < |es| ==> Le(key, es[p].key)
    ensures Find(es, key) == if p < |es| && es[p].key == key then Some(es[p].value) else None
  {
    OrderFacts();
    hide Compare, Le;
    if p > 0 {
      forall i | 0 <= i < p - 1 ensures !Le(key, es[1..][i].key) { assert es[1..][i] == es[i + 1]; }
      FindAt(es[1..], key, p - 1);
    } else {
      FindAbsent(es, key);
    }
  }

  // ----- What insert and delete do once their walk has stopped

  /** Lines 80-110, with the entry after the walk at position p: update an equal key, or put the entry in. */
  function SetAt<V>(es: seq<Entry<V>>, p: nat, key: Key, value: V): seq<Entry<V>>
    requires p <= |es|
  {
    if p < |es| && es[p].key == key then es[p := Entry(key, value)] else PutAt(es, p, Entry(key, value))
  }

  /** Lines 166-190: remove an equal key. */
  function DropAt<V>(es: seq<Entry<V>>, p: nat, key: Key): seq<Entry<V>>
    requires p <= |es|
  {
    if p < |es| && es[p].key == key then es[..p] + es[p + 1..] else es
  }

  /** The walk as written stops past every equal key, so nothing is ever updated or removed. */
  lemma WalkMissesKey<V>(es: seq<Entry<V>>, key: Key)
    requires Sorted(es)
    ensures forall value :: SetAt(es, Place(es, key), key, value) == Inserted(es, key, value)
    ensures DropAt(es, Place(es, key), key) == es
  {
    OrderFacts();
    PlaceBounds(es, key);
    var p := Place(es, key);
    if p < |es| {
      assert !Le(es[p].key, key);
      assert es[p].key != key;
    }
  }

  // ----- Every run of calls, as the code is written

  /** An insert that found memory, one that did not, or a delete. */
  datatype Call<V> = Insert(key: Key, value: V) | InsertWithoutMemory(key: Key, value: V) | Delete(key: Key)

  function AfterOne<V>(es: seq<Entry<V>>, call: Call<V>): seq<Entry<V>> {
    match call
    case Insert(key, value) => SetAt(es, Place(es, key), key, value)
    case InsertWithoutMemory(_, _) => es
    case Delete(key) => DropAt(es, Place(es, key), key)
  }

  function After<V>(calls: seq<Call<V>>): seq<Entry<V>> {
    if calls == [] then [] else AfterOne(After(calls[..|calls| - 1]), calls[|calls| - 1])
  }

  function FirstInserted<V>(calls: seq<Call<V>>, key: Key): Option<V> {
    if calls == [] then None
    else if calls[0].Insert? && calls[0].key == key then Some(calls[0].value)
    else FirstInserted(calls[1..], key)
  }

  function InsertCount<V>(calls: seq<Call<V>>): nat {
    if calls == [] then 0 else InsertCount(calls[..|calls| - 1]) + if calls[|calls| - 1].Insert? then 1 else 0
  }

  lemma {:induction false} FirstInsertedOfPrefix<V>(calls: seq<Call<V>>, last: Call<V>, key: Key)
    ensures FirstInserted(calls + [last], key)
         == if FirstInserted(calls, key).Some? then FirstInserted(calls, key)
            else if last.Insert? && last.key == key then Some(last.value) else None
  {
    if calls == [] {
      assert (calls + [last])[1..] == [];
    } else {
      assert (calls + [last])[1..] == calls[1..] + [last];
      FirstInsertedOfPrefix(calls[1..], last, key);
    }
  }

  /** After any run the index is sorted, holds one entry per successful insert, and answers every search with the
      value of the first successful insert of that key, whatever was inserted or deleted later. */
  lemma {:induction false} FirstWriterWins<V>(calls: seq<Call<V>>, key: Key)
    ensures Sorted(After(calls))
    ensures |After(calls)| == InsertCount(calls)
    ensures Find(After(calls), key) == FirstInserted(calls, key)
  {
    if calls != [] {
      var front, last := calls[..|calls| - 1], calls[|calls| - 1];
      assert calls == front + [last];
      FirstWriterWins(front, key);
      FirstInsertedOfPrefix(front, last, key);
      WalkMissesKey(After(front), last.key);
      if last.Insert? {
        InsertedSorted(After(front), last.key, last.value);
        FindAfterInsert(After(front), last.key, last.value, key);
      }
    }
  }
}

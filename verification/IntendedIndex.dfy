/** The index as its names intend it, which is not how skiplist_simple_version.c is written: insert (line 70) and delete
    (line 158) stop where search does (line 124), before an equal key, and then do what lines 80-110 and 166-190 say.
    The value of an entry is None once an update has freed the old value and found no memory for the new one. */
module IntendedIndex {
  import opened Entries
  import opened KeyOrder
  import opened Options

  /** Where search's walk stops: before the first key that is not smaller. */
  function Front<V>(es: seq<Entry<V>>, key: Key): (p: nat)
    ensures p <= |es|
  {
    if es == [] || Le(key, es[0].key) then 0 else 1 + Front(es[1..], key)
  }

  ghost predicate Rising<V>(es: seq<Entry<V>>) {
    forall i, j :: 0 <= i < j < |es| ==> !Le(es[j].key, es[i].key)
  }

  /** Lines 81-84 without memory: the value of an equal key is lost. */
  function LoseAt<V>(es: seq<Entry<Option<V>>>, p: nat, key: Key): seq<Entry<Option<V>>>
    requires p <= |es|
  {
    if p < |es| && es[p].key == key then SetAt(es, p, key, None) else es
  }

  function Intended<V>(calls: seq<Call<V>>): seq<Entry<Option<V>>> {
    if calls == [] then []
    else
      var es := Intended(calls[..|calls| - 1]);
      match calls[|calls| - 1]
      case Insert(key, value) => SetAt(es, Front(es, key), key, Some(value))
      case InsertWithoutMemory(key, _) => LoseAt(es, Front(es, key), key)
      case Delete(key) => DropAt(es, Front(es, key), key)
  }

  /** What a search can answer with: nothing for an absent key, and nothing for a lost value, whose pointer is null and
      would be copied from at line 139. */
  function Answer<V>(es: seq<Entry<Option<V>>>, key: Key): Option<V> {
    match Find(es, key) case Some(value) => value case None => None
  }

  /** The map the calls describe. */
  function Described<V>(calls: seq<Call<V>>): map<Key, V> {
    if calls == [] then map[]
    else
      var m := Described(calls[..|calls| - 1]);
      match calls[|calls| - 1]
      case Insert(key, value) => m[key := value]
      case InsertWithoutMemory(_, _) => m
      case Delete(key) => m - {key}
  }

  function Lookup<V>(m: map<Key, V>, key: Key): Option<V> { if key in m then Some(m[key]) else None }

  /** Whether the last call that changed a present key was an insert without memory. */
  predicate Lost<V>(calls: seq<Call<V>>, key: Key) {
    if calls == [] then false
    else
      var front, last := calls[..|calls| - 1], calls[|calls| - 1];
      if last.key != key then Lost(front, key)
      else last.InsertWithoutMemory? && key in Described(front)
  }

  lemma {:induction false} FrontSplits<V>(es: seq<Entry<V>>, key: Key)
    requires Rising(es)
    ensures forall i :: 0 <= i < Front(es, key) ==> !Le(key, es[i].key)
    ensures forall i :: Front(es, key) <= i < |es| ==> Le(key, es[i].key)
  {
    OrderFacts();
    hide Compare, Le;
    if es != [] && !Le(key, es[0].key) {
      FrontSplits(es[1..], key);
      forall i | Front(es, key) <= i < |es| ensures Le(key, es[i].key) {
        assert es[i] == es[1..][i - 1];
      }
      forall i | 0 <= i < Front(es, key) ensures !Le(key, es[i].key) {
        if i > 0 {
          assert es[i] == es[1..][i - 1];
        }
      }
    } else if es != [] {
      forall i | 0 <= i < |es| ensures Le(key, es[i].key) {
        if i > 0 {
          assert !Le(es[i].key, es[0].key);
        }
      }
    }
  }

  /** Both changes keep the keys rising. */
  lemma SetStaysRising<V>(es: seq<Entry<V>>, key: Key, value: V)
    requires Rising(es)
    ensures Rising(SetAt(es, Front(es, key), key, value))
  {
    OrderFacts();
    FrontSplits(es, key);
    hide Compare, Le, Front;
    var p := Front(es, key);
    if p < |es| {
      assert Le(key, es[p].key);
      assert es[p].key != key ==> !Le(es[p].key, key);
    }
    forall j | p < j < |es| ensures !Le(es[j].key, key) {
      assert !Le(es[j].key, es[p].key);
    }
  }

  lemma DropStaysRising<V>(es: seq<Entry<V>>, key: Key)
    requires Rising(es)
    ensures Rising(DropAt(es, Front(es, key), key))
  {
    hide Le, Front;
  }

  /** An entry of a rising list is the one a search finds. */
  lemma {:induction false} FindIs<V>(es: seq<Entry<V>>, i: nat)
    requires Rising(es) && i < |es|
    ensures Find(es, es[i].key) == Some(es[i].value)
  {
    if i > 0 {
      assert !Le(es[i].key, es[0].key);
      OrderFacts();
      FindIs(es[1..], i - 1);
    }
  }

  /** Changing one key leaves what is found under the others. */
  lemma FindOther<V>(a: seq<Entry<V>>, b: seq<Entry<V>>, key: Key, other: Key)
    requires Rising(a) && Rising(b) && other != key
    requires forall e <- a :: e.key == key || e in b
    requires forall e <- b :: e.key == key || e in a
    ensures Find(a, other) == Find(b, other)
  {
    if i :| 0 <= i < |a| && a[i].key == other {
      FindIs(a, i);
      assert a[i] in b;
      var j :| 0 <= j < |b| && b[j] == a[i];
      FindIs(b, j);
    } else {
      FindAbsent(a, other);
      FindAbsent(b, other);
    }
  }

  lemma SetKeepsOthers<V>(es: seq<Entry<V>>, p: nat, key: Key, value: V, e: Entry<V>)
    requires p <= |es| && e in es && e.key != key
    ensures e in SetAt(es, p, key, value)
  {
    var i :| 0 <= i < |es| && es[i] == e;
    var now := SetAt(es, p, key, value);
    if |now| == |es| || i < p { assert now[i] == e; } else { assert now[i + 1] == e; }
  }

  lemma SetAddsOne<V>(es: seq<Entry<V>>, p: nat, key: Key, value: V)
    requires p <= |es|
    ensures forall e <- SetAt(es, p, key, value) :: e.key == key || e in es
    ensures p < |SetAt(es, p, key, value)| && SetAt(es, p, key, value)[p] == Entry(key, value)
  {
  }

  lemma FindAfterSet<V>(es: seq<Entry<V>>, key: Key, value: V, other: Key)
    requires Rising(es)
    ensures var now := SetAt(es, Front(es, key), key, value);
            Find(now, other) == if other == key then Some(value) else Find(es, other)
  {
    var p, now := Front(es, key), SetAt(es, Front(es, key), key, value);
    SetStaysRising(es, key, value);
    SetAddsOne(es, p, key, value);
    FindIs(now, p);
    if other != key {
      forall e | e in es ensures e.key == key || e in now {
        if e.key != key {
          SetKeepsOthers(es, p, key, value, e);
        }
      }
      hide SetAt, Front, Rising;
      FindOther(es, now, key, other);
    }
  }

  /** What comes after the place of a key is larger, and what comes before is smaller. */
  lemma FoundAtFront<V>(es: seq<Entry<V>>, key: Key, i: nat)
    requires Rising(es) && i < |es| && es[i].key == key
    ensures Front(es, key) == i
  {
    OrderFacts();
    var p := Front(es, key);
    assert Le(key, es[i].key) && (p < i ==> !Le(key, es[p].key));
    FrontSplits(es, key);
  }

  /** Only the entry with the key goes. */
  lemma DropKeepsOthers<V>(es: seq<Entry<V>>, p: nat, key: Key, e: Entry<V>)
    requires p <= |es| && e in es && e.key != key
    ensures e in DropAt(es, p, key)
  {
    var i :| 0 <= i < |es| && es[i] == e;
    var now := DropAt(es, p, key);
    if |now| == |es| || i < p { assert now[i] == e; } else { assert now[i - 1] == e; }
  }

  /** What is left at each position. */
  lemma DropAtIs<V>(es: seq<Entry<V>>, p: nat, key: Key, i: nat)
    requires p <= |es| && i < |DropAt(es, p, key)|
    ensures var dropped := p < |es| && es[p].key == key;
            var j := if dropped && i >= p then i + 1 else i;
            j < |es| && DropAt(es, p, key)[i] == es[j] && (dropped ==> j != p)
  {
  }

  lemma KeyIsGone<V>(es: seq<Entry<V>>, key: Key, i: nat)
    requires Rising(es) && i < |DropAt(es, Front(es, key), key)|
    ensures DropAt(es, Front(es, key), key)[i].key != key && DropAt(es, Front(es, key), key)[i] in es
  {
    var p := Front(es, key);
    hide DropAt, Front, Rising;
    DropAtIs(es, p, key, i);
    var j := if p < |es| && es[p].key == key && i >= p then i + 1 else i;
    if es[j].key == key {
      FoundAtFront(es, key, j);
    }
  }

  lemma FindAfterDrop<V>(es: seq<Entry<V>>, key: Key, other: Key)
    requires Rising(es)
    ensures var now := DropAt(es, Front(es, key), key);
            Find(now, other) == if other == key then None else Find(es, other)
  {
    var now := DropAt(es, Front(es, key), key);
    DropStaysRising(es, key);
    forall i | 0 <= i < |now| ensures now[i].key != key && now[i] in es {
      KeyIsGone(es, key, i);
    }
    forall e | e in es ensures e.key == key || e in now {
      if e.key != key {
        DropKeepsOthers(es, Front(es, key), key, e);
      }
    }
    hide DropAt, Front, Rising;
    if other != key {
      FindOther(es, now, key, other);
    } else {
      FindAbsent(now, key);
    }
  }

  lemma FindAfterLose<V>(es: seq<Entry<Option<V>>>, key: Key, other: Key)
    requires Rising(es)
    ensures var now := LoseAt(es, Front(es, key), key);
            && Rising(now)
            && Find(now, other) == if other == key && Find(es, key).Some? then Some(None) else Find(es, other)
  {
    var p := Front(es, key);
    if p < |es| && es[p].key == key {
      SetStaysRising(es, key, None);
      FindAfterSet(es, key, None, other);
      FindIs(es, p);
    } else {
      forall i | 0 <= i < |es| ensures es[i].key != key {
        if es[i].key == key {
          FoundAtFront(es, key, i);
        }
      }
      FindAbsent(es, key);
    }
  }

  /** Stopping where search stops, after any run of calls a search finds exactly the keys the calls describe, each once
      and with the value described unless that was lost. */
  lemma {:induction false} IntendedFinds<V>(calls: seq<Call<V>>, key: Key)
    ensures Rising(Intended(calls))
    ensures Find(Intended(calls), key).Some? <==> key in Described(calls)
    ensures Answer(Intended(calls), key) == if Lost(calls, key) then None else Lookup(Described(calls), key)
    ensures Lost(calls, key) ==> key in Described(calls)
  {
    if calls != [] {
      var front, last := calls[..|calls| - 1], calls[|calls| - 1];
      IntendedFinds(front, key);
      match last
      case Insert(k, value) =>
        SetStaysRising(Intended(front), k, Some(value));
        FindAfterSet(Intended(front), k, Some(value), key);
      case InsertWithoutMemory(k, _) =>
        FindAfterLose(Intended(front), k, key);
      case Delete(k) =>
        DropStaysRising(Intended(front), k);
        FindAfterDrop(Intended(front), k, key);
    }
  }

  ghost predicate IsMap<V>(calls: seq<Call<V>>) {
    forall key :: Answer(Intended(calls), key) == Lookup(Described(calls), key)
  }

  /** No insert of a present key runs out of memory. */
  ghost predicate NoFailedUpdate<V>(calls: seq<Call<V>>) {
    forall i :: 0 <= i < |calls| && calls[i].InsertWithoutMemory? ==> calls[i].key !in Described(calls[..i])
  }

  lemma {:induction false} NothingLost<V>(calls: seq<Call<V>>, n: nat, key: Key)
    requires NoFailedUpdate(calls) && n <= |calls|
    ensures !Lost(calls[..n], key)
  {
    if n > 0 {
      assert calls[..n][..n - 1] == calls[..n - 1];
      NothingLost(calls, n - 1, key);
    } else {
      assert calls[..0] == [];
    }
  }

  /** At every point of a run the index is the map the calls describe exactly when no insert of a present key runs out
      of memory. */
  lemma IntendedIsMapIff<V>(calls: seq<Call<V>>)
    ensures (forall n :: 0 <= n <= |calls| ==> IsMap(calls[..n])) <==> NoFailedUpdate(calls)
  {
    if NoFailedUpdate(calls) {
      forall n, key | 0 <= n <= |calls|
        ensures Answer(Intended(calls[..n]), key) == Lookup(Described(calls[..n]), key)
      {
        IntendedFinds(calls[..n], key);
        NothingLost(calls, n, key);
      }
    } else {
      var i :| 0 <= i < |calls| && calls[i].InsertWithoutMemory? && calls[i].key in Described(calls[..i]);
      var now, key := calls[..i + 1], calls[i].key;
      assert now[..i] == calls[..i];
      IntendedFinds(now, key);
      assert Lost(now, key) && key in Described(now);
      assert !IsMap(now);
    }
  }

  // ----- When the index as written agrees with the map

  /** The calls with other values: values[i] for the i-th. */
  function Revalued<V>(calls: seq<Call<V>>, values: seq<V>): (r: seq<Call<V>>)
    requires |values| == |calls|
    ensures |r| == |calls|
  {
    if calls == [] then []
    else
      var n := |calls| - 1;
      Revalued(calls[..n], values[..n]) +
      [match calls[n]
       case Insert(key, _) => Insert(key, values[n])
       case InsertWithoutMemory(key, _) => InsertWithoutMemory(key, values[n])
       case Delete(key) => Delete(key)]
  }

  predicate EverInserted<V>(calls: seq<Call<V>>, key: Key) {
    calls != [] &&
    ((calls[|calls| - 1].Insert? && calls[|calls| - 1].key == key) || EverInserted(calls[..|calls| - 1], key))
  }

  /** Whether a successful insert or a delete of the key follows its first successful insert. */
  predicate Followed<V>(calls: seq<Call<V>>, key: Key) {
    if calls == [] then false
    else
      var front, last := calls[..|calls| - 1], calls[|calls| - 1];
      Followed(front, key) || (EverInserted(front, key) && last.key == key && !last.InsertWithoutMemory?)
  }

  /** Values that tell the first insert of a key from the later ones. */
  function Telling<V>(calls: seq<Call<V>>, key: Key, v0: V, v1: V): (values: seq<V>)
    ensures |values| == |calls|
  {
    if calls == [] then []
    else Telling(calls[..|calls| - 1], key, v0, v1) + [if EverInserted(calls[..|calls| - 1], key) then v1 else v0]
  }

  lemma {:induction false} WrittenFinds<V>(calls: seq<Call<V>>, values: seq<V>, key: Key)
    requires |values| == |calls|
    ensures var r := Revalued(calls, values);
            && (FirstInserted(r, key).Some? <==> EverInserted(calls, key))
            && (!Followed(calls, key) ==> FirstInserted(r, key) == Lookup(Described(r), key))
  {
    if calls != [] {
      var n := |calls| - 1;
      var front := Revalued(calls[..n], values[..n]);
      var r := Revalued(calls, values);
      WrittenFinds(calls[..n], values[..n], key);
      assert r[..n] == front && r == front + [r[n]];
      FirstInsertedOfPrefix(front, r[n], key);
    }
  }

  lemma {:induction false} TellingDiffers<V>(calls: seq<Call<V>>, key: Key, v0: V, v1: V)
    requires v0 != v1
    ensures var r := Revalued(calls, Telling(calls, key, v0, v1));
            && FirstInserted(r, key) == (if EverInserted(calls, key) then Some(v0) else None)
            && (Followed(calls, key) ==> Lookup(Described(r), key) != Some(v0))
            && (Followed(calls, key) ==> EverInserted(calls, key))
  {
    if calls != [] {
      var n := |calls| - 1;
      var values := Telling(calls, key, v0, v1);
      var front, r := Revalued(calls[..n], Telling(calls[..n], key, v0, v1)), Revalued(calls, values);
      TellingDiffers(calls[..n], key, v0, v1);
      assert values[..n] == Telling(calls[..n], key, v0, v1);
      assert r[..n] == front && r == front + [r[n]];
      FirstInsertedOfPrefix(front, r[n], key);
    }
  }

  /** For a schedule of calls, a search of the index as written agrees with the map described, for all values, exactly
      when no successful insert and no delete of the key follows its first successful insert. */
  lemma WrittenAgreesIff<V>(calls: seq<Call<V>>, key: Key, v0: V, v1: V)
    requires v0 != v1
    ensures (forall values :: |values| == |calls| ==>
               var r := Revalued(calls, values); Find(After(r), key) == Lookup(Described(r), key))
       <==> !Followed(calls, key)
  {
    if !Followed(calls, key) {
      forall values | |values| == |calls|
        ensures var r := Revalued(calls, values); Find(After(r), key) == Lookup(Described(r), key)
      {
        WrittenFinds(calls, values, key);
        FirstWriterWins(Revalued(calls, values), key);
      }
    } else {
      var values := Telling(calls, key, v0, v1);
      var r := Revalued(calls, values);
      TellingDiffers(calls, key, v0, v1);
      FirstWriterWins(r, key);
      assert Find(After(r), key) != Lookup(Described(r), key);
    }
  }
}

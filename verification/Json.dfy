/** The JSON arrays and objects the role handlers edit in place: src/components/utils/json.c, and the array loops
    that src/components/api/api_rbac.c writes out for itself. */
module Json {
  import opened Options
  import opened CrossReferences

  datatype Member<V> = Member(key: string, value: V)

  /** The value of the first member with this key. */
  function Get<V>(members: seq<Member<V>>, key: string): Option<V> {
    if members == [] then None
    else if members[0].key == key then Some(members[0].value)
    else Get(members[1..], key)
  }

  ghost predicate DistinctKeys<V>(members: seq<Member<V>>) {
    forall i, j :: 0 <= i < j < |members| ==> members[i].key != members[j].key
  }

  /** The members with this key's value replaced, or with a new last member. */
  function Put<V>(members: seq<Member<V>>, key: string, value: V): seq<Member<V>> {
    if members == [] then [Member(key, value)]
    else if members[0].key == key then [Member(key, value)] + members[1..]
    else [members[0]] + Put(members[1..], key, value)
  }

  lemma {:induction false} PutAt<V>(members: seq<Member<V>>, key: string, value: V, i: nat)
    requires i <= |members| && (i < |members| ==> members[i].key == key)
    requires forall j :: 0 <= j < i ==> members[j].key != key
    ensures i < |members| ==> Put(members, key, value) == members[i := Member(key, value)]
    ensures i == |members| ==> Put(members, key, value) == members + [Member(key, value)]
  {
    if i > 0 {
      assert forall j :: 0 <= j < i - 1 ==> members[1..][j] == members[j + 1];
      PutAt(members[1..], key, value, i - 1);
      assert members == [members[0]] + members[1..];
    }
  }

  lemma {:induction false} MembersOfPut<V>(members: seq<Member<V>>, key: string, value: V)
    ensures forall m <- Put(members, key, value) :: m == Member(key, value) || m in members
    ensures DistinctKeys(members) ==> DistinctKeys(Put(members, key, value))
  {
    if members != [] && members[0].key != key {
      var rest := Put(members[1..], key, value);
      MembersOfPut(members[1..], key, value);
      assert forall m <- members[1..] :: m in members;
      if DistinctKeys(members) {
        assert forall m <- members[1..] :: m.key != members[0].key;
        assert forall m <- rest :: m.key != members[0].key;
      }
    }
  }

  /** Put changes this key and no other, and never repeats a key. */
  lemma {:induction false} GetPut<V>(members: seq<Member<V>>, key: string, value: V)
    ensures Get(Put(members, key, value), key) == Some(value)
    ensures forall other :: other != key ==> Get(Put(members, key, value), other) == Get(members, other)
    ensures forall m <- Put(members, key, value) :: m == Member(key, value) || m in members
    ensures DistinctKeys(members) ==> DistinctKeys(Put(members, key, value))
  {
    MembersOfPut(members, key, value);
    hide DistinctKeys;
    if members != [] && members[0].key != key {
      GetPut(members[1..], key, value);
      assert ([members[0]] + Put(members[1..], key, value))[1..] == Put(members[1..], key, value);
    }
  }

  class Object<V> {
    var members: seq<Member<V>>

    constructor (members: seq<Member<V>>)
      ensures this.members == members
    {
      this.members := members;
    }

    /** json_object_set. */
    method Set(key: string, value: V)
      modifies this
      ensures members == Put(old(members), key, value)
    {
      for i := 0 to |members|
        invariant members == old(members)
        invariant forall j :: 0 <= j < i ==> members[j].key != key
      {
        if members[i].key == key {
          PutAt(members, key, value, i);
          members := members[i := Member(key, value)];
          return;
        }
      }
      PutAt(members, key, value, |members|);
      members := members + [Member(key, value)];
    }

    /** json_object_remove: the first member with this key goes, the others keep their order. */
    method Remove(key: string)
      modifies this
      ensures forall i :: FirstWith(old(members), key, i) ==> members == old(members)[..i] + old(members)[i + 1..]
      ensures (forall m <- old(members) :: m.key != key) ==> members == old(members)
    {
      ghost var was := members;
      for i := 0 to |members|
        invariant members == was
        invariant forall j :: 0 <= j < i ==> members[j].key != key
      {
        if members[i].key == key {
          assert FirstWith(was, key, i);
          members := members[..i] + members[i + 1..];
          return;
        }
      }
    }

    /** The clearing loop of api_rbac.c, lines 1539-1544. The index is a 64-bit size_t: after each removal it wraps
        below zero and the loop step brings it back, so each round removes the member now in front. */
    method Clear()
      modifies this
      ensures members == []
    {
      var i := 0;
      while i < |members|
        invariant i == 0
        decreases |members|
      {
        var key := members[i].key;
        assert FirstWith(members, key, 0);
        Remove(key);
        i := (i + SIZE_LIMIT - 1) % SIZE_LIMIT;  // i--
        i := (i + 1) % SIZE_LIMIT;               // i++
      }
    }
  }

  const SIZE_LIMIT := 0x1_0000_0000_0000_0000

  ghost predicate FirstWith<V>(members: seq<Member<V>>, key: string, i: int) {
    0 <= i < |members| && members[i].key == key && forall j :: 0 <= j < i ==> members[j].key != key
  }

  /** A JSON array of ids. */
  class IdArray {
    var items: array<Id>
    var size: nat

    ghost predicate Valid() reads this { size <= items.Length }

    function Contents(): seq<Id>
      requires Valid()
      reads this, items
    {
      items[..size]
    }

    constructor (ids: seq<Id>)
      ensures Valid() && fresh(items) && Contents() == ids
    {
      items := new Id[|ids|](i requires 0 <= i < |ids| => ids[i]);
      size := |ids|;
    }

    /** The inner loop: everything after position j moves down by one. */
    method ShiftDown(j: nat)
      requires Valid() && j < size
      modifies this`size, items
      ensures Valid() && Contents() == old(Contents()[..j] + Contents()[j + 1..])
    {
      ghost var was := Contents();
      var k := j;
      while k < size - 1
        invariant j <= k < size == |was| <= items.Length
        invariant forall i :: 0 <= i < j ==> items[i] == was[i]
        invariant forall i :: j <= i < k ==> items[i] == was[i + 1]
        invariant forall i :: k <= i < size ==> items[i] == was[i]
      {
        items[k] := items[k + 1];
        k := k + 1;
      }
      size := size - 1;
      assert Contents() == was[..j] + was[j + 1..];
    }

    /** The loops of lines 654-665 and 1621-1631 of api_rbac.c: drop the first x, shifting the rest down. */
    method RemoveFirst(x: Id)
      requires Valid()
      modifies this`size, items
      ensures Valid() && Contents() == Removed(old(Contents()), x)
    {
      for j := 0 to size
        invariant Valid() && Contents() == old(Contents()) && size == old(size)
        invariant x !in Contents()[..j]
      {
        if items[j] == x {
          RemovedAt(Contents(), x, j);
          ShiftDown(j);
          return;
        }
      }
      RemovedNone(Contents(), x);
    }

    method Contains(x: Id) returns (found: bool)
      requires Valid()
      ensures found <==> x in Contents()
    {
      for j := 0 to size
        invariant x !in items[..j]
      {
        if items[j] == x {
          return true;
        }
      }
      return false;
    }

    /** json_array_append: the items move to a doubled array when the old one is full. */
    method Append(x: Id)
      requires Valid()
      modifies this, items
      ensures Valid() && (items == old(items) || fresh(items))
      ensures Contents() == old(Contents()) + [x]
    {
      if size >= items.Length {
        var bigger := new Id[if items.Length == 0 then 8 else items.Length * 2];
        for i := 0 to size
          invariant items == old(items) && Valid() && size == old(size) && size < bigger.Length
          invariant fresh(bigger) && bigger[..i] == items[..i] && items[..] == old(items[..])
        {
          bigger[i] := items[i];
        }
        items := bigger;
      }
      items[size] := x;
      size := size + 1;
    }
  }

  lemma {:induction false} RemovedAt(s: seq<Id>, x: Id, j: nat)
    requires j < |s| && s[j] == x && forall i :: 0 <= i < j ==> s[i] != x
    ensures Removed(s, x) == s[..j] + s[j + 1..]
  {
    if j > 0 {
      RemovedAt(s[1..], x, j - 1);
      assert s == [s[0]] + s[1..];
      assert s[..j] + s[j + 1..] == [s[0]] + (s[1..][..j - 1] + s[1..][j..]);
    }
  }

  lemma {:induction false} RemovedNone(s: seq<Id>, x: Id)
    requires x !in s
    ensures Removed(s, x) == s
  {
    if s != [] {
      RemovedNone(s[1..], x);
    }
  }
}

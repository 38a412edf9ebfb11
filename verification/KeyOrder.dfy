/** default_compare of trash/duplicate-implementations-2025-06-12/skiplist_simple_version.c, lines 13-19. */
module KeyOrder {

  newtype byte = x: int | 0 <= x < 256

  type Key = seq<byte>

  /** memcmp on two blocks of one length. */
  function MemCmp(a: Key, b: Key): int
    requires |a| == |b|
  {
    if a == [] then 0
    else if a[0] != b[0] then (a[0] as int) - (b[0] as int)
    else MemCmp(a[1..], b[1..])
  }

  function Compare(a: Key, b: Key): int {
    var minLen := if |a| < |b| then |a| else |b|;
    var cmp := MemCmp(a[..minLen], b[..minLen]);
    if cmp != 0 then cmp else if |a| < |b| then -1 else if |a| > |b| then 1 else 0
  }

  predicate Le(a: Key, b: Key) { Compare(a, b) <= 0 }

  // ----- The dictionary order, one byte at a time

  predicate Before(a: Key, b: Key) {
    b != [] && (a == [] || a[0] < b[0] || (a[0] == b[0] && Before(a[1..], b[1..])))
  }

  lemma {:induction false} CompareIsDictionaryOrder(a: Key, b: Key)
    ensures Compare(a, b) < 0 <==> Before(a, b)
    ensures Compare(a, b) > 0 <==> Before(b, a)
    ensures Compare(a, b) == 0 <==> a == b
  {
    if a != [] && b != [] && a[0] == b[0] {
      var m := if |a| < |b| then |a| else |b|;
      assert a[..m][1..] == a[1..][..m - 1] && b[..m][1..] == b[1..][..m - 1];
      assert a == [a[0]] + a[1..] && b == [b[0]] + b[1..];
      CompareIsDictionaryOrder(a[1..], b[1..]);
    }
  }

  lemma {:induction false} BeforeTransitive(a: Key, b: Key, c: Key)
    requires !Before(b, a) && !Before(c, b)
    ensures !Before(c, a)
  {
    if Before(c, a) && c != [] && b != [] && a[0] == b[0] == c[0] {
      BeforeTransitive(a[1..], b[1..], c[1..]);
    }
  }

  /** The comparison is a total order, and equal keys are the same key. */
  lemma TotalOrder(a: Key, b: Key, c: Key)
    ensures Compare(a, b) == 0 <==> a == b
    ensures Compare(a, b) < 0 <==> Compare(b, a) > 0
    ensures Le(a, b) && Le(b, c) ==> Le(a, c)
  {
    hide Compare;
    CompareIsDictionaryOrder(a, b);
    CompareIsDictionaryOrder(b, a);
    CompareIsDictionaryOrder(b, c);
    CompareIsDictionaryOrder(a, c);
    if Le(a, b) && Le(b, c) {
      BeforeTransitive(a, b, c);
    }
  }

  /** The order facts for every key at once, for proofs that keep Compare hidden. */
  lemma GreaterDiffers(a: Key, b: Key)
    requires !Le(a, b)
    ensures Compare(b, a) != 0
  {
    TotalOrder(a, b, b);
    CompareIsDictionaryOrder(a, b);
    CompareIsDictionaryOrder(b, a);
  }

  lemma OrderFacts()
    ensures forall a: Key, b: Key :: Compare(a, b) == 0 <==> a == b
    ensures forall a: Key, b: Key :: Compare(a, b) <= 0 <==> Le(a, b)
    ensures forall a: Key, b: Key :: Compare(a, b) < 0 <==> !Le(b, a)
    ensures forall a: Key, b: Key, c: Key :: Le(a, b) && Le(b, c) ==> Le(a, c)
  {
    hide Compare;
    forall a: Key, b: Key ensures (Compare(a, b) == 0 <==> a == b) && (Compare(a, b) < 0 <==> !Le(b, a)) {
      TotalOrder(a, b, b);
    }
    forall a: Key, b: Key, c: Key | Le(a, b) && Le(b, c) ensures Le(a, c) {
      TotalOrder(a, b, c);
    }
  }
}

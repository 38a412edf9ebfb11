/** Two sides of a many-to-many relation, each kept as a list of ids in the documents of the other side:
    a user's `roles` and a role's `users` in src/components/api/api_rbac.c. */
module CrossReferences {

  datatype Id = Id(uuid: string)
  type Lists = map<Id, seq<Id>>

  ghost predicate NoDups(s: seq<Id>) { forall i, j :: 0 <= i < j < |s| ==> s[i] != s[j] }

  /** Existing a is in b's list exactly when existing b is in a's. */
  ghost predicate Symmetric(left: Lists, right: Lists) {
    forall a, b :: a in left && b in right ==> (b in left[a] <==> a in right[b])
  }

  ghost predicate Linked(left: Lists, right: Lists) {
    && Symmetric(left, right)
    && (forall a :: a in left ==> NoDups(left[a]))
    && (forall b :: b in right ==> NoDups(right[b]))
  }

  /** The list without the first occurrence of x. */
  function Removed(s: seq<Id>, x: Id): seq<Id> {
    if s == [] then []
    else if s[0] == x then s[1..]
    else [s[0]] + Removed(s[1..], x)
  }

  function Added(s: seq<Id>, x: Id): seq<Id> { if x in s then s else s + [x] }

  /** The requested ids that exist, in the order requested. */
  function Existing(ids: seq<Id>, docs: set<Id>): seq<Id> {
    if ids == [] then []
    else if ids[|ids| - 1] in docs then Existing(ids[..|ids| - 1], docs) + [ids[|ids| - 1]]
    else Existing(ids[..|ids| - 1], docs)
  }

  /** Remove x from the list of every listed document that exists. */
  function DropFrom(right: Lists, ids: seq<Id>, x: Id): (r: Lists)
    ensures r.Keys == right.Keys
  {
    if ids == [] then right
    else
      var r, b := DropFrom(right, ids[..|ids| - 1], x), ids[|ids| - 1];
      if b in r then r[b := Removed(r[b], x)] else r
  }

  /** Add x to the list of every listed document that exists. */
  function AddTo(right: Lists, ids: seq<Id>, x: Id): (r: Lists)
    ensures r.Keys == right.Keys
  {
    if ids == [] then right
    else
      var r, b := AddTo(right, ids[..|ids| - 1], x), ids[|ids| - 1];
      if b in r then r[b := Added(r[b], x)] else r
  }

  lemma {:induction false} RemovedElements(s: seq<Id>, x: Id)
    requires NoDups(s)
    ensures NoDups(Removed(s, x)) && forall y :: y in Removed(s, x) <==> y in s && y != x
    ensures x !in s ==> Removed(s, x) == s
  {
    if s != [] {
      assert s == [s[0]] + s[1..];
      RemovedElements(s[1..], x);
      assert s[0] !in s[1..];
    }
  }

  lemma {:induction false} ExistingElements(ids: seq<Id>, docs: set<Id>)
    ensures forall y :: y in Existing(ids, docs) <==> y in ids && y in docs
    ensures NoDups(ids) ==> NoDups(Existing(ids, docs))
  {
    if ids != [] {
      var front, last := ids[..|ids| - 1], ids[|ids| - 1];
      ExistingElements(front, docs);
      assert ids == front + [last];
    }
  }

  /** Ids are kept one after the other, in order, each exactly when its document exists. */
  lemma {:induction false} ExistingConcat(a: seq<Id>, b: seq<Id>, docs: set<Id>)
    ensures Existing(a + b, docs) == Existing(a, docs) + Existing(b, docs)
    ensures forall x: Id :: Existing([x], docs) == if x in docs then [x] else []
  {
    forall x: Id ensures Existing([x], docs) == if x in docs then [x] else [] {
      assert [x][..0] == [];
    }
    if b == [] {
      assert a + b == a;
    } else {
      assert (a + b)[..|a + b| - 1] == a + b[..|b| - 1];
      ExistingConcat(a, b[..|b| - 1], docs);
    }
  }

  /** What dropping leaves in one list, for lists without duplicates. */
  lemma {:induction false} DropFromOne(right: Lists, ids: seq<Id>, x: Id, b: Id)
    requires b in right && NoDups(right[b])
    ensures DropFrom(right, ids, x)[b] == if b in ids then Removed(right[b], x) else right[b]
  {
    if ids != [] {
      var front, last := ids[..|ids| - 1], ids[|ids| - 1];
      DropFromOne(right, front, x, b);
      assert ids == front + [last];
      RemovedElements(right[b], x);
      RemovedElements(Removed(right[b], x), x);
    }
  }

  lemma {:induction false} AddToOne(right: Lists, ids: seq<Id>, x: Id, b: Id)
    requires b in right
    ensures AddTo(right, ids, x)[b] == if b in ids then Added(right[b], x) else right[b]
  {
    if ids != [] {
      var front, last := ids[..|ids| - 1], ids[|ids| - 1];
      AddToOne(right, front, x, b);
      assert ids == front + [last];
    }
  }

  /** The rewrite both handlers do: a leaves the lists it was named in, then enters those requested. */
  function Rewritten(right: Lists, was: seq<Id>, requested: seq<Id>, a: Id): (r: Lists)
    ensures r.Keys == right.Keys
  {
    AddTo(DropFrom(right, was, a), requested, a)
  }

  /** On a linked relation the rewrite gives every list exactly: a last if b was requested, and nothing else new. */
  lemma RewrittenOne(left: Lists, right: Lists, requested: seq<Id>, a: Id, b: Id)
    requires Linked(left, right) && a in left && b in right
    ensures Rewritten(right, left[a], requested, a)[b] == Removed(right[b], a) + if b in requested then [a] else []
  {
    DropFromOne(right, left[a], a, b);
    RemovedElements(right[b], a);
    AddToOne(DropFrom(right, left[a], a), requested, a, b);
  }

  /** The rewrite keeps the relation linked exactly when no existing id is requested twice. */
  lemma RewriteKeepsLinkedIff(left: Lists, right: Lists, requested: seq<Id>, a: Id)
    requires Linked(left, right) && a in left
    ensures var kept := Existing(requested, right.Keys);
            Linked(left[a := kept], Rewritten(right, left[a], requested, a)) <==> NoDups(kept)
    ensures Symmetric(left[a := Existing(requested, right.Keys)], Rewritten(right, left[a], requested, a))
  {
    var kept := Existing(requested, right.Keys);
    var left', right' := left[a := kept], Rewritten(right, left[a], requested, a);
    ExistingElements(requested, right.Keys);
    forall b | b in right
      ensures NoDups(right'[b])
      ensures forall x :: x in right'[b] <==> (x in right[b] && x != a) || (x == a && b in requested)
    {
      RewrittenOne(left, right, requested, a, b);
      RemovedElements(right[b], a);
    }
    hide Rewritten, Existing;
    assert Symmetric(left', right');
    if !NoDups(kept) {
      assert !NoDups(left'[a]);
    }
  }

  lemma Mirrored(left: Lists, right: Lists)
    ensures Linked(left, right) <==> Linked(right, left)
  {
  }

  // ----- The rewrite on any lists, with or without duplicates

  function Occurrences(s: seq<Id>, x: Id): (n: nat)
    ensures n > 0 <==> x in s
  {
    multiset(s)[x]
  }

  lemma OccurrencesAfter(s: seq<Id>, y: Id, x: Id)
    ensures Occurrences(s + [y], x) == Occurrences(s, x) + if x == y then 1 else 0
  {
  }

  /** Only one occurrence goes. */
  lemma {:induction false} RemovedCounts(s: seq<Id>, x: Id)
    ensures Occurrences(Removed(s, x), x) == if x in s then Occurrences(s, x) - 1 else 0
    ensures forall y :: y != x ==> (y in Removed(s, x) <==> y in s)
  {
    if s != [] {
      assert s == [s[0]] + s[1..];
      RemovedCounts(s[1..], x);
    }
  }

  /** x goes from a list once for each time the list's document is named. */
  lemma {:induction false} DropFromCounts(right: Lists, ids: seq<Id>, x: Id, b: Id)
    requires b in right
    ensures var had, named := Occurrences(right[b], x), Occurrences(ids, b);
            Occurrences(DropFrom(right, ids, x)[b], x) == if named < had then had - named else 0
    ensures forall y :: y != x ==> (y in DropFrom(right, ids, x)[b] <==> y in right[b])
  {
    if ids != [] {
      var front, last := ids[..|ids| - 1], ids[|ids| - 1];
      assert ids == front + [last];
      DropFromCounts(right, front, x, b);
      OccurrencesAfter(front, last, b);
      RemovedCounts(DropFrom(right, front, x)[b], x);
      hide Removed, Occurrences;
    }
  }

  lemma RewrittenHas(right: Lists, was: seq<Id>, requested: seq<Id>, a: Id, b: Id)
    requires b in right
    ensures var list := Rewritten(right, was, requested, a)[b];
            && (a in list <==> b in requested || Occurrences(was, b) < Occurrences(right[b], a))
            && forall y :: y != a ==> (y in list <==> y in right[b])
  {
    DropFromCounts(right, was, a, b);
    AddToOne(DropFrom(right, was, a), requested, a, b);
  }

  /** Each list that a no longer asks to be in names a no more often than a's own list names it. */
  ghost predicate Released(left: Lists, right: Lists, requested: seq<Id>, a: Id)
    requires a in left
  {
    forall b :: b in right && b !in requested ==> Occurrences(right[b], a) <= Occurrences(left[a], b)
  }

  /** On any symmetric relation, duplicates or not, the rewrite keeps it symmetric exactly when every list that a is to
      leave is emptied of it: a is removed once for each time its own list names the other. */
  lemma RewriteKeepsSymmetricIff(left: Lists, right: Lists, requested: seq<Id>, a: Id)
    requires Symmetric(left, right) && a in left
    ensures Symmetric(left[a := Existing(requested, right.Keys)], Rewritten(right, left[a], requested, a))
       <==> Released(left, right, requested, a)
  {
    var left', right' := left[a := Existing(requested, right.Keys)], Rewritten(right, left[a], requested, a);
    ExistingElements(requested, right.Keys);
    forall b | b in right
      ensures a in right'[b] <==> b in requested || Occurrences(left[a], b) < Occurrences(right[b], a)
      ensures forall y :: y != a ==> (y in right'[b] <==> y in right[b])
    {
      RewrittenHas(right, left[a], requested, a, b);
    }
    hide Rewritten, Existing, Occurrences;
    if !Released(left, right, requested, a) {
      var b :| b in right && b !in requested && !(Occurrences(right[b], a) <= Occurrences(left[a], b));
      assert a in right'[b] && b !in left'[a];
    }
  }

  lemma {:induction false} ExistingCounts(ids: seq<Id>, docs: set<Id>, x: Id)
    requires x in docs
    ensures Occurrences(Existing(ids, docs), x) == Occurrences(ids, x)
  {
    if ids != [] {
      var front, last := ids[..|ids| - 1], ids[|ids| - 1];
      assert ids == front + [last];
      ExistingCounts(front, docs, x);
      OccurrencesAfter(front, last, x);
      OccurrencesAfter(Existing(front, docs), last, x);
    }
  }

  lemma NoDupsOccursOnce(s: seq<Id>, x: Id)
    requires NoDups(s)
    ensures Occurrences(s, x) == if x in s then 1 else 0
    decreases |s|
  {
    if s != [] {
      assert s == [s[0]] + s[1..];
      NoDupsOccursOnce(s[1..], x);
    }
  }

  /** What a list holds after r was rewritten, on a linked relation. */
  lemma AfterFirst(left: Lists, right: Lists, first: seq<Id>, u: Id, r: Id, b: Id)
    requires Linked(left, right) && u in left && r in right && b in right
    ensures var left1 := Rewritten(left, right[r], first, r);
            Occurrences(left1[u], b) == if b == r then (if u in first then 1 else 0) else Occurrences(left[u], b)
  {
    Mirrored(left, right);
    RewrittenOne(right, left, first, r, u);
    RemovedElements(left[u], r);
    var rest := Removed(left[u], r);
    NoDupsOccursOnce(rest, b);
    NoDupsOccursOnce(left[u], b);
    OccurrencesAfter(rest, r, b);
    assert rest + [] == rest;
  }

  /** Why duplicates matter. From a linked relation, r asks for a list, and then u for another: the relation is
      symmetric afterwards exactly when r had asked for u at most once, or u asks for r again. */
  lemma TwoRewritesIff(left: Lists, right: Lists, r: Id, first: seq<Id>, u: Id, second: seq<Id>)
    requires Linked(left, right) && u in left && r in right
    ensures var left1, right1 := Rewritten(left, right[r], first, r), right[r := Existing(first, left.Keys)];
            var left2, right2 := left1[u := Existing(second, right1.Keys)], Rewritten(right1, left1[u], second, u);
            Symmetric(left2, right2) <==> Occurrences(first, u) <= 1 || r in second
  {
    var left1, right1 := Rewritten(left, right[r], first, r), right[r := Existing(first, left.Keys)];
    Mirrored(left, right);
    RewriteKeepsLinkedIff(right, left, first, r);
    SymmetricMirrored(right1, left1);
    RewriteKeepsSymmetricIff(left1, right1, second, u);
    ExistingCounts(first, left.Keys, u);
    forall b | b in right
      ensures b != r ==> Occurrences(right1[b], u) <= Occurrences(left1[u], b)
      ensures b == r ==> (Occurrences(right1[b], u) <= Occurrences(left1[u], b) <==> Occurrences(first, u) <= 1)
    {
      AfterFirst(left, right, first, u, r, b);
      NoDupsOccursOnce(right[b], u);
    }
    hide Rewritten, Existing, Occurrences, Symmetric;
  }

  lemma SymmetricMirrored(left: Lists, right: Lists)
    ensures Symmetric(left, right) <==> Symmetric(right, left)
  {
  }
}

/** Queries on a collection's documents: the db_find loop of trash/database_jdbx_only.c, lines 958-1031, over the skip
    list that holds them by id; and what db_update and db_delete do to that list. */
module Documents {
  import opened Entries
  import opened Json
  import opened KeyOrder
  import opened Options
  import opened SkipList

  /** A JSON value: a string, or anything else by its text. */
  datatype Value = Text(text: string) | Other(json: string)

  datatype Doc = Doc(members: seq<Member<Value>>)

  predicate Agrees(query: Doc, doc: Doc, key: string) {
    Get(doc.members, key).Some? && Get(doc.members, key) == Get(query.members, key)
  }

  /** Every field of the query is in the document with the query's value. */
  predicate Matches(query: Doc, doc: Doc) {
    forall f <- query.members :: Agrees(query, doc, f.key)
  }

  /** A document matches exactly when every field lookup the query answers, the document answers alike. */
  lemma MatchesIff(query: Doc, doc: Doc)
    ensures Matches(query, doc) <==>
            forall key, value :: Get(query.members, key) == Some(value) ==> Get(doc.members, key) == Some(value)
  {
    if Matches(query, doc) {
      forall key, value | Get(query.members, key) == Some(value) ensures Get(doc.members, key) == Some(value) {
        var f := GetIsMember(query.members, key);
        assert Agrees(query, doc, f.key);
      }
    } else {
      var f :| f in query.members && !Agrees(query, doc, f.key);
      MemberIsGot(query.members, f);
    }
  }

  lemma {:induction false} GetIsMember(members: seq<Member<Value>>, key: string) returns (f: Member<Value>)
    requires Get(members, key).Some?
    ensures f in members && f.key == key
  {
    if members[0].key == key {
      return members[0];
    }
    f := GetIsMember(members[1..], key);
  }

  lemma {:induction false} MemberIsGot(members: seq<Member<Value>>, f: Member<Value>)
    requires f in members
    ensures Get(members, f.key).Some?
  {
    if members[0].key != f.key {
      MemberIsGot(members[1..], f);
    }
  }

  /** The documents that match, in the order of the list; a null document never does. */
  function Matching(query: Doc, es: seq<Entry<Option<Doc>>>): (docs: seq<Doc>)
    ensures |docs| <= |es|
  {
    if es == [] then []
    else
      var e := es[|es| - 1];
      Matching(query, es[..|es| - 1]) + if e.value.Some? && Matches(query, e.value.value) then [e.value.value] else []
  }

  /** Entries are considered one after the other; */
  lemma {:induction false} MatchingConcat(query: Doc, a: seq<Entry<Option<Doc>>>, b: seq<Entry<Option<Doc>>>)
    ensures Matching(query, a + b) == Matching(query, a) + Matching(query, b)
  {
    hide Matches;
    if b == [] {
      assert a + b == a;
    } else {
      assert (a + b)[..|a + b| - 1] == a + b[..|b| - 1];
      MatchingConcat(query, a, b[..|b| - 1]);
    }
  }

  /** one gives its document when that matches, and otherwise nothing. */
  lemma MatchingOne(query: Doc, e: Entry<Option<Doc>>)
    ensures e.value.None? ==> Matching(query, [e]) == []
    ensures e.value.Some? ==> Matching(query, [e]) == if Matches(query, e.value.value) then [e.value.value] else []
  {
    hide Matches;
    assert [e][..0] == [];
  }

  /** The part of the matching documents that a query returns: without the first skip, and with at most limit of the
      rest, or all when limit is not positive. */
  function Page<T>(all: seq<T>, skip: int, limit: int): seq<T> {
    var from := if skip < 0 then 0 else if skip > |all| then |all| else skip;
    var rest := all[from..];
    if 0 < limit < |rest| then rest[..limit] else rest
  }

  /** Lines 985-1021. */
  method MatchesQuery(query: Doc, doc: Doc) returns (matches: bool)
    ensures matches == Matches(query, doc)
  {
    for i := 0 to |query.members|
      invariant forall f <- query.members[..i] :: Agrees(query, doc, f.key)
    {
      var field := query.members[i].key;
      var queryValue, docValue := Get(query.members, field), Get(doc.members, field);
      if docValue == None || docValue != queryValue {
        assert query.members[i] in query.members;
        return false;
      }
    }
    assert query.members[..|query.members|] == query.members;
    return true;
  }

  /** What the loop has kept of the first documents: the matches so far, less skip, until limit is reached. */
  ghost predicate Kept<T>(all: seq<T>, skip: int, limit: int, skipped: nat, results: seq<T>) {
    && skipped == (if skip < 0 then 0 else if skip < |all| then skip else |all|)
    && results == all[skipped..]
    && (limit > 0 ==> |results| <= limit)
  }

  lemma KeptNext<T>(all: seq<T>, x: T, skip: int, limit: int, skipped: nat, results: seq<T>)
    requires Kept(all, skip, limit, skipped, results) && (limit > 0 ==> |results| < limit)
    ensures skipped < skip ==> Kept(all + [x], skip, limit, skipped + 1, results)
    ensures skipped >= skip ==> Kept(all + [x], skip, limit, skipped, results + [x])
  {
    if skipped < skip {
      assert skipped == |all| && results == [];
    }
  }

  lemma {:induction false} MatchingPrefix(query: Doc, es: seq<Entry<Option<Doc>>>, n: nat)
    requires n <= |es|
    ensures Matching(query, es[..n]) <= Matching(query, es)
    decreases |es| - n
  {
    if n < |es| {
      MatchingPrefix(query, es, n + 1);
      assert es[..n + 1][..n] == es[..n];
    } else {
      assert es[..n] == es;
    }
  }

  lemma KeptIsPage<T>(front: seq<T>, all: seq<T>, skip: int, limit: int, skipped: nat, results: seq<T>)
    requires Kept(front, skip, limit, skipped, results) && front <= all
    requires front == all || (limit > 0 && |results| >= limit)
    ensures results == Page(all, skip, limit)
  {
  }

  /** The query object's fields; no query object, or one that is not an object, asks for nothing. */
  function Asked(query: Option<Doc>): Doc { if query.Some? then query.value else Doc([]) }

  /** The body of the loop for one entry, lines 976-1030; all lists the matches among the entries before it. */
  method Consider(query: Option<Doc>, value: Option<Doc>, limit: int, skip: int, skipped: nat, results: seq<Doc>,
                  ghost all: seq<Doc>)
    returns (skipped': nat, results': seq<Doc>)
    requires Kept(all, skip, limit, skipped, results) && (limit > 0 ==> |results| < limit)
    ensures Kept(all + if value.Some? && Matches(Asked(query), value.value) then [value.value] else [],
                 skip, limit, skipped', results')
  {
    skipped', results' := skipped, results;
    assert all + [] == all;
    if value.None? {
      return;
    }
    var doc := value.value;
    var matches := true;
    if query.Some? {
      matches := MatchesQuery(query.value, doc);
    }
    assert matches == Matches(Asked(query), doc);
    hide Matches, Asked;
    if matches {
      KeptNext(all, doc, skip, limit, skipped, results);
      if skipped < skip {
        skipped' := skipped + 1;
      } else {
        results' := results + [doc];
      }
    }
  }

  /** The matches among the first n entries. */
  function MatchingUpTo(query: Doc, es: seq<Entry<Option<Doc>>>, n: nat): seq<Doc> {
    Matching(query, if n < |es| then es[..n] else es)
  }

  lemma OneFurther(query: Doc, es: seq<Entry<Option<Doc>>>, n: nat)
    requires n < |es|
    ensures MatchingUpTo(query, es, n + 1) ==
            MatchingUpTo(query, es, n) +
            if es[n].value.Some? && Matches(query, es[n].value.value) then [es[n].value.value] else []
  {
    assert es[..n + 1][..n] == es[..n];
    assert n + 1 == |es| ==> es[..n + 1] == es;
  }

  /** One round of the loop, in terms of the entries seen. */
  method ConsiderNext(query: Option<Doc>, value: Option<Doc>, limit: int, skip: int, skipped: nat, results: seq<Doc>,
                      ghost es: seq<Entry<Option<Doc>>>, ghost n: nat)
    returns (skipped': nat, results': seq<Doc>)
    requires n < |es| && es[n].value == value && (limit > 0 ==> |results| < limit)
    requires Kept(MatchingUpTo(Asked(query), es, n), skip, limit, skipped, results)
    ensures Kept(MatchingUpTo(Asked(query), es, n + 1), skip, limit, skipped', results')
  {
    hide Kept, Matches, MatchingUpTo, Asked;
    OneFurther(Asked(query), es, n);
    skipped', results' := Consider(query, value, limit, skip, skipped, results, MatchingUpTo(Asked(query), es, n));
  }

  /** entry is what the iterator answers after n entries. */
  ghost predicate Fetched<T>(es: seq<T>, n: nat, entry: Option<T>) {
    n <= |es| && (if n < |es| then entry == Some(es[n]) else entry == None)
  }

  lemma FetchedIs<T>(es: seq<T>, n: nat, entry: Option<T>)
    requires Fetched(es, n, entry)
    ensures n <= |es| && (entry.Some? ==> n < |es| && entry.value == es[n]) && (entry.None? ==> n == |es|)
  {
  }

  /** n entries were taken from iter, which runs over es. */
  ghost predicate Taken(iter: Iterator<Option<Doc>>, es: seq<Entry<Option<Doc>>>, n: nat)
    reads iter, iter.list, iter.list.order
  {
    iter.Valid() && iter.list.contents == es && iter.pos == n + 1
  }

  method Fetch(iter: Iterator<Option<Doc>>, ghost es: seq<Entry<Option<Doc>>>, ghost n: nat)
    returns (entry: Option<Entry<Option<Doc>>>)
    requires Taken(iter, es, n) && n <= |es|
    modifies iter
    ensures Fetched(es, n, entry) && (n < |es| ==> Taken(iter, es, n + 1))
  {
    entry := iter.Next();
  }

  lemma Finished(asked: Doc, es: seq<Entry<Option<Doc>>>, n: nat, skip: int, limit: int, skipped: nat,
                 results: seq<Doc>)
    requires n <= |es| && Kept(MatchingUpTo(asked, es, n), skip, limit, skipped, results)
    requires n == |es| || (limit > 0 && |results| >= limit)
    ensures results == Page(Matching(asked, es), skip, limit)
  {
    hide Kept, Matching, Page;
    MatchingPrefix(asked, es, n);
    assert n == |es| ==> es[..n] == es;
    assert n < |es| ==> MatchingUpTo(asked, es, n) == Matching(asked, es[..n]);
    KeptIsPage(MatchingUpTo(asked, es, n), Matching(asked, es), skip, limit, skipped, results);
  }

  /** Lines 958-1031, on a list nothing else changes meanwhile. */
  method Find(list: List<Option<Doc>>, query: Option<Doc>, limit: int, skip: int) returns (results: seq<Doc>)
    requires list.Valid()
    ensures results == Page(Matching(Asked(query), list.contents), skip, limit)
  {
    ghost var asked, es := Asked(query), list.contents;
    assert Kept(MatchingUpTo(asked, es, 0), skip, limit, 0, []);
    hide Kept, Matching, MatchingUpTo, Matches, Page, Asked, Fetched;
    var iter := new Iterator<Option<Doc>>(list);
    assert Taken(iter, es, 0);
    hide Taken;
    results := [];
    var skipped := 0;
    ghost var n := 0;
    var entry := Fetch(iter, es, n);
    FetchedIs(es, n, entry);
    while entry.Some?
      invariant n <= |es| && (entry.Some? ==> n < |es| && entry.value == es[n]) && (entry.None? ==> n == |es|)
      invariant fresh(iter) && (n < |es| ==> Taken(iter, es, n + 1))
      invariant Kept(MatchingUpTo(asked, es, n), skip, limit, skipped, results)
      decreases |es| - n
    {
      if limit > 0 && |results| >= limit {
        Finished(asked, es, n, skip, limit, skipped, results);
        return;
      }
      skipped, results := ConsiderNext(query, entry.value.value, limit, skip, skipped, results, es, n);
      n := n + 1;
      entry := Fetch(iter, es, n);
      FetchedIs(es, n, entry);
    }
    Finished(asked, es, n, skip, limit, skipped, results);
  }

  // ----- Pages

  /** The first n pages of this size, one after the other. */
  function Pages<T>(all: seq<T>, size: nat, n: nat): seq<T> {
    if n == 0 then [] else Pages(all, size, n - 1) + Page(all, (n - 1) * size, size)
  }

  function UpTo<T>(all: seq<T>, n: nat): seq<T> { if n < |all| then all[..n] else all }

  lemma PageOf<T>(all: seq<T>, at: nat, size: nat)
    requires size > 0
    ensures UpTo(all, at) + Page(all, at, size) == UpTo(all, at + size)
  {
  }

  /** Without a positive limit all but the skipped ones are returned, and all when nothing is to be skipped; a limit
      cuts what is returned without it. */
  lemma PageWithoutLimit<T>(all: seq<T>, skip: int, limit: int)
    ensures skip <= 0 && limit <= 0 ==> Page(all, skip, limit) == all
    ensures 0 <= skip <= |all| && limit <= 0 ==> all[..skip] + Page(all, skip, limit) == all
    ensures skip > |all| ==> Page(all, skip, limit) == []
    ensures limit > 0 ==> Page(all, skip, limit) == UpTo(Page(all, skip, 0), limit)
  {
  }

  /** Successive pages of any positive size give every match once, in order. */
  lemma {:induction false} PagesConcatenate<T>(all: seq<T>, size: nat, n: nat)
    requires size > 0
    ensures Pages(all, size, n) == UpTo(all, n * size)
    ensures n * size >= |all| ==> Pages(all, size, n) == all
  {
    if n > 0 {
      var at := (n - 1) * size;
      assert n * size == at + size;
      PagesConcatenate(all, size, n - 1);
      PageOf(all, at, size);
      hide Page;
    }
  }

  // ----- Updates and deletes, on the list as it is written

  datatype Operation = Add(id: Key) | Update(id: Key) | Remove(id: Key)

  /** The calls made on the list of documents, and the documents given to json_free, in order. The list holds pointers;
      a document is numbered by the operation that made it. */
  datatype Store = Store(calls: seq<Call<nat>>, frees: seq<nat>)

  /** What the pointer search answers for an id. */
  function Found(s: Store, id: Key): Option<nat> { Entries.Find(After(s.calls), id) }

  /** db_insert (line 571), db_update (lines 668-669 and 796-806) and db_delete (lines 854-890); n numbers the
      operation. */
  function Performed(s: Store, op: Operation, n: nat): Store {
    match op
    case Add(id) => s.(calls := s.calls + [Insert(id, n)])
    case Update(id) =>
      var was := Found(s, id);
      if was.None? then s
      else Store(s.calls + [Delete(id)] + [Insert(id, n)], s.frees + [was.value])
    case Remove(id) =>
      var was := Found(s, id);
      Store(s.calls + [Delete(id)], if was.Some? then s.frees + [was.value] else s.frees)
  }

  function PerformedAll(ops: seq<Operation>): Store {
    if ops == [] then Store([], [])
    else Performed(PerformedAll(ops[..|ops| - 1]), ops[|ops| - 1], |ops| - 1)
  }

  /** The first operation that added the id. */
  function FirstAdded(ops: seq<Operation>, id: Key): (at: Option<nat>)
    ensures at.Some? ==> at.value < |ops| && ops[at.value] == Add(id)
  {
    if ops == [] then None
    else
      var n := |ops| - 1;
      var earlier := FirstAdded(ops[..n], id);
      if earlier.None? && ops[n] == Add(id) then Some(n) else earlier
  }

  /** How many updates and deletes of the id came after it was first added. */
  function Touches(ops: seq<Operation>, id: Key): nat {
    if ops == [] then 0
    else
      var n := |ops| - 1;
      var touches := ops[n] == Update(id) || ops[n] == Remove(id);
      Touches(ops[..n], id) + if FirstAdded(ops[..n], id).Some? && touches then 1 else 0
  }

  lemma FoundIsFirstInserted(s: Store, id: Key)
    ensures Found(s, id) == FirstInserted(s.calls, id)
  {
    FirstWriterWins(s.calls, id);
  }

  /** Whatever was updated or deleted, the search answers with the document first added. */
  lemma {:induction false} FoundIsFirstAdded(ops: seq<Operation>, id: Key)
    ensures Found(PerformedAll(ops), id) == FirstAdded(ops, id)
  {
    if ops != [] {
      var n := |ops| - 1;
      var front, op := ops[..n], ops[n];
      var s := PerformedAll(front);
      FoundIsFirstAdded(front, id);
      FoundIsFirstInserted(s, id);
      FoundIsFirstInserted(s, op.id);
      FoundIsFirstInserted(Performed(s, op, n), id);
      FirstInsertedOfPrefix(s.calls, Insert(op.id, n), id);
      FirstInsertedOfPrefix(s.calls, Delete(op.id), id);
      FirstInsertedOfPrefix(s.calls + [Delete(op.id)], Insert(op.id, n), id);
    } else {
      assert FirstInserted<nat>([], id) == None;
      FoundIsFirstInserted(PerformedAll([]), id);
    }
  }

  lemma {:induction false} OnlyOldAreFreed(ops: seq<Operation>)
    ensures forall p <- PerformedAll(ops).frees :: p < |ops|
  {
    if ops != [] {
      var n := |ops| - 1;
      OnlyOldAreFreed(ops[..n]);
      FoundIsFirstAdded(ops[..n], ops[n].id);
    }
  }

  /** An update or delete of a present id frees the document first added; nothing else frees any. */
  lemma FreesAfter(ops: seq<Operation>)
    requires ops != []
    ensures var front, op := ops[..|ops| - 1], ops[|ops| - 1];
            var was := FirstAdded(front, op.id);
            PerformedAll(ops).frees ==
            if op.Add? || was.None? then PerformedAll(front).frees else PerformedAll(front).frees + [was.value]
  {
    FoundIsFirstAdded(ops[..|ops| - 1], ops[|ops| - 1].id);
  }

  lemma TimesFreed(frees: seq<nat>, q: nat, p: nat)
    ensures multiset(frees + [q])[p] == multiset(frees)[p] + if p == q then 1 else 0
  {
  }

  lemma FirstAddedIsOfOneId(ops: seq<Operation>, id: Key, other: Key)
    requires FirstAdded(ops, id).Some? && FirstAdded(ops, id) == FirstAdded(ops, other)
    ensures id == other
  {
    assert ops[FirstAdded(ops, id).value] == Add(id) == Add(other);
  }

  lemma {:induction false} TimesTouched(ops: seq<Operation>, id: Key)
    requires FirstAdded(ops, id).Some?
    ensures multiset(PerformedAll(ops).frees)[FirstAdded(ops, id).value] == Touches(ops, id)
  {
    var n := |ops| - 1;
    var front, op := ops[..n], ops[n];
    var p := FirstAdded(ops, id).value;
    FreesAfter(ops);
    hide PerformedAll, Found;
    if FirstAdded(front, id).Some? {
      TimesTouched(front, id);
      if !op.Add? && FirstAdded(front, op.id).Some? {
        TimesFreed(PerformedAll(front).frees, FirstAdded(front, op.id).value, p);
        if FirstAdded(front, op.id).value == p {
          FirstAddedIsOfOneId(front, id, op.id);
        }
      }
    } else {
      OnlyOldAreFreed(front);
      assert n !in PerformedAll(front).frees;
      NotAddedNotTouched(front, id);
    }
  }

  /** The document found was freed once for each update and delete since it was added: it is a freed one exactly when
      there was any, and was freed twice exactly when there were two. */
  lemma FoundWasFreed(ops: seq<Operation>, id: Key)
    requires FirstAdded(ops, id).Some?
    ensures Found(PerformedAll(ops), id) == FirstAdded(ops, id)
    ensures multiset(PerformedAll(ops).frees)[FirstAdded(ops, id).value] == Touches(ops, id)
  {
    FoundIsFirstAdded(ops, id);
    TimesTouched(ops, id);
  }

  lemma {:induction false} NotAddedNotTouched(ops: seq<Operation>, id: Key)
    requires FirstAdded(ops, id).None?
    ensures Touches(ops, id) == 0
  {
    if ops != [] {
      NotAddedNotTouched(ops[..|ops| - 1], id);
    }
  }

  /** Right after an update or a delete the search answers as before, with a freed document exactly when the id was
      present; an update of a present id leaves one entry more, and a delete removes none. */
  lemma UpdateLeavesFreed(ops: seq<Operation>, op: Operation)
    requires !op.Add?
    ensures var before, after := PerformedAll(ops), PerformedAll(ops + [op]);
            && Found(after, op.id) == Found(before, op.id)
            && ((Found(after, op.id).Some? && Found(after, op.id).value in after.frees) <==> Found(before, op.id).Some?)
            && |After(after.calls)| == |After(before.calls)| + if op.Update? && Found(before, op.id).Some? then 1 else 0
  {
    var before := PerformedAll(ops);
    assert (ops + [op])[..|ops|] == ops;
    FoundIsFirstAdded(ops, op.id);
    FoundIsFirstAdded(ops + [op], op.id);
    Lengths(before.calls, op.id, |ops|);
  }

  lemma Lengths(calls: seq<Call<nat>>, id: Key, doc: nat)
    ensures |After(calls + [Delete(id)])| == |After(calls)|
    ensures |After(calls + [Delete(id)] + [Insert(id, doc)])| == |After(calls)| + 1
  {
    var deleted := calls + [Delete(id)];
    FirstWriterWins(calls, id);
    FirstWriterWins(deleted, id);
    FirstWriterWins(deleted + [Insert(id, doc)], id);
    assert deleted[..|calls|] == calls && (deleted + [Insert(id, doc)])[..|deleted|] == deleted;
  }
}

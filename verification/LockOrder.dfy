/** The locks of trash/database_jdbx_only.c, taken by any number of threads. A parent is released only after its child
    is taken, so deadlock freedom rests on the order in which locks are acquired, and what a lock guards is used only
    while it is held. */
module LockOrder {

  datatype Lock = Global | Creation | Library(lib: nat) | Collection(coll: nat)
  datatype Mode = Read | Write  // a mutex is always locked in mode Write

  /** Look and Change use what a lock guards: the global lock the set-up of the database, the creation mutex the
      insertion of libraries, a library's lock its collections, and a collection's lock its documents and indexes. */
  datatype Action = Acquire(lock: Lock, mode: Mode) | Release(lock: Lock) | Look(lock: Lock) | Change(lock: Lock)

  function Rank(l: Lock): nat {
    match l case Global => 0 case Creation => 1 case Library(_) => 2 case Collection(_) => 3
  }

  // ----- The lock sequences of the operations, one for each way through the code

  /** A lock is taken, something is done, and the lock is released. */
  function Section(l: Lock, mode: Mode, a: Action): seq<Action> { [Acquire(l, mode), a, Release(l)] }

  /** found: the search of line 126 succeeds. */
  function GetOrCreateLibrary(found: bool): seq<Action> {
    if found then [] else Section(Creation, Write, Change(Creation))
  }

  /** made: the library was found or created. */
  function GetOrCreateCollection(l: nat, found: bool, made: bool): seq<Action> {
    GetOrCreateLibrary(found) +
    if made then Section(Library(l), Write, Change(Library(l))) else []
  }

  /** What looking up a library and then a collection in it found. */
  datatype Found = Found(lib: bool, coll: bool)

  predicate Both(found: Found) { found.lib && found.coll }

  /** From a library that is held down to the collection, and what is done there. */
  function Enter(l: nat, c: nat, mode: Mode, work: Action): seq<Action> {
    [Acquire(Collection(c), mode), Release(Library(l)), work, Release(Collection(c))]
  }

  /** The library was searched for the collection. */
  function Finish(l: nat, c: nat, coll: bool, mode: Mode, work: Action): seq<Action> {
    if coll then Enter(l, c, mode, work) else [Release(Library(l))]
  }

  /** Lines 627-651 and 935-1035: hand over hand from the library to the collection. */
  function Lookup(l: nat, c: nat, found: Found): seq<Action> {
    if !found.lib then []
    else [Acquire(Library(l), Read), Look(Library(l))] + Finish(l, c, found.coll, Read, Look(Collection(c)))
  }

  /** Hand over hand from the global lock to the library. */
  function Down(l: nat): seq<Action> {
    [Acquire(Global, Read), Look(Global), Acquire(Library(l), Read), Release(Global), Look(Library(l))]
  }

  /** Lines 671-808, 832-892, 1060-1124, 1151-1213, 1229-1271 and 1340-1364: from the global lock downwards. */
  function Descend(l: nat, c: nat, found: Found, mode: Mode, work: Action): seq<Action> {
    if !found.lib then Section(Global, Read, Look(Global))
    else Down(l) + Finish(l, c, found.coll, mode, work)
  }

  function Visit(l: nat): seq<Action> { Section(Library(l), Read, Look(Library(l))) }

  function VisitAll(libs: seq<nat>): seq<Action> {
    if libs == [] then [] else Visit(libs[0]) + VisitAll(libs[1..])
  }

  datatype Creating = Creating(l: nat, found: bool, made: bool)

  function CreateAll(cs: seq<Creating>): seq<Action> {
    if cs == [] then [] else GetOrCreateCollection(cs[0].l, cs[0].found, cs[0].made) + CreateAll(cs[1..])
  }

  /** Lines 1340-1394, after both collections were seen to exist. */
  function CountDocuments(l: nat, users: nat, roles: nat, foundUsers: Found, foundRoles: Found): seq<Action> {
    Descend(l, users, foundUsers, Read, Look(Collection(users))) +
    if Both(foundUsers) then Descend(l, roles, foundRoles, Read, Look(Collection(roles))) else []
  }

  /** db_collection_exists, and what follows when the collection does exist. */
  function SeeThen(l: nat, seen: Found, rest: seq<Action>): seq<Action> {
    (if seen.lib then Visit(l) else []) + if Both(seen) then rest else []
  }

  /** The operations, each with the outcomes of its lookups. */
  datatype Operation =
    | Init(early: bool, system: bool, collections: seq<Creating>, standard: bool)
    | Shutdown
    | CreateCollection(creating: Creating)
    | CollectionExists(l: nat, lib: bool)
    | ListCollections(libs: seq<nat>)
    | Insert(creating: Creating, c: nat)
    | FindById(l: nat, c: nat, found: Found)
    | Find(l: nat, c: nat, found: Found)
    | Update(l: nat, c: nat, found: Found, doc: bool, again: Found)
    | Remove(l: nat, c: nat, found: Found)
    | CreateIndex(l: nat, c: nat, found: Found)
    | DropIndex(l: nat, c: nat, found: Found)
    | ListIndexes(l: nat, c: nat, found: Found)
    | NeedsBootstrap(l: nat, users: nat, roles: nat, usersSeen: Found, rolesSeen: Found, found: Found, again: Found)

  /** What initialisation does under the global lock. */
  function SetUp(system: bool, collections: seq<Creating>, standard: bool): seq<Action> {
    GetOrCreateLibrary(system) + CreateAll(collections) + GetOrCreateLibrary(standard)
  }

  function Program(op: Operation): seq<Action> {
    match op
    case Init(early, system, collections, standard) =>
      if early then Section(Global, Write, Look(Global))
      else
        [Acquire(Global, Write), Change(Global)] +
        (SetUp(system, collections, standard) + [Change(Global), Release(Global)])
    case Shutdown => Section(Global, Write, Change(Global))
    case CreateCollection(creating) => GetOrCreateCollection(creating.l, creating.found, creating.made)
    case CollectionExists(l, lib) => if lib then Visit(l) else []
    case ListCollections(libs) => VisitAll(libs)
    case Insert(creating, c) =>
      GetOrCreateCollection(creating.l, creating.found, creating.made) +
      if creating.made then Section(Collection(c), Write, Change(Collection(c))) else []
    case FindById(l, c, found) => Lookup(l, c, found)
    case Find(l, c, found) => Lookup(l, c, found)
    case Update(l, c, found, doc, again) =>
      Lookup(l, c, found) + if Both(found) && doc then Descend(l, c, again, Write, Change(Collection(c))) else []
    case Remove(l, c, found) => Descend(l, c, found, Write, Change(Collection(c)))
    case CreateIndex(l, c, found) => Descend(l, c, found, Write, Change(Collection(c)))
    case DropIndex(l, c, found) => Descend(l, c, found, Write, Change(Collection(c)))
    case ListIndexes(l, c, found) => Descend(l, c, found, Read, Look(Collection(c)))
    case NeedsBootstrap(l, users, roles, usersSeen, rolesSeen, found, again) =>
      SeeThen(l, usersSeen, SeeThen(l, rolesSeen, CountDocuments(l, users, roles, found, again)))
  }

  function Programs(ops: seq<Operation>): seq<Action> {
    if ops == [] then [] else Program(ops[0]) + Programs(ops[1..])
  }

  // ----- What the operations do, without their locks

  /** Whether the action uses the collections of a library, or the documents or indexes of a collection. */
  predicate IsWork(a: Action) { (a.Look? || a.Change?) && (a.lock.Library? || a.lock.Collection?) }

  function WorkIn(p: seq<Action>): seq<Action> {
    if p == [] then [] else (if IsWork(p[0]) then [p[0]] else []) + WorkIn(p[1..])
  }

  /** Looking up the collection, and then doing the work in it. */
  function Reaching(l: nat, found: Found, work: Action): seq<Action> {
    if !found.lib then [] else [Look(Library(l))] + if found.coll then [work] else []
  }

  function Creations(cs: seq<Creating>): seq<Action> {
    if cs == [] then [] else (if cs[0].made then [Change(Library(cs[0].l))] else []) + Creations(cs[1..])
  }

  function LooksAt(libs: seq<nat>): seq<Action> {
    if libs == [] then [] else [Look(Library(libs[0]))] + LooksAt(libs[1..])
  }

  function Seen(l: nat, seen: Found, rest: seq<Action>): seq<Action> {
    LooksAt(if seen.lib then [l] else []) + if Both(seen) then rest else []
  }

  function Counting(l: nat, users: nat, roles: nat, foundUsers: Found, foundRoles: Found): seq<Action> {
    Reaching(l, foundUsers, Look(Collection(users))) +
    if Both(foundUsers) then Reaching(l, foundRoles, Look(Collection(roles))) else []
  }

  /** What each operation is for: inserts, updates, deletes and the making and dropping of indexes change their
      collection; the others only look. */
  function Task(op: Operation): seq<Action> {
    match op
    case Init(early, _, collections, _) => if early then [] else Creations(collections)
    case Shutdown => []
    case CreateCollection(creating) => Creations([creating])
    case CollectionExists(l, lib) => LooksAt(if lib then [l] else [])
    case ListCollections(libs) => LooksAt(libs)
    case Insert(creating, c) => Creations([creating]) + if creating.made then [Change(Collection(c))] else []
    case FindById(l, c, found) => Reaching(l, found, Look(Collection(c)))
    case Find(l, c, found) => Reaching(l, found, Look(Collection(c)))
    case Update(l, c, found, doc, again) =>
      Reaching(l, found, Look(Collection(c))) +
      if Both(found) && doc then Reaching(l, again, Change(Collection(c))) else []
    case Remove(l, c, found) => Reaching(l, found, Change(Collection(c)))
    case CreateIndex(l, c, found) => Reaching(l, found, Change(Collection(c)))
    case DropIndex(l, c, found) => Reaching(l, found, Change(Collection(c)))
    case ListIndexes(l, c, found) => Reaching(l, found, Look(Collection(c)))
    case NeedsBootstrap(l, users, roles, usersSeen, rolesSeen, found, again) =>
      Seen(l, usersSeen, Seen(l, rolesSeen, Counting(l, users, roles, found, again)))
  }

  lemma {:induction false} WorkInBoth(p: seq<Action>, q: seq<Action>)
    ensures WorkIn(p + q) == WorkIn(p) + WorkIn(q)
  {
    hide IsWork;
    if p == [] {
      assert p + q == q;
    } else {
      assert (p + q)[0] == p[0] && (p + q)[1..] == p[1..] + q;
      WorkInBoth(p[1..], q);
      var first := if IsWork(p[0]) then [p[0]] else [];
      assert WorkIn(p) == first + WorkIn(p[1..]) && WorkIn(p + q) == first + WorkIn(p[1..] + q);
    }
  }

  lemma WorkOfOne(a: Action)
    ensures WorkIn([a]) == if IsWork(a) then [a] else []
  {
    assert WorkIn([]) == [];
  }

  lemma WorkOfTwo(a: Action, b: Action)
    ensures WorkIn([a, b]) == WorkIn([a]) + WorkIn([b])
  {
    WorkInBoth([a], [b]);
    assert [a] + [b] == [a, b];
  }

  lemma WorkOfThree(a: Action, b: Action, c: Action)
    ensures WorkIn([a, b, c]) == WorkIn([a]) + WorkIn([b]) + WorkIn([c])
  {
    WorkOfTwo(a, b);
    WorkInBoth([a, b], [c]);
    assert [a, b] + [c] == [a, b, c];
  }

  lemma WorkOfSection(l: Lock, mode: Mode, a: Action)
    ensures WorkIn(Section(l, mode, a)) == if IsWork(a) then [a] else []
  {
    WorkOfOne(Acquire(l, mode));
    WorkOfOne(a);
    WorkOfOne(Release(l));
    WorkOfThree(Acquire(l, mode), a, Release(l));
  }

  lemma WorkOfEnter(l: nat, c: nat, mode: Mode, work: Action)
    requires IsWork(work)
    ensures WorkIn(Enter(l, c, mode, work)) == [work]
  {
    var a, b, r := Acquire(Collection(c), mode), Release(Library(l)), Release(Collection(c));
    WorkOfOne(a);
    WorkOfOne(b);
    WorkOfOne(work);
    WorkOfOne(r);
    WorkOfTwo(a, b);
    WorkOfTwo(work, r);
    WorkInBoth([a, b], [work, r]);
    assert [a, b] + [work, r] == Enter(l, c, mode, work);
  }

  lemma WorkOfFinish(l: nat, c: nat, coll: bool, mode: Mode, work: Action)
    requires IsWork(work)
    ensures WorkIn(Finish(l, c, coll, mode, work)) == if coll then [work] else []
  {
    WorkOfEnter(l, c, mode, work);
    WorkOfOne(Release(Library(l)));
    hide Enter, WorkIn;
  }

  lemma WorkOfDown(l: nat)
    ensures WorkIn(Down(l)) == [Look(Library(l))]
    ensures WorkIn([Acquire(Library(l), Read), Look(Library(l))]) == [Look(Library(l))]
  {
    var a, b, c, d := Acquire(Global, Read), Look(Global), Acquire(Library(l), Read), Release(Global);
    var e := Look(Library(l));
    assert !IsWork(a) && !IsWork(b) && !IsWork(c) && !IsWork(d) && IsWork(e);
    assert Down(l) == [a, b] + [c, d, e];
    hide *;
    WorkOfOne(a);
    WorkOfOne(b);
    WorkOfOne(c);
    WorkOfOne(d);
    WorkOfOne(e);
    WorkOfTwo(c, e);
    WorkOfTwo(a, b);
    WorkOfThree(c, d, e);
    WorkInBoth([a, b], [c, d, e]);
  }

  lemma WorkOfLookup(l: nat, c: nat, found: Found)
    ensures WorkIn(Lookup(l, c, found)) == Reaching(l, found, Look(Collection(c)))
  {
    WorkOfDown(l);
    WorkOfFinish(l, c, found.coll, Read, Look(Collection(c)));
    WorkInBoth([Acquire(Library(l), Read), Look(Library(l))], Finish(l, c, found.coll, Read, Look(Collection(c))));
    assert WorkIn([]) == [];
    hide Finish, WorkIn;
  }

  lemma WorkOfDescend(l: nat, c: nat, found: Found, mode: Mode, work: Action)
    requires IsWork(work)
    ensures WorkIn(Descend(l, c, found, mode, work)) == Reaching(l, found, work)
  {
    hide Finish, WorkIn, Down, Section;
    WorkOfSection(Global, Read, Look(Global));
    WorkOfDown(l);
    WorkOfFinish(l, c, found.coll, mode, work);
    WorkInBoth(Down(l), Finish(l, c, found.coll, mode, work));
  }

  lemma WorkOfCreation(creating: Creating)
    ensures WorkIn(GetOrCreateLibrary(creating.found)) == []
    ensures WorkIn(GetOrCreateCollection(creating.l, creating.found, creating.made)) == Creations([creating])
  {
    var l := Library(creating.l);
    WorkOfSection(Creation, Write, Change(Creation));
    WorkOfSection(l, Write, Change(l));
    WorkInBoth(GetOrCreateLibrary(creating.found),
               if creating.made then Section(l, Write, Change(l)) else []);
    assert Creations([]) == [];
  }

  lemma CreationsFirst(cs: seq<Creating>)
    requires cs != []
    ensures Creations(cs) == Creations([cs[0]]) + Creations(cs[1..])
    ensures CreateAll(cs) == GetOrCreateCollection(cs[0].l, cs[0].found, cs[0].made) + CreateAll(cs[1..])
  {
    hide GetOrCreateCollection;
    assert [cs[0]][1..] == [] && Creations([]) == [];
    assert Creations([cs[0]]) == if cs[0].made then [Change(Library(cs[0].l))] else [];
  }

  lemma {:induction false} WorkOfCreations(cs: seq<Creating>)
    ensures WorkIn(CreateAll(cs)) == Creations(cs)
  {
    if cs != [] {
      hide *;
      CreationsFirst(cs);
      WorkOfCreation(cs[0]);
      WorkOfCreations(cs[1..]);
      WorkInBoth(GetOrCreateCollection(cs[0].l, cs[0].found, cs[0].made), CreateAll(cs[1..]));
    }
  }

  lemma {:induction false} WorkOfVisits(libs: seq<nat>)
    ensures WorkIn(VisitAll(libs)) == LooksAt(libs)
  {
    if libs != [] {
      WorkOfSection(Library(libs[0]), Read, Look(Library(libs[0])));
      WorkOfVisits(libs[1..]);
      WorkInBoth(Visit(libs[0]), VisitAll(libs[1..]));
    }
  }

  lemma WorkOfVisit(l: nat, yes: bool)
    ensures WorkIn(if yes then Visit(l) else []) == LooksAt(if yes then [l] else [])
  {
    WorkOfSection(Library(l), Read, Look(Library(l)));
    assert LooksAt([]) == [] && [l][1..] == [];
  }

  lemma WorkOfSetUp(system: bool, collections: seq<Creating>, standard: bool)
    ensures WorkIn(SetUp(system, collections, standard)) == Creations(collections)
  {
    var first, last := GetOrCreateLibrary(system), GetOrCreateLibrary(standard);
    assert SetUp(system, collections, standard) == first + CreateAll(collections) + last;
    hide *;
    WorkOfCreation(Creating(0, system, false));
    WorkOfCreation(Creating(0, standard, false));
    WorkOfCreations(collections);
    WorkInBoth(first, CreateAll(collections));
    WorkInBoth(first + CreateAll(collections), last);
  }

  lemma WorkOfInit(system: bool, collections: seq<Creating>, standard: bool)
    ensures WorkIn(Program(Init(false, system, collections, standard))) == Creations(collections)
  {
    var work := SetUp(system, collections, standard);
    var a, b, c := Acquire(Global, Write), Change(Global), Release(Global);
    assert Program(Init(false, system, collections, standard)) == [a, b] + (work + [b, c]);
    assert !IsWork(a) && !IsWork(b) && !IsWork(c);
    hide *;
    WorkOfOne(a);
    WorkOfOne(b);
    WorkOfOne(c);
    WorkOfTwo(a, b);
    WorkOfTwo(b, c);
    WorkOfSetUp(system, collections, standard);
    WorkInBoth(work, [b, c]);
    WorkInBoth([a, b], work + [b, c]);
  }

  lemma WorkOfCount(l: nat, users: nat, roles: nat, foundUsers: Found, foundRoles: Found)
    ensures WorkIn(CountDocuments(l, users, roles, foundUsers, foundRoles)) ==
            Counting(l, users, roles, foundUsers, foundRoles)
  {
    WorkOfDescend(l, users, foundUsers, Read, Look(Collection(users)));
    WorkOfDescend(l, roles, foundRoles, Read, Look(Collection(roles)));
    WorkInBoth(Descend(l, users, foundUsers, Read, Look(Collection(users))),
               if Both(foundUsers) then Descend(l, roles, foundRoles, Read, Look(Collection(roles))) else []);
    hide Descend, Reaching;
  }

  lemma WorkOfSeeing(l: nat, seen: Found, rest: seq<Action>)
    ensures WorkIn(SeeThen(l, seen, rest)) == Seen(l, seen, WorkIn(rest))
  {
    WorkOfVisit(l, seen.lib);
    WorkInBoth(if seen.lib then Visit(l) else [], if Both(seen) then rest else []);
    assert WorkIn([]) == [];
    hide WorkIn, Visit, LooksAt;
  }

  lemma WorkOfInsert(creating: Creating, c: nat)
    ensures WorkIn(Program(Insert(creating, c))) == Task(Insert(creating, c))
  {
    var p := GetOrCreateCollection(creating.l, creating.found, creating.made);
    var q := if creating.made then Section(Collection(c), Write, Change(Collection(c))) else [];
    assert Program(Insert(creating, c)) == p + q && WorkIn([]) == [] && IsWork(Change(Collection(c)));
    assert Task(Insert(creating, c)) == Creations([creating]) + if creating.made then [Change(Collection(c))] else [];
    hide *;
    WorkOfCreation(creating);
    WorkOfSection(Collection(c), Write, Change(Collection(c)));
    WorkInBoth(p, q);
  }

  lemma WorkOfUpdate(l: nat, c: nat, found: Found, doc: bool, again: Found)
    ensures WorkIn(Program(Update(l, c, found, doc, again))) == Task(Update(l, c, found, doc, again))
  {
    var change, goesOn := Change(Collection(c)), Both(found) && doc;
    var p, q := Lookup(l, c, found), if goesOn then Descend(l, c, again, Write, change) else [];
    assert Program(Update(l, c, found, doc, again)) == p + q && WorkIn([]) == [] && IsWork(change);
    assert Task(Update(l, c, found, doc, again)) ==
           Reaching(l, found, Look(Collection(c))) + if goesOn then Reaching(l, again, change) else [];
    hide *;
    WorkOfLookup(l, c, found);
    WorkOfDescend(l, c, again, Write, change);
    WorkInBoth(p, q);
  }

  /** Between its locks every operation does exactly what it is for. */
  lemma WorkOfProgram(op: Operation)
    ensures WorkIn(Program(op)) == Task(op)
  {
    hide WorkIn, Descend, Lookup, Reaching, LooksAt, Creations, CountDocuments, Counting, SeeThen, Seen, Visit;
    hide VisitAll, GetOrCreateCollection, GetOrCreateLibrary, SetUp, CreateAll, Section;
    match op
    case Init(early, system, collections, standard) =>
      WorkOfSection(Global, Write, Look(Global));
      WorkOfInit(system, collections, standard);
    case Shutdown => WorkOfSection(Global, Write, Change(Global));
    case CreateCollection(creating) => WorkOfCreation(creating);
    case CollectionExists(l, lib) => WorkOfVisit(l, lib);
    case ListCollections(libs) => WorkOfVisits(libs);
    case Insert(creating, c) => WorkOfInsert(creating, c);
    case FindById(l, c, found) => WorkOfLookup(l, c, found);
    case Find(l, c, found) => WorkOfLookup(l, c, found);
    case Update(l, c, found, doc, again) => WorkOfUpdate(l, c, found, doc, again);
    case Remove(l, c, found) => WorkOfDescend(l, c, found, Write, Change(Collection(c)));
    case CreateIndex(l, c, found) => WorkOfDescend(l, c, found, Write, Change(Collection(c)));
    case DropIndex(l, c, found) => WorkOfDescend(l, c, found, Write, Change(Collection(c)));
    case ListIndexes(l, c, found) => WorkOfDescend(l, c, found, Read, Look(Collection(c)));
    case NeedsBootstrap(l, users, roles, usersSeen, rolesSeen, found, again) =>
      var count := CountDocuments(l, users, roles, found, again);
      WorkOfCount(l, users, roles, found, again);
      WorkOfSeeing(l, rolesSeen, count);
      WorkOfSeeing(l, usersSeen, SeeThen(l, rolesSeen, count));
  }

  // ----- Hand over hand

  /** The locks held after some actions of a thread that started with none. */
  function HeldAfter(p: seq<Action>): set<Lock> {
    if p == [] then {}
    else
      var held := HeldAfter(p[..|p| - 1]);
      match p[|p| - 1]
      case Acquire(l, _) => held + {l}
      case Release(l) => held - {l}
      case Look(_) => held
      case Change(_) => held
  }

  /** From its first lock to its last release the thread always holds something, and it takes a library under the
      global lock (if top), and a collection under the library it was found in. */
  ghost predicate NeverLetsGo(p: seq<Action>, l: nat, top: bool) {
    && (forall i :: 0 < i < |p| ==> HeldAfter(p[..i]) != {})
    && HeldAfter(p) == {}
    && (forall i :: 0 <= i < |p| && p[i].Acquire? && p[i].lock.Collection? ==> Library(l) in HeldAfter(p[..i]))
    && (forall i :: 0 <= i < |p| && p[i].Acquire? && p[i].lock.Library? && top ==> Global in HeldAfter(p[..i]))
  }

  /** held[i] is what is held after the first i actions. */
  ghost predicate Trace(p: seq<Action>, held: seq<set<Lock>>) {
    && |held| == |p| + 1 && held[0] == {}
    && forall i :: 0 <= i < |p| ==>
         held[i + 1] == match p[i]
                        case Acquire(l, _) => held[i] + {l}
                        case Release(l) => held[i] - {l}
                        case Look(_) => held[i]
                        case Change(_) => held[i]
  }

  lemma {:induction false} TraceIsHeld(p: seq<Action>, held: seq<set<Lock>>, i: nat)
    requires Trace(p, held) && i <= |p|
    ensures HeldAfter(p[..i]) == held[i]
  {
    if i > 0 {
      assert p[..i][..i - 1] == p[..i - 1];
      TraceIsHeld(p, held, i - 1);
    }
  }

  lemma TraceDecides(p: seq<Action>, held: seq<set<Lock>>, l: nat, top: bool)
    requires Trace(p, held)
    requires (forall i :: 0 < i < |p| ==> held[i] != {}) && held[|p|] == {}
    requires forall i :: 0 <= i < |p| && p[i].Acquire? && p[i].lock.Collection? ==> Library(l) in held[i]
    requires forall i :: 0 <= i < |p| && p[i].Acquire? && p[i].lock.Library? && top ==> Global in held[i]
    ensures NeverLetsGo(p, l, top)
  {
    forall i | 0 <= i <= |p| ensures HeldAfter(p[..i]) == held[i] {
      TraceIsHeld(p, held, i);
    }
    assert p[..|p|] == p;
    hide HeldAfter, Trace;
  }

  lemma DescendNeverLetsGo(l: nat, c: nat, found: Found, mode: Mode, work: Action)
    requires work.lock == Collection(c) && (work.Look? || work.Change?)
    ensures NeverLetsGo(Descend(l, c, found, mode, work), l, true)
  {
    var g, a, b := {Global}, {Library(l)}, {Collection(c)};
    var front := [{}, g, g, g + a, a, a];
    TraceDecides(Descend(l, c, found, mode, work),
                 if !found.lib then [{}, g, g, {}]
                 else if !found.coll then front + [{}]
                 else front + [a + b, b, b, {}],
                 l, true);
  }

  lemma LookupNeverLetsGo(l: nat, c: nat, found: Found)
    ensures NeverLetsGo(Lookup(l, c, found), l, false)
  {
    var a, b := {Library(l)}, {Collection(c)};
    TraceDecides(Lookup(l, c, found),
                 if !found.lib then [{}]
                 else if !found.coll then [{}, a, a, {}]
                 else [{}, a, a, a + b, b, b, {}],
                 l, false);
  }

  // ----- Acquisition order

  type Locks = map<Lock, Mode>

  /** Every lock acquired ranks above all locks held, only held locks are released, what a lock guards is used only
      while it is held, and changed only while it is held for writing; at the end left is held. */
  predicate Ordered(held: Locks, p: seq<Action>, left: Locks)
    decreases p
  {
    if p == [] then held == left
    else
      match p[0]
      case Acquire(l, mode) => (forall h <- held :: Rank(h) < Rank(l)) && Ordered(held[l := mode], p[1..], left)
      case Release(l) => l in held && Ordered(held - {l}, p[1..], left)
      case Look(l) => l in held && Ordered(held, p[1..], left)
      case Change(l) => l in held && held[l] == Write && Ordered(held, p[1..], left)
  }

  lemma {:induction false} Chained(held: Locks, p: seq<Action>, middle: Locks, q: seq<Action>, left: Locks)
    requires Ordered(held, p, middle) && Ordered(middle, q, left)
    ensures Ordered(held, p + q, left)
    decreases p
  {
    if p == [] {
      assert p + q == q;
    } else {
      assert (p + q)[0] == p[0] && (p + q)[1..] == p[1..] + q;
      match p[0]
      case Acquire(l, mode) => Chained(held[l := mode], p[1..], middle, q, left);
      case Release(l) => Chained(held - {l}, p[1..], middle, q, left);
      case Look(_) => Chained(held, p[1..], middle, q, left);
      case Change(_) => Chained(held, p[1..], middle, q, left);
    }
  }

  /** a may be done while held are held. */
  predicate MayDo(held: Locks, a: Action) {
    (a.Look? || a.Change?) && a.lock in held && (a.Change? ==> held[a.lock] == Write)
  }

  lemma NoActions(held: Locks)
    ensures Ordered(held, [], held)
  {
  }

  /** Putting one action in front of a program. */
  lemma FirstAcquired(held: Locks, l: Lock, mode: Mode, rest: seq<Action>, left: Locks)
    requires (forall h <- held :: Rank(h) < Rank(l)) && Ordered(held[l := mode], rest, left)
    ensures Ordered(held, [Acquire(l, mode)] + rest, left)
  {
    assert ([Acquire(l, mode)] + rest)[1..] == rest;
  }

  lemma FirstReleased(held: Locks, l: Lock, rest: seq<Action>, left: Locks)
    requires l in held && Ordered(held - {l}, rest, left)
    ensures Ordered(held, [Release(l)] + rest, left)
  {
    assert ([Release(l)] + rest)[1..] == rest;
  }

  lemma FirstDone(held: Locks, a: Action, rest: seq<Action>, left: Locks)
    requires MayDo(held, a) && Ordered(held, rest, left)
    ensures Ordered(held, [a] + rest, left)
  {
    assert ([a] + rest)[1..] == rest;
  }

  lemma SectionOrdered(held: Locks, l: Lock, mode: Mode, a: Action)
    requires (forall h <- held :: Rank(h) < Rank(l)) && MayDo(held[l := mode], a)
    ensures Ordered(held, Section(l, mode, a), held)
  {
    var inside := held[l := mode];
    assert l !in held && inside - {l} == held;
    NoActions(held);
    FirstReleased(inside, l, [], held);
    FirstDone(inside, a, [Release(l)] + [], held);
    FirstAcquired(held, l, mode, [a] + ([Release(l)] + []), held);
    assert [Acquire(l, mode)] + ([a] + ([Release(l)] + [])) == Section(l, mode, a);
  }

  lemma LibraryOrdered(held: Locks, found: bool)
    requires held.Keys <= {Global}
    ensures Ordered(held, GetOrCreateLibrary(found), held)
  {
    SectionOrdered(held, Creation, Write, Change(Creation));
  }

  lemma CollectionOrdered(held: Locks, l: nat, found: bool, made: bool)
    requires held.Keys <= {Global}
    ensures Ordered(held, GetOrCreateCollection(l, found, made), held)
  {
    LibraryOrdered(held, found);
    SectionOrdered(held, Library(l), Write, Change(Library(l)));
    NoActions(held);
    Chained(held, GetOrCreateLibrary(found), held,
            if made then Section(Library(l), Write, Change(Library(l))) else [], held);
  }

  lemma {:induction false} AllCreatedOrdered(held: Locks, cs: seq<Creating>)
    requires held.Keys <= {Global}
    ensures Ordered(held, CreateAll(cs), held)
  {
    if cs != [] {
      CollectionOrdered(held, cs[0].l, cs[0].found, cs[0].made);
      AllCreatedOrdered(held, cs[1..]);
      Chained(held, GetOrCreateCollection(cs[0].l, cs[0].found, cs[0].made), held, CreateAll(cs[1..]), held);
    }
  }

  lemma VisitOrdered(l: nat)
    ensures Ordered(map[], Visit(l), map[])
  {
    SectionOrdered(map[], Library(l), Read, Look(Library(l)));
  }

  lemma {:induction false} AllVisitedOrdered(libs: seq<nat>)
    ensures Ordered(map[], VisitAll(libs), map[])
  {
    if libs != [] {
      VisitOrdered(libs[0]);
      AllVisitedOrdered(libs[1..]);
      Chained(map[], Visit(libs[0]), map[], VisitAll(libs[1..]), map[]);
    }
  }

  /** Hand over hand: the parent goes once the child is held. */
  lemma EnterOrdered(l: nat, c: nat, mode: Mode, work: Action)
    requires MayDo(map[Collection(c) := mode], work)
    ensures Ordered(map[Library(l) := Read], Enter(l, c, mode, work), map[])
  {
    var parent, child := Library(l), Collection(c);
    var both: Locks, one: Locks, none: Locks := map[parent := Read, child := mode], map[child := mode], map[];
    assert both - {parent} == one && one - {child} == none && map[parent := Read][child := mode] == both;
    NoActions(none);
    FirstReleased(one, child, [], none);
    FirstDone(one, work, [Release(child)] + [], none);
    FirstReleased(both, parent, [work] + ([Release(child)] + []), none);
    FirstAcquired(map[parent := Read], child, mode, [Release(parent)] + ([work] + ([Release(child)] + [])), none);
    assert Enter(l, c, mode, work) ==
           [Acquire(child, mode)] + ([Release(parent)] + ([work] + ([Release(child)] + [])));
  }

  lemma FinishOrdered(l: nat, c: nat, coll: bool, mode: Mode, work: Action)
    requires MayDo(map[Collection(c) := mode], work)
    ensures Ordered(map[Library(l) := Read], Finish(l, c, coll, mode, work), map[])
  {
    EnterOrdered(l, c, mode, work);
    var held: Locks, none: Locks := map[Library(l) := Read], map[];
    assert held - {Library(l)} == none;
    NoActions(none);
    FirstReleased(held, Library(l), [], none);
    assert [Release(Library(l))] + [] == [Release(Library(l))];
  }

  lemma LookupOrdered(l: nat, c: nat, found: Found)
    ensures Ordered(map[], Lookup(l, c, found), map[])
  {
    var held: Locks := map[Library(l) := Read];
    NoActions(map[]);
    NoActions(held);
    FirstDone(held, Look(Library(l)), [], held);
    FirstAcquired(map[], Library(l), Read, [Look(Library(l))] + [], held);
    assert [Acquire(Library(l), Read)] + ([Look(Library(l))] + []) == [Acquire(Library(l), Read), Look(Library(l))];
    FinishOrdered(l, c, found.coll, Read, Look(Collection(c)));
    hide Finish;
    Chained(map[], [Acquire(Library(l), Read), Look(Library(l))], held,
            Finish(l, c, found.coll, Read, Look(Collection(c))), map[]);
  }

  lemma DownOrdered(l: nat)
    ensures Ordered(map[], Down(l), map[Library(l) := Read])
  {
    var g: Locks, both: Locks, a: Locks := map[Global := Read], map[Global := Read, Library(l) := Read],
                                           map[Library(l) := Read];
    assert both - {Global} == a && g[Library(l) := Read] == both;
    NoActions(a);
    FirstDone(a, Look(Library(l)), [], a);
    FirstReleased(both, Global, [Look(Library(l))] + [], a);
    FirstAcquired(g, Library(l), Read, [Release(Global)] + ([Look(Library(l))] + []), a);
    FirstDone(g, Look(Global), [Acquire(Library(l), Read)] + ([Release(Global)] + ([Look(Library(l))] + [])), a);
    var rest := [Look(Global)] + ([Acquire(Library(l), Read)] + ([Release(Global)] + ([Look(Library(l))] + [])));
    FirstAcquired(map[], Global, Read, rest, a);
    assert [Acquire(Global, Read)] + rest == Down(l);
  }

  lemma DescendOrdered(l: nat, c: nat, found: Found, mode: Mode, work: Action)
    requires MayDo(map[Collection(c) := mode], work)
    ensures Ordered(map[], Descend(l, c, found, mode, work), map[])
  {
    SectionOrdered(map[], Global, Read, Look(Global));
    DownOrdered(l);
    FinishOrdered(l, c, found.coll, mode, work);
    hide Finish, Down, Section, Ordered;
    Chained(map[], Down(l), map[Library(l) := Read], Finish(l, c, found.coll, mode, work), map[]);
  }

  lemma SetUpOrdered(held: Locks, system: bool, collections: seq<Creating>, standard: bool)
    requires held.Keys <= {Global}
    ensures Ordered(held, SetUp(system, collections, standard), held)
  {
    LibraryOrdered(held, system);
    AllCreatedOrdered(held, collections);
    LibraryOrdered(held, standard);
    Chained(held, GetOrCreateLibrary(system), held, CreateAll(collections), held);
    Chained(held, GetOrCreateLibrary(system) + CreateAll(collections), held, GetOrCreateLibrary(standard), held);
  }

  lemma InitOrdered(system: bool, collections: seq<Creating>, standard: bool)
    ensures Ordered(map[], Program(Init(false, system, collections, standard)), map[])
  {
    var held: Locks, none: Locks := map[Global := Write], map[];
    var work := SetUp(system, collections, standard);
    SetUpOrdered(held, system, collections, standard);
    NoActions(none);
    assert held - {Global} == none && none[Global := Write] == held;
    FirstReleased(held, Global, [], none);
    FirstDone(held, Change(Global), [Release(Global)] + [], none);
    assert [Change(Global)] + ([Release(Global)] + []) == [Change(Global), Release(Global)];
    hide SetUp;
    Chained(held, work, held, [Change(Global), Release(Global)], none);
    var rest := work + [Change(Global), Release(Global)];
    FirstDone(held, Change(Global), rest, none);
    FirstAcquired(none, Global, Write, [Change(Global)] + rest, none);
    assert [Acquire(Global, Write)] + ([Change(Global)] + rest) == [Acquire(Global, Write), Change(Global)] + rest;
  }

  lemma CountOrdered(l: nat, users: nat, roles: nat, foundUsers: Found, foundRoles: Found)
    ensures Ordered(map[], CountDocuments(l, users, roles, foundUsers, foundRoles), map[])
  {
    var lookUsers, lookRoles := Look(Collection(users)), Look(Collection(roles));
    DescendOrdered(l, users, foundUsers, Read, lookUsers);
    DescendOrdered(l, roles, foundRoles, Read, lookRoles);
    NoActions(map[]);
    hide Descend;
    Chained(map[], Descend(l, users, foundUsers, Read, lookUsers), map[],
            if Both(foundUsers) then Descend(l, roles, foundRoles, Read, lookRoles) else [], map[]);
  }

  lemma SeeingOrdered(l: nat, seen: Found, rest: seq<Action>)
    requires Ordered(map[], rest, map[])
    ensures Ordered(map[], SeeThen(l, seen, rest), map[])
  {
    VisitOrdered(l);
    NoActions(map[]);
    hide Visit, Ordered;
    Chained(map[], if seen.lib then Visit(l) else [], map[], if Both(seen) then rest else [], map[]);
  }

  /** Every way through every operation acquires locks in rank order, uses what they guard only while holding them in
      the mode it takes, and leaves none held. */
  lemma ProgramOrdered(op: Operation)
    ensures Ordered(map[], Program(op), map[])
  {
    NoActions(map[]);
    hide Ordered, Descend, Lookup, Section;
    match op
    case Init(early, system, collections, standard) =>
      SectionOrdered(map[], Global, Write, Look(Global));
      InitOrdered(system, collections, standard);
    case Shutdown => SectionOrdered(map[], Global, Write, Change(Global));
    case CreateCollection(creating) => CollectionOrdered(map[], creating.l, creating.found, creating.made);
    case CollectionExists(l, lib) => VisitOrdered(l);
    case ListCollections(libs) => AllVisitedOrdered(libs);
    case Insert(creating, c) =>
      CollectionOrdered(map[], creating.l, creating.found, creating.made);
      SectionOrdered(map[], Collection(c), Write, Change(Collection(c)));
      Chained(map[], GetOrCreateCollection(creating.l, creating.found, creating.made), map[],
              if creating.made then Section(Collection(c), Write, Change(Collection(c))) else [], map[]);
    case FindById(l, c, found) => LookupOrdered(l, c, found);
    case Find(l, c, found) => LookupOrdered(l, c, found);
    case Update(l, c, found, doc, again) =>
      LookupOrdered(l, c, found);
      DescendOrdered(l, c, again, Write, Change(Collection(c)));
      Chained(map[], Lookup(l, c, found), map[],
              if Both(found) && doc then Descend(l, c, again, Write, Change(Collection(c))) else [], map[]);
    case Remove(l, c, found) => DescendOrdered(l, c, found, Write, Change(Collection(c)));
    case CreateIndex(l, c, found) => DescendOrdered(l, c, found, Write, Change(Collection(c)));
    case DropIndex(l, c, found) => DescendOrdered(l, c, found, Write, Change(Collection(c)));
    case ListIndexes(l, c, found) => DescendOrdered(l, c, found, Read, Look(Collection(c)));
    case NeedsBootstrap(l, users, roles, usersSeen, rolesSeen, found, again) =>
      var count := CountDocuments(l, users, roles, found, again);
      hide CountDocuments, SeeThen;
      CountOrdered(l, users, roles, found, again);
      SeeingOrdered(l, rolesSeen, count);
      SeeingOrdered(l, usersSeen, SeeThen(l, rolesSeen, count));
  }

  lemma {:induction false} ProgramsOrdered(ops: seq<Operation>)
    ensures Ordered(map[], Programs(ops), map[])
  {
    if ops != [] {
      ProgramOrdered(ops[0]);
      ProgramsOrdered(ops[1..]);
      Chained(map[], Program(ops[0]), map[], Programs(ops[1..]), map[]);
    }
  }

  // ----- Threads

  /** A thread: what it holds, and the actions still ahead of it. */
  datatype Thread = Thread(held: Locks, rest: seq<Action>)

  type State = seq<Thread>

  /** Some thread other than t holds l in a mode that excludes mode. */
  predicate Excluded(s: State, t: nat, l: Lock, mode: Mode) {
    exists u | 0 <= u < |s| :: u != t && l in s[u].held && (mode == Write || s[u].held[l] == Write)
  }

  /** Thread t is next to acquire l for writing. */
  predicate WantsToWrite(s: State, t: nat, l: Lock) {
    t < |s| && s[t].rest != [] && s[t].rest[0] == Acquire(l, Write)
  }

  /** A read lock may also be refused while a writer waits, as rwlocks that prefer writers do. */
  predicate WriterWaits(s: State, t: nat, l: Lock) {
    exists u | 0 <= u < |s| :: u != t && WantsToWrite(s, u, l)
  }

  predicate Finished(s: State, t: nat)
    requires t < |s|
  {
    s[t].rest == []
  }

  /** Whether t can act. With writersFirst, readers queue behind waiting writers. */
  predicate CanMove(s: State, t: nat, writersFirst: bool) {
    && t < |s| && s[t].rest != []
    && match s[t].rest[0]
       case Release(_) => true
       case Look(_) => true
       case Change(_) => true
       case Acquire(l, mode) =>
         !Excluded(s, t, l, mode) && (mode == Read && writersFirst ==> !WriterWaits(s, t, l))
  }

  function Move(s: State, t: nat): State
    requires t < |s| && s[t].rest != []
  {
    match s[t].rest[0]
    case Release(l) => s[t := Thread(s[t].held - {l}, s[t].rest[1..])]
    case Acquire(l, mode) => s[t := Thread(s[t].held[l := mode], s[t].rest[1..])]
    case Look(_) => s[t := Thread(s[t].held, s[t].rest[1..])]
    case Change(_) => s[t := Thread(s[t].held, s[t].rest[1..])]
  }

  /** Two threads hold one lock only as readers, and every thread is in order from what it holds. */
  ghost predicate Inv(s: State) {
    && (forall t, u, l :: 0 <= t < |s| && 0 <= u < |s| && t != u && l in s[t].held && l in s[u].held ==>
          s[t].held[l] == Read)
    && forall t :: 0 <= t < |s| ==> Ordered(s[t].held, s[t].rest, map[])
  }

  /** Threads that hold nothing and each run some operations, one after the other. */
  ghost predicate Initial(s: State, ops: seq<seq<Operation>>) {
    |s| == |ops| && forall t :: 0 <= t < |s| ==> s[t] == Thread(map[], Programs(ops[t]))
  }

  lemma InitialInv(s: State, ops: seq<seq<Operation>>)
    requires Initial(s, ops)
    ensures Inv(s)
  {
    forall t | 0 <= t < |s| ensures Ordered(s[t].held, s[t].rest, map[]) {
      ProgramsOrdered(ops[t]);
      assert s[t] == Thread(map[], Programs(ops[t]));
    }
  }

  lemma MoveKeepsInv(s: State, t: nat, writersFirst: bool)
    requires Inv(s) && CanMove(s, t, writersFirst)
    ensures Inv(Move(s, t))
  {
    assert Ordered(s[t].held, s[t].rest, map[]);
  }

  /** From a thread that waits, follow the holders upwards: ranks rise, so one of them, or a waiting writer, can act. */
  lemma {:induction false} SomeoneMoves(s: State, t: nat, writersFirst: bool) returns (m: nat)
    requires Inv(s) && t < |s| && !Finished(s, t)
    ensures CanMove(s, m, writersFirst)
    decreases if s[t].rest[0].Acquire? then 4 - Rank(s[t].rest[0].lock) else 0
  {
    if CanMove(s, t, writersFirst) {
      return t;
    }
    var l, mode := s[t].rest[0].lock, s[t].rest[0].mode;
    if u :| 0 <= u < |s| && l in s[u].held {
      assert Ordered(s[u].held, s[u].rest, map[]);
      assert s[u].rest != [];
      if !s[u].rest[0].Acquire? {
        return u;
      }
      m := SomeoneMoves(s, u, writersFirst);
    } else {
      var u :| 0 <= u < |s| && u != t && WantsToWrite(s, u, l);
      return u;
    }
  }

  // ----- Runs

  ghost predicate Legal(s: State, moves: seq<nat>, writersFirst: bool)
    decreases moves
  {
    moves == [] || (CanMove(s, moves[0], writersFirst) && Legal(Move(s, moves[0]), moves[1..], writersFirst))
  }

  function After(s: State, moves: seq<nat>, writersFirst: bool): State
    requires Legal(s, moves, writersFirst)
    decreases moves
  {
    if moves == [] then s else After(Move(s, moves[0]), moves[1..], writersFirst)
  }

  /** How many actions are still ahead. */
  function Work(s: State): nat {
    if s == [] then 0 else |s[0].rest| + Work(s[1..])
  }

  lemma {:induction false} MoveIsWork(s: State, t: nat)
    requires t < |s| && s[t].rest != []
    ensures Work(Move(s, t)) == Work(s) - 1
  {
    if t > 0 {
      MoveIsWork(s[1..], t - 1);
      assert Move(s, t)[1..] == Move(s[1..], t - 1);
    } else {
      assert Move(s, t)[1..] == s[1..];
    }
  }

  lemma {:induction false} RunKeepsInv(s: State, moves: seq<nat>, writersFirst: bool)
    requires Inv(s) && Legal(s, moves, writersFirst)
    ensures Inv(After(s, moves, writersFirst))
    ensures Work(After(s, moves, writersFirst)) == Work(s) - |moves|
    decreases moves
  {
    if moves != [] {
      MoveKeepsInv(s, moves[0], writersFirst);
      MoveIsWork(s, moves[0]);
      RunKeepsInv(Move(s, moves[0]), moves[1..], writersFirst);
    }
  }

  /** No reachable state is a deadlock: in every run of any threads doing any operations, while a thread is not
      finished some thread can act, whether or not readers queue behind writers. Runs are no longer than the work. */
  lemma NoDeadlock(s: State, ops: seq<seq<Operation>>, moves: seq<nat>, writersFirst: bool)
    requires Initial(s, ops) && Legal(s, moves, writersFirst)
    ensures |moves| <= Work(s)
    ensures var s' := After(s, moves, writersFirst);
            (forall t :: 0 <= t < |s'| ==> Finished(s', t)) || exists t :: CanMove(s', t, writersFirst)
  {
    InitialInv(s, ops);
    RunKeepsInv(s, moves, writersFirst);
    var s' := After(s, moves, writersFirst);
    if t :| 0 <= t < |s'| && !Finished(s', t) {
      var m := SomeoneMoves(s', t, writersFirst);
      assert CanMove(s', m, writersFirst);
    }
  }

  /** While a thread is about to change what a lock guards it holds the lock for writing and nobody else holds it; while
      it looks, it holds the lock and nobody else holds it for writing. */
  ghost predicate Excluding(s: State, t: nat, u: nat)
    requires t < |s| && u < |s|
  {
    s[t].rest != [] ==>
      match s[t].rest[0]
      case Change(l) => l in s[t].held && s[t].held[l] == Write && l !in s[u].held
      case Look(l) => l in s[t].held && (l in s[u].held ==> s[u].held[l] == Read)
      case Acquire(_, _) => true
      case Release(_) => true
  }

  /** In every reachable state the sections exclude each other: no thread works in a collection, or in the collections
      of a library, while another changes it. */
  lemma SectionsExclude(s: State, ops: seq<seq<Operation>>, moves: seq<nat>, writersFirst: bool, t: nat, u: nat)
    requires Initial(s, ops) && Legal(s, moves, writersFirst)
    requires t < |s| && u < |s| && t != u
    ensures var s' := After(s, moves, writersFirst); |s'| == |s| && Excluding(s', t, u)
  {
    InitialInv(s, ops);
    RunKeepsInv(s, moves, writersFirst);
    RunKeepsSize(s, moves, writersFirst);
    var s' := After(s, moves, writersFirst);
    assert Ordered(s'[t].held, s'[t].rest, map[]);
    hide After;
  }

  lemma {:induction false} RunKeepsSize(s: State, moves: seq<nat>, writersFirst: bool)
    requires Legal(s, moves, writersFirst)
    ensures |After(s, moves, writersFirst)| == |s|
    decreases moves
  {
    if moves != [] {
      RunKeepsSize(Move(s, moves[0]), moves[1..], writersFirst);
    }
  }
}

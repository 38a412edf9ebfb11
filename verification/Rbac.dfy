/** The user and role update handlers of src/components/api/api_rbac.c. Documents are looked up as copies and written
    back whole; a list that is missing from a document is the empty list. */
module Rbac {
  import opened CrossReferences
  import opened Json
  import opened Options

  /** A value inside a permissions object. Flags holds what the four boolean members say, false when absent. */
  datatype Permission =
    | Number(value: real)
    | Integer(whole: int)
    | Flags(read: bool, write: bool, delete: bool, admin: bool)
    | Other

  datatype User = User(username: string, passwordHash: string, roles: seq<Id>)
  datatype Role = Role(name: string, permissions: seq<Member<Permission>>, users: seq<Id>)
  datatype Docs = Docs(users: map<Id, User>, roles: map<Id, Role>)

  datatype Status = Ok | BadRequest | Forbidden | NotFound | Conflict | InternalError

  /** An element of a requested list: an id, an object whose "id" member may be an id, or anything else. */
  datatype Element = Text(id: Id) | Reference(ref: Option<Id>) | Junk

  /** A request body: a member is None when it is absent or of the wrong type. */
  datatype UserBody = UserBody(username: Option<string>, password: Option<string>, roles: Option<seq<Element>>)
  datatype RoleBody = RoleBody(
    name: Option<string>, permissions: Option<seq<Member<Permission>>>, users: Option<seq<Element>>)

  /** What the permission checks on the requester answered. */
  datatype Access = Access(self: bool, write: bool, admin: bool)

  /** The ids a user update takes from the requested list: strings only. */
  function TextIds(list: seq<Element>): seq<Id> {
    if list == [] then []
    else TextIds(list[..|list| - 1]) + if list[|list| - 1].Text? then [list[|list| - 1].id] else []
  }

  function IdOf(e: Element): Option<Id> {
    match e case Text(id) => Some(id) case Reference(ref) => ref case Junk => None
  }

  /** The ids a role update takes from the requested list: strings and objects with an id. */
  function AnyIds(list: seq<Element>): seq<Id> {
    if list == [] then []
    else AnyIds(list[..|list| - 1]) + if IdOf(list[|list| - 1]).Some? then [IdOf(list[|list| - 1]).value] else []
  }

  /** Which elements count for which handler: strings for both, objects with an id only for roles. */
  lemma IdsTaken(e: Element)
    ensures TextIds([e]) == match e case Text(id) => [id] case Reference(_) => [] case Junk => []
    ensures AnyIds([e]) == match e
                           case Text(id) => [id]
                           case Reference(ref) => (match ref case Some(id) => [id] case None => [])
                           case Junk => []
  {
    assert [e][..0] == [];
  }

  /** Ids are taken one element after the other, in order. */
  lemma {:induction false} IdsConcat(a: seq<Element>, b: seq<Element>)
    ensures TextIds(a + b) == TextIds(a) + TextIds(b)
    ensures AnyIds(a + b) == AnyIds(a) + AnyIds(b)
  {
    if b == [] {
      assert a + b == a;
    } else {
      assert (a + b)[..|a + b| - 1] == a + b[..|b| - 1];
      IdsConcat(a, b[..|b| - 1]);
    }
  }

  // ----- The lists inside the documents

  function RolesOf(users: map<Id, User>): Lists { map u | u in users :: users[u].roles }

  function UsersOf(roles: map<Id, Role>): Lists { map r | r in roles :: roles[r].users }

  /** The same users with other lists. */
  function WithRoles(users: map<Id, User>, lists: Lists): map<Id, User>
    requires lists.Keys == users.Keys
  {
    map u | u in users :: users[u].(roles := lists[u])
  }

  function WithUsers(roles: map<Id, Role>, lists: Lists): map<Id, Role>
    requires lists.Keys == roles.Keys
  {
    map r | r in roles :: roles[r].(users := lists[r])
  }

  lemma WithRolesOf(users: map<Id, User>, lists: Lists)
    requires lists.Keys == users.Keys
    ensures RolesOf(WithRoles(users, lists)) == lists && WithRoles(users, RolesOf(users)) == users
  {
  }

  lemma WithUsersOf(roles: map<Id, Role>, lists: Lists)
    requires lists.Keys == roles.Keys
    ensures UsersOf(WithUsers(roles, lists)) == lists && WithUsers(roles, UsersOf(roles)) == roles
  {
  }

  lemma WithOneUserList(roles: map<Id, Role>, lists: Lists, r: Id, list: seq<Id>)
    requires lists.Keys == roles.Keys && r in roles
    ensures var before := WithUsers(roles, lists);
            before[r := before[r].(users := list)] == WithUsers(roles, lists[r := list])
  {
  }

  lemma WithOneRoleList(users: map<Id, User>, lists: Lists, u: Id, list: seq<Id>)
    requires lists.Keys == users.Keys && u in users
    ensures var before := WithRoles(users, lists);
            before[u := before[u].(roles := list)] == WithRoles(users, lists[u := list])
  {
  }

  lemma WithTwice(base: map<Id, Role>, lists: Lists)
    requires lists.Keys == base.Keys
    ensures forall other: Lists :: other.Keys == base.Keys ==>
      WithUsers(WithUsers(base, lists), other) == WithUsers(base, other)
  {
  }

  lemma WithRolesTwice(base: map<Id, User>, lists: Lists)
    requires lists.Keys == base.Keys
    ensures forall other: Lists :: other.Keys == base.Keys ==>
      WithRoles(WithRoles(base, lists), other) == WithRoles(base, other)
  {
  }

  lemma Longer(lists: Lists, ids: seq<Id>, b: Id, x: Id)
    ensures var dropped := DropFrom(lists, ids, x);
            DropFrom(lists, ids + [b], x) == if b in lists then dropped[b := Removed(dropped[b], x)] else dropped
    ensures var added := AddTo(lists, ids, x);
            AddTo(lists, ids + [b], x) == if b in lists then added[b := Added(added[b], x)] else added
    ensures Existing(ids + [b], lists.Keys) == Existing(ids, lists.Keys) + if b in lists then [b] else []
  {
    assert (ids + [b])[..|ids + [b]| - 1] == ids;
  }

  lemma TextIdsNext(list: seq<Element>, i: nat)
    requires i < |list|
    ensures TextIds(list[..i + 1]) == if list[i].Text? then TextIds(list[..i]) + [list[i].id] else TextIds(list[..i])
  {
    assert list[..i + 1][..i] == list[..i];
  }

  lemma AnyIdsNext(list: seq<Element>, i: nat)
    requires i < |list|
    ensures var id := IdOf(list[i]);
            AnyIds(list[..i + 1]) == if id.Some? then AnyIds(list[..i]) + [id.value] else AnyIds(list[..i])
  {
    assert list[..i + 1][..i] == list[..i];
  }

  /** One round of the removing loop. */
  lemma OneDropped(base: map<Id, Role>, lists: Lists, ids: seq<Id>, role: Id, user: Id)
    requires lists.Keys == base.Keys
    ensures var before := WithUsers(base, DropFrom(lists, ids, user));
            WithUsers(base, DropFrom(lists, ids + [role], user)) ==
            if role in before then before[role := before[role].(users := Removed(before[role].users, user))] else before
    ensures WithUsers(base, DropFrom(lists, ids, user)).Keys == base.Keys
  {
    Longer(lists, ids, role, user);
    hide Removed;
    var dropped := DropFrom(lists, ids, user);
    if role in base {
      WithOneUserList(base, dropped, role, Removed(dropped[role], user));
    }
  }

  /** One round of the adding loop. */
  lemma OneAdded(base: map<Id, Role>, lists: Lists, ids: seq<Id>, role: Id, user: Id)
    requires lists.Keys == base.Keys
    ensures var before := WithUsers(base, AddTo(lists, ids, user));
            && before.Keys == base.Keys
            && WithUsers(base, AddTo(lists, ids + [role], user)) ==
               (if role !in before then before
                else before[role := before[role].(users := Added(before[role].users, user))])
    ensures Existing(ids + [role], base.Keys) ==
            if role in base then Existing(ids, base.Keys) + [role] else Existing(ids, base.Keys)
  {
    Longer(lists, ids, role, user);
    var added := AddTo(lists, ids, user);
    if role in base {
      WithOneUserList(base, added, role, Added(added[role], user));
    }
  }

  /** The same for the users of a role. */
  lemma OneRoleDropped(base: map<Id, User>, lists: Lists, ids: seq<Id>, user: Id, role: Id)
    requires lists.Keys == base.Keys
    ensures var before := WithRoles(base, DropFrom(lists, ids, role));
            WithRoles(base, DropFrom(lists, ids + [user], role)) ==
            if user in before then before[user := before[user].(roles := Removed(before[user].roles, role))] else before
    ensures WithRoles(base, DropFrom(lists, ids, role)).Keys == base.Keys
  {
    Longer(lists, ids, user, role);
    hide Removed;
    var dropped := DropFrom(lists, ids, role);
    if user in base {
      WithOneRoleList(base, dropped, user, Removed(dropped[user], role));
    }
  }

  lemma OneRoleAdded(base: map<Id, User>, lists: Lists, ids: seq<Id>, user: Id, role: Id)
    requires lists.Keys == base.Keys
    ensures var before := WithRoles(base, AddTo(lists, ids, role));
            && before.Keys == base.Keys
            && WithRoles(base, AddTo(lists, ids + [user], role)) ==
               (if user !in before then before
                else before[user := before[user].(roles := Added(before[user].roles, role))])
    ensures Existing(ids + [user], base.Keys) ==
            if user in base then Existing(ids, base.Keys) + [user] else Existing(ids, base.Keys)
  {
    Longer(lists, ids, user, role);
    var added := AddTo(lists, ids, role);
    if user in base {
      WithOneRoleList(base, added, user, Added(added[user], role));
    }
  }

  // ----- Permissions

  const READ: bv8 := 1
  const WRITE: bv8 := 2
  const DELETE: bv8 := 4
  const ADMIN: bv8 := 8

  function Mask(p: Permission): (mask: bv8)
    requires p.Flags?
  {
    (if p.read then READ else 0) | (if p.write then WRITE else 0) |
    (if p.delete then DELETE else 0) | (if p.admin then ADMIN else 0)
  }

  /** The four flags can be read back from the mask, and the mask is zero when none is set. */
  lemma MaskReadsBack(p: Permission)
    requires p.Flags?
    ensures var m := Mask(p);
            && (m & READ != 0 <==> p.read) && (m & WRITE != 0 <==> p.write)
            && (m & DELETE != 0 <==> p.delete) && (m & ADMIN != 0 <==> p.admin)
            && m & 0xF0 == 0
            && (m == 0 <==> p == Flags(false, false, false, false))
  {
  }

  lemma BitsSum(m: bv8)
    requires m & 0xF0 == 0
    ensures m as int == (if m & READ != 0 then 1 else 0) + (if m & WRITE != 0 then 2 else 0)
                        + (if m & DELETE != 0 then 4 else 0) + (if m & ADMIN != 0 then 8 else 0)
  {
  }

  /** What a requested permission is stored as, if at all. */
  function Granted(p: Permission): Option<Permission> {
    match p
    case Number(x) => Some(Number(x))
    case Integer(n) => Some(Number(n as real))
    case Flags(_, _, _, _) => if Mask(p) == 0 then None else Some(Number(Mask(p) as int as real))
    case Other => None
  }

  /** A number is stored as it is, whole or not, and flags as the sum of 1, 2, 4 and 8 for those set, unless none
      is. */
  lemma GrantedIs(p: Permission)
    ensures forall x :: Granted(Number(x)) == Some(Number(x))
    ensures forall n :: Granted(Integer(n)) == Some(Number(n as real))
    ensures Granted(Other) == None
    ensures p.Flags? ==>
      var sum := (if p.read then 1 else 0) + (if p.write then 2 else 0) + (if p.delete then 4 else 0)
                 + if p.admin then 8 else 0;
      Granted(p) == if sum == 0 then None else Some(Number(sum as real))
  {
    if p.Flags? {
      MaskReadsBack(p);
      BitsSum(Mask(p));
      hide Mask;
    }
  }

  function GrantedAll(requested: seq<Member<Permission>>): seq<Member<Permission>> {
    if requested == [] then []
    else
      var front, last := GrantedAll(requested[..|requested| - 1]), requested[|requested| - 1];
      if Granted(last.value).None? then front else Put(front, last.key, Granted(last.value).value)
  }

  /** The rewritten permissions are those requested and nothing older, each stored as a number. */
  lemma {:induction false} GrantedAllGet(requested: seq<Member<Permission>>, key: string)
    requires DistinctKeys(requested)
    ensures Get(GrantedAll(requested), key) ==
            match Get(requested, key) case None => None case Some(p) => Granted(p)
    ensures DistinctKeys(GrantedAll(requested))
    ensures forall m <- GrantedAll(requested) :: m.value.Number?
  {
    if requested != [] {
      var n := |requested| - 1;
      var front, last := requested[..n], requested[n];
      GrantedAllGet(front, key);
      if Granted(last.value).Some? {
        GetPut(GrantedAll(front), last.key, Granted(last.value).value);
      }
      GetLast(requested, key);
    }
  }

  /** With distinct keys it does not matter that Get looks from the front. */
  lemma {:induction false} GetLast(members: seq<Member<Permission>>, key: string)
    requires DistinctKeys(members) && members != []
    ensures var front, last := members[..|members| - 1], members[|members| - 1];
            Get(members, key) == if last.key == key then Some(last.value) else Get(front, key)
    ensures members[|members| - 1].key == key ==> Get(members[..|members| - 1], key) == None
  {
    if |members| > 1 {
      assert members[1..][..|members| - 2] == members[..|members| - 1][1..];
      GetLast(members[1..], key);
    }
  }

  // ----- What each handler decides, and what an accepted update does to the documents

  /** owner is a user with this name, or None when there is none (rbac_get_user_by_username). */
  ghost predicate IsOwner(users: map<Id, User>, name: string, owner: Option<Id>) {
    match owner
    case Some(id) => id in users && users[id].username == name
    case None => forall id :: id in users ==> users[id].username != name
  }

  /** named lists the roles with this name (the query of lines 1496-1501). */
  ghost predicate AreNamed(roles: map<Id, Role>, name: string, named: seq<Id>) {
    forall id :: id in named <==> id in roles && roles[id].name == name
  }

  /** A call of either handler, with what its lookups and the password hash answer. */
  datatype Request =
    | UserUpdate(target: Id, access: Access, user: Option<UserBody>, owner: Option<Id>, hash: Option<string>)
    | RoleUpdate(target: Id, allowed: bool, role: Option<RoleBody>, named: seq<Id>)

  function Verdict(d: Docs, r: Request): Status {
    match r
    case UserUpdate(target, access, user, owner, hash) =>
      if !access.self && !access.write then Forbidden
      else if user.None? then BadRequest
      else if target !in d.users then NotFound
      else if user.value.username.Some? && |user.value.username.value| < 3 then BadRequest
      else if user.value.username.Some? && owner.Some? && owner.value != target then Conflict
      else if user.value.password.Some? && |user.value.password.value| < 8 then BadRequest
      else if user.value.password.Some? && hash.None? then InternalError
      else if user.value.roles.Some? && !access.admin then Forbidden
      else Ok
    case RoleUpdate(target, allowed, role, named) =>
      if !allowed then Forbidden
      else if target !in d.roles then NotFound
      else if role.None? then BadRequest
      else if role.value.name.Some? && |role.value.name.value| < 2 then BadRequest
      else if role.value.name.Some? && exists id <- named :: id != target then Conflict
      else Ok
  }

  function Renamed(user: User, body: UserBody, hash: Option<string>): User
    requires body.password.Some? ==> hash.Some?
  {
    User(if body.username.Some? then body.username.value else user.username,
         if body.password.Some? then hash.value else user.passwordHash,
         user.roles)
  }

  function Regranted(role: Role, body: RoleBody): Role {
    Role(if body.name.Some? then body.name.value else role.name,
         if body.permissions.Some? then GrantedAll(body.permissions.value) else role.permissions,
         role.users)
  }

  /** The documents after a request: unchanged unless it is accepted. */
  function Served(d: Docs, r: Request): Docs {
    if Verdict(d, r) != Ok then d
    else
      match r
      case UserUpdate(target, _, user, _, hash) =>
        var doc := Renamed(d.users[target], user.value, hash);
        if user.value.roles.None? then Docs(d.users[target := doc], d.roles)
        else
          var ids := TextIds(user.value.roles.value);
          Docs(d.users[target := doc.(roles := Existing(ids, d.roles.Keys))],
               WithUsers(d.roles, Rewritten(UsersOf(d.roles), doc.roles, ids, target)))
      case RoleUpdate(target, _, role, _) =>
        var doc := Regranted(d.roles[target], role.value);
        if role.value.users.None? then Docs(d.users, d.roles[target := doc])
        else
          var ids := AnyIds(role.value.users.value);
          Docs(WithRoles(d.users, Rewritten(RolesOf(d.users), doc.users, ids, target)),
               d.roles[target := doc.(users := Existing(ids, d.users.Keys))])
  }

  // ----- What every request keeps

  ghost predicate DistinctNames(d: Docs) {
    && (forall a, b :: a in d.users && b in d.users && a != b ==> d.users[a].username != d.users[b].username)
    && (forall a, b :: a in d.roles && b in d.roles && a != b ==> d.roles[a].name != d.roles[b].name)
  }

  ghost predicate CrossLinked(d: Docs) { Linked(RolesOf(d.users), UsersOf(d.roles)) }

  /** The lookups of a request answer for these documents. */
  ghost predicate Answered(d: Docs, r: Request) {
    match r
    case UserUpdate(_, _, user, owner, _) =>
      user.Some? && user.value.username.Some? ==> IsOwner(d.users, user.value.username.value, owner)
    case RoleUpdate(_, _, role, named) =>
      role.Some? && role.value.name.Some? ==> AreNamed(d.roles, role.value.name.value, named)
  }

  /** The ids a request wants linked, if it is about the cross-references at all. */
  function Wanted(r: Request): seq<Id> {
    match r
    case UserUpdate(_, _, user, _, _) =>
      if user.Some? && user.value.roles.Some? then TextIds(user.value.roles.value) else []
    case RoleUpdate(_, _, role, _) =>
      if role.Some? && role.value.users.Some? then AnyIds(role.value.users.value) else []
  }

  function Others(d: Docs, r: Request): set<Id> {
    if r.UserUpdate? then d.roles.Keys else d.users.Keys
  }

  // ----- Who may change what

  /** Whatever a user update asks: a requester who may write neither his own nor other users changes nothing, one
      without admin rights changes no list on either side, and no request touches any other user, or a role's name or
      permissions. */
  lemma UserUpdateLimits(d: Docs, r: Request)
    requires r.UserUpdate?
    ensures var d' := Served(d, r);
            && d'.users.Keys == d.users.Keys && d'.roles.Keys == d.roles.Keys
            && (!r.access.self && !r.access.write ==> d' == d)
            && (!r.access.admin ==>
                  RolesOf(d'.users) == RolesOf(d.users) && UsersOf(d'.roles) == UsersOf(d.roles) && d'.roles == d.roles)
            && (forall u :: u in d.users && u != r.target ==> d'.users[u] == d.users[u])
            && forall q :: q in d.roles ==>
                 d'.roles[q].name == d.roles[q].name && d'.roles[q].permissions == d.roles[q].permissions
  {
    hide Rewritten, Existing, TextIds;
  }

  /** A stored username changes only to a requested one of at least 3 characters, a stored hash only to the hash of a
      requested password of at least 8, and a list of roles only for an administrator who sends one. */
  lemma UserUpdateChanges(d: Docs, r: Request)
    requires r.UserUpdate? && r.target in d.users
    ensures var was, now := d.users[r.target], Served(d, r).users[r.target];
            && (now.username != was.username ==>
                  r.user.Some? && r.user.value.username == Some(now.username) && |now.username| >= 3)
            && (now.passwordHash != was.passwordHash ==>
                  && r.user.Some? && r.user.value.password.Some? && |r.user.value.password.value| >= 8
                  && r.hash == Some(now.passwordHash))
            && (now.roles != was.roles ==> r.user.Some? && r.user.value.roles.Some? && r.access.admin)
  {
    hide Rewritten, Existing, TextIds;
  }

  /** When a user update is accepted, and what it then leaves in the user's document: each member that was sent, and
      the old one where none was. */
  lemma UserUpdateAccepted(d: Docs, r: Request)
    requires r.UserUpdate?
    ensures Verdict(d, r) == Ok <==>
            && (r.access.self || r.access.write) && r.user.Some? && r.target in d.users
            && (r.user.value.username.Some? ==>
                  |r.user.value.username.value| >= 3 && (r.owner == None || r.owner == Some(r.target)))
            && (r.user.value.password.Some? ==> |r.user.value.password.value| >= 8 && r.hash.Some?)
            && (r.user.value.roles.Some? ==> r.access.admin)
    ensures Verdict(d, r) == Ok ==>
            var body, was, now := r.user.value, d.users[r.target], Served(d, r).users[r.target];
            && Some(now.username) == (if body.username.Some? then body.username else Some(was.username))
            && Some(now.passwordHash) == (if body.password.Some? then r.hash else Some(was.passwordHash))
            && now.roles == if body.roles.Some? then Existing(TextIds(body.roles.value), d.roles.Keys) else was.roles
  {
    hide Rewritten, Existing, TextIds;
  }

  /** Which refusal a user update meets: the first of its faults, in the order of the checks. */
  lemma UserRefusals(d: Docs, r: Request)
    requires r.UserUpdate?
    ensures var allowed, status := r.access.self || r.access.write, Verdict(d, r);
            && (!allowed ==> status == Forbidden)
            && (status == NotFound <==> allowed && r.user.Some? && r.target !in d.users)
            && (allowed && r.user.None? ==> status == BadRequest)
            && (allowed && r.user.Some? && r.target in d.users ==>
                  var name, password := r.user.value.username, r.user.value.password;
                  var short := name.Some? && |name.value| < 3;
                  var taken := name.Some? && r.owner.Some? && r.owner.value != r.target;
                  && (short ==> status == BadRequest)
                  && (status == Conflict <==> !short && taken)
                  && (!short && !taken && password.Some? && |password.value| < 8 ==> status == BadRequest)
                  && (status == InternalError <==>
                        !short && !taken && password.Some? && |password.value| >= 8 && r.hash.None?)
                  && (status == Forbidden <==>
                        && !short && !taken && (password.Some? ==> |password.value| >= 8 && r.hash.Some?)
                        && r.user.value.roles.Some? && !r.access.admin))
  {
  }

  /** The same for role updates: without the permission nothing changes, no other role is touched, and no user's name
      or hash. */
  lemma RoleUpdateLimits(d: Docs, r: Request)
    requires r.RoleUpdate?
    ensures var d' := Served(d, r);
            && d'.users.Keys == d.users.Keys && d'.roles.Keys == d.roles.Keys
            && (!r.allowed ==> d' == d)
            && (forall q :: q in d.roles && q != r.target ==> d'.roles[q] == d.roles[q])
            && forall u :: u in d.users ==>
                 d'.users[u].username == d.users[u].username && d'.users[u].passwordHash == d.users[u].passwordHash
  {
    hide Rewritten, Existing, AnyIds;
  }

  lemma RoleUpdateChanges(d: Docs, r: Request)
    requires r.RoleUpdate? && r.target in d.roles
    ensures var was, now := d.roles[r.target], Served(d, r).roles[r.target];
            && (now.name != was.name ==> r.role.Some? && r.role.value.name == Some(now.name) && |now.name| >= 2)
            && (now.permissions != was.permissions ==> r.role.Some? && r.role.value.permissions.Some?)
            && (now.users != was.users ==> r.role.Some? && r.role.value.users.Some?)
  {
    hide Rewritten, Existing, AnyIds, GrantedAll;
  }

  lemma RoleUpdateAccepted(d: Docs, r: Request)
    requires r.RoleUpdate?
    ensures Verdict(d, r) == Ok <==>
            && r.allowed && r.target in d.roles && r.role.Some?
            && (r.role.value.name.Some? ==> |r.role.value.name.value| >= 2 && forall id <- r.named :: id == r.target)
    ensures Verdict(d, r) == Ok ==>
            var body, was, now := r.role.value, d.roles[r.target], Served(d, r).roles[r.target];
            && Some(now.name) == (if body.name.Some? then body.name else Some(was.name))
            && now.permissions ==
               (if body.permissions.Some? then GrantedAll(body.permissions.value) else was.permissions)
            && now.users == if body.users.Some? then Existing(AnyIds(body.users.value), d.users.Keys) else was.users
  {
    hide Rewritten, Existing, AnyIds, GrantedAll;
  }

  lemma RoleRefusals(d: Docs, r: Request)
    requires r.RoleUpdate?
    ensures var status := Verdict(d, r);
            && (status == Forbidden <==> !r.allowed)
            && (status == NotFound <==> r.allowed && r.target !in d.roles)
            && (r.allowed && r.target in d.roles ==>
                  && (r.role.None? ==> status == BadRequest)
                  && (r.role.Some? ==>
                        var short := r.role.value.name.Some? && |r.role.value.name.value| < 2;
                        && (status == BadRequest <==> short)
                        && (status == Conflict <==>
                              !short && r.role.value.name.Some? && exists id <- r.named :: id != r.target)))
  {
  }

  /** While names are distinct, a change of name is refused as a conflict exactly when another document of the kind has
      the name. */
  lemma ConflictIff(d: Docs, r: Request)
    requires DistinctNames(d) && Answered(d, r)
    ensures r.UserUpdate? && r.user.Some? && r.user.value.username.Some? && r.target in d.users ==>
            var name := r.user.value.username.value;
            Verdict(d, r) == Conflict <==>
            && (r.access.self || r.access.write) && |name| >= 3
            && exists u :: u in d.users && u != r.target && d.users[u].username == name
    ensures r.RoleUpdate? && r.role.Some? && r.role.value.name.Some? && r.target in d.roles ==>
            var name := r.role.value.name.value;
            Verdict(d, r) == Conflict <==>
            r.allowed && |name| >= 2 && exists q :: q in d.roles && q != r.target && d.roles[q].name == name
  {
  }

  /** No request makes two users or two roles share a name. */
  lemma ServedKeepsNames(d: Docs, r: Request)
    requires DistinctNames(d) && Answered(d, r)
    ensures DistinctNames(Served(d, r))
  {
  }

  /** What an accepted update does to the lists on both sides. */
  lemma UserListsServed(d: Docs, r: Request)
    requires r.UserUpdate? && Verdict(d, r) == Ok
    ensures var left, right, d' := RolesOf(d.users), UsersOf(d.roles), Served(d, r);
            && right.Keys == d.roles.Keys && r.target in left
            && (r.user.value.roles.Some? ==>
                  && RolesOf(d'.users) == left[r.target := Existing(Wanted(r), right.Keys)]
                  && UsersOf(d'.roles) == Rewritten(right, left[r.target], Wanted(r), r.target))
            && (r.user.value.roles.None? ==> RolesOf(d'.users) == left && UsersOf(d'.roles) == right && Wanted(r) == [])
  {
    var left, right := RolesOf(d.users), UsersOf(d.roles);
    hide Rewritten, Existing;
    WithUsersOf(d.roles, Rewritten(right, left[r.target], Wanted(r), r.target));
  }

  lemma RoleListsServed(d: Docs, r: Request)
    requires r.RoleUpdate? && Verdict(d, r) == Ok
    ensures var left, right, d' := RolesOf(d.users), UsersOf(d.roles), Served(d, r);
            && left.Keys == d.users.Keys && r.target in right
            && (r.role.value.users.Some? ==>
                  && UsersOf(d'.roles) == right[r.target := Existing(Wanted(r), left.Keys)]
                  && RolesOf(d'.users) == Rewritten(left, right[r.target], Wanted(r), r.target))
            && (r.role.value.users.None? ==> RolesOf(d'.users) == left && UsersOf(d'.roles) == right && Wanted(r) == [])
  {
    var left, right := RolesOf(d.users), UsersOf(d.roles);
    hide Rewritten, Existing;
    WithRolesOf(d.users, Rewritten(left, right[r.target], Wanted(r), r.target));
  }

  lemma UserUpdateKeepsLinkedIff(d: Docs, r: Request)
    requires CrossLinked(d) && r.UserUpdate? && Verdict(d, r) == Ok
    ensures CrossLinked(Served(d, r)) <==> NoDups(Existing(Wanted(r), d.roles.Keys))
  {
    assert NoDups(Existing([], d.roles.Keys));
    UserListsServed(d, r);
    hide Linked, NoDups, Rewritten, Existing, Served, Wanted;
    RewriteKeepsLinkedIff(RolesOf(d.users), UsersOf(d.roles), Wanted(r), r.target);
  }

  lemma RoleUpdateKeepsLinkedIff(d: Docs, r: Request)
    requires CrossLinked(d) && r.RoleUpdate? && Verdict(d, r) == Ok
    ensures CrossLinked(Served(d, r)) <==> NoDups(Existing(Wanted(r), d.users.Keys))
  {
    assert NoDups(Existing([], d.users.Keys));
    RoleListsServed(d, r);
    hide Linked, NoDups, Rewritten, Existing, Served, Wanted;
    Mirrored(RolesOf(d.users), UsersOf(d.roles));
    RewriteKeepsLinkedIff(UsersOf(d.roles), RolesOf(d.users), Wanted(r), r.target);
    Mirrored(RolesOf(Served(d, r).users), UsersOf(Served(d, r).roles));
  }

  /** The cross-references stay linked exactly when the request is refused or wants no existing document twice. */
  lemma ServedKeepsLinkedIff(d: Docs, r: Request)
    requires CrossLinked(d)
    ensures CrossLinked(Served(d, r)) <==> Verdict(d, r) == Ok ==> NoDups(Existing(Wanted(r), Others(d, r)))
  {
    assert Verdict(d, r) != Ok ==> Served(d, r) == d;
    hide Linked, NoDups, Served, CrossLinked, Existing;
    if Verdict(d, r) == Ok && r.UserUpdate? {
      UserUpdateKeepsLinkedIff(d, r);
    } else if Verdict(d, r) == Ok {
      RoleUpdateKeepsLinkedIff(d, r);
    }
  }

  function ServedAll(d: Docs, rs: seq<Request>): Docs
    decreases |rs|
  {
    if rs == [] then d else Served(ServedAll(d, rs[..|rs| - 1]), rs[|rs| - 1])
  }

  /** Over every run of accepted and refused requests, from either handler, none naming an id twice, the relation
      stays symmetric and free of duplicates and the names stay distinct. */
  lemma {:induction false} RunKeeps(d: Docs, rs: seq<Request>)
    requires CrossLinked(d) && DistinctNames(d)
    requires forall i :: 0 <= i < |rs| ==> Answered(ServedAll(d, rs[..i]), rs[i])
    requires forall r <- rs :: NoDups(Wanted(r))
    ensures CrossLinked(ServedAll(d, rs)) && DistinctNames(ServedAll(d, rs))
    decreases |rs|
  {
    if rs != [] {
      var n := |rs| - 1;
      var front, s := rs[..n], ServedAll(d, rs[..n]);
      assert forall i :: 0 <= i < n ==> front[..i] == rs[..i];
      hide Served, CrossLinked, DistinctNames, Answered, Verdict, Existing;
      RunKeeps(d, front);
      ExistingElements(Wanted(rs[n]), Others(s, rs[n]));
      ServedKeepsNames(s, rs[n]);
      ServedKeepsLinkedIff(s, rs[n]);
    }
  }

  // ----- Rights over whole runs

  /** The request may not rewrite lists. */
  predicate WithoutRights(r: Request) { if r.UserUpdate? then !r.access.admin else !r.allowed }

  /** In a run of requests without the rights for it no list on either side ever changes. */
  lemma {:induction false} NoRightsNoLists(d: Docs, rs: seq<Request>)
    requires forall r <- rs :: WithoutRights(r)
    ensures RolesOf(ServedAll(d, rs).users) == RolesOf(d.users) && UsersOf(ServedAll(d, rs).roles) == UsersOf(d.roles)
    decreases |rs|
  {
    if rs != [] {
      var front, last := rs[..|rs| - 1], rs[|rs| - 1];
      assert last in rs && forall r <- front :: r in rs;
      NoRightsNoLists(d, front);
      hide Served, RolesOf, UsersOf;
      if last.UserUpdate? {
        UserUpdateLimits(ServedAll(d, front), last);
      } else {
        RoleUpdateLimits(ServedAll(d, front), last);
      }
    }
  }

  /** The request sets this hash for user u: it comes from u himself or from someone who may write users, with a
      password of at least 8 characters. */
  predicate SetsHash(r: Request, u: Id, hash: string) {
    && r.UserUpdate? && r.target == u && (r.access.self || r.access.write) && r.hash == Some(hash)
    && r.user.Some? && r.user.value.password.Some? && |r.user.value.password.value| >= 8
  }

  /** After any run every user's hash is the one of the start, or was set by some request of the run. */
  lemma {:induction false} HashesComeFrom(d: Docs, rs: seq<Request>, u: Id)
    requires u in d.users
    ensures u in ServedAll(d, rs).users
    ensures var hash := ServedAll(d, rs).users[u].passwordHash;
            hash == d.users[u].passwordHash || exists r <- rs :: SetsHash(r, u, hash)
    decreases |rs|
  {
    if rs != [] {
      var front, last := rs[..|rs| - 1], rs[|rs| - 1];
      var s := ServedAll(d, front);
      assert last in rs && forall r <- front :: r in rs;
      HashesComeFrom(d, front, u);
      hide Served;
      if last.RoleUpdate? {
        RoleUpdateLimits(s, last);
      } else {
        UserUpdateLimits(s, last);
        if last.target == u {
          UserUpdateChanges(s, last);
        }
      }
    }
  }

  // ----- Symmetry alone, for requests that may name an id twice

  ghost predicate CrossSymmetric(d: Docs) { Symmetric(RolesOf(d.users), UsersOf(d.roles)) }

  /** Each list on the other side that the request does not ask for names its target no more often than the target's
      own list names that document. */
  ghost predicate Releases(d: Docs, r: Request) {
    var left, right := RolesOf(d.users), UsersOf(d.roles);
    match r
    case UserUpdate(target, _, user, _, _) =>
      user.Some? && user.value.roles.Some? && target in left ==> Released(left, right, Wanted(r), target)
    case RoleUpdate(target, _, role, _) =>
      role.Some? && role.value.users.Some? && target in right ==> Released(right, left, Wanted(r), target)
  }

  /** A request keeps the cross-references symmetric exactly when it is refused or releases its target. */
  lemma ServedKeepsSymmetricIff(d: Docs, r: Request)
    requires CrossSymmetric(d)
    ensures CrossSymmetric(Served(d, r)) <==> Verdict(d, r) == Ok ==> Releases(d, r)
  {
    assert Verdict(d, r) != Ok ==> Served(d, r) == d;
    if Verdict(d, r) == Ok && r.UserUpdate? {
      UserListsServed(d, r);
      hide Symmetric, Rewritten, Existing, Served, Wanted, Released, Verdict;
      if r.user.value.roles.Some? {
        RewriteKeepsSymmetricIff(RolesOf(d.users), UsersOf(d.roles), Wanted(r), r.target);
      }
    } else if Verdict(d, r) == Ok {
      RoleListsServed(d, r);
      hide Symmetric, Rewritten, Existing, Served, Wanted, Released, Verdict;
      SymmetricMirrored(RolesOf(d.users), UsersOf(d.roles));
      SymmetricMirrored(RolesOf(Served(d, r).users), UsersOf(Served(d, r).roles));
      if r.role.value.users.Some? {
        RewriteKeepsSymmetricIff(UsersOf(d.roles), RolesOf(d.users), Wanted(r), r.target);
      }
    }
  }

  ghost predicate Fine(d: Docs, r: Request) { Verdict(d, r) == Ok ==> Releases(d, r) }

  lemma {:induction false} SymmetricUpTo(d: Docs, rs: seq<Request>, n: nat)
    requires CrossSymmetric(d) && n <= |rs| && forall i :: 0 <= i < n ==> Fine(ServedAll(d, rs[..i]), rs[i])
    ensures CrossSymmetric(ServedAll(d, rs[..n]))
  {
    if n > 0 {
      SymmetricUpTo(d, rs, n - 1);
      assert rs[..n][..n - 1] == rs[..n - 1];
      hide Served, CrossSymmetric, Releases, Verdict;
      ServedKeepsSymmetricIff(ServedAll(d, rs[..n - 1]), rs[n - 1]);
    } else {
      assert rs[..0] == [];
    }
  }

  /** Over any run of requests, duplicates or not, the cross-references are symmetric in every state exactly when every
      accepted request releases its target. */
  lemma RunSymmetricIff(d: Docs, rs: seq<Request>)
    requires CrossSymmetric(d)
    ensures (forall n :: 0 <= n <= |rs| ==> CrossSymmetric(ServedAll(d, rs[..n]))) <==>
            forall i :: 0 <= i < |rs| ==> Fine(ServedAll(d, rs[..i]), rs[i])
  {
    hide CrossSymmetric, Releases, Verdict, Served;
    if forall i :: 0 <= i < |rs| ==> Fine(ServedAll(d, rs[..i]), rs[i]) {
      forall n | 0 <= n <= |rs| ensures CrossSymmetric(ServedAll(d, rs[..n])) {
        SymmetricUpTo(d, rs, n);
      }
    } else {
      var i :| 0 <= i < |rs| && !Fine(ServedAll(d, rs[..i]), rs[i]);
      var s := ServedAll(d, rs[..i]);
      assert rs[..i + 1][..i] == rs[..i];
      assert ServedAll(d, rs[..i + 1]) == Served(s, rs[i]);
      if CrossSymmetric(s) {
        ServedKeepsSymmetricIff(s, rs[i]);
      }
    }
  }

  class Store {
    var users: map<Id, User>
    var roles: map<Id, Role>

    function State(): Docs reads this { Docs(users, roles) }

    constructor (docs: Docs)
      ensures State() == docs
    {
      users, roles := docs.users, docs.roles;
    }

    /** Lines 645-675: drop the user from one role's list. */
    method DropUser(role: Id, user: Id)
      modifies this`roles
      ensures role !in old(roles) ==> roles == old(roles)
      ensures role in old(roles) ==>
        roles == old(roles)[role := old(roles)[role].(users := Removed(old(roles)[role].users, user))]
    {
      if role in roles {
        var list := new IdArray(roles[role].users);
        list.RemoveFirst(user);
        roles := roles[role := roles[role].(users := list.Contents())];
      }
    }

    /** Lines 705-733: put the user into one role's list unless it is there. */
    method AddUser(role: Id, user: Id)
      requires role in roles
      modifies this`roles
      ensures roles == old(roles)[role := old(roles)[role].(users := Added(old(roles)[role].users, user))]
    {
      var list := new IdArray(roles[role].users);
      var there := list.Contains(user);
      if !there {
        list.Append(user);
      }
      roles := roles[role := roles[role].(users := list.Contents())];
    }

    /** Lines 631-677: the user leaves every role in its list that exists. */
    method LeaveRoles(current: IdArray, user: Id)
      requires current.Valid()
      modifies this`roles
      ensures roles == WithUsers(old(roles), DropFrom(UsersOf(old(roles)), current.Contents(), user))
    {
      ghost var base, lists, ids := roles, UsersOf(roles), current.Contents();
      WithUsersOf(base, lists);
      assert ids[..0] == [];
      for i := 0 to current.size
        invariant roles == WithUsers(base, DropFrom(lists, ids[..i], user))
      {
        hide DropFrom, UsersOf, WithUsers;
        var role := current.items[i];
        assert ids[..i + 1] == ids[..i] + [role];
        DropUser(role, user);
        OneDropped(base, lists, ids[..i], role, user);
      }
      assert ids[..current.size] == ids;
    }

    /** Lines 683-739: each requested role that exists enters the user's list, and the user enters its list. */
    method EnterRoles(requested: seq<Element>, kept: IdArray, user: Id)
      requires kept.Valid() && kept.Contents() == []
      modifies this`roles, kept, kept.items
      ensures kept.Valid() && kept.Contents() == Existing(TextIds(requested), old(roles).Keys)
      ensures roles == WithUsers(old(roles), AddTo(UsersOf(old(roles)), TextIds(requested), user))
    {
      ghost var base, lists := roles, UsersOf(roles);
      WithUsersOf(base, lists);
      for i := 0 to |requested|
        invariant kept.Valid() && (kept.items == old(kept.items) || fresh(kept.items))
        invariant kept.Contents() == Existing(TextIds(requested[..i]), base.Keys)
        invariant roles == WithUsers(base, AddTo(lists, TextIds(requested[..i]), user))
      {
        TextIdsNext(requested, i);
        hide AddTo, UsersOf, WithUsers, TextIds, Existing;
        if requested[i].Text? {
          var role := requested[i].id;
          OneAdded(base, lists, TextIds(requested[..i]), role, user);
          if role in roles {
            kept.Append(role);
            AddUser(role, user);
          }
        }
      }
      assert requested[..|requested|] == requested;
    }

    /** api_handle_user_update. */
    method UpdateUser(target: Id, access: Access, body: Option<UserBody>, owner: Option<Id>, hash: Option<string>)
      returns (status: Status)
      modifies this
      ensures var r := UserUpdate(target, access, body, owner, hash);
              status == Verdict(old(State()), r) && State() == Served(old(State()), r)
    {
      ghost var d := State();
      if !access.self && !access.write {
        return Forbidden;
      }
      if body.None? {
        return BadRequest;
      }
      if target !in users {
        return NotFound;
      }
      var user := users[target];  // the copy the query returns
      if body.value.username.Some? {
        var name := body.value.username.value;
        if |name| < 3 {
          return BadRequest;
        }
        if owner.Some? && owner.value != target {
          return Conflict;
        }
        user := user.(username := name);
      }
      if body.value.password.Some? {
        if |body.value.password.value| < 8 {
          return BadRequest;
        }
        if hash.None? {
          return InternalError;
        }
        user := user.(passwordHash := hash.value);
      }
      if body.value.roles.Some? {
        if !access.admin {
          return Forbidden;
        }
        var requested := body.value.roles.value;
        user := RewriteRoles(target, user, requested);
      }
      users := users[target := user];
      return Ok;
    }

    /** Lines 622-739: both sides of the user's roles; the user's own document is only returned. */
    method RewriteRoles(target: Id, user: User, requested: seq<Element>) returns (rewritten: User)
      modifies this`roles
      ensures rewritten == user.(roles := Existing(TextIds(requested), old(roles).Keys))
      ensures roles == WithUsers(old(roles), Rewritten(UsersOf(old(roles)), user.roles, TextIds(requested), target))
    {
      ghost var base := roles;
      var current := new IdArray(user.roles);
      LeaveRoles(current, target);
      WithUsersOf(base, DropFrom(UsersOf(base), user.roles, target));
      current.size := 0;
      EnterRoles(requested, current, target);
      rewritten := user.(roles := current.Contents());
      WithTwice(base, DropFrom(UsersOf(base), user.roles, target));
    }

    /** Lines 1617-1637. */
    method DropRole(user: Id, role: Id)
      modifies this`users
      ensures user !in old(users) ==> users == old(users)
      ensures user in old(users) ==>
        users == old(users)[user := old(users)[user].(roles := Removed(old(users)[user].roles, role))]
    {
      if user in users {
        var list := new IdArray(users[user].roles);
        list.RemoveFirst(role);
        users := users[user := users[user].(roles := list.Contents())];
      }
    }

    /** Lines 1681-1708. */
    method AddRole(user: Id, role: Id)
      requires user in users
      modifies this`users
      ensures users == old(users)[user := old(users)[user].(roles := Added(old(users)[user].roles, role))]
    {
      var list := new IdArray(users[user].roles);
      var there := list.Contains(role);
      if !there {
        list.Append(role);
      }
      users := users[user := users[user].(roles := list.Contents())];
    }

    /** Lines 1598-1643: the role leaves every user in its list that exists. */
    method LeaveUsers(current: IdArray, role: Id)
      requires current.Valid()
      modifies this`users
      ensures users == WithRoles(old(users), DropFrom(RolesOf(old(users)), current.Contents(), role))
    {
      ghost var base, lists, ids := users, RolesOf(users), current.Contents();
      WithRolesOf(base, lists);
      assert ids[..0] == [];
      for i := 0 to current.size
        invariant users == WithRoles(base, DropFrom(lists, ids[..i], role))
      {
        hide DropFrom, RolesOf, WithRoles;
        var user := current.items[i];
        assert ids[..i + 1] == ids[..i] + [user];
        DropRole(user, role);
        OneRoleDropped(base, lists, ids[..i], user, role);
      }
      assert ids[..current.size] == ids;
    }

    /** Lines 1649-1714: each requested user that exists enters the role's list, and the role enters its list. */
    method EnterUsers(requested: seq<Element>, kept: IdArray, role: Id)
      requires kept.Valid() && kept.Contents() == []
      modifies this`users, kept, kept.items
      ensures kept.Valid() && kept.Contents() == Existing(AnyIds(requested), old(users).Keys)
      ensures users == WithRoles(old(users), AddTo(RolesOf(old(users)), AnyIds(requested), role))
    {
      ghost var base, lists := users, RolesOf(users);
      WithRolesOf(base, lists);
      for i := 0 to |requested|
        invariant kept.Valid() && (kept.items == old(kept.items) || fresh(kept.items))
        invariant kept.Contents() == Existing(AnyIds(requested[..i]), base.Keys)
        invariant users == WithRoles(base, AddTo(lists, AnyIds(requested[..i]), role))
      {
        AnyIdsNext(requested, i);
        hide AddTo, RolesOf, WithRoles, AnyIds, Existing, IdOf;
        var id := IdOf(requested[i]);
        if id.Some? {
          var user := id.value;
          OneRoleAdded(base, lists, AnyIds(requested[..i]), user, role);
          if user in users {
            kept.Append(user);
            AddRole(user, role);
          }
        }
      }
      assert requested[..|requested|] == requested;
    }

    /** Lines 1546-1584. */
    method Grant(permissions: Object<Permission>, requested: seq<Member<Permission>>)
      requires permissions.members == []
      modifies permissions
      ensures permissions.members == GrantedAll(requested)
    {
      for i := 0 to |requested|
        invariant permissions.members == GrantedAll(requested[..i])
      {
        assert requested[..i + 1][..i] == requested[..i];
        var key, value := requested[i].key, requested[i].value;
        match value {
          case Number(x) => permissions.Set(key, Number(x));
          case Integer(n) => permissions.Set(key, Number(n as real));
          case Flags(read, write, delete, admin) =>
            var permission: bv8 := 0;
            if read { permission := permission | READ; }
            if write { permission := permission | WRITE; }
            if delete { permission := permission | DELETE; }
            if admin { permission := permission | ADMIN; }
            assert permission == Mask(value);
            if permission != 0 {
              permissions.Set(key, Number(permission as int as real));
            }
          case Other =>
        }
      }
      assert requested[..|requested|] == requested;
    }

    /** Lines 1589-1714: both sides of the role's users; the role's own document is only returned. */
    method RewriteUsers(target: Id, role: Role, requested: seq<Element>) returns (rewritten: Role)
      modifies this`users
      ensures rewritten == role.(users := Existing(AnyIds(requested), old(users).Keys))
      ensures users == WithRoles(old(users), Rewritten(RolesOf(old(users)), role.users, AnyIds(requested), target))
    {
      ghost var base := users;
      var current := new IdArray(role.users);
      LeaveUsers(current, target);
      WithRolesOf(base, DropFrom(RolesOf(base), role.users, target));
      current.size := 0;
      EnterUsers(requested, current, target);
      rewritten := role.(users := current.Contents());
      WithRolesTwice(base, DropFrom(RolesOf(base), role.users, target));
    }

    /** api_handle_role_update. */
    method UpdateRole(target: Id, allowed: bool, body: Option<RoleBody>, named: seq<Id>) returns (status: Status)
      modifies this
      ensures var r := RoleUpdate(target, allowed, body, named);
              status == Verdict(old(State()), r) && State() == Served(old(State()), r)
    {
      if !allowed {
        return Forbidden;
      }
      if target !in roles {
        return NotFound;
      }
      if body.None? {
        return BadRequest;
      }
      var role := roles[target];  // the copy the query returns
      if body.value.name.Some? {
        if |body.value.name.value| < 2 {
          return BadRequest;
        }
        for i := 0 to |named|
          invariant forall j :: 0 <= j < i ==> named[j] == target
        {
          if named[i] != target {
            assert named[i] in named;
            return Conflict;
          }
        }
        role := role.(name := body.value.name.value);
      }
      if body.value.permissions.Some? {
        var permissions := new Object(role.permissions);
        permissions.Clear();
        Grant(permissions, body.value.permissions.value);
        role := role.(permissions := permissions.members);
      }
      if body.value.users.Some? {
        role := RewriteUsers(target, role, body.value.users.value);
      }
      roles := roles[target := role];
      return Ok;
    }
  }
}

/**
 * The many-to-many links: a user's list of role ids and a role's list of
 * privilege ids. Adding appends the id only when it is not already listed;
 * removing filters out every occurrence. Neither checks that the id names an
 * existing role or privilege.
 */
module Links {
  import opened Outcomes
  import opened Entities
  import opened Scoped

  // ---------------------------------------------------------------- id lists

  /** `if (!xs.includes(x)) xs.push(x)`. */
  function AddId(xs: seq<string>, x: string): (r: seq<string>)
    ensures x in r
    ensures x in xs ==> r == xs
    ensures x !in xs ==> r == xs + [x]
  {
    if x in xs then xs else xs + [x]
  }

  /** `xs.filter(y => y !== x)`. */
  function RemoveId(xs: seq<string>, x: string): (r: seq<string>)
    ensures x !in r
    ensures forall y :: y in r <==> y in xs && y != x
    ensures |r| <= |xs|
    decreases |xs|
  {
    if |xs| == 0 then []
    else (if xs[0] == x then [] else [xs[0]]) + RemoveId(xs[1..], x)
  }

  /** Removing keeps the other ids in their order: it distributes over concatenation. */
  lemma {:induction false} RemoveIdAppend(a: seq<string>, b: seq<string>, x: string)
    ensures RemoveId(a + b, x) == RemoveId(a, x) + RemoveId(b, x)
    decreases |a|
  {
    if |a| == 0 {
      assert a + b == b;
    } else {
      var head := if a[0] == x then [] else [a[0]];
      assert (a + b)[0] == a[0];
      assert (a + b)[1..] == a[1..] + b;
      RemoveIdAppend(a[1..], b, x);
      calc {
        RemoveId(a + b, x);
        head + RemoveId(a[1..] + b, x);
        head + (RemoveId(a[1..], x) + RemoveId(b, x));
        (head + RemoveId(a[1..], x)) + RemoveId(b, x);
      }
    }
  }

  /** Removing an id that is not listed changes nothing. */
  lemma {:induction false} RemoveIdAbsent(xs: seq<string>, x: string)
    requires x !in xs
    ensures RemoveId(xs, x) == xs
    decreases |xs|
  {
    if |xs| > 0 {
      assert x !in xs[1..];
      RemoveIdAbsent(xs[1..], x);
      assert xs == [xs[0]] + xs[1..];
    }
  }

  /** Removing twice is removing once. */
  lemma RemoveIdIdempotent(xs: seq<string>, x: string)
    ensures RemoveId(RemoveId(xs, x), x) == RemoveId(xs, x)
  {
    RemoveIdAbsent(RemoveId(xs, x), x);
  }

  /** Adding then removing an id is just removing it. */
  lemma AddThenRemove(xs: seq<string>, x: string)
    ensures RemoveId(AddId(xs, x), x) == RemoveId(xs, x)
  {
    if x !in xs {
      RemoveIdAppend(xs, [x], x);
      assert RemoveId([x], x) == [];
    }
  }

  // ---------------------------------------------------------------- user roles

  /** `assignRoleToUser(tenantId, userId, roleId)`. */
  function AssignRole(users: seq<User>, tenantId: string, userId: string, roleId: string, now: string): (r: Result<seq<User>>)
    ensures r.Failure? <==> Absent(users, tenantId, userId)
    ensures r.Failure? ==> r.message == "User not found"
    ensures r.Success? ==>
      exists i :: 0 <= i < |users| && Matches(users[i], tenantId, userId) && Absent(users[..i], tenantId, userId)
        && |r.value| == |users|
        && (forall k :: 0 <= k < |users| && k != i ==> r.value[k] == users[k])
        && roleId in r.value[i].fields.roles
        && (roleId in users[i].fields.roles ==> r.value == users)
        && (roleId !in users[i].fields.roles ==>
              r.value[i] == users[i].(fields := users[i].fields.(roles := users[i].fields.roles + [roleId]), updatedAt := now))
    ensures r.Success? ==> |r.value| == |users| && forall k :: 0 <= k < |users| && users[k].tenantId != tenantId ==> r.value[k] == users[k]
  {
    match Locate(users, tenantId, userId)
    case None => Failure("User not found")
    case Some(i) =>
      var u := users[i];
      if roleId in u.fields.roles then Success(users)
      else Success(users[i := u.(fields := u.fields.(roles := AddId(u.fields.roles, roleId)), updatedAt := now)])
  }

  /** `removeRoleFromUser(tenantId, userId, roleId)`: `updatedAt` moves even when the role was not assigned. */
  function RemoveRole(users: seq<User>, tenantId: string, userId: string, roleId: string, now: string): (r: Result<seq<User>>)
    ensures r.Failure? <==> Absent(users, tenantId, userId)
    ensures r.Failure? ==> r.message == "User not found"
    ensures r.Success? ==>
      exists i :: 0 <= i < |users| && Matches(users[i], tenantId, userId) && Absent(users[..i], tenantId, userId)
        && |r.value| == |users|
        && (forall k :: 0 <= k < |users| && k != i ==> r.value[k] == users[k])
        && roleId !in r.value[i].fields.roles
        && r.value[i] == users[i].(fields := users[i].fields.(roles := RemoveId(users[i].fields.roles, roleId)), updatedAt := now)
    ensures r.Success? ==> |r.value| == |users| && forall k :: 0 <= k < |users| && users[k].tenantId != tenantId ==> r.value[k] == users[k]
  {
    match Locate(users, tenantId, userId)
    case None => Failure("User not found")
    case Some(i) =>
      var u := users[i];
      Success(users[i := u.(fields := u.fields.(roles := RemoveId(u.fields.roles, roleId)), updatedAt := now)])
  }

  // ---------------------------------------------------------------- role privileges

  /** `linkPrivilegeToRole(tenantId, roleId, privilegeId)`. */
  function LinkPrivilege(roles: seq<Role>, tenantId: string, roleId: string, privilegeId: string, now: string): (r: Result<seq<Role>>)
    ensures r.Failure? <==> Absent(roles, tenantId, roleId)
    ensures r.Failure? ==> r.message == "Role not found"
    ensures r.Success? ==>
      exists i :: 0 <= i < |roles| && Matches(roles[i], tenantId, roleId) && Absent(roles[..i], tenantId, roleId)
        && |r.value| == |roles|
        && (forall k :: 0 <= k < |roles| && k != i ==> r.value[k] == roles[k])
        && privilegeId in r.value[i].fields.privileges
        && (privilegeId in roles[i].fields.privileges ==> r.value == roles)
        && (privilegeId !in roles[i].fields.privileges ==>
              r.value[i] == roles[i].(fields := roles[i].fields.(privileges := roles[i].fields.privileges + [privilegeId]), updatedAt := now))
    ensures r.Success? ==> |r.value| == |roles| && forall k :: 0 <= k < |roles| && roles[k].tenantId != tenantId ==> r.value[k] == roles[k]
  {
    match Locate(roles, tenantId, roleId)
    case None => Failure("Role not found")
    case Some(i) =>
      var role := roles[i];
      if privilegeId in role.fields.privileges then Success(roles)
      else Success(roles[i := role.(fields := role.fields.(privileges := AddId(role.fields.privileges, privilegeId)), updatedAt := now)])
  }

  /** `unlinkPrivilegeFromRole(tenantId, roleId, privilegeId)`: `updatedAt` moves even when nothing was linked. */
  function UnlinkPrivilege(roles: seq<Role>, tenantId: string, roleId: string, privilegeId: string, now: string): (r: Result<seq<Role>>)
    ensures r.Failure? <==> Absent(roles, tenantId, roleId)
    ensures r.Failure? ==> r.message == "Role not found"
    ensures r.Success? ==>
      exists i :: 0 <= i < |roles| && Matches(roles[i], tenantId, roleId) && Absent(roles[..i], tenantId, roleId)
        && |r.value| == |roles|
        && (forall k :: 0 <= k < |roles| && k != i ==> r.value[k] == roles[k])
        && privilegeId !in r.value[i].fields.privileges
        && r.value[i] == roles[i].(fields := roles[i].fields.(privileges := RemoveId(roles[i].fields.privileges, privilegeId)), updatedAt := now)
    ensures r.Success? ==> |r.value| == |roles| && forall k :: 0 <= k < |roles| && roles[k].tenantId != tenantId ==> r.value[k] == roles[k]
  {
    match Locate(roles, tenantId, roleId)
    case None => Failure("Role not found")
    case Some(i) =>
      var role := roles[i];
      Success(roles[i := role.(fields := role.fields.(privileges := RemoveId(role.fields.privileges, privilegeId)), updatedAt := now)])
  }

  // ---------------------------------------------------------------- properties

  /** Assigning the same role twice is assigning it once, whatever the second clock reading. */
  lemma AssignRoleIdempotent(users: seq<User>, tenantId: string, userId: string, roleId: string, now: string, later: string)
    requires AssignRole(users, tenantId, userId, roleId, now).Success?
    ensures AssignRole(AssignRole(users, tenantId, userId, roleId, now).value, tenantId, userId, roleId, later)
         == AssignRole(users, tenantId, userId, roleId, now)
  {
    var i := Locate(users, tenantId, userId).value;
    var users' := AssignRole(users, tenantId, userId, roleId, now).value;
    assert users'[..i] == users[..i];
    LocateFirst(users', tenantId, userId, i);
  }

  /** Removing the same role twice leaves the same role list as removing it once. */
  lemma RemoveRoleIdempotent(users: seq<User>, tenantId: string, userId: string, roleId: string, now: string, later: string)
    requires RemoveRole(users, tenantId, userId, roleId, now).Success?
    ensures RemoveRole(RemoveRole(users, tenantId, userId, roleId, now).value, tenantId, userId, roleId, later).Success?
    ensures var once := RemoveRole(users, tenantId, userId, roleId, now).value;
            var twice := RemoveRole(once, tenantId, userId, roleId, later).value;
            |twice| == |once| && forall k :: 0 <= k < |once| ==> twice[k].fields == once[k].fields
  {
    var i := Locate(users, tenantId, userId).value;
    var once := RemoveRole(users, tenantId, userId, roleId, now).value;
    assert once[..i] == users[..i];
    LocateFirst(once, tenantId, userId, i);
    RemoveIdIdempotent(users[i].fields.roles, roleId);
  }

  /** Linking the same privilege twice is linking it once, whatever the second clock reading. */
  lemma LinkPrivilegeIdempotent(roles: seq<Role>, tenantId: string, roleId: string, privilegeId: string, now: string, later: string)
    requires LinkPrivilege(roles, tenantId, roleId, privilegeId, now).Success?
    ensures LinkPrivilege(LinkPrivilege(roles, tenantId, roleId, privilegeId, now).value, tenantId, roleId, privilegeId, later)
         == LinkPrivilege(roles, tenantId, roleId, privilegeId, now)
  {
    var i := Locate(roles, tenantId, roleId).value;
    var roles' := LinkPrivilege(roles, tenantId, roleId, privilegeId, now).value;
    assert roles'[..i] == roles[..i];
    LocateFirst(roles', tenantId, roleId, i);
  }

  /** Unlinking the same privilege twice leaves the same privilege list as unlinking it once. */
  lemma UnlinkPrivilegeIdempotent(roles: seq<Role>, tenantId: string, roleId: string, privilegeId: string, now: string, later: string)
    requires UnlinkPrivilege(roles, tenantId, roleId, privilegeId, now).Success?
    ensures UnlinkPrivilege(UnlinkPrivilege(roles, tenantId, roleId, privilegeId, now).value, tenantId, roleId, privilegeId, later).Success?
    ensures var once := UnlinkPrivilege(roles, tenantId, roleId, privilegeId, now).value;
            var twice := UnlinkPrivilege(once, tenantId, roleId, privilegeId, later).value;
            |twice| == |once| && forall k :: 0 <= k < |once| ==> twice[k].fields == once[k].fields
  {
    var i := Locate(roles, tenantId, roleId).value;
    var once := UnlinkPrivilege(roles, tenantId, roleId, privilegeId, now).value;
    assert once[..i] == roles[..i];
    LocateFirst(once, tenantId, roleId, i);
    RemoveIdIdempotent(roles[i].fields.privileges, privilegeId);
  }
}

/**
 * The tenant-scoped collections of the mock service layer (organizations,
 * users, roles, privileges, legal entities). Each collection is a sequence of
 * records in insertion order; every operation names the tenant it acts for
 * and finds records by the pair (tenant id, record id). The operations are
 * written once, for any record fields `B`; a per-kind update passes its own
 * spread of a partial record as `apply`.
 */
module Scoped {
  import opened Outcomes
  import opened Entities

  /** The record has both the id and the tenant the caller names. */
  predicate Matches<B>(r: Record<B>, tenantId: string, id: string) {
    r.id == id && r.tenantId == tenantId
  }

  /** No record of the collection has this (tenant, id) pair. */
  predicate Absent<B>(s: seq<Record<B>>, tenantId: string, id: string) {
    forall k :: 0 <= k < |s| ==> !Matches(s[k], tenantId, id)
  }

  /** `findIndex` on (tenant, id): the first matching position, if any. */
  function Locate<B>(s: seq<Record<B>>, tenantId: string, id: string): (r: Option<nat>)
    ensures r.None? <==> Absent(s, tenantId, id)
    ensures r.Some? ==> r.value < |s| && Matches(s[r.value], tenantId, id) && Absent(s[..r.value], tenantId, id)
    decreases |s|
  {
    if |s| == 0 then None
    else if Matches(s[0], tenantId, id) then Some(0)
    else
      match Locate(s[1..], tenantId, id)
      case None => None
      case Some(i) =>
        assert s[..i + 1] == [s[0]] + s[1..][..i];
        Some(i + 1)
  }

  /** A matching position with no match before it is the one `Locate` finds. */
  lemma LocateFirst<B>(s: seq<Record<B>>, tenantId: string, id: string, i: nat)
    requires i < |s| && Matches(s[i], tenantId, id) && Absent(s[..i], tenantId, id)
    ensures Locate(s, tenantId, id) == Some(i)
  {
  }

  // ---------------------------------------------------------------- list and get

  /** `getXs(tenantId)`: the records of one tenant, in collection order. */
  function List<B>(s: seq<Record<B>>, tenantId: string): (r: seq<Record<B>>)
    ensures forall x :: x in r ==> x in s && x.tenantId == tenantId
    ensures forall x :: x in s && x.tenantId == tenantId ==> x in r
    decreases |s|
  {
    if |s| == 0 then []
    else
      var rest := List(s[1..], tenantId);
      assert s == [s[0]] + s[1..];
      if s[0].tenantId == tenantId then [s[0]] + rest else rest
  }

  /** A record of the tenant is listed as many times as it is stored; any other record not at all. */
  lemma {:induction false} ListCount<B>(s: seq<Record<B>>, tenantId: string, x: Record<B>)
    ensures multiset(List(s, tenantId))[x] == if x.tenantId == tenantId then multiset(s)[x] else 0
    decreases |s|
  {
    if |s| > 0 {
      ListCount(s[1..], tenantId, x);
      assert s == [s[0]] + s[1..];
    }
  }

  /** Listing distributes over concatenation, so it keeps the collection's order. */
  lemma {:induction false} ListAppend<B>(a: seq<Record<B>>, b: seq<Record<B>>, tenantId: string)
    ensures List(a + b, tenantId) == List(a, tenantId) + List(b, tenantId)
    decreases |a|
  {
    if |a| == 0 {
      assert a + b == b;
    } else {
      assert (a + b)[1..] == a[1..] + b;
      ListAppend(a[1..], b, tenantId);
    }
  }

  /** The listing of a single record: itself when it belongs to the tenant, nothing otherwise. */
  lemma ListSingle<B>(x: Record<B>, tenantId: string)
    ensures List([x], tenantId) == if x.tenantId == tenantId then [x] else []
  {
    assert [x][1..] == [];
  }

  /** `getX(tenantId, id)`: the first record with that id in that tenant, or `null`. */
  function Get<B>(s: seq<Record<B>>, tenantId: string, id: string): (r: Option<Record<B>>)
    ensures r.None? <==> Absent(s, tenantId, id)
    ensures r.Some? ==>
      exists k :: 0 <= k < |s| && s[k] == r.value && Matches(r.value, tenantId, id) && Absent(s[..k], tenantId, id)
  {
    match Locate(s, tenantId, id)
    case None => None
    case Some(i) => Some(s[i])
  }

  // ---------------------------------------------------------------- create

  /** `createX(tenantId, data)` with the generated id and the clock reading passed in. */
  function Create<B>(s: seq<Record<B>>, tenantId: string, id: string, now: string, fields: B): (r: (seq<Record<B>>, Record<B>))
    ensures |r.0| == |s| + 1 && r.0[..|s|] == s && r.0[|s|] == r.1
    ensures r.1.id == id && r.1.tenantId == tenantId && r.1.fields == fields
    ensures r.1.createdAt == now && r.1.updatedAt == now
  {
    var x := Record(id, tenantId, fields, now, now);
    (s + [x], x)
  }

  /** A record created with an id new to its tenant is what a later get returns. */
  lemma CreateThenGet<B>(s: seq<Record<B>>, tenantId: string, id: string, now: string, fields: B)
    requires Absent(s, tenantId, id)
    ensures Get(Create(s, tenantId, id, now, fields).0, tenantId, id) == Some(Create(s, tenantId, id, now, fields).1)
  {
    var (s', x) := Create(s, tenantId, id, now, fields);
    assert Absent(s'[..|s|], tenantId, id);
    assert Locate(s', tenantId, id) == Some(|s|);
  }

  /** Creating adds the record at the end of its own tenant's listing and leaves every other tenant's listing alone. */
  lemma CreateListing<B>(s: seq<Record<B>>, tenantId: string, id: string, now: string, fields: B, other: string)
    requires other != tenantId
    ensures List(Create(s, tenantId, id, now, fields).0, tenantId) == List(s, tenantId) + [Create(s, tenantId, id, now, fields).1]
    ensures List(Create(s, tenantId, id, now, fields).0, other) == List(s, other)
  {
    var (s', x) := Create(s, tenantId, id, now, fields);
    ListAppend(s, [x], tenantId);
    ListAppend(s, [x], other);
    ListSingle(x, tenantId);
    ListSingle(x, other);
  }

  // ---------------------------------------------------------------- update

  /**
   * The record `{...old, ...patch, updatedAt: now}`: every property the patch
   * mentions, the envelope's included, takes the patch's value; `updatedAt`
   * becomes `now` whatever the patch says.
   */
  function Merge<B, P>(stored: Record<B>, p: Patch<P>, apply: (B, P) -> B, now: string): Record<B> {
    Record(Override(stored.id, p.id), Override(stored.tenantId, p.tenantId), apply(stored.fields, p.fields),
           Override(stored.createdAt, p.createdAt), now)
  }

  /** `updateX(tenantId, id, data)`: replace the first matching record by its merge with the patch. */
  function Update<B, P>(s: seq<Record<B>>, tenantId: string, id: string, now: string,
                        p: Patch<P>, apply: (B, P) -> B, notFound: string): (r: Result<(seq<Record<B>>, Record<B>)>)
    ensures r.Failure? <==> Absent(s, tenantId, id)
    ensures r.Failure? ==> r.message == notFound
    ensures r.Success? ==>
      var (s', x) := r.value;
      exists i :: 0 <= i < |s| && Matches(s[i], tenantId, id) && Absent(s[..i], tenantId, id)
        && |s'| == |s| && s'[i] == x
        && (forall k :: 0 <= k < |s| && k != i ==> s'[k] == s[k])
        && x.id == Override(s[i].id, p.id)
        && x.tenantId == Override(tenantId, p.tenantId)
        && x.createdAt == Override(s[i].createdAt, p.createdAt)
        && x.fields == apply(s[i].fields, p.fields)
        && x.updatedAt == now
  {
    match Locate(s, tenantId, id)
    case None => Failure(notFound)
    case Some(i) =>
      var x := Merge(s[i], p, apply, now);
      Success((s[i := x], x))
  }

  /** `s'` is `s` with its first record matching (tenant, id), at position `i`, replaced by `x`. */
  predicate ReplacedAt<B(==)>(s: seq<Record<B>>, tenantId: string, id: string, i: int, s': seq<Record<B>>, x: Record<B>) {
    0 <= i < |s| && Matches(s[i], tenantId, id) && Absent(s[..i], tenantId, id) && s' == s[i := x]
  }

  /** The envelope of `x` is that of `stored` with the patch spread over it and `updatedAt` set to `now`. */
  predicate Stamped<B, P>(stored: Record<B>, p: Patch<P>, now: string, x: Record<B>) {
    x.id == Override(stored.id, p.id) && x.tenantId == Override(stored.tenantId, p.tenantId)
      && x.createdAt == Override(stored.createdAt, p.createdAt) && x.updatedAt == now
  }

  /** `updateOrganization(tenantId, id, data)`. */
  function UpdateOrganization(s: seq<Organization>, tenantId: string, id: string, now: string, p: Patch<OrganizationPatch>): (r: Result<(seq<Organization>, Organization)>)
    ensures r.Failure? <==> Absent(s, tenantId, id)
    ensures r.Failure? ==> r.message == "Organization not found"
    ensures r.Success? ==> exists i ::
      ReplacedAt(s, tenantId, id, i, r.value.0, r.value.1)
        && Stamped(s[i], p, now, r.value.1) && r.value.1.fields == ApplyOrganizationPatch(s[i].fields, p.fields)
  {
    Update(s, tenantId, id, now, p, ApplyOrganizationPatch, "Organization not found")
  }

  /** `updateUser(tenantId, id, data)`. */
  function UpdateUser(s: seq<User>, tenantId: string, id: string, now: string, p: Patch<UserPatch>): (r: Result<(seq<User>, User)>)
    ensures r.Failure? <==> Absent(s, tenantId, id)
    ensures r.Failure? ==> r.message == "User not found"
    ensures r.Success? ==> exists i ::
      ReplacedAt(s, tenantId, id, i, r.value.0, r.value.1)
        && Stamped(s[i], p, now, r.value.1) && r.value.1.fields == ApplyUserPatch(s[i].fields, p.fields)
  {
    Update(s, tenantId, id, now, p, ApplyUserPatch, "User not found")
  }

  /** `updateRole(tenantId, id, data)`. */
  function UpdateRole(s: seq<Role>, tenantId: string, id: string, now: string, p: Patch<RolePatch>): (r: Result<(seq<Role>, Role)>)
    ensures r.Failure? <==> Absent(s, tenantId, id)
    ensures r.Failure? ==> r.message == "Role not found"
    ensures r.Success? ==> exists i ::
      ReplacedAt(s, tenantId, id, i, r.value.0, r.value.1)
        && Stamped(s[i], p, now, r.value.1) && r.value.1.fields == ApplyRolePatch(s[i].fields, p.fields)
  {
    Update(s, tenantId, id, now, p, ApplyRolePatch, "Role not found")
  }

  /** `updatePrivilege(tenantId, id, data)`. */
  function UpdatePrivilege(s: seq<Privilege>, tenantId: string, id: string, now: string, p: Patch<PrivilegePatch>): (r: Result<(seq<Privilege>, Privilege)>)
    ensures r.Failure? <==> Absent(s, tenantId, id)
    ensures r.Failure? ==> r.message == "Privilege not found"
    ensures r.Success? ==> exists i ::
      ReplacedAt(s, tenantId, id, i, r.value.0, r.value.1)
        && Stamped(s[i], p, now, r.value.1) && r.value.1.fields == ApplyPrivilegePatch(s[i].fields, p.fields)
  {
    Update(s, tenantId, id, now, p, ApplyPrivilegePatch, "Privilege not found")
  }

  /** `updateLegalEntity(tenantId, id, data)`. */
  function UpdateLegalEntity(s: seq<LegalEntity>, tenantId: string, id: string, now: string, p: Patch<LegalEntityPatch>): (r: Result<(seq<LegalEntity>, LegalEntity)>)
    ensures r.Failure? <==> Absent(s, tenantId, id)
    ensures r.Failure? ==> r.message == "Legal entity not found"
    ensures r.Success? ==> exists i ::
      ReplacedAt(s, tenantId, id, i, r.value.0, r.value.1)
        && Stamped(s[i], p, now, r.value.1) && r.value.1.fields == ApplyLegalEntityPatch(s[i].fields, p.fields)
  {
    Update(s, tenantId, id, now, p, ApplyLegalEntityPatch, "Legal entity not found")
  }

  /** The patch leaves the record's id and tenant as they are. */
  predicate KeepsKey<P>(p: Patch<P>, tenantId: string, id: string) {
    (p.id.None? || p.id == Some(id)) && (p.tenantId.None? || p.tenantId == Some(tenantId))
  }

  /** A listing splits around any one position of the collection. */
  lemma ListAround<B>(s: seq<Record<B>>, i: nat, tenantId: string)
    requires i < |s|
    ensures List(s, tenantId) == List(s[..i], tenantId) + List([s[i]], tenantId) + List(s[i + 1..], tenantId)
  {
    assert s == (s[..i] + [s[i]]) + s[i + 1..];
    ListAppend(s[..i] + [s[i]], s[i + 1..], tenantId);
    ListAppend(s[..i], [s[i]], tenantId);
  }

  /** Taking out a record shortens its own tenant's listing by one. */
  lemma ListRemoveOwn<B>(s: seq<Record<B>>, i: nat)
    requires i < |s|
    ensures |List(s[..i] + s[i + 1..], s[i].tenantId)| == |List(s, s[i].tenantId)| - 1
  {
    var t := s[i].tenantId;
    ListAround(s, i, t);
    ListAppend(s[..i], s[i + 1..], t);
    ListSingle(s[i], t);
  }

  /** Taking out a record leaves the listing of any other tenant alone. */
  lemma {:induction false} ListRemoveOther<B>(s: seq<Record<B>>, i: nat, other: string)
    requires i < |s| && s[i].tenantId != other
    ensures List(s[..i] + s[i + 1..], other) == List(s, other)
    decreases i
  {
    if i == 0 {
      assert s[..0] + s[1..] == s[1..];
    } else {
      var t := s[1..];
      ListRemoveOther(t, i - 1, other);
      assert s[..i] + s[i + 1..] == [s[0]] + (t[..i - 1] + t[i..]);
    }
  }

  /** Replacing one record of tenant `t` by another of tenant `t` leaves every other tenant's listing alone. */
  lemma ListReplace<B>(s: seq<Record<B>>, i: nat, x: Record<B>, other: string)
    requires i < |s| && x.tenantId == s[i].tenantId && x.tenantId != other
    ensures List(s[i := x], other) == List(s, other)
  {
    var s' := s[i := x];
    assert s'[..i] == s[..i] && s'[i + 1..] == s[i + 1..] && s'[i] == x;
    ListAround(s, i, other);
    ListAround(s', i, other);
    ListSingle(s[i], other);
    ListSingle(x, other);
  }

  /**
   * Tenant isolation of update: when the patch does not move the record to
   * another tenant, no other tenant's listing changes.
   */
  lemma UpdateIsolated<B, P>(s: seq<Record<B>>, tenantId: string, id: string, now: string,
                             p: Patch<P>, apply: (B, P) -> B, notFound: string, other: string)
    requires other != tenantId
    requires p.tenantId.None? || p.tenantId == Some(tenantId)
    requires Update(s, tenantId, id, now, p, apply, notFound).Success?
    ensures List(Update(s, tenantId, id, now, p, apply, notFound).value.0, other) == List(s, other)
  {
    var i := Locate(s, tenantId, id).value;
    var x := Merge(s[i], p, apply, now);
    ListReplace(s, i, x, other);
  }

  /**
   * A second identical update (same patch, same clock reading) changes
   * nothing more, provided the patch keeps the record's key and the spread of
   * the fields is itself idempotent.
   */
  lemma UpdateTwice<B, P>(s: seq<Record<B>>, tenantId: string, id: string, now: string,
                          p: Patch<P>, apply: (B, P) -> B, notFound: string)
    requires KeepsKey(p, tenantId, id)
    requires forall b :: apply(apply(b, p.fields), p.fields) == apply(b, p.fields)
    requires Update(s, tenantId, id, now, p, apply, notFound).Success?
    ensures Update(Update(s, tenantId, id, now, p, apply, notFound).value.0, tenantId, id, now, p, apply, notFound)
         == Update(s, tenantId, id, now, p, apply, notFound)
  {
    var i := Locate(s, tenantId, id).value;
    var x := Merge(s[i], p, apply, now);
    assert Update(s, tenantId, id, now, p, apply, notFound) == Success((s[i := x], x));
    var s' := s[i := x];
    assert s'[..i] == s[..i];
    LocateFirst(s', tenantId, id, i);
    assert Merge(x, p, apply, now) == x;
    assert s'[i := x] == s';
  }

  /** After an update that keeps the record's key, a get returns the updated record. */
  lemma UpdateThenGet<B, P>(s: seq<Record<B>>, tenantId: string, id: string, now: string,
                            p: Patch<P>, apply: (B, P) -> B, notFound: string)
    requires KeepsKey(p, tenantId, id)
    requires Update(s, tenantId, id, now, p, apply, notFound).Success?
    ensures Get(Update(s, tenantId, id, now, p, apply, notFound).value.0, tenantId, id)
         == Some(Update(s, tenantId, id, now, p, apply, notFound).value.1)
  {
    var i := Locate(s, tenantId, id).value;
    var x := Merge(s[i], p, apply, now);
    var s' := s[i := x];
    assert s'[..i] == s[..i];
    LocateFirst(s', tenantId, id, i);
  }

  // ---------------------------------------------------------------- delete

  /** `deleteOrganization(tenantId, id)`: `splice` the first matching record out. */
  function DeleteOrganization(s: seq<Organization>, tenantId: string, id: string): (r: Result<seq<Organization>>)
    ensures r.Failure? <==> Absent(s, tenantId, id)
    ensures r.Failure? ==> r.message == "Organization not found"
    ensures r.Success? ==>
      exists i :: 0 <= i < |s| && Matches(s[i], tenantId, id) && Absent(s[..i], tenantId, id)
        && r.value == s[..i] + s[i + 1..]
  {
    match Locate(s, tenantId, id)
    case None => Failure("Organization not found")
    case Some(i) => Success(s[..i] + s[i + 1..])
  }

  /**
   * Deleting takes exactly one record out of the tenant's own listing and
   * leaves every other tenant's listing alone.
   */
  lemma DeleteListing(s: seq<Organization>, tenantId: string, id: string, other: string)
    requires other != tenantId
    requires DeleteOrganization(s, tenantId, id).Success?
    ensures |List(DeleteOrganization(s, tenantId, id).value, tenantId)| == |List(s, tenantId)| - 1
    ensures List(DeleteOrganization(s, tenantId, id).value, other) == List(s, other)
  {
    var i := Locate(s, tenantId, id).value;
    assert DeleteOrganization(s, tenantId, id).value == s[..i] + s[i + 1..];
    ListRemoveOwn(s, i);
    ListRemoveOther(s, i, other);
  }
}

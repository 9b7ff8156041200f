/**
 * The tenant collection. Tenants are the root of the scoping hierarchy, so
 * their operations look records up by id alone; listing returns a copy of
 * the whole collection, which in a value model is the collection itself.
 */
module Tenants {
  import opened Outcomes
  import opened Entities

  /** No tenant has this id. */
  predicate Unused(s: seq<Tenant>, id: string) {
    forall k :: 0 <= k < |s| ==> s[k].id != id
  }

  /** `findIndex` on the id: the first tenant carrying it, if any. */
  function Locate(s: seq<Tenant>, id: string): (r: Option<nat>)
    ensures r.None? <==> Unused(s, id)
    ensures r.Some? ==> r.value < |s| && s[r.value].id == id && Unused(s[..r.value], id)
    decreases |s|
  {
    if |s| == 0 then None
    else if s[0].id == id then Some(0)
    else
      match Locate(s[1..], id)
      case None => None
      case Some(i) =>
        assert s[..i + 1] == [s[0]] + s[1..][..i];
        Some(i + 1)
  }

  /** `getTenant(id)`: the first tenant with that id, or `null`. */
  function GetTenant(s: seq<Tenant>, id: string): (r: Option<Tenant>)
    ensures r.None? <==> Unused(s, id)
    ensures r.Some? ==> exists k :: 0 <= k < |s| && s[k] == r.value && r.value.id == id && Unused(s[..k], id)
  {
    match Locate(s, id)
    case None => None
    case Some(i) => Some(s[i])
  }

  /** `createTenant(data)` with the generated id and the clock reading passed in. */
  function CreateTenant(s: seq<Tenant>, id: string, now: string, fields: TenantFields): (r: (seq<Tenant>, Tenant))
    ensures |r.0| == |s| + 1 && r.0[..|s|] == s && r.0[|s|] == r.1
    ensures r.1.id == id && r.1.fields == fields && r.1.createdAt == now && r.1.updatedAt == now
  {
    var t := Tenant(id, fields, now, now);
    (s + [t], t)
  }

  /** A tenant created with an unused id is what a later get returns. */
  lemma CreateThenGetTenant(s: seq<Tenant>, id: string, now: string, fields: TenantFields)
    requires Unused(s, id)
    ensures GetTenant(CreateTenant(s, id, now, fields).0, id) == Some(CreateTenant(s, id, now, fields).1)
  {
    var (s', t) := CreateTenant(s, id, now, fields);
    assert Unused(s'[..|s|], id);
    assert Locate(s', id) == Some(|s|);
  }

  /** `updateTenant(id, data)`: `{...old, ...data, updatedAt: now}` at the first tenant with that id. */
  function UpdateTenant(s: seq<Tenant>, id: string, now: string, p: TenantPatch): (r: Result<(seq<Tenant>, Tenant)>)
    ensures r.Failure? <==> Unused(s, id)
    ensures r.Failure? ==> r.message == "Tenant not found"
    ensures r.Success? ==>
      var (s', t) := r.value;
      exists i :: 0 <= i < |s| && s[i].id == id && Unused(s[..i], id)
        && |s'| == |s| && s'[i] == t
        && (forall k :: 0 <= k < |s| && k != i ==> s'[k] == s[k])
        && t.id == Override(id, p.id)
        && t.createdAt == Override(s[i].createdAt, p.createdAt)
        && t.fields == ApplyTenantPatch(s[i].fields, p.fields)
        && t.updatedAt == now
  {
    match Locate(s, id)
    case None => Failure("Tenant not found")
    case Some(i) =>
      var stored := s[i];
      var t := Tenant(Override(stored.id, p.id), ApplyTenantPatch(stored.fields, p.fields), Override(stored.createdAt, p.createdAt), now);
      Success((s[i := t], t))
  }
}

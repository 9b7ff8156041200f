/**
 * The records of the mock service layer: tenants, organizations, users,
 * roles, privileges and legal entities, and the partial records (`Partial<T>`
 * in the source) that an update spreads over a stored one.
 *
 * Every record except a tenant carries the same envelope: an id, the id of
 * the tenant it belongs to, and the creation and last-update timestamps.
 * `Record<B>` is that envelope around the entity-specific fields `B`.
 */
module Entities {
  import opened Outcomes

  /** A stored tenant-scoped record. */
  datatype Record<B> = Record(id: string, tenantId: string, fields: B, createdAt: string, updatedAt: string)

  /**
   * A partial record as passed to an update. The source's `Partial<T>` lets the
   * caller supply every property, the envelope's included; a `None` property is
   * one the patch does not mention.
   */
  datatype Patch<P> = Patch(
    id: Option<string>,
    tenantId: Option<string>,
    createdAt: Option<string>,
    updatedAt: Option<string>,
    fields: P)

  /** The value a spread `{...old, ...patch}` leaves in one property. */
  function Override<T>(current: T, p: Option<T>): T {
    p.GetOr(current)
  }

  // ---------------------------------------------------------------- tenants

  datatype TenantStatus = Active | Inactive | Suspended

  datatype TenantSettings = TenantSettings(maxUsers: int, features: seq<string>, customBranding: bool)

  datatype TenantFields = TenantFields(
    name: string,
    description: string,
    domain: string,
    status: TenantStatus,
    settings: TenantSettings)

  /** A tenant: the root of the scoping hierarchy, so it has no tenant id of its own. */
  datatype Tenant = Tenant(id: string, fields: TenantFields, createdAt: string, updatedAt: string)

  datatype TenantFieldsPatch = TenantFieldsPatch(
    name: Option<string>,
    description: Option<string>,
    domain: Option<string>,
    status: Option<TenantStatus>,
    settings: Option<TenantSettings>)

  /** A partial tenant; `settings` is replaced as a whole, as a shallow spread does. */
  datatype TenantPatch = TenantPatch(
    id: Option<string>,
    createdAt: Option<string>,
    updatedAt: Option<string>,
    fields: TenantFieldsPatch)

  function ApplyTenantPatch(f: TenantFields, p: TenantFieldsPatch): (r: TenantFields)
    ensures p == TenantFieldsPatch(None, None, None, None, None) ==> r == f
  {
    TenantFields(
      Override(f.name, p.name),
      Override(f.description, p.description),
      Override(f.domain, p.domain),
      Override(f.status, p.status),
      Override(f.settings, p.settings))
  }

  // ---------------------------------------------------------------- organizations

  datatype OrganizationType = Department | Division | Team | Subsidiary

  datatype OrganizationStatus = Active | Inactive

  datatype OrganizationFields = OrganizationFields(
    name: string,
    description: string,
    parentId: Option<string>,
    kind: OrganizationType,
    status: OrganizationStatus)

  type Organization = Record<OrganizationFields>

  /** `parentId` is optional in the record, so a patch may also clear it (`Some(None)`). */
  datatype OrganizationPatch = OrganizationPatch(
    name: Option<string>,
    description: Option<string>,
    parentId: Option<Option<string>>,
    kind: Option<OrganizationType>,
    status: Option<OrganizationStatus>)

  function ApplyOrganizationPatch(f: OrganizationFields, p: OrganizationPatch): (r: OrganizationFields)
    ensures p == OrganizationPatch(None, None, None, None, None) ==> r == f
  {
    OrganizationFields(
      Override(f.name, p.name),
      Override(f.description, p.description),
      Override(f.parentId, p.parentId),
      Override(f.kind, p.kind),
      Override(f.status, p.status))
  }

  // ---------------------------------------------------------------- users

  datatype UserStatus = Active | Inactive | Pending | Suspended

  /** The status as the source spells it. */
  function UserStatusName(s: UserStatus): string {
    match s
    case Active => "active"
    case Inactive => "inactive"
    case Pending => "pending"
    case Suspended => "suspended"
  }

  datatype UserFields = UserFields(
    username: string,
    email: string,
    firstName: string,
    lastName: string,
    organizationId: Option<string>,
    status: UserStatus,
    roles: seq<string>,
    lastLogin: Option<string>)

  type User = Record<UserFields>

  datatype UserPatch = UserPatch(
    username: Option<string>,
    email: Option<string>,
    firstName: Option<string>,
    lastName: Option<string>,
    organizationId: Option<Option<string>>,
    status: Option<UserStatus>,
    roles: Option<seq<string>>,
    lastLogin: Option<Option<string>>)

  function ApplyUserPatch(f: UserFields, p: UserPatch): (r: UserFields)
    ensures p == UserPatch(None, None, None, None, None, None, None, None) ==> r == f
  {
    UserFields(
      Override(f.username, p.username),
      Override(f.email, p.email),
      Override(f.firstName, p.firstName),
      Override(f.lastName, p.lastName),
      Override(f.organizationId, p.organizationId),
      Override(f.status, p.status),
      Override(f.roles, p.roles),
      Override(f.lastLogin, p.lastLogin))
  }

  // ---------------------------------------------------------------- roles

  datatype RoleFields = RoleFields(
    name: string,
    description: string,
    privileges: seq<string>,
    isSystemRole: bool)

  type Role = Record<RoleFields>

  datatype RolePatch = RolePatch(
    name: Option<string>,
    description: Option<string>,
    privileges: Option<seq<string>>,
    isSystemRole: Option<bool>)

  function ApplyRolePatch(f: RoleFields, p: RolePatch): (r: RoleFields)
    ensures p == RolePatch(None, None, None, None) ==> r == f
  {
    RoleFields(
      Override(f.name, p.name),
      Override(f.description, p.description),
      Override(f.privileges, p.privileges),
      Override(f.isSystemRole, p.isSystemRole))
  }

  // ---------------------------------------------------------------- privileges

  datatype PrivilegeFields = PrivilegeFields(
    name: string,
    description: string,
    category: string,
    isSystemPrivilege: bool)

  type Privilege = Record<PrivilegeFields>

  datatype PrivilegePatch = PrivilegePatch(
    name: Option<string>,
    description: Option<string>,
    category: Option<string>,
    isSystemPrivilege: Option<bool>)

  function ApplyPrivilegePatch(f: PrivilegeFields, p: PrivilegePatch): (r: PrivilegeFields)
    ensures p == PrivilegePatch(None, None, None, None) ==> r == f
  {
    PrivilegeFields(
      Override(f.name, p.name),
      Override(f.description, p.description),
      Override(f.category, p.category),
      Override(f.isSystemPrivilege, p.isSystemPrivilege))
  }

  // ---------------------------------------------------------------- legal entities

  datatype LegalEntityType = Corporation | Llc | Partnership | SoleProprietorship

  datatype LegalEntityStatus = Active | Inactive | Dissolved

  datatype Address = Address(street: string, city: string, state: string, zipCode: string, country: string)

  datatype LegalEntityFields = LegalEntityFields(
    name: string,
    kind: LegalEntityType,
    registrationNumber: string,
    address: Address,
    status: LegalEntityStatus)

  type LegalEntity = Record<LegalEntityFields>

  /** `address` is replaced as a whole, as a shallow spread does. */
  datatype LegalEntityPatch = LegalEntityPatch(
    name: Option<string>,
    kind: Option<LegalEntityType>,
    registrationNumber: Option<string>,
    address: Option<Address>,
    status: Option<LegalEntityStatus>)

  function ApplyLegalEntityPatch(f: LegalEntityFields, p: LegalEntityPatch): (r: LegalEntityFields)
    ensures p == LegalEntityPatch(None, None, None, None, None) ==> r == f
  {
    LegalEntityFields(
      Override(f.name, p.name),
      Override(f.kind, p.kind),
      Override(f.registrationNumber, p.registrationNumber),
      Override(f.address, p.address),
      Override(f.status, p.status))
  }

  /** Spreading the same partial record twice is the same as spreading it once, for every entity kind. */
  lemma PatchesIdempotent()
    ensures forall f, p :: ApplyTenantPatch(ApplyTenantPatch(f, p), p) == ApplyTenantPatch(f, p)
    ensures forall f, p :: ApplyOrganizationPatch(ApplyOrganizationPatch(f, p), p) == ApplyOrganizationPatch(f, p)
    ensures forall f, p :: ApplyUserPatch(ApplyUserPatch(f, p), p) == ApplyUserPatch(f, p)
    ensures forall f, p :: ApplyRolePatch(ApplyRolePatch(f, p), p) == ApplyRolePatch(f, p)
    ensures forall f, p :: ApplyPrivilegePatch(ApplyPrivilegePatch(f, p), p) == ApplyPrivilegePatch(f, p)
    ensures forall f, p :: ApplyLegalEntityPatch(ApplyLegalEntityPatch(f, p), p) == ApplyLegalEntityPatch(f, p)
  {
  }
}

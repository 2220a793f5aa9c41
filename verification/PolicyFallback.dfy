// The OPA policy (policies/authnz.rego) against the local decision taken when OPA does not answer
// (evaluate_access in policy_engine.py), on the payload of is_resource_accessible.
module PolicyFallback {
  import opened Text
  import opened Roles
  import opened Permissions

  // A JSON member: missing, null, or a value of the expected type.
  datatype Attr<+T> = Absent | Null | Is(value: T)

  // The user record behind a request; `id` is the text of a UUID.
  datatype Account = Account(id: string, email: string, roles: seq<string>, clearance: int, department: string)

  datatype Resource = Resource(
    typeOverride: Attr<string>,
    ownerId: Attr<string>,
    createdBy: Attr<string>,
    isPublic: Attr<bool>,
    requiredClearance: Attr<int>,
    department: Attr<string>)

  // ---------- the OPA side ----------

  datatype OpaInput = OpaInput(
    user: Account,
    isSuperadmin: bool,
    workspaceRole: Attr<string>,
    permissions: Attr<seq<string>>,
    requiredRole: Attr<string>,
    permission: Attr<string>,
    action: string,
    resourceType: Attr<string>,
    resource: Resource)

  // The payload sets no workspace role, permission list, required role or permission; resource
  // attributes are merged last and may override the type.
  function Payload(u: Account, action: string, resourceType: string, res: Resource): OpaInput {
    OpaInput(u, exists r <- u.roles :: NormalizeRole(r) == SUPERADMIN, Absent, Absent, Absent, Absent, action,
             if res.typeOverride.Absent? then Is(resourceType) else res.typeOverride, res)
  }

  // Rego orders values of different types, null before numbers; a comparison with a missing
  // operand is undefined.
  predicate NumberAtLeast(n: int, a: Attr<int>) {
    a.Null? || (a.Is? && n >= a.value)
  }

  predicate RoleAtLeast(caller: Attr<string>, required: Attr<string>) {
    caller.Is? && required.Is? && caller.value in LEVELS && required.value in LEVELS &&
    LEVELS[caller.value] >= LEVELS[required.value]
  }

  predicate RegoSuperadmin(i: OpaInput) {
    SUPERADMIN in i.user.roles || i.isSuperadmin
  }

  predicate RegoPermission(i: OpaInput) {
    i.permissions.Is? && ((i.permission.Is? && i.permission.value in i.permissions.value) || "*" in i.permissions.value)
  }

  predicate RegoDocument(i: OpaInput) {
    i.action == "read" && i.resourceType == Is("documents") &&
    (i.resource.ownerId == Is(i.user.id) ||
     (NumberAtLeast(i.user.clearance, i.resource.requiredClearance) && i.resource.department == Is(i.user.department)))
  }

  predicate RegoPublic(i: OpaInput) {
    i.action == "read" && i.resource.isPublic == Is(true)
  }

  predicate RegoTaskCreator(i: OpaInput) {
    i.action == "delete" && i.resourceType == Is("tasks") && i.resource.createdBy == Is(i.user.email) &&
    RoleAtLeast(i.workspaceRole, Is("editor"))
  }

  predicate RegoAllow(i: OpaInput) {
    || RegoSuperadmin(i)
    || RoleAtLeast(i.workspaceRole, i.requiredRole)
    || RegoPermission(i)
    || RegoDocument(i)
    || RegoPublic(i)
    || RegoTaskCreator(i)
  }

  // ---------- the local side ----------

  // str(value or "")
  function TextOf(a: Attr<string>): string {
    if a.Is? then a.value else ""
  }

  predicate BypassRule(u: Account, isSuperadmin: bool) {
    (exists r <- u.roles :: Lower(r) == SUPERADMIN || Lower(r) == "admin") || isSuperadmin
  }

  predicate OwnerRule(u: Account, res: Resource) {
    TextOf(res.ownerId) != "" && TextOf(res.ownerId) == u.id
  }

  predicate PublicRule(action: string, res: Resource) {
    res.isPublic == Is(true) && (action == "read" || action == "view")
  }

  predicate DepartmentRule(u: Account, res: Resource) {
    var subClearance := if u.clearance != 0 then u.clearance else 1;
    var subDepartment := if u.department != "" then u.department else "General";
    res.department.Is? && Lower(res.department.value) == Lower(subDepartment) &&
    subClearance >= (if res.requiredClearance.Is? then res.requiredClearance.value else 1)
  }

  predicate CreatorRule(u: Account, resourceType: string, res: Resource) {
    resourceType == "tasks" && TextOf(res.createdBy) != "" &&
    Lower(TextOf(res.createdBy)) == Lower(u.email) && exists r <- u.roles :: EngineHasRole(r, "editor")
  }

  // evaluate_abac
  predicate Abac(u: Account, isSuperadmin: bool, action: string, resourceType: string, res: Resource) {
    || BypassRule(u, isSuperadmin)
    || OwnerRule(u, res)
    || PublicRule(action, res)
    || DepartmentRule(u, res)
    || CreatorRule(u, resourceType, res)
  }

  // The fallback: RBAC first, then ABAC.
  predicate LocalAllow(roleMap: RoleMap, u: Account, action: string, resourceType: string, res: Resource) {
    || (exists role <- u.roles :: EngineAllows(PermissionsOf(roleMap, Lower(role)), resourceType + ":" + action))
    || Abac(u, exists r <- u.roles :: NormalizeRole(r) == SUPERADMIN, action, resourceType, res)
  }

  // ---------- losing OPA never turns an allow into a deny ----------

  lemma RegoWithinLocal(roleMap: RoleMap, u: Account, action: string, resourceType: string, res: Resource)
    requires u.id != "" && u.department != "" && u.clearance >= 0
    requires RegoAllow(Payload(u, action, resourceType, res))
    ensures LocalAllow(roleMap, u, action, resourceType, res)
  {
    hide NormalizeRole, EngineAllows, CreatorRule, Lower;
    var i := Payload(u, action, resourceType, res);
    LowerFixed(SUPERADMIN);
    assert RegoSuperadmin(i) ==> BypassRule(u, i.isSuperadmin);
    assert RegoDocument(i) ==> OwnerRule(u, res) || DepartmentRule(u, res);
    assert RegoPublic(i) ==> PublicRule(action, res);
    assert !RoleAtLeast(i.workspaceRole, i.requiredRole) && !RegoPermission(i) && !RegoTaskCreator(i);
    hide BypassRule, OwnerRule, DepartmentRule, PublicRule, RegoSuperadmin, RegoDocument, RegoPublic;
  }

  // Whatever the roles, permissions, action and resource.
  ghost predicate FallbackCovers(id: string, email: string, clearance: int, department: string) {
    forall roleMap: RoleMap, roles: seq<string>, action: string, resourceType: string, res: Resource ::
      RegoAllow(Payload(Account(id, email, roles, clearance, department), action, resourceType, res)) ==>
        LocalAllow(roleMap, Account(id, email, roles, clearance, department), action, resourceType, res)
  }

  // The document of the user's own department that OPA lets a user without roles read.
  function DepartmentDocument(department: string, required: Attr<int>): Resource {
    Resource(Absent, Absent, Absent, Absent, required, Is(department))
  }

  lemma EmptyDepartmentIsDenied(u: Account)
    requires u.roles == [] && u.department == ""
    ensures var res := DepartmentDocument("", Is(u.clearance));
      RegoAllow(Payload(u, "read", "documents", res)) && !LocalAllow(map[], u, "read", "documents", res)
  {
  }

  lemma NegativeClearanceIsDenied(u: Account)
    requires u.roles == [] && u.clearance < 0
    ensures var res := DepartmentDocument(u.department, Null);
      RegoAllow(Payload(u, "read", "documents", res)) && !LocalAllow(map[], u, "read", "documents", res)
  {
  }

  // The local path covers every OPA allow for an account exactly when its department is not empty
  // and its clearance is not negative. An empty department reads as "General" locally; a null
  // required clearance is below every number for OPA and means 1 locally.
  lemma FallbackCoversExactly(id: string, email: string, clearance: int, department: string)
    requires id != ""
    ensures FallbackCovers(id, email, clearance, department) <==> department != "" && clearance >= 0
  {
    var u := Account(id, email, [], clearance, department);
    if department != "" && clearance >= 0 {
      forall roleMap: RoleMap, roles: seq<string>, action: string, resourceType: string, res: Resource |
        RegoAllow(Payload(Account(id, email, roles, clearance, department), action, resourceType, res))
        ensures LocalAllow(roleMap, Account(id, email, roles, clearance, department), action, resourceType, res)
      {
        RegoWithinLocal(roleMap, Account(id, email, roles, clearance, department), action, resourceType, res);
      }
    } else if department == "" {
      EmptyDepartmentIsDenied(u);
    } else {
      NegativeClearanceIsDenied(u);
    }
  }

  // ---------- what losing OPA opens up ----------

  predicate Administers(u: Account) {
    exists r <- u.roles :: Lower(r) == "admin" || Lower(r) == "superadmin" || NormalizeRole(r) == "superadmin"
  }

  predicate Permitted(roleMap: RoleMap, u: Account, action: string, resourceType: string) {
    exists r <- u.roles :: EngineAllows(PermissionsOf(roleMap, Lower(r)), resourceType + ":" + action)
  }

  // A caller without an administrator role, without a permission for the pair and not the owner, on a
  // resource with no department and not a task that the caller created: allowed if and only if the
  // resource is public and the action reads or views it.
  lemma StrangerSeesPublicOnly(roleMap: RoleMap, u: Account, action: string, resourceType: string, res: Resource)
    requires !Administers(u) && !Permitted(roleMap, u, action, resourceType)
    requires u.id != "" && res.ownerId != Is(u.id) && !res.department.Is?
    requires resourceType == "tasks" && res.createdBy.Is? && res.createdBy.value != "" ==>
      Lower(res.createdBy.value) != Lower(u.email)
    ensures LocalAllow(roleMap, u, action, resourceType, res) <==>
      res.isPublic == Is(true) && (action == "read" || action == "view")
  {
    hide NormalizeRole, EngineAllows, EngineHasRole, Lower;
  }

  // A member of the resource's department, whatever else is not granted, needs the clearance. No
  // clearance counts as 1 on either side, and an empty department as "General".
  lemma ColleagueNeedsClearance(roleMap: RoleMap, u: Account, action: string, resourceType: string, res: Resource)
    requires !Administers(u) && !Permitted(roleMap, u, action, resourceType)
    requires u.id != "" && res.ownerId != Is(u.id) && res.isPublic != Is(true) && resourceType != "tasks"
    requires res.department.Is?
    ensures LocalAllow(roleMap, u, action, resourceType, res) <==>
      && Lower(res.department.value) == Lower(if u.department == "" then "General" else u.department)
      && (if u.clearance == 0 then 1 else u.clearance) >=
         (if res.requiredClearance.Is? then res.requiredClearance.value else 1)
  {
    hide NormalizeRole, EngineAllows, EngineHasRole, Lower;
  }

  // The creator of a task, whatever else is not granted, needs the level of an editor.
  lemma CreatorNeedsEditor(roleMap: RoleMap, u: Account, action: string, res: Resource)
    requires !Administers(u) && !Permitted(roleMap, u, action, "tasks")
    requires u.id != "" && res.ownerId != Is(u.id) && res.isPublic != Is(true) && !res.department.Is?
    ensures LocalAllow(roleMap, u, action, "tasks", res) <==>
      && res.createdBy.Is? && res.createdBy.value != "" && Lower(res.createdBy.value) == Lower(u.email)
      && exists r <- u.roles :: Lower(r) in {"superadmin", "admin", "developer", "editor"}
  {
    forall r
      ensures EngineHasRole(r, "editor") <==> Lower(r) in {"superadmin", "admin", "developer", "editor"}
    {
      EditorLevel(r);
    }
    hide NormalizeRole, EngineAllows, EngineHasRole, Lower;
  }

  lemma EditorLevel(r: string)
    ensures EngineHasRole(r, "editor") <==> Lower(r) in {"superadmin", "admin", "developer", "editor"}
  {
    LowerFixed("editor");
    LevelRead(r);
    LevelRead("editor");
    EditorOrAbove(Lower(r));
    hide Lower, Level;
  }

  lemma EditorOrAbove(low: string)
    ensures low in LEVELS && LEVELS[low] >= 2 <==> low in {"superadmin", "admin", "developer", "editor"}
    ensures "editor" in LEVELS && LEVELS["editor"] == 2
  {
  }

  // What the policy allows on the payload: a super-administrator everything, anyone else only reads,
  // of public resources and of documents owned or cleared for.
  lemma RegoAllowsExactly(u: Account, action: string, resourceType: string, res: Resource)
    ensures RegoAllow(Payload(u, action, resourceType, res)) <==>
      || (exists r <- u.roles :: NormalizeRole(r) == "superadmin")
      || (action == "read" &&
           (|| res.isPublic == Is(true)
            || ((if res.typeOverride.Absent? then resourceType == "documents" else res.typeOverride == Is("documents")) &&
                (|| res.ownerId == Is(u.id)
                 || (res.department == Is(u.department) &&
                     (res.requiredClearance.Null? ||
                      (res.requiredClearance.Is? && res.requiredClearance.value <= u.clearance)))))))
  {
    if SUPERADMIN in u.roles {
      PlainSuperadmin();
    }
    hide NormalizeRole;
  }

  lemma PlainSuperadmin()
    ensures NormalizeRole("superadmin") == "superadmin"
  {
    CleanFixed("superadmin");
    hide Clean;
  }

  // Exactly the requests that the fallback allows and the policy denies, for an account whose
  // department is not empty and whose clearance is positive: no super-administrator asks, and
  // an administrator asks, or a permission covers the pair, or the owner asks for more than to read a
  // document, or a public resource is viewed, or a member of the department with the clearance asks
  // for more than to read a document (or writes the department in another case, or no clearance is
  // required), or a task's creator with the level of an editor asks - and not for the read of a
  // public resource.
  lemma ExcessExactly(roleMap: RoleMap, u: Account, action: string, resourceType: string, res: Resource)
    requires u.id != "" && u.department != "" && u.clearance > 0
    ensures
      var document := if res.typeOverride.Absent? then resourceType == "documents" else res.typeOverride == Is("documents");
      var cleared := res.requiredClearance.Is? ==> res.requiredClearance.value <= u.clearance;
      (LocalAllow(roleMap, u, action, resourceType, res) && !RegoAllow(Payload(u, action, resourceType, res))) <==>
        && (forall r <- u.roles :: NormalizeRole(r) != "superadmin")
        && !(action == "read" && res.isPublic == Is(true))
        && !(action == "read" && document && res.ownerId == Is(u.id))
        && !(action == "read" && document && res.department == Is(u.department) && cleared && !res.requiredClearance.Absent?)
        && (|| (exists r <- u.roles :: Lower(r) == "admin")
            || Permitted(roleMap, u, action, resourceType)
            || res.ownerId == Is(u.id)
            || (res.isPublic == Is(true) && action == "view")
            || (res.department.Is? && Lower(res.department.value) == Lower(u.department) && cleared)
            || (resourceType == "tasks" && res.createdBy.Is? && res.createdBy.value != "" &&
                Lower(res.createdBy.value) == Lower(u.email) &&
                exists r <- u.roles :: Lower(r) in {"superadmin", "admin", "developer", "editor"}))
  {
    RegoAllowsExactly(u, action, resourceType, res);
    forall r
      ensures EngineHasRole(r, "editor") <==> Lower(r) in {"superadmin", "admin", "developer", "editor"}
      ensures Lower(r) == "superadmin" ==> NormalizeRole(r) == "superadmin"
    {
      EditorLevel(r);
      KnownIsNormal(r);
    }
    hide NormalizeRole, EngineAllows, EngineHasRole, Lower, RegoAllow, Payload;
  }
}

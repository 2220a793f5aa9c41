// Effective permissions and wildcards: the evaluator (permission_evaluator.py) against the engine
// (policy_engine.py).
module Permissions {
  import opened Prelude
  import opened Text
  import opened Roles

  type RoleMap = map<string, set<string>>

  datatype Membership = Membership(role: string, isActive: bool)

  datatype Subject = Subject(isActive: bool, roles: seq<string>)

  // The roles of a subject, with the workspace role when the membership is active.
  function AllRoles(roles: seq<string>, member: Option<Membership>): seq<string> {
    if member.Some? && member.value.isActive then roles + [member.value.role] else roles
  }

  function PermissionsOf(roleMap: RoleMap, role: string): set<string> {
    if role in roleMap then roleMap[role] else {}
  }

  ghost predicate Blanket(roleMap: RoleMap, expanded: set<string>) {
    || SUPERADMIN in expanded || "admin" in expanded
    || exists role :: role in expanded && "*" in PermissionsOf(roleMap, role)
  }

  ghost function Union(roleMap: RoleMap, expanded: set<string>): (all: set<string>)
    ensures forall p :: p in all <==> exists role :: role in expanded && p in PermissionsOf(roleMap, role)
  {
    set role, p | role in expanded && p in PermissionsOf(roleMap, role) :: p
  }

  // What get_effective_permissions returns for an active subject.
  ghost function Effective(roleMap: RoleMap, expanded: set<string>): set<string> {
    if Blanket(roleMap, expanded) then {"*"} else Union(roleMap, expanded)
  }

  method GetEffectivePermissions(custom: Option<Hierarchy>, roleMap: RoleMap, subject: Option<Subject>,
                                 member: Option<Membership>)
    returns (permissions: set<string>)
    ensures permissions ==
      if subject.None? || !subject.value.isActive then {}
      else Effective(roleMap, Expanded(HierarchyInUse(custom), AllRoles(subject.value.roles, member)))
  {
    hide Expanded, NormalizeRole, Normalized, Reaches, HierarchyInUse;
    if subject.None? || !subject.value.isActive {
      return {};
    }
    var allRoles := subject.value.roles;
    if member.Some? && member.value.isActive {
      allRoles := allRoles + [member.value.role];
    }
    var expanded := ExpandRoles(custom, allRoles);
    assert expanded == Expanded(HierarchyInUse(custom), allRoles);
    if SUPERADMIN in expanded || "admin" in expanded {
      return {"*"};
    }
    permissions := {};
    var left := expanded;
    while left != {}
      invariant left <= expanded
      invariant permissions == Union(roleMap, expanded - left)
      invariant forall role <- expanded - left :: "*" !in PermissionsOf(roleMap, role)
      decreases left
    {
      var role :| role in left;
      var rolePerms := if role in roleMap then roleMap[role] else {};
      if "*" in rolePerms {
        return {"*"};
      }
      left := left - {role};
      permissions := permissions + rolePerms;
      assert expanded - left == (expanded - (left + {role})) + {role};
    }
    assert expanded - left == expanded;
  }

  predicate IsWildcard(p: string) {
    |p| >= 2 && p[|p| - 2..] == ":*"
  }

  // The evaluator: exact match, blanket, or a wildcard whose text up to the colon is a prefix.
  predicate Allows(granted: set<string>, required: string) {
    "*" in granted || required in granted || exists w :: w in granted && IsWildcard(w) && w[..|w| - 1] <= required
  }

  // The text before the first colon.
  function Domain(p: string): string {
    if p == "" || p[0] == ':' then "" else [p[0]] + Domain(p[1..])
  }

  // The engine on the permissions of one role.
  predicate EngineAllows(granted: set<string>, required: string) {
    var req := Lower(required);
    "*" in granted || req in granted || (':' in req && Domain(req) + ":*" in granted)
  }

  // DeclarativePolicyEngine.has_permission
  method EngineHasPermission(roleMap: RoleMap, callerRoles: seq<string>, required: string) returns (allowed: bool)
    ensures allowed <==> exists role <- callerRoles :: EngineAllows(PermissionsOf(roleMap, Lower(role)), required)
  {
    var req := Lower(required);
    for i := 0 to |callerRoles|
      invariant forall j :: 0 <= j < i ==> !EngineAllows(PermissionsOf(roleMap, Lower(callerRoles[j])), required)
    {
      var key := Lower(callerRoles[i]);
      var perms := if key in roleMap then roleMap[key] else {};
      assert perms == PermissionsOf(roleMap, Lower(callerRoles[i])) && callerRoles[i] in callerRoles;
      if "*" in perms || req in perms {
        return true;
      }
      if ':' in req {
        if Domain(req) + ":*" in perms {
          return true;
        }
      }
    }
    return false;
  }

  // The engine reads the required permission in any case.
  lemma EngineIgnoresCase(granted: set<string>, required: string)
    ensures EngineAllows(granted, required) <==> EngineAllows(granted, Lower(required))
    ensures Lower(required) in granted ==> EngineAllows(granted, required)
  {
    LowerIdempotent(required);
    hide Lower, Domain;
  }

  // ---------- monotonicity ----------

  // Collapsing a blanket grant to ["*"] loses nothing.
  lemma CollapseLosesNothing(roleMap: RoleMap, expanded: set<string>, required: string)
    requires Allows(Union(roleMap, expanded), required)
    ensures Allows(Effective(roleMap, expanded), required)
  {
  }

  lemma EffectiveMonotone(roleMap: RoleMap, a: set<string>, b: set<string>, required: string)
    requires a <= b && Allows(Effective(roleMap, a), required)
    ensures Allows(Effective(roleMap, b), required)
  {
  }

  // A new global role or an active membership never takes a permission away.
  lemma MoreRolesNeverDeny(h: Hierarchy, roleMap: RoleMap, roles: seq<string>, more: seq<string>,
                           member: Option<Membership>, member': Option<Membership>, required: string)
    requires forall r <- roles :: r in more
    requires member.Some? && member.value.isActive ==> member' == member
    requires Allows(Effective(roleMap, Expanded(h, AllRoles(roles, member))), required)
    ensures Allows(Effective(roleMap, Expanded(h, AllRoles(more, member'))), required)
  {
    ExpandMonotone(h, AllRoles(roles, member), AllRoles(more, member'));
    hide Expanded, Effective;
    EffectiveMonotone(roleMap, Expanded(h, AllRoles(roles, member)), Expanded(h, AllRoles(more, member')), required);
  }

  lemma UnionAllowsExactly(roleMap: RoleMap, expanded: set<string>, required: string)
    ensures Allows(Union(roleMap, expanded), required) <==>
      exists role <- expanded :: role in roleMap && Allows(roleMap[role], required)
  {
    var all := Union(roleMap, expanded);
    if role :| role in expanded && role in roleMap && Allows(roleMap[role], required) {
      assert roleMap[role] == PermissionsOf(roleMap, role) <= all;
    }
    if Allows(all, required) {
      var w :| w in all && (w == "*" || w == required || (IsWildcard(w) && w[..|w| - 1] <= required));
      var role :| role in expanded && w in PermissionsOf(roleMap, role);
      assert Allows(roleMap[role], required);
    }
  }

  // Exactly what a caller is allowed: everything with an administrator role or a role that grants
  // everything, otherwise what some expanded role grants by itself.
  lemma AllowedExactly(roleMap: RoleMap, expanded: set<string>, required: string)
    ensures Allows(Effective(roleMap, expanded), required) <==>
      || "superadmin" in expanded || "admin" in expanded
      || exists role <- expanded :: role in roleMap && ("*" in roleMap[role] || Allows(roleMap[role], required))
  {
    UnionAllowsExactly(roleMap, expanded, required);
    assert Allows({"*"}, required);
    if role :| role in expanded && role in roleMap && Allows(roleMap[role], required) {
      assert Allows(Union(roleMap, expanded), required);
    }
    hide Allows, Union;
  }

  // An active membership counts exactly as one more direct role; any other counts for nothing.
  lemma MembershipIsOneMoreRole(h: Hierarchy, roleMap: RoleMap, roles: seq<string>, member: Membership)
    ensures Expanded(h, AllRoles(roles, Some(member))) ==
      if member.isActive then Expanded(h, roles) + Expanded(h, [member.role]) else Expanded(h, roles)
    ensures Expanded(h, AllRoles(roles, None)) == Expanded(h, roles)
  {
    ExpandUnion(h, roles, [member.role]);
  }

  // ---------- the two wildcard rules ----------

  lemma {:induction false} DomainPrefix(p: string)
    requires ':' in p
    ensures |Domain(p)| < |p| && p[|Domain(p)|] == ':' && Domain(p) == p[..|Domain(p)|] && ':' !in Domain(p)
  {
    if p[0] == ':' {
    } else {
      DomainPrefix(p[1..]);
    }
  }

  lemma {:induction false} DomainUnique(p: string, d: string)
    requires ':' !in d && d + ":" <= p
    ensures ':' in p && Domain(p) == d
  {
    assert p[|d|] == ':';
    if d == "" {
    } else {
      assert d[0] in d && d[0] == p[0];
      assert p[1..][..|d|] == p[1..|d| + 1] == (d + ":")[1..] == d[1..] + ":";
      DomainUnique(p[1..], d[1..]);
    }
  }

  // A lower-case wildcard whose domain has a colon is one the engine never looks for.
  predicate NeedsCover(w: string) {
    IsWildcard(w) && Lower(w) == w && ':' in w[..|w| - 2]
  }

  // It is harmless when the set also holds the wildcard of its top domain, or everything.
  predicate Covered(granted: set<string>, w: string) {
    "*" in granted || Domain(w) + ":*" in granted
  }

  predicate WildcardsAgree(granted: set<string>) {
    forall w <- granted :: NeedsCover(w) ==> Covered(granted, w)
  }

  lemma LowerPrefix(a: string, b: string)
    requires a <= b && Lower(b) == b
    ensures Lower(a) == a
  {
  }

  lemma WildcardText(w: string)
    requires IsWildcard(w)
    ensures w[|w| - 2] == ':' && w[|w| - 1] == '*' && w == w[..|w| - 2] + ":*" && w[..|w| - 1] == w[..|w| - 2] + ":"
  {
  }

  lemma LowerWildcard(w: string, required: string)
    requires IsWildcard(w) && w[..|w| - 1] <= required && Lower(required) == required
    ensures Lower(w) == w
  {
  }

  lemma EvaluatorWithinEngine(granted: set<string>, required: string)
    requires WildcardsAgree(granted) && Lower(required) == required && Allows(granted, required)
    ensures EngineAllows(granted, required)
  {
    if "*" !in granted && required !in granted {
      var w :| w in granted && IsWildcard(w) && w[..|w| - 1] <= required;
      WildcardText(w);
      LowerWildcard(w, required);
      var d := w[..|w| - 2];
      if ':' in d {
        SameDomain(d, w);
        SameDomain(d, required);
      } else {
        DomainUnique(required, d);
      }
    }
  }

  lemma EngineWithinEvaluator(granted: set<string>, required: string)
    requires Lower(required) == required && EngineAllows(granted, required)
    ensures Allows(granted, required)
  {
    if "*" !in granted && required !in granted {
      DomainPrefix(required);
      var w := Domain(required) + ":*";
      assert w[|w| - 2..] == ":*" && w[..|w| - 1] == Domain(required) + ":" <= required;
    }
  }

  function Letters(n: nat): (s: string)
    ensures |s| == n && Lower(s) == s
  {
    if n == 0 then "" else "a" + Letters(n - 1)
  }

  lemma {:induction false} LongerThanAll(s: set<string>) returns (n: nat)
    ensures forall p <- s :: |p| < n
  {
    if s == {} {
      n := 0;
    } else {
      var p :| p in s;
      n := LongerThanAll(s - {p});
      n := if |p| < n then n else |p| + 1;
    }
  }

  // An uncovered wildcard is honoured by the evaluator alone, on some permission not granted itself.
  lemma UncoveredWildcardSplits(granted: set<string>, w: string) returns (required: string)
    requires w in granted && NeedsCover(w) && !Covered(granted, w)
    ensures Lower(required) == required && Allows(granted, required) && !EngineAllows(granted, required)
  {
    var n := LongerThanAll(granted);
    WildcardText(w);
    var d, stem := w[..|w| - 2], w[..|w| - 1];
    required := stem + Letters(n);
    LowerPrefix(stem, w);
    LowerAppend(stem, Letters(n));
    assert required !in granted;
    DomainPrefix(d);
    SameDomain(d, w);
    SameDomain(d, required);
  }

  lemma SameDomain(d: string, p: string)
    requires ':' in d && d <= p
    ensures ':' in p && Domain(p) == Domain(d)
  {
  }

  // The two wildcard rules agree on every lower-case permission exactly when each lower-case
  // wildcard over a multi-level domain is covered; single-level wildcards always agree.
  lemma WildcardRulesAgree(granted: set<string>)
    ensures (forall required | Lower(required) == required :: Allows(granted, required) <==> EngineAllows(granted, required))
       <==> WildcardsAgree(granted)
  {
    if WildcardsAgree(granted) {
      forall required | Lower(required) == required
        ensures Allows(granted, required) <==> EngineAllows(granted, required)
      {
        if Allows(granted, required) {
          EvaluatorWithinEngine(granted, required);
        }
        if EngineAllows(granted, required) {
          EngineWithinEvaluator(granted, required);
        }
      }
    } else {
      var w :| w in granted && NeedsCover(w) && !Covered(granted, w);
      var required := UncoveredWildcardSplits(granted, w);
    }
  }
}

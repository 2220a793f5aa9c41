// Role inheritance (permission_evaluator.py) and the numeric levels of the policy engine
// (policy_engine.py).
module Roles {
  import opened Prelude
  import opened Text

  type Hierarchy = map<string, seq<string>>

  const SUPERADMIN := "superadmin"

  const ALIASES := {"super-admin", "super_admin", "superadmin", "root", "rootadmin"}

  const BUILT_IN: Hierarchy := map[
    "superadmin" := ["admin", "developer", "editor", "viewer"],
    "admin" := ["developer", "editor", "viewer"],
    "developer" := ["editor", "viewer"],
    "editor" := ["viewer"],
    "viewer" := []]

  const LEVELS := map["superadmin" := 5, "admin" := 4, "developer" := 3, "editor" := 2, "viewer" := 1]

  function NormalizeRole(role: string): string {
    if Clean(role) in ALIASES then SUPERADMIN else Clean(role)
  }

  // An empty custom hierarchy counts as none.
  function HierarchyInUse(custom: Option<Hierarchy>): Hierarchy {
    if custom.None? || custom.value == map[] then BUILT_IN else custom.value
  }

  // The starting roles: empty strings are dropped, the others normalised.
  function Normalized(roles: seq<string>): seq<string> {
    if roles == [] then []
    else (if roles[0] == "" then [] else [NormalizeRole(roles[0])]) + Normalized(roles[1..])
  }

  function Elements(s: seq<string>): (r: set<string>)
    ensures forall x :: x in r <==> x in s
  {
    set x | x in s
  }

  // ---------- reachability, the specification ----------

  predicate Inherits(h: Hierarchy, a: string, b: string) {
    a in h && exists i :: 0 <= i < |h[a]| && NormalizeRole(h[a][i]) == b
  }

  ghost predicate IsPath(h: Hierarchy, p: seq<string>) {
    p != [] && forall i :: 0 < i < |p| ==> Inherits(h, p[i - 1], p[i])
  }

  ghost predicate Via(h: Hierarchy, start: set<string>, p: seq<string>, r: string) {
    IsPath(h, p) && p[0] in start && p[|p| - 1] == r
  }

  ghost predicate Reaches(h: Hierarchy, start: set<string>, r: string) {
    exists p :: Via(h, start, p, r)
  }

  ghost predicate Closed(h: Hierarchy, s: set<string>) {
    forall a, b | a in s && Inherits(h, a, b) :: b in s
  }

  lemma ReachesStart(h: Hierarchy, start: set<string>, r: string)
    requires r in start
    ensures Reaches(h, start, r)
  {
    assert Via(h, start, [r], r);
  }

  lemma ReachesNext(h: Hierarchy, start: set<string>, a: string, b: string)
    requires Reaches(h, start, a) && Inherits(h, a, b)
    ensures Reaches(h, start, b)
  {
    var p :| Via(h, start, p, a);
    assert Via(h, start, p + [b], b);
  }

  lemma {:induction false} ClosedHoldsPath(h: Hierarchy, s: set<string>, p: seq<string>)
    requires Closed(h, s) && IsPath(h, p) && p[0] in s
    ensures p[|p| - 1] in s
    decreases |p|
  {
    if |p| == 1 {
    } else {
      var q := p[..|p| - 1];
      assert IsPath(h, q);
      ClosedHoldsPath(h, s, q);
      assert Inherits(h, p[|p| - 2], p[|p| - 1]);
    }
  }

  // Reachability is the least closed set over the start.
  lemma LeastClosed(h: Hierarchy, start: set<string>, s: set<string>, r: string)
    requires Closed(h, s) && start <= s && Reaches(h, start, r)
    ensures r in s
  {
    var p :| Via(h, start, p, r);
    ClosedHoldsPath(h, s, p);
  }

  // ---------- the worklist ----------

  function AllInherited(h: Hierarchy): (r: set<string>)
    ensures forall a, b :: Inherits(h, a, b) ==> b in r
  {
    set a, i | a in h && 0 <= i < |h[a]| :: NormalizeRole(h[a][i])
  }

  lemma UsedHierarchy(custom: Option<Hierarchy>)
    ensures HierarchyInUse(custom) == if custom.Some? && custom.value != map[] then custom.value else BUILT_IN
  {
  }

  // _expand_roles terminates on any hierarchy, cyclic ones included, and returns exactly the roles
  // reachable from the normalised input.
  method ExpandRoles(custom: Option<Hierarchy>, directRoles: seq<string>) returns (allRoles: set<string>)
    ensures forall r :: r in allRoles <==> Reaches(HierarchyInUse(custom), Elements(Normalized(directRoles)), r)
    ensures custom.Some? && custom.value != map[] ==>
      forall r :: r in allRoles <==> Reaches(custom.value, Elements(Normalized(directRoles)), r)
    ensures custom.None? || custom.value == map[] ==>
      forall r :: r in allRoles <==> Reaches(BUILT_IN, Elements(Normalized(directRoles)), r)
  {
    UsedHierarchy(custom);
    hide NormalizeRole, Normalized, Reaches, HierarchyInUse;
    var h := HierarchyInUse(custom);
    var normalized := Normalized(directRoles);
    ghost var start := Elements(normalized);
    ghost var universe := start + AllInherited(h);
    allRoles := set r | r in normalized;
    var queue := normalized;
    forall r | r in start {
      ReachesStart(h, start, r);
    }
    while queue != []
      invariant start <= allRoles <= universe
      invariant forall r <- allRoles :: Reaches(h, start, r)
      invariant forall r <- queue :: r in allRoles
      invariant forall a, b | a in allRoles && a !in queue && Inherits(h, a, b) :: b in allRoles
      decreases universe - allRoles, |queue|
    {
      var current := queue[0];
      ghost var before, waiting := allRoles, queue;
      queue := queue[1..];
      var inherited := if current in h then h[current] else [];
      for i := 0 to |inherited|
        invariant before <= allRoles <= universe
        invariant forall r <- allRoles :: Reaches(h, start, r)
        invariant forall r <- queue :: r in allRoles
        invariant forall r <- waiting :: r == current || r in queue
        invariant forall r <- allRoles :: r in before || r in queue
        invariant forall j :: 0 <= j < i ==> NormalizeRole(inherited[j]) in allRoles
        invariant allRoles == before ==> queue == waiting[1..]
      {
        var inh := NormalizeRole(inherited[i]);
        if inh !in allRoles {
          assert Inherits(h, current, inh);
          ReachesNext(h, start, current, inh);
          allRoles := allRoles + {inh};
          queue := queue + [inh];
        }
      }
      assert allRoles != before ==> universe - allRoles < universe - before;
    }
    forall r | Reaches(h, start, r)
      ensures r in allRoles
    {
      LeastClosed(h, start, allRoles, r);
    }
  }

  // The set the worklist returns.
  ghost function Expanded(h: Hierarchy, roles: seq<string>): (all: set<string>)
    ensures forall r :: r in all <==> Reaches(h, Elements(Normalized(roles)), r)
  {
    var start := Elements(Normalized(roles));
    var universe := start + AllInherited(h);
    var all := set r | r in universe && Reaches(h, start, r);
    assert forall r | Reaches(h, start, r) :: r in all by {
      assert Closed(h, universe);
      forall r | Reaches(h, start, r)
        ensures r in all
      {
        LeastClosed(h, start, universe, r);
      }
    }
    all
  }

  // ---------- laws ----------

  lemma {:induction false} NormalizedElements(roles: seq<string>)
    ensures forall x :: x in Normalized(roles) <==> exists r :: r in roles && r != "" && NormalizeRole(r) == x
  {
    if roles == [] {
    } else {
      NormalizedElements(roles[1..]);
      assert forall r :: r in roles <==> r == roles[0] || r in roles[1..];
    }
  }

  lemma StartMonotone(h: Hierarchy, s: set<string>, t: set<string>, r: string)
    requires s <= t && Reaches(h, s, r)
    ensures Reaches(h, t, r)
  {
    var p :| Via(h, s, p, r);
    assert Via(h, t, p, r);
  }

  // More direct roles never give fewer roles.
  lemma ExpandMonotone(h: Hierarchy, a: seq<string>, b: seq<string>)
    requires forall r <- a :: r in b
    ensures Expanded(h, a) <= Expanded(h, b)
  {
    NormalizedElements(a);
    NormalizedElements(b);
    forall r <- Expanded(h, a)
      ensures r in Expanded(h, b)
    {
      StartMonotone(h, Elements(Normalized(a)), Elements(Normalized(b)), r);
    }
  }

  // Expansion distributes over union: each role is inherited from one direct role.
  lemma ExpandUnion(h: Hierarchy, a: seq<string>, b: seq<string>)
    ensures Expanded(h, a + b) == Expanded(h, a) + Expanded(h, b)
  {
    ExpandMonotone(h, a, a + b);
    ExpandMonotone(h, b, a + b);
    NormalizedElements(a);
    NormalizedElements(b);
    NormalizedElements(a + b);
    forall r <- Expanded(h, a + b)
      ensures r in Expanded(h, a) + Expanded(h, b)
    {
      var p :| Via(h, Elements(Normalized(a + b)), p, r);
      if p[0] in Elements(Normalized(a)) {
        assert Via(h, Elements(Normalized(a)), p, r);
      } else {
        assert Via(h, Elements(Normalized(b)), p, r);
      }
    }
  }

  // Two names mean the same role exactly when they differ only in case and outer space, or both are
  // spellings of the super-administrator.
  lemma SameRoleExactly(a: string, b: string)
    ensures var aliases := {"super-admin", "super_admin", "superadmin", "root", "rootadmin"};
      NormalizeRole(a) == NormalizeRole(b) <==> Clean(a) == Clean(b) || (Clean(a) in aliases && Clean(b) in aliases)
  {
    hide Clean;
  }

  lemma NormalizeIdempotent(role: string)
    ensures NormalizeRole(NormalizeRole(role)) == NormalizeRole(role)
  {
    CleanIdempotent(role);
    CleanFixed(SUPERADMIN);
    hide Clean;
  }

  lemma ExpandedNormal(h: Hierarchy, roles: seq<string>, r: string)
    requires r in Expanded(h, roles)
    ensures NormalizeRole(r) == r
  {
    var p :| Via(h, Elements(Normalized(roles)), p, r);
    NormalizedElements(roles);
    if |p| == 1 {
      var x :| x in roles && x != "" && NormalizeRole(x) == r;
      NormalizeIdempotent(x);
    } else {
      assert Inherits(h, p[|p| - 2], p[|p| - 1]);
      var a := p[|p| - 2];
      var i :| 0 <= i < |h[a]| && NormalizeRole(h[a][i]) == r;
      NormalizeIdempotent(h[a][i]);
    }
  }

  // The roles of a list that survive being fed back: all but the empty name.
  lemma FeedBack(h: Hierarchy, roles: seq<string>, again: seq<string>)
    requires Elements(again) == Expanded(h, roles)
    ensures Elements(Normalized(again)) == Expanded(h, roles) - {""}
  {
    NormalizedElements(again);
    forall r <- Expanded(h, roles)
      ensures NormalizeRole(r) == r
    {
      ExpandedNormal(h, roles, r);
    }
    forall x | x in Elements(Normalized(again))
      ensures x in Expanded(h, roles) - {""}
    {
      var r :| r in again && r != "" && NormalizeRole(r) == x;
      assert r in Elements(again);
    }
    forall x <- Expanded(h, roles) - {""}
      ensures x in Elements(Normalized(again))
    {
      assert x in Elements(again) && NormalizeRole(x) == x;
    }
  }

  // Expanding an expansion changes nothing, unless the expansion holds the empty role name (a blank
  // direct role) and no other of its roles inherits a blank one.
  lemma ExpandIdempotent(h: Hierarchy, roles: seq<string>, again: seq<string>)
    requires Elements(again) == Expanded(h, roles)
    ensures Expanded(h, again) == Expanded(h, roles) <==>
      ("" in Expanded(h, roles) ==> exists a :: a in Expanded(h, roles) && a != "" && Inherits(h, a, ""))
  {
    hide NormalizeRole, Normalized, Reaches;
    var out := Expanded(h, roles);
    var start := out - {""};
    FeedBack(h, roles, again);
    assert Closed(h, out) by {
      forall a, b | a in out && Inherits(h, a, b)
        ensures b in out
      {
        ReachesNext(h, Elements(Normalized(roles)), a, b);
      }
    }
    forall r <- Expanded(h, again)
      ensures r in out
    {
      LeastClosed(h, start, out, r);
    }
    forall r <- start
      ensures r in Expanded(h, again)
    {
      ReachesStart(h, start, r);
    }
    if a :| a in out && a != "" && Inherits(h, a, "") {
      ReachesNext(h, start, a, "");
    } else if "" in Expanded(h, again) {
      LeastClosed(h, start, start, "");
    }
  }

  // ---------- the five built-in roles and the engine's levels ----------

  function Level(role: string): int {
    if Lower(role) in LEVELS then LEVELS[Lower(role)] else 0
  }

  // DeclarativePolicyEngine.has_role
  predicate EngineHasRole(callerRole: string, requiredRole: string) {
    Level(callerRole) >= Level(requiredRole)
  }

  lemma PlainNameNormal(name: string)
    requires Trimmed(name) && NoCapitals(name) && name !in ALIASES
    ensures NormalizeRole(name) == name
  {
    CleanFixed(name);
    hide Clean;
  }

  lemma BuiltInNamesNormal()
    ensures forall a <- BUILT_IN, i | 0 <= i < |BUILT_IN[a]| :: NormalizeRole(BUILT_IN[a][i]) == BUILT_IN[a][i]
  {
    hide NormalizeRole;
    PlainNameNormal("admin");
    PlainNameNormal("developer");
    PlainNameNormal("editor");
    PlainNameNormal("viewer");
  }

  lemma BuiltInInherits(a: string, b: string)
    ensures Inherits(BUILT_IN, a, b) <==> a in LEVELS && b in LEVELS && LEVELS[a] > LEVELS[b]
  {
    BuiltInNamesNormal();
    hide NormalizeRole;
    if a in LEVELS && b in LEVELS && LEVELS[a] > LEVELS[b] {
      assert b in BUILT_IN[a];
    }
  }

  ghost predicate AtOrBelow(a: string, b: string) {
    b == a || (a in LEVELS && b in LEVELS && LEVELS[a] > LEVELS[b])
  }

  // What one role expands to.
  lemma BuiltInExpansion(role: string, b: string)
    requires role != ""
    ensures b in Expanded(BUILT_IN, [role]) <==> AtOrBelow(NormalizeRole(role), b)
  {
    var a := NormalizeRole(role);
    assert Normalized([role]) == [a];
    hide NormalizeRole, Normalized, Reaches, Inherits;
    assert Elements([a]) == {a};
    var s := set x | x in LEVELS.Keys + {a} && AtOrBelow(a, x);
    assert Closed(BUILT_IN, s) by {
      forall x, y | x in s && Inherits(BUILT_IN, x, y)
        ensures y in s
      {
        BuiltInInherits(x, y);
      }
    }
    if b in Expanded(BUILT_IN, [role]) {
      LeastClosed(BUILT_IN, {a}, s, b);
    }
    ReachesStart(BUILT_IN, {a}, a);
    BuiltInInherits(a, b);
    if AtOrBelow(a, b) && a != b {
      ReachesNext(BUILT_IN, {a}, a, b);
    }
  }

  // The engine's spelling of a built-in role: its letters in any case, no alias and no outer space.
  predicate EngineKnows(role: string) {
    Lower(role) in LEVELS
  }

  // Closure and levels, for any two names. On a required role that the engine knows they agree unless
  // the engine misreads a caller who ranks high enough, that is an alias or a name with outer space.
  // An unknown required role has level 0, which every caller meets, so there they agree only when the
  // closure holds it too.
  lemma ClosureAgreesWithLevels(a: string, b: string)
    ensures var agree := NormalizeRole(b) in Expanded(BUILT_IN, [a]) <==> EngineHasRole(a, b);
      agree <==>
        if EngineKnows(b) then EngineKnows(a) || Level(NormalizeRole(a)) < Level(b)
        else a != "" && AtOrBelow(NormalizeRole(a), NormalizeRole(b))
  {
    hide Expanded, NormalizeRole, Lower, Level, LEVELS, EngineKnows, AtOrBelow;
    var na, nb := NormalizeRole(a), NormalizeRole(b);
    LevelFacts(a);
    LevelFacts(b);
    AtOrBelowIsRank(na, nb);
    if a == "" {
      BlankIsNormal();
      BlankExpandsToNothing();
    } else {
      BuiltInExpansion(a, nb);
    }
  }

  lemma AtOrBelowIsRank(a: string, b: string)
    requires Lower(a) == a && Lower(b) == b
    ensures Level(b) > 0 ==> (AtOrBelow(a, b) <==> Level(a) >= Level(b))
  {
    LevelValue(a);
    LevelValue(b);
    hide Level, Lower;
    if a in LEVELS && b in LEVELS && LEVELS[a] == LEVELS[b] {
      LevelsDistinct(a, b);
    }
  }

  lemma LevelFacts(role: string)
    ensures var n := NormalizeRole(role);
      && Lower(n) == n && Level(n) >= 0
      && (EngineKnows(role) ==> Level(role) == Level(n) > 0)
      && (!EngineKnows(role) ==> Level(role) == 0)
  {
    var n := NormalizeRole(role);
    KnownIsNormal(role);
    NormalizeIdempotent(role);
    NormalLower(n);
    LevelValue(n);
    hide NormalizeRole, Lower, Clean;
    LevelRead(role);
    hide Level, EngineKnows, LEVELS;
  }

  lemma LevelRead(role: string)
    ensures EngineKnows(role) ==> Lower(role) in LEVELS && Level(role) == LEVELS[Lower(role)]
    ensures !EngineKnows(role) ==> Level(role) == 0
  {
    hide Lower;
  }

  lemma BlankIsNormal()
    ensures NormalizeRole("") == "" && Level("") == 0
  {
    assert Clean("") == "";
    hide Clean;
  }

  lemma BlankExpandsToNothing()
    ensures Expanded(BUILT_IN, [""]) == {}
  {
    assert Normalized([""]) == [];
    hide NormalizeRole, Normalized;
    if r :| r in Expanded(BUILT_IN, [""]) {
      LeastClosed(BUILT_IN, {}, {}, r);
    }
  }

  lemma KnownIsNormal(role: string)
    ensures EngineKnows(role) ==> NormalizeRole(role) == Lower(role)
  {
    if EngineKnows(role) {
      TrimmedWhenKnown(role);
      StripTrimmed(role);
      if Lower(role) in ALIASES {
        OneKnownAlias(Lower(role));
      }
    }
    hide Lower, Strip, LEVELS, ALIASES;
  }

  lemma OneKnownAlias(name: string)
    requires name in LEVELS && name in ALIASES
    ensures name == SUPERADMIN
  {
  }

  lemma TrimmedWhenKnown(role: string)
    requires EngineKnows(role)
    ensures Trimmed(role)
  {
    var low := Lower(role);
    assert forall x <- LEVELS :: x != "" && Trimmed(x);
    hide Lower;
  }

  lemma LevelValue(a: string)
    requires Lower(a) == a
    ensures a in LEVELS ==> Level(a) == LEVELS[a] > 0
    ensures a !in LEVELS ==> Level(a) == 0
  {
  }

  lemma LevelsDistinct(a: string, b: string)
    requires a in LEVELS && b in LEVELS && LEVELS[a] == LEVELS[b]
    ensures a == b
  {
  }

  lemma NormalLower(a: string)
    requires NormalizeRole(a) == a
    ensures Lower(a) == a
  {
    hide Lower, Strip;
    LowerIdempotent(Strip(a));
    LowerFixed(SUPERADMIN);
  }
}

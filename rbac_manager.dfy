/** `RBACManager` (rbac/manager.py): resolution of a user's effective roles
    and permissions over a snapshot of the role catalog, the permission
    catalog and the role-to-permission grants, and the checks built on it.
    The three database reads of the source become the fields of `Snapshot`. */
module RbacManager {
  import opened Prelude
  import opened Closure

  /** A row of the role table: its name and its optional parent role id. */
  datatype Role = Role(name: string, parentId: Option<int>)

  /** A row of the permission table. */
  datatype Permission = Permission(id: int, name: string, parentId: Option<int>)

  /** What the three queries return: every role by id, every permission in
      table order, and the names of the permissions granted to each role. */
  datatype Snapshot = Snapshot(
    roles: map<int, Role>,
    permissions: seq<Permission>,
    grants: map<int, set<string>>)

  // ---------------------------------------------------------------------
  // Role hierarchy (upward)

  /** The id the resolver climbs to from `id`: only a known role with a
      truthy `parent_id`, so a parent id of 0 counts as no parent. */
  function Parent(roles: map<int, Role>, id: int): Option<int> {
    if id in roles && TruthyId(roles[id].parentId) then roles[id].parentId else None
  }

  /** The parent links as an adjacency map. */
  ghost function ParentEdges(roles: map<int, Role>): map<int, set<int>> {
    map id | id in roles && TruthyId(roles[id].parentId) :: {roles[id].parentId.value}
  }

  /** The roles in effect for a user holding `direct`. */
  ghost function RoleClosure(roles: map<int, Role>, direct: set<int>): set<int> {
    ReachableSet(ParentEdges(roles), direct)
  }

  lemma ParentEdgesNext(roles: map<int, Role>, id: int)
    ensures Next(ParentEdges(roles), id) == if Parent(roles, id).Some? then {Parent(roles, id).value} else {}
  {
  }

  /** The role closure holds the directly assigned ids, climbs every truthy
      parent link of a known role, and holds nothing else. */
  lemma RoleClosureProperties(roles: map<int, Role>, direct: set<int>)
    ensures direct <= RoleClosure(roles, direct)
    ensures forall id :: id in RoleClosure(roles, direct) && Parent(roles, id).Some? ==>
      Parent(roles, id).value in RoleClosure(roles, direct)
    ensures forall id :: id in RoleClosure(roles, direct) ==> Reachable(ParentEdges(roles), direct, id)
  {
    var closure := RoleClosure(roles, direct);
    ReachableSetIsLeast(ParentEdges(roles), direct);
    ReachableSetMembers(ParentEdges(roles), direct);
    forall id | id in closure && Parent(roles, id).Some?
      ensures Parent(roles, id).value in closure
    {
      ParentEdgesNext(roles, id);
    }
  }

  /** The worklist of `get_user_permissions` step 2 (and of `has_role`):
      pop an id, and if it is new, keep it and queue its parent. */
  method ResolveRoleIds(roles: map<int, Role>, direct: set<int>) returns (closed: set<int>)
    ensures direct <= closed
    ensures forall id :: id in closed && Parent(roles, id).Some? ==> Parent(roles, id).value in closed
    ensures forall id :: id in closed ==> Reachable(ParentEdges(roles), direct, id)
    ensures closed == RoleClosure(roles, direct)
  {
    ghost var edges := ParentEdges(roles);
    closed := {};
    var work := ListFrom(direct);
    WorklistStart(edges, direct, work);
    while |work| > 0
      invariant WorklistInv(edges, direct, closed, work)
      decreases |direct + Targets(edges) - closed|, |work|
    {
      ghost var queued, seen := work, closed;
      var id := work[|work| - 1];
      work := work[..|work| - 1];
      if id !in closed {
        closed := closed + {id};
        ParentEdgesNext(roles, id);
        if id in roles && TruthyId(roles[id].parentId) {
          WorklistVisit(edges, direct, seen, queued, [roles[id].parentId.value]);
          work := work + [roles[id].parentId.value];
        } else {
          WorklistVisit(edges, direct, seen, queued, []);
          assert work + [] == work;
        }
      } else {
        WorklistSkip(edges, direct, closed, queued);
      }
    }
    WorklistDone(edges, direct, closed);
    RoleClosureProperties(roles, direct);
  }

  // ---------------------------------------------------------------------
  // Permission hierarchy (downward)

  /** `{p.id: p for p in all_db_permissions}`: a later row with the same id
      replaces an earlier one. */
  function PermById(perms: seq<Permission>): map<int, Permission>
    decreases |perms|
  {
    if perms == [] then map[]
    else PermById(perms[..|perms| - 1])[perms[|perms| - 1].id := perms[|perms| - 1]]
  }

  /** `perm_map` has a key exactly for the ids of the rows. */
  lemma {:induction false} PermByIdKeys(perms: seq<Permission>)
    ensures forall id :: id in PermById(perms) <==> exists i :: 0 <= i < |perms| && perms[i].id == id
    decreases |perms|
  {
    if perms != [] {
      var init := perms[..|perms| - 1];
      PermByIdKeys(init);
      forall id | id in PermById(perms) && id != perms[|perms| - 1].id
        ensures exists i :: 0 <= i < |perms| && perms[i].id == id
      {
        assert id in PermById(init);
        var i :| 0 <= i < |init| && init[i].id == id;
        assert perms[i] == init[i];
      }
      forall i | 0 <= i < |perms| - 1
        ensures perms[i].id in PermById(perms)
      {
        assert perms[i] == init[i];
      }
    }
  }

  /** The entry of `perm_map` for an id is the last row carrying it. */
  lemma {:induction false} PermByIdLast(perms: seq<Permission>, i: int)
    requires 0 <= i < |perms|
    requires forall j :: i < j < |perms| ==> perms[j].id != perms[i].id
    ensures perms[i].id in PermById(perms) && PermById(perms)[perms[i].id] == perms[i]
    decreases |perms|
  {
    var init := perms[..|perms| - 1];
    if i < |perms| - 1 {
      assert init[i] == perms[i];
      forall j | i < j < |init|
        ensures init[j].id != init[i].id
      {
        assert init[j] == perms[j];
      }
      PermByIdLast(init, i);
    }
  }

  /** The name of the parent `p` inherits from in `perm_hierarchy`: only a
      truthy `parent_id` that resolves in `perm_map`. */
  function ParentName(byId: map<int, Permission>, p: Permission): Option<string> {
    if TruthyId(p.parentId) && p.parentId.value in byId then Some(byId[p.parentId.value].name) else None
  }

  /** One of the first `k` rows is named `child` and its parent resolves, in
      `byId`, to `parent`. */
  ghost predicate EdgeAmong(perms: seq<Permission>, byId: map<int, Permission>, k: int, parent: string, child: string) {
    exists i :: 0 <= i < k && i < |perms| && perms[i].name == child && ParentName(byId, perms[i]) == Some(parent)
  }

  /** There is a row named `child` whose parent resolves to `parent`. */
  ghost predicate IsChildEdge(perms: seq<Permission>, parent: string, child: string) {
    EdgeAmong(perms, PermById(perms), |perms|, parent, child)
  }

  /** `perm_hierarchy`: parent name to the set of its children's names, with
      a key only for names that have a child. */
  ghost function ChildMap(perms: seq<Permission>): map<string, set<string>> {
    var byId := PermById(perms);
    map pn | pn in (set i | 0 <= i < |perms| && ParentName(byId, perms[i]).Some? :: ParentName(byId, perms[i]).value)
      :: set i | 0 <= i < |perms| && ParentName(byId, perms[i]) == Some(pn) :: perms[i].name
  }

  /** A map with exactly the child edges, and no empty entry, is the child
      map. */
  lemma ChildMapUnique(perms: seq<Permission>, m: map<string, set<string>>)
    requires forall pn :: pn in m ==> m[pn] != {}
    requires forall pn, c :: pn in m && c in m[pn] <==> IsChildEdge(perms, pn, c)
    ensures m == ChildMap(perms)
  {
    var byId := PermById(perms);
    var cm := ChildMap(perms);
    forall pn | pn in m
      ensures pn in cm && m[pn] == cm[pn]
    {
      var c :| c in m[pn];
      var i :| 0 <= i < |perms| && perms[i].name == c && ParentName(byId, perms[i]) == Some(pn);
      assert pn in cm;
      forall c' ensures c' in m[pn] <==> c' in cm[pn] {
        if c' in cm[pn] {
          var i' :| 0 <= i' < |perms| && ParentName(byId, perms[i']) == Some(pn) && perms[i'].name == c';
          assert IsChildEdge(perms, pn, c');
        }
      }
    }
    forall pn | pn in cm
      ensures pn in m
    {
      var i :| 0 <= i < |perms| && ParentName(byId, perms[i]).Some? && ParentName(byId, perms[i]).value == pn;
      assert IsChildEdge(perms, pn, perms[i].name);
    }
  }

  /** `children` holds exactly the child edges of the first `k` rows, and no
      empty entry. */
  ghost predicate HoldsEdgesOf(perms: seq<Permission>, byId: map<int, Permission>, children: map<string, set<string>>, k: int)
    requires 0 <= k <= |perms|
  {
    && (forall pn :: pn in children ==> children[pn] != {})
    && (forall pn, c :: pn in children && c in children[pn] <==> EdgeAmong(perms, byId, k, pn, c))
  }

  /** `perm_hierarchy.setdefault(parent.name, set()).add(p.name)` when the
      parent of `p` resolves. */
  function AddChild(byId: map<int, Permission>, children: map<string, set<string>>, p: Permission): map<string, set<string>> {
    match ParentName(byId, p)
    case None => children
    case Some(pn) => children[pn := Next(children, pn) + {p.name}]
  }

  lemma AddChildStep(perms: seq<Permission>, byId: map<int, Permission>, children: map<string, set<string>>, k: int)
    requires 0 <= k < |perms|
    requires HoldsEdgesOf(perms, byId, children, k)
    ensures HoldsEdgesOf(perms, byId, AddChild(byId, children, perms[k]), k + 1)
  {
    var next := AddChild(byId, children, perms[k]);
    var p := perms[k];
    var k1 := k + 1;
    forall pn, c
      ensures pn in next && c in next[pn] <==> EdgeAmong(perms, byId, k1, pn, c)
    {
      if pn in next && c in next[pn] {
        if ParentName(byId, p) == Some(pn) && c == p.name {
          assert 0 <= k < k + 1 && perms[k].name == c && ParentName(byId, perms[k]) == Some(pn);
        } else {
          assert pn in children && c in children[pn];
          var i :| 0 <= i < k && i < |perms| && perms[i].name == c && ParentName(byId, perms[i]) == Some(pn);
          assert 0 <= i < k + 1;
        }
      }
      if EdgeAmong(perms, byId, k + 1, pn, c) {
        var i :| 0 <= i < k + 1 && i < |perms| && perms[i].name == c && ParentName(byId, perms[i]) == Some(pn);
        if i < k {
          assert EdgeAmong(perms, byId, k, pn, c);
          assert pn in children && c in children[pn];
        } else {
          assert p.name == c && ParentName(byId, p) == Some(pn);
        }
      }
    }
    forall pn | pn in next
      ensures next[pn] != {}
    {
      if ParentName(byId, p) != Some(pn) {
        assert next[pn] == children[pn];
      }
    }
  }

  /** Step 3 of `get_user_permissions`: each row whose parent resolves adds
      an edge from the parent's name to its own name. */
  method BuildChildMap(perms: seq<Permission>) returns (children: map<string, set<string>>)
    ensures forall pn :: pn in children ==> children[pn] != {}
    ensures forall pn, c :: pn in children && c in children[pn] <==> IsChildEdge(perms, pn, c)
    ensures children == ChildMap(perms)
  {
    var byId := PermById(perms);
    children := map[];
    for k := 0 to |perms|
      invariant HoldsEdgesOf(perms, byId, children, k)
    {
      var p := perms[k];
      AddChildStep(perms, byId, children, k);
      if TruthyId(p.parentId) && p.parentId.value in byId {
        var parent := byId[p.parentId.value];
        var siblings := if parent.name in children then children[parent.name] else {};
        children := children[parent.name := siblings + {p.name}];
      }
    }
    ChildMapUnique(perms, children);
  }

  /** Step 5: the worklist that closes the granted names downward. */
  method ResolvePermissionNames(children: map<string, set<string>>, base: set<string>) returns (final: set<string>)
    ensures base <= final
    ensures forall n, c :: n in final && n in children && c in children[n] ==> c in final
    ensures forall n :: n in final ==> Reachable(children, base, n)
    ensures final == ReachableSet(children, base)
  {
    final := {};
    var work := ListFrom(base);
    WorklistStart(children, base, work);
    while |work| > 0
      invariant WorklistInv(children, base, final, work)
      decreases |base + Targets(children) - final|, |work|
    {
      ghost var queued, seen := work, final;
      var name := work[|work| - 1];
      work := work[..|work| - 1];
      if name !in final {
        final := final + {name};
        var kids := if name in children then children[name] else {};
        var more := ListFrom(kids);
        WorklistVisit(children, base, seen, queued, more);
        work := work + more;
      } else {
        WorklistSkip(children, base, final, queued);
      }
    }
    WorklistDone(children, base, final);
    ReachableSetIsLeast(children, base);
    ReachableSetMembers(children, base);
  }

  /** Every name of the permission table. */
  function KnownNames(perms: seq<Permission>): set<string> {
    set p | p in perms :: p.name
  }

  /** Step 4: the names granted directly to any of the resolved roles. */
  function GrantedNames(grants: map<int, set<string>>, roleIds: set<int>): set<string> {
    set id, n | id in roleIds && id in grants && n in grants[id] :: n
  }

  // ---------------------------------------------------------------------
  // Wildcards

  /** A name ending in `:*`. */
  predicate IsPrefixWildcard(m: string) {
    EndsWith(m, ":*")
  }

  /** `m[:-2] + ':'`: what a name must start with to match `m`. */
  function WildcardStem(m: string): string
    requires IsPrefixWildcard(m)
  {
    m[..|m| - 2] + ":"
  }

  /** `name` is matched by `*` or by some held prefix wildcard. */
  predicate MatchesWildcard(held: set<string>, name: string) {
    "*" in held || exists m :: m in held && IsPrefixWildcard(m) && StartsWith(name, WildcardStem(m))
  }

  /** The rule of `has_permission`: exact match, global wildcard, or prefix
      wildcard; `name` need not be in the catalog. */
  predicate Grants(held: set<string>, name: string) {
    name in held || MatchesWildcard(held, name)
  }

  /** Step 6: the held names plus every known name a held wildcard matches. */
  ghost function WildcardExpansion(held: set<string>, known: set<string>): set<string> {
    held + set n | n in known && MatchesWildcard(held, n)
  }

  /** What the expansion keeps, adds and never adds. */
  lemma WildcardExpansionBounds(held: set<string>, known: set<string>)
    ensures held <= WildcardExpansion(held, known)
    ensures "*" in held ==> known <= WildcardExpansion(held, known)
    ensures forall m, n :: m in held && IsPrefixWildcard(m) && n in known && StartsWith(n, WildcardStem(m)) ==>
      n in WildcardExpansion(held, known)
    ensures WildcardExpansion(held, known) <= held + known
  {
  }

  /** Step 6 as written: keep each name, and add the known names `*` or
      `X:*` covers. */
  method ExpandWildcards(finalPerms: set<string>, known: set<string>) returns (expanded: set<string>)
    ensures finalPerms <= expanded
    ensures "*" in finalPerms ==> known <= expanded
    ensures forall m, n :: m in finalPerms && IsPrefixWildcard(m) && n in known && StartsWith(n, WildcardStem(m)) ==> n in expanded
    ensures expanded <= finalPerms + known
    ensures expanded == WildcardExpansion(finalPerms, known)
  {
    expanded := {};
    var rest := finalPerms;
    while rest != {}
      invariant rest <= finalPerms
      invariant expanded == WildcardExpansion(finalPerms - rest, known)
      decreases |rest|
    {
      var p :| p in rest;
      ghost var done := finalPerms - rest;
      WildcardExpansionAdd(done, p, known);
      expanded := expanded + {p};
      if p == "*" {
        expanded := expanded + known;
      } else if EndsWith(p, ":*") {
        var prefix := p[..|p| - 2];
        assert prefix + ":" == WildcardStem(p);
        expanded := expanded + set n | n in known && StartsWith(n, prefix + ":");
      }
      rest := rest - {p};
      assert finalPerms - rest == done + {p};
    }
    assert finalPerms - rest == finalPerms;
    WildcardExpansionBounds(finalPerms, known);
  }

  /** Adding one held name `p` to the expansion adds `p` and what it covers. */
  lemma WildcardExpansionAdd(done: set<string>, p: string, known: set<string>)
    ensures WildcardExpansion(done + {p}, known) ==
      WildcardExpansion(done, known) + {p}
      + (if p == "*" then known
         else if IsPrefixWildcard(p) then set n | n in known && StartsWith(n, WildcardStem(p))
         else {})
  {
    var lhs := WildcardExpansion(done + {p}, known);
    var rhs := WildcardExpansion(done, known) + {p}
      + (if p == "*" then known
         else if IsPrefixWildcard(p) then set n | n in known && StartsWith(n, WildcardStem(p))
         else {});
    forall n | n in lhs
      ensures n in rhs
    {
      if n != p && n !in done && n !in WildcardExpansion(done, known) {
        assert n in known && MatchesWildcard(done + {p}, n);
        assert !MatchesWildcard(done, n);
        if p != "*" {
          var m :| m in done + {p} && IsPrefixWildcard(m) && StartsWith(n, WildcardStem(m));
          assert m == p;
        }
      }
    }
  }

  // ---------------------------------------------------------------------
  // Effective permissions

  /** Steps 2 to 5: the granted names of every role in effect, closed
      downward along the child links of the permission table. */
  ghost function ImpliedPermissions(snap: Snapshot, userRoleIds: set<int>): set<string> {
    ReachableSet(ChildMap(snap.permissions), GrantedNames(snap.grants, RoleClosure(snap.roles, userRoleIds)))
  }

  /** What `get_user_permissions` returns: the implied names, with the
      wildcards among them expanded over the permission table. */
  ghost function EffectivePermissions(snap: Snapshot, userRoleIds: set<int>): set<string> {
    WildcardExpansion(ImpliedPermissions(snap, userRoleIds), KnownNames(snap.permissions))
  }

  /** A user without roles has no permissions (the early return agrees with
      the general case). */
  lemma NoRolesNoPermissions(snap: Snapshot)
    ensures EffectivePermissions(snap, {}) == {}
  {
    ReachableSetOfNothing(ParentEdges(snap.roles));
    assert GrantedNames(snap.grants, {}) == {};
    ReachableSetOfNothing(ChildMap(snap.permissions));
  }

  /** Every check fails for a user without roles. */
  lemma NoRolesGrantNothing(snap: Snapshot, name: string)
    ensures !Grants(EffectivePermissions(snap, {}), name)
  {
    NoRolesNoPermissions(snap);
  }

  /** A name granted to any role in effect is an effective permission. */
  lemma InheritedGrantEffective(snap: Snapshot, userRoleIds: set<int>, id: int, name: string)
    requires id in RoleClosure(snap.roles, userRoleIds) && id in snap.grants && name in snap.grants[id]
    ensures name in EffectivePermissions(snap, userRoleIds)
  {
    ImpliedInherits(snap, userRoleIds);
    WildcardExpansionBounds(ImpliedPermissions(snap, userRoleIds), KnownNames(snap.permissions));
  }

  /** `get_user_permissions` for a user whose roles have the ids
      `userRoleIds`. */
  method GetUserPermissions(snap: Snapshot, userRoleIds: set<int>) returns (perms: set<string>)
    ensures userRoleIds == {} ==> perms == {}
    ensures perms == EffectivePermissions(snap, userRoleIds)
  {
    if userRoleIds == {} {
      NoRolesNoPermissions(snap);
      return {};
    }
    var finalRoleIds := ResolveRoleIds(snap.roles, userRoleIds);
    var children := BuildChildMap(snap.permissions);
    var base := GrantedNames(snap.grants, finalRoleIds);
    var finalPerms := ResolvePermissionNames(children, base);
    var known := KnownNames(snap.permissions);
    perms := ExpandWildcards(finalPerms, known);
  }

  /** The loop of `has_permission` over the held names. */
  method CheckGrant(held: set<string>, name: string) returns (granted: bool)
    ensures name in held ==> granted
    ensures "*" in held ==> granted
    ensures forall m :: m in held && IsPrefixWildcard(m) && StartsWith(name, WildcardStem(m)) ==> granted
    ensures granted ==> Grants(held, name)
  {
    if name in held {
      return true;
    }
    if "*" in held {
      return true;
    }
    var rest := held;
    while rest != {}
      invariant rest <= held
      invariant forall m :: m in held - rest && IsPrefixWildcard(m) ==> !StartsWith(name, WildcardStem(m))
      decreases |rest|
    {
      var up :| up in rest;
      if EndsWith(up, ":*") {
        var prefix := up[..|up| - 2];
        if StartsWith(name, prefix + ":") {
          assert prefix + ":" == WildcardStem(up);
          return true;
        }
      }
      rest := rest - {up};
    }
    return false;
  }

  /** `has_permission`: exact match, `*`, or a held `X:*` with `name`
      starting with `X:`, over the effective permissions. */
  method HasPermission(snap: Snapshot, userRoleIds: set<int>, name: string) returns (granted: bool)
    ensures granted <==> Grants(EffectivePermissions(snap, userRoleIds), name)
  {
    var userPerms := GetUserPermissions(snap, userRoleIds);
    granted := CheckGrant(userPerms, name);
  }

  /** `has_any_permission`: some listed name is granted; an empty list grants
      nothing. */
  method HasAnyPermission(snap: Snapshot, userRoleIds: set<int>, names: seq<string>) returns (any: bool)
    ensures any <==> exists i :: 0 <= i < |names| && Grants(EffectivePermissions(snap, userRoleIds), names[i])
  {
    ghost var effective := EffectivePermissions(snap, userRoleIds);
    for i := 0 to |names|
      invariant forall j :: 0 <= j < i ==> !Grants(effective, names[j])
    {
      var granted := HasPermission(snap, userRoleIds, names[i]);
      if granted {
        return true;
      }
      NoneGrantedStep(effective, names, i);
    }
    return false;
  }

  lemma NoneGrantedStep(held: set<string>, names: seq<string>, i: int)
    requires 0 <= i < |names| && !Grants(held, names[i])
    requires forall j :: 0 <= j < i ==> !Grants(held, names[j])
    ensures forall j :: 0 <= j < i + 1 ==> !Grants(held, names[j])
  {
  }

  /** The outcome of `has_role`: a boolean, or the `KeyError` raised when
      the generator reaches an inherited id that is not in the role table. */
  datatype RoleLookup = Found(held: bool) | KeyError(missingId: int)

  /** `has_role`: the user holds or inherits a role named `name`. The ids in
      effect are visited in no particular order and `any` stops at the first
      match, so a missing parent id raises only when no match comes first. */
  method HasRole(roles: map<int, Role>, userRoleIds: set<int>, name: string) returns (r: RoleLookup)
    ensures r.Found? && r.held ==> exists id :: id in RoleClosure(roles, userRoleIds) && id in roles && roles[id].name == name
    ensures r.Found? && !r.held ==> forall id :: id in RoleClosure(roles, userRoleIds) ==> id in roles && roles[id].name != name
    ensures r.KeyError? ==> r.missingId in RoleClosure(roles, userRoleIds) && r.missingId !in roles
    ensures (forall id :: id in RoleClosure(roles, userRoleIds) ==> id in roles) ==>
      r == Found(exists id :: id in RoleClosure(roles, userRoleIds) && roles[id].name == name)
  {
    var closed := ResolveRoleIds(roles, userRoleIds);
    r := AnyRoleNamed(roles, closed, name);
  }

  /** `any(role_map[rid].name == role_name for rid in final_role_ids)`. */
  method AnyRoleNamed(roles: map<int, Role>, ids: set<int>, name: string) returns (r: RoleLookup)
    ensures r.Found? && r.held ==> exists id :: id in ids && id in roles && roles[id].name == name
    ensures r.Found? && !r.held ==> forall id :: id in ids ==> id in roles && roles[id].name != name
    ensures r.KeyError? ==> r.missingId in ids && r.missingId !in roles
  {
    var order := ListFrom(ids);
    for i := 0 to |order|
      invariant forall j :: 0 <= j < i ==> order[j] in roles && roles[order[j]].name != name
    {
      var rid := order[i];
      if rid !in roles {
        return KeyError(rid);
      }
      if roles[rid].name == name {
        return Found(true);
      }
    }
    return Found(false);
  }

  // ---------------------------------------------------------------------
  // Properties of the resolution

  /** Holding more names never grants less. */
  lemma GrantsMonotone(a: set<string>, b: set<string>, name: string)
    requires a <= b && Grants(a, name)
    ensures Grants(b, name)
  {
    if name !in a && "*" !in a {
      var m :| m in a && IsPrefixWildcard(m) && StartsWith(name, WildcardStem(m));
      assert m in b;
    }
  }

  /** A name covered by a prefix wildcard that is itself covered by the
      prefix wildcard `m` is covered by `m`. */
  lemma StemNarrows(m: string, m2: string, name: string)
    requires IsPrefixWildcard(m) && IsPrefixWildcard(m2)
    requires StartsWith(m2, WildcardStem(m)) && StartsWith(name, WildcardStem(m2))
    ensures StartsWith(name, WildcardStem(m))
  {
    var stem, stem2 := WildcardStem(m), WildcardStem(m2);
    assert m2[|m2| - 2..] == ":*";
    assert m2[|m2| - 2] == ':' && m2[|m2| - 1] == '*';
    assert stem2 == m2[..|m2| - 1];
    assert stem[|stem| - 1] == ':';
    assert |stem| < |m2|;
    assert stem == m2[..|stem|] == stem2[..|stem|];
    assert stem == name[..|stem|];
  }

  /** No prefix wildcard covers the name `*`. */
  lemma StarNotCovered(m: string)
    requires IsPrefixWildcard(m)
    ensures !StartsWith("*", WildcardStem(m))
  {
    var stem := WildcardStem(m);
    assert stem[|stem| - 1] == ':';
  }

  /** The expansion is for display only: a name is granted by the expanded
      set exactly when it is granted by the set before expansion. */
  lemma ExpansionPreservesGrants(held: set<string>, known: set<string>, name: string)
    ensures Grants(WildcardExpansion(held, known), name) <==> Grants(held, name)
  {
    var expanded := WildcardExpansion(held, known);
    if Grants(held, name) {
      GrantsMonotone(held, expanded, name);
    }
    if Grants(expanded, name) && !Grants(held, name) {
      // A name of the expanded set is held or covered by a held wildcard.
      if name !in expanded && "*" in expanded {
        assert MatchesWildcard(held, "*");
        var m :| m in held && IsPrefixWildcard(m) && StartsWith("*", WildcardStem(m));
        StarNotCovered(m);
      } else if name !in expanded {
        var m2 :| m2 in expanded && IsPrefixWildcard(m2) && StartsWith(name, WildcardStem(m2));
        assert m2 !in held;
        assert MatchesWildcard(held, m2);
        var m :| m in held && IsPrefixWildcard(m) && StartsWith(m2, WildcardStem(m));
        StemNarrows(m, m2, name);
      }
    }
  }

  /** Expanding twice adds nothing. */
  lemma WildcardExpansionIdempotent(held: set<string>, known: set<string>)
    ensures WildcardExpansion(WildcardExpansion(held, known), known) == WildcardExpansion(held, known)
  {
    var once := WildcardExpansion(held, known);
    forall n | n in known && MatchesWildcard(once, n)
      ensures n in once
    {
      ExpansionPreservesGrants(held, known, n);
    }
  }

  /** `has_permission` decides on the implied names alone. */
  lemma EffectiveGrantsAsImplied(snap: Snapshot, userRoleIds: set<int>, name: string)
    ensures Grants(EffectivePermissions(snap, userRoleIds), name) <==> Grants(ImpliedPermissions(snap, userRoleIds), name)
  {
    ExpansionPreservesGrants(ImpliedPermissions(snap, userRoleIds), KnownNames(snap.permissions), name);
  }

  /** The expansion is monotone in the held names. */
  lemma WildcardExpansionMonotone(a: set<string>, b: set<string>, known: set<string>)
    requires a <= b
    ensures WildcardExpansion(a, known) <= WildcardExpansion(b, known)
  {
    forall n | n in known && MatchesWildcard(a, n)
      ensures MatchesWildcard(b, n)
    {
      if "*" !in a {
        var m :| m in a && IsPrefixWildcard(m) && StartsWith(n, WildcardStem(m));
        assert m in b;
      }
    }
  }

  /** Assigning a user more roles never removes a permission. */
  lemma EffectiveMonotone(snap: Snapshot, a: set<int>, b: set<int>)
    requires a <= b
    ensures EffectivePermissions(snap, a) <= EffectivePermissions(snap, b)
  {
    ReachableSetMonotone(ParentEdges(snap.roles), a, b);
    var ga := GrantedNames(snap.grants, RoleClosure(snap.roles, a));
    var gb := GrantedNames(snap.grants, RoleClosure(snap.roles, b));
    assert ga <= gb;
    ReachableSetMonotone(ChildMap(snap.permissions), ga, gb);
    WildcardExpansionMonotone(ImpliedPermissions(snap, a), ImpliedPermissions(snap, b), KnownNames(snap.permissions));
  }

  /** Every name granted to a role in effect, and every child of an implied
      name, is implied; and each implied name descends from a granted one. */
  lemma ImpliedInherits(snap: Snapshot, userRoleIds: set<int>)
    ensures forall id :: id in RoleClosure(snap.roles, userRoleIds) && id in snap.grants ==>
      snap.grants[id] <= ImpliedPermissions(snap, userRoleIds)
    ensures forall n, c :: n in ImpliedPermissions(snap, userRoleIds) && IsChildEdge(snap.permissions, n, c) ==>
      c in ImpliedPermissions(snap, userRoleIds)
    ensures forall n :: n in ImpliedPermissions(snap, userRoleIds) ==>
      Reachable(ChildMap(snap.permissions), GrantedNames(snap.grants, RoleClosure(snap.roles, userRoleIds)), n)
  {
    var children := ChildMap(snap.permissions);
    var granted := GrantedNames(snap.grants, RoleClosure(snap.roles, userRoleIds));
    ReachableSetIsLeast(children, granted);
    ReachableSetMembers(children, granted);
    forall n, c | n in ImpliedPermissions(snap, userRoleIds) && IsChildEdge(snap.permissions, n, c)
      ensures c in ImpliedPermissions(snap, userRoleIds)
    {
      ChildMapEdges(snap.permissions);
      assert c in Next(children, n);
    }
  }

  /** The child map holds exactly the child edges, with no empty entry. */
  lemma ChildMapEdges(perms: seq<Permission>)
    ensures forall pn :: pn in ChildMap(perms) ==> ChildMap(perms)[pn] != {}
    ensures forall pn, c :: pn in ChildMap(perms) && c in ChildMap(perms)[pn] <==> IsChildEdge(perms, pn, c)
  {
    var byId := PermById(perms);
    var cm := ChildMap(perms);
    forall pn | pn in cm
      ensures cm[pn] != {}
    {
      var i :| 0 <= i < |perms| && ParentName(byId, perms[i]).Some? && ParentName(byId, perms[i]).value == pn;
      assert perms[i].name in cm[pn];
    }
    forall pn, c | IsChildEdge(perms, pn, c)
      ensures pn in cm && c in cm[pn]
    {
      var i :| 0 <= i < |perms| && perms[i].name == c && ParentName(byId, perms[i]) == Some(pn);
      assert pn in cm;
    }
  }
}

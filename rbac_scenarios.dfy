/** Concrete catalogs run through the model: the hierarchy of
    tests/test_rbac.py, the standard role chain, the parent-id quirks and
    the wildcard rules. */
module RbacScenarios {
  import opened Prelude
  import opened Closure
  import opened RbacManager

  // ---------------------------------------------------------------------
  // `admin > manage > view`, with a role granted `manage`

  const View := Permission(1, "view", Some(2))
  const Manage := Permission(2, "manage", Some(3))
  const Admin := Permission(3, "admin", None)

  function HierarchySnapshot(): Snapshot {
    Snapshot(map[10 := Role("manager_role", None)], HierarchyPerms(), map[10 := {"manage"}])
  }

  function HierarchyPerms(): seq<Permission> {
    [View, Manage, Admin]
  }

  /** `perm_map` of the catalog. */
  lemma HierarchyById()
    ensures PermById(HierarchyPerms()) == map[1 := View, 2 := Manage, 3 := Admin]
  {
    var perms := HierarchyPerms();
    assert [View][..0] == [];
    assert PermById([View]) == map[1 := View];
    assert [View, Manage][..1] == [View];
    assert PermById([View, Manage]) == map[1 := View, 2 := Manage];
    assert perms[..2] == [View, Manage];
  }

  /** `view` inherits from `manage`, `manage` from `admin`, `admin` from
      nothing. */
  lemma HierarchyParents()
    ensures ParentName(PermById(HierarchyPerms()), HierarchyPerms()[0]) == Some("manage")
    ensures ParentName(PermById(HierarchyPerms()), HierarchyPerms()[1]) == Some("admin")
    ensures ParentName(PermById(HierarchyPerms()), HierarchyPerms()[2]) == None
  {
    HierarchyById();
  }

  /** The child links of the catalog: `admin -> manage -> view`. */
  lemma HierarchyChildren()
    ensures Next(ChildMap(HierarchyPerms()), "manage") == {"view"}
    ensures Next(ChildMap(HierarchyPerms()), "view") == {}
  {
    var perms := HierarchyPerms();
    var byId := PermById(perms);
    HierarchyParents();
    ChildMapEdges(perms);
    var cm := ChildMap(perms);
    assert IsChildEdge(perms, "manage", "view") by {
      assert perms[0].name == "view" && ParentName(byId, perms[0]) == Some("manage");
    }
    forall i | 0 <= i < |perms|
      ensures ParentName(byId, perms[i]) == Some("manage") ==> perms[i].name == "view"
      ensures ParentName(byId, perms[i]) != Some("view")
    {
    }
  }

  /** The role has no parent, so only itself is in effect. */
  lemma HierarchyRoleClosure()
    ensures RoleClosure(HierarchySnapshot().roles, {10}) == {10}
  {
    var edges := ParentEdges(HierarchySnapshot().roles);
    assert edges == map[];
    SeedReachable(edges, {10}, 10);
    ReachableSetCharacterized(edges, {10}, {10});
  }

  /** When one role is in effect, its grant row is all that is granted. */
  lemma GrantedThroughOne(roles: map<int, Role>, grants: map<int, set<string>>, ids: set<int>, id: int)
    requires RoleClosure(roles, ids) == {id}
    requires id in grants
    ensures GrantedNames(grants, RoleClosure(roles, ids)) == grants[id]
  {
  }

  /** The grant `manage` implies `view` but not the parent `admin`. */
  lemma HierarchyImplied()
    ensures ImpliedPermissions(HierarchySnapshot(), {10}) == {"manage", "view"}
  {
    HierarchyRoleClosure();
    HierarchyGrantRow();
    HierarchyLinks();
    ImpliedFromManage(HierarchySnapshot(), {10}, 10);
  }

  /** Restates a fact of the literal snapshot on its own, so that the lemma
      combining the facts does not unfold the literal. */
  lemma HierarchyGrantRow()
    ensures 10 in HierarchySnapshot().grants && HierarchySnapshot().grants[10] == {"manage"}
  {
  }

  /** `HierarchyChildren` over `HierarchySnapshot().permissions`, kept apart
      for the same reason. */
  lemma HierarchyLinks()
    ensures Next(ChildMap(HierarchySnapshot().permissions), "manage") == {"view"}
    ensures Next(ChildMap(HierarchySnapshot().permissions), "view") == {}
  {
    HierarchyChildren();
  }

  /** Any snapshot where one role is in effect and it is granted just
      `manage`, over links where `manage` has the one child `view` and
      `view` has none. */
  lemma ImpliedFromManage(snap: Snapshot, ids: set<int>, id: int)
    requires RoleClosure(snap.roles, ids) == {id}
    requires id in snap.grants && snap.grants[id] == {"manage"}
    requires Next(ChildMap(snap.permissions), "manage") == {"view"}
    requires Next(ChildMap(snap.permissions), "view") == {}
    ensures ImpliedPermissions(snap, ids) == {"manage", "view"}
  {
    GrantedThroughOne(snap.roles, snap.grants, ids, id);
    ManageReachesView(ChildMap(snap.permissions));
  }

  /** Over any links where `manage` has the one child `view` and `view` has
      none, `manage` reaches itself and `view`. */
  lemma ManageReachesView(children: map<string, set<string>>)
    requires Next(children, "manage") == {"view"}
    requires Next(children, "view") == {}
    ensures ReachableSet(children, {"manage"}) == {"manage", "view"}
  {
    var s: set<string> := {"manage", "view"};
    SeedReachable(children, {"manage"}, "manage");
    StepReachable(children, {"manage"}, "manage", "view");
    ReachableSetCharacterized(children, {"manage"}, s);
  }

  /** No wildcard is held, so nothing is added: the user holds `view` and
      `manage`, and not `admin`. */
  lemma HierarchyScenario()
    ensures EffectivePermissions(HierarchySnapshot(), {10}) == {"manage", "view"}
    ensures Grants(EffectivePermissions(HierarchySnapshot(), {10}), "view")
    ensures !Grants(EffectivePermissions(HierarchySnapshot(), {10}), "admin")
  {
    HierarchyImplied();
    ManageViewPlain();
    PlainEffective(HierarchySnapshot(), {10}, {"manage", "view"});
  }

  /** `manage` and `view` are plain names: they grant `view` and not
      `admin`. */
  lemma ManageViewPlain()
    ensures NoWildcards({"manage", "view"})
    ensures Grants({"manage", "view"}, "view")
    ensures !Grants({"manage", "view"}, "admin")
  {
    assert !IsPrefixWildcard("manage") && !IsPrefixWildcard("view");
  }

  /** Neither `*` nor a prefix wildcard is among `held`. */
  predicate NoWildcards(held: set<string>) {
    "*" !in held && forall m :: m in held ==> !IsPrefixWildcard(m)
  }

  /** Implied names without `*` or a prefix wildcard are the effective
      names, and grant exactly themselves. */
  lemma PlainEffective(snap: Snapshot, ids: set<int>, held: set<string>)
    requires ImpliedPermissions(snap, ids) == held
    requires NoWildcards(held)
    ensures EffectivePermissions(snap, ids) == held
    ensures forall n :: Grants(EffectivePermissions(snap, ids), n) <==> n in held
  {
  }

  // ---------------------------------------------------------------------
  // The standard chain, as stored role rows

  function ChainRoles(): map<int, Role> {
    map[1 := Role("user", None),
        2 := Role("user_manager", Some(1)),
        3 := Role("user_admin", Some(2)),
        4 := Role("admin", Some(3))]
  }

  /** `admin` inherits every role of the chain. */
  lemma ChainClosure()
    ensures RoleClosure(ChainRoles(), {4}) == {1, 2, 3, 4}
  {
    var roles := ChainRoles();
    var edges := ParentEdges(roles);
    assert edges == map[2 := {1}, 3 := {2}, 4 := {3}];
    SeedReachable(edges, {4}, 4);
    StepReachable(edges, {4}, 4, 3);
    StepReachable(edges, {4}, 3, 2);
    StepReachable(edges, {4}, 2, 1);
    ReachableSetCharacterized(edges, {4}, {1, 2, 3, 4});
  }

  /** With `users:write` granted to `user_manager`, a user assigned only
      `admin` holds it, whatever the permission table. */
  lemma ChainInheritsGrant(perms: seq<Permission>)
    ensures "users:write" in EffectivePermissions(Snapshot(ChainRoles(), perms, map[2 := {"users:write"}]), {4})
  {
    ChainClosure();
    InheritedGrantEffective(Snapshot(ChainRoles(), perms, map[2 := {"users:write"}]), {4}, 2, "users:write");
  }

  /** A `user_admin` holds `users:*`, which grants every name starting with
      `users:`, whether the permission table has it or not. */
  lemma UserAdminGrants(n: string)
    requires StartsWith(n, "users:")
    ensures Grants({"users:*", "roles:manage"}, n)
  {
    assert IsPrefixWildcard("users:*");
    assert WildcardStem("users:*") == "users:";
  }

  /** `users:*` and `roles:manage` do not grant `billing:read`. */
  lemma UserAdminDeniesBilling()
    ensures !Grants({"users:*", "roles:manage"}, "billing:read")
  {
    assert WildcardStem("users:*") == "users:";
    assert !IsPrefixWildcard("roles:manage");
    NotPrefix("billing:read", "users:");
  }

  // ---------------------------------------------------------------------
  // Parent-id quirks

  /** A parent id of 0 is not climbed, even when role 0 exists. */
  lemma ZeroParentIsNoParent()
    ensures RoleClosure(map[0 := Role("root", None), 5 := Role("child", Some(0))], {5}) == {5}
  {
    var roles := map[0 := Role("root", None), 5 := Role("child", Some(0))];
    var edges := ParentEdges(roles);
    assert edges == map[];
    SeedReachable(edges, {5}, 5);
    ReachableSetCharacterized(edges, {5}, {5});
  }

  /** A dangling parent id (99 is no role's id) is kept in the closure,
      which is what makes `has_role` raise. */
  lemma DanglingParentKept()
    ensures RoleClosure(map[7 := Role("orphan", Some(99))], {7}) == {7, 99}
  {
    var roles := map[7 := Role("orphan", Some(99))];
    var edges := ParentEdges(roles);
    assert edges == map[7 := {99}];
    SeedReachable(edges, {7}, 7);
    StepReachable(edges, {7}, 7, 99);
    ReachableSetCharacterized(edges, {7}, {7, 99});
  }

  /** A parent cycle closes over both roles. */
  lemma ParentCycle()
    ensures RoleClosure(map[1 := Role("a", Some(2)), 2 := Role("b", Some(1))], {1}) == {1, 2}
  {
    var roles := map[1 := Role("a", Some(2)), 2 := Role("b", Some(1))];
    var edges := ParentEdges(roles);
    assert edges == map[1 := {2}, 2 := {1}];
    SeedReachable(edges, {1}, 1);
    StepReachable(edges, {1}, 1, 2);
    ReachableSetCharacterized(edges, {1}, {1, 2});
  }

  // ---------------------------------------------------------------------
  // Wildcards

  lemma NotPrefix(s: string, p: string)
    requires |s| > 0 && |p| > 0 && s[0] != p[0]
    ensures !StartsWith(s, p)
  {
  }

  /** `content:*` displays the catalog's `content:` names and no other. */
  lemma PrefixWildcardExpansion()
    ensures WildcardExpansion({"content:*"}, {"content:read", "content:update", "billing:read"})
      == {"content:*", "content:read", "content:update"}
    ensures Grants({"content:*"}, "content:delete")
  {
    var held: set<string> := {"content:*"};
    assert WildcardStem("content:*") == "content:";
    assert MatchesWildcard(held, "content:read");
    assert MatchesWildcard(held, "content:update");
    NotPrefix("billing:read", "content:");
    assert !MatchesWildcard(held, "billing:read");
  }

  /** `*` displays the whole catalog and grants any name. */
  lemma GlobalWildcardExpansion(known: set<string>, name: string)
    ensures WildcardExpansion({"*"}, known) == {"*"} + known
    ensures Grants({"*"}, name)
  {
  }
}

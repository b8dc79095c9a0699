# fastapi-oauth-rbac: the RBAC core in Dafny

This project models the authorization core of `fastapi-oauth-rbac` and proves properties of that model.

- `RBACManager` computes a user's effective permissions. It climbs the role hierarchy upward along parent links. It walks the permission hierarchy downward along child links. It expands `*` and `<prefix>:*` wildcards over the permission table. `has_permission`, `has_any_permission` and `has_role` are built on top of it.
- `FastAPIOAuthRBAC.add_role` registers custom roles.
- The derivation steps of `FastAPIOAuthRBAC.setup_defaults` decide four things: which permission names are ensured, which permissions are created and with which description, which roles are created or updated with which description, grants and default flag, and which parent link each role gets.

Modules:

- `Prelude` (`prelude.dfy`): `Option`, Python truthiness of an optional id or name, `startswith` and `endswith`, and `list(s)` of a set.
- `Closure` (`closure.dfy`): reachability over an adjacency map `map<T, set<T>>`.
  - `ReachableSet` is the least closed superset of the seeds. It is characterized by walks.
  - The `Worklist*` lemmas carry the invariant of the source's pop / check / add / enqueue loops.
- `RbacManager` (`rbac_manager.dfy`): `rbac/manager.py`.
  - The three database reads become a `Snapshot`: roles by id, the permission rows in table order, and the permission names granted to each role id.
  - Each loop of the source is a `method`. It is proved equal to a specification function: `RoleClosure`, `ChildMap`, `ReachableSet` or `WildcardExpansion`.
  - `GetUserPermissions` is proved equal to `EffectivePermissions`. The checks are proved against the `Grants` predicate.
- `Setup` (`setup.dfy`): `main.py`.
  - `OAuthRBAC` is a class whose `registeredRoles` map `AddRole` updates in place.
  - `SetupDefaults` takes three inputs: the names discovered on the routes, and the permission and role names already stored. It returns a `SetupPlan`: the ensured names, the created permissions with their descriptions, and for every role the create flag, description, grants, default flag and parent link.
- `RbacScenarios` and `SetupScenarios`: the situations of `tests/test_rbac.py` and `tests/test_discovery.py`, plus the parent-id and wildcard edge cases, stated over the model.

Behaviours of the code that the model keeps:

- `has_role` indexes `role_map[rid]` for every id in the closure (`rbac/manager.py:144`). An inherited parent id that is not a role therefore raises `KeyError`. `HasRole` returns `KeyError(id)` in that case.
- A parent id that names no role still enters the closure (`rbac/manager.py:46-50`). Climbing stops there, because no role row holds a further parent.
- A parent id of `0` counts as no parent, because the code tests `if role.parent_id:`. The same holds for permission rows.
- The wildcard loop (`rbac/manager.py:89`) iterates over `final_perms`, not over the growing result. `ExpandWildcards` follows the code. `WildcardExpansionIdempotent` shows that one pass already adds every name a second pass would.

## Model

| member | source | states |
|---|---|---|
| Prelude.ListFrom | src/fastapi_oauth_rbac/rbac/manager.py:41 | `list(s)` of a set holds exactly the set's elements, each once |
| RbacManager.ParentEdgesNext | src/fastapi_oauth_rbac/rbac/manager.py:47-50 | a role id's only successor is its parent, and only when the role is known and its `parent_id` is truthy (so `0` and `None` are no parent) |
| RbacManager.RoleClosureProperties | src/fastapi_oauth_rbac/rbac/manager.py:39-50 | the role closure contains the assigned ids, is closed under truthy parent links of known roles, and contains only ids reachable from the assigned ones |
| RbacManager.ResolveRoleIds | src/fastapi_oauth_rbac/rbac/manager.py:39-50 | the role worklist terminates on every catalog, including cyclic ones, and returns exactly the role closure: a superset of the assigned ids, parent-closed, reachable ids only |
| RbacManager.PermByIdKeys | src/fastapi_oauth_rbac/rbac/manager.py:57 | `perm_map` has a key exactly for the ids of the rows |
| RbacManager.PermByIdLast | src/fastapi_oauth_rbac/rbac/manager.py:57 | when rows share an id, `perm_map` keeps the last of them |
| RbacManager.AddChildStep | src/fastapi_oauth_rbac/rbac/manager.py:60-64 | processing one more row adds exactly its edge `parent.name -> p.name` when its truthy parent id resolves, and never creates an empty entry |
| RbacManager.BuildChildMap | src/fastapi_oauth_rbac/rbac/manager.py:57-64 | `perm_hierarchy` has an edge `pn -> c` iff some row named `c` has a truthy parent id resolving to a row named `pn`; it has no empty entry and equals `ChildMap` |
| RbacManager.ChildMapUnique | src/fastapi_oauth_rbac/rbac/manager.py:58-64 | any map with exactly those edges and no empty entry is the child map |
| RbacManager.ChildMapEdges | src/fastapi_oauth_rbac/rbac/manager.py:58-64 | the child map holds exactly the edges whose parent resolves, with no empty entry |
| RbacManager.ResolvePermissionNames | src/fastapi_oauth_rbac/rbac/manager.py:75-84 | the downward worklist returns a superset of the granted names, closed under child links, holding only names reachable from the granted ones |
| RbacManager.WildcardExpansionBounds | src/fastapi_oauth_rbac/rbac/manager.py:86-97 | the expansion keeps every held name, adds every known name under `*`, adds every known `X:`-name under a held `X:*`, and adds nothing outside the table |
| RbacManager.WildcardExpansionAdd | src/fastapi_oauth_rbac/rbac/manager.py:89-97 | one more held name adds itself plus the whole table for `*`, or the table's `X:`-names for `X:*`, and nothing else |
| RbacManager.ExpandWildcards | src/fastapi_oauth_rbac/rbac/manager.py:86-99 | the loop keeps the originals, adds the known names covered by `*` or `X:*`, stays within originals plus table, and equals `WildcardExpansion` |
| RbacManager.NoRolesNoPermissions | src/fastapi_oauth_rbac/rbac/manager.py:24-26 | with no roles, the general resolution yields the empty set, so it agrees with the early return |
| RbacManager.NoRolesGrantNothing | src/fastapi_oauth_rbac/rbac/manager.py:24-26 | a user without roles passes no permission check |
| RbacManager.GetUserPermissions | src/fastapi_oauth_rbac/rbac/manager.py:19-99 | returns the empty set for no roles; otherwise the names granted to the role closure, closed downward, with wildcards expanded over the table |
| RbacManager.ImpliedInherits | src/fastapi_oauth_rbac/rbac/manager.py:66-84 | every name granted to a role in effect is implied, every child of an implied name is implied, and every implied name descends from a granted one |
| RbacManager.InheritedGrantEffective | src/fastapi_oauth_rbac/rbac/manager.py:39-99 | a name granted to an inherited role is an effective permission |
| RbacManager.EffectiveMonotone | src/fastapi_oauth_rbac/rbac/manager.py:19-99 | assigning more roles never removes an effective permission |
| RbacManager.CheckGrant | src/fastapi_oauth_rbac/rbac/manager.py:103-115 | true on exact match, on `*`, and on a held `X:*` when the name starts with `X:`; true only in those cases |
| RbacManager.HasPermission | src/fastapi_oauth_rbac/rbac/manager.py:101-115 | true iff the effective set grants the name by exact match, `*` or prefix wildcard; the name need not be in the table |
| RbacManager.GrantsMonotone | src/fastapi_oauth_rbac/rbac/manager.py:103-115 | holding more names never grants less |
| RbacManager.StemNarrows | src/fastapi_oauth_rbac/rbac/manager.py:109-114 | a prefix wildcard covered by `X:*` covers only names that `X:*` covers |
| RbacManager.StarNotCovered | src/fastapi_oauth_rbac/rbac/manager.py:109-114 | no prefix wildcard covers the name `*` |
| RbacManager.ExpansionPreservesGrants | src/fastapi_oauth_rbac/rbac/manager.py:86-115 | the display expansion changes no check: a name is granted by the expanded set iff it is granted by the set before expansion |
| RbacManager.WildcardExpansionIdempotent | src/fastapi_oauth_rbac/rbac/manager.py:86-97 | expanding twice gives the same set as expanding once |
| RbacManager.WildcardExpansionMonotone | src/fastapi_oauth_rbac/rbac/manager.py:86-97 | the expansion is monotone in the held names |
| RbacManager.EffectiveGrantsAsImplied | src/fastapi_oauth_rbac/rbac/manager.py:101-115 | `has_permission` gives the same answer over the implied names as over the expanded ones |
| RbacManager.HasAnyPermission | src/fastapi_oauth_rbac/rbac/manager.py:117-123 | true iff some listed name is granted; false for the empty list |
| RbacManager.AnyRoleNamed | src/fastapi_oauth_rbac/rbac/manager.py:144 | `Found(true)` only if some id is a role with that name; `Found(false)` only if every id is a role with another name; `KeyError(id)` only for an id that is no role |
| RbacManager.HasRole | src/fastapi_oauth_rbac/rbac/manager.py:125-144 | the same three outcomes over the role closure; when every id in the closure is a role, the result is exactly whether one of them has the name |
| Closure.ReachableSetIsLeast | src/fastapi_oauth_rbac/rbac/manager.py:75-84 | the reachable set contains the seeds, is closed, and is contained in every closed superset of the seeds |
| Closure.ReachableSetCharacterized | src/fastapi_oauth_rbac/rbac/manager.py:75-84 | a closed superset of the seeds holding only reachable nodes is the reachable set |
| Closure.ReachableSetMonotone | src/fastapi_oauth_rbac/rbac/manager.py:39-50 | more seeds never reach fewer nodes |
| Closure.ReachableSetIdempotent | src/fastapi_oauth_rbac/rbac/manager.py:75-84 | closing an already closed set adds nothing |
| Closure.WorklistVisit | src/fastapi_oauth_rbac/rbac/manager.py:79-84 | expanding a new node keeps the worklist invariant and shrinks the set of unvisited nodes, which gives termination |
| Closure.WorklistSkip | src/fastapi_oauth_rbac/rbac/manager.py:43-45 | popping an already visited id keeps the worklist invariant |
| Closure.WorklistDone | src/fastapi_oauth_rbac/rbac/manager.py:43-50 | an empty worklist leaves exactly the reachable set |
| Setup.OAuthRBAC.constructor | src/fastapi_oauth_rbac/main.py:24 | a new instance has no registered roles |
| Setup.OAuthRBAC.AddRole | src/fastapi_oauth_rbac/main.py:75-80 | registering a name replaces that name's entry with its description and list, stores no parent, and leaves the other names unchanged |
| Setup.ListedInAdd | src/fastapi_oauth_rbac/main.py:138-142 | adding one role's list to `extra_perms` adds exactly its names |
| Setup.AddListed | src/fastapi_oauth_rbac/main.py:138-142 | `extra_perms` ends as the names listed by the given roles, added to what it held |
| Setup.FirstSegment | src/fastapi_oauth_rbac/main.py:152 | `split(':')[0]` is a prefix without `:` that ends at the first `:` or at the end |
| Setup.FirstSegmentUnique | src/fastapi_oauth_rbac/main.py:152 | a prefix without `:` that ends at a `:` is the first segment |
| Setup.WildcardNamesAdd | src/fastapi_oauth_rbac/main.py:150-153 | one more base name adds its `<segment>:*` exactly when it contains `:` |
| Setup.CollectWildcards | src/fastapi_oauth_rbac/main.py:149-153 | `wildcard_perms` holds `*` and `<segment>:*` for every base name with a `:`, and nothing else |
| Setup.WildcardNamesClosed | src/fastapi_oauth_rbac/main.py:144-155 | every ensured wildcard is `*` or ends in `:*`, and ensuring the wildcards of the wildcards adds nothing |
| Setup.BasicDescriptionsKept | src/fastapi_oauth_rbac/main.py:109-116 | each basic permission is created with its own description |
| Setup.SegmentWildcardDescription | src/fastapi_oauth_rbac/main.py:171-172 | the wildcard `X:*` is described as "Prefix wildcard for X" |
| Setup.DiscoveredDescription | src/fastapi_oauth_rbac/main.py:166-168 | any other name gets "Automatically discovered permission: " followed by the name |
| Setup.CreateMissingPermissions | src/fastapi_oauth_rbac/main.py:162-181 | exactly the ensured names not yet stored are created, each with the description chosen by the override order, and afterwards every ensured name exists |
| Setup.OverlayStep | src/fastapi_oauth_rbac/main.py:185-190 | laying one registered role over the table replaces its entry, with no parent |
| Setup.MergedRolesEntries | src/fastapi_oauth_rbac/main.py:184-190 | the merged table has the standard and registered names; registered entries win and have no parent; the other standard entries are unchanged |
| Setup.RolesToSetup | src/fastapi_oauth_rbac/main.py:184-190 | the loop builds exactly the merged table |
| Setup.KeepExisting | src/fastapi_oauth_rbac/main.py:203-205 | the grant list keeps, in order, exactly the listed names that exist; it is no longer than the list, and is the whole list when every name exists |
| Setup.FirstPassStep | src/fastapi_oauth_rbac/main.py:202-218 | each role of the first pass gets its create flag, description, filtered grants and default flag |
| Setup.SecondPassStep | src/fastapi_oauth_rbac/main.py:223-227 | the second pass links a role to its parent only when the parent name is non-empty and in the table |
| Setup.PlanRoleWrites | src/fastapi_oauth_rbac/main.py:199-227 | both passes produce exactly the specified writes for every role of the table |
| Setup.WritesPendingEntries | src/fastapi_oauth_rbac/main.py:201-227 | a role is created iff not stored; a new role carries its description and a stored one keeps its own; grants are filtered; default iff standard; parent iff linked |
| Setup.EnsurePermissions | src/fastapi_oauth_rbac/main.py:137-181 | the ensured names are basic, discovered and listed names plus their wildcards and `*`; missing ones are created with their descriptions |
| Setup.SetupRoles | src/fastapi_oauth_rbac/main.py:183-227 | every standard and registered role is written, and no other name; a role is created exactly when it is not stored; a created role gets the description of its merged entry (the registered one for a registered name, the standard one otherwise) and a stored role's description is left alone; registered roles get no parent; a standard role not overridden keeps its standard parent |
| Setup.ListedNamesEnsured | src/fastapi_oauth_rbac/main.py:137-155 | every name a role of the table lists is ensured, so no listed grant is dropped |
| Setup.StandardParentsLinked | src/fastapi_oauth_rbac/main.py:222-227 | a standard role that is not overridden is linked to its standard parent, and a registered role to none |
| Setup.StandardChain | src/fastapi_oauth_rbac/main.py:122-135 | the standard table is the chain `admin -> user_admin -> user_manager -> user`, `user` has no parent, and `admin` holds `*` |
| Setup.OAuthRBAC.SetupDefaults | src/fastapi_oauth_rbac/main.py:106-229 | the derivations of setup: ensured names with `*` and every segment wildcard, created permissions and descriptions, and for each role its create flag, description (the registered one for a new registered role, the standard one for a new standard role not overridden, none for a stored role), grants, default flag and parent |
| RbacScenarios.HierarchyChildren | tests/test_rbac.py:21-25 | in the catalog `admin > manage > view`, `manage` has the one child `view` and `view` has none |
| RbacScenarios.HierarchyImplied | tests/test_rbac.py:27-39 | a role granted `manage` implies `manage` and `view`, not `admin` |
| RbacScenarios.HierarchyScenario | tests/test_rbac.py:35-42 | the effective set is `{manage, view}`: `view` is granted and `admin` is not |
| RbacScenarios.ChainClosure | src/fastapi_oauth_rbac/main.py:122-135 | stored as rows with parent ids, `admin` inherits `user_admin`, `user_manager` and `user` |
| RbacScenarios.ChainInheritsGrant | src/fastapi_oauth_rbac/rbac/manager.py:39-73 | `users:write` granted to `user_manager` is effective for a user assigned only `admin` |
| RbacScenarios.UserAdminGrants | src/fastapi_oauth_rbac/rbac/manager.py:109-114 | `users:*` grants every name that starts with `users:`, whether the permission table has it or not |
| RbacScenarios.UserAdminDeniesBilling | src/fastapi_oauth_rbac/rbac/manager.py:106-114 | `users:*` with `roles:manage` does not grant `billing:read` |
| RbacScenarios.ZeroParentIsNoParent | src/fastapi_oauth_rbac/rbac/manager.py:48 | a parent id of `0` is not climbed, even when a role with id 0 exists |
| RbacScenarios.DanglingParentKept | src/fastapi_oauth_rbac/rbac/manager.py:47-50 | a parent id that is no role still enters the closure |
| RbacScenarios.ParentCycle | src/fastapi_oauth_rbac/rbac/manager.py:43-50 | a parent cycle closes over both roles |
| RbacScenarios.PrefixWildcardExpansion | src/fastapi_oauth_rbac/rbac/manager.py:93-97 | `content:*` displays `content:read` and `content:update` but not `billing:read`, and grants `content:delete` |
| RbacScenarios.GlobalWildcardExpansion | src/fastapi_oauth_rbac/rbac/manager.py:91-92 | `*` displays the whole table and grants any name |
| SetupScenarios.DiscoveryScenario | tests/test_discovery.py:35-43 | a discovered `custom:action` that is not stored is created with the "Automatically discovered" description, and `custom:*` is ensured |
| SetupScenarios.RegistrationScenario | tests/test_discovery.py:51-78 | a registered `editor` is written with both of its names, no parent, not as default, with its own description when new, and `content:*` is ensured |

## Left out

- Database access (`select`, `db.add`, `flush`, `selectinload`) is not modelled. Its reads are parameters: the `Snapshot`, and the stored permission and role names. Its writes are the returned `SetupPlan`. `async`/`await` is not modelled.
- The role rows' in-place mutation (`existing_roles[name].permissions = ...`) is modelled as one `RoleWrite` value per role. Grants are recorded by permission name, not as ORM objects.
- New role ids are not known before the flush, so a parent link is recorded by the parent role's name, not its id.
- `role_hierarchy` (manager.py:34-37) is built but never read by the source, so it is not modelled.
- The loop of `has_role` is the same as the role loop of `get_user_permissions`; `HasRole` reuses `ResolveRoleIds`.
- Iteration over Python sets and dicts is modelled as choosing any remaining element. So `HasRole` admits either outcome when both a match and a missing id are in the closure.
- The duplicated `get_user_permissions` call on each step of `has_any_permission` is modelled as it is written. The model does not measure its cost.
- `_discover_route_permissions` (main.py:82-104) walks FastAPI's route objects. Its result is the `discovered` parameter of `SetupDefaults`.
- The initial admin user, password hashing, lifespan, dashboard and router registration (main.py:30-73, 231-247) are I/O and are not modelled. So are auth/router.py and database/session.py.
- The boolean requirement combinators of `rbac/logic.py` are not part of this model.
- Tenant filtering is not modelled, because the source does not filter by tenant in this core.

/** `FastAPIOAuthRBAC` (main.py): role registration, and what
    `setup_defaults` derives before writing to the database: the permission
    names to ensure, the descriptions of the missing ones, the merged role
    table, each role's grants and its parent link. The rows it reads become
    the sets of stored names; the rows it writes become a `SetupPlan`. */
module Setup {
  import opened Prelude

  /** `basic_perms`: the built-in permissions and their descriptions. */
  const BasicPermissions: map<string, string> := map[
    "users:read" := "Can read user information",
    "users:write" := "Can create/update users",
    "users:delete" := "Can delete users",
    "users:verify" := "Can verify/deactivate users",
    "roles:manage" := "Can manage roles and permissions",
    "dashboard:view" := "Can view the internal dashboard"]

  /** A row of the role setup table: description, permission names and the
      name of the parent role. */
  datatype RoleSpec = RoleSpec(description: string, permissions: seq<string>, parent: Option<string>)

  /** `standard_roles`. */
  const StandardRoles: map<string, RoleSpec> := map[
    "user" := RoleSpec("Standard user access", [], None),
    "user_manager" := RoleSpec("Can manage users but not roles", ["users:write", "users:verify", "dashboard:view"], Some("user")),
    "user_admin" := RoleSpec("Can manage users and roles", ["users:*", "roles:manage"], Some("user_manager")),
    "admin" := RoleSpec("Full system access", ["*"], Some("user_admin"))]

  /** An entry of `registered_roles`: no parent is stored. */
  datatype RoleInfo = RoleInfo(description: string, permissions: seq<string>)

  /** What setup writes for one role. `description` is `None` for a role
      that already exists (only its grants and default flag are updated);
      `parent` is `None` when its `parent_id` is left as it is. */
  datatype RoleWrite = RoleWrite(
    create: bool,
    description: Option<string>,
    permissions: seq<string>,
    isDefault: bool,
    parent: Option<string>)

  /** The outcome of `setup_defaults`: the permission names it ensures, the
      permissions it creates with their descriptions, and the role writes. */
  datatype SetupPlan = SetupPlan(
    ensured: set<string>,
    createdPermissions: map<string, string>,
    roles: map<string, RoleWrite>)

  // ---------------------------------------------------------------------
  // Permission names

  /** `s.split(':')[0]`: the text before the first `:`, or all of `s`. */
  function FirstSegment(s: string): (r: string)
    ensures r <= s
    ensures ':' !in r
    ensures |r| < |s| ==> s[|r|] == ':'
  {
    if s == [] || s[0] == ':' then [] else [s[0]] + FirstSegment(s[1..])
  }

  /** A prefix of `s` without `:` that ends at a `:` is its first segment. */
  lemma FirstSegmentUnique(s: string, r: string)
    requires r <= s && ':' !in r && |r| < |s| && s[|r|] == ':'
    ensures FirstSegment(s) == r
  {
    var f := FirstSegment(s);
    assert |f| == |r|;
  }

  /** The names listed by the roles of `lists`. */
  ghost function ListedIn(lists: map<string, seq<string>>): set<string> {
    set r, n | r in lists && n in lists[r] :: n
  }

  /** The permission lists of the registered roles. */
  function RegisteredLists(registered: map<string, RoleInfo>): map<string, seq<string>> {
    map r | r in registered :: registered[r].permissions
  }

  /** The permission lists of the standard roles. */
  function StandardLists(): map<string, seq<string>> {
    map r | r in StandardRoles :: StandardRoles[r].permissions
  }

  /** `all_base_perms`: the basic names, the discovered names and every name
      a registered or standard role lists. */
  ghost function BaseNames(discovered: set<string>, registered: map<string, RoleInfo>): set<string> {
    BasicPermissions.Keys + discovered + ListedIn(RegisteredLists(registered)) + ListedIn(StandardLists())
  }

  /** The wildcard `<segment>:*` of a name that has a `:`. */
  function SegmentWildcard(p: string): string {
    FirstSegment(p) + ":*"
  }

  /** `wildcard_perms`: `*`, and the wildcard of each base name with a `:`. */
  ghost function WildcardNames(base: set<string>): set<string> {
    {"*"} + set p | p in base && ':' in p :: SegmentWildcard(p)
  }

  /** `all_perm_names`. */
  ghost function EnsuredNames(discovered: set<string>, registered: map<string, RoleInfo>): set<string> {
    BaseNames(discovered, registered) + WildcardNames(BaseNames(discovered, registered))
  }

  /** Adding one role's list adds exactly its names. */
  lemma ListedInAdd(lists: map<string, seq<string>>, done: set<string>, r: string)
    requires r in lists
    ensures ListedIn(map k | k in lists && k in done + {r} :: lists[k]) ==
      ListedIn(map k | k in lists && k in done :: lists[k]) + set n | n in lists[r]
  {
    var before := map k | k in lists && k in done :: lists[k];
    var after := map k | k in lists && k in done + {r} :: lists[k];
    forall n | n in ListedIn(after)
      ensures n in ListedIn(before) || n in lists[r]
    {
      var k :| k in after && n in after[k];
      if k != r {
        assert k in before && n in before[k];
      }
    }
    forall n | n in ListedIn(before)
      ensures n in ListedIn(after)
    {
      var k :| k in before && n in before[k];
      assert k in after && n in after[k];
    }
    forall n | n in lists[r]
      ensures n in ListedIn(after)
    {
      assert r in after && n in after[r];
    }
  }

  /** `extra_perms.update(perms)` for every list of `lists`. */
  method AddListed(extra: set<string>, lists: map<string, seq<string>>) returns (more: set<string>)
    ensures more == extra + ListedIn(lists)
  {
    more := extra;
    var rest := lists.Keys;
    while rest != {}
      invariant rest <= lists.Keys
      invariant more == extra + ListedIn(map k | k in lists && k in lists.Keys - rest :: lists[k])
      decreases |rest|
    {
      var r :| r in rest;
      ghost var done := lists.Keys - rest;
      ListedInAdd(lists, done, r);
      more := more + set n | n in lists[r];
      rest := rest - {r};
      assert lists.Keys - rest == done + {r};
    }
    assert (map k | k in lists && k in lists.Keys - rest :: lists[k]) == lists;
  }

  /** Adding one base name adds at most its wildcard. */
  lemma WildcardNamesAdd(done: set<string>, p: string, before: set<string>, after: set<string>)
    requires before == WildcardNames(done)
    requires after == if ':' in p then before + {SegmentWildcard(p)} else before
    ensures after == WildcardNames(done + {p})
  {
  }

  /** Steps 1 to 1.5 of `setup_defaults`: `wildcard_perms`. */
  method CollectWildcards(base: set<string>) returns (wildcards: set<string>)
    ensures "*" in wildcards
    ensures forall p :: p in base && ':' in p ==> SegmentWildcard(p) in wildcards
    ensures wildcards == WildcardNames(base)
  {
    wildcards := {"*"};
    var rest := base;
    ghost var done: set<string> := {};
    while rest != {}
      invariant done + rest == base
      invariant wildcards == WildcardNames(done)
      decreases |rest|
    {
      var perm :| perm in rest;
      ghost var before := wildcards;
      if ':' in perm {
        var prefix := FirstSegment(perm);
        wildcards := wildcards + {prefix + ":*"};
      }
      WildcardNamesAdd(done, perm, before, wildcards);
      rest := rest - {perm};
      done := done + {perm};
    }
  }

  /** Every wildcard is `*` or ends in `:*`, and the wildcard of a wildcard
      is itself: ensuring the wildcards of the ensured names adds nothing. */
  lemma WildcardNamesClosed(base: set<string>)
    ensures forall w :: w in WildcardNames(base) ==> w == "*" || EndsWith(w, ":*")
    ensures WildcardNames(base + WildcardNames(base)) == WildcardNames(base)
  {
    forall w | w in WildcardNames(base) && w != "*"
      ensures EndsWith(w, ":*") && SegmentWildcard(w) == w
    {
      var p :| p in base && ':' in p && SegmentWildcard(p) == w;
      var seg := FirstSegment(p);
      assert w == seg + ":*";
      assert w[|seg|] == ':';
      FirstSegmentUnique(w, seg);
    }
    forall w | w in base + WildcardNames(base) && ':' in w
      ensures SegmentWildcard(w) in WildcardNames(base)
    {
      if w !in base {
        assert w != "*";
      }
    }
  }

  // ---------------------------------------------------------------------
  // Descriptions of new permissions

  /** The description a newly created permission gets: wildcard texts
      first, then the basic description, then the generic one. */
  function PermissionDescription(name: string): string {
    if name == "*" then "Global wildcard (Full system access)"
    else if EndsWith(name, ":*") then "Prefix wildcard for " + name[..|name| - 2]
    else if name in BasicPermissions then BasicPermissions[name]
    else "Automatically discovered permission: " + name
  }

  /** The basic permissions keep their own descriptions. */
  lemma BasicDescriptionsKept()
    ensures forall n :: n in BasicPermissions ==> PermissionDescription(n) == BasicPermissions[n]
  {
    forall n | n in BasicPermissions
      ensures PermissionDescription(n) == BasicPermissions[n]
    {
      assert n == "users:read" || n == "users:write" || n == "users:delete"
        || n == "users:verify" || n == "roles:manage" || n == "dashboard:view";
      NotWildcardName(n);
    }
  }

  /** A name whose last character is not `*` is neither wildcard form. */
  lemma NotWildcardName(n: string)
    requires |n| > 0 && n[|n| - 1] != '*'
    ensures n != "*" && !EndsWith(n, ":*")
  {
  }

  /** The wildcard of a name `X:...` is described as the prefix wildcard
      for `X`. */
  lemma SegmentWildcardDescription(p: string)
    requires ':' in p
    ensures PermissionDescription(SegmentWildcard(p)) == "Prefix wildcard for " + FirstSegment(p)
  {
    var w := SegmentWildcard(p);
    assert w[..|w| - 2] == FirstSegment(p);
  }

  /** Any name that is not `*`, not a prefix wildcard and not basic, such as a
      name discovered on a route, gets the generic description naming it. */
  lemma DiscoveredDescription(name: string)
    requires name != "*" && !EndsWith(name, ":*") && name !in BasicPermissions
    ensures PermissionDescription(name) == "Automatically discovered permission: " + name
    ensures "Automatically discovered" <= PermissionDescription(name)
  {
  }

  /** Steps 2 and 3: only names not already stored are created, and
      afterwards `existing_perms` has every ensured name. */
  method CreateMissingPermissions(ensured: set<string>, stored: set<string>)
    returns (created: map<string, string>, existing: set<string>)
    ensures created.Keys == ensured - stored
    ensures forall n :: n in created ==> created[n] == PermissionDescription(n)
    ensures existing == ensured
  {
    existing := stored * ensured;
    created := map[];
    var rest := ensured;
    while rest != {}
      invariant rest <= ensured
      invariant created.Keys == (ensured - rest) - stored
      invariant forall n :: n in created ==> created[n] == PermissionDescription(n)
      decreases |rest|
    {
      var name :| name in rest;
      if name !in existing {
        var desc := if name in BasicPermissions then BasicPermissions[name]
          else "Automatically discovered permission: " + name;
        if name == "*" {
          desc := "Global wildcard (Full system access)";
        } else if EndsWith(name, ":*") {
          desc := "Prefix wildcard for " + name[..|name| - 2];
        }
        created := created[name := desc];
      }
      rest := rest - {name};
    }
    existing := existing + created.Keys;
  }

  // ---------------------------------------------------------------------
  // Roles

  /** The `standard` table with the registered roles named in `done` laid
      over it, without a parent. */
  ghost function Overlay(standard: map<string, RoleSpec>, registered: map<string, RoleInfo>, done: set<string>): map<string, RoleSpec> {
    map n | n in standard.Keys + (done * registered.Keys) ::
      if n in done && n in registered then RoleSpec(registered[n].description, registered[n].permissions, None)
      else standard[n]
  }

  /** `all_roles_to_setup`: every registered role laid over the table. */
  ghost function MergedRoles(standard: map<string, RoleSpec>, registered: map<string, RoleInfo>): map<string, RoleSpec> {
    Overlay(standard, registered, registered.Keys)
  }

  /** Laying one more registered role over the table. */
  lemma OverlayStep(standard: map<string, RoleSpec>, registered: map<string, RoleInfo>, done: set<string>, name: string,
                    before: map<string, RoleSpec>, after: map<string, RoleSpec>)
    requires name in registered
    requires before == Overlay(standard, registered, done)
    requires after == before[name := RoleSpec(registered[name].description, registered[name].permissions, None)]
    ensures after == Overlay(standard, registered, done + {name})
  {
  }

  /** What the merge keeps and what it replaces. */
  lemma MergedRolesEntries(standard: map<string, RoleSpec>, registered: map<string, RoleInfo>)
    ensures MergedRoles(standard, registered).Keys == standard.Keys + registered.Keys
    ensures forall n :: n in registered ==>
      MergedRoles(standard, registered)[n] == RoleSpec(registered[n].description, registered[n].permissions, None)
    ensures forall n :: n in standard && n !in registered ==> MergedRoles(standard, registered)[n] == standard[n]
  {
  }

  /** Step 5: copy the standard table and overwrite it with the registered
      roles. */
  method RolesToSetup(standard: map<string, RoleSpec>, registered: map<string, RoleInfo>) returns (toSetup: map<string, RoleSpec>)
    ensures toSetup == MergedRoles(standard, registered)
  {
    toSetup := standard;
    var rest := registered.Keys;
    while rest != {}
      invariant rest <= registered.Keys
      invariant toSetup == Overlay(standard, registered, registered.Keys - rest)
      decreases |rest|
    {
      var name :| name in rest;
      var info := registered[name];
      ghost var before := toSetup;
      toSetup := toSetup[name := RoleSpec(info.description, info.permissions, None)];
      OverlayStep(standard, registered, registered.Keys - rest, name, before, toSetup);
      assert registered.Keys - (rest - {name}) == (registered.Keys - rest) + {name};
      rest := rest - {name};
    }
    assert registered.Keys - rest == registered.Keys;
  }

  /** `[existing_perms[p] for p in perms if p in existing_perms]`, by name. */
  function KeepExisting(perms: seq<string>, existing: set<string>): (r: seq<string>)
    ensures forall n :: n in r <==> n in perms && n in existing
    ensures |r| <= |perms|
    ensures (forall n :: n in perms ==> n in existing) ==> r == perms
  {
    if perms == [] then []
    else if perms[0] in existing then [perms[0]] + KeepExisting(perms[1..], existing)
    else KeepExisting(perms[1..], existing)
  }

  /** The parent name a role is linked to in the second pass: a non-empty
      name of a role in the table. */
  function LinkedParent(toSetup: map<string, RoleSpec>, name: string): Option<string>
    requires name in toSetup
  {
    var parent := toSetup[name].parent;
    if TruthyName(parent) && parent.value in toSetup then parent else None
  }

  /** What the first pass writes for role `n`: create it with its
      description unless stored, grant the listed names that exist, and
      flag it as default when it is a standard role. */
  function FirstPassWrite(toSetup: map<string, RoleSpec>, existingPerms: set<string>, storedRoles: set<string>,
                          standardNames: set<string>, n: string): RoleWrite
    requires n in toSetup
  {
    RoleWrite(n !in storedRoles,
      if n in storedRoles then None else Some(toSetup[n].description),
      KeepExisting(toSetup[n].permissions, existingPerms),
      n in standardNames,
      None)
  }

  /** The writes once the roles of `rest` are still to be linked to their
      parents by the second pass. */
  ghost function WritesPending(toSetup: map<string, RoleSpec>, existingPerms: set<string>, storedRoles: set<string>,
                               standardNames: set<string>, rest: set<string>): map<string, RoleWrite> {
    map n | n in toSetup ::
      var w := FirstPassWrite(toSetup, existingPerms, storedRoles, standardNames, n);
      if n in rest then w else w.(parent := LinkedParent(toSetup, n))
  }

  lemma FirstPassStep(toSetup: map<string, RoleSpec>, existingPerms: set<string>, storedRoles: set<string>,
                      standardNames: set<string>, done: set<string>, name: string,
                      before: map<string, RoleWrite>, after: map<string, RoleWrite>)
    requires done <= toSetup.Keys && name in toSetup
    requires before == map n | n in done :: FirstPassWrite(toSetup, existingPerms, storedRoles, standardNames, n)
    requires after == before[name := FirstPassWrite(toSetup, existingPerms, storedRoles, standardNames, name)]
    ensures after == map n | n in done + {name} :: FirstPassWrite(toSetup, existingPerms, storedRoles, standardNames, n)
  {
  }

  lemma SecondPassStep(toSetup: map<string, RoleSpec>, existingPerms: set<string>, storedRoles: set<string>,
                       standardNames: set<string>, rest: set<string>, name: string,
                       before: map<string, RoleWrite>, after: map<string, RoleWrite>)
    requires name in rest && rest <= toSetup.Keys
    requires before == WritesPending(toSetup, existingPerms, storedRoles, standardNames, rest)
    requires after == if LinkedParent(toSetup, name).Some? then before[name := before[name].(parent := toSetup[name].parent)] else before
    ensures after == WritesPending(toSetup, existingPerms, storedRoles, standardNames, rest - {name})
  {
  }

  /** Steps 6 and 7: the first pass creates each missing role, or updates
      the grants and default flag of a stored one; the second pass links
      each role to its parent when the parent role exists. */
  method PlanRoleWrites(toSetup: map<string, RoleSpec>, existingPerms: set<string>, storedRoles: set<string>,
                        standardNames: set<string>)
    returns (writes: map<string, RoleWrite>)
    ensures writes == WritesPending(toSetup, existingPerms, storedRoles, standardNames, {})
  {
    var existingRoles := storedRoles * toSetup.Keys;
    writes := map[];
    var rest := toSetup.Keys;
    while rest != {}
      invariant rest <= toSetup.Keys
      invariant forall n :: n in existingRoles <==> n in toSetup && (n in storedRoles || n !in rest)
      invariant writes == map n | n in toSetup.Keys - rest :: FirstPassWrite(toSetup, existingPerms, storedRoles, standardNames, n)
      decreases |rest|
    {
      var name :| name in rest;
      var spec := toSetup[name];
      var rolePerms := KeepExisting(spec.permissions, existingPerms);
      ghost var before := writes;
      if name !in existingRoles {
        writes := writes[name := RoleWrite(true, Some(spec.description), rolePerms, name in standardNames, None)];
        existingRoles := existingRoles + {name};
      } else {
        writes := writes[name := RoleWrite(false, None, rolePerms, name in standardNames, None)];
      }
      FirstPassStep(toSetup, existingPerms, storedRoles, standardNames, toSetup.Keys - rest, name, before, writes);
      assert toSetup.Keys - (rest - {name}) == (toSetup.Keys - rest) + {name};
      rest := rest - {name};
    }
    assert toSetup.Keys - rest == toSetup.Keys;
    assert writes == WritesPending(toSetup, existingPerms, storedRoles, standardNames, toSetup.Keys);
    rest := toSetup.Keys;
    while rest != {}
      invariant rest <= toSetup.Keys
      invariant writes == WritesPending(toSetup, existingPerms, storedRoles, standardNames, rest)
      decreases |rest|
    {
      var name :| name in rest;
      var parentName := toSetup[name].parent;
      ghost var before := writes;
      if TruthyName(parentName) && parentName.value in existingRoles {
        writes := writes[name := writes[name].(parent := parentName)];
      }
      SecondPassStep(toSetup, existingPerms, storedRoles, standardNames, rest, name, before, writes);
      rest := rest - {name};
    }
  }

  /** The writes of the two passes, field by field. */
  lemma WritesPendingEntries(toSetup: map<string, RoleSpec>, existingPerms: set<string>, storedRoles: set<string>,
                             standardNames: set<string>)
    ensures var writes := WritesPending(toSetup, existingPerms, storedRoles, standardNames, {});
      && writes.Keys == toSetup.Keys
      && (forall n :: n in writes ==> (writes[n].create <==> n !in storedRoles))
      && (forall n :: n in writes ==> writes[n].description == if n in storedRoles then None else Some(toSetup[n].description))
      && (forall n :: n in writes ==> writes[n].permissions == KeepExisting(toSetup[n].permissions, existingPerms))
      && (forall n :: n in writes ==> (writes[n].isDefault <==> n in standardNames))
      && (forall n :: n in writes ==> writes[n].parent == LinkedParent(toSetup, n))
  {
  }

  // ---------------------------------------------------------------------
  // The library object

  /** `FastAPIOAuthRBAC`, reduced to the registry of custom roles. */
  class OAuthRBAC {
    var registeredRoles: map<string, RoleInfo>

    /** A new instance has no registered roles. */
    constructor ()
      ensures registeredRoles == map[]
    {
      registeredRoles := map[];
    }

    /** `add_role`: register `name`, replacing any earlier registration
        under it; no parent is recorded. */
    method AddRole(name: string, description: string, permissions: seq<string>)
      modifies this
      ensures registeredRoles == old(registeredRoles)[name := RoleInfo(description, permissions)]
      ensures forall n :: n in old(registeredRoles) && n != name ==> n in registeredRoles && registeredRoles[n] == old(registeredRoles)[n]
    {
      registeredRoles := registeredRoles[name := RoleInfo(description, permissions)];
    }

    /** The derivations of `setup_defaults`, given the names discovered on
        the routes and the permission and role names already stored. */
    method SetupDefaults(discovered: set<string>, storedPermissions: set<string>, storedRoles: set<string>)
      returns (plan: SetupPlan)
      ensures plan.ensured == EnsuredNames(discovered, registeredRoles)
      ensures "*" in plan.ensured
      ensures forall p :: p in BaseNames(discovered, registeredRoles) && ':' in p ==> SegmentWildcard(p) in plan.ensured
      ensures plan.createdPermissions.Keys == plan.ensured - storedPermissions
      ensures forall n :: n in plan.createdPermissions ==> plan.createdPermissions[n] == PermissionDescription(n)
      ensures plan.roles.Keys == StandardRoles.Keys + registeredRoles.Keys
      ensures forall n :: n in plan.roles ==> (plan.roles[n].create <==> n !in storedRoles)
      ensures forall n :: n in plan.roles && n in storedRoles ==> plan.roles[n].description == None
      ensures forall n :: n in registeredRoles && n !in storedRoles ==>
        plan.roles[n].description == Some(registeredRoles[n].description)
      ensures forall n :: n in StandardRoles && n !in registeredRoles && n !in storedRoles ==>
        plan.roles[n].description == Some(StandardRoles[n].description)
      ensures forall n :: n in plan.roles ==> (plan.roles[n].isDefault <==> n in StandardRoles)
      ensures forall n :: n in plan.roles ==> plan.roles[n].permissions == MergedRoles(StandardRoles, registeredRoles)[n].permissions
      ensures forall n :: n in registeredRoles ==> plan.roles[n].parent == None
      ensures forall n :: n in StandardRoles && n !in registeredRoles ==> plan.roles[n].parent == StandardRoles[n].parent
    {
      var ensured, created, existingPerms := EnsurePermissions(registeredRoles, discovered, storedPermissions);
      var writes := SetupRoles(registeredRoles, existingPerms, storedRoles);
      ListedNamesEnsured(discovered, registeredRoles);
      plan := SetupPlan(ensured, created, writes);
    }
  }

  /** Steps 1 to 3 of `setup_defaults`: the names to ensure, and the
      permissions to create. */
  method EnsurePermissions(registered: map<string, RoleInfo>, discovered: set<string>, storedPermissions: set<string>)
    returns (ensured: set<string>, created: map<string, string>, existing: set<string>)
    ensures ensured == EnsuredNames(discovered, registered)
    ensures "*" in ensured
    ensures forall p :: p in BaseNames(discovered, registered) && ':' in p ==> SegmentWildcard(p) in ensured
    ensures created.Keys == ensured - storedPermissions
    ensures forall n :: n in created ==> created[n] == PermissionDescription(n)
    ensures existing == ensured
  {
    var extra := AddListed({}, RegisteredLists(registered));
    extra := AddListed(extra, StandardLists());
    var base := BasicPermissions.Keys + discovered + extra;
    var wildcards := CollectWildcards(base);
    ensured := base + wildcards;
    created, existing := CreateMissingPermissions(ensured, storedPermissions);
  }

  /** Steps 5 to 7 of `setup_defaults`: the role writes. */
  method SetupRoles(registered: map<string, RoleInfo>, existingPerms: set<string>, storedRoles: set<string>)
    returns (writes: map<string, RoleWrite>)
    ensures writes.Keys == StandardRoles.Keys + registered.Keys
    ensures writes.Keys == MergedRoles(StandardRoles, registered).Keys
    ensures forall n :: n in writes ==> (writes[n].create <==> n !in storedRoles)
    ensures forall n :: n in writes ==>
      writes[n].description == if n in storedRoles then None else Some(MergedRoles(StandardRoles, registered)[n].description)
    ensures forall n :: n in registered && n !in storedRoles ==> writes[n].description == Some(registered[n].description)
    ensures forall n :: n in StandardRoles && n !in registered && n !in storedRoles ==>
      writes[n].description == Some(StandardRoles[n].description)
    ensures forall n :: n in writes ==> (writes[n].isDefault <==> n in StandardRoles)
    ensures forall n :: n in writes ==>
      writes[n].permissions == KeepExisting(MergedRoles(StandardRoles, registered)[n].permissions, existingPerms)
    ensures forall n :: n in writes ==> writes[n].parent == LinkedParent(MergedRoles(StandardRoles, registered), n)
    ensures forall n :: n in registered ==> writes[n].parent == None
    ensures forall n :: n in StandardRoles && n !in registered ==> writes[n].parent == StandardRoles[n].parent
  {
    var toSetup := RolesToSetup(StandardRoles, registered);
    writes := PlanRoleWrites(toSetup, existingPerms, storedRoles, StandardRoles.Keys);
    MergedRolesEntries(StandardRoles, registered);
    WritesPendingEntries(toSetup, existingPerms, storedRoles, StandardRoles.Keys);
    StandardParentsLinked(registered);
  }

  /** Every name a role of the setup table lists is ensured, so each role is
      granted its whole list. */
  lemma ListedNamesEnsured(discovered: set<string>, registered: map<string, RoleInfo>)
    ensures forall n, p :: n in MergedRoles(StandardRoles, registered) && p in MergedRoles(StandardRoles, registered)[n].permissions ==>
      p in EnsuredNames(discovered, registered)
  {
    var merged := MergedRoles(StandardRoles, registered);
    forall n, p | n in merged && p in merged[n].permissions
      ensures p in BaseNames(discovered, registered)
    {
      if n in registered {
        var lists := RegisteredLists(registered);
        assert n in lists && p in lists[n];
      } else {
        var lists := StandardLists();
        assert n in lists && p in lists[n];
      }
    }
  }

  /** A standard role that is not overridden keeps its parent link, and a
      registered role gets none. */
  lemma StandardParentsLinked(registered: map<string, RoleInfo>)
    ensures forall n :: n in StandardRoles && n !in registered ==>
      LinkedParent(MergedRoles(StandardRoles, registered), n) == StandardRoles[n].parent
    ensures forall n :: n in registered ==> LinkedParent(MergedRoles(StandardRoles, registered), n) == None
  {
    MergedRolesEntries(StandardRoles, registered);
  }

  /** The standard table is the chain `admin -> user_admin -> user_manager
      -> user`, `user` has no parent, and `admin` holds `*`. */
  lemma StandardChain()
    ensures StandardRoles.Keys == {"user", "user_manager", "user_admin", "admin"}
    ensures forall n :: n in StandardRoles && StandardRoles[n].parent.Some? ==> StandardRoles[n].parent.value in StandardRoles
    ensures StandardRoles["user"].parent == None
    ensures StandardRoles["admin"].parent == Some("user_admin")
    ensures StandardRoles["user_admin"].parent == Some("user_manager")
    ensures StandardRoles["user_manager"].parent == Some("user")
    ensures StandardRoles["admin"].permissions == ["*"]
  {
  }
}

/** `setup_defaults` on the two situations of tests/test_discovery.py: a
    permission discovered on a route, and a custom role registered with
    `add_role`. */
module SetupScenarios {
  import opened Prelude
  import opened Setup

  /** A discovered name is a base name. */
  lemma DiscoveredIsBase(discovered: set<string>, registered: map<string, RoleInfo>, p: string)
    requires p in discovered
    ensures p in BaseNames(discovered, registered)
  {
  }

  /** A name a registered role lists is a base name. */
  lemma RegisteredIsBase(discovered: set<string>, registered: map<string, RoleInfo>, n: string, p: string)
    requires n in registered && p in registered[n].permissions
    ensures p in BaseNames(discovered, registered)
  {
    var lists := RegisteredLists(registered);
    assert n in lists && p in lists[n];
  }

  /** `custom:action` is no basic permission and no wildcard, and its
      family wildcard is `custom:*`. */
  lemma CustomAction()
    ensures "custom:action" !in BasicPermissions && "custom:action" != "*"
    ensures !EndsWith("custom:action", ":*")
    ensures ':' in "custom:action"
    ensures SegmentWildcard("custom:action") == "custom:*"
  {
    CustomActionNotBasic();
    NotWildcardName("custom:action");
    assert "custom:action"[6] == ':';
    FirstSegmentUnique("custom:action", "custom");
  }

  lemma CustomActionNotBasic()
    ensures "custom:action" !in BasicPermissions
  {
  }

  /** `content:edit` has the family wildcard `content:*`. */
  lemma ContentEdit()
    ensures ':' in "content:edit"
    ensures SegmentWildcard("content:edit") == "content:*"
  {
    assert "content:edit"[7] == ':';
    FirstSegmentUnique("content:edit", "content");
  }

  /** A route requires `custom:action`; when it is not stored yet, setup
      creates it with the generic description, and its family wildcard
      `custom:*` is ensured too, whatever else is discovered. */
  method DiscoveryScenario(discovered: set<string>, storedPermissions: set<string>, storedRoles: set<string>)
    returns (plan: SetupPlan)
    requires "custom:action" in discovered && "custom:action" !in storedPermissions
    ensures "custom:action" in plan.createdPermissions
    ensures "Automatically discovered" <= plan.createdPermissions["custom:action"]
    ensures "custom:*" in plan.ensured
  {
    var auth := new OAuthRBAC();
    plan := auth.SetupDefaults(discovered, storedPermissions, storedRoles);
    DiscoveredIsBase(discovered, auth.registeredRoles, "custom:action");
    CustomAction();
    DiscoveredDescription("custom:action");
  }

  /** `editor` is registered with two names, over whatever was registered
      before: setup writes it with both, without a parent and not as a
      default role, with its own description when new, and ensures
      `content:*`. */
  method RegistrationScenario(auth: OAuthRBAC, discovered: set<string>, storedPermissions: set<string>, storedRoles: set<string>)
    returns (plan: SetupPlan)
    modifies auth
    ensures "editor" in plan.roles
    ensures plan.roles["editor"].permissions == ["content:edit", "content:read"]
    ensures plan.roles["editor"].parent == None
    ensures !plan.roles["editor"].isDefault
    ensures "editor" !in storedRoles ==> plan.roles["editor"].create
    ensures "editor" !in storedRoles ==> plan.roles["editor"].description == Some("Can edit things")
    ensures "content:*" in plan.ensured
  {
    auth.AddRole("editor", "Can edit things", ["content:edit", "content:read"]);
    plan := auth.SetupDefaults(discovered, storedPermissions, storedRoles);
    MergedRolesEntries(StandardRoles, auth.registeredRoles);
    RegisteredIsBase(discovered, auth.registeredRoles, "editor", "content:edit");
    ContentEdit();
    assert "editor" !in StandardRoles;
  }
}

/**
 * Server roles to UI permissions: `parseRolePermissions`, `normalizeRbacRoles`
 * and `mapUserRolesToUiPermissions` (src/js/actions/userActions.js:310-373).
 */
module RoleNormalization {
  import opened Wrappers
  import opened Lists
  import opened PermissionModel
  import opened PermissionMerge
  import opened CustomPermissions
  import opened PermissionSets

  /** A role as the server sends it. */
  datatype ServerRole = ServerRole(
    name: string,
    description: string,
    permissionSetsWithScope: seq<ScopedRef>,
    permissions: seq<CustomPermission>)

  /** `{ isCustom: false, uiPermissions: { ...emptyUiPermissions, groups: {} } }`. */
  function InitialAccu(c: Catalog): RoleAccu {
    RoleAccu(false, EmptyUiPermissions(c))
  }

  /** The reference is scoped to device groups. */
  predicate GroupScoped(c: Catalog, ref: ScopedRef) {
    ref.scope.Some? && ref.scope.value.scopeType == c.groupScope
  }

  /** One step of the reduce of lines 311-328. */
  function ParseStep(c: Catalog, sets: map<SetName, PermissionSet>, accu: RoleAccu, ref: ScopedRef): Option<RoleAccu> {
    if ref.name !in sets then Some(accu)
    else if GroupScoped(c, ref) then
      var groups := MapGroupPermissionSet(c, ref.name, ref.scope.value.value, accu.uiPermissions.groups.GetOr(map[]));
      if groups.None? then None
      else Some(RoleAccu(accu.isCustom, UiPermissions(accu.uiPermissions.areas, groups)))
    else if sets[ref.name].result.None? then
      FoldCustom(c, accu, sets[ref.name].permissions)
    else
      Some(RoleAccu(accu.isCustom || sets[ref.name].isCustom, MergePermissions(accu.uiPermissions, sets[ref.name].result.value)))
  }

  /** `permissions.reduce(customPermissionHandler, accu)`. */
  function FoldCustom(c: Catalog, accu: RoleAccu, permissions: seq<CustomPermission>): Option<RoleAccu> {
    if permissions == [] then Some(accu)
    else
      var prev := FoldCustom(c, accu, permissions[..|permissions| - 1]);
      if prev.None? then None else CustomPermissionHandler(c, prev.value, permissions[|permissions| - 1])
  }

  /** `permission_sets_with_scope.reduce(...)`. */
  function FoldRefs(c: Catalog, sets: map<SetName, PermissionSet>, accu: RoleAccu, refs: seq<ScopedRef>): Option<RoleAccu> {
    if refs == [] then Some(accu)
    else
      var prev := FoldRefs(c, sets, accu, refs[..|refs| - 1]);
      if prev.None? then None else ParseStep(c, sets, prev.value, refs[|refs| - 1])
  }

  /** `parseRolePermissions(role, permissionSets)`: the scoped references, then the role's own custom permissions. */
  function ParseRolePermissions(c: Catalog, role: ServerRole, sets: map<SetName, PermissionSet>): Option<RoleAccu> {
    var preliminaryResult := FoldRefs(c, sets, InitialAccu(c), role.permissionSetsWithScope);
    if preliminaryResult.None? then None else FoldCustom(c, preliminaryResult.value, role.permissions)
  }

  /** The references whose name is a known permission set. */
  function KnownRefs(refs: seq<ScopedRef>, sets: map<SetName, PermissionSet>): seq<ScopedRef> {
    if refs == [] then []
    else
      var last := refs[|refs| - 1];
      KnownRefs(refs[..|refs| - 1], sets) + (if last.name in sets then [last] else [])
  }

  /** References to unknown permission sets are skipped: folding all of them is folding the known ones. */
  lemma {:induction false} UnknownRefsSkipped(c: Catalog, sets: map<SetName, PermissionSet>, accu: RoleAccu, refs: seq<ScopedRef>)
    ensures FoldRefs(c, sets, accu, refs) == FoldRefs(c, sets, accu, KnownRefs(refs, sets))
  {
    if refs != [] {
      var init := refs[..|refs| - 1];
      var last := refs[|refs| - 1];
      UnknownRefsSkipped(c, sets, accu, init);
      var known := KnownRefs(init, sets);
      if last.name in sets {
        var k := known + [last];
        assert KnownRefs(refs, sets) == k;
        assert k[..|k| - 1] == known && k[|k| - 1] == last;
        assert FoldRefs(c, sets, accu, k) == (var p := FoldRefs(c, sets, accu, known); if p.None? then None else ParseStep(c, sets, p.value, last));
      } else {
        assert KnownRefs(refs, sets) == known;
      }
    }
  }

  /** Once a custom permission has been processed `isCustom` stays true; processing one sets it. */
  lemma {:induction false} FoldCustomMarksCustom(c: Catalog, accu: RoleAccu, permissions: seq<CustomPermission>)
    requires FoldCustom(c, accu, permissions).Some?
    ensures accu.isCustom ==> FoldCustom(c, accu, permissions).value.isCustom
    ensures permissions != [] ==> FoldCustom(c, accu, permissions).value.isCustom
  {
    if permissions != [] {
      FoldCustomMarksCustom(c, accu, permissions[..|permissions| - 1]);
    }
  }

  /** A scoped reference never turns `isCustom` back to false. */
  lemma {:induction false} FoldRefsKeepsCustom(c: Catalog, sets: map<SetName, PermissionSet>, accu: RoleAccu, refs: seq<ScopedRef>)
    requires FoldRefs(c, sets, accu, refs).Some?
    ensures accu.isCustom ==> FoldRefs(c, sets, accu, refs).value.isCustom
  {
    if refs != [] {
      var init := refs[..|refs| - 1];
      var last := refs[|refs| - 1];
      FoldRefsKeepsCustom(c, sets, accu, init);
      var prev := FoldRefs(c, sets, accu, init).value;
      if last.name in sets && !GroupScoped(c, last) && sets[last.name].result.None? {
        FoldCustomMarksCustom(c, prev, sets[last.name].permissions);
      }
    }
  }

  /** A role with custom permissions of its own is custom. */
  lemma ParseRoleCustom(c: Catalog, role: ServerRole, sets: map<SetName, PermissionSet>)
    requires ParseRolePermissions(c, role, sets).Some?
    ensures role.permissions != [] ==> ParseRolePermissions(c, role, sets).value.isCustom
  {
    var preliminaryResult := FoldRefs(c, sets, InitialAccu(c), role.permissionSetsWithScope);
    FoldCustomMarksCustom(c, preliminaryResult.value, role.permissions);
  }

  /**
   * A group-scoped reference to a known set adds the set's `groups` value in
   * front of every named group's list, and changes nothing else.
   */
  lemma GroupScopedRefSpec(c: Catalog, sets: map<SetName, PermissionSet>, accu: RoleAccu, ref: ScopedRef)
    requires ref.name in sets && GroupScoped(c, ref)
    requires accu.uiPermissions.groups.Some?
    ensures ParseStep(c, sets, accu, ref).Some? <==> GroupPermissionOf(c.permissions, ref.name).Some?
    ensures ParseStep(c, sets, accu, ref).Some? ==>
      var r := ParseStep(c, sets, accu, ref).value;
      var v := GroupPermissionOf(c.permissions, ref.name).value;
      var before := accu.uiPermissions.groups.value;
      && r.isCustom == accu.isCustom
      && r.uiPermissions.areas == accu.uiPermissions.areas
      && r.uiPermissions.groups.Some?
      && (forall g :: g in r.uiPermissions.groups.value <==> g in before || g in ref.scope.value.value)
      && (forall g :: g in ref.scope.value.value ==> r.uiPermissions.groups.value[g] == Dedup([v] + Get(before, g)))
      && (forall g :: g in before && g !in ref.scope.value.value ==> r.uiPermissions.groups.value[g] == before[g])
  {
    if GroupPermissionOf(c.permissions, ref.name).Some? {
      var v := GroupPermissionOf(c.permissions, ref.name).value;
      GrantToGroupsSpec(v, ref.scope.value.value, accu.uiPermissions.groups.value);
    }
  }

  /** A record shaped like `emptyUiPermissions` without repeated values. */
  ghost predicate WellFormed(c: Catalog, r: UiPermissions) {
    FullRecord(c, r) && DuplicateFree(r)
  }

  /** Every permission set's precomputed result repeats no value. */
  ghost predicate ResultsDuplicateFree(sets: map<SetName, PermissionSet>) {
    forall n :: n in sets && sets[n].result.Some? ==> DuplicateFree(sets[n].result.value)
  }

  lemma {:induction false} FoldCustomWellFormed(c: Catalog, accu: RoleAccu, permissions: seq<CustomPermission>)
    requires WellFormed(c, accu.uiPermissions)
    requires FoldCustom(c, accu, permissions).Some?
    ensures WellFormed(c, FoldCustom(c, accu, permissions).value.uiPermissions)
  {
    if permissions != [] {
      var prev := FoldCustom(c, accu, permissions[..|permissions| - 1]);
      FoldCustomWellFormed(c, accu, permissions[..|permissions| - 1]);
      CustomPermissionHandlerSpec(c, prev.value, permissions[|permissions| - 1]);
    }
  }

  /** Granting to groups keeps every list of the record free of repeats. */
  lemma GrantKeepsDuplicateFree(v: Value, groupNames: seq<GroupName>, existing: GroupPermissions)
    requires forall g :: g in existing ==> NoDuplicates(existing[g])
    ensures forall g :: g in GrantToGroups(v, groupNames, existing) ==> NoDuplicates(GrantToGroups(v, groupNames, existing)[g])
  {
    GrantToGroupsSpec(v, groupNames, existing);
    forall g | g in groupNames {
      DedupSpec([v] + Get(existing, g));
    }
  }

  /** Every step keeps the accumulator shaped like `emptyUiPermissions` and free of repeats. */
  lemma ParseStepWellFormed(c: Catalog, sets: map<SetName, PermissionSet>, accu: RoleAccu, ref: ScopedRef)
    requires WellFormed(c, accu.uiPermissions) && ResultsDuplicateFree(sets)
    requires ParseStep(c, sets, accu, ref).Some?
    ensures WellFormed(c, ParseStep(c, sets, accu, ref).value.uiPermissions)
  {
    if ref.name in sets {
      if GroupScoped(c, ref) {
        var v := GroupPermissionOf(c.permissions, ref.name).value;
        GrantKeepsDuplicateFree(v, ref.scope.value.value, accu.uiPermissions.groups.value);
      } else if sets[ref.name].result.None? {
        FoldCustomWellFormed(c, accu, sets[ref.name].permissions);
      } else {
        MergeAreasSpec(accu.uiPermissions, sets[ref.name].result.value);
        MergePreservesDuplicateFree(accu.uiPermissions, sets[ref.name].result.value);
      }
    }
  }

  lemma {:induction false} FoldRefsWellFormed(c: Catalog, sets: map<SetName, PermissionSet>, accu: RoleAccu, refs: seq<ScopedRef>)
    requires WellFormed(c, accu.uiPermissions) && ResultsDuplicateFree(sets)
    requires FoldRefs(c, sets, accu, refs).Some?
    ensures WellFormed(c, FoldRefs(c, sets, accu, refs).value.uiPermissions)
  {
    if refs != [] {
      var init := refs[..|refs| - 1];
      FoldRefsWellFormed(c, sets, accu, init);
      ParseStepWellFormed(c, sets, FoldRefs(c, sets, accu, init).value, refs[|refs| - 1]);
    }
  }

  /** A parsed role has exactly the keys of `emptyUiPermissions` and repeats no value. */
  lemma ParseRoleWellFormed(c: Catalog, role: ServerRole, sets: map<SetName, PermissionSet>)
    requires ResultsDuplicateFree(sets)
    requires ParseRolePermissions(c, role, sets).Some?
    ensures WellFormed(c, ParseRolePermissions(c, role, sets).value.uiPermissions)
  {
    EmptyIsFullAndDuplicateFree(c);
    FoldRefsWellFormed(c, sets, InitialAccu(c), role.permissionSetsWithScope);
    var preliminaryResult := FoldRefs(c, sets, InitialAccu(c), role.permissionSetsWithScope);
    FoldCustomWellFormed(c, preliminaryResult.value, role.permissions);
  }

  /**
   * The permissions reused for a role already in `rolesById`: a copy of the
   * stored record with a copied `groups` map; reading `.groups` of a missing
   * record throws.
   */
  function StoredPermissions(stored: Role): Option<UiPermissions> {
    if stored.uiPermissions.None? then None
    else Some(UiPermissions(stored.uiPermissions.value.areas, Some(stored.uiPermissions.value.groups.GetOr(map[]))))
  }

  /** The new entry for one server role, lines 335-358. */
  function NormalizeRole(c: Catalog, sets: map<SetName, PermissionSet>, rolesById: map<string, Role>,
                         accu: map<string, Role>, role: ServerRole): Option<Role>
  {
    var parsed :=
      if role.name in rolesById then
        var stored := StoredPermissions(rolesById[role.name]);
        if stored.None? then None else Some(RoleAccu(false, stored.value))
      else ParseRolePermissions(c, role, sets);
    if parsed.None? then None
    else
      var roleState := if role.name in accu then accu[role.name] else c.emptyRole;
      var isCustom := parsed.value.isCustom;
      Some(Role(
        if roleState.name != "" then roleState.name else role.name,
        if roleState.description != "" then roleState.description else role.description,
        Some(role.name !in c.defaultRoles && !isCustom && roleState.editable.GetOr(true)),
        isCustom,
        Some(parsed.value.uiPermissions),
        role.permissionSetsWithScope,
        role.permissions))
  }

  /** `normalizeRbacRoles(roles, rolesById, permissionSets)`: the reduce starting from a copy of `rolesById`. */
  function NormalizeRoles(c: Catalog, sets: map<SetName, PermissionSet>, rolesById: map<string, Role>,
                          roles: seq<ServerRole>): Option<map<string, Role>>
  {
    if roles == [] then Some(rolesById)
    else
      var prev := NormalizeRoles(c, sets, rolesById, roles[..|roles| - 1]);
      var role := roles[|roles| - 1];
      if prev.None? then None
      else
        var entry := NormalizeRole(c, sets, rolesById, prev.value, role);
        if entry.None? then None else Some(prev.value[role.name := entry.value])
  }

  /** `normalizeRbacRoles`: assigns `accu[role.name]` for every received role. */
  method NormalizeRbacRoles(c: Catalog, roles: seq<ServerRole>, rolesById: map<string, Role>, sets: map<SetName, PermissionSet>)
    returns (normalized: Option<map<string, Role>>)
    ensures normalized == NormalizeRoles(c, sets, rolesById, roles)
  {
    var accu := rolesById;
    var i := 0;
    while i < |roles|
      invariant 0 <= i <= |roles|
      invariant NormalizeRoles(c, sets, rolesById, roles[..i]) == Some(accu)
    {
      assert roles[..i + 1][..i] == roles[..i];
      var entry := NormalizeRole(c, sets, rolesById, accu, roles[i]);
      if entry.None? {
        NormalizeNoneStays(c, sets, rolesById, roles, i + 1);
        return None;
      }
      assert NormalizeRoles(c, sets, rolesById, roles[..i + 1]) == Some(accu[roles[i].name := entry.value]);
      accu := accu[roles[i].name := entry.value];
      i := i + 1;
    }
    assert roles[..i] == roles;
    normalized := Some(accu);
  }

  lemma {:induction false} NormalizeNoneStays(c: Catalog, sets: map<SetName, PermissionSet>, rolesById: map<string, Role>,
                                              roles: seq<ServerRole>, i: nat)
    requires i <= |roles| && NormalizeRoles(c, sets, rolesById, roles[..i]).None?
    ensures NormalizeRoles(c, sets, rolesById, roles).None?
    decreases |roles| - i
  {
    if i < |roles| {
      assert roles[..i + 1][..i] == roles[..i];
      NormalizeNoneStays(c, sets, rolesById, roles, i + 1);
    } else {
      assert roles[..i] == roles;
    }
  }

  /**
   * The received role makes the reduce throw: it is stored without
   * `uiPermissions` (reading `.groups` of `undefined`), or it is new and its
   * parse throws.
   */
  predicate RoleFails(c: Catalog, sets: map<SetName, PermissionSet>, rolesById: map<string, Role>, role: ServerRole) {
    if role.name in rolesById then rolesById[role.name].uiPermissions.None?
    else ParseRolePermissions(c, role, sets).None?
  }

  /**
   * `normalizeRbacRoles` throws exactly when some received role fails, whatever
   * the roles before it: the three default roles of the reducer's initial
   * `rolesById` carry no `uiPermissions`, so receiving one of them while it is
   * stored that way throws.
   */
  lemma {:induction false} NormalizeRolesFails(c: Catalog, sets: map<SetName, PermissionSet>, rolesById: map<string, Role>,
                                               roles: seq<ServerRole>)
    ensures NormalizeRoles(c, sets, rolesById, roles).None? <==>
      exists i :: 0 <= i < |roles| && RoleFails(c, sets, rolesById, roles[i])
  {
    if roles != [] {
      var init := roles[..|roles| - 1];
      NormalizeRolesFails(c, sets, rolesById, init);
      var prev := NormalizeRoles(c, sets, rolesById, init);
      if prev.Some? {
        NormalizeRoleFails(c, sets, rolesById, prev.value, roles[|roles| - 1]);
      }
      assert forall i :: 0 <= i < |init| ==> init[i] == roles[i];
      if exists i :: 0 <= i < |roles| && RoleFails(c, sets, rolesById, roles[i]) {
        var i :| 0 <= i < |roles| && RoleFails(c, sets, rolesById, roles[i]);
        if i < |init| {
          assert RoleFails(c, sets, rolesById, init[i]);
        }
      }
    }
  }

  /** One role fails exactly when `RoleFails` says so, whatever the accumulator. */
  lemma NormalizeRoleFails(c: Catalog, sets: map<SetName, PermissionSet>, rolesById: map<string, Role>,
                           accu: map<string, Role>, role: ServerRole)
    ensures NormalizeRole(c, sets, rolesById, accu, role).None? <==> RoleFails(c, sets, rolesById, role)
  {
    if role.name in rolesById {
      assert StoredPermissions(rolesById[role.name]).None? <==> rolesById[role.name].uiPermissions.None?;
    }
  }

  /** The names of the received roles. */
  function RoleNames(roles: seq<ServerRole>): set<string> {
    if roles == [] then {} else RoleNames(roles[..|roles| - 1]) + {roles[|roles| - 1].name}
  }

  /**
   * Every stored role survives, untouched unless the server sent it. A
   * received role that was already stored keeps its stored `uiPermissions`
   * and is not custom; a new one holds the parse of the last role sent under
   * its name; default and custom roles are not editable; a stored
   * non-empty name or description wins over the received one.
   */
  lemma NormalizeRolesSpec(c: Catalog, sets: map<SetName, PermissionSet>, rolesById: map<string, Role>,
                           roles: seq<ServerRole>, r: map<string, Role>)
    requires NormalizeRoles(c, sets, rolesById, roles) == Some(r)
    ensures r.Keys == rolesById.Keys + RoleNames(roles)
    ensures forall n :: n in rolesById && n !in RoleNames(roles) ==> r[n] == rolesById[n]
    ensures forall n :: n in RoleNames(roles) ==> n in r && r[n].uiPermissions.Some?
    ensures forall n :: n in RoleNames(roles) && n in rolesById ==>
      r[n].uiPermissions == StoredPermissions(rolesById[n]) && !r[n].isCustom
    ensures forall i :: LastNamed(roles, i) && roles[i].name !in rolesById ==> HoldsParse(c, sets, r, roles[i])
    ensures forall n :: n in RoleNames(roles) && (n in c.defaultRoles || r[n].isCustom) ==> r[n].editable == Some(false)
    ensures forall n :: n in rolesById && rolesById[n].description != "" ==> r[n].description == rolesById[n].description
    ensures forall n :: n in rolesById && rolesById[n].name != "" ==> r[n].name == rolesById[n].name
  {
    NormalizedKeys(c, sets, rolesById, roles, r);
    NormalizedReceived(c, sets, rolesById, roles, r);
    NormalizedKeepsText(c, sets, rolesById, roles, r);
  }

  /** The fold adds exactly the received names and leaves the other stored roles alone. */
  lemma {:induction false} NormalizedKeys(c: Catalog, sets: map<SetName, PermissionSet>, rolesById: map<string, Role>,
                                          roles: seq<ServerRole>, r: map<string, Role>)
    requires NormalizeRoles(c, sets, rolesById, roles) == Some(r)
    ensures r.Keys == rolesById.Keys + RoleNames(roles)
    ensures forall n :: n in rolesById && n !in RoleNames(roles) ==> r[n] == rolesById[n]
  {
    if roles != [] {
      var init, role := roles[..|roles| - 1], roles[|roles| - 1];
      var prev := NormalizeRoles(c, sets, rolesById, init).value;
      var entry := NormalizeRole(c, sets, rolesById, prev, role).value;
      NormalizedKeys(c, sets, rolesById, init, prev);
      assert r == prev[role.name := entry];
      assert RoleNames(roles) == RoleNames(init) + {role.name};
    }
  }

  /** `roles[i]` is the last received role with its name. */
  ghost predicate LastNamed(roles: seq<ServerRole>, i: int) {
    0 <= i < |roles| && forall j :: i < j < |roles| ==> roles[j].name != roles[i].name
  }

  /** A received role the store did not hold is recorded with the parse of the last role sent under its name. */
  ghost predicate HoldsParse(c: Catalog, sets: map<SetName, PermissionSet>, r: map<string, Role>, role: ServerRole) {
    && role.name in r
    && ParseRolePermissions(c, role, sets).Some?
    && r[role.name].uiPermissions == Some(ParseRolePermissions(c, role, sets).value.uiPermissions)
    && r[role.name].isCustom == ParseRolePermissions(c, role, sets).value.isCustom
  }

  /**
   * Every received role gets a record; stored ones keep theirs; a new one
   * holds the parse of the last role sent under its name; default and
   * custom ones are locked.
   */
  lemma {:induction false} NormalizedReceived(c: Catalog, sets: map<SetName, PermissionSet>, rolesById: map<string, Role>,
                                              roles: seq<ServerRole>, r: map<string, Role>)
    requires NormalizeRoles(c, sets, rolesById, roles) == Some(r)
    ensures forall n :: n in RoleNames(roles) ==> n in r && r[n].uiPermissions.Some?
    ensures forall n :: n in RoleNames(roles) && n in rolesById ==>
      r[n].uiPermissions == StoredPermissions(rolesById[n]) && !r[n].isCustom
    ensures forall i :: LastNamed(roles, i) && roles[i].name !in rolesById ==> HoldsParse(c, sets, r, roles[i])
    ensures forall n :: n in RoleNames(roles) && (n in c.defaultRoles || r[n].isCustom) ==> r[n].editable == Some(false)
  {
    if roles != [] {
      var init, role := roles[..|roles| - 1], roles[|roles| - 1];
      var prev := NormalizeRoles(c, sets, rolesById, init).value;
      var entry := NormalizeRole(c, sets, rolesById, prev, role).value;
      NormalizedReceived(c, sets, rolesById, init, prev);
      NormalizeRoleSpec(c, sets, rolesById, prev, role, entry);
      assert r == prev[role.name := entry];
      assert RoleNames(roles) == RoleNames(init) + {role.name};
    }
    NormalizedParsed(c, sets, rolesById, roles, r);
  }

  /** A received role the store did not hold ends with the parse of the last role sent under its name. */
  lemma {:induction false} NormalizedParsed(c: Catalog, sets: map<SetName, PermissionSet>, rolesById: map<string, Role>,
                                            roles: seq<ServerRole>, r: map<string, Role>)
    requires NormalizeRoles(c, sets, rolesById, roles) == Some(r)
    ensures forall i :: LastNamed(roles, i) && roles[i].name !in rolesById ==> HoldsParse(c, sets, r, roles[i])
  {
    if roles != [] {
      var init, role := roles[..|roles| - 1], roles[|roles| - 1];
      var prev := NormalizeRoles(c, sets, rolesById, init).value;
      var entry := NormalizeRole(c, sets, rolesById, prev, role).value;
      NormalizedParsed(c, sets, rolesById, init, prev);
      NormalizeRoleSpec(c, sets, rolesById, prev, role, entry);
      assert r == prev[role.name := entry];
      forall i | LastNamed(roles, i) && roles[i].name !in rolesById ensures HoldsParse(c, sets, r, roles[i]) {
        if i < |init| {
          assert roles[i] == init[i] && roles[i].name != role.name;
          assert LastNamed(init, i);
          HoldsParseKept(c, sets, prev, role.name, entry, roles[i]);
        } else {
          assert roles[i] == role;
        }
      }
    }
  }

  /** Writing another name keeps a recorded parse. */
  lemma HoldsParseKept(c: Catalog, sets: map<SetName, PermissionSet>, prev: map<string, Role>, n: string, entry: Role, role: ServerRole)
    requires HoldsParse(c, sets, prev, role) && role.name != n
    ensures HoldsParse(c, sets, prev[n := entry], role)
  {
    assert prev[n := entry][role.name] == prev[role.name];
  }

  /** A stored non-empty name or description survives the fold. */
  lemma {:induction false} NormalizedKeepsText(c: Catalog, sets: map<SetName, PermissionSet>, rolesById: map<string, Role>,
                                               roles: seq<ServerRole>, r: map<string, Role>)
    requires NormalizeRoles(c, sets, rolesById, roles) == Some(r)
    ensures forall n :: n in rolesById ==> n in r
    ensures forall n :: n in rolesById && rolesById[n].description != "" ==> r[n].description == rolesById[n].description
    ensures forall n :: n in rolesById && rolesById[n].name != "" ==> r[n].name == rolesById[n].name
  {
    if roles != [] {
      var init, role := roles[..|roles| - 1], roles[|roles| - 1];
      var prev := NormalizeRoles(c, sets, rolesById, init).value;
      var entry := NormalizeRole(c, sets, rolesById, prev, role).value;
      NormalizedKeepsText(c, sets, rolesById, init, prev);
      NormalizeRoleSpec(c, sets, rolesById, prev, role, entry);
      assert r == prev[role.name := entry];
    }
  }

  /**
   * One normalised role: a stored role keeps its stored permissions and is not
   * custom; a new role takes the permissions and custom flag of its parse. It
   * is editable unless it is a default or custom role, or the accumulated
   * state already says it is not.
   */
  lemma NormalizeRoleSpec(c: Catalog, sets: map<SetName, PermissionSet>, rolesById: map<string, Role>,
                          accu: map<string, Role>, role: ServerRole, entry: Role)
    requires NormalizeRole(c, sets, rolesById, accu, role) == Some(entry)
    ensures entry.uiPermissions.Some?
    ensures role.name in rolesById ==> entry.uiPermissions == StoredPermissions(rolesById[role.name]) && !entry.isCustom
    ensures role.name !in rolesById ==> ParseRolePermissions(c, role, sets).Some?
    ensures role.name !in rolesById ==>
      && entry.uiPermissions == Some(ParseRolePermissions(c, role, sets).value.uiPermissions)
      && entry.isCustom == ParseRolePermissions(c, role, sets).value.isCustom
    ensures role.name in c.defaultRoles || entry.isCustom ==> entry.editable == Some(false)
    ensures entry.editable == Some(role.name !in c.defaultRoles && !entry.isCustom &&
      (if role.name in accu then accu[role.name] else c.emptyRole).editable.GetOr(true))
    ensures entry.permissionSetsWithScope == role.permissionSetsWithScope && entry.permissions == role.permissions
    ensures role.name in accu && accu[role.name].description != "" ==> entry.description == accu[role.name].description
    ensures role.name in accu && accu[role.name].name != "" ==> entry.name == accu[role.name].name
  {
  }

  /** Role `id` is assigned, known and grants `x` in area `a`. */
  ghost predicate GrantsArea(roles: map<string, Role>, id: string, a: Area, x: Value) {
    id != "" && id in roles && roles[id].uiPermissions.Some? &&
    a in roles[id].uiPermissions.value.areas && x in roles[id].uiPermissions.value.areas[a]
  }

  /** Role `id` is assigned, known and grants `x` to group `g`. */
  ghost predicate GrantsGroup(roles: map<string, Role>, id: string, g: GroupName, x: Value) {
    id != "" && id in roles && roles[id].uiPermissions.Some? && roles[id].uiPermissions.value.groups.Some? &&
    g in roles[id].uiPermissions.value.groups.value && x in roles[id].uiPermissions.value.groups.value[g]
  }

  /**
   * `mapUserRolesToUiPermissions(userRoles, roles)`: empty or unknown ids are
   * skipped; a known role without `uiPermissions` makes the merge throw.
   */
  function MapUserRolesToUiPermissions(c: Catalog, userRoles: seq<string>, roles: map<string, Role>): Option<UiPermissions> {
    if userRoles == [] then Some(EmptyUiPermissions(c))
    else
      var prev := MapUserRolesToUiPermissions(c, userRoles[..|userRoles| - 1], roles);
      var roleId := userRoles[|userRoles| - 1];
      if prev.None? then None
      else if roleId == "" || roleId !in roles then prev
      else if roles[roleId].uiPermissions.None? then None
      else Some(MergePermissions(prev.value, roles[roleId].uiPermissions.value))
  }

  /** Every assigned, known role has a permissions record. */
  ghost predicate AssignedRolesHavePermissions(userRoles: seq<string>, roles: map<string, Role>) {
    forall i :: 0 <= i < |userRoles| && userRoles[i] != "" && userRoles[i] in roles ==> roles[userRoles[i]].uiPermissions.Some?
  }

  /**
   * A user's effective permissions are computed when every assigned role has a
   * record; they are shaped like `emptyUiPermissions` and repeat no value.
   */
  lemma {:induction false} MapUserRolesShape(c: Catalog, userRoles: seq<string>, roles: map<string, Role>)
    requires AssignedRolesHavePermissions(userRoles, roles)
    ensures MapUserRolesToUiPermissions(c, userRoles, roles).Some?
    ensures WellFormed(c, MapUserRolesToUiPermissions(c, userRoles, roles).value)
  {
    if userRoles != [] {
      var init := userRoles[..|userRoles| - 1];
      var roleId := userRoles[|userRoles| - 1];
      assert forall i :: 0 <= i < |init| ==> init[i] == userRoles[i];
      MapUserRolesShape(c, init, roles);
      var prev := MapUserRolesToUiPermissions(c, init, roles).value;
      if roleId != "" && roleId in roles {
        var added := roles[roleId].uiPermissions.value;
        MergeAreasSpec(prev, added);
        MergePreservesDuplicateFree(prev, added);
      }
    }
  }

  /** An area holds a value exactly when some assigned, known role grants it there. */
  lemma {:induction false} MapUserRolesAreas(c: Catalog, userRoles: seq<string>, roles: map<string, Role>)
    requires AssignedRolesHavePermissions(userRoles, roles)
    ensures MapUserRolesToUiPermissions(c, userRoles, roles).Some?
    ensures var r := MapUserRolesToUiPermissions(c, userRoles, roles).value;
      forall a, x :: a in r.areas ==> (x in r.areas[a] <==> exists i :: 0 <= i < |userRoles| && GrantsArea(roles, userRoles[i], a, x))
  {
    MapUserRolesShape(c, userRoles, roles);
    if userRoles != [] {
      var init := userRoles[..|userRoles| - 1];
      var roleId := userRoles[|userRoles| - 1];
      assert forall i :: 0 <= i < |init| ==> init[i] == userRoles[i];
      MapUserRolesAreas(c, init, roles);
      var prev := MapUserRolesToUiPermissions(c, init, roles).value;
      var r := MapUserRolesToUiPermissions(c, userRoles, roles).value;
      if roleId != "" && roleId in roles {
        MergeAreasSpec(prev, roles[roleId].uiPermissions.value);
      }
      forall a, x | a in r.areas && (exists i :: 0 <= i < |userRoles| && GrantsArea(roles, userRoles[i], a, x))
        ensures x in r.areas[a]
      {
        var i :| 0 <= i < |userRoles| && GrantsArea(roles, userRoles[i], a, x);
        if i < |init| {
          assert GrantsArea(roles, init[i], a, x);
        }
      }
    }
  }

  /** A group holds a value exactly when some assigned, known role grants it to that group. */
  lemma {:induction false} MapUserRolesGroups(c: Catalog, userRoles: seq<string>, roles: map<string, Role>)
    requires AssignedRolesHavePermissions(userRoles, roles)
    ensures MapUserRolesToUiPermissions(c, userRoles, roles).Some?
    ensures MapUserRolesToUiPermissions(c, userRoles, roles).value.groups.Some?
    ensures var groups := MapUserRolesToUiPermissions(c, userRoles, roles).value.groups.value;
      && (forall g, x :: g in groups && x in groups[g] ==> exists i :: 0 <= i < |userRoles| && GrantsGroup(roles, userRoles[i], g, x))
      && (forall i, g, x {:trigger GrantsGroup(roles, userRoles[i], g, x)} ::
            0 <= i < |userRoles| && GrantsGroup(roles, userRoles[i], g, x) ==> g in groups && x in groups[g])
  {
    MapUserRolesShape(c, userRoles, roles);
    if userRoles != [] {
      var init := userRoles[..|userRoles| - 1];
      var roleId := userRoles[|userRoles| - 1];
      assert forall i :: 0 <= i < |init| ==> init[i] == userRoles[i];
      MapUserRolesGroups(c, init, roles);
      MapUserRolesShape(c, init, roles);
      var prev := MapUserRolesToUiPermissions(c, init, roles).value;
      if roleId != "" && roleId in roles && roles[roleId].uiPermissions.value.groups.Some? {
        MergeGroupsSpec(prev, roles[roleId].uiPermissions.value);
      }
      var groups := MapUserRolesToUiPermissions(c, userRoles, roles).value.groups.value;
      forall i, g, x | 0 <= i < |userRoles| && GrantsGroup(roles, userRoles[i], g, x)
        ensures g in groups && x in groups[g]
      {
        var before := prev.groups.value;
        if i < |init| {
          assert 0 <= i < |init| && GrantsGroup(roles, init[i], g, x);
          assert g in before && x in Get(before, g);
        }
        if roleId != "" && roleId in roles {
          var added := roles[roleId].uiPermissions.value;
          assert groups == MergeGroups(prev.groups, added.groups).value;
          if added.groups.Some? {
            assert g in before.Keys + added.groups.value.Keys;
            assert x in Get(before, g) || x in Get(added.groups.value, g);
          }
        }
      }
    }
  }
}

/**
 * The role editor's round trip: the references `transformRoleDataToRole`
 * sends (src/js/actions/userActions.js:456-500), parsed back by
 * `parseRolePermissions` (lines 310-331), give the permissions the editor
 * implied, provided the permission sets carry the results
 * `getPermissionSets` computes for a catalog in which every area set backs
 * one value and every group set backs no area value.
 */
module RoleRoundTrip {
  import opened Wrappers
  import opened Lists
  import opened PermissionModel
  import opened PermissionMerge
  import opened CustomPermissions
  import opened PermissionSets
  import opened RoleNormalization
  import opened RoleTransform

  /** Group `g` holds `x` in the record. */
  ghost predicate HasGroup(r: UiPermissions, g: GroupName, x: Value) {
    r.groups.Some? && g in r.groups.value && x in r.groups.value[g]
  }

  /** The parse step takes the reference without throwing and without reading custom permissions. */
  ghost predicate StepOk(c: Catalog, sets: map<SetName, PermissionSet>, ref: ScopedRef) {
    ref.name in sets &&
    if GroupScoped(c, ref) then GroupPermissionOf(c.permissions, ref.name).Some?
    else !sets[ref.name].isCustom && sets[ref.name].result.Some? && sets[ref.name].result.value.groups.Some?
  }

  /** The reference puts `x` into area `a`. */
  ghost predicate AreaGrant(c: Catalog, sets: map<SetName, PermissionSet>, ref: ScopedRef, a: Area, x: Value) {
    && ref.name in sets
    && !GroupScoped(c, ref)
    && sets[ref.name].result.Some?
    && a in sets[ref.name].result.value.areas
    && x in sets[ref.name].result.value.areas[a]
  }

  /** The reference gives `x` to group `g`. */
  ghost predicate GroupGrant(c: Catalog, sets: map<SetName, PermissionSet>, ref: ScopedRef, g: GroupName, x: Value) {
    ref.name in sets &&
    if GroupScoped(c, ref) then g in ref.scope.value.value && GroupPermissionOf(c.permissions, ref.name) == Some(x)
    else sets[ref.name].result.Some? && HasGroup(sets[ref.name].result.value, g, x)
  }

  /** Each area of `next` holds what it held in `prev` plus what `refs` grant there. */
  ghost predicate AreasExtend(c: Catalog, sets: map<SetName, PermissionSet>, prev: UiPermissions, next: UiPermissions, refs: seq<ScopedRef>) {
    && next.areas.Keys == prev.areas.Keys
    && forall a, x :: a in next.areas ==>
         (x in next.areas[a] <==> x in prev.areas[a] || exists r :: r in refs && AreaGrant(c, sets, r, a, x))
  }

  /** Each group of `next` holds what it held in `prev` plus what `refs` grant it. */
  ghost predicate GroupsExtend(c: Catalog, sets: map<SetName, PermissionSet>, prev: UiPermissions, next: UiPermissions, refs: seq<ScopedRef>) {
    && next.groups.Some?
    && forall g, x :: HasGroup(next, g, x) <==> HasGroup(prev, g, x) || exists r :: r in refs && GroupGrant(c, sets, r, g, x)
  }

  /** `next` is `prev` with the grants of `refs` added: same keys, same custom flag, nothing else. */
  ghost predicate Extends(c: Catalog, sets: map<SetName, PermissionSet>, prev: RoleAccu, next: RoleAccu, refs: seq<ScopedRef>) {
    && next.isCustom == prev.isCustom
    && AreasExtend(c, sets, prev.uiPermissions, next.uiPermissions, refs)
    && GroupsExtend(c, sets, prev.uiPermissions, next.uiPermissions, refs)
  }

  /** A group-scoped step grants the set's group permission to the scope's groups. */
  lemma ScopedStepExtends(c: Catalog, sets: map<SetName, PermissionSet>, accu: RoleAccu, ref: ScopedRef)
    requires StepOk(c, sets, ref) && GroupScoped(c, ref) && accu.uiPermissions.groups.Some?
    ensures ParseStep(c, sets, accu, ref).Some?
    ensures Extends(c, sets, accu, ParseStep(c, sets, accu, ref).value, [ref])
  {
    var p := accu.uiPermissions;
    var v := GroupPermissionOf(c.permissions, ref.name).value;
    var next := UiPermissions(p.areas, Some(GrantToGroups(v, ref.scope.value.value, p.groups.value)));
    assert ParseStep(c, sets, accu, ref) == Some(RoleAccu(accu.isCustom, next));
    ScopedStepGroups(c, sets, p, ref, v);
    assert forall a, x :: !AreaGrant(c, sets, ref, a, x);
  }

  /** The groups a group-scoped step produces: the old ones, plus `v` for each group of the scope. */
  lemma ScopedStepGroups(c: Catalog, sets: map<SetName, PermissionSet>, p: UiPermissions, ref: ScopedRef, v: Value)
    requires ref.name in sets && GroupScoped(c, ref) && p.groups.Some?
    requires GroupPermissionOf(c.permissions, ref.name) == Some(v)
    ensures GroupsExtend(c, sets, p, UiPermissions(p.areas, Some(GrantToGroups(v, ref.scope.value.value, p.groups.value))), [ref])
  {
    var names := ref.scope.value.value;
    var next := UiPermissions(p.areas, Some(GrantToGroups(v, names, p.groups.value)));
    forall g, x
      ensures HasGroup(next, g, x) <==> HasGroup(p, g, x) || exists r :: r in [ref] && GroupGrant(c, sets, r, g, x)
    {
      GrantHolds(v, names, p.groups.value, g, x);
      assert GroupGrant(c, sets, ref, g, x) <==> g in names && x == v;
    }
  }

  /** After granting `v` to `names`, group `g` holds `x` iff it held it before, or `g` is named and `x` is `v`. */
  lemma GrantHolds(v: Value, names: seq<GroupName>, existing: GroupPermissions, g: GroupName, x: Value)
    ensures (g in GrantToGroups(v, names, existing) && x in GrantToGroups(v, names, existing)[g]) <==>
      (g in existing && x in existing[g]) || (g in names && x == v)
  {
    GrantToGroupsSpec(v, names, existing);
    if g in names {
      DedupSpec([v] + Get(existing, g));
    }
  }

  /** An unscoped step merges the set's result into the areas. */
  lemma MergedStepAreas(c: Catalog, sets: map<SetName, PermissionSet>, p: UiPermissions, ref: ScopedRef)
    requires StepOk(c, sets, ref) && !GroupScoped(c, ref)
    ensures AreasExtend(c, sets, p, MergePermissions(p, sets[ref.name].result.value), [ref])
  {
    var R := sets[ref.name].result.value;
    MergeAreasSpec(p, R);
    forall a, x | a in p.areas
      ensures x in MergePermissions(p, R).areas[a] <==> x in p.areas[a] || exists r :: r in [ref] && AreaGrant(c, sets, r, a, x)
    {
      assert AreaGrant(c, sets, ref, a, x) <==> a in R.areas && x in R.areas[a];
    }
  }

  /** An unscoped step merges the set's result into the groups. */
  lemma MergedStepGroups(c: Catalog, sets: map<SetName, PermissionSet>, p: UiPermissions, ref: ScopedRef)
    requires StepOk(c, sets, ref) && !GroupScoped(c, ref) && p.groups.Some?
    ensures GroupsExtend(c, sets, p, MergePermissions(p, sets[ref.name].result.value), [ref])
  {
    var R := sets[ref.name].result.value;
    MergeGroupsSpec(p, R);
    forall g, x
      ensures HasGroup(MergePermissions(p, R), g, x) <==> HasGroup(p, g, x) || exists r :: r in [ref] && GroupGrant(c, sets, r, g, x)
    {
      assert GroupGrant(c, sets, ref, g, x) <==> HasGroup(R, g, x);
    }
  }

  /** One parse step adds exactly the grants of its reference. */
  lemma StepExtends(c: Catalog, sets: map<SetName, PermissionSet>, accu: RoleAccu, ref: ScopedRef)
    requires StepOk(c, sets, ref) && accu.uiPermissions.groups.Some?
    ensures ParseStep(c, sets, accu, ref).Some?
    ensures Extends(c, sets, accu, ParseStep(c, sets, accu, ref).value, [ref])
  {
    if GroupScoped(c, ref) {
      ScopedStepExtends(c, sets, accu, ref);
    } else {
      assert ParseStep(c, sets, accu, ref) == Some(RoleAccu(accu.isCustom, MergePermissions(accu.uiPermissions, sets[ref.name].result.value)));
      MergedStepAreas(c, sets, accu.uiPermissions, ref);
      MergedStepGroups(c, sets, accu.uiPermissions, ref);
    }
  }

  /** Grants of two stretches of references add up. */
  lemma ExtendsTrans(c: Catalog, sets: map<SetName, PermissionSet>, accu: RoleAccu, mid: RoleAccu, next: RoleAccu,
                     init: seq<ScopedRef>, last: ScopedRef)
    requires Extends(c, sets, accu, mid, init) && Extends(c, sets, mid, next, [last])
    ensures Extends(c, sets, accu, next, init + [last])
  {
    var refs := init + [last];
    forall a, x | a in next.uiPermissions.areas
      ensures x in next.uiPermissions.areas[a] <==>
        x in accu.uiPermissions.areas[a] || exists r :: r in refs && AreaGrant(c, sets, r, a, x)
    {
      if exists r :: r in refs && AreaGrant(c, sets, r, a, x) {
        var r :| r in refs && AreaGrant(c, sets, r, a, x);
        if r != last {
          assert r in init;
        }
      }
    }
    forall g, x
      ensures HasGroup(next.uiPermissions, g, x) <==>
        HasGroup(accu.uiPermissions, g, x) || exists r :: r in refs && GroupGrant(c, sets, r, g, x)
    {
      if exists r :: r in refs && GroupGrant(c, sets, r, g, x) {
        var r :| r in refs && GroupGrant(c, sets, r, g, x);
        if r != last {
          assert r in init;
        }
      }
    }
  }

  /** The reduce over references every step can take adds exactly their grants. */
  lemma {:induction false} FoldExtends(c: Catalog, sets: map<SetName, PermissionSet>, accu: RoleAccu, refs: seq<ScopedRef>)
    requires accu.uiPermissions.groups.Some?
    requires forall r :: r in refs ==> StepOk(c, sets, r)
    ensures FoldRefs(c, sets, accu, refs).Some?
    ensures Extends(c, sets, accu, FoldRefs(c, sets, accu, refs).value, refs)
  {
    if refs != [] {
      var init := refs[..|refs| - 1];
      var last := refs[|refs| - 1];
      assert refs == init + [last];
      FoldExtends(c, sets, accu, init);
      var mid := FoldRefs(c, sets, accu, init).value;
      StepExtends(c, sets, mid, last);
      ExtendsTrans(c, sets, accu, mid, ParseStep(c, sets, mid, last).value, init, last);
    }
  }

  /** The set `n`, merged unscoped, grants nothing. */
  ghost predicate GrantsNothing(sets: map<SetName, PermissionSet>, n: SetName) {
    && n in sets
    && !sets[n].isCustom
    && sets[n].result.Some?
    && sets[n].result.value.groups == Some(map[])
    && forall a :: a in sets[n].result.value.areas ==> sets[n].result.value.areas[a] == []
  }

  /** The set `n`, merged unscoped, grants `v` in area `a` and nothing else. */
  ghost predicate GrantsOnly(sets: map<SetName, PermissionSet>, n: SetName, a: Area, v: Value) {
    && n in sets
    && !sets[n].isCustom
    && sets[n].result.Some?
    && sets[n].result.value.groups == Some(map[])
    && a in sets[n].result.value.areas
    && v in sets[n].result.value.areas[a]
    && forall a', x :: a' in sets[n].result.value.areas && x in sets[n].result.value.areas[a'] ==> a' == a && x == v
  }

  /** The `groups` set `n` backs `v`: scoped it grants `v` to its groups, unscoped `v` to `ALL_DEVICES`. */
  ghost predicate GroupSetBacks(c: Catalog, sets: map<SetName, PermissionSet>, n: SetName, v: Value) {
    && n in sets
    && GroupPermissionOf(c.permissions, n) == Some(v)
    && !sets[n].isCustom
    && sets[n].result.Some?
    && sets[n].result.value.groups == Some(map[c.allDevices := [v]])
    && forall a :: a in sets[n].result.value.areas ==> sets[n].result.value.areas[a] == []
  }

  /**
   * The permission sets the round trip needs: `Basic` grants nothing, the set
   * an area permission names for its area grants that permission alone, and
   * a `groups` set grants its permission to `ALL_DEVICES` alone.
   */
  ghost predicate RoundTripSets(c: Catalog, sets: map<SetName, PermissionSet>) {
    && GrantsNothing(sets, c.basicSet)
    && (forall a, d :: a in c.areas && d in c.areas[a].uiPermissions && a in d.areaSets ==>
          GrantsOnly(sets, d.areaSets[a], a, d.value))
    && (forall d :: d in c.groupPermissions && d.groupSet.Some? ==> GroupSetBacks(c, sets, d.groupSet.value, d.value))
  }

  /** A value is listed for a set in an area exactly when some catalog entry backs the set there. */
  lemma {:induction false} BackedValuesSpec(items: seq<PermissionDefinition>, a: Area, n: SetName)
    ensures forall x :: x in BackedValues(items, a, n) <==>
      exists i :: 0 <= i < |items| && Backs(items[i], a, n) && items[i].value == x
  {
    if items != [] {
      var init := items[..|items| - 1];
      BackedValuesSpec(init, a, n);
      assert forall i :: 0 <= i < |init| ==> init[i] == items[i];
      forall x | exists i :: 0 <= i < |items| && Backs(items[i], a, n) && items[i].value == x
        ensures x in BackedValues(items, a, n)
      {
        var i :| 0 <= i < |items| && Backs(items[i], a, n) && items[i].value == x;
        if i < |init| {
          assert Backs(init[i], a, n) && init[i].value == x;
        }
      }
    }
  }

  /** A set no entry backs and without the group scope, stored as `getPermissionSets` computes it, grants nothing. */
  lemma StoredSetGrantsNothing(c: Catalog, sets: map<SetName, PermissionSet>, n: SetName)
    requires n in sets && !sets[n].isCustom && !SupportsGroupScope(c, sets[n].supportedScopeTypes)
    requires sets[n].result == SetResult(c, n, sets[n].supportedScopeTypes)
    requires forall i, a :: 0 <= i < |c.permissions| ==> !Backs(c.permissions[i], a, n)
    ensures GrantsNothing(sets, n)
  {
    UnknownSetGrantsNothing(c, n, sets[n].supportedScopeTypes);
  }

  /**
   * An area set without the group scope whose only backing entry is `v` in
   * area `a`, stored as `getPermissionSets` computes it, grants `v` in `a` alone.
   */
  lemma StoredSetGrantsOnly(c: Catalog, sets: map<SetName, PermissionSet>, n: SetName, a: Area, v: Value)
    requires n in sets && !sets[n].isCustom && !SupportsGroupScope(c, sets[n].supportedScopeTypes)
    requires sets[n].result == SetResult(c, n, sets[n].supportedScopeTypes)
    requires Lands(c, c.permissions, n)
    requires exists i :: 0 <= i < |c.permissions| && Backs(c.permissions[i], a, n) && c.permissions[i].value == v
    requires forall i, a' :: 0 <= i < |c.permissions| && Backs(c.permissions[i], a', n) ==> a' == a && c.permissions[i].value == v
    ensures GrantsOnly(sets, n, a, v)
  {
    ResultAreasSpec(c, c.permissions, n);
    var i :| 0 <= i < |c.permissions| && Backs(c.permissions[i], a, n) && c.permissions[i].value == v;
    assert a in c.areaNames;
    var r := sets[n].result.value.areas;
    forall a' | a' in r ensures forall x :: x in r[a'] <==> a' == a && x == v {
      BackedValuesSpec(c.permissions, a', n);
    }
  }

  /**
   * A `groups` set with the group scope that backs no area, stored as
   * `getPermissionSets` computes it, grants its permission to `ALL_DEVICES`.
   */
  lemma StoredGroupSetBacks(c: Catalog, sets: map<SetName, PermissionSet>, n: SetName, v: Value)
    requires n in sets && !sets[n].isCustom && SupportsGroupScope(c, sets[n].supportedScopeTypes)
    requires sets[n].result == SetResult(c, n, sets[n].supportedScopeTypes)
    requires GroupPermissionOf(c.permissions, n) == Some(v)
    requires forall i, a :: 0 <= i < |c.permissions| ==> !Backs(c.permissions[i], a, n)
    ensures GroupSetBacks(c, sets, n, v)
  {
    ResultAreasSpec(c, c.permissions, n);
    SetResultGroups(c, n, sets[n].supportedScopeTypes);
    var r := sets[n].result.value.areas;
    forall a | a in r ensures r[a] == [] {
      NothingBacked(c.permissions, a, n);
    }
  }

  /** The selection of area `a` implies `x`. */
  ghost predicate AreaImplies(c: Catalog, selection: map<Area, seq<Value>>, a: Area, x: Value) {
    a in selection && DeriveImplied(c, a, selection[a]).Some? && x in DeriveImplied(c, a, selection[a]).value
  }

  /** Some selection of group `g` implies `x`. */
  ghost predicate GroupImplies(c: Catalog, selections: seq<GroupSelection>, g: GroupName, x: Value) {
    exists i :: 0 <= i < |selections| && selections[i].group == g &&
      DeriveImplied(c, GroupsArea, selections[i].uiPermissions).Some? &&
      x in DeriveImplied(c, GroupsArea, selections[i].uiPermissions).value
  }

  /** No `groups` set is implied both for `ALL_DEVICES` and for another group. */
  ghost predicate ScopesDisjoint(c: Catalog, selections: seq<GroupSelection>) {
    forall n, g :: Selects(c, selections, n, c.allDevices) && Selects(c, selections, n, g) ==> g == c.allDevices
  }

  /** A set some group selection implies backs the implied value, and the lookup of that value names the set. */
  lemma SelectsBacked(c: Catalog, sets: map<SetName, PermissionSet>, selections: seq<GroupSelection>, n: SetName, g: GroupName)
    requires ValidCatalog(c) && RoundTripSets(c, sets)
    requires Selects(c, selections, n, g)
    ensures GroupPermissionOf(c.permissions, n).Some?
    ensures GroupSetBacks(c, sets, n, GroupPermissionOf(c.permissions, n).value)
    ensures GroupSetOf(c, GroupPermissionOf(c.permissions, n).value) == Some(n)
    ensures GroupImplies(c, selections, g, GroupPermissionOf(c.permissions, n).value)
  {
    var i :| 0 <= i < |selections| && selections[i].group == g && SelectionGrants(c, selections[i], n);
    var implied := DeriveImplied(c, GroupsArea, selections[i].uiPermissions).value;
    var v :| v in implied && GroupSetOf(c, v) == Some(n);
    DeriveImpliedSpec(c, GroupsArea, selections[i].uiPermissions);
    var j :| 0 <= j < |c.groupPermissions| && c.groupPermissions[j].value == v;
    var d := c.groupPermissions[j];
    assert Lookup(c, v) == Some(d);
    assert GroupSetBacks(c, sets, n, v);
  }

  /** An implied group value comes from a set the selection implies for that group. */
  lemma ImpliedSelects(c: Catalog, sets: map<SetName, PermissionSet>, selections: seq<GroupSelection>, g: GroupName, x: Value)
    requires ValidCatalog(c) && RoundTripSets(c, sets)
    requires GroupImplies(c, selections, g, x)
    ensures exists n :: Selects(c, selections, n, g) && GroupPermissionOf(c.permissions, n) == Some(x)
  {
    var i :| 0 <= i < |selections| && selections[i].group == g &&
      DeriveImplied(c, GroupsArea, selections[i].uiPermissions).Some? &&
      x in DeriveImplied(c, GroupsArea, selections[i].uiPermissions).value;
    DeriveImpliedSpec(c, GroupsArea, selections[i].uiPermissions);
    var j :| 0 <= j < |c.groupPermissions| && c.groupPermissions[j].value == x;
    var d := c.groupPermissions[j];
    assert Lookup(c, x) == Some(d);
    var n := d.groupSet.value;
    assert SelectionGrants(c, selections[i], n);
    assert Selects(c, selections, n, g);
    assert GroupSetBacks(c, sets, n, x);
  }

  /** A group reference names a set some selection implies, and is scoped exactly to the groups that imply it. */
  lemma GroupRefShape(c: Catalog, selections: seq<GroupSelection>, refs: seq<ScopedRef>, r: ScopedRef)
    requires GroupRefs(c, selections) == Some(refs) && r in refs
    ensures exists g :: Selects(c, selections, r.name, g)
    ensures r.scope.None? <==> Selects(c, selections, r.name, c.allDevices)
    ensures r.scope.Some? ==> r.scope.value.scopeType == c.groupScope
    ensures r.scope.Some? ==> forall g :: g in r.scope.value.value <==> Selects(c, selections, r.name, g)
  {
    GroupRefsSelected(c, selections);
    GroupRefsScopes(c, selections);
    var k :| 0 <= k < |refs| && refs[k] == r;
    assert Referenced(c, selections, refs[k].name);
  }

  /** A group reference: what the parse step grants for it. */
  lemma GroupRefGrants(c: Catalog, sets: map<SetName, PermissionSet>, selections: seq<GroupSelection>, refs: seq<ScopedRef>, r: ScopedRef)
    requires ValidCatalog(c) && RoundTripSets(c, sets)
    requires GroupRefs(c, selections) == Some(refs) && r in refs
    ensures StepOk(c, sets, r)
    ensures forall a, x :: !AreaGrant(c, sets, r, a, x)
    ensures GroupPermissionOf(c.permissions, r.name).Some?
    ensures GroupSetOf(c, GroupPermissionOf(c.permissions, r.name).value) == Some(r.name)
    ensures r.scope.None? <==> Selects(c, selections, r.name, c.allDevices)
    ensures forall g, x :: GroupGrant(c, sets, r, g, x) <==>
      GroupPermissionOf(c.permissions, r.name) == Some(x) &&
      (if r.scope.None? then g == c.allDevices else Selects(c, selections, r.name, g))
  {
    GroupRefShape(c, selections, refs, r);
    var g0 :| Selects(c, selections, r.name, g0);
    SelectsBacked(c, sets, selections, r.name, g0);
    var v := GroupPermissionOf(c.permissions, r.name).value;
    if r.scope.None? {
      UnscopedGrants(c, sets, r, v);
    } else {
      assert GroupScoped(c, r);
    }
  }

  /** An unscoped `groups` set grants its permission to `ALL_DEVICES` only, and nothing in the areas. */
  lemma UnscopedGrants(c: Catalog, sets: map<SetName, PermissionSet>, r: ScopedRef, v: Value)
    requires r.scope.None? && GroupSetBacks(c, sets, r.name, v)
    ensures StepOk(c, sets, r)
    ensures forall a, x :: !AreaGrant(c, sets, r, a, x)
    ensures forall g, x :: GroupGrant(c, sets, r, g, x) <==> g == c.allDevices && x == v
  {
  }

  /** A permission listed for an area is its own lookup, and the set it names for the area grants it alone. */
  lemma AreaEntry(c: Catalog, sets: map<SetName, PermissionSet>, a: Area, d: PermissionDefinition)
    requires ValidCatalog(c) && RoundTripSets(c, sets)
    requires a in c.areas && d in c.areas[a].uiPermissions
    ensures Lookup(c, d.value) == Some(d) && a in d.areaSets
    ensures GrantsOnly(sets, d.areaSets[a], a, d.value)
  {
  }

  /** A value an area selection implies is listed for that area. */
  lemma ImpliedListed(c: Catalog, selection: map<Area, seq<Value>>, a: Area, v: Value)
    requires ValidCatalog(c) && AreaImplies(c, selection, a, v)
    ensures a in c.areas
    ensures exists d :: d in c.areas[a].uiPermissions && d.value == v
  {
    DeriveImpliedSpec(c, a, selection[a]);
    var defs := AreaPermissionList(c, a).value;
    var j :| 0 <= j < |defs| && defs[j].value == v;
    assert defs[j] in c.areas[a].uiPermissions;
  }

  /** The set an area selection implies for area `a` grants one value the selection implies, alone. */
  lemma AreaSelectsBacked(c: Catalog, sets: map<SetName, PermissionSet>, selection: map<Area, seq<Value>>, a: Area, n: SetName)
    requires ValidCatalog(c) && RoundTripSets(c, sets)
    requires AreaSelects(c, selection, a, n)
    ensures exists v :: AreaImplies(c, selection, a, v) && GrantsOnly(sets, n, a, v)
  {
    var v :| v in DeriveImplied(c, a, selection[a]).value &&
      Lookup(c, v).Some? && a in Lookup(c, v).value.areaSets && Lookup(c, v).value.areaSets[a] == n;
    assert AreaImplies(c, selection, a, v);
    ImpliedListed(c, selection, a, v);
    var d :| d in c.areas[a].uiPermissions && d.value == v;
    AreaEntry(c, sets, a, d);
  }

  /** An area reference grants one implied value in one area, and nothing to groups. */
  lemma AreaRefGrants(c: Catalog, sets: map<SetName, PermissionSet>, selection: map<Area, seq<Value>>, refs: seq<ScopedRef>, r: ScopedRef)
    requires ValidCatalog(c) && RoundTripSets(c, sets)
    requires AreaStep(c, c.areaNames, selection).Some? && refs == AreaStep(c, c.areaNames, selection).value.0 && r in refs
    ensures StepOk(c, sets, r)
    ensures forall g, x :: !GroupGrant(c, sets, r, g, x)
    ensures forall a, x :: AreaGrant(c, sets, r, a, x) ==> a in c.areaNames && AreaImplies(c, selection, a, x)
  {
    AreaStepRefs(c, c.areaNames, selection);
    var a :| a in c.areaNames && AreaSelects(c, selection, a, r.name);
    AreaSelectsBacked(c, sets, selection, a, r.name);
    var v :| AreaImplies(c, selection, a, v) && GrantsOnly(sets, r.name, a, v);
    assert !GroupScoped(c, r);
  }

  /** Every value an area selection implies is granted by one of the area references. */
  lemma AreaImpliedGranted(c: Catalog, sets: map<SetName, PermissionSet>, selection: map<Area, seq<Value>>, refs: seq<ScopedRef>,
                           a: Area, x: Value)
    requires ValidCatalog(c) && RoundTripSets(c, sets)
    requires AreaStep(c, c.areaNames, selection).Some? && refs == AreaStep(c, c.areaNames, selection).value.0
    requires a in c.areaNames && AreaImplies(c, selection, a, x)
    ensures exists r :: r in refs && AreaGrant(c, sets, r, a, x)
  {
    ImpliedListed(c, selection, a, x);
    var d :| d in c.areas[a].uiPermissions && d.value == x;
    AreaEntry(c, sets, a, d);
    var n := d.areaSets[a];
    assert AreaSelects(c, selection, a, n);
    AreaStepRefs(c, c.areaNames, selection);
    assert ScopedRef(n, None) in refs;
    assert AreaGrant(c, sets, ScopedRef(n, None), a, x);
  }

  /** Every group grant of the group references is implied by a selection of that group. */
  lemma GroupGrantImplied(c: Catalog, sets: map<SetName, PermissionSet>, selections: seq<GroupSelection>, refs: seq<ScopedRef>,
                          r: ScopedRef, g: GroupName, x: Value)
    requires ValidCatalog(c) && RoundTripSets(c, sets)
    requires GroupRefs(c, selections) == Some(refs) && r in refs
    requires GroupGrant(c, sets, r, g, x)
    ensures GroupImplies(c, selections, g, x)
  {
    GroupRefGrants(c, sets, selections, refs, r);
    if r.scope.None? {
      SelectsBacked(c, sets, selections, r.name, c.allDevices);
    } else {
      SelectsBacked(c, sets, selections, r.name, g);
    }
  }

  /** With disjoint scopes, every value a group selection implies is granted to that group. */
  lemma GroupImpliedGranted(c: Catalog, sets: map<SetName, PermissionSet>, selections: seq<GroupSelection>, refs: seq<ScopedRef>,
                            g: GroupName, x: Value)
    requires ValidCatalog(c) && RoundTripSets(c, sets)
    requires GroupRefs(c, selections) == Some(refs) && ScopesDisjoint(c, selections)
    requires GroupImplies(c, selections, g, x)
    ensures exists r :: r in refs && GroupGrant(c, sets, r, g, x)
  {
    ImpliedSelects(c, sets, selections, g, x);
    var n :| Selects(c, selections, n, g) && GroupPermissionOf(c.permissions, n) == Some(x);
    GroupRefsNames(c, selections);
    var k :| 0 <= k < |refs| && refs[k].name == n;
    GroupRefGrants(c, sets, selections, refs, refs[k]);
    assert GroupGrant(c, sets, refs[k], g, x);
  }

  /** The parse of the sent references, the role carrying no custom permissions of its own. */
  function Reparsed(c: Catalog, sets: map<SetName, PermissionSet>, t: TransformedRole): Option<RoleAccu> {
    ParseRolePermissions(c, ServerRole(t.role.name, t.role.description, t.permissionSetsWithScope, []), sets)
  }

  /** The sent references parse without throwing, from the initial record, with the grants of all references. */
  lemma ReparsedExtends(c: Catalog, sets: map<SetName, PermissionSet>, roleData: RoleData, roleState: Option<Role>, t: TransformedRole)
    requires ValidCatalog(c) && RoundTripSets(c, sets)
    requires TransformRole(c, roleData, roleState) == Some(t)
    ensures Reparsed(c, sets, t).Some?
    ensures Extends(c, sets, InitialAccu(c), Reparsed(c, sets, t).value, t.permissionSetsWithScope)
    ensures forall a, x :: a in c.areaNames ==>
      ((exists r :: r in t.permissionSetsWithScope && AreaGrant(c, sets, r, a, x)) <==> AreaImplies(c, roleData.uiPermissions.areas, a, x))
    ensures forall g, x :: (exists r :: r in t.permissionSetsWithScope && GroupGrant(c, sets, r, g, x)) ==>
      GroupImplies(c, roleData.uiPermissions.groups, g, x)
    ensures ScopesDisjoint(c, roleData.uiPermissions.groups) ==> forall g, x :: GroupImplies(c, roleData.uiPermissions.groups, g, x) ==>
      exists r :: r in t.permissionSetsWithScope && GroupGrant(c, sets, r, g, x)
  {
    TransformRoleSpec(c, roleData, roleState);
    var selection := roleData.uiPermissions.areas;
    var selections := roleData.uiPermissions.groups;
    var basic := ScopedRef(c.basicSet, None);
    var areaRefs := AreaStep(c, c.areaNames, selection).value.0;
    var groupRefs := GroupRefs(c, selections).value;
    var refs := t.permissionSetsWithScope;
    assert refs == [basic] + areaRefs + groupRefs;
    forall r | r in refs
      ensures StepOk(c, sets, r)
      ensures forall a, x :: AreaGrant(c, sets, r, a, x) ==> a in c.areaNames && AreaImplies(c, selection, a, x)
      ensures forall g, x :: GroupGrant(c, sets, r, g, x) ==> GroupImplies(c, selections, g, x)
    {
      if r in areaRefs {
        AreaRefGrants(c, sets, selection, areaRefs, r);
      } else if r in groupRefs {
        GroupRefGrants(c, sets, selections, groupRefs, r);
        forall g, x | GroupGrant(c, sets, r, g, x) ensures GroupImplies(c, selections, g, x) {
          GroupGrantImplied(c, sets, selections, groupRefs, r, g, x);
        }
      } else {
        assert r == basic;
      }
    }
    FoldExtends(c, sets, InitialAccu(c), refs);
    forall a, x | a in c.areaNames && AreaImplies(c, selection, a, x)
      ensures exists r :: r in refs && AreaGrant(c, sets, r, a, x)
    {
      AreaImpliedGranted(c, sets, selection, areaRefs, a, x);
    }
    if ScopesDisjoint(c, selections) {
      forall g, x | GroupImplies(c, selections, g, x)
        ensures exists r :: r in refs && GroupGrant(c, sets, r, g, x)
      {
        GroupImpliedGranted(c, sets, selections, groupRefs, g, x);
      }
    }
  }

  /** The edited role holds, in every area, exactly the values that area's selection implies. */
  lemma EditedAreas(c: Catalog, roleData: RoleData, roleState: Option<Role>, t: TransformedRole)
    requires TransformRole(c, roleData, roleState) == Some(t)
    ensures t.role.uiPermissions.Some? && FullRecord(c, t.role.uiPermissions.value)
    ensures forall a, x :: a in c.areaNames ==>
      (x in t.role.uiPermissions.value.areas[a] <==> AreaImplies(c, roleData.uiPermissions.areas, a, x))
  {
    TransformRoleSpec(c, roleData, roleState);
  }

  /**
   * The round trip: when no `groups` set is implied both for `ALL_DEVICES`
   * and for another group, parsing the references `transformRoleDataToRole`
   * sends gives a non-custom record with every area of
   * `emptyUiPermissions`, each holding exactly the values of the edited
   * role, and grants a group exactly the values its selections imply.
   */
  lemma NormalizeTransformed(c: Catalog, sets: map<SetName, PermissionSet>, roleData: RoleData, roleState: Option<Role>, t: TransformedRole)
    requires ValidCatalog(c) && RoundTripSets(c, sets)
    requires TransformRole(c, roleData, roleState) == Some(t)
    requires ScopesDisjoint(c, roleData.uiPermissions.groups)
    ensures t.role.uiPermissions.Some? && FullRecord(c, t.role.uiPermissions.value)
    ensures Reparsed(c, sets, t).Some?
    ensures !Reparsed(c, sets, t).value.isCustom
    ensures FullRecord(c, Reparsed(c, sets, t).value.uiPermissions)
    ensures forall a, x :: a in c.areaNames ==>
      (x in Reparsed(c, sets, t).value.uiPermissions.areas[a] <==> x in t.role.uiPermissions.value.areas[a])
    ensures forall g, x :: HasGroup(Reparsed(c, sets, t).value.uiPermissions, g, x) <==>
      GroupImplies(c, roleData.uiPermissions.groups, g, x)
  {
    EditedAreas(c, roleData, roleState, t);
    ReparsedExtends(c, sets, roleData, roleState, t);
    var init := InitialAccu(c).uiPermissions;
    assert forall a, x :: a in init.areas ==> x !in init.areas[a];
    assert forall g, x :: !HasGroup(init, g, x);
  }

  /**
   * As written, a `groups` set implied both for `ALL_DEVICES` and for another
   * group `g` is sent once, unscoped, and the parse grants its value to
   * `ALL_DEVICES` only: `g` loses a value its selection implies.
   */
  lemma MixedScopeLosesGroup(c: Catalog, sets: map<SetName, PermissionSet>, roleData: RoleData, roleState: Option<Role>,
                             t: TransformedRole, n: SetName, g: GroupName)
    requires ValidCatalog(c) && RoundTripSets(c, sets)
    requires TransformRole(c, roleData, roleState) == Some(t)
    requires Selects(c, roleData.uiPermissions.groups, n, c.allDevices)
    requires Selects(c, roleData.uiPermissions.groups, n, g) && g != c.allDevices
    ensures GroupPermissionOf(c.permissions, n).Some?
    ensures GroupImplies(c, roleData.uiPermissions.groups, g, GroupPermissionOf(c.permissions, n).value)
    ensures Reparsed(c, sets, t).Some?
    ensures !HasGroup(Reparsed(c, sets, t).value.uiPermissions, g, GroupPermissionOf(c.permissions, n).value)
  {
    var selections := roleData.uiPermissions.groups;
    SelectsBacked(c, sets, selections, n, g);
    var v := GroupPermissionOf(c.permissions, n).value;
    TransformRoleSpec(c, roleData, roleState);
    ReparsedExtends(c, sets, roleData, roleState, t);
    var basic := ScopedRef(c.basicSet, None);
    var areaRefs := AreaStep(c, c.areaNames, roleData.uiPermissions.areas).value.0;
    var groupRefs := GroupRefs(c, selections).value;
    assert t.permissionSetsWithScope == [basic] + areaRefs + groupRefs;
    forall r | r in t.permissionSetsWithScope ensures !GroupGrant(c, sets, r, g, v) {
      if r in areaRefs {
        AreaRefGrants(c, sets, roleData.uiPermissions.areas, areaRefs, r);
      } else if r in groupRefs {
        GroupRefGrants(c, sets, selections, groupRefs, r);
        if GroupPermissionOf(c.permissions, r.name) == Some(v) {
          assert r.name == n;
        }
      }
    }
    assert !HasGroup(InitialAccu(c).uiPermissions, g, v);
  }
}

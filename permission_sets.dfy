/**
 * Permission sets: `mapGroupPermissionSet` (src/js/actions/userActions.js:305-308)
 * and the result-building reduce of `getPermissionSets` (lines 380-403).
 */
module PermissionSets {
  import opened Wrappers
  import opened Lists
  import opened PermissionModel
  import opened PermissionMerge

  /**
   * A permission set as kept in `permissionSetsById`. `isCustom` is never sent
   * by the server; an undefined flag is `false` here.
   */
  datatype PermissionSet = PermissionSet(
    name: SetName,
    supportedScopeTypes: Option<seq<string>>,
    permissions: seq<CustomPermission>,
    isCustom: bool,
    result: Option<UiPermissions>)

  /** A permission set as the server sends it; absent fields are `None`. */
  datatype ServerSet = ServerSet(
    name: SetName,
    supportedScopeTypes: Option<seq<string>>,
    permissions: Option<seq<CustomPermission>>)

  /**
   * `Object.values(uiPermissionsById).find(p => p.permissionSets.groups === name).value`:
   * the value of the first matching entry, `None` when no entry matches and
   * reading `.value` throws.
   */
  function GroupPermissionOf(defs: seq<PermissionDefinition>, setName: SetName): (r: Option<Value>)
    ensures r.Some? ==> exists i ::
      && 0 <= i < |defs| && defs[i].groupSet == Some(setName) && defs[i].value == r.value
      && forall j :: 0 <= j < i ==> defs[j].groupSet != Some(setName)
    ensures r.None? <==> forall i :: 0 <= i < |defs| ==> defs[i].groupSet != Some(setName)
  {
    if defs == [] then None
    else if defs[0].groupSet == Some(setName) then Some(defs[0].value)
    else
      var r := GroupPermissionOf(defs[1..], setName);
      assert forall i :: 1 <= i < |defs| ==> defs[i] == defs[1..][i - 1];
      r
  }

  /** The reduce of line 307: `combineGroupPermissions(accu, { [groupName]: [value] })` for every name in turn. */
  function GrantToGroups(v: Value, groupNames: seq<GroupName>, existing: GroupPermissions): GroupPermissions {
    if groupNames == [] then existing
    else
      var last := groupNames[|groupNames| - 1];
      CombineGroups(GrantToGroups(v, groupNames[..|groupNames| - 1], existing), map[last := [v]])
  }

  /** `mapGroupPermissionSet(setName, groupNames, existing)`. */
  function MapGroupPermissionSet(c: Catalog, setName: SetName, groupNames: seq<GroupName>, existing: GroupPermissions): Option<GroupPermissions> {
    var v := GroupPermissionOf(c.permissions, setName);
    if v.None? then None else Some(GrantToGroups(v.value, groupNames, existing))
  }

  /**
   * Every named group gets the value in front of what it had, once; every
   * other group is untouched; no group is dropped.
   */
  lemma GrantToGroupsSpec(v: Value, groupNames: seq<GroupName>, existing: GroupPermissions)
    ensures forall g :: g in GrantToGroups(v, groupNames, existing) <==> g in existing || g in groupNames
    ensures forall g :: g in groupNames ==> GrantToGroups(v, groupNames, existing)[g] == Dedup([v] + Get(existing, g))
    ensures forall g :: g in existing && g !in groupNames ==> GrantToGroups(v, groupNames, existing)[g] == existing[g]
  {
    GrantToGroupsKeys(v, groupNames, existing);
    GrantToGroupsNamed(v, groupNames, existing);
    GrantToGroupsOthers(v, groupNames, existing);
  }

  lemma {:induction false} GrantToGroupsKeys(v: Value, groupNames: seq<GroupName>, existing: GroupPermissions)
    ensures forall g :: g in GrantToGroups(v, groupNames, existing) <==> g in existing || g in groupNames
  {
    if groupNames != [] {
      var init := groupNames[..|groupNames| - 1];
      var last := groupNames[|groupNames| - 1];
      var prev := GrantToGroups(v, init, existing);
      GrantToGroupsKeys(v, init, existing);
      GrantOne(prev, v, last);
      assert GrantToGroups(v, groupNames, existing) == CombineGroups(prev, map[last := [v]]);
      forall g ensures g in groupNames <==> g in init || g == last {
        assert groupNames == init + [last];
      }
    }
  }

  lemma {:induction false} GrantToGroupsNamed(v: Value, groupNames: seq<GroupName>, existing: GroupPermissions)
    ensures forall g :: g in groupNames ==>
      g in GrantToGroups(v, groupNames, existing) && GrantToGroups(v, groupNames, existing)[g] == Dedup([v] + Get(existing, g))
  {
    if groupNames != [] {
      var init := groupNames[..|groupNames| - 1];
      var last := groupNames[|groupNames| - 1];
      var prev := GrantToGroups(v, init, existing);
      var next := GrantToGroups(v, groupNames, existing);
      assert next == CombineGroups(prev, map[last := [v]]);
      GrantOne(prev, v, last);
      GrantToGroupsNamed(v, init, existing);
      assert next[last] == Dedup([v] + Get(existing, last)) by {
        if last in init {
          GrantTwice(v, Get(existing, last));
        } else {
          LastGroupUntouched(v, init, existing, last);
        }
      }
      forall g | g in groupNames ensures g in next && next[g] == Dedup([v] + Get(existing, g)) {
        assert groupNames == init + [last];
        if g != last {
          assert g in init;
        }
      }
    }
  }

  /** A group not named so far still holds what it had before the reduce. */
  lemma LastGroupUntouched(v: Value, init: seq<GroupName>, existing: GroupPermissions, g: GroupName)
    requires g !in init
    ensures Get(GrantToGroups(v, init, existing), g) == Get(existing, g)
  {
    GrantToGroupsOthers(v, init, existing);
    GrantToGroupsKeys(v, init, existing);
  }

  lemma {:induction false} GrantToGroupsOthers(v: Value, groupNames: seq<GroupName>, existing: GroupPermissions)
    ensures forall g :: g in existing && g !in groupNames ==>
      g in GrantToGroups(v, groupNames, existing) && GrantToGroups(v, groupNames, existing)[g] == existing[g]
  {
    if groupNames != [] {
      var init := groupNames[..|groupNames| - 1];
      var last := groupNames[|groupNames| - 1];
      var prev := GrantToGroups(v, init, existing);
      GrantToGroupsOthers(v, init, existing);
      GrantOne(prev, v, last);
      assert GrantToGroups(v, groupNames, existing) == CombineGroups(prev, map[last := [v]]);
      forall g | g !in groupNames ensures g !in init && g != last {
        assert groupNames == init + [last];
      }
    }
  }

  /** One group granted into an empty map holds just the value. */
  lemma GrantSingle(v: Value, g: GroupName)
    ensures GrantToGroups(v, [g], map[]) == map[g := [v]]
  {
    assert [g][..0] == [];
    var r := CombineGroups(map[], map[g := [v]]);
    assert [v] + [] == [v];
    assert Dedup([v]) == [v] by {
      assert [v][..0] == [];
    }
    assert r.Keys == {g};
    MapsAgree(r, map[g := [v]]);
  }

  /** Granting the same value twice is granting it once. */
  lemma GrantTwice(v: Value, e: seq<Value>)
    ensures Dedup([v] + Dedup([v] + e)) == Dedup([v] + e)
  {
    calc {
      Dedup([v] + Dedup([v] + e));
      { DedupDedupRight([v], [v] + e); }
      Dedup([v] + ([v] + e));
      { DedupRepeatHead(v, [v] + e); }
      Dedup([v] + e);
    }
  }

  /** One step of the reduce: only the named group changes. */
  lemma GrantOne(prev: GroupPermissions, v: Value, g: GroupName)
    ensures CombineGroups(prev, map[g := [v]]).Keys == prev.Keys + {g}
    ensures CombineGroups(prev, map[g := [v]])[g] == Dedup([v] + Get(prev, g))
    ensures forall h :: h in prev && h != g ==> CombineGroups(prev, map[g := [v]])[h] == prev[h]
  {
  }

  /** Whether catalog entry `item` backs set `name` in area `a`. */
  predicate Backs(item: PermissionDefinition, a: Area, name: SetName) {
    a in item.areaSets && item.areaSets[a] == name
  }

  /** One step of the reduce of lines 385-392; `None` where `[...collector[area]]` spreads `undefined`. */
  function AddItem(m: map<Area, seq<Value>>, item: PermissionDefinition, name: SetName): Option<map<Area, seq<Value>>> {
    if exists a :: a in item.areaSets && Backs(item, a, name) && a !in m then None
    else Some(map a | a in m :: if Backs(item, a, name) then m[a] + [item.value] else m[a])
  }

  /** The flat areas of `permissionSetObject.result`: the reduce over `items`, starting from the empty record. */
  function ResultAreas(c: Catalog, items: seq<PermissionDefinition>, name: SetName): Option<map<Area, seq<Value>>> {
    if items == [] then Some(EmptyUiPermissions(c).areas)
    else
      var prev := ResultAreas(c, items[..|items| - 1], name);
      if prev.None? then None else AddItem(prev.value, items[|items| - 1], name)
  }

  /** The values of the catalog entries backing `name` in area `a`, in catalog order. */
  function BackedValues(items: seq<PermissionDefinition>, a: Area, name: SetName): seq<Value> {
    if items == [] then []
    else
      var last := items[|items| - 1];
      BackedValues(items[..|items| - 1], a, name) + (if Backs(last, a, name) then [last.value] else [])
  }

  /** Every area an entry backs `name` in is an area of `emptyUiPermissions`. */
  ghost predicate Lands(c: Catalog, items: seq<PermissionDefinition>, name: SetName) {
    forall i, a :: 0 <= i < |items| && Backs(items[i], a, name) ==> a in c.areaNames
  }

  /**
   * The result is computed exactly when every area backing the name is an
   * area of the empty record, and then each area lists, in catalog order, the
   * values of the entries backing the set there.
   */
  lemma {:induction false} ResultAreasSpec(c: Catalog, items: seq<PermissionDefinition>, name: SetName)
    ensures ResultAreas(c, items, name).Some? <==> Lands(c, items, name)
    ensures ResultAreas(c, items, name).Some? ==>
      var r := ResultAreas(c, items, name).value;
      r.Keys == (set a | a in c.areaNames) && forall a :: a in r ==> r[a] == BackedValues(items, a, name)
  {
    if items != [] {
      var init := items[..|items| - 1];
      var last := items[|items| - 1];
      ResultAreasSpec(c, init, name);
      assert forall i :: 0 <= i < |init| ==> init[i] == items[i];
      if Lands(c, items, name) {
        assert Lands(c, init, name);
        assert forall a :: Backs(last, a, name) ==> a in c.areaNames by {
          forall a | Backs(last, a, name) ensures a in c.areaNames {
            assert Backs(items[|items| - 1], a, name);
          }
        }
      }
      if ResultAreas(c, items, name).Some? {
        var prev := ResultAreas(c, init, name).value;
        forall i, a | 0 <= i < |items| && Backs(items[i], a, name) ensures a in c.areaNames {
          if i == |items| - 1 {
            assert a in prev;
          } else {
            assert Backs(init[i], a, name);
          }
        }
      }
    }
  }

  /** A failed step fails the whole reduce. */
  lemma {:induction false} ResultAreasNoneStays(c: Catalog, items: seq<PermissionDefinition>, name: SetName, i: nat)
    requires i <= |items| && ResultAreas(c, items[..i], name).None?
    ensures ResultAreas(c, items, name).None?
    decreases |items| - i
  {
    if i < |items| {
      assert items[..i + 1][..i] == items[..i];
      ResultAreasNoneStays(c, items, name, i + 1);
    } else {
      assert items[..i] == items;
    }
  }

  /**
   * The reduce of lines 383-395, which appends to `collector[area]` for every
   * area whose backing set has this name.
   */
  method ComputeResultAreas(c: Catalog, name: SetName) returns (result: Option<map<Area, seq<Value>>>)
    ensures result == ResultAreas(c, c.permissions, name)
  {
    var accu := EmptyUiPermissions(c).areas;
    var i := 0;
    while i < |c.permissions|
      invariant 0 <= i <= |c.permissions|
      invariant ResultAreas(c, c.permissions[..i], name) == Some(accu)
    {
      assert c.permissions[..i + 1][..i] == c.permissions[..i];
      var next := AddItemAreas(accu, c.permissions[i], name);
      if next.None? {
        ResultAreasNoneStays(c, c.permissions, name, i + 1);
        return None;
      }
      accu := next.value;
      i := i + 1;
    }
    assert c.permissions[..i] == c.permissions;
    result := Some(accu);
  }

  /** The inner reduce of lines 387-392 over the areas of one catalog entry. */
  method AddItemAreas(accu: map<Area, seq<Value>>, item: PermissionDefinition, name: SetName)
    returns (r: Option<map<Area, seq<Value>>>)
    ensures r == AddItem(accu, item, name)
  {
    var collector := accu;
    var pending := item.areaSets.Keys;
    while pending != {}
      invariant pending <= item.areaSets.Keys
      invariant collector.Keys == accu.Keys
      invariant forall a :: a in item.areaSets && a !in pending && Backs(item, a, name) ==> a in accu
      invariant forall a :: a in collector ==>
        collector[a] == if Backs(item, a, name) && a !in pending then accu[a] + [item.value] else accu[a]
      decreases pending
    {
      var area :| area in pending;
      if item.areaSets[area] == name {
        if area !in collector {
          assert Backs(item, area, name) && area !in accu;
          return None;
        }
        collector := collector[area := collector[area] + [item.value]];
      }
      pending := pending - {area};
    }
    MapsAgree(collector, map a | a in accu :: if Backs(item, a, name) then accu[a] + [item.value] else accu[a]);
    r := Some(collector);
  }

  /** The set declares the group scope: `supported_scope_types?.includes(groups.scope)`. */
  predicate SupportsGroupScope(c: Catalog, supportedScopeTypes: Option<seq<string>>) {
    supportedScopeTypes.Some? && c.groupScope in supportedScopeTypes.value
  }

  /**
   * `permissionSetObject.result`: the flat areas, plus an `ALL_DEVICES` grant
   * in `groups` when the set supports the group scope (otherwise the empty
   * record's `groups`).
   */
  function SetResult(c: Catalog, name: SetName, supportedScopeTypes: Option<seq<string>>): Option<UiPermissions> {
    var areas := ResultAreas(c, c.permissions, name);
    if areas.None? then None
    else if SupportsGroupScope(c, supportedScopeTypes) then
      var groups := MapGroupPermissionSet(c, name, [c.allDevices], map[]);
      if groups.None? then None else Some(UiPermissions(areas.value, groups))
    else Some(UiPermissions(areas.value, Some(map[])))
  }

  /**
   * A set supporting the group scope grants its `groups` value to
   * `ALL_DEVICES` and to no other group; any other set has an empty `groups`
   * map. Setting up the grant fails when no entry backs the set under `groups`.
   */
  lemma SetResultGroups(c: Catalog, name: SetName, supportedScopeTypes: Option<seq<string>>)
    requires ResultAreas(c, c.permissions, name).Some?
    ensures SupportsGroupScope(c, supportedScopeTypes) ==>
      match GroupPermissionOf(c.permissions, name)
      case None => SetResult(c, name, supportedScopeTypes).None?
      case Some(v) =>
        SetResult(c, name, supportedScopeTypes) ==
          Some(UiPermissions(ResultAreas(c, c.permissions, name).value, Some(map[c.allDevices := [v]])))
    ensures !SupportsGroupScope(c, supportedScopeTypes) ==>
      SetResult(c, name, supportedScopeTypes).Some? && SetResult(c, name, supportedScopeTypes).value.groups == Some(map[])
  {
    if SupportsGroupScope(c, supportedScopeTypes) && GroupPermissionOf(c.permissions, name).Some? {
      var v := GroupPermissionOf(c.permissions, name).value;
      GrantSingle(v, c.allDevices);
    }
  }

  /**
   * A name that no catalog entry uses yields the empty record: unknown sets
   * are accepted and grant nothing.
   */
  lemma UnknownSetGrantsNothing(c: Catalog, name: SetName, supportedScopeTypes: Option<seq<string>>)
    requires forall i, a :: 0 <= i < |c.permissions| ==> !Backs(c.permissions[i], a, name)
    requires !SupportsGroupScope(c, supportedScopeTypes)
    ensures SetResult(c, name, supportedScopeTypes) == Some(EmptyUiPermissions(c))
  {
    ResultAreasSpec(c, c.permissions, name);
    var r := ResultAreas(c, c.permissions, name).value;
    forall a | a in r ensures r[a] == [] {
      NothingBacked(c.permissions, a, name);
    }
    MapsAgree(r, EmptyUiPermissions(c).areas);
  }

  lemma {:induction false} NothingBacked(items: seq<PermissionDefinition>, a: Area, name: SetName)
    requires forall i :: 0 <= i < |items| ==> !Backs(items[i], a, name)
    ensures BackedValues(items, a, name) == []
  {
    if items != [] {
      NothingBacked(items[..|items| - 1], a, name);
    }
  }

  /** `{ ...permissionSetState, ...permissionSet }` with the recomputed `result`. */
  function EnrichSet(c: Catalog, state: map<SetName, PermissionSet>, s: ServerSet): Option<PermissionSet> {
    var stored := if s.name in state then state[s.name] else PermissionSet(s.name, None, [], false, None);
    var scopes := if s.supportedScopeTypes.Some? then s.supportedScopeTypes else stored.supportedScopeTypes;
    var permissions := if s.permissions.Some? then s.permissions.value else stored.permissions;
    var result := SetResult(c, s.name, scopes);
    if result.None? then None else Some(PermissionSet(s.name, scopes, permissions, stored.isCustom, result))
  }

  /** The reduce of lines 381-401 over the received sets, starting from the stored `permissionSetsById`. */
  function ReceivePermissionSets(c: Catalog, state: map<SetName, PermissionSet>, data: seq<ServerSet>): Option<map<SetName, PermissionSet>> {
    if data == [] then Some(state)
    else
      var prev := ReceivePermissionSets(c, state, data[..|data| - 1]);
      if prev.None? then None
      else
        var enriched := EnrichSet(c, prev.value, data[|data| - 1]);
        if enriched.None? then None else Some(prev.value[data[|data| - 1].name := enriched.value])
  }

  /** The loop of lines 381-401: every received set is enriched and stored under its name. */
  method StorePermissionSets(c: Catalog, state: map<SetName, PermissionSet>, data: seq<ServerSet>)
    returns (permissionSets: Option<map<SetName, PermissionSet>>)
    ensures permissionSets == ReceivePermissionSets(c, state, data)
  {
    var accu := state;
    var i := 0;
    while i < |data|
      invariant 0 <= i <= |data|
      invariant ReceivePermissionSets(c, state, data[..i]) == Some(accu)
    {
      assert data[..i + 1][..i] == data[..i];
      var enriched := EnrichPermissionSet(c, accu, data[i]);
      if enriched.None? {
        ReceiveNoneStays(c, state, data, i + 1);
        return None;
      }
      accu := accu[data[i].name := enriched.value];
      i := i + 1;
    }
    assert data[..i] == data;
    permissionSets := Some(accu);
  }

  /** The body of lines 381-399 for one received set. */
  method EnrichPermissionSet(c: Catalog, accu: map<SetName, PermissionSet>, permissionSet: ServerSet)
    returns (r: Option<PermissionSet>)
    ensures r == EnrichSet(c, accu, permissionSet)
  {
    var stored := if permissionSet.name in accu then accu[permissionSet.name] else PermissionSet(permissionSet.name, None, [], false, None);
    var scopes := if permissionSet.supportedScopeTypes.Some? then permissionSet.supportedScopeTypes else stored.supportedScopeTypes;
    var permissions := if permissionSet.permissions.Some? then permissionSet.permissions.value else stored.permissions;
    var areas := ComputeResultAreas(c, permissionSet.name);
    var groups: Option<GroupPermissions> := Some(map[]);
    if areas.Some? && SupportsGroupScope(c, scopes) {
      groups := MapGroupPermissionSet(c, permissionSet.name, [c.allDevices], map[]);
    }
    if areas.None? || groups.None? {
      return None;
    }
    r := Some(PermissionSet(permissionSet.name, scopes, permissions, stored.isCustom, Some(UiPermissions(areas.value, groups))));
  }

  lemma {:induction false} ReceiveNoneStays(c: Catalog, state: map<SetName, PermissionSet>, data: seq<ServerSet>, i: nat)
    requires i <= |data| && ReceivePermissionSets(c, state, data[..i]).None?
    ensures ReceivePermissionSets(c, state, data).None?
    decreases |data| - i
  {
    if i < |data| {
      assert data[..i + 1][..i] == data[..i];
      ReceiveNoneStays(c, state, data, i + 1);
    } else {
      assert data[..i] == data;
    }
  }

  /** The names of the received sets. */
  function Names(data: seq<ServerSet>): set<SetName> {
    if data == [] then {} else Names(data[..|data| - 1]) + {data[|data| - 1].name}
  }

  lemma {:induction false} NamesSpec(data: seq<ServerSet>)
    ensures forall n :: n in Names(data) <==> exists i :: 0 <= i < |data| && data[i].name == n
  {
    if data != [] {
      var init := data[..|data| - 1];
      NamesSpec(init);
      assert forall i :: 0 <= i < |init| ==> init[i] == data[i];
    }
  }

  /**
   * Stored sets the server did not send are kept as they were; every received
   * set is stored under its name with the result computed for it.
   */
  lemma {:induction false} ReceivePermissionSetsSpec(c: Catalog, state: map<SetName, PermissionSet>, data: seq<ServerSet>)
    requires ReceivePermissionSets(c, state, data).Some?
    ensures var r := ReceivePermissionSets(c, state, data).value;
      && r.Keys == state.Keys + Names(data)
      && (forall n :: n in state && n !in Names(data) ==> r[n] == state[n])
      && (forall n :: n in Names(data) ==>
            (r[n].name == n && r[n].result == SetResult(c, n, r[n].supportedScopeTypes)))
  {
    if data != [] {
      var init := data[..|data| - 1];
      ReceivePermissionSetsSpec(c, state, init);
    }
  }
}

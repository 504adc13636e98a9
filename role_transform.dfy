/**
 * UI role edits to server references: `deriveImpliedAreaPermissions`,
 * `transformGroupRoleDataToScopedPermissionsSets` and `transformRoleDataToRole`
 * (src/js/actions/userActions.js:420-500).
 */
module RoleTransform {
  import opened Wrappers
  import opened Lists
  import opened PermissionModel

  /** `uiPermissionsByArea[area].uiPermissions`, the `groups` area included; `None` for an unknown area. */
  function AreaPermissionList(c: Catalog, area: string): Option<seq<PermissionDefinition>> {
    if area == GroupsArea then Some(c.groupPermissions)
    else
      var a: Area := area;
      if a in c.areas then Some(c.areas[a].uiPermissions) else None
  }

  /**
   * The first reduce of `deriveImpliedAreaPermissions`: the highest level
   * among the selected values, starting from 1; `None` when a selected value
   * is not in `uiPermissionsById`.
   */
  function HighestLevel(c: Catalog, selected: seq<Value>): Option<int> {
    if selected == [] then Some(1)
    else
      var prev := HighestLevel(c, selected[..|selected| - 1]);
      var current := Lookup(c, selected[|selected| - 1]);
      if prev.None? || current.None? then None
      else if current.value.permissionLevel > prev.value then Some(current.value.permissionLevel)
      else prev
  }

  /** The definitions of an area that are implied: strictly below the highest level, or selected. */
  function ImpliedValues(defs: seq<PermissionDefinition>, highest: int, selected: seq<Value>): seq<Value> {
    if defs == [] then []
    else
      var current := defs[|defs| - 1];
      ImpliedValues(defs[..|defs| - 1], highest, selected) +
        (if current.permissionLevel < highest || current.value in selected then [current.value] else [])
  }

  /** `deriveImpliedAreaPermissions(area, areaPermissions)`. */
  function DeriveImplied(c: Catalog, area: string, selected: seq<Value>): Option<seq<Value>> {
    var highest := HighestLevel(c, selected);
    var defs := AreaPermissionList(c, area);
    if highest.None? || defs.None? then None else Some(ImpliedValues(defs.value, highest.value, selected))
  }

  /** The two reduces of lines 421-430: a running maximum, then a filtered push over the area's catalog list. */
  method DeriveImpliedAreaPermissions(c: Catalog, area: string, areaPermissions: seq<Value>) returns (r: Option<seq<Value>>)
    ensures r == DeriveImplied(c, area, areaPermissions)
  {
    var highest := 1;
    var i := 0;
    while i < |areaPermissions|
      invariant 0 <= i <= |areaPermissions|
      invariant HighestLevel(c, areaPermissions[..i]) == Some(highest)
    {
      assert areaPermissions[..i + 1][..i] == areaPermissions[..i];
      var current := Lookup(c, areaPermissions[i]);
      if current.None? {
        HighestNoneStays(c, areaPermissions, i + 1);
        return None;
      }
      if current.value.permissionLevel > highest {
        highest := current.value.permissionLevel;
      }
      i := i + 1;
    }
    assert areaPermissions[..i] == areaPermissions;
    var defs := AreaPermissionList(c, area);
    if defs.None? {
      return None;
    }
    var permissions := [];
    var j := 0;
    while j < |defs.value|
      invariant 0 <= j <= |defs.value|
      invariant permissions == ImpliedValues(defs.value[..j], highest, areaPermissions)
    {
      assert defs.value[..j + 1][..j] == defs.value[..j];
      var current := defs.value[j];
      if current.permissionLevel < highest || current.value in areaPermissions {
        permissions := permissions + [current.value];
      }
      j := j + 1;
    }
    assert defs.value[..j] == defs.value;
    r := Some(permissions);
  }

  lemma {:induction false} HighestNoneStays(c: Catalog, selected: seq<Value>, i: nat)
    requires i <= |selected| && HighestLevel(c, selected[..i]).None?
    ensures HighestLevel(c, selected).None?
    decreases |selected| - i
  {
    if i < |selected| {
      assert selected[..i + 1][..i] == selected[..i];
      HighestNoneStays(c, selected, i + 1);
    } else {
      assert selected[..i] == selected;
    }
  }

  /**
   * The highest level is computed exactly when every selected value is known;
   * it is at least 1, bounds every selected level, and is 1 or the level of a
   * selected value.
   */
  lemma {:induction false} HighestLevelSpec(c: Catalog, selected: seq<Value>)
    ensures HighestLevel(c, selected).Some? <==> Known(c, selected)
    ensures HighestLevel(c, selected).Some? ==>
      var h := HighestLevel(c, selected).value;
      && h >= 1
      && (forall i :: 0 <= i < |selected| ==> Lookup(c, selected[i]).value.permissionLevel <= h)
      && (h == 1 || exists i :: 0 <= i < |selected| && Lookup(c, selected[i]).value.permissionLevel == h)
  {
    if selected != [] {
      var init := selected[..|selected| - 1];
      HighestLevelSpec(c, init);
      assert forall i :: 0 <= i < |init| ==> init[i] == selected[i];
      if HighestLevel(c, selected).Some? {
        var h := HighestLevel(c, selected).value;
        var hp := HighestLevel(c, init).value;
        if h != 1 && h == hp {
          var i :| 0 <= i < |init| && Lookup(c, init[i]).value.permissionLevel == hp;
          assert Lookup(c, selected[i]).value.permissionLevel == h;
        }
      }
    }
  }

  /**
   * A catalog value is implied exactly when it is selected or its level is
   * strictly below the highest selected level.
   */
  lemma {:induction false} ImpliedValuesSpec(defs: seq<PermissionDefinition>, highest: int, selected: seq<Value>)
    ensures forall x :: x in ImpliedValues(defs, highest, selected) <==>
      exists j :: 0 <= j < |defs| && defs[j].value == x && (defs[j].permissionLevel < highest || x in selected)
  {
    if defs != [] {
      var init := defs[..|defs| - 1];
      ImpliedValuesSpec(init, highest, selected);
      assert forall j :: 0 <= j < |init| ==> init[j] == defs[j];
      forall x | exists j :: 0 <= j < |defs| && defs[j].value == x && (defs[j].permissionLevel < highest || x in selected)
        ensures x in ImpliedValues(defs, highest, selected)
      {
        var j :| 0 <= j < |defs| && defs[j].value == x && (defs[j].permissionLevel < highest || x in selected);
        if j < |init| {
          assert init[j].value == x;
        }
      }
    }
  }

  /** With nothing selected only the entries of level below 1 are implied. */
  lemma NothingSelected(c: Catalog, area: string)
    requires AreaPermissionList(c, area).Some?
    ensures DeriveImplied(c, area, []).Some?
    ensures forall x :: x in DeriveImplied(c, area, []).value <==>
      exists j :: 0 <= j < |AreaPermissionList(c, area).value| &&
        AreaPermissionList(c, area).value[j].value == x && AreaPermissionList(c, area).value[j].permissionLevel < 1
  {
    ImpliedValuesSpec(AreaPermissionList(c, area).value, 1, []);
  }

  /** One group's selection in the role editor: `{ group, uiPermissions }`. */
  datatype GroupSelection = GroupSelection(group: GroupName, uiPermissions: seq<Value>)

  /** `uiPermissionsById[value].permissionSets.groups`; `None` where the entry or its `groups` set is missing. */
  function GroupSetOf(c: Catalog, v: Value): Option<SetName> {
    var d := Lookup(c, v);
    if d.None? then None else d.value.groupSet
  }

  /** `groupAccu`: permission-set names in insertion order, each with the groups collected for it. */
  type GroupAccu = seq<(SetName, seq<GroupName>)>

  /** The position of `name` in the accumulator, if present. */
  function IndexOfName(accu: GroupAccu, name: SetName): (r: Option<nat>)
    ensures r.Some? ==> r.value < |accu| && accu[r.value].0 == name
    ensures r.None? ==> forall k :: 0 <= k < |accu| ==> accu[k].0 != name
  {
    if accu == [] then None
    else if accu[|accu| - 1].0 == name then Some(|accu| - 1)
    else IndexOfName(accu[..|accu| - 1], name)
  }

  /** Appending `group` to the entry of `name`, or adding the entry at the end (lines 440-445). */
  function AddGroup(accu: GroupAccu, name: SetName, group: GroupName): GroupAccu {
    var k := IndexOfName(accu, name);
    if k.Some? then accu[k.value := (name, accu[k.value].1 + [group])] else accu + [(name, [group])]
  }

  /** The (set name, group) pairs lines 437-447 record, in order; `None` where a lookup throws. */
  function GroupPairs(c: Catalog, selections: seq<GroupSelection>): Option<seq<(SetName, GroupName)>> {
    if selections == [] then Some([])
    else
      var prev := GroupPairs(c, selections[..|selections| - 1]);
      var selection := selections[|selections| - 1];
      var implied := DeriveImplied(c, GroupsArea, selection.uiPermissions);
      if prev.None? || implied.None? then None
      else
        var names := SetNames(c, implied.value);
        if names.None? then None else Some(prev.value + Tag(names.value, selection.group))
  }

  /** The `groups` permission-set name of each value. */
  function SetNames(c: Catalog, values: seq<Value>): Option<seq<SetName>> {
    if values == [] then Some([])
    else
      var prev := SetNames(c, values[..|values| - 1]);
      var name := GroupSetOf(c, values[|values| - 1]);
      if prev.None? || name.None? then None else Some(prev.value + [name.value])
  }

  function Tag(names: seq<SetName>, group: GroupName): (r: seq<(SetName, GroupName)>)
    ensures |r| == |names| && forall i :: 0 <= i < |r| ==> r[i] == (names[i], group)
  {
    if names == [] then [] else [(names[0], group)] + Tag(names[1..], group)
  }

  /** Folding the pairs into the accumulator. */
  function Accumulate(accu: GroupAccu, pairs: seq<(SetName, GroupName)>): GroupAccu {
    if pairs == [] then accu
    else AddGroup(Accumulate(accu, pairs[..|pairs| - 1]), pairs[|pairs| - 1].0, pairs[|pairs| - 1].1)
  }

  /** The `map` of lines 449-454: a set holding `ALL_DEVICES` is unscoped, any other keeps its groups once each. */
  function ScopedRefs(c: Catalog, accu: GroupAccu): (r: seq<ScopedRef>)
    ensures |r| == |accu|
  {
    if accu == [] then []
    else
      var (name, value) := accu[0];
      [if c.allDevices in value then ScopedRef(name, None) else ScopedRef(name, Some(Scope(c.groupScope, Dedup(value))))]
        + ScopedRefs(c, accu[1..])
  }

  /** `transformGroupRoleDataToScopedPermissionsSets(areaPermissions)`. */
  function GroupRefs(c: Catalog, selections: seq<GroupSelection>): Option<seq<ScopedRef>> {
    var pairs := GroupPairs(c, selections);
    if pairs.None? then None else Some(ScopedRefs(c, Accumulate([], pairs.value)))
  }

  /**
   * The nested reduce of lines 437-447, writing `groupAccu[name]` for every
   * implied value of every selection, then the final `map`.
   */
  method TransformGroupRoleDataToScopedPermissionsSets(c: Catalog, areaPermissions: seq<GroupSelection>)
    returns (r: Option<seq<ScopedRef>>)
    ensures r == GroupRefs(c, areaPermissions)
  {
    var groupAccu: GroupAccu := [];
    var i := 0;
    while i < |areaPermissions|
      invariant 0 <= i <= |areaPermissions|
      invariant GroupPairs(c, areaPermissions[..i]).Some?
      invariant groupAccu == Accumulate([], GroupPairs(c, areaPermissions[..i]).value)
    {
      assert areaPermissions[..i + 1][..i] == areaPermissions[..i];
      var groupWithPermissions := areaPermissions[i];
      var impliedPermissions := DeriveImpliedAreaPermissions(c, GroupsArea, groupWithPermissions.uiPermissions);
      if impliedPermissions.None? {
        GroupPairsNoneStays(c, areaPermissions, i + 1);
        return None;
      }
      var next := AddSetNames(c, groupAccu, impliedPermissions.value, groupWithPermissions.group);
      if next.None? {
        GroupPairsNoneStays(c, areaPermissions, i + 1);
        return None;
      }
      AccumulateAppend([], GroupPairs(c, areaPermissions[..i]).value,
        Tag(SetNames(c, impliedPermissions.value).value, groupWithPermissions.group));
      groupAccu := next.value;
      i := i + 1;
    }
    assert areaPermissions[..i] == areaPermissions;
    r := Some(ScopedRefs(c, groupAccu));
  }

  /** The inner reduce of lines 439-446 for one selection's implied values. */
  method AddSetNames(c: Catalog, accu: GroupAccu, values: seq<Value>, group: GroupName) returns (r: Option<GroupAccu>)
    ensures r.None? <==> SetNames(c, values).None?
    ensures r.Some? ==> r.value == Accumulate(accu, Tag(SetNames(c, values).value, group))
  {
    var groupAccu := accu;
    ghost var names: seq<SetName> := [];
    assert values[..0] == [];
    var j := 0;
    while j < |values|
      invariant 0 <= j <= |values|
      invariant SetNames(c, values[..j]) == Some(names)
      invariant groupAccu == Accumulate(accu, Tag(names, group))
    {
      var name := GroupSetOf(c, values[j]);
      if name.None? {
        SetNamesStopsAt(c, values, j);
        return None;
      }
      SetNamesStep(c, values, j, names, name.value);
      AccumulateTagStep(accu, names, name.value, group);
      groupAccu := AddGroup(groupAccu, name.value, group);
      names := names + [name.value];
      j := j + 1;
    }
    assert values[..j] == values;
    r := Some(groupAccu);
  }

  lemma SetNamesStopsAt(c: Catalog, values: seq<Value>, j: nat)
    requires j < |values| && GroupSetOf(c, values[j]).None?
    ensures SetNames(c, values).None?
  {
    assert values[..j + 1][..j] == values[..j];
    SetNamesNoneStays(c, values, j + 1);
  }

  lemma SetNamesStep(c: Catalog, values: seq<Value>, j: nat, names: seq<SetName>, name: SetName)
    requires j < |values| && SetNames(c, values[..j]) == Some(names) && GroupSetOf(c, values[j]) == Some(name)
    ensures SetNames(c, values[..j + 1]) == Some(names + [name])
  {
    assert values[..j + 1][..j] == values[..j];
  }

  lemma AccumulateTagStep(accu: GroupAccu, names: seq<SetName>, name: SetName, group: GroupName)
    ensures Accumulate(accu, Tag(names + [name], group)) == AddGroup(Accumulate(accu, Tag(names, group)), name, group)
  {
    var before := Tag(names, group);
    var after := Tag(names + [name], group);
    TagAppend(names, name, group);
    assert after[..|after| - 1] == before;
  }

  lemma {:induction false} AccumulateAppend(accu: GroupAccu, a: seq<(SetName, GroupName)>, b: seq<(SetName, GroupName)>)
    ensures Accumulate(accu, a + b) == Accumulate(Accumulate(accu, a), b)
  {
    if b != [] {
      AccumulateAppend(accu, a, b[..|b| - 1]);
      assert (a + b)[..|a + b| - 1] == a + b[..|b| - 1];
    } else {
      assert a + b == a;
    }
  }

  lemma TagAppend(names: seq<SetName>, name: SetName, group: GroupName)
    ensures Tag(names + [name], group) == Tag(names, group) + [(name, group)]
  {
  }

  lemma {:induction false} SetNamesNoneStays(c: Catalog, values: seq<Value>, j: nat)
    requires j <= |values| && SetNames(c, values[..j]).None?
    ensures SetNames(c, values).None?
    decreases |values| - j
  {
    if j < |values| {
      assert values[..j + 1][..j] == values[..j];
      SetNamesNoneStays(c, values, j + 1);
    } else {
      assert values[..j] == values;
    }
  }

  lemma {:induction false} GroupPairsNoneStays(c: Catalog, selections: seq<GroupSelection>, i: nat)
    requires 0 < i <= |selections| && GroupPairs(c, selections[..i - 1]).Some?
    requires DeriveImplied(c, GroupsArea, selections[i - 1].uiPermissions).None? ||
             SetNames(c, DeriveImplied(c, GroupsArea, selections[i - 1].uiPermissions).value).None?
    ensures GroupPairs(c, selections).None?
  {
    assert selections[..i][..i - 1] == selections[..i - 1];
    GroupPairsNoneFrom(c, selections, i);
  }

  lemma {:induction false} GroupPairsNoneFrom(c: Catalog, selections: seq<GroupSelection>, i: nat)
    requires i <= |selections| && GroupPairs(c, selections[..i]).None?
    ensures GroupPairs(c, selections).None?
    decreases |selections| - i
  {
    if i < |selections| {
      assert selections[..i + 1][..i] == selections[..i];
      GroupPairsNoneFrom(c, selections, i + 1);
    } else {
      assert selections[..i] == selections;
    }
  }

  /** The names of an accumulator are distinct. */
  ghost predicate DistinctNames(accu: GroupAccu) {
    forall i, j :: 0 <= i < j < |accu| ==> accu[i].0 != accu[j].0
  }

  /** The accumulator lists `g` under the set `n`. */
  ghost predicate Records(accu: GroupAccu, n: SetName, g: GroupName) {
    exists k :: 0 <= k < |accu| && accu[k].0 == n && g in accu[k].1
  }

  /**
   * Adding a group keeps the names distinct and in place, and records exactly
   * one more (set, group) pair.
   */
  lemma AddGroupSpec(accu: GroupAccu, name: SetName, group: GroupName)
    requires DistinctNames(accu)
    ensures DistinctNames(AddGroup(accu, name, group))
    ensures forall n, g :: Records(AddGroup(accu, name, group), n, g) <==> (n == name && g == group) || Records(accu, n, g)
    ensures forall k :: 0 <= k < |accu| ==> AddGroup(accu, name, group)[k].0 == accu[k].0
  {
    var r := AddGroup(accu, name, group);
    forall n, g ensures Records(r, n, g) <==> (n == name && g == group) || Records(accu, n, g) {
      if Records(r, n, g) {
        var k :| 0 <= k < |r| && r[k].0 == n && g in r[k].1;
        if k < |accu| && !(n == name && g == group) {
          assert accu[k].0 == n && g in accu[k].1;
        }
      }
      if Records(accu, n, g) {
        var k :| 0 <= k < |accu| && accu[k].0 == n && g in accu[k].1;
        assert r[k].0 == n && g in r[k].1;
      }
      if n == name && g == group {
        var k := IndexOfName(accu, name);
        if k.Some? {
          assert r[k.value].0 == n && g in r[k.value].1;
        } else {
          assert r[|accu|].0 == n && g in r[|accu|].1;
        }
      }
    }
  }

  /**
   * The accumulated entries have distinct names, and a set's entry lists a
   * group exactly when that (set, group) pair was recorded.
   */
  lemma {:induction false} AccumulateSpec(pairs: seq<(SetName, GroupName)>)
    ensures DistinctNames(Accumulate([], pairs))
    ensures forall n, g :: Records(Accumulate([], pairs), n, g) <==> (n, g) in pairs
  {
    if pairs != [] {
      var init := pairs[..|pairs| - 1];
      var last := pairs[|pairs| - 1];
      AccumulateSpec(init);
      AddGroupSpec(Accumulate([], init), last.0, last.1);
      assert pairs == init + [last];
      forall n, g ensures (n, g) in pairs <==> (n, g) in init || (n, g) == last {
      }
    }
  }

  /**
   * Every emitted reference names a distinct set; a set whose groups include
   * `ALL_DEVICES` is emitted unscoped, any other is scoped to the device-group
   * type with exactly its recorded groups, each once.
   */
  lemma ScopedRefsSpec(c: Catalog, pairs: seq<(SetName, GroupName)>, accu: GroupAccu)
    requires accu == Accumulate([], pairs)
    ensures forall i, j :: 0 <= i < j < |accu| ==> ScopedRefs(c, accu)[i].name != ScopedRefs(c, accu)[j].name
    ensures forall k :: 0 <= k < |accu| ==> ScopedRefs(c, accu)[k].name == accu[k].0
    ensures forall k :: 0 <= k < |accu| ==> (ScopedRefs(c, accu)[k].scope.None? <==> (accu[k].0, c.allDevices) in pairs)
    ensures forall k, g :: 0 <= k < |accu| && ScopedRefs(c, accu)[k].scope.Some? ==>
      && ScopedRefs(c, accu)[k].scope.value.scopeType == c.groupScope
      && NoDuplicates(ScopedRefs(c, accu)[k].scope.value.value)
      && (g in ScopedRefs(c, accu)[k].scope.value.value <==> (accu[k].0, g) in pairs)
  {
    AccumulateSpec(pairs);
    ScopedRefsAt(c, accu);
    var refs := ScopedRefs(c, accu);
    forall k | 0 <= k < |accu|
      ensures refs[k].name == accu[k].0
      ensures refs[k].scope.None? <==> (accu[k].0, c.allDevices) in pairs
      ensures refs[k].scope.Some? ==>
        && refs[k].scope.value.scopeType == c.groupScope
        && NoDuplicates(refs[k].scope.value.value)
        && (forall g :: g in refs[k].scope.value.value <==> (accu[k].0, g) in pairs)
    {
      EntryRef(c, pairs, accu, k, refs[k]);
    }
  }

  /** The reference emitted for one entry of the accumulator. */
  lemma EntryRef(c: Catalog, pairs: seq<(SetName, GroupName)>, accu: GroupAccu, k: nat, ref: ScopedRef)
    requires k < |accu| && DistinctNames(accu)
    requires forall n, g :: Records(accu, n, g) <==> (n, g) in pairs
    requires ref == if c.allDevices in accu[k].1 then ScopedRef(accu[k].0, None)
                    else ScopedRef(accu[k].0, Some(Scope(c.groupScope, Dedup(accu[k].1))))
    ensures ref.name == accu[k].0
    ensures ref.scope.None? <==> (accu[k].0, c.allDevices) in pairs
    ensures ref.scope.Some? ==>
      && ref.scope.value.scopeType == c.groupScope
      && NoDuplicates(ref.scope.value.value)
      && (forall g :: g in ref.scope.value.value <==> (accu[k].0, g) in pairs)
  {
    EntryGroups(accu, pairs, k);
    DedupSpec(accu[k].1);
  }

  /** The groups of one entry are exactly those recorded for its set. */
  lemma EntryGroups(accu: GroupAccu, pairs: seq<(SetName, GroupName)>, k: nat)
    requires k < |accu| && DistinctNames(accu)
    requires forall n, g :: Records(accu, n, g) <==> (n, g) in pairs
    ensures forall g :: g in accu[k].1 <==> (accu[k].0, g) in pairs
  {
    forall g ensures g in accu[k].1 <==> (accu[k].0, g) in pairs {
      if g in accu[k].1 {
        assert Records(accu, accu[k].0, g);
      }
      if (accu[k].0, g) in pairs {
        var m :| 0 <= m < |accu| && accu[m].0 == accu[k].0 && g in accu[m].1;
        assert m == k;
      }
    }
  }

  lemma {:induction false} ScopedRefsAt(c: Catalog, accu: GroupAccu)
    ensures forall k :: 0 <= k < |accu| ==>
      ScopedRefs(c, accu)[k] ==
        if c.allDevices in accu[k].1 then ScopedRef(accu[k].0, None)
        else ScopedRef(accu[k].0, Some(Scope(c.groupScope, Dedup(accu[k].1))))
  {
    if accu != [] {
      ScopedRefsAt(c, accu[1..]);
      forall k | 1 <= k < |accu| ensures ScopedRefs(c, accu)[k] == ScopedRefs(c, accu[1..])[k - 1] {
      }
    }
  }

  /** The role editor's data: per-area selections (absent where not an array) and the group selections. */
  datatype RoleSelection = RoleSelection(areas: map<Area, seq<Value>>, groups: seq<GroupSelection>)
  datatype RoleData = RoleData(name: string, description: Option<string>, uiPermissions: RoleSelection)

  /** What `transformRoleDataToRole` returns. */
  datatype TransformedRole = TransformedRole(permissionSetsWithScope: seq<ScopedRef>, role: Role)

  /**
   * The area reduce of lines 465-478 over `areas`: the implied values per
   * selected area and one unscoped reference per implied value.
   */
  function AreaStep(c: Catalog, areas: seq<Area>, selection: map<Area, seq<Value>>): Option<(seq<ScopedRef>, map<Area, seq<Value>>)> {
    if areas == [] then Some(([], map[]))
    else
      var prev := AreaStep(c, areas[..|areas| - 1], selection);
      var area := areas[|areas| - 1];
      if prev.None? then None
      else if area !in selection then prev
      else
        var implied := DeriveImplied(c, area, selection[area]);
        if implied.None? then None
        else
          var refs := AreaRefs(c, area, implied.value);
          if refs.None? then None
          else Some((prev.value.0 + refs.value, prev.value.1[area := implied.value]))
  }

  /** `{ name: uiPermissionsById[v].permissionSets[area] }` for each implied value; `None` where the lookup throws. */
  function AreaRefs(c: Catalog, area: Area, values: seq<Value>): Option<seq<ScopedRef>> {
    if values == [] then Some([])
    else
      var prev := AreaRefs(c, area, values[..|values| - 1]);
      var d := Lookup(c, values[|values| - 1]);
      if prev.None? || d.None? || area !in d.value.areaSets then None
      else Some(prev.value + [ScopedRef(d.value.areaSets[area], None)])
  }

  /** The `groups` map of the new role: the raw selection of every truthy group name, the last one winning. */
  function GroupsMap(selections: seq<GroupSelection>): GroupPermissions {
    if selections == [] then map[]
    else
      var last := selections[|selections| - 1];
      var prev := GroupsMap(selections[..|selections| - 1]);
      if last.group != "" then prev[last.group := last.uiPermissions] else prev
  }

  /**
   * The role of lines 488-498: `emptyRole` with the new name, the description
   * (falling back to the stored role's when falsy), and a full record of the
   * implied area values and the raw group selections.
   */
  function EditedRole(c: Catalog, roleData: RoleData, roleState: Option<Role>, roleUiPermissions: map<Area, seq<Value>>, groups: GroupPermissions): Role {
    var stateDescription := if roleState.Some? then roleState.value.description else "";
    var description := if roleData.description.Some? then roleData.description.value else stateDescription;
    var areas := map a | a in c.areaNames :: if a in roleUiPermissions then roleUiPermissions[a] else [];
    var e := c.emptyRole;
    Role(roleData.name, if description != "" then description else stateDescription,
         e.editable, e.isCustom, Some(UiPermissions(areas, Some(groups))), e.permissionSetsWithScope, e.permissions)
  }

  /** `transformRoleDataToRole(roleData, roleState)`; `roleState` is `None` when there is no stored role. */
  function TransformRole(c: Catalog, roleData: RoleData, roleState: Option<Role>): Option<TransformedRole> {
    var areaPart := AreaStep(c, c.areaNames, roleData.uiPermissions.areas);
    var groupPart := GroupRefs(c, roleData.uiPermissions.groups);
    if areaPart.None? || groupPart.None? then None
    else
      Some(TransformedRole(
        [ScopedRef(c.basicSet, None)] + areaPart.value.0 + groupPart.value,
        EditedRole(c, roleData, roleState, areaPart.value.1, GroupsMap(roleData.uiPermissions.groups))))
  }

  /**
   * `transformRoleDataToRole`: pushes the area references after `Basic`, then
   * the group references, and collects the raw group selections.
   */
  method TransformRoleDataToRole(c: Catalog, roleData: RoleData, roleState: Option<Role>) returns (r: Option<TransformedRole>)
    ensures r == TransformRole(c, roleData, roleState)
  {
    var permissionSetsWithScope := [ScopedRef(c.basicSet, None)];
    var areaPart := TransformAreas(c, roleData.uiPermissions.areas);
    if areaPart.None? {
      return None;
    }
    var (areaRefs, roleUiPermissions) := areaPart.value;
    permissionSetsWithScope := permissionSetsWithScope + areaRefs;
    var groupPermissions := TransformGroupRoleDataToScopedPermissionsSets(c, roleData.uiPermissions.groups);
    if groupPermissions.None? {
      return None;
    }
    permissionSetsWithScope := permissionSetsWithScope + groupPermissions.value;
    var groupsUiPermissions := CollectGroupSelections(roleData.uiPermissions.groups);
    r := Some(TransformedRole(permissionSetsWithScope, EditedRole(c, roleData, roleState, roleUiPermissions, groupsUiPermissions)));
  }

  /** The area reduce of lines 465-478. */
  method TransformAreas(c: Catalog, selection: map<Area, seq<Value>>) returns (r: Option<(seq<ScopedRef>, map<Area, seq<Value>>)>)
    ensures r == AreaStep(c, c.areaNames, selection)
  {
    var permissionSetsWithScope := [];
    var roleUiPermissions: map<Area, seq<Value>> := map[];
    assert c.areaNames[..0] == [];
    var i := 0;
    while i < |c.areaNames|
      invariant 0 <= i <= |c.areaNames|
      invariant AreaStep(c, c.areaNames[..i], selection) == Some((permissionSetsWithScope, roleUiPermissions))
    {
      assert c.areaNames[..i + 1][..i] == c.areaNames[..i];
      var area := c.areaNames[i];
      if area in selection {
        var impliedPermissions := DeriveImpliedAreaPermissions(c, area, selection[area]);
        if impliedPermissions.None? {
          AreaStepNoneStays(c, c.areaNames, selection, i + 1);
          return None;
        }
        var mappedPermissions := AreaRefs(c, area, impliedPermissions.value);
        if mappedPermissions.None? {
          AreaStepNoneStays(c, c.areaNames, selection, i + 1);
          return None;
        }
        roleUiPermissions := roleUiPermissions[area := impliedPermissions.value];
        permissionSetsWithScope := permissionSetsWithScope + mappedPermissions.value;
      }
      i := i + 1;
    }
    assert c.areaNames[..i] == c.areaNames;
    r := Some((permissionSetsWithScope, roleUiPermissions));
  }

  /** The group reduce of lines 481-486. */
  method CollectGroupSelections(groups: seq<GroupSelection>) returns (groupsUiPermissions: GroupPermissions)
    ensures groupsUiPermissions == GroupsMap(groups)
  {
    groupsUiPermissions := map[];
    var j := 0;
    while j < |groups|
      invariant 0 <= j <= |groups|
      invariant groupsUiPermissions == GroupsMap(groups[..j])
    {
      assert groups[..j + 1][..j] == groups[..j];
      if groups[j].group != "" {
        groupsUiPermissions := groupsUiPermissions[groups[j].group := groups[j].uiPermissions];
      }
      j := j + 1;
    }
    assert groups[..j] == groups;
  }

  lemma {:induction false} AreaStepNoneStays(c: Catalog, areas: seq<Area>, selection: map<Area, seq<Value>>, i: nat)
    requires i <= |areas| && AreaStep(c, areas[..i], selection).None?
    ensures AreaStep(c, areas, selection).None?
    decreases |areas| - i
  {
    if i < |areas| {
      assert areas[..i + 1][..i] == areas[..i];
      AreaStepNoneStays(c, areas, selection, i + 1);
    } else {
      assert areas[..i] == areas;
    }
  }

  /** Some selection names group `g`. */
  ghost predicate SelectsGroup(selections: seq<GroupSelection>, g: GroupName) {
    exists i :: 0 <= i < |selections| && selections[i].group == g
  }

  /** The last selection naming group `g` carries `values`. */
  ghost predicate LastSelection(selections: seq<GroupSelection>, g: GroupName, values: seq<Value>) {
    exists i :: 0 <= i < |selections| && selections[i].group == g && selections[i].uiPermissions == values &&
                forall j :: i < j < |selections| ==> selections[j].group != g
  }

  /** The keys of the role's `groups` map are exactly the truthy group names selected. */
  lemma {:induction false} GroupsMapKeys(selections: seq<GroupSelection>)
    ensures forall g :: g in GroupsMap(selections) <==> g != "" && SelectsGroup(selections, g)
  {
    if selections != [] {
      var init := selections[..|selections| - 1];
      var last := selections[|selections| - 1];
      var prev := GroupsMap(init);
      var next := GroupsMap(selections);
      GroupsMapKeys(init);
      assert next == if last.group != "" then prev[last.group := last.uiPermissions] else prev;
      forall g ensures g in next <==> g != "" && SelectsGroup(selections, g) {
        if g in next && g != last.group {
          assert SelectsGroup(init, g);
          var i :| 0 <= i < |init| && init[i].group == g;
          assert selections[i] == init[i];
        }
        if g == last.group {
          assert selections[|selections| - 1].group == g;
        }
        if g != "" && SelectsGroup(selections, g) && g != last.group {
          var i :| 0 <= i < |selections| && selections[i].group == g;
          assert init[i] == selections[i];
          assert SelectsGroup(init, g);
        }
      }
    }
  }

  /** Every group in the role's `groups` map holds the values of its last selection. */
  lemma {:induction false} GroupsMapValues(selections: seq<GroupSelection>)
    ensures forall g :: g in GroupsMap(selections) ==> LastSelection(selections, g, GroupsMap(selections)[g])
  {
    if selections != [] {
      var init := selections[..|selections| - 1];
      var last := selections[|selections| - 1];
      var prev := GroupsMap(init);
      var next := GroupsMap(selections);
      GroupsMapValues(init);
      GroupsMapKeys(init);
      assert next == if last.group != "" then prev[last.group := last.uiPermissions] else prev;
      forall g | g in next ensures LastSelection(selections, g, next[g]) {
        if g == last.group {
          assert selections[|selections| - 1].group == g && next[g] == selections[|selections| - 1].uiPermissions;
        } else {
          assert LastSelection(init, g, prev[g]);
          var i :| 0 <= i < |init| && init[i].group == g && init[i].uiPermissions == prev[g] &&
                   forall j :: i < j < |init| ==> init[j].group != g;
          assert selections[i] == init[i];
          forall j | i < j < |selections| ensures selections[j].group != g {
            if j < |init| {
              assert selections[j] == init[j];
            }
          }
        }
      }
    }
  }

  /**
   * The role's `groups` map holds, for every truthy group name selected, the
   * raw values of the last selection of that group, and nothing else.
   */
  lemma GroupsMapSpec(selections: seq<GroupSelection>)
    ensures forall g :: g in GroupsMap(selections) <==> g != "" && exists i :: 0 <= i < |selections| && selections[i].group == g
    ensures forall g :: g in GroupsMap(selections) ==>
      exists i :: 0 <= i < |selections| && selections[i].group == g &&
        GroupsMap(selections)[g] == selections[i].uiPermissions &&
        forall j :: i < j < |selections| ==> selections[j].group != g
  {
    GroupsMapKeys(selections);
    GroupsMapValues(selections);
  }

  /**
   * The transformed role: its references are `Basic`, then the area
   * references, then the group references; each selected area holds exactly
   * the implied values and every other area is empty; the record has exactly
   * the keys of `emptyUiPermissions`; the groups are the raw selections; a
   * falsy description falls back to the stored role's.
   */
  lemma {:induction false} TransformRoleSpec(c: Catalog, roleData: RoleData, roleState: Option<Role>)
    ensures TransformRole(c, roleData, roleState).Some? <==>
      AreaStep(c, c.areaNames, roleData.uiPermissions.areas).Some? && GroupRefs(c, roleData.uiPermissions.groups).Some?
    ensures TransformRole(c, roleData, roleState).Some? ==>
      TransformRole(c, roleData, roleState).value.permissionSetsWithScope ==
        [ScopedRef(c.basicSet, None)] + AreaStep(c, c.areaNames, roleData.uiPermissions.areas).value.0 +
        GroupRefs(c, roleData.uiPermissions.groups).value
    ensures TransformRole(c, roleData, roleState).Some? ==>
      var role := TransformRole(c, roleData, roleState).value.role;
      && role.name == roleData.name
      && role.uiPermissions.Some?
      && FullRecord(c, role.uiPermissions.value)
      && role.uiPermissions.value.groups == Some(GroupsMap(roleData.uiPermissions.groups))
      && (forall a :: a in c.areaNames && a in roleData.uiPermissions.areas ==>
            Some(role.uiPermissions.value.areas[a]) == DeriveImplied(c, a, roleData.uiPermissions.areas[a]))
      && (forall a :: a in c.areaNames && a !in roleData.uiPermissions.areas ==> role.uiPermissions.value.areas[a] == [])
      && (roleData.description.Some? && roleData.description.value != "" ==> role.description == roleData.description.value)
      && (roleData.description.None? || roleData.description.value == "" ==>
            role.description == if roleState.Some? then roleState.value.description else "")
  {
    AreaStepSpec(c, c.areaNames, roleData.uiPermissions.areas);
  }

  /** The implied-values map of the area reduce has a key for exactly the selected areas visited. */
  lemma {:induction false} AreaStepSpec(c: Catalog, areas: seq<Area>, selection: map<Area, seq<Value>>)
    ensures AreaStep(c, areas, selection).Some? ==>
      var m := AreaStep(c, areas, selection).value.1;
      && (forall a :: a in m <==> a in areas && a in selection)
      && (forall a :: a in m ==> Some(m[a]) == DeriveImplied(c, a, selection[a]))
  {
    if areas != [] {
      var init := areas[..|areas| - 1];
      AreaStepSpec(c, init, selection);
      assert areas == init + [areas[|areas| - 1]];
    }
  }

  /**
   * `deriveImpliedAreaPermissions` succeeds exactly for a known area and known
   * selected values; it then yields, in catalog order, each value of the area
   * that is selected or sits strictly below the highest selected level.
   */
  lemma DeriveImpliedSpec(c: Catalog, area: string, selected: seq<Value>)
    ensures DeriveImplied(c, area, selected).Some? <==> AreaPermissionList(c, area).Some? && Known(c, selected)
    ensures DeriveImplied(c, area, selected).Some? ==>
      var defs := AreaPermissionList(c, area).value;
      var h := HighestLevel(c, selected).value;
      forall x :: x in DeriveImplied(c, area, selected).value <==>
        exists j :: 0 <= j < |defs| && defs[j].value == x && (defs[j].permissionLevel < h || x in selected)
  {
    HighestLevelSpec(c, selected);
    if DeriveImplied(c, area, selected).Some? {
      ImpliedValuesSpec(AreaPermissionList(c, area).value, HighestLevel(c, selected).value, selected);
    }
  }

  /** The `groups` set names looked up are those of the given values. */
  lemma {:induction false} SetNamesSpec(c: Catalog, values: seq<Value>)
    ensures SetNames(c, values).Some? <==> forall i :: 0 <= i < |values| ==> GroupSetOf(c, values[i]).Some?
    ensures SetNames(c, values).Some? ==>
      forall n :: n in SetNames(c, values).value <==> exists v :: v in values && GroupSetOf(c, v) == Some(n)
  {
    if values != [] {
      var init := values[..|values| - 1];
      SetNamesSpec(c, init);
      assert values == init + [values[|values| - 1]];
      assert forall i :: 0 <= i < |init| ==> init[i] == values[i];
    }
  }

  /** A selection's implied values include one backed by the `groups` set `n`. */
  ghost predicate SelectionGrants(c: Catalog, selection: GroupSelection, n: SetName) {
    var implied := DeriveImplied(c, GroupsArea, selection.uiPermissions);
    implied.Some? && exists v :: v in implied.value && GroupSetOf(c, v) == Some(n)
  }

  /** Some selection of group `g` implies a value backed by the set `n`. */
  ghost predicate Selects(c: Catalog, selections: seq<GroupSelection>, n: SetName, g: GroupName) {
    exists i :: 0 <= i < |selections| && selections[i].group == g && SelectionGrants(c, selections[i], n)
  }

  /** A (set, group) pair is recorded exactly when some selection of the group implies a value of the set. */
  lemma {:induction false} GroupPairsSpec(c: Catalog, selections: seq<GroupSelection>)
    requires GroupPairs(c, selections).Some?
    ensures forall n, g :: (n, g) in GroupPairs(c, selections).value <==> Selects(c, selections, n, g)
  {
    if selections != [] {
      var init := selections[..|selections| - 1];
      var last := selections[|selections| - 1];
      GroupPairsSpec(c, init);
      var implied := DeriveImplied(c, GroupsArea, last.uiPermissions).value;
      SetNamesSpec(c, implied);
      var names := SetNames(c, implied).value;
      TagMembers(names, last.group);
      forall n, g ensures Selects(c, selections, n, g) <==> Selects(c, init, n, g) || (g == last.group && n in names) {
        SelectsLast(c, selections, n, g);
      }
    }
  }

  /** The tagged pairs are the names, each with the group. */
  lemma TagMembers(names: seq<SetName>, group: GroupName)
    ensures forall n, g :: (n, g) in Tag(names, group) <==> n in names && g == group
  {
    forall n, g | n in names && g == group ensures (n, g) in Tag(names, group) {
      var k :| 0 <= k < |names| && names[k] == n;
      assert Tag(names, group)[k] == (n, g);
    }
  }

  /** Selection by a non-empty list: by one of the earlier selections, or by the last one. */
  lemma SelectsLast(c: Catalog, selections: seq<GroupSelection>, n: SetName, g: GroupName)
    requires selections != []
    ensures Selects(c, selections, n, g) <==>
      Selects(c, selections[..|selections| - 1], n, g) ||
      (selections[|selections| - 1].group == g && SelectionGrants(c, selections[|selections| - 1], n))
  {
    var init := selections[..|selections| - 1];
    if Selects(c, selections, n, g) {
      var i :| 0 <= i < |selections| && selections[i].group == g && SelectionGrants(c, selections[i], n);
      if i < |init| {
        assert init[i] == selections[i];
      }
    }
    if Selects(c, init, n, g) {
      var i :| 0 <= i < |init| && init[i].group == g && SelectionGrants(c, init[i], n);
      assert selections[i] == init[i];
    }
  }

  /**
   * The group references of `transformGroupRoleDataToScopedPermissionsSets`:
   * one per permission set some selection implies, no set twice.
   */
  lemma GroupRefsNames(c: Catalog, selections: seq<GroupSelection>)
    requires GroupRefs(c, selections).Some?
    ensures forall i, j :: 0 <= i < j < |GroupRefs(c, selections).value| ==>
      GroupRefs(c, selections).value[i].name != GroupRefs(c, selections).value[j].name
    ensures forall n, g :: Selects(c, selections, n, g) ==>
      exists k :: 0 <= k < |GroupRefs(c, selections).value| && GroupRefs(c, selections).value[k].name == n
  {
    var pairs := GroupPairs(c, selections).value;
    var accu := Accumulate([], pairs);
    var refs := ScopedRefs(c, accu);
    assert GroupRefs(c, selections).value == refs;
    GroupPairsSpec(c, selections);
    ScopedRefsSpec(c, pairs, accu);
    AccumulateSpec(pairs);
    forall n, g | Selects(c, selections, n, g)
      ensures exists k :: 0 <= k < |refs| && refs[k].name == n
    {
      assert (n, g) in pairs;
      assert Records(accu, n, g);
      var k :| 0 <= k < |accu| && accu[k].0 == n && g in accu[k].1;
      assert refs[k].name == n;
    }
  }

  /** Some group selection implies a value of set `n`. */
  ghost predicate Referenced(c: Catalog, selections: seq<GroupSelection>, n: SetName) {
    exists g :: Selects(c, selections, n, g)
  }

  /** Every reference names a set that some group selection implies. */
  lemma GroupRefsSelected(c: Catalog, selections: seq<GroupSelection>)
    requires GroupRefs(c, selections).Some?
    ensures forall k :: 0 <= k < |GroupRefs(c, selections).value| ==> Referenced(c, selections, GroupRefs(c, selections).value[k].name)
  {
    var pairs := GroupPairs(c, selections).value;
    var accu := Accumulate([], pairs);
    GroupPairsSpec(c, selections);
    ScopedRefsSpec(c, pairs, accu);
    AccumulateSpec(pairs);
    AccumulateNonEmpty(pairs);
    forall k | 0 <= k < |GroupRefs(c, selections).value| ensures Referenced(c, selections, GroupRefs(c, selections).value[k].name) {
      EntryGroups(accu, pairs, k);
      assert (accu[k].0, accu[k].1[0]) in pairs;
      assert Selects(c, selections, accu[k].0, accu[k].1[0]);
    }
  }

  /** Every entry of the accumulator holds at least one group. */
  lemma {:induction false} AccumulateNonEmpty(pairs: seq<(SetName, GroupName)>)
    ensures forall k :: 0 <= k < |Accumulate([], pairs)| ==> |Accumulate([], pairs)[k].1| > 0
  {
    if pairs != [] {
      AccumulateNonEmpty(pairs[..|pairs| - 1]);
    }
  }

  /**
   * A set is referenced unscoped when `ALL_DEVICES` is among the groups that
   * imply it, and otherwise scoped to the device-group type with exactly those
   * groups, each once.
   */
  lemma GroupRefsScopes(c: Catalog, selections: seq<GroupSelection>)
    requires GroupRefs(c, selections).Some?
    ensures forall k :: 0 <= k < |GroupRefs(c, selections).value| ==>
      (GroupRefs(c, selections).value[k].scope.None? <==>
       Selects(c, selections, GroupRefs(c, selections).value[k].name, c.allDevices))
    ensures forall k, g :: 0 <= k < |GroupRefs(c, selections).value| && GroupRefs(c, selections).value[k].scope.Some? ==>
      var s := GroupRefs(c, selections).value[k].scope.value;
      && s.scopeType == c.groupScope
      && NoDuplicates(s.value)
      && (g in s.value <==> Selects(c, selections, GroupRefs(c, selections).value[k].name, g))
  {
    var pairs := GroupPairs(c, selections).value;
    var accu := Accumulate([], pairs);
    var refs := ScopedRefs(c, accu);
    assert GroupRefs(c, selections).value == refs;
    GroupPairsSpec(c, selections);
    ScopedRefsSpec(c, pairs, accu);
  }

  /** An area selection implies a value whose permission set for that area is `n`. */
  ghost predicate AreaSelects(c: Catalog, selection: map<Area, seq<Value>>, a: Area, n: SetName) {
    && a in selection
    && DeriveImplied(c, a, selection[a]).Some?
    && exists v :: v in DeriveImplied(c, a, selection[a]).value &&
         Lookup(c, v).Some? && a in Lookup(c, v).value.areaSets && Lookup(c, v).value.areaSets[a] == n
  }

  /** The references pushed for one area name the area's permission set of each implied value. */
  lemma {:induction false} AreaRefsSpec(c: Catalog, area: Area, values: seq<Value>)
    requires AreaRefs(c, area, values).Some?
    ensures forall x :: x in AreaRefs(c, area, values).value <==>
      x.scope.None? &&
      exists v :: v in values && Lookup(c, v).Some? && area in Lookup(c, v).value.areaSets &&
                  Lookup(c, v).value.areaSets[area] == x.name
  {
    if values != [] {
      var init := values[..|values| - 1];
      AreaRefsSpec(c, area, init);
      assert values == init + [values[|values| - 1]];
    }
  }

  /**
   * The area reduce: implied values are kept for exactly the selected areas,
   * and the area references are unscoped, one for each permission set an area
   * selection implies.
   */
  lemma {:induction false} AreaStepRefs(c: Catalog, areas: seq<Area>, selection: map<Area, seq<Value>>)
    requires AreaStep(c, areas, selection).Some?
    ensures forall x :: x in AreaStep(c, areas, selection).value.0 <==>
      x.scope.None? && exists a :: a in areas && AreaSelects(c, selection, a, x.name)
  {
    if areas != [] {
      var init := areas[..|areas| - 1];
      var area := areas[|areas| - 1];
      AreaStepRefs(c, init, selection);
      assert areas == init + [area];
      if area in selection {
        var implied := DeriveImplied(c, area, selection[area]).value;
        AreaRefsSpec(c, area, implied);
        var prev := AreaStep(c, init, selection).value.0;
        var refs := AreaRefs(c, area, implied).value;
        forall x: ScopedRef ensures x in prev + refs <==> x.scope.None? && exists a :: a in areas && AreaSelects(c, selection, a, x.name) {
          if x in refs {
            assert AreaSelects(c, selection, area, x.name);
          }
          if x.scope.None? && exists a :: a in areas && AreaSelects(c, selection, a, x.name) {
            var a :| a in areas && AreaSelects(c, selection, a, x.name);
            if a != area {
              assert a in init;
            }
          }
        }
      } else {
        forall x: ScopedRef | x.scope.None? && exists a :: a in areas && AreaSelects(c, selection, a, x.name)
          ensures exists a :: a in init && AreaSelects(c, selection, a, x.name)
        {
          var a :| a in areas && AreaSelects(c, selection, a, x.name);
          assert a in init;
        }
      }
    }
  }
}

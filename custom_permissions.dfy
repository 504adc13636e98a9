/**
 * The custom-permission handlers of src/js/actions/userActions.js:223-303:
 * `mapHttpPermission`, the `permissionActionTypes` table,
 * `tryParseCustomPermission` and `customPermissionHandler`.
 */
module CustomPermissions {
  import opened Wrappers
  import opened Lists
  import opened PermissionModel
  import opened PermissionMerge

  /** An endpoint is matched when its path accepts the value and it serves the type (or the type is `Any`). */
  predicate EndpointMatches(e: Endpoint, p: PermissionObject, anyType: string) {
    e.path(p.value) && (p.objectType in e.types || p.objectType == anyType)
  }

  /** `definition.endpoints.filter(...)`: the matched endpoints, in order. */
  function MatchingEndpoints(es: seq<Endpoint>, p: PermissionObject, anyType: string): (r: seq<Endpoint>)
    ensures |r| <= |es|
  {
    if es == [] then []
    else if EndpointMatches(es[0], p, anyType) then [es[0]] + MatchingEndpoints(es[1..], p, anyType)
    else MatchingEndpoints(es[1..], p, anyType)
  }

  /** The concatenated `uiPermissions` of a list of endpoints. */
  function EndpointDefinitions(es: seq<Endpoint>): seq<PermissionDefinition> {
    if es == [] then [] else es[0].uiPermissions + EndpointDefinitions(es[1..])
  }

  /** The test of line 234 for one permission definition. */
  predicate Pushes(d: PermissionDefinition, p: PermissionObject, noMatches: bool, anyType: string) {
    p.objectType == anyType || (noMatches && p.objectType in d.verbs)
  }

  /** The values the inner reduce of lines 233-238 pushes, in order. */
  function PushedValues(defs: seq<PermissionDefinition>, p: PermissionObject, noMatches: bool, anyType: string): seq<Value> {
    if defs == [] then []
    else
      var last := defs[|defs| - 1];
      PushedValues(defs[..|defs| - 1], p, noMatches, anyType) + (if Pushes(last, p, noMatches, anyType) then [last.value] else [])
  }

  /** The test of line 231: the area receives a list at all. */
  predicate AreaGranted(d: AreaDefinition, p: PermissionObject, anyType: string) {
    p.value == anyType || (Includes(p.value, ApiRoot) && |MatchingEndpoints(d.endpoints, p, anyType)| > 0)
  }

  /**
   * The list an area receives. `endpointUiPermission` is always an array and
   * so always truthy: the `|| definition.uiPermissions` fallback is never taken.
   */
  function AreaGrant(d: AreaDefinition, p: PermissionObject, anyType: string): seq<Value> {
    var matches := MatchingEndpoints(d.endpoints, p, anyType);
    PushedValues(EndpointDefinitions(matches), p, |matches| == 0, anyType)
  }

  /** What `mapHttpPermission(permission)` returns: one list per granted area. */
  function HttpGrant(c: Catalog, p: PermissionObject): map<Area, seq<Value>> {
    map a | a in c.areas && AreaGranted(c.areas[a], p, c.anyType) :: AreaGrant(c.areas[a], p, c.anyType)
  }

  /**
   * `mapHttpPermission`: the reduce over the areas of the catalog, pushing
   * the accepted values of the matched endpoints into the area's collector.
   */
  method MapHttpPermission(c: Catalog, p: PermissionObject) returns (accu: map<Area, seq<Value>>)
    ensures accu == HttpGrant(c, p)
  {
    accu := map[];
    var pending := c.areas.Keys;
    while pending != {}
      invariant pending <= c.areas.Keys
      invariant forall a :: a in accu ==> a in c.areas && a !in pending
      invariant forall a :: a in c.areas && a !in pending ==>
        (a in accu <==> AreaGranted(c.areas[a], p, c.anyType))
      invariant forall a :: a in accu ==> accu[a] == AreaGrant(c.areas[a], p, c.anyType)
      decreases pending
    {
      var area :| area in pending;
      var definition := c.areas[area];
      var endpointMatches := MatchingEndpoints(definition.endpoints, p, c.anyType);
      if p.value == c.anyType || (Includes(p.value, ApiRoot) && |endpointMatches| > 0) {
        var collector := Get(accu, area);
        var endpointUiPermission := EndpointDefinitions(endpointMatches);
        var permissionsAccu := collector;
        var i := 0;
        while i < |endpointUiPermission|
          invariant 0 <= i <= |endpointUiPermission|
          invariant permissionsAccu == collector + PushedValues(endpointUiPermission[..i], p, |endpointMatches| == 0, c.anyType)
        {
          var uiPermission := endpointUiPermission[i];
          assert endpointUiPermission[..i + 1][..i] == endpointUiPermission[..i];
          if p.objectType == c.anyType || (|endpointMatches| == 0 && p.objectType in uiPermission.verbs) {
            permissionsAccu := permissionsAccu + [uiPermission.value];
          }
          i := i + 1;
        }
        assert endpointUiPermission[..i] == endpointUiPermission;
        accu := accu[area := permissionsAccu];
      }
      pending := pending - {area};
    }
  }

  /** The matched list is empty exactly when no endpoint matches. */
  lemma {:induction false} MatchingEndpointsEmpty(es: seq<Endpoint>, p: PermissionObject, anyType: string)
    ensures |MatchingEndpoints(es, p, anyType)| > 0 <==> exists i :: 0 <= i < |es| && EndpointMatches(es[i], p, anyType)
  {
    if es != [] {
      MatchingEndpointsEmpty(es[1..], p, anyType);
      if exists i :: 0 <= i < |es| && EndpointMatches(es[i], p, anyType) {
        var i :| 0 <= i < |es| && EndpointMatches(es[i], p, anyType);
        if i > 0 {
          assert es[1..][i - 1] == es[i];
        }
      }
      if exists i :: 0 <= i < |es[1..]| && EndpointMatches(es[1..][i], p, anyType) {
        var i :| 0 <= i < |es[1..]| && EndpointMatches(es[1..][i], p, anyType);
        assert es[i + 1] == es[1..][i];
      }
    }
  }

  /** Without the `Any` type nothing is pushed once an endpoint matched. */
  lemma {:induction false} PushedNothing(defs: seq<PermissionDefinition>, p: PermissionObject, anyType: string)
    requires p.objectType != anyType
    ensures PushedValues(defs, p, false, anyType) == []
  {
    if defs != [] {
      PushedNothing(defs[..|defs| - 1], p, anyType);
    }
  }

  /** With the `Any` type every definition is pushed. */
  lemma {:induction false} PushedEverything(defs: seq<PermissionDefinition>, p: PermissionObject, noMatches: bool, anyType: string)
    requires p.objectType == anyType
    ensures forall x :: x in PushedValues(defs, p, noMatches, anyType) <==> ListsValue(defs, x)
  {
    if defs != [] {
      var init := defs[..|defs| - 1];
      PushedEverything(init, p, noMatches, anyType);
      forall x | exists j :: 0 <= j < |defs| && defs[j].value == x
        ensures x in PushedValues(defs, p, noMatches, anyType)
      {
        var j :| 0 <= j < |defs| && defs[j].value == x;
        if j < |defs| - 1 {
          assert init[j] == defs[j];
        }
      }
      forall x | x in PushedValues(init, p, noMatches, anyType)
        ensures exists j :: 0 <= j < |defs| && defs[j].value == x
      {
        var j :| 0 <= j < |init| && init[j].value == x;
        assert defs[j] == init[j];
      }
    }
  }

  /** Some definition of the list has the value `x`. */
  ghost predicate ListsValue(defs: seq<PermissionDefinition>, x: Value) {
    exists j :: 0 <= j < |defs| && defs[j].value == x
  }

  /** Some matched endpoint lists a definition with the value `x`. */
  ghost predicate MatchedListsValue(es: seq<Endpoint>, p: PermissionObject, anyType: string, x: Value) {
    exists i :: 0 <= i < |es| && EndpointMatches(es[i], p, anyType) && ListsValue(es[i].uiPermissions, x)
  }

  lemma ListsValueAppend(a: seq<PermissionDefinition>, b: seq<PermissionDefinition>, x: Value)
    ensures ListsValue(a + b, x) <==> ListsValue(a, x) || ListsValue(b, x)
  {
    if ListsValue(a + b, x) {
      var j :| 0 <= j < |a + b| && (a + b)[j].value == x;
      if j >= |a| {
        assert b[j - |a|].value == x;
      }
    }
    if ListsValue(a, x) {
      var j :| 0 <= j < |a| && a[j].value == x;
      assert (a + b)[j].value == x;
    }
    if ListsValue(b, x) {
      var j :| 0 <= j < |b| && b[j].value == x;
      assert (a + b)[|a| + j].value == x;
    }
  }

  lemma MatchedListsTail(es: seq<Endpoint>, p: PermissionObject, anyType: string, x: Value)
    requires es != []
    ensures MatchedListsValue(es, p, anyType, x) <==>
      (EndpointMatches(es[0], p, anyType) && ListsValue(es[0].uiPermissions, x)) || MatchedListsValue(es[1..], p, anyType, x)
  {
    if MatchedListsValue(es, p, anyType, x) {
      var i :| 0 <= i < |es| && EndpointMatches(es[i], p, anyType) && ListsValue(es[i].uiPermissions, x);
      if i > 0 {
        assert es[1..][i - 1] == es[i];
      }
    }
    if MatchedListsValue(es[1..], p, anyType, x) {
      var i :| 0 <= i < |es[1..]| && EndpointMatches(es[1..][i], p, anyType) && ListsValue(es[1..][i].uiPermissions, x);
      assert es[i + 1] == es[1..][i];
    }
  }

  /** A value occurs among the endpoints' definitions iff some matched endpoint lists it. */
  lemma {:induction false} MatchedDefinitions(es: seq<Endpoint>, p: PermissionObject, anyType: string, x: Value)
    ensures ListsValue(EndpointDefinitions(MatchingEndpoints(es, p, anyType)), x) <==> MatchedListsValue(es, p, anyType, x)
  {
    if es != [] {
      MatchedDefinitions(es[1..], p, anyType, x);
      MatchedListsTail(es, p, anyType, x);
      var rest := MatchingEndpoints(es[1..], p, anyType);
      if EndpointMatches(es[0], p, anyType) {
        assert MatchingEndpoints(es, p, anyType) == [es[0]] + rest;
        assert ([es[0]] + rest)[1..] == rest;
        ListsValueAppend(es[0].uiPermissions, EndpointDefinitions(rest), x);
      }
    }
  }

  /**
   * `mapHttpPermission` grants to an area exactly when the value is `Any`, or
   * contains `apiRoot` and some endpoint of the area matches. A granted area
   * receives every value listed by a matched endpoint when the type is `Any`,
   * and nothing otherwise: the verb test of line 234 needs an empty match
   * list, and then there is nothing to iterate over.
   */
  lemma HttpGrantSpec(c: Catalog, p: PermissionObject, a: Area)
    ensures a in HttpGrant(c, p) <==>
      a in c.areas &&
      (p.value == c.anyType ||
       (Includes(p.value, ApiRoot) &&
        exists i :: 0 <= i < |c.areas[a].endpoints| && EndpointMatches(c.areas[a].endpoints[i], p, c.anyType)))
    ensures a in HttpGrant(c, p) && p.objectType != c.anyType ==> HttpGrant(c, p)[a] == []
    ensures a in HttpGrant(c, p) && p.objectType == c.anyType ==>
      forall x :: x in HttpGrant(c, p)[a] <==> MatchedListsValue(c.areas[a].endpoints, p, c.anyType, x)
  {
    if a in c.areas {
      var es := c.areas[a].endpoints;
      var matches := MatchingEndpoints(es, p, c.anyType);
      MatchingEndpointsEmpty(es, p, c.anyType);
      if p.objectType != c.anyType {
        if |matches| == 0 {
          assert EndpointDefinitions(matches) == [];
        } else {
          PushedNothing(EndpointDefinitions(matches), p, c.anyType);
        }
      } else {
        PushedEverything(EndpointDefinitions(matches), p, |matches| == 0, c.anyType);
        if a in HttpGrant(c, p) {
          forall x
            ensures x in HttpGrant(c, p)[a] <==> MatchedListsValue(es, p, c.anyType, x)
          {
            MatchedDefinitions(es, p, c.anyType, x);
          }
        }
      }
    }
  }

  /** The value each group-scoped action grants. */
  function GroupActionValue(c: Catalog, action: string): Option<Value> {
    if action == "CREATE_DEPLOYMENT" then Some(c.deploy)
    else if action == "REMOTE_TERMINAL" then Some(c.connect)
    else if action == "VIEW_DEVICE" then Some(c.read)
    else None
  }

  /**
   * The group-scoped handlers of lines 245-264: nothing unless the object is a
   * device group; then the action's value for that group, and for
   * CREATE_DEPLOYMENT also `deploy` in `deployments`.
   */
  function GroupScopedGrant(c: Catalog, action: string, p: PermissionObject): UiPermissions
    requires GroupActionValue(c, action).Some?
  {
    var v := GroupActionValue(c, action).value;
    if p.objectType != c.deviceGroupType then UiPermissions(map[], None)
    else if action == "CREATE_DEPLOYMENT" then UiPermissions(map[DeploymentsArea := [v]], Some(map[p.value := [v]]))
    else UiPermissions(map[], Some(map[p.value := [v]]))
  }

  /** `permissionActionTypes[action](object)`; `None` where the lookup finds no handler and the call throws. */
  function ApplyHandler(c: Catalog, action: string, p: PermissionObject): Option<UiPermissions> {
    if action == "any" || action == "http" then Some(UiPermissions(HttpGrant(c, p), None))
    else if GroupActionValue(c, action).Some? then Some(GroupScopedGrant(c, action, p))
    else None
  }

  /**
   * The group-scoped actions grant exactly one value to exactly the named
   * group, and only for device-group objects; only CREATE_DEPLOYMENT touches
   * an area, `deployments`.
   */
  lemma GroupScopedGrantSpec(c: Catalog, action: string, p: PermissionObject)
    requires GroupActionValue(c, action).Some?
    ensures ApplyHandler(c, action, p).Some?
    ensures var r := ApplyHandler(c, action, p).value;
      && (r.groups.Some? <==> p.objectType == c.deviceGroupType)
      && (r.groups.Some? ==> r.groups.value.Keys == {p.value} && r.groups.value[p.value] == [GroupActionValue(c, action).value])
      && (r.areas != map[] <==> p.objectType == c.deviceGroupType && action == "CREATE_DEPLOYMENT")
      && (forall a :: a in r.areas ==> a == DeploymentsArea && r.areas[a] == [c.deploy])
  {
    var r := ApplyHandler(c, action, p).value;
    if p.objectType == c.deviceGroupType && action == "CREATE_DEPLOYMENT" {
      assert DeploymentsArea in r.areas;
    }
  }

  /** An action outside the table has no handler. */
  lemma UnknownActionThrows(c: Catalog, action: string, p: PermissionObject)
    requires action !in {"any", "http", "CREATE_DEPLOYMENT", "REMOTE_TERMINAL", "VIEW_DEVICE"}
    ensures ApplyHandler(c, action, p) == None
  {
  }

  /** `tryParseCustomPermission`: the handler's record merged into a copy of the empty record. */
  function TryParseCustomPermission(c: Catalog, permission: CustomPermission): Option<UiPermissions> {
    var handled := ApplyHandler(c, permission.action, permission.obj);
    if handled.None? then None else Some(MergePermissions(EmptyUiPermissions(c), handled.value))
  }

  /** The accumulator of `parseRolePermissions`: `{ isCustom, uiPermissions }`. */
  datatype RoleAccu = RoleAccu(isCustom: bool, uiPermissions: UiPermissions)

  /** `customPermissionHandler(accu, permission)`. */
  function CustomPermissionHandler(c: Catalog, accu: RoleAccu, permission: CustomPermission): Option<RoleAccu> {
    var processor := TryParseCustomPermission(c, permission);
    if processor.None? then None
    else Some(RoleAccu(accu.isCustom || true, MergePermissions(accu.uiPermissions, processor.value)))
  }

  /** The empty record has no repeats. */
  lemma EmptyIsFullAndDuplicateFree(c: Catalog)
    ensures FullRecord(c, EmptyUiPermissions(c))
    ensures DuplicateFree(EmptyUiPermissions(c))
  {
  }

  /**
   * A parsed custom permission is shaped like `emptyUiPermissions`, repeats no
   * value, and holds in every area exactly what the handler granted there.
   */
  lemma TryParseSpec(c: Catalog, permission: CustomPermission)
    requires TryParseCustomPermission(c, permission).Some?
    ensures var r := TryParseCustomPermission(c, permission).value;
      var granted := ApplyHandler(c, permission.action, permission.obj).value;
      && FullRecord(c, r)
      && DuplicateFree(r)
      && (forall a, x :: a in r.areas ==> (x in r.areas[a] <==> a in granted.areas && x in granted.areas[a]))
  {
    var granted := ApplyHandler(c, permission.action, permission.obj).value;
    var empty := EmptyUiPermissions(c);
    MergeAreasSpec(empty, granted);
    MergePreservesDuplicateFree(empty, granted);
  }

  /**
   * A custom permission marks the role custom and merges the parsed record
   * into the accumulator, keeping the accumulator's keys.
   */
  lemma CustomPermissionHandlerSpec(c: Catalog, accu: RoleAccu, permission: CustomPermission)
    ensures CustomPermissionHandler(c, accu, permission).Some? <==> ApplyHandler(c, permission.action, permission.obj).Some?
    ensures CustomPermissionHandler(c, accu, permission).Some? ==>
      var r := CustomPermissionHandler(c, accu, permission).value;
      && r.isCustom
      && r.uiPermissions.areas.Keys == accu.uiPermissions.areas.Keys
      && (accu.uiPermissions.groups.Some? <==> r.uiPermissions.groups.Some?)
      && (DuplicateFree(accu.uiPermissions) ==> DuplicateFree(r.uiPermissions))
  {
    if CustomPermissionHandler(c, accu, permission).Some? {
      var processed := TryParseCustomPermission(c, permission).value;
      MergeAreasSpec(accu.uiPermissions, processed);
      if DuplicateFree(accu.uiPermissions) {
        MergePreservesDuplicateFree(accu.uiPermissions, processed);
      }
    }
  }
}

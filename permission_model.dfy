/**
 * Data model of the RBAC permission engine in src/js/actions/userActions.js.
 *
 * The permission catalog (`uiPermissionsById`, `uiPermissionsByArea`,
 * `emptyUiPermissions`, `PermissionTypes`, `defaultPermissionSets`, the default
 * role table, `emptyRole`, `ALL_DEVICES`) lives in constant modules that are not
 * part of this model, so it is a parameter: a `Catalog` value.
 */
module PermissionModel {
  import opened Wrappers
  import opened Lists

  /** A UI permission value such as "read" or "deploy". */
  type Value = string
  /** The name of a server-side permission set. */
  type SetName = string
  type GroupName = string

  /** The one area of a permissions record that maps group names to lists. */
  const GroupsArea: string := "groups"

  /** Every other area of a permissions record holds a flat list of values. */
  type Area = a: string | a != GroupsArea witness "deployments"

  /** The area the CREATE_DEPLOYMENT custom permission writes to. */
  const DeploymentsArea: Area := "deployments"

  /** `apiRoot` of src/js/api/general-api.js. */
  const ApiRoot: string := "/api/management"

  type GroupPermissions = map<GroupName, seq<Value>>

  /**
   * A UI permissions record: `{ area: [values], ..., groups: { group: [values] } }`.
   * `groups` is `None` when the record has no `groups` key at all (the partial
   * records produced by the custom-permission handlers).
   */
  datatype UiPermissions = UiPermissions(areas: map<Area, seq<Value>>, groups: Option<GroupPermissions>)

  /** One entry of `uiPermissionsById`; `permissionSets` is split into the flat areas and `groups`. */
  datatype PermissionDefinition = PermissionDefinition(
    value: Value,
    permissionLevel: int,
    verbs: seq<string>,
    areaSets: map<Area, SetName>,
    groupSet: Option<SetName>)

  /** An endpoint of an area; `path` stands for the endpoint's regular expression `path.test`. */
  datatype Endpoint = Endpoint(path: string -> bool, types: seq<string>, uiPermissions: seq<PermissionDefinition>)

  /** One entry of `uiPermissionsByArea`. */
  datatype AreaDefinition = AreaDefinition(uiPermissions: seq<PermissionDefinition>, endpoints: seq<Endpoint>)

  /** A permission-set reference with an optional scope, as the server sends and receives it. */
  datatype Scope = Scope(scopeType: string, value: seq<GroupName>)
  datatype ScopedRef = ScopedRef(name: SetName, scope: Option<Scope>)

  /** `{ action, object: { type, value } }` of a custom permission. */
  datatype PermissionObject = PermissionObject(objectType: string, value: string)
  datatype CustomPermission = CustomPermission(action: string, obj: PermissionObject)

  /**
   * A role as kept in `rolesById`. Empty strings stand for absent (falsy)
   * `name` and `description`; `editable` is `None` when it is undefined and
   * `uiPermissions` is `None` when the entry has none.
   */
  datatype Role = Role(
    name: string,
    description: string,
    editable: Option<bool>,
    isCustom: bool,
    uiPermissions: Option<UiPermissions>,
    permissionSetsWithScope: seq<ScopedRef>,
    permissions: seq<CustomPermission>)

  /** The static configuration the engine reads. */
  datatype Catalog = Catalog(
    /** `Object.values(uiPermissionsById)`, in order; the keys are the values. */
    permissions: seq<PermissionDefinition>,
    /** The keys of `emptyUiPermissions` other than `groups`, in order. */
    areaNames: seq<Area>,
    /** `uiPermissionsByArea` without its `groups` entry. */
    areas: map<Area, AreaDefinition>,
    /** `uiPermissionsByArea.groups.uiPermissions`. */
    groupPermissions: seq<PermissionDefinition>,
    /** `uiPermissionsByArea.groups.scope`. */
    groupScope: string,
    /** `PermissionTypes.Any` and `PermissionTypes.DeviceGroup`. */
    anyType: string,
    deviceGroupType: string,
    /** The `ALL_DEVICES` group name. */
    allDevices: GroupName,
    /** `defaultPermissionSets.Basic.value`. */
    basicSet: SetName,
    /** `uiPermissionsById.deploy.value`, `.connect.value` and `.read.value`. */
    deploy: Value,
    connect: Value,
    read: Value,
    /** The names of the default roles (`rolesById` of the constants). */
    defaultRoles: set<string>,
    emptyRole: Role)

  /** `emptyUiPermissions`: an empty list per area and an empty groups map. */
  function EmptyUiPermissions(c: Catalog): UiPermissions {
    UiPermissions(map a | a in c.areaNames :: [], Some(map[]))
  }

  /** A record with exactly the keys of `emptyUiPermissions`. */
  ghost predicate FullRecord(c: Catalog, r: UiPermissions) {
    r.areas.Keys == (set a | a in c.areaNames) && r.groups.Some?
  }

  /** No list of the record repeats a value. */
  ghost predicate DuplicateFree(r: UiPermissions) {
    && (forall a :: a in r.areas ==> NoDuplicates(r.areas[a]))
    && (r.groups.Some? ==> forall g :: g in r.groups.value ==> NoDuplicates(r.groups.value[g]))
  }

  /** `uiPermissionsById[value]`. */
  function Lookup(c: Catalog, v: Value): Option<PermissionDefinition> {
    FirstWithValue(c.permissions, v)
  }

  function FirstWithValue(defs: seq<PermissionDefinition>, v: Value): (r: Option<PermissionDefinition>)
    ensures r.Some? ==> r.value in defs && r.value.value == v
    ensures r.None? ==> forall i :: 0 <= i < |defs| ==> defs[i].value != v
  {
    if defs == [] then None
    else if defs[0].value == v then Some(defs[0])
    else FirstWithValue(defs[1..], v)
  }

  /** Every value is a key of `uiPermissionsById`. */
  ghost predicate Known(c: Catalog, values: seq<Value>) {
    forall i :: 0 <= i < |values| ==> Lookup(c, values[i]).Some?
  }

  /**
   * The shape of the constants the engine relies on: every area of
   * `emptyUiPermissions` has an entry in `uiPermissionsByArea`, the permissions
   * listed for an area are entries of `uiPermissionsById` backed by a
   * permission set for that area, and every area a definition names is a key
   * of `emptyUiPermissions`.
   */
  ghost predicate ValidCatalog(c: Catalog) {
    && c.areas.Keys == (set a | a in c.areaNames)
    && (forall i :: 0 <= i < |c.permissions| ==> c.permissions[i].areaSets.Keys <= c.areas.Keys)
    && (forall a, d :: a in c.areas && d in c.areas[a].uiPermissions ==> Lookup(c, d.value) == Some(d) && a in d.areaSets)
    && (forall d :: d in c.groupPermissions ==> Lookup(c, d.value) == Some(d) && d.groupSet.Some?)
  }
}

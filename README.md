# mender-gui: RBAC permissions, user store and artifact form, in Dafny

This project models three pieces of the Mender web console.

- **The role-based access control (RBAC) engine of `src/js/actions/userActions.js`.** It runs in both directions:
  - It turns server permission sets and roles into UI permission records (`mapHttpPermission`, `combineGroupPermissions`, `mergePermissions`, the custom-permission handlers, `mapGroupPermissionSet`, `parseRolePermissions`, `normalizeRbacRoles`, `mapUserRolesToUiPermissions` and the result computation of `getPermissionSets`).
  - It turns a role edited in the UI back into scoped permission-set references for the server (`deriveImpliedAreaPermissions`, `transformGroupRoleDataToScopedPermissionsSets`, `transformRoleDataToRole`).
- **The user store reducer of `src/js/reducers/userReducer.js`.**
- **The input handlers and validators of the artifact upload form in `src/js/components/artifacts/dialogs/artifactinformationform.js`.**

Each module is listed below with what it contains.

- **`Wrappers`, `Lists`.** These hold `Option`, plus list helpers.
  - `Dedup` is `filter(duplicateFilter)`, which keeps the first occurrence of each value.
  - `Includes` is `String.prototype.includes`.
- **`PermissionModel`.** The UI permissions record: one list per area, plus an optional `groups` map.
  - The permission catalog (`uiPermissionsById`, `uiPermissionsByArea`, `emptyUiPermissions`, `PermissionTypes`, `ALL_DEVICES`, the default role table) lives in constant modules that are not part of this model. It is a parameter of type `Catalog`.
  - A JavaScript `TypeError` in the source becomes `None`. Examples are a lookup of a value the catalog does not know, or a custom action without a handler.
- **`CustomPermissions`.** The handlers table `permissionActionTypes`, `mapHttpPermission`, `tryParseCustomPermission` and `customPermissionHandler`.
- **`PermissionMerge`.** `combineGroupPermissions` and `mergePermissions`, with their algebra:
  - the area keys and order are kept;
  - merging is idempotent on duplicate-free records;
  - it is associative when the keys agree;
  - it is commutative up to order.
- **`PermissionSets`.**
  - `mapGroupPermissionSet`.
  - The per-set `result` that `getPermissionSets` computes, and the fold that stores the sets.
- **`RoleNormalization`.** `parseRolePermissions`, `normalizeRbacRoles` and `mapUserRolesToUiPermissions`.
  - `normalizeRbacRoles` throws exactly when some received role is stored without `uiPermissions`, or is new and fails to parse (`NormalizeRolesFails`). The reducer's initial default roles carry no `uiPermissions`, so receiving one of them while the store still holds that default throws.
- **`RoleTransform`.** `deriveImpliedAreaPermissions`, `transformGroupRoleDataToScopedPermissionsSets` and `transformRoleDataToRole`.
- **`RoleRoundTrip`.** The role editor's round trip. Parsing the references `transformRoleDataToRole` sends gives back the edited role: each area holds exactly the role's implied values, and each group exactly the values its selections imply (`NormalizeTransformed`). This holds under two conditions.
  - The stored permission sets must be as `getPermissionSets` computes them for a catalog in which:
    - `Basic` is backed by nothing;
    - each area set is backed by one value in one area;
    - each `groups` set supports the group scope and backs no area.

    The `Stored…` lemmas derive these results from `SetResult`.
  - No `groups` set may be implied both for `ALL_DEVICES` and for another group. Without that, the set is sent once, unscoped, and the other group loses the value on the way back (`MixedScopeLosesGroup`). The devices stay covered, because the unscoped reference applies to all of them.
- **`UserReducer`.**
  - The reducer as a state machine on values: `Next` over a `Snapshot`.
  - The reducer as an imperative method, `Reduce`, over two heap objects of class `Dict`: the `byId` and `rolesById` dictionaries. These show the in-place `delete` that `REMOVED_USER` and `REMOVED_ROLE` perform, and the sharing that spreading creates.
- **`ArtifactInformation`.**
  - `checkDestinationValidity`.
  - The device-type text input, which splits on commas, filters duplicates and advances onboarding.
  - The other `updateCreation` handlers and the initial update.
  - The defaults of `VersionInformation`, and the validity it re-sends after every edit.

Some of the source's loops (`reduce`, `filter`, `map`, `forEach`) become methods with `while` loops. Each is proved equal to a specification function, and the lemmas state the properties of that function. These are:
- `mapHttpPermission` and `combineGroupPermissions`;
- the result computation and the store fold of `getPermissionSets`;
- `normalizeRbacRoles`, `deriveImpliedAreaPermissions` and `transformGroupRoleDataToScopedPermissionsSets`;
- the area and group loops of `transformRoleDataToRole`.

The user reducer has no loop. It is a method because it updates its dictionaries in place.

The other reduces are modelled only as recursive functions, each with its lemmas. These are the reduces of `mergePermissions`, `mapGroupPermissionSet`, `parseRolePermissions`, `customPermissionHandler` and `mapUserRolesToUiPermissions`, plus `Dedup`.

## Model

| member | source | states |
|---|---|---|
| Lists.Dedup | src/js/actions/userActions.js:270 | `filter(duplicateFilter)` never lengthens a list |
| Lists.DedupSpec | src/js/actions/userActions.js:270 | the filtered list has no repeats and holds exactly the values of its input |
| Lists.DedupNoDuplicates | src/js/actions/userActions.js:282 | a list without repeats passes the filter unchanged |
| Lists.DedupAppendCovered | src/js/actions/userActions.js:282 | appending values that are already present changes nothing after filtering |
| Lists.DedupPrefix | src/js/actions/userActions.js:282 | filtering `a` gives a prefix of filtering `a + b`: existing values keep their first positions |
| Lists.DedupDedupLeft | src/js/actions/userActions.js:270 | filtering the first part beforehand does not change the result |
| Lists.DedupDedupRight | src/js/actions/userActions.js:270 | filtering the second part beforehand does not change the result |
| Lists.DedupAssociative | src/js/actions/userActions.js:270 | `Dedup(Dedup(a+b)+c) == Dedup(a+Dedup(b+c))`, the step behind merge associativity |
| Lists.DedupRepeatHead | src/js/actions/userActions.js:307 | granting a value that already heads a list changes nothing after filtering |
| Lists.IncludesAt | src/js/actions/userActions.js:230 | `includes` holds iff the substring occurs at some index |
| PermissionModel.FirstWithValue | src/js/actions/userActions.js:422 | the lookup of a value by name finds a definition with that value, or no definition has it |
| CustomPermissions.MatchingEndpoints | src/js/actions/userActions.js:227-229 | the endpoint filter keeps a sub-list of the endpoints |
| CustomPermissions.MapHttpPermission | src/js/actions/userActions.js:225-241 | the nested reduce computes `HttpGrant`: one list per granted area |
| CustomPermissions.MatchingEndpointsEmpty | src/js/actions/userActions.js:227-230 | the matched list is non-empty iff some endpoint matches the path and type |
| CustomPermissions.PushedNothing | src/js/actions/userActions.js:233-238 | without the `Any` type nothing is pushed once an endpoint matched |
| CustomPermissions.PushedEverything | src/js/actions/userActions.js:233-238 | with the `Any` type every definition's value is pushed |
| CustomPermissions.MatchedDefinitions | src/js/actions/userActions.js:232 | a value is among the concatenated definitions iff a matched endpoint lists it |
| CustomPermissions.HttpGrant | src/js/actions/userActions.js:225-241 | what `mapHttpPermission` returns, one list per granted area; `HttpGrantSpec` states when an area is granted and what it holds, and `MapHttpPermission` is proved to compute it |
| CustomPermissions.HttpGrantSpec | src/js/actions/userActions.js:225-241 | an area is granted iff the value is `Any` or (contains the API root and an endpoint matches); it gets `[]` for a specific type; for the `Any` type it gets exactly the values of matched endpoints |
| CustomPermissions.GroupScopedGrantSpec | src/js/actions/userActions.js:245-264 | CREATE_DEPLOYMENT, REMOTE_TERMINAL and VIEW_DEVICE grant their value to the one named group iff the object is a device group; only CREATE_DEPLOYMENT also grants `deploy` on deployments |
| CustomPermissions.UnknownActionThrows | src/js/actions/userActions.js:291 | an action outside the handler table throws (`None`) |
| CustomPermissions.EmptyIsFullAndDuplicateFree | src/js/actions/userActions.js:292 | the empty record has every area key and no repeats |
| CustomPermissions.TryParseCustomPermission | src/js/actions/userActions.js:290-294 | `tryParseCustomPermission`: the handler's record merged into a copy of the empty record, or a throw for an unknown action; `TryParseSpec` states its result |
| CustomPermissions.TryParseSpec | src/js/actions/userActions.js:290-294 | the parsed record is full and duplicate-free, and holds in each area exactly what the handler granted there |
| CustomPermissions.CustomPermissionHandler | src/js/actions/userActions.js:296-303 | `customPermissionHandler`: marks the role custom and merges the parsed record; `CustomPermissionHandlerSpec` states its result |
| CustomPermissions.CustomPermissionHandlerSpec | src/js/actions/userActions.js:296-303 | it succeeds iff the handler exists; the result is custom, keeps the area keys and the presence of `groups`, and preserves duplicate-freedom |
| PermissionMerge.CombineGroups | src/js/actions/userActions.js:267-272 | `combineGroupPermissions` on values: each added group's list in front of the existing one, filtered; `CombineGroupPermissions` is proved to compute it, and `MergeGroupsSpec` states its membership |
| PermissionMerge.CombineGroupPermissions | src/js/actions/userActions.js:267-272 | the loop computes `CombineGroups` (added lists first, then existing, filtered) |
| PermissionMerge.MergePermissions | src/js/actions/userActions.js:274-288 | `mergePermissions`: the flat areas through `MergeAreas`, `groups` through `MergeGroups`; its algebra is `MergeIdempotent`, `MergeAssociative` and `MergeCommutesAsSets` |
| PermissionMerge.MergeAreas | src/js/actions/userActions.js:274-283 | the reduce over the existing keys for the flat areas: a key `added` lacks is copied, otherwise the lists are concatenated and filtered; `MergeAreasSpec` states the result |
| PermissionMerge.MergeGroups | src/js/actions/userActions.js:276-284 | the `groups` key of the same reduce: kept only when `existing` has it, combined when `added` has it; `MergeGroupsSpec` states the result |
| PermissionMerge.MergeAreasSpec | src/js/actions/userActions.js:274-288 | keys of `existing` only; `groups` kept iff present; untouched areas unchanged; merged areas hold the union, without repeats |
| PermissionMerge.MergeKeepsOrder | src/js/actions/userActions.js:282 | a duplicate-free existing list is a prefix of the merged list |
| PermissionMerge.MergeGroupsSpec | src/js/actions/userActions.js:284 | the group keys are the union, and each group holds the union of both sides' values |
| PermissionMerge.MergePreservesDuplicateFree | src/js/actions/userActions.js:274-288 | merging into a duplicate-free record keeps it duplicate-free |
| PermissionMerge.MergeAreasSelf | src/js/actions/userActions.js:282 | duplicate-free flat areas merged with themselves are unchanged |
| PermissionMerge.CombineGroupsSelf | src/js/actions/userActions.js:267-272 | duplicate-free groups combined with themselves are unchanged |
| PermissionMerge.MergeIdempotent | src/js/actions/userActions.js:274-288 | a duplicate-free record merged with itself is itself |
| PermissionMerge.MergeAreasKeys | src/js/actions/userActions.js:275 | the merged flat areas have exactly the existing keys |
| PermissionMerge.MergeAreasAssociativeAt | src/js/actions/userActions.js:282 | per area, merging is associative |
| PermissionMerge.MergeAreasAssociative | src/js/actions/userActions.js:274-288 | flat-area merging is associative when the keys agree |
| PermissionMerge.CombineGroupsAssociative | src/js/actions/userActions.js:267-272 | group combination is associative |
| PermissionMerge.MergeAssociative | src/js/actions/userActions.js:274-288 | whole records with equal keys and groups merge associatively |
| PermissionMerge.MergeCommutesAsSets | src/js/actions/userActions.js:274-288 | `merge(a,b)` and `merge(b,a)` grant the same sets of values per area and per group |
| PermissionMerge.AreasCommute | src/js/actions/userActions.js:274-281 | over the same area keys, each area of `merge(a,b)` and `merge(b,a)` holds the same set of values |
| PermissionMerge.GroupsCommute | src/js/actions/userActions.js:282-287 | each group of `merge(a,b)` and `merge(b,a)` holds the same set of values |
| PermissionSets.GroupPermissionOf | src/js/actions/userActions.js:306 | `find` returns the value of the first definition whose groups set is the name, or `None` iff no definition has it |
| PermissionSets.MapGroupPermissionSet | src/js/actions/userActions.js:305-308 | `mapGroupPermissionSet`: the first group permission naming the set, granted to every named group, or a throw when none names it; `GroupPermissionOf` and `GrantToGroupsSpec` state its parts |
| PermissionSets.GrantToGroupsSpec | src/js/actions/userActions.js:305-308 | groups = existing plus named; each named group gets `Dedup([v] + old)`; others unchanged |
| PermissionSets.GrantToGroupsKeys | src/js/actions/userActions.js:307 | the resulting groups are the existing ones plus the named ones |
| PermissionSets.GrantToGroupsNamed | src/js/actions/userActions.js:307 | each named group holds the value first, then its old values, even when named twice |
| PermissionSets.GrantToGroupsOthers | src/js/actions/userActions.js:307 | groups that are not named keep their lists |
| PermissionSets.GrantSingle | src/js/actions/userActions.js:398 | granting to one group from nothing gives exactly `{group: [value]}` |
| PermissionSets.GrantTwice | src/js/actions/userActions.js:307 | granting the same value twice equals granting it once |
| PermissionSets.GrantOne | src/js/actions/userActions.js:307 | one grant adds the group, prepends the value, and leaves other groups alone |
| PermissionSets.ResultAreasSpec | src/js/actions/userActions.js:383-396 | the result exists iff every backed area is a real area, and then each area lists exactly the values backed by this set, in catalog order |
| PermissionSets.ResultAreasNoneStays | src/js/actions/userActions.js:383-396 | a failure on a prefix of the catalog fails the whole reduce |
| PermissionSets.ComputeResultAreas | src/js/actions/userActions.js:383-396 | the loop computes `ResultAreas` |
| PermissionSets.AddItemAreas | src/js/actions/userActions.js:387-392 | the inner loop adds one catalog item's value to every area it backs, or fails when an area is unknown, as `AddItem` states |
| PermissionSets.SetResult | src/js/actions/userActions.js:383-399 | the `result` that `getPermissionSets` computes for one set: its areas, and `{ALL_DEVICES: [v]}` under `groups` when it supports the group scope; `ResultAreasSpec` and `SetResultGroups` state it |
| PermissionSets.SetResultGroups | src/js/actions/userActions.js:397-399 | with group scope support, `groups` is `{ALL_DEVICES: [v]}` (or a throw when no value backs the set); otherwise it is empty |
| PermissionSets.UnknownSetGrantsNothing | src/js/actions/userActions.js:383-399 | a set nothing in the catalog backs, without group scope, yields the empty record |
| PermissionSets.NothingBacked | src/js/actions/userActions.js:388-390 | an area that no item backs stays empty |
| PermissionSets.StorePermissionSets | src/js/actions/userActions.js:379-404 | the loop computes `ReceivePermissionSets` |
| PermissionSets.EnrichPermissionSet | src/js/actions/userActions.js:381-399 | one received set is stored with its name and its computed result, as `EnrichSet` states |
| PermissionSets.ReceiveNoneStays | src/js/actions/userActions.js:379-404 | a failure on a prefix of the data fails the whole fold |
| PermissionSets.NamesSpec | src/js/actions/userActions.js:400 | the received names are exactly the names in the data |
| PermissionSets.ReceivePermissionSetsSpec | src/js/actions/userActions.js:379-404 | keys = old plus received; unreceived sets unchanged; each received set keeps its name and gets the computed result |
| RoleNormalization.UnknownRefsSkipped | src/js/actions/userActions.js:313-315 | references to unknown sets are ignored |
| RoleNormalization.FoldCustomMarksCustom | src/js/actions/userActions.js:296-303 | folding custom permissions keeps `isCustom` and sets it when there is at least one |
| RoleNormalization.FoldRefsKeepsCustom | src/js/actions/userActions.js:311-329 | once custom, the role stays custom through the fold |
| RoleNormalization.ParseRolePermissions | src/js/actions/userActions.js:310-331 | `parseRolePermissions`: the scoped references folded into the empty record, then the role's own custom permissions; `ParseRoleWellFormed`, `ParseRoleCustom` and `RoleRoundTrip.NormalizeTransformed` state its result |
| RoleNormalization.ParseRoleCustom | src/js/actions/userActions.js:310-331 | a role with raw custom permissions is custom |
| RoleNormalization.GroupScopedRefSpec | src/js/actions/userActions.js:316-318 | a group-scoped reference succeeds iff the set backs a group value; it then grants that value to the scoped groups only, leaving areas and `isCustom` alone |
| RoleNormalization.FoldCustomWellFormed | src/js/actions/userActions.js:296-303 | custom permissions keep the record full and duplicate-free |
| RoleNormalization.GrantKeepsDuplicateFree | src/js/actions/userActions.js:305-308 | granting to groups keeps every group list duplicate-free |
| RoleNormalization.ParseStepWellFormed | src/js/actions/userActions.js:312-327 | one reference step keeps the record full and duplicate-free |
| RoleNormalization.FoldRefsWellFormed | src/js/actions/userActions.js:311-329 | the whole reference fold keeps the record full and duplicate-free |
| RoleNormalization.ParseRoleWellFormed | src/js/actions/userActions.js:310-331 | a parsed role's record is full and duplicate-free |
| RoleNormalization.NormalizeRole | src/js/actions/userActions.js:335-358 | one step of `normalizeRbacRoles`: stored permissions for a stored role, the parse for a new one, then the spread record; `NormalizeRoleSpec` and `NormalizeRoleFails` state it |
| RoleNormalization.NormalizeRoles | src/js/actions/userActions.js:333-362 | the reduce of `normalizeRbacRoles` from a copy of `rolesById`; `NormalizeRolesSpec` and `NormalizeRolesFails` state it, and `NormalizeRbacRoles` is proved to compute it |
| RoleNormalization.NormalizeRbacRoles | src/js/actions/userActions.js:333-362 | the loop computes `NormalizeRoles` |
| RoleNormalization.NormalizeRoleSpec | src/js/actions/userActions.js:338-358 | one normalised role has a record. A stored role keeps its record and is not custom. A new role takes the permissions and custom flag of its parse, which succeeds. It is editable iff it is neither default nor custom and the accumulated state does not say otherwise. It carries the received references and permissions, and a stored non-empty name or description wins |
| RoleNormalization.NormalizedKeys | src/js/actions/userActions.js:333-362 | the fold's keys are the stored ones plus the received names; other stored roles are untouched |
| RoleNormalization.NormalizedReceived | src/js/actions/userActions.js:333-362 | every received role ends with a record. Stored ones keep theirs and are not custom. A new one holds the permissions and custom flag of the parse of the last role sent under its name. Default and custom roles are not editable |
| RoleNormalization.NormalizedParsed | src/js/actions/userActions.js:333-362 | a received role the store did not hold ends with the permissions and custom flag of the parse of the last role sent under its name, and that parse succeeds |
| RoleNormalization.NormalizedKeepsText | src/js/actions/userActions.js:333-362 | a stored non-empty name or description survives the whole fold |
| RoleNormalization.NormalizeNoneStays | src/js/actions/userActions.js:333-362 | a failure on a prefix of the roles fails the whole fold |
| RoleNormalization.NormalizeRolesSpec | src/js/actions/userActions.js:333-362 | keys = old plus received; unreceived roles unchanged; stored roles keep their permissions and are not custom; new roles hold the parse of the last role sent under their name; default and custom roles are not editable; stored description and name win |
| RoleNormalization.NormalizeRoleFails | src/js/actions/userActions.js:337-347 | one received role throws iff it is stored without `uiPermissions`, or it is new and its parse throws |
| RoleNormalization.NormalizeRolesFails | src/js/actions/userActions.js:333-362 | the fold throws iff some received role throws; the reducer's initial default roles carry no `uiPermissions`, so receiving one of them while it is stored that way throws |
| RoleNormalization.MapUserRolesToUiPermissions | src/js/actions/userActions.js:364-373 | `mapUserRolesToUiPermissions`: the records of the assigned, known roles merged into the empty record; `MapUserRolesShape`, `MapUserRolesAreas` and `MapUserRolesGroups` state it |
| RoleNormalization.MapUserRolesShape | src/js/actions/userActions.js:364-373 | a user's combined record exists, is full and is duplicate-free |
| RoleNormalization.MapUserRolesAreas | src/js/actions/userActions.js:364-373 | a value is in an area iff some assigned, known role grants it there |
| RoleNormalization.MapUserRolesGroups | src/js/actions/userActions.js:364-373 | a value is in a group iff some assigned, known role grants it to that group |
| RoleTransform.DeriveImpliedAreaPermissions | src/js/actions/userActions.js:420-431 | the two loops compute `DeriveImplied` |
| RoleTransform.HighestNoneStays | src/js/actions/userActions.js:421-424 | an unknown value on a prefix makes the level reduce throw |
| RoleTransform.HighestLevelSpec | src/js/actions/userActions.js:421-424 | defined iff every selected value is known; the level is at least 1, bounds every selected level, and is 1 or attained |
| RoleTransform.ImpliedValuesSpec | src/js/actions/userActions.js:425-430 | a value is implied iff the area defines it with a level below the highest, or it is selected |
| RoleTransform.NothingSelected | src/js/actions/userActions.js:420-431 | with nothing selected, exactly the area's values of level below 1 are implied |
| RoleTransform.DeriveImplied | src/js/actions/userActions.js:420-431 | `deriveImpliedAreaPermissions`: the area's catalog values selected or strictly below the highest selected level; `DeriveImpliedSpec` states it |
| RoleTransform.DeriveImpliedSpec | src/js/actions/userActions.js:420-431 | defined iff the area exists and every selected value is known; membership iff selected or of lower level |
| RoleTransform.IndexOfName | src/js/actions/userActions.js:441 | finds the entry of a set name, or says no entry has it |
| RoleTransform.Tag | src/js/actions/userActions.js:440-447 | pairs each set name with the group, in order |
| RoleTransform.ScopedRefs | src/js/actions/userActions.js:450-455 | one reference per accumulated set |
| RoleTransform.TransformGroupRoleDataToScopedPermissionsSets | src/js/actions/userActions.js:437-456 | the nested loops compute `GroupRefs` |
| RoleTransform.AddSetNames | src/js/actions/userActions.js:440-447 | the inner loop adds the group under each set name, or throws on an unknown value |
| RoleTransform.AccumulateAppend | src/js/actions/userActions.js:438-449 | accumulating `a + b` is accumulating `a`, then `b` |
| RoleTransform.TagAppend | src/js/actions/userActions.js:440-447 | tagging distributes over append |
| RoleTransform.SetNamesNoneStays | src/js/actions/userActions.js:441 | an unknown value on a prefix makes the whole set-name list throw |
| RoleTransform.GroupPairsNoneStays | src/js/actions/userActions.js:438-449 | a throw at one selection makes the whole transform throw |
| RoleTransform.GroupPairsNoneFrom | src/js/actions/userActions.js:438-449 | a throw on a prefix of the selections persists |
| RoleTransform.AddGroupSpec | src/js/actions/userActions.js:441-445 | adding keeps set names distinct and in order, and records exactly one new pair |
| RoleTransform.AccumulateSpec | src/js/actions/userActions.js:438-449 | the object has distinct set names, and records (set, group) iff that pair was added |
| RoleTransform.ScopedRefsSpec | src/js/actions/userActions.js:450-455 | distinct names in accumulation order; unscoped iff ALL_DEVICES was added; otherwise a group scope with the recorded groups, without repeats |
| RoleTransform.ScopedRefsAt | src/js/actions/userActions.js:450-455 | each reference is unscoped iff its groups include ALL_DEVICES; otherwise it is the filtered groups under the group scope type |
| RoleTransform.SetNamesSpec | src/js/actions/userActions.js:441 | the names exist iff every value backs a group set, and then each one is that value's group set |
| RoleTransform.GroupPairsSpec | src/js/actions/userActions.js:437-449 | (set, group) is recorded iff some selection for that group implies a value backed by the set |
| RoleTransform.GroupRefsNames | src/js/actions/userActions.js:437-456 | the references have distinct names, and every selected set appears |
| RoleTransform.GroupRefsSelected | src/js/actions/userActions.js:437-456 | every reference names a set some group selection implies |
| RoleTransform.GroupRefsScopes | src/js/actions/userActions.js:450-455 | unscoped iff ALL_DEVICES selects the set; otherwise the group scope type, no repeats, and exactly the selecting groups |
| RoleTransform.TransformRoleDataToRole | src/js/actions/userActions.js:458-500 | the method computes `TransformRole` |
| RoleTransform.TransformAreas | src/js/actions/userActions.js:469-482 | the area loop computes `AreaStep` over the catalog's areas |
| RoleTransform.CollectGroupSelections | src/js/actions/userActions.js:485-490 | the loop computes `GroupsMap` |
| RoleTransform.AreaStepNoneStays | src/js/actions/userActions.js:469-482 | a throw on a prefix of the areas persists |
| RoleTransform.GroupsMapSpec | src/js/actions/userActions.js:485-490 | keys are the truthy group names; each maps to its last selection |
| RoleTransform.GroupsMapKeys | src/js/actions/userActions.js:485-490 | the keys are exactly the truthy group names selected |
| RoleTransform.GroupsMapValues | src/js/actions/userActions.js:485-490 | each key holds the values of the last selection of that group |
| RoleTransform.TransformRole | src/js/actions/userActions.js:458-500 | `transformRoleDataToRole`: the role record and its scoped references; `TransformRoleSpec` states it, and `RoleRoundTrip.NormalizeTransformed` proves the parse gives it back |
| RoleTransform.TransformRoleSpec | src/js/actions/userActions.js:458-500 | succeeds iff areas and groups transform; references are Basic, then area refs, then group refs; the role is named, full, has the implied areas (others `[]`) and the group map; description falls back to the stored one |
| RoleTransform.AreaStepSpec | src/js/actions/userActions.js:469-482 | exactly the selected catalog areas get their implied values |
| RoleTransform.AreaRefsSpec | src/js/actions/userActions.js:477 | an area's references are unscoped, named by the implied values' area sets |
| RoleTransform.AreaStepRefs | src/js/actions/userActions.js:469-482 | a reference is sent iff it is unscoped and some selected area implies a value backed by that set |
| RoleRoundTrip.StepExtends | src/js/actions/userActions.js:312-327 | a step over a known, non-custom reference succeeds and adds exactly that reference's grants; area keys and `isCustom` are kept |
| RoleRoundTrip.ScopedStepExtends | src/js/actions/userActions.js:316-318 | a group-scoped step grants the set's group value to exactly the scoped groups and leaves the areas alone |
| RoleRoundTrip.ScopedStepGroups | src/js/actions/userActions.js:316-318 | the groups after a group-scoped step hold what they held before, plus the set's group value for each group of the scope, and nothing else |
| RoleRoundTrip.GrantHolds | src/js/actions/userActions.js:305-308 | after `mapGroupPermissionSet`, a group holds a value iff it held it before, or it is named and the value is the set's group permission |
| RoleRoundTrip.MergedStepAreas | src/js/actions/userActions.js:322-326 | an unscoped step adds to each area exactly the values of the set's result there |
| RoleRoundTrip.MergedStepGroups | src/js/actions/userActions.js:322-326 | an unscoped step adds to each group exactly the values of the set's result for it |
| RoleRoundTrip.FoldExtends | src/js/actions/userActions.js:311-329 | the reference fold succeeds and adds exactly the grants of all references, when every step can take its reference |
| RoleRoundTrip.GroupRefShape | src/js/actions/userActions.js:437-456 | each group reference names a set some selection implies; it is unscoped iff `ALL_DEVICES` selects it, and otherwise scoped to exactly the selecting groups |
| RoleRoundTrip.GroupRefGrants | src/js/actions/userActions.js:305-327 | parsed back, a group reference grants the set's group value to `ALL_DEVICES` when unscoped, or else to exactly the groups whose selections imply it; it grants nothing in the areas |
| RoleRoundTrip.AreaSelectsBacked | src/js/actions/userActions.js:477 | the set an area selection implies for an area grants, alone, one value that selection implies |
| RoleRoundTrip.AreaRefGrants | src/js/actions/userActions.js:469-482 | parsed back, an area reference grants only values its area's selection implies, and nothing to groups |
| RoleRoundTrip.AreaImpliedGranted | src/js/actions/userActions.js:469-482 | every value an area selection implies is granted by some area reference |
| RoleRoundTrip.GroupGrantImplied | src/js/actions/userActions.js:437-456 | every group grant of a group reference is implied by a selection of that group |
| RoleRoundTrip.GroupImpliedGranted | src/js/actions/userActions.js:437-456 | when no set is implied for both `ALL_DEVICES` and another group, every implied group value is granted back to that group |
| RoleRoundTrip.SelectsBacked | src/js/actions/userActions.js:441 | a set a group selection implies backs the implied value, and its stored result grants that value to `ALL_DEVICES` |
| RoleRoundTrip.ImpliedSelects | src/js/actions/userActions.js:441 | an implied group value belongs to a set that is selected for the group and backs that value |
| RoleRoundTrip.BackedValuesSpec | src/js/actions/userActions.js:387-392 | a value is listed for a set in an area iff some catalog entry backs the set there |
| RoleRoundTrip.StoredSetGrantsNothing | src/js/actions/userActions.js:383-399 | a set that nothing backs and that lacks the group scope, as `getPermissionSets` stores it, grants nothing |
| RoleRoundTrip.StoredSetGrantsOnly | src/js/actions/userActions.js:383-399 | a set backed only by one value in one area, without group scope, grants that value there and nothing else |
| RoleRoundTrip.StoredGroupSetBacks | src/js/actions/userActions.js:383-399 | a `groups` set with the group scope that backs no area grants its group value to `ALL_DEVICES` and nothing else |
| RoleRoundTrip.ReparsedExtends | src/js/actions/userActions.js:310-331 | the sent references parse without throwing; area grants are exactly the implied area values; group grants are implied, and cover every implied value when scopes are disjoint |
| RoleRoundTrip.EditedAreas | src/js/actions/userActions.js:458-500 | the edited role's record is full, and each area holds exactly what its selection implies |
| RoleRoundTrip.NormalizeTransformed | src/js/actions/userActions.js:458-500 | the round trip: parsing the sent references gives a full, non-custom record equal, area by area, to the edited role's, and granting each group exactly the values its selections imply |
| RoleRoundTrip.MixedScopeLosesGroup | src/js/actions/userActions.js:450-455 | a set implied for `ALL_DEVICES` and for another group is granted back to `ALL_DEVICES` only: the other group loses a value its selection implies |
| UserReducer.KeyOf | src/js/reducers/userReducer.js:60-64 | the property key `String(v)` of a computed key such as `[action.user.id]`: "undefined", "null", "true" or "false", a number's decimal digits, a string itself; the per-action specs use it for `byId` and `rolesById` keys |
| UserReducer.NatString | src/js/reducers/userReducer.js:72 | a number key has at least one digit |
| UserReducer.Dict.constructor | src/js/reducers/userReducer.js:80-82 | a spread creates an object holding the given entries |
| UserReducer.NewUserState | src/js/reducers/userReducer.js:4-36 | the initial state, with two fresh, distinct dictionaries |
| UserReducer.Next | src/js/reducers/userReducer.js:38-229 | the reducer on values, case by case; `ReceivedUserSpec` to `UnrecognisedSpec` state each case, `Idempotent` states it for every action, and `Reduce` is proved to compute it |
| UserReducer.Reduce | src/js/reducers/userReducer.js:38-229 | the new state's view is `Next` of the old view; `REMOVED_USER` deletes from the old `byId` in place and returns a fresh copy; `REMOVED_ROLE` mutates and returns the same `rolesById`; other tags share or copy; unknown tags return the state itself |
| UserReducer.ReceivedUserSpec | src/js/reducers/userReducer.js:55-65 | the user is stored under its id as a spread copy and becomes current; nothing else changes |
| UserReducer.UserListAndCreatedUser | src/js/reducers/userReducer.js:50-74 | the user list replaces `byId`; a created user is stored under "0" as given |
| UserReducer.RemovedUserSpec | src/js/reducers/userReducer.js:75-85 | exactly the user's key goes; other entries keep their values; `currentUser` becomes null iff it was that user |
| UserReducer.UpdatedUserSpec | src/js/reducers/userReducer.js:86-96 | the user's entry is the old entry spread with the update; other entries are unchanged |
| UserReducer.ReceivedRolesSpec | src/js/reducers/userReducer.js:102-109 | the received roles overwrite their keys; other roles are unchanged |
| UserReducer.RoleEditSpec | src/js/reducers/userReducer.js:118-139 | a created or updated role is its old entry spread with the new fields; other roles are unchanged |
| UserReducer.RemovedRoleSpec | src/js/reducers/userReducer.js:110-117 | exactly the role's key goes; other roles are unchanged |
| UserReducer.GlobalSettingsSpec | src/js/reducers/userReducer.js:140-147 | settings are merged key by key; nothing else changes |
| UserReducer.OnboardingSetterSpec | src/js/reducers/userReducer.js:153-224 | each onboarding setter sets its own field to the action's `show`, `complete` or `value`; no other onboarding field and nothing outside `onboarding` changes |
| UserReducer.OnboardingSetChanges | src/js/reducers/userReducer.js:153-224 | within `onboarding`, a setter writes the action's property into the field it owns and changes no other field |
| UserReducer.UnrecognisedSpec | src/js/reducers/userReducer.js:226-227 | an unknown tag leaves the state unchanged |
| UserReducer.Idempotent | src/js/reducers/userReducer.js:38-229 | applying any action twice equals applying it once |
| UserReducer.UserActionsIdempotent | src/js/reducers/userReducer.js:50-100 | the user-list, user, removal, update and current-user actions are idempotent |
| UserReducer.RoleActionsIdempotent | src/js/reducers/userReducer.js:102-139 | the role actions are idempotent, the merges by `{...a, ...b, ...b} = {...a, ...b}` |
| UserReducer.OtherActionsIdempotent | src/js/reducers/userReducer.js:40-49 | the QR code, login, settings, help and unrecognised actions are idempotent |
| UserReducer.OnboardingSetTwice | src/js/reducers/userReducer.js:153-224 | an onboarding setter applied twice is applied once |
| UserReducer.RemoveRoleAsWrittenKeepsRole | src/js/actions/userActions.js:524-530 | the action `removeRole` dispatches removes only the key "undefined"; the role stays |
| UserReducer.RemoveRoleCorrectedRemoves | src/js/reducers/userReducer.js:110-116 | dispatching `roleId` removes exactly that role |
| UserReducer.ReceiveRolesAsWrittenIgnored | src/js/actions/userActions.js:417 | the action `getRoles` dispatches leaves the state unchanged |
| UserReducer.ReceiveRolesCorrectedStores | src/js/reducers/userReducer.js:102-109 | dispatching `rolesById` stores every received role and keeps the others |
| ArtifactInformation.LetterRun | src/js/components/artifacts/dialogs/artifactinformationform.js:60 | the longest prefix of lower-case letters |
| ArtifactInformation.CheckDestinationValidity | src/js/components/artifacts/dialogs/artifactinformationform.js:60 | `checkDestinationValidity`; `DestinationValiditySpec` states it as an iff with the regular expression's reading |
| ArtifactInformation.DestinationValiditySpec | src/js/components/artifacts/dialogs/artifactinformationform.js:60 | valid iff empty, absolute, or a non-empty lower-case scheme followed by "://" |
| ArtifactInformation.DestinationExamples | src/js/components/artifacts/dialogs/artifactinformationform.js:60 | "", "/d" and "s://d" are valid; "d/w" and "S://d" are not |
| ArtifactInformation.LastIndexOf | src/js/components/artifacts/dialogs/artifactinformationform.js:96 | -1 iff the character is absent; otherwise its last position |
| ArtifactInformation.Split | src/js/components/artifacts/dialogs/artifactinformationform.js:97 | `split` returns at least one piece |
| ArtifactInformation.FirstIndexOf | src/js/components/artifacts/dialogs/artifactinformationform.js:97 | the first position of a separator that is present |
| ArtifactInformation.JoinSplit | src/js/components/artifacts/dialogs/artifactinformationform.js:97 | joining the pieces of `split` with the separator gives back the string |
| ArtifactInformation.SplitPieces | src/js/components/artifacts/dialogs/artifactinformationform.js:97 | no piece contains the separator |
| ArtifactInformation.FirstIndexAfter | src/js/components/artifacts/dialogs/artifactinformationform.js:97 | the first separator after a separator-free prefix is at the prefix's length |
| ArtifactInformation.SplitJoin | src/js/components/artifacts/dialogs/artifactinformationform.js:97 | splitting a join of separator-free pieces gives back the pieces |
| ArtifactInformation.Substring | src/js/components/artifacts/dialogs/artifactinformationform.js:97-98 | `String.prototype.substring`, with both ends clamped and swapped when out of order; `PendingText` and `NoCommaCompleted` state its uses |
| ArtifactInformation.TextInputChange | src/js/components/artifacts/dialogs/artifactinformationform.js:89-104 | `onTextInputChange`; `ClearAndReset`, `PendingText`, `CompletedEntries` and `TextInputChangeSpec` state its result |
| ArtifactInformation.ClearAndReset | src/js/components/artifacts/dialogs/artifactinformationform.js:91-95 | "clear" empties the input and selection and marks the form invalid; "reset" updates nothing |
| ArtifactInformation.PendingText | src/js/components/artifacts/dialogs/artifactinformationform.js:96-98 | the text left in the input has no comma; it is all of the input without a comma, otherwise what follows the last comma |
| ArtifactInformation.CompletedEntries | src/js/components/artifacts/dialogs/artifactinformationform.js:96-97 | completed entries are the comma-separated pieces before the last comma, each once, none containing a comma |
| ArtifactInformation.NoCommaCompleted | src/js/components/artifacts/dialogs/artifactinformationform.js:96-97 | without a comma the single completed entry is "" |
| ArtifactInformation.TextInputChangeSpec | src/js/components/artifacts/dialogs/artifactinformationform.js:89-104 | the update stores the pending text and a selection whose non-empty members are exactly those of the old selection and the completed entries; valid iff that union, the name and the destination are non-empty; onboarding advances iff more than 3 characters are pending |
| ArtifactInformation.DeviceTypeSelectionChange | src/js/components/artifacts/dialogs/artifactinformationform.js:106 | `onDeviceTypeSelectionChange`; `ValidityByHandler` states its validity rule |
| ArtifactInformation.TextInputLeave | src/js/components/artifacts/dialogs/artifactinformationform.js:108-115 | `onTextInputLeave`: the left text joins the selection and the input is emptied; `ValidityByHandler` states its validity rule |
| ArtifactInformation.DestinationChange | src/js/components/artifacts/dialogs/artifactinformationform.js:117-118 | `onDestinationChange`; `ValidityByHandler` states its validity rule |
| ArtifactInformation.ValidityByHandler | src/js/components/artifacts/dialogs/artifactinformationform.js:103-118 | a destination change requires a well-formed destination, while the other handlers only require a non-empty one, so "data" is accepted by one and refused by the other |
| ArtifactInformation.InitialUpdate | src/js/components/artifacts/dialogs/artifactinformationform.js:72-79 | the first effect of `ArtifactInformation`; `InitialUpdateSpec` states it |
| ArtifactInformation.InitialUpdateSpec | src/js/components/artifacts/dialogs/artifactinformationform.js:72-79 | before onboarding completes, the destination is preset and valid, so validity rests on selection and name; afterwards the destination is kept |
| ArtifactInformation.ReplaceFirstDot | src/js/components/artifacts/dialogs/artifactinformationform.js:32 | `name.replace('.', '-')`; `ReplaceFirstDotSpec` states it |
| ArtifactInformation.ReplaceFirstDotSpec | src/js/components/artifacts/dialogs/artifactinformationform.js:32 | `replace('.', '-')` keeps the length and changes only the first dot |
| ArtifactInformation.VersionDefaults | src/js/components/artifacts/dialogs/artifactinformationform.js:27-41 | the software name defaults to the file name with its first dot replaced; the version defaults to "1.0.0"; valid iff all three fields are non-empty |
| ArtifactInformation.EditVersion | src/js/components/artifacts/dialogs/artifactinformationform.js:49-53 | one `onChange` of a version field: it sets that field, and the effect of lines 39-41 recomputes validity; `EditVersionsSpec` states it |
| ArtifactInformation.EditVersions | src/js/components/artifacts/dialogs/artifactinformationform.js:39-53 | a run of version edits; `EditVersionsSpec` states it |
| ArtifactInformation.EditVersionsSpec | src/js/components/artifacts/dialogs/artifactinformationform.js:39-53 | after any run of edits each field holds its last typed text; once anything is edited, the update is valid iff all three fields are non-empty |
| ArtifactInformation.InitialVersionAgrees | src/js/components/artifacts/dialogs/artifactinformationform.js:29-53 | every version update, on mount and after any edits, is valid iff all three fields are non-empty |

## Left out

- Network calls, `dispatch`, promises, snackbars, `console.log`, cookies, local and session storage: the model takes the values these deliver as parameters. These include the server's roles and permission sets, `getState()` and `mender_environment`.
- The permission catalog and the other constant modules (`uiPermissionsById`, `uiPermissionsByArea`, `emptyUiPermissions`, `defaultPermissionSets`, `defaultRolesById`, `emptyRole`, `ALL_DEVICES`, `PermissionTypes`) are not part of this model. They are a `Catalog` parameter. `helpers.js` (`duplicateFilter`, `unionizeStrings`) is not part of this model either. `duplicateFilter` is taken to keep the first occurrence.
- Endpoint path regular expressions are modelled as arbitrary predicates on the value.
- Key order of JavaScript objects is not modelled. Maps are unordered, except where the source iterates an object built in insertion order: there the model keeps a sequence. Set names are assumed not to be integer-like strings.
- `Object.prototype` members reached through a lookup (a role or set called `constructor`) are not modelled.
- An `undefined` key is not modelled. In JavaScript it becomes the key "undefined"; the model treats a missing set name, or a missing `permissionSets.groups`, as a throw.
- The aliasing of `combineGroupPermissions` is not modelled: it mutates the `groups` object it is given. The model copies, which is what every caller observes. `mergePermissions` passes a fresh spread (line 284). `mapGroupPermissionSet` mutates the map it is given: at line 317 that is the parse fold's private accumulator, which starts as the fresh `{}` of line 328 and is re-copied by every merge. In `getPermissionSets` (line 398) it is a fresh default `{}`.
- The reduces of `mergePermissions`, `mapGroupPermissionSet`, `parseRolePermissions`, `customPermissionHandler` and `mapUserRolesToUiPermissions` are recursive functions on values, not loops. The accumulators they mutate are private to one call (see the aliasing line above), so a fold on values computes the same result, in the same order.
- UserReducer.Next: a `RECEIVED_USER` action without a `user` throws when line 60 reads `action.user.id`. `Next` and `Reduce` require `!Throws(a)`, so the model does not cover that throw. In the source the throw escapes the dispatch.
- PermissionModel.Lookup: `uiPermissionsById[value]` is modelled as a search of the catalog's entries by their `value` field. The constants are assumed to key every entry by its own `value`.
- CustomPermissions.MapHttpPermission: the reduce of line 225 also visits the `groups` entry of `uiPermissionsByArea`, and the model visits only the flat areas.
  - A wildcard value writes an empty array under `groups`. `mergePermissions` (line 284) adds nothing for it, so the results agree.
  - A matching endpoint of the `groups` area would write a non-empty array there, which the merge would spread by index into the group map. The model assumes that no such endpoint can match an HTTP permission.
- CustomPermissions.HttpGrant: it grants flat areas only, under the same assumption about the `groups` area.
- ArtifactInformation.TextInputChange: strings are sequences of Unicode scalar values, while JavaScript's `.length` counts UTF-16 code units. So `customDeviceTypes.length > 3` (line 100) differs for characters outside the Basic Multilingual Plane: "ab😀" has length 4 in JavaScript and 3 here.
- A fallback of `mapHttpPermission` is not modelled. The endpoint list is never falsy, so `definition.uiPermissions` is never used. The verb test runs only when nothing matched, which the guard excludes unless the value is `Any`.
- `isCustom` absent on a stored permission set is read as `false`.
- RoleTransform.TransformRoleSpec: the role data always has a name and the `uiPermissions` object. The source's `undefined` description on an absent stored role is modelled as "".
- UserReducer: numbers are integers. Spreading a string or array into an object is modelled as spreading nothing. `===` on objects is modelled as structural equality.
- UserReducer: the constants file at this version defines no `RECEIVED_ROLES`, `REMOVED_ROLE`, `CREATED_ROLE` or `UPDATED_ROLE`. In JavaScript, those `case` labels would be `undefined`. The model treats them as the distinct tags the reducer evidently switches on.
- UserReducer.NewUserState: `complete` and `demoArtifactPort` come from the environment and local storage, so they are parameters.
- ArtifactInformation: `isValid` is stored as its truth value. The source stores the last operand of `&&`, which can be a number or a string.
- ArtifactInformation: `unionizeStrings` is a parameter. The properties assume only that it is a set union on non-empty strings (`UnionOnNonEmpty`).
- ArtifactInformation: the debounced release name, the React hooks, onboarding tooltip placement and DOM anchors are not modelled. For `advanceOnboarding`, only whether it is called is modelled.

## Findings

| source | as written | input that shows it | evidently intended | confidence | as-written member | corrected member |
|---|---|---|---|---|---|---|
| src/js/actions/userActions.js:529 | `removeRole` dispatches `REMOVED_ROLE` with the remaining roles as `value`; the reducer (src/js/reducers/userReducer.js:110-116) deletes `rolesById[action.roleId]`, i.e. the key "undefined" | any stored role "r1" and `removeRole("r1")`: "r1" is still in `rolesById` afterwards | dispatch `roleId`, so the reducer removes that role | not executed; high from the two texts | UserReducer.RemoveRoleAsWrittenKeepsRole | UserReducer.RemoveRoleCorrectedRemoves |
| src/js/actions/userActions.js:417 | `getRoles` dispatches `RECEIVED_ROLES` with the roles as `value`; the reducer (src/js/reducers/userReducer.js:102-109) spreads `action.rolesById`, which is absent | any role list: the state after the dispatch equals the state before | dispatch the roles as `rolesById` | not executed; high from the two texts | UserReducer.ReceiveRolesAsWrittenIgnored | UserReducer.ReceiveRolesCorrectedStores |

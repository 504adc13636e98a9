/**
 * The user store reducer of src/js/reducers/userReducer.js: a state machine
 * over a record of JavaScript objects, driven by tagged actions.
 *
 * Every case builds a new state by spread, so the new state shares every
 * object it does not rebuild with the old one; `REMOVED_USER` and
 * `REMOVED_ROLE` `delete` from the existing `byId` / `rolesById` objects in
 * place. Those two objects are therefore instances of `Dict`, and the
 * reducer is a method proved against the value-level function `Next`.
 */
module UserReducer {

  /** A JavaScript value as far as the reducer can tell values apart; numbers are integers. */
  datatype Json =
    | Undefined
    | Null
    | Bool(b: bool)
    | Num(n: int)
    | Str(s: string)
    | Arr(items: seq<Json>)
    | Obj(fields: map<string, Json>)

  /** The own enumerable properties `{ ...j }` copies; only objects contribute. */
  function Spread(j: Json): map<string, Json> {
    if j.Obj? then j.fields else map[]
  }

  /** `m[k]` on an object held as a map. */
  function Prop(m: map<string, Json>, k: string): Json {
    if k in m then m[k] else Undefined
  }

  /** `j.k` where `j` is neither `undefined` nor `null`. */
  function Member(j: Json, k: string): Json
    requires !j.Undefined? && !j.Null?
  {
    if j.Obj? then Prop(j.fields, k) else Undefined
  }

  function DigitString(d: nat): string
    requires d < 10
  {
    ["0123456789"[d]]
  }

  function NatString(n: nat): (r: string)
    ensures |r| >= 1
  {
    if n < 10 then DigitString(n) else NatString(n / 10) + DigitString(n % 10)
  }

  /**
   * The property key a value becomes (`String(j)`): `[action.user.id]`,
   * `delete byId[action.userId]` and the other computed keys.
   */
  function KeyOf(j: Json): string {
    match j
    case Undefined => "undefined"
    case Null => "null"
    case Bool(b) => if b then "true" else "false"
    case Num(n) => if n < 0 then "-" + NatString(-n) else NatString(n)
    case Str(s) => s
    case Arr(items) => JoinKeys(items)
    case Obj(_) => "[object Object]"
  }

  /** `Array.prototype.join` with `,`, where `undefined` and `null` elements print as nothing. */
  function JoinKeys(items: seq<Json>): string
    decreases items
  {
    if items == [] then ""
    else
      var first := if items[0].Undefined? || items[0].Null? then "" else KeyOf(items[0]);
      if |items| == 1 then first else first + "," + JoinKeys(items[1..])
  }

  /** The action tags the reducer switches on; `Unrecognised` stands for every other tag. */
  datatype Tag =
    | ReceivedQrCode
    | SuccessfullyLoggedIn
    | ReceivedUserList
    | ReceivedUser
    | CreatedUser
    | RemovedUser
    | UpdatedUser
    | SetCurrentUser
    | ReceivedRoles
    | RemovedRole
    | CreatedRole
    | UpdatedRole
    | SetGlobalSettings
    | SetShowHelp
    | SetShowOnboardingHelp
    | SetShowOnboardingHelpDialog
    | SetOnboardingComplete
    | SetShowConnectDevice
    | SetShowCreateArtifact
    | SetOnboardingProgress
    | SetOnboardingDeviceType
    | SetOnboardingApproach
    | SetOnboardingArtifactIncluded
    | Unrecognised(tag: string)

  /** A dispatched action: its `type` and its other properties. */
  datatype Action = Action(tag: Tag, fields: map<string, Json>)

  function Field(a: Action, k: string): Json {
    Prop(a.fields, k)
  }

  /** The only action the reducer cannot take: `RECEIVED_USER` without a user reads `id` of nothing. */
  predicate Throws(a: Action) {
    a.tag == ReceivedUser && (Field(a, "user").Undefined? || Field(a, "user").Null?)
  }

  datatype Onboarding = Onboarding(
    approach: Json,
    artifactIncluded: Json,
    complete: Json,
    deviceType: Json,
    demoArtifactPort: Json,
    progress: Json,
    showTips: Json,
    showTipsDialog: Json,
    showConnectDeviceDialog: Json,
    showCreateArtifactDialog: Json)

  /** The state as values: what `Next` computes. */
  datatype Snapshot = Snapshot(
    byId: map<string, Json>,
    currentUser: Json,
    jwtToken: Json,
    qrCode: Json,
    globalSettings: map<string, Json>,
    showHelptips: Json,
    onboarding: Onboarding,
    rolesById: map<string, Json>)

  /** `{ ...old, ...new }` for one stored entry. */
  function MergeEntry(m: map<string, Json>, key: string, incoming: Json): map<string, Json> {
    m[key := Obj(Spread(Prop(m, key)) + Spread(incoming))]
  }

  /** The onboarding field an onboarding setter writes and the action property it reads. */
  function OnboardingSet(o: Onboarding, tag: Tag, a: Action): Onboarding {
    match tag
    case SetShowOnboardingHelp => o.(showTips := Field(a, "show"))
    case SetShowOnboardingHelpDialog => o.(showTipsDialog := Field(a, "show"))
    case SetOnboardingComplete => o.(complete := Field(a, "complete"))
    case SetShowConnectDevice => o.(showConnectDeviceDialog := Field(a, "show"))
    case SetShowCreateArtifact => o.(showCreateArtifactDialog := Field(a, "show"))
    case SetOnboardingProgress => o.(progress := Field(a, "value"))
    case SetOnboardingDeviceType => o.(deviceType := Field(a, "value"))
    case SetOnboardingApproach => o.(approach := Field(a, "value"))
    case SetOnboardingArtifactIncluded => o.(artifactIncluded := Field(a, "value"))
    case _ => o
  }

  predicate IsOnboardingSetter(tag: Tag) {
    tag.SetShowOnboardingHelp? || tag.SetShowOnboardingHelpDialog? || tag.SetOnboardingComplete? ||
    tag.SetShowConnectDevice? || tag.SetShowCreateArtifact? || tag.SetOnboardingProgress? ||
    tag.SetOnboardingDeviceType? || tag.SetOnboardingApproach? || tag.SetOnboardingArtifactIncluded?
  }

  /** `userReducer(state, action)` on values. */
  function Next(s: Snapshot, a: Action): Snapshot
    requires !Throws(a)
  {
    match a.tag
    case ReceivedQrCode => s.(qrCode := Field(a, "value"))
    case SuccessfullyLoggedIn => s.(jwtToken := Field(a, "value"))
    case ReceivedUserList => s.(byId := Spread(Field(a, "users")))
    case ReceivedUser =>
      var id := Member(Field(a, "user"), "id");
      s.(byId := s.byId[KeyOf(id) := Obj(Spread(Field(a, "user")))], currentUser := id)
    case CreatedUser => s.(byId := s.byId["0" := Field(a, "user")])
    case RemovedUser =>
      var userId := Field(a, "userId");
      s.(byId := s.byId - {KeyOf(userId)}, currentUser := if s.currentUser == userId then Null else s.currentUser)
    case UpdatedUser => s.(byId := MergeEntry(s.byId, KeyOf(Field(a, "userId")), Field(a, "user")))
    case SetCurrentUser => s.(currentUser := Field(a, "user"))
    case ReceivedRoles => s.(rolesById := s.rolesById + Spread(Field(a, "rolesById")))
    case RemovedRole => s.(rolesById := s.rolesById - {KeyOf(Field(a, "roleId"))})
    case CreatedRole => s.(rolesById := MergeEntry(s.rolesById, KeyOf(Field(a, "roleId")), Field(a, "role")))
    case UpdatedRole => s.(rolesById := MergeEntry(s.rolesById, KeyOf(Field(a, "roleId")), Field(a, "role")))
    case SetGlobalSettings => s.(globalSettings := s.globalSettings + Spread(Field(a, "settings")))
    case SetShowHelp => s.(showHelptips := Field(a, "show"))
    case Unrecognised(_) => s
    case _ => s.(onboarding := OnboardingSet(s.onboarding, a.tag, a))
  }

  /** A JavaScript object the reducer may change in place. */
  class Dict {
    var entries: map<string, Json>

    constructor (m: map<string, Json>)
      ensures entries == m
    {
      entries := m;
    }
  }

  /** The store's state object; `byId` and `rolesById` are references. */
  datatype UserState = UserState(
    byId: Dict,
    currentUser: Json,
    jwtToken: Json,
    qrCode: Json,
    globalSettings: map<string, Json>,
    showHelptips: Json,
    onboarding: Onboarding,
    rolesById: Dict)

  function View(s: UserState): Snapshot
    reads s.byId, s.rolesById
  {
    Snapshot(s.byId.entries, s.currentUser, s.jwtToken, s.qrCode, s.globalSettings, s.showHelptips, s.onboarding, s.rolesById.entries)
  }

  /** The default roles of `initialState.rolesById`. */
  function DefaultRole(title: string, allowUserManagement: bool, description: string): Json {
    Obj(map[
      "title" := Str(title),
      "allowUserManagement" := Bool(allowUserManagement),
      "groups" := Arr([]),
      "description" := Str(description),
      "editable" := Bool(false),
      "permissions" := Arr([])])
  }

  /**
   * `initialState`; `complete` and `demoArtifactPort` come from the
   * environment and local storage, so they are parameters.
   */
  function InitialSnapshot(complete: Json, demoArtifactPort: Json): Snapshot {
    Snapshot(
      map[], Null, Null, Null,
      map["id_attribute" := Str("Device ID"), "previousFilters" := Arr([]), "previousPhases" := Arr([]), "retries" := Num(0)],
      Bool(true),
      Onboarding(Null, Null, complete, Null, demoArtifactPort, Num(0), Bool(false), Bool(false), Bool(false), Bool(false)),
      map[
        "RBAC_ROLE_PERMIT_ALL" := DefaultRole("Admin", true, "Full access"),
        "RBAC_ROLE_OBSERVER" := DefaultRole("Read only", false, ""),
        "RBAC_ROLE_CI" := DefaultRole("CI", false, "")])
  }

  /** Builds `initialState` with two distinct objects for `byId` and `rolesById`. */
  method NewUserState(complete: Json, demoArtifactPort: Json) returns (s: UserState)
    ensures View(s) == InitialSnapshot(complete, demoArtifactPort)
    ensures fresh(s.byId) && fresh(s.rolesById) && s.byId != s.rolesById
  {
    var init := InitialSnapshot(complete, demoArtifactPort);
    var byId := new Dict(init.byId);
    var rolesById := new Dict(init.rolesById);
    s := UserState(byId, init.currentUser, init.jwtToken, init.qrCode, init.globalSettings, init.showHelptips, init.onboarding, rolesById);
  }

  /**
   * `userReducer(state, action)`. The new state is `Next` of the old one;
   * `REMOVED_USER` also deletes the user from the old state's `byId` object,
   * and `REMOVED_ROLE` deletes the role from the old `rolesById` object,
   * which the new state goes on sharing. Every other case leaves the old
   * objects alone, sharing them or replacing them with fresh ones exactly
   * where the source spreads a new object; an unrecognised action returns the
   * very same state.
   */
  method Reduce(state: UserState, action: Action) returns (r: UserState)
    requires !Throws(action)
    requires state.byId != state.rolesById
    modifies state.byId, state.rolesById
    ensures View(r) == Next(old(View(state)), action)
    ensures r.byId != r.rolesById
    ensures action.tag == RemovedUser ==>
      fresh(r.byId) && r.rolesById == state.rolesById && state.byId.entries == r.byId.entries
    ensures action.tag == RemovedRole ==> r.byId == state.byId && r.rolesById == state.rolesById
    ensures action.tag != RemovedUser && action.tag != RemovedRole ==>
      unchanged(state.byId) && unchanged(state.rolesById) &&
      (r.byId == state.byId || fresh(r.byId)) && (r.rolesById == state.rolesById || fresh(r.rolesById))
    ensures action.tag.Unrecognised? ==> r == state
  {
    match action.tag {
      case ReceivedQrCode =>
        r := state.(qrCode := Field(action, "value"));
      case SuccessfullyLoggedIn =>
        r := state.(jwtToken := Field(action, "value"));
      case ReceivedUserList =>
        var byId := new Dict(Spread(Field(action, "users")));
        r := state.(byId := byId);
      case ReceivedUser =>
        var user := Field(action, "user");
        var id := Member(user, "id");
        var byId := new Dict(state.byId.entries[KeyOf(id) := Obj(Spread(user))]);
        r := state.(byId := byId, currentUser := id);
      case CreatedUser =>
        var byId := new Dict(state.byId.entries["0" := Field(action, "user")]);
        r := state.(byId := byId);
      case RemovedUser =>
        var userId := Field(action, "userId");
        state.byId.entries := state.byId.entries - {KeyOf(userId)};
        var byId := new Dict(state.byId.entries);
        r := state.(byId := byId, currentUser := if state.currentUser == userId then Null else state.currentUser);
      case UpdatedUser =>
        var byId := new Dict(MergeEntry(state.byId.entries, KeyOf(Field(action, "userId")), Field(action, "user")));
        r := state.(byId := byId);
      case SetCurrentUser =>
        r := state.(currentUser := Field(action, "user"));
      case ReceivedRoles =>
        var rolesById := new Dict(state.rolesById.entries + Spread(Field(action, "rolesById")));
        r := state.(rolesById := rolesById);
      case RemovedRole =>
        state.rolesById.entries := state.rolesById.entries - {KeyOf(Field(action, "roleId"))};
        r := state;
      case CreatedRole =>
        var rolesById := new Dict(MergeEntry(state.rolesById.entries, KeyOf(Field(action, "roleId")), Field(action, "role")));
        r := state.(rolesById := rolesById);
      case UpdatedRole =>
        var rolesById := new Dict(MergeEntry(state.rolesById.entries, KeyOf(Field(action, "roleId")), Field(action, "role")));
        r := state.(rolesById := rolesById);
      case SetGlobalSettings =>
        r := state.(globalSettings := state.globalSettings + Spread(Field(action, "settings")));
      case SetShowHelp =>
        r := state.(showHelptips := Field(action, "show"));
      case Unrecognised(_) =>
        r := state;
      case _ =>
        r := state.(onboarding := OnboardingSet(state.onboarding, action.tag, action));
    }
  }

  /** Everything but `byId` and `currentUser` is the same in both states. */
  predicate SameButUsers(s: Snapshot, t: Snapshot) {
    s.(byId := t.byId, currentUser := t.currentUser) == t
  }

  /** Everything but `rolesById` is the same in both states. */
  predicate SameButRoles(s: Snapshot, t: Snapshot) {
    s.(rolesById := t.rolesById) == t
  }

  /**
   * `RECEIVED_USER` stores a copy of the user under its id and makes that id
   * the current user; no other user and no other part of the state changes.
   */
  lemma ReceivedUserSpec(s: Snapshot, a: Action)
    requires a.tag == ReceivedUser && !Throws(a)
    ensures var id := Member(Field(a, "user"), "id");
      && Next(s, a).byId.Keys == s.byId.Keys + {KeyOf(id)}
      && Next(s, a).byId[KeyOf(id)] == Obj(Spread(Field(a, "user")))
      && (forall k :: k in s.byId && k != KeyOf(id) ==> Next(s, a).byId[k] == s.byId[k])
      && Next(s, a).currentUser == id
      && SameButUsers(s, Next(s, a))
  {
  }

  /** `RECEIVED_USER_LIST` replaces the users wholesale; `CREATED_USER` files the new user under `0`. */
  lemma UserListAndCreatedUser(s: Snapshot, a: Action)
    requires !Throws(a)
    ensures a.tag == ReceivedUserList ==> Next(s, a).byId == Spread(Field(a, "users")) && SameButUsers(s, Next(s, a))
    ensures a.tag == CreatedUser ==>
      && Next(s, a).byId.Keys == s.byId.Keys + {"0"}
      && Next(s, a).byId["0"] == Field(a, "user")
      && (forall k :: k in s.byId && k != "0" ==> Next(s, a).byId[k] == s.byId[k])
      && SameButUsers(s, Next(s, a))
  {
  }

  /**
   * `REMOVED_USER` removes exactly that id; the current user is cleared only
   * when it is the removed id.
   */
  lemma RemovedUserSpec(s: Snapshot, a: Action)
    requires a.tag == RemovedUser
    ensures forall k :: k in Next(s, a).byId <==> k in s.byId && k != KeyOf(Field(a, "userId"))
    ensures forall k :: k in Next(s, a).byId ==> Next(s, a).byId[k] == s.byId[k]
    ensures Next(s, a).currentUser != s.currentUser <==> s.currentUser == Field(a, "userId") && s.currentUser != Null
    ensures Next(s, a).currentUser != s.currentUser ==> Next(s, a).currentUser == Null
    ensures SameButUsers(s, Next(s, a))
  {
  }

  /**
   * `UPDATED_USER` shallow-merges the new fields into the stored entry,
   * creating it when absent: a field comes from the action when it has it and
   * from the old entry otherwise; no other user changes.
   */
  lemma UpdatedUserSpec(s: Snapshot, a: Action)
    requires a.tag == UpdatedUser
    ensures var key := KeyOf(Field(a, "userId"));
      && Next(s, a).byId.Keys == s.byId.Keys + {key}
      && (forall k :: k in s.byId && k != key ==> Next(s, a).byId[k] == s.byId[k])
      && Next(s, a).byId[key].Obj?
      && (forall f :: f in Next(s, a).byId[key].fields <==> f in Spread(Field(a, "user")) || f in Spread(Prop(s.byId, key)))
      && (forall f :: f in Spread(Field(a, "user")) ==> Next(s, a).byId[key].fields[f] == Spread(Field(a, "user"))[f])
      && (forall f :: f !in Spread(Field(a, "user")) && f in Spread(Prop(s.byId, key)) ==>
            Next(s, a).byId[key].fields[f] == Spread(Prop(s.byId, key))[f])
      && SameButUsers(s, Next(s, a))
  {
  }

  /**
   * `RECEIVED_ROLES` merges the received roles over the stored ones: a
   * received role replaces the stored entry, every other role is kept.
   */
  lemma ReceivedRolesSpec(s: Snapshot, a: Action)
    requires a.tag == ReceivedRoles
    ensures forall k :: k in Next(s, a).rolesById <==> k in s.rolesById || k in Spread(Field(a, "rolesById"))
    ensures forall k :: k in Spread(Field(a, "rolesById")) ==> Next(s, a).rolesById[k] == Spread(Field(a, "rolesById"))[k]
    ensures forall k :: k in s.rolesById && k !in Spread(Field(a, "rolesById")) ==> Next(s, a).rolesById[k] == s.rolesById[k]
    ensures SameButRoles(s, Next(s, a))
  {
  }

  /**
   * `CREATED_ROLE` and `UPDATED_ROLE` merge the role's fields over the stored
   * entry of `roleId`, the incoming fields winning; other roles are kept.
   */
  lemma RoleEditSpec(s: Snapshot, a: Action)
    requires a.tag == CreatedRole || a.tag == UpdatedRole
    ensures var key := KeyOf(Field(a, "roleId"));
      && Next(s, a).rolesById.Keys == s.rolesById.Keys + {key}
      && (forall k :: k in s.rolesById && k != key ==> Next(s, a).rolesById[k] == s.rolesById[k])
      && Next(s, a).rolesById[key].Obj?
      && (forall f :: f in Next(s, a).rolesById[key].fields <==> f in Spread(Field(a, "role")) || f in Spread(Prop(s.rolesById, key)))
      && (forall f :: f in Spread(Field(a, "role")) ==> Next(s, a).rolesById[key].fields[f] == Spread(Field(a, "role"))[f])
      && (forall f :: f !in Spread(Field(a, "role")) && f in Spread(Prop(s.rolesById, key)) ==>
            Next(s, a).rolesById[key].fields[f] == Spread(Prop(s.rolesById, key))[f])
      && SameButRoles(s, Next(s, a))
  {
  }

  /** `REMOVED_ROLE` deletes exactly the role under `action.roleId`. */
  lemma RemovedRoleSpec(s: Snapshot, a: Action)
    requires a.tag == RemovedRole
    ensures forall k :: k in Next(s, a).rolesById <==> k in s.rolesById && k != KeyOf(Field(a, "roleId"))
    ensures forall k :: k in Next(s, a).rolesById ==> Next(s, a).rolesById[k] == s.rolesById[k]
    ensures SameButRoles(s, Next(s, a))
  {
  }

  /** `SET_GLOBAL_SETTINGS` shallow-merges, keeping the settings the action does not mention. */
  lemma GlobalSettingsSpec(s: Snapshot, a: Action)
    requires a.tag == SetGlobalSettings
    ensures forall k :: k in Next(s, a).globalSettings <==> k in s.globalSettings || k in Spread(Field(a, "settings"))
    ensures forall k :: k in Spread(Field(a, "settings")) ==> Next(s, a).globalSettings[k] == Spread(Field(a, "settings"))[k]
    ensures forall k :: k in s.globalSettings && k !in Spread(Field(a, "settings")) ==>
      Next(s, a).globalSettings[k] == s.globalSettings[k]
    ensures Next(s, a).(globalSettings := s.globalSettings) == s
  {
  }

  /** The names of the onboarding fields two records disagree on. */
  function OnboardingChanges(o: Onboarding, p: Onboarding): set<string> {
    (if o.approach != p.approach then {"approach"} else {}) +
    (if o.artifactIncluded != p.artifactIncluded then {"artifactIncluded"} else {}) +
    (if o.complete != p.complete then {"complete"} else {}) +
    (if o.deviceType != p.deviceType then {"deviceType"} else {}) +
    (if o.demoArtifactPort != p.demoArtifactPort then {"demoArtifactPort"} else {}) +
    (if o.progress != p.progress then {"progress"} else {}) +
    (if o.showTips != p.showTips then {"showTips"} else {}) +
    (if o.showTipsDialog != p.showTipsDialog then {"showTipsDialog"} else {}) +
    (if o.showConnectDeviceDialog != p.showConnectDeviceDialog then {"showConnectDeviceDialog"} else {}) +
    (if o.showCreateArtifactDialog != p.showCreateArtifactDialog then {"showCreateArtifactDialog"} else {})
  }

  /** The onboarding field each setter owns. */
  function OnboardingField(tag: Tag): string
    requires IsOnboardingSetter(tag)
  {
    match tag
    case SetShowOnboardingHelp => "showTips"
    case SetShowOnboardingHelpDialog => "showTipsDialog"
    case SetOnboardingComplete => "complete"
    case SetShowConnectDevice => "showConnectDeviceDialog"
    case SetShowCreateArtifact => "showCreateArtifactDialog"
    case SetOnboardingProgress => "progress"
    case SetOnboardingDeviceType => "deviceType"
    case SetOnboardingApproach => "approach"
    case SetOnboardingArtifactIncluded => "artifactIncluded"
  }

  /** The action property each setter reads: `show`, `complete` or `value`. */
  function OnboardingKey(tag: Tag): string
    requires IsOnboardingSetter(tag)
  {
    match tag
    case SetOnboardingComplete => "complete"
    case SetShowOnboardingHelp => "show"
    case SetShowOnboardingHelpDialog => "show"
    case SetShowConnectDevice => "show"
    case SetShowCreateArtifact => "show"
    case _ => "value"
  }

  /** `onboarding[name]`; `undefined` for a name the record does not have. */
  function OnboardingValue(o: Onboarding, name: string): Json {
    if name == "approach" then o.approach
    else if name == "artifactIncluded" then o.artifactIncluded
    else if name == "complete" then o.complete
    else if name == "deviceType" then o.deviceType
    else if name == "demoArtifactPort" then o.demoArtifactPort
    else if name == "progress" then o.progress
    else if name == "showTips" then o.showTips
    else if name == "showTipsDialog" then o.showTipsDialog
    else if name == "showConnectDeviceDialog" then o.showConnectDeviceDialog
    else if name == "showCreateArtifactDialog" then o.showCreateArtifactDialog
    else Undefined
  }

  /**
   * An onboarding setter sets its own field of `onboarding` to the action's
   * `show`, `complete` or `value`, changes no other field, and nothing else
   * in the state.
   */
  lemma OnboardingSetterSpec(s: Snapshot, a: Action)
    requires IsOnboardingSetter(a.tag)
    ensures OnboardingValue(Next(s, a).onboarding, OnboardingField(a.tag)) == Field(a, OnboardingKey(a.tag))
    ensures OnboardingChanges(s.onboarding, Next(s, a).onboarding) <= {OnboardingField(a.tag)}
    ensures Next(s, a).(onboarding := s.onboarding) == s
  {
    assert Next(s, a) == s.(onboarding := OnboardingSet(s.onboarding, a.tag, a));
    OnboardingSetChanges(s.onboarding, a);
  }

  /** The field a setter writes takes the action's property, and is the only one that can differ. */
  lemma OnboardingSetChanges(o: Onboarding, a: Action)
    requires IsOnboardingSetter(a.tag)
    ensures OnboardingValue(OnboardingSet(o, a.tag, a), OnboardingField(a.tag)) == Field(a, OnboardingKey(a.tag))
    ensures OnboardingChanges(o, OnboardingSet(o, a.tag, a)) <= {OnboardingField(a.tag)}
  {
    var p := OnboardingSet(o, a.tag, a);
    match a.tag {
      case SetShowOnboardingHelp => assert p == o.(showTips := Field(a, "show"));
      case SetShowOnboardingHelpDialog => assert p == o.(showTipsDialog := Field(a, "show"));
      case SetOnboardingComplete => assert p == o.(complete := Field(a, "complete"));
      case SetShowConnectDevice => assert p == o.(showConnectDeviceDialog := Field(a, "show"));
      case SetShowCreateArtifact => assert p == o.(showCreateArtifactDialog := Field(a, "show"));
      case SetOnboardingProgress => assert p == o.(progress := Field(a, "value"));
      case SetOnboardingDeviceType => assert p == o.(deviceType := Field(a, "value"));
      case SetOnboardingApproach => assert p == o.(approach := Field(a, "value"));
      case SetOnboardingArtifactIncluded => assert p == o.(artifactIncluded := Field(a, "value"));
    }
  }

  /** An unrecognised action leaves the state as it is. */
  lemma UnrecognisedSpec(s: Snapshot, tag: string, fields: map<string, Json>)
    ensures Next(s, Action(Unrecognised(tag), fields)) == s
  {
  }

  /** Every action is idempotent: the removals, the merges and the setters alike. */
  lemma Idempotent(s: Snapshot, a: Action)
    requires !Throws(a)
    ensures Next(Next(s, a), a) == Next(s, a)
  {
    if a.tag.ReceivedUserList? || a.tag.ReceivedUser? || a.tag.CreatedUser? ||
       a.tag.RemovedUser? || a.tag.UpdatedUser? || a.tag.SetCurrentUser? {
      UserActionsIdempotent(s, a);
    } else if a.tag.ReceivedRoles? || a.tag.RemovedRole? || a.tag.CreatedRole? || a.tag.UpdatedRole? {
      RoleActionsIdempotent(s, a);
    } else if IsOnboardingSetter(a.tag) {
      OnboardingSetTwice(s.onboarding, a);
    } else {
      OtherActionsIdempotent(s, a);
    }
  }

  lemma UserActionsIdempotent(s: Snapshot, a: Action)
    requires !Throws(a)
    requires a.tag.ReceivedUserList? || a.tag.ReceivedUser? || a.tag.CreatedUser? ||
             a.tag.RemovedUser? || a.tag.UpdatedUser? || a.tag.SetCurrentUser?
    ensures Next(Next(s, a), a) == Next(s, a)
  {
    if a.tag.UpdatedUser? {
      MergeEntryTwice(s.byId, KeyOf(Field(a, "userId")), Field(a, "user"));
    }
  }

  lemma RoleActionsIdempotent(s: Snapshot, a: Action)
    requires a.tag.ReceivedRoles? || a.tag.RemovedRole? || a.tag.CreatedRole? || a.tag.UpdatedRole?
    ensures Next(Next(s, a), a) == Next(s, a)
  {
    match a.tag {
      case CreatedRole =>
        MergeEntryTwice(s.rolesById, KeyOf(Field(a, "roleId")), Field(a, "role"));
      case UpdatedRole =>
        MergeEntryTwice(s.rolesById, KeyOf(Field(a, "roleId")), Field(a, "role"));
      case ReceivedRoles =>
        MapUnionTwice(s.rolesById, Spread(Field(a, "rolesById")));
      case RemovedRole =>
    }
  }

  lemma OtherActionsIdempotent(s: Snapshot, a: Action)
    requires a.tag.ReceivedQrCode? || a.tag.SuccessfullyLoggedIn? || a.tag.SetGlobalSettings? ||
             a.tag.SetShowHelp? || a.tag.Unrecognised?
    ensures Next(Next(s, a), a) == Next(s, a)
  {
    if a.tag.SetGlobalSettings? {
      MapUnionTwice(s.globalSettings, Spread(Field(a, "settings")));
    }
  }

  lemma MergeEntryTwice(m: map<string, Json>, key: string, incoming: Json)
    ensures MergeEntry(MergeEntry(m, key, incoming), key, incoming) == MergeEntry(m, key, incoming)
  {
    MapUnionTwice(Spread(Prop(m, key)), Spread(incoming));
  }

  lemma MapUnionTwice(m: map<string, Json>, n: map<string, Json>)
    ensures m + n + n == m + n
  {
  }

  lemma OnboardingSetTwice(o: Onboarding, a: Action)
    ensures OnboardingSet(OnboardingSet(o, a.tag, a), a.tag, a) == OnboardingSet(o, a.tag, a)
  {
  }

  /** `removeRole` as written: it dispatches the remaining roles as `value` (src/js/actions/userActions.js:529). */
  function RemoveRoleAsWritten(rolesById: map<string, Json>, roleId: string): Action {
    Action(RemovedRole, map["value" := Obj(rolesById - {roleId})])
  }

  /** `removeRole` as the reducer reads it: the id as `roleId`. */
  function RemoveRoleCorrected(roleId: string): Action {
    Action(RemovedRole, map["roleId" := Str(roleId)])
  }

  /** `getRoles` as written: it dispatches the normalised roles as `value` (src/js/actions/userActions.js:417). */
  function ReceiveRolesAsWritten(rolesById: map<string, Json>): Action {
    Action(ReceivedRoles, map["value" := Obj(rolesById)])
  }

  /** `getRoles` as the reducer reads it: the roles as `rolesById`. */
  function ReceiveRolesCorrected(rolesById: map<string, Json>): Action {
    Action(ReceivedRoles, map["rolesById" := Obj(rolesById)])
  }

  /**
   * As written, removing a role deletes only a role named "undefined": any
   * other removed role stays in the store.
   */
  lemma RemoveRoleAsWrittenKeepsRole(s: Snapshot, roleId: string)
    requires roleId in s.rolesById && roleId != "undefined"
    ensures Next(s, RemoveRoleAsWritten(s.rolesById, roleId)).rolesById == s.rolesById - {"undefined"}
    ensures roleId in Next(s, RemoveRoleAsWritten(s.rolesById, roleId)).rolesById
  {
  }

  /** With the id sent as `roleId`, the role is gone and every other role is kept. */
  lemma RemoveRoleCorrectedRemoves(s: Snapshot, roleId: string)
    ensures Next(s, RemoveRoleCorrected(roleId)).rolesById == s.rolesById - {roleId}
    ensures roleId !in Next(s, RemoveRoleCorrected(roleId)).rolesById
  {
  }

  /** As written, receiving roles leaves the store's roles untouched, whatever was received. */
  lemma ReceiveRolesAsWrittenIgnored(s: Snapshot, rolesById: map<string, Json>)
    ensures Next(s, ReceiveRolesAsWritten(rolesById)) == s
  {
  }

  /** With the roles sent as `rolesById`, every received role lands in the store. */
  lemma ReceiveRolesCorrectedStores(s: Snapshot, rolesById: map<string, Json>)
    ensures forall k :: k in rolesById ==>
      k in Next(s, ReceiveRolesCorrected(rolesById)).rolesById && Next(s, ReceiveRolesCorrected(rolesById)).rolesById[k] == rolesById[k]
    ensures forall k :: k in s.rolesById && k !in rolesById ==> Next(s, ReceiveRolesCorrected(rolesById)).rolesById[k] == s.rolesById[k]
  {
  }
}

/**
 * The input handling of the artifact upload form,
 * src/js/components/artifacts/dialogs/artifactinformationform.js: the
 * destination check, the comma-separated device-type input, and the version
 * defaults and validity. Each handler's `updateCreation` argument is the
 * returned `CreationUpdate`; `isValid` is the truthiness of the expression the
 * source stores.
 */
module ArtifactInformation {
  import opened Wrappers
  import opened Lists

  predicate IsLower(ch: char) {
    'a' <= ch <= 'z'
  }

  /** The number of lowercase ASCII letters `d` starts with. */
  function LetterRun(d: string): (n: nat)
    ensures n <= |d|
    ensures forall i :: 0 <= i < n ==> IsLower(d[i])
    ensures n < |d| ==> !IsLower(d[n])
  {
    if d == [] || !IsLower(d[0]) then 0 else 1 + LetterRun(d[1..])
  }

  predicate StartsWith(s: string, prefix: string) {
    |prefix| <= |s| && s[..|prefix|] == prefix
  }

  /** `checkDestinationValidity`: empty, or matching `^(?:\/|[a-z]+:\/\/)`. */
  function CheckDestinationValidity(destination: string): bool {
    if |destination| == 0 then true
    else
      var run := LetterRun(destination);
      destination[0] == '/' || (run >= 1 && StartsWith(destination[run..], "://"))
  }

  ghost predicate AllLower(s: string) {
    forall i :: 0 <= i < |s| ==> IsLower(s[i])
  }

  /** The pattern's second alternative: some lowercase letters, then `://`. */
  ghost predicate SchemePrefix(d: string) {
    exists k :: 1 <= k <= |d| && AllLower(d[..k]) && StartsWith(d[k..], "://")
  }

  /**
   * A non-empty destination is valid exactly when it starts with `/` or with
   * one or more lowercase ASCII letters followed by `://`; the empty
   * destination is valid.
   */
  lemma DestinationValiditySpec(destination: string)
    ensures CheckDestinationValidity(destination) <==>
      |destination| == 0 || destination[0] == '/' || SchemePrefix(destination)
  {
    var d := destination;
    if |d| > 0 && d[0] != '/' {
      var run := LetterRun(d);
      if SchemePrefix(d) {
        var k :| 1 <= k <= |d| && AllLower(d[..k]) && StartsWith(d[k..], "://");
        assert d[k] == d[k..][0] == ':';
        assert !IsLower(d[k]);
        assert forall i :: 0 <= i < k ==> IsLower(d[..k][i]) && d[..k][i] == d[i];
        assert run < |d| ==> !IsLower(d[run]);
        assert run == k;
      }
      if run >= 1 && StartsWith(d[run..], "://") {
        assert AllLower(d[..run]) by {
          assert forall i :: 0 <= i < run ==> d[..run][i] == d[i];
        }
      }
    }
  }

  /** An absolute path and a URL with a scheme are valid; a bare relative path is not. */
  lemma DestinationExamples()
    ensures CheckDestinationValidity("")
    ensures CheckDestinationValidity("/d")
    ensures CheckDestinationValidity("s://d")
    ensures !CheckDestinationValidity("d/w")
    ensures !CheckDestinationValidity("S://d")
  {
    assert LetterRun("s://d") == 1 by {
      assert "s://d"[1..] == "://d";
    }
    assert "s://d"[1..][..3] == "://";
    assert LetterRun("d/w") == 1 by {
      assert "d/w"[1..] == "/w";
    }
    assert LetterRun("S://d") == 0;
  }

  /** `s.lastIndexOf(c)`: -1 when `c` does not occur. */
  function LastIndexOf(s: string, c: char): (r: int)
    ensures -1 <= r < |s|
    ensures r == -1 <==> c !in s
    ensures r >= 0 ==> s[r] == c && forall j :: r < j < |s| ==> s[j] != c
  {
    if s == [] then -1
    else if s[|s| - 1] == c then |s| - 1
    else
      var r := LastIndexOf(s[..|s| - 1], c);
      assert forall j :: 0 <= j < |s| - 1 ==> s[..|s| - 1][j] == s[j];
      r
  }

  /** `s.substring(start, end)`: both ends clamped to the string, swapped when out of order. */
  function Substring(s: string, start: int, end: int): string {
    var a := if start < 0 then 0 else if start > |s| then |s| else start;
    var b := if end < 0 then 0 else if end > |s| then |s| else end;
    if a <= b then s[a..b] else s[b..a]
  }

  /** `s.split(sep)`: the pieces between separators; the empty string splits into `[""]`. */
  function Split(s: string, sep: char): (r: seq<string>)
    ensures |r| >= 1
    decreases |s|
  {
    if sep !in s then [s]
    else
      var i := FirstIndexOf(s, sep);
      [s[..i]] + Split(s[i + 1..], sep)
  }

  function FirstIndexOf(s: string, c: char): (i: nat)
    requires c in s
    ensures i < |s| && s[i] == c && c !in s[..i]
  {
    if s[0] == c then 0 else 1 + FirstIndexOf(s[1..], c)
  }

  /** `parts.join(sep)`. */
  function Join(parts: seq<string>, sep: char): string {
    if parts == [] then ""
    else if |parts| == 1 then parts[0]
    else parts[0] + [sep] + Join(parts[1..], sep)
  }

  /** Joining the pieces of a split gives the input back. */
  lemma {:induction false} JoinSplit(s: string, sep: char)
    ensures Join(Split(s, sep), sep) == s
    decreases |s|
  {
    if sep in s {
      var i := FirstIndexOf(s, sep);
      JoinSplit(s[i + 1..], sep);
      assert s == s[..i] + [sep] + s[i + 1..];
    }
  }

  /** No piece of a split holds the separator. */
  lemma {:induction false} SplitPieces(s: string, sep: char)
    ensures forall i :: 0 <= i < |Split(s, sep)| ==> sep !in Split(s, sep)[i]
    decreases |s|
  {
    if sep in s {
      var i := FirstIndexOf(s, sep);
      SplitPieces(s[i + 1..], sep);
      var rest := Split(s[i + 1..], sep);
      assert forall j :: 1 <= j < |Split(s, sep)| ==> Split(s, sep)[j] == rest[j - 1];
    }
  }

  lemma {:induction false} FirstIndexAfter(a: string, c: char, b: string)
    requires c !in a
    ensures FirstIndexOf(a + [c] + b, c) == |a|
  {
    if a != [] {
      assert (a + [c] + b)[1..] == a[1..] + [c] + b;
      FirstIndexAfter(a[1..], c, b);
    }
  }

  /** Splitting a join of separator-free pieces gives the pieces back. */
  lemma {:induction false} SplitJoin(parts: seq<string>, sep: char)
    requires |parts| >= 1
    requires forall i :: 0 <= i < |parts| ==> sep !in parts[i]
    ensures Split(Join(parts, sep), sep) == parts
  {
    if |parts| > 1 {
      var s := Join(parts, sep);
      var rest := Join(parts[1..], sep);
      assert s == parts[0] + [sep] + rest;
      assert sep in s by {
        assert s[|parts[0]|] == sep;
      }
      FirstIndexAfter(parts[0], sep, rest);
      var i := FirstIndexOf(s, sep);
      assert s[..i] == parts[0];
      assert s[i + 1..] == rest;
      SplitJoin(parts[1..], sep);
    }
  }

  /** What a handler passes to `updateCreation`; `None` for a property it does not set. */
  datatype CreationUpdate = CreationUpdate(
    customDeviceTypes: Option<string>,
    selectedDeviceTypes: Option<seq<string>>,
    destination: Option<string>,
    isValid: bool,
    finalStep: Option<bool>)

  /** `unionizeStrings(selected, more)`, which is not part of this model. */
  type Unionize = (seq<string>, seq<string>) -> seq<string>

  /** The assumption made of `unionizeStrings`: on non-empty strings it is a set union. */
  ghost predicate UnionOnNonEmpty(unionize: Unionize) {
    forall a, b, x :: x != "" ==> (x in unionize(a, b) <==> x in a || x in b)
  }

  /** Lines 96-98: the completed entries before the last comma, once each, and the pending text after it. */
  function ParseDeviceTypes(value: string): (string, seq<string>) {
    var lastIndex := LastIndexOf(value, ',');
    (Substring(value, lastIndex + 1, |value|), Dedup(Split(Substring(value, 0, lastIndex), ',')))
  }

  /** The result of `onTextInputChange`: the update, if any, and whether the onboarding advances. */
  datatype InputChange = InputChange(update: Option<CreationUpdate>, advancesOnboarding: bool)

  /** `onTextInputChange(inputValue, reason)`; `inputValue` is `None` when null or undefined. */
  function TextInputChange(unionize: Unionize, inputValue: Option<string>, reason: string,
                           selectedDeviceTypes: seq<string>, name: string, destination: string): InputChange
  {
    var value := inputValue.GetOr("");
    if reason == "clear" then InputChange(Some(CreationUpdate(Some(""), Some([]), None, false, None)), false)
    else if reason == "reset" then InputChange(None, false)
    else
      var (customDeviceTypes, possibleCustomDeviceTypes) := ParseDeviceTypes(value);
      var selection := unionize(selectedDeviceTypes, possibleCustomDeviceTypes);
      InputChange(
        Some(CreationUpdate(Some(customDeviceTypes), Some(selection), None,
                            |selection| > 0 && name != "" && destination != "", None)),
        |customDeviceTypes| > 3)
  }

  /**
   * `'clear'` empties the pending text and the selection and marks the form
   * invalid; `'reset'` changes nothing.
   */
  lemma ClearAndReset(unionize: Unionize, inputValue: Option<string>, selected: seq<string>, name: string, destination: string)
    ensures TextInputChange(unionize, inputValue, "clear", selected, name, destination).update ==
      Some(CreationUpdate(Some(""), Some([]), None, false, None))
    ensures TextInputChange(unionize, inputValue, "reset", selected, name, destination).update.None?
  {
  }

  /**
   * The text after the last comma is pending, with no comma left in it; with
   * no comma at all the whole input is pending. The input is the completed
   * part, a comma and the pending text.
   */
  lemma PendingText(value: string)
    ensures ',' !in value ==> ParseDeviceTypes(value).0 == value
    ensures ',' !in ParseDeviceTypes(value).0
    ensures ',' in value ==>
      value == Substring(value, 0, LastIndexOf(value, ',')) + "," + ParseDeviceTypes(value).0
  {
    var last := LastIndexOf(value, ',');
    var pending := ParseDeviceTypes(value).0;
    assert pending == Substring(value, last + 1, |value|);
    assert pending == value[last + 1..];
    forall k | 0 <= k < |pending| ensures pending[k] != ',' {
      assert pending[k] == value[last + 1 + k];
    }
    if ',' in value {
      assert Substring(value, 0, last) == value[..last];
      assert value == value[..last] + "," + value[last + 1..];
    } else {
      assert value[last + 1..] == value;
    }
  }

  /**
   * The completed entries are the comma-separated pieces before the last
   * comma, each once; `NoCommaCompleted` covers input without a comma.
   */
  lemma CompletedEntries(value: string)
    ensures NoDuplicates(ParseDeviceTypes(value).1)
    ensures forall x :: x in ParseDeviceTypes(value).1 <==> x in Split(Substring(value, 0, LastIndexOf(value, ',')), ',')
    ensures forall x :: x in ParseDeviceTypes(value).1 ==> ',' !in x
  {
    var completed := Substring(value, 0, LastIndexOf(value, ','));
    DedupSpec(Split(completed, ','));
    SplitPieces(completed, ',');
  }

  /** With no comma there is one completed entry, the empty string. */
  lemma NoCommaCompleted(value: string)
    requires ',' !in value
    ensures ParseDeviceTypes(value).1 == [""]
  {
    assert Substring(value, 0, LastIndexOf(value, ',')) == "";
    assert Split("", ',') == [""];
    assert Dedup([""]) == Dedup([]) + [""];
  }

  /**
   * A typed change selects the union of the current selection and the
   * completed entries, and is valid when that selection, the name and the
   * destination are all non-empty; the destination's format is not checked.
   */
  lemma TextInputChangeSpec(unionize: Unionize, inputValue: Option<string>, reason: string,
                            selected: seq<string>, name: string, destination: string)
    requires UnionOnNonEmpty(unionize)
    requires reason != "clear" && reason != "reset"
    ensures var r := TextInputChange(unionize, inputValue, reason, selected, name, destination);
      var value := inputValue.GetOr("");
      && r.update.Some?
      && r.update.value.customDeviceTypes == Some(ParseDeviceTypes(value).0)
      && r.update.value.selectedDeviceTypes.Some?
      && (forall x :: x != "" ==> (x in r.update.value.selectedDeviceTypes.value <==>
            x in selected || x in Split(Substring(value, 0, LastIndexOf(value, ',')), ',')))
      && (r.update.value.isValid <==> |r.update.value.selectedDeviceTypes.value| > 0 && name != "" && destination != "")
      && (r.advancesOnboarding <==> |ParseDeviceTypes(value).0| > 3)
  {
    CompletedEntries(inputValue.GetOr(""));
  }

  /** `onDeviceTypeSelectionChange(value)`. */
  function DeviceTypeSelectionChange(value: seq<string>, name: string, destination: string): CreationUpdate {
    CreationUpdate(None, Some(value), None, |value| > 0 && name != "" && destination != "", None)
  }

  /** `onTextInputLeave(value)`: the left text joins the selection and the pending text is emptied. */
  function TextInputLeave(unionize: Unionize, value: string, selected: seq<string>, name: string, destination: string): CreationUpdate {
    var selection := unionize(selected, [value]);
    CreationUpdate(Some(""), Some(selection), None, |selection| > 0 && name != "" && destination != "", None)
  }

  /** `onDestinationChange`: the new destination is stored and must itself be valid. */
  function DestinationChange(value: string, selected: seq<string>, name: string): CreationUpdate {
    CreationUpdate(None, None, Some(value), CheckDestinationValidity(value) && |selected| > 0 && name != "", None)
  }

  /** The first effect (lines 72-78): outside a completed onboarding the destination is preset. */
  function InitialUpdate(onboardingComplete: bool, destination: string, selected: seq<string>, name: string): CreationUpdate {
    var nextDestination := if onboardingComplete then destination else "/data/www/localhost/htdocs";
    CreationUpdate(None, None, Some(nextDestination), CheckDestinationValidity(nextDestination) && |selected| > 0 && name != "", Some(false))
  }

  /**
   * The handlers disagree on validity: a destination change requires a
   * well-formed destination, a device-type change only a non-empty one, so
   * after typing a device type a relative destination counts as valid.
   */
  lemma ValidityByHandler(unionize: Unionize, value: string, selected: seq<string>, name: string, destination: string)
    requires UnionOnNonEmpty(unionize)
    ensures DestinationChange(destination, selected, name).isValid <==>
      (|destination| == 0 || destination[0] == '/' || SchemePrefix(destination)) && |selected| > 0 && name != ""
    ensures DeviceTypeSelectionChange(selected, name, destination).isValid <==> |selected| > 0 && name != "" && destination != ""
    ensures value != "" ==>
      (TextInputLeave(unionize, value, selected, name, destination).isValid <==> name != "" && destination != "")
    ensures value != "" && name != "" ==>
      TextInputLeave(unionize, value, selected, name, "data").isValid && !DestinationChange("data", selected, name).isValid
  {
    DestinationValiditySpec(destination);
    var selection := unionize(selected, [value]);
    if value != "" {
      assert value in selection;
    }
    assert LetterRun("data") == 4 by {
      assert "data"[1..] == "ata" && "ata"[1..] == "ta" && "ta"[1..] == "a" && "a"[1..] == "";
    }
  }

  /** During onboarding the preset destination is an absolute path and so always well-formed. */
  lemma InitialUpdateSpec(destination: string, selected: seq<string>, name: string)
    ensures InitialUpdate(false, destination, selected, name).destination == Some("/data/www/localhost/htdocs")
    ensures InitialUpdate(false, destination, selected, name).isValid <==> |selected| > 0 && name != ""
    ensures InitialUpdate(true, destination, selected, name).destination == Some(destination)
  {
  }

  const DefaultVersion: string := "1.0.0"

  /** `s.replace('.', '-')`: only the first `.` is replaced. */
  function ReplaceFirstDot(s: string): string {
    if '.' !in s then s
    else
      var i := FirstIndexOf(s, '.');
      s[..i] + "-" + s[i + 1..]
  }

  /** What `VersionInformation` passes to `updateCreation`; empty strings stand for absent ones. */
  datatype VersionInfo = VersionInfo(fileSystem: string, softwareName: string, softwareVersion: string, isValid: bool)

  /** The update the effect sends for the current three values: `isValid` is their conjunction. */
  function EditedVersionInfo(fileSystem: string, softwareName: string, softwareVersion: string): VersionInfo {
    VersionInfo(fileSystem, softwareName, softwareVersion, fileSystem != "" && softwareName != "" && softwareVersion != "")
  }

  /** The update sent on mount, from the initial state values. */
  function InitialVersionInfo(fileSystem: string, name: string, softwareName: string, softwareVersion: string): VersionInfo {
    var sn := if softwareName != "" then softwareName else ReplaceFirstDot(name);
    var sv := if softwareVersion != "" then softwareVersion else DefaultVersion;
    EditedVersionInfo(fileSystem, sn, sv)
  }

  /** The three text fields of the form. */
  datatype VersionField = FileSystem | SoftwareName | SoftwareVersion

  /** One `onChange`: the field's setter called with the typed text. */
  datatype VersionEdit = VersionEdit(field: VersionField, value: string)

  /** One edit, then the effect re-sending the three values. */
  function EditVersion(v: VersionInfo, e: VersionEdit): VersionInfo {
    match e.field
    case FileSystem => EditedVersionInfo(e.value, v.softwareName, v.softwareVersion)
    case SoftwareName => EditedVersionInfo(v.fileSystem, e.value, v.softwareVersion)
    case SoftwareVersion => EditedVersionInfo(v.fileSystem, v.softwareName, e.value)
  }

  /** A run of edits, in order. */
  function EditVersions(v: VersionInfo, edits: seq<VersionEdit>): VersionInfo {
    if edits == [] then v else EditVersion(EditVersions(v, edits[..|edits| - 1]), edits[|edits| - 1])
  }

  /** The text of the last edit of `f`, or `current` when `f` was not edited. */
  function LastText(edits: seq<VersionEdit>, f: VersionField, current: string): string {
    if edits == [] then current
    else if edits[|edits| - 1].field == f then edits[|edits| - 1].value
    else LastText(edits[..|edits| - 1], f, current)
  }

  /** The update agrees with its values: `isValid` holds exactly when all three are non-empty. */
  predicate ValidityAgrees(v: VersionInfo) {
    v.isValid <==> v.fileSystem != "" && v.softwareName != "" && v.softwareVersion != ""
  }

  /**
   * After any run of edits each field holds the text of its last edit (or its
   * earlier value), and once anything was edited the update is valid exactly
   * when all three fields are non-empty; an update that already agreed keeps
   * agreeing.
   */
  lemma {:induction false} EditVersionsSpec(v: VersionInfo, edits: seq<VersionEdit>)
    ensures EditVersions(v, edits).fileSystem == LastText(edits, FileSystem, v.fileSystem)
    ensures EditVersions(v, edits).softwareName == LastText(edits, SoftwareName, v.softwareName)
    ensures EditVersions(v, edits).softwareVersion == LastText(edits, SoftwareVersion, v.softwareVersion)
    ensures edits != [] || ValidityAgrees(v) ==> ValidityAgrees(EditVersions(v, edits))
  {
    if edits != [] {
      EditVersionsSpec(v, edits[..|edits| - 1]);
    }
  }

  /** The update sent on mount already agrees with its values, so every later one does. */
  lemma InitialVersionAgrees(fileSystem: string, name: string, softwareName: string, softwareVersion: string, edits: seq<VersionEdit>)
    ensures ValidityAgrees(EditVersions(InitialVersionInfo(fileSystem, name, softwareName, softwareVersion), edits))
  {
    EditVersionsSpec(InitialVersionInfo(fileSystem, name, softwareName, softwareVersion), edits);
  }

  /** Only the first `.` changes, into `-`; every other character is kept. */
  lemma ReplaceFirstDotSpec(s: string)
    ensures |ReplaceFirstDot(s)| == |s|
    ensures '.' !in s ==> ReplaceFirstDot(s) == s
    ensures '.' in s ==>
      var i := FirstIndexOf(s, '.');
      && ReplaceFirstDot(s)[i] == '-'
      && ReplaceFirstDot(s)[..i] == s[..i]
      && ReplaceFirstDot(s)[i + 1..] == s[i + 1..]
  {
    if '.' in s {
      var i := FirstIndexOf(s, '.');
      var r := s[..i] + "-" + s[i + 1..];
      assert r[..i] == s[..i];
      assert r[i + 1..] == s[i + 1..];
    }
  }

  /**
   * The default software name is the file name with its first `.` turned into
   * `-`; the default version is 1.0.0, so the version is never empty; the
   * information is valid exactly when the filesystem and the name are
   * non-empty.
   */
  lemma VersionDefaults(fileSystem: string, name: string, softwareName: string, softwareVersion: string)
    ensures softwareName == "" ==> InitialVersionInfo(fileSystem, name, softwareName, softwareVersion).softwareName == ReplaceFirstDot(name)
    ensures softwareName != "" ==> InitialVersionInfo(fileSystem, name, softwareName, softwareVersion).softwareName == softwareName
    ensures InitialVersionInfo(fileSystem, name, softwareName, softwareVersion).softwareVersion ==
      (if softwareVersion == "" then "1.0.0" else softwareVersion)
    ensures InitialVersionInfo(fileSystem, name, softwareName, softwareVersion).isValid <==>
      fileSystem != "" && InitialVersionInfo(fileSystem, name, softwareName, softwareVersion).softwareName != ""
    ensures InitialVersionInfo(fileSystem, name, softwareName, softwareVersion).isValid <==>
      fileSystem != "" && (softwareName != "" || name != "")
  {
    if softwareName == "" {
      ReplaceFirstDotSpec(name);
    }
  }
}

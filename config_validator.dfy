/** The configuration validator (config_validator.py): a configuration must
    hold the keys "app_name" and "version", and the version must be a string
    of the form major.minor.patch, as matched by the regular expression
    `^\d+\.\d+\.\d+$` under Python's `re.match`. A raised ValueError is a
    `Failure` carrying the reason. */
module ConfigValidator {
  import opened Basics

  datatype Result<+R, +E> = Success(value: R) | Failure(error: E)

  /** The three ValueError cases, in the order they are checked. */
  datatype ConfigError =
    | MissingKey(key: string)
    | VersionNotString(typeName: string)
    | InvalidVersionFormat(version: string)

  /** The text of the raised ValueError. */
  function Message(e: ConfigError): string
  {
    match e
    case MissingKey(key) => "Missing required configuration key: " + key
    case VersionNotString(typeName) => "Version must be a string, got " + typeName
    case InvalidVersionFormat(version) =>
      "Invalid version format: " + version + ". Expected semver format (e.g., 1.2.3)"
  }

  /** `required_keys`, in the order they are checked. */
  const RequiredKeys: seq<string> := ["app_name", "version"]

  /** Position in `keys` of the key the `for key in required_keys` loop raises for, if any. */
  function FirstMissing(keys: seq<string>, config: map<string, Json>): (r: Option<nat>)
    ensures r.None? <==> forall k :: 0 <= k < |keys| ==> keys[k] in config
    ensures r.Some? ==> r.value < |keys| && keys[r.value] !in config
    ensures r.Some? ==> forall k :: 0 <= k < r.value ==> keys[k] in config
  {
    if keys == [] then None
    else if keys[0] !in config then Some(0)
    else match FirstMissing(keys[1..], config)
      case None => None
      case Some(i) => Some(i + 1)
  }

  // ---------------------------------------------------------------------
  // The version pattern

  /** `\d`, restricted to the ASCII digits. */
  predicate IsDigit(c: char)
  {
    '0' <= c <= '9'
  }

  /** End of the run of digits starting at i: how far a greedy `\d+` (or `\d*`) reaches. */
  function DigitRunEnd(s: string, i: nat): (j: nat)
    requires i <= |s|
    ensures i <= j <= |s|
    ensures forall k :: i <= k < j ==> IsDigit(s[k])
    ensures j == |s| || !IsDigit(s[j])
    decreases |s| - i
  {
    if i < |s| && IsDigit(s[i]) then DigitRunEnd(s, i + 1) else i
  }

  /** `re.match(r'^\d+\.\d+\.\d+$', v)` succeeds. Each `\d+` takes the whole digit
      run because a '.' is not a digit, and `$` matches at the end or before a
      final newline. */
  predicate MatchesSemver(v: string)
  {
    var a := DigitRunEnd(v, 0);
    0 < a < |v| && v[a] == '.' &&
    var b := DigitRunEnd(v, a + 1);
    a + 1 < b < |v| && v[b] == '.' &&
    var c := DigitRunEnd(v, b + 1);
    b + 1 < c && (c == |v| || (c == |v| - 1 && v[c] == '\n'))
  }

  /** A non-empty run of digits. */
  predicate IsNumber(s: string)
  {
    s != [] && forall k :: 0 <= k < |s| ==> IsDigit(s[k])
  }

  /** The shape the pattern describes, stated directly: three digit runs joined
      by two dots, optionally followed by one newline. */
  ghost predicate SemverShape(v: string, major: string, minor: string, patch: string, newline: bool)
  {
    && IsNumber(major) && IsNumber(minor) && IsNumber(patch)
    && v == major + "." + minor + "." + patch + (if newline then "\n" else "")
  }

  /** A digit run ending at a non-digit (or the end) is where DigitRunEnd stops. */
  lemma DigitRunEndAt(s: string, i: nat, j: nat)
    requires i <= j <= |s|
    requires forall k :: i <= k < j ==> IsDigit(s[k])
    requires j == |s| || !IsDigit(s[j])
    ensures DigitRunEnd(s, i) == j
  {
  }

  /** Every string of the shape matches. */
  lemma MatchesSemverComplete(v: string, major: string, minor: string, patch: string, newline: bool)
    requires SemverShape(v, major, minor, patch, newline)
    ensures MatchesSemver(v)
  {
    var a := |major|;
    var b := a + 1 + |minor|;
    var c := b + 1 + |patch|;
    assert |v| == c + (if newline then 1 else 0);
    assert forall k :: 0 <= k < a ==> v[k] == major[k];
    assert v[a] == '.';
    assert forall k :: a + 1 <= k < b ==> v[k] == minor[k - a - 1];
    assert v[b] == '.';
    assert forall k :: b + 1 <= k < c ==> v[k] == patch[k - b - 1];
    assert newline ==> v[c] == '\n';
    DigitRunEndAt(v, 0, a);
    DigitRunEndAt(v, a + 1, b);
    DigitRunEndAt(v, b + 1, c);
  }

  /** Every string that matches has the shape. */
  lemma MatchesSemverSound(v: string)
    requires MatchesSemver(v)
    ensures exists major, minor, patch, newline :: SemverShape(v, major, minor, patch, newline)
  {
    var a := DigitRunEnd(v, 0);
    var b := DigitRunEnd(v, a + 1);
    var c := DigitRunEnd(v, b + 1);
    var major, minor, patch := v[..a], v[a + 1..b], v[b + 1..c];
    var newline := c < |v|;
    assert IsNumber(major) && IsNumber(minor) && IsNumber(patch);
    assert v == major + "." + minor + "." + patch + (if newline then "\n" else "");
    assert SemverShape(v, major, minor, patch, newline);
  }

  /** `is_valid_semver(version)` */
  function IsValidSemver(version: string): (r: bool)
    ensures r <==> exists major, minor, patch, newline :: SemverShape(version, major, minor, patch, newline)
  {
    if MatchesSemver(version) then
      MatchesSemverSound(version);
      true
    else
      assert forall major, minor, patch, newline | SemverShape(version, major, minor, patch, newline) :: false by {
        forall major, minor, patch, newline | SemverShape(version, major, minor, patch, newline)
          ensures false
        {
          MatchesSemverComplete(version, major, minor, patch, newline);
        }
      }
      false
  }

  // ---------------------------------------------------------------------
  // validate_config

  /** `validate_config(config)`: True, or the ValueError it raises. */
  function ValidateConfig(config: map<string, Json>): (r: Result<bool, ConfigError>)
    ensures r.Success? ==> r.value
    ensures r.Success? <==>
      && "app_name" in config && "version" in config
      && config["version"].JStr? && IsValidSemver(config["version"].s)
    ensures "app_name" !in config ==> r == Failure(MissingKey("app_name"))
    ensures "app_name" in config && "version" !in config ==> r == Failure(MissingKey("version"))
  {
    match FirstMissing(RequiredKeys, config)
    case Some(i) => Failure(MissingKey(RequiredKeys[i]))
    case None =>
      assert RequiredKeys[1] in config;
      var version := config["version"];
      if !version.JStr? then Failure(VersionNotString(TypeName(version)))
      else if !MatchesSemver(version.s) then Failure(InvalidVersionFormat(version.s))
      else Success(true)
  }

  /** A version that is not a string is refused before its format is looked at. */
  lemma NonStringVersionRejected(config: map<string, Json>)
    requires "app_name" in config && "version" in config && !config["version"].JStr?
    ensures ValidateConfig(config) == Failure(VersionNotString(TypeName(config["version"])))
  {
    assert FirstMissing(RequiredKeys, config) == None;
  }

  /** A string version with both keys present fails exactly when `is_valid_semver` says no,
      and the error names the version. */
  lemma ValidateAgreesWithIsValidSemver(config: map<string, Json>, v: string)
    requires "app_name" in config && "version" in config && config["version"] == JStr(v)
    ensures ValidateConfig(config) == if IsValidSemver(v) then Success(true) else Failure(InvalidVersionFormat(v))
  {
    assert FirstMissing(RequiredKeys, config) == None;
  }

  /** Only the presence of "app_name" and the value of "version" matter: the value of
      "app_name" and every other key are never looked at. */
  lemma ValidateReadsOnlyVersion(c1: map<string, Json>, c2: map<string, Json>)
    requires ("app_name" in c1 <==> "app_name" in c2) && ("version" in c1 <==> "version" in c2)
    requires "version" in c1 ==> c1["version"] == c2["version"]
    ensures ValidateConfig(c1) == ValidateConfig(c2)
  {
    assert FirstMissing(RequiredKeys, c1) == FirstMissing(RequiredKeys, c2);
  }

  /** The docstring's examples: "1.2.3" is accepted, a missing version and "1.2" are refused. */
  lemma DocstringExamples()
    ensures ValidateConfig(map["app_name" := JStr("MyApp"), "version" := JStr("1.2.3")]) == Success(true)
    ensures ValidateConfig(map["app_name" := JStr("MyApp")]) == Failure(MissingKey("version"))
    ensures Message(MissingKey("version")) == "Missing required configuration key: version"
    ensures ValidateConfig(map["app_name" := JStr("MyApp"), "version" := JStr("1.2")])
      == Failure(InvalidVersionFormat("1.2"))
  {
    assert SemverShape("1.2.3", "1", "2", "3", false);
    SemverRejects12();
  }

  lemma SemverRejects12()
    ensures !MatchesSemver("1.2")
  {
    var v := "1.2";
    assert DigitRunEnd(v, 0) == 1 by { DigitRunEndAt(v, 0, 1); }
    assert DigitRunEnd(v, 2) == 3 by { DigitRunEndAt(v, 2, 3); }
  }

  /** The demonstration block's examples: "v1.2.3" is refused, extra keys do not matter. */
  lemma DemonstrationExamples()
    ensures ValidateConfig(map["app_name" := JStr("TodoApp"), "version" := JStr("v1.2.3")])
      == Failure(InvalidVersionFormat("v1.2.3"))
    ensures ValidateConfig(map["app_name" := JStr("TodoApp"), "version" := JStr("2.1.0"),
                               "debug" := JBool(true), "port" := JInt(8080)]) == Success(true)
  {
    assert DigitRunEnd("v1.2.3", 0) == 0;
    assert SemverShape("2.1.0", "2", "1", "0", false);
  }

  /** `$` also matches before one final newline, so "1.2.3\n" passes, but nothing more may follow. */
  lemma TrailingNewlineExamples()
    ensures IsValidSemver("1.2.3\n")
    ensures !IsValidSemver("1.2.3\n\n")
    ensures !IsValidSemver("1..3")
  {
    assert SemverShape("1.2.3\n", "1", "2", "3", true);
    var v := "1.2.3\n\n";
    assert DigitRunEnd(v, 0) == 1 by { DigitRunEndAt(v, 0, 1); }
    assert DigitRunEnd(v, 2) == 3 by { DigitRunEndAt(v, 2, 3); }
    assert DigitRunEnd(v, 4) == 5 by { DigitRunEndAt(v, 4, 5); }
    var w := "1..3";
    assert DigitRunEnd(w, 2) == 2;
  }
}

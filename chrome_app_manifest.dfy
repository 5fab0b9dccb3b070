/** Verification of a Chrome App manifest before conversion: the manifest
    must have a background script; a missing name or version, a manifest
    version other than 2 and every member the converter does not carry over
    draw a warning. */
module ChromeAppManifest {
  import opened Wrappers
  import opened Json

  /** One warning logged by `verify`, with the value it quotes. */
  datatype LogEntry =
    | NoManifestVersion
    | WrongManifestVersion(found: Json)
    | NoName
    | NoVersion
    | NotConverted(member: string)

  /** The message of each warning; the found manifest version is quoted as
      an argument of the log call and is not part of the message. */
  function Message(e: LogEntry): string {
    match e
    case NoManifestVersion => "Chrome Apps must have manifest version 2."
    case WrongManifestVersion(_) => "Chrome Apps must have manifest version 2, found manifest version %s."
    case NoName => "Chrome Apps must include a name."
    case NoVersion => "Chrome Apps must include a version."
    case NotConverted(_) => "Manifest member `%s` will not be converted."
  }

  const NoBackground: Error := ValueError("Chrome Apps must include a background script.")

  /** The members the converter carries over into the web app manifest. */
  const Included: set<string> := {"manifest_version", "app", "name", "version", "short_name",
                                  "default_locale", "icons", "author", "description"}

  predicate IsSubstring(key: string, s: string) {
    exists i :: 0 <= i <= |s| && key <= s[i..]
  }

  /** Python's `key in v` for a JSON value: a key of an object, an element
      of an array, a substring of a string; other values are not iterable. */
  function Contains(v: Json, key: string): (r: Result<bool>)
    ensures r.Err? <==> v.JNull? || v.JBool? || v.JNumber?
    ensures v.JObject? ==> r == Ok(key in v.members)
  {
    match v
    case JObject(members) => Ok(key in members)
    case JArray(items) => Ok(JString(key) in items)
    case JString(s) => Ok(IsSubstring(key, s))
    case JNull => Err(TypeError("argument of type 'NoneType' is not iterable"))
    case JBool(_) => Err(TypeError("argument of type 'bool' is not iterable"))
    case JNumber(_) => Err(TypeError("argument of type 'int' is not iterable"))
  }

  /** The warning about the manifest version, if any. */
  function VersionWarnings(manifest: map<string, Json>): (r: seq<LogEntry>)
    ensures r == [] <==> "manifest_version" in manifest && manifest["manifest_version"] == JNumber(2)
    ensures |r| <= 1
  {
    if "manifest_version" !in manifest then [NoManifestVersion]
    else if manifest["manifest_version"] != JNumber(2) then [WrongManifestVersion(manifest["manifest_version"])]
    else []
  }

  /** The exception `verify` raises, if any: no `app`, or an `app` without
      `background`; an `app` that cannot be searched raises its `TypeError`. */
  function Raised(manifest: map<string, Json>): (r: Option<Error>)
    ensures r.Nothing? <==> "app" in manifest && Contains(manifest["app"], "background") == Ok(true)
    ensures "app" !in manifest ==> r == Some(NoBackground)
  {
    if "app" !in manifest then Some(NoBackground)
    else
      match Contains(manifest["app"], "background")
      case Err(e) => Some(e)
      case Ok(found) => if found then Nothing else Some(NoBackground)
  }

  /** The warnings about a missing name and a missing version, in that order. */
  function RequiredWarnings(manifest: map<string, Json>): (r: seq<LogEntry>)
    ensures NoName in r <==> "name" !in manifest
    ensures NoVersion in r <==> "version" !in manifest
    ensures |r| <= 2
  {
    (if "name" !in manifest then [NoName] else []) + (if "version" !in manifest then [NoVersion] else [])
  }

  /** `log` warns once about each member that will not be converted, in any
      order, and about nothing else. */
  predicate WarnsUnconverted(log: seq<LogEntry>, manifest: map<string, Json>) {
    (forall i :: 0 <= i < |log| ==> log[i].NotConverted? && log[i].member in Unconverted(manifest)) &&
    (forall i, j :: 0 <= i < j < |log| ==> log[i] != log[j]) &&
    (forall m :: m in Unconverted(manifest) ==> NotConverted(m) in log) &&
    |log| == |Unconverted(manifest)|
  }

  /** The members of a manifest the converter does not carry over. */
  function Unconverted(manifest: map<string, Json>): set<string> {
    set m | m in manifest && m !in Included
  }

  /** `verify`: the warnings logged, in order, and the exception raised. The
      members are visited in the dictionary's order, which is left open. */
  method Verify(manifest: map<string, Json>) returns (log: seq<LogEntry>, raised: Option<Error>)
    ensures raised == Raised(manifest)
    ensures raised.Some? ==> log == VersionWarnings(manifest)
    ensures raised.Nothing? ==>
      var head := VersionWarnings(manifest) + RequiredWarnings(manifest);
      |head| <= |log| && log[..|head|] == head && WarnsUnconverted(log[|head|..], manifest)
  {
    log := [];
    if "manifest_version" !in manifest {
      log := log + [NoManifestVersion];
    } else if manifest["manifest_version"] != JNumber(2) {
      log := log + [WrongManifestVersion(manifest["manifest_version"])];
    }

    if "app" !in manifest {
      return log, Some(NoBackground);
    }
    var found := Contains(manifest["app"], "background");
    if found.Err? {
      return log, Some(found.error);
    }
    if !found.value {
      return log, Some(NoBackground);
    }
    raised := Nothing;

    if "name" !in manifest {
      log := log + [NoName];
    }
    if "version" !in manifest {
      log := log + [NoVersion];
    }
    var head := log;
    assert head == VersionWarnings(manifest) + RequiredWarnings(manifest);

    var tail := WarnUnconverted(manifest);
    log := head + tail;
    assert log[..|head|] == head && log[|head|..] == tail;
  }

  /** The loop of `verify` over the manifest's members, in the dictionary's
      order: one warning per member the converter does not carry over. */
  method WarnUnconverted(manifest: map<string, Json>) returns (tail: seq<LogEntry>)
    ensures WarnsUnconverted(tail, manifest)
  {
    tail := [];
    var rest := manifest.Keys;
    ghost var warned: set<string> := {};
    while rest != {}
      invariant rest <= manifest.Keys
      invariant forall m :: m in warned <==> m in manifest && m !in rest && m !in Included
      invariant forall i :: 0 <= i < |tail| ==> tail[i].NotConverted? && tail[i].member in warned
      invariant forall i, j :: 0 <= i < j < |tail| ==> tail[i] != tail[j]
      invariant forall m :: m in warned ==> NotConverted(m) in tail
      invariant |tail| == |warned|
      decreases |rest|
    {
      var member :| member in rest;
      if member !in Included {
        tail := tail + [NotConverted(member)];
        warned := warned + {member};
      }
      rest := rest - {member};
    }
    assert warned == Unconverted(manifest);
  }

  /** Only an `app` holding `background` passes; a string `app` passes when
      the word occurs in it, and an empty `app` object does not. */
  lemma RaisedCases(app: Json, manifest: map<string, Json>)
    requires "app" in manifest && manifest["app"] == app
    ensures app == JObject(map[]) ==> Raised(manifest) == Some(NoBackground)
    ensures app.JObject? && "background" in app.members ==> Raised(manifest).Nothing?
    ensures app.JArray? ==> (Raised(manifest).Nothing? <==> JString("background") in app.items)
    ensures app.JNumber? ==> Raised(manifest) == Some(TypeError("argument of type 'int' is not iterable"))
  {
  }

  /** The empty manifest raises and warns about the manifest version only. */
  lemma EmptyManifest()
    ensures Raised(map[]) == Some(NoBackground)
    ensures VersionWarnings(map[]) == [NoManifestVersion]
  {
  }

  /** A manifest with nothing but a background script passes with three
      warnings: manifest version, name and version. */
  lemma AlmostEmptyManifest()
    ensures var m := map["app" := JObject(map["background" := JString("")])];
      Raised(m).Nothing? &&
      VersionWarnings(m) + RequiredWarnings(m) == [NoManifestVersion, NoName, NoVersion] &&
      forall member :: member in m ==> member in Included
  {
  }

  /** The minimum manifest raises nothing and warns about nothing. */
  lemma MinimumManifest(extra: string)
    requires extra in {"short_name", "default_locale", "icons", "author", "description"}
    ensures var m := map["manifest_version" := JNumber(2), "app" := JObject(map["background" := JString("")]),
                         "name" := JString(""), "version" := JString("0.0.1"), extra := JString("")];
      Raised(m).Nothing? &&
      VersionWarnings(m) + RequiredWarnings(m) == [] &&
      forall log: seq<LogEntry> :: WarnsUnconverted(log, m) ==> log == []
  {
    var m := map["manifest_version" := JNumber(2), "app" := JObject(map["background" := JString("")]),
                 "name" := JString(""), "version" := JString("0.0.1"), extra := JString("")];
    forall log: seq<LogEntry> | WarnsUnconverted(log, m) ensures log == [] {
      OnlyUnconvertedWarned(log, m, "name");
    }
  }

  /** A member the converter does not know draws exactly one warning. */
  lemma UnconvertibleMember()
    ensures var m := map["manifest_version" := JNumber(2), "app" := JObject(map["background" := JString("")]),
                         "name" := JString(""), "version" := JString("0.0.1"), "unconvertible" := JBool(true)];
      Raised(m).Nothing? &&
      VersionWarnings(m) + RequiredWarnings(m) == [] &&
      forall log: seq<LogEntry> :: WarnsUnconverted(log, m) ==> log == [NotConverted("unconvertible")]
  {
    var m := map["manifest_version" := JNumber(2), "app" := JObject(map["background" := JString("")]),
                 "name" := JString(""), "version" := JString("0.0.1"), "unconvertible" := JBool(true)];
    forall log: seq<LogEntry> | WarnsUnconverted(log, m) ensures log == [NotConverted("unconvertible")] {
      OnlyUnconvertedWarned(log, m, "unconvertible");
    }
  }

  /** When `one` is the only member that could be outside `Included`, the
      warnings about unconverted members are one about it, or none. */
  lemma OnlyUnconvertedWarned(log: seq<LogEntry>, manifest: map<string, Json>, one: string)
    requires WarnsUnconverted(log, manifest)
    requires forall m :: m in manifest && m !in Included ==> m == one
    ensures one in manifest && one !in Included ==> log == [NotConverted(one)]
    ensures !(one in manifest && one !in Included) ==> log == []
  {
    if one in manifest && one !in Included {
      assert Unconverted(manifest) == {one};
      assert log[0].member in Unconverted(manifest);
    } else {
      assert Unconverted(manifest) == {};
    }
  }

  /** A wrong manifest version is quoted in the warning. */
  lemma WrongVersionQuoted()
    ensures VersionWarnings(map["manifest_version" := JNumber(1)]) == [WrongManifestVersion(JNumber(1))]
  {
  }
}

/** Polyfill manifests: for each Chrome Apps API, how far the polyfill
    implements it, and per-member warnings. The `coverage` number of a
    manifest is display-only and not part of this model. */
module PolyfillManifest {
  import opened Wrappers

  /** The conversion status constants. */
  const StatusNone: string := "none"
  const StatusPartial: string := "partial"
  const StatusTotal: string := "total"

  /** The `text` of a structured warning: one string or a list of strings. */
  datatype WarningText = Single(text: string) | Many(texts: seq<string>)

  /** A warning of a manifest: a bare member name ("not implemented"), or an
      object with a member and, when present, a status and a text. */
  datatype Warning =
    | Bare(member: string)
    | Structured(member: string, status: Option<string>, text: Option<WarningText>)

  datatype Manifest = Manifest(name: string, status: string, dependencies: seq<string>, warnings: seq<Warning>)

  /** `default(api)`: the manifest of an API that has no polyfill. */
  function Default(api: string): (m: Manifest)
    ensures m.name == api && m.status == StatusNone
    ensures m.dependencies == [] && m.warnings == []
  {
    Manifest(api, StatusNone, [], [])
  }

  /** The first API of `apis[..count]` whose manifest cannot be loaded. */
  function FirstFailure(apis: seq<string>, load: string -> Result<Manifest>, count: nat): (r: Option<nat>)
    requires count <= |apis|
    ensures r.Nothing? <==> forall i :: 0 <= i < count ==> load(apis[i]).Ok?
    ensures r.Some? ==> r.value < count && load(apis[r.value]).Err? &&
                        forall i :: 0 <= i < r.value ==> load(apis[i]).Ok?
  {
    if count == 0 then Nothing
    else
      match FirstFailure(apis, load, count - 1)
      case Some(i) => Some(i)
      case Nothing => if load(apis[count - 1]).Err? then Some(count - 1) else Nothing
  }

  /** `load_many`: one manifest per requested API, keyed by its name. Loading
      stops at the first manifest that cannot be read, whose error is passed on. */
  method LoadMany(apis: seq<string>, load: string -> Result<Manifest>) returns (r: Result<map<string, Manifest>>)
    ensures r.Ok? <==> FirstFailure(apis, load, |apis|).Nothing?
    ensures r.Err? ==> r.error == load(apis[FirstFailure(apis, load, |apis|).value]).error
    ensures r.Ok? ==> r.value.Keys == set a | a in apis
    ensures r.Ok? ==> forall a :: a in r.value ==> load(a) == Ok(r.value[a])
  {
    var manifests: map<string, Manifest> := map[];
    for i := 0 to |apis|
      invariant FirstFailure(apis, load, i).Nothing?
      invariant manifests.Keys == set a | a in apis[..i]
      invariant forall a :: a in manifests ==> load(a) == Ok(manifests[a])
    {
      var loaded := load(apis[i]);
      if loaded.Err? {
        assert FirstFailure(apis, load, |apis|) == Some(i) by {
          FirstFailureFrom(apis, load, i + 1, |apis|);
        }
        return Err(loaded.error);
      }
      assert apis[..i + 1] == apis[..i] + [apis[i]];
      manifests := manifests[apis[i] := loaded.value];
    }
    assert apis[..|apis|] == apis;
    r := Ok(manifests);
  }

  /** Once a failure is found among the first `i` APIs, looking further does
      not change which one is first. */
  lemma {:induction false} FirstFailureFrom(apis: seq<string>, load: string -> Result<Manifest>, i: nat, count: nat)
    requires i <= count <= |apis|
    requires FirstFailure(apis, load, i).Some?
    ensures FirstFailure(apis, load, count) == FirstFailure(apis, load, i)
    decreases count
  {
    if count > i {
      FirstFailureFrom(apis, load, i, count - 1);
    }
  }
}

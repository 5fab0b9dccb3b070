/** The directory walker: every file path under a directory, optionally only
    the files with a given extension. The directory tree is given as the
    sequence of steps `os.walk` produces. */
module Walk {
  import opened Wrappers
  import opened Text

  /** One step of `os.walk`: a directory, its subdirectory names, its file names. */
  datatype WalkStep = WalkStep(dirpath: string, dirnames: seq<string>, filenames: seq<string>)

  /** The filter of `all_paths`: no extension keeps every file; otherwise the
      lower-cased file name must end with a dot and the extension as given. */
  predicate Selected(filename: string, extension: Option<string>) {
    extension.Nothing? || EndsWith(Lower(filename), "." + extension.value)
  }

  /** A file is selected by an extension only when its name is longer than
      the extension: the dot before it counts. */
  lemma SelectedNeedsLongerName(filename: string, extension: string)
    requires Selected(filename, Some(extension))
    ensures |filename| > |extension|
  {
    LowerChars(filename);
  }

  /** What file `f` of a directory contributes: its path when it is selected. */
  function FilePaths(step: WalkStep, extension: Option<string>, f: nat): seq<string>
    requires f < |step.filenames|
  {
    if Selected(step.filenames[f], extension) then [PathJoin(step.dirpath, step.filenames[f])] else []
  }

  /** The selected paths of the first `count` files of one directory, in order. */
  function StepPaths(step: WalkStep, extension: Option<string>, count: nat): (r: seq<string>)
    requires count <= |step.filenames|
  {
    if count == 0 then [] else StepPaths(step, extension, count - 1) + FilePaths(step, extension, count - 1)
  }

  /** The selected paths of the first `count` walk steps, directory by directory. */
  function WalkPaths(walk: seq<WalkStep>, extension: Option<string>, count: nat): (r: seq<string>)
    requires count <= |walk|
  {
    if count == 0 then []
    else
      var step := walk[count - 1];
      WalkPaths(walk, extension, count - 1) + StepPaths(step, extension, |step.filenames|)
  }

  /** The parameters `all_paths` declares. */
  const AllPathsParameters: set<string> := {"directory", "extension"}

  /** The `TypeError` Python raises for a keyword argument the called function
      does not declare. */
  function UnexpectedKeyword(keyword: string): Error {
    TypeError("all_paths() got an unexpected keyword argument '" + keyword + "'")
  }

  /** Binding keyword arguments to `all_paths`, in the order they are passed.
      `all_paths` is a generator function, and Python binds a generator
      function's arguments when it is called, before the walk begins: a
      keyword it does not declare raises at the call. */
  function BindAllPaths(keywords: seq<string>): (r: Option<Error>)
    ensures r.Nothing? <==> forall i :: 0 <= i < |keywords| ==> keywords[i] in AllPathsParameters
    ensures r.Some? ==> exists i :: 0 <= i < |keywords| && keywords[i] !in AllPathsParameters && r.value == UnexpectedKeyword(keywords[i])
  {
    if keywords == [] then Nothing
    else if keywords[0] !in AllPathsParameters then Some(UnexpectedKeyword(keywords[0]))
    else
      var rest := BindAllPaths(keywords[1..]);
      assert forall i :: 1 <= i < |keywords| ==> keywords[i] == keywords[1..][i - 1];
      rest
  }

  /** `all_paths`: the nested loops over walk steps and file names. */
  method AllPaths(walk: seq<WalkStep>, extension: Option<string>) returns (paths: seq<string>)
    ensures paths == WalkPaths(walk, extension, |walk|)
  {
    paths := [];
    for d := 0 to |walk|
      invariant paths == WalkPaths(walk, extension, d)
    {
      var step := walk[d];
      var found := [];
      for f := 0 to |step.filenames|
        invariant found == StepPaths(step, extension, f)
      {
        var filename := step.filenames[f];
        assert StepPaths(step, extension, f + 1) == found + FilePaths(step, extension, f);
        if extension.Nothing? || EndsWith(Lower(filename), "." + extension.value) {
          found := found + [PathJoin(step.dirpath, filename)];
        }
      }
      paths := paths + found;
    }
  }

  /** File `f` of `step` is selected and yields path `p`. */
  predicate YieldsAt(step: WalkStep, extension: Option<string>, f: nat, p: string) {
    f < |step.filenames| && p in FilePaths(step, extension, f)
  }

  lemma {:induction false} StepPathsMembers(step: WalkStep, extension: Option<string>, count: nat, p: string)
    requires count <= |step.filenames|
    ensures p in StepPaths(step, extension, count) <==> exists f: nat :: f < count && YieldsAt(step, extension, f, p)
  {
    if count > 0 {
      var prev := StepPaths(step, extension, count - 1);
      var here := FilePaths(step, extension, count - 1);
      assert StepPaths(step, extension, count) == prev + here;
      StepPathsMembers(step, extension, count - 1, p);
      assert p in here <==> YieldsAt(step, extension, count - 1, p);
      forall f: nat | f < count && YieldsAt(step, extension, f, p) ensures p in prev + here {
        if f == count - 1 {
          assert p in here;
        }
      }
    }
  }

  /** Some file of `step` yields path `p`. */
  ghost predicate InStep(step: WalkStep, extension: Option<string>, p: string) {
    exists f: nat :: YieldsAt(step, extension, f, p)
  }

  /** A path is yielded exactly when it joins some directory of the walk with
      one of that directory's selected file names; subdirectory names are
      never yielded on their own. */
  lemma {:induction false} WalkPathsMembers(walk: seq<WalkStep>, extension: Option<string>, count: nat, p: string)
    requires count <= |walk|
    ensures p in WalkPaths(walk, extension, count) <==> exists d: nat :: d < count && InStep(walk[d], extension, p)
  {
    if count > 0 {
      var last := walk[count - 1];
      var prev := WalkPaths(walk, extension, count - 1);
      var here := StepPaths(last, extension, |last.filenames|);
      assert WalkPaths(walk, extension, count) == prev + here;
      assert p in prev <==> exists d: nat :: d < count - 1 && InStep(walk[d], extension, p) by {
        WalkPathsMembers(walk, extension, count - 1, p);
      }
      assert p in here <==> InStep(walk[count - 1], extension, p) by {
        StepPathsMembers(last, extension, |last.filenames|, p);
      }
      assert (exists d: nat :: d < count && InStep(walk[d], extension, p)) <==>
        (exists d: nat :: d < count - 1 && InStep(walk[d], extension, p)) || InStep(walk[count - 1], extension, p);
    }
  }

  /** Without an extension every file of every directory is yielded, one path per file. */
  lemma {:induction false} NoExtensionKeepsAll(walk: seq<WalkStep>, count: nat)
    requires count <= |walk|
    ensures |WalkPaths(walk, Nothing, count)| == FileCount(walk, count)
  {
    if count > 0 {
      NoExtensionKeepsAll(walk, count - 1);
      StepKeepsAll(walk[count - 1], |walk[count - 1].filenames|);
    }
  }

  lemma {:induction false} StepKeepsAll(step: WalkStep, count: nat)
    requires count <= |step.filenames|
    ensures |StepPaths(step, Nothing, count)| == count
  {
    if count > 0 {
      StepKeepsAll(step, count - 1);
    }
  }

  /** Whatever the extension, a directory yields at most one path per file. */
  lemma {:induction false} StepPathsAtMost(step: WalkStep, extension: Option<string>, count: nat)
    requires count <= |step.filenames|
    ensures |StepPaths(step, extension, count)| <= count
  {
    if count > 0 {
      StepPathsAtMost(step, extension, count - 1);
    }
  }

  /** ... and the walk yields at most one path per file of the tree. */
  lemma {:induction false} WalkPathsAtMost(walk: seq<WalkStep>, extension: Option<string>, count: nat)
    requires count <= |walk|
    ensures |WalkPaths(walk, extension, count)| <= FileCount(walk, count)
  {
    if count > 0 {
      WalkPathsAtMost(walk, extension, count - 1);
      StepPathsAtMost(walk[count - 1], extension, |walk[count - 1].filenames|);
    }
  }

  /** The number of files in the first `count` walk steps. */
  function FileCount(walk: seq<WalkStep>, count: nat): nat
    requires count <= |walk|
  {
    if count == 0 then 0 else FileCount(walk, count - 1) + |walk[count - 1].filenames|
  }

  /** The file name is lower-cased but the extension is not, so an extension
      holding an upper-case letter matches no file. */
  lemma UpperCaseExtensionNeverSelected(filename: string, extension: string, k: nat)
    requires k < |extension| && IsUpperAscii(extension[k])
    ensures !Selected(filename, Some(extension))
  {
    var lower := Lower(filename);
    LowerChars(filename);
    var suffix := "." + extension;
    assert IsUpperAscii(suffix[1 + k]);
    assert forall i :: 0 <= i < |lower| ==> !IsUpperAscii(lower[i]);
  }

  /** ... and the walk then yields nothing at all. */
  lemma {:induction false} UpperCaseExtensionYieldsNothing(walk: seq<WalkStep>, extension: string, k: nat, count: nat)
    requires k < |extension| && IsUpperAscii(extension[k])
    requires count <= |walk|
    ensures WalkPaths(walk, Some(extension), count) == []
  {
    if count > 0 {
      UpperCaseExtensionYieldsNothing(walk, extension, k, count - 1);
      StepYieldsNothing(walk[count - 1], extension, k, |walk[count - 1].filenames|);
    }
  }

  lemma {:induction false} StepYieldsNothing(step: WalkStep, extension: string, k: nat, count: nat)
    requires k < |extension| && IsUpperAscii(extension[k])
    requires count <= |step.filenames|
    ensures StepPaths(step, Some(extension), count) == []
  {
    var f := 0;
    while f < count
      invariant f <= count && StepPaths(step, Some(extension), f) == []
    {
      UpperCaseExtensionNeverSelected(step.filenames[f], extension, k);
      assert StepPaths(step, Some(extension), f + 1) == StepPaths(step, Some(extension), f) + FilePaths(step, Some(extension), f);
      f := f + 1;
    }
  }
}

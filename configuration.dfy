/** Configuration options: their defaults, the generation of a configuration
    (from the defaults or from answers typed at a prompt), and the check of a
    loaded configuration for missing and unexpected options. */
module Configuration {
  import opened Wrappers
  import opened Text
  import opened Json

  /** An option's one-line description and its default value. */
  datatype OptionSpec = OptionSpec(description: string, default: Json)

  /** `OPTIONS`: every configuration option, keyed by name. */
  const Options: map<string, OptionSpec> := map[
    "id" := OptionSpec("Chrome App ID", JString("-1")),
    "start_url" := OptionSpec("Path to main HTML file", JString("index.html")),
    "root" := OptionSpec("Where the root of the web app will be", JString(".")),
    "boilerplate_dir" := OptionSpec("Subdirectory of root where Caterpillar will put scripts", JString("caterpillar")),
    "update_uris" := OptionSpec("Whether to normalise all URIs in the web app to the root", JBool(true)),
    "report_dir" := OptionSpec("Directory of generated output report", JString("caterpillar-report"))
  ]

  /** Python's `str` of a bool. */
  function BoolStr(b: bool): string {
    if b then "True" else "False"
  }

  /** `str_to_bool`: "true" or "false" in any letter case; anything else is a
      `ValueError` quoting the input. */
  function StrToBool(s: string): (r: Result<bool>)
    ensures r == Ok(true) <==> Lower(s) == "true"
    ensures r == Ok(false) <==> Lower(s) == "false"
    ensures r.Err? ==> r.error == ValueError("Expected \"true\" or \"false\"; got \"" + s + "\".")
  {
    var lower := Lower(s);
    if lower == "true" then Ok(true)
    else if lower == "false" then Ok(false)
    else Err(ValueError("Expected \"true\" or \"false\"; got \"" + s + "\"."))
  }

  /** A bool shown the way the prompt shows a default reads back as that bool. */
  lemma StrToBoolReadsBoolStr(b: bool)
    ensures StrToBool(BoolStr(b)) == Ok(b)
  {
    if b {
      assert Lower("True") == "true";
    } else {
      assert Lower("False") == "false";
    }
  }

  /** Letter case does not matter. */
  lemma StrToBoolIgnoresCase(s: string)
    ensures StrToBool(Lower(s)).Ok? <==> StrToBool(s).Ok?
    ensures StrToBool(s).Ok? ==> StrToBool(Lower(s)) == StrToBool(s)
  {
    LowerIdempotent(s);
  }

  lemma LowerIdempotent(s: string)
    ensures Lower(Lower(s)) == Lower(s)
  {
    var l := Lower(s);
    LowerChars(s);
    LowerChars(l);
    assert forall i :: 0 <= i < |l| ==> LowerChar(l[i]) == l[i];
  }

  /** The text a default is shown with in the prompt. */
  function Shown(v: Json): string {
    match v
    case JString(s) => s
    case JBool(b) => BoolStr(b)
    case _ => ""
  }

  /** The prompt for an option: its description and its default. */
  function Prompt(spec: OptionSpec): (r: string)
    ensures StartsWith(r, spec.description) && EndsWith(r, "): ")
  {
    spec.description + " (" + Shown(spec.default) + "): "
  }

  /** The option names in the order `generate` visits them: sorted. The
      generation functions below take the option table as a parameter; the
      method `Generate` passes `Options`. */
  function OptionNames(options: map<string, OptionSpec>): (r: seq<string>)
    ensures StrictlySorted(r)
    ensures Names(options, r)
    ensures |r| == |options|
  {
    SortedSetSorted(options.Keys);
    SortedSet(options.Keys)
  }

  /** Every option is visited. */
  lemma OptionNamesCover(options: map<string, OptionSpec>, name: string)
    requires name in options
    ensures exists i :: 0 <= i < |options| && OptionNames(options)[i] == name
  {
    var names := OptionNames(options);
    SortedSetMember(options.Keys, name);
    var i :| 0 <= i < |names| && names[i] == name;
  }

  /** Every name to visit is an option of the table. */
  predicate Names(options: map<string, OptionSpec>, names: seq<string>) {
    forall i :: 0 <= i < |names| ==> names[i] in options
  }

  /** The value an option takes from one typed answer: an empty answer keeps
      the default; an option whose default is a bool reads the answer with
      `StrToBool`; any other option takes the answer as typed. */
  function Choose(spec: OptionSpec, answer: string): (r: Result<Json>)
    ensures r.Err? ==> r.error.ValueError?
    ensures r.Ok? && spec.default.JBool? ==> r.value.JBool?
  {
    if answer == [] then Ok(spec.default)
    else if spec.default.JBool? then
      match StrToBool(answer)
      case Ok(b) => Ok(JBool(b))
      case Err(e) => Err(e)
    else Ok(JString(answer))
  }

  /** An empty answer keeps the default; only a bool option can reject an
      answer, and it rejects exactly what `StrToBool` rejects, with its error. */
  lemma ChooseCases(spec: OptionSpec, answer: string)
    ensures answer == [] ==> Choose(spec, answer) == Ok(spec.default)
    ensures Choose(spec, answer).Err? <==> answer != [] && spec.default.JBool? && StrToBool(answer).Err?
    ensures Choose(spec, answer).Err? ==> Choose(spec, answer).error == StrToBool(answer).error
    ensures answer != [] && spec.default.JBool? && StrToBool(answer).Ok? ==>
      Choose(spec, answer) == Ok(JBool(StrToBool(answer).value))
    ensures answer != [] && !spec.default.JBool? ==> Choose(spec, answer) == Ok(JString(answer))
  {
  }

  /** The value option `k` of the visit takes, or the exception raised when
      its answer is read: without prompting it is the default; reading past
      the last answer is an `EOFError`. */
  function Visit(spec: OptionSpec, interactive: bool, answers: seq<string>, k: nat): (r: Result<Json>)
    ensures r.Err? ==> interactive && (r.error == EOFError <==> k >= |answers|)
    ensures r.Ok? && spec.default.JBool? ==> r.value.JBool?
  {
    if !interactive then Ok(spec.default)
    else if k >= |answers| then Err(EOFError)
    else Choose(spec, answers[k])
  }

  /** The configuration `generate` has built after visiting the first `count`
      of `names`, or the first exception it raised on the way. */
  function GenerateUpTo(options: map<string, OptionSpec>, names: seq<string>, interactive: bool, answers: seq<string>, count: nat): Result<map<string, Json>>
    requires Names(options, names) && count <= |names|
  {
    if count == 0 then Ok(map[])
    else
      match GenerateUpTo(options, names, interactive, answers, count - 1)
      case Err(e) => Err(e)
      case Ok(config) =>
        var name := names[count - 1];
        match Visit(options[name], interactive, answers, count - 1)
        case Err(e) => Err(e)
        case Ok(v) => Ok(config[name := v])
  }

  /** The prompts for the first `count` of `names`. */
  function PromptsUpTo(options: map<string, OptionSpec>, names: seq<string>, count: nat): seq<string>
    requires Names(options, names) && count <= |names|
  {
    if count == 0 then [] else PromptsUpTo(options, names, count - 1) + [Prompt(options[names[count - 1]])]
  }

  /** One prompt per visited option, in the order visited. */
  lemma {:induction false} PromptsInOrder(options: map<string, OptionSpec>, names: seq<string>, count: nat)
    requires Names(options, names) && count <= |names|
    ensures |PromptsUpTo(options, names, count)| == count
    ensures forall i :: 0 <= i < count ==> PromptsUpTo(options, names, count)[i] == Prompt(options[names[i]])
  {
    if count > 0 {
      PromptsInOrder(options, names, count - 1);
    }
  }

  /** `generate`: the `answers` stand for the lines typed at the prompts, in
      order; `prompts` are the prompts shown. The option table is `Options`
      unless another is passed. */
  method Generate(interactive: bool, answers: seq<string>, options: map<string, OptionSpec> := Options)
    returns (r: Result<map<string, Json>>, prompts: seq<string>)
    ensures r == GenerateUpTo(options, OptionNames(options), interactive, answers, |options|)
    ensures !interactive ==> prompts == []
    ensures interactive ==> prompts <= PromptsUpTo(options, OptionNames(options), |options|)
    ensures interactive && r.Ok? ==> prompts == PromptsUpTo(options, OptionNames(options), |options|)
  {
    var names := OptionNames(options);
    var config: map<string, Json> := map[];
    prompts := [];
    for i := 0 to |names|
      invariant GenerateUpTo(options, names, interactive, answers, i) == Ok(config)
      invariant !interactive ==> prompts == []
      invariant interactive ==> prompts == PromptsUpTo(options, names, i)
    {
      var name := names[i];
      var value, shown := Ask(options[name], interactive, answers, i);
      GenerateStep(options, names, interactive, answers, i, config);
      prompts := prompts + shown;
      if value.Err? {
        GenerateStops(options, names, interactive, answers, i + 1, value.error, prompts);
        return Err(value.error), prompts;
      }
      config := config[name := value.value];
    }
    r := Ok(config);
  }

  /** One turn of the loop of `generate`: the value an option takes and the
      prompt shown for it, if any. The default is stored first and replaced
      by a non-empty answer. */
  method Ask(spec: OptionSpec, interactive: bool, answers: seq<string>, k: nat) returns (value: Result<Json>, shown: seq<string>)
    ensures value == Visit(spec, interactive, answers, k)
    ensures shown == if interactive then [Prompt(spec)] else []
  {
    value := Ok(spec.default);
    shown := [];
    if interactive {
      shown := [Prompt(spec)];
      if k >= |answers| {
        return Err(EOFError), shown;
      }
      var answer := answers[k];
      if answer == [] {
        return;
      }
      if spec.default.JBool? {
        var b := StrToBool(answer);
        if b.Err? {
          return Err(b.error), shown;
        }
        value := Ok(JBool(b.value));
      } else {
        value := Ok(JString(answer));
      }
    }
  }

  /** One more option visited: its value joins the configuration, or its
      error ends generation; its prompt joins the prompts. */
  lemma GenerateStep(options: map<string, OptionSpec>, names: seq<string>, interactive: bool, answers: seq<string>, i: nat, config: map<string, Json>)
    requires Names(options, names) && i < |names|
    requires GenerateUpTo(options, names, interactive, answers, i) == Ok(config)
    ensures GenerateUpTo(options, names, interactive, answers, i + 1) ==
      match Visit(options[names[i]], interactive, answers, i)
      case Err(e) => Err(e)
      case Ok(v) => Ok(config[names[i] := v])
    ensures PromptsUpTo(options, names, i + 1) == PromptsUpTo(options, names, i) + [Prompt(options[names[i]])]
  {
  }

  lemma {:induction false} PromptsPrefix(options: map<string, OptionSpec>, names: seq<string>, i: nat, count: nat)
    requires Names(options, names) && i <= count <= |names|
    ensures PromptsUpTo(options, names, i) <= PromptsUpTo(options, names, count)
  {
    PromptsInOrder(options, names, i);
    PromptsInOrder(options, names, count);
  }

  /** Generation that failed after `i` options ends with that error, having
      shown only the prompts so far. */
  lemma GenerateStops(options: map<string, OptionSpec>, names: seq<string>, interactive: bool, answers: seq<string>, i: nat, e: Error, prompts: seq<string>)
    requires Names(options, names) && i <= |names|
    requires GenerateUpTo(options, names, interactive, answers, i) == Err(e)
    requires interactive ==> prompts == PromptsUpTo(options, names, i)
    ensures GenerateUpTo(options, names, interactive, answers, |names|) == Err(e)
    ensures interactive ==> prompts <= PromptsUpTo(options, names, |names|)
  {
    PromptsPrefix(options, names, i, |names|);
    GenerateFailsFrom(options, names, interactive, answers, i, |names|);
  }

  /** Once generation has failed it stays failed with the same error. */
  lemma {:induction false} GenerateFailsFrom(options: map<string, OptionSpec>, names: seq<string>, interactive: bool, answers: seq<string>, i: nat, count: nat)
    requires Names(options, names) && i <= count <= |names|
    requires GenerateUpTo(options, names, interactive, answers, i).Err?
    ensures GenerateUpTo(options, names, interactive, answers, count) == GenerateUpTo(options, names, interactive, answers, i)
    decreases count
  {
    if count > i {
      GenerateFailsFrom(options, names, interactive, answers, i, count - 1);
    }
  }

  /** The default configuration: every option at its default. */
  function Defaults(options: map<string, OptionSpec>): (r: map<string, Json>)
    ensures r.Keys == options.Keys
    ensures forall name :: name in r ==> r[name] == options[name].default
  {
    map name | name in options :: options[name].default
  }

  /** What a successful generation holds: exactly the visited options, each
      with the value its answer chose (its default when not interactive). */
  lemma {:induction false} GenerateValues(options: map<string, OptionSpec>, names: seq<string>, interactive: bool, answers: seq<string>, count: nat)
    requires Names(options, names) && StrictlySorted(names) && count <= |names|
    requires GenerateUpTo(options, names, interactive, answers, count).Ok?
    ensures var config := GenerateUpTo(options, names, interactive, answers, count).value;
      (forall name :: name in config ==> exists i :: 0 <= i < count && names[i] == name) &&
      forall i :: 0 <= i < count ==> Chosen(options, names, interactive, answers, config, i)
  {
    if count > 0 {
      GenerateValues(options, names, interactive, answers, count - 1);
      var before := GenerateUpTo(options, names, interactive, answers, count - 1).value;
      var config := GenerateUpTo(options, names, interactive, answers, count).value;
      var last := names[count - 1];
      assert config.Keys == before.Keys + {last};
      assert Chosen(options, names, interactive, answers, config, count - 1);
      forall i | 0 <= i < count - 1
        ensures Chosen(options, names, interactive, answers, config, i)
      {
        assert Less(names[i], last);
        LessIrreflexive(names[i]);
        assert Chosen(options, names, interactive, answers, before, i);
      }
      assert forall i :: 0 <= i < count ==> Chosen(options, names, interactive, answers, config, i);
    }
  }

  /** Option `names[i]` of `config` holds what its answer chose, or its
      default when not interactive. */
  predicate Chosen(options: map<string, OptionSpec>, names: seq<string>, interactive: bool, answers: seq<string>, config: map<string, Json>, i: nat)
    requires Names(options, names) && i < |names|
  {
    names[i] in config && Visit(options[names[i]], interactive, answers, i) == Ok(config[names[i]])
  }

  /** Generation fails exactly when it is interactive and some visited option
      has no answer left or gets an answer that is not a bool it needs. */
  lemma {:induction false} GenerateFails(options: map<string, OptionSpec>, names: seq<string>, interactive: bool, answers: seq<string>, count: nat)
    requires Names(options, names) && count <= |names|
    ensures GenerateUpTo(options, names, interactive, answers, count).Err? <==>
      interactive && (|answers| < count ||
        exists i :: 0 <= i < count && Choose(options[names[i]], answers[i]).Err?)
  {
    if count > 0 {
      GenerateFails(options, names, interactive, answers, count - 1);
    }
  }

  lemma {:induction false} GenerateOkWhenVisitsOk(options: map<string, OptionSpec>, names: seq<string>, interactive: bool, answers: seq<string>, count: nat)
    requires Names(options, names) && count <= |names|
    requires forall i :: 0 <= i < count ==> Visit(options[names[i]], interactive, answers, i).Ok?
    ensures GenerateUpTo(options, names, interactive, answers, count).Ok?
  {
    if count > 0 {
      GenerateOkWhenVisitsOk(options, names, interactive, answers, count - 1);
    }
  }

  /** When every option takes its default, `generate` returns the defaults. */
  lemma AllDefaultsGiveDefaults(options: map<string, OptionSpec>, interactive: bool, answers: seq<string>)
    requires forall i :: 0 <= i < |options| ==>
      Visit(options[OptionNames(options)[i]], interactive, answers, i) == Ok(options[OptionNames(options)[i]].default)
    ensures GenerateUpTo(options, OptionNames(options), interactive, answers, |options|) == Ok(Defaults(options))
  {
    var names := OptionNames(options);
    var generated := GenerateUpTo(options, names, interactive, answers, |names|);
    assert generated.Ok? by {
      GenerateOkWhenVisitsOk(options, names, interactive, answers, |names|);
    }
    var config := generated.value;
    GenerateValues(options, names, interactive, answers, |names|);
    forall name | name in options
      ensures name in config && config[name] == options[name].default
    {
      OptionNamesCover(options, name);
      var i :| 0 <= i < |names| && names[i] == name;
      assert Chosen(options, names, interactive, answers, config, i);
    }
    DefaultsExtensional(options, config);
  }

  lemma DefaultsExtensional(options: map<string, OptionSpec>, config: map<string, Json>)
    requires forall name :: name in config ==> name in options
    requires forall name :: name in options ==> name in config && config[name] == options[name].default
    ensures config == Defaults(options)
  {
    var d := Defaults(options);
    assert config.Keys == d.Keys;
  }

  /** Not interactive, `generate` returns the defaults. */
  lemma GenerateNonInteractive(options: map<string, OptionSpec>, answers: seq<string>)
    ensures GenerateUpTo(options, OptionNames(options), false, answers, |options|) == Ok(Defaults(options))
  {
    AllDefaultsGiveDefaults(options, false, answers);
  }

  /** Answering every prompt with an empty line also gives the defaults. */
  lemma EmptyAnswersKeepDefaults(options: map<string, OptionSpec>, answers: seq<string>)
    requires |answers| >= |options|
    requires forall i :: 0 <= i < |answers| ==> answers[i] == []
    ensures GenerateUpTo(options, OptionNames(options), true, answers, |options|) == Ok(Defaults(options))
  {
    AllDefaultsGiveDefaults(options, true, answers);
  }

  /** `missing_options`: the sorted options the configuration lacks. */
  function MissingOptions(config: map<string, Json>): (r: seq<string>)
    ensures StrictlySorted(r)
    ensures forall name :: name in r <==> name in Options && name !in config
  {
    var missing := set name | name in Options && name !in config;
    assert forall name :: name in SortedSet(missing) <==> name in missing by {
      forall name ensures name in SortedSet(missing) <==> name in missing {
        SortedSetMember(missing, name);
      }
    }
    SortedSetSorted(missing);
    SortedSet(missing)
  }

  /** `unexpected_options`: the sorted names of the configuration that are not options. */
  function UnexpectedOptions(config: map<string, Json>): (r: seq<string>)
    ensures StrictlySorted(r)
    ensures forall name :: name in r <==> name in config && name !in Options
  {
    var unexpected := set name | name in config && name !in Options;
    assert forall name :: name in SortedSet(unexpected) <==> name in unexpected by {
      forall name ensures name in SortedSet(unexpected) <==> name in unexpected {
        SortedSetMember(unexpected, name);
      }
    }
    SortedSetSorted(unexpected);
    SortedSet(unexpected)
  }

  /** A configuration draws neither warning exactly when it names every
      option and nothing else. */
  lemma NoWarningsIffExactOptions(config: map<string, Json>)
    ensures MissingOptions(config) == [] && UnexpectedOptions(config) == [] <==> config.Keys == Options.Keys
  {
    if config.Keys != Options.Keys {
      if x :| x in config.Keys && x !in Options.Keys {
        assert x in UnexpectedOptions(config);
      } else {
        var y :| y in Options.Keys && y !in config.Keys;
        assert y in MissingOptions(config);
      }
    } else {
      assert forall name :: name !in MissingOptions(config);
      assert forall name :: name !in UnexpectedOptions(config);
    }
  }

  /** A successful generation names every option and nothing else. */
  lemma GeneratedKeys(options: map<string, OptionSpec>, interactive: bool, answers: seq<string>)
    requires GenerateUpTo(options, OptionNames(options), interactive, answers, |options|).Ok?
    ensures GenerateUpTo(options, OptionNames(options), interactive, answers, |options|).value.Keys == options.Keys
  {
    var names := OptionNames(options);
    GenerateValues(options, names, interactive, answers, |names|);
    var config := GenerateUpTo(options, names, interactive, answers, |names|).value;
    forall name | name in options
      ensures name in config
    {
      OptionNamesCover(options, name);
      var i :| 0 <= i < |names| && names[i] == name;
      assert Chosen(options, names, interactive, answers, config, i);
    }
  }

  /** A generated configuration draws no warning when loaded back. */
  lemma GeneratedIsComplete(interactive: bool, answers: seq<string>)
    requires GenerateUpTo(Options, OptionNames(Options), interactive, answers, |Options|).Ok?
    ensures var config := GenerateUpTo(Options, OptionNames(Options), interactive, answers, |Options|).value;
      MissingOptions(config) == [] && UnexpectedOptions(config) == []
  {
    GeneratedKeys(Options, interactive, answers);
    NoWarningsIffExactOptions(GenerateUpTo(Options, OptionNames(Options), interactive, answers, |Options|).value);
  }
}

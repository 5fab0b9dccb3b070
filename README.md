# caterpillar, modelled in Dafny

caterpillar converts a Chrome App into a progressive web app. It copies the
app, detects which `chrome.*` APIs the app's JavaScript uses, swaps the Chrome
App manifest for a web app manifest, adds polyfill scripts for the APIs it can
polyfill, and writes an HTML report about the conversion.

This project models the logic of that conversion and proves properties of it:

- the regular-expression scanners that find API references (`apis.py`);
- the per-API usage index with its context windows (`usage`);
- the decoder with the `surrogateescape` error handler (`surrogateescape.py`);
- the configuration options, the prompting loop and the option checks
  (`configuration.py`);
- the manifest checks (`chrome_app/manifest.py`);
- the manifest conversion, the polyfill partition and the path helpers
  (`caterpillar.py`);
- the recursive file walk (`chrome_app/walk.py`);
- the polyfill manifests (`polyfill_manifest.py`);
- the report's status logic, its HTML formatting and highlighting, its
  warnings, the usage processing and the relevant/other split
  (`report/report.py`).

Each module takes its source's form:

- Pure computations are datatypes, functions and lemmas.
- Loops the source runs are methods with loop invariants, proved against
  the function that specifies them: `AppApis`, `Usage`, `Generate`,
  `LoadMany`, `Verify`, `CaToPwaManifest`, `PolyfillApis`, `AllPaths`,
  `ProcessUsage`, `ManifestWarnings`, `SplitWarnings`, `Encode` and others.

The file system, the console and the template engine become parameters:

- a directory is the sequence of its JavaScript files, with their text;
- a prompt is a sequence of the user's answers;
- a polyfill manifest is the parsed JSON that was read for an API.

| file | module | source |
|---|---|---|
| `wrappers.dfy` | `Wrappers` | `Option` and `Result` |
| `text.dfy` | `Text` | Python string operations the code relies on: `\w`, `lower`, `split`/`join`, string order, `sorted`, `list.sort`, `posixpath.join` |
| `surrogate_escape.dfy` | `SurrogateEscape` | `src/surrogateescape.py` |
| `walk.dfy` | `Walk` | `src/chrome_app/walk.py` |
| `apis.dfy` | `Apis` | `src/chrome_app/apis.py` |
| `json.dfy` | `Json` | JSON values as `json.load` returns them, with integer numbers only (no floats) |
| `polyfill_manifest.dfy` | `PolyfillManifest` | `src/polyfill_manifest.py` |
| `chrome_app_manifest.dfy` | `ChromeAppManifest` | `src/chrome_app/manifest.py` |
| `configuration.dfy` | `Configuration` | `src/configuration.py` |
| `caterpillar.dfy` | `Caterpillar` | `src/caterpillar.py` |
| `report.dfy` | `Report` | `src/report/report.py` |

## Model

| member | source | states |
|---|---|---|
| Apis.WordEnd | src/chrome_app/apis.py:45 | the greedy `\w+`/`\w*` run from a position: every character before the end is a word character and the end is the end of the text or a non-word character |
| Apis.WordEndAt | src/chrome_app/apis.py:45 | a run of word characters stopped by a non-word character (or the end) is exactly the run `WordEnd` finds |
| Apis.ChainEnd | src/chrome_app/apis.py:49 | the greedy `\w+(?:\.\w+)*` from a word character ends after it, at a place where no `.word` follows |
| Apis.ChainShape | src/chrome_app/apis.py:49 | the text the greedy chain spans is words and dots, each dot followed by a word character |
| Apis.ChainEndAt | src/chrome_app/apis.py:49 | a dotted chain that no further `.word` extends is exactly what the greedy chain takes |
| Apis.ChainIsDottedName | src/chrome_app/apis.py:49 | what the greedy chain takes is a dot-separated list of non-empty words |
| Apis.FirstAt | src/chrome_app/apis.py:80 | a regex search: none exactly when the pattern matches nowhere from the start position; otherwise a matching position with no match before it |
| Apis.FirstAtIs | src/chrome_app/apis.py:80 | the first position where the pattern matches is what the search returns |
| Apis.UsageGroup | src/chrome_app/apis.py:49 | group 1 of `CHROME_API_USAGE_REGEX` is a dotted name of at least two words |
| Apis.ApiMemberUsed | src/chrome_app/apis.py:69-84 | `api_member_used` is None exactly when `CHROME_API_USAGE_REGEX` matches nowhere in the line; otherwise it is a dotted name of at least two words |
| Apis.ApiMemberUsedIsLeftmost | src/chrome_app/apis.py:80-84 | the member returned is group 1 of the leftmost match |
| Apis.UsageReportedAt | src/chrome_app/apis.py:80-84 | a `chrome.` reference, not preceded by a word character or dot, whose maximal chain has two or more words, is what `api_member_used` reports when no earlier `c` exists |
| Apis.ApiMemberUsedFound | src/chrome_app/apis.py:80-84 | when the search finds the reference at `p`, the result is the maximal chain after `chrome.` |
| Apis.ApiMemberUsedOfReference | src/chrome_app/apis.py:69-84 | for any line made of a prefix without `c`, `chrome.`, a dotted chain of two or more words and a suffix that cannot extend it, the result is that chain |
| Apis.ApiMemberUsedMember | src/chrome_app/apis_test.py:47-51 | `chrome.tts.speak` in a line yields `tts.speak` |
| Apis.ApiMemberUsedSuperNamespace | src/chrome_app/apis_test.py:53-55 | `chrome.app.runtime.onLaunched` yields `app.runtime.onLaunched` |
| Apis.SuperNamespaceMemberApi | src/chrome_app/apis.py:44-45 | the API name at the front of `app.runtime.onLaunched` is the two-segment `app.runtime` |
| Apis.ApiMemberUsedUrl | src/chrome_app/apis_test.py:57-62 | `chrome.google.com` is reported as member `google.com`: the code has no registry check, which is why the test that expects None is skipped |
| Apis.ApiNameEnd | src/chrome_app/apis.py:44-45 | the API group of `CHROME_API_REGEX` taken at a word character ends after it |
| Apis.ApiNameEndIsApiName | src/chrome_app/apis.py:44-45 | that group is one word, or `app`, `sockets` or `system`, a dot and one word |
| Apis.ApiNames | src/chrome_app/apis.py:105-106 | every name `finditer` captures from a text is an API name of that shape |
| Apis.FoundApis | src/chrome_app/apis.py:101-106 | the set gathered over the app's files holds only API names of that shape |
| Apis.AppApis | src/chrome_app/apis.py:87-108 | `app_apis` returns a strictly increasing list (sorted, no duplicates) holding exactly the names found in the files |
| Apis.AddNames | src/chrome_app/apis.py:105-106 | the inner loop adds exactly the names of one file to the set |
| Apis.MemberUsedMeaning | src/chrome_app/apis.py:163-175 | the per-API pattern finds no member exactly when it matches nowhere in the line; a member it finds (group 1 without its leading dot) is a dotted name |
| Apis.PlainApiPattern | src/chrome_app/apis.py:163 | an API name without a dot, interpolated into the pattern, matches exactly that name |
| Apis.MemberReportedAt | src/chrome_app/apis.py:172-175 | the first `chrome.<api>.` reference reports its maximal member chain |
| Apis.MemberUsedFound | src/chrome_app/apis.py:172-175 | when the search finds the pattern at `p`, the member is the maximal chain after `chrome.<api>.` |
| Apis.MemberUsedWildcard | src/chrome_app/apis.py:163 | the API name is interpolated unescaped, so the dot of `app.window` matches any character: `chrome.appXwindow.create` counts as a use of `create` |
| Apis.WildcardReference | src/chrome_app/apis.py:163 | the same text matches the `app.window` pattern at the start |
| Apis.Window | src/chrome_app/apis.py:174-178 | an occurrence records the file's relative path and the line number |
| Apis.WindowBounds | src/chrome_app/apis.py:174-178 | the context starts `min(n, size)` lines before line `n` and holds the joined lines up to `size` lines after it, cut only at the ends of the file |
| Apis.GroupSelect | src/chrome_app/apis.py:162-179 | appending to a `defaultdict(list)`: a member is a key exactly when some hit has it, and its list holds that member's occurrences in order |
| Apis.Select | src/chrome_app/apis.py:179 | the occurrences kept for one member are no more than the hits |
| Apis.SelectEmpty | src/chrome_app/apis.py:179 | a member no hit names gets no occurrence |
| Apis.FileHitsWellFormed | src/chrome_app/apis.py:170-179 | every hit recorded for a file lies on a scanned line, names the member the pattern reports there, and carries that line's window |
| Apis.LineHitsWellFormed | src/chrome_app/apis.py:171-179 | every hit one line yields lies on that line and names a member the per-API pattern reports there |
| Apis.FileHitsLines | src/chrome_app/apis.py:170 | the hits of the first `count` lines lie on those lines |
| Apis.FileHitsOrdered | src/chrome_app/apis.py:170-179 | the hits go down the file, at most one per line and API |
| Apis.FileHitsComplete | src/chrome_app/apis.py:170-179 | every line the per-API pattern matches yields a hit |
| Apis.FileHitKept | src/chrome_app/apis.py:170-179 | scanning more lines only appends hits: a hit found stays at its place and on its line |
| Apis.ScanLine | src/chrome_app/apis.py:171-179 | one line: each API's member map gets that line's hit appended, and the keys stay the API list |
| Apis.ScanFile | src/chrome_app/apis.py:166-179 | one file: each API's member map becomes the grouping of the hits of the files so far |
| Apis.Usage | src/chrome_app/apis.py:140-181 | `usage` maps exactly the given APIs, each to the grouping of its hits over all files, in file and line order |
| Apis.ApiAtIsBoundedNamespace | src/chrome_app/apis.py:44-45 | `CHROME_API_REGEX` matches exactly where `CHROME_NAMESPACE_REGEX` does and no word character or dot comes before |
| Apis.NamespaceAtIsChromeDotWord | src/chrome_app/apis.py:53 | `chrome((?:\.\w+)+)` matches exactly where `chrome` is followed by a dot and a word character |
| Apis.LineHits | src/chrome_app/apis.py:171-179 | one line gives at most one hit per API |
| Apis.FileHits | src/chrome_app/apis.py:170-179 | a file gives at most one hit per line and API |
| Apis.Hits | src/chrome_app/apis.py:166-179 | the files give at most one hit per line and API |
| Apis.Add | src/chrome_app/apis.py:179 | appending to `usage_data[api][member]`: the member becomes a key, its list ends with the new occurrence, and every other member keeps its list |
| Apis.AddAll | src/chrome_app/apis.py:170-179 | appending hits keeps every member already present, and a member with a non-empty list keeps a non-empty list |
| Apis.Group | src/chrome_app/apis.py:162-179 | a member present in the `defaultdict(list)` always has at least one occurrence |
| Apis.UsageIndexOf | src/chrome_app/apis.py:140-181 | the index `usage` is meant to return has exactly the requested APIs as keys |
| Apis.UsageAsWritten | src/chrome_app/apis.py:166-167 | `usage` as written returns an index over the requested APIs only if `all_paths` accepts the keywords it is called with |
| Apis.UsageAlwaysRaises | src/chrome_app/apis.py:166-167 | `usage` as written raises `TypeError: all_paths() got an unexpected keyword argument 'ignore_dirs'` on every call and never returns the index |
| Caterpillar.Partition | src/caterpillar.py:106-116 | the APIs the loop appends to `successful` are exactly those with a polyfill, those appended to `unsuccessful` exactly those without |
| Caterpillar.PartitionComplete | src/caterpillar.py:106-116 | together the two lists hold every API as often as the input does |
| Caterpillar.PolyfillApis | src/caterpillar.py:91-120 | `polyfill_apis` returns the APIs with a polyfill, sorted, and those without, sorted, each in the input's order before sorting |
| Caterpillar.PolyfillApisPartition | src/caterpillar.py:91-120 | both lists are sorted, every API lands in exactly one of them as often as it was given, and only APIs in `POLYFILLS` are successful |
| Caterpillar.NothingPolyfilled | src/caterpillar.py:39-40 | with the empty `POLYFILLS` nothing is successful and every API is unsuccessful |
| Caterpillar.IconInjective | src/caterpillar.py:151-154 | the icon `{src, sizes: "NxN"}` determines its size and its source |
| Caterpillar.Icon | src/caterpillar.py:151-154 | the icon appended for one size is an object with exactly the members `src`, holding the indexed value, and `sizes` |
| Caterpillar.ListIndex | src/caterpillar.py:152 | `manifest['icons'][icon_size]` on a list: an index that is neither an integer nor a bool raises `TypeError` |
| Caterpillar.ListIndexCases | src/caterpillar.py:152 | it succeeds exactly for an integer or bool index in `-len .. len - 1`, picking that item from the front or, when negative, from the end; an integer out of range raises `IndexError` |
| Caterpillar.ListIndexModulo | src/caterpillar.py:152 | an index in range picks the item at the index modulo the length |
| Caterpillar.NatText | src/caterpillar.py:153 | the decimal text of a natural number is non-empty and made of digits |
| Caterpillar.DecimalText | src/caterpillar.py:153 | `'{0}'.format(n)` of an integer starts with a minus sign exactly when it is negative |
| Caterpillar.ArrayIconsOk | src/caterpillar.py:150-154 | the loop over a list runs to the end exactly when every item indexes the list |
| Caterpillar.ArrayIconsValues | src/caterpillar.py:150-154 | then it gives one icon per item, in order, with the indexed item as source and the item's text as size |
| Caterpillar.ArrayIconsFirstError | src/caterpillar.py:150-154 | otherwise it raises the error of the first item that does not index the list |
| Caterpillar.ArrayIconsFailsFrom | src/caterpillar.py:150-154 | after a failing item the later items change nothing |
| Caterpillar.ArrayIconsLoop | src/caterpillar.py:150-154 | the loop over a list, item by item, gives the icons or the error that `ArrayIcons` describes |
| Caterpillar.ArrayIconExamples | src/caterpillar.py:150-154 | `[0]` gives the icon `{src: 0, sizes: "0x0"}`; `-1` counts from the end; `true` indexes item 1 |
| Caterpillar.ArrayIconErrors | src/caterpillar.py:150-154 | `[3]` raises `IndexError`; `[{}]` raises the `TypeError` naming `dict` |
| Caterpillar.IconsFailure | src/caterpillar.py:149-154 | the loop over `manifest['icons']` completes for an object, for an empty string, and for a list exactly when every item indexes the list; a non-empty string, null, a bool or a number raises a `TypeError` |
| Caterpillar.FixedMembers | src/caterpillar.py:133-148 | every member but `icons`: `name` copied, `short_name` falling back to `name`, `lang` to `default_locale` or "en", `start_url` from the configuration, and the fixed display, orientation, colours and empty lists |
| Caterpillar.CaToPwaManifest | src/caterpillar.py:122-159 | `ca_to_pwa_manifest` fails with `KeyError('name')` without a name, `KeyError('start_url')` without that option, the loop's error for icons it cannot go through, and succeeds otherwise; the result is the fixed members plus the icons: one distinct icon per size of an object, one icon per item of a list in order, none for an empty string or without `icons` |
| Caterpillar.PwaMembers | src/caterpillar.py:133-148 | the web app manifest has exactly its twelve members; no other member of the Chrome App manifest is carried over |
| Caterpillar.IconsLoop | src/caterpillar.py:149-154 | the icon loop, in any dictionary order, yields one distinct icon per size and nothing else |
| Caterpillar.IconsAlongAll | src/caterpillar.py:150-154 | once every size has been visited once, the icons are exactly those of the manifest |
| Caterpillar.BoilerplateDir | src/caterpillar.py:161-171 | `boilerplate_dir` ends with `caterpillar`, and is `directory/caterpillar` for a directory not ending in a slash |
| Caterpillar.RelativeBoilerplateFilePath | src/caterpillar.py:173-187 | the path starts with `caterpillar/` and the file name follows it unchanged |
| Caterpillar.PolyfillFilename | src/caterpillar.py:189-199 | the API name followed by `.polyfill.js` |
| Caterpillar.PolyfillFilenameInjective | src/caterpillar.py:189-199 | different APIs have different polyfill files |
| Caterpillar.RelativePolyfillPath | src/caterpillar.py:177-179 | the documented example: `tts` gives `caterpillar/tts.polyfill.js` |
| Caterpillar.RelativePathAgreesWithDir | src/caterpillar.py:161-187 | joined to the app directory, the relative path of a boilerplate file is the file joined to the boilerplate directory |
| ChromeAppManifest.Contains | src/chrome_app/manifest.py:73 | Python's `in` on a JSON value: a `TypeError` exactly for null, booleans and numbers; on an object it tests for the key |
| ChromeAppManifest.VersionWarnings | src/chrome_app/manifest.py:59-69 | no warning exactly when `manifest_version` is present and equal to 2; at most one warning otherwise |
| ChromeAppManifest.Raised | src/chrome_app/manifest.py:72-74 | `verify` raises nothing exactly when `app` is present and contains `background`; without `app` it raises the missing-background `ValueError` |
| ChromeAppManifest.RequiredWarnings | src/chrome_app/manifest.py:76-82 | the missing-name warning appears exactly when `name` is absent, the missing-version warning exactly when `version` is absent |
| ChromeAppManifest.Verify | src/chrome_app/manifest.py:48-89 | `verify` raises as `Raised` says, after logging only the version warnings; otherwise it logs the version warnings, the required-member warnings, then one warning per member outside the included set |
| ChromeAppManifest.WarnUnconverted | src/chrome_app/manifest.py:84-89 | the final loop warns once for every member outside the included set, and for no other member |
| ChromeAppManifest.RaisedCases | src/chrome_app/manifest.py:73-74 | an empty `app` object raises; an `app` holding `background` passes; an `app` list passes exactly when it holds the string `background`; a number raises `TypeError` |
| ChromeAppManifest.EmptyManifest | src/chrome_app/manifest_test.py:36-42 | the empty manifest raises the missing-background error after the missing-version warning |
| ChromeAppManifest.AlmostEmptyManifest | src/chrome_app/manifest_test.py:44-52 | a manifest with only a background script passes, with the manifest-version, name and version warnings in that order |
| ChromeAppManifest.MinimumManifest | src/chrome_app/manifest_test.py:147-159 | a manifest with version 2, a background script, a name, a version and any convertible member logs no warning |
| ChromeAppManifest.UnconvertibleMember | src/chrome_app/manifest_test.py:134-145 | an unconvertible member is the one warning logged |
| ChromeAppManifest.OnlyUnconvertedWarned | src/chrome_app/manifest.py:84-89 | when at most one member is outside the included set, the final loop logs exactly that one warning, or nothing |
| ChromeAppManifest.WrongVersionQuoted | src/chrome_app/manifest_test.py:111-121 | manifest version 1 gives the one wrong-version warning, quoting the version |
| Configuration.StrToBool | src/configuration.py:44-61 | `str_to_bool` gives True exactly for "true" in any letter case, False exactly for "false" in any letter case, and otherwise the `ValueError` quoting the input |
| Configuration.StrToBoolReadsBoolStr | src/configuration.py:53-59 | the text Python shows for a bool (`True`, `False`) reads back as that bool |
| Configuration.StrToBoolIgnoresCase | src/configuration.py:53 | lower-casing the input first changes nothing about success or the value |
| Configuration.LowerIdempotent | src/configuration.py:53 | lower-casing twice is lower-casing once |
| Configuration.OptionNames | src/configuration.py:79 | `sorted(OPTIONS.items())` visits every option once, in strictly increasing name order |
| Configuration.OptionNamesCover | src/configuration.py:79 | every option of the table is visited |
| Configuration.ChooseCases | src/configuration.py:82-91 | an empty answer keeps the default; an option with a bool default reads the answer with `str_to_bool` and fails exactly when that fails, with its error; any other option takes the answer as typed |
| Configuration.Prompt | src/configuration.py:83 | the prompt starts with the option's description and ends with `): ` |
| Configuration.Choose | src/configuration.py:85-91 | choosing from an answer can only raise `ValueError`, and an option with a bool default always gets a bool |
| Configuration.Visit | src/configuration.py:80-91 | a visit raises only when prompting, and raises `EOFError` exactly when the answers have run out; a bool option gets a bool |
| Configuration.PromptsInOrder | src/configuration.py:79-83 | the `i`-th prompt shown is `description (default): ` of the `i`-th option in sorted order |
| Configuration.Generate | src/configuration.py:64-93 | `generate` builds the configuration the option-by-option specification gives; without prompting it shows nothing; with prompting it shows the prompts in order, all of them when it succeeds |
| Configuration.GenerateStops | src/configuration.py:78-90 | once an option fails, `generate` ends with that error, having shown only the prompts up to it |
| Configuration.Ask | src/configuration.py:80-91 | one iteration: the option's value, or the error reading its answer raised, and the prompt shown when interactive |
| Configuration.GenerateStep | src/configuration.py:79-91 | one option more: the value chosen for it is stored, or its error ends the loop |
| Configuration.GenerateFailsFrom | src/configuration.py:79-91 | once an option has raised, the later options change nothing |
| Configuration.Defaults | src/configuration.py:32-41 | the configuration of all defaults has exactly the options as keys, each with its default |
| Configuration.GenerateValues | src/configuration.py:79-91 | a successful run stores only visited options, each with the value chosen from its answer or its default |
| Configuration.GenerateFails | src/configuration.py:82-89 | `generate` raises exactly when prompting and the answers run out (`EOFError`) or some bool option gets an answer `str_to_bool` rejects |
| Configuration.GenerateOkWhenVisitsOk | src/configuration.py:79-93 | when every option's visit succeeds, so does `generate` |
| Configuration.AllDefaultsGiveDefaults | src/configuration.py:79-93 | when every option keeps its default, the result is the configuration of all defaults |
| Configuration.DefaultsExtensional | src/configuration.py:32-41 | a configuration with exactly the options, each at its default, is the configuration of all defaults |
| Configuration.GenerateNonInteractive | src/configuration.py:78-93 | without prompting, `generate` returns every option with its default |
| Configuration.EmptyAnswersKeepDefaults | src/configuration.py:85-86 | empty answers to every prompt keep every default |
| Configuration.MissingOptions | src/configuration.py:127-136 | `missing_options` is strictly increasing and lists exactly the options the configuration lacks |
| Configuration.UnexpectedOptions | src/configuration.py:139-148 | `unexpected_options` is strictly increasing and lists exactly the keys of the configuration that are not options |
| Configuration.NoWarningsIffExactOptions | src/configuration.py:114-122 | `load` warns about neither missing nor unexpected options exactly when the configuration's keys are the options |
| Configuration.GeneratedKeys | src/configuration.py:78-93 | a generated configuration has exactly the options as keys |
| Configuration.GeneratedIsComplete | src/configuration.py:111-124 | a configuration `generate` made, once loaded, triggers neither of `load`'s warnings |
| PolyfillManifest.Default | src/polyfill_manifest.py:29-44 | `default(api)` names the API, has status `none`, and has no dependencies and no warnings |
| PolyfillManifest.FirstFailure | src/polyfill_manifest.py:73-74 | the first API whose manifest cannot be loaded: none exactly when every load succeeds; otherwise a failing API with every earlier load succeeding |
| PolyfillManifest.LoadMany | src/polyfill_manifest.py:63-76 | `load_many` succeeds exactly when every load does, and then maps exactly the requested APIs, each to its loaded manifest; otherwise it passes on the error of the first failing load |
| PolyfillManifest.FirstFailureFrom | src/polyfill_manifest.py:73-74 | once a failing API is found, looking further does not change which one is first |
| SurrogateEscape.Utf8Encode | src/surrogateescape.py:83 | `char.encode('utf-8')` of one code point is one to four bytes, one byte exactly for ASCII |
| SurrogateEscape.DecodeOne | src/surrogateescape.py:63 | the UTF-8 decoder reads one sequence of one to four bytes; an ASCII byte is one code point by itself |
| SurrogateEscape.DecodeOneEncodes | src/surrogateescape.py:53-84 | a sequence the strict decoder accepts is exactly the UTF-8 encoding of the code point it yields, which is not a surrogate |
| SurrogateEscape.EncodesTwo | src/surrogateescape.py:53-84 | a well-formed two-byte sequence is the encoding of the code point it decodes to |
| SurrogateEscape.EncodesThree | src/surrogateescape.py:53-84 | a well-formed three-byte sequence is the encoding of the code point it decodes to, which is not a surrogate |
| SurrogateEscape.EncodesFour | src/surrogateescape.py:53-84 | a well-formed four-byte sequence is the encoding of the code point it decodes to |
| SurrogateEscape.Escape | src/surrogateescape.py:48 | an undecodable byte `b` becomes U+DC00 + `b`, which `encode` turns back into a byte |
| SurrogateEscape.Escaped | src/surrogateescape.py:44-50 | one escape per undecodable byte |
| SurrogateEscape.ErrorHandler | src/surrogateescape.py:29-50 | `error_handler` raises again the very error object it was given when that is not a decode error, or when some byte of the range is below 0x80; otherwise it replaces the range by the escapes of its bytes (all in U+DC80..U+DCFF, one per byte) and resumes at the end of the range |
| SurrogateEscape.DecodeStepIsHandled | src/surrogateescape.py:43-50 | the escape `Decode` puts for a byte that starts no well-formed sequence is exactly the replacement the handler gives for the one-byte decode error there, resuming one byte later |
| SurrogateEscape.EscapeRange | src/surrogateescape.py:43-48 | the handler's loop: the escapes of the range, or a failure exactly when some byte of it is ASCII |
| SurrogateEscape.EscapedHigh | src/surrogateescape.py:46-48 | bytes 0x80..0xFF escape into U+DC80..U+DCFF |
| SurrogateEscape.Decode | src/surrogateescape.py:53-63 | decoding with the handler gives no more code points than there were bytes, and nothing exactly for no bytes |
| SurrogateEscape.EncodeChar | src/surrogateescape.py:79-83 | a code point of U+DC00..U+DCFF becomes the single byte it escapes; any other code point its UTF-8 encoding |
| SurrogateEscape.Encoded | src/surrogateescape.py:77-84 | `encode` gives one to four bytes per code point |
| SurrogateEscape.Encode | src/surrogateescape.py:66-84 | `encode`'s loop produces the bytes of each code point in order |
| SurrogateEscape.EncodedConcat | src/surrogateescape.py:77-84 | encoding distributes over concatenation |
| SurrogateEscape.DecodedSurrogatesAreHighEscapes | src/surrogateescape.py:53-63 | the only surrogates strict decoding produces are escapes of bytes 0x80..0xFF |
| SurrogateEscape.RoundTrip | src/surrogateescape.py:18-21 | the promise of the module, for a decoder that rejects encoded surrogates: `encode(decode(b)) == b` for every byte string |
| SurrogateEscape.RoundTripDecoded | src/surrogateescape.py:53-84 | one well-formed sequence round-trips |
| SurrogateEscape.RoundTripEscaped | src/surrogateescape.py:44-84 | one undecodable byte round-trips |
| SurrogateEscape.DecodeEscapes | src/surrogateescape.py:44-50 | a byte that starts no well-formed sequence becomes its escape U+DC00 plus the byte, and decoding goes on at the next byte |
| SurrogateEscape.Python2DecoderBreaksRoundTrip | src/surrogateescape.py:63 | with Python 2's decoder, which accepts the encoded surrogate ED B3 A9, decoding gives U+DCE9 and encoding gives back the single byte E9 |
| SurrogateEscape.MakePrintable | src/surrogateescape.py:87-96 | `make_printable` keeps the length |
| SurrogateEscape.MakePrintableAt | src/surrogateescape.py:87-96 | `make_printable` keeps the length and replaces exactly the surrogates U+D800..U+DFFF by U+FFFD |
| SurrogateEscape.MakePrintableClean | src/surrogateescape.py:96 | its result holds no surrogate |
| SurrogateEscape.MakePrintableIdempotent | src/surrogateescape.py:96 | applying it twice is applying it once |
| SurrogateEscape.PrintableIffUtf8 | src/surrogateescape.py:53-96 | decoded text is left unchanged by `make_printable` exactly when the bytes were well-formed UTF-8 |
| Walk.AllPaths | src/chrome_app/walk.py:24-40 | `all_paths`'s nested loops yield, directory by directory in walk order, the joined path of each selected file name |
| Walk.StepPathsMembers | src/chrome_app/walk.py:37-40 | a path comes from one directory exactly when some selected file of it joins to that path |
| Walk.WalkPathsMembers | src/chrome_app/walk.py:35-40 | a path is yielded exactly when some walk step yields it; only file names are ever joined, never subdirectory names |
| Walk.NoExtensionKeepsAll | src/chrome_app/walk.py:38 | without an extension every file of every directory is yielded |
| Walk.StepKeepsAll | src/chrome_app/walk.py:38 | without an extension every file of one directory is yielded |
| Walk.UpperCaseExtensionNeverSelected | src/chrome_app/walk.py:38 | only the file name is lower-cased, so an extension with an upper-case letter matches no file |
| Walk.UpperCaseExtensionYieldsNothing | src/chrome_app/walk.py:35-40 | such an extension makes the walk yield nothing |
| Walk.StepYieldsNothing | src/chrome_app/walk.py:37-40 | such an extension makes one directory yield nothing |
| Walk.SelectedNeedsLongerName | src/chrome_app/walk.py:38 | a file selected by an extension has a longer name than the extension, since the name must end with a dot and the extension |
| Walk.StepPathsAtMost | src/chrome_app/walk.py:37-40 | a directory yields at most one path per file name |
| Walk.WalkPathsAtMost | src/chrome_app/walk.py:35-40 | the walk yields at most one path per file of the tree |
| Walk.BindAllPaths | src/chrome_app/walk.py:24 | binding keyword arguments to the generator `all_paths` succeeds exactly when each keyword is `directory` or `extension`; otherwise the call raises the `TypeError` naming an undeclared keyword |
| Report.Parent | src/report/report.py:306 | `member.rsplit('.', 1)[0]` is strictly shorter and is a member the original lies under |
| Report.FirstWarningOf | src/report/report.py:285-297 | the scan of the warnings stops at the first one naming the member; none exactly when no warning names it |
| Report.WalkMemberStatus | src/report/report.py:281-306 | the `while True` loop of the replacer computes the status the member walk specifies, and terminates because the member shortens |
| Report.DeepestWarnedAncestorDecides | src/report/report.py:281-306 | the status comes from the deepest member along the path that some warning names: a bare name gives `none`, an object its `status` |
| Report.UnwarnedMemberHasApiStatus | src/report/report.py:302-304 | when no warning names the member or any member above it, the walk ends with the API's own status |
| Report.MemberStatusSource | src/report/report.py:281-306 | the status found is the API's status or the decision of a warning on a member along the path |
| Report.AncestorTransitive | src/report/report.py:281-306 | a member above a member above `m` is above `m`, so the walk visits every ancestor in turn |
| Report.NamesApiAloneIffApiName | src/report/report.py:267-269 | the replacer's test (no dot, or one dot after `app`, `sockets` or `system`) holds for a reference exactly when it is an API name `CHROME_API_REGEX` can capture |
| Report.ApiReferenceStatus | src/report/report.py:267-276 | `chrome.X` and `chrome.app.X` take the API's top-level status, or fail the lookup of an API missing from the table |
| Report.MemberReferenceStatus | src/report/report.py:278-306 | `chrome.<api>.<member>` is split by `CHROME_API_AND_MEMBER_REGEX` at the API name, and takes the walk's status for the member, or fails the lookup of the API |
| Report.Pieces | src/report/report.py:311 | `CHROME_NAMESPACE_REGEX.sub` scans leftmost match after leftmost match; every reference it cuts out is a dotted name |
| Report.ReferenceEnd | src/chrome_app/apis.py:53 | a match of `chrome((?:\.\w+)+)` ends after at least one `.word` |
| Report.ReferenceAt | src/chrome_app/apis.py:53 | the matched chain is a dotted name |
| Report.RenderFails | src/report/report.py:311 | the substitution fails exactly when a replacement does, with the error of the leftmost failing reference |
| Report.ReferenceStatusFails | src/report/report.py:262-306 | the replacer raises only `KeyError` |
| Report.MemberStatusFails | src/report/report.py:281-306 | the member walk raises only the `KeyError` of a warning object without `status` |
| Report.RenderFailsOnLookup | src/report/report.py:262-311 | the substitution, one replacement after another, raises only `KeyError` |
| Report.FormatHtmlFails | src/report/report.py:251-311 | `format_html` raises only `KeyError` |
| Report.FormatHtmlWithoutReference | src/report/report.py:251-311 | text without any `chrome.<word>` comes back unchanged |
| Report.PiecesOriginal | src/report/report.py:311 | the substitution's runs and matches, put back together, are the original text: only references are replaced |
| Report.PlainPiecesHoldNoReference | src/report/report.py:311 | the runs between matches hold no reference |
| Report.PiecesOfOneReference | src/report/report.py:311 | a text with exactly one reference splits into the text before it, the reference and the text after it |
| Report.RenderOneReference | src/report/report.py:262-311 | a reference is written as `<span class="ca-feature S">chrome.…</span>` with its status S, the text around it unchanged |
| Report.FormatOneReference | src/report/report.py:251-311 | `format_html` of a text with one reference wraps exactly that reference in its status span, or fails its lookup |
| Report.ReferenceStatusNewlineFree | src/report/report.py:262-311 | the status written into a span holds no line break when the API table's statuses hold none |
| Report.MemberStatusNewlineFree | src/report/report.py:281-306 | a status taken from a warning holds no line break when the manifest's statuses hold none |
| Report.RenderNewlineFree | src/report/report.py:311 | marking the references of a line adds no line break |
| Report.ReplacedLineSplits | src/report/report.py:164-166 | replacing one line by a line without a break and joining keeps the other lines when split again |
| Report.MapAllEach | src/report/report.py:244-246 | a loop applying a step to each element succeeds exactly when every step does, and then gives each element's result in order; otherwise the first failing step's error |
| Report.MakeWarning | src/report/report.py:200-218 | `make_warning` keeps the member it was given |
| Report.MakeWarningMarksMember | src/report/report.py:200-218 | the warning text is `chrome.<name>.<member>` wrapped in the member's status span, then `: ` and the text; an API missing from the table fails the lookup |
| Report.ExampleWarning | src/report/report.py:215-218 | for a plain API name, a known member status and a text without `c`, the warning is the marked reference followed by the text |
| Report.MakeWarningExample | src/report/report_test.py:193-199 | the `power`/`requestKeepAwake` warning of the unit tests is marked `none` and reads `: Does nothing.` |
| Report.PowerKeepAwakeStatus | src/report/report_test.py:181-199 | in the unit tests' `power` manifest, `requestKeepAwake` has status `none` |
| Report.MakeWarningUnknownApi | src/report/report.py:278-285 | a warning about an API missing from the table raises `KeyError` |
| Report.ManifestWarnings | src/report/report.py:221-248 | `manifest_warnings`' loop computes the warnings the specification gives, in manifest order |
| Report.MakeWarnings | src/report/report.py:244-246 | the inner loop over a list text makes one warning per text |
| Report.CollectedNext | src/report/report.py:234-246 | one manifest warning more: its warnings are appended, or its error ends the loop |
| Report.CollectedFailsFrom | src/report/report.py:234-246 | once a warning has raised, the later ones change nothing |
| Report.CollectedOne | src/report/report.py:234-246 | a manifest with one warning gives exactly the entries made from that warning's texts |
| Report.MakerMade | src/report/report.py:244-246 | the warnings made from a list of texts are one per text, in order |
| Report.CollectedAreEntries | src/report/report.py:233-248 | `manifest_warnings` succeeds exactly when every warning has its texts and every text can be marked; then it gives one warning per text (one for a bare name, one for a string text, one per element of a list text), in order, each `make_warning` of its member and text |
| Report.CollectedHadTexts | src/report/report.py:233-248 | a successful loop ended with a warning that had its texts |
| Report.WarningTextsFails | src/report/report.py:237-246 | the texts of a warning: a lookup fails exactly for an object without `text`, with `KeyError('text')` |
| Report.BareWarningExample | src/report/report_test.py:205-216 | a bare `member` gives the one warning `chrome.test.member` marked `none` with `Not implemented in the polyfill.` |
| Report.ListWarningExample | src/report/report_test.py:234-251 | a list of two texts gives two warnings, both marked `partial`, in list order |
| Report.FormatHtmlNewlineFree | src/report/report.py:251-311 | marking references adds no line break to a line without one, when no status holds one |
| Report.EscapeHtmlNoMarkup | src/report/report.py:96 | `cgi.escape` leaves no `<` or `>` in the context |
| Report.EscapeKeepsLines | src/report/report.py:96-97 | escaping keeps the number of line breaks, so the relevant line keeps its index |
| Report.EscapeCharLines | src/report/report.py:96 | escaping one character yields a line break exactly when it is one |
| Report.UnescapeEscape | src/report/report.py:96 | escaping loses nothing: unescaping the entities gives the context back |
| Report.UnescapeChar | src/report/report.py:96 | unescaping undoes the escape of one character in front of any text |
| Report.EscapeHtml | src/report/report.py:96 | `cgi.escape` never shortens the context |
| Report.ProcessOccurrenceFails | src/report/report.py:96-98 | processing one occurrence raises only `IndexError` or `KeyError` |
| Report.ApiUsage | src/report/report.py:94-101 | an API's usage list has exactly as many entries as its members have occurrences |
| Report.UsageList | src/report/report.py:94 | an API the usage index does not hold raises `KeyError` with its name; a list that is made has one entry per occurrence of the API's members |
| Report.UsageLists | src/report/report.py:92-101 | a successful loop has stored a usage list under the last API it visited |
| Report.LineAt | src/report/report.py:165 | Python's `lines[relevant_line]`: in range exactly for `-n <= relevant_line < n`, a negative index counting from the end |
| Report.HighlightChangesOneLine | src/report/report.py:152-167 | `highlight_relevant_line` changes only the relevant line, which gets its references marked, keeps every other line and the line count, and raises `IndexError` for an index out of range |
| Report.HighlightWithoutReference | src/report/report_test.py:152-160 | a context whose relevant line has no reference comes back unchanged |
| Report.HighlightEmpty | src/report/report_test.py:147-150 | the empty context highlights to the empty string |
| Report.OccurrenceOrder | src/report/report.py:100-101 | the order `list.sort()` uses on `(filepath, linenum, context, context_linenum)` tuples is total, transitive and antisymmetric, so the sorted list is unique |
| Report.ProcessApiUsage | src/report/report.py:93-101 | the usage list of one API: every occurrence of every member escaped and highlighted, then sorted |
| Report.CollectOccurrences | src/report/report.py:94-95 | the occurrences of the members, member after member |
| Report.ProcessOccurrences | src/report/report.py:95-98 | each occurrence escaped and highlighted in turn; the first failure is raised |
| Report.ProcessApiList | src/report/report.py:94 | an API the usage index does not hold fails the lookup `usage[api_name]` |
| Report.UsageListsGather | src/report/report.py:92-101 | the loop over the APIs is the generic gathering loop with one usage list per API |
| Report.UsageListsFailFrom | src/report/report.py:92-101 | once an API has raised, the later APIs change nothing |
| Report.ProcessUsage | src/report/report.py:82-101 | `process_usage`'s loop over the APIs computes, API by API, the usage lists the specification gives |
| Report.StoreUsageList | src/report/report.py:92-101 | one API more: its usage list is stored under its name, or its error ends the loop |
| Report.ProcessKeepsPlace | src/report/report.py:95-98 | processing keeps the file, the line and the context start of an occurrence |
| Report.MembersOccurrencesHold | src/report/report.py:94-95 | an occurrence is gathered exactly when some member's list holds it |
| Report.ApiUsageSortedPermutation | src/report/report.py:93-101 | an API's usage list is sorted by file, then line, and holds exactly the processed occurrences, as often as they occur, each coming from an occurrence of some member |
| Report.ProcessedFromMembers | src/report/report.py:94-98 | every processed occurrence comes from an occurrence of some member |
| Report.ApiUsageUnique | src/report/report.py:100-101 | any sorted arrangement of the processed occurrences is the usage list |
| Report.ProcessUsageCovers | src/report/report.py:82-101 | `process_usage` succeeds exactly when every API's usage list can be made, and then gives every API of the table its usage list and nothing else |
| Report.GatherCover | src/report/report.py:92-101 | a loop storing one value per name succeeds exactly when each value can be had, and then maps exactly the names visited, each to its value |
| Report.GatherSorted | src/report/report.py:92 | over the sorted names of a set, that loop maps exactly the set's names |
| Report.SectionsPartition | src/report/report.py:118-120 | the polyfilled section (status not `none`) and the not-polyfilled section (status `none`) split the APIs between them, each keeping its manifest |
| Report.Polyfilled | src/report/report.py:118-120 | the polyfilled section is a part of the API table, each API with its own manifest |
| Report.NotPolyfilled | src/report/report.py:184-185 | the not-polyfilled section is a part of the API table, each API with its own manifest |
| Report.SplitWarnings | src/report/report.py:128-142 | the loop over the warnings sends each to the relevant list when some used member starts with its member, and to the other list otherwise, in order |
| Report.SplitPartition | src/report/report.py:128-142 | every warning's text lands in exactly one of the two lists |
| Report.RelevantTexts | src/report/report.py:134-140 | no more relevant texts than warnings |
| Report.OtherTexts | src/report/report.py:141-142 | no more other texts than warnings |
| Report.UsedMemberIsRelevant | src/report/report.py:134-139 | a warning on a used member is relevant |
| Report.RelevanceOverApproximates | src/report/report.py:135-138 | the prefix test matches more than members and their parents: a warning on `get` is relevant to a use of `getAll` |
| Text.LowerChar | src/chrome_app/walk.py:38 | Python 2's `str.lower` on one character: only ASCII capitals change, and none remain |
| Text.LowerChars | src/configuration.py:53 | `lower` keeps the length and lowers each character on its own |
| Text.IndexOf | src/report/report.py:269 | the first dot: where `split('.', 1)` cuts |
| Text.IndexOfUnique | src/report/report.py:269 | a position holding the first occurrence is the one `IndexOf` finds |
| Text.LastIndexOf | src/report/report.py:306 | the last dot: where `rsplit('.', 1)` cuts |
| Text.Split | src/report/report.py:164 | `str.split('\n')` always gives at least one part |
| Text.SplitPartsSeparatorFree | src/report/report.py:164 | no part of the split holds the separator |
| Text.JoinSplit | src/report/report.py:164-166 | joining the parts of a split with the separator gives the text back |
| Text.SplitJoin | src/report/report.py:164-166 | splitting parts joined with the separator gives the parts back, when no part holds it |
| Text.LessIrreflexive | src/chrome_app/apis.py:108 | Python's string order is irreflexive |
| Text.LessTransitive | src/chrome_app/apis.py:108 | Python's string order is transitive |
| Text.LessTotal | src/chrome_app/apis.py:108 | any two different strings are ordered one way or the other |
| Text.LessAsymmetric | src/chrome_app/apis.py:108 | no two strings are each below the other |
| Text.MinimumExists | src/chrome_app/apis.py:108 | a non-empty set of strings has a least element |
| Text.MinimumUnique | src/chrome_app/apis.py:108 | the least element is unique |
| Text.Minimum | src/chrome_app/apis.py:108 | the least element is an element of the set |
| Text.MinimumIsLeast | src/chrome_app/apis.py:108 | the element chosen is below or equal to every other |
| Text.SortedSet | src/chrome_app/apis.py:108 | `sorted` of a set lists only its elements, as many as the set has |
| Text.SortedSetSorted | src/chrome_app/apis.py:108 | `sorted` of a set is strictly increasing |
| Text.SortedSetMember | src/chrome_app/apis.py:108 | `sorted` of a set holds exactly the set's elements |
| Text.SortedSetIndices | src/chrome_app/apis.py:108 | the positions of `sorted` of a set hold exactly the set's elements |
| Text.InsertBySorted | src/caterpillar.py:118-119 | inserting into a sorted list keeps it sorted and adds just that element |
| Text.SortBySorted | src/caterpillar.py:118-119 | `list.sort` gives a sorted permutation of the list, for any total preorder |
| Text.SortedUnique | src/report/report.py:101 | under an antisymmetric order two sorted permutations of the same elements are equal |
| Text.LessEqTotalPreorder | src/caterpillar.py:118-119 | the string order with equality is a total preorder |
| Text.Sort | src/caterpillar.py:118-119 | sorting a list of strings gives a sorted permutation of it |
| Text.PathJoinEnds | src/chrome_app/walk.py:39 | `os.path.join(a, b)` ends with `b`, and starts with `a` when `b` is relative and `a` is not empty |
| Text.Lower | src/chrome_app/walk.py:38 | `str.lower` keeps the length of the text |
| Text.Less | src/chrome_app/apis.py:108 | Python's string order: nothing is below the empty string |
| Text.InsertBy | src/caterpillar.py:118-119 | inserting into a list adds exactly one element |
| Text.SortBy | src/report/report.py:101 | `list.sort` keeps the number of elements |

## Left out

- File system and process I/O: `setup_output_dir`, `convert_app` and `main` in `src/caterpillar.py`, `apps_apis` and `main` in `src/chrome_app/apis.py`, `manifest.get`, `configuration.load` and `generate_and_save`, `copy_css`, `install_bower_dependencies` and `generate_and_write` in `src/report/report.py`. Each reads or writes files or runs a process; the model takes their results as parameters.
- `polyfill_manifest.load` reads a JSON file; `LoadMany` takes it as a function parameter and proves the shape of the map it fills.
- `generate_and_write` calls `generate` with five arguments against a six-parameter signature (`src/report/report.py:385` against `314-315`); with `generate` out of the model, this is recorded and not modelled.
- The HTML templates: `generate_summary`, `generate_general_warnings`, `generate` and the final `render` calls of `generate_polyfilled` and `generate_not_polyfilled` hand their values to a template module that is not part of this model. The values these functions compute before rendering (the sections, the processed usage, the relevant and other warnings) are modelled.
- `inject_tags` rewrites HTML through BeautifulSoup, a foreign library.
- The JavaScript polyfills and scripts, which wrap browser APIs through promises and callbacks.
- Json: a JSON number is an integer (`JNumber(int)`). A number with a fraction or an exponent, such as `2.0`, which `json.load` returns as a Python `float`, is not represented. So the model cannot express that `"manifest_version": 2.0` passes the version check (`2.0 != 2` is false, `src/chrome_app/manifest.py:65`), nor the errors a float raises: `argument of type 'float' is not iterable` (`src/chrome_app/manifest.py:73`), `'float' object is not iterable` for a float `icons` (`src/caterpillar.py:150`) and `list indices must be integers, not float` for an `icons` list holding one (`src/caterpillar.py:152`).
- The `coverage` field of a polyfill manifest is a float used only for display; `Default` does not carry it.
- The Python regular-expression engine: each pattern is an explicit scanner over the characters, with `\w` as ASCII `[A-Za-z0-9_]` (Python 2 without `re.UNICODE`).
- Apis.MemberUsed: in the per-API pattern only `.` of an interpolated API name is treated as a metacharacter; the other metacharacters are read literally, which is exact for every API name `app_apis` can find (words and dots only).
- `walk.all_paths` declares no `ignore_dirs` parameter (`src/chrome_app/walk.py:24`), yet `usage` passes one (`src/chrome_app/apis.py:166-167`). A generator's arguments are bound when it is called, so `usage` as written raises `TypeError` on every call; `UsageAsWritten` and `UsageAlwaysRaises` model that (see Findings). `Usage` models the evidently intended behaviour over the JavaScript files the walk yields. Skipping the ignored directories is not modelled, so no ignore-directory property is claimed.
- The walk's directory order is that of `os.walk`; `AllPaths` takes the sequence of `(dirpath, filenames)` pairs as given.
- Dictionary iteration order: where the source loops over a `dict` (the APIs in `usage`, the members in `process_usage`, the manifest's keys in `verify`, the icons in `ca_to_pwa_manifest`), the model either picks the keys in sorted order or proves a contract that holds for any order.
- Report.ProcessUsage: `process_usage` updates its argument's dictionaries in place and leaves them partly updated when a lookup raises; the model returns the new map, or the error, without the partial update.
- A warning object without `member`, or with a `status` or `text` of JSON `null`, is not represented: a warning is a bare member name or an object whose member is a string and whose status and text are present or absent.
- Status is kept as its string constants (`"none"`, `"partial"`, `"total"`), as the source compares them.
- SurrogateEscape: Dafny's `char` cannot hold a lone surrogate, so the codec works on a sequence of code points (a newtype over 0..0x10FFFF) rather than on a `string`.
- SurrogateEscape: a wide (UCS-4) Python 2 build is assumed, where a code point above U+FFFF is one character. On a narrow (UCS-2) build, `F0 9F 90 80` decodes to the surrogates U+D83D U+DC00, and `encode` then gives `ED A0 BD 00`; the model does not cover narrow builds.
- SurrogateEscape: the `encoding` parameter of `decode` and `encode` (`src/surrogateescape.py:53` and `:66`) is fixed to its default, UTF-8.
- Apis: the lines the scanners read are Dafny strings, and a Dafny `char` cannot be a lone surrogate. The escapes U+DC80..U+DCFF that `surrogateescape.decode` puts into a line with undecodable bytes (`src/chrome_app/apis.py:169`) therefore cannot be represented; `Usage`, `ApiNames` and the other scanners are modelled over lines without them.
- SurrogateEscape.Decode: the decoder reports one undecodable byte at a time; Python reports a maximal invalid span, but the handler maps each byte of the span on its own, so the output is the same.
- `src/caterpillar_test.py` tests functions that `src/caterpillar.py` does not define (`generate_web_manifest`, `inject_script_tags` and others); these tests are not modelled.
- `src/configuration_test.py:52-58` and `:147-151` assume three options while `OPTIONS` has six; the model follows `OPTIONS`.
- Tooling (`run_tests.py`, `PRESUBMIT.py`, `karma.conf.js`).

## Findings

| source | as written | input that shows it | evidently intended | confidence | as-written member | corrected member |
|---|---|---|---|---|---|---|
| src/chrome_app/apis.py:166-167 | `usage` passes `ignore_dirs=ignore_dirs` to `walk.all_paths`, which declares no such parameter (`src/chrome_app/walk.py:24`) | any call of `usage` raises `TypeError: all_paths() got an unexpected keyword argument 'ignore_dirs'` | walk the app's JavaScript files, skipping the ignored directories, and index the API members used | not executed | Apis.UsageAlwaysRaises | Apis.Usage |
| src/surrogateescape.py:53-84 | `decode` relies on Python 2's UTF-8 codec, which accepts the three-byte encoding of a surrogate code point, so a decoded surrogate in U+DC80..U+DCFF is later taken for an escaped byte by `encode` | the bytes `ED B3 A9` decode to U+DCE9, which `encode` writes back as the single byte `E9` | `encode(decode(b)) == b` for every byte string, as the module promises; this holds when the decoder rejects encoded surrogates as RFC 3629 requires | not executed | SurrogateEscape.Python2DecoderBreaksRoundTrip | SurrogateEscape.RoundTrip |

/** Detection of Chrome Apps API references in JavaScript text, and the usage
    index: for every requested API, which members are used where.

    The four regular expressions of the original are written out as scanners
    over a string. A pattern "matches at p" when the regular-expression engine,
    started at position p, succeeds; a search is the leftmost such position. */
module Apis {
  import opened Wrappers
  import opened Text
  import Walk

  const ChromePrefix: string := "chrome."

  /** The super-API namespaces whose APIs have two-segment names, as
      `chrome.app.runtime`. */
  const SuperNamespaces: seq<string> := ["app", "sockets", "system"]

  // ---------------------------------------------------------------------------
  // Scanner building blocks.

  /** End of the (possibly empty) run of word characters starting at `i`. */
  function WordEnd(s: string, i: nat): (j: nat)
    requires i <= |s|
    ensures i <= j <= |s|
    ensures forall k :: i <= k < j ==> IsWordChar(s[k])
    ensures j == |s| || !IsWordChar(s[j])
    decreases |s| - i
  {
    if i < |s| && IsWordChar(s[i]) then WordEnd(s, i + 1) else i
  }

  /** `\.\w` matches at `i`. */
  predicate DotWordAt(s: string, i: nat) {
    i + 1 < |s| && s[i] == '.' && IsWordChar(s[i + 1])
  }

  /** End of the greedy `\w+(?:\.\w+)*` starting at the word character at `i`:
      segments are added as long as a dot and a word character follow. */
  function ChainEnd(s: string, i: nat): (j: nat)
    requires i < |s| && IsWordChar(s[i])
    ensures i < j <= |s|
    ensures !DotWordAt(s, j)
    decreases |s| - i
  {
    var w := WordEnd(s, i);
    if DotWordAt(s, w) then ChainEnd(s, w + 1) else w
  }

  /** Position `k` of a chain ending at `j`: a word character, or a dot
      followed by one. */
  predicate ChainCharAt(s: string, k: nat, j: nat)
    requires k < j <= |s|
  {
    IsWordChar(s[k]) || (s[k] == '.' && k + 1 < j && IsWordChar(s[k + 1]))
  }

  /** From `i` to `j`: word characters and dots, each dot followed by a word
      character. */
  predicate ChainBetween(s: string, i: nat, j: nat)
    requires i <= j <= |s|
  {
    forall k :: i <= k < j ==> ChainCharAt(s, k, j)
  }

  lemma {:induction false} ChainShape(s: string, i: nat)
    requires i < |s| && IsWordChar(s[i])
    ensures ChainBetween(s, i, ChainEnd(s, i))
    decreases |s| - i
  {
    var w := WordEnd(s, i);
    if DotWordAt(s, w) {
      ChainShape(s, w + 1);
      var j := ChainEnd(s, i);
      assert j == ChainEnd(s, w + 1);
      forall k | i <= k < j
        ensures ChainCharAt(s, k, j)
      {
        if k < w {
          assert IsWordChar(s[k]);
        } else if k == w {
          assert s[k] == '.' && k + 1 < j && IsWordChar(s[k + 1]);
        } else {
          assert ChainCharAt(s, k, j);
        }
      }
    }
  }

  /** A run of word characters from `i` to a non-word character at `j` is what
      `WordEnd` finds. */
  lemma {:induction false} WordEndAt(s: string, i: nat, j: nat)
    requires i <= j <= |s|
    requires forall k :: i <= k < j ==> IsWordChar(s[k])
    requires j == |s| || !IsWordChar(s[j])
    ensures WordEnd(s, i) == j
    decreases j - i
  {
    if i < j {
      WordEndAt(s, i + 1, j);
    }
  }

  /** A word run from `i` stops at the latest at a non-word character. */
  lemma {:induction false} WordEndBound(s: string, i: nat, j: nat)
    requires i <= j <= |s|
    requires j == |s| || !IsWordChar(s[j])
    ensures WordEnd(s, i) <= j
    decreases j - i
  {
    if i < j {
      WordEndBound(s, i + 1, j);
    }
  }

  /** A dotted chain from `i` to `j` that no further segment extends is what
      `ChainEnd` finds. */
  lemma {:induction false} ChainEndAt(s: string, i: nat, j: nat)
    requires i < j <= |s| && IsWordChar(s[i])
    requires ChainBetween(s, i, j)
    requires j == |s| || !IsWordChar(s[j])
    requires !DotWordAt(s, j)
    ensures ChainEnd(s, i) == j
    decreases j - i
  {
    var w := WordEnd(s, i);
    WordEndBound(s, i, j);
    if w < j {
      assert !IsWordChar(s[w]) && ChainCharAt(s, w, j);
      assert ChainBetween(s, w + 1, j);
      ChainEndAt(s, w + 1, j);
    }
  }

  lemma DottedAt(s: string, i: nat, j: nat)
    requires i <= j <= |s| && IsDottedName(s[i..j])
    ensures i < j && IsWordChar(s[i]) && ChainBetween(s, i, j)
  {
    var t := s[i..j];
    assert t[0] == s[i];
    forall k | i <= k < j
      ensures ChainCharAt(s, k, j)
    {
      assert ChainCharAt(t, k - i, |t|);
      assert t[k - i] == s[k];
      if k + 1 < j {
        assert t[k + 1 - i] == s[k + 1];
      }
    }
  }

  /** Dot-separated non-empty words: `\w+(?:\.\w+)*` in full. */
  predicate IsDottedName(s: string) {
    |s| > 0 && IsWordChar(s[0]) && ChainBetween(s, 0, |s|)
  }

  lemma ChainIsDottedName(s: string, i: nat)
    requires i < |s| && IsWordChar(s[i])
    ensures IsDottedName(s[i..ChainEnd(s, i)])
  {
    var j := ChainEnd(s, i);
    var t := s[i..j];
    ChainShape(s, i);
    forall k | 0 <= k < |t|
      ensures ChainCharAt(t, k, |t|)
    {
      assert ChainCharAt(s, i + k, j);
      assert t[k] == s[i + k];
      if k + 1 < |t| {
        assert t[k + 1] == s[i + k + 1];
      }
    }
  }

  /** The negative lookbehind `(?<![\w.])` at `p`. */
  predicate BoundaryBefore(s: string, p: nat) {
    p <= |s| && (p == 0 || (!IsWordChar(s[p - 1]) && s[p - 1] != '.'))
  }

  predicate ChromeAt(s: string, p: nat) {
    p + |ChromePrefix| <= |s| && s[p..p + |ChromePrefix|] == ChromePrefix
  }

  /** The regular expressions of the scanner, each searched for as a whole. */
  datatype Pattern =
    | ChromeApiUsage        // CHROME_API_USAGE_REGEX
    | ChromeApi             // CHROME_API_REGEX
    | ApiUsage(api: string) // the per-API pattern of `usage`
    | Namespace             // the namespace pattern of the report

  /** `pattern` matches at `p`. */
  predicate MatchesAt(pattern: Pattern, s: string, p: nat) {
    match pattern
    case ChromeApiUsage => UsageAt(s, p)
    case ChromeApi => ApiAt(s, p)
    case ApiUsage(api) => ApiUsageAt(s, p, api)
    case Namespace => NamespaceAt(s, p)
  }

  /** Leftmost position at or after `i` where `pattern` matches: a regex search. */
  function FirstAt(s: string, i: nat, pattern: Pattern): (r: Option<nat>)
    requires i <= |s|
    ensures r.Nothing? <==> forall p :: i <= p <= |s| ==> !MatchesAt(pattern, s, p)
    ensures r.Some? ==> i <= r.value <= |s| && MatchesAt(pattern, s, r.value)
    ensures r.Some? ==> forall p :: i <= p < r.value ==> !MatchesAt(pattern, s, p)
    decreases |s| - i
  {
    if MatchesAt(pattern, s, i) then Some(i)
    else if i == |s| then Nothing
    else FirstAt(s, i + 1, pattern)
  }

  /** The first position where `pattern` matches is what the search finds. */
  lemma FirstAtIs(s: string, pattern: Pattern, p: nat)
    requires p <= |s| && MatchesAt(pattern, s, p)
    requires forall m :: 0 <= m < p ==> !MatchesAt(pattern, s, m)
    ensures FirstAt(s, 0, pattern) == Some(p)
  {
  }

  // ---------------------------------------------------------------------------
  // CHROME_API_USAGE_REGEX and api_member_used.

  /** `(?<![\w.])chrome\.((?:\w+\.)+\w+)` matches at `p`: after `chrome.` come
      at least two dot-separated words. */
  predicate UsageAt(s: string, p: nat) {
    var q := p + |ChromePrefix|;
    BoundaryBefore(s, p) && ChromeAt(s, p) && q < |s| && IsWordChar(s[q]) && DotWordAt(s, WordEnd(s, q))
  }

  /** Group 1 of the usage pattern: the greedy chain of words after `chrome.`. */
  function UsageGroup(s: string, p: nat): (g: string)
    requires UsageAt(s, p)
    ensures IsDottedName(g) && '.' in g
  {
    var q := p + |ChromePrefix|;
    var w := WordEnd(s, q);
    ChainIsDottedName(s, q);
    assert ChainEnd(s, q) == ChainEnd(s, w + 1);
    assert s[q..ChainEnd(s, q)][w - q] == '.';
    s[q..ChainEnd(s, q)]
  }

  /** `api_member_used`: the chain after the first `chrome.` reference with
      at least two segments, the API name included. */
  function ApiMemberUsed(line: string): (r: Option<string>)
    ensures r.Nothing? <==> forall p :: 0 <= p <= |line| ==> !MatchesAt(ChromeApiUsage, line, p)
    ensures r.Some? ==> IsDottedName(r.value) && '.' in r.value
  {
    match FirstAt(line, 0, ChromeApiUsage)
    case Nothing => Nothing
    case Some(p) => Some(UsageGroup(line, p))
  }

  /** The reported chain is the one of the leftmost reference. */
  lemma ApiMemberUsedIsLeftmost(line: string)
    requires ApiMemberUsed(line).Some?
    ensures exists p :: 0 <= p <= |line| && UsageAt(line, p) && ApiMemberUsed(line).value == UsageGroup(line, p) &&
                        forall q :: 0 <= q < p ==> !MatchesAt(ChromeApiUsage, line, q)
  {
    var p := FirstAt(line, 0, ChromeApiUsage).value;
    assert UsageAt(line, p);
    assert ApiMemberUsed(line).value == UsageGroup(line, p);
  }

  /** A `chrome.` reference at `p` whose chain of at least two words ends at
      `e`, with no `c` further left, is the one reported. */
  lemma {:induction false} UsageReportedAt(s: string, p: nat, e: nat)
    requires BoundaryBefore(s, p) && ChromeAt(s, p)
    requires p + |ChromePrefix| < e <= |s|
    requires IsDottedName(s[p + |ChromePrefix|..e]) && '.' in s[p + |ChromePrefix|..e]
    requires e == |s| || !IsWordChar(s[e])
    requires !DotWordAt(s, e)
    requires forall m :: 0 <= m < p ==> s[m] != 'c'
    ensures ApiMemberUsed(s) == Some(s[p + |ChromePrefix|..e])
  {
    var q := p + |ChromePrefix|;
    assert ChainEnd(s, q) == e by {
      DottedAt(s, q, e);
      ChainEndAt(s, q, e);
    }
    assert UsageAt(s, p) by {
      var t := s[q..e];
      DottedAt(s, q, e);
      var k := IndexOf(t, '.');
      assert s[q + k] == t[k];
      FirstWordOfChain(s, q, e, q + k);
    }
    assert forall m :: 0 <= m < p ==> !MatchesAt(ChromeApiUsage, s, m) by {
      NoChromeBefore(s, p);
    }
    FirstAtIs(s, ChromeApiUsage, p);
    ApiMemberUsedFound(s, p, e);
  }

  /** The chain reported when the search finds a reference at `p` whose chain
      ends at `e`. */
  lemma ApiMemberUsedFound(s: string, p: nat, e: nat)
    requires UsageAt(s, p)
    requires p + |ChromePrefix| < e <= |s|
    requires ChainEnd(s, p + |ChromePrefix|) == e
    requires FirstAt(s, 0, ChromeApiUsage) == Some(p)
    ensures ApiMemberUsed(s) == Some(s[p + |ChromePrefix|..e])
  {
    assert ApiMemberUsed(s) == Some(UsageGroup(s, p));
  }

  /** In a chain holding a dot, the first word is followed by a dot and a word. */
  lemma FirstWordOfChain(s: string, q: nat, e: nat, m: nat)
    requires q <= m < e <= |s| && IsWordChar(s[q]) && ChainBetween(s, q, e) && s[m] == '.'
    ensures DotWordAt(s, WordEnd(s, q))
  {
    var w := WordEnd(s, q);
    WordEndBound(s, q, m);
    assert ChainCharAt(s, w, e);
  }

  /** No `chrome.` starts where there is no `c`. */
  lemma NoChromeBefore(s: string, p: nat)
    requires p <= |s|
    requires forall m :: 0 <= m < p ==> s[m] != 'c'
    ensures forall m :: 0 <= m < p ==> !ChromeAt(s, m)
  {
    forall m | 0 <= m < p ensures !ChromeAt(s, m) {
      assert m + 7 <= |s| ==> s[m..m + 7][0] == s[m];
    }
  }

  /** The same, for a line assembled from the text before the reference, the
      chain and the text after it. */
  lemma ApiMemberUsedOfReference(prefix: string, chain: string, rest: string)
    requires 'c' !in prefix
    requires prefix == [] || (!IsWordChar(prefix[|prefix| - 1]) && prefix[|prefix| - 1] != '.')
    requires IsDottedName(chain) && '.' in chain
    requires rest == [] || (!IsWordChar(rest[0]) && !DotWordAt(rest, 0))
    ensures ApiMemberUsed(prefix + ChromePrefix + chain + rest) == Some(chain)
  {
    var s := prefix + ChromePrefix + chain + rest;
    var p := |prefix|;
    var e := p + |ChromePrefix| + |chain|;
    assert s[p..p + |ChromePrefix|] == ChromePrefix;
    assert s[p + |ChromePrefix|..e] == chain;
    forall m | 0 <= m < p ensures s[m] != 'c' {
      assert s[m] == prefix[m];
    }
    assert p > 0 ==> s[p - 1] == prefix[p - 1];
    if e < |s| {
      assert s[e] == rest[0];
      assert e + 1 < |s| ==> s[e + 1] == rest[1];
    }
    UsageReportedAt(s, p, e);
  }

  /** The first case of the unit tests: an API member. */
  lemma ApiMemberUsedMember()
    ensures ApiMemberUsed("uses " + ChromePrefix + "tts.speak" + ", test") == Some("tts.speak")
  {
    assert IsDottedName("tts.speak") && "tts.speak"[3] == '.';
    ApiMemberUsedOfReference("uses ", "tts.speak", ", test");
  }

  /** The second case: the API of a super-namespace is part of the chain. */
  lemma ApiMemberUsedSuperNamespace()
    ensures ApiMemberUsed("uses " + ChromePrefix + "app.runtime.onLaunched" + ", test") == Some("app.runtime.onLaunched")
  {
    assert IsDottedName("app.runtime.onLaunched") && "app.runtime.onLaunched"[3] == '.';
    ApiMemberUsedOfReference("uses ", "app.runtime.onLaunched", ", test");
  }

  /** The super-namespace stays in that member, so the API name taken from its
      front is the two-segment `app.runtime`, not `app`. */
  lemma SuperNamespaceMemberApi()
    ensures var m := "app.runtime.onLaunched"; m[..ApiNameEnd(m, 0)] == "app.runtime"
  {
    var m := "app.runtime.onLaunched";
    LaunchedWords(m);
    ApiNameEndOfSuper(m, 0);
  }

  lemma LaunchedWords(m: string)
    requires m == "app.runtime.onLaunched"
    ensures WordEnd(m, 0) == 3 && m[..3] in SuperNamespaces && DotWordAt(m, 3)
    ensures WordEnd(m, 4) == 11 && m[..11] == "app.runtime"
  {
    assert m[3] == '.' && m[11] == '.';
    WordEndAt(m, 0, 3);
    WordEndAt(m, 4, 11);
    assert m[..3] == "app";
  }

  /** A super-namespace followed by `.\w` extends the captured name by one word. */
  lemma ApiNameEndOfSuper(s: string, q: nat)
    requires q < |s| && IsWordChar(s[q])
    requires s[q..WordEnd(s, q)] in SuperNamespaces && DotWordAt(s, WordEnd(s, q))
    ensures ApiNameEnd(s, q) == WordEnd(s, WordEnd(s, q) + 1)
  {
  }

  /** No registry check filters out a URL. */
  lemma ApiMemberUsedUrl()
    ensures ApiMemberUsed("test " + ChromePrefix + "google.com" + " test") == Some("google.com")
  {
    assert IsDottedName("google.com") && "google.com"[6] == '.';
    ApiMemberUsedOfReference("test ", "google.com", " test");
  }

  // ---------------------------------------------------------------------------
  // CHROME_API_REGEX and app_apis.

  /** End of `(?:(?:app|sockets|system)\.)?\w+` at the word character at `q`:
      a super-namespace word takes the following word along when a dot and a
      word character follow it. */
  function ApiNameEnd(s: string, q: nat): (e: nat)
    requires q < |s| && IsWordChar(s[q])
    ensures q < e <= |s|
  {
    var w := WordEnd(s, q);
    if s[q..w] in SuperNamespaces && DotWordAt(s, w) then WordEnd(s, w + 1) else w
  }

  /** A name `CHROME_API_REGEX` can capture: one word, or a super-namespace,
      a dot and one word. */
  predicate IsApiName(a: string) {
    IsWord(a) ||
    exists k :: 0 < k < |a| && a[k] == '.' && a[..k] in SuperNamespaces && IsWord(a[k + 1..])
  }

  lemma ApiNameEndIsApiName(s: string, q: nat)
    requires q < |s| && IsWordChar(s[q])
    ensures IsApiName(s[q..ApiNameEnd(s, q)])
  {
    var w := WordEnd(s, q);
    var e := ApiNameEnd(s, q);
    var a := s[q..e];
    if s[q..w] in SuperNamespaces && DotWordAt(s, w) {
      var k := w - q;
      assert a[k] == '.';
      assert a[..k] == s[q..w];
      assert a[k + 1..] == s[w + 1..e];
      assert IsWord(a[k + 1..]);
    } else {
      assert IsWord(a);
    }
  }

  /** `(?<![\w.])chrome\.((?:(?:app|sockets|system)\.)?\w+)` matches at `p`. */
  predicate ApiAt(s: string, p: nat) {
    var q := p + |ChromePrefix|;
    BoundaryBefore(s, p) && ChromeAt(s, p) && q < |s| && IsWordChar(s[q])
  }

  /** The API pattern matches exactly where the namespace pattern does with no
      word character or dot before it. */
  lemma ApiAtIsBoundedNamespace(s: string, p: nat)
    ensures ApiAt(s, p) <==> NamespaceAt(s, p) && BoundaryBefore(s, p)
  {
  }

  /** The API names `CHROME_API_REGEX.finditer` captures from position `i` on:
      each search resumes where the previous match ended. */
  function ApiNames(s: string, i: nat): (r: seq<string>)
    requires i <= |s|
    ensures forall a :: a in r ==> IsApiName(a)
    decreases |s| - i
  {
    match FirstAt(s, i, ChromeApi)
    case Nothing => []
    case Some(p) =>
      var q := p + |ChromePrefix|;
      ApiNameEndIsApiName(s, q);
      [s[q..ApiNameEnd(s, q)]] + ApiNames(s, ApiNameEnd(s, q))
  }

  function Elements(xs: seq<string>): set<string> {
    set x | x in xs
  }

  /** The API names found in the first `count` sources. */
  function FoundApis(sources: seq<string>, count: nat): (r: set<string>)
    requires count <= |sources|
    ensures forall a :: a in r ==> IsApiName(a)
  {
    if count == 0 then {}
    else FoundApis(sources, count - 1) + Elements(ApiNames(sources[count - 1], 0))
  }

  /** `app_apis` over the decoded contents of the app's JavaScript files: every
      captured name once, in sorted order. */
  method AppApis(sources: seq<string>) returns (apis: seq<string>)
    ensures StrictlySorted(apis)
    ensures forall a :: a in apis <==> a in FoundApis(sources, |sources|)
    ensures forall a :: a in apis ==> IsApiName(a)
  {
    var found: set<string> := {};
    for i := 0 to |sources|
      invariant found == FoundApis(sources, i)
    {
      found := AddNames(found, ApiNames(sources[i], 0));
    }
    apis := SortedSet(found);
    SortedSetSorted(found);
    forall a ensures a in apis <==> a in found {
      SortedSetMember(found, a);
    }
  }

  /** The inner loop of `app_apis`: every name of one file goes into the set. */
  method AddNames(found: set<string>, names: seq<string>) returns (r: set<string>)
    ensures r == found + Elements(names)
  {
    r := found;
    for j := 0 to |names|
      invariant r == found + Elements(names[..j])
    {
      ElementsSnoc(names, j);
      r := r + {names[j]};
    }
    assert names[..|names|] == names;
  }

  lemma ElementsSnoc(xs: seq<string>, j: nat)
    requires j < |xs|
    ensures Elements(xs[..j + 1]) == Elements(xs[..j]) + {xs[j]}
  {
    assert xs[..j + 1] == xs[..j] + [xs[j]];
  }

  // ---------------------------------------------------------------------------
  // CHROME_NAMESPACE_REGEX, used by the report to mark references.

  /** `chrome((?:\.\w+)+)` matches at `p`; this pattern has no lookbehind. */
  predicate NamespaceAt(s: string, p: nat) {
    var q := p + |ChromePrefix|;
    ChromeAt(s, p) && q < |s| && IsWordChar(s[q])
  }

  /** The namespace pattern matches exactly where `chrome` is followed by a
      dot and a word character. */
  lemma NamespaceAtIsChromeDotWord(s: string, p: nat)
    ensures NamespaceAt(s, p) <==> ChromeAt(s, p) && DotWordAt(s, p + |ChromePrefix| - 1)
  {
  }

  // ---------------------------------------------------------------------------
  // The per-API pattern of `usage`.

  /** The API name, interpolated unescaped into the pattern, matches at `q`:
      a dot in it matches any character except a newline. */
  predicate ApiPatternAt(s: string, q: nat, api: string) {
    q + |api| <= |s| &&
    forall k :: 0 <= k < |api| ==> if api[k] == '.' then s[q + k] != '\n' else s[q + k] == api[k]
  }

  /** `chrome\.{api}((?:\.\w+)+)` matches at `p`; no lookbehind either. */
  predicate ApiUsageAt(s: string, p: nat, api: string) {
    var q := p + |ChromePrefix|;
    ChromeAt(s, p) && ApiPatternAt(s, q, api) && DotWordAt(s, q + |api|)
  }

  /** The member the per-API pattern reports for `line`: group 1 of the first
      match without its leading dot. */
  function MemberUsed(line: string, api: string): Option<string> {
    match FirstAt(line, 0, ApiUsage(api))
    case Nothing => Nothing
    case Some(p) => Some(MemberAt(line, p, api))
  }

  /** No member exactly when the pattern matches nowhere in the line; a member
      found is a dotted name. */
  lemma MemberUsedMeaning(line: string, api: string)
    ensures MemberUsed(line, api).Nothing? <==> forall p :: 0 <= p <= |line| ==> !MatchesAt(ApiUsage(api), line, p)
    ensures MemberUsed(line, api).Some? ==> IsDottedName(MemberUsed(line, api).value)
  {
    if MemberUsed(line, api).Some? {
      MemberAtIsDotted(line, FirstAt(line, 0, ApiUsage(api)).value, api);
    }
  }

  lemma MemberAtIsDotted(line: string, p: nat, api: string)
    requires ApiUsageAt(line, p, api)
    ensures IsDottedName(MemberAt(line, p, api))
  {
    ChainIsDottedName(line, p + |ChromePrefix| + |api| + 1);
  }

  /** Group 1 of the per-API pattern matching at `p`, without its leading dot. */
  function MemberAt(line: string, p: nat, api: string): (member: string)
    requires ApiUsageAt(line, p, api)
  {
    var m := p + |ChromePrefix| + |api| + 1;
    line[m..ChainEnd(line, m)]
  }

  /** An API name without a dot matches only itself. */
  lemma PlainApiPattern(s: string, q: nat, api: string)
    requires '.' !in api
    ensures ApiPatternAt(s, q, api) <==> q + |api| <= |s| && s[q..q + |api|] == api
  {
    if q + |api| <= |s| && s[q..q + |api|] == api {
      forall k | 0 <= k < |api| ensures s[q + k] == api[k] {
        assert s[q..q + |api|][k] == s[q + k];
      }
    }
  }

  /** A reference at `p` of `chrome.`, text the API pattern matches, a dot and
      a chain ending at `e`, with no `c` further left: the chain is the member
      reported. */
  lemma {:induction false} MemberReportedAt(s: string, p: nat, api: string, e: nat)
    requires ChromeAt(s, p) && ApiPatternAt(s, p + |ChromePrefix|, api)
    requires p + |ChromePrefix| + |api| + 1 < e <= |s|
    requires s[p + |ChromePrefix| + |api|] == '.'
    requires IsDottedName(s[p + |ChromePrefix| + |api| + 1..e])
    requires e == |s| || !IsWordChar(s[e])
    requires !DotWordAt(s, e)
    requires forall k :: 0 <= k < p ==> s[k] != 'c'
    ensures MemberUsed(s, api) == Some(s[p + |ChromePrefix| + |api| + 1..e])
  {
    var m := p + |ChromePrefix| + |api| + 1;
    assert ChainEnd(s, m) == e by {
      DottedAt(s, m, e);
      ChainEndAt(s, m, e);
    }
    assert ApiUsageAt(s, p, api) by {
      DottedAt(s, m, e);
      assert DotWordAt(s, m - 1);
    }
    assert forall k :: 0 <= k < p ==> !MatchesAt(ApiUsage(api), s, k) by {
      NoChromeBefore(s, p);
    }
    FirstAtIs(s, ApiUsage(api), p);
    MemberUsedFound(s, api, p, e);
  }

  /** The member reported when the search finds the pattern at `p` and its
      chain ends at `e`. */
  lemma MemberUsedFound(s: string, api: string, p: nat, e: nat)
    requires ApiUsageAt(s, p, api)
    requires p + |ChromePrefix| + |api| + 1 < e <= |s|
    requires ChainEnd(s, p + |ChromePrefix| + |api| + 1) == e
    requires FirstAt(s, 0, ApiUsage(api)) == Some(p)
    ensures MemberUsed(s, api) == Some(s[p + |ChromePrefix| + |api| + 1..e])
  {
    assert MemberUsed(s, api) == Some(MemberAt(s, p, api));
  }

  lemma WordIsDottedName(w: string)
    requires IsWord(w)
    ensures IsDottedName(w)
  {
  }

  /** A word, a dot and a dotted name make a dotted name. */
  lemma DottedJoin(w: string, rest: string)
    requires IsWord(w) && IsDottedName(rest)
    ensures IsDottedName(w + "." + rest)
  {
    var s := w + "." + rest;
    forall k | 0 <= k < |s| ensures ChainCharAt(s, k, |s|) {
      if k > |w| {
        assert ChainCharAt(rest, k - |w| - 1, |rest|);
        assert s[k] == rest[k - |w| - 1];
        assert k + 1 < |s| ==> s[k + 1] == rest[k - |w|];
      } else if k == |w| {
        assert s[k + 1] == rest[0];
      }
    }
  }

  /** The dot of `app.window` in the pattern matches any character but a
      newline. */
  lemma MemberUsedWildcard()
    ensures MemberUsed("chrome.appXwindow.create", "app.window") == Some("create")
  {
    var s := "chrome.appXwindow.create";
    WildcardReference();
    assert |"app.window"| == 10 && |s| == 24;
    assert s[18..24] == "create";
    assert IsWord("create");
    WordIsDottedName("create");
    MemberReportedAt(s, 0, "app.window", 24);
  }

  lemma WildcardReference()
    ensures ChromeAt("chrome.appXwindow.create", 0)
    ensures ApiPatternAt("chrome.appXwindow.create", 7, "app.window")
  {
    var s := "chrome.appXwindow.create";
    assert s[0..7] == ChromePrefix;
  }

  // ---------------------------------------------------------------------------
  // usage

  /** A JavaScript file of the app: its path relative to the app directory and
      its lines as read, each with its line terminator. */
  datatype SourceFile = SourceFile(path: string, lines: seq<string>)

  /** `(filepath, linenum, context, context_linenum)`, line numbers from 0. */
  datatype Occurrence = Occurrence(path: string, line: nat, context: string, contextStart: nat)

  /** One match of an API pattern: the member and where it occurs. */
  datatype Hit = Hit(member: string, occurrence: Occurrence)

  /** API name to member to occurrences. */
  type UsageIndex = map<string, map<string, seq<Occurrence>>>

  /** The occurrence recorded for line `n` of `file`: the window of up to
      `size` lines either side, cut off at both ends of the file. */
  function Window(file: SourceFile, n: nat, size: nat): (o: Occurrence)
    requires n < |file.lines|
    ensures o.path == file.path && o.line == n
  {
    var start := if n >= size then n - size else 0;
    var end := if n + size + 1 <= |file.lines| then n + size + 1 else |file.lines|;
    Occurrence(file.path, n, Concat(file.lines[start..end]), start)
  }

  /** The window reaches `size` lines either side of line `n`, cut off only
      at the ends of the file. */
  lemma WindowBounds(file: SourceFile, n: nat, size: nat)
    requires n < |file.lines|
    ensures var o := Window(file, n, size);
      o.contextStart <= n && n - o.contextStart <= size &&
      (o.contextStart == 0 || n - o.contextStart == size) &&
      exists end :: n < end <= |file.lines| && end - n - 1 <= size &&
                    (end == |file.lines| || end - n - 1 == size) &&
                    o.context == Concat(file.lines[o.contextStart..end])
  {
    var end := if n + size + 1 <= |file.lines| then n + size + 1 else |file.lines|;
    assert Window(file, n, size).context == Concat(file.lines[Window(file, n, size).contextStart..end]);
  }

  /** The hit of `api` on line `n`, if any. */
  function LineHits(api: string, file: SourceFile, n: nat, size: nat): (r: seq<Hit>)
    requires n < |file.lines|
    ensures |r| <= 1
  {
    match MemberUsed(file.lines[n], api)
    case Nothing => []
    case Some(m) => [Hit(m, Window(file, n, size))]
  }

  /** The hits of `api` in the first `count` lines of `file`. */
  function FileHits(api: string, file: SourceFile, count: nat, size: nat): (r: seq<Hit>)
    requires count <= |file.lines|
    ensures |r| <= count
  {
    if count == 0 then [] else FileHits(api, file, count - 1, size) + LineHits(api, file, count - 1, size)
  }

  /** The number of lines of the first `count` files. */
  function LineCount(files: seq<SourceFile>, count: nat): nat
    requires count <= |files|
  {
    if count == 0 then 0 else LineCount(files, count - 1) + |files[count - 1].lines|
  }

  /** The hits of `api` in the first `count` files, file by file. */
  function Hits(api: string, files: seq<SourceFile>, count: nat, size: nat): (r: seq<Hit>)
    requires count <= |files|
    ensures |r| <= LineCount(files, count)
  {
    if count == 0 then [] else Hits(api, files, count - 1, size) + FileHits(api, files[count - 1], |files[count - 1].lines|, size)
  }

  /** Append one hit to the list of its member, creating the list on first use
      (a `defaultdict(list)`). */
  function Add(g: map<string, seq<Occurrence>>, h: Hit): (r: map<string, seq<Occurrence>>)
    ensures r.Keys == g.Keys + {h.member}
    ensures forall m :: m in g && m != h.member ==> r[m] == g[m]
    ensures r[h.member] != [] && r[h.member][|r[h.member]| - 1] == h.occurrence
  {
    g[h.member := (if h.member in g then g[h.member] else []) + [h.occurrence]]
  }

  /** `g` after appending `hits` in order. */
  function AddAll(g: map<string, seq<Occurrence>>, hits: seq<Hit>): (r: map<string, seq<Occurrence>>)
    ensures g.Keys <= r.Keys
    ensures forall m :: m in r && (m !in g || g[m] != []) ==> r[m] != []
  {
    if hits == [] then g else Add(AddAll(g, hits[..|hits| - 1]), hits[|hits| - 1])
  }

  /** The member map built from nothing by appending `hits` in order. */
  function Group(hits: seq<Hit>): (r: map<string, seq<Occurrence>>)
    ensures forall m :: m in r ==> r[m] != []
  {
    AddAll(map[], hits)
  }

  lemma {:induction false} AddAllConcat(g: map<string, seq<Occurrence>>, a: seq<Hit>, b: seq<Hit>)
    ensures AddAll(g, a + b) == AddAll(AddAll(g, a), b)
  {
    if b == [] {
      assert a + b == a;
    } else {
      var init := b[..|b| - 1];
      assert (a + b)[..|a + b| - 1] == a + init;
      AddAllConcat(g, a, init);
    }
  }

  /** The occurrences of `member` in `hits`, in order. */
  function Select(hits: seq<Hit>, member: string): (r: seq<Occurrence>)
    ensures |r| <= |hits|
  {
    if hits == [] then []
    else Select(hits[..|hits| - 1], member) + (if hits[|hits| - 1].member == member then [hits[|hits| - 1].occurrence] else [])
  }

  /** A member is a key exactly when some hit has it, and its list holds that
      member's occurrences in the order they were found: entries are only
      appended, never reordered. */
  lemma {:induction false} GroupSelect(hits: seq<Hit>, member: string)
    ensures member in Group(hits) <==> exists i :: 0 <= i < |hits| && hits[i].member == member
    ensures member in Group(hits) ==> Group(hits)[member] == Select(hits, member)
  {
    if hits != [] {
      var init := hits[..|hits| - 1];
      GroupSelect(init, member);
      if exists i :: 0 <= i < |init| && init[i].member == member {
        var i :| 0 <= i < |init| && init[i].member == member;
        assert hits[i] == init[i];
      }
      if exists i :: 0 <= i < |hits| && hits[i].member == member {
        var i :| 0 <= i < |hits| && hits[i].member == member;
        if i < |init| {
          assert init[i] == hits[i];
        }
      }
      if member !in Group(init) {
        assert Select(init, member) == [] by {
          SelectEmpty(init, member);
        }
      }
    }
  }

  lemma {:induction false} SelectEmpty(hits: seq<Hit>, member: string)
    requires forall i :: 0 <= i < |hits| ==> hits[i].member != member
    ensures Select(hits, member) == []
  {
    if hits != [] {
      SelectEmpty(hits[..|hits| - 1], member);
    }
  }

  /** `h` is a hit of `api` on a line of `file`: the member the per-API pattern
      reports for that line, with the window around it. */
  predicate IsHitOf(h: Hit, api: string, file: SourceFile, size: nat) {
    h.occurrence.line < |file.lines| &&
    MemberUsed(file.lines[h.occurrence.line], api) == Some(h.member) &&
    h.occurrence == Window(file, h.occurrence.line, size)
  }

  /** Every hit of a file lies on one of the lines scanned and is well formed. */
  lemma FileHitsWellFormed(api: string, file: SourceFile, count: nat, size: nat)
    requires count <= |file.lines|
    ensures forall i :: 0 <= i < |FileHits(api, file, count, size)| ==>
      IsHitOf(FileHits(api, file, count, size)[i], api, file, size) &&
      FileHits(api, file, count, size)[i].occurrence.line < count
  {
    forall i | 0 <= i < |FileHits(api, file, count, size)|
      ensures IsHitOf(FileHits(api, file, count, size)[i], api, file, size) &&
              FileHits(api, file, count, size)[i].occurrence.line < count
    {
      FileHitAt(api, file, count, size, i);
    }
  }

  lemma {:induction false} FileHitAt(api: string, file: SourceFile, count: nat, size: nat, i: nat)
    requires count <= |file.lines| && i < |FileHits(api, file, count, size)|
    ensures IsHitOf(FileHits(api, file, count, size)[i], api, file, size) &&
            FileHits(api, file, count, size)[i].occurrence.line < count
  {
    var prev := FileHits(api, file, count - 1, size);
    var last := LineHits(api, file, count - 1, size);
    FileHitsStep(api, file, count, size);
    if i < |prev| {
      FileHitAt(api, file, count - 1, size, i);
      assert FileHits(api, file, count, size)[i] == prev[i];
    } else {
      LineHitsWellFormed(api, file, count - 1, size);
      assert FileHits(api, file, count, size)[i] == last[i - |prev|];
    }
  }

  lemma FileHitsStep(api: string, file: SourceFile, count: nat, size: nat)
    requires 0 < count <= |file.lines|
    ensures FileHits(api, file, count, size) == FileHits(api, file, count - 1, size) + LineHits(api, file, count - 1, size)
  {
  }

  lemma LineHitsWellFormed(api: string, file: SourceFile, n: nat, size: nat)
    requires n < |file.lines|
    ensures forall i :: 0 <= i < |LineHits(api, file, n, size)| ==>
      IsHitOf(LineHits(api, file, n, size)[i], api, file, size) &&
      LineHits(api, file, n, size)[i].occurrence.line == n
  {
  }

  /** The hits of the first `count` lines lie on those lines. */
  lemma {:induction false} FileHitsLines(api: string, file: SourceFile, count: nat, size: nat)
    requires count <= |file.lines|
    ensures forall i :: 0 <= i < |FileHits(api, file, count, size)| ==> FileHits(api, file, count, size)[i].occurrence.line < count
  {
    if count > 0 {
      var prev := FileHits(api, file, count - 1, size);
      var last := LineHits(api, file, count - 1, size);
      var hits := FileHits(api, file, count, size);
      FileHitsLines(api, file, count - 1, size);
      assert hits == prev + last;
      LineHitsOnLine(api, file, count - 1, size);
      forall i | 0 <= i < |hits| ensures hits[i].occurrence.line < count {
        if i < |prev| {
          assert hits[i] == prev[i];
        } else {
          assert hits[i] == last[i - |prev|];
        }
      }
    }
  }

  lemma LineHitsOnLine(api: string, file: SourceFile, n: nat, size: nat)
    requires n < |file.lines|
    ensures forall i :: 0 <= i < |LineHits(api, file, n, size)| ==> LineHits(api, file, n, size)[i].occurrence.line == n
  {
  }

  /** The hits go down the file, at most one per line. */
  lemma {:induction false} FileHitsOrdered(api: string, file: SourceFile, count: nat, size: nat)
    requires count <= |file.lines|
    ensures forall i, j :: 0 <= i < j < |FileHits(api, file, count, size)| ==>
      FileHits(api, file, count, size)[i].occurrence.line < FileHits(api, file, count, size)[j].occurrence.line
  {
    if count > 0 {
      var prev := FileHits(api, file, count - 1, size);
      var last := LineHits(api, file, count - 1, size);
      FileHitsStep(api, file, count, size);
      FileHitsOrdered(api, file, count - 1, size);
      FileHitsLines(api, file, count - 1, size);
      LineHitsOnLine(api, file, count - 1, size);
      OrderedAppend(prev, last, count - 1);
    }
  }

  /** Hits going down the file stay so when the hits of the next line follow. */
  lemma OrderedAppend(a: seq<Hit>, b: seq<Hit>, n: nat)
    requires forall i, j :: 0 <= i < j < |a| ==> a[i].occurrence.line < a[j].occurrence.line
    requires forall i :: 0 <= i < |a| ==> a[i].occurrence.line < n
    requires |b| <= 1 && forall i :: 0 <= i < |b| ==> b[i].occurrence.line == n
    ensures forall i, j :: 0 <= i < j < |a + b| ==> (a + b)[i].occurrence.line < (a + b)[j].occurrence.line
  {
    forall i, j | 0 <= i < j < |a + b|
      ensures (a + b)[i].occurrence.line < (a + b)[j].occurrence.line
    {
      if j < |a| {
        assert (a + b)[i] == a[i] && (a + b)[j] == a[j];
      } else {
        assert (a + b)[i] == a[i] && (a + b)[j] == b[j - |a|];
      }
    }
  }

  /** Every line the per-API pattern matches yields a hit. */
  lemma FileHitsComplete(api: string, file: SourceFile, count: nat, size: nat, n: nat)
    requires n < count <= |file.lines|
    requires MemberUsed(file.lines[n], api).Some?
    ensures exists i :: 0 <= i < |FileHits(api, file, count, size)| && FileHits(api, file, count, size)[i].occurrence.line == n
  {
    LineHitsFound(api, file, n, size);
    LineHitKept(api, file, n, count, size);
  }

  /** The hit of line `n` stays in every longer scan, after those of the lines before it. */
  lemma LineHitKept(api: string, file: SourceFile, n: nat, count: nat, size: nat)
    requires n < count <= |file.lines|
    requires |LineHits(api, file, n, size)| == 1 && LineHits(api, file, n, size)[0].occurrence.line == n
    ensures exists i :: 0 <= i < |FileHits(api, file, count, size)| && FileHits(api, file, count, size)[i].occurrence.line == n
  {
    var j := |FileHits(api, file, n, size)|;
    FileHitsStep(api, file, n + 1, size);
    assert FileHits(api, file, n + 1, size)[j].occurrence.line == n;
    FileHitKept(api, file, n + 1, count, size, j);
  }

  /** Scanning more lines only appends hits: the `i`-th hit stays on its line. */
  lemma FileHitKept(api: string, file: SourceFile, k: nat, count: nat, size: nat, i: nat)
    requires k <= count <= |file.lines| && i < |FileHits(api, file, k, size)|
    ensures i < |FileHits(api, file, count, size)|
    ensures FileHits(api, file, count, size)[i].occurrence.line == FileHits(api, file, k, size)[i].occurrence.line
  {
    var line := FileHits(api, file, k, size)[i].occurrence.line;
    var c := k;
    while c < count
      invariant k <= c <= count
      invariant i < |FileHits(api, file, c, size)| && FileHits(api, file, c, size)[i].occurrence.line == line
    {
      FileHitsAppend(api, file, c + 1, size, i);
      c := c + 1;
    }
  }

  /** Scanning one more line keeps the `i`-th hit on its line. */
  lemma FileHitsAppend(api: string, file: SourceFile, c: nat, size: nat, i: nat)
    requires 0 < c <= |file.lines| && i < |FileHits(api, file, c - 1, size)|
    ensures i < |FileHits(api, file, c, size)|
    ensures FileHits(api, file, c, size)[i].occurrence.line == FileHits(api, file, c - 1, size)[i].occurrence.line
  {
    FileHitsStep(api, file, c, size);
    IndexInPrefix(FileHits(api, file, c - 1, size), LineHits(api, file, c - 1, size), i);
  }

  lemma IndexInPrefix(a: seq<Hit>, b: seq<Hit>, i: nat)
    requires i < |a|
    ensures i < |a + b| && (a + b)[i].occurrence.line == a[i].occurrence.line
  {
  }

  lemma LineHitsFound(api: string, file: SourceFile, n: nat, size: nat)
    requires n < |file.lines| && MemberUsed(file.lines[n], api).Some?
    ensures |LineHits(api, file, n, size)| == 1 && LineHits(api, file, n, size)[0].occurrence.line == n
  {
  }

  /** The hits before line `n` of file `f`. */
  function HitsBefore(api: string, files: seq<SourceFile>, f: nat, n: nat, size: nat): seq<Hit>
    requires f < |files| && n <= |files[f].lines|
  {
    Hits(api, files, f, size) + FileHits(api, files[f], n, size)
  }

  lemma HitsBeforeNext(api: string, files: seq<SourceFile>, f: nat, n: nat, size: nat)
    requires f < |files| && n < |files[f].lines|
    ensures HitsBefore(api, files, f, n, size) + LineHits(api, files[f], n, size) == HitsBefore(api, files, f, n + 1, size)
  {
    var h := Hits(api, files, f, size);
    var a := FileHits(api, files[f], n, size);
    var b := LineHits(api, files[f], n, size);
    assert FileHits(api, files[f], n + 1, size) == a + b;
    assert (h + a) + b == h + (a + b);
  }

  lemma HitsBeforeStart(api: string, files: seq<SourceFile>, f: nat, size: nat)
    requires f < |files|
    ensures HitsBefore(api, files, f, 0, size) == Hits(api, files, f, size)
  {
    assert Hits(api, files, f, size) + [] == Hits(api, files, f, size);
  }

  lemma HitsBeforeEnd(api: string, files: seq<SourceFile>, f: nat, size: nat)
    requires f < |files|
    ensures HitsBefore(api, files, f, |files[f].lines|, size) == Hits(api, files, f + 1, size)
  {
  }

  /** One iteration over the API patterns for line `n`, in any order: each
      API's member map gets the hit of its pattern on that line, if any. */
  method ScanLine(index: UsageIndex, apis: set<string>, file: SourceFile, n: nat, size: nat) returns (next: UsageIndex)
    requires n < |file.lines| && index.Keys == apis
    ensures next.Keys == apis
    ensures forall api :: api in apis ==> next[api] == AddAll(index[api], LineHits(api, file, n, size))
  {
    next := index;
    var todo := apis;
    while todo != {}
      invariant todo <= apis && next.Keys == apis
      invariant forall api :: api in apis ==>
        next[api] == if api in todo then index[api] else AddAll(index[api], LineHits(api, file, n, size))
      decreases todo
    {
      var api :| api in todo;
      var found := MemberUsed(file.lines[n], api);
      if found.Some? {
        var start := if n >= size then n - size else 0;
        var end := if n + size + 1 <= |file.lines| then n + size + 1 else |file.lines|;
        var occurrence := Occurrence(file.path, n, Concat(file.lines[start..end]), start);
        assert LineHits(api, file, n, size) == [Hit(found.value, occurrence)];
        assert AddAll(index[api], [Hit(found.value, occurrence)]) == Add(index[api], Hit(found.value, occurrence)) by {
          assert [Hit(found.value, occurrence)][..0] == [];
        }
        next := next[api := Add(next[api], Hit(found.value, occurrence))];
      }
      todo := todo - {api};
    }
  }

  /** Appending the hits of line `n` to the member map of the lines before it
      gives the member map of the lines up to and including `n`. */
  lemma GroupNextLine(api: string, files: seq<SourceFile>, f: nat, n: nat, size: nat, before: map<string, seq<Occurrence>>)
    requires f < |files| && n < |files[f].lines|
    requires before == Group(HitsBefore(api, files, f, n, size))
    ensures AddAll(before, LineHits(api, files[f], n, size)) == Group(HitsBefore(api, files, f, n + 1, size))
  {
    AddAllConcat(map[], HitsBefore(api, files, f, n, size), LineHits(api, files[f], n, size));
    HitsBeforeNext(api, files, f, n, size);
  }

  /** The same for every API of the index at once. */
  lemma IndexNextLine(apis: set<string>, files: seq<SourceFile>, f: nat, n: nat, size: nat, before: UsageIndex, after: UsageIndex)
    requires f < |files| && n < |files[f].lines|
    requires before.Keys == apis && after.Keys == apis
    requires forall api :: api in apis ==> before[api] == Group(HitsBefore(api, files, f, n, size))
    requires forall api :: api in apis ==> after[api] == AddAll(before[api], LineHits(api, files[f], n, size))
    ensures forall api :: api in apis ==> after[api] == Group(HitsBefore(api, files, f, n + 1, size))
  {
    forall api | api in apis ensures after[api] == Group(HitsBefore(api, files, f, n + 1, size)) {
      GroupNextLine(api, files, f, n, size, before[api]);
    }
  }

  lemma IndexFileStart(apis: set<string>, files: seq<SourceFile>, f: nat, size: nat, index: UsageIndex)
    requires f < |files| && index.Keys == apis
    requires forall api :: api in apis ==> index[api] == Group(Hits(api, files, f, size))
    ensures forall api :: api in apis ==> index[api] == Group(HitsBefore(api, files, f, 0, size))
  {
    forall api | api in apis ensures index[api] == Group(HitsBefore(api, files, f, 0, size)) {
      HitsBeforeStart(api, files, f, size);
    }
  }

  lemma IndexFileEnd(apis: set<string>, files: seq<SourceFile>, f: nat, size: nat, index: UsageIndex)
    requires f < |files| && index.Keys == apis
    requires forall api :: api in apis ==> index[api] == Group(HitsBefore(api, files, f, |files[f].lines|, size))
    ensures forall api :: api in apis ==> index[api] == Group(Hits(api, files, f + 1, size))
  {
    forall api | api in apis ensures index[api] == Group(Hits(api, files, f + 1, size)) {
      HitsBeforeEnd(api, files, f, size);
    }
  }

  /** The loop over the lines of file `f`. */
  method ScanFile(index: UsageIndex, apis: set<string>, files: seq<SourceFile>, f: nat, size: nat) returns (next: UsageIndex)
    requires f < |files| && index.Keys == apis
    requires forall api :: api in apis ==> index[api] == Group(Hits(api, files, f, size))
    ensures next.Keys == apis
    ensures forall api :: api in apis ==> next[api] == Group(Hits(api, files, f + 1, size))
  {
    var file := files[f];
    next := index;
    IndexFileStart(apis, files, f, size, next);
    for n := 0 to |file.lines|
      invariant next.Keys == apis
      invariant forall api :: api in apis ==> next[api] == Group(HitsBefore(api, files, f, n, size))
    {
      var scanned := ScanLine(next, apis, file, n, size);
      IndexNextLine(apis, files, f, n, size, next, scanned);
      next := scanned;
    }
    IndexFileEnd(apis, files, f, size, next);
  }

  /** The index `usage` is meant to return: for each requested API, the
      grouping of its hits over all files. */
  function UsageIndexOf(apis: set<string>, files: seq<SourceFile>, contextSize: nat): (r: UsageIndex)
    ensures r.Keys == apis
  {
    map api | api in apis :: Group(Hits(api, files, |files|, contextSize))
  }

  /** The keyword arguments `usage` passes to `walk.all_paths`. */
  const WalkKeywords: seq<string> := ["extension", "ignore_dirs"]

  /** `usage` as written: its loop begins by calling `walk.all_paths` with the
      keywords `extension` and `ignore_dirs`, and the binding of those
      arguments decides whether any file is read at all. */
  function UsageAsWritten(apis: set<string>, files: seq<SourceFile>, contextSize: nat): (r: Result<UsageIndex>)
    ensures r.Ok? ==> r.value.Keys == apis
  {
    match Walk.BindAllPaths(WalkKeywords)
    case Some(e) => Err(e)
    case Nothing => Ok(UsageIndexOf(apis, files, contextSize))
  }

  /** `all_paths` declares no `ignore_dirs`, so `usage` as written raises on
      every call, for every app, and never returns the index that `Usage`
      computes. */
  lemma UsageAlwaysRaises(apis: set<string>, files: seq<SourceFile>, contextSize: nat)
    ensures UsageAsWritten(apis, files, contextSize) == Err(Walk.UnexpectedKeyword("ignore_dirs"))
    ensures UsageAsWritten(apis, files, contextSize) != Ok(UsageIndexOf(apis, files, contextSize))
  {
    assert "extension" in Walk.AllPathsParameters;
    assert "ignore_dirs" !in Walk.AllPathsParameters;
  }

  /** `usage` over the app's (already filtered) JavaScript files: one member
      map per requested API, including the APIs that are never used, each
      filled by appending hits file by file and line by line. */
  method Usage(apis: set<string>, files: seq<SourceFile>, contextSize: nat) returns (index: UsageIndex)
    ensures index.Keys == apis
    ensures forall api :: api in apis ==> index[api] == Group(Hits(api, files, |files|, contextSize))
    ensures index == UsageIndexOf(apis, files, contextSize)
  {
    index := map api | api in apis :: map[];
    for f := 0 to |files|
      invariant index.Keys == apis
      invariant forall api :: api in apis ==> index[api] == Group(Hits(api, files, f, contextSize))
    {
      index := ScanFile(index, apis, files, f, contextSize);
    }
  }
}

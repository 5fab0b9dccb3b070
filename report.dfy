/** The conversion report: marking `chrome.` references with the status of
    what they refer to, highlighting the relevant line of a usage context,
    collecting the warnings of the polyfill manifests, and arranging the
    usage index for display. The HTML templates the report is rendered with
    are not part of this model. */
module Report {
  import opened Wrappers
  import opened Text
  import opened Apis
  import opened PolyfillManifest

  /** The manifests of the APIs of the app, keyed by API name. */
  type ApiTable = map<string, Manifest>

  // ---------------------------------------------------------------------------
  // The member status walk of the replacer in `format_html`.

  /** `a` is `member` or one of the members it lies under: a prefix of it that
      ends just before a dot. */
  predicate Ancestor(a: string, member: string) {
    a == member || (|a| < |member| && member[|a|] == '.' && member[..|a|] == a)
  }

  /** `member.rsplit('.', 1)[0]`: the member one level up. */
  function Parent(member: string): (p: string)
    requires '.' in member
    ensures |p| < |member| && Ancestor(p, member)
  {
    member[..LastIndexOf(member, '.')]
  }

  /** The status a warning gives the member it names: a bare name is not
      implemented at all; an object gives its `status`, and one without a
      `status` key fails the lookup. */
  function Decision(w: Warning): Result<string> {
    match w
    case Bare(_) => Ok(StatusNone)
    case Structured(_, status, _) =>
      if status.Some? then Ok(status.value) else Err(KeyError("status"))
  }

  /** Index of the first warning that names `member`. */
  function FirstWarningOf(ws: seq<Warning>, member: string, i: nat): (r: Option<nat>)
    requires i <= |ws|
    ensures r.Nothing? <==> forall j :: i <= j < |ws| ==> ws[j].member != member
    ensures r.Some? ==> i <= r.value < |ws| && ws[r.value].member == member &&
                        forall j :: i <= j < r.value ==> ws[j].member != member
    decreases |ws| - i
  {
    if i == |ws| then Nothing
    else if ws[i].member == member then Some(i)
    else FirstWarningOf(ws, member, i + 1)
  }

  /** What the warnings of `m` say about `member` itself, if anything. */
  function Decides(m: Manifest, member: string): Option<Result<string>> {
    match FirstWarningOf(m.warnings, member, 0)
    case Some(i) => Some(Decision(m.warnings[i]))
    case Nothing => Nothing
  }

  /** The status of a member of the API of `m`: the first warning naming the
      member decides; failing that, its parent is tried; a member without a
      dot that no warning names has the API's own status. */
  function MemberStatus(m: Manifest, member: string): Result<string>
    decreases |member|
  {
    match Decides(m, member)
    case Some(r) => r
    case Nothing => if '.' in member then MemberStatus(m, Parent(member)) else Ok(m.status)
  }

  /** The member walk fails only on a warning without a `status` key. */
  lemma {:induction false} MemberStatusFails(m: Manifest, member: string)
    ensures MemberStatus(m, member).Err? ==> MemberStatus(m, member) == Err(KeyError("status"))
    decreases |member|
  {
    if Decides(m, member).Nothing? && '.' in member {
      MemberStatusFails(m, Parent(member));
    }
  }

  /** The `while True` loop of the replacer: look the member up among the
      warnings, stop at the first that names it, otherwise cut off the last
      segment, and fall back to the API's status once no dot is left. */
  method WalkMemberStatus(m: Manifest, member: string) returns (status: Result<string>)
    ensures status == MemberStatus(m, member)
  {
    var current := member;
    while true
      invariant MemberStatus(m, current) == MemberStatus(m, member)
      decreases |current|
    {
      var found: Option<Result<string>> := Nothing;
      for i := 0 to |m.warnings|
        invariant found.Nothing? ==> forall j :: 0 <= j < i ==> m.warnings[j].member != current
        invariant found.Some? ==> found == Decides(m, current)
      {
        if found.Nothing? && m.warnings[i].member == current {
          found := Some(Decision(m.warnings[i]));
        }
      }
      if found.Some? {
        return found.value;
      }
      if '.' !in current {
        return Ok(m.status);
      }
      current := Parent(current);
    }
  }

  /** An ancestor of an ancestor of `member` is an ancestor of `member`. */
  lemma AncestorTransitive(a: string, b: string, member: string)
    requires Ancestor(a, b) && Ancestor(b, member)
    ensures Ancestor(a, member)
  {
    if a != b && b != member {
      assert member[..|b|][..|a|] == member[..|a|];
      assert member[|a|] == member[..|b|][|a|];
    }
  }

  /** Every ancestor of `member` other than itself is an ancestor of its parent. */
  lemma AncestorOfParent(a: string, member: string)
    requires '.' in member && Ancestor(a, member) && a != member
    ensures Ancestor(a, Parent(member))
  {
    var k := LastIndexOf(member, '.');
    var p := Parent(member);
    assert member[|a|] == '.';
    if |a| < k {
      assert p[|a|] == member[|a|];
      assert p[..|a|] == member[..|a|];
    } else {
      assert p == member[..|a|];
    }
  }

  /** The status comes from the deepest ancestor of the member that some
      warning names: the first such warning decides it. */
  lemma {:induction false} DeepestWarnedAncestorDecides(m: Manifest, member: string, a: string)
    requires Ancestor(a, member) && Decides(m, a).Some?
    requires forall b :: Ancestor(b, member) && |b| > |a| ==> Decides(m, b).Nothing?
    ensures MemberStatus(m, member) == Decides(m, a).value
    decreases |member|
  {
    if member != a {
      assert Decides(m, member).Nothing?;
      assert '.' in member by {
        assert member[|a|] == '.';
      }
      var p := Parent(member);
      AncestorOfParent(a, member);
      forall b | Ancestor(b, p) && |b| > |a| ensures Decides(m, b).Nothing? {
        AncestorTransitive(b, p, member);
      }
      DeepestWarnedAncestorDecides(m, p, a);
    }
  }

  /** A member none of whose ancestors any warning names has the API's status. */
  lemma {:induction false} UnwarnedMemberHasApiStatus(m: Manifest, member: string)
    requires forall b :: Ancestor(b, member) ==> Decides(m, b).Nothing?
    ensures MemberStatus(m, member) == Ok(m.status)
    decreases |member|
  {
    assert Ancestor(member, member);
    if '.' in member {
      var p := Parent(member);
      forall b | Ancestor(b, p) ensures Decides(m, b).Nothing? {
        AncestorTransitive(b, p, member);
      }
      UnwarnedMemberHasApiStatus(m, p);
    }
  }

  /** Whatever the walk returns is the API's status or what a warning on one
      of the member's ancestors decides. */
  lemma {:induction false} MemberStatusSource(m: Manifest, member: string)
    ensures MemberStatus(m, member) == Ok(m.status) ||
            exists i :: 0 <= i < |m.warnings| && Ancestor(m.warnings[i].member, member) &&
                        MemberStatus(m, member) == Decision(m.warnings[i])
    decreases |member|
  {
    var first := FirstWarningOf(m.warnings, member, 0);
    if first.Some? {
      assert Ancestor(m.warnings[first.value].member, member);
    } else if '.' in member {
      var p := Parent(member);
      MemberStatusSource(m, p);
      if MemberStatus(m, p) != Ok(m.status) {
        var i :| 0 <= i < |m.warnings| && Ancestor(m.warnings[i].member, p) &&
                 MemberStatus(m, p) == Decision(m.warnings[i]);
        AncestorTransitive(m.warnings[i].member, p, member);
      }
    }
  }

  // ---------------------------------------------------------------------------
  // Resolving a reference `chrome.<g>` to a status.

  /** The first branch of the replacer: the reference names an API and
      nothing more, `chrome.X` or `chrome.app.X` (the part before the first
      dot is what `split('.', 1)[0]` gives). */
  predicate NamesApiAlone(g: string) {
    '.' !in g || (Count(g, '.') == 1 && g[..IndexOf(g, '.')] in SuperNamespaces)
  }

  /** The first dot of a dotted name ends its first word. */
  lemma FirstDot(g: string)
    requires IsDottedName(g) && '.' in g
    ensures WordEnd(g, 0) == IndexOf(g, '.')
    ensures IndexOf(g, '.') + 1 < |g| && IsWordChar(g[IndexOf(g, '.') + 1])
  {
    var k := IndexOf(g, '.');
    var w := WordEnd(g, 0);
    WordEndBound(g, 0, k);
    assert ChainCharAt(g, w, |g|);
    assert '.' !in g[..w];
    IndexOfUnique(g, '.', w);
  }

  /** The dots of `g` when its only dot before `e` is at `w`. */
  lemma CountAfterFirstDot(g: string, w: nat, e: nat)
    requires w < e <= |g| && g[w] == '.'
    requires '.' !in g[..w] && '.' !in g[w + 1..e]
    ensures Count(g, '.') == 1 + Count(g[e..], '.')
  {
    CountFromFirst(g, w);
    CountSkip(g, w + 1, e);
  }

  /** Dropping a dot-free prefix and the dot after it drops one dot. */
  lemma CountFromFirst(g: string, w: nat)
    requires w < |g| && g[w] == '.' && '.' !in g[..w]
    ensures Count(g, '.') == 1 + Count(g[w + 1..], '.')
  {
    var tail := g[w..];
    CountSplit(g, w, '.');
    CountZero(g[..w], '.');
    assert tail[0] == '.' && tail[1..] == g[w + 1..];
  }

  /** Dropping a dot-free stretch drops no dot. */
  lemma CountSkip(g: string, a: nat, e: nat)
    requires a <= e <= |g| && '.' !in g[a..e]
    ensures Count(g[a..], '.') == Count(g[e..], '.')
  {
    var after := g[a..];
    CountSplit(after, e - a, '.');
    assert after[..e - a] == g[a..e];
    assert after[e - a..] == g[e..];
    CountZero(g[a..e], '.');
  }

  /** A run of word characters holds no dot. */
  lemma NoDotInWord(s: string, i: nat, j: nat)
    requires i <= j <= |s|
    requires forall k :: i <= k < j ==> IsWordChar(s[k])
    ensures '.' !in s[i..j]
  {
    forall k | 0 <= k < j - i ensures s[i..j][k] != '.' {
      assert s[i..j][k] == s[i + k];
    }
  }

  /** Where `CHROME_API_AND_MEMBER_REGEX` splits a reference that does not name
      an API alone: the API part ends at a dot followed by the member. */
  lemma MemberSplitPoint(g: string)
    requires IsDottedName(g) && !NamesApiAlone(g)
    ensures ApiNameEnd(g, 0) + 1 < |g| && g[ApiNameEnd(g, 0)] == '.'
  {
    var w := WordEnd(g, 0);
    FirstDot(g);
    if g[..w] in SuperNamespaces {
      SuperApiEnd(g, w);
    } else {
      assert ChainCharAt(g, w, |g|);
    }
  }

  lemma SuperApiEnd(g: string, w: nat)
    requires IsDottedName(g) && !NamesApiAlone(g) && '.' in g
    requires w == WordEnd(g, 0) == IndexOf(g, '.') && w + 1 < |g| && IsWordChar(g[w + 1])
    requires g[..w] in SuperNamespaces
    ensures ApiNameEnd(g, 0) + 1 < |g| && g[ApiNameEnd(g, 0)] == '.'
  {
    var e := WordEnd(g, w + 1);
    assert DotWordAt(g, w);
    assert ApiNameEnd(g, 0) == e;
    NoDotInWord(g, w + 1, e);
    CountAfterFirstDot(g, w, e);
    CountZero(g[e..], '.');
    assert Count(g[e..], '.') != 0;
    assert g[e..][0] == g[e];
    assert ChainCharAt(g, e, |g|);
  }

  /** The status of the reference `chrome.<g>`: the API's own status when `g`
      names an API alone; otherwise the walk over the member part of the API
      that `CHROME_API_AND_MEMBER_REGEX` separates. An API missing from the
      table fails the lookup. */
  function ReferenceStatus(g: string, apis: ApiTable): Result<string>
    requires IsDottedName(g)
  {
    if NamesApiAlone(g) then
      if g in apis then Ok(apis[g].status) else Err(KeyError(g))
    else
      MemberSplitPoint(g);
      var e := ApiNameEnd(g, 0);
      var api := g[..e];
      if api in apis then MemberStatus(apis[api], g[e + 1..]) else Err(KeyError(api))
  }

  /** The replacer takes its first branch exactly for the references whose
      whole chain is an API name `CHROME_API_REGEX` can capture. */
  lemma NamesApiAloneIffApiName(g: string)
    requires IsDottedName(g)
    ensures NamesApiAlone(g) <==> IsApiName(g)
  {
    if '.' !in g {
      forall i | 0 <= i < |g| ensures IsWordChar(g[i]) {
        assert ChainCharAt(g, i, |g|);
      }
      assert IsWord(g);
    } else {
      var k := IndexOf(g, '.');
      FirstDot(g);
      CountAfterFirstDot(g, k, k + 1);
      assert !IsWord(g) by {
        assert !IsWordChar(g[k]);
      }
      if NamesApiAlone(g) {
        AloneIsApiName(g, k);
      }
      if IsApiName(g) {
        ApiNameIsAlone(g, k);
      }
    }
  }

  lemma AloneIsApiName(g: string, k: nat)
    requires IsDottedName(g) && '.' in g && k == IndexOf(g, '.') && k + 1 < |g|
    requires Count(g, '.') == 1 + Count(g[k + 1..], '.')
    requires NamesApiAlone(g)
    ensures IsApiName(g)
  {
    var rest := g[k + 1..];
    assert '.' !in rest by {
      CountZero(rest, '.');
    }
    forall i | 0 <= i < |rest| ensures IsWordChar(rest[i]) {
      assert ChainCharAt(g, k + 1 + i, |g|);
      assert rest[i] == g[k + 1 + i];
    }
    assert g[k] == '.' && g[..k] in SuperNamespaces && IsWord(rest);
  }

  lemma SuperNamespaceIsWord(x: string)
    requires x in SuperNamespaces
    ensures IsWord(x) && '.' !in x
  {
    assert x == "app" || x == "sockets" || x == "system";
  }

  lemma ApiNameIsAlone(g: string, k: nat)
    requires '.' in g && k == IndexOf(g, '.') && !IsWord(g)
    requires Count(g, '.') == 1 + Count(g[k + 1..], '.')
    requires IsApiName(g)
    ensures NamesApiAlone(g)
  {
    var j :| 0 < j < |g| && g[j] == '.' && g[..j] in SuperNamespaces && IsWord(g[j + 1..]);
    SuperNamespaceIsWord(g[..j]);
    IndexOfUnique(g, '.', j);
    NoDotInWord(g, j + 1, |g|);
    assert g[j + 1..|g|] == g[j + 1..];
    CountZero(g[j + 1..], '.');
  }

  /** `chrome.X` and `chrome.app.X` get the API's top-level status, with no
      member walk. */
  lemma ApiReferenceStatus(g: string, apis: ApiTable)
    requires IsDottedName(g) && IsApiName(g)
    ensures ReferenceStatus(g, apis) == if g in apis then Ok(apis[g].status) else Err(KeyError(g))
  {
    NamesApiAloneIffApiName(g);
  }

  /** `chrome.<api>.<member>`, for an API name that is not a super-namespace
      alone, resolves the member of that API by the walk. */
  lemma MemberReferenceStatus(api: string, member: string, apis: ApiTable)
    requires IsApiName(api) && api !in SuperNamespaces && IsDottedName(member)
    ensures IsDottedName(api + "." + member)
    ensures ReferenceStatus(api + "." + member, apis) ==
            if api in apis then MemberStatus(apis[api], member) else Err(KeyError(api))
  {
    var g := api + "." + member;
    ApiMemberIsDotted(api, member);
    if IsWord(api) {
      WordApiSplit(api, member);
    } else {
      SuperApiSplit(api, member);
    }
    assert g[..|api|] == api;
    assert g[|api| + 1..] == member;
  }

  lemma ApiMemberIsDotted(api: string, member: string)
    requires IsApiName(api) && IsDottedName(member)
    ensures IsDottedName(api + "." + member)
  {
    var g := api + "." + member;
    ApiChars(api);
    assert g[0] == api[0];
    forall k | 0 <= k < |g| ensures ChainCharAt(g, k, |g|) {
      if k < |api| {
        assert ChainCharAt(api, k, |api|);
        assert g[k] == api[k];
        assert k + 1 < |api| ==> g[k + 1] == api[k + 1];
      } else if k == |api| {
        assert g[k + 1] == member[0];
      } else {
        assert ChainCharAt(member, k - |api| - 1, |member|);
        assert g[k] == member[k - |api| - 1];
        assert k + 1 < |g| ==> g[k + 1] == member[k - |api|];
      }
    }
  }

  lemma WordApiSplit(api: string, member: string)
    requires IsWord(api) && api !in SuperNamespaces && IsDottedName(member)
    requires IsDottedName(api + "." + member)
    ensures !NamesApiAlone(api + "." + member) && ApiNameEnd(api + "." + member, 0) == |api|
  {
    var g := api + "." + member;
    assert g[..|api|] == api;
    WordEndAt(g, 0, |api|);
    FirstDot(g);
  }

  lemma SuperApiSplit(api: string, member: string)
    requires IsApiName(api) && !IsWord(api) && IsDottedName(member)
    requires IsDottedName(api + "." + member)
    ensures !NamesApiAlone(api + "." + member) && ApiNameEnd(api + "." + member, 0) == |api|
  {
    var g := api + "." + member;
    var j :| 0 < j < |api| && api[j] == '.' && api[..j] in SuperNamespaces && IsWord(api[j + 1..]);
    SuperNamespaceIsWord(api[..j]);
    assert g[..j] == api[..j];
    assert g[j] == '.';
    WordEndAt(g, 0, j);
    FirstDot(g);
    forall i | j + 1 <= i < |api| ensures IsWordChar(g[i]) {
      assert g[i] == api[j + 1..][i - j - 1];
    }
    WordEndAt(g, j + 1, |api|);
    assert DotWordAt(g, j);
    NoDotInWord(g, j + 1, |api|);
    CountAfterFirstDot(g, j, |api|);
    assert g[|api|..][0] == '.';
    CountZero(g[|api|..], '.');
    assert Count(g[|api|..], '.') != 0;
  }

  /** The characters of an API name are word characters and at most one dot,
      followed by a word character. */
  lemma ApiChars(api: string)
    requires IsApiName(api)
    ensures forall k :: 0 <= k < |api| ==> ChainCharAt(api, k, |api|)
  {
    if !IsWord(api) {
      var j :| 0 < j < |api| && api[j] == '.' && api[..j] in SuperNamespaces && IsWord(api[j + 1..]);
      forall k | 0 <= k < |api| ensures ChainCharAt(api, k, |api|) {
        if k < j {
          assert api[k] == api[..j][k];
          assert api[..j] in SuperNamespaces;
        } else if k == j {
          assert api[k + 1] == api[j + 1..][0];
        } else {
          assert api[k] == api[j + 1..][k - j - 1];
        }
      }
    }
  }

  // ---------------------------------------------------------------------------
  // format_html: CHROME_NAMESPACE_REGEX.sub(replacer, string).

  /** The markup a reference is wrapped in. */
  function Span(status: string, text: string): string {
    "<span class=\"ca-feature " + status + "\">" + text + "</span>"
  }

  /** The text as the substitution sees it: runs the pattern does not touch,
      and the references it matches, each `chrome.` and a chain of words. */
  datatype Piece = Plain(text: string) | Reference(name: string)

  predicate WellFormed(ps: seq<Piece>) {
    forall k :: 0 <= k < |ps| && ps[k].Reference? ==> IsDottedName(ps[k].name)
  }

  /** The substitution's scan from `i`: the leftmost match, then on from its end. */
  function Pieces(s: string, i: nat): (ps: seq<Piece>)
    requires i <= |s|
    ensures |ps| > 0 && WellFormed(ps)
    decreases |s| - i
  {
    match FirstAt(s, i, Namespace)
    case Nothing => [Plain(s[i..])]
    case Some(p) => [Plain(s[i..p]), Reference(ReferenceAt(s, p))] + Pieces(s, ReferenceEnd(s, p))
  }

  /** Where the reference matched at `p` ends: after the greedy chain. */
  function ReferenceEnd(s: string, p: nat): (e: nat)
    requires NamespaceAt(s, p)
    ensures p + |ChromePrefix| < e <= |s|
  {
    ChainEnd(s, p + |ChromePrefix|)
  }

  /** The chain of the reference matched at `p`, without `chrome.`. */
  function ReferenceAt(s: string, p: nat): (g: string)
    requires NamespaceAt(s, p)
    ensures IsDottedName(g)
  {
    ChainIsDottedName(s, p + |ChromePrefix|);
    s[p + |ChromePrefix|..ReferenceEnd(s, p)]
  }

  function PieceText(piece: Piece): string {
    match piece
    case Plain(t) => t
    case Reference(g) => ChromePrefix + g
  }

  /** The text the pieces were cut from. */
  function Original(ps: seq<Piece>): string {
    if ps == [] then "" else PieceText(ps[0]) + Original(ps[1..])
  }

  /** A piece as the substitution writes it: a run unchanged, a reference
      wrapped in a span carrying its status. */
  function RenderPiece(piece: Piece, apis: ApiTable): Result<string>
    requires piece.Reference? ==> IsDottedName(piece.name)
  {
    match piece
    case Plain(t) => Ok(t)
    case Reference(g) =>
      var status :- ReferenceStatus(g, apis);
      Ok(Span(status, ChromePrefix + g))
  }

  /** The pieces written out left to right; the first failing lookup is raised. */
  function Render(ps: seq<Piece>, apis: ApiTable): Result<string>
    requires WellFormed(ps)
  {
    if ps == [] then Ok("")
    else
      assert WellFormed(ps[1..]) by {
        forall k | 0 <= k < |ps| - 1 && ps[1..][k].Reference? ensures IsDottedName(ps[1..][k].name) {
          assert ps[1..][k] == ps[k + 1];
        }
      }
      var head :- RenderPiece(ps[0], apis);
      var tail :- Render(ps[1..], apis);
      assert forall k :: 1 <= k < |ps| ==> ps[k] == ps[1..][k - 1];
      Ok(head + tail)
  }

  /** The rendering fails exactly when one of the pieces does, and then with
      the error of the leftmost failing piece. */
  lemma {:induction false} RenderFails(ps: seq<Piece>, apis: ApiTable)
    requires WellFormed(ps)
    ensures Render(ps, apis).Err? <==> exists k :: 0 <= k < |ps| && RenderPiece(ps[k], apis).Err?
    ensures Render(ps, apis).Err? ==>
              exists k :: 0 <= k < |ps| && RenderPiece(ps[k], apis) == Err(Render(ps, apis).error) &&
                          forall j :: 0 <= j < k ==> RenderPiece(ps[j], apis).Ok?
  {
    if ps != [] {
      var tail := ps[1..];
      assert WellFormed(tail) by {
        forall k | 0 <= k < |tail| && tail[k].Reference? ensures IsDottedName(tail[k].name) {
          assert tail[k] == ps[k + 1];
        }
      }
      RenderFails(tail, apis);
      assert forall k :: 1 <= k < |ps| ==> ps[k] == tail[k - 1];
      if RenderPiece(ps[0], apis).Ok? && Render(tail, apis).Err? {
        var k :| 0 <= k < |tail| && RenderPiece(tail[k], apis) == Err(Render(tail, apis).error) &&
                 forall j :: 0 <= j < k ==> RenderPiece(tail[j], apis).Ok?;
        assert RenderPiece(ps[k + 1], apis) == Err(Render(ps, apis).error);
        forall j | 0 <= j < k + 1 ensures RenderPiece(ps[j], apis).Ok? {
          if j > 0 {
            assert ps[j] == tail[j - 1];
          }
        }
      }
    }
  }

  /** `format_html`: every reference marked with its status. */
  function FormatHtml(s: string, apis: ApiTable): Result<string> {
    Render(Pieces(s, 0), apis)
  }

  /** Marking the references of a text fails only on a lookup: an API missing
      from the table, or a warning without a `status` key. */
  lemma FormatHtmlFails(s: string, apis: ApiTable)
    ensures FormatHtml(s, apis).Err? ==> FormatHtml(s, apis).error.KeyError?
  {
    RenderFailsOnLookup(Pieces(s, 0), apis);
  }

  lemma {:induction false} RenderFailsOnLookup(ps: seq<Piece>, apis: ApiTable)
    requires WellFormed(ps)
    ensures Render(ps, apis).Err? ==> Render(ps, apis).error.KeyError?
  {
    if ps != [] {
      var tail := ps[1..];
      assert WellFormed(tail) by {
        forall k | 0 <= k < |tail| && tail[k].Reference? ensures IsDottedName(tail[k].name) {
          assert tail[k] == ps[k + 1];
        }
      }
      RenderFailsOnLookup(tail, apis);
      if ps[0].Reference? {
        ReferenceStatusFails(ps[0].name, apis);
      }
    }
  }

  /** The status of a reference fails only on a lookup. */
  lemma ReferenceStatusFails(g: string, apis: ApiTable)
    requires IsDottedName(g)
    ensures ReferenceStatus(g, apis).Err? ==> ReferenceStatus(g, apis).error.KeyError?
  {
    if !NamesApiAlone(g) {
      MemberSplitPoint(g);
      var e := ApiNameEnd(g, 0);
      MemberReferenceFails(g, e, apis);
    }
  }

  lemma MemberReferenceFails(g: string, e: nat, apis: ApiTable)
    requires IsDottedName(g) && !NamesApiAlone(g) && e == ApiNameEnd(g, 0) && e + 1 < |g|
    ensures ReferenceStatus(g, apis).Err? ==> ReferenceStatus(g, apis).error.KeyError?
  {
    if g[..e] in apis {
      ReferenceOfMember(g, e, apis);
      MemberStatusFails(apis[g[..e]], g[e + 1..]);
    }
  }

  /** A reference to a member of a known API gets the member walk's status. */
  lemma ReferenceOfMember(g: string, e: nat, apis: ApiTable)
    requires IsDottedName(g) && !NamesApiAlone(g) && e == ApiNameEnd(g, 0) && e + 1 < |g| && g[..e] in apis
    ensures ReferenceStatus(g, apis) == MemberStatus(apis[g[..e]], g[e + 1..])
  {
  }

  /** A text without any `chrome.<word>` comes back unchanged. */
  lemma FormatHtmlWithoutReference(s: string, apis: ApiTable)
    requires NoReference(s)
    ensures FormatHtml(s, apis) == Ok(s)
  {
    assert FirstAt(s, 0, Namespace).Nothing?;
    var ps := [Plain(s)];
    assert s[0..] == s;
    assert Pieces(s, 0) == ps;
    assert ps[1..] == [];
    assert Render(ps[1..], apis) == Ok("");
    assert RenderPiece(ps[0], apis) == Ok(s);
    assert s + "" == s;
  }

  lemma {:induction false} OriginalConcat(a: seq<Piece>, b: seq<Piece>)
    ensures Original(a + b) == Original(a) + Original(b)
  {
    if a == [] {
      assert a + b == b;
    } else {
      assert (a + b)[1..] == a[1..] + b;
      OriginalConcat(a[1..], b);
    }
  }

  /** The pieces are a cut of the text: put together, they give it back, so the
      substitution only wraps references and never alters the text around them. */
  lemma {:induction false} PiecesOriginal(s: string, i: nat)
    requires i <= |s|
    ensures Original(Pieces(s, i)) == s[i..]
    decreases |s| - i
  {
    match FirstAt(s, i, Namespace)
    case Nothing =>
      assert Original([Plain(s[i..])]) == s[i..] + "";
    case Some(p) =>
      assert NamespaceAt(s, p);
      PiecesOriginal(s, ReferenceEnd(s, p));
      PiecesOriginalStep(s, i, p);
  }

  lemma PiecesOriginalStep(s: string, i: nat, p: nat)
    requires i <= |s| && FirstAt(s, i, Namespace) == Some(p) && NamespaceAt(s, p)
    requires Original(Pieces(s, ReferenceEnd(s, p))) == s[ReferenceEnd(s, p)..]
    ensures Original(Pieces(s, i)) == s[i..]
  {
    var e := ReferenceEnd(s, p);
    var head := [Plain(s[i..p]), Reference(ReferenceAt(s, p))];
    PiecesStep(s, i, p);
    ReferenceOriginal(s, i, p);
    JoinOriginal(head, Pieces(s, e), s, i, e);
  }

  /** Pieces covering `s[i..e]` followed by pieces covering `s[e..]` cover `s[i..]`. */
  lemma JoinOriginal(head: seq<Piece>, rest: seq<Piece>, s: string, i: nat, e: nat)
    requires i <= e <= |s| && Original(head) == s[i..e] && Original(rest) == s[e..]
    ensures Original(head + rest) == s[i..]
  {
    OriginalConcat(head, rest);
    SliceJoin(s, i, e, |s|);
    assert s[e..|s|] == s[e..] && s[i..|s|] == s[i..];
  }

  /** A run and the reference after it cover the text from the run's start to
      the reference's end. */
  lemma ReferenceOriginal(s: string, i: nat, p: nat)
    requires i <= p && NamespaceAt(s, p)
    ensures Original([Plain(s[i..p]), Reference(ReferenceAt(s, p))]) == s[i..ReferenceEnd(s, p)]
  {
    var q := p + |ChromePrefix|;
    var e := ReferenceEnd(s, p);
    var g := ReferenceAt(s, p);
    assert g == s[q..e];
    var head := [Plain(s[i..p]), Reference(g)];
    var last := [Reference(g)];
    assert last[1..] == [];
    assert Original(last) == s[p..e] by {
      assert s[p..q] == ChromePrefix;
      SliceJoin(s, p, q, e);
      assert Original(last) == s[p..e] + "";
    }
    assert head[1..] == last;
    assert Original(head) == s[i..p] + s[p..e];
    SliceJoin(s, i, p, e);
  }

  /** `chrome.<word>` appears nowhere in `t`. */
  predicate NoReference(t: string) {
    forall m :: 0 <= m <= |t| ==> !NamespaceAt(t, m)
  }

  predicate PlainRunsClean(ps: seq<Piece>) {
    forall k :: 0 <= k < |ps| && ps[k].Plain? ==> NoReference(ps[k].text)
  }

  /** No run left untouched holds a reference: the scan misses none. */
  lemma {:induction false} PlainPiecesHoldNoReference(s: string, i: nat)
    requires i <= |s|
    ensures PlainRunsClean(Pieces(s, i))
    decreases |s| - i
  {
    match FirstAt(s, i, Namespace)
    case Nothing =>
      NoNamespaceInSlice(s, i, |s|);
      assert s[i..|s|] == s[i..];
    case Some(p) =>
      assert NamespaceAt(s, p);
      var e := ReferenceEnd(s, p);
      var head := [Plain(s[i..p]), Reference(ReferenceAt(s, p))];
      var rest := Pieces(s, e);
      PiecesStep(s, i, p);
      PlainPiecesHoldNoReference(s, e);
      NoNamespaceInSlice(s, i, p);
      var ps := head + rest;
      forall k | 0 <= k < |ps| && ps[k].Plain? ensures NoReference(ps[k].text) {
        if k >= 2 {
          assert ps[k] == rest[k - 2];
        }
      }
  }

  lemma NoNamespaceInSlice(s: string, i: nat, j: nat)
    requires i <= j <= |s|
    requires forall m :: i <= m < j ==> !MatchesAt(Namespace, s, m)
    ensures NoReference(s[i..j])
  {
    var t := s[i..j];
    forall m | 0 <= m <= j - i ensures !NamespaceAt(t, m) {
      if m + 7 < |t| {
        SliceOfSlice(s, i, j, m, m + 7);
        assert t[m + 7] == s[i + m + 7];
        assert !MatchesAt(Namespace, s, i + m);
      }
    }
  }

  /** One step of the scan: the run up to the leftmost reference, the
      reference, and the scan from its end. */
  lemma PiecesStep(s: string, i: nat, p: nat)
    requires i <= |s| && FirstAt(s, i, Namespace) == Some(p) && NamespaceAt(s, p)
    ensures Pieces(s, i) == [Plain(s[i..p]), Reference(ReferenceAt(s, p))] + Pieces(s, ReferenceEnd(s, p))
  {
  }

  /** No `chrome.` reference starts where there is no `c`. */
  lemma NoNamespaceWithoutC(s: string, i: nat, j: nat)
    requires i <= j <= |s|
    requires forall m :: i <= m < j ==> s[m] != 'c'
    ensures forall m :: i <= m < j ==> !MatchesAt(Namespace, s, m)
  {
    forall m | i <= m < j ensures !MatchesAt(Namespace, s, m) {
      assert m + 7 <= |s| ==> s[m..m + 7][0] == s[m];
    }
  }

  /** A reference in a suffix of a text is a reference of that suffix. */
  lemma NamespaceInSuffix(s: string, e: nat, m: nat)
    requires e <= m <= |s|
    ensures NamespaceAt(s, m) ==> NamespaceAt(s[e..], m - e)
  {
    var t := s[e..];
    if NamespaceAt(s, m) {
      SliceOfSlice(s, e, |s|, m - e, m - e + 7);
      assert t[m - e + 7] == s[m + 7];
    }
  }

  /** The scan of a line holding one reference, `chrome.<chain>`, with no `c`
      before or after it. */
  lemma PiecesOfOneReference(prefix: string, chain: string, rest: string)
    requires 'c' !in prefix && NoReference(rest)
    requires IsDottedName(chain)
    requires rest == [] || (!IsWordChar(rest[0]) && !DotWordAt(rest, 0))
    ensures Pieces(prefix + ChromePrefix + chain + rest, 0) == [Plain(prefix), Reference(chain), Plain(rest)]
  {
    var s := prefix + ChromePrefix + chain + rest;
    var p := |prefix|;
    assert s[0..p] == prefix;
    OneReferenceFirst(prefix, chain, rest);
    OneReferenceChain(prefix, chain, rest);
    OneReferenceTail(prefix, chain, rest);
    PiecesOfThree(s, p, prefix, chain, rest);
  }

  lemma PiecesOfThree(s: string, p: nat, prefix: string, chain: string, rest: string)
    requires FirstAt(s, 0, Namespace) == Some(p) && NamespaceAt(s, p)
    requires s[0..p] == prefix && ReferenceAt(s, p) == chain
    requires Pieces(s, ReferenceEnd(s, p)) == [Plain(rest)]
    ensures Pieces(s, 0) == [Plain(prefix), Reference(chain), Plain(rest)]
  {
    PiecesStep(s, 0, p);
    assert [Plain(prefix), Reference(chain)] + [Plain(rest)] == [Plain(prefix), Reference(chain), Plain(rest)];
  }

  /** The search finds the one reference. */
  lemma OneReferenceFirst(prefix: string, chain: string, rest: string)
    requires 'c' !in prefix && IsDottedName(chain)
    ensures FirstAt(prefix + ChromePrefix + chain + rest, 0, Namespace) == Some(|prefix|)
    ensures NamespaceAt(prefix + ChromePrefix + chain + rest, |prefix|)
  {
    var s := prefix + ChromePrefix + chain + rest;
    var p := |prefix|;
    var q := p + |ChromePrefix|;
    assert s[p..q] == ChromePrefix;
    forall m | 0 <= m < p ensures s[m] != 'c' {
      assert s[m] == prefix[m];
    }
    NoNamespaceWithoutC(s, 0, p);
    assert s[q] == chain[0];
    assert MatchesAt(Namespace, s, p);
    FirstAtIs(s, Namespace, p);
  }

  /** The reference found is the whole chain. */
  lemma OneReferenceChain(prefix: string, chain: string, rest: string)
    requires IsDottedName(chain)
    requires rest == [] || (!IsWordChar(rest[0]) && !DotWordAt(rest, 0))
    requires NamespaceAt(prefix + ChromePrefix + chain + rest, |prefix|)
    ensures ReferenceEnd(prefix + ChromePrefix + chain + rest, |prefix|) == |prefix| + |ChromePrefix| + |chain|
    ensures ReferenceAt(prefix + ChromePrefix + chain + rest, |prefix|) == chain
  {
    var s := prefix + ChromePrefix + chain + rest;
    var p := |prefix|;
    var q := p + |ChromePrefix|;
    var e := q + |chain|;
    assert s[q..e] == chain;
    DottedAt(s, q, e);
    if e < |s| {
      assert s[e] == rest[0];
      assert e + 1 < |s| ==> s[e + 1] == rest[1];
    }
    ChainEndAt(s, q, e);
  }

  /** After the chain the scan finds nothing more. */
  lemma OneReferenceTail(prefix: string, chain: string, rest: string)
    requires NoReference(rest)
    ensures var s := prefix + ChromePrefix + chain + rest;
            Pieces(s, |prefix| + |ChromePrefix| + |chain|) == [Plain(rest)]
  {
    var s := prefix + ChromePrefix + chain + rest;
    var e := |prefix| + |ChromePrefix| + |chain|;
    assert s[e..] == rest;
    forall m | e <= m <= |s| ensures !MatchesAt(Namespace, s, m) {
      NamespaceInSuffix(s, e, m);
    }
    assert FirstAt(s, e, Namespace).Nothing?;
  }

  /** Rendering a plain run, one reference and a plain run. */
  lemma RenderOneReference(prefix: string, chain: string, rest: string, apis: ApiTable)
    requires IsDottedName(chain)
    ensures Render([Plain(prefix), Reference(chain), Plain(rest)], apis) ==
            match ReferenceStatus(chain, apis)
            case Ok(status) => Ok(prefix + Span(status, ChromePrefix + chain) + rest)
            case Err(e) => Err(e)
  {
    var ps := [Plain(prefix), Reference(chain), Plain(rest)];
    var tail := [Reference(chain), Plain(rest)];
    var last := [Plain(rest)];
    assert ps[1..] == tail && tail[1..] == last && last[1..] == [];
    assert Render(last, apis) == Ok(rest) by {
      assert Render(last[1..], apis) == Ok("");
      assert rest + "" == rest;
    }
    match ReferenceStatus(chain, apis)
    case Ok(status) =>
      var span := Span(status, ChromePrefix + chain);
      assert Render(tail, apis) == Ok(span + rest);
      assert RenderPiece(ps[0], apis) == Ok(prefix);
      assert prefix + (span + rest) == prefix + span + rest;
    case Err(e) =>
      assert Render(tail, apis) == Err(e);
  }

  /** A line holding one reference is that reference marked with its status,
      and nothing else changed. */
  lemma FormatOneReference(prefix: string, chain: string, rest: string, apis: ApiTable)
    requires 'c' !in prefix && NoReference(rest)
    requires IsDottedName(chain)
    requires rest == [] || (!IsWordChar(rest[0]) && !DotWordAt(rest, 0))
    ensures FormatHtml(prefix + ChromePrefix + chain + rest, apis) ==
            match ReferenceStatus(chain, apis)
            case Ok(status) => Ok(prefix + Span(status, ChromePrefix + chain) + rest)
            case Err(e) => Err(e)
  {
    PiecesOfOneReference(prefix, chain, rest);
    RenderOneReference(prefix, chain, rest, apis);
  }

  /** Text without a `c` holds no `chrome.` reference. */
  lemma NoCNoReference(t: string)
    requires 'c' !in t
    ensures NoReference(t)
  {
    forall m | 0 <= m <= |t| ensures !NamespaceAt(t, m) {
      if m + 7 <= |t| {
        assert t[m..m + 7][0] == t[m];
      }
    }
  }

  // ---------------------------------------------------------------------------
  // make_warning and manifest_warnings.

  /** A warning as the report lists it: the member it is about and its text as HTML. */
  /** A loop that applies `f` to each element in turn and lets the first
      exception propagate: the results of the first `count` elements, in
      order, or the first error. */
  function MapAll<T, U>(xs: seq<T>, f: T -> Result<U>, count: nat): (r: Result<seq<U>>)
    requires count <= |xs|
    ensures r.Ok? ==> |r.value| == count
  {
    if count == 0 then Ok([])
    else
      var earlier :- MapAll(xs, f, count - 1);
      var last :- f(xs[count - 1]);
      Ok(earlier + [last])
  }

  /** One element more: its result is appended, or its error ends the loop. */
  lemma MapAllNext<T, U>(xs: seq<T>, f: T -> Result<U>, k: nat, earlier: seq<U>, last: Result<U>)
    requires k < |xs| && MapAll(xs, f, k) == Ok(earlier) && f(xs[k]) == last
    ensures MapAll(xs, f, k + 1) == if last.Ok? then Ok(earlier + [last.value]) else Err(last.error)
  {
  }

  /** Once an element has failed, the elements after it change nothing. */
  lemma {:induction false} MapAllFailsFrom<T, U>(xs: seq<T>, f: T -> Result<U>, i: nat, count: nat)
    requires i <= count <= |xs|
    requires MapAll(xs, f, i).Err?
    ensures MapAll(xs, f, count) == MapAll(xs, f, i)
    decreases count
  {
    if count > i {
      MapAllFailsFrom(xs, f, i, count - 1);
    }
  }

  /** The loop succeeds exactly when every element does, and then holds each
      element's result at the element's position; otherwise it fails with
      the error of the leftmost failing element. */
  lemma {:induction false} MapAllEach<T, U>(xs: seq<T>, f: T -> Result<U>, count: nat)
    requires count <= |xs|
    ensures MapAll(xs, f, count).Ok? <==> forall k :: 0 <= k < count ==> f(xs[k]).Ok?
    ensures MapAll(xs, f, count).Ok? ==>
              |MapAll(xs, f, count).value| == count &&
              forall k :: 0 <= k < count ==> f(xs[k]) == Ok(MapAll(xs, f, count).value[k])
    ensures MapAll(xs, f, count).Err? ==>
              exists k :: 0 <= k < count && f(xs[k]) == Err(MapAll(xs, f, count).error) &&
                          forall j :: 0 <= j < k ==> f(xs[j]).Ok?
  {
    if count > 0 {
      MapAllEach(xs, f, count - 1);
      var earlier := MapAll(xs, f, count - 1);
      var last := f(xs[count - 1]);
      if earlier.Ok? && last.Ok? {
        var r := earlier.value + [last.value];
        assert MapAll(xs, f, count) == Ok(r);
        assert forall k :: 0 <= k < count - 1 ==> r[k] == earlier.value[k];
      } else if earlier.Ok? {
        assert MapAll(xs, f, count) == Err(last.error);
      }
    }
  }

  datatype ReportWarning = ReportWarning(member: string, text: string)

  /** The text of a warning that only names a member. */
  const NotImplemented: string := "Not implemented in the polyfill."

  /** `chrome.<name>.<member>: <text>`, the line a warning is written as. */
  function WarningLine(name: string, member: string, text: string): string {
    ChromePrefix + (name + "." + member) + (": " + text)
  }

  /** `make_warning`: the warning line with its references marked. */
  function MakeWarning(name: string, member: string, text: string, apis: ApiTable): (r: Result<ReportWarning>)
    ensures r.Ok? ==> r.value.member == member
  {
    var formatted :- FormatHtml(WarningLine(name, member, text), apis);
    Ok(ReportWarning(member, formatted))
  }

  /** A warning about a member of a known API marks `chrome.<name>.<member>`
      with the status the member walk gives it, and leaves the text after it
      as it was; a warning about an API missing from the table fails with
      that API's name. */
  lemma MakeWarningMarksMember(name: string, member: string, text: string, apis: ApiTable)
    requires IsApiName(name) && name !in SuperNamespaces && IsDottedName(member)
    requires NoReference(": " + text)
    ensures MakeWarning(name, member, text, apis) ==
            if name !in apis then Err(KeyError(name))
            else match MemberStatus(apis[name], member)
              case Ok(status) =>
                Ok(ReportWarning(member, Span(status, ChromePrefix + (name + "." + member)) + (": " + text)))
              case Err(e) => Err(e)
  {
    var chain := name + "." + member;
    var rest := ": " + text;
    MemberReferenceStatus(name, member, apis);
    assert [] + ChromePrefix == ChromePrefix;
    FormatOneReference([], chain, rest, apis);
    var status := ReferenceStatus(chain, apis);
    if status.Ok? {
      assert [] + Span(status.value, ChromePrefix + chain) == Span(status.value, ChromePrefix + chain);
    }
  }

  /** A warning of the unit tests, about a member whose status is known,
      with a text that holds no `c` and so no reference. */
  lemma ExampleWarning(name: string, member: string, text: string, apis: ApiTable, status: string)
    requires IsWord(name) && name !in SuperNamespaces && IsDottedName(member) && 'c' !in text
    requires name in apis && MemberStatus(apis[name], member) == Ok(status)
    ensures MakeWarning(name, member, text, apis) ==
            Ok(ReportWarning(member, Span(status, ChromePrefix + (name + "." + member)) + (": " + text)))
  {
    PlainText(text);
    MakeWarningMarksMember(name, member, text, apis);
  }

  /** The make_warning unit test: `power.requestKeepAwake` is marked with the
      status of its own warning, `none`. */
  lemma MakeWarningExample()
    ensures MakeWarning("power", "requestKeepAwake", "Does nothing.", TestTable()) ==
            Ok(ReportWarning("requestKeepAwake",
                             Span(StatusNone, ChromePrefix + "power.requestKeepAwake") + ": Does nothing."))
  {
    assert "power" + "." + "requestKeepAwake" == "power.requestKeepAwake";
    assert ": " + "Does nothing." == ": Does nothing.";
    PowerKeepAwakeStatus();
    ExampleNames();
    ExampleWarning("power", "requestKeepAwake", "Does nothing.", TestTable(), StatusNone);
  }

  /** A text without `c` holds no reference after the colon either. */
  lemma PlainText(text: string)
    requires 'c' !in text
    ensures NoReference(": " + text)
  {
    assert 'c' !in ": " + text by {
      assert forall k :: 2 <= k < |": " + text| ==> (": " + text)[k] == text[k - 2];
    }
    NoCNoReference(": " + text);
  }

  lemma PowerKeepAwakeStatus()
    ensures MemberStatus(PowerManifest(), "requestKeepAwake") == Ok(StatusNone)
  {
    assert FirstWarningOf(PowerManifest().warnings, "requestKeepAwake", 0) == Some(0);
  }

  /** The names of the unit tests are plain words; none is `app`. */
  lemma ExampleNames()
    ensures IsWord("power") && IsWord("test") && IsWord("tts")
    ensures IsDottedName("requestKeepAwake") && IsDottedName("member") && IsDottedName("speak")
    ensures "power" !in SuperNamespaces && "test" !in SuperNamespaces && "tts" !in SuperNamespaces
  {
  }

  /** A warning about an API the table does not hold fails the lookup. */
  lemma MakeWarningUnknownApi()
    ensures MakeWarning("tts", "speak", "Does nothing.", TestTable()) == Err(KeyError("tts"))
  {
    ExampleNames();
    PlainText("Does nothing.");
    MakeWarningMarksMember("tts", "speak", "Does nothing.", TestTable());
  }

  /** The `power` manifest of the unit tests: partially polyfilled, with its
      two keep-awake calls doing nothing. */
  function PowerManifest(): Manifest {
    var doesNothing := Some(Single("Does nothing."));
    Manifest("power", StatusPartial, [],
             [Structured("requestKeepAwake", Some(StatusNone), doesNothing),
              Structured("releaseKeepAwake", Some(StatusNone), doesNothing)])
  }

  /** The API table of the unit tests. */
  function TestTable(): ApiTable {
    map["power" := PowerManifest(), "app.runtime" := Manifest("app.runtime", StatusNone, [], [])]
  }

  /** The texts a manifest warning stands for: a bare member name is not
      implemented; an object has one text or a list of them, and one without
      a `text` key fails the lookup. */
  function WarningTexts(w: Warning): Result<seq<string>> {
    match w
    case Bare(_) => Ok([NotImplemented])
    case Structured(_, _, text) =>
      if text.Nothing? then Err(KeyError("text"))
      else match text.value
        case Single(t) => Ok([t])
        case Many(ts) => Ok(ts)
  }

  /** The texts of a warning are missing only from an object without a
      `text` key, and then the lookup of `text` fails. */
  lemma WarningTextsFails(w: Warning)
    ensures WarningTexts(w).Err? <==> w.Structured? && w.text.Nothing?
    ensures WarningTexts(w).Err? ==> WarningTexts(w).error == KeyError("text")
  {
  }


  /** `make_warning` for the texts about one member. */
  function Maker(name: string, member: string, apis: ApiTable): string -> Result<ReportWarning> {
    text => MakeWarning(name, member, text, apis)
  }

  /** The warnings of the first `count` manifest warnings of `m`, in order;
      the first lookup that fails ends it. */
  function Collected(m: Manifest, apis: ApiTable, count: nat): Result<seq<ReportWarning>>
    requires count <= |m.warnings|
  {
    if count == 0 then Ok([])
    else
      var earlier :- Collected(m, apis, count - 1);
      var w := m.warnings[count - 1];
      var texts :- WarningTexts(w);
      var made :- MapAll(texts, Maker(m.name, w.member, apis), |texts|);
      Ok(earlier + made)
  }

  /** A collection that succeeds found the texts of its last warning. */
  lemma CollectedHadTexts(m: Manifest, apis: ApiTable, count: nat)
    requires 0 < count <= |m.warnings| && Collected(m, apis, count).Ok?
    ensures WarningTexts(m.warnings[count - 1]).Ok?
  {
  }


  /** `manifest_warnings`: one report warning per text of each manifest
      warning, in manifest order; the first failing lookup is raised. */
  method ManifestWarnings(m: Manifest, apis: ApiTable) returns (r: Result<seq<ReportWarning>>)
    ensures r == Collected(m, apis, |m.warnings|)
  {
    var warnings: seq<ReportWarning> := [];
    for i := 0 to |m.warnings|
      invariant Collected(m, apis, i) == Ok(warnings)
    {
      var w := m.warnings[i];
      CollectedNext(m, apis, i, warnings);
      var texts: seq<string>;
      if w.Bare? {
        texts := [NotImplemented];
      } else if w.text.Nothing? {
        CollectedFailsFrom(m, apis, i + 1, |m.warnings|);
        return Err(KeyError("text"));
      } else if w.text.value.Single? {
        texts := [w.text.value.text];
      } else {
        texts := w.text.value.texts;
      }
      assert WarningTexts(w) == Ok(texts);
      var made := MakeWarnings(m.name, w.member, texts, apis);
      if made.Err? {
        CollectedFailsFrom(m, apis, i + 1, |m.warnings|);
        return Err(made.error);
      }
      warnings := warnings + made.value;
    }
    return Ok(warnings);
  }

  /** The inner loop of `manifest_warnings`: one warning per text. */
  method MakeWarnings(name: string, member: string, texts: seq<string>, apis: ApiTable) returns (r: Result<seq<ReportWarning>>)
    ensures r == MapAll(texts, Maker(name, member, apis), |texts|)
  {
    var made: seq<ReportWarning> := [];
    for j := 0 to |texts|
      invariant MapAll(texts, Maker(name, member, apis), j) == Ok(made)
    {
      var one := MakeWarning(name, member, texts[j], apis);
      MapAllNext(texts, Maker(name, member, apis), j, made, one);
      if one.Err? {
        MapAllFailsFrom(texts, Maker(name, member, apis), j + 1, |texts|);
        return Err(one.error);
      }
      made := made + [one.value];
    }
    return Ok(made);
  }

  /** One manifest warning more: its texts, then its warnings, are appended,
      or the first failure is passed on. */
  lemma CollectedNext(m: Manifest, apis: ApiTable, i: nat, earlier: seq<ReportWarning>)
    requires i < |m.warnings| && Collected(m, apis, i) == Ok(earlier)
    ensures var w := m.warnings[i];
            Collected(m, apis, i + 1) ==
              match WarningTexts(w)
              case Err(e) => Err(e)
              case Ok(texts) =>
                match MapAll(texts, Maker(m.name, w.member, apis), |texts|)
                case Err(e) => Err(e)
                case Ok(made) => Ok(earlier + made)
  {
  }

  /** Once a text fails to format, the texts after it change nothing. */
  lemma {:induction false} CollectedFailsFrom(m: Manifest, apis: ApiTable, i: nat, count: nat)
    requires i <= count <= |m.warnings|
    requires Collected(m, apis, i).Err?
    ensures Collected(m, apis, count) == Collected(m, apis, i)
    decreases count
  {
    var k := i;
    while k < count
      invariant i <= k <= count && Collected(m, apis, k) == Collected(m, apis, i)
    {
      CollectedErrorStays(m, apis, k + 1);
      k := k + 1;
    }
  }

  lemma CollectedErrorStays(m: Manifest, apis: ApiTable, count: nat)
    requires 0 < count <= |m.warnings| && Collected(m, apis, count - 1).Err?
    ensures Collected(m, apis, count) == Collected(m, apis, count - 1)
  {
  }

  /** One text of one manifest warning, with the member it is about. */
  datatype Entry = Entry(member: string, text: string)

  /** The entries of one manifest warning. */
  function EntriesOf(member: string, texts: seq<string>): seq<Entry> {
    seq(|texts|, k requires 0 <= k < |texts| => Entry(member, texts[k]))
  }

  /** The entries of the first `count` manifest warnings, in order, or the
      first `text` lookup that fails. */
  function Entries(ws: seq<Warning>, count: nat): Result<seq<Entry>>
    requires count <= |ws|
  {
    if count == 0 then Ok([])
    else
      var earlier :- Entries(ws, count - 1);
      var texts :- WarningTexts(ws[count - 1]);
      Ok(earlier + EntriesOf(ws[count - 1].member, texts))
  }

  /** Every entry can be written as a warning. */
  predicate AllMade(name: string, es: seq<Entry>, apis: ApiTable) {
    forall k :: 0 <= k < |es| ==> MakeWarning(name, es[k].member, es[k].text, apis).Ok?
  }

  /** `rs` are the entries written as warnings, one for one. */
  predicate MadeFrom(name: string, es: seq<Entry>, apis: ApiTable, rs: seq<ReportWarning>) {
    |rs| == |es| && forall k :: 0 <= k < |es| ==> MakeWarning(name, es[k].member, es[k].text, apis) == Ok(rs[k])
  }

  lemma AllMadeConcat(name: string, a: seq<Entry>, b: seq<Entry>, apis: ApiTable)
    ensures AllMade(name, a + b, apis) <==> AllMade(name, a, apis) && AllMade(name, b, apis)
  {
    var ab := a + b;
    assert forall k :: 0 <= k < |a| ==> ab[k] == a[k];
    assert forall k :: 0 <= k < |b| ==> ab[|a| + k] == b[k];
    if AllMade(name, a, apis) && AllMade(name, b, apis) {
      forall k | 0 <= k < |ab| ensures MakeWarning(name, ab[k].member, ab[k].text, apis).Ok? {
        if k >= |a| {
          assert ab[k] == b[k - |a|];
        }
      }
    }
  }

  lemma MadeFromConcat(name: string, a: seq<Entry>, b: seq<Entry>, apis: ApiTable, ra: seq<ReportWarning>, rb: seq<ReportWarning>)
    requires MadeFrom(name, a, apis, ra) && MadeFrom(name, b, apis, rb)
    ensures MadeFrom(name, a + b, apis, ra + rb)
  {
    var ab := a + b;
    var rab := ra + rb;
    forall k | 0 <= k < |ab| ensures MakeWarning(name, ab[k].member, ab[k].text, apis) == Ok(rab[k]) {
      if k >= |a| {
        assert ab[k] == b[k - |a|] && rab[k] == rb[k - |a|];
      } else {
        assert ab[k] == a[k] && rab[k] == ra[k];
      }
    }
  }

  /** The texts of one manifest warning, made into warnings. */
  lemma MakerMade(name: string, member: string, texts: seq<string>, apis: ApiTable)
    ensures var r := MapAll(texts, Maker(name, member, apis), |texts|);
            (r.Ok? <==> AllMade(name, EntriesOf(member, texts), apis)) &&
            (r.Ok? ==> MadeFrom(name, EntriesOf(member, texts), apis, r.value))
  {
    var es := EntriesOf(member, texts);
    var f := Maker(name, member, apis);
    MapAllEach(texts, f, |texts|);
    forall k | 0 <= k < |es| ensures MakeWarning(name, es[k].member, es[k].text, apis) == f(texts[k]) {
      assert es[k] == Entry(member, texts[k]);
    }
  }

  /** The warnings of a manifest are its entries, each made into a warning
      by make_warning, in manifest order: the collection succeeds exactly
      when every `text` is present and every entry formats. */
  lemma {:induction false} CollectedAreEntries(m: Manifest, apis: ApiTable, count: nat)
    requires count <= |m.warnings|
    ensures Collected(m, apis, count).Ok? <==>
            Entries(m.warnings, count).Ok? && AllMade(m.name, Entries(m.warnings, count).value, apis)
    ensures Collected(m, apis, count).Ok? ==>
            MadeFrom(m.name, Entries(m.warnings, count).value, apis, Collected(m, apis, count).value)
  {
    if count > 0 {
      CollectedAreEntries(m, apis, count - 1);
      var w := m.warnings[count - 1];
      var earlier := Entries(m.warnings, count - 1);
      var texts := WarningTexts(w);
      var before := Collected(m, apis, count - 1);
      if before.Ok? {
        CollectedNext(m, apis, count - 1, before.value);
      }
      if earlier.Ok? && texts.Ok? {
        var here := EntriesOf(w.member, texts.value);
        assert Entries(m.warnings, count) == Ok(earlier.value + here);
        AllMadeConcat(m.name, earlier.value, here, apis);
        MakerMade(m.name, w.member, texts.value, apis);
        var made := MapAll(texts.value, Maker(m.name, w.member, apis), |texts.value|);
        if before.Ok? && made.Ok? {
          MadeFromConcat(m.name, earlier.value, here, apis, before.value, made.value);
        }
      }
    }
  }

  /** The manifest_warnings unit test of a bare member name: it is reported
      as not implemented and marked `none`. */
  lemma BareWarningExample()
    ensures var m := Manifest("test", StatusPartial, [], [Bare("member")]);
            Collected(m, map["test" := m], 1) ==
            Ok([ReportWarning("member", Span(StatusNone, ChromePrefix + "test.member") + (": " + NotImplemented))])
  {
    var m := Manifest("test", StatusPartial, [], [Bare("member")]);
    var table := map["test" := m];
    var one := ReportWarning("member", Span(StatusNone, ChromePrefix + "test.member") + (": " + NotImplemented));
    assert MakeWarning("test", "member", NotImplemented, table) == Ok(one) by {
      assert MemberStatus(m, "member") == Ok(StatusNone) by {
        assert FirstWarningOf(m.warnings, "member", 0) == Some(0);
      }
      assert "test" + "." + "member" == "test.member";
      ExampleNames();
      ExampleWarning("test", "member", NotImplemented, table, StatusNone);
    }
    var texts := [NotImplemented];
    MapAllNext(texts, Maker("test", "member", table), 0, [], Ok(one));
    assert [] + [one] == [one];
    CollectedOne(m, table, texts, [one]);
  }

  /** The manifest_warnings unit test of a list of texts: one warning per
      text, in order, each marked with the member's own status. */
  lemma ListWarningExample()
    ensures var m := Manifest("test", StatusPartial, [],
                              [Structured("member", Some(StatusPartial), Some(Many(["warning A", "warning B"])))]);
            var marked := Span(StatusPartial, ChromePrefix + "test.member");
            Collected(m, map["test" := m], 1) ==
            Ok([ReportWarning("member", marked + ": warning A"), ReportWarning("member", marked + ": warning B")])
  {
    var texts := ["warning A", "warning B"];
    var m := Manifest("test", StatusPartial, [], [Structured("member", Some(StatusPartial), Some(Many(texts)))]);
    var table := map["test" := m];
    var marked := Span(StatusPartial, ChromePrefix + "test.member");
    var made := [ReportWarning("member", marked + ": warning A"), ReportWarning("member", marked + ": warning B")];
    ListWarningMade(m, texts);
    assert WarningTexts(m.warnings[0]) == Ok(texts);
    CollectedOne(m, table, texts, made);
  }

  /** The two warnings the list example makes, one per text. */
  lemma ListWarningMade(m: Manifest, texts: seq<string>)
    requires texts == ["warning A", "warning B"]
    requires m == Manifest("test", StatusPartial, [], [Structured("member", Some(StatusPartial), Some(Many(texts)))])
    ensures var marked := Span(StatusPartial, ChromePrefix + "test.member");
            MapAll(texts, Maker("test", "member", map["test" := m]), 2) ==
            Ok([ReportWarning("member", marked + ": warning A"), ReportWarning("member", marked + ": warning B")])
  {
    var marked := Span(StatusPartial, ChromePrefix + "test.member");
    assert ": " + "warning A" == ": warning A" && ": " + "warning B" == ": warning B";
    TestMemberWarning(m, texts[0]);
    TestMemberWarning(m, texts[1]);
    MapAllTwo(texts, Maker("test", "member", map["test" := m]),
              ReportWarning("member", marked + ": warning A"), ReportWarning("member", marked + ": warning B"));
  }

  /** A text without `c` about `test.member`, whose own warning is `partial`. */
  lemma TestMemberWarning(m: Manifest, text: string)
    requires m.name == "test" && |m.warnings| == 1 && m.warnings[0].Structured?
    requires m.warnings[0].member == "member" && m.warnings[0].status == Some(StatusPartial)
    requires 'c' !in text
    ensures MakeWarning("test", "member", text, map["test" := m]) ==
            Ok(ReportWarning("member", Span(StatusPartial, ChromePrefix + "test.member") + (": " + text)))
  {
    assert MemberStatus(m, "member") == Ok(StatusPartial) by {
      assert FirstWarningOf(m.warnings, "member", 0) == Some(0);
    }
    ExampleNames();
    assert "test" + "." + "member" == "test.member";
    ExampleWarning("test", "member", text, map["test" := m], StatusPartial);
  }

  /** A loop over two elements that both succeed. */
  lemma MapAllTwo<T, U>(xs: seq<T>, f: T -> Result<U>, a: U, b: U)
    requires |xs| == 2 && f(xs[0]) == Ok(a) && f(xs[1]) == Ok(b)
    ensures MapAll(xs, f, 2) == Ok([a, b])
  {
    assert MapAll(xs, f, 1) == Ok([] + [a]);
    assert [] + [a] == [a] && [a] + [b] == [a, b];
  }

  /** The warnings of a manifest with a single warning are those of its texts. */
  lemma CollectedOne(m: Manifest, apis: ApiTable, texts: seq<string>, made: seq<ReportWarning>)
    requires |m.warnings| == 1 && WarningTexts(m.warnings[0]) == Ok(texts)
    requires MapAll(texts, Maker(m.name, m.warnings[0].member, apis), |texts|) == Ok(made)
    ensures Collected(m, apis, 1) == Ok(made)
  {
    assert Collected(m, apis, 1) == Ok([] + made);
    assert [] + made == made;
  }

  // ---------------------------------------------------------------------------
  // Marking a line keeps it one line.

  /** No status the table can give holds a line break. */
  predicate StatusesNewlineFree(apis: ApiTable) {
    forall a :: a in apis ==> ManifestNewlineFree(apis[a])
  }

  predicate ManifestNewlineFree(m: Manifest) {
    '\n' !in m.status &&
    forall i :: 0 <= i < |m.warnings| ==> DecisionNewlineFree(m.warnings[i])
  }

  predicate DecisionNewlineFree(w: Warning) {
    Decision(w).Ok? ==> '\n' !in Decision(w).value
  }

  lemma ReferenceStatusNewlineFree(g: string, apis: ApiTable)
    requires IsDottedName(g) && StatusesNewlineFree(apis)
    ensures ReferenceStatus(g, apis).Ok? ==> '\n' !in ReferenceStatus(g, apis).value
  {
    if !NamesApiAlone(g) {
      MemberSplitPoint(g);
      var e := ApiNameEnd(g, 0);
      if g[..e] in apis {
        ReferenceOfMember(g, e, apis);
        MemberStatusNewlineFree(apis[g[..e]], g[e + 1..]);
      }
    }
  }

  lemma MemberStatusNewlineFree(m: Manifest, member: string)
    requires ManifestNewlineFree(m)
    ensures MemberStatus(m, member).Ok? ==> '\n' !in MemberStatus(m, member).value
  {
    MemberStatusSource(m, member);
    if MemberStatus(m, member) != Ok(m.status) {
      var i :| 0 <= i < |m.warnings| && Ancestor(m.warnings[i].member, member) &&
               MemberStatus(m, member) == Decision(m.warnings[i]);
      assert DecisionNewlineFree(m.warnings[i]);
    }
  }

  lemma {:induction false} PieceTextsNewlineFree(ps: seq<Piece>)
    requires '\n' !in Original(ps)
    ensures forall k :: 0 <= k < |ps| ==> '\n' !in PieceText(ps[k])
  {
    if ps != [] {
      PieceTextsNewlineFree(ps[1..]);
      assert forall k :: 1 <= k < |ps| ==> ps[k] == ps[1..][k - 1];
    }
  }

  lemma {:induction false} RenderNewlineFree(ps: seq<Piece>, apis: ApiTable)
    requires WellFormed(ps) && StatusesNewlineFree(apis)
    requires forall k :: 0 <= k < |ps| ==> '\n' !in PieceText(ps[k])
    ensures Render(ps, apis).Ok? ==> '\n' !in Render(ps, apis).value
  {
    if ps != [] {
      var tail := ps[1..];
      assert WellFormed(tail) by {
        forall k | 0 <= k < |tail| && tail[k].Reference? ensures IsDottedName(tail[k].name) {
          assert tail[k] == ps[k + 1];
        }
      }
      assert forall k :: 0 <= k < |tail| ==> tail[k] == ps[k + 1];
      RenderNewlineFree(tail, apis);
      if ps[0].Reference? {
        ReferenceStatusNewlineFree(ps[0].name, apis);
      }
    }
  }

  /** Marking the references of a line break-free line gives a line
      break-free line, as long as no status holds a line break. */
  lemma FormatHtmlNewlineFree(s: string, apis: ApiTable)
    requires '\n' !in s && StatusesNewlineFree(apis)
    ensures FormatHtml(s, apis).Ok? ==> '\n' !in FormatHtml(s, apis).value
  {
    var ps := Pieces(s, 0);
    PiecesOriginal(s, 0);
    assert s[0..] == s;
    PieceTextsNewlineFree(ps);
    RenderNewlineFree(ps, apis);
  }

  // ---------------------------------------------------------------------------
  // cgi.escape and highlight_relevant_line.

  function EscapeChar(c: char): string {
    if c == '&' then "&amp;" else if c == '<' then "&lt;" else if c == '>' then "&gt;" else [c]
  }

  /** `cgi.escape` (without `quote`): `&`, `<` and `>` as entities. */
  function EscapeHtml(s: string): (r: string)
    ensures |r| >= |s|
  {
    if s == [] then [] else EscapeChar(s[0]) + EscapeHtml(s[1..])
  }

  /** The escaped text holds no markup. */
  lemma {:induction false} EscapeHtmlNoMarkup(s: string)
    ensures '<' !in EscapeHtml(s) && '>' !in EscapeHtml(s)
  {
    if s != [] {
      EscapeHtmlNoMarkup(s[1..]);
      assert '<' !in EscapeChar(s[0]) && '>' !in EscapeChar(s[0]);
    }
  }

  /** Escaping keeps the line structure: it neither adds nor removes line breaks. */
  lemma {:induction false} EscapeKeepsLines(s: string)
    ensures Count(EscapeHtml(s), '\n') == Count(s, '\n')
  {
    if s != [] {
      EscapeKeepsLines(s[1..]);
      CountConcat(EscapeChar(s[0]), EscapeHtml(s[1..]), '\n');
      EscapeCharLines(s[0]);
    }
  }

  lemma EscapeCharLines(c: char)
    ensures Count(EscapeChar(c), '\n') == if c == '\n' then 1 else 0
  {
    var e := EscapeChar(c);
    if c == '\n' {
      assert e[1..] == [];
    } else {
      CountZero(e, '\n');
    }
  }

  /** The entities of `EscapeHtml` read back as characters. */
  function UnescapeHtml(s: string): string
    decreases |s|
  {
    if s == [] then []
    else if StartsWith(s, "&amp;") then "&" + UnescapeHtml(s[5..])
    else if StartsWith(s, "&lt;") then "<" + UnescapeHtml(s[4..])
    else if StartsWith(s, "&gt;") then ">" + UnescapeHtml(s[4..])
    else [s[0]] + UnescapeHtml(s[1..])
  }

  /** Escaping loses nothing: the original text can be read back. */
  lemma {:induction false} UnescapeEscape(s: string)
    ensures UnescapeHtml(EscapeHtml(s)) == s
  {
    if s != [] {
      UnescapeEscape(s[1..]);
      UnescapeChar(s[0], EscapeHtml(s[1..]));
      assert s == [s[0]] + s[1..];
    }
  }

  lemma UnescapeChar(c: char, rest: string)
    ensures UnescapeHtml(EscapeChar(c) + rest) == [c] + UnescapeHtml(rest)
  {
    if c == '&' {
      UnescapeAmp(rest);
    } else if c == '<' {
      UnescapeLt(rest);
    } else if c == '>' {
      UnescapeGt(rest);
    } else {
      UnescapePlain(c, rest);
    }
  }

  lemma UnescapePlain(c: char, rest: string)
    requires c != '&'
    ensures UnescapeHtml([c] + rest) == [c] + UnescapeHtml(rest)
  {
    var t := [c] + rest;
    assert t[0] == c && t[1..] == rest;
  }

  lemma UnescapeAmp(rest: string)
    ensures UnescapeHtml("&amp;" + rest) == "&" + UnescapeHtml(rest)
  {
    var t := "&amp;" + rest;
    assert t[..5] == "&amp;" && t[5..] == rest;
  }

  lemma UnescapeLt(rest: string)
    ensures UnescapeHtml("&lt;" + rest) == "<" + UnescapeHtml(rest)
  {
    var t := "&lt;" + rest;
    assert !StartsWith(t, "&amp;") by {
      assert |t| >= 5 ==> t[..5][1] == 'l';
    }
    assert t[..4] == "&lt;" && t[4..] == rest;
  }

  lemma UnescapeGt(rest: string)
    ensures UnescapeHtml("&gt;" + rest) == ">" + UnescapeHtml(rest)
  {
    var t := "&gt;" + rest;
    assert !StartsWith(t, "&amp;") by {
      assert |t| >= 5 ==> t[..5][1] == 'g';
    }
    assert !StartsWith(t, "&lt;") by {
      assert t[..4][1] == 'g';
    }
    assert t[..4] == "&gt;" && t[4..] == rest;
  }

  /** Python's `lines[relevant]`: a negative index counts from the end. */
  function LineAt(n: nat, relevant: int): (i: Option<nat>)
    ensures i.Some? <==> 0 <= n + relevant && relevant < n
    ensures i.Some? ==> i.value < n && (i.value == relevant || i.value == n + relevant)
  {
    if 0 <= relevant < n then Some(relevant)
    else if 0 <= n + relevant && relevant < 0 then Some(n + relevant)
    else Nothing
  }

  /** `highlight_relevant_line`: the relevant line of a usage context with its
      references marked, the other lines as they were. */
  function HighlightRelevantLine(context: string, relevant: int, apis: ApiTable): Result<string> {
    var lines := Split(context, '\n');
    match LineAt(|lines|, relevant)
    case Nothing => Err(IndexError)
    case Some(i) =>
      var marked :- FormatHtml(lines[i], apis);
      Ok(Join(lines[i := marked], "\n"))
  }

  /** The highlighted context has the same lines as the context, except the
      relevant one, which is that line with its references marked; it fails
      when the line is out of range or a reference cannot be resolved. */
  lemma HighlightChangesOneLine(context: string, relevant: int, apis: ApiTable)
    requires StatusesNewlineFree(apis)
    ensures var lines := Split(context, '\n');
            var r := HighlightRelevantLine(context, relevant, apis);
            match LineAt(|lines|, relevant)
            case Nothing => r == Err(IndexError)
            case Some(i) =>
              (r.Ok? <==> FormatHtml(lines[i], apis).Ok?) &&
              (r.Ok? ==> Split(r.value, '\n') == lines[i := FormatHtml(lines[i], apis).value])
  {
    var lines := Split(context, '\n');
    var at := LineAt(|lines|, relevant);
    if at.Some? {
      var i := at.value;
      var marked := FormatHtml(lines[i], apis);
      if marked.Ok? {
        assert '\n' !in marked.value by {
          SplitPartsSeparatorFree(context, '\n');
          FormatHtmlNewlineFree(lines[i], apis);
        }
        ReplacedLineSplits(context, i, marked.value);
      }
    }
  }

  /** Replacing one line by a text without line breaks keeps the others. */
  lemma ReplacedLineSplits(context: string, i: nat, line: string)
    requires i < |Split(context, '\n')| && '\n' !in line
    ensures Split(Join(Split(context, '\n')[i := line], "\n"), '\n') == Split(context, '\n')[i := line]
  {
    var parts := Split(context, '\n')[i := line];
    SplitPartsSeparatorFree(context, '\n');
    assert forall k :: 0 <= k < |parts| ==> '\n' !in parts[k];
    SplitJoin(parts, '\n');
  }

  /** A relevant line without references leaves the context as it was. */
  lemma HighlightWithoutReference(context: string, relevant: int, apis: ApiTable)
    requires var lines := Split(context, '\n');
             LineAt(|lines|, relevant).Some? && NoReference(lines[LineAt(|lines|, relevant).value])
    ensures HighlightRelevantLine(context, relevant, apis) == Ok(context)
  {
    var lines := Split(context, '\n');
    var i := LineAt(|lines|, relevant).value;
    FormatHtmlWithoutReference(lines[i], apis);
    assert lines[i := lines[i]] == lines;
    JoinSplit(context, '\n');
  }

  /** The unit test of an empty context. */
  lemma HighlightEmpty(apis: ApiTable)
    ensures HighlightRelevantLine("", 0, apis) == Ok("")
  {
    assert Split("", '\n') == [""];
    assert NoReference("");
    HighlightWithoutReference("", 0, apis);
  }

  // ---------------------------------------------------------------------------
  // process_usage.

  /** Python's order on `(filepath, linenum, context, context_linenum)`
      tuples: field by field, strings code point by code point. */
  predicate OccurrenceLeq(a: Occurrence, b: Occurrence) {
    Less(a.path, b.path) ||
    (a.path == b.path &&
     (a.line < b.line ||
      (a.line == b.line &&
       (Less(a.context, b.context) ||
        (a.context == b.context && a.contextStart <= b.contextStart)))))
  }

  /** The tuple order is total, transitive and antisymmetric, so sorting a
      list of occurrences has exactly one outcome. */
  lemma OccurrenceOrder()
    ensures TotalPreorder(OccurrenceLeq)
    ensures forall a, b :: OccurrenceLeq(a, b) && OccurrenceLeq(b, a) ==> a == b
  {
    forall a, b ensures OccurrenceLeq(a, b) || OccurrenceLeq(b, a) {
      LessTotal(a.path, b.path);
      LessTotal(a.context, b.context);
    }
    forall a, b, c | OccurrenceLeq(a, b) && OccurrenceLeq(b, c) ensures OccurrenceLeq(a, c) {
      OccurrenceTransitive(a, b, c);
    }
    forall a, b | OccurrenceLeq(a, b) && OccurrenceLeq(b, a) ensures a == b {
      if Less(a.path, b.path) {
        LessAsymmetric(a.path, b.path);
      } else if Less(b.path, a.path) {
        LessAsymmetric(b.path, a.path);
      } else if Less(a.context, b.context) {
        LessAsymmetric(a.context, b.context);
      } else if Less(b.context, a.context) {
        LessAsymmetric(b.context, a.context);
      }
    }
  }

  lemma OccurrenceTransitive(a: Occurrence, b: Occurrence, c: Occurrence)
    requires OccurrenceLeq(a, b) && OccurrenceLeq(b, c)
    ensures OccurrenceLeq(a, c)
  {
    if Less(a.path, b.path) && Less(b.path, c.path) {
      LessTransitive(a.path, b.path, c.path);
    } else if Less(a.context, b.context) && Less(b.context, c.context) {
      LessTransitive(a.context, b.context, c.context);
    }
  }

  /** One occurrence as the report shows it: the context escaped, then the
      line of the usage highlighted. */
  function ProcessOccurrence(o: Occurrence, apis: ApiTable): Result<Occurrence> {
    var highlighted :- HighlightRelevantLine(EscapeHtml(o.context), o.line - o.contextStart, apis);
    Ok(Occurrence(o.path, o.line, highlighted, o.contextStart))
  }

  /** Processing an occurrence fails only when its relevant line is out of
      range or a reference on it cannot be looked up. */
  lemma ProcessOccurrenceFails(o: Occurrence, apis: ApiTable)
    ensures ProcessOccurrence(o, apis).Err? ==>
      ProcessOccurrence(o, apis).error == IndexError || ProcessOccurrence(o, apis).error.KeyError?
  {
    var lines := Split(EscapeHtml(o.context), '\n');
    var at := LineAt(|lines|, o.line - o.contextStart);
    if at.Some? {
      FormatHtmlFails(lines[at.value], apis);
    }
  }

  /** `ProcessOccurrence` for the occurrences of one API. */
  function Processor(apis: ApiTable): Occurrence -> Result<Occurrence> {
    o => ProcessOccurrence(o, apis)
  }

  /** The occurrences of the listed members, member after member. */
  function MembersOccurrences(members: map<string, seq<Occurrence>>, keys: seq<string>): seq<Occurrence>
    requires forall k :: k in keys ==> k in members
  {
    if keys == [] then []
    else MembersOccurrences(members, keys[..|keys| - 1]) + members[keys[|keys| - 1]]
  }

  /** The usage list of one API: every occurrence of every member processed,
      then sorted by file, line, context and start. */
  function ApiUsage(members: map<string, seq<Occurrence>>, apis: ApiTable): (r: Result<seq<Occurrence>>)
    ensures r.Ok? ==> |r.value| == |MembersOccurrences(members, SortedSet(members.Keys))|
  {
    var all := MembersOccurrences(members, SortedSet(members.Keys));
    var processed :- MapAll(all, Processor(apis), |all|);
    Ok(SortBy(processed, OccurrenceLeq))
  }

  /** The loops of `process_usage` over the members of one API and their
      occurrences, and the sort. */
  method ProcessApiUsage(members: map<string, seq<Occurrence>>, apis: ApiTable) returns (r: Result<seq<Occurrence>>)
    ensures r == ApiUsage(members, apis)
  {
    var all := CollectOccurrences(members, SortedSet(members.Keys));
    var processed := ProcessOccurrences(all, apis);
    if processed.Err? {
      return Err(processed.error);
    }
    r := Ok(SortBy(processed.value, OccurrenceLeq));
  }

  /** The loop over the members: their occurrences, member after member. */
  method CollectOccurrences(members: map<string, seq<Occurrence>>, keys: seq<string>) returns (all: seq<Occurrence>)
    requires forall k :: k in keys ==> k in members
    ensures all == MembersOccurrences(members, keys)
  {
    all := [];
    for j := 0 to |keys|
      invariant all == MembersOccurrences(members, keys[..j])
    {
      assert keys[..j + 1][..j] == keys[..j];
      all := all + members[keys[j]];
    }
    assert keys[..|keys|] == keys;
  }

  /** The loop over the occurrences: each escaped and highlighted in turn. */
  method ProcessOccurrences(os: seq<Occurrence>, apis: ApiTable) returns (r: Result<seq<Occurrence>>)
    ensures r == MapAll(os, Processor(apis), |os|)
  {
    var processed: seq<Occurrence> := [];
    for k := 0 to |os|
      invariant MapAll(os, Processor(apis), k) == Ok(processed)
    {
      var one := ProcessOccurrence(os[k], apis);
      MapAllNext(os, Processor(apis), k, processed, one);
      if one.Err? {
        MapAllFailsFrom(os, Processor(apis), k + 1, |os|);
        return Err(one.error);
      }
      processed := processed + [one.value];
    }
    r := Ok(processed);
  }

  /** The usage list of the API `api`; an API the usage index does not hold
      fails the lookup. */
  function UsageList(usage: UsageIndex, apis: ApiTable, api: string): (r: Result<seq<Occurrence>>)
    ensures api !in usage ==> r == Err(KeyError(api))
    ensures r.Ok? ==> api in usage && |r.value| == |MembersOccurrences(usage[api], SortedSet(usage[api].Keys))|
  {
    if api in usage then ApiUsage(usage[api], apis) else Err(KeyError(api))
  }

  /** The usage list of one API, or the failed lookup. */
  method ProcessApiList(usage: UsageIndex, apis: ApiTable, api: string) returns (list: Result<seq<Occurrence>>)
    ensures list == UsageList(usage, apis, api)
  {
    if api !in usage {
      list := Err(KeyError(api));
    } else {
      list := ProcessApiUsage(usage[api], apis);
    }
  }

  /** `UsageList` for the APIs of the table. */
  function UsageListOf(usage: UsageIndex, apis: ApiTable): string -> Result<seq<Occurrence>> {
    api => UsageList(usage, apis, api)
  }

  /** A loop that stores what `f` gives each of the first `count` names,
      keyed by name, and lets the first exception propagate. */
  function Gather<V>(names: seq<string>, f: string -> Result<V>, count: nat): Result<map<string, V>>
    requires count <= |names|
  {
    if count == 0 then Ok(map[])
    else
      var earlier :- Gather(names, f, count - 1);
      var v :- f(names[count - 1]);
      Ok(earlier[names[count - 1] := v])
  }

  /** The loop of `process_usage` over the first `count` API names: each
      usage list stored under its API, the first exception propagated. */
  function UsageLists(usage: UsageIndex, apis: ApiTable, names: seq<string>, count: nat): (r: Result<map<string, seq<Occurrence>>>)
    requires count <= |names|
    ensures r.Ok? && count > 0 ==> names[count - 1] in r.value
  {
    if count == 0 then Ok(map[])
    else
      var earlier :- UsageLists(usage, apis, names, count - 1);
      var list :- UsageList(usage, apis, names[count - 1]);
      Ok(earlier[names[count - 1] := list])
  }

  /** Once an API has failed, the APIs after it change nothing. */
  lemma {:induction false} UsageListsFailFrom(usage: UsageIndex, apis: ApiTable, names: seq<string>, i: nat, count: nat)
    requires i <= count <= |names|
    requires UsageLists(usage, apis, names, i).Err?
    ensures UsageLists(usage, apis, names, count) == UsageLists(usage, apis, names, i)
    decreases count
  {
    if count > i {
      UsageListsFailFrom(usage, apis, names, i, count - 1);
    }
  }

  /** `UsageLists` is `Gather` with `UsageList` for each name. */
  lemma {:induction false} UsageListsGather(usage: UsageIndex, apis: ApiTable, names: seq<string>, count: nat)
    requires count <= |names|
    ensures UsageLists(usage, apis, names, count) == Gather(names, UsageListOf(usage, apis), count)
  {
    if count > 0 {
      UsageListsGather(usage, apis, names, count - 1);
      assert UsageListOf(usage, apis)(names[count - 1]) == UsageList(usage, apis, names[count - 1]);
    }
  }

  /** `process_usage`: the usage list of every API of the table. The lists
      are returned keyed by API rather than stored into the manifests. */
  method ProcessUsage(apis: ApiTable, usage: UsageIndex) returns (r: Result<map<string, seq<Occurrence>>>)
    ensures r == UsageLists(usage, apis, SortedSet(apis.Keys), |apis.Keys|)
  {
    var names := SortedSet(apis.Keys);
    var lists: map<string, seq<Occurrence>> := map[];
    for i := 0 to |names|
      invariant UsageLists(usage, apis, names, i) == Ok(lists)
    {
      var next := StoreUsageList(usage, apis, names, i, lists);
      if next.Err? {
        UsageListsFailFrom(usage, apis, names, i + 1, |names|);
        return next;
      }
      lists := next.value;
    }
    r := Ok(lists);
  }

  /** One iteration of `process_usage`: the usage list of the next API stored
      under its name, or the exception it raised. */
  method StoreUsageList(usage: UsageIndex, apis: ApiTable, names: seq<string>, i: nat, lists: map<string, seq<Occurrence>>)
    returns (r: Result<map<string, seq<Occurrence>>>)
    requires i < |names| && UsageLists(usage, apis, names, i) == Ok(lists)
    ensures r == UsageLists(usage, apis, names, i + 1)
  {
    var list := ProcessApiList(usage, apis, names[i]);
    if list.Err? {
      return Err(list.error);
    }
    r := Ok(lists[names[i] := list.value]);
  }

  /** A processed occurrence stays where it was: same file, line and start;
      only its context is rewritten. */
  lemma ProcessKeepsPlace(o: Occurrence, apis: ApiTable)
    ensures ProcessOccurrence(o, apis).Ok? ==>
            var p := ProcessOccurrence(o, apis).value;
            p.path == o.path && p.line == o.line && p.contextStart == o.contextStart
  {
  }

  /** An occurrence is listed for the members exactly when one of them holds it. */
  lemma {:induction false} MembersOccurrencesHold(members: map<string, seq<Occurrence>>, keys: seq<string>, o: Occurrence)
    requires forall k :: k in keys ==> k in members
    ensures o in MembersOccurrences(members, keys) <==> exists k :: k in keys && o in members[k]
  {
    if keys != [] {
      var init := keys[..|keys| - 1];
      var last := keys[|keys| - 1];
      MembersOccurrencesHold(members, init, o);
      assert forall k :: k in keys <==> k in init || k == last by {
        assert keys == init + [last];
      }
    }
  }

  /** The usage list of an API is sorted, is a permutation of the processed
      occurrences of its members, and each entry comes from one of them. */
  lemma ApiUsageSortedPermutation(members: map<string, seq<Occurrence>>, apis: ApiTable)
    ensures var all := MembersOccurrences(members, SortedSet(members.Keys));
            var r := ApiUsage(members, apis);
            (r.Ok? <==> MapAll(all, Processor(apis), |all|).Ok?) &&
            (r.Ok? ==>
              SortedBy(r.value, OccurrenceLeq) &&
              multiset(r.value) == multiset(MapAll(all, Processor(apis), |all|).value) &&
              forall x :: x in r.value ==>
                exists m, o :: m in members && o in members[m] && ProcessOccurrence(o, apis) == Ok(x))
  {
    var keys := SortedSet(members.Keys);
    var all := MembersOccurrences(members, keys);
    var processed := MapAll(all, Processor(apis), |all|);
    if processed.Ok? {
      var r := SortBy(processed.value, OccurrenceLeq);
      assert ApiUsage(members, apis) == Ok(r);
      OccurrenceOrder();
      SortBySorted(processed.value, OccurrenceLeq);
      ProcessedFromMembers(members, keys, apis, processed.value);
      forall x | x in r ensures x in processed.value {
        assert x in multiset(r);
      }
    }
  }

  /** Each processed occurrence comes from an occurrence of one of the members. */
  lemma ProcessedFromMembers(members: map<string, seq<Occurrence>>, keys: seq<string>, apis: ApiTable,
                             processed: seq<Occurrence>)
    requires forall k :: k in keys ==> k in members
    requires var all := MembersOccurrences(members, keys);
             MapAll(all, Processor(apis), |all|) == Ok(processed)
    ensures forall x :: x in processed ==>
              exists m, o :: m in members && o in members[m] && ProcessOccurrence(o, apis) == Ok(x)
  {
    var all := MembersOccurrences(members, keys);
    MapAllEach(all, Processor(apis), |all|);
    forall x | x in processed
      ensures exists m, o :: m in members && o in members[m] && ProcessOccurrence(o, apis) == Ok(x)
    {
      var k :| 0 <= k < |processed| && processed[k] == x;
      assert Processor(apis)(all[k]) == Ok(x);
      MembersOccurrencesHold(members, keys, all[k]);
      var m :| m in keys && all[k] in members[m];
    }
  }

  /** Sorting leaves no choice: any sorted arrangement of the processed
      occurrences is the usage list, whatever order they were visited in. */
  lemma ApiUsageUnique(members: map<string, seq<Occurrence>>, apis: ApiTable, other: seq<Occurrence>)
    requires ApiUsage(members, apis).Ok?
    requires var all := MembersOccurrences(members, SortedSet(members.Keys));
             SortedBy(other, OccurrenceLeq) && multiset(other) == multiset(MapAll(all, Processor(apis), |all|).value)
    ensures other == ApiUsage(members, apis).value
  {
    ApiUsageSortedPermutation(members, apis);
    OccurrenceOrder();
    SortedUnique(other, ApiUsage(members, apis).value, OccurrenceLeq);
  }

  /** Gathering succeeds exactly when every name's value can be had; it
      then maps each of those names to its value and nothing else. */
  lemma {:induction false} GatherCover<V>(names: seq<string>, f: string -> Result<V>, count: nat)
    requires count <= |names|
    ensures var r := Gather(names, f, count);
            (r.Ok? <==> forall i :: 0 <= i < count ==> f(names[i]).Ok?) &&
            (r.Ok? ==> r.value.Keys == (set i | 0 <= i < count :: names[i]) &&
                       forall a :: a in r.value ==> f(a) == Ok(r.value[a]))
  {
    if count > 0 {
      GatherCover(names, f, count - 1);
      var r := Gather(names, f, count);
      if r.Ok? {
        var before := set i | 0 <= i < count - 1 :: names[i];
        var now := set i | 0 <= i < count :: names[i];
        assert now == before + {names[count - 1]} by {
          forall a | a in now ensures a in before + {names[count - 1]} {
            var i :| 0 <= i < count && names[i] == a;
            if i < count - 1 {
              assert a in before;
            }
          }
        }
      }
    }
  }

  /** `process_usage` succeeds exactly when every API of the table has a
      usage list; it then gives each API of the table its usage list and
      nothing else. */
  lemma ProcessUsageCovers(apis: ApiTable, usage: UsageIndex)
    ensures var r := UsageLists(usage, apis, SortedSet(apis.Keys), |apis.Keys|);
            (r.Ok? <==> forall a :: a in apis ==> UsageList(usage, apis, a).Ok?) &&
            (r.Ok? ==> r.value.Keys == apis.Keys && forall a :: a in r.value ==> UsageList(usage, apis, a) == Ok(r.value[a]))
  {
    UsageListsGather(usage, apis, SortedSet(apis.Keys), |apis.Keys|);
    GatherSorted(apis.Keys, UsageListOf(usage, apis));
  }

  /** Gathering over the sorted names of a set succeeds exactly when `f`
      succeeds on every name, and then maps each name of the set to its value. */
  lemma GatherSorted<V>(s: set<string>, f: string -> Result<V>)
    ensures var r := Gather(SortedSet(s), f, |s|);
            (r.Ok? <==> forall a :: a in s ==> f(a).Ok?) &&
            (r.Ok? ==> r.value.Keys == s && forall a :: a in r.value ==> f(a) == Ok(r.value[a]))
  {
    var names := SortedSet(s);
    GatherCover(names, f, |names|);
    SortedSetIndices(s);
  }

  // ---------------------------------------------------------------------------
  // The sections of the report: which APIs each lists, and the split of
  // warnings into relevant and other ones.

  /** The APIs the polyfill implements at least in part. */
  function Polyfilled(apis: ApiTable): (r: ApiTable)
    ensures r.Keys <= apis.Keys && forall a :: a in r ==> r[a] == apis[a]
  {
    map a | a in apis && apis[a].status != StatusNone :: apis[a]
  }

  /** The APIs the polyfill does not implement. */
  function NotPolyfilled(apis: ApiTable): (r: ApiTable)
    ensures r.Keys <= apis.Keys && forall a :: a in r ==> r[a] == apis[a]
  {
    map a | a in apis && apis[a].status == StatusNone :: apis[a]
  }

  /** Every API of the table is listed in exactly one of the two sections,
      with its own manifest. */
  lemma SectionsPartition(apis: ApiTable)
    ensures Polyfilled(apis).Keys !! NotPolyfilled(apis).Keys
    ensures Polyfilled(apis).Keys + NotPolyfilled(apis).Keys == apis.Keys
    ensures forall a :: a in Polyfilled(apis) ==> Polyfilled(apis)[a] == apis[a] && apis[a].status != StatusNone
    ensures forall a :: a in NotPolyfilled(apis) ==> NotPolyfilled(apis)[a] == apis[a] && apis[a].status == StatusNone
  {
  }

  /** A warning is relevant when some used member starts with its member. */
  predicate IsRelevant(w: ReportWarning, used: set<string>) {
    exists u :: u in used && StartsWith(u, w.member)
  }

  /** The texts of the relevant warnings among the first `count`, in order. */
  function RelevantTexts(ws: seq<ReportWarning>, used: set<string>, count: nat): (r: seq<string>)
    requires count <= |ws|
    ensures |r| <= count
  {
    if count == 0 then []
    else RelevantTexts(ws, used, count - 1) + (if IsRelevant(ws[count - 1], used) then [ws[count - 1].text] else [])
  }

  /** The texts of the other warnings among the first `count`, in order. */
  function OtherTexts(ws: seq<ReportWarning>, used: set<string>, count: nat): (r: seq<string>)
    requires count <= |ws|
    ensures |r| <= count
  {
    if count == 0 then []
    else OtherTexts(ws, used, count - 1) + (if IsRelevant(ws[count - 1], used) then [] else [ws[count - 1].text])
  }

  /** The loop of `generate_polyfilled` over the warnings of one API: each
      warning goes to the relevant list at the first used member that starts
      with its member, and to the other list when none does. */
  method SplitWarnings(ws: seq<ReportWarning>, used: set<string>) returns (relevant: seq<string>, other: seq<string>)
    ensures relevant == RelevantTexts(ws, used, |ws|)
    ensures other == OtherTexts(ws, used, |ws|)
  {
    relevant, other := [], [];
    for i := 0 to |ws|
      invariant relevant == RelevantTexts(ws, used, i)
      invariant other == OtherTexts(ws, used, i)
    {
      var w := ws[i];
      var unseen := used;
      var found := false;
      while unseen != {} && !found
        invariant unseen <= used
        invariant found <==> exists u :: u in used - unseen && StartsWith(u, w.member)
        decreases unseen
      {
        var u :| u in unseen;
        if StartsWith(u, w.member) {
          found := true;
        }
        unseen := unseen - {u};
      }
      if found {
        relevant := relevant + [w.text];
      } else {
        other := other + [w.text];
      }
    }
  }

  /** The texts of the first `count` warnings, in order. */
  function Texts(ws: seq<ReportWarning>, count: nat): (r: seq<string>)
    requires count <= |ws|
    ensures |r| == count
  {
    if count == 0 then [] else Texts(ws, count - 1) + [ws[count - 1].text]
  }

  /** Every warning's text lands in exactly one of the two lists. */
  lemma SplitPartition(ws: seq<ReportWarning>, used: set<string>, count: nat)
    requires count <= |ws|
    ensures |RelevantTexts(ws, used, count)| + |OtherTexts(ws, used, count)| == count
    ensures multiset(RelevantTexts(ws, used, count)) + multiset(OtherTexts(ws, used, count)) ==
            multiset(Texts(ws, count))
  {
    SplitTexts(ws, used, count);
    assert |multiset(RelevantTexts(ws, used, count))| + |multiset(OtherTexts(ws, used, count))| ==
           |multiset(Texts(ws, count))|;
  }

  /** The relevant and the other texts together are the texts of the warnings. */
  lemma {:induction false} SplitTexts(ws: seq<ReportWarning>, used: set<string>, count: nat)
    requires count <= |ws|
    ensures multiset(RelevantTexts(ws, used, count)) + multiset(OtherTexts(ws, used, count)) ==
            multiset(Texts(ws, count))
  {
    if count > 0 {
      SplitTexts(ws, used, count - 1);
      SplitStep(ws, used, count - 1);
    }
  }

  /** One warning more: its text goes to exactly one of the two lists. */
  lemma SplitStep(ws: seq<ReportWarning>, used: set<string>, k: nat)
    requires k < |ws|
    requires multiset(RelevantTexts(ws, used, k)) + multiset(OtherTexts(ws, used, k)) == multiset(Texts(ws, k))
    ensures multiset(RelevantTexts(ws, used, k + 1)) + multiset(OtherTexts(ws, used, k + 1)) == multiset(Texts(ws, k + 1))
  {
    var t := ws[k].text;
    var r := RelevantTexts(ws, used, k);
    var o := OtherTexts(ws, used, k);
    assert Texts(ws, k + 1) == Texts(ws, k) + [t];
    if IsRelevant(ws[k], used) {
      assert RelevantTexts(ws, used, k + 1) == r + [t];
      assert OtherTexts(ws, used, k + 1) == o;
      AppendKeepsSplit(r, o, Texts(ws, k), t);
    } else {
      assert RelevantTexts(ws, used, k + 1) == r;
      assert OtherTexts(ws, used, k + 1) == o + [t];
      AppendKeepsSplit(o, r, Texts(ws, k), t);
    }
  }

  /** A warning on a member the app uses is relevant, and so is a warning on
      any member that is a prefix of a used one. */
  lemma UsedMemberIsRelevant(w: ReportWarning, used: set<string>)
    requires w.member in used
    ensures IsRelevant(w, used)
  {
    assert StartsWith(w.member, w.member);
  }

  /** The prefix test matches more than members and their parents: a warning
      on `get` is taken as relevant to a use of `getAll`. */
  lemma RelevanceOverApproximates()
    ensures IsRelevant(ReportWarning("get", ""), {"getAll"})
  {
    assert StartsWith("getAll", "get");
  }
}

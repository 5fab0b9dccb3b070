/** The parts of Python's string and list built-ins the modelled code relies on:
    the `\w` character class of the `re` module, `str.lower`, `str.split`,
    `str.join`, `startswith`/`endswith`, string comparison, `sorted` and
    `posixpath.join`. */
module Text {

  /** `\w` of a Python 2 pattern compiled without `re.UNICODE`: ASCII letters,
      digits and the underscore. */
  predicate IsWordChar(c: char) {
    ('a' <= c <= 'z') || ('A' <= c <= 'Z') || ('0' <= c <= '9') || c == '_'
  }

  /** One or more word characters, what `\w+` matches in full. */
  predicate IsWord(s: string) {
    |s| > 0 && forall i :: 0 <= i < |s| ==> IsWordChar(s[i])
  }

  predicate IsUpperAscii(c: char) {
    'A' <= c <= 'Z'
  }

  function LowerChar(c: char): (r: char)
    ensures !IsUpperAscii(r)
    ensures IsUpperAscii(c) || r == c
  {
    if IsUpperAscii(c) then (c as int + 32) as char else c
  }

  /** `str.lower` restricted to ASCII letters. */
  function Lower(s: string): (r: string)
    ensures |r| == |s|
  {
    if s == [] then [] else [LowerChar(s[0])] + Lower(s[1..])
  }

  /** `str.lower` works character by character. */
  lemma {:induction false} LowerChars(s: string)
    ensures |Lower(s)| == |s|
    ensures forall i :: 0 <= i < |s| ==> Lower(s)[i] == LowerChar(s[i])
  {
    if s != [] {
      LowerChars(s[1..]);
    }
  }

  predicate StartsWith(s: string, prefix: string) {
    |prefix| <= |s| && s[..|prefix|] == prefix
  }

  predicate EndsWith(s: string, suffix: string) {
    |suffix| <= |s| && s[|s| - |suffix|..] == suffix
  }

  /** A slice of a slice is a slice. */
  lemma SliceOfSlice<T>(s: seq<T>, i: nat, j: nat, a: nat, b: nat)
    requires i <= j <= |s| && a <= b <= j - i
    ensures s[i..j][a..b] == s[i + a..i + b]
  {
    var x := s[i..j][a..b];
    var y := s[i + a..i + b];
    forall k | 0 <= k < b - a ensures x[k] == y[k] {
      assert x[k] == s[i..j][a + k];
    }
  }

  /** Adjacent slices join up. */
  lemma SliceJoin<T>(s: seq<T>, i: nat, j: nat, k: nat)
    requires i <= j <= k <= |s|
    ensures s[i..j] + s[j..k] == s[i..k]
  {
    var x := s[i..j] + s[j..k];
    var y := s[i..k];
    forall n | 0 <= n < k - i ensures x[n] == y[n] {
      if n < j - i {
        assert x[n] == s[i..j][n];
      } else {
        assert x[n] == s[j..k][n - (j - i)];
      }
    }
  }

  /** Index of the first occurrence of `c` in `s`. */
  function IndexOf(s: string, c: char): (k: nat)
    requires c in s
    ensures k < |s| && s[k] == c && c !in s[..k]
  {
    if s[0] == c then 0 else 1 + IndexOf(s[1..], c)
  }

  lemma {:induction false} IndexOfUnique(s: string, c: char, k: nat)
    requires k < |s| && s[k] == c && c !in s[..k]
    ensures IndexOf(s, c) == k
  {
    if k > 0 {
      assert s[..k][0] == s[0];
      assert s[1..][..k - 1] == s[..k][1..];
      IndexOfUnique(s[1..], c, k - 1);
    }
  }

  /** Index of the last occurrence of `c` in `s`. */
  function LastIndexOf(s: string, c: char): (k: nat)
    requires c in s
    ensures k < |s| && s[k] == c && c !in s[k + 1..]
  {
    if s[|s| - 1] == c then |s| - 1 else LastIndexOf(s[..|s| - 1], c)
  }

  /** Number of occurrences of `c` in `s`, as `str.count`. */
  function Count(s: string, c: char): nat {
    if s == [] then 0 else (if s[0] == c then 1 else 0) + Count(s[1..], c)
  }

  /** A character occurs nowhere exactly when it is counted zero times. */
  lemma {:induction false} CountZero(s: string, c: char)
    ensures Count(s, c) == 0 <==> c !in s
  {
    if s != [] {
      CountZero(s[1..], c);
      assert s == [s[0]] + s[1..];
    }
  }

  lemma {:induction false} CountConcat(a: string, b: string, c: char)
    ensures Count(a + b, c) == Count(a, c) + Count(b, c)
  {
    if a != [] {
      assert (a + b)[1..] == a[1..] + b;
      CountConcat(a[1..], b, c);
    } else {
      assert a + b == b;
    }
  }

  lemma CountSplit(s: string, i: nat, c: char)
    requires i <= |s|
    ensures Count(s, c) == Count(s[..i], c) + Count(s[i..], c)
  {
    assert s == s[..i] + s[i..];
    CountConcat(s[..i], s[i..], c);
  }

  /** `s.split(sep)` for a one-character separator. */
  function Split(s: string, sep: char): (r: seq<string>)
    ensures |r| >= 1
    decreases |s|
  {
    if sep !in s then [s]
    else
      var k := IndexOf(s, sep);
      [s[..k]] + Split(s[k + 1..], sep)
  }

  /** No part of a split holds the separator. */
  lemma {:induction false} SplitPartsSeparatorFree(s: string, sep: char)
    ensures forall i :: 0 <= i < |Split(s, sep)| ==> sep !in Split(s, sep)[i]
    decreases |s|
  {
    if sep in s {
      var k := IndexOf(s, sep);
      SplitPartsSeparatorFree(s[k + 1..], sep);
      var rest := Split(s[k + 1..], sep);
      assert Split(s, sep) == [s[..k]] + rest;
    }
  }

  /** `sep.join(parts)`. */
  function Join(parts: seq<string>, sep: string): string {
    if |parts| == 0 then ""
    else if |parts| == 1 then parts[0]
    else parts[0] + sep + Join(parts[1..], sep)
  }

  /** `''.join(parts)`. */
  function Concat(parts: seq<string>): string {
    if parts == [] then "" else parts[0] + Concat(parts[1..])
  }

  lemma {:induction false} JoinSplit(s: string, sep: char)
    ensures Join(Split(s, sep), [sep]) == s
    decreases |s|
  {
    if sep in s {
      var k := IndexOf(s, sep);
      var tail := s[k + 1..];
      var rest := Split(tail, sep);
      JoinSplit(tail, sep);
      var parts := [s[..k]] + rest;
      assert Split(s, sep) == parts;
      assert parts[1..] == rest;
      assert Join(parts, [sep]) == s[..k] + [sep] + Join(rest, [sep]);
      SliceAround(s, k);
    }
  }

  /** A sequence is the part before an index, the element there and the part after. */
  lemma SliceAround<T>(s: seq<T>, k: nat)
    requires k < |s|
    ensures s == s[..k] + [s[k]] + s[k + 1..]
  {
  }

  /** Splitting a joined list gives the list back when no part holds the separator. */
  lemma {:induction false} SplitJoin(parts: seq<string>, sep: char)
    requires |parts| >= 1
    requires forall i :: 0 <= i < |parts| ==> sep !in parts[i]
    ensures Split(Join(parts, [sep]), sep) == parts
  {
    if |parts| > 1 {
      var s := Join(parts, [sep]);
      var rest := Join(parts[1..], [sep]);
      assert s == parts[0] + [sep] + rest;
      assert s[|parts[0]|] == sep;
      assert s[..|parts[0]|] == parts[0];
      assert sep in s;
      assert s[..|parts[0]|] == parts[0];
      IndexOfUnique(s, sep, |parts[0]|);
      var k := IndexOf(s, sep);
      assert s[k + 1..] == rest;
      SplitJoin(parts[1..], sep);
    }
  }

  // ---------------------------------------------------------------------------
  // Ordering: Python compares unicode strings code point by code point.

  /** `a < b` on Python strings. */
  predicate Less(a: string, b: string)
    ensures Less(a, b) ==> b != []
  {
    if a == [] then b != []
    else if b == [] then false
    else if a[0] != b[0] then a[0] < b[0]
    else Less(a[1..], b[1..])
  }

  predicate LessEq(a: string, b: string) {
    a == b || Less(a, b)
  }

  lemma {:induction false} LessIrreflexive(a: string)
    ensures !Less(a, a)
  {
    if a != [] {
      LessIrreflexive(a[1..]);
    }
  }

  lemma {:induction false} LessTransitive(a: string, b: string, c: string)
    requires Less(a, b) && Less(b, c)
    ensures Less(a, c)
  {
    if a != [] && b != [] && c != [] && a[0] == b[0] == c[0] {
      LessTransitive(a[1..], b[1..], c[1..]);
    }
  }

  lemma {:induction false} LessTotal(a: string, b: string)
    ensures a == b || Less(a, b) || Less(b, a)
  {
    if a != [] && b != [] && a[0] == b[0] {
      LessTotal(a[1..], b[1..]);
      if a[1..] == b[1..] {
        assert a == [a[0]] + a[1..] && b == [b[0]] + b[1..];
      }
    }
  }

  lemma LessAsymmetric(a: string, b: string)
    requires Less(a, b)
    ensures !Less(b, a)
  {
    if Less(b, a) {
      LessTransitive(a, b, a);
      LessIrreflexive(a);
    }
  }

  /** Strictly increasing, hence also free of duplicates. */
  predicate StrictlySorted(xs: seq<string>) {
    forall i, j :: 0 <= i < j < |xs| ==> Less(xs[i], xs[j])
  }

  predicate IsMinimum(m: string, s: set<string>) {
    m in s && forall x {:trigger LessEq(m, x)} :: x in s ==> LessEq(m, x)
  }

  lemma {:induction false} MinimumExists(s: set<string>)
    requires s != {}
    ensures exists m :: IsMinimum(m, s)
    decreases |s|
  {
    var x :| x in s;
    if s != {x} {
      MinimumExists(s - {x});
      var y :| IsMinimum(y, s - {x});
      LessTotal(x, y);
      if Less(x, y) {
        forall z | z in s ensures LessEq(x, z) {
          if z != x && z != y {
            assert z in s - {x};
            assert LessEq(y, z);
            LessTransitive(x, y, z);
          }
        }
        assert IsMinimum(x, s);
      } else {
        assert IsMinimum(y, s);
      }
    } else {
      assert IsMinimum(x, s);
    }
  }

  lemma MinimumUnique()
    ensures forall s: set<string>, m, n :: IsMinimum(m, s) && IsMinimum(n, s) ==> m == n
  {
    forall s: set<string>, m, n | IsMinimum(m, s) && IsMinimum(n, s) ensures m == n {
      if m != n {
        assert LessEq(m, n) && LessEq(n, m);
        LessAsymmetric(m, n);
      }
    }
  }

  /** The least string of a non-empty set; that it is the least is
      `MinimumIsLeast`. */
  function Minimum(s: set<string>): (m: string)
    requires s != {}
    ensures m in s
  {
    MinimumExists(s);
    MinimumUnique();
    var m :| IsMinimum(m, s);
    m
  }

  lemma MinimumIsLeast(s: set<string>)
    requires s != {}
    ensures IsMinimum(Minimum(s), s)
  {
    MinimumExists(s);
  }

  /** `sorted(s)` for a set of strings. That it is sorted is `SortedSetSorted`,
      that every element of `s` appears is `SortedSetMember`. */
  function SortedSet(s: set<string>): (r: seq<string>)
    ensures forall i :: 0 <= i < |r| ==> r[i] in s
    ensures |r| == |s|
    decreases |s|
  {
    if s == {} then []
    else
      var m := Minimum(s);
      var rest := SortedSet(s - {m});
      assert forall i :: 1 <= i < |[m] + rest| ==> ([m] + rest)[i] == rest[i - 1];
      [m] + rest
  }

  /** The sorted list is strictly increasing. */
  lemma {:induction false} SortedSetSorted(s: set<string>)
    ensures StrictlySorted(SortedSet(s))
    decreases |s|
  {
    if s != {} {
      var m := Minimum(s);
      var rest := SortedSet(s - {m});
      SortedSetSorted(s - {m});
      MinimumIsLeast(s);
      PrependMinimum(m, s, rest);
      assert SortedSet(s) == [m] + rest;
    }
  }

  lemma PrependMinimum(m: string, s: set<string>, rest: seq<string>)
    requires IsMinimum(m, s) && StrictlySorted(rest)
    requires forall i :: 0 <= i < |rest| ==> rest[i] in s - {m}
    requires |rest| == |s - {m}|
    ensures StrictlySorted([m] + rest)
    ensures forall i :: 0 <= i < |[m] + rest| ==> ([m] + rest)[i] in s
    ensures |[m] + rest| == |s|
  {
    var r := [m] + rest;
    forall i, j | 0 <= i < j < |r| ensures Less(r[i], r[j]) {
      if i == 0 {
        assert r[j] == rest[j - 1] && r[j] in s - {m};
        assert LessEq(m, r[j]);
      } else {
        assert r[i] == rest[i - 1] && r[j] == rest[j - 1];
      }
    }
  }

  /** The sorted list holds exactly the elements of the set. */
  lemma {:induction false} SortedSetMember(s: set<string>, x: string)
    ensures x in SortedSet(s) <==> x in s
    decreases |s|
  {
    var r := SortedSet(s);
    if x in r {
      var i :| 0 <= i < |r| && r[i] == x;
    }
    if x in s {
      var m := Minimum(s);
      var rest := SortedSet(s - {m});
      assert r == [m] + rest;
      if x != m {
        SortedSetMember(s - {m}, x);
        assert x in rest;
      }
    }
  }

  /** The positions of the sorted list hold exactly the elements of the set. */
  lemma SortedSetIndices(s: set<string>)
    ensures (set i | 0 <= i < |SortedSet(s)| :: SortedSet(s)[i]) == s
  {
    var r := SortedSet(s);
    forall a | a in s ensures a in (set i | 0 <= i < |r| :: r[i]) {
      SortedSetMember(s, a);
      var i :| 0 <= i < |r| && r[i] == a;
    }
  }

  // ---------------------------------------------------------------------------
  // Sorting a list, as `list.sort()` and `sorted(list)` do, for any total preorder.

  ghost predicate TotalPreorder<T(!new)>(leq: (T, T) -> bool) {
    (forall a, b :: leq(a, b) || leq(b, a)) &&
    (forall a, b, c :: leq(a, b) && leq(b, c) ==> leq(a, c))
  }

  predicate SortedBy<T>(xs: seq<T>, leq: (T, T) -> bool) {
    forall i, j :: 0 <= i < j < |xs| ==> leq(xs[i], xs[j])
  }

  /** `x` placed before the first element it is not above. */
  function InsertBy<T>(xs: seq<T>, x: T, leq: (T, T) -> bool): (r: seq<T>)
    ensures |r| == |xs| + 1
  {
    if xs == [] || leq(x, xs[0]) then [x] + xs
    else [xs[0]] + InsertBy(xs[1..], x, leq)
  }

  /** Inserting into a sorted list keeps it sorted and adds just `x`. */
  lemma {:induction false} InsertBySorted<T(!new)>(xs: seq<T>, x: T, leq: (T, T) -> bool)
    requires TotalPreorder(leq) && SortedBy(xs, leq)
    ensures SortedBy(InsertBy(xs, x, leq), leq)
    ensures multiset(InsertBy(xs, x, leq)) == multiset(xs) + multiset{x}
  {
    if xs == [] || leq(x, xs[0]) {
      InsertFront(xs, x, leq);
    } else {
      assert SortedBy(xs[1..], leq) by {
        forall i, j | 0 <= i < j < |xs[1..]| ensures leq(xs[1..][i], xs[1..][j]) {
          assert xs[1..][i] == xs[i + 1] && xs[1..][j] == xs[j + 1];
        }
      }
      InsertBySorted(xs[1..], x, leq);
      InsertBehind(xs, x, InsertBy(xs[1..], x, leq), leq);
    }
  }

  lemma InsertFront<T(!new)>(xs: seq<T>, x: T, leq: (T, T) -> bool)
    requires TotalPreorder(leq) && SortedBy(xs, leq)
    requires xs == [] || leq(x, xs[0])
    ensures SortedBy([x] + xs, leq)
  {
    var r := [x] + xs;
    forall i, j | 0 <= i < j < |r| ensures leq(r[i], r[j]) {
      if i == 0 && j > 1 {
        assert leq(xs[0], xs[j - 1]);
      }
    }
  }

  lemma InsertBehind<T(!new)>(xs: seq<T>, x: T, rest: seq<T>, leq: (T, T) -> bool)
    requires TotalPreorder(leq) && SortedBy(xs, leq) && SortedBy(rest, leq)
    requires xs != [] && !leq(x, xs[0])
    requires multiset(rest) == multiset(xs[1..]) + multiset{x}
    ensures SortedBy([xs[0]] + rest, leq)
    ensures multiset([xs[0]] + rest) == multiset(xs) + multiset{x}
  {
    assert xs == [xs[0]] + xs[1..];
    forall j | 0 <= j < |rest| ensures leq(xs[0], rest[j]) {
      var y := rest[j];
      assert y in multiset(rest);
      if y != x {
        assert y in multiset(xs[1..]);
        var k :| 0 <= k < |xs[1..]| && xs[1..][k] == y;
        assert xs[k + 1] == y;
      }
    }
    var r := [xs[0]] + rest;
    forall i, j | 0 <= i < j < |r| ensures leq(r[i], r[j]) {
      if i > 0 {
        assert r[i] == rest[i - 1] && r[j] == rest[j - 1];
      }
    }
  }

  /** Insertion sort. */
  function SortBy<T>(xs: seq<T>, leq: (T, T) -> bool): (r: seq<T>)
    ensures |r| == |xs|
  {
    if xs == [] then [] else InsertBy(SortBy(xs[1..], leq), xs[0], leq)
  }

  /** Under a total preorder the insertion sort gives a sorted permutation of its input. */
  lemma {:induction false} SortBySorted<T(!new)>(xs: seq<T>, leq: (T, T) -> bool)
    requires TotalPreorder(leq)
    ensures SortedBy(SortBy(xs, leq), leq)
    ensures multiset(SortBy(xs, leq)) == multiset(xs)
  {
    if xs != [] {
      SortBySorted(xs[1..], leq);
      InsertBySorted(SortBy(xs[1..], leq), xs[0], leq);
      assert xs == [xs[0]] + xs[1..];
    }
  }

  /** The head of a sorted list is below each of its elements. */
  lemma SortedHeadLeast<T>(a: seq<T>, leq: (T, T) -> bool, x: T)
    requires SortedBy(a, leq) && x in a && (forall y :: leq(y, y))
    ensures leq(a[0], x)
  {
    var i :| 0 <= i < |a| && a[i] == x;
    if i > 0 {
      assert leq(a[0], a[i]);
    }
  }

  /** Two sorted permutations of one list are equal when the order is antisymmetric,
      so the result of sorting does not depend on the order of the input. */
  lemma {:induction false} SortedUnique<T(!new)>(a: seq<T>, b: seq<T>, leq: (T, T) -> bool)
    requires TotalPreorder(leq)
    requires forall x, y :: leq(x, y) && leq(y, x) ==> x == y
    requires SortedBy(a, leq) && SortedBy(b, leq)
    requires multiset(a) == multiset(b)
    ensures a == b
  {
    if a != [] && b != [] {
      SameHead(a, b, leq);
      TailMultiset(a);
      TailMultiset(b);
      SortedTail(a, leq);
      SortedTail(b, leq);
      SortedUnique(a[1..], b[1..], leq);
      SliceAround(a, 0);
      SliceAround(b, 0);
    } else {
      assert |multiset(a)| == |a| && |multiset(b)| == |b|;
    }
  }

  lemma SameHead<T(!new)>(a: seq<T>, b: seq<T>, leq: (T, T) -> bool)
    requires TotalPreorder(leq)
    requires forall x, y :: leq(x, y) && leq(y, x) ==> x == y
    requires SortedBy(a, leq) && SortedBy(b, leq)
    requires multiset(a) == multiset(b) && a != [] && b != []
    ensures a[0] == b[0]
  {
    assert forall y :: leq(y, y);
    assert a[0] in multiset(b);
    assert b[0] in multiset(a);
    SortedHeadLeast(a, leq, b[0]);
    SortedHeadLeast(b, leq, a[0]);
  }

  lemma SortedTail<T>(a: seq<T>, leq: (T, T) -> bool)
    requires SortedBy(a, leq) && a != []
    ensures SortedBy(a[1..], leq)
  {
    forall i, j | 0 <= i < j < |a| - 1 ensures leq(a[1..][i], a[1..][j]) {
      assert a[1..][i] == a[i + 1] && a[1..][j] == a[j + 1];
    }
  }

  lemma TailMultiset<T>(a: seq<T>)
    requires a != []
    ensures multiset(a[1..]) == multiset(a) - multiset{a[0]}
  {
    assert a == [a[0]] + a[1..];
  }

  lemma LessEqTotalPreorder()
    ensures TotalPreorder(LessEq)
  {
    forall a, b ensures LessEq(a, b) || LessEq(b, a) { LessTotal(a, b); }
    forall a, b, c | LessEq(a, b) && LessEq(b, c) ensures LessEq(a, c) {
      if a != b && b != c { LessTransitive(a, b, c); }
    }
  }

  /** `list.sort()` on a list of strings. */
  function Sort(xs: seq<string>): (r: seq<string>)
    ensures SortedBy(r, LessEq)
    ensures multiset(r) == multiset(xs)
  {
    LessEqTotalPreorder();
    SortBySorted(xs, LessEq);
    SortBy(xs, LessEq)
  }

  // ---------------------------------------------------------------------------
  // Paths.

  /** `posixpath.join(a, b)`. */
  function PathJoin(a: string, b: string): string {
    if StartsWith(b, "/") then b
    else if a == [] || a[|a| - 1] == '/' then a + b
    else a + "/" + b
  }

  /** The joined path ends with its last component and, unless that component
      is absolute, starts with the first. */
  lemma PathJoinEnds(a: string, b: string)
    ensures EndsWith(PathJoin(a, b), b)
    ensures !StartsWith(b, "/") && a != [] ==> StartsWith(PathJoin(a, b), a)
  {
    var r := PathJoin(a, b);
    if !StartsWith(b, "/") {
      var sep := if a == [] || a[|a| - 1] == '/' then [] else "/";
      assert r == a + sep + b;
      assert r[|r| - |b|..] == b;
      assert r[..|a|] == a;
    }
  }

  /** Appending the same element to one part and to the whole keeps the
      parts a split of the whole. */
  lemma AppendKeepsSplit<T>(a: seq<T>, b: seq<T>, whole: seq<T>, t: T)
    requires multiset(a) + multiset(b) == multiset(whole)
    ensures multiset(a + [t]) + multiset(b) == multiset(whole + [t])
    ensures multiset(b) + multiset(a + [t]) == multiset(whole + [t])
  {
    calc {
      multiset(a + [t]) + multiset(b);
      multiset(a) + multiset{t} + multiset(b);
      multiset(whole) + multiset{t};
      multiset(whole + [t]);
    }
  }
}

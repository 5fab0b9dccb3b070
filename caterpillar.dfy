/** The converter's own logic: the web app manifest made from a Chrome App
    manifest, the split of the used APIs into polyfilled and not polyfilled,
    and the names of the files it writes. */
module Caterpillar {
  import opened Wrappers
  import opened Text
  import opened Json

  /** What the converter is called; also the name of its boilerplate directory. */
  const ConverterName: string := "caterpillar"

  /** The APIs that have a polyfill: none. */
  const Polyfills: set<string> := {}

  // ---------------------------------------------------------------------------
  // Polyfill partition.

  /** The APIs among `apis[..count]` that are (`wanted`) or are not in `polyfills`, in order. */
  function Partition(apis: seq<string>, polyfills: set<string>, wanted: bool, count: nat): (r: seq<string>)
    requires count <= |apis|
    ensures forall i :: 0 <= i < |r| ==> (r[i] in polyfills <==> wanted)
  {
    if count == 0 then []
    else
      var api := apis[count - 1];
      Partition(apis, polyfills, wanted, count - 1) + (if (api in polyfills) == wanted then [api] else [])
  }

  /** Together the two parts hold every API as often as the input does. */
  lemma {:induction false} PartitionComplete(apis: seq<string>, polyfills: set<string>, count: nat)
    requires count <= |apis|
    ensures multiset(Partition(apis, polyfills, true, count)) + multiset(Partition(apis, polyfills, false, count))
         == multiset(apis[..count])
  {
    if count > 0 {
      PartitionComplete(apis, polyfills, count - 1);
      var api := apis[count - 1];
      PartitionStep(apis, polyfills, count);
      PrefixStep(apis, count);
      AppendKeepsSplit(Partition(apis, polyfills, api in polyfills, count - 1),
                       Partition(apis, polyfills, api !in polyfills, count - 1), apis[..count - 1], api);
    }
  }

  /** One API more goes to exactly one of the two parts. */
  lemma PartitionStep(apis: seq<string>, polyfills: set<string>, count: nat)
    requires 0 < count <= |apis|
    ensures var api := apis[count - 1];
      Partition(apis, polyfills, api in polyfills, count) == Partition(apis, polyfills, api in polyfills, count - 1) + [api] &&
      Partition(apis, polyfills, api !in polyfills, count) == Partition(apis, polyfills, api !in polyfills, count - 1)
  {
  }

  lemma PrefixStep<T>(xs: seq<T>, count: nat)
    requires 0 < count <= |xs|
    ensures xs[..count] == xs[..count - 1] + [xs[count - 1]]
  {
  }

  /** `polyfill_apis` without the copying of the polyfill scripts: the sorted
      APIs that have a polyfill and the sorted APIs that do not. The table of
      polyfills is `Polyfills` unless another is passed. */
  method PolyfillApis(apis: seq<string>, polyfills: set<string> := Polyfills)
    returns (successful: seq<string>, unsuccessful: seq<string>)
    ensures successful == Sort(Partition(apis, polyfills, true, |apis|))
    ensures unsuccessful == Sort(Partition(apis, polyfills, false, |apis|))
  {
    successful := [];
    unsuccessful := [];
    for i := 0 to |apis|
      invariant successful == Partition(apis, polyfills, true, i)
      invariant unsuccessful == Partition(apis, polyfills, false, i)
    {
      var api := apis[i];
      if api !in polyfills {
        unsuccessful := unsuccessful + [api];
        continue;
      }
      successful := successful + [api];
    }
    successful := Sort(successful);
    unsuccessful := Sort(unsuccessful);
  }

  /** Both lists are sorted, every API lands in exactly one of them, and
      which one depends only on whether it has a polyfill. */
  lemma PolyfillApisPartition(apis: seq<string>, polyfills: set<string>)
    ensures var successful := Sort(Partition(apis, polyfills, true, |apis|));
      var unsuccessful := Sort(Partition(apis, polyfills, false, |apis|));
      SortedBy(successful, LessEq) && SortedBy(unsuccessful, LessEq) &&
      multiset(successful) + multiset(unsuccessful) == multiset(apis) &&
      (forall a :: a in successful ==> a in polyfills) &&
      (forall a :: a in unsuccessful ==> a !in polyfills)
  {
    PartitionComplete(apis, polyfills, |apis|);
    assert apis[..|apis|] == apis;
    var s := Partition(apis, polyfills, true, |apis|);
    var u := Partition(apis, polyfills, false, |apis|);
    forall a | a in Sort(s) ensures a in polyfills {
      assert a in multiset(Sort(s));
      assert a in s;
    }
    forall a | a in Sort(u) ensures a !in polyfills {
      assert a in multiset(Sort(u));
      assert a in u;
    }
  }

  /** With no polyfills available every API is unsuccessful. */
  lemma NothingPolyfilled(apis: seq<string>)
    ensures Sort(Partition(apis, Polyfills, true, |apis|)) == []
    ensures multiset(Sort(Partition(apis, Polyfills, false, |apis|))) == multiset(apis)
  {
    PartitionComplete(apis, Polyfills, |apis|);
    assert apis[..|apis|] == apis;
    var s := Partition(apis, Polyfills, true, |apis|);
    assert multiset(Sort(s)) == multiset{};
  }

  // ---------------------------------------------------------------------------
  // Web app manifest.

  /** The members of the web app manifest. */
  const PwaKeys: set<string> := {"name", "short_name", "lang", "splash_screens", "display", "orientation",
                                 "start_url", "theme_color", "background_color", "related_applications",
                                 "prefer_related_applications", "icons"}

  /** The web app icon for the Chrome App icon of one size. */
  function Icon(size: string, src: Json): (r: Json)
    ensures r.JObject? && r.members.Keys == {"src", "sizes"} && r.members["src"] == src
  {
    JObject(map["src" := src, "sizes" := JString(size + "x" + size)])
  }

  /** Different sizes give different icons. */
  lemma IconInjective(a: string, x: Json, b: string, y: Json)
    requires Icon(a, x) == Icon(b, y)
    ensures a == b && x == y
  {
    var sa := a + "x" + a;
    var sb := b + "x" + b;
    assert Icon(a, x).members["sizes"] == JString(sa);
    assert Icon(b, y).members["sizes"] == JString(sb);
    assert sa == sb;
    assert |a| == |b|;
    assert a == sa[..|a|] && b == sb[..|b|];
    assert Icon(a, x).members["src"] == x;
  }

  /** The Python type name of a JSON value, as error messages quote it
      (`json.load` gives `unicode` strings). */
  function TypeName(v: Json): string {
    match v
    case JNull => "NoneType"
    case JBool(_) => "bool"
    case JNumber(_) => "int"
    case JString(_) => "unicode"
    case JArray(_) => "list"
    case JObject(_) => "dict"
  }

  /** The integer a JSON value is when it indexes a list: a number, or a bool
      as 0 or 1, since `bool` is a subclass of `int`. */
  function AsIndex(v: Json): Option<int> {
    match v
    case JNumber(n) => Some(n)
    case JBool(b) => Some(if b then 1 else 0)
    case _ => Nothing
  }

  /** `items[index]` on a Python list: an integer in `-len .. len - 1` picks an
      item, counting from the end when negative; any other integer raises
      `IndexError`; an index of another type raises a `TypeError` naming it. */
  function ListIndex(items: seq<Json>, index: Json): (r: Result<Json>)
    ensures AsIndex(index).Nothing? ==> r.Err? && r.error.TypeError?
  {
    match AsIndex(index)
    case Nothing => Err(TypeError("list indices must be integers, not " + TypeName(index)))
    case Some(n) =>
      if -|items| <= n < 0 then Ok(items[|items| + n])
      else if 0 <= n < |items| then Ok(items[n])
      else Err(IndexError)
  }

  /** The cases of `list[index]`: an integer (or bool) index in
      `-len(list)..len(list)-1` succeeds, a non-negative one counting from the
      front and a negative one from the end; any other integer raises
      `IndexError`. */
  lemma ListIndexCases(items: seq<Json>, index: Json)
    ensures ListIndex(items, index).Ok? <==> AsIndex(index).Some? && -|items| <= AsIndex(index).value < |items|
    ensures ListIndex(items, index).Ok? && AsIndex(index).value >= 0 ==>
      ListIndex(items, index).value == items[AsIndex(index).value]
    ensures ListIndex(items, index).Ok? && AsIndex(index).value < 0 ==>
      ListIndex(items, index).value == items[|items| + AsIndex(index).value]
    ensures AsIndex(index).Some? && ListIndex(items, index).Err? ==> ListIndex(items, index).error == IndexError
  {
  }

  /** Python's reading of an index in range: the index modulo the length of the list. */
  lemma ListIndexModulo(items: seq<Json>, index: Json)
    requires ListIndex(items, index).Ok?
    ensures ListIndex(items, index).value == items[AsIndex(index).value % |items|]
  {
    var n := AsIndex(index).value;
    ListIndexCases(items, index);
    if n < 0 {
      assert n % |items| == |items| + n;
    }
  }

  /** The decimal digits of a natural number. */
  function NatText(n: nat): (r: string)
    ensures r != [] && forall i :: 0 <= i < |r| ==> '0' <= r[i] <= '9'
  {
    var digit := [(('0' as int) + n % 10) as char];
    if n < 10 then digit else NatText(n / 10) + digit
  }

  /** `'{0}'.format(n)` for an integer: its digits, after a minus sign when it is negative. */
  function DecimalText(n: int): (r: string)
    ensures r != [] && (r[0] == '-' <==> n < 0)
  {
    if n < 0 then "-" + NatText(-n) else NatText(n)
  }

  /** `'{0}'.format(index)` for a value that indexes a list: `True`, `False`
      or the decimal integer. */
  function IndexText(index: Json): string
    requires AsIndex(index).Some?
  {
    match index
    case JBool(b) => if b then "True" else "False"
    case JNumber(n) => DecimalText(n)
  }

  /** `items[items[i]]`: item `i` of a list used as an index into that list. */
  function ItemIndex(items: seq<Json>, i: nat): Result<Json>
    requires i < |items|
  {
    ListIndex(items, items[i])
  }

  /** What the icon loop builds from the first `count` items of a list: each
      item indexes the list, giving the source of the icon whose size is the
      item's text; the first item that cannot index the list raises. */
  function ArrayIcons(items: seq<Json>, count: nat): Result<seq<Json>>
    requires count <= |items|
  {
    if count == 0 then Ok([])
    else match ArrayIcons(items, count - 1)
      case Err(e) => Err(e)
      case Ok(icons) =>
        match ItemIndex(items, count - 1)
        case Err(e) => Err(e)
        case Ok(src) => Ok(icons + [Icon(IndexText(items[count - 1]), src)])
  }

  /** One item more: the earlier error stays, or this item's error is raised,
      or its icon is appended. */
  lemma ArrayIconsStep(items: seq<Json>, count: nat)
    requires 0 < count <= |items|
    ensures ArrayIcons(items, count - 1).Err? ==> ArrayIcons(items, count) == ArrayIcons(items, count - 1)
    ensures ArrayIcons(items, count - 1).Ok? && ItemIndex(items, count - 1).Err? ==>
      ArrayIcons(items, count) == Err(ItemIndex(items, count - 1).error)
    ensures ArrayIcons(items, count).Ok? <==> ArrayIcons(items, count - 1).Ok? && ItemIndex(items, count - 1).Ok?
  {
  }

  lemma ArrayIconsStepValue(items: seq<Json>, count: nat)
    requires 0 < count <= |items| && ArrayIcons(items, count).Ok?
    ensures ArrayIcons(items, count - 1).Ok? && ItemIndex(items, count - 1).Ok?
    ensures ArrayIcons(items, count).value ==
      ArrayIcons(items, count - 1).value + [Icon(IndexText(items[count - 1]), ItemIndex(items, count - 1).value)]
  {
  }

  /** The loop over a list runs to the end exactly when every item indexes
      the list. */
  lemma {:induction false} ArrayIconsOk(items: seq<Json>, count: nat)
    requires count <= |items|
    ensures ArrayIcons(items, count).Ok? <==> forall i :: 0 <= i < count ==> ItemIndex(items, i).Ok?
  {
    if count > 0 {
      ArrayIconsOk(items, count - 1);
      ArrayIconsStep(items, count);
      if ArrayIcons(items, count).Ok? {
        forall i | 0 <= i < count ensures ItemIndex(items, i).Ok? {
          if i < count - 1 {
            assert ItemIndex(items, i).Ok?;
          }
        }
      } else if ArrayIcons(items, count - 1).Ok? {
        assert ItemIndex(items, count - 1).Err?;
      } else {
        var j :| 0 <= j < count - 1 && ItemIndex(items, j).Err?;
        assert ItemIndex(items, j).Err?;
      }
    }
  }

  /** When it runs to the end, it gives one icon per item, in order: the item
      at `i` indexes the list and names the size of the `i`-th icon. */
  lemma {:induction false} ArrayIconsValues(items: seq<Json>, count: nat)
    requires count <= |items| && ArrayIcons(items, count).Ok?
    ensures |ArrayIcons(items, count).value| == count
    ensures forall i :: 0 <= i < count ==>
      ItemIndex(items, i).Ok? && ArrayIcons(items, count).value[i] == Icon(IndexText(items[i]), ItemIndex(items, i).value)
  {
    ArrayIconsLength(items, count);
    forall i | 0 <= i < count
      ensures ItemIndex(items, i).Ok? && ArrayIcons(items, count).value[i] == Icon(IndexText(items[i]), ItemIndex(items, i).value)
    {
      ArrayIconAt(items, count, i);
    }
  }

  lemma {:induction false} ArrayIconsLength(items: seq<Json>, count: nat)
    requires count <= |items| && ArrayIcons(items, count).Ok?
    ensures |ArrayIcons(items, count).value| == count
  {
    if count > 0 {
      ArrayIconsStepValue(items, count);
      ArrayIconsLength(items, count - 1);
    }
  }

  lemma {:induction false} ArrayIconAt(items: seq<Json>, count: nat, i: nat)
    requires i < count <= |items| && ArrayIcons(items, count).Ok?
    ensures ItemIndex(items, i).Ok? && |ArrayIcons(items, count).value| == count
    ensures ArrayIcons(items, count).value[i] == Icon(IndexText(items[i]), ItemIndex(items, i).value)
  {
    ArrayIconsStepValue(items, count);
    ArrayIconsLength(items, count);
    if i < count - 1 {
      ArrayIconAt(items, count - 1, i);
    }
  }

  /** When it stops, it raises the error of the first item that does not
      index the list. */
  lemma {:induction false} ArrayIconsFirstError(items: seq<Json>, count: nat)
    requires count <= |items| && ArrayIcons(items, count).Err?
    ensures exists k :: 0 <= k < count && ItemIndex(items, k) == Err(ArrayIcons(items, count).error) &&
                        forall i :: 0 <= i < k ==> ItemIndex(items, i).Ok?
  {
    var k := count - 1;
    ArrayIconsStep(items, count);
    if ArrayIcons(items, k).Err? {
      ArrayIconsFirstError(items, k);
    } else {
      ArrayIconsOk(items, k);
      assert ItemIndex(items, k) == Err(ArrayIcons(items, count).error);
    }
  }

  /** Once an item fails, the later items change nothing. */
  lemma {:induction false} ArrayIconsFailsFrom(items: seq<Json>, k: nat, count: nat)
    requires k <= count <= |items| && ArrayIcons(items, k).Err?
    ensures ArrayIcons(items, count) == ArrayIcons(items, k)
    decreases count
  {
    if count > k {
      ArrayIconsFailsFrom(items, k, count - 1);
      ArrayIconsStep(items, count);
    }
  }

  /** The icon loop over a list, item by item. */
  method ArrayIconsLoop(items: seq<Json>) returns (r: Result<seq<Json>>)
    ensures r == ArrayIcons(items, |items|)
  {
    var icons: seq<Json> := [];
    for i := 0 to |items|
      invariant ArrayIcons(items, i) == Ok(icons)
    {
      var src := ItemIndex(items, i);
      if src.Err? {
        ArrayIconsFailsFrom(items, i + 1, |items|);
        return Err(src.error);
      }
      icons := icons + [Icon(IndexText(items[i]), src.value)];
    }
    r := Ok(icons);
  }

  /** Examples of lists of icons: `[0]` gives the one icon
      `{src: 0, sizes: "0x0"}`; `-1` counts from the end; `true` indexes item
      1; an index past the end raises `IndexError`; an object raises a
      `TypeError` that names `dict`. */
  lemma ArrayIconExamples()
    ensures ArrayIcons([JNumber(0)], 1) == Ok([Icon("0", JNumber(0))])
    ensures ArrayIcons([JNumber(-1), JNumber(0)], 2) == Ok([Icon("-1", JNumber(0)), Icon("0", JNumber(-1))])
    ensures ArrayIcons([JBool(true), JNumber(0)], 2) == Ok([Icon("True", JNumber(0)), Icon("0", JBool(true))])
  {
    assert IndexText(JNumber(0)) == "0";
    assert IndexText(JNumber(-1)) == "-1" by {
      assert NatText(1) == "1";
    }
    var one := [JNumber(0)];
    assert ListIndex(one, JNumber(0)) == Ok(JNumber(0));
    assert ArrayIcons(one, 1).value == [Icon("0", JNumber(0))];
    var back := [JNumber(-1), JNumber(0)];
    assert ListIndex(back, JNumber(-1)) == Ok(JNumber(0));
    assert ListIndex(back, JNumber(0)) == Ok(JNumber(-1));
    assert ArrayIcons(back, 1).value == [Icon("-1", JNumber(0))];
    assert ArrayIcons(back, 2).value == [Icon("-1", JNumber(0)), Icon("0", JNumber(-1))];
    var flag := [JBool(true), JNumber(0)];
    assert ListIndex(flag, JBool(true)) == Ok(JNumber(0));
    assert ListIndex(flag, JNumber(0)) == Ok(JBool(true));
    assert ArrayIcons(flag, 1).value == [Icon("True", JNumber(0))];
    assert ArrayIcons(flag, 2).value == [Icon("True", JNumber(0)), Icon("0", JBool(true))];
  }

  /** An item past the end of the list, and an item that is no integer. */
  lemma ArrayIconErrors()
    ensures ArrayIcons([JNumber(3)], 1) == Err(IndexError)
    ensures ArrayIcons([JObject(map[])], 1) == Err(TypeError("list indices must be integers, not dict"))
  {
  }

  /** The error the loop `for icon_size in manifest['icons']`, which indexes
      `manifest['icons']` with each `icon_size`, raises, or nothing when it
      runs to the end. The members of an object index it; the items of a list
      must each index the list; a non-empty string yields one-character
      strings, which cannot index it; the other values cannot be iterated. */
  function IconsFailure(icons: Json): (r: Option<Error>)
    ensures icons.JObject? ==> r.Nothing?
    ensures icons.JArray? ==> (r.Nothing? <==> ArrayIcons(icons.items, |icons.items|).Ok?)
    ensures icons.JArray? ==>
      (r.Nothing? <==> forall i :: 0 <= i < |icons.items| ==> ItemIndex(icons.items, i).Ok?)
    ensures icons.JString? ==> (r.Nothing? <==> icons.s == [])
    ensures icons.JNull? || icons.JBool? || icons.JNumber? ==>
      r == Some(TypeError("'" + TypeName(icons) + "' object is not iterable"))
  {
    match icons
    case JObject(_) => Nothing
    case JArray(items) =>
      ArrayIconsOk(items, |items|);
      if ArrayIcons(items, |items|).Ok? then Nothing else Some(ArrayIcons(items, |items|).error)
    case JString(s) => if s == [] then Nothing else Some(TypeError("string indices must be integers"))
    case _ => Some(TypeError("'" + TypeName(icons) + "' object is not iterable"))
  }

  /** The icons of the web app: one per icon size, in any order, all
      different, and nothing else. */
  predicate IconsOf(icons: seq<Json>, members: map<string, Json>) {
    |icons| == |members| &&
    (forall i, j :: 0 <= i < j < |icons| ==> icons[i] != icons[j]) &&
    (forall size :: size in members ==> Icon(size, members[size]) in icons) &&
    (forall i :: 0 <= i < |icons| ==> exists size :: size in members && icons[i] == Icon(size, members[size]))
  }

  /** Every member of the web app manifest but `icons`: `name` copied,
      `short_name` falling back to `name`, `lang` to "en", `start_url` from
      the configuration, and fixed values for the rest. */
  function FixedMembers(manifest: map<string, Json>, config: map<string, Json>): (r: map<string, Json>)
    requires "name" in manifest && "start_url" in config
    ensures r.Keys == PwaKeys - {"icons"}
    ensures r["name"] == manifest["name"]
    ensures r["short_name"] == if "short_name" in manifest then manifest["short_name"] else manifest["name"]
    ensures r["lang"] == if "default_locale" in manifest then manifest["default_locale"] else JString("en")
    ensures r["start_url"] == config["start_url"]
    ensures r["splash_screens"] == JArray([]) && r["related_applications"] == JArray([])
    ensures r["display"] == JString("minimal-ui") && r["orientation"] == JString("any")
    ensures r["theme_color"] == JString("white") && r["background_color"] == JString("white")
    ensures r["prefer_related_applications"] == JBool(false)
  {
    map[
      "name" := manifest["name"],
      "short_name" := if "short_name" in manifest then manifest["short_name"] else manifest["name"],
      "lang" := if "default_locale" in manifest then manifest["default_locale"] else JString("en"),
      "splash_screens" := JArray([]),
      "display" := JString("minimal-ui"),
      "orientation" := JString("any"),
      "start_url" := config["start_url"],
      "theme_color" := JString("white"),
      "background_color" := JString("white"),
      "related_applications" := JArray([]),
      "prefer_related_applications" := JBool(false)
    ]
  }

  /** `ca_to_pwa_manifest`: the web app manifest of a Chrome App manifest.
      A missing `name` or a missing `start_url` option is a `KeyError`; icons
      that the loop cannot go through raise as that loop does. */
  method CaToPwaManifest(manifest: map<string, Json>, config: map<string, Json>) returns (r: Result<map<string, Json>>)
    ensures "name" !in manifest ==> r == Err(KeyError("name"))
    ensures "name" in manifest && "start_url" !in config ==> r == Err(KeyError("start_url"))
    ensures "name" in manifest && "start_url" in config && "icons" in manifest && IconsFailure(manifest["icons"]).Some? ==>
      r == Err(IconsFailure(manifest["icons"]).value)
    ensures r.Ok? <==> ("name" in manifest && "start_url" in config &&
                        ("icons" in manifest ==> IconsFailure(manifest["icons"]).Nothing?))
    ensures r.Ok? ==> ("icons" in r.value && r.value == FixedMembers(manifest, config)["icons" := r.value["icons"]])
    ensures r.Ok? ==> r.value["icons"].JArray?
    ensures r.Ok? && ("icons" !in manifest || manifest["icons"].JString?) ==> r.value["icons"] == JArray([])
    ensures r.Ok? && "icons" in manifest && manifest["icons"].JObject? ==>
      IconsOf(r.value["icons"].items, manifest["icons"].members)
    ensures r.Ok? && "icons" in manifest && manifest["icons"].JArray? ==>
      r.value["icons"] == JArray(ArrayIcons(manifest["icons"].items, |manifest["icons"].items|).value)
  {
    if "name" !in manifest {
      return Err(KeyError("name"));
    }
    if "start_url" !in config {
      return Err(KeyError("start_url"));
    }
    var pwa := FixedMembers(manifest, config);
    var icons: seq<Json> := [];
    if "icons" in manifest {
      match manifest["icons"]
      case JObject(members) =>
        icons := IconsLoop(members);
      case JArray(items) =>
        var listed := ArrayIconsLoop(items);
        if listed.Err? {
          return Err(listed.error);
        }
        icons := listed.value;
      case JString(s) =>
        if s != [] {
          return Err(TypeError("string indices must be integers"));
        }
      case _ =>
        return Err(TypeError("'" + TypeName(manifest["icons"]) + "' object is not iterable"));
    }
    pwa := pwa["icons" := JArray(icons)];
    r := Ok(pwa);
  }

  /** The web app manifest has exactly the twelve members; no other member
      of the Chrome App manifest is carried over. */
  lemma PwaMembers(manifest: map<string, Json>, config: map<string, Json>, icons: Json)
    requires "name" in manifest && "start_url" in config
    ensures FixedMembers(manifest, config)["icons" := icons].Keys == PwaKeys
  {
  }

  /** The loop over the icon sizes, in the dictionary's order. */
  method IconsLoop(members: map<string, Json>) returns (icons: seq<Json>)
    ensures IconsOf(icons, members)
  {
    icons := [];
    var rest := members.Keys;
    ghost var order: seq<string> := [];
    while rest != {}
      invariant rest <= members.Keys
      invariant IconsAlong(icons, members, order)
      invariant forall size :: size in order <==> size in members && size !in rest
      decreases |rest|
    {
      var size :| size in rest;
      icons := icons + [Icon(size, members[size])];
      order := order + [size];
      rest := rest - {size};
    }
    IconsAlongAll(icons, members, order);
  }

  /** `icons[i]` is the icon of the `i`-th visited size, and no size is visited twice. */
  predicate IconsAlong(icons: seq<Json>, members: map<string, Json>, order: seq<string>) {
    |icons| == |order| &&
    (forall i :: 0 <= i < |order| ==> order[i] in members && icons[i] == Icon(order[i], members[order[i]])) &&
    (forall i, j :: 0 <= i < j < |order| ==> order[i] != order[j])
  }

  /** Once every size has been visited, the icons are those of the manifest. */
  lemma IconsAlongAll(icons: seq<Json>, members: map<string, Json>, order: seq<string>)
    requires IconsAlong(icons, members, order)
    requires forall size :: size in order <==> size in members
    ensures IconsOf(icons, members)
  {
    forall i, j | 0 <= i < j < |icons| ensures icons[i] != icons[j] {
      if icons[i] == icons[j] {
        IconInjective(order[i], members[order[i]], order[j], members[order[j]]);
      }
    }
    forall size | size in members ensures Icon(size, members[size]) in icons {
      var i :| 0 <= i < |order| && order[i] == size;
      assert icons[i] == Icon(size, members[size]);
    }
    forall i | 0 <= i < |icons| ensures exists size :: size in members && icons[i] == Icon(size, members[size]) {
      assert order[i] in members;
    }
    DistinctCount(order, members.Keys);
  }

  /** A sequence without repetitions that lists exactly a set is as long as the set. */
  lemma {:induction false} DistinctCount(order: seq<string>, keys: set<string>)
    requires forall i, j :: 0 <= i < j < |order| ==> order[i] != order[j]
    requires forall x :: x in order <==> x in keys
    ensures |order| == |keys|
    decreases |order|
  {
    if order != [] {
      var last := order[|order| - 1];
      var init := order[..|order| - 1];
      assert forall x :: x in init <==> x in keys - {last} by {
        forall x ensures x in init <==> x in keys - {last} {
          if x in init {
            var k :| 0 <= k < |init| && init[k] == x;
            assert order[k] == x;
          }
          if x in order && x != last {
            var k :| 0 <= k < |order| && order[k] == x;
            assert init[k] == x;
          }
        }
      }
      DistinctCount(init, keys - {last});
    }
  }

  // ---------------------------------------------------------------------------
  // File names.

  /** `boilerplate_dir`: the converter's directory inside an app directory. */
  function BoilerplateDir(directory: string): (r: string)
    ensures EndsWith(r, ConverterName)
    ensures directory != [] && directory[|directory| - 1] != '/' ==> r == directory + "/" + ConverterName
  {
    assert !StartsWith(ConverterName, "/") by {
      assert ConverterName[0] == 'c';
    }
    PathJoinEnds(directory, ConverterName);
    PathJoin(directory, ConverterName)
  }

  /** `relative_boilerplate_file_path`: a file of the boilerplate directory,
      relative to the app root. */
  function RelativeBoilerplateFilePath(filename: string): (r: string)
    ensures StartsWith(r, ConverterName + "/")
    ensures r[|ConverterName| + 1..] == filename
  {
    ConverterName + "/" + filename
  }

  /** `polyfill_filename`: the script file of an API's polyfill. */
  function PolyfillFilename(api: string): (r: string)
    ensures |r| == |api| + 12 && EndsWith(r, ".polyfill.js")
    ensures r[..|api|] == api
  {
    api + ".polyfill.js"
  }

  /** Different APIs have different polyfill files. */
  lemma PolyfillFilenameInjective(a: string, b: string)
    requires PolyfillFilename(a) == PolyfillFilename(b)
    ensures a == b
  {
    assert |a| == |b|;
  }

  /** The example of the source's documentation. */
  lemma RelativePolyfillPath()
    ensures RelativeBoilerplateFilePath(PolyfillFilename("tts")) == "caterpillar/tts.polyfill.js"
  {
  }

  /** Joined to an app directory, the relative path of a boilerplate file is
      that file inside the boilerplate directory. */
  lemma RelativePathAgreesWithDir(directory: string, filename: string)
    requires directory != [] && directory[|directory| - 1] != '/'
    requires filename != [] && filename[0] != '/'
    ensures PathJoin(directory, RelativeBoilerplateFilePath(filename)) == PathJoin(BoilerplateDir(directory), filename)
  {
    var relative := RelativeBoilerplateFilePath(filename);
    assert relative[0] == 'c' && !StartsWith(relative, "/");
    assert !StartsWith(filename, "/");
    var dir := BoilerplateDir(directory);
    assert dir[|dir| - 1] == 'r';
    assert directory + "/" + relative == dir + "/" + filename;
  }
}

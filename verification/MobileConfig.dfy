/**
 The mobile configuration expected for an identity (scripts/workbench-fork.ts, lines
 62-87). What throws a TypeError in the program has no value here.
 */
module MobileConfig {
  import opened Text
  import opened ForkIdentity

  datatype MobileIdentity = MobileIdentity(displayName: string, slug: string, scheme: string, bundle: string, host: string)

  function DataOf(host: string, data: Json): Json {
    Obj(Spread(data)["host" := Str(host)])
  }

  /** `(v ?? []).map(..)` for a value that is mapped: its elements, or no value if it has none. */
  function Elements(v: Json): Option<seq<Json>> {
    if Nullish(v) then Some([])
    else if v.Arr? then Some(v.items)
    else None
  }

  function DatasOf(host: string, items: seq<Json>): (r: seq<Json>)
    ensures |r| == |items| && forall i :: 0 <= i < |items| ==> r[i] == DataOf(host, items[i])
  {
    seq(|items|, i requires 0 <= i < |items| => DataOf(host, items[i]))
  }

  /** One intent filter with its host replaced; no value if the program throws. */
  function FilterOf(host: string, filter: Json): Option<Json> {
    if Nullish(filter) then None
    else
      var datas := Elements(Prop(filter, "data"));
      if datas.None? then None else Some(Obj(Spread(filter)["data" := Arr(DatasOf(host, datas.value))]))
  }

  function FiltersOf(host: string, items: seq<Json>): (r: Option<seq<Json>>)
    ensures r.Some? <==> forall i :: 0 <= i < |items| ==> FilterOf(host, items[i]).Some?
    ensures r.Some? ==> |r.value| == |items| && forall i :: 0 <= i < |items| ==> FilterOf(host, items[i]) == Some(r.value[i])
  {
    if items == [] then Some([])
    else
      var front, last := FiltersOf(host, items[..|items| - 1]), FilterOf(host, items[|items| - 1]);
      assert forall i :: 0 <= i < |items| - 1 ==> items[..|items| - 1][i] == items[i];
      if front.None? || last.None? then None else Some(front.value + [last.value])
  }

  function IosOf(m: MobileIdentity, ios: Json): Json {
    Obj(Spread(ios)["bundleIdentifier" := Str(m.bundle)]["associatedDomains" := Arr([Str("applinks:" + m.host)])])
  }

  function AndroidOf(m: MobileIdentity, android: Json): Option<Json> {
    var filters := Elements(if Nullish(android) then Undefined else Prop(android, "intentFilters"));
    if filters.None? then None
    else
      var mapped := FiltersOf(m.host, filters.value);
      if mapped.None? then None
      else Some(Obj(Spread(android)["package" := Str(m.bundle)]["intentFilters" := Arr(mapped.value)]))
  }

  function ExpoOf(m: MobileIdentity, expo: Json): Option<Json>
    requires !Nullish(expo)
  {
    var android := AndroidOf(m, Prop(expo, "android"));
    if android.None? then None
    else Some(Obj(Spread(expo)["name" := Str(m.displayName)]["slug" := Str(m.slug)]["scheme" := Str(m.scheme)]
                  ["ios" := IosOf(m, Prop(expo, "ios"))]["android" := android.value]))
  }

  /** `expectedMobileConfig`; no value if it throws. */
  function ExpectedMobile(m: MobileIdentity, current: Json): Option<Json> {
    if Nullish(current) then None
    else
      var expo := Prop(current, "expo");
      var expo' := ExpoOf(m, if Nullish(expo) then Obj(map[]) else expo);
      if expo'.None? then None else Some(Obj(Spread(current)["expo" := expo'.value]))
  }

  // ----- the configurations that are already as expected

  predicate HasField(v: Json, key: string, value: Json) {
    v.Obj? && key in v.fields && v.fields[key] == value
  }

  predicate SettledData(host: string, data: Json) {
    HasField(data, "host", Str(host))
  }

  predicate SettledFilter(host: string, filter: Json) {
    && filter.Obj? && "data" in filter.fields && filter.fields["data"].Arr?
    && var datas := filter.fields["data"].items;
       forall i :: 0 <= i < |datas| ==> SettledData(host, datas[i])
  }

  predicate SettledIos(m: MobileIdentity, ios: Json) {
    && HasField(ios, "bundleIdentifier", Str(m.bundle))
    && HasField(ios, "associatedDomains", Arr([Str("applinks:" + m.host)]))
  }

  predicate SettledAndroid(m: MobileIdentity, android: Json) {
    && HasField(android, "package", Str(m.bundle))
    && "intentFilters" in android.fields && android.fields["intentFilters"].Arr?
    && var filters := android.fields["intentFilters"].items;
       forall i :: 0 <= i < |filters| ==> SettledFilter(m.host, filters[i])
  }

  predicate SettledExpo(m: MobileIdentity, expo: Json) {
    && HasField(expo, "name", Str(m.displayName)) && HasField(expo, "slug", Str(m.slug)) && HasField(expo, "scheme", Str(m.scheme))
    && "ios" in expo.fields && SettledIos(m, expo.fields["ios"])
    && "android" in expo.fields && SettledAndroid(m, expo.fields["android"])
  }

  predicate Settled(m: MobileIdentity, v: Json) {
    v.Obj? && "expo" in v.fields && SettledExpo(m, v.fields["expo"])
  }

  // ----- what is settled is not changed

  lemma PutSame(fs: map<string, Json>, k: string, v: Json)
    requires k in fs && fs[k] == v
    ensures fs[k := v] == fs
  {
  }

  lemma FilterStays(host: string, filter: Json)
    requires SettledFilter(host, filter)
    ensures FilterOf(host, filter) == Some(filter)
  {
    var datas := filter.fields["data"].items;
    forall i | 0 <= i < |datas| ensures DataOf(host, datas[i]) == datas[i] {
      assert SettledData(host, datas[i]);
      PutSame(datas[i].fields, "host", Str(host));
    }
    assert DatasOf(host, datas) == datas;
    PutSame(filter.fields, "data", Arr(datas));
  }

  lemma IosStays(m: MobileIdentity, ios: Json)
    requires SettledIos(m, ios)
    ensures IosOf(m, ios) == ios
  {
    PutSame(ios.fields, "bundleIdentifier", Str(m.bundle));
    PutSame(ios.fields, "associatedDomains", Arr([Str("applinks:" + m.host)]));
  }

  lemma FiltersStay(host: string, filters: seq<Json>)
    requires forall i :: 0 <= i < |filters| ==> SettledFilter(host, filters[i])
    ensures FiltersOf(host, filters) == Some(filters)
  {
    forall i | 0 <= i < |filters| ensures FilterOf(host, filters[i]) == Some(filters[i]) {
      FilterStays(host, filters[i]);
    }
    assert FiltersOf(host, filters).value == filters;
  }

  lemma AndroidStays(m: MobileIdentity, android: Json)
    requires SettledAndroid(m, android)
    ensures AndroidOf(m, android) == Some(android)
  {
    FiltersStay(m.host, android.fields["intentFilters"].items);
    PutSame(android.fields, "package", Str(m.bundle));
    PutSame(android.fields, "intentFilters", android.fields["intentFilters"]);
  }

  lemma ExpoStays(m: MobileIdentity, expo: Json)
    requires SettledExpo(m, expo)
    ensures ExpoOf(m, expo) == Some(expo)
  {
    IosStays(m, expo.fields["ios"]);
    AndroidStays(m, expo.fields["android"]);
    PutSame(expo.fields, "name", Str(m.displayName));
    PutSame(expo.fields, "slug", Str(m.slug));
    PutSame(expo.fields, "scheme", Str(m.scheme));
    PutSame(expo.fields, "ios", expo.fields["ios"]);
    PutSame(expo.fields, "android", expo.fields["android"]);
  }

  /** Whatever the configuration, what is computed from it for an identity is settled. */
  lemma ExpectedIsSettled(m: MobileIdentity, current: Json)
    requires ExpectedMobile(m, current).Some?
    ensures Settled(m, ExpectedMobile(m, current).value)
  {
    var expo := Prop(current, "expo");
  }

  lemma SettledStays(m: MobileIdentity, v: Json)
    requires Settled(m, v)
    ensures ExpectedMobile(m, v) == Some(v)
  {
    ExpoStays(m, v.fields["expo"]);
    PutSame(v.fields, "expo", v.fields["expo"]);
  }

  /** Computing the configuration again for the same identity changes nothing. */
  lemma ExpectedMobileIdempotent(m: MobileIdentity, current: Json)
    requires ExpectedMobile(m, current).Some?
    ensures ExpectedMobile(m, ExpectedMobile(m, current).value) == ExpectedMobile(m, current)
  {
    ExpectedIsSettled(m, current);
    SettledStays(m, ExpectedMobile(m, current).value);
  }

  /** The configurations left as they are are exactly the settled ones. */
  lemma FixedIffSettled(m: MobileIdentity, v: Json)
    ensures ExpectedMobile(m, v) == Some(v) <==> Settled(m, v)
  {
    if ExpectedMobile(m, v) == Some(v) { ExpectedIsSettled(m, v); }
    if Settled(m, v) { SettledStays(m, v); }
  }

  // ----- everything else is kept

  /** The value along a path of own properties and array elements. */
  function OwnAt(v: Json, path: seq<Step>): Json
    decreases |path|
  {
    if path == [] then v
    else
      match path[0]
      case Index(i) => OwnAt(if v.Arr? then Item(v.items, i) else Undefined, path[1..])
      case Key(k) => OwnAt(Own(v, k), path[1..])
  }

  predicate KeyOtherThan(path: seq<Step>, keys: set<string>) {
    path != [] && path[0].Key? && path[0].key !in keys
  }

  predicate Under(path: seq<Step>, key: string) {
    path != [] && path[0] == Key(key)
  }

  predicate UnderElement(path: seq<Step>, key: string) {
    |path| > 1 && path[0] == Key(key) && path[1].Index?
  }

  predicate KeptInFilter(path: seq<Step>) {
    KeyOtherThan(path, {"data"}) || (UnderElement(path, "data") && KeyOtherThan(path[2..], {"host"}))
  }

  predicate KeptInAndroid(path: seq<Step>) {
    || KeyOtherThan(path, {"package", "intentFilters"})
    || (UnderElement(path, "intentFilters") && KeptInFilter(path[2..]))
  }

  predicate KeptInExpo(path: seq<Step>) {
    || KeyOtherThan(path, {"name", "slug", "scheme", "ios", "android"})
    || (Under(path, "ios") && KeyOtherThan(path[1..], {"bundleIdentifier", "associatedDomains"}))
    || (Under(path, "android") && KeptInAndroid(path[1..]))
  }

  /** The path leads to none of the fields that configuring sets. */
  predicate Kept(path: seq<Step>) {
    KeyOtherThan(path, {"expo"}) || (Under(path, "expo") && KeptInExpo(path[1..]))
  }

  lemma {:induction false} NothingInside(v: Json, path: seq<Step>)
    requires Nullish(v) && path != []
    ensures OwnAt(v, path) == Undefined
    decreases |path|
  {
    if |path| > 1 { NothingInside(Undefined, path[1..]); }
  }

  /** The element of a mapped array and the one it came from, along the rest of a path. */
  lemma ElementAt(items: seq<Json>, path: seq<Step>)
    requires path != [] && path[0].Index?
    ensures OwnAt(Arr(items), path) == OwnAt(Item(items, path[0].i), path[1..])
  {
  }

  lemma FilterKeeps(host: string, filter: Json, path: seq<Step>)
    requires FilterOf(host, filter).Some? && KeptInFilter(path)
    ensures OwnAt(FilterOf(host, filter).value, path) == OwnAt(filter, path)
  {
    if UnderElement(path, "data") {
      var given, datas := Prop(filter, "data"), Elements(Prop(filter, "data")).value;
      var rest, i := path[1..], path[1].i;
      assert rest[1..] == path[2..];
      ElementAt(DatasOf(host, datas), rest);
      if Nullish(given) {
        NothingInside(given, rest);
        NothingInside(Undefined, path[2..]);
      } else {
        ElementAt(datas, rest);
        if i >= |datas| { NothingInside(Undefined, path[2..]); }
      }
    }
  }

  lemma FiltersKeep(host: string, given: Json, path: seq<Step>)
    requires Elements(given).Some? && FiltersOf(host, Elements(given).value).Some?
    requires |path| > 1 && path[0].Index? && KeptInFilter(path[1..])
    ensures OwnAt(Arr(FiltersOf(host, Elements(given).value).value), path) == OwnAt(given, path)
  {
    var filters, i := Elements(given).value, path[0].i;
    ElementAt(FiltersOf(host, filters).value, path);
    if Nullish(given) {
      NothingInside(given, path);
      NothingInside(Undefined, path[1..]);
    } else {
      ElementAt(filters, path);
      if i < |filters| { FilterKeeps(host, filters[i], path[1..]); }
    }
  }

  lemma AndroidKeeps(m: MobileIdentity, android: Json, path: seq<Step>)
    requires AndroidOf(m, android).Some? && KeptInAndroid(path)
    ensures OwnAt(AndroidOf(m, android).value, path) == OwnAt(android, path)
  {
    if UnderElement(path, "intentFilters") {
      assert path[1..][1..] == path[2..];
      FiltersKeep(m.host, if Nullish(android) then Undefined else Prop(android, "intentFilters"), path[1..]);
    }
  }

  lemma ExpoKeeps(m: MobileIdentity, expo: Json, path: seq<Step>)
    requires !Nullish(expo) && ExpoOf(m, expo).Some? && KeptInExpo(path)
    ensures OwnAt(ExpoOf(m, expo).value, path) == OwnAt(expo, path)
  {
    var ios, android := Prop(expo, "ios"), Prop(expo, "android");
    var expo' := ExpoOf(m, expo).value;
    if Under(path, "android") {
      AndroidKeeps(m, android, path[1..]);
    }
  }

  /** Configuring changes nothing outside the fields it sets. */
  lemma ExpectedMobileKeeps(m: MobileIdentity, current: Json, path: seq<Step>)
    requires ExpectedMobile(m, current).Some? && Kept(path)
    ensures OwnAt(ExpectedMobile(m, current).value, path) == OwnAt(current, path)
  {
    if Under(path, "expo") {
      var expo := Prop(current, "expo");
      ExpoKeeps(m, if Nullish(expo) then Obj(map[]) else expo, path[1..]);
      if Nullish(expo) {
        NothingInside(expo, path[1..]);
        EmptyInside(path[1..]);
      }
    }
  }

  lemma EmptyInside(path: seq<Step>)
    requires path != [] && path[0].Key?
    ensures OwnAt(Obj(map[]), path) == Undefined
  {
    if |path| > 1 { NothingInside(Undefined, path[1..]); }
  }
}

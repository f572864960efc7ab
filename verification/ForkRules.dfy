/**
 Which identities a fork may have, what configuring writes and what a check reports, said of
 characters, fields and paths (scripts/workbench-fork.ts, lines 31-148).
 */
module ForkRules {
  import opened Text
  import opened Characters
  import opened ForkIdentity
  import opened MobileConfig
  import opened ForkFiles

  // ----- the patterns

  predicate SmallOrDigit(c: char) {
    c in Small || c in Digits
  }

  predicate AnyLetter(c: char) {
    c in Small || c in Capital
  }

  lemma AlnumIff(c: char)
    ensures IsAlnum(c) <==> SmallOrDigit(c)
    ensures IsAlnum(LowerChar(c)) <==> AnyLetter(c) || c in Digits
    ensures IsDigit(c) <==> c in Digits
  {
    SmallIn(c);
    CapitalIn(c);
    DigitIn(c);
  }

  /** Up to 63 small letters, digits and dashes, no dash at either end. */
  lemma SlugIff(id: string)
    ensures IsSlug(id) <==>
      && 1 <= |id| <= 63 && SmallOrDigit(id[0]) && SmallOrDigit(id[|id| - 1])
      && forall i :: 0 <= i < |id| ==> SmallOrDigit(id[i]) || id[i] == '-'
  {
    forall i | 0 <= i < |id| ensures IsAlnum(id[i]) <==> SmallOrDigit(id[i]) { AlnumIff(id[i]); }
  }

  /** A small letter, and then small letters, digits, `+`, `.` and `-`. */
  lemma SchemeIff(scheme: string)
    ensures IsScheme(scheme) <==>
      && scheme != "" && scheme[0] in Small
      && forall i :: 0 <= i < |scheme| ==> SmallOrDigit(scheme[i]) || scheme[i] == '+' || scheme[i] == '.' || scheme[i] == '-'
  {
    forall i | 0 <= i < |scheme| ensures IsAlnum(scheme[i]) <==> SmallOrDigit(scheme[i]) { AlnumIff(scheme[i]); }
    if scheme != "" { SmallIn(scheme[0]); }
  }

  predicate NamePart(s: string) {
    s != "" && AnyLetter(s[0]) && forall i :: 0 <= i < |s| ==> AnyLetter(s[i]) || s[i] in Digits
  }

  predicate LabelPart(s: string) {
    s != "" && forall i :: 0 <= i < |s| ==> AnyLetter(s[i]) || s[i] in Digits || s[i] == '-'
  }

  lemma PartIff(s: string)
    ensures NamePart(s) <==> ForkFiles.IsName(s) && !IsDigit(s[0])
    ensures LabelPart(s) <==> IsLabel(s)
  {
    forall i | 0 <= i < |s| ensures IsAlnum(LowerChar(s[i])) <==> AnyLetter(s[i]) || s[i] in Digits { AlnumIff(s[i]); }
    if s != "" { FirstIsLetter(s[0]); }
  }

  lemma FirstIsLetter(c: char)
    ensures AnyLetter(c) <==> IsAlnum(LowerChar(c)) && !IsDigit(c)
  {
    AlnumIff(c);
    if c in Digits { DigitIn(c); SmallIn(c); CapitalIn(c); }
  }

  predicate BundleParts(parts: seq<string>) {
    |parts| >= 3 && NamePart(parts[0]) && forall i :: 1 <= i < |parts| ==> LabelPart(parts[i])
  }

  lemma NoDot(parts: seq<string>)
    requires BundleParts(parts)
    ensures forall p :: p in parts ==> '.' !in p
  {
    DigitIn('.');
    SmallIn('.');
    CapitalIn('.');
    forall i | 0 <= i < |parts| ensures '.' !in parts[i] {
      if i > 0 { assert LabelPart(parts[i]); }
    }
  }

  /** A name that starts with a letter, and at least two labels after it, with dots between. */
  lemma BundleIff(bundle: string)
    ensures IsBundle(bundle) <==> exists parts :: BundleParts(parts) && bundle == Join(parts, '.')
  {
    SplitBundleIff(Split(bundle, '.'), bundle);
    JoinSplit(bundle, '.');
    if parts :| BundleParts(parts) && bundle == Join(parts, '.') {
      NoDot(parts);
      SplitJoin(parts, '.');
    }
  }

  lemma SplitBundleIff(pieces: seq<string>, bundle: string)
    requires pieces == Split(bundle, '.')
    ensures IsBundle(bundle) <==> BundleParts(pieces)
  {
    forall i | 0 <= i < |pieces|
      ensures NamePart(pieces[i]) <==> ForkFiles.IsName(pieces[i]) && !IsDigit(pieces[i][0])
      ensures LabelPart(pieces[i]) <==> IsLabel(pieces[i])
    {
      PartIff(pieces[i]);
    }
  }

  /** The default scheme keeps the small letters and digits of the id, in order. */
  lemma SchemeKeeps(id: string, c: char)
    ensures DefaultScheme("") == ""
    ensures DefaultScheme(id + [c]) == DefaultScheme(id) + if SmallOrDigit(c) then [c] else ""
  {
    AlnumIff(c);
    assert (id + [c])[..|id|] == id;
  }

  /** One slash goes from the end of an origin. */
  lemma SlashDropped(s: string)
    ensures DropSlash(s + "/") == s
    ensures (forall x :: s != x + "/") ==> DropSlash(s) == s
  {
    SuffixIff(s + "/", "/");
    SuffixIff(s, "/");
    assert (s + "/")[..|s|] == s;
  }

  /** A given origin is taken trimmed and without that slash, if anything is left. */
  lemma OriginChosen(given: Option<string>, current: Json, rest: string)
    ensures given.None? ==> ChooseOrigin(given, current) == current
    ensures given.Some? && Trim(given.value) == rest + "/" ==>
      ChooseOrigin(given, current) == if rest == "" then current else Str(rest)
    ensures given.Some? && (forall x :: Trim(given.value) != x + "/") ==>
      ChooseOrigin(given, current) == if Trim(given.value) == "" then current else Str(Trim(given.value))
  {
    SlashDropped(rest);
    if given.Some? { SlashDropped(Trim(given.value)); }
  }

  /** Any other value is taken trimmed, if anything is left. */
  lemma ValueChosen(given: Option<string>, current: Json)
    ensures Choose(given, current) ==
      if given.None? || Trim(given.value) == "" then current else Str(Trim(given.value))
  {
  }

  /** An identity can be made exactly of a value that has, or is given, an id that is a text, and has a
      mobile part, unless both its parts are given. */
  lemma IdentityIff(existing: Json, values: Values)
    ensures IdentityOf(existing, values).Some? <==>
      && !existing.Undefined? && !existing.Null?
      && ((values.id.Some? && values.id.value != "") || Prop(existing, "id").Str?)
      && (|| !(Prop(existing, "mobile").Undefined? || Prop(existing, "mobile").Null?)
          || (&& values.displayName.Some? && Trim(values.displayName.value) != ""
              && values.mobileBundle.Some? && Trim(values.mobileBundle.value) != ""))
  {
  }

  ghost predicate UsableOrigin(url: Option<Url>) {
    && url.Some? && (url.value.protocol == "https:" || url.value.hostname == "localhost")
    && url.value.pathname == "/" && url.value.search == "" && url.value.hash == ""
  }

  /** The mobile part is usable. */
  ghost predicate UsableMobile(mobile: Json) {
    && (var name := Prop(mobile, "displayName"); name.Str? && Trim(name.s) != "")
    && (var scheme := Prop(mobile, "scheme"); scheme.Str? && IsScheme(scheme.s))
    && (var bundle := Prop(mobile, "bundleIdentifier"); bundle.Str? && IsBundle(bundle.s))
  }

  /** An identity is valid exactly if its schema is 1, its id a slug, its names not blank, its origin a
      bare HTTPS one or local, and its mobile part usable. */
  lemma ValidIff(identity: Json, parse: string -> Option<Url>)
    ensures Valid(identity, parse) <==>
      && Prop(identity, "schemaVersion") == Num(Finite(1.0))
      && (var id := Prop(identity, "id"); id.Str? && IsSlug(id.s))
      && (var name := Prop(identity, "displayName"); name.Str? && Trim(name.s) != "")
      && (var origin := Prop(identity, "webOrigin"); origin.Str? && UsableOrigin(parse(origin.s)))
      && UsableMobile(Prop(identity, "mobile"))
  {
  }

  // ----- what is written

  /** The parts of a configuration that follow from an identity. */
  ghost predicate FollowsFrom(identity: Json, mobile: Json, host: string) {
    && mobile.Obj? && "expo" in mobile.fields
    && var expo, own := mobile.fields["expo"], Prop(identity, "mobile");
       && HasField(expo, "name", Prop(own, "displayName")) && HasField(expo, "slug", Prop(own, "slug"))
       && HasField(expo, "scheme", Prop(own, "scheme"))
       && "ios" in expo.fields && "android" in expo.fields
       && HasField(expo.fields["ios"], "bundleIdentifier", Prop(own, "bundleIdentifier"))
       && HasField(expo.fields["ios"], "associatedDomains", Arr([Str("applinks:" + host)]))
       && HasField(expo.fields["android"], "package", Prop(own, "bundleIdentifier"))
       && HostsAre(expo.fields["android"], host)
  }

  /** Every datum of every intent filter holds the host. */
  ghost predicate HostsAre(android: Json, host: string) {
    && android.Obj? && "intentFilters" in android.fields && android.fields["intentFilters"].Arr?
    && forall f :: f in android.fields["intentFilters"].items ==>
         && f.Obj? && "data" in f.fields && f.fields["data"].Arr?
         && forall d :: d in f.fields["data"].items ==> HasField(d, "host", Str(host))
  }

  lemma AndroidFollows(m: MobileIdentity, android: Json)
    requires SettledAndroid(m, android)
    ensures HostsAre(android, m.host) && HasField(android, "package", Str(m.bundle))
  {
    var filters := android.fields["intentFilters"].items;
    forall f | f in filters
      ensures f.Obj? && "data" in f.fields && f.fields["data"].Arr?
      ensures forall d :: d in f.fields["data"].items ==> HasField(d, "host", Str(m.host))
    {
      var i :| 0 <= i < |filters| && filters[i] == f;
      assert SettledFilter(m.host, filters[i]);
      forall d | d in f.fields["data"].items ensures HasField(d, "host", Str(m.host)) {
        var j :| 0 <= j < |f.fields["data"].items| && f.fields["data"].items[j] == d;
        assert SettledData(m.host, f.fields["data"].items[j]);
      }
    }
  }

  lemma SettledFollows(identity: Json, m: MobileIdentity, v: Json)
    requires Settled(m, v)
    requires var own := Prop(identity, "mobile");
      && Str(m.displayName) == Prop(own, "displayName") && Str(m.slug) == Prop(own, "slug")
      && Str(m.scheme) == Prop(own, "scheme") && Str(m.bundle) == Prop(own, "bundleIdentifier")
    ensures FollowsFrom(identity, v, m.host)
  {
    AndroidFollows(m, v.fields["expo"].fields["android"]);
  }

  /** Of every plan: the mobile configuration follows from the identity and the host of its origin, and
      the package has its id and its description. */
  lemma PlanFollows(product: Json, mobile: Json, packageJson: Json, values: Values, parse: string -> Option<Url>)
    requires PlanOf(product, mobile, packageJson, values, parse).Some?
    ensures var plan := PlanOf(product, mobile, packageJson, values, parse).value;
      && Prop(plan.identity, "webOrigin").Str? && parse(Prop(plan.identity, "webOrigin").s).Some?
      && FollowsFrom(plan.identity, plan.mobile, parse(Prop(plan.identity, "webOrigin").s).value.host)
      && HasField(plan.packageJson, "name", Prop(plan.identity, "id"))
      && HasField(plan.packageJson, "description", Prop(plan.identity, "description"))
  {
    var plan := PlanOf(product, mobile, packageJson, values, parse).value;
    SlugIsText(product, values);
    var m := MobileFor(plan.identity, parse);
    ExpectedIsSettled(m, mobile);
    SettledFollows(plan.identity, m, plan.mobile);
    PackageFields(plan.identity, packageJson);
  }

  lemma PackageFields(identity: Json, packageJson: Json)
    ensures HasField(PackageOf(identity, packageJson), "name", Prop(identity, "id"))
    ensures HasField(PackageOf(identity, packageJson), "description", Prop(identity, "description"))
  {
    assert "name" != "description";
  }

  /** A plan is there exactly if the identity can be made and is valid, and the configuration can be
      computed: what the other file holds can be mapped. */
  lemma PlanIff(product: Json, mobile: Json, packageJson: Json, values: Values, parse: string -> Option<Url>)
    ensures PlanOf(product, mobile, packageJson, values, parse).Some? <==>
      && IdentityOf(product, values).Some? && Valid(IdentityOf(product, values).value, parse)
      && Mappable(mobile)
  {
    if IdentityOf(product, values).Some? && Valid(IdentityOf(product, values).value, parse) {
      SlugIsText(product, values);
      MappableIff(MobileFor(IdentityOf(product, values).value, parse), mobile);
    }
  }

  /** A list that can be mapped: an array, or nothing. */
  predicate Listed(v: Json) {
    v.Undefined? || v.Null? || v.Arr?
  }

  function ListOf(v: Json): seq<Json> {
    if v.Arr? then v.items else []
  }

  /** The property of a value that may be nothing. */
  function Optional(v: Json, key: string): Json {
    if v.Undefined? || v.Null? then Undefined else Prop(v, key)
  }

  /** There is a value, and its intent filters and their data, where they are given, are lists of values. */
  ghost predicate Mappable(current: Json) {
    && !current.Undefined? && !current.Null?
    && var filters := Optional(Optional(Prop(current, "expo"), "android"), "intentFilters");
       && Listed(filters)
       && forall f :: f in ListOf(filters) ==> !f.Undefined? && !f.Null? && Listed(Prop(f, "data"))
  }

  lemma FilterMapsIff(host: string, filter: Json)
    ensures FilterOf(host, filter).Some? <==> !filter.Undefined? && !filter.Null? && Listed(Prop(filter, "data"))
  {
  }

  lemma FiltersMapIff(host: string, filters: Json)
    ensures (Elements(filters).Some? && FiltersOf(host, Elements(filters).value).Some?)
       <==> Listed(filters) && forall f :: f in ListOf(filters) ==> !f.Undefined? && !f.Null? && Listed(Prop(f, "data"))
  {
    forall f ensures FilterOf(host, f).Some? <==> !f.Undefined? && !f.Null? && Listed(Prop(f, "data")) { FilterMapsIff(host, f); }
  }

  lemma AndroidMapsIff(m: MobileIdentity, android: Json)
    ensures AndroidOf(m, android).Some? <==>
      var filters := Optional(android, "intentFilters");
      Elements(filters).Some? && FiltersOf(m.host, Elements(filters).value).Some?
  {
  }

  lemma MappableIff(m: MobileIdentity, current: Json)
    ensures ExpectedMobile(m, current).Some? <==> Mappable(current)
  {
    if !Nullish(current) {
      var expo := Prop(current, "expo");
      var android := Optional(expo, "android");
      AndroidMapsIff(m, android);
      FiltersMapIff(m.host, Optional(android, "intentFilters"));
    }
  }

  // ----- what is kept of a value in a file

  /** A value that JSON can hold. */
  predicate Plain(v: Json) {
    match v
    case Undefined => false
    case Num(n) => n.Finite?
    case Arr(items) => forall i :: 0 <= i < |items| ==> Plain(items[i])
    case Obj(fields) => forall k :: k in fields ==> Plain(fields[k])
    case _ => true
  }

  lemma {:induction false} PlainStays(v: Json)
    requires Plain(v)
    ensures Stored(v) == v
  {
    match v
    case Arr(items) =>
      forall i | 0 <= i < |items| ensures Stored(items[i]) == items[i] { PlainStays(items[i]); }
      assert Stored(v).items == items;
    case Obj(fields) =>
      forall k | k in fields ensures Stored(fields[k]) == fields[k] { PlainStays(fields[k]); }
      assert Stored(v).fields == fields;
    case _ =>
  }

  /** Whatever is written can be read back as it is; undefined fields are not written. */
  lemma {:induction false} StoredIsPlain(v: Json)
    requires !v.Undefined?
    ensures Plain(Stored(v))
    ensures v.Obj? ==> Stored(v).Obj? && forall k :: k in Stored(v).fields <==> k in v.fields && !v.fields[k].Undefined?
    ensures v.Arr? ==> Stored(v).Arr? && |Stored(v).items| == |v.items|
  {
    match v
    case Arr(items) =>
      forall i | 0 <= i < |items| ensures Plain(Stored(v).items[i]) {
        if !items[i].Undefined? { StoredIsPlain(items[i]); }
      }
    case Obj(fields) =>
      forall k | k in Stored(v).fields ensures Plain(Stored(v).fields[k]) { StoredIsPlain(fields[k]); }
    case _ =>
  }

  // ----- what a check reports

  /** Along the path both values are alike, up to its end, where they are not. */
  predicate UnlikeAt(actual: Json, expected: Json, path: seq<Step>)
    decreases |path|
  {
    if path == [] then !Alike(actual, expected)
    else
      && Alike(actual, expected)
      && match path[0]
         case Index(i) =>
           expected.Arr? && i < |expected.items| && UnlikeAt(Item(actual.items, i), expected.items[i], path[1..])
         case Key(k) =>
           expected.Obj? && k in expected.fields && UnlikeAt(Prop(actual, k), expected.fields[k], path[1..])
  }

  /** How a path is written. */
  function PathText(prefix: string, path: seq<Step>): string
    decreases |path|
  {
    if path == [] then prefix
    else
      match path[0]
      case Index(i) => PathText(prefix + "[" + Decimal(i) + "]", path[1..])
      case Key(k) => PathText(if prefix == "" then k else prefix + "." + k, path[1..])
  }

  lemma FirstStep(actual: Json, expected: Json, prefix: string, step: Step, rest: seq<Step>)
    ensures UnlikeAt(actual, expected, [step] + rest) <==>
      && Alike(actual, expected)
      && (if step.Index? then
            expected.Arr? && step.i < |expected.items| && UnlikeAt(Item(actual.items, step.i), expected.items[step.i], rest)
          else
            expected.Obj? && step.key in expected.fields && UnlikeAt(Prop(actual, step.key), expected.fields[step.key], rest))
    ensures PathText(prefix, [step] + rest)
         == PathText(if step.Index? then ItemPath(prefix, step.i) else FieldPath(prefix, step.key), rest)
  {
    assert ([step] + rest)[1..] == rest;
  }

  /** What is reported leads to a place where the values are not alike. */
  lemma {:induction false} ReportedAt(actual: Json, expected: Json, prefix: string, p: string) returns (path: seq<Step>)
    requires p in Differences(actual, expected, prefix)
    ensures UnlikeAt(actual, expected, path) && p == PathText(prefix, path)
    decreases expected
  {
    path := [];
    match expected
    case Arr(items) =>
      if actual.Arr? {
        var i: nat :| i < |items| && p in Differences(Item(actual.items, i), items[i], ItemPath(prefix, i));
        var rest := ReportedAt(Item(actual.items, i), items[i], ItemPath(prefix, i), p);
        path := [Index(i)] + rest;
        FirstStep(actual, expected, prefix, Index(i), rest);
      }
    case Obj(fields) =>
      if Container(actual) {
        var k :| k in fields && p in Differences(Prop(actual, k), fields[k], FieldPath(prefix, k));
        var rest := ReportedAt(Prop(actual, k), fields[k], FieldPath(prefix, k), p);
        path := [Key(k)] + rest;
        FirstStep(actual, expected, prefix, Key(k), rest);
      }
    case _ =>
  }

  lemma {:induction false} UnlikeReported(actual: Json, expected: Json, prefix: string, path: seq<Step>)
    requires UnlikeAt(actual, expected, path)
    ensures PathText(prefix, path) in Differences(actual, expected, prefix)
    decreases |path|
  {
    if path != [] {
      match path[0]
      case Index(i) => UnlikeReported(Item(actual.items, i), expected.items[i], ItemPath(prefix, i), path[1..]);
      case Key(k) => UnlikeReported(Prop(actual, k), expected.fields[k], FieldPath(prefix, k), path[1..]);
    }
  }

  /** The paths reported are exactly those to the first places where the values are not alike. */
  lemma ReportedIff(actual: Json, expected: Json, p: string)
    ensures p in Differences(actual, expected, "")
       <==> exists path :: UnlikeAt(actual, expected, path) && p == PathText("", path)
  {
    if p in Differences(actual, expected, "") { var path := ReportedAt(actual, expected, "", p); }
    if path :| UnlikeAt(actual, expected, path) && p == PathText("", path) { UnlikeReported(actual, expected, "", path); }
  }

  ghost predicate ReportedIn(file: string, paths: set<string>, error: string) {
    exists p :: p in paths && error == file + p
  }

  lemma InFileIff(file: string, paths: set<string>, error: string)
    ensures error in InFile(file, paths) <==> ReportedIn(file, paths, error)
  {
  }

  /** Each is reported with its file. */
  lemma DriftIff(product: Json, mobile: Json, packageJson: Json, plan: Plan, error: string)
    ensures error in Drifted(product, mobile, packageJson, plan) <==>
      || ReportedIn("config/product.json:", Differences(product, plan.identity, ""), error)
      || ReportedIn("apps/mobile/app.json:", Differences(mobile, plan.mobile, ""), error)
      || ReportedIn("package.json:", Differences(packageJson, plan.packageJson, ""), error)
  {
    InFileIff("config/product.json:", Differences(product, plan.identity, ""), error);
    InFileIff("apps/mobile/app.json:", Differences(mobile, plan.mobile, ""), error);
    InFileIff("package.json:", Differences(packageJson, plan.packageJson, ""), error);
  }

  /** What a property of a value is. */
  lemma PropIs(fields: map<string, Json>, items: seq<Json>, key: string, i: nat)
    ensures Prop(Obj(fields), key) == if key in fields then fields[key] else Undefined
    ensures i < |items| ==> Prop(Arr(items), Decimal(i)) == items[i]
  {
    if i < |items| {
      IndexedAt(items, i);
      LengthIsNoNumber(i);
    }
  }

  lemma LengthIsNoNumber(i: nat)
    ensures Decimal(i) != "length"
  {
    assert IsDigit(Decimal(i)[0]) && !IsDigit("length"[0]);
  }
}

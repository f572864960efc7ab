/**
 Configuring and checking the identity of a fork (scripts/workbench-fork.ts, lines
 31-60 and 109-148). URL parsing is a parameter; a web origin or a bundle identifier
 that is not a string is rejected.
 */
module ForkFiles {
  import opened Text
  import opened ForkIdentity
  import opened MobileConfig

  // ----- what a file keeps of a value

  function StoredNumber(n: Number): Json {
    match n
    case NegativeZero => Num(Finite(0.0))
    case Infinite(_) => Null
    case Finite(_) => Num(n)
  }

  /** `JSON.parse(JSON.stringify(v))` */
  function Stored(v: Json): Json {
    match v
    case Num(n) => StoredNumber(n)
    case Arr(items) => Arr(seq(|items|, i requires 0 <= i < |items| => if items[i].Undefined? then Null else Stored(items[i])))
    case Obj(fields) => Obj(map k | k in fields && !fields[k].Undefined? :: Stored(fields[k]))
    case _ => v
  }

  // ----- the rules for an identity

  predicate IsAlnum(c: char) {
    'a' <= c <= 'z' || '0' <= c <= '9'
  }

  /** `/^[a-z0-9](?:[a-z0-9-]{0,61}[a-z0-9])?$/` */
  predicate IsSlug(id: string) {
    && 1 <= |id| <= 63 && IsAlnum(id[0]) && IsAlnum(id[|id| - 1])
    && forall i :: 0 <= i < |id| ==> IsAlnum(id[i]) || id[i] == '-'
  }

  /** `/^[a-z][a-z0-9+.-]*$/` */
  predicate IsScheme(scheme: string) {
    && scheme != "" && 'a' <= scheme[0] <= 'z'
    && forall i :: 0 <= i < |scheme| ==> IsAlnum(scheme[i]) || scheme[i] in "+.-"
  }

  predicate IsName(s: string) {
    s != "" && forall i :: 0 <= i < |s| ==> IsAlnum(LowerChar(s[i]))
  }

  predicate IsLabel(s: string) {
    s != "" && forall i :: 0 <= i < |s| ==> IsAlnum(LowerChar(s[i])) || s[i] == '-'
  }

  /** `/^[A-Za-z][A-Za-z0-9]*(?:\.[A-Za-z0-9-]+){2,}$/` */
  predicate IsBundle(bundle: string) {
    var pieces := Split(bundle, '.');
    && |pieces| >= 3 && IsName(pieces[0]) && !IsDigit(pieces[0][0])
    && forall i :: 1 <= i < |pieces| ==> IsLabel(pieces[i])
  }

  /** `id.replace(/[^a-z0-9]/g, "")` */
  function DefaultScheme(id: string): string {
    if id == "" then "" else DefaultScheme(id[..|id| - 1]) + if IsAlnum(id[|id| - 1]) then [id[|id| - 1]] else ""
  }

  lemma {:induction false} SchemeShape(id: string)
    ensures forall i :: 0 <= i < |DefaultScheme(id)| ==> IsAlnum(DefaultScheme(id)[i])
    ensures id != "" && IsAlnum(id[0]) ==> DefaultScheme(id) != "" && DefaultScheme(id)[0] == id[0]
  {
    if id != "" {
      SchemeShape(id[..|id| - 1]);
    }
  }

  /** Of the ids the pattern admits, those that start with a letter also have a scheme. */
  lemma SlugHasSchemeIff(id: string)
    requires IsSlug(id)
    ensures IsScheme(DefaultScheme(id)) <==> 'a' <= id[0] <= 'z'
  {
    SchemeShape(id);
  }

  /** What parsing a URL gives. */
  datatype Url = Url(protocol: string, hostname: string, host: string, pathname: string, search: string, hash: string)

  predicate IsOrigin(url: Option<Url>) {
    && url.Some?
    && (url.value.protocol == "https:" || url.value.hostname == "localhost")
    && url.value.pathname == "/" && url.value.search == "" && url.value.hash == ""
  }

  predicate NonBlank(v: Json) {
    v.Str? && Trim(v.s) != ""
  }

  /** `validateForkIdentity` accepts. */
  predicate Valid(identity: Json, parse: string -> Option<Url>) {
    var mobile := Prop(identity, "mobile");
    && Prop(identity, "schemaVersion") == Num(Finite(1.0))
    && Prop(identity, "id").Str? && IsSlug(Prop(identity, "id").s)
    && NonBlank(Prop(identity, "displayName")) && NonBlank(Prop(mobile, "displayName"))
    && Prop(identity, "webOrigin").Str? && IsOrigin(parse(Prop(identity, "webOrigin").s))
    && Prop(mobile, "scheme").Str? && IsScheme(Prop(mobile, "scheme").s)
    && Prop(mobile, "bundleIdentifier").Str? && IsBundle(Prop(mobile, "bundleIdentifier").s)
  }

  // ----- the identity to configure

  /** The values given on the command line. */
  datatype Values = Values(id: Option<string>, displayName: Option<string>, description: Option<string>,
                           webOrigin: Option<string>, mobileBundle: Option<string>)

  const NoValues := Values(None, None, None, None, None)

  /** `given?.trim() || current` */
  function Choose(given: Option<string>, current: Json): Json {
    if given.Some? && Trim(given.value) != "" then Str(Trim(given.value)) else current
  }

  predicate Given(value: Option<string>) {
    value.Some? && Trim(value.value) != ""
  }

  function DropSlash(s: string): string {
    if EndsWith(s, "/") then s[..|s| - 1] else s
  }

  function ChooseOrigin(given: Option<string>, current: Json): Json {
    if given.Some? && DropSlash(Trim(given.value)) != "" then Str(DropSlash(Trim(given.value))) else current
  }

  function MobileOf(existing: Json, values: Values, id: string): Json {
    var mobile := Prop(existing, "mobile");
    Obj(Spread(mobile)
        ["displayName" := Choose(values.displayName, Own(mobile, "displayName"))]
        ["slug" := Str(id)]
        ["scheme" := Str(DefaultScheme(id))]
        ["bundleIdentifier" := Choose(values.mobileBundle, Own(mobile, "bundleIdentifier"))])
  }

  /** The identity the given values make of the existing one; no value if the program throws. */
  function IdentityOf(existing: Json, values: Values): Option<Json> {
    if Nullish(existing) then None
    else
      var id := if values.id.Some? && values.id.value != "" then Str(Lower(Trim(values.id.value))) else Prop(existing, "id");
      var needsMobile := !Given(values.displayName) || !Given(values.mobileBundle);
      if !id.Str? || (Nullish(Prop(existing, "mobile")) && needsMobile) then None
      else
        Some(Obj(Spread(existing)
                 ["id" := id]
                 ["displayName" := Choose(values.displayName, Prop(existing, "displayName"))]
                 ["webTitle" := Choose(values.displayName, Prop(existing, "webTitle"))]
                 ["description" := Choose(values.description, Prop(existing, "description"))]
                 ["webOrigin" := ChooseOrigin(values.webOrigin, Prop(existing, "webOrigin"))]
                 ["mobile" := MobileOf(existing, values, id.s)]))
  }

  /** What one run computes. */
  datatype Plan = Plan(identity: Json, mobile: Json, packageJson: Json)

  function MobileFor(identity: Json, parse: string -> Option<Url>): MobileIdentity
    requires Valid(identity, parse)
    requires Prop(Prop(identity, "mobile"), "slug").Str?
  {
    var mobile := Prop(identity, "mobile");
    MobileIdentity(Prop(mobile, "displayName").s, Prop(mobile, "slug").s, Prop(mobile, "scheme").s,
                   Prop(mobile, "bundleIdentifier").s, parse(Prop(identity, "webOrigin").s).value.host)
  }

  function PackageOf(identity: Json, packageJson: Json): Json {
    Obj(Spread(packageJson)["name" := Prop(identity, "id")]["description" := Prop(identity, "description")])
  }

  lemma SlugIsText(existing: Json, values: Values)
    requires IdentityOf(existing, values).Some?
    ensures Prop(Prop(IdentityOf(existing, values).value, "mobile"), "slug").Str?
  {
    assert |"slug"| == 4 && |"scheme"| == 6 && |"bundleIdentifier"| == 16;
  }

  /** The identity and the files it asks for; no value if the program throws. */
  function PlanOf(product: Json, mobile: Json, packageJson: Json, values: Values, parse: string -> Option<Url>): Option<Plan> {
    var identity := IdentityOf(product, values);
    if identity.None? || !Valid(identity.value, parse) then None
    else
      SlugIsText(product, values);
      var mobile' := ExpectedMobile(MobileFor(identity.value, parse), mobile);
      if mobile'.None? then None else Some(Plan(identity.value, mobile'.value, PackageOf(identity.value, packageJson)))
  }

  /** `differences(..).map((path) => `${file}:${path}`)` */
  function InFile(file: string, paths: set<string>): set<string> {
    set p | p in paths :: file + p
  }

  /** The drift between the files and a plan. */
  function Drifted(product: Json, mobile: Json, packageJson: Json, plan: Plan): set<string> {
    InFile("config/product.json:", Differences(product, plan.identity, ""))
    + InFile("apps/mobile/app.json:", Differences(mobile, plan.mobile, ""))
    + InFile("package.json:", Differences(packageJson, plan.packageJson, ""))
  }

  datatype Outcome = Threw | Drift(errors: set<string>) | Done(identity: Json)

  class ForkRoot {
    var product: Json
    var mobile: Json
    var packageJson: Json

    /** `configureForkIdentity` in mode `init`: three files are overwritten. */
    method Init(values: Values, parse: string -> Option<Url>) returns (outcome: Outcome)
      modifies this
      ensures var plan := PlanOf(old(product), old(mobile), old(packageJson), values, parse);
        if plan.None? then outcome == Threw && unchanged(this)
        else
          && outcome == Done(plan.value.identity)
          && product == Stored(plan.value.identity)
          && mobile == Stored(plan.value.mobile)
          && packageJson == Stored(plan.value.packageJson)
    {
      var plan := PlanOf(product, mobile, packageJson, values, parse);
      if plan.None? { return Threw; }
      product := Stored(plan.value.identity);
      mobile := Stored(plan.value.mobile);
      packageJson := Stored(plan.value.packageJson);
      outcome := Done(plan.value.identity);
    }

    /** `configureForkIdentity` in mode `check`: nothing is written. It succeeds exactly if
        every file holds, at every path, what the plan expects there. */
    method Check(values: Values, parse: string -> Option<Url>) returns (outcome: Outcome)
      ensures outcome.Threw? <==> PlanOf(product, mobile, packageJson, values, parse).None?
      ensures outcome.Done? <==>
        && PlanOf(product, mobile, packageJson, values, parse).Some?
        && Holds(product, mobile, packageJson, PlanOf(product, mobile, packageJson, values, parse).value)
      ensures outcome.Done? ==> outcome.identity == PlanOf(product, mobile, packageJson, values, parse).value.identity
      ensures outcome.Drift? ==>
        outcome.errors == Drifted(product, mobile, packageJson, PlanOf(product, mobile, packageJson, values, parse).value) != {}
    {
      var plan := PlanOf(product, mobile, packageJson, values, parse);
      if plan.None? { return Threw; }
      var errors := Drifted(product, mobile, packageJson, plan.value);
      NoDriftIffHeld(product, mobile, packageJson, plan.value);
      outcome := if errors == {} then Done(plan.value.identity) else Drift(errors);
    }
  }

  /** Each file contains what the plan expects of it. */
  ghost predicate Holds(product: Json, mobile: Json, packageJson: Json, plan: Plan) {
    Contains(product, plan.identity) && Contains(mobile, plan.mobile) && Contains(packageJson, plan.packageJson)
  }

  lemma NoPathsIff(paths: set<string>, file: string)
    ensures InFile(file, paths) == {} <==> paths == {}
  {
    if p :| p in paths { assert file + p in InFile(file, paths); }
  }

  /** No drift exactly if the files hold the plan. */
  lemma NoDriftIffHeld(product: Json, mobile: Json, packageJson: Json, plan: Plan)
    ensures Drifted(product, mobile, packageJson, plan) == {} <==> Holds(product, mobile, packageJson, plan)
  {
    NoPathsIff(Differences(product, plan.identity, ""), "config/product.json:");
    NoPathsIff(Differences(mobile, plan.mobile, ""), "apps/mobile/app.json:");
    NoPathsIff(Differences(packageJson, plan.packageJson, ""), "package.json:");
    NoDifferenceIffContained(product, plan.identity, "");
    NoDifferenceIffContained(mobile, plan.mobile, "");
    NoDifferenceIffContained(packageJson, plan.packageJson, "");
  }

  // ----- what is stored

  lemma StoredField(v: Json, key: string)
    requires v.Obj?
    ensures Own(Stored(v), key) == Stored(Own(v, key))
  {
  }

  lemma {:induction false} StoredKeeps(v: Json, key: string, s: string)
    requires HasField(v, key, Str(s))
    ensures HasField(Stored(v), key, Str(s))
  {
  }

  lemma StoredDomains(v: Json, host: string)
    requires HasField(v, "associatedDomains", Arr([Str(host)]))
    ensures HasField(Stored(v), "associatedDomains", Arr([Str(host)]))
  {
    assert Stored(Arr([Str(host)])) == Arr([Str(host)]);
  }

  lemma StoredFilter(host: string, filter: Json)
    requires SettledFilter(host, filter)
    ensures SettledFilter(host, Stored(filter))
  {
    var datas := filter.fields["data"].items;
    var stored := Stored(filter);
    assert stored.fields["data"] == Stored(Arr(datas));
    forall i | 0 <= i < |datas| ensures SettledData(host, Stored(datas[i])) {
      assert SettledData(host, datas[i]);
      StoredKeeps(datas[i], "host", host);
    }
  }

  lemma StoredAndroid(m: MobileIdentity, android: Json)
    requires SettledAndroid(m, android)
    ensures SettledAndroid(m, Stored(android))
  {
    StoredKeeps(android, "package", m.bundle);
    var filters := android.fields["intentFilters"].items;
    assert Stored(android).fields["intentFilters"] == Stored(Arr(filters));
    forall i | 0 <= i < |filters| ensures SettledFilter(m.host, Stored(filters[i])) {
      StoredFilter(m.host, filters[i]);
    }
  }

  lemma StoredIos(m: MobileIdentity, ios: Json)
    requires SettledIos(m, ios)
    ensures SettledIos(m, Stored(ios))
  {
    StoredKeeps(ios, "bundleIdentifier", m.bundle);
    StoredDomains(ios, "applinks:" + m.host);
  }

  lemma StoredExpo(m: MobileIdentity, expo: Json)
    requires SettledExpo(m, expo)
    ensures SettledExpo(m, Stored(expo))
  {
    StoredKeeps(expo, "name", m.displayName);
    StoredKeeps(expo, "slug", m.slug);
    StoredKeeps(expo, "scheme", m.scheme);
    StoredIos(m, expo.fields["ios"]);
    StoredAndroid(m, expo.fields["android"]);
  }

  lemma StoredSettled(m: MobileIdentity, v: Json)
    requires Settled(m, v)
    ensures Settled(m, Stored(v))
  {
    StoredExpo(m, v.fields["expo"]);
  }

  // ----- a check after an initialization

  /** Every field holds what the value holds there. */
  ghost predicate Agrees(v: Json, fs: map<string, Json>) {
    forall k :: k in fs ==> fs[k] == Own(v, k)
  }

  lemma AgreesPut(v: Json, fs: map<string, Json>, key: string, value: Json)
    requires Agrees(v, fs) && value == Own(v, key)
    ensures Agrees(v, fs[key := value])
  {
  }

  lemma AgreeingIsContained(v: Json, fs: map<string, Json>)
    requires v.Obj? && Agrees(v, fs)
    ensures Differences(v, Obj(fs), "") == {}
  {
    forall k | k in fs ensures Differences(Prop(v, k), fs[k], FieldPath("", k)) == {} {
      NoDifferenceFromItself(fs[k], FieldPath("", k));
    }
  }

  lemma SameFields(v: Json, fs: map<string, Json>, key: string)
    requires v.Obj? && Agrees(v, fs) && v.fields.Keys <= fs.Keys
    ensures Prop(Obj(fs), key) == Prop(v, key)
  {
  }

  /** The four fields set in the mobile part do not overwrite one another. */
  lemma MobileFields(fs: map<string, Json>, name: Json, slug: Json, scheme: Json, bundle: Json, r: map<string, Json>)
    requires r == fs["displayName" := name]["slug" := slug]["scheme" := scheme]["bundleIdentifier" := bundle]
    ensures HasField(Obj(r), "displayName", name) && HasField(Obj(r), "slug", slug)
    ensures HasField(Obj(r), "scheme", scheme) && HasField(Obj(r), "bundleIdentifier", bundle)
  {
    assert |"displayName"| == 11 && |"slug"| == 4 && |"scheme"| == 6 && |"bundleIdentifier"| == 16;
  }

  /** The six fields set in the identity do not overwrite one another. */
  lemma SixFields(fs: map<string, Json>, id: Json, name: Json, title: Json, description: Json, origin: Json, mobile: Json,
                  r: map<string, Json>)
    requires r == fs["id" := id]["displayName" := name]["webTitle" := title]["description" := description]
                    ["webOrigin" := origin]["mobile" := mobile]
    ensures HasField(Obj(r), "id", id) && HasField(Obj(r), "displayName", name) && HasField(Obj(r), "webTitle", title)
    ensures HasField(Obj(r), "description", description) && HasField(Obj(r), "webOrigin", origin) && HasField(Obj(r), "mobile", mobile)
  {
    assert "displayName"[1] == 'i' && "description"[1] == 'e';
    assert |"id"| == 2 && |"displayName"| == 11 && |"webTitle"| == 8 && |"description"| == 11 && |"webOrigin"| == 9 && |"mobile"| == 6;
  }

  lemma IdentityFields(existing: Json, values: Values)
    requires IdentityOf(existing, values).Some?
    ensures var i := IdentityOf(existing, values).value;
      var id := if values.id.Some? && values.id.value != "" then Str(Lower(Trim(values.id.value))) else Prop(existing, "id");
      && id.Str? && HasField(i, "id", id)
      && HasField(i, "displayName", Choose(values.displayName, Prop(existing, "displayName")))
      && HasField(i, "webTitle", Choose(values.displayName, Prop(existing, "webTitle")))
      && HasField(i, "description", Choose(values.description, Prop(existing, "description")))
      && HasField(i, "webOrigin", ChooseOrigin(values.webOrigin, Prop(existing, "webOrigin")))
      && HasField(i, "mobile", MobileOf(existing, values, id.s))
  {
    var i := IdentityOf(existing, values).value;
    var id := if values.id.Some? && values.id.value != "" then Str(Lower(Trim(values.id.value))) else Prop(existing, "id");
    SixFields(Spread(existing), id, Choose(values.displayName, Prop(existing, "displayName")),
              Choose(values.displayName, Prop(existing, "webTitle")), Choose(values.description, Prop(existing, "description")),
              ChooseOrigin(values.webOrigin, Prop(existing, "webOrigin")), MobileOf(existing, values, id.s), i.fields);
  }

  /** What the given values set: every field given holds it, trimmed, and what is not given
      stays; the slug is the id and the scheme is made from it. */
  lemma GivenValuesSet(existing: Json, values: Values)
    requires IdentityOf(existing, values).Some?
    ensures var i := IdentityOf(existing, values).value;
      var m, was := Prop(i, "mobile"), Prop(existing, "mobile");
      && (if values.id.Some? && values.id.value != "" then Prop(i, "id") == Str(Lower(Trim(values.id.value)))
          else Prop(i, "id") == Prop(existing, "id"))
      && Prop(m, "slug") == Prop(i, "id") && Prop(m, "scheme") == Str(DefaultScheme(Prop(i, "id").s))
      && (if Given(values.displayName) then
            Prop(i, "displayName") == Prop(i, "webTitle") == Prop(m, "displayName") == Str(Trim(values.displayName.value))
          else
            && Prop(i, "displayName") == Prop(existing, "displayName") && Prop(i, "webTitle") == Prop(existing, "webTitle")
            && Prop(m, "displayName") == Prop(was, "displayName"))
      && Prop(m, "bundleIdentifier") == Choose(values.mobileBundle, Prop(was, "bundleIdentifier"))
      && Prop(i, "description") == Choose(values.description, Prop(existing, "description"))
      && Prop(i, "webOrigin") == ChooseOrigin(values.webOrigin, Prop(existing, "webOrigin"))
  {
    IdentityFields(existing, values);
    var i, was := IdentityOf(existing, values).value, Prop(existing, "mobile");
    var id := Prop(i, "id");
    MobileFields(Spread(was), Choose(values.displayName, Own(was, "displayName")), Str(id.s), Str(DefaultScheme(id.s)),
                 Choose(values.mobileBundle, Own(was, "bundleIdentifier")), Prop(i, "mobile").fields);
  }

  /** No other field of the product file is changed. */
  lemma OtherFieldsKept(product: Json, values: Values, key: string)
    requires IdentityOf(product, values).Some?
    requires key !in {"id", "displayName", "webTitle", "description", "webOrigin", "mobile"}
    ensures Own(IdentityOf(product, values).value, key) == Own(product, key)
  {
  }

  lemma OtherMobileFieldsKept(product: Json, values: Values, key: string)
    requires IdentityOf(product, values).Some? && key !in {"displayName", "slug", "scheme", "bundleIdentifier"}
    ensures Own(Prop(IdentityOf(product, values).value, "mobile"), key) == Own(Prop(product, "mobile"), key)
  {
    IdentityFields(product, values);
  }

  lemma OtherPackageFieldsKept(identity: Json, packageJson: Json, key: string)
    requires key !in {"name", "description"}
    ensures Own(PackageOf(identity, packageJson), key) == Own(packageJson, key)
  {
  }

  lemma MobileAgain(e: Json, id: string)
    requires var mobile := Prop(e, "mobile");
      && HasField(mobile, "slug", Str(id)) && HasField(mobile, "scheme", Str(DefaultScheme(id)))
      && "displayName" in mobile.fields && "bundleIdentifier" in mobile.fields
    ensures MobileOf(e, NoValues, id) == Prop(e, "mobile")
  {
    var fs := Prop(e, "mobile").fields;
    PutSame(fs, "displayName", fs["displayName"]);
    PutSame(fs, "slug", Str(id));
    PutSame(fs, "scheme", Str(DefaultScheme(id)));
    PutSame(fs, "bundleIdentifier", fs["bundleIdentifier"]);
  }

  /** An identity whose mobile part is derived from its id is read back as it is. */
  lemma IdentityAgain(e: Json)
    requires e.Obj? && Prop(e, "id").Str? && Prop(e, "mobile").Obj?
    requires MobileOf(e, NoValues, Prop(e, "id").s) == Prop(e, "mobile")
    ensures var again := IdentityOf(e, NoValues);
      && again.Some? && again.value.Obj? && Agrees(e, again.value.fields) && e.fields.Keys <= again.value.fields.Keys
  {
    var f1 := e.fields["id" := Prop(e, "id")];
    AgreesPut(e, e.fields, "id", Prop(e, "id"));
    var f2 := f1["displayName" := Prop(e, "displayName")];
    AgreesPut(e, f1, "displayName", Prop(e, "displayName"));
    var f3 := f2["webTitle" := Prop(e, "webTitle")];
    AgreesPut(e, f2, "webTitle", Prop(e, "webTitle"));
    var f4 := f3["description" := Prop(e, "description")];
    AgreesPut(e, f3, "description", Prop(e, "description"));
    var f5 := f4["webOrigin" := Prop(e, "webOrigin")];
    AgreesPut(e, f4, "webOrigin", Prop(e, "webOrigin"));
    AgreesPut(e, f5, "mobile", Prop(e, "mobile"));
    assert IdentityOf(e, NoValues) == Some(Obj(f5["mobile" := Prop(e, "mobile")]));
  }

  lemma StoredMobile(mobile: Json, id: string)
    requires mobile.Obj? && HasField(mobile, "slug", Str(id)) && HasField(mobile, "scheme", Str(DefaultScheme(id)))
    requires Own(mobile, "displayName").Str? && Own(mobile, "bundleIdentifier").Str?
    ensures HasField(Stored(mobile), "slug", Str(id)) && HasField(Stored(mobile), "scheme", Str(DefaultScheme(id)))
    ensures "displayName" in Stored(mobile).fields && "bundleIdentifier" in Stored(mobile).fields
  {
    StoredKeeps(mobile, "slug", id);
    StoredKeeps(mobile, "scheme", DefaultScheme(id));
  }

  /** Storing an identity keeps it valid and keeps what the other files are made of. */
  lemma StoredIsValid(i: Json, parse: string -> Option<Url>)
    requires i.Obj? && Prop(i, "mobile").Obj? && Valid(i, parse) && Prop(Prop(i, "mobile"), "slug").Str?
    ensures Valid(Stored(i), parse) && Prop(Prop(Stored(i), "mobile"), "slug").Str?
    ensures MobileFor(Stored(i), parse) == MobileFor(i, parse)
  {
    var mobile := Prop(i, "mobile");
    StoredField(i, "mobile");
    StoredField(i, "schemaVersion");
    StoredField(i, "id");
    StoredField(i, "displayName");
    StoredField(i, "webOrigin");
    StoredField(mobile, "displayName");
    StoredField(mobile, "slug");
    StoredField(mobile, "scheme");
    StoredField(mobile, "bundleIdentifier");
  }

  lemma SameValidity(e: Json, i: Json, parse: string -> Option<Url>)
    requires Prop(i, "mobile") == Prop(e, "mobile") && Prop(i, "schemaVersion") == Prop(e, "schemaVersion")
    requires Prop(i, "id") == Prop(e, "id") && Prop(i, "displayName") == Prop(e, "displayName")
    requires Prop(i, "webOrigin") == Prop(e, "webOrigin")
    requires Valid(e, parse) && Prop(Prop(e, "mobile"), "slug").Str?
    ensures Valid(i, parse) && MobileFor(i, parse) == MobileFor(e, parse)
  {
  }

  /** The mobile part that was stored is the one derived from the stored identity. */
  /** The mobile part of an identity. */
  lemma MobilePart(product: Json, values: Values, i: Json)
    requires IdentityOf(product, values) == Some(i)
    ensures i.Obj? && Prop(i, "id").Str? && Prop(i, "mobile").Obj?
    ensures var id, mobile := Prop(i, "id").s, Prop(i, "mobile");
      HasField(mobile, "slug", Str(id)) && HasField(mobile, "scheme", Str(DefaultScheme(id)))
  {
    IdentityFields(product, values);
    var id, mobile, was := Prop(i, "id").s, Prop(i, "mobile"), Prop(product, "mobile");
    MobileFields(Spread(was), Choose(values.displayName, Own(was, "displayName")), Str(id), Str(DefaultScheme(id)),
                 Choose(values.mobileBundle, Own(was, "bundleIdentifier")), mobile.fields);
  }

  lemma StoredMobilePart(product: Json, values: Values, parse: string -> Option<Url>, i: Json)
    requires IdentityOf(product, values) == Some(i) && Valid(i, parse)
    ensures i.Obj? && Prop(i, "mobile").Obj? && Prop(Prop(i, "mobile"), "slug").Str?
    ensures Prop(Stored(i), "id") == Prop(i, "id") && Prop(Stored(i), "mobile").Obj?
    ensures MobileOf(Stored(i), NoValues, Prop(i, "id").s) == Prop(Stored(i), "mobile")
  {
    MobilePart(product, values, i);
    var id := Prop(i, "id").s;
    StoredMobile(Prop(i, "mobile"), id);
    StoredField(i, "id");
    StoredField(i, "mobile");
    MobileAgain(Stored(i), id);
  }

  /** The identity written is read back as a valid one, with the same mobile identity, and
      holds nothing the file does not. */
  lemma ProductConsistent(product: Json, values: Values, parse: string -> Option<Url>, i: Json)
    requires IdentityOf(product, values) == Some(i) && Valid(i, parse)
    requires Prop(Prop(i, "mobile"), "slug").Str?
    ensures var again := IdentityOf(Stored(i), NoValues);
      && again.Some? && Valid(again.value, parse) && Prop(Prop(again.value, "mobile"), "slug").Str?
      && MobileFor(again.value, parse) == MobileFor(i, parse)
      && Prop(again.value, "id") == Stored(Prop(i, "id")) && Prop(again.value, "description") == Stored(Prop(i, "description"))
      && Differences(Stored(i), again.value, "") == {}
  {
    var e := Stored(i);
    StoredMobilePart(product, values, parse, i);
    StoredIsValid(i, parse);
    StoredField(i, "description");
    IdentityAgain(e);
    var fs := IdentityOf(e, NoValues).value.fields;
    forall k ensures Prop(Obj(fs), k) == Prop(e, k) {
      SameFields(e, fs, k);
    }
    SameValidity(e, Obj(fs), parse);
    AgreeingIsContained(e, fs);
  }

  lemma PackageConsistent(identity: Json, again: Json, packageJson: Json)
    requires Prop(again, "id") == Stored(Prop(identity, "id")) && Prop(again, "description") == Stored(Prop(identity, "description"))
    ensures var stored := Stored(PackageOf(identity, packageJson)); Differences(stored, PackageOf(again, stored), "") == {}
  {
    var written := PackageOf(identity, packageJson);
    var stored := Stored(written);
    assert |"name"| == 4 && |"description"| == 11;
    StoredField(written, "name");
    StoredField(written, "description");
    AgreesPut(stored, stored.fields, "name", Prop(again, "id"));
    var fs := stored.fields["name" := Prop(again, "id")];
    AgreesPut(stored, fs, "description", Prop(again, "description"));
    AgreeingIsContained(stored, fs["description" := Prop(again, "description")]);
  }

  lemma PlanAgain(e: Json, v: Json, p: Json, i: Json, m: MobileIdentity, parse: string -> Option<Url>)
    requires IdentityOf(e, NoValues) == Some(i) && Valid(i, parse) && Prop(Prop(i, "mobile"), "slug").Str?
    requires MobileFor(i, parse) == m && ExpectedMobile(m, v) == Some(v)
    ensures PlanOf(e, v, p, NoValues, parse) == Some(Plan(i, v, PackageOf(i, p)))
  {
  }

  lemma NoDrift(e: Json, v: Json, p: Json, plan: Plan)
    requires Differences(e, plan.identity, "") == {} && Differences(v, plan.mobile, "") == {}
    requires Differences(p, plan.packageJson, "") == {}
    ensures Drifted(e, v, p, plan) == {}
  {
  }

  /** After a successful initialization the files, read back, show no drift. */
  lemma InitMakesConsistent(product: Json, mobile: Json, packageJson: Json, values: Values, parse: string -> Option<Url>)
    requires PlanOf(product, mobile, packageJson, values, parse).Some?
    ensures var plan := PlanOf(product, mobile, packageJson, values, parse).value;
      var again := PlanOf(Stored(plan.identity), Stored(plan.mobile), Stored(plan.packageJson), NoValues, parse);
      again.Some? && Drifted(Stored(plan.identity), Stored(plan.mobile), Stored(plan.packageJson), again.value) == {}
  {
    var plan := PlanOf(product, mobile, packageJson, values, parse).value;
    SlugIsText(product, values);
    ProductConsistent(product, values, parse, plan.identity);
    var e, v, p := Stored(plan.identity), Stored(plan.mobile), Stored(plan.packageJson);
    var again, m := IdentityOf(e, NoValues).value, MobileFor(plan.identity, parse);
    ExpectedIsSettled(m, mobile);
    StoredSettled(m, plan.mobile);
    SettledStays(m, v);
    NoDifferenceFromItself(v, "");
    PackageConsistent(plan.identity, again, packageJson);
    PlanAgain(e, v, p, again, m, parse);
    NoDrift(e, v, p, Plan(again, v, PackageOf(again, p)));
  }
}

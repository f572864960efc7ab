/**
 Configuring the two local environment files (scripts/workbench-init.ts, lines 49-135),
 and the second reader of the same files (scripts/workbench-local-env.ts, lines 6-24).
 */
module EnvSetup {
  import opened Text
  import opened EnvFile

  /** A value to configure, and the values it may replace. */
  datatype Entry = Entry(key: string, value: string, stale: seq<string>)

  function Apply(source: string, entries: seq<Entry>): (string, seq<string>) {
    if entries == [] then (source, [])
    else
      var (before, configured) := Apply(source, entries[..|entries| - 1]);
      var e := entries[|entries| - 1];
      var (next, changed) := SetValue(before, e.key, e.value, e.stale);
      (next, if changed then configured + [e.key] else configured)
  }

  /** The text written, with a line break at its end if anything was changed. */
  function Written(source: string, next: string): string {
    if next == source || EndsWith(next, "\n") then next else next + "\n"
  }

  /** `writeConfiguredFile`: the new content of the file, and the keys configured. */
  method WriteConfiguredFile(source: string, entries: seq<Entry>) returns (content: string, configured: seq<string>)
    ensures content == Written(source, Apply(source, entries).0) && configured == Apply(source, entries).1
  {
    var next := source;
    configured := [];
    for k := 0 to |entries|
      invariant (next, configured) == Apply(source, entries[..k])
    {
      assert entries[..k + 1][..k] == entries[..k];
      var changed;
      next, changed := SetPlaceholderValue(next, entries[k].key, entries[k].value, entries[k].stale);
      if changed { configured := configured + [entries[k].key]; }
    }
    assert entries[..|entries|] == entries;
    content := source;
    if next != source {
      content := if EndsWith(next, "\n") then next else next + "\n";
    }
  }

  /** Distinct plain keys, each with one line to write. */
  predicate PlainEntries(entries: seq<Entry>) {
    && (forall i :: 0 <= i < |entries| ==> PlainKey(entries[i].key) && PlainValue(entries[i].value))
    && forall i, j :: 0 <= i < j < |entries| ==> entries[i].key != entries[j].key
  }

  /** What a key should read after all entries are applied. */
  function WantedBy(entries: seq<Entry>, key: string, current: Option<string>): Option<string> {
    if entries == [] then current
    else
      var e := entries[|entries| - 1];
      if e.key == key then Wanted(current, e.value, e.stale) else WantedBy(entries[..|entries| - 1], key, current)
  }

  lemma PlainFront(entries: seq<Entry>)
    requires PlainEntries(entries) && entries != []
    ensures PlainEntries(entries[..|entries| - 1])
    ensures forall e :: e in entries[..|entries| - 1] ==> e.key != entries[|entries| - 1].key
  {
    var front := entries[..|entries| - 1];
    assert forall i :: 0 <= i < |front| ==> front[i] == entries[i];
  }

  lemma {:induction false} NotWanted(entries: seq<Entry>, key: string, current: Option<string>)
    requires forall e :: e in entries ==> e.key != key
    ensures WantedBy(entries, key, current) == current
  {
    if entries != [] { NotWanted(entries[..|entries| - 1], key, current); }
  }

  /** After all edits every key reads as wanted. */
  lemma {:induction false} ApplyLaw(source: string, entries: seq<Entry>, key: string)
    requires PlainEntries(entries) && PlainKey(key)
    ensures ReadValue(Apply(source, entries).0, key) == WantedBy(entries, key, ReadValue(source, key))
  {
    if entries != [] {
      var front, e := entries[..|entries| - 1], entries[|entries| - 1];
      PlainFront(entries);
      ApplyLaw(source, front, key);
      SetValueLaw(Apply(source, front).0, e.key, e.value, e.stale, key);
      if e.key == key { NotWanted(front, key, ReadValue(source, key)); }
    }
  }

  lemma {:induction false} FindLineMore(lines: seq<string>, last: string, key: string)
    requires !Assigns(last, key)
    ensures FindLine(lines + [last], key) == FindLine(lines, key)
  {
    if lines != [] {
      assert (lines + [last])[1..] == lines[1..] + [last];
      FindLineMore(lines[1..], last, key);
    }
  }

  lemma NewlineKeepsReading(text: string, key: string)
    requires PlainKey(key)
    ensures ReadValue(text + "\n", key) == ReadValue(text, key)
  {
    var pieces := Split(text, '\n');
    SplitConcat(text, '\n', "");
    assert text + "\n" + "" == text + "\n";
    assert Split(text + "\n", '\n') == pieces + [""];
    ReadNormalized(pieces, key);
    ReadNormalized(pieces + [""], key);
    FindLineMore(pieces, "", key);
  }

  /** The law of the file: every key configured reads its old value if that was real and
      not to be replaced, otherwise the new one; every other key reads as before. */
  lemma WrittenLaw(source: string, entries: seq<Entry>, key: string)
    requires PlainEntries(entries) && PlainKey(key)
    ensures ReadValue(Written(source, Apply(source, entries).0), key) == WantedBy(entries, key, ReadValue(source, key))
  {
    ApplyLaw(source, entries, key);
    NewlineKeepsReading(Apply(source, entries).0, key);
  }

  /** Every value to configure is itself real and not to be replaced. */
  predicate Settled(entries: seq<Entry>) {
    forall i :: 0 <= i < |entries| ==> Kept(Some(entries[i].value), entries[i].stale)
  }

  lemma {:induction false} WantedIsKept(entries: seq<Entry>, i: nat, current: Option<string>)
    requires PlainEntries(entries) && Settled(entries) && i < |entries|
    ensures Kept(WantedBy(entries, entries[i].key, current), entries[i].stale)
  {
    if i < |entries| - 1 {
      var front := entries[..|entries| - 1];
      PlainFront(entries);
      assert front[i] == entries[i];
      WantedIsKept(front, i, current);
    }
  }

  /** Nothing is configured where everything is already kept. */
  lemma {:induction false} ApplyNothing(source: string, entries: seq<Entry>)
    requires forall i :: 0 <= i < |entries| ==> Kept(ReadValue(source, entries[i].key), entries[i].stale)
    ensures Apply(source, entries) == (source, [])
  {
    if entries != [] {
      var front := entries[..|entries| - 1];
      assert forall i :: 0 <= i < |front| ==> front[i] == entries[i];
      ApplyNothing(source, front);
    }
  }

  /** The keys configured are exactly those whose value was not kept, in order. */
  lemma {:induction false} ConfiguredAre(source: string, entries: seq<Entry>)
    requires PlainEntries(entries)
    ensures Apply(source, entries).1 == UnkeptKeys(source, entries)
  {
    if entries != [] {
      var front, e := entries[..|entries| - 1], entries[|entries| - 1];
      PlainFront(entries);
      ConfiguredAre(source, front);
      ApplyLaw(source, front, e.key);
      NotWanted(front, e.key, ReadValue(source, e.key));
      SetValueLaw(Apply(source, front).0, e.key, e.value, e.stale, e.key);
    }
  }

  function UnkeptKeys(source: string, entries: seq<Entry>): seq<string> {
    if entries == [] then []
    else
      var e := entries[|entries| - 1];
      UnkeptKeys(source, entries[..|entries| - 1])
      + if Kept(ReadValue(source, e.key), e.stale) then [] else [e.key]
  }

  /** A second run configures nothing and leaves the file as it is. */
  lemma SecondRunChangesNothing(source: string, entries: seq<Entry>)
    requires PlainEntries(entries) && Settled(entries)
    ensures var content := Written(source, Apply(source, entries).0);
      Apply(content, entries) == (content, []) && Written(content, content) == content
  {
    var content := Written(source, Apply(source, entries).0);
    forall i | 0 <= i < |entries| ensures Kept(ReadValue(content, entries[i].key), entries[i].stale) {
      WrittenLaw(source, entries, entries[i].key);
      WantedIsKept(entries, i, ReadValue(source, entries[i].key));
    }
    ApplyNothing(content, entries);
  }

  // ----- a secret shared by two files

  /** `sharedValue`: the first real value, or else a new random one. */
  function SharedValue(first: Option<string>, second: Option<string>, random: string): string {
    if !Placeholder(first) then first.value
    else if !Placeholder(second) then second.value
    else random
  }

  /** An entry for a shared secret, and none other for its key. */
  predicate Configures(entries: seq<Entry>, i: nat, key: string, value: string) {
    i < |entries| && entries[i] == Entry(key, value, [])
  }

  lemma {:induction false} WantedAt(entries: seq<Entry>, i: nat, current: Option<string>)
    requires PlainEntries(entries) && i < |entries|
    ensures WantedBy(entries, entries[i].key, current) == Wanted(current, entries[i].value, entries[i].stale)
  {
    if i < |entries| - 1 {
      PlainFront(entries);
      assert entries[..|entries| - 1][i] == entries[i];
      WantedAt(entries[..|entries| - 1], i, current);
    }
  }

  /** After both files are written they agree on a shared secret, unless both already held
      real values and these differed. */
  lemma SharedSecretAgrees(frontend: string, worker: string, fs: seq<Entry>, ws: seq<Entry>, i: nat, j: nat, key: string, random: string)
    requires PlainEntries(fs) && PlainEntries(ws) && PlainKey(key)
    requires var value := SharedValue(ReadValue(frontend, key), ReadValue(worker, key), random);
      Configures(fs, i, key, value) && Configures(ws, j, key, value)
    ensures var f, w := ReadValue(frontend, key), ReadValue(worker, key);
      ReadValue(Written(frontend, Apply(frontend, fs).0), key) == ReadValue(Written(worker, Apply(worker, ws).0), key)
      <==> (Placeholder(f) || Placeholder(w) || f == w)
  {
    WrittenLaw(frontend, fs, key);
    WrittenLaw(worker, ws, key);
    WantedAt(fs, i, ReadValue(frontend, key));
    WantedAt(ws, j, ReadValue(worker, key));
  }

  // ----- the two files of the workbench

  const TokenKey := "CLOUDFLARE_CONTROL_PLANE_DEV_TOKEN"
  const CallbackKey := "WORKBENCH_CALLBACK_SIGNING_SECRET"
  const RunnerKey := "WORKBENCH_RUNNER_SIGNING_SECRET"
  const AdminKey := "WORKBENCH_ADMIN_USER_IDS"
  const DevUserKey := "WORKBENCH_DEV_USER_ID"
  const AgentKey := "WORKBENCH_AGENT_CONNECTION_SECRET"
  const ProxyKey := "LANGGRAPH_UPSTREAM_TOKEN"
  const TransportKey := "WORKBENCH_RUNNER_TRANSPORT"
  const RunnerUrlKey := "WORKBENCH_RUNNER_URL"
  const CallbackUrlKey := "WORKBENCH_CALLBACK_URL"
  const RunnerOrigin := "http://127.0.0.1:3101"
  const RunnerPath := "/workbench/tool-runners/invocations"
  const RunnerUrl := RunnerOrigin + RunnerPath
  const CallbackOrigin := "http://127.0.0.1:8787"
  const CallbackPath := "/workbench/run-callbacks"
  const CallbackUrl := CallbackOrigin + CallbackPath

  /** The random values drawn, one for each secret. */
  datatype Randoms = Randoms(token: string, callback: string, agent: string, runner: string, proxy: string)

  function Shared(frontend: string, worker: string, key: string, random: string): string {
    SharedValue(ReadValue(frontend, key), ReadValue(worker, key), random)
  }

  function FrontendList(token: string, callback: string, runner: string, admin: string): seq<Entry> {
    [Entry(TokenKey, token, []), Entry(CallbackKey, callback, []), Entry(RunnerKey, runner, []), Entry(AdminKey, admin, [])]
  }

  function WorkerList(values: seq<string>): seq<Entry>
    requires |values| == 8
  {
    [Entry(TokenKey, values[0], []),
     Entry(AgentKey, values[1], []),
     Entry(CallbackKey, values[2], []),
     Entry(RunnerKey, values[3], []),
     Entry(ProxyKey, values[4], []),
     Entry(TransportKey, values[5], ["inline"]),
     Entry(RunnerUrlKey, values[6], []),
     Entry(CallbackUrlKey, values[7], [])]
  }

  /** `readValue(frontend, "WORKBENCH_DEV_USER_ID") || "dev-user"` */
  function AdminUser(frontend: string): string {
    var user := ReadValue(frontend, DevUserKey);
    if user.None? || user.value == "" then "dev-user" else user.value
  }

  function FrontendEntries(frontend: string, worker: string, r: Randoms): seq<Entry> {
    FrontendList(Shared(frontend, worker, TokenKey, r.token), Shared(frontend, worker, CallbackKey, r.callback),
                 Shared(frontend, worker, RunnerKey, r.runner), AdminUser(frontend))
  }

  function WorkerEntries(frontend: string, worker: string, r: Randoms): seq<Entry> {
    WorkerList(WorkerValues(frontend, worker, r))
  }

  function WorkerValues(frontend: string, worker: string, r: Randoms): (values: seq<string>)
    ensures |values| == 8
  {
    WithFixed(Shared(frontend, worker, TokenKey, r.token), SharedValue(None, ReadValue(worker, AgentKey), r.agent),
              Shared(frontend, worker, CallbackKey, r.callback), Shared(frontend, worker, RunnerKey, r.runner),
              SharedValue(None, ReadValue(worker, ProxyKey), r.proxy))
  }

  /** The secrets of the Worker and the three values that are always the same. */
  function WithFixed(token: string, agent: string, callback: string, runner: string, proxy: string): (values: seq<string>)
    ensures |values| == 8
  {
    [token, agent, callback, runner, proxy, "fly", RunnerUrl, CallbackUrl]
  }

  method InitializeFiles(frontend: string, worker: string, r: Randoms) returns (frontend': string, worker': string, configured: seq<string>)
    ensures frontend' == Written(frontend, Apply(frontend, FrontendEntries(frontend, worker, r)).0)
    ensures worker' == Written(worker, Apply(worker, WorkerEntries(frontend, worker, r)).0)
    ensures configured == Apply(frontend, FrontendEntries(frontend, worker, r)).1 + Apply(worker, WorkerEntries(frontend, worker, r)).1
  {
    var ours, theirs;
    frontend', ours := WriteConfiguredFile(frontend, FrontendEntries(frontend, worker, r));
    worker', theirs := WriteConfiguredFile(worker, WorkerEntries(frontend, worker, r));
    configured := ours + theirs;
  }

  lemma {:induction false} TrimOfPart(s: string, c: char)
    requires c !in s
    ensures c !in Trim(s)
  {
    StartOfPart(s, c);
    EndOfPart(TrimStart(s), c);
  }

  lemma {:induction false} StartOfPart(s: string, c: char)
    requires c !in s
    ensures c !in TrimStart(s)
  {
    if s != "" && IsSpace(s[0]) { StartOfPart(s[1..], c); }
  }

  lemma {:induction false} EndOfPart(s: string, c: char)
    requires c !in s
    ensures c !in TrimEnd(s)
  {
    if s != "" && IsSpace(s[|s| - 1]) { EndOfPart(s[..|s| - 1], c); }
  }

  /** What the editor reads it can write. */
  lemma ReadIsPlain(source: string, key: string)
    ensures ReadValue(source, key).Some? ==> PlainValue(ReadValue(source, key).value)
  {
    var lines := Lines(source);
    var k := FindLine(lines, key);
    if k >= 0 {
      assert lines[k] in lines;
      TrimTrimmed(lines[k][|key| + 1..]);
      TrimOfPart(lines[k][|key| + 1..], '\n');
    }
  }

  predicate PlainRandoms(r: Randoms) {
    PlainValue(r.token) && PlainValue(r.callback) && PlainValue(r.agent) && PlainValue(r.runner) && PlainValue(r.proxy)
  }

  lemma SharedIsPlain(frontend: string, worker: string, key: string, random: string)
    requires PlainValue(random)
    ensures PlainValue(Shared(frontend, worker, key, random))
    ensures PlainValue(SharedValue(None, ReadValue(worker, key), random))
  {
    ReadIsPlain(frontend, key);
    ReadIsPlain(worker, key);
  }

  /** Capitals and underscores. */
  predicate Capitals(key: string) {
    key != "" && forall i :: 0 <= i < |key| ==> 'A' <= key[i] <= '_'
  }

  lemma CapitalsArePlain(key: string)
    requires Capitals(key)
    ensures PlainKey(key)
  {
  }

  lemma TokenKeyPlain()
    ensures PlainKey(TokenKey) && |TokenKey| == 34
  {
    CapitalsArePlain(TokenKey);
  }

  lemma CallbackKeyPlain()
    ensures PlainKey(CallbackKey) && |CallbackKey| == 33 && CallbackKey[10] == 'C'
  {
    CapitalsArePlain(CallbackKey);
  }

  lemma RunnerKeyPlain()
    ensures PlainKey(RunnerKey) && |RunnerKey| == 31
  {
    CapitalsArePlain(RunnerKey);
  }

  lemma AdminKeyPlain()
    ensures PlainKey(AdminKey) && |AdminKey| == 24
  {
    CapitalsArePlain(AdminKey);
  }

  lemma RunnerUrlKeyPlain()
    ensures PlainKey(RunnerUrlKey) && |RunnerUrlKey| == 20
  {
    CapitalsArePlain(RunnerUrlKey);
  }

  lemma CallbackUrlKeyPlain()
    ensures PlainKey(CallbackUrlKey) && |CallbackUrlKey| == 22
  {
    CapitalsArePlain(CallbackUrlKey);
  }

  lemma FrontendListPlain(token: string, callback: string, runner: string, admin: string)
    requires PlainValue(token) && PlainValue(callback) && PlainValue(runner) && PlainValue(admin)
    ensures PlainEntries(FrontendList(token, callback, runner, admin))
  {
    TokenKeyPlain();
    CallbackKeyPlain();
    RunnerKeyPlain();
    AdminKeyPlain();
  }

  /** Printable characters without a space. */
  predicate Visible(value: string) {
    forall i :: 0 <= i < |value| ==> '!' <= value[i] <= '~'
  }

  lemma VisibleIsPlain(value: string)
    requires Visible(value)
    ensures PlainValue(value)
  {
  }

  lemma JoinedIsPlain(origin: string, path: string)
    requires Visible(origin) && Visible(path)
    ensures PlainValue(origin + path)
  {
    VisibleIsPlain(origin + path);
  }

  lemma RunnerUrlPlain()
    ensures PlainValue(RunnerUrl)
  {
    assert Visible(RunnerOrigin);
    assert Visible(RunnerPath);
    JoinedIsPlain(RunnerOrigin, RunnerPath);
  }

  lemma CallbackUrlPlain()
    ensures PlainValue(CallbackUrl)
  {
    assert Visible(CallbackOrigin);
    assert Visible(CallbackPath);
    JoinedIsPlain(CallbackOrigin, CallbackPath);
  }

  lemma WorkerKeysDistinct(i: nat, j: nat, keys: seq<string>)
    requires keys == [TokenKey, AgentKey, CallbackKey, RunnerKey, ProxyKey, TransportKey, RunnerUrlKey, CallbackUrlKey]
    requires i < j < 8
    ensures PlainKey(keys[i]) && PlainKey(keys[j]) && keys[i] != keys[j]
  {
    TokenKeyPlain();
    CallbackKeyPlain();
    RunnerKeyPlain();
    RunnerUrlKeyPlain();
    CallbackUrlKeyPlain();
  }

  lemma WorkerListPlain(values: seq<string>)
    requires |values| == 8 && forall i :: 0 <= i < 8 ==> PlainValue(values[i])
    ensures PlainEntries(WorkerList(values))
  {
    var keys := [TokenKey, AgentKey, CallbackKey, RunnerKey, ProxyKey, TransportKey, RunnerUrlKey, CallbackUrlKey];
    var entries := WorkerList(values);
    assert forall i :: 0 <= i < 8 ==> entries[i].key == keys[i] && entries[i].value == values[i];
    forall i, j | 0 <= i < j < 8 ensures PlainKey(keys[i]) && PlainKey(keys[j]) && keys[i] != keys[j] {
      WorkerKeysDistinct(i, j, keys);
    }
    PlainFrom(entries, keys);
  }

  lemma PlainFrom(entries: seq<Entry>, keys: seq<string>)
    requires |entries| == |keys| && |keys| > 1
    requires forall i :: 0 <= i < |keys| ==> entries[i].key == keys[i] && PlainValue(entries[i].value)
    requires forall i, j :: 0 <= i < j < |keys| ==> PlainKey(keys[i]) && PlainKey(keys[j]) && keys[i] != keys[j]
    ensures PlainEntries(entries)
  {
    forall i | 0 <= i < |entries| ensures PlainKey(entries[i].key) {
      var j := if i == 0 then 1 else 0;
      assert keys[i] != keys[j];
    }
  }

  lemma FivePlain(token: string, agent: string, callback: string, runner: string, proxy: string)
    requires PlainValue(token) && PlainValue(agent) && PlainValue(callback) && PlainValue(runner) && PlainValue(proxy)
    ensures PlainEntries(WorkerList(WithFixed(token, agent, callback, runner, proxy)))
  {
    RunnerUrlPlain();
    CallbackUrlPlain();
    VisibleIsPlain("fly");
    WorkerListPlain(WithFixed(token, agent, callback, runner, proxy));
  }

  lemma AdminUserPlain(frontend: string)
    ensures PlainValue(AdminUser(frontend))
  {
    ReadIsPlain(frontend, DevUserKey);
    VisibleIsPlain("dev-user");
  }

  lemma FrontendIsPlain(frontend: string, worker: string, r: Randoms)
    requires PlainRandoms(r)
    ensures PlainEntries(FrontendEntries(frontend, worker, r))
  {
    SharedIsPlain(frontend, worker, TokenKey, r.token);
    SharedIsPlain(frontend, worker, CallbackKey, r.callback);
    SharedIsPlain(frontend, worker, RunnerKey, r.runner);
    AdminUserPlain(frontend);
    FrontendListPlain(Shared(frontend, worker, TokenKey, r.token), Shared(frontend, worker, CallbackKey, r.callback),
                      Shared(frontend, worker, RunnerKey, r.runner), AdminUser(frontend));
  }

  lemma WorkerIsPlain(frontend: string, worker: string, r: Randoms)
    requires PlainRandoms(r)
    ensures PlainEntries(WorkerEntries(frontend, worker, r))
  {
    SharedIsPlain(frontend, worker, TokenKey, r.token);
    SharedIsPlain(frontend, worker, CallbackKey, r.callback);
    SharedIsPlain(frontend, worker, RunnerKey, r.runner);
    SharedIsPlain(frontend, worker, AgentKey, r.agent);
    SharedIsPlain(frontend, worker, ProxyKey, r.proxy);
    FivePlain(Shared(frontend, worker, TokenKey, r.token), SharedValue(None, ReadValue(worker, AgentKey), r.agent),
               Shared(frontend, worker, CallbackKey, r.callback), Shared(frontend, worker, RunnerKey, r.runner),
               SharedValue(None, ReadValue(worker, ProxyKey), r.proxy));
  }

  function Frontend'(frontend: string, worker: string, r: Randoms): string {
    Written(frontend, Apply(frontend, FrontendEntries(frontend, worker, r)).0)
  }

  function Worker'(frontend: string, worker: string, r: Randoms): string {
    Written(worker, Apply(worker, WorkerEntries(frontend, worker, r)).0)
  }

  /** A secret both files hold. */
  datatype Secret = Token | Callback | Runner {
    function Key(): string {
      match this
      case Token => TokenKey
      case Callback => CallbackKey
      case Runner => RunnerKey
    }

    function Random(r: Randoms): string {
      match this
      case Token => r.token
      case Callback => r.callback
      case Runner => r.runner
    }

    function InFrontend(): nat {
      match this
      case Token => 0
      case Callback => 1
      case Runner => 2
    }

    function InWorker(): nat {
      match this
      case Token => 0
      case Callback => 2
      case Runner => 3
    }
  }

  lemma SharedKeyPlain(s: Secret)
    ensures PlainKey(s.Key())
  {
    TokenKeyPlain();
    CallbackKeyPlain();
    RunnerKeyPlain();
  }

  lemma WorkerPlaces(values: seq<string>)
    requires |values| == 8
    ensures var entries := WorkerList(values);
      Configures(entries, 0, TokenKey, values[0]) && Configures(entries, 2, CallbackKey, values[2]) && Configures(entries, 3, RunnerKey, values[3])
  {
  }

  lemma SecretPlaces(frontend: string, worker: string, r: Randoms, s: Secret)
    ensures Configures(FrontendEntries(frontend, worker, r), s.InFrontend(), s.Key(), Shared(frontend, worker, s.Key(), s.Random(r)))
    ensures Configures(WorkerEntries(frontend, worker, r), s.InWorker(), s.Key(), Shared(frontend, worker, s.Key(), s.Random(r)))
  {
    WorkerPlaces(WorkerValues(frontend, worker, r));
  }

  /** After initialization the two files agree on each shared secret, unless both already
      held real values and these differed. */
  lemma InitializedFilesAgreeIff(frontend: string, worker: string, r: Randoms, s: Secret)
    requires PlainRandoms(r)
    ensures var f, w := ReadValue(frontend, s.Key()), ReadValue(worker, s.Key());
      ReadValue(Frontend'(frontend, worker, r), s.Key()) == ReadValue(Worker'(frontend, worker, r), s.Key())
      <==> (Placeholder(f) || Placeholder(w) || f == w)
  {
    FrontendIsPlain(frontend, worker, r);
    WorkerIsPlain(frontend, worker, r);
    SecretPlaces(frontend, worker, r, s);
    SharedKeyPlain(s);
    SharedSecretAgrees(frontend, worker, FrontendEntries(frontend, worker, r), WorkerEntries(frontend, worker, r),
                       s.InFrontend(), s.InWorker(), s.Key(), s.Random(r));
  }

  // ----- running it twice

  lemma KeptAfter(source: string, entries: seq<Entry>, i: nat)
    requires PlainEntries(entries) && i < |entries|
    ensures Kept(ReadValue(Written(source, Apply(source, entries).0), entries[i].key), entries[i].stale)
      <==> (Kept(ReadValue(source, entries[i].key), entries[i].stale) || Kept(Some(entries[i].value), entries[i].stale))
  {
    WrittenLaw(source, entries, entries[i].key);
    WantedAt(entries, i, ReadValue(source, entries[i].key));
  }

  /** The same keys and replaceable values, in the same order. */
  predicate SameKeys(entries: seq<Entry>, entries': seq<Entry>) {
    |entries| == |entries'| && forall i :: 0 <= i < |entries| ==> entries[i].key == entries'[i].key && entries[i].stale == entries'[i].stale
  }

  lemma {:induction false} UnkeptNone(source: string, entries: seq<Entry>)
    requires forall i :: 0 <= i < |entries| ==> Kept(ReadValue(source, entries[i].key), entries[i].stale)
    ensures UnkeptKeys(source, entries) == []
  {
    if entries != [] {
      var front := entries[..|entries| - 1];
      assert forall i :: 0 <= i < |front| ==> front[i] == entries[i];
      UnkeptNone(source, front);
    }
  }

  /** Where every entry but perhaps the last held or wrote a real value, a later edit of the
      same keys finds at most the last of them to configure. */
  lemma LaterEdit(source: string, entries: seq<Entry>, entries': seq<Entry>)
    requires PlainEntries(entries) && SameKeys(entries, entries') && entries != []
    requires forall i :: 0 <= i < |entries| - 1 ==> Kept(Some(entries[i].value), entries[i].stale)
    ensures var n, content := |entries| - 1, Written(source, Apply(source, entries).0);
      UnkeptKeys(content, entries')
      == if Kept(ReadValue(source, entries[n].key), entries[n].stale) || Kept(Some(entries[n].value), entries[n].stale)
         then [] else [entries[n].key]
  {
    var n, content := |entries| - 1, Written(source, Apply(source, entries).0);
    var front := entries'[..n];
    forall i | 0 <= i < n ensures Kept(ReadValue(content, front[i].key), front[i].stale) {
      KeptAfter(source, entries, i);
    }
    UnkeptNone(content, front);
    KeptAfter(source, entries, n);
  }

  predicate RealRandoms(r: Randoms) {
    && PlainRandoms(r)
    && !Placeholder(Some(r.token)) && !Placeholder(Some(r.callback)) && !Placeholder(Some(r.agent))
    && !Placeholder(Some(r.runner)) && !Placeholder(Some(r.proxy))
  }

  /** The frontend's administrators are, or will be, a real value. */
  predicate AdminSettled(frontend: string) {
    !Placeholder(ReadValue(frontend, AdminKey)) || !Placeholder(Some(AdminUser(frontend)))
  }

  lemma FrontendSettled(token: string, callback: string, runner: string, admin: string, i: nat)
    requires Kept(Some(token), []) && Kept(Some(callback), []) && Kept(Some(runner), []) && i < 3
    ensures var e := FrontendList(token, callback, runner, admin)[i]; Kept(Some(e.value), e.stale)
  {
  }

  lemma FrontendTwice(frontend: string, worker: string, r: Randoms, entries': seq<Entry>)
    requires RealRandoms(r) && SameKeys(FrontendEntries(frontend, worker, r), entries') && PlainEntries(entries')
    ensures Apply(Frontend'(frontend, worker, r), entries').1 == if AdminSettled(frontend) then [] else [AdminKey]
  {
    var entries := FrontendEntries(frontend, worker, r);
    FrontendIsPlain(frontend, worker, r);
    forall i | 0 <= i < 3 ensures Kept(Some(entries[i].value), entries[i].stale) {
      FrontendSettled(Shared(frontend, worker, TokenKey, r.token), Shared(frontend, worker, CallbackKey, r.callback),
                      Shared(frontend, worker, RunnerKey, r.runner), AdminUser(frontend), i);
    }
    LaterEdit(frontend, entries, entries');
    ConfiguredAre(Frontend'(frontend, worker, r), entries');
    assert entries[3] == Entry(AdminKey, AdminUser(frontend), []);
  }

  lemma VisibleIsReal(value: string)
    requires Visible(value) && value != "" && value[0] != 'r'
    ensures Kept(Some(value), [])
  {
    VisibleIsPlain(value);
    TrimTrimmed(value);
    var mark := "replace-with-";
    assert mark[0] == 'r';
  }

  lemma JoinedIsReal(origin: string, path: string)
    requires Visible(origin) && Visible(path) && origin != "" && origin[0] == 'h'
    ensures Kept(Some(origin + path), [])
  {
    VisibleIsReal(origin + path);
  }

  lemma RunnerUrlIsReal()
    ensures Kept(Some(RunnerUrl), [])
  {
    assert Visible(RunnerOrigin);
    assert Visible(RunnerPath);
    JoinedIsReal(RunnerOrigin, RunnerPath);
  }

  lemma CallbackUrlIsReal()
    ensures Kept(Some(CallbackUrl), [])
  {
    assert Visible(CallbackOrigin);
    assert Visible(CallbackPath);
    JoinedIsReal(CallbackOrigin, CallbackPath);
  }

  lemma WorkerSettled(values: seq<string>)
    requires |values| == 8 && |values[5]| == 3 && forall i :: 0 <= i < 8 ==> Kept(Some(values[i]), [])
    ensures Settled(WorkerList(values))
  {
    var entries := WorkerList(values);
    assert forall i :: 0 <= i < 8 ==> entries[i].value == values[i] && (i != 5 ==> entries[i].stale == []);
    assert entries[5].stale == ["inline"];
    assert forall i :: 0 <= i < 8 ==> (Kept(Some(entries[i].value), entries[i].stale));
  }

  lemma FlyIsReal()
    ensures Kept(Some("fly"), []) && |"fly"| == 3
  {
    VisibleIsReal("fly");
  }

  lemma EightReal(v0: string, v1: string, v2: string, v3: string, v4: string, v5: string, v6: string, v7: string)
    requires Kept(Some(v0), []) && Kept(Some(v1), []) && Kept(Some(v2), []) && Kept(Some(v3), [])
    requires Kept(Some(v4), []) && Kept(Some(v5), []) && Kept(Some(v6), []) && Kept(Some(v7), []) && |v5| == 3
    ensures Settled(WorkerList([v0, v1, v2, v3, v4, v5, v6, v7]))
  {
    WorkerSettled([v0, v1, v2, v3, v4, v5, v6, v7]);
  }

  lemma FiveReal(token: string, agent: string, callback: string, runner: string, proxy: string)
    requires Kept(Some(token), []) && Kept(Some(agent), []) && Kept(Some(callback), []) && Kept(Some(runner), [])
    requires Kept(Some(proxy), [])
    ensures Settled(WorkerList(WithFixed(token, agent, callback, runner, proxy)))
  {
    RunnerUrlIsReal();
    CallbackUrlIsReal();
    FlyIsReal();
    EightReal(token, agent, callback, runner, proxy, "fly", RunnerUrl, CallbackUrl);
  }

  lemma WorkerIsSettled(frontend: string, worker: string, r: Randoms)
    requires RealRandoms(r)
    ensures Settled(WorkerEntries(frontend, worker, r))
  {
    FiveReal(Shared(frontend, worker, TokenKey, r.token), SharedValue(None, ReadValue(worker, AgentKey), r.agent),
             Shared(frontend, worker, CallbackKey, r.callback), Shared(frontend, worker, RunnerKey, r.runner),
              SharedValue(None, ReadValue(worker, ProxyKey), r.proxy));
  }

  lemma WorkerTwice(frontend: string, worker: string, r: Randoms, entries': seq<Entry>)
    requires RealRandoms(r) && SameKeys(WorkerEntries(frontend, worker, r), entries') && PlainEntries(entries')
    ensures Apply(Worker'(frontend, worker, r), entries').1 == []
  {
    WorkerIsPlain(frontend, worker, r);
    WorkerIsSettled(frontend, worker, r);
    LaterEdit(worker, WorkerEntries(frontend, worker, r), entries');
    ConfiguredAre(Worker'(frontend, worker, r), entries');
  }

  lemma FrontendSameKeys(token: string, callback: string, runner: string, admin: string,
                         token2: string, callback2: string, runner2: string, admin2: string)
    ensures SameKeys(FrontendList(token, callback, runner, admin), FrontendList(token2, callback2, runner2, admin2))
  {
  }

  lemma WorkerSameKeys(values: seq<string>, values2: seq<string>)
    requires |values| == 8 && |values2| == 8
    ensures SameKeys(WorkerList(values), WorkerList(values2))
  {
  }

  lemma SameKeysEachRun(frontend: string, worker: string, r: Randoms, f: string, w: string, r2: Randoms)
    ensures SameKeys(FrontendEntries(frontend, worker, r), FrontendEntries(f, w, r2))
    ensures SameKeys(WorkerEntries(frontend, worker, r), WorkerEntries(f, w, r2))
  {
    FrontendSameKeys(Shared(frontend, worker, TokenKey, r.token), Shared(frontend, worker, CallbackKey, r.callback),
                     Shared(frontend, worker, RunnerKey, r.runner), AdminUser(frontend),
                     Shared(f, w, TokenKey, r2.token), Shared(f, w, CallbackKey, r2.callback),
                     Shared(f, w, RunnerKey, r2.runner), AdminUser(f));
    WorkerSameKeys(WorkerValues(frontend, worker, r), WorkerValues(f, w, r2));
  }

  /** A second initialization, with other random values, configures nothing, unless the
      administrators' value is a placeholder and the user it is copied from is one too. */
  lemma SecondInitialization(frontend: string, worker: string, r: Randoms, r2: Randoms)
    requires RealRandoms(r) && PlainRandoms(r2)
    ensures var f, w := Frontend'(frontend, worker, r), Worker'(frontend, worker, r);
      Apply(f, FrontendEntries(f, w, r2)).1 + Apply(w, WorkerEntries(f, w, r2)).1
      == if AdminSettled(frontend) then [] else [AdminKey]
  {
    var f, w := Frontend'(frontend, worker, r), Worker'(frontend, worker, r);
    SameKeysEachRun(frontend, worker, r, f, w, r2);
    FrontendIsPlain(f, w, r2);
    WorkerIsPlain(f, w, r2);
    FrontendTwice(frontend, worker, r, FrontendEntries(f, w, r2));
    WorkerTwice(frontend, worker, r, WorkerEntries(f, w, r2));
  }

  lemma OnlyLineReads(key: string, value: string, key': string)
    requires PlainKey(key) && PlainKey(key') && PlainValue(value)
    ensures ReadValue(key + "=" + value, key') == if key' == key then Some(value) else None
  {
    var line := key + "=" + value;
    OwnLine(key, value);
    SplitNone(line, '\n');
    assert Lines(line) == [line];
    if key' != key { OtherKey(line, key, key'); }
  }

  lemma DevUserKeyPlain()
    ensures PlainKey(DevUserKey) && |DevUserKey| == 21
  {
    CapitalsArePlain(DevUserKey);
  }

  /** A frontend file that names no administrators, and a placeholder as the user. */
  lemma PlaceholderUserTwice(user: string, worker: string, r: Randoms, r2: Randoms)
    requires PlainValue(user) && StartsWith(user, "replace-with-") && RealRandoms(r) && PlainRandoms(r2)
    ensures var frontend := DevUserKey + "=" + user;
      var f, w := Frontend'(frontend, worker, r), Worker'(frontend, worker, r);
      Apply(f, FrontendEntries(f, w, r2)).1 + Apply(w, WorkerEntries(f, w, r2)).1 == [AdminKey]
  {
    AdminKeyPlain();
    DevUserKeyPlain();
    OnlyLineReads(DevUserKey, user, DevUserKey);
    OnlyLineReads(DevUserKey, user, AdminKey);
    TrimTrimmed(user);
    SecondInitialization(DevUserKey + "=" + user, worker, r, r2);
  }

  // ----- the second reader

  predicate Quoted(value: string) {
    (StartsWith(value, "\"") && EndsWith(value, "\"")) || (StartsWith(value, "'") && EndsWith(value, "'"))
  }

  /** `value.slice(1, -1)` for a quoted value. */
  function Unquote(value: string): string {
    if !Quoted(value) then value
    else if |value| < 2 then ""
    else value[1..|value| - 1]
  }

  /** The assignment on a line, if it is one. */
  function ParseLine(rawLine: string): Option<(string, string)> {
    var line := Trim(rawLine);
    if line == "" || StartsWith(line, "#") then None
    else
      var separator := IndexOf(line, "=");
      if separator < 1 then None
      else Some((Trim(line[..separator]), Unquote(Trim(line[separator + 1..]))))
  }

  type Assignment = Option<(string, string)>

  /** The key that sets no entry of an object: assigning a string to it does nothing. */
  const ProtoKey := "__proto__"

  function Assigned(values: map<string, string>, assignment: Assignment): map<string, string> {
    if assignment.None? || assignment.value.0 == ProtoKey then values
    else values[assignment.value.0 := assignment.value.1]
  }

  /** The last assignment of a key wins. */
  function ParseLines(lines: seq<string>): map<string, string> {
    if lines == [] then map[] else Assigned(ParseLines(lines[..|lines| - 1]), ParseLine(lines[|lines| - 1]))
  }

  lemma ParseStep(lines: seq<string>, k: nat)
    requires k < |lines|
    ensures ParseLines(lines[..k + 1]) == Assigned(ParseLines(lines[..k]), ParseLine(lines[k]))
  {
    assert lines[..k + 1][..k] == lines[..k];
  }

  method ParseLocalEnvironment(source: string) returns (values: map<string, string>)
    ensures values == ParseLines(Lines(source))
  {
    var lines := Lines(source);
    values := map[];
    for k := 0 to |lines|
      invariant values == ParseLines(lines[..k])
    {
      ParseStep(lines, k);
      var assignment := ParseLine(lines[k]);
      if assignment.Some? && assignment.value.0 != ProtoKey {
        values := values[assignment.value.0 := assignment.value.1];
      }
    }
    assert lines[..|lines|] == lines;
  }

  /** A key both readers understand: it is trimmed, starts no comment, and is not the one that sets no entry. */
  predicate SharedKey(key: string) {
    PlainKey(key) && Trimmed(key) && key[0] != '#' && key != ProtoKey
  }

  lemma {:induction false} ProtoIsNoEntry(lines: seq<string>)
    ensures ProtoKey !in ParseLines(lines)
  {
    if lines != [] { ProtoIsNoEntry(lines[..|lines| - 1]); }
  }

  lemma {:induction false} TrimOfTrimEnd(s: string)
    ensures Trim(TrimEnd(s)) == Trim(s)
  {
    if s != "" && IsSpace(s[|s| - 1]) {
      assert s == s[..|s| - 1] + [s[|s| - 1]];
      TrimEndAppend(s[..|s| - 1], s[|s| - 1]);
      TrimOfTrimEnd(s[..|s| - 1]);
    }
  }

  lemma TrimEndStep(s: string, c: char)
    ensures TrimEnd(s + [c]) == if IsSpace(c) then TrimEnd(s) else s + [c]
  {
    assert (s + [c])[..|s|] == s;
  }

  lemma {:induction false} TrimEndAfter(a: string, b: string)
    requires a != "" && !IsSpace(a[|a| - 1])
    ensures TrimEnd(a + b) == a + TrimEnd(b)
  {
    if b == "" {
      assert a + b == a;
    } else {
      var front, c := b[..|b| - 1], b[|b| - 1];
      assert b == front + [c] && a + b == a + front + [c];
      TrimEndStep(front, c);
      TrimEndStep(a + front, c);
      if IsSpace(c) { TrimEndAfter(a, front); }
    }
  }

  lemma FirstEquals(line: string, k: nat)
    requires k < |line| && line[k] == '=' && forall i :: 0 <= i < k ==> line[i] != '='
    ensures IndexOf(line, "=") == k
  {
    assert line[k..k + 1] == "=";
    forall i | 0 <= i < k ensures !At(line, "=", i) {
      assert line[i..i + 1] == [line[i]];
    }
    IndexOfUnique(line, "=", k);
  }

  lemma TrimOfAssignment(key: string, rest: string)
    requires SharedKey(key)
    ensures Trim(key + "=" + rest) == key + "=" + TrimEnd(rest)
  {
    var head := key + "=";
    assert TrimStart(head + rest) == head + rest;
    TrimEndAfter(head, rest);
  }

  /** A line that assigns the key to the editor assigns it to the parser too. */
  lemma AssignmentParses(line: string, key: string)
    requires SharedKey(key) && Assigns(line, key)
    ensures ParseLine(line) == Some((key, Unquote(ValueOn(line, key))))
  {
    AssignsShape(line, key);
    var rest := line[|key| + 1..];
    assert line == key + "=" + rest;
    TrimOfAssignment(key, rest);
    var trimmed := key + "=" + TrimEnd(rest);
    assert trimmed[0] == key[0] && trimmed[..|key|] == key && trimmed[|key| + 1..] == TrimEnd(rest);
    FirstEquals(trimmed, |key|);
    TrimTrimmed(key);
    TrimOfTrimEnd(rest);
  }

  predicate OtherKeyOn(assignment: Assignment, key: string) {
    assignment.None? || assignment.value.0 != key
  }

  /** The parser takes exactly one line for the key, line `i`. */
  predicate OnlyLine(lines: seq<string>, i: nat, key: string) {
    i < |lines| && forall j :: 0 <= j < |lines| && j != i ==> OtherKeyOn(ParseLine(lines[j]), key)
  }

  lemma OnlyLineFront(lines: seq<string>, i: nat, key: string)
    requires OnlyLine(lines, i, key) && i < |lines| - 1
    ensures OnlyLine(lines[..|lines| - 1], i, key) && OtherKeyOn(ParseLine(lines[|lines| - 1]), key)
  {
  }

  lemma AssignedOther(values: map<string, string>, assignment: Assignment, key: string)
    requires key in values && OtherKeyOn(assignment, key)
    ensures key in Assigned(values, assignment) && Assigned(values, assignment)[key] == values[key]
  {
  }

  lemma {:induction false} ParsedFrom(lines: seq<string>, i: nat, key: string, value: string)
    requires OnlyLine(lines, i, key) && ParseLine(lines[i]) == Some((key, value)) && key != ProtoKey
    ensures key in ParseLines(lines) && ParseLines(lines)[key] == value
  {
    if i < |lines| - 1 {
      var front, last := lines[..|lines| - 1], ParseLine(lines[|lines| - 1]);
      OnlyLineFront(lines, i, key);
      ParsedFrom(front, i, key, value);
      AssignedOther(ParseLines(front), last, key);
    }
  }

  /** Where a key is assigned on exactly one line, and that line starts with the key and
      `=`, both readers find it; they agree exactly if the value is not quoted. */
  lemma ReadersAgreeIff(source: string, i: nat, key: string)
    requires SharedKey(key) && OnlyLine(Lines(source), i, key) && Assigns(Lines(source)[i], key)
    ensures key in ParseLines(Lines(source)) && ReadValue(source, key).Some?
    ensures ParseLines(Lines(source))[key] == ReadValue(source, key).value <==> !Quoted(ReadValue(source, key).value)
  {
    var lines := Lines(source);
    forall j | 0 <= j < i ensures !Assigns(lines[j], key) {
      if Assigns(lines[j], key) { AssignmentParses(lines[j], key); }
    }
    assert FindLine(lines, key) == i;
    AssignmentParses(lines[i], key);
    ParsedFrom(lines, i, key, Unquote(ValueOn(lines[i], key)));
    UnquoteChanges(ValueOn(lines[i], key));
  }

  lemma UnquoteChanges(value: string)
    ensures Unquote(value) == value <==> !Quoted(value)
  {
    if Quoted(value) { assert |Unquote(value)| < |value|; }
  }
}

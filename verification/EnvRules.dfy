/**
 What the environment files hold and how they are read, said of their lines and of what they held
 before (scripts/workbench-init.ts, lines 21-135; scripts/workbench-local-env.ts, lines 6-24).
 */
module EnvRules {
  import opened Text
  import opened Characters
  import opened EnvFile
  import opened EnvSetup

  // ----- lines

  lemma LastLine(line: string)
    requires '\n' !in line
    ensures Lines(line) == [line]
  {
    SplitNone(line, '\n');
  }

  /** A line ends at its line break; a carriage return before that is not part of it. */
  lemma NextLine(line: string, rest: string)
    requires '\n' !in line
    ensures Lines(line + "\r\n" + rest) == [line] + Lines(rest)
    ensures (line != "" ==> line[|line| - 1] != '\r') ==> Lines(line + "\n" + rest) == [line] + Lines(rest)
  {
    FirstLine(line + "\r", rest);
    FirstLine(line, rest);
    assert (line + "\r") + "\n" + rest == line + "\r\n" + rest;
    assert (line + "\r")[..|line|] == line;
  }

  lemma FirstLine(piece: string, rest: string)
    requires '\n' !in piece
    ensures Lines(piece + "\n" + rest) == [DropReturn(piece)] + Lines(rest)
  {
    SplitConcat(piece, '\n', rest);
    SplitNone(piece, '\n');
    NormalizedFirst(piece, Split(rest, '\n'));
  }

  lemma NormalizedFirst(piece: string, pieces: seq<string>)
    requires pieces != []
    ensures Normalized([piece] + pieces) == [DropReturn(piece)] + Normalized(pieces)
  {
    assert ([piece] + pieces)[1..] == pieces;
  }

  // ----- reading one key

  /** The line is an assignment of the key, and this text follows the `=`. */
  predicate Sets(line: string, key: string, text: string) {
    line == key + "=" + text
  }

  ghost predicate SetsSome(line: string, key: string) {
    exists text :: Sets(line, key, text)
  }

  lemma AssignsIff(line: string, key: string)
    ensures Assigns(line, key) <==> SetsSome(line, key)
  {
    PrefixIff(line, key + "=");
    if rest :| line == key + "=" + rest { assert Sets(line, key, rest); }
    if text :| Sets(line, key, text) { assert line == (key + "=") + text; }
  }

  lemma ValueIs(line: string, key: string, text: string)
    requires Sets(line, key, text)
    ensures Assigns(line, key) && ValueOn(line, key) == Trim(text)
  {
    AssignsIff(line, key);
    assert line[|key| + 1..] == text;
  }

  /** Line `i` is the first assignment of the key, of this text. */
  ghost predicate FirstSets(lines: seq<string>, key: string, i: nat, text: string) {
    i < |lines| && Sets(lines[i], key, text) && forall j :: 0 <= j < i ==> !SetsSome(lines[j], key)
  }

  lemma FoundIs(lines: seq<string>, key: string, i: nat, text: string)
    requires FirstSets(lines, key, i, text)
    ensures ReadLines(lines, key) == Some(Trim(text))
  {
    ValueIs(lines[i], key, text);
    forall j | 0 <= j < i ensures !Assigns(lines[j], key) { AssignsIff(lines[j], key); }
    assert FindLine(lines, key) == i;
  }

  lemma FoundAt(lines: seq<string>, key: string) returns (i: nat, text: string)
    requires ReadLines(lines, key).Some?
    ensures FirstSets(lines, key, i, text)
  {
    i := FindLine(lines, key);
    forall j | 0 <= j <= i ensures Assigns(lines[j], key) <==> SetsSome(lines[j], key) { AssignsIff(lines[j], key); }
    text :| Sets(lines[i], key, text);
  }

  /** A key reads as the trimmed text of the first line that assigns it, and as nothing if none does. */
  lemma ReadIff(source: string, key: string, value: string)
    ensures ReadValue(source, key) == Some(value)
       <==> exists i: nat, text :: FirstSets(Lines(source), key, i, text) && value == Trim(text)
    ensures ReadValue(source, key).None? <==> forall i :: 0 <= i < |Lines(source)| ==> !SetsSome(Lines(source)[i], key)
  {
    var lines := Lines(source);
    if i: nat, text :| FirstSets(lines, key, i, text) && value == Trim(text) { FoundIs(lines, key, i, text); }
    if ReadValue(source, key).Some? {
      var i, text := FoundAt(lines, key);
      FoundIs(lines, key, i, text);
    } else {
      forall i | 0 <= i < |lines| ensures !SetsSome(lines[i], key) { AssignsIff(lines[i], key); }
    }
  }

  /** A value that is there, not blank, and not one of those to be replaced by hand. */
  ghost predicate Real(value: Option<string>) {
    value.Some? && Trim(value.value) != "" && !exists rest :: Trim(value.value) == "replace-with-" + rest
  }

  lemma RealIff(value: Option<string>)
    ensures Real(value) <==> !Placeholder(value)
  {
    if value.Some? { PrefixIff(Trim(value.value), "replace-with-"); }
  }

  // ----- what the two files read after initialization

  /** The value itself, if it is real, or else the other, if that is, or else the last. */
  ghost function RealOr(value: Option<string>, other: Option<string>, last: string): Option<string> {
    if Real(value) then value else if Real(other) then other else Some(last)
  }

  lemma SharedIs(first: Option<string>, second: Option<string>, random: string)
    ensures Some(SharedValue(first, second, random)) == RealOr(first, second, random)
    ensures Wanted(first, SharedValue(first, second, random), []) == RealOr(first, second, random)
    ensures Wanted(second, SharedValue(first, second, random), []) == RealOr(second, first, random)
  {
    RealIff(first);
    RealIff(second);
  }

  lemma EntryReads(source: string, entries: seq<Entry>, i: nat)
    requires PlainEntries(entries) && i < |entries|
    ensures var e := entries[i];
      ReadValue(Written(source, Apply(source, entries).0), e.key) == Wanted(ReadValue(source, e.key), e.value, e.stale)
  {
    var e := entries[i];
    WrittenLaw(source, entries, e.key);
    WantedAt(entries, i, ReadValue(source, e.key));
  }

  /** The secrets the two files share. */
  datatype Both = ControlPlane | Callbacks | Runner

  function Name(b: Both): string {
    match b
    case ControlPlane => "CLOUDFLARE_CONTROL_PLANE_DEV_TOKEN"
    case Callbacks => "WORKBENCH_CALLBACK_SIGNING_SECRET"
    case Runner => "WORKBENCH_RUNNER_SIGNING_SECRET"
  }

  function Drawn(b: Both, r: Randoms): string {
    match b
    case ControlPlane => r.token
    case Callbacks => r.callback
    case Runner => r.runner
  }

  lemma BothPlaces(frontend: string, worker: string, r: Randoms, b: Both)
    ensures var (i, j) := match b { case ControlPlane => (0, 0) case Callbacks => (1, 2) case Runner => (2, 3) };
      var e := Entry(Name(b), Shared(frontend, worker, Name(b), Drawn(b, r)), []);
      FrontendEntries(frontend, worker, r)[i] == e && WorkerEntries(frontend, worker, r)[j] == e
  {
    WorkerPlaces(WorkerValues(frontend, worker, r));
  }

  /** A secret of both files: each keeps its own if it is real, else takes the other's if that is,
      else both take the one drawn. */
  lemma SharedSecretReads(frontend: string, worker: string, r: Randoms, b: Both)
    requires PlainRandoms(r)
    ensures var f, w := ReadValue(frontend, Name(b)), ReadValue(worker, Name(b));
      && ReadValue(Frontend'(frontend, worker, r), Name(b)) == RealOr(f, w, Drawn(b, r))
      && ReadValue(Worker'(frontend, worker, r), Name(b)) == RealOr(w, f, Drawn(b, r))
  {
    var (i, j) := match b { case ControlPlane => (0, 0) case Callbacks => (1, 2) case Runner => (2, 3) };
    BothPlaces(frontend, worker, r, b);
    FrontendIsPlain(frontend, worker, r);
    WorkerIsPlain(frontend, worker, r);
    EntryReads(frontend, FrontendEntries(frontend, worker, r), i);
    EntryReads(worker, WorkerEntries(frontend, worker, r), j);
    SharedIs(ReadValue(frontend, Name(b)), ReadValue(worker, Name(b)), Drawn(b, r));
  }

  /** The administrators stay if they are real; else they are the user, or `dev-user`. */
  lemma AdministratorsRead(frontend: string, worker: string, r: Randoms)
    requires PlainRandoms(r)
    ensures var user := ReadValue(frontend, "WORKBENCH_DEV_USER_ID");
      ReadValue(Frontend'(frontend, worker, r), "WORKBENCH_ADMIN_USER_IDS")
      == RealOr(ReadValue(frontend, "WORKBENCH_ADMIN_USER_IDS"), None,
                if user.Some? && user.value != "" then user.value else "dev-user")
  {
    FrontendIsPlain(frontend, worker, r);
    EntryReads(frontend, FrontendEntries(frontend, worker, r), 3);
    RealIff(ReadValue(frontend, "WORKBENCH_ADMIN_USER_IDS"));
  }

  lemma WorkerEntryReads(frontend: string, worker: string, r: Randoms, i: nat, key: string, value: string)
    requires PlainRandoms(r) && i < 8 && WorkerEntries(frontend, worker, r)[i] == Entry(key, value, [])
    ensures ReadValue(Worker'(frontend, worker, r), key) == RealOr(ReadValue(worker, key), None, value)
  {
    WorkerIsPlain(frontend, worker, r);
    EntryReads(worker, WorkerEntries(frontend, worker, r), i);
    RealIff(ReadValue(worker, key));
  }

  /** The secrets of the Worker alone stay if they are real, else they are those drawn. */
  lemma WorkerSecretsRead(frontend: string, worker: string, r: Randoms)
    requires PlainRandoms(r)
    ensures ReadValue(Worker'(frontend, worker, r), "WORKBENCH_AGENT_CONNECTION_SECRET")
         == RealOr(ReadValue(worker, "WORKBENCH_AGENT_CONNECTION_SECRET"), None, r.agent)
    ensures ReadValue(Worker'(frontend, worker, r), "LANGGRAPH_UPSTREAM_TOKEN")
         == RealOr(ReadValue(worker, "LANGGRAPH_UPSTREAM_TOKEN"), None, r.proxy)
  {
    var entries := WorkerEntries(frontend, worker, r);
    OwnSecretReads(frontend, worker, r, 1, "WORKBENCH_AGENT_CONNECTION_SECRET", r.agent);
    OwnSecretReads(frontend, worker, r, 4, "LANGGRAPH_UPSTREAM_TOKEN", r.proxy);
  }

  lemma OwnSecretReads(frontend: string, worker: string, r: Randoms, i: nat, key: string, random: string)
    requires PlainRandoms(r) && i < 8
    requires WorkerEntries(frontend, worker, r)[i] == Entry(key, SharedValue(None, ReadValue(worker, key), random), [])
    ensures ReadValue(Worker'(frontend, worker, r), key) == RealOr(ReadValue(worker, key), None, random)
  {
    WorkerEntryReads(frontend, worker, r, i, key, SharedValue(None, ReadValue(worker, key), random));
    RealIff(ReadValue(worker, key));
  }

  /** The transport is `fly` unless it was real and not `inline`. */
  lemma TransportReads(frontend: string, worker: string, r: Randoms)
    requires PlainRandoms(r)
    ensures var t := ReadValue(worker, "WORKBENCH_RUNNER_TRANSPORT");
      ReadValue(Worker'(frontend, worker, r), "WORKBENCH_RUNNER_TRANSPORT")
      == if Real(t) && t != Some("inline") then t else Some("fly")
  {
    WorkerIsPlain(frontend, worker, r);
    EntryReads(worker, WorkerEntries(frontend, worker, r), 5);
    RealIff(ReadValue(worker, "WORKBENCH_RUNNER_TRANSPORT"));
  }

  /** The addresses stay if they are real. */
  lemma AddressesRead(frontend: string, worker: string, r: Randoms)
    requires PlainRandoms(r)
    ensures ReadValue(Worker'(frontend, worker, r), "WORKBENCH_RUNNER_URL")
         == RealOr(ReadValue(worker, "WORKBENCH_RUNNER_URL"), None, "http://127.0.0.1:3101" + "/workbench/tool-runners/invocations")
    ensures ReadValue(Worker'(frontend, worker, r), "WORKBENCH_CALLBACK_URL")
         == RealOr(ReadValue(worker, "WORKBENCH_CALLBACK_URL"), None, "http://127.0.0.1:8787" + "/workbench/run-callbacks")
  {
    WorkerEntryReads(frontend, worker, r, 6, "WORKBENCH_RUNNER_URL", RunnerUrl);
    WorkerEntryReads(frontend, worker, r, 7, "WORKBENCH_CALLBACK_URL", CallbackUrl);
  }

  const FrontendKeys := [
    "CLOUDFLARE_CONTROL_PLANE_DEV_TOKEN", "WORKBENCH_CALLBACK_SIGNING_SECRET", "WORKBENCH_RUNNER_SIGNING_SECRET",
    "WORKBENCH_ADMIN_USER_IDS"]

  const WorkerKeys := [
    "CLOUDFLARE_CONTROL_PLANE_DEV_TOKEN", "WORKBENCH_AGENT_CONNECTION_SECRET", "WORKBENCH_CALLBACK_SIGNING_SECRET",
    "WORKBENCH_RUNNER_SIGNING_SECRET", "LANGGRAPH_UPSTREAM_TOKEN", "WORKBENCH_RUNNER_TRANSPORT", "WORKBENCH_RUNNER_URL",
    "WORKBENCH_CALLBACK_URL"]

  predicate KeysAre(entries: seq<Entry>, keys: seq<string>) {
    |keys| == |entries| && forall i :: 0 <= i < |entries| ==> entries[i].key == keys[i]
  }

  lemma FrontendKeysAre(token: string, callback: string, runner: string, admin: string)
    ensures KeysAre(FrontendList(token, callback, runner, admin), FrontendKeys)
  {
  }

  lemma WorkerKeysAre(values: seq<string>)
    requires |values| == 8
    ensures KeysAre(WorkerList(values), WorkerKeys)
  {
  }

  /** Every other key reads as before. */
  lemma OthersRead(frontend: string, worker: string, r: Randoms, key: string)
    requires PlainRandoms(r) && PlainKey(key)
    ensures key !in FrontendKeys ==> ReadValue(Frontend'(frontend, worker, r), key) == ReadValue(frontend, key)
    ensures key !in WorkerKeys ==> ReadValue(Worker'(frontend, worker, r), key) == ReadValue(worker, key)
  {
    FrontendIsPlain(frontend, worker, r);
    WorkerIsPlain(frontend, worker, r);
    FrontendKeysAre(Shared(frontend, worker, TokenKey, r.token), Shared(frontend, worker, CallbackKey, r.callback),
                    Shared(frontend, worker, RunnerKey, r.runner), AdminUser(frontend));
    WorkerKeysAre(WorkerValues(frontend, worker, r));
    OtherReads(frontend, FrontendEntries(frontend, worker, r), key, FrontendKeys);
    OtherReads(worker, WorkerEntries(frontend, worker, r), key, WorkerKeys);
  }

  lemma OtherReads(source: string, entries: seq<Entry>, key: string, keys: seq<string>)
    requires PlainEntries(entries) && PlainKey(key)
    requires KeysAre(entries, keys)
    ensures key !in keys ==> ReadValue(Written(source, Apply(source, entries).0), key) == ReadValue(source, key)
  {
    WrittenLaw(source, entries, key);
    if key !in keys {
      forall e | e in entries ensures e.key != key {
        var i :| 0 <= i < |entries| && entries[i] == e;
        assert keys[i] in keys;
      }
      NotWanted(entries, key, ReadValue(source, key));
    }
  }

  /** The value of the key is not real, or is a transport to be replaced. */
  ghost predicate Open(source: string, key: string) {
    || !Real(ReadValue(source, key))
    || (key == "WORKBENCH_RUNNER_TRANSPORT" && ReadValue(source, key) == Some("inline"))
  }

  /** Those of the keys that are open, in order. */
  ghost function OpenKeys(source: string, keys: seq<string>): seq<string> {
    if keys == [] then []
    else OpenKeys(source, keys[..|keys| - 1]) + if Open(source, keys[|keys| - 1]) then [keys[|keys| - 1]] else []
  }

  function Stale(key: string): seq<string> {
    if key == "WORKBENCH_RUNNER_TRANSPORT" then ["inline"] else []
  }

  predicate StaleAre(entries: seq<Entry>, keys: seq<string>) {
    |keys| == |entries| && forall i :: 0 <= i < |entries| ==> entries[i].stale == Stale(keys[i])
  }

  lemma KeptIff(source: string, key: string)
    ensures Open(source, key) <==> !Kept(ReadValue(source, key), Stale(key))
  {
    RealIff(ReadValue(source, key));
  }

  lemma {:induction false} UnkeptAreOpen(source: string, entries: seq<Entry>, keys: seq<string>)
    requires KeysAre(entries, keys) && StaleAre(entries, keys)
    ensures UnkeptKeys(source, entries) == OpenKeys(source, keys)
  {
    if entries != [] {
      var k := |entries| - 1;
      UnkeptAreOpen(source, entries[..k], keys[..k]);
      KeptIff(source, keys[k]);
      assert entries[k].key == keys[k] && entries[k].stale == Stale(keys[k]);
    }
  }

  lemma FrontendStale(i: nat)
    requires i < 4
    ensures Stale(FrontendKeys[i]) == []
  {
    TokenKeyPlain();
    CallbackKeyPlain();
    RunnerKeyPlain();
    AdminKeyPlain();
    assert |"WORKBENCH_RUNNER_TRANSPORT"| == 26;
  }

  lemma WorkerStale(i: nat)
    requires i < 8
    ensures Stale(WorkerKeys[i]) == if i == 5 then ["inline"] else []
  {
    if i < 5 { WorkerKeysDistinct(i, 5, WorkerKeys); }
    if i > 5 { WorkerKeysDistinct(5, i, WorkerKeys); }
  }

  lemma FrontendStales(token: string, callback: string, runner: string, admin: string)
    ensures StaleAre(FrontendList(token, callback, runner, admin), FrontendKeys)
  {
    var entries := FrontendList(token, callback, runner, admin);
    forall i | 0 <= i < 4 ensures entries[i].stale == Stale(FrontendKeys[i]) { FrontendStale(i); }
  }

  lemma WorkerStales(values: seq<string>)
    requires |values| == 8
    ensures StaleAre(WorkerList(values), WorkerKeys)
  {
    var entries := WorkerList(values);
    forall i | 0 <= i < 8 ensures entries[i].stale == Stale(WorkerKeys[i]) { WorkerStale(i); }
  }

  lemma OpenConfigured(source: string, entries: seq<Entry>, keys: seq<string>)
    requires PlainEntries(entries) && KeysAre(entries, keys) && StaleAre(entries, keys)
    ensures Apply(source, entries).1 == OpenKeys(source, keys)
  {
    ConfiguredAre(source, entries);
    UnkeptAreOpen(source, entries, keys);
  }

  /** The keys reported as configured are exactly those that were open, file by file. */
  lemma ConfiguredIs(frontend: string, worker: string, r: Randoms)
    requires PlainRandoms(r)
    ensures Apply(frontend, FrontendEntries(frontend, worker, r)).1 == OpenKeys(frontend, FrontendKeys)
    ensures Apply(worker, WorkerEntries(frontend, worker, r)).1 == OpenKeys(worker, WorkerKeys)
  {
    FrontendIsPlain(frontend, worker, r);
    WorkerIsPlain(frontend, worker, r);
    var token, callback := Shared(frontend, worker, TokenKey, r.token), Shared(frontend, worker, CallbackKey, r.callback);
    var runner, admin := Shared(frontend, worker, RunnerKey, r.runner), AdminUser(frontend);
    FrontendKeysAre(token, callback, runner, admin);
    FrontendStales(token, callback, runner, admin);
    OpenConfigured(frontend, FrontendEntries(frontend, worker, r), FrontendKeys);
    WorkerKeysAre(WorkerValues(frontend, worker, r));
    WorkerStales(WorkerValues(frontend, worker, r));
    OpenConfigured(worker, WorkerEntries(frontend, worker, r), WorkerKeys);
  }

  // ----- the second reader

  /** What is left of a value between quotes, or of a quote alone; any other value stays. */
  ghost predicate Unquotes(w: string, value: string) {
    if exists x :: w == "\"" + x + "\"" then w == "\"" + value + "\""
    else if exists x :: w == "'" + x + "'" then w == "'" + value + "'"
    else if w == "\"" || w == "'" then value == ""
    else value == w
  }

  lemma QuotedBy(w: string, q: string)
    requires |q| == 1
    ensures (StartsWith(w, q) && EndsWith(w, q)) <==> w == q || exists x :: w == q + x + q
    ensures forall x :: w == q + x + q ==> |w| >= 2 && w[1..|w| - 1] == x
  {
    PrefixIff(w, q);
    SuffixIff(w, q);
    if StartsWith(w, q) && EndsWith(w, q) && |w| >= 2 { assert w == q + w[1..|w| - 1] + q; }
    forall x | w == q + x + q ensures |w| >= 2 && w[1..|w| - 1] == x && StartsWith(w, q) && EndsWith(w, q) {
      assert w == q + (x + q) && w == (q + x) + q;
    }
  }

  lemma UnquoteIff(w: string, value: string)
    ensures Unquote(w) == value <==> Unquotes(w, value)
  {
    QuotedBy(w, "\"");
    QuotedBy(w, "'");
    if x :| w == "\"" + x + "\"" {
      assert Unquote(w) == x;
    } else if x :| w == "'" + x + "'" {
      assert Unquote(w) == x;
    }
  }

  /** The line assigns this value to this key: trimmed, it is no comment, and what stands before its
      first `=` is not empty. */
  ghost predicate Enters(line: string, key: string, value: string) {
    exists k, v :: Trim(line) == k + "=" + v && k != "" && '=' !in k && k[0] != '#' && key == Trim(k) && Unquotes(Trim(v), value)
  }

  lemma SeparatorAt(line: string, k: string, v: string)
    requires line == k + "=" + v && '=' !in k
    ensures IndexOf(line, "=") == |k| && line[..|k|] == k && line[|k| + 1..] == v
  {
    FirstEquals(line, |k|);
  }

  lemma SeparatorOf(line: string) returns (k: string, v: string)
    requires IndexOf(line, "=") >= 0
    ensures line == k + "=" + v && '=' !in k && |k| == IndexOf(line, "=")
  {
    var s := IndexOf(line, "=");
    k, v := line[..s], line[s + 1..];
    assert line[s..s + 1] == "=" && line == k + "=" + v;
    forall i | 0 <= i < s ensures k[i] != '=' {
      assert !At(line, "=", i);
      assert line[i..i + 1] == [line[i]];
    }
  }

  lemma HashStart(line: string)
    requires line != ""
    ensures StartsWith(line, "#") <==> line[0] == '#'
  {
    assert line[..1] == [line[0]];
  }

  /** The parser takes from a line exactly what the line assigns. */
  lemma EntersIff(line: string, key: string, value: string)
    ensures ParseLine(line) == Some((key, value)) <==> Enters(line, key, value)
  {
    var t := Trim(line);
    if t != "" { HashStart(t); }
    if k, v :| t == k + "=" + v && k != "" && '=' !in k && k[0] != '#' && key == Trim(k) && Unquotes(Trim(v), value) {
      SeparatorAt(t, k, v);
      UnquoteIff(Trim(v), value);
    }
    if ParseLine(line) == Some((key, value)) {
      var k, v := SeparatorOf(t);
      SeparatorAt(t, k, v);
      UnquoteIff(Trim(v), value);
      assert t == k + "=" + v && k != "" && '=' !in k && k[0] != '#' && key == Trim(k) && Unquotes(Trim(v), value);
    }
  }

  /** What the line assigns, if it assigns anything. */
  ghost predicate Entered(line: string, assignment: Assignment) {
    if assignment.Some? then Enters(line, assignment.value.0, assignment.value.1)
    else forall key, value :: !Enters(line, key, value)
  }

  lemma EnteredIff(line: string, assignment: Assignment)
    ensures Entered(line, assignment) <==> ParseLine(line) == assignment
  {
    if assignment.Some? {
      EntersIff(line, assignment.value.0, assignment.value.1);
    } else {
      if ParseLine(line).Some? { EntersIff(line, ParseLine(line).value.0, ParseLine(line).value.1); }
      forall key, value ensures ParseLine(line) == Some((key, value)) <==> Enters(line, key, value) {
        EntersIff(line, key, value);
      }
    }
  }

  /** Assignment `i` is the last of the key, of this value. */
  predicate LastOf(assignments: seq<Assignment>, key: string, i: nat, value: string) {
    && i < |assignments| && assignments[i] == Some((key, value))
    && forall j :: i < j < |assignments| ==> OtherKeyOn(assignments[j], key)
  }

  predicate Holds(values: map<string, string>, key: string, value: string) {
    key in values && values[key] == value
  }

  predicate Parsed(lines: seq<string>, assignments: seq<Assignment>) {
    |assignments| == |lines| && forall i :: 0 <= i < |lines| ==> ParseLine(lines[i]) == assignments[i]
  }

  lemma LastOfFront(assignments: seq<Assignment>, front: seq<Assignment>, k: nat, key: string, i: nat, value: string)
    requires |assignments| == k + 1 && i < k && front == assignments[..k]
    ensures LastOf(assignments, key, i, value) <==> LastOf(front, key, i, value) && OtherKeyOn(assignments[k], key)
  {
    assert forall j :: 0 <= j < k ==> front[j] == assignments[j];
  }

  lemma StepHolds(values: map<string, string>, assignment: Assignment, key: string, value: string)
    ensures Holds(Assigned(values, assignment), key, value) <==>
      || (key != "__proto__" && assignment == Some((key, value)))
      || (Holds(values, key, value) && (key == "__proto__" || OtherKeyOn(assignment, key)))
  {
  }

  /** The record that assignments make, one after the other. */
  function Recorded(assignments: seq<Assignment>): map<string, string> {
    if assignments == [] then map[]
    else Assigned(Recorded(assignments[..|assignments| - 1]), assignments[|assignments| - 1])
  }

  lemma {:induction false} ParsedIs(lines: seq<string>, assignments: seq<Assignment>)
    requires Parsed(lines, assignments)
    ensures ParseLines(lines) == Recorded(assignments)
  {
    if lines != [] { ParsedIs(lines[..|lines| - 1], assignments[..|lines| - 1]); }
  }

  lemma {:induction false} RecordedIff(assignments: seq<Assignment>, key: string, value: string)
    ensures Holds(Recorded(assignments), key, value)
       <==> key != "__proto__" && exists i: nat :: LastOf(assignments, key, i, value)
  {
    if assignments != [] {
      var k := |assignments| - 1;
      var front := assignments[..k];
      RecordedIff(front, key, value);
      StepHolds(Recorded(front), assignments[k], key, value);
      if i: nat :| LastOf(front, key, i, value) { LastOfFront(assignments, front, k, key, i, value); }
      if i: nat :| LastOf(assignments, key, i, value) && i < k { LastOfFront(assignments, front, k, key, i, value); }
      assert LastOf(assignments, key, k, value) <==> assignments[k] == Some((key, value));
    }
  }

  /** What the lines assign, one by one. */
  ghost predicate AllEntered(lines: seq<string>, assignments: seq<Assignment>) {
    |assignments| == |lines| && forall i :: 0 <= i < |lines| ==> Entered(lines[i], assignments[i])
  }

  lemma AllEnteredIff(lines: seq<string>, assignments: seq<Assignment>)
    ensures AllEntered(lines, assignments) <==> Parsed(lines, assignments)
  {
    if |assignments| == |lines| {
      forall i | 0 <= i < |lines| ensures Entered(lines[i], assignments[i]) <==> ParseLine(lines[i]) == assignments[i] {
        EnteredIff(lines[i], assignments[i]);
      }
    }
  }

  /** The record holds for each key the value of the last line that assigns it, and nothing else;
      `__proto__` is no key of it. */
  lemma RecordIff(lines: seq<string>, assignments: seq<Assignment>, key: string, value: string)
    requires AllEntered(lines, assignments)
    ensures Holds(ParseLines(lines), key, value)
       <==> key != "__proto__" && exists i: nat :: LastOf(assignments, key, i, value)
  {
    AllEnteredIff(lines, assignments);
    ParsedIs(lines, assignments);
    RecordedIff(assignments, key, value);
  }

  /** And of every line it is settled what it assigns. */
  lemma EveryLineEnters(lines: seq<string>) returns (assignments: seq<Assignment>)
    ensures AllEntered(lines, assignments)
  {
    assignments := seq(|lines|, i requires 0 <= i < |lines| => ParseLine(lines[i]));
    AllEnteredIff(lines, assignments);
  }
}

/**
 Reading the `[env]` section of a Fly configuration file
 (scripts/hosted-configuration-core.ts, lines 121-139).
 */
module FlyConfig {
  import opened Text

  predicate IsNameChar(c: char) {
    'A' <= c <= 'Z' || IsDigit(c) || c == '_'
  }

  /** `[A-Z][A-Z0-9_]*` */
  predicate IsName(name: string) {
    name != "" && 'A' <= name[0] <= 'Z' && forall i :: 0 <= i < |name| ==> IsNameChar(name[i])
  }

  /** How many name characters a text starts with. */
  function NameLength(s: string): (n: nat)
    ensures n <= |s|
  {
    if s != "" && IsNameChar(s[0]) then 1 + NameLength(s[1..]) else 0
  }

  predicate IsQuote(c: char) {
    c == '"' || c == '\''
  }

  /** What `.` does not match. */
  predicate IsLineEnd(c: char) {
    c in "\n\r\U{2028}\U{2029}"
  }

  predicate OneLine(s: string) {
    forall i :: 0 <= i < |s| ==> !IsLineEnd(s[i])
  }

  datatype Entry = Entry(name: string, value: string)

  /** `['"](.*)['"]\s*$` on what follows the equals sign. */
  function ParseQuoted(s: string): Option<string> {
    if s == "" || !IsQuote(s[0]) then None
    else
      var body := TrimEnd(s[1..]);
      if body == "" || !IsQuote(body[|body| - 1]) || !OneLine(body[..|body| - 1]) then None
      else Some(body[..|body| - 1])
  }

  /** `/^\s*([A-Z][A-Z0-9_]*)\s*=\s*['"](.*)['"]\s*$/` */
  function ParseLine(line: string): Option<Entry> {
    var s := TrimStart(line);
    var n := NameLength(s);
    if !IsName(s[..n]) then None
    else
      var rest := TrimStart(s[n..]);
      if rest == "" || rest[0] != '=' then None
      else
        var value := ParseQuoted(TrimStart(rest[1..]));
        if value.None? then None else Some(Entry(s[..n], value.value))
  }

  type Inventory = map<string, Option<string>>

  datatype Scan = Scan(inEnv: bool, names: Inventory)

  predicate IsEnvHeader(line: string) {
    Trim(line) == "[env]"
  }

  function ScanLine(state: Scan, line: string): Scan {
    if IsEnvHeader(line) then state.(inEnv := true)
    else if !state.inEnv then state
    else if StartsWith(Trim(line), "[") then state.(inEnv := false)
    else
      var entry := ParseLine(line);
      if entry.None? then state else state.(names := state.names[entry.value.name := Some(entry.value.value)])
  }

  /** A loop over lines that carries a state along. */
  function Fold<S>(step: (S, string) -> S, state: S, lines: seq<string>): S {
    if lines == [] then state else step(Fold(step, state, lines[..|lines| - 1]), lines[|lines| - 1])
  }

  lemma FoldStep<S>(step: (S, string) -> S, state: S, lines: seq<string>, k: nat)
    requires k < |lines|
    ensures Fold(step, state, lines[..k + 1]) == step(Fold(step, state, lines[..k]), lines[k])
  {
    assert lines[..k + 1][..k] == lines[..k];
  }

  lemma {:induction false} FoldConcat<S>(step: (S, string) -> S, state: S, a: seq<string>, b: seq<string>)
    ensures Fold(step, state, a + b) == Fold(step, Fold(step, state, a), b)
  {
    if b == [] {
      assert a + b == a;
    } else {
      FoldConcat(step, state, a, b[..|b| - 1]);
      assert (a + b)[..|a + b| - 1] == a + b[..|b| - 1];
    }
  }

  function ScanLines(state: Scan, lines: seq<string>): Scan {
    Fold(ScanLine, state, lines)
  }

  /** A secret is known by its name only. */
  function AddSecrets(names: Inventory, secrets: seq<string>): Inventory {
    if secrets == [] then names else AddSecrets(names, secrets[..|secrets| - 1])[secrets[|secrets| - 1] := None]
  }

  const Start := Scan(false, map[])

  function ReadInventory(config: string, secrets: seq<string>): Inventory {
    AddSecrets(ScanLines(Start, Split(config, '\n')).names, secrets)
  }

  method ParseFlyInventory(config: string, secrets: seq<string>) returns (names: Inventory)
    ensures names == ReadInventory(config, secrets)
  {
    var lines := Split(config, '\n');
    var inEnv := false;
    names := map[];
    for k := 0 to |lines|
      invariant Scan(inEnv, names) == ScanLines(Start, lines[..k])
    {
      FoldStep(ScanLine, Start, lines, k);
      var line := lines[k];
      if IsEnvHeader(line) {
        inEnv := true;
        continue;
      }
      if inEnv && StartsWith(Trim(line), "[") { inEnv := false; }
      if !inEnv { continue; }
      var entry := ParseLine(line);
      if entry.Some? { names := names[entry.value.name := Some(entry.value.value)]; }
    }
    assert lines[..|lines|] == lines;
    ghost var read := names;
    for k := 0 to |secrets|
      invariant names == AddSecrets(read, secrets[..k])
    {
      assert secrets[..k + 1][..k] == secrets[..k];
      names := names[secrets[k] := None];
    }
    assert secrets[..|secrets|] == secrets;
  }

  // ----- one line written is read back

  /** `NAME = "value"` */
  function EntryLine(e: Entry): string {
    e.name + " = " + "\"" + e.value + "\""
  }

  lemma {:induction false} NameEnds(name: string, rest: string)
    requires forall i :: 0 <= i < |name| ==> IsNameChar(name[i])
    requires rest == "" || !IsNameChar(rest[0])
    ensures NameLength(name + rest) == |name|
  {
    if name == "" {
      assert name + rest == rest;
    } else {
      assert (name + rest)[1..] == name[1..] + rest;
      NameEnds(name[1..], rest);
    }
  }

  lemma NoTrim(s: string)
    requires s != "" && !IsSpace(s[0])
    ensures TrimStart(s) == s
  {
  }

  lemma OneSpace(s: string)
    requires s != "" && !IsSpace(s[0])
    ensures TrimStart(" " + s) == s
  {
    assert (" " + s)[1..] == s;
  }

  lemma QuotedReads(value: string)
    ensures ParseQuoted("\"" + value + "\"") == if OneLine(value) then Some(value) else None
  {
    var s := "\"" + value + "\"";
    var body := value + "\"";
    assert s[1..] == body;
    assert TrimEnd(body) == body && body[..|body| - 1] == value;
  }

  lemma AssignmentReads(name: string, quoted: string)
    requires IsName(name) && quoted != "" && !IsSpace(quoted[0])
    ensures ParseLine(name + (" " + ("=" + (" " + quoted))))
         == if ParseQuoted(quoted).None? then None else Some(Entry(name, ParseQuoted(quoted).value))
  {
    var after := " " + quoted;
    var rest := " " + ("=" + after);
    var s := name + rest;
    NoTrim(s);
    NameEnds(name, rest);
    assert s[..|name|] == name && s[|name|..] == rest;
    OneSpace("=" + after);
    assert ("=" + after)[1..] == after;
    OneSpace(quoted);
  }

  /** A line written for a name and a value is read back as they are, unless the value
      holds a line terminator; then it is not read at all. */
  lemma EntryReads(e: Entry)
    requires IsName(e.name)
    ensures ParseLine(EntryLine(e)) == if OneLine(e.value) then Some(e) else None
  {
    var quoted := "\"" + e.value + "\"";
    assert EntryLine(e) == e.name + (" " + ("=" + (" " + quoted)));
    AssignmentReads(e.name, quoted);
    QuotedReads(e.value);
  }

  // ----- a section written is read back

  lemma ScanConcat(state: Scan, a: seq<string>, b: seq<string>)
    ensures ScanLines(state, a + b) == ScanLines(ScanLines(state, a), b)
  {
    FoldConcat(ScanLine, state, a, b);
  }

  predicate NoHeader(lines: seq<string>) {
    forall i :: 0 <= i < |lines| ==> !IsEnvHeader(lines[i])
  }

  /** Outside the section nothing is read. */
  lemma {:induction false} ScanOutside(names: Inventory, lines: seq<string>)
    requires NoHeader(lines)
    ensures ScanLines(Scan(false, names), lines) == Scan(false, names)
  {
    if lines != [] { ScanOutside(names, lines[..|lines| - 1]); }
  }

  /** A text that starts with a character other than white space still does when trimmed. */
  lemma TrimmedHead(s: string)
    requires s != "" && !IsSpace(s[0])
    ensures Trim(s) != "" && Trim(s)[0] == s[0]
  {
    TrimEndStart(s);
  }

  lemma NotBracketed(s: string)
    requires s != "" && !IsSpace(s[0]) && s[0] != '['
    ensures !IsEnvHeader(s) && !StartsWith(Trim(s), "[")
  {
    TrimmedHead(s);
    assert "[env]"[0] == '[' && "["[0] == '[';
  }

  function With(names: Inventory, e: Entry): Inventory {
    if OneLine(e.value) then names[e.name := Some(e.value)] else names
  }

  /** What a list of entries defines: a later entry of a name counts, and those on more
      than one line do not. */
  function EnvOf(entries: seq<Entry>): Inventory {
    if entries == [] then map[] else With(EnvOf(entries[..|entries| - 1]), entries[|entries| - 1])
  }

  function EntryLines(entries: seq<Entry>): (lines: seq<string>)
    ensures |lines| == |entries| && forall i :: 0 <= i < |entries| ==> lines[i] == EntryLine(entries[i])
  {
    seq(|entries|, i requires 0 <= i < |entries| => EntryLine(entries[i]))
  }

  predicate AllNamed(entries: seq<Entry>) {
    forall i :: 0 <= i < |entries| ==> IsName(entries[i].name)
  }

  lemma ScanEntry(names: Inventory, e: Entry)
    requires IsName(e.name)
    ensures ScanLine(Scan(true, names), EntryLine(e)) == Scan(true, With(names, e))
  {
    assert EntryLine(e)[0] == e.name[0];
    NotBracketed(EntryLine(e));
    EntryReads(e);
  }

  lemma {:induction false} ScanEntries(entries: seq<Entry>)
    requires AllNamed(entries)
    ensures ScanLines(Scan(true, map[]), EntryLines(entries)) == Scan(true, EnvOf(entries))
  {
    if entries != [] {
      var front, last := entries[..|entries| - 1], entries[|entries| - 1];
      ScanEntries(front);
      assert EntryLines(entries)[..|entries| - 1] == EntryLines(front);
      ScanEntry(EnvOf(front), last);
    }
  }

  /** A line that closes the section: it starts with a bracket, but is not its header. */
  predicate Closes(line: string) {
    StartsWith(Trim(line), "[") && !IsEnvHeader(line)
  }

  function SectionLines(head: seq<string>, entries: seq<Entry>, tail: seq<string>): seq<string> {
    head + ["[env]"] + EntryLines(entries) + [""] + tail
  }

  function SectionText(head: seq<string>, entries: seq<Entry>, tail: seq<string>): string {
    Join(SectionLines(head, entries, tail), '\n')
  }

  lemma ScanClosing(names: Inventory, line: string)
    requires Closes(line)
    ensures ScanLines(Scan(true, names), [line]) == Scan(false, names)
  {
    assert ScanLines(Scan(true, names), []) == Scan(true, names);
    assert [line][..0] == [];
  }

  lemma ScanParts(names: Inventory, first: string, rest: seq<string>)
    requires Closes(first) && NoHeader(rest)
    ensures ScanLines(Scan(true, names), [first] + rest) == Scan(false, names)
  {
    ScanClosing(names, first);
    ScanConcat(Scan(true, names), [first], rest);
    ScanOutside(names, rest);
  }

  lemma ScanTail(names: Inventory, tail: seq<string>)
    requires tail != [] && Closes(tail[0]) && NoHeader(tail)
    ensures ScanLines(Scan(true, names), tail).names == names
  {
    var first, rest := tail[0], tail[1..];
    assert tail == [first] + rest;
    assert forall i :: 0 <= i < |rest| ==> rest[i] == tail[i + 1];
    ScanParts(names, first, rest);
  }

  /** Of a file with one section, the lines between its header and the next bracket are
      read, and nothing else. */
  lemma SectionReads(head: seq<string>, entries: seq<Entry>, tail: seq<string>)
    requires NoHeader(head) && AllNamed(entries) && tail != [] && Closes(tail[0]) && NoHeader(tail)
    ensures ScanLines(Start, SectionLines(head, entries, tail)).names == EnvOf(entries)
  {
    ScanOutside(map[], head);
    var a := head + ["[env]"];
    assert a[..|a| - 1] == head;
    assert ScanLines(Start, a) == Scan(true, map[]);
    var b := a + EntryLines(entries);
    ScanConcat(Start, a, EntryLines(entries));
    ScanEntries(entries);
    var c := b + [""];
    assert c[..|c| - 1] == b;
    BlankReads(EnvOf(entries));
    ScanConcat(Start, c, tail);
    ScanTail(EnvOf(entries), tail);
  }

  lemma BlankReads(names: Inventory)
    ensures ScanLine(Scan(true, names), "") == Scan(true, names)
  {
    assert |Trim("")| == 0 && |"[env]"| == 5;
  }

  /** No line holds a line break. */
  predicate Unbroken(lines: seq<string>) {
    forall l :: l in lines ==> '\n' !in l
  }

  lemma UnbrokenConcat(a: seq<string>, b: seq<string>)
    requires Unbroken(a) && Unbroken(b)
    ensures Unbroken(a + b)
  {
  }

  lemma UnbrokenSection(head: seq<string>, entries: seq<Entry>, tail: seq<string>)
    requires Unbroken(head) && Unbroken(EntryLines(entries)) && Unbroken(tail)
    ensures Unbroken(SectionLines(head, entries, tail))
  {
    assert |"[env]"| == 5 && Unbroken(["[env]"]) && Unbroken([""]);
    UnbrokenConcat(head, ["[env]"]);
    UnbrokenConcat(head + ["[env]"], EntryLines(entries));
    UnbrokenConcat(head + ["[env]"] + EntryLines(entries), [""]);
    UnbrokenConcat(head + ["[env]"] + EntryLines(entries) + [""], tail);
  }

  /** What stands around the section: no other section of its name, and one after it. */
  predicate Surrounds(head: seq<string>, tail: seq<string>) {
    NoHeader(head) && Unbroken(head) && tail != [] && Closes(tail[0]) && NoHeader(tail) && Unbroken(tail)
  }

  /** Names and values that can be written, each on its line. */
  predicate Writable(entries: seq<Entry>) {
    AllNamed(entries) && forall i :: 0 <= i < |entries| ==> '\n' !in entries[i].value
  }

  lemma WritableLines(entries: seq<Entry>)
    requires Writable(entries)
    ensures Unbroken(EntryLines(entries))
  {
  }

  /** Written as text and read again, the section holds what its entries define, for all
      lines without a line break. */
  lemma SectionRoundTrip(head: seq<string>, entries: seq<Entry>, tail: seq<string>)
    requires Surrounds(head, tail) && Writable(entries)
    ensures ReadInventory(SectionText(head, entries, tail), []) == EnvOf(entries)
  {
    WritableLines(entries);
    UnbrokenSection(head, entries, tail);
    SplitJoin(SectionLines(head, entries, tail), '\n');
    SectionReads(head, entries, tail);
  }
}

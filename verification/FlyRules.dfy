/**
 Which variables a Fly configuration file defines, said of its lines
 (scripts/hosted-configuration-core.ts, lines 121-139).
 */
module FlyRules {
  import opened Text
  import opened Characters
  import opened FlyConfig

  // ----- one line

  /** A capital, and then capitals, digits and `_`. */
  predicate Spelled(name: string) {
    && name != "" && name[0] in Capital
    && forall i :: 0 <= i < |name| ==> name[i] in Capital || name[i] in Digits || name[i] == '_'
  }

  lemma NameCharIff(c: char)
    ensures IsNameChar(c) <==> c in Capital || c in Digits || c == '_'
  {
    CapitalIn(c);
    DigitIn(c);
  }

  lemma SpelledIff(name: string)
    ensures Spelled(name) <==> IsName(name)
  {
    forall i | 0 <= i < |name| ensures IsNameChar(name[i]) <==> name[i] in Capital || name[i] in Digits || name[i] == '_' {
      NameCharIff(name[i]);
    }
    if name != "" { CapitalIn(name[0]); }
  }

  /** No line terminator. */
  predicate OnOneLine(value: string) {
    forall i :: 0 <= i < |value| ==> value[i] as int !in {10, 13, 8232, 8233}
  }

  lemma OnOneLineIff(value: string)
    ensures OnOneLine(value) <==> OneLine(value)
  {
    forall i | 0 <= i < |value| ensures IsLineEnd(value[i]) <==> value[i] as int in {10, 13, 8232, 8233} { LineEndIff(value[i]); }
  }

  lemma LineEndIff(c: char)
    ensures IsLineEnd(c) <==> c as int in {10, 13, 8232, 8233}
  {
    var table := "\n\r\U{2028}\U{2029}";
    assert table[0] as int == 10 && table[1] as int == 13 && table[2] as int == 8232 && table[3] as int == 8233 && |table| == 4;
  }

  /** The line, after white space, is the name, `=`, and the value between two quotes, with white space
      around each of them. */
  ghost predicate Written(line: string, name: string, value: string, a: string, b: string, c: string, d: string, q: char, r: char) {
    && AllSpace(a) && AllSpace(b) && AllSpace(c) && AllSpace(d) && (q == '"' || q == '\'') && (r == '"' || r == '\'')
    && line == a + (name + (b + ("=" + (c + ([q] + (value + [r] + d))))))
  }

  ghost predicate Defines(line: string, name: string, value: string) {
    Spelled(name) && OnOneLine(value) && exists a, b, c, d, q, r :: Written(line, name, value, a, b, c, d, q, r)
  }

  lemma QuotedIs(value: string, d: string, q: char, r: char)
    requires AllSpace(d) && IsQuote(q) && IsQuote(r) && OneLine(value)
    ensures ParseQuoted([q] + (value + [r] + d)) == Some(value)
  {
    var s := [q] + (value + [r] + d);
    assert s[1..] == (value + [r]) + d;
    QuoteNotSpace(r);
    EndBefore(value + [r], d);
    assert (value + [r])[..|value|] == value;
  }

  lemma QuoteNotSpace(q: char)
    requires IsQuote(q)
    ensures !IsSpace(q)
  {
  }

  lemma NameNotSpace(c: char)
    requires IsNameChar(c)
    ensures !IsSpace(c)
  {
  }

  lemma SpaceNotName(b: string)
    requires AllSpace(b)
    ensures b + "=" != "" && !IsNameChar((b + "=")[0])
  {
    if b != "" && IsNameChar(b[0]) { NameNotSpace(b[0]); }
  }

  lemma AfterSpace(gap: string, s: string)
    requires AllSpace(gap) && s != "" && !IsSpace(s[0])
    ensures TrimStart(gap + s) == s
  {
    StartAfter(gap, s);
  }

  lemma NameThen(name: string, b: string, rest: string)
    requires IsName(name) && AllSpace(b)
    ensures var s := name + (b + ("=" + rest)); NameLength(s) == |name| && s[..|name|] == name && s[|name|..] == b + ("=" + rest)
  {
    SpaceNotName(b);
    assert (b + ("=" + rest))[0] == (b + "=")[0];
    NameEnds(name, b + ("=" + rest));
  }

  lemma WrittenParses(line: string, name: string, value: string, a: string, b: string, c: string, d: string, q: char, r: char)
    requires IsName(name) && OneLine(value) && Written(line, name, value, a, b, c, d, q, r)
    ensures ParseLine(line) == Some(Entry(name, value))
  {
    var quoted := [q] + (value + [r] + d);
    var rest := "=" + (c + quoted);
    NameNotSpace(name[0]);
    AfterSpace(a, name + (b + rest));
    NameThen(name, b, c + quoted);
    AfterSpace(b, rest);
    assert rest[1..] == c + quoted;
    QuoteNotSpace(q);
    AfterSpace(c, quoted);
    QuotedIs(value, d, q, r);
  }

  lemma ParsedQuoted(s: string) returns (value: string, d: string, q: char, r: char)
    requires ParseQuoted(s).Some?
    ensures ParseQuoted(s) == Some(value) && IsQuote(q) && IsQuote(r) && AllSpace(d) && OneLine(value) && s == [q] + (value + [r] + d)
  {
    q := s[0];
    d := EndPart(s[1..]);
    var body := TrimEnd(s[1..]);
    value, r := body[..|body| - 1], body[|body| - 1];
    assert body == value + [r];
    assert s == [s[0]] + s[1..];
  }

  lemma {:induction false} NamePart(s: string)
    ensures forall i :: 0 <= i < NameLength(s) ==> IsNameChar(s[i])
  {
    if s != "" && IsNameChar(s[0]) { NamePart(s[1..]); }
  }

  lemma ParsedRest(rest: string) returns (c: string, value: string, d: string, q: char, r: char)
    requires rest != "" && rest[0] == '=' && ParseQuoted(TrimStart(rest[1..])).Some?
    ensures ParseQuoted(TrimStart(rest[1..])) == Some(value)
    ensures AllSpace(c) && IsQuote(q) && IsQuote(r) && AllSpace(d) && OneLine(value)
    ensures rest == "=" + (c + ([q] + (value + [r] + d)))
  {
    c := StartPart(rest[1..]);
    value, d, q, r := ParsedQuoted(TrimStart(rest[1..]));
    assert rest == "=" + rest[1..];
  }

  lemma ParsedName(line: string) returns (a: string, name: string, b: string, rest: string)
    requires ParseLine(line).Some?
    ensures AllSpace(a) && AllSpace(b) && IsName(name) && line == a + (name + (b + rest))
    ensures rest != "" && rest[0] == '=' && ParseQuoted(TrimStart(rest[1..])).Some?
    ensures ParseLine(line) == Some(Entry(name, ParseQuoted(TrimStart(rest[1..])).value))
  {
    a := StartPart(line);
    var s := TrimStart(line);
    var n := NameLength(s);
    name := s[..n];
    b := StartPart(s[n..]);
    rest := TrimStart(s[n..]);
    assert s == name + s[n..];
  }

  lemma ParsedWritten(line: string) returns (name: string, value: string, a: string, b: string, c: string, d: string, q: char, r: char)
    requires ParseLine(line).Some?
    ensures ParseLine(line) == Some(Entry(name, value)) && IsName(name) && OneLine(value)
    ensures Written(line, name, value, a, b, c, d, q, r)
  {
    var rest;
    a, name, b, rest := ParsedName(line);
    c, value, d, q, r := ParsedRest(rest);
  }

  /** The parser reads exactly the lines written so. */
  lemma DefinesIff(line: string, name: string, value: string)
    ensures ParseLine(line) == Some(Entry(name, value)) <==> Defines(line, name, value)
  {
    SpelledIff(name);
    OnOneLineIff(value);
    if Spelled(name) && OnOneLine(value) {
      if a, b, c, d, q, r :| Written(line, name, value, a, b, c, d, q, r) { WrittenParses(line, name, value, a, b, c, d, q, r); }
    }
    if ParseLine(line) == Some(Entry(name, value)) {
      var x, y, a, b, c, d, q, r := ParsedWritten(line);
    }
  }

  // ----- the section

  /** The line is the header of the section, white space aside. */
  predicate Opens(line: string) {
    Trim(line) == "[env]"
  }

  /** The line starts another section. */
  predicate Bracketed(line: string) {
    Trim(line) != "" && Trim(line)[0] == '['
  }

  lemma BracketedIff(line: string)
    ensures Bracketed(line) <==> StartsWith(Trim(line), "[")
  {
    if Trim(line) != "" { assert Trim(line)[..1] == [Trim(line)[0]]; }
  }

  /** The line keeps the reader in the section. */
  predicate Stays(line: string) {
    Opens(line) || !Bracketed(line)
  }

  /** Line `h` is the header, and none of those after it, up to `k`, starts another section. */
  predicate OpenSince(lines: seq<string>, h: nat, k: nat)
    requires k <= |lines|
  {
    h < k && Opens(lines[h]) && forall j :: h < j < k ==> Stays(lines[j])
  }

  /** After the first `k` lines the reader is inside the section. */
  ghost predicate Inside(lines: seq<string>, k: nat)
    requires k <= |lines|
  {
    exists h: nat :: OpenSince(lines, h, k)
  }

  lemma SinceStep(lines: seq<string>, h: nat, k: nat)
    requires k < |lines|
    ensures OpenSince(lines, h, k + 1) <==> (h == k && Opens(lines[k])) || (OpenSince(lines, h, k) && Stays(lines[k]))
  {
  }

  lemma InsideStep(lines: seq<string>, k: nat)
    requires k < |lines|
    ensures Inside(lines, k + 1) <==> Opens(lines[k]) || (Inside(lines, k) && Stays(lines[k]))
  {
    var next := k + 1;
    if h: nat :| OpenSince(lines, h, next) { SinceStep(lines, h, k); }
    if h: nat :| OpenSince(lines, h, k) { SinceStep(lines, h, k); }
    SinceStep(lines, k, k);
  }

  lemma SinceFront(lines: seq<string>, front: seq<string>, n: nat, h: nat, k: nat)
    requires k <= n <= |lines| && front == lines[..n]
    ensures OpenSince(front, h, k) <==> OpenSince(lines, h, k)
  {
    assert front[..k] == lines[..k];
  }

  lemma InsideFront(lines: seq<string>, n: nat, k: nat)
    requires k <= n <= |lines|
    ensures Inside(lines[..n], k) <==> Inside(lines, k)
  {
    var front := lines[..n];
    forall h: nat ensures OpenSince(front, h, k) <==> OpenSince(lines, h, k) { SinceFront(lines, front, n, h, k); }
  }

  /** The flag of the loop says whether the reader is inside. */
  lemma {:induction false} FlagIff(lines: seq<string>)
    ensures ScanLines(Start, lines).inEnv <==> Inside(lines, |lines|)
  {
    if lines != [] {
      var k := |lines| - 1;
      FlagIff(lines[..k]);
      InsideFront(lines, k, k);
      InsideStep(lines, k);
      BracketedIff(lines[k]);
    }
  }

  /** Line `k` stands in the section. */
  ghost predicate Within(lines: seq<string>, k: nat) {
    k < |lines| && Inside(lines, k) && !Opens(lines[k]) && !Bracketed(lines[k])
  }

  /** What line `k` defines there, if anything. */
  ghost function DefinedBy(lines: seq<string>, k: nat): Option<Entry>
    requires k < |lines|
  {
    if Within(lines, k) then ParseLine(lines[k]) else None
  }

  /** What the lines define, one after the other. */
  function Collected(defined: seq<Option<Entry>>): Inventory {
    if defined == [] then map[]
    else
      var names, last := Collected(defined[..|defined| - 1]), defined[|defined| - 1];
      if last.None? then names else names[last.value.name := Some(last.value.value)]
  }

  ghost predicate AllDefined(lines: seq<string>, defined: seq<Option<Entry>>) {
    |defined| == |lines| && forall k :: 0 <= k < |lines| ==> defined[k] == DefinedBy(lines, k)
  }

  lemma DefinedFront(lines: seq<string>, defined: seq<Option<Entry>>, k: nat)
    requires AllDefined(lines, defined) && |lines| == k + 1
    ensures AllDefined(lines[..k], defined[..k])
  {
    forall j | 0 <= j < k ensures defined[..k][j] == DefinedBy(lines[..k], j) { InsideFront(lines, k, j); }
  }

  lemma {:induction false} ScanCollects(lines: seq<string>, defined: seq<Option<Entry>>)
    requires AllDefined(lines, defined)
    ensures ScanLines(Start, lines).names == Collected(defined)
  {
    if lines != [] {
      var k := |lines| - 1;
      DefinedFront(lines, defined, k);
      ScanCollects(lines[..k], defined[..k]);
      FlagIff(lines[..k]);
      InsideFront(lines, k, k);
      BracketedIff(lines[k]);
      ScanStep(ScanLines(Start, lines[..k]), lines[k]);
      assert defined[k] == DefinedBy(lines, k);
    }
  }

  lemma ScanStep(state: Scan, line: string)
    ensures ScanLine(state, line).names ==
      if state.inEnv && !Opens(line) && !StartsWith(Trim(line), "[") && ParseLine(line).Some?
      then state.names[ParseLine(line).value.name := Some(ParseLine(line).value.value)] else state.names
  {
  }

  /** Definition `k` is the last of the name, of this value. */
  predicate LastDefined(defined: seq<Option<Entry>>, name: string, k: nat, value: string) {
    && k < |defined| && defined[k] == Some(Entry(name, value))
    && forall j :: k < j < |defined| && defined[j].Some? ==> defined[j].value.name != name
  }

  predicate Holds(names: Inventory, name: string, value: Option<string>) {
    name in names && names[name] == value
  }

  lemma {:induction false} CollectedIff(defined: seq<Option<Entry>>, name: string, value: string)
    ensures Holds(Collected(defined), name, Some(value)) <==> exists k: nat :: LastDefined(defined, name, k, value)
    ensures name in Collected(defined) ==> Collected(defined)[name].Some?
  {
    if defined != [] {
      var k := |defined| - 1;
      var front := defined[..k];
      CollectedIff(front, name, value);
      if i: nat :| LastDefined(front, name, i, value) { assert front[i] == defined[i]; LastFront(defined, front, k, name, i, value); }
      if i: nat :| LastDefined(defined, name, i, value) && i < k { LastFront(defined, front, k, name, i, value); }
      assert LastDefined(defined, name, k, value) <==> defined[k] == Some(Entry(name, value));
    }
  }

  lemma LastFront(defined: seq<Option<Entry>>, front: seq<Option<Entry>>, k: nat, name: string, i: nat, value: string)
    requires |defined| == k + 1 && front == defined[..k] && i < k
    ensures LastDefined(defined, name, i, value)
       <==> LastDefined(front, name, i, value) && (defined[k].Some? ==> defined[k].value.name != name)
  {
    assert forall j :: 0 <= j < k ==> front[j] == defined[j];
  }

  lemma {:induction false} SecretsIff(names: Inventory, secrets: seq<string>, name: string, value: Option<string>)
    ensures Holds(AddSecrets(names, secrets), name, value)
       <==> if name in secrets then value == None else Holds(names, name, value)
  {
    if secrets != [] {
      SecretsIff(names, secrets[..|secrets| - 1], name, value);
      assert secrets == secrets[..|secrets| - 1] + [secrets[|secrets| - 1]];
    }
  }

  /** The inventory: a secret is known by name, and any other variable has the value that the last line
      of the section defining it gives. */
  lemma InventoryIff(config: string, defined: seq<Option<Entry>>, secrets: seq<string>, name: string, value: Option<string>)
    requires AllDefined(Split(config, '\n'), defined)
    ensures Holds(ReadInventory(config, secrets), name, value)
       <==> if name in secrets then value == None
            else value.Some? && exists k: nat :: LastDefined(defined, name, k, value.value)
  {
    var lines := Split(config, '\n');
    ScanCollects(lines, defined);
    SecretsIff(Collected(defined), secrets, name, value);
    CollectedIff(defined, name, if value.Some? then value.value else "");
  }
}

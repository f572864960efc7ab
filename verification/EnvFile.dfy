/**
 The editor of environment files (scripts/workbench-init.ts, lines 21-71).
 */
module EnvFile {
  import opened Text

  // ----- lines

  function DropReturn(piece: string): string {
    if piece != "" && piece[|piece| - 1] == '\r' then piece[..|piece| - 1] else piece
  }

  /** One carriage return goes from the end of every piece but the last. */
  function Normalized(pieces: seq<string>): (lines: seq<string>)
    ensures |lines| == |pieces|
    ensures forall i :: 0 <= i < |pieces| ==> lines[i] == pieces[i] || lines[i] == DropReturn(pieces[i])
  {
    if |pieces| <= 1 then pieces else [DropReturn(pieces[0])] + Normalized(pieces[1..])
  }

  lemma NormalizedAvoids(pieces: seq<string>, c: char)
    requires forall p :: p in pieces ==> c !in p
    ensures forall l :: l in Normalized(pieces) ==> c !in l
  {
    forall i | 0 <= i < |pieces| ensures c !in Normalized(pieces)[i] {
      assert pieces[i] in pieces;
    }
  }

  /** `source.split(/\r?\n/)` */
  function Lines(source: string): (lines: seq<string>)
    ensures |lines| >= 1 && forall l :: l in lines ==> '\n' !in l
  {
    NormalizedAvoids(Split(source, '\n'), '\n');
    Normalized(Split(source, '\n'))
  }

  /** A key as the editor uses them: not empty, one word, no `=`. */
  predicate PlainKey(key: string) {
    key != "" && '=' !in key && '\n' !in key && '\r' !in key
  }

  /** The line starts with `key=`. */
  predicate Assigns(line: string, key: string) {
    StartsWith(line, key + "=")
  }

  /** `lines.findIndex((line) => line.startsWith(`${key}=`))` */
  function FindLine(lines: seq<string>, key: string): (k: int)
    ensures -1 <= k < |lines|
    ensures k >= 0 ==> Assigns(lines[k], key) && forall i :: 0 <= i < k ==> !Assigns(lines[i], key)
    ensures k == -1 ==> forall i :: 0 <= i < |lines| ==> !Assigns(lines[i], key)
  {
    if lines == [] then -1
    else if Assigns(lines[0], key) then 0
    else
      var k := FindLine(lines[1..], key);
      if k == -1 then -1 else k + 1
  }

  function ValueOn(line: string, key: string): string
    requires Assigns(line, key)
  {
    Trim(line[|key| + 1..])
  }

  function ReadLines(lines: seq<string>, key: string): Option<string> {
    var k := FindLine(lines, key);
    if k == -1 then None else Some(ValueOn(lines[k], key))
  }

  function ReadValue(source: string, key: string): Option<string> {
    ReadLines(Lines(source), key)
  }

  predicate Placeholder(value: Option<string>) {
    value.None? || Trim(value.value) == "" || StartsWith(Trim(value.value), "replace-with-")
  }

  /** A value the editor leaves alone. */
  predicate Kept(value: Option<string>, stale: seq<string>) {
    !Placeholder(value) && value.value !in stale
  }

  function SetLines(lines: seq<string>, key: string, value: string): seq<string> {
    var k := FindLine(lines, key);
    if k == -1 then lines + [key + "=" + value] else lines[k := key + "=" + value]
  }

  /** The text after the edit, and whether it was changed. */
  function SetValue(source: string, key: string, value: string, stale: seq<string>): (string, bool) {
    if Kept(ReadValue(source, key), stale) then (source, false)
    else (Join(SetLines(Lines(source), key, value), '\n'), true)
  }

  method SetPlaceholderValue(source: string, key: string, value: string, stale: seq<string>)
    returns (next: string, changed: bool)
    ensures (next, changed) == SetValue(source, key, value, stale)
  {
    var lines := Lines(source);
    var index := FindLine(lines, key);
    if index < 0 {
      lines := lines + [key + "=" + value];
      return Join(lines, '\n'), true;
    }
    var current := Trim(lines[index][|key| + 1..]);
    if !Placeholder(Some(current)) && current !in stale {
      return source, false;
    }
    lines := lines[index := key + "=" + value];
    return Join(lines, '\n'), true;
  }

  // ----- carriage returns do not change what is read

  lemma PrefixOfShorter(line: string, head: string)
    requires |head| > 0 && head[|head| - 1] != '\r' && line != "" && line[|line| - 1] == '\r'
    ensures StartsWith(line, head) <==> StartsWith(line[..|line| - 1], head)
    ensures StartsWith(line, head) ==> |head| < |line|
  {
    var short := line[..|line| - 1];
    if StartsWith(line, head) {
      assert line[..|head|] == head;
      assert line[|head| - 1] == head[|head| - 1];
      assert short[..|head|] == line[..|head|];
    }
    if StartsWith(short, head) { assert line[..|head|] == short[..|head|]; }
  }

  lemma TrimDropsReturn(line: string, k: nat)
    requires k < |line| && line[|line| - 1] == '\r'
    ensures Trim(line[..|line| - 1][k..]) == Trim(line[k..])
  {
    var short := line[..|line| - 1];
    TrimEndAppend(short[k..], '\r');
    assert line[k..] == short[k..] + ['\r'];
  }

  lemma AssignsDropReturn(line: string, key: string)
    requires PlainKey(key)
    ensures Assigns(DropReturn(line), key) <==> Assigns(line, key)
    ensures Assigns(line, key) ==> ValueOn(DropReturn(line), key) == ValueOn(line, key)
  {
    if line != "" && line[|line| - 1] == '\r' {
      PrefixOfShorter(line, key + "=");
      if Assigns(line, key) { TrimDropsReturn(line, |key| + 1); }
    }
  }

  /** The two lines assign the key alike, and the same value if they do. */
  predicate SameAssignment(line: string, line': string, key: string) {
    && (Assigns(line, key) <==> Assigns(line', key))
    && (Assigns(line, key) && Assigns(line', key) ==> ValueOn(line, key) == ValueOn(line', key))
  }

  lemma {:induction false} FindAlike(lines: seq<string>, pieces: seq<string>, key: string)
    requires |lines| == |pieces| && forall i :: 0 <= i < |lines| ==> SameAssignment(lines[i], pieces[i], key)
    ensures FindLine(lines, key) == FindLine(pieces, key)
  {
    if lines != [] {
      assert SameAssignment(lines[0], pieces[0], key);
      FindAlike(lines[1..], pieces[1..], key);
    }
  }

  lemma ReadNormalized(pieces: seq<string>, key: string)
    requires PlainKey(key)
    ensures ReadLines(Normalized(pieces), key) == ReadLines(pieces, key)
  {
    var lines := Normalized(pieces);
    forall i | 0 <= i < |pieces| ensures SameAssignment(lines[i], pieces[i], key) {
      AssignsDropReturn(pieces[i], key);
    }
    FindAlike(lines, pieces, key);
    var k := FindLine(pieces, key);
    if k >= 0 { assert SameAssignment(lines[k], pieces[k], key); }
  }

  lemma LinesOfJoin(lines: seq<string>)
    requires |lines| >= 1 && forall l :: l in lines ==> '\n' !in l
    ensures Lines(Join(lines, '\n')) == Normalized(lines)
  {
    SplitJoin(lines, '\n');
  }

  // ----- one edit

  /** A value the editor writes: one line, trimmed. */
  predicate PlainValue(value: string) {
    Trimmed(value) && '\n' !in value
  }

  lemma OwnLine(key: string, value: string)
    requires PlainKey(key) && PlainValue(value)
    ensures Assigns(key + "=" + value, key) && ValueOn(key + "=" + value, key) == value
    ensures '\n' !in key + "=" + value
  {
    var line := key + "=" + value;
    assert line[..|key| + 1] == key + "=" && line[|key| + 1..] == value;
    TrimTrimmed(value);
  }

  /** The key ends at the first `=`. */
  lemma AssignsShape(line: string, key: string)
    requires PlainKey(key) && Assigns(line, key)
    ensures |key| < |line| && line[..|key|] == key && line[|key|] == '='
    ensures forall i :: 0 <= i < |key| ==> line[i] != '='
  {
    var head := key + "=";
    assert line[..|head|] == head;
    assert forall i :: 0 <= i < |head| ==> line[i] == head[i];
  }

  lemma SameKey(line: string, key: string, key': string)
    requires PlainKey(key) && PlainKey(key') && Assigns(line, key) && Assigns(line, key')
    ensures key == key'
  {
    AssignsShape(line, key);
    AssignsShape(line, key');
  }

  lemma OtherKey(line: string, key: string, key': string)
    requires PlainKey(key) && PlainKey(key') && key != key' && Assigns(line, key)
    ensures !Assigns(line, key')
  {
    if Assigns(line, key') { SameKey(line, key, key'); }
  }

  lemma SetLinesReads(lines: seq<string>, key: string, value: string)
    requires PlainKey(key) && PlainValue(value)
    ensures ReadLines(SetLines(lines, key, value), key) == Some(value)
  {
    OwnLine(key, value);
    var k := FindLine(lines, key);
    var after := SetLines(lines, key, value);
    var at := if k == -1 then |lines| else k;
    assert after[at] == key + "=" + value;
    assert forall i :: 0 <= i < at ==> after[i] == lines[i];
    assert FindLine(after, key) == at;
  }

  lemma SameReading(lines: seq<string>, after: seq<string>, key: string)
    requires |lines| <= |after|
    requires forall i :: 0 <= i < |lines| ==> after[i] == lines[i] || (!Assigns(after[i], key) && !Assigns(lines[i], key))
    requires forall i :: |lines| <= i < |after| ==> !Assigns(after[i], key)
    ensures ReadLines(after, key) == ReadLines(lines, key)
  {
    var k, k' := FindLine(lines, key), FindLine(after, key);
    if k >= 0 { assert !(0 <= k' < k); }
  }

  lemma SetLinesKeeps(lines: seq<string>, key: string, value: string, key': string)
    requires PlainKey(key) && PlainKey(key') && key != key' && PlainValue(value)
    ensures ReadLines(SetLines(lines, key, value), key') == ReadLines(lines, key')
  {
    var line := key + "=" + value;
    OwnLine(key, value);
    OtherKey(line, key, key');
    var k := FindLine(lines, key);
    if k >= 0 { OtherKey(lines[k], key, key'); }
    SameReading(lines, SetLines(lines, key, value), key');
  }

  lemma ReadAfterSet(source: string, key: string, value: string, key': string)
    requires PlainKey(key) && PlainKey(key') && PlainValue(value)
    ensures ReadValue(Join(SetLines(Lines(source), key, value), '\n'), key')
         == if key' == key then Some(value) else ReadValue(source, key')
  {
    var lines := Lines(source);
    var after := SetLines(lines, key, value);
    OwnLine(key, value);
    LinesOfJoin(after);
    ReadNormalized(after, key');
    if key' == key { SetLinesReads(lines, key, value); } else { SetLinesKeeps(lines, key, value, key'); }
  }

  /** What a key should read after an edit: its value if that is kept, else the new one. */
  function Wanted(current: Option<string>, value: string, stale: seq<string>): Option<string> {
    if Kept(current, stale) then current else Some(value)
  }

  /** The law of one edit: the key reads as wanted, every other key reads as before, and the
      text changes exactly when the old value was not kept. */
  lemma SetValueLaw(source: string, key: string, value: string, stale: seq<string>, key': string)
    requires PlainKey(key) && PlainKey(key') && PlainValue(value)
    ensures var (next, changed) := SetValue(source, key, value, stale);
      && (changed <==> !Kept(ReadValue(source, key), stale))
      && (!changed ==> next == source)
      && ReadValue(next, key')
         == if key' == key then Wanted(ReadValue(source, key), value, stale) else ReadValue(source, key')
  {
    ReadAfterSet(source, key, value, key');
  }

  /** After an edit the line of the key holds the new value, and every other line keeps its
      place and its content, up to a carriage return at its end. */
  lemma OtherLinesKept(source: string, key: string, value: string, stale: seq<string>)
    requires PlainKey(key) && PlainValue(value) && !Kept(ReadValue(source, key), stale)
    ensures var (lines, after) := (Lines(source), Lines(SetValue(source, key, value, stale).0));
      var k := if FindLine(lines, key) == -1 then |lines| else FindLine(lines, key);
      && |after| == (if k == |lines| then |lines| + 1 else |lines|)
      && ValueOf(after[k], key) == Some(value)
      && forall i :: 0 <= i < |lines| && i != k ==> after[i] == lines[i] || after[i] == DropReturn(lines[i])
  {
    OwnLine(key, value);
    AssignsDropReturn(key + "=" + value, key);
    LinesOfJoin(SetLines(Lines(source), key, value));
  }

  function ValueOf(line: string, key: string): Option<string> {
    if Assigns(line, key) then Some(ValueOn(line, key)) else None
  }

  /** A real value that is not to be replaced is not edited a second time. */
  lemma SetValueIdempotent(source: string, key: string, value: string, stale: seq<string>)
    requires PlainKey(key) && PlainValue(value) && Kept(Some(value), stale)
    ensures var next := SetValue(source, key, value, stale).0; SetValue(next, key, value, stale) == (next, false)
  {
    SetValueLaw(source, key, value, stale, key);
  }
}

/**
 Which data texts a stream of server-sent events carries, said of its blocks and lines
 (scripts/smoke-cloudflare-session-events.ts, lines 71-85).
 */
module SseRules {
  import opened Text
  import opened Order
  import opened Characters
  import opened Sse

  /** What a line adds to the data of its block: what follows `data:` and white space, or nothing. */
  ghost predicate Adds(line: string, part: string) {
    || (&& (exists gap :: AllSpace(gap) && line == "data:" + (gap + part))
        && (part != "" ==> !IsSpace(part[0])))
    || (part == "" && !exists x :: line == "data:" + x)
  }

  lemma AddsIs(line: string, part: string)
    requires Adds(line, part)
    ensures LineData(line) == part
  {
    PrefixIff(line, "data:");
    if gap :| AllSpace(gap) && line == "data:" + (gap + part) && (part != "" ==> !IsSpace(part[0])) {
      assert line[5..] == gap + part;
      StartAfter(gap, part);
    }
  }

  /** Every line adds something, perhaps nothing. */
  lemma PartOf(line: string) returns (part: string)
    ensures Adds(line, part)
  {
    part := "";
    PrefixIff(line, "data:");
    if x :| line == "data:" + x {
      var gap := StartPart(x);
      part := TrimStart(x);
      TrimStartHead(x);
    }
  }

  ghost predicate AllAdd(lines: seq<string>, parts: seq<string>) {
    |parts| == |lines| && forall i :: 0 <= i < |lines| ==> Adds(lines[i], parts[i])
  }

  /** The data of several lines is what they add, put together. */
  lemma {:induction false} DataIs(lines: seq<string>, parts: seq<string>)
    requires AllAdd(lines, parts)
    ensures DataOf(lines) == Flatten(parts)
  {
    if lines != [] {
      var k := |lines| - 1;
      DataIs(lines[..k], parts[..k]);
      AddsIs(lines[k], parts[k]);
    }
  }

  /** The lines of a block, between blank lines. */
  predicate Block(lines: seq<string>) {
    && lines != [] && (forall line :: line in lines ==> '\n' !in line)
    && forall i :: 1 <= i < |lines| ==> lines[i] != ""
  }

  /** A comment. */
  predicate Comment(lines: seq<string>) {
    lines != [] && lines[0] != "" && lines[0][0] == ':'
  }

  lemma JoinHead(lines: seq<string>)
    requires Block(lines)
    ensures StartsWith(Join(lines, '\n'), ":") <==> Comment(lines)
  {
    var text := Join(lines, '\n');
    if text != "" { assert text[..1] == [text[0]]; }
  }

  lemma {:induction false} BlankJoin(lines: seq<string>, line: string)
    requires AllSpace(Join(lines, '\n')) && line in lines
    ensures AllSpace(line)
  {
    if |lines| > 1 {
      var rest := Join(lines[1..], '\n');
      var text := lines[0] + ['\n'] + rest;
      assert forall i :: 0 <= i < |lines[0]| ==> lines[0][i] == text[i];
      assert forall i :: 0 <= i < |rest| ==> rest[i] == text[|lines[0]| + 1 + i];
      if line != lines[0] { BlankJoin(lines[1..], line); }
    }
  }

  lemma BlankLine(line: string)
    requires AllSpace(line)
    ensures LineData(line) == ""
  {
    if StartsWith(line, "data:") { NotBlank(line); }
  }

  lemma NotBlank(line: string)
    requires StartsWith(line, "data:")
    ensures !AllSpace(line)
  {
    assert line[0] == "data:"[0] && !IsSpace('d');
  }

  lemma {:induction false} BlankData(lines: seq<string>)
    requires forall line :: line in lines ==> LineData(line) == ""
    ensures DataOf(lines) == ""
  {
    if lines != [] { BlankData(lines[..|lines| - 1]); }
  }

  lemma BlankBlock(lines: seq<string>)
    requires Trim(Join(lines, '\n')) == ""
    ensures DataOf(lines) == ""
  {
    var a, b := TrimParts(Join(lines, '\n'));
    assert Join(lines, '\n') == a + b;
    forall line | line in lines ensures LineData(line) == "" {
      BlankJoin(lines, line);
      BlankLine(line);
    }
    BlankData(lines);
  }

  /** The data of a block: nothing if it is a comment, else what its lines add. */
  lemma BlockIs(lines: seq<string>, parts: seq<string>)
    requires Block(lines) && AllAdd(lines, parts)
    ensures BlockData(Join(lines, '\n')) == if Comment(lines) then "" else Flatten(parts)
  {
    JoinHead(lines);
    SplitJoin(lines, '\n');
    DataIs(lines, parts);
    if Trim(Join(lines, '\n')) == "" { BlankBlock(lines); }
  }

  // ----- the blocks of a stream

  predicate TwoBreaks(s: string, j: nat) {
    j + 1 < |s| && s[j] == '\n' && s[j + 1] == '\n'
  }

  lemma BreaksAt(s: string, j: nat)
    ensures At(s, "\n\n", j) <==> TwoBreaks(s, j)
  {
    if j + 2 <= |s| { assert s[j..j + 2] == [s[j], s[j + 1]]; }
  }

  /** No blank line within. */
  predicate Unbroken(s: string) {
    forall j :: 0 <= j < |s| ==> !TwoBreaks(s, j)
  }

  /** A block, with the line break that ends its last line, has no blank line. */
  lemma {:induction false} BlockUnbroken(lines: seq<string>)
    requires Block(lines)
    ensures Unbroken(Join(lines, '\n') + "\n")
  {
    if |lines| == 1 {
      LastUnbroken(lines[0]);
    } else {
      var rest := Join(lines[1..], '\n');
      BlockUnbroken(lines[1..]);
      RestHead(lines[1..]);
      assert Join(lines, '\n') + "\n" == lines[0] + ['\n'] + (rest + "\n");
      LineUnbroken(lines[0], rest + "\n");
    }
  }

  lemma LastUnbroken(line: string)
    requires '\n' !in line
    ensures Unbroken(line + "\n")
  {
    forall j: nat | j < |line| ensures !TwoBreaks(line + "\n", j) { assert (line + "\n")[j] == line[j]; }
  }

  lemma RestHead(lines: seq<string>)
    requires lines != [] && lines[0] != "" && '\n' !in lines[0]
    ensures Join(lines, '\n') != "" && Join(lines, '\n')[0] != '\n'
  {
  }

  lemma LineUnbroken(line: string, rest: string)
    requires '\n' !in line && rest != "" && rest[0] != '\n' && Unbroken(rest)
    ensures Unbroken(line + ['\n'] + rest)
  {
    var s := line + ['\n'] + rest;
    forall j: nat | j < |s| ensures !TwoBreaks(s, j) {
      if j > |line| {
        assert s[j] == rest[j - |line| - 1];
        assert !TwoBreaks(rest, j - |line| - 1);
      } else if j == |line| {
        assert s[j + 1] == rest[0];
      }
    }
  }

  lemma CutAt(raw: string, rest: string)
    requires Unbroken(raw + "\n")
    ensures IndexOf(raw + ("\n\n" + rest), "\n\n") == |raw|
  {
    var s := raw + ("\n\n" + rest);
    BreaksAt(s, |raw|);
    forall j: nat | j < |raw| ensures !At(s, "\n\n", j) {
      BreaksAt(s, j);
      assert !TwoBreaks(raw + "\n", j);
      assert s[j] == (raw + "\n")[j] && s[j + 1] == (raw + "\n")[j + 1];
    }
    IndexOfUnique(s, "\n\n", |raw|);
  }

  /** The text of these blocks, each ended by a blank line, and of what follows the last. */
  function Stream(blocks: seq<seq<string>>, tail: string): string {
    if blocks == [] then tail else Join(blocks[0], '\n') + ("\n\n" + Stream(blocks[1..], tail))
  }

  /** What the blocks carry, one text each; blocks that carry nothing do not count. */
  function Datas(blocks: seq<seq<string>>, parts: seq<seq<string>>): seq<string>
    requires |parts| == |blocks|
  {
    if blocks == [] then []
    else
      (if Comment(blocks[0]) || Flatten(parts[0]) == "" then [] else [Flatten(parts[0])])
      + Datas(blocks[1..], parts[1..])
  }

  /** These are blocks, and what their lines add. */
  ghost predicate Carry(blocks: seq<seq<string>>, parts: seq<seq<string>>) {
    |parts| == |blocks| && forall i :: 0 <= i < |blocks| ==> Block(blocks[i]) && AllAdd(blocks[i], parts[i])
  }

  lemma CarryFirst(front: seq<string>, mine: seq<string>, later: seq<seq<string>>, theirs: seq<seq<string>>)
    requires Block(front) && AllAdd(front, mine) && Carry(later, theirs)
    ensures Carry([front] + later, [mine] + theirs)
  {
  }

  lemma NoCut(tail: string)
    requires Unbroken(tail)
    ensures Batch(tail) == []
  {
    var k := IndexOf(tail, "\n\n");
    if k != -1 { BreaksAt(tail, k); }
  }

  /** The data texts of a stream are exactly those its blocks carry. */
  lemma {:induction false} StreamIs(blocks: seq<seq<string>>, parts: seq<seq<string>>, tail: string)
    requires Carry(blocks, parts) && Unbroken(tail)
    ensures Batch(Stream(blocks, tail)) == Datas(blocks, parts)
  {
    if blocks == [] {
      NoCut(tail);
    } else {
      var raw, rest := Join(blocks[0], '\n'), Stream(blocks[1..], tail);
      StreamIs(blocks[1..], parts[1..], tail);
      BlockUnbroken(blocks[0]);
      CutAt(raw, rest);
      BlockIs(blocks[0], parts[0]);
      BatchCut(raw, rest);
    }
  }

  lemma BatchCut(raw: string, rest: string)
    requires IndexOf(raw + ("\n\n" + rest), "\n\n") == |raw|
    ensures Batch(raw + ("\n\n" + rest)) == (if BlockData(raw) == "" then [] else [BlockData(raw)]) + Batch(rest)
  {
    var s := raw + ("\n\n" + rest);
    Around(raw, rest);
  }

  lemma Around(raw: string, rest: string)
    ensures var s := raw + ("\n\n" + rest); s[..|raw|] == raw && s[|raw| + 2..] == rest
  {
  }

  lemma CutsAt(text: string, k: int)
    requires k == IndexOf(text, "\n\n")
    ensures k == -1 ==> Unbroken(text)
    ensures k >= 0 ==> TwoBreaks(text, k) && forall j :: 0 <= j < k ==> !TwoBreaks(text, j)
  {
    forall j: nat | j < |text| ensures At(text, "\n\n", j) <==> TwoBreaks(text, j) { BreaksAt(text, j); }
  }

  /** And every text is such a stream. */
  lemma {:induction false} EveryStream(text: string) returns (blocks: seq<seq<string>>, parts: seq<seq<string>>, tail: string)
    ensures Carry(blocks, parts) && Unbroken(tail) && text == Stream(blocks, tail)
    decreases |text|
  {
    var k := IndexOf(text, "\n\n");
    CutsAt(text, k);
    if k == -1 {
      blocks, parts, tail := [], [], text;
    } else {
      var front, mine := FirstBlock(text, k);
      var later, theirs;
      later, theirs, tail := EveryStream(text[k + 2..]);
      blocks, parts := [front] + later, [mine] + theirs;
      StreamFirst(front, later, tail);
      CarryFirst(front, mine, later, theirs);
      CutText(text, k);
    }
  }

  lemma CutText(text: string, k: nat)
    requires TwoBreaks(text, k)
    ensures text == text[..k] + ("\n\n" + text[k + 2..])
  {
  }

  lemma StreamFirst(front: seq<string>, later: seq<seq<string>>, tail: string)
    ensures Stream([front] + later, tail) == Join(front, '\n') + ("\n\n" + Stream(later, tail))
  {
    assert ([front] + later)[1..] == later;
  }

  lemma FirstBlock(text: string, k: nat) returns (lines: seq<string>, parts: seq<string>)
    requires TwoBreaks(text, k) && forall j :: 0 <= j < k ==> !TwoBreaks(text, j)
    ensures Block(lines) && AllAdd(lines, parts) && Join(lines, '\n') == text[..k]
  {
    lines := Split(text[..k], '\n');
    JoinSplit(text[..k], '\n');
    forall j: nat | j < k ensures !TwoBreaks(text[..k] + "\n", j) { assert !TwoBreaks(text, j); }
    FullLines(lines);
    parts := PartsOf(lines);
  }

  lemma {:induction false} PartsOf(lines: seq<string>) returns (parts: seq<string>)
    ensures AllAdd(lines, parts)
  {
    parts := [];
    if lines != [] {
      var k := |lines| - 1;
      var front := PartsOf(lines[..k]);
      var part := PartOf(lines[k]);
      parts := front + [part];
    }
  }

  /** Where no blank line is, only the first line can be empty. */
  lemma {:induction false} FullLines(lines: seq<string>)
    requires lines != [] && forall j :: 0 <= j < |Join(lines, '\n')| ==> !TwoBreaks(Join(lines, '\n') + "\n", j)
    ensures forall i :: 1 <= i < |lines| ==> lines[i] != ""
  {
    if |lines| > 1 {
      var rest := Join(lines[1..], '\n');
      var s, m := Join(lines, '\n') + "\n", |lines[0]|;
      assert s == lines[0] + ['\n'] + (rest + "\n");
      assert !TwoBreaks(s, m);
      forall j: nat | j < |rest| ensures !TwoBreaks(rest + "\n", j) {
        assert !TwoBreaks(s, m + 1 + j);
        assert s[m + 1 + j] == (rest + "\n")[j] && s[m + 2 + j] == (rest + "\n")[j + 1];
      }
      FullLines(lines[1..]);
      EmptyHead(lines[1..]);
    }
  }

  lemma EmptyHead(lines: seq<string>)
    requires lines != []
    ensures lines[0] == "" ==> (Join(lines, '\n') + "\n")[0] == '\n'
  {
  }
}

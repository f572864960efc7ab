/**
 The lines of a configured environment file (scripts/workbench-init.ts, lines 29-65): which
 lines `writeConfiguredFile` replaces, which it leaves in place, and what it appends.
 */
module EnvLines {
  import opened Text
  import opened EnvFile
  import opened EnvSetup

  // ----- lines up to carriage returns at their end

  /** The second line is the first without some of the carriage returns at its end. */
  predicate Shortened(line: string, line': string) {
    |line'| <= |line| && line[..|line'|] == line' && forall i :: |line'| <= i < |line| ==> line[i] == '\r'
  }

  lemma DropShortens(line: string)
    ensures Shortened(line, DropReturn(line))
  {
  }

  lemma ShortenedTwice(a: string, b: string, c: string)
    requires Shortened(a, b) && Shortened(b, c)
    ensures Shortened(a, c)
  {
    forall i | |c| <= i < |a| ensures a[i] == '\r' {
      if i < |b| { assert a[..|b|][i] == b[i]; }
    }
  }

  /** Carriage returns at its end do not change what a line assigns. */
  lemma {:induction false} ShortenedAssigns(line: string, line': string, key: string)
    requires Shortened(line, line') && PlainKey(key)
    ensures Assigns(line, key) <==> Assigns(line', key)
    decreases |line|
  {
    if |line'| == |line| {
      assert line == line';
    } else {
      AssignsDropReturn(line, key);
      ShortenedAssigns(line[..|line| - 1], line', key);
    }
  }

  // ----- what the edits do to the lines

  function LineFor(e: Entry): string {
    e.key + "=" + e.value
  }

  /** The entry replaces line `i`, the first assignment of its key. */
  predicate Edits(lines: seq<string>, e: Entry, i: nat) {
    FindLine(lines, e.key) == i && !Kept(ReadLines(lines, e.key), e.stale)
  }

  /** The assignments of the keys without a line, in the order of the entries. */
  function Missing(lines: seq<string>, entries: seq<Entry>): seq<string> {
    if entries == [] then []
    else
      var e := entries[|entries| - 1];
      Missing(lines, entries[..|entries| - 1]) + if FindLine(lines, e.key) == -1 then [LineFor(e)] else []
  }

  /** An edited line holds the new assignment; any other keeps its content up to carriage returns at its end. */
  predicate LineAsWanted(lines: seq<string>, entries: seq<Entry>, i: nat, line: string)
    requires i < |lines|
  {
    && (forall e :: e in entries && Edits(lines, e, i) ==> line == LineFor(e))
    && ((forall e :: e in entries ==> !Edits(lines, e, i)) ==> Shortened(lines[i], line))
  }

  /** Every line is as wanted, and the missing assignments follow. */
  predicate Layout(lines: seq<string>, entries: seq<Entry>, now: seq<string>) {
    && |now| == |lines| + |Missing(lines, entries)|
    && now[|lines|..] == Missing(lines, entries)
    && forall i :: 0 <= i < |lines| ==> LineAsWanted(lines, entries, i, now[i])
  }

  lemma LineForAssigns(e: Entry, key: string)
    requires PlainKey(e.key) && PlainValue(e.value) && PlainKey(key)
    ensures Assigns(LineFor(e), key) <==> e.key == key
    ensures '\n' !in LineFor(e) && DropReturn(LineFor(e)) == LineFor(e)
  {
    OwnLine(e.key, e.value);
    if e.key != key { OtherKey(LineFor(e), e.key, key); }
    assert LineFor(e)[|LineFor(e)| - 1] == if e.value == "" then '=' else e.value[|e.value| - 1];
    LastOfTrimmed(e.value);
  }

  lemma LastOfTrimmed(value: string)
    requires Trimmed(value)
    ensures value != "" ==> value[|value| - 1] != '\r'
  {
  }

  lemma {:induction false} MissingAre(lines: seq<string>, entries: seq<Entry>, j: nat) returns (e: Entry)
    requires j < |Missing(lines, entries)|
    ensures e in entries && Missing(lines, entries)[j] == LineFor(e)
  {
    var front, last := entries[..|entries| - 1], entries[|entries| - 1];
    if j < |Missing(lines, front)| {
      e := MissingAre(lines, front, j);
    } else {
      e := last;
    }
  }

  /** A line that is as wanted assigns a key of no entry exactly if it did before. */
  lemma WantedAssigns(lines: seq<string>, entries: seq<Entry>, i: nat, line: string, key: string)
    requires i < |lines| && LineAsWanted(lines, entries, i, line) && PlainKey(key)
    requires Others(entries, key)
    ensures Assigns(line, key) <==> Assigns(lines[i], key)
  {
    if e :| e in entries && Edits(lines, e, i) {
      LineForAssigns(e, key);
      OtherKey(lines[i], e.key, key);
    } else {
      ShortenedAssigns(lines[i], line, key);
    }
  }

  /** Entries of plain keys and values, none for the key. */
  predicate Others(entries: seq<Entry>, key: string) {
    forall e :: e in entries ==> PlainKey(e.key) && PlainValue(e.value) && e.key != key
  }

  lemma LineKept(lines: seq<string>, entries: seq<Entry>, now: seq<string>, key: string, i: nat)
    requires Layout(lines, entries, now) && PlainKey(key) && Others(entries, key) && i < |lines|
    ensures Assigns(now[i], key) <==> Assigns(lines[i], key)
  {
    WantedAssigns(lines, entries, i, now[i], key);
  }

  lemma NoneAppended(lines: seq<string>, entries: seq<Entry>, now: seq<string>, key: string, i: nat)
    requires Layout(lines, entries, now) && PlainKey(key) && Others(entries, key) && |lines| <= i < |now|
    ensures !Assigns(now[i], key)
  {
    assert now[i] == now[|lines|..][i - |lines|];
    var e := MissingAre(lines, entries, i - |lines|);
    LineForAssigns(e, key);
  }

  lemma FoundAlike(lines: seq<string>, now: seq<string>, key: string)
    requires |lines| <= |now|
    requires forall i :: 0 <= i < |lines| ==> (Assigns(now[i], key) <==> Assigns(lines[i], key))
    requires forall i :: |lines| <= i < |now| ==> !Assigns(now[i], key)
    ensures FindLine(now, key) == FindLine(lines, key)
  {
  }

  /** The edits so far have not moved the first assignment of another key. */
  lemma FindKept(lines: seq<string>, entries: seq<Entry>, now: seq<string>, key: string)
    requires Layout(lines, entries, now) && PlainKey(key) && Others(entries, key)
    ensures FindLine(now, key) == FindLine(lines, key)
  {
    forall i: nat | i < |lines| ensures Assigns(now[i], key) <==> Assigns(lines[i], key) {
      LineKept(lines, entries, now, key, i);
    }
    forall i: nat | |lines| <= i < |now| ensures !Assigns(now[i], key) {
      NoneAppended(lines, entries, now, key, i);
    }
    FoundAlike(lines, now, key);
  }

  /** `after` is `now` with line `k`, perhaps a new one, set to the entry's. */
  predicate SetAt(now: seq<string>, k: nat, line: string, after: seq<string>) {
    && k <= |now|
    && |after| == (if k == |now| then |now| + 1 else |now|)
    && after[k] == line
    && forall i :: 0 <= i < |now| && i != k ==> after[i] == now[i] || after[i] == DropReturn(now[i])
  }

  lemma LinesAfterSet(source: string, e: Entry)
    requires PlainKey(e.key) && PlainValue(e.value) && !Kept(ReadValue(source, e.key), e.stale)
    ensures var (now, k) := (Lines(source), FindLine(Lines(source), e.key));
      SetAt(now, if k == -1 then |now| else k, LineFor(e), Lines(SetValue(source, e.key, e.value, e.stale).0))
  {
    LineForAssigns(e, e.key);
    LinesOfJoin(SetLines(Lines(source), e.key, e.value));
  }

  lemma WantedShorter(lines: seq<string>, entries: seq<Entry>, i: nat, line: string, line': string)
    requires i < |lines| && LineAsWanted(lines, entries, i, line) && (line' == line || line' == DropReturn(line))
    requires forall e :: e in entries ==> PlainKey(e.key) && PlainValue(e.value)
    ensures LineAsWanted(lines, entries, i, line')
  {
    if e :| e in entries && Edits(lines, e, i) {
      LineForAssigns(e, e.key);
    } else {
      DropShortens(line);
      ShortenedTwice(lines[i], line, line');
    }
  }

  // ----- one more entry

  lemma EditedLine(lines: seq<string>, front: seq<Entry>, e: Entry, i: nat, line: string)
    requires i < |lines| && LineAsWanted(lines, front, i, line) && Others(front, e.key) && PlainKey(e.key)
    requires !Edits(lines, e, i)
    ensures LineAsWanted(lines, front + [e], i, line)
  {
    if d :| d in front && Edits(lines, d, i) { assert d in front + [e]; }
  }

  /** An entry whose value is kept changes nothing. */
  lemma StepKept(lines: seq<string>, front: seq<Entry>, e: Entry, now: seq<string>)
    requires Layout(lines, front, now) && Others(front, e.key) && PlainKey(e.key)
    requires Kept(ReadLines(lines, e.key), e.stale)
    ensures Layout(lines, front + [e], now)
  {
    assert (front + [e])[..|front|] == front;
    forall i: nat | i < |lines| ensures LineAsWanted(lines, front + [e], i, now[i]) {
      EditedLine(lines, front, e, i, now[i]);
    }
  }

  /** The line an entry replaces is replaced by no other. */
  lemma OwnEdit(lines: seq<string>, front: seq<Entry>, e: Entry, i: nat)
    requires i < |lines| && Edits(lines, e, i) && Others(front, e.key) && PlainKey(e.key)
    ensures LineAsWanted(lines, front + [e], i, LineFor(e))
  {
    forall d | d in front + [e] && Edits(lines, d, i) ensures d == e {
      if d in front { SameKey(lines[i], d.key, e.key); }
    }
    assert e in front + [e];
  }

  lemma TailKept(lines: seq<string>, front: seq<Entry>, now: seq<string>, line: string, i: nat)
    requires Layout(lines, front, now) && |lines| <= i < |now| && (line == now[i] || line == DropReturn(now[i]))
    requires forall e :: e in front ==> PlainKey(e.key) && PlainValue(e.value)
    ensures line == now[i]
  {
    assert now[i] == now[|lines|..][i - |lines|];
    var e := MissingAre(lines, front, i - |lines|);
    LineForAssigns(e, e.key);
  }

  lemma StepLine(lines: seq<string>, front: seq<Entry>, e: Entry, now: seq<string>, k: nat, after: seq<string>, i: nat)
    requires Layout(lines, front, now) && Others(front, e.key) && PlainKey(e.key) && SetAt(now, k, LineFor(e), after)
    requires i < |lines| && (i == k <==> Edits(lines, e, i))
    ensures LineAsWanted(lines, front + [e], i, after[i])
  {
    if i == k {
      OwnEdit(lines, front, e, i);
    } else {
      WantedShorter(lines, front, i, now[i], after[i]);
      EditedLine(lines, front, e, i, after[i]);
    }
  }

  /** An entry whose value is not kept replaces its line, or is appended. */
  lemma StepSet(lines: seq<string>, front: seq<Entry>, e: Entry, now: seq<string>, after: seq<string>)
    requires Layout(lines, front, now) && Others(front, e.key) && PlainKey(e.key)
    requires !Kept(ReadLines(lines, e.key), e.stale)
    requires var k := FindLine(lines, e.key); SetAt(now, if k == -1 then |now| else k, LineFor(e), after)
    ensures Layout(lines, front + [e], after)
  {
    var k := FindLine(lines, e.key);
    var at := if k == -1 then |now| else k;
    assert (front + [e])[..|front|] == front;
    forall i: nat | i < |lines| ensures LineAsWanted(lines, front + [e], i, after[i]) {
      StepLine(lines, front, e, now, at, after, i);
    }
    forall i: nat | |lines| <= i < |now| ensures after[i] == now[i] {
      TailKept(lines, front, now, after[i], i);
    }
    assert after[|lines|..] == now[|lines|..] + if k == -1 then [LineFor(e)] else [];
  }

  /** The lines after the edits are as the entries want them. */
  predicate LaidOut(source: string, entries: seq<Entry>) {
    Layout(Lines(source), entries, Lines(Apply(source, entries).0))
  }

  lemma NoEntries(source: string)
    ensures LaidOut(source, [])
  {
    assert forall line :: Shortened(line, line);
  }

  /** The lines after all edits. */
  lemma {:induction false} ApplyLayout(source: string, entries: seq<Entry>)
    requires PlainEntries(entries)
    ensures LaidOut(source, entries)
  {
    if entries == [] {
      NoEntries(source);
    } else {
      PlainFront(entries);
      ApplyLayout(source, entries[..|entries| - 1]);
      EntryLayout(source, entries);
    }
  }

  lemma EntryLayout(source: string, entries: seq<Entry>)
    requires PlainEntries(entries) && entries != [] && LaidOut(source, entries[..|entries| - 1])
    ensures LaidOut(source, entries)
  {
    var front, e := entries[..|entries| - 1], entries[|entries| - 1];
    PlainFront(entries);
    assert PlainKey(e.key) && Others(front, e.key) && entries == front + [e];
    LastEntry(source, front, e, Apply(source, front).0);
  }

  lemma LastEntry(source: string, front: seq<Entry>, e: Entry, before: string)
    requires PlainEntries(front) && PlainKey(e.key) && PlainValue(e.value) && Others(front, e.key)
    requires before == Apply(source, front).0 && Layout(Lines(source), front, Lines(before))
    ensures Layout(Lines(source), front + [e], Lines(SetValue(before, e.key, e.value, e.stale).0))
  {
    ApplyLaw(source, front, e.key);
    NotWanted(front, e.key, ReadValue(source, e.key));
    if Kept(ReadValue(before, e.key), e.stale) {
      StepKept(Lines(source), front, e, Lines(before));
    } else {
      FindKept(Lines(source), front, Lines(before), e.key);
      LinesAfterSet(before, e);
      StepSet(Lines(source), front, e, Lines(before), Lines(SetValue(before, e.key, e.value, e.stale).0));
    }
  }

  // ----- the line break at the end

  lemma {:induction false} NormalizedMore(pieces: seq<string>, last: string)
    requires pieces != []
    ensures |Normalized(pieces + [last])| == |pieces| + 1 && Normalized(pieces + [last])[|pieces|] == last
    ensures forall i :: 0 <= i < |pieces| ==>
      Normalized(pieces + [last])[i] == Normalized(pieces)[i] || Normalized(pieces + [last])[i] == DropReturn(Normalized(pieces)[i])
  {
    if |pieces| > 1 {
      assert (pieces + [last])[1..] == pieces[1..] + [last];
      NormalizedMore(pieces[1..], last);
      forall i | 0 < i < |pieces|
        ensures Normalized(pieces + [last])[i] == Normalized(pieces)[i] || Normalized(pieces + [last])[i] == DropReturn(Normalized(pieces)[i])
      {
        assert Normalized(pieces + [last])[i] == Normalized(pieces[1..] + [last])[i - 1];
      }
    } else {
      assert (pieces + [last])[1..] == [last];
    }
  }

  lemma LinesWithBreak(text: string)
    ensures var lines, more := Lines(text), Lines(text + "\n");
      && |more| == |lines| + 1 && more[|lines|] == ""
      && forall i :: 0 <= i < |lines| ==> more[i] == lines[i] || more[i] == DropReturn(lines[i])
  {
    SplitConcat(text, '\n', "");
    assert text + "\n" + "" == text + "\n";
    NormalizedMore(Split(text, '\n'), "");
  }

  /** The lines of a file: as the entries want them, and an empty one if a line break was added. */
  predicate Placed(lines: seq<string>, entries: seq<Entry>, after: seq<string>, broken: bool) {
    var n := |lines| + |Missing(lines, entries)|;
    && |after| >= n && Layout(lines, entries, after[..n])
    && after[n..] == if broken then [""] else []
  }

  lemma PlacedAsIs(lines: seq<string>, entries: seq<Entry>, now: seq<string>)
    requires Layout(lines, entries, now)
    ensures Placed(lines, entries, now, false)
  {
    assert now[..|now|] == now;
  }

  lemma PlacedWithBreak(lines: seq<string>, entries: seq<Entry>, now: seq<string>, more: seq<string>)
    requires Layout(lines, entries, now) && |more| == |now| + 1 && more[|now|] == ""
    requires forall i :: 0 <= i < |now| ==> more[i] == now[i] || more[i] == DropReturn(now[i])
    requires forall e :: e in entries ==> PlainKey(e.key) && PlainValue(e.value)
    ensures Placed(lines, entries, more, true)
  {
    forall i: nat | i < |lines| ensures LineAsWanted(lines, entries, i, more[i]) {
      WantedShorter(lines, entries, i, now[i], more[i]);
    }
    forall i: nat | |lines| <= i < |now| ensures more[i] == now[i] {
      TailKept(lines, entries, now, more[i], i);
    }
    assert more[..|now|][|lines|..] == now[|lines|..];
  }

  /** A line break is added if something changed and the text did not end with one. */
  predicate BreakAdded(source: string, next: string) {
    next != source && !EndsWith(next, "\n")
  }

  /** The file written, line by line: the first assignment of a key that is not kept holds the new
      value, every other line is in its place up to carriage returns at its end, and what follows
      is exactly an assignment of each key without a line, and perhaps the line break added. */
  predicate WrittenAsWanted(source: string, entries: seq<Entry>, content: string) {
    Placed(Lines(source), entries, Lines(content), BreakAdded(source, Apply(source, entries).0))
  }

  lemma WrittenLines(source: string, entries: seq<Entry>)
    requires PlainEntries(entries)
    ensures WrittenAsWanted(source, entries, Written(source, Apply(source, entries).0))
  {
    ApplyLayout(source, entries);
    TextWritten(source, entries, Apply(source, entries).0);
  }

  lemma TextWritten(source: string, entries: seq<Entry>, next: string)
    requires PlainEntries(entries) && Layout(Lines(source), entries, Lines(next))
    ensures Placed(Lines(source), entries, Lines(Written(source, next)), BreakAdded(source, next))
  {
    if BreakAdded(source, next) {
      LinesWithBreak(next);
      PlacedWithBreak(Lines(source), entries, Lines(next), Lines(next + "\n"));
    } else {
      PlacedAsIs(Lines(source), entries, Lines(next));
    }
  }

  /** Both files of the workbench. */
  lemma InitializedLines(frontend: string, worker: string, r: Randoms)
    requires PlainRandoms(r)
    ensures WrittenAsWanted(frontend, FrontendEntries(frontend, worker, r), Frontend'(frontend, worker, r))
    ensures WrittenAsWanted(worker, WorkerEntries(frontend, worker, r), Worker'(frontend, worker, r))
  {
    FrontendIsPlain(frontend, worker, r);
    WorkerIsPlain(frontend, worker, r);
    WrittenLines(frontend, FrontendEntries(frontend, worker, r));
    WrittenLines(worker, WorkerEntries(frontend, worker, r));
  }
}

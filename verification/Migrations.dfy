/**
 The policy for database migrations (scripts/d1-migration-policy.ts, lines 1-57). The
 two patterns for reset-only statements are parameters.
 */
module Migrations {
  import opened Text
  import opened Order

  datatype File = File(name: string, sql: string)

  datatype Error =
    | NotUnique
    | OutOfOrder
    | Misnamed(name: string)
    | Blank(name: string)
    | ResetOnly(name: string, pattern: nat)
    | NotContiguous(name: string, number: nat, expected: nat)

  predicate IsWordChar(c: char) {
    'a' <= c <= 'z' || IsDigit(c) || c == '_'
  }

  /** `/^\d{4}_[a-z0-9_]+\.sql$/` */
  predicate IsMigrationName(name: string) {
    && |name| >= 10 && AllDigits(name[..4]) && name[4] == '_'
    && (forall i :: 5 <= i < |name| - 4 ==> IsWordChar(name[i]))
    && EndsWith(name, ".sql")
  }

  /** `Number.parseInt(name.slice(0, 4), 10)` */
  function NumberOf(name: string): nat
    requires IsMigrationName(name)
  {
    DecValue(name[..4])
  }

  function Names(files: seq<File>): (names: seq<string>)
    ensures |names| == |files| && forall i :: 0 <= i < |files| ==> names[i] == files[i].name
  {
    seq(|files|, i requires 0 <= i < |files| => files[i].name)
  }

  /** The reset-only patterns found in a file, among the first `n`. */
  function ResetErrors(file: File, resets: seq<string -> bool>, n: nat): seq<Error>
    requires n <= |resets|
  {
    if n == 0 then []
    else ResetErrors(file, resets, n - 1) + if resets[n - 1](file.sql) then [ResetOnly(file.name, n - 1)] else []
  }

  function FileErrors(file: File, resets: seq<string -> bool>): seq<Error> {
    (if IsMigrationName(file.name) then [] else [Misnamed(file.name)])
    + (if Trim(file.sql) == "" then [Blank(file.name)] else [])
    + ResetErrors(file, resets, |resets|)
  }

  function ErrorLists(files: seq<File>, resets: seq<string -> bool>): (lists: seq<seq<Error>>)
    ensures |lists| == |files| && forall i :: 0 <= i < |files| ==> lists[i] == FileErrors(files[i], resets)
  {
    seq(|files|, i requires 0 <= i < |files| => FileErrors(files[i], resets))
  }

  function AllFileErrors(files: seq<File>, resets: seq<string -> bool>): seq<Error> {
    Flatten(ErrorLists(files, resets))
  }

  /** The names that match the pattern, in their order. */
  function Numbered(files: seq<File>): (names: seq<string>)
    ensures forall n :: n in names ==> IsMigrationName(n)
  {
    if files == [] then []
    else
      Numbered(files[..|files| - 1])
      + if IsMigrationName(files[|files| - 1].name) then [files[|files| - 1].name] else []
  }

  /** The names among the first `n` whose number is not their position, counted from one. */
  function NumberErrors(names: seq<string>, n: nat): seq<Error>
    requires n <= |names| && forall x :: x in names ==> IsMigrationName(x)
  {
    if n == 0 then []
    else
      NumberErrors(names, n - 1)
      + if NumberOf(names[n - 1]) != n then [NotContiguous(names[n - 1], NumberOf(names[n - 1]), n)] else []
  }

  function NameErrors(names: seq<string>): seq<Error> {
    (if |Elements(names)| != |names| then [NotUnique] else [])
    + if names != Sort(names) then [OutOfOrder] else []
  }

  function Errors(files: seq<File>, resets: seq<string -> bool>): seq<Error> {
    var numbered := Numbered(files);
    NameErrors(Names(files)) + AllFileErrors(files, resets) + NumberErrors(numbered, |numbered|)
  }

  lemma FileStep(files: seq<File>, resets: seq<string -> bool>, k: nat)
    requires k < |files|
    ensures AllFileErrors(files[..k + 1], resets) == AllFileErrors(files[..k], resets) + FileErrors(files[k], resets)
    ensures Numbered(files[..k + 1])
         == Numbered(files[..k]) + if IsMigrationName(files[k].name) then [files[k].name] else []
  {
    assert files[..k + 1][..k] == files[..k];
    var lists := ErrorLists(files[..k + 1], resets);
    assert lists[..k] == ErrorLists(files[..k], resets);
  }

  /** The checks of one file. */
  method CheckFile(file: File, resets: seq<string -> bool>) returns (errors: seq<Error>)
    ensures errors == FileErrors(file, resets)
  {
    errors := if IsMigrationName(file.name) then [] else [Misnamed(file.name)];
    if Trim(file.sql) == "" {
      errors := errors + [Blank(file.name)];
    }
    ghost var before := errors;
    for k := 0 to |resets|
      invariant errors == before + ResetErrors(file, resets, k)
    {
      if resets[k](file.sql) {
        errors := errors + [ResetOnly(file.name, k)];
      }
    }
  }

  /** The loop over the files: their errors, and the names that are numbered. */
  method CheckFiles(files: seq<File>, resets: seq<string -> bool>) returns (errors: seq<Error>, numbered: seq<string>)
    ensures errors == AllFileErrors(files, resets) && numbered == Numbered(files)
  {
    errors, numbered := [], [];
    for k := 0 to |files|
      invariant errors == AllFileErrors(files[..k], resets)
      invariant numbered == Numbered(files[..k])
    {
      FileStep(files, resets, k);
      var found := CheckFile(files[k], resets);
      errors := errors + found;
      if IsMigrationName(files[k].name) {
        numbered := numbered + [files[k].name];
      }
    }
    assert files[..|files|] == files;
  }

  method CheckNumbers(names: seq<string>) returns (errors: seq<Error>)
    requires forall x :: x in names ==> IsMigrationName(x)
    ensures errors == NumberErrors(names, |names|)
  {
    errors := [];
    for k := 0 to |names|
      invariant errors == NumberErrors(names, k)
    {
      if NumberOf(names[k]) != k + 1 {
        errors := errors + [NotContiguous(names[k], NumberOf(names[k]), k + 1)];
      }
    }
  }

  method CheckNames(names: seq<string>) returns (errors: seq<Error>)
    ensures errors == NameErrors(names)
  {
    errors := [];
    if |Elements(names)| != |names| { errors := errors + [NotUnique]; }
    if names != Sort(names) { errors := errors + [OutOfOrder]; }
  }

  method ValidateMigrationFiles(files: seq<File>, resets: seq<string -> bool>) returns (errors: seq<Error>)
    ensures errors == Errors(files, resets)
  {
    var first := CheckNames(Names(files));
    var found, numbered := CheckFiles(files, resets);
    var misnumbered := CheckNumbers(numbered);
    errors := first + found + misnumbered;
  }

  // ----- the numbering decides the order

  /** For texts of digits of one width the smaller number has the smaller digit where the
      two first differ. */
  lemma {:induction false} SmallerDiffersDown(a: string, b: string)
    requires |a| == |b| && AllDigits(a) && AllDigits(b)
    ensures DecValue(a) < DecValue(b) ==> exists k :: 0 <= k < |a| && a[..k] == b[..k] && a[k] < b[k]
    ensures DecValue(a) == DecValue(b) ==> a == b
    decreases |a|
  {
    if a != "" {
      var n := |a| - 1;
      var a', b' := a[..n], b[..n];
      SmallerDiffersDown(a', b');
      if DecValue(a') < DecValue(b') {
        var k :| 0 <= k < n && a'[..k] == b'[..k] && a'[k] < b'[k];
        assert a[..k] == a'[..k] && b[..k] == b'[..k];
      } else if DecValue(a') == DecValue(b') {
        assert a == a' + [a[n]] && b == b' + [b[n]];
        if DecValue(a) < DecValue(b) { assert a[..n] == b[..n] && a[n] < b[n]; }
      }
    }
  }

  lemma SmallerNumberIsBefore(a: string, b: string)
    requires IsMigrationName(a) && IsMigrationName(b) && NumberOf(a) < NumberOf(b)
    ensures TextLe(a, b) && !TextLe(b, a)
  {
    SmallerDiffersDown(a[..4], b[..4]);
    var k :| 0 <= k < 4 && a[..4][..k] == b[..4][..k] && a[..4][k] < b[..4][k];
    assert a[..k] == a[..4][..k] && b[..k] == b[..4][..k];
    FirstDifference(a, b, k);
  }

  lemma {:induction false} FourDigits(s: string)
    requires AllDigits(s) && |s| <= 4
    ensures DecValue(s) < (if |s| == 0 then 1 else if |s| == 1 then 10 else if |s| == 2 then 100 else if |s| == 3 then 1000 else 10000)
  {
    if s != "" { FourDigits(s[..|s| - 1]); }
  }

  /** What the policy asks for, file by file. */
  ghost predicate WellFormed(files: seq<File>, resets: seq<string -> bool>) {
    forall i :: 0 <= i < |files| ==> Sound(files[i], resets) && NumberOf(files[i].name) == i + 1
  }

  ghost predicate Sound(file: File, resets: seq<string -> bool>) {
    && IsMigrationName(file.name) && Trim(file.sql) != ""
    && forall r :: 0 <= r < |resets| ==> !resets[r](file.sql)
  }

  lemma {:induction false} NoResetsIff(file: File, resets: seq<string -> bool>, n: nat)
    requires n <= |resets|
    ensures ResetErrors(file, resets, n) == [] <==> forall r :: 0 <= r < n ==> !resets[r](file.sql)
  {
    if n > 0 { NoResetsIff(file, resets, n - 1); }
  }

  lemma FileSoundIff(file: File, resets: seq<string -> bool>)
    ensures FileErrors(file, resets) == [] <==> Sound(file, resets)
  {
    NoResetsIff(file, resets, |resets|);
  }

  lemma FilesSoundIff(files: seq<File>, resets: seq<string -> bool>)
    ensures AllFileErrors(files, resets) == [] <==> forall i :: 0 <= i < |files| ==> Sound(files[i], resets)
  {
    var lists := ErrorLists(files, resets);
    NothingToFlattenIff(lists);
    forall i | 0 <= i < |files| ensures lists[i] == [] <==> Sound(files[i], resets) {
      FileSoundIff(files[i], resets);
    }
  }

  lemma {:induction false} AllNumbered(files: seq<File>)
    requires forall i :: 0 <= i < |files| ==> IsMigrationName(files[i].name)
    ensures Numbered(files) == Names(files)
  {
    if files != [] {
      var front := files[..|files| - 1];
      assert forall i :: 0 <= i < |front| ==> front[i] == files[i];
      AllNumbered(front);
    }
  }

  lemma {:induction false} NumbersFitIff(names: seq<string>, n: nat)
    requires n <= |names| && forall x :: x in names ==> IsMigrationName(x)
    ensures NumberErrors(names, n) == [] <==> forall i :: 0 <= i < n ==> NumberOf(names[i]) == i + 1
  {
    if n > 0 { NumbersFitIff(names, n - 1); }
  }

  /** Files numbered in their order are distinct and sorted. */
  lemma NumberedAreOrdered(files: seq<File>, resets: seq<string -> bool>)
    requires WellFormed(files, resets)
    ensures Distinct(Names(files)) && InOrder(Names(files))
  {
    var names := Names(files);
    forall i, j | 0 <= i < j < |files| ensures names[i] != names[j] && TextLe(names[i], names[j]) {
      SmallerNumberIsBefore(names[i], names[j]);
    }
  }

  lemma WellFormedHasNone(files: seq<File>, resets: seq<string -> bool>)
    requires WellFormed(files, resets)
    ensures Errors(files, resets) == []
  {
    var names := Names(files);
    NumberedAreOrdered(files, resets);
    SizeIffDistinct(names);
    SortedIff(names);
    FilesSoundIff(files, resets);
    AllNumbered(files);
    NumbersFitIff(names, |names|);
  }

  lemma NoneIsWellFormed(files: seq<File>, resets: seq<string -> bool>)
    requires AllFileErrors(files, resets) == []
    requires NumberErrors(Numbered(files), |Numbered(files)|) == []
    ensures WellFormed(files, resets)
  {
    FilesSoundIff(files, resets);
    AllNumbered(files);
    NumbersFitIff(Names(files), |files|);
    assert forall i :: 0 <= i < |files| ==> Names(files)[i] == files[i].name;
  }

  /** No error is reported exactly if the i-th file (counted from one) carries the number i
      in a proper name, and no file is blank or reset-only: the checks for uniqueness and
      order add nothing. */
  lemma AcceptedIffWellFormed(files: seq<File>, resets: seq<string -> bool>)
    ensures Errors(files, resets) == [] <==> WellFormed(files, resets)
  {
    if Errors(files, resets) == [] { NoneIsWellFormed(files, resets); }
    if WellFormed(files, resets) { WellFormedHasNone(files, resets); }
  }

  /** An accepted list has at most 9999 files. */
  lemma AcceptedFits(files: seq<File>, resets: seq<string -> bool>)
    requires Errors(files, resets) == []
    ensures |files| <= 9999
  {
    AcceptedIffWellFormed(files, resets);
    if files != [] {
      var last := files[|files| - 1];
      assert Sound(last, resets) && NumberOf(last.name) == |files|;
      FourDigits(last.name[..4]);
    }
  }

  /** Every list an accepted list starts with is accepted too. */
  lemma PrefixWellFormed(files: seq<File>, resets: seq<string -> bool>, front: seq<File>)
    requires WellFormed(files, resets) && front <= files
    ensures WellFormed(front, resets)
  {
  }

  lemma AcceptedPrefixes(files: seq<File>, resets: seq<string -> bool>, n: nat)
    requires Errors(files, resets) == [] && n <= |files|
    ensures Errors(files[..n], resets) == []
  {
    AcceptedIffWellFormed(files, resets);
    PrefixWellFormed(files, resets, files[..n]);
    AcceptedIffWellFormed(files[..n], resets);
  }

  /** The order is reported exactly for lists that are not sorted, a repetition exactly for
      lists that repeat a name. */
  lemma OrderReportedIff(files: seq<File>, resets: seq<string -> bool>)
    ensures NotUnique in Errors(files, resets) <==> !Distinct(Names(files))
    ensures OutOfOrder in Errors(files, resets) <==> !InOrder(Names(files))
  {
    SizeIffDistinct(Names(files));
    SortedIff(Names(files));
    OtherErrors(files, resets);
    OtherNumberErrors(Numbered(files), |Numbered(files)|);
  }

  lemma {:induction false} NotFlattened(lists: seq<seq<Error>>, e: Error)
    requires forall i :: 0 <= i < |lists| ==> e !in lists[i]
    ensures e !in Flatten(lists)
  {
    if lists != [] { NotFlattened(lists[..|lists| - 1], e); }
  }

  lemma OtherErrors(files: seq<File>, resets: seq<string -> bool>)
    ensures NotUnique !in AllFileErrors(files, resets) && OutOfOrder !in AllFileErrors(files, resets)
  {
    var lists := ErrorLists(files, resets);
    forall i | 0 <= i < |files| ensures NotUnique !in lists[i] && OutOfOrder !in lists[i] {
      OtherResetErrors(files[i], resets, |resets|);
    }
    NotFlattened(lists, NotUnique);
    NotFlattened(lists, OutOfOrder);
  }

  lemma {:induction false} OtherResetErrors(file: File, resets: seq<string -> bool>, n: nat)
    requires n <= |resets|
    ensures NotUnique !in ResetErrors(file, resets, n) && OutOfOrder !in ResetErrors(file, resets, n)
  {
    if n > 0 { OtherResetErrors(file, resets, n - 1); }
  }

  lemma {:induction false} OtherNumberErrors(names: seq<string>, n: nat)
    requires n <= |names| && forall x :: x in names ==> IsMigrationName(x)
    ensures NotUnique !in NumberErrors(names, n) && OutOfOrder !in NumberErrors(names, n)
  {
    if n > 0 { OtherNumberErrors(names, n - 1); }
  }
}

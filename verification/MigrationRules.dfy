/**
 Which migrations are accepted and what is reported of the others, said of their names digit by
 digit (scripts/d1-migration-policy.ts, lines 1-57).
 */
module MigrationRules {
  import opened Text
  import opened Order
  import opened Characters
  import opened Migrations

  // ----- names

  predicate Word(w: string) {
    w != "" && forall i :: 0 <= i < |w| ==> w[i] in Small || w[i] in Digits || w[i] == '_'
  }

  predicate FourDigits(d: string) {
    |d| == 4 && forall i :: 0 <= i < 4 ==> d[i] in Digits
  }

  /** The name is four digits, `_`, the word and `.sql`. */
  predicate NamedAs(name: string, d: string, w: string) {
    FourDigits(d) && Word(w) && name == d + ("_" + (w + ".sql"))
  }

  lemma WordCharIff(c: char)
    ensures IsWordChar(c) <==> c in Small || c in Digits || c == '_'
  {
    SmallIn(c);
    DigitIn(c);
  }

  lemma PartsOf(name: string, d: string, w: string)
    requires name == d + ("_" + (w + ".sql")) && |d| == 4
    ensures name[..4] == d && name[4] == '_' && EndsWith(name, ".sql") && |name| == |w| + 9
    ensures forall i :: 5 <= i < |name| - 4 ==> name[i] == w[i - 5]
  {
    SuffixIff(name, ".sql");
    assert name == (d + "_" + w) + ".sql";
  }

  lemma NamedMatches(name: string, d: string, w: string)
    requires NamedAs(name, d, w)
    ensures IsMigrationName(name) && NumberOf(name) == DecValue(d)
  {
    PartsOf(name, d, w);
    forall i | 0 <= i < 4 ensures IsDigit(d[i]) { DigitIn(d[i]); }
    forall i | 5 <= i < |name| - 4 ensures IsWordChar(name[i]) { WordCharIff(w[i - 5]); }
  }

  lemma MatchesNamed(name: string) returns (d: string, w: string)
    requires IsMigrationName(name)
    ensures NamedAs(name, d, w) && d == name[..4]
  {
    d, w := name[..4], name[5..|name| - 4];
    assert name[|name| - 4..] == ".sql";
    assert name == d + [name[4]] + w + name[|name| - 4..];
    forall i | 0 <= i < 4 ensures d[i] in Digits { DigitIn(d[i]); }
    forall i | 0 <= i < |w| ensures w[i] in Small || w[i] in Digits || w[i] == '_' { WordCharIff(name[i + 5]); }
  }

  ghost predicate Proper(name: string) {
    exists d, w :: NamedAs(name, d, w)
  }

  /** The pattern for names. */
  lemma NameIff(name: string)
    ensures IsMigrationName(name) <==> Proper(name)
  {
    if d, w :| NamedAs(name, d, w) { NamedMatches(name, d, w); }
    if IsMigrationName(name) { var d, w := MatchesNamed(name); }
  }

  /** Four digits in their places. */
  function Numeral(n: nat): string
    requires n <= 9999
  {
    [Digits[n / 10 / 10 / 10], Digits[n / 10 / 10 % 10], Digits[n / 10 % 10], Digits[n % 10]]
  }

  lemma NumeralValue(n: nat)
    requires n <= 9999
    ensures FourDigits(Numeral(n)) && AllDigits(Numeral(n)) && DecValue(Numeral(n)) == n
  {
    var a, b, c, d := n / 10 / 10 / 10, n / 10 / 10 % 10, n / 10 % 10, n % 10;
    DecimalPlaces("", a);
    DecimalPlaces("" + [Digits[a]], b);
    DecimalPlaces("" + [Digits[a]] + [Digits[b]], c);
    DecimalPlaces("" + [Digits[a]] + [Digits[b]] + [Digits[c]], d);
    assert "" + [Digits[a]] + [Digits[b]] + [Digits[c]] + [Digits[d]] == Numeral(n);
    PlacesOf(n);
  }

  lemma PlacesOf(n: nat)
    requires n <= 9999
    ensures n == 10 * (10 * (10 * (n / 10 / 10 / 10) + n / 10 / 10 % 10) + n / 10 % 10) + n % 10
  {
  }

  /** Four digits are the numeral of their value. */
  lemma NumeralOf(d: string)
    requires FourDigits(d) && AllDigits(d)
    ensures DecValue(d) <= 9999 && d == Numeral(DecValue(d))
  {
    var a: nat :| a < 10 && Digits[a] == d[0];
    var b: nat :| b < 10 && Digits[b] == d[1];
    var c: nat :| c < 10 && Digits[c] == d[2];
    var e: nat :| e < 10 && Digits[e] == d[3];
    var n := 1000 * a + 100 * b + 10 * c + e;
    SplitPlaces(a, b, c, e, n);
    assert d == Numeral(n);
    NumeralValue(n);
  }

  lemma SplitPlaces(a: nat, b: nat, c: nat, e: nat, n: nat)
    requires a < 10 && b < 10 && c < 10 && e < 10 && n == 1000 * a + 100 * b + 10 * c + e
    ensures n <= 9999 && n / 10 / 10 / 10 == a && n / 10 / 10 % 10 == b && n / 10 % 10 == c && n % 10 == e
  {
    Tenth(100 * a + 10 * b + c, e);
    Tenth(10 * a + b, c);
    Tenth(a, b);
  }

  lemma Tenth(m: nat, d: nat)
    requires d < 10
    ensures (10 * m + d) / 10 == m && (10 * m + d) % 10 == d
  {
  }

  /** The name carries this number. */
  predicate Carries(name: string, n: nat, w: string) {
    n <= 9999 && Word(w) && name == Numeral(n) + ("_" + (w + ".sql"))
  }

  ghost predicate HasNumber(name: string, n: nat) {
    exists w :: Carries(name, n, w)
  }

  lemma CarriesIff(name: string, n: nat)
    ensures IsMigrationName(name) && NumberOf(name) == n <==> HasNumber(name, n)
  {
    if w :| Carries(name, n, w) {
      NumeralValue(n);
      NamedMatches(name, Numeral(n), w);
    }
    if IsMigrationName(name) && NumberOf(name) == n {
      var d, w := MatchesNamed(name);
      NumeralOf(d);
      assert Carries(name, n, w);
    }
  }

  /** The i-th file, counted from one, carries the number i, and is neither blank nor reset-only. */
  ghost predicate InPlace(files: seq<File>, resets: seq<string -> bool>, i: nat)
    requires i < |files|
  {
    && HasNumber(files[i].name, i + 1)
    && Trim(files[i].sql) != ""
    && forall r :: 0 <= r < |resets| ==> !resets[r](files[i].sql)
  }

  /** No error is reported exactly if every file is in its place. */
  lemma AcceptedIff(files: seq<File>, resets: seq<string -> bool>)
    ensures Errors(files, resets) == [] <==> forall i :: 0 <= i < |files| ==> InPlace(files, resets, i)
  {
    AcceptedIffWellFormed(files, resets);
    forall i | 0 <= i < |files|
      ensures InPlace(files, resets, i) <==> Sound(files[i], resets) && NumberOf(files[i].name) == i + 1
    {
      CarriesIff(files[i].name, i + 1);
    }
  }

  // ----- the order of names

  /** A text comes before every longer one that starts with it; otherwise the first difference decides. */
  lemma {:induction false} PrefixFirst(a: string, b: string)
    requires b != ""
    ensures TextLe(a, a + b) && !TextLe(a + b, a)
  {
    if a != "" {
      assert (a + b)[1..] == a[1..] + b;
      PrefixFirst(a[1..], b);
    }
  }

  // ----- what is reported of a file

  lemma {:induction false} InFlattened(lists: seq<seq<Error>>, e: Error)
    ensures e in Flatten(lists) <==> exists i :: 0 <= i < |lists| && e in lists[i]
  {
    if lists != [] {
      var k := |lists| - 1;
      InFlattened(lists[..k], e);
      assert forall i :: 0 <= i < k ==> lists[..k][i] == lists[i];
      assert Flatten(lists) == Flatten(lists[..k]) + lists[k];
    }
  }

  lemma {:induction false} ResetsIff(file: File, resets: seq<string -> bool>, n: nat, e: Error)
    requires n <= |resets|
    ensures e in ResetErrors(file, resets, n) <==>
      e.ResetOnly? && e.name == file.name && e.pattern < n && resets[e.pattern](file.sql)
  {
    if n > 0 { ResetsIff(file, resets, n - 1, e); }
  }

  /** What one file is blamed for. */
  ghost predicate Blamed(file: File, resets: seq<string -> bool>, e: Error) {
    match e
    case Misnamed(name) => name == file.name && !Proper(name)
    case Blank(name) => name == file.name && Trim(file.sql) == ""
    case ResetOnly(name, r) => name == file.name && r < |resets| && resets[r](file.sql)
    case _ => false
  }

  lemma BlamedIff(file: File, resets: seq<string -> bool>, e: Error)
    ensures e in FileErrors(file, resets) <==> Blamed(file, resets, e)
  {
    NameIff(file.name);
    ResetsIff(file, resets, |resets|, e);
  }

  /** Of the numbers, only those of the names are reported, each at its place. */
  lemma {:induction false} NumbersAreOf(names: seq<string>, n: nat, e: Error)
    requires n <= |names| && forall x :: x in names ==> IsMigrationName(x)
    ensures e in NumberErrors(names, n) ==> e.NotContiguous? && 1 <= e.expected <= n && e.name == names[e.expected - 1]
  {
    if n > 0 { NumbersAreOf(names, n - 1, e); }
  }

  lemma {:induction false} NumberAt(names: seq<string>, n: nat, p: nat, number: nat)
    requires p < n <= |names| && forall x :: x in names ==> IsMigrationName(x)
    ensures NotContiguous(names[p], number, p + 1) in NumberErrors(names, n) <==> NumberOf(names[p]) == number != p + 1
  {
    var e := NotContiguous(names[p], number, p + 1);
    if p < n - 1 { NumberAt(names, n - 1, p, number); } else { NumbersAreOf(names, n - 1, e); }
  }

  /** A file is reported misnamed, blank or reset-only exactly if it is. */
  lemma FileReportedIff(files: seq<File>, resets: seq<string -> bool>, e: Error)
    requires e.Misnamed? || e.Blank? || e.ResetOnly?
    ensures e in Errors(files, resets) <==> exists i :: 0 <= i < |files| && Blamed(files[i], resets, e)
  {
    var lists := ErrorLists(files, resets);
    InFlattened(lists, e);
    forall i | 0 <= i < |files| ensures e in lists[i] <==> Blamed(files[i], resets, e) { BlamedIff(files[i], resets, e); }
    NumbersAreOf(Numbered(files), |Numbered(files)|, e);
    FromFiles(files, resets, e);
  }

  lemma FromFiles(files: seq<File>, resets: seq<string -> bool>, e: Error)
    requires e != NotUnique && e != OutOfOrder
    ensures e in Errors(files, resets)
       <==> e in AllFileErrors(files, resets) || e in NumberErrors(Numbered(files), |Numbered(files)|)
  {
  }

  /** How many of the first `n` files have proper names. */
  ghost function ProperBefore(files: seq<File>, n: nat): nat
    requires n <= |files|
  {
    if n == 0 then 0 else ProperBefore(files, n - 1) + if Proper(files[n - 1].name) then 1 else 0
  }

  lemma {:induction false} NumberedAre(files: seq<File>, n: nat)
    requires n <= |files|
    ensures |Numbered(files[..n])| == ProperBefore(files, n)
  {
    if n > 0 {
      assert files[..n][..n - 1] == files[..n - 1];
      NumberedAre(files, n - 1);
      NameIff(files[n - 1].name);
    }
  }

  /** The name at a place of the numbered ones is that of the file with so many proper names before it. */
  ghost predicate AtPlace(files: seq<File>, i: nat, p: nat, name: string) {
    i < |files| && files[i].name == name && Proper(name) && ProperBefore(files, i) == p
  }

  ghost predicate Placed(files: seq<File>, n: nat, p: nat, name: string) {
    exists i: nat :: i < n && AtPlace(files, i, p, name)
  }

  lemma PlacedStep(files: seq<File>, k: nat, p: nat, name: string)
    ensures Placed(files, k + 1, p, name) <==> Placed(files, k, p, name) || AtPlace(files, k, p, name)
  {
  }

  lemma {:induction false} PlacedIff(files: seq<File>, n: nat, p: nat, name: string)
    requires n <= |files|
    ensures (p < |Numbered(files[..n])| && Numbered(files[..n])[p] == name) <==> Placed(files, n, p, name)
  {
    if n > 0 {
      var k := n - 1;
      PlacedIff(files, k, p, name);
      NumberedAre(files, k);
      NameIff(files[k].name);
      PlacedStep(files, k, p, name);
      NumberedNext(files, k);
    }
  }

  lemma NumberedNext(files: seq<File>, k: nat)
    requires k < |files|
    ensures Numbered(files[..k + 1]) == Numbered(files[..k]) + if IsMigrationName(files[k].name) then [files[k].name] else []
  {
    assert files[..k + 1][..k] == files[..k];
  }

  predicate Stands(names: seq<string>, p: nat, name: string) {
    p < |names| && names[p] == name
  }

  lemma PlacedAll(files: seq<File>, p: nat, name: string)
    ensures Stands(Numbered(files), p, name) <==> Placed(files, |files|, p, name)
  {
    PlacedIff(files, |files|, p, name);
    assert files[..|files|] == files;
  }

  lemma NumberReports(names: seq<string>, p: nat, name: string, number: nat, e: Error)
    requires (forall x :: x in names ==> IsMigrationName(x)) && e == NotContiguous(name, number, p + 1)
    ensures e in NumberErrors(names, |names|) ==> Stands(names, p, name)
    ensures Stands(names, p, name) ==> (e in NumberErrors(names, |names|) <==> NumberOf(names[p]) == number != p + 1)
  {
    NumbersAreOf(names, |names|, e);
    if Stands(names, p, name) { NumberAt(names, |names|, p, number); }
  }

  lemma NumberFound(files: seq<File>, names: seq<string>, name: string, number: nat, p: nat, e: Error)
    requires names == Numbered(files) && e == NotContiguous(name, number, p + 1)
    ensures e in NumberErrors(names, |names|) <==> number != p + 1 && Placed(files, |files|, p, name) && HasNumber(name, number)
  {
    NumberReports(names, p, name, number, e);
    CarriesIff(name, number);
    PlacedAll(files, p, name);
    if Stands(names, p, name) { assert name in names; }
  }

  /** A number is reported wrong exactly if the file has a proper name that does not carry the number of
      its place among the proper names. */
  lemma NumberReportedIff(files: seq<File>, resets: seq<string -> bool>, name: string, number: nat, p: nat, errors: seq<Error>)
    requires errors == Errors(files, resets)
    ensures NotContiguous(name, number, p + 1) in errors
       <==> number != p + 1 && Placed(files, |files|, p, name) && HasNumber(name, number)
  {
    var e, names := NotContiguous(name, number, p + 1), Numbered(files);
    NotFromFiles(files, resets, names, errors, NumberErrors(names, |names|), e);
    NumberFound(files, names, name, number, p, e);
  }

  lemma NotFromFiles(files: seq<File>, resets: seq<string -> bool>, names: seq<string>, errors: seq<Error>, wrong: seq<Error>, e: Error)
    requires errors == Errors(files, resets) && names == Numbered(files) && wrong == NumberErrors(names, |names|)
    requires e.NotContiguous?
    ensures e in errors <==> e in wrong
  {
    FromFiles(files, resets, e);
    InFlattened(ErrorLists(files, resets), e);
    forall i | 0 <= i < |files| ensures e !in ErrorLists(files, resets)[i] { BlamedIff(files[i], resets, e); }
  }
}

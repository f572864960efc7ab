/**
 The JavaScript string operations the scripts are written with: `indexOf`,
 `split`, `join`, `trim`, `toLowerCase`. A string is a sequence of characters;
 case folding is modelled for ASCII only.
 */
module Text {

  datatype Option<+T> = None | Some(value: T)

  /** True iff `p` occurs in `s` at index `i`. */
  predicate At(s: string, p: string, i: int) {
    0 <= i && i + |p| <= |s| && s[i..i + |p|] == p
  }

  /** `s.startsWith(p)` */
  predicate StartsWith(s: string, p: string) {
    At(s, p, 0)
  }

  /** `s.endsWith(p)` */
  predicate EndsWith(s: string, p: string) {
    At(s, p, |s| - |p|)
  }

  lemma AtShift(s: string, p: string, j: int)
    requires s != "" && j > 0
    ensures At(s, p, j) <==> At(s[1..], p, j - 1)
  {
    if j + |p| <= |s| { assert s[1..][j - 1..j - 1 + |p|] == s[j..j + |p|]; }
  }

  lemma AtLater(s: string, p: string)
    requires s != "" && !At(s, p, 0)
    ensures forall j :: At(s, p, j) <==> j > 0 && At(s[1..], p, j - 1)
  {
    forall j | j > 0 ensures At(s, p, j) <==> At(s[1..], p, j - 1) {
      AtShift(s, p, j);
    }
  }

  /** `s.indexOf(p)`: the leftmost occurrence, or -1. */
  function IndexOf(s: string, p: string): (k: int)
    ensures k == -1 || At(s, p, k)
    ensures forall j :: At(s, p, j) ==> 0 <= k <= j
  {
    if |s| < |p| then -1
    else if s[..|p|] == p then 0
    else
      var k := IndexOf(s[1..], p);
      AtLater(s, p);
      if k == -1 then -1 else assert At(s[1..], p, k + 1 - 1); k + 1
  }

  /** The index of an occurrence with none before it. */
  lemma IndexOfUnique(s: string, p: string, k: int)
    requires At(s, p, k)
    requires forall j :: 0 <= j < k ==> !At(s, p, j)
    ensures IndexOf(s, p) == k
  {
  }

  /** `s.lastIndexOf(c)` for a one-character pattern. */
  function LastIndexOf(s: string, c: char): (k: int)
    ensures -1 <= k < |s|
    ensures k == -1 ==> c !in s
    ensures k >= 0 ==> s[k] == c && c !in s[k + 1..]
  {
    if s == "" then -1
    else if s[|s| - 1] == c then |s| - 1
    else
      var k := LastIndexOf(s[..|s| - 1], c);
      assert s == s[..|s| - 1] + [s[|s| - 1]];
      assert k >= 0 ==> s[k + 1..] == s[..|s| - 1][k + 1..] + [s[|s| - 1]];
      k
  }

  lemma {:induction false} LastIndexOfUnique(s: string, c: char, k: int)
    requires 0 <= k < |s| && s[k] == c && c !in s[k + 1..]
    ensures LastIndexOf(s, c) == k
  {
    if k < |s| - 1 {
      assert s[k + 1..][|s| - k - 2] == s[|s| - 1];
      assert s[k + 1..] == s[..|s| - 1][k + 1..] + [s[|s| - 1]];
      LastIndexOfUnique(s[..|s| - 1], c, k);
    }
  }

  lemma LastIndexAfter(pre: string, c: char, tail: string)
    requires c !in tail
    ensures LastIndexOf(pre + ([c] + tail), c) == |pre|
  {
    var s := pre + ([c] + tail);
    assert s[|pre| + 1..] == tail;
    LastIndexOfUnique(s, c, |pre|);
  }

  /** Cutting at the last separator is unambiguous. */
  lemma CutLast(a: string, x: string, c: char, b: string, y: string)
    requires a + ([c] + x) == b + ([c] + y) && c !in x && c !in y
    ensures a == b && x == y
  {
    LastIndexAfter(a, c, x);
    LastIndexAfter(b, c, y);
    var s := a + ([c] + x);
    assert s[..|a|] == a && s[|a| + 1..] == x;
    assert s[..|a|] == b && s[|a| + 1..] == y;
  }

  /** `s.split(c)` for a one-character separator. */
  function Split(s: string, c: char): (pieces: seq<string>)
    ensures |pieces| >= 1
    ensures forall p :: p in pieces ==> c !in p
  {
    if s == "" then [""]
    else
      var rest := Split(s[1..], c);
      if s[0] == c then [""] + rest else [[s[0]] + rest[0]] + rest[1..]
  }

  /** `pieces.join(c)` for a one-character separator. */
  function Join(pieces: seq<string>, c: char): string {
    if pieces == [] then ""
    else if |pieces| == 1 then pieces[0]
    else pieces[0] + [c] + Join(pieces[1..], c)
  }

  lemma {:induction false} JoinSplit(s: string, c: char)
    ensures Join(Split(s, c), c) == s
  {
    if s != "" {
      JoinSplit(s[1..], c);
      var rest := Split(s[1..], c);
      if s[0] == c {
        assert ([""] + rest)[1..] == rest;
      } else if |rest| > 1 {
        assert ([[s[0]] + rest[0]] + rest[1..])[1..] == rest[1..];
      }
    }
  }

  lemma {:induction false} SplitNone(s: string, c: char)
    requires c !in s
    ensures Split(s, c) == [s]
  {
    if s != "" {
      SplitNone(s[1..], c);
      assert s == [s[0]] + s[1..];
    }
  }

  /** A separator between two texts separates their pieces. */
  lemma {:induction false} SplitConcat(a: string, c: char, b: string)
    ensures Split(a + [c] + b, c) == Split(a, c) + Split(b, c)
  {
    var s := a + [c] + b;
    if a == "" {
      assert s[1..] == b;
    } else {
      assert s[1..] == a[1..] + [c] + b;
      SplitConcat(a[1..], c, b);
      HeadOfConcat(Split(a[1..], c), Split(b, c));
    }
  }

  lemma HeadOfConcat(p: seq<string>, q: seq<string>)
    requires p != []
    ensures (p + q)[0] == p[0] && (p + q)[1..] == p[1..] + q
  {
  }

  lemma {:induction false} SplitJoin(pieces: seq<string>, c: char)
    requires |pieces| >= 1
    requires forall p :: p in pieces ==> c !in p
    ensures Split(Join(pieces, c), c) == pieces
  {
    if |pieces| == 1 {
      SplitNone(pieces[0], c);
    } else {
      SplitJoin(pieces[1..], c);
      SplitConcat(pieces[0], c, Join(pieces[1..], c));
      SplitNone(pieces[0], c);
    }
  }

  lemma {:induction false} SplitOfPart(s: string, c: char, x: char)
    requires x !in s
    ensures forall p :: p in Split(s, c) ==> x !in p
  {
    if s != "" { SplitOfPart(s[1..], c, x); }
  }

  lemma {:induction false} JoinConcat(a: seq<string>, b: seq<string>, c: char)
    requires a != [] && b != []
    ensures Join(a + b, c) == Join(a, c) + [c] + Join(b, c)
  {
    assert (a + b)[1..] == a[1..] + b;
    if |a| > 1 {
      JoinConcat(a[1..], b, c);
    }
  }

  lemma {:induction false} JoinAvoids(pieces: seq<string>, c: char, x: char)
    requires x != c && forall p :: p in pieces ==> x !in p
    ensures x !in Join(pieces, c)
  {
    if |pieces| > 1 { JoinAvoids(pieces[1..], c, x); }
  }

  /** White space and line terminators, as `trim` removes them. */
  predicate IsSpace(c: char) {
    c in "\t\n\U{0B}\U{0C}\r \U{A0}\U{1680}\U{2028}\U{2029}\U{202F}\U{205F}\U{3000}\U{FEFF}"
    || '\U{2000}' <= c <= '\U{200A}'
  }

  function TrimStart(s: string): string {
    if s != "" && IsSpace(s[0]) then TrimStart(s[1..]) else s
  }

  function TrimEnd(s: string): string {
    if s != "" && IsSpace(s[|s| - 1]) then TrimEnd(s[..|s| - 1]) else s
  }

  function Trim(s: string): string {
    TrimEnd(TrimStart(s))
  }

  /** No white space at either end. */
  predicate Trimmed(s: string) {
    s != "" ==> !IsSpace(s[0]) && !IsSpace(s[|s| - 1])
  }

  lemma {:induction false} TrimEndStart(s: string)
    ensures s != "" && !IsSpace(s[0]) ==> TrimEnd(s) != "" && TrimEnd(s)[0] == s[0]
    ensures TrimEnd(s) != "" ==> !IsSpace(TrimEnd(s)[|TrimEnd(s)| - 1])
  {
    if s != "" && IsSpace(s[|s| - 1]) { TrimEndStart(s[..|s| - 1]); }
  }

  lemma {:induction false} TrimStartHead(s: string)
    ensures TrimStart(s) != "" ==> !IsSpace(TrimStart(s)[0])
  {
    if s != "" && IsSpace(s[0]) { TrimStartHead(s[1..]); }
  }

  lemma TrimTrimmed(s: string)
    ensures Trimmed(Trim(s))
    ensures Trimmed(s) ==> Trim(s) == s
  {
    TrimStartHead(s);
    TrimEndStart(TrimStart(s));
  }

  lemma {:induction false} TrimEndAppend(s: string, c: char)
    requires IsSpace(c)
    ensures Trim(s + [c]) == Trim(s)
  {
    assert (s + [c])[..|s|] == s;
    if s == "" {
      assert TrimStart([c]) == TrimStart([c][1..]);
    } else if IsSpace(s[0]) {
      assert (s + [c])[1..] == s[1..] + [c];
      TrimEndAppend(s[1..], c);
    } else {
      assert TrimStart(s + [c]) == s + [c];
    }
  }

  function LowerChar(c: char): char {
    if 'A' <= c <= 'Z' then ((c as int) + 32) as char else c
  }

  /** `s.toLowerCase()` */
  function Lower(s: string): (r: string)
    ensures |r| == |s| && forall i :: 0 <= i < |s| ==> r[i] == LowerChar(s[i])
  {
    if s == "" then "" else [LowerChar(s[0])] + Lower(s[1..])
  }

  predicate IsDigit(c: char) {
    '0' <= c <= '9'
  }

  predicate AllDigits(s: string) {
    forall i :: 0 <= i < |s| ==> IsDigit(s[i])
  }

  /** The number a string of decimal digits denotes. */
  function DecValue(s: string): nat
    requires AllDigits(s)
  {
    if s == "" then 0
    else DecValue(s[..|s| - 1]) * 10 + (s[|s| - 1] as int - '0' as int)
  }

  /** Decimal notation without leading zeros. */
  function Decimal(n: nat): (s: string)
    ensures s != "" && AllDigits(s) && DecValue(s) == n
    ensures n > 0 ==> s[0] != '0'
  {
    var d := [('0' as int + n % 10) as char];
    if n < 10 then d
    else
      var h := Decimal(n / 10);
      assert (h + d)[..|h + d| - 1] == h;
      h + d
  }
}

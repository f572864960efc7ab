/**
 What the functions on characters and texts compute, said by tables and by the parts of a
 text: the digits, the letters, white space, prefixes and suffixes.
 */
module Characters {
  import opened Text
  import opened AddressText

  const Digits := "0123456789"
  const HexDigits := "0123456789abcdef"
  const Capital := "ABCDEFGHIJKLMNOPQRSTUVWXYZ"
  const Small := "abcdefghijklmnopqrstuvwxyz"

  /** The character at place n of the table is the digit of value n, and there are no others. */
  lemma DecimalDigits(n: nat, c: char)
    requires n < 10
    ensures AllDigits([Digits[n]]) && DecValue([Digits[n]]) == n && Decimal(n) == [Digits[n]]
    ensures IsDigit(c) <==> c in Digits
  {
    assert [Digits[n]][..0] == "";
  }

  lemma HexadecimalDigits(n: nat, c: char)
    requires n < 16
    ensures IsHexDigit(HexDigits[n]) && HexDigit(HexDigits[n]) == n && HexChar(n) == HexDigits[n]
    ensures IsHexDigit(c) <==> c in HexDigits
  {
  }

  /** The three tables by their ranges. */
  lemma DigitIn(c: char)
    ensures c in Digits <==> '0' <= c <= '9'
  {
    if '0' <= c <= '9' { assert Digits[c as int - '0' as int] == c; }
  }

  lemma SmallIn(c: char)
    ensures c in Small <==> 'a' <= c <= 'z'
  {
    if 'a' <= c <= 'z' { assert Small[c as int - 'a' as int] == c; }
  }

  lemma CapitalIn(c: char)
    ensures c in Capital <==> 'A' <= c <= 'Z'
  {
    if 'A' <= c <= 'Z' { assert Capital[c as int - 'A' as int] == c; }
  }

  /** A further digit counts once, and all before it ten times. */
  lemma DecimalPlaces(s: string, n: nat)
    requires AllDigits(s) && n < 10
    ensures DecValue("") == 0 && AllDigits(s + [Digits[n]]) && DecValue(s + [Digits[n]]) == 10 * DecValue(s) + n
  {
    assert (s + [Digits[n]])[..|s|] == s;
  }

  lemma HexadecimalPlaces(s: string, n: nat)
    requires AllHex(s) && n < 16
    ensures HexValue("") == 0 && AllHex(s + [HexDigits[n]]) && HexValue(s + [HexDigits[n]]) == 16 * HexValue(s) + n
  {
    HexadecimalDigits(n, HexDigits[n]);
    assert (s + [HexDigits[n]])[..|s|] == s;
  }

  /** Capitals become small letters, place by place; everything else stays. */
  lemma Letters(n: nat, c: char)
    requires n < 26
    ensures LowerChar(Capital[n]) == Small[n]
    ensures c !in Capital ==> LowerChar(c) == c
  {
    if 'A' <= c <= 'Z' { assert c == Capital[c as int - 'A' as int]; }
  }

  /** A text in small letters, character by character. */
  lemma SmallLetters(text: string, i: nat)
    requires i < |text|
    ensures |Lower(text)| == |text|
    ensures forall n :: 0 <= n < 26 && text[i] == Capital[n] ==> Lower(text)[i] == Small[n]
    ensures text[i] !in Capital ==> Lower(text)[i] == text[i]
  {
    forall n | 0 <= n < 26 ensures LowerChar(Capital[n]) == Small[n] { Letters(n, text[i]); }
    Letters(0, text[i]);
  }

  /** The white space of the language, by its code points. */
  lemma Spaces(c: char)
    ensures var u := c as int;
      IsSpace(c) <==>
        || 9 <= u <= 13 || u == 32 || u == 160 || u == 5760 || 8192 <= u <= 8202
        || u == 8232 || u == 8233 || u == 8239 || u == 8287 || u == 12288 || u == 65279
  {
    var table := "\t\n\U{0B}\U{0C}\r \U{A0}\U{1680}\U{2028}\U{2029}\U{202F}\U{205F}\U{3000}\U{FEFF}";
    assert table[0] as int == 9 && table[1] as int == 10 && table[2] as int == 11 && table[3] as int == 12;
    assert table[4] as int == 13 && table[5] as int == 32 && table[6] as int == 160 && table[7] as int == 5760;
    assert table[8] as int == 8232 && table[9] as int == 8233 && table[10] as int == 8239 && table[11] as int == 8287;
    assert table[12] as int == 12288 && table[13] as int == 65279 && |table| == 14;
  }

  predicate AllSpace(s: string) {
    forall i :: 0 <= i < |s| ==> IsSpace(s[i])
  }

  lemma {:induction false} StartAfter(a: string, t: string)
    requires AllSpace(a) && (t == "" || !IsSpace(t[0]))
    ensures TrimStart(a + t) == t
  {
    if a == "" {
      assert a + t == t;
    } else {
      assert (a + t)[1..] == a[1..] + t;
      StartAfter(a[1..], t);
    }
  }

  lemma {:induction false} EndBefore(t: string, b: string)
    requires AllSpace(b) && (t == "" || !IsSpace(t[|t| - 1]))
    ensures TrimEnd(t + b) == t
  {
    if b == "" {
      assert t + b == t;
    } else {
      assert (t + b)[..|t + b| - 1] == t + b[..|b| - 1];
      EndBefore(t, b[..|b| - 1]);
    }
  }

  /** Trimming takes the white space at both ends, and nothing else. */
  lemma TrimBetween(a: string, t: string, b: string)
    requires AllSpace(a) && AllSpace(b) && (t != "" ==> !IsSpace(t[0]) && !IsSpace(t[|t| - 1]))
    ensures Trim(a + t + b) == t
  {
    if t == "" {
      OnlySpace(a, b);
    } else {
      StartAfter(a, t + b);
      assert a + t + b == a + (t + b);
      EndBefore(t, b);
    }
  }

  lemma OnlySpace(a: string, b: string)
    requires AllSpace(a) && AllSpace(b)
    ensures Trim(a + "" + b) == ""
  {
    assert a + "" + b == (a + b) + "";
    StartAfter(a + b, "");
  }

  /** And every text is of this form. */
  lemma TrimParts(s: string) returns (a: string, b: string)
    ensures AllSpace(a) && AllSpace(b) && s == a + Trim(s) + b
  {
    a := StartPart(s);
    b := EndPart(TrimStart(s));
    assert s == a + (Trim(s) + b);
  }

  lemma {:induction false} StartPart(s: string) returns (a: string)
    ensures AllSpace(a) && s == a + TrimStart(s)
  {
    a := "";
    if s != "" && IsSpace(s[0]) {
      var rest := StartPart(s[1..]);
      a := [s[0]] + rest;
      StartJoins(s, rest, TrimStart(s));
    }
  }

  lemma StartJoins(s: string, rest: string, trimmed: string)
    requires s != "" && s[1..] == rest + trimmed
    ensures s == [s[0]] + rest + trimmed
  {
    assert s == [s[0]] + s[1..];
  }

  lemma {:induction false} EndPart(s: string) returns (b: string)
    ensures AllSpace(b) && s == TrimEnd(s) + b
  {
    b := "";
    var k := |s| - 1;
    if s != "" && IsSpace(s[k]) {
      var rest := EndPart(s[..k]);
      b := rest + [s[k]];
      EndJoins(s, k, TrimEnd(s), rest);
    }
  }

  lemma EndJoins(s: string, k: nat, trimmed: string, rest: string)
    requires |s| == k + 1 && s[..k] == trimmed + rest
    ensures s == trimmed + (rest + [s[k]])
  {
    assert s == s[..k] + [s[k]];
  }

  /** A text starts with another, or ends with it, exactly if it is that one and something more. */
  lemma PrefixIff(s: string, p: string)
    ensures StartsWith(s, p) <==> exists rest :: s == p + rest
  {
    if StartsWith(s, p) { assert s == p + s[|p|..]; }
    forall rest | s == p + rest ensures StartsWith(s, p) { assert s[..|p|] == p; }
  }

  lemma SuffixIff(s: string, p: string)
    ensures EndsWith(s, p) <==> exists rest :: s == rest + p
  {
    var k := |s| - |p|;
    if EndsWith(s, p) { assert s == s[..k] + p; }
    forall rest | s == rest + p ensures EndsWith(s, p) { assert s[k..] == p; }
  }
}

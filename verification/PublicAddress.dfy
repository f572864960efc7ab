/**
 Which addresses count as public (scripts/public-url-inspect.ts, lines 64-98), with the
 answer tied to address blocks and to the IPv4-mapped form of section 2.5.5.2 of RFC 4291.
 */
module PublicAddress {
  import opened Text
  import opened AddressText

  // ----- the text forms of given numbers

  /** Four bytes in dotted decimal: `bytes.join(".")`. */
  function Octets(b: seq<Byte>): (os: seq<string>)
    requires |b| == 4
  {
    [Decimal(b[0]), Decimal(b[1]), Decimal(b[2]), Decimal(b[3])]
  }

  function Dotted(b: seq<Byte>): string
    requires |b| == 4
  {
    Join(Octets(b), '.')
  }

  lemma DottedReads(b: seq<Byte>, other: Reading)
    requires |b| == 4
    ensures IsDotted(Dotted(b), other) && Ipv4Bytes(Dotted(b), other) == Some(b)
  {
    var os := Octets(b);
    SplitJoin(os, '.');
    JoinAvoids(os, '.', ':');
    assert ReadOctets(os, other) == b;
  }

  type Word16 = n: int | 0 <= n < 0x10000

  function HexGroups(g: seq<Word16>): (gs: seq<string>)
    ensures |gs| == |g| && AllGroups(gs)
  {
    if g == [] then [] else HexGroups(g[..|g| - 1]) + [HexText(g[|g| - 1])]
  }

  /** Eight 16-bit groups as sixteen bytes, high byte first. */
  function BigEndian(g: seq<Word16>): (bs: seq<Byte>)
    ensures |bs| == 2 * |g|
  {
    if g == [] then [] else BigEndian(g[..|g| - 1]) + [g[|g| - 1] / 256, g[|g| - 1] % 256]
  }

  lemma {:induction false} HexGroupBytes(g: seq<Word16>)
    ensures GroupBytes(HexGroups(g)) == BigEndian(g)
  {
    if g != [] {
      var front := HexGroups(g[..|g| - 1]);
      HexGroupBytes(g[..|g| - 1]);
      assert HexGroups(g)[..|g| - 1] == front;
    }
  }

  lemma {:induction false} BigEndianConcat(a: seq<Word16>, b: seq<Word16>)
    ensures BigEndian(a + b) == BigEndian(a) + BigEndian(b)
  {
    if b == [] {
      assert a + b == a;
    } else {
      assert (a + b)[..|a + b| - 1] == a + b[..|b| - 1];
      BigEndianConcat(a, b[..|b| - 1]);
    }
  }

  lemma {:induction false} BigEndianZeros(g: seq<Word16>)
    requires forall i :: 0 <= i < |g| ==> g[i] == 0
    ensures BigEndian(g) == ZeroBytes(2 * |g|)
  {
    if g != [] { BigEndianZeros(g[..|g| - 1]); }
  }

  lemma ThreeParts(a: seq<Word16>, zeros: seq<Word16>, b: seq<Word16>)
    requires |a| + |zeros| + |b| == 8 && forall k :: 0 <= k < |zeros| ==> zeros[k] == 0
    ensures BigEndian(a + zeros + b) == Padded(BigEndian(a), BigEndian(b))
  {
    BigEndianZeros(zeros);
    BigEndianConcat(a, zeros);
    BigEndianConcat(a + zeros, b);
    PaddedIs(BigEndian(a), 2 * |zeros|, BigEndian(b));
  }

  /** A run of zero groups pads the groups before and after it. */
  lemma RunBytes(g: seq<Word16>, i: nat, j: nat)
    requires |g| == 8 && i <= j <= 8 && forall k :: i <= k < j ==> g[k] == 0
    ensures BigEndian(g) == Padded(BigEndian(g[..i]), BigEndian(g[j..]))
  {
    ThreeParts(g[..i], g[i..j], g[j..]);
    assert g == g[..i] + g[i..j] + g[j..];
  }

  lemma CutBytes(g: seq<Word16>, j: nat, k: nat)
    requires j <= k <= |g|
    ensures BigEndian(g[j..]) == BigEndian(g[j..k]) + BigEndian(g[k..])
  {
    BigEndianConcat(g[j..k], g[k..]);
    assert g[j..] == g[j..k] + g[k..];
  }

  /** The full form of eight groups and every form that elides one run of zero groups. */
  lemma HexadecimalFormsParse(g: seq<Word16>, i: nat, j: nat, other: Reading)
    requires |g| == 8 && i <= j <= 8 && forall k :: i <= k < j ==> g[k] == 0
    ensures ParsePlain(Spell(Full(HexGroups(g))), other) == Some(BigEndian(g))
    ensures ParsePlain(Spell(Elided(HexGroups(g[..i]), HexGroups(g[j..]))), other) == Some(BigEndian(g))
  {
    HexGroupBytes(g);
    SpellingParses(Full(HexGroups(g)), other);
    ElidedFormParses(g, i, j, other);
  }

  lemma ElidedFormParses(g: seq<Word16>, i: nat, j: nat, other: Reading)
    requires |g| == 8 && i <= j <= 8 && forall k :: i <= k < j ==> g[k] == 0
    ensures ParsePlain(Spell(Elided(HexGroups(g[..i]), HexGroups(g[j..]))), other) == Some(BigEndian(g))
  {
    HexGroupBytes(g[..i]);
    HexGroupBytes(g[j..]);
    RunBytes(g, i, j);
    SpellingParses(Elided(HexGroups(g[..i]), HexGroups(g[j..])), other);
  }

  /** The same with the last 32 bits in dotted decimal. */
  lemma DottedFormsParse(g: seq<Word16>, i: nat, j: nat, other: Reading)
    requires |g| == 8 && i <= j <= 6 && forall k :: i <= k < j ==> g[k] == 0
    ensures var d := Dotted(BigEndian(g[6..]));
      && ParsePlain(Spell(FullDotted(HexGroups(g[..6]), d)), other) == Some(BigEndian(g))
      && ParsePlain(Spell(ElidedDotted(HexGroups(g[..i]), HexGroups(g[j..6]), d)), other) == Some(BigEndian(g))
  {
    var d := Dotted(BigEndian(g[6..]));
    DottedReads(BigEndian(g[6..]), other);
    HexGroupBytes(g[..6]);
    BigEndianConcat(g[..6], g[6..]);
    assert g == g[..6] + g[6..];
    SpellingParses(FullDotted(HexGroups(g[..6]), d), other);
    ElidedDottedParses(g, i, j, d, other);
  }

  lemma ElidedDottedForm(a: seq<Word16>, b: seq<Word16>, d: string, other: Reading)
    requires |a| + |b| <= 6 && IsDotted(d, other)
    ensures ParsePlain(Spell(ElidedDotted(HexGroups(a), HexGroups(b), d)), other)
         == Some(Padded(BigEndian(a), BigEndian(b) + Ipv4Bytes(d, other).value))
  {
    HexGroupBytes(a);
    HexGroupBytes(b);
    SpellingParses(ElidedDotted(HexGroups(a), HexGroups(b), d), other);
  }

  lemma ElidedDottedParses(g: seq<Word16>, i: nat, j: nat, d: string, other: Reading)
    requires |g| == 8 && i <= j <= 6 && forall k :: i <= k < j ==> g[k] == 0
    requires IsDotted(d, other) && Ipv4Bytes(d, other) == Some(BigEndian(g[6..]))
    ensures ParsePlain(Spell(ElidedDotted(HexGroups(g[..i]), HexGroups(g[j..6]), d)), other) == Some(BigEndian(g))
  {
    ElidedDottedForm(g[..i], g[j..6], d, other);
    CutBytes(g, j, 6);
    RunBytes(g, i, j);
  }

  /** A zone suffix and the case of letters do not matter. */
  lemma ZoneAndCaseIgnored(text: string, zone: string, other: Reading)
    requires '%' !in text
    ensures ParseV6(text + ("%" + zone), other) == ParsePlain(Lower(text), other)
    ensures ParseV6(text, other) == ParsePlain(Lower(text), other)
  {
    SplitNone(text, '%');
    SplitConcat(text, '%', zone);
    assert text + "%" + zone == text + ("%" + zone);
  }

  // ----- printing and reading back

  /** The characters of a printed address: digits, small hexadecimal letters, separators. */
  predicate IsPrinted(s: string) {
    forall i :: 0 <= i < |s| ==> IsHexDigit(s[i]) || s[i] == ':' || s[i] == '.'
  }

  lemma PrintedIsPlain(s: string)
    requires IsPrinted(s)
    ensures '%' !in s && Lower(s) == s
  {
    assert forall i :: 0 <= i < |s| ==> Lower(s)[i] == s[i];
  }

  lemma {:induction false} JoinIsPrinted(pieces: seq<string>, c: char)
    requires (c == ':' || c == '.') && forall i :: 0 <= i < |pieces| ==> IsPrinted(pieces[i])
    ensures IsPrinted(Join(pieces, c))
  {
    if |pieces| > 1 { JoinIsPrinted(pieces[1..], c); }
  }

  lemma DottedIsPrinted(b: seq<Byte>)
    requires |b| == 4
    ensures IsPrinted(Dotted(b))
  {
    JoinIsPrinted(Octets(b), '.');
  }

  lemma GroupsArePrinted(gs: seq<string>)
    requires AllGroups(gs)
    ensures IsPrinted(Join(gs, ':'))
  {
    forall i | 0 <= i < |gs| ensures IsPrinted(gs[i]) {
      assert IsGroup(gs[i]);
    }
    JoinIsPrinted(gs, ':');
  }

  lemma GroupsAndDottedArePrinted(gs: seq<string>, d: string)
    requires AllGroups(gs) && IsPrinted(d)
    ensures IsPrinted(Join(gs + [d], ':'))
  {
    forall i | 0 <= i < |gs| + 1 ensures IsPrinted((gs + [d])[i]) {
      if i < |gs| { assert IsGroup(gs[i]); }
    }
    JoinIsPrinted(gs + [d], ':');
  }

  /** The ways to print eight groups: in full, or with the zero groups from `i` to `j` as
      `::`; and either with the last two groups in dotted decimal. */
  predicate Prints(g: seq<Word16>, i: nat, j: nat, form: string)
    requires |g| == 8 && i <= j <= 8
  {
    || form == Spell(Full(HexGroups(g)))
    || form == Spell(Elided(HexGroups(g[..i]), HexGroups(g[j..])))
    || form == Spell(FullDotted(HexGroups(g[..6]), Dotted(BigEndian(g[6..]))))
    || (j <= 6 && form == Spell(ElidedDotted(HexGroups(g[..i]), HexGroups(g[j..6]), Dotted(BigEndian(g[6..])))))
  }

  predicate ZeroRun(g: seq<Word16>, i: nat, j: nat) {
    |g| == 8 && i <= j <= 8 && forall k :: i <= k < j ==> g[k] == 0
  }

  lemma ElisionIsPrinted(l: string, r: string)
    requires IsPrinted(l) && IsPrinted(r)
    ensures IsPrinted(l + ("::" + r))
  {
  }

  lemma SpellingIsPrinted(sp: Spelling)
    requires match sp
      case Full(gs) => AllGroups(gs)
      case Elided(ls, rs) => AllGroups(ls) && AllGroups(rs)
      case FullDotted(gs, d) => AllGroups(gs) && IsPrinted(d)
      case ElidedDotted(ls, rs, d) => AllGroups(ls) && AllGroups(rs) && IsPrinted(d)
    ensures IsPrinted(Spell(sp))
  {
    match sp
    case Full(gs) => GroupsArePrinted(gs);
    case Elided(ls, rs) =>
      GroupsArePrinted(ls);
      GroupsArePrinted(rs);
      ElisionIsPrinted(Join(ls, ':'), Join(rs, ':'));
    case FullDotted(gs, d) => GroupsAndDottedArePrinted(gs, d);
    case ElidedDotted(ls, rs, d) =>
      GroupsArePrinted(ls);
      GroupsAndDottedArePrinted(rs, d);
      ElisionIsPrinted(Join(ls, ':'), Join(rs + [d], ':'));
  }

  lemma FormIsPrinted(g: seq<Word16>, i: nat, j: nat, form: string)
    requires ZeroRun(g, i, j) && Prints(g, i, j, form)
    ensures IsPrinted(form)
  {
    var d := Dotted(BigEndian(g[6..]));
    DottedIsPrinted(BigEndian(g[6..]));
    SpellingIsPrinted(Full(HexGroups(g)));
    SpellingIsPrinted(Elided(HexGroups(g[..i]), HexGroups(g[j..])));
    SpellingIsPrinted(FullDotted(HexGroups(g[..6]), d));
    if j <= 6 { SpellingIsPrinted(ElidedDotted(HexGroups(g[..i]), HexGroups(g[j..6]), d)); }
  }

  lemma FormParses(g: seq<Word16>, i: nat, j: nat, form: string, other: Reading)
    requires ZeroRun(g, i, j) && Prints(g, i, j, form)
    ensures ParsePlain(form, other) == Some(BigEndian(g))
  {
    HexadecimalFormsParse(g, i, j, other);
    DottedFormsParse(g, 0, 0, other);
    if j <= 6 { DottedFormsParse(g, i, j, other); }
  }

  /** A text with its zone, if it has one. */
  function WithZone(text: string, zone: Option<string>): string {
    if zone.None? then text else text + ("%" + zone.value)
  }

  lemma {:induction false} SameLetters(text: string, c: char)
    requires c !in Lower(text) && !('A' <= c <= 'Z')
    ensures c !in text
  {
    forall i | 0 <= i < |text| ensures text[i] != c {
      assert Lower(text)[i] in Lower(text);
    }
  }

  /** `ipv6Bytes` inverts printing: every way to print eight groups, in small or capital
      letters, with or without a zone, is read as their sixteen big-endian bytes. */
  lemma PrintedFormsParse(g: seq<Word16>, i: nat, j: nat, text: string, zone: Option<string>, other: Reading)
    requires ZeroRun(g, i, j) && Prints(g, i, j, Lower(text))
    ensures ParseV6(WithZone(text, zone), other) == Some(BigEndian(g))
  {
    FormIsPrinted(g, i, j, Lower(text));
    PrintedIsPlain(Lower(text));
    SameLetters(text, '%');
    FormParses(g, i, j, Lower(text), other);
    ZoneAndCaseIgnored(text, if zone.Some? then zone.value else "", other);
  }

  /** ... in particular the printed form as it is. */
  lemma PrintedFormParses(g: seq<Word16>, i: nat, j: nat, form: string, other: Reading)
    requires ZeroRun(g, i, j) && Prints(g, i, j, form)
    ensures ParseV6(form, other) == Some(BigEndian(g))
  {
    FormIsPrinted(g, i, j, form);
    PrintedIsPlain(form);
    PrintedFormsParse(g, i, j, form, None, other);
  }

  // ----- classification

  predicate IsPublicV4(v4: seq<Byte>)
    requires |v4| == 4
  {
    var a, b, c := v4[0], v4[1], v4[2];
    !(|| a == 0
      || a == 10
      || a == 127
      || (a == 100 && 64 <= b <= 127)
      || (a == 169 && b == 254)
      || (a == 172 && 16 <= b <= 31)
      || (a == 192 && b == 0 && c == 0)
      || (a == 192 && b == 0 && c == 2)
      || (a == 192 && b == 88 && c == 99)
      || (a == 192 && b == 168)
      || (a == 198 && (b == 18 || b == 19))
      || (a == 198 && b == 51 && c == 100)
      || (a == 203 && b == 0 && c == 113)
      || a >= 224)
  }

  predicate IsMapped(v6: seq<Byte>) {
    |v6| == 16 && (forall i :: 0 <= i < 10 ==> v6[i] == 0) && v6[10] == 0xff && v6[11] == 0xff
  }

  predicate IsPublicUnmapped(v6: seq<Byte>)
    requires |v6| == 16
  {
    && 0x20 <= v6[0] <= 0x3f
    && !(v6[0] == 0x20 && v6[1] == 0x01 && v6[2] == 0x0d && v6[3] == 0xb8)
  }

  lemma LowerKeepsColons(s: string)
    requires ':' !in s
    ensures ':' !in Lower(s)
  {
    forall i | 0 <= i < |s| ensures Lower(s)[i] != ':' {
      assert s[i] in s;
    }
  }

  lemma NoColonNoParse(text: string, other: Reading)
    requires ':' !in text
    ensures ParseV6(text, other) == None
  {
    SplitOfPart(text, '%', ':');
    LowerKeepsColons(Split(text, '%')[0]);
    var w := WithoutZone(text);
    SplitNone(w, ':');
    DoubleColonAt(w);
    assert Halves(w) == [w];
  }

  lemma ParseNeedsColon(text: string, other: Reading)
    ensures ParseV6(text, other).Some? ==> ':' in text
  {
    if ':' !in text { NoColonNoParse(text, other); }
  }

  lemma DottedHasNoColon(b: seq<Byte>)
    requires |b| == 4
    ensures ':' !in Dotted(b)
  {
    DottedReads(b, _ => None);
  }

  /** `isPublicInternetAddress`, for an arbitrary `isIP`. It recurses only on the dotted
      form of a mapped address, which has no colon, so it never recurses twice. */
  function IsPublic(isIP: string -> int, address: string, other: Reading): bool
    decreases ':' in address
  {
    var family := isIP(address);
    if family == 4 then
      var v4 := Ipv4Bytes(address, other);
      v4.Some? && IsPublicV4(v4.value)
    else if family == 6 then
      var v6 := ParseV6(address, other);
      if v6.None? then false
      else
        ParseNeedsColon(address, other);
        if IsMapped(v6.value) then
          DottedHasNoColon(v6.value[12..]);
          IsPublic(isIP, Dotted(v6.value[12..]), other)
        else IsPublicUnmapped(v6.value)
    else false
  }

  function MappedBytes(v4: seq<Byte>): seq<Byte>
    requires |v4| == 4
  {
    ZeroBytes(10) + [0xff, 0xff] + v4
  }

  lemma {:induction false} ZeroBytesAreZero(n: nat)
    ensures forall i :: 0 <= i < n ==> ZeroBytes(n)[i] == 0
  {
    if n > 0 { ZeroBytesAreZero(n - 1); }
  }

  lemma MappedForm(v6: seq<Byte>)
    requires |v6| == 16
    ensures IsMapped(v6) <==> v6 == MappedBytes(v6[12..])
  {
    ZeroBytesAreZero(10);
    assert v6 == v6[..10] + v6[10..12] + v6[12..];
  }

  /** Classification commutes with mapping, whatever text the mapped address has: hex or
      dotted tail, any elision, any case, with or without a zone. */
  lemma MappingCommutes(isIP: string -> int, text: string, v4: seq<Byte>, other: Reading)
    requires |v4| == 4 && isIP(Dotted(v4)) == 4
    requires isIP(text) == 6 && ParseV6(text, other) == Some(MappedBytes(v4))
    ensures IsPublic(isIP, text, other) == IsPublic(isIP, Dotted(v4), other) == IsPublicV4(v4)
  {
    DottedReads(v4, other);
    var v6 := MappedBytes(v4);
    assert v6[12..] == v4;
    MappedForm(v6);
  }

  function MappedGroups(v4: seq<Byte>): seq<Word16>
    requires |v4| == 4
  {
    [0, 0, 0, 0, 0, 0xffff, Word(v4[0], v4[1]), Word(v4[2], v4[3])]
  }

  lemma MappedHead(head: seq<Word16>)
    requires head == [0, 0, 0, 0, 0, 0xffff]
    ensures BigEndian(head) == ZeroBytes(10) + [0xff, 0xff]
  {
    BigEndianZeros(head[..5]);
  }

  lemma MappedGroupBytes(v4: seq<Byte>)
    requires |v4| == 4
    ensures BigEndian(MappedGroups(v4)) == MappedBytes(v4)
    ensures BigEndian(MappedGroups(v4)[6..]) == v4
  {
    var g := MappedGroups(v4);
    assert g[6..] == [g[6], g[7]];
    MappedHead(g[..6]);
    BigEndianConcat(g[..6], g[6..]);
    assert g == g[..6] + g[6..];
  }

  /** Every way to print an IPv4-mapped address, in any case and with any zone, is
      classified like the dotted form of its four bytes. */
  lemma MappedFormsCommute(isIP: string -> int, v4: seq<Byte>, i: nat, j: nat, text: string, zone: Option<string>, other: Reading)
    requires |v4| == 4 && ZeroRun(MappedGroups(v4), i, j) && Prints(MappedGroups(v4), i, j, Lower(text))
    requires isIP(Dotted(v4)) == 4 && isIP(WithZone(text, zone)) == 6
    ensures IsPublic(isIP, WithZone(text, zone), other) == IsPublic(isIP, Dotted(v4), other) == IsPublicV4(v4)
  {
    PrintedFormsParse(MappedGroups(v4), i, j, text, zone, other);
    MappedGroupBytes(v4);
    MappingCommutes(isIP, WithZone(text, zone), v4, other);
  }

  /** `::ffff:` and the four bytes as two hexadecimal groups. */
  function MappedHex(v4: seq<Byte>): string
    requires |v4| == 4
  {
    "::ffff:" + (HexText(Word(v4[0], v4[1])) + (":" + HexText(Word(v4[2], v4[3]))))
  }

  /** `::ffff:` and the four bytes in dotted decimal. */
  function MappedDotted(v4: seq<Byte>): string
    requires |v4| == 4
  {
    "::ffff:" + Dotted(v4)
  }

  lemma FfffText()
    ensures HexText(0xffff) == "ffff"
  {
    assert HexChar(15) == 'f' by { assert HexDigit('f') == 15; }
    assert HexText(0xf) == "f";
    assert HexText(0xff) == HexText(0xf) + "f";
    assert HexText(0xfff) == HexText(0xff) + "f";
    assert HexText(0xffff) == HexText(0xfff) + "f";
  }

  lemma ThreeGroups(a: Word16, b: Word16, c: Word16)
    ensures HexGroups([a]) == [HexText(a)] && HexGroups([a, b, c]) == [HexText(a), HexText(b), HexText(c)]
  {
    assert [a, b, c][..2] == [a, b] && [a, b][..1] == [a] && [a][..0] == [];
    assert HexGroups([a]) == [HexText(a)];
    assert HexGroups([a, b]) == [HexText(a), HexText(b)];
  }

  lemma MappedPrefix(rest: string)
    ensures "::" + ("ffff" + (":" + rest)) == "::ffff:" + rest
  {
    assert "::" + "ffff" + ":" == "::ffff:";
  }

  lemma JoinThree(a: string, b: string, c: string)
    ensures Join([a, b, c], ':') == a + (":" + (b + (":" + c)))
  {
    assert [a, b, c][1..] == [b, c] && [b, c][1..] == [c];
    assert Join([b, c], ':') == b + [':'] + c;
  }

  lemma JoinPair(a: string, b: string)
    ensures Join([a, b], ':') == a + (":" + b)
  {
    assert [a, b][1..] == [b];
  }

  lemma MappedTail(v4: seq<Byte>, tail: seq<Word16>)
    requires |v4| == 4 && tail == MappedGroups(v4)[5..]
    ensures HexGroups(tail) == ["ffff", HexText(tail[1]), HexText(tail[2])]
    ensures HexGroups(tail[..1]) == ["ffff"]
  {
    FfffText();
    ThreeGroups(tail[0], tail[1], tail[2]);
    assert tail == [tail[0], tail[1], tail[2]] && tail[..1] == [tail[0]];
  }

  lemma ElidedText(x: string, y: string)
    ensures Spell(Elided([], ["ffff", x, y])) == "::ffff:" + (x + (":" + y))
  {
    JoinThree("ffff", x, y);
    MappedPrefix(x + (":" + y));
  }

  lemma ElidedDottedText(d: string)
    ensures Spell(ElidedDotted([], ["ffff"], d)) == "::ffff:" + d
  {
    assert ["ffff"] + [d] == ["ffff", d];
    JoinPair("ffff", d);
    MappedPrefix(d);
  }

  lemma MappedHexIsPrinted(v4: seq<Byte>)
    requires |v4| == 4
    ensures Prints(MappedGroups(v4), 0, 5, MappedHex(v4))
  {
    var g := MappedGroups(v4);
    MappedTail(v4, g[5..]);
    ElidedText(HexText(g[6]), HexText(g[7]));
    assert g[..0] == [];
  }

  lemma PrintsElidedDotted(g: seq<Word16>, v4: seq<Byte>, form: string)
    requires |g| == 8 && |v4| == 4 && HexGroups(g[5..6]) == ["ffff"] && BigEndian(g[6..]) == v4
    requires form == Spell(ElidedDotted([], ["ffff"], Dotted(v4)))
    ensures Prints(g, 0, 5, form)
  {
    assert g[..0] == [] && HexGroups(g[..0]) == [];
  }

  lemma MappedMiddle(v4: seq<Byte>)
    requires |v4| == 4
    ensures HexGroups(MappedGroups(v4)[5..6]) == ["ffff"]
  {
    var g := MappedGroups(v4);
    MappedTail(v4, g[5..]);
    assert g[5..6] == g[5..][..1];
  }

  lemma MappedDottedIsPrinted(v4: seq<Byte>)
    requires |v4| == 4
    ensures Prints(MappedGroups(v4), 0, 5, MappedDotted(v4))
  {
    MappedMiddle(v4);
    MappedGroupBytes(v4);
    ElidedDottedText(Dotted(v4));
    PrintsElidedDotted(MappedGroups(v4), v4, MappedDotted(v4));
  }

  /** For all four bytes the two usual texts of the mapped address are read as it, and
      classified like the dotted form. */
  lemma MappedTextsCommute(isIP: string -> int, v4: seq<Byte>, other: Reading)
    requires |v4| == 4
    requires isIP(Dotted(v4)) == 4 && isIP(MappedHex(v4)) == 6 && isIP(MappedDotted(v4)) == 6
    ensures ParseV6(MappedHex(v4), other) == ParseV6(MappedDotted(v4), other) == Some(MappedBytes(v4))
    ensures IsPublic(isIP, MappedHex(v4), other) == IsPublic(isIP, Dotted(v4), other) == IsPublicV4(v4)
    ensures IsPublic(isIP, MappedDotted(v4), other) == IsPublic(isIP, Dotted(v4), other)
  {
    MappedHexIsPrinted(v4);
    MappedDottedIsPrinted(v4);
    MappedGroupBytes(v4);
    PrintedFormParses(MappedGroups(v4), 0, 5, MappedHex(v4), other);
    PrintedFormParses(MappedGroups(v4), 0, 5, MappedDotted(v4), other);
    MappingCommutes(isIP, MappedHex(v4), v4, other);
    MappingCommutes(isIP, MappedDotted(v4), v4, other);
  }

  // ----- the byte tests are prefix tests

  /** An address block: the numbers with the leading bits `prefix`, `size` of them. */
  datatype Block = Block(prefix: int, size: int) {
    predicate Contains(address: int) {
      prefix * size <= address < (prefix + 1) * size
    }
  }

  function Number32(v4: seq<Byte>): int
    requires |v4| >= 4
  {
    var a: int, b: int, c: int := v4[0], v4[1], v4[2];
    a * 0x1000000 + b * 0x10000 + c * 0x100 + v4[3]
  }

  function Slash8(a: int): Block {
    Block(a, 0x1000000)
  }

  function Slash16(a: int, b: int): Block {
    Block(a * 0x100 + b, 0x10000)
  }

  function Slash24(a: int, b: int, c: int): Block {
    Block(a * 0x10000 + b * 0x100 + c, 0x100)
  }

  const SharedSpace := Block(100 * 4 + 1, 0x400000)   // 100.64.0.0/10
  const PrivateB := Block(172 * 16 + 1, 0x100000)     // 172.16.0.0/12
  const Benchmarking := Block(198 * 128 + 9, 0x20000) // 198.18.0.0/15
  const MulticastAndUp := Block(7, 0x20000000)        // 224.0.0.0/3

  predicate Special8(v4: seq<Byte>)
    requires |v4| >= 4
  {
    var n := Number32(v4);
    Slash8(0).Contains(n) || Slash8(10).Contains(n) || Slash8(127).Contains(n)
  }

  predicate Special16(v4: seq<Byte>)
    requires |v4| >= 4
  {
    Slash16(169, 254).Contains(Number32(v4)) || Slash16(192, 168).Contains(Number32(v4))
  }

  predicate Special24(v4: seq<Byte>)
    requires |v4| >= 4
  {
    var n := Number32(v4);
    || Slash24(192, 0, 0).Contains(n)
    || Slash24(192, 0, 2).Contains(n)
    || Slash24(192, 88, 99).Contains(n)
    || Slash24(198, 51, 100).Contains(n)
    || Slash24(203, 0, 113).Contains(n)
  }

  predicate SpecialOdd(v4: seq<Byte>)
    requires |v4| >= 4
  {
    var n := Number32(v4);
    SharedSpace.Contains(n) || PrivateB.Contains(n) || Benchmarking.Contains(n) || MulticastAndUp.Contains(n)
  }

  /** In one of the special-purpose blocks of IPv4. */
  predicate SpecialV4(v4: seq<Byte>)
    requires |v4| >= 4
  {
    Special8(v4) || Special16(v4) || Special24(v4) || SpecialOdd(v4)
  }

  /** Global unicast, and not for documentation: 2000::/3 without 2001:db8::/32. */
  predicate UnicastV6(v6: seq<Byte>)
    requires |v6| >= 4
  {
    Block(1, 0x20000000).Contains(Number32(v6)) && !Block(0x20010db8, 1).Contains(Number32(v6))
  }

  lemma Special24Iff(v4: seq<Byte>)
    requires |v4| == 4
    ensures var a, b, c := v4[0], v4[1], v4[2];
      Special24(v4) <==>
        || (a == 192 && b == 0 && (c == 0 || c == 2))
        || (a == 192 && b == 88 && c == 99)
        || (a == 198 && b == 51 && c == 100)
        || (a == 203 && b == 0 && c == 113)
  {
  }

  lemma SpecialOddIff(v4: seq<Byte>)
    requires |v4| == 4
    ensures var a, b := v4[0], v4[1];
      SpecialOdd(v4) <==>
        || (a == 100 && 64 <= b <= 127)
        || (a == 172 && 16 <= b <= 31)
        || (a == 198 && (b == 18 || b == 19))
        || a >= 224
  {
  }

  /** The byte tests decide membership in the special-purpose address blocks. */
  lemma PublicIffNoSpecialBlock(v4: seq<Byte>)
    requires |v4| == 4
    ensures IsPublicV4(v4) <==> !SpecialV4(v4)
  {
    var a, b, c := v4[0], v4[1], v4[2];
    assert Special8(v4) <==> a == 0 || a == 10 || a == 127;
    assert Special16(v4) <==> (a == 169 && b == 254) || (a == 192 && b == 168);
    Special24Iff(v4);
    SpecialOddIff(v4);
  }

  /** For IPv6: inside 2000::/3 and outside 2001:db8::/32, on the first 32 bits. */
  lemma PublicIffGlobalUnicast(v6: seq<Byte>)
    requires |v6| == 16
    ensures IsPublicUnmapped(v6) <==> UnicastV6(v6)
  {
  }

  /** Outside the special blocks: by the four bytes of an IPv4 address, by those of the
      address an IPv6 address maps, or by the first 32 bits of any other. */
  predicate OutsideSpecialBlocks(isIP: string -> int, address: string, other: Reading) {
    var v4, v6 := Ipv4Bytes(address, other), ParseV6(address, other);
    if isIP(address) == 4 then v4.Some? && !SpecialV4(v4.value)
    else
      && isIP(address) == 6 && v6.Some? && |v6.value| == 16
      && if v6.value == MappedBytes(v6.value[12..]) then !SpecialV4(v6.value[12..]) else UnicastV6(v6.value)
  }

  /** The classifier decides exactly this, where `isIP` knows dotted decimals. */
  lemma PublicIffOutside(isIP: string -> int, address: string, other: Reading)
    requires forall b: seq<Byte> :: |b| == 4 ==> isIP(Dotted(b)) == 4
    ensures IsPublic(isIP, address, other) <==> OutsideSpecialBlocks(isIP, address, other)
  {
    var v4, v6 := Ipv4Bytes(address, other), ParseV6(address, other);
    if isIP(address) == 4 {
      if v4.Some? { PublicIffNoSpecialBlock(v4.value); }
    } else if isIP(address) == 6 && v6.Some? {
      ParsedBytes(address, other);
      MappedForm(v6.value);
      if IsMapped(v6.value) {
        DottedReads(v6.value[12..], other);
        PublicIffNoSpecialBlock(v6.value[12..]);
      } else {
        PublicIffGlobalUnicast(v6.value);
      }
    }
  }

  lemma ParsedBytes(address: string, other: Reading)
    requires ParseV6(address, other).Some?
    ensures |ParseV6(address, other).value| == 16
  {
  }
}

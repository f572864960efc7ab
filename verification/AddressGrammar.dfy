/**
 The texts that `isIP` of Node takes for IPv4 and IPv6 addresses, as far as
 scripts/public-url-inspect.ts (lines 64-98) relies on it: with them the classification
 needs no assumption.
 */
module AddressGrammar {
  import opened Text
  import opened AddressText
  import opened PublicAddress

  /** Four decimal numbers up to 255, without leading zeros. */
  ghost predicate Ipv4Text(text: string) {
    exists b: seq<Byte> :: |b| == 4 && text == Dotted(b)
  }

  /** Eight groups, or fewer with `::` for at least one; and either with a dotted tail. */
  ghost predicate Ipv6Spelling(sp: Spelling) {
    match sp
    case Full(gs) => AllGroups(gs) && |gs| == 8
    case Elided(ls, rs) => AllGroups(ls) && AllGroups(rs) && |ls| + |rs| <= 7
    case FullDotted(gs, d) => AllGroups(gs) && |gs| == 6 && Ipv4Text(d)
    case ElidedDotted(ls, rs, d) => AllGroups(ls) && AllGroups(rs) && |ls| + |rs| <= 5 && Ipv4Text(d)
  }

  predicate IsZoneChar(c: char) {
    IsDigit(c) || 'a' <= c <= 'z' || 'A' <= c <= 'Z' || c == '-' || c == '.' || c == ':'
  }

  predicate IsZone(zone: Option<string>) {
    zone.Some? ==> zone.value != "" && forall i :: 0 <= i < |zone.value| ==> IsZoneChar(zone.value[i])
  }

  /** Such a text in any case, and perhaps a zone. */
  ghost predicate Reads(text: string, sp: Spelling, body: string, zone: Option<string>) {
    Ipv6Spelling(sp) && Lower(body) == Spell(sp) && IsZone(zone) && text == WithZone(body, zone)
  }

  ghost predicate Ipv6Text(text: string) {
    exists sp, body, zone :: Reads(text, sp, body, zone)
  }

  /** `isIP(text)` */
  ghost function IsIP(text: string): int {
    if Ipv4Text(text) then 4 else if Ipv6Text(text) then 6 else 0
  }

  lemma Ipv4TextReads(d: string, other: Reading)
    requires Ipv4Text(d)
    ensures IsDotted(d, other) && IsPrinted(d)
  {
    var b: seq<Byte> :| |b| == 4 && d == Dotted(b);
    DottedReads(b, other);
    DottedIsPrinted(b);
  }

  lemma GrammarSpells(sp: Spelling, other: Reading)
    requires Ipv6Spelling(sp)
    ensures IsSpelling(sp, other) && IsPrinted(Spell(sp))
  {
    if sp.FullDotted? || sp.ElidedDotted? { Ipv4TextReads(sp.dotted, other); }
    SpellingIsPrinted(sp);
  }

  /** Every text taken for an IPv6 address parses, to the sixteen bytes of its text form. */
  lemma ReadsParses(text: string, sp: Spelling, body: string, zone: Option<string>, other: Reading)
    requires Reads(text, sp, body, zone)
    ensures IsSpelling(sp, other) && ParseV6(text, other) == Some(Meaning(sp, other))
  {
    GrammarSpells(sp, other);
    PrintedIsPlain(Spell(sp));
    SameLetters(body, '%');
    ZoneAndCaseIgnored(body, if zone.Some? then zone.value else "", other);
    SpellingParses(sp, other);
  }

  /** The parser reads all that `isIP` takes for an IPv6 address. */
  lemma Ipv6TextParses(text: string, other: Reading)
    requires IsIP(text) == 6
    ensures ParseV6(text, other).Some?
  {
    var sp, body, zone :| Reads(text, sp, body, zone);
    ReadsParses(text, sp, body, zone, other);
  }

  lemma DottedIsIpv4(b: seq<Byte>)
    requires |b| == 4
    ensures IsIP(Dotted(b)) == 4
  {
  }

  lemma ReadsIsIpv6(text: string, sp: Spelling, body: string, zone: Option<string>, other: Reading)
    requires Reads(text, sp, body, zone)
    ensures IsIP(text) == 6
  {
    ReadsParses(text, sp, body, zone, other);
    if Ipv4Text(text) {
      var b: seq<Byte> :| |b| == 4 && text == Dotted(b);
      DottedHasNoColon(b);
      ParseNeedsColon(text, other);
      assert false;
    }
  }

  /** Printed with a run of at least one zero group elided, or in full, groups are an address. */
  lemma PrintedIsIpv6(g: seq<Word16>, i: nat, j: nat, text: string, zone: Option<string>, other: Reading)
    requires ZeroRun(g, i, j) && i < j && Prints(g, i, j, Lower(text)) && IsZone(zone)
    ensures IsIP(WithZone(text, zone)) == 6
  {
    var sp := FormOf(g, i, j, Lower(text));
    ReadsIsIpv6(WithZone(text, zone), sp, text, zone, other);
  }

  lemma FormOf(g: seq<Word16>, i: nat, j: nat, form: string) returns (sp: Spelling)
    requires |g| == 8 && i < j <= 8 && Prints(g, i, j, form)
    ensures Ipv6Spelling(sp) && Spell(sp) == form
  {
    var d := Dotted(BigEndian(g[6..]));
    if form == Spell(Full(HexGroups(g))) {
      sp := Full(HexGroups(g));
    } else if form == Spell(Elided(HexGroups(g[..i]), HexGroups(g[j..]))) {
      sp := Elided(HexGroups(g[..i]), HexGroups(g[j..]));
    } else if form == Spell(FullDotted(HexGroups(g[..6]), d)) {
      sp := FullDotted(HexGroups(g[..6]), d);
    } else {
      sp := ElidedDotted(HexGroups(g[..i]), HexGroups(g[j..6]), d);
    }
  }

  /** Classification commutes with mapping, for every printed form of every mapped address, in any
      case and with any zone. */
  lemma MappedFormsClassified(v4: seq<Byte>, i: nat, j: nat, text: string, zone: Option<string>, other: Reading)
    requires |v4| == 4 && ZeroRun(MappedGroups(v4), i, j) && i < j && Prints(MappedGroups(v4), i, j, Lower(text)) && IsZone(zone)
    ensures IsPublic(IsIP, WithZone(text, zone), other) == IsPublic(IsIP, Dotted(v4), other) == IsPublicV4(v4)
  {
    DottedIsIpv4(v4);
    PrintedIsIpv6(MappedGroups(v4), i, j, text, zone, other);
    MappedFormsCommute(IsIP, v4, i, j, text, zone, other);
  }

  /** In particular for the two usual texts. */
  lemma MappedTextsClassified(v4: seq<Byte>, other: Reading)
    requires |v4| == 4
    ensures IsPublic(IsIP, MappedHex(v4), other) == IsPublic(IsIP, Dotted(v4), other) == IsPublicV4(v4)
    ensures IsPublic(IsIP, MappedDotted(v4), other) == IsPublicV4(v4)
  {
    MappedHexIsPrinted(v4);
    MappedDottedIsPrinted(v4);
    FormIsPrinted(MappedGroups(v4), 0, 5, MappedHex(v4));
    FormIsPrinted(MappedGroups(v4), 0, 5, MappedDotted(v4));
    PrintedIsPlain(MappedHex(v4));
    PrintedIsPlain(MappedDotted(v4));
    MappedFormsClassified(v4, 0, 5, MappedHex(v4), None, other);
    MappedFormsClassified(v4, 0, 5, MappedDotted(v4), None, other);
  }

  /** The bytes an address text stands for are outside the special blocks. */
  ghost predicate StandsOutside(address: string, other: Reading) {
    || (exists b: seq<Byte> :: |b| == 4 && address == Dotted(b) && !SpecialV4(b))
    || (exists sp, body, zone :: Reads(address, sp, body, zone) && IsSpelling(sp, other) && OutsideV6(Meaning(sp, other)))
  }

  /** For an IPv6 address: an address that is mapped to is judged by itself. */
  predicate OutsideV6(v6: seq<Byte>) {
    |v6| == 16 && if v6 == MappedBytes(v6[12..]) then !SpecialV4(v6[12..]) else UnicastV6(v6)
  }

  lemma JudgedV6(address: string, sp: Spelling, body: string, zone: Option<string>, other: Reading)
    requires Reads(address, sp, body, zone)
    ensures IsSpelling(sp, other) && (IsPublic(IsIP, address, other) <==> OutsideV6(Meaning(sp, other)))
  {
    forall b: seq<Byte> | |b| == 4 ensures IsIP(Dotted(b)) == 4 { DottedIsIpv4(b); }
    ReadsParses(address, sp, body, zone, other);
    ReadsIsIpv6(address, sp, body, zone, other);
    ParsedBytes(address, other);
    PublicIffOutside(IsIP, address, other);
  }

  lemma JudgedV4(b: seq<Byte>, other: Reading)
    requires |b| == 4
    ensures IsPublic(IsIP, Dotted(b), other) <==> !SpecialV4(b)
  {
    DottedIsIpv4(b);
    DottedReads(b, other);
    PublicIffNoSpecialBlock(b);
  }

  /** The classifier accepts exactly the texts of addresses outside the special blocks. */
  lemma PublicIffStandsOutside(address: string, other: Reading)
    ensures IsPublic(IsIP, address, other) <==> StandsOutside(address, other)
  {
    forall b: seq<Byte> | |b| == 4 && address == Dotted(b) ensures IsPublic(IsIP, address, other) <==> !SpecialV4(b) {
      JudgedV4(b, other);
    }
    forall sp, body, zone | Reads(address, sp, body, zone)
      ensures IsSpelling(sp, other) && (IsPublic(IsIP, address, other) <==> OutsideV6(Meaning(sp, other)))
    {
      JudgedV6(address, sp, body, zone, other);
    }
    if IsPublic(IsIP, address, other) {
      assert Ipv4Text(address) || Ipv6Text(address);
    }
  }

  // ----- texts with letters and digits, read by place

  /** Four numbers between dots are the four bytes, in this order. */
  lemma DottedText(a: Byte, b: Byte, c: Byte, d: Byte, other: Reading)
    ensures var text := Decimal(a) + "." + Decimal(b) + "." + Decimal(c) + "." + Decimal(d);
      && Ipv4Bytes(text, other) == Some([a, b, c, d])
      && (IsPublic(IsIP, text, other) <==> !SpecialV4([a, b, c, d]))
  {
    DottedSpelled(a, b, c, d);
    DottedReads([a, b, c, d], other);
    JudgedV4([a, b, c, d], other);
  }

  predicate DigitText(s: string) {
    s != "" && AllDigits(s)
  }

  lemma NoDot(s: string)
    requires DigitText(s)
    ensures '.' !in s
  {
  }

  lemma DottedSplits(p: string, q: string, r: string, s: string)
    requires DigitText(p) && DigitText(q) && DigitText(r) && DigitText(s)
    ensures Split(p + "." + q + "." + r + "." + s, '.') == [p, q, r, s]
  {
    FourParts(p, q, r, s);
    JoinFour(p, q, r, s, '.');
    NoDot(p);
    NoDot(q);
    NoDot(r);
    NoDot(s);
    SplitJoin([p, q, r, s], '.');
  }

  predicate FourDigitTexts(parts: seq<string>) {
    |parts| == 4 && DigitText(parts[0]) && DigitText(parts[1]) && DigitText(parts[2]) && DigitText(parts[3])
  }

  function ValuesOf(parts: seq<string>): seq<nat>
    requires FourDigitTexts(parts)
  {
    [DecValue(parts[0]), DecValue(parts[1]), DecValue(parts[2]), DecValue(parts[3])]
  }

  lemma OctetsRead(parts: seq<string>, other: Reading)
    requires FourDigitTexts(parts)
    ensures AllBytes(parts, other) <==> forall i :: 0 <= i < 4 ==> ValuesOf(parts)[i] < 256
    ensures AllBytes(parts, other) ==> ReadOctets(parts, other) == ValuesOf(parts)
  {
    assert AllBytes(parts, other) <==>
      && NumberByte(parts[0], other).Some? && NumberByte(parts[1], other).Some?
      && NumberByte(parts[2], other).Some? && NumberByte(parts[3], other).Some?;
    var v := ValuesOf(parts);
    assert v[0] == DecValue(parts[0]) && v[1] == DecValue(parts[1]) && v[2] == DecValue(parts[2]) && v[3] == DecValue(parts[3]);
    assert (forall i :: 0 <= i < 4 ==> v[i] < 256) <==> v[0] < 256 && v[1] < 256 && v[2] < 256 && v[3] < 256;
  }

  /** And so are four texts of digits, leading zeros or not, if none stands for 256 or more. */
  lemma DottedDigits(parts: seq<string>, other: Reading)
    requires FourDigitTexts(parts)
    ensures var read := Ipv4Bytes(parts[0] + "." + parts[1] + "." + parts[2] + "." + parts[3], other);
      && (read.Some? <==> forall i :: 0 <= i < 4 ==> ValuesOf(parts)[i] < 256)
      && (read.Some? ==> read.value == ValuesOf(parts))
  {
    DottedSplits(parts[0], parts[1], parts[2], parts[3]);
    assert [parts[0], parts[1], parts[2], parts[3]] == parts;
    OctetsRead(parts, other);
  }

  lemma JoinFirst(p: string, rest: seq<string>, c: char)
    requires rest != []
    ensures Join([p] + rest, c) == p + [c] + Join(rest, c)
  {
    assert ([p] + rest)[1..] == rest;
  }

  lemma JoinFour(p: string, q: string, r: string, s: string, c: char)
    ensures Join([p, q, r, s], c) == p + [c] + (q + [c] + (r + [c] + s))
  {
    JoinFirst(r, [s], c);
    JoinFirst(q, [r, s], c);
    JoinFirst(p, [q, r, s], c);
    assert [r] + [s] == [r, s] && [q] + [r, s] == [q, r, s] && [p] + [q, r, s] == [p, q, r, s];
  }

  lemma FourParts(p: string, q: string, r: string, s: string)
    ensures p + "." + q + "." + r + "." + s == p + "." + (q + "." + (r + "." + s))
  {
  }

  lemma DottedSpelled(a: Byte, b: Byte, c: Byte, d: Byte)
    ensures Dotted([a, b, c, d]) == Decimal(a) + "." + Decimal(b) + "." + Decimal(c) + "." + Decimal(d)
  {
    JoinFour(Decimal(a), Decimal(b), Decimal(c), Decimal(d), '.');
    FourParts(Decimal(a), Decimal(b), Decimal(c), Decimal(d));
  }

  lemma TwoGroupBytes(g0: string, g1: string)
    requires IsGroup(g0) && IsGroup(g1)
    ensures GroupBytes([g0, g1]) == [HexValue(g0) / 256, HexValue(g0) % 256, HexValue(g1) / 256, HexValue(g1) % 256]
  {
    assert [g0, g1][..1] == [g0] && [g0][..0] == [];
    assert GroupBytes([g0]) == [] + [HexValue(g0) / 256, HexValue(g0) % 256];
  }

  lemma MappedStartsWithZeros(v4: seq<Byte>)
    requires |v4| == 4
    ensures |MappedBytes(v4)| == 16 && MappedBytes(v4)[0] == 0 && MappedBytes(v4)[1] == 0
  {
    ZeroBytesAreZero(10);
  }

  /** The judgement on bytes with the given first two groups. */
  lemma LeadingBytesDecide(v6: seq<Byte>, h0: nat, h1: nat)
    requires |v6| == 16 && 0 < h0 < 0x10000 && h1 < 0x10000
    requires v6[0] == h0 / 256 && v6[1] == h0 % 256 && v6[2] == h1 / 256 && v6[3] == h1 % 256
    ensures OutsideV6(v6) <==> 0x2000 <= h0 <= 0x3fff && !(h0 == 0x2001 && h1 == 0xdb8)
  {
    MappedStartsWithZeros(v6[12..]);
    PublicIffGlobalUnicast(v6);
  }

  /** Which addresses with a first group other than zero are public, by the values of their first
      two groups: in any case of letters, and whatever the other groups are. */
  lemma LeadingGroupsDecide(g0: string, g1: string, gs: seq<string>, text: string, other: Reading)
    requires IsGroup(g0) && IsGroup(g1) && AllGroups(gs) && |gs| == 6 && HexValue(g0) > 0
    requires Lower(text) == Join([g0, g1] + gs, ':')
    ensures IsPublic(IsIP, text, other)
       <==> 0x2000 <= HexValue(g0) <= 0x3fff && !(HexValue(g0) == 0x2001 && HexValue(g1) == 0xdb8)
  {
    var all := [g0, g1] + gs;
    var v6 := LeadingBytes(g0, g1, gs, all);
    FullIsJudged(all, text, other);
    LeadingBytesDecide(v6, HexValue(g0), HexValue(g1));
  }

  lemma LeadingBytes(g0: string, g1: string, gs: seq<string>, all: seq<string>) returns (v6: seq<Byte>)
    requires IsGroup(g0) && IsGroup(g1) && AllGroups(gs) && |gs| == 6 && all == [g0, g1] + gs
    ensures AllGroups(all) && v6 == GroupBytes(all) && |v6| == 16
    ensures v6[0] == HexValue(g0) / 256 && v6[1] == HexValue(g0) % 256
    ensures v6[2] == HexValue(g1) / 256 && v6[3] == HexValue(g1) % 256
  {
    TwoGroupBytes(g0, g1);
    GroupBytesConcat([g0, g1], gs);
    v6 := GroupBytes([g0, g1]) + GroupBytes(gs);
  }

  lemma FullIsJudged(gs: seq<string>, text: string, other: Reading)
    requires AllGroups(gs) && |gs| == 8 && Lower(text) == Join(gs, ':')
    ensures IsPublic(IsIP, text, other) <==> OutsideV6(GroupBytes(gs))
  {
    JudgedV6(text, Full(gs), text, None, other);
  }

  lemma HexThree(s: string)
    requires |s| == 3 && AllHex(s)
    ensures HexValue(s) == HexDigit(s[0]) * 256 + HexDigit(s[1]) * 16 + HexDigit(s[2])
  {
    assert s[..2][..1] == [s[0]] && [s[0]][..0] == "" && s[..2][1] == s[1];
    assert HexValue([s[0]]) == HexDigit(s[0]);
  }

  lemma LiteralGroups()
    ensures AllHex("2001") && HexValue("2001") == 0x2001
    ensures AllHex("db8") && HexValue("db8") == 0xdb8
    ensures AllHex("da8") && HexValue("da8") == 0xda8
  {
    HexThree("200");
    HexThree("db8");
    HexThree("da8");
    var t := "2001";
    assert t[..3] == "200";
  }

  lemma PairJoin(g0: string, g1: string, gs: seq<string>)
    requires gs != []
    ensures Join([g0, g1] + gs, ':') == g0 + ":" + g1 + ":" + Join(gs, ':')
  {
    JoinConcat([g0, g1], gs, ':');
    JoinPair(g0, g1);
  }

  lemma GroupsAreLower(text: string, gs: seq<string>)
    requires AllGroups(gs) && text == Join(gs, ':')
    ensures Lower(text) == text
  {
    GroupsArePrinted(gs);
    PrintedIsPlain(text);
  }

  lemma TwoLiteralGroups(g0: string, g1: string, gs: seq<string>, text: string, other: Reading)
    requires IsGroup(g0) && IsGroup(g1) && AllGroups(gs) && |gs| == 6 && HexValue(g0) > 0
    requires text == g0 + ":" + g1 + ":" + Join(gs, ':')
    ensures IsPublic(IsIP, text, other)
       <==> 0x2000 <= HexValue(g0) <= 0x3fff && !(HexValue(g0) == 0x2001 && HexValue(g1) == 0xdb8)
  {
    PairJoin(g0, g1, gs);
    GroupsAreLower(text, [g0, g1] + gs);
    LeadingGroupsDecide(g0, g1, gs, text, other);
  }

  lemma DocumentationText(rest: string)
    ensures "2001:db8:" + rest == "2001" + ":" + "db8" + ":" + rest
  {
  }

  lemma NeighbourText(rest: string)
    ensures "2001:da8:" + rest == "2001" + ":" + "da8" + ":" + rest
  {
  }

  /** Documentation addresses are not public. */
  lemma DocumentationIsBlocked(gs: seq<string>, other: Reading)
    requires AllGroups(gs) && |gs| == 6
    ensures !IsPublic(IsIP, "2001:db8:" + Join(gs, ':'), other)
  {
    LiteralGroups();
    DocumentationText(Join(gs, ':'));
    TwoLiteralGroups("2001", "db8", gs, "2001:db8:" + Join(gs, ':'), other);
  }

  /** Those of the network 2001:da8, which differ in one letter, are. */
  lemma NeighbourIsPublic(gs: seq<string>, other: Reading)
    requires AllGroups(gs) && |gs| == 6
    ensures IsPublic(IsIP, "2001:da8:" + Join(gs, ':'), other)
  {
    LiteralGroups();
    NeighbourText(Join(gs, ':'));
    TwoLiteralGroups("2001", "da8", gs, "2001:da8:" + Join(gs, ':'), other);
  }
}

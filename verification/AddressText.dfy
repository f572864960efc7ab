/**
 Reading IPv4 and IPv6 address texts (scripts/public-url-inspect.ts, lines 32-62),
 against the text forms of section 2.2 of RFC 4291.
 */
module AddressText {
  import opened Text

  type Byte = x: int | 0 <= x < 256

  /** The byte, if any, that `Number` makes of a text which is not a plain string of
      digits (white space, a sign, an exponent, a radix prefix, ...). Left arbitrary. */
  type Reading = string -> Option<Byte>

  function NumberByte(part: string, other: Reading): Option<Byte> {
    if part != "" && AllDigits(part) then
      if DecValue(part) < 256 then Some(DecValue(part)) else None
    else other(part)
  }

  predicate AllBytes(parts: seq<string>, other: Reading) {
    forall i :: 0 <= i < |parts| ==> NumberByte(parts[i], other).Some?
  }

  function ReadOctets(parts: seq<string>, other: Reading): (bs: seq<Byte>)
    requires |parts| == 4 && AllBytes(parts, other)
    ensures |bs| == 4
  {
    [NumberByte(parts[0], other).value, NumberByte(parts[1], other).value,
     NumberByte(parts[2], other).value, NumberByte(parts[3], other).value]
  }

  function Ipv4Bytes(value: string, other: Reading): (bs: Option<seq<Byte>>)
    ensures bs.Some? ==> |bs.value| == 4
  {
    var parts := Split(value, '.');
    if |parts| == 4 && AllBytes(parts, other) then
      Some(ReadOctets(parts, other))
    else None
  }

  predicate IsHexDigit(c: char) {
    IsDigit(c) || 'a' <= c <= 'f'
  }

  function HexDigit(c: char): (n: nat)
    requires IsHexDigit(c)
    ensures n < 16
  {
    if IsDigit(c) then c as int - '0' as int else c as int - 'a' as int + 10
  }

  function HexChar(n: nat): (c: char)
    requires n < 16
    ensures IsHexDigit(c) && HexDigit(c) == n
  {
    if n < 10 then ('0' as int + n) as char else ('a' as int + n - 10) as char
  }

  predicate AllHex(s: string) {
    forall i :: 0 <= i < |s| ==> IsHexDigit(s[i])
  }

  /** `Number.parseInt(s, 16)` */
  function HexValue(s: string): (n: nat)
    requires AllHex(s)
    ensures |s| <= 1 ==> n < 0x10
    ensures |s| <= 2 ==> n < 0x100
    ensures |s| <= 3 ==> n < 0x1000
    ensures |s| <= 4 ==> n < 0x10000
  {
    if s == "" then 0 else HexValue(s[..|s| - 1]) * 16 + HexDigit(s[|s| - 1])
  }

  /** `n.toString(16)` */
  function HexText(n: nat): (s: string)
    ensures s != "" && AllHex(s) && HexValue(s) == n
    ensures n < 0x10 ==> |s| <= 1
    ensures n < 0x100 ==> |s| <= 2
    ensures n < 0x1000 ==> |s| <= 3
    ensures n < 0x10000 ==> |s| <= 4
  {
    var d := [HexChar(n % 16)];
    if n < 16 then d
    else
      var h := HexText(n / 16);
      assert (h + d)[..|h + d| - 1] == h;
      h + d
  }

  /** `/^[0-9a-f]{1,4}$/` */
  predicate IsGroup(g: string) {
    1 <= |g| <= 4 && AllHex(g)
  }

  predicate AllGroups(gs: seq<string>) {
    forall i :: 0 <= i < |gs| ==> IsGroup(gs[i])
  }

  function GroupBytes(gs: seq<string>): (bs: seq<Byte>)
    requires AllGroups(gs)
    ensures |bs| == 2 * |gs|
  {
    if gs == [] then []
    else GroupBytes(gs[..|gs| - 1]) + [HexValue(gs[|gs| - 1]) / 256, HexValue(gs[|gs| - 1]) % 256]
  }

  /** `s.split("::")` */
  function Halves(s: string): (hs: seq<string>)
    ensures |hs| >= 1
    decreases |s|
  {
    var k := IndexOf(s, "::");
    if k == -1 then [s] else [s[..k]] + Halves(s[k + 2..])
  }

  function Pieces(half: string): seq<string> {
    if half == "" then [] else Split(half, ':')
  }

  function Word(hi: Byte, lo: Byte): (w: nat)
    ensures w < 0x10000 && w / 256 == hi && w % 256 == lo
  {
    hi * 256 + lo
  }

  /** Four bytes as two hexadecimal groups. */
  function HexTail(v4: seq<Byte>): string
    requires |v4| == 4
  {
    ":" + TailGroups(v4)[0] + ":" + TailGroups(v4)[1]
  }

  function TailGroups(v4: seq<Byte>): (gs: seq<string>)
    requires |v4| == 4
    ensures |gs| == 2 && AllGroups(gs)
  {
    [HexText(Word(v4[0], v4[1])), HexText(Word(v4[2], v4[3]))]
  }

  /** `pre:tail` with `tail`, if it is dotted decimal, rewritten as hexadecimal groups. */
  function Rewrite(pre: string, tail: string, other: Reading): string {
    var v4 := Ipv4Bytes(tail, other);
    if v4.None? then pre + (":" + tail) else pre + HexTail(v4.value)
  }

  /** The text with a dotted-decimal tail rewritten as two hexadecimal groups. */
  function HexSource(w: string, other: Reading): string {
    var k := LastIndexOf(w, ':');
    if k == -1 then w else Rewrite(w[..k], w[k + 1..], other)
  }

  function Zeros(n: nat): (gs: seq<string>)
    ensures |gs| == n && AllGroups(gs)
  {
    if n == 0 then [] else Zeros(n - 1) + ["0"]
  }

  /** Two lists of groups, with as many zero groups between them as make eight. */
  function Fill(left: seq<string>, right: seq<string>): (gs: Option<seq<string>>)
    ensures gs.Some? ==> |gs.value| == 8
  {
    var missing := 8 - |left| - |right|;
    if missing < 0 then None else Some(left + Zeros(missing) + right)
  }

  /** The eight groups named by the parts of a source text around `::`, unchecked. */
  function GroupsOf(halves: seq<string>): (gs: Option<seq<string>>)
    requires |halves| >= 1
    ensures gs.Some? ==> |gs.value| == 8
  {
    if |halves| > 2 then None
    else if |halves| == 2 then Fill(Pieces(halves[0]), Pieces(halves[1]))
    else if |Pieces(halves[0])| == 8 then Some(Pieces(halves[0]))
    else None
  }

  function Groups(source: string): (gs: Option<seq<string>>)
    ensures gs.Some? ==> |gs.value| == 8
  {
    GroupsOf(Halves(source))
  }

  function WithoutZone(value: string): string {
    Lower(Split(value, '%')[0])
  }

  function Checked(gs: Option<seq<string>>): Option<seq<Byte>> {
    if gs.Some? && AllGroups(gs.value) then Some(GroupBytes(gs.value)) else None
  }

  /** What `ipv6Bytes` makes of a text whose zone is gone and whose letters are small. */
  function ParsePlain(w: string, other: Reading): Option<seq<Byte>> {
    Checked(Groups(HexSource(w, other)))
  }

  function ParseV6(value: string, other: Reading): Option<seq<Byte>> {
    ParsePlain(WithoutZone(value), other)
  }

  lemma GroupBytesStep(gs: seq<string>, k: nat)
    requires k < |gs| && AllGroups(gs[..k]) && IsGroup(gs[k])
    ensures AllGroups(gs[..k + 1])
    ensures GroupBytes(gs[..k + 1]) == GroupBytes(gs[..k]) + [HexValue(gs[k]) / 256, HexValue(gs[k]) % 256]
  {
    assert gs[..k + 1][..k] == gs[..k];
  }

  /** The loop over the eight groups. */
  method CheckGroups(groups: seq<string>) returns (r: Option<seq<Byte>>)
    ensures r == if AllGroups(groups) then Some(GroupBytes(groups)) else None
  {
    var bytes: seq<Byte> := [];
    for k := 0 to |groups|
      invariant AllGroups(groups[..k])
      invariant bytes == GroupBytes(groups[..k])
    {
      if !IsGroup(groups[k]) { return None; }
      GroupBytesStep(groups, k);
      var parsed := HexValue(groups[k]);
      bytes := bytes + [parsed / 256, parsed % 256];
    }
    assert groups[..|groups|] == groups;
    return Some(bytes);
  }

  method Ipv6Bytes(value: string, other: Reading) returns (r: Option<seq<Byte>>)
    ensures r == ParseV6(value, other)
    ensures r.Some? ==> |r.value| == 16
  {
    var groups := Groups(HexSource(WithoutZone(value), other));
    if groups.None? { return None; }
    r := CheckGroups(groups.value);
  }

  /** The text forms of an IPv6 address: all eight groups, or one run of zero groups
      elided as `::`; and either with its last two groups in dotted decimal. The code
      lets `::` stand for an empty run too. */
  datatype Spelling =
    | Full(groups: seq<string>)
    | Elided(left: seq<string>, right: seq<string>)
    | FullDotted(groups: seq<string>, dotted: string)
    | ElidedDotted(left: seq<string>, right: seq<string>, dotted: string)

  predicate IsDotted(dotted: string, other: Reading) {
    ':' !in dotted && Ipv4Bytes(dotted, other).Some?
  }

  predicate IsSpelling(sp: Spelling, other: Reading) {
    match sp
    case Full(gs) => AllGroups(gs) && |gs| == 8
    case Elided(ls, rs) => AllGroups(ls) && AllGroups(rs) && |ls| + |rs| <= 8
    case FullDotted(gs, d) => AllGroups(gs) && |gs| == 6 && IsDotted(d, other)
    case ElidedDotted(ls, rs, d) => AllGroups(ls) && AllGroups(rs) && |ls| + |rs| <= 6 && IsDotted(d, other)
  }

  function Spell(sp: Spelling): string {
    match sp
    case Full(gs) => Join(gs, ':')
    case Elided(ls, rs) => Join(ls, ':') + ("::" + Join(rs, ':'))
    case FullDotted(gs, d) => Join(gs + [d], ':')
    case ElidedDotted(ls, rs, d) => Join(ls, ':') + ("::" + Join(rs + [d], ':'))
  }

  function ZeroBytes(n: nat): (bs: seq<Byte>)
    ensures |bs| == n
  {
    if n == 0 then [] else ZeroBytes(n - 1) + [0]
  }

  /** Sixteen bytes: the given ones, and zeros where they leave a gap. */
  function Padded(left: seq<Byte>, right: seq<Byte>): seq<Byte>
    requires |left| + |right| <= 16
  {
    left + ZeroBytes(16 - |left| - |right|) + right
  }

  /** The sixteen big-endian bytes a text form stands for. */
  function Meaning(sp: Spelling, other: Reading): seq<Byte>
    requires IsSpelling(sp, other)
  {
    match sp
    case Full(gs) => GroupBytes(gs)
    case Elided(ls, rs) => Padded(GroupBytes(ls), GroupBytes(rs))
    case FullDotted(gs, d) => GroupBytes(gs) + Ipv4Bytes(d, other).value
    case ElidedDotted(ls, rs, d) => Padded(GroupBytes(ls), GroupBytes(rs) + Ipv4Bytes(d, other).value)
  }

  // ----- how groups, joins and `::` interact

  lemma {:induction false} GroupBytesConcat(a: seq<string>, b: seq<string>)
    requires AllGroups(a) && AllGroups(b)
    ensures AllGroups(a + b)
    ensures GroupBytes(a + b) == GroupBytes(a) + GroupBytes(b)
  {
    if b == [] {
      assert a + b == a;
    } else {
      assert (a + b)[..|a + b| - 1] == a + b[..|b| - 1];
      GroupBytesConcat(a, b[..|b| - 1]);
    }
  }

  lemma {:induction false} ZeroGroupBytes(n: nat)
    ensures GroupBytes(Zeros(n)) == ZeroBytes(2 * n)
  {
    if n > 0 {
      GroupBytesConcat(Zeros(n - 1), ["0"]);
      ZeroGroupBytes(n - 1);
      assert ["0"][..0] == [];
      assert HexValue("0") == 0;
    }
  }

  predicate DoubleColon(s: string, j: int) {
    0 <= j < |s| - 1 && s[j] == ':' && s[j + 1] == ':'
  }

  lemma DoubleColonAt(s: string)
    ensures forall j :: At(s, "::", j) <==> DoubleColon(s, j)
  {
    forall j ensures At(s, "::", j) <==> DoubleColon(s, j) {
      if 0 <= j < |s| - 1 {
        assert s[j..j + 2] == [s[j], s[j + 1]];
      }
    }
  }

  /** Joined groups show no `::` and no colon at either end. */
  lemma {:induction false} JoinedGroups(gs: seq<string>)
    requires AllGroups(gs)
    ensures gs == [] <==> Join(gs, ':') == ""
    ensures forall j :: !DoubleColon(Join(gs, ':'), j)
    ensures gs != [] ==> Join(gs, ':')[0] != ':' && Join(gs, ':')[|Join(gs, ':')| - 1] != ':'
  {
    if |gs| > 1 {
      JoinedGroups(gs[1..]);
      var h, t := gs[0], Join(gs[1..], ':');
      var s := Join(gs, ':');
      assert s == h + ":" + t;
      forall j ensures !DoubleColon(s, j) {
        assert j > |h| ==> (DoubleColon(s, j) ==> DoubleColon(t, j - |h| - 1));
      }
    }
  }

  lemma PiecesOfJoin(gs: seq<string>)
    requires AllGroups(gs)
    ensures Pieces(Join(gs, ':')) == gs
  {
    JoinedGroups(gs);
    if gs != [] { SplitJoin(gs, ':'); }
  }

  lemma JoinOfPieces(half: string)
    ensures Join(Pieces(half), ':') == half
  {
    JoinSplit(half, ':');
  }

  lemma FullSource(gs: seq<string>)
    requires AllGroups(gs) && |gs| == 8
    ensures Groups(Join(gs, ':')) == Some(gs)
  {
    JoinedGroups(gs);
    DoubleColonAt(Join(gs, ':'));
    PiecesOfJoin(gs);
    assert Halves(Join(gs, ':')) == [Join(gs, ':')];
  }

  lemma FirstDoubleColon(s: string, k: nat)
    requires DoubleColon(s, k) && forall j :: 0 <= j < k ==> !DoubleColon(s, j)
    ensures IndexOf(s, "::") == k
  {
    DoubleColonAt(s);
    IndexOfUnique(s, "::", k);
  }

  lemma NoEarlier(l: string, s: string, j: int)
    requires !DoubleColon(l, j) && 0 <= j < |l| <= |s| && s[..|l|] == l && l[|l| - 1] != ':'
    ensures !DoubleColon(s, j)
  {
    assert s[j] == l[j];
    assert j + 1 < |l| ==> s[j + 1] == l[j + 1];
  }

  lemma GapIndex(l: string, r: string)
    requires forall j :: !DoubleColon(l, j)
    requires l != "" ==> l[|l| - 1] != ':'
    ensures IndexOf(l + ("::" + r), "::") == |l|
  {
    var s := l + ("::" + r);
    assert s[..|l|] == l;
    forall j | 0 <= j < |l| ensures !DoubleColon(s, j) {
      NoEarlier(l, s, j);
    }
    FirstDoubleColon(s, |l|);
  }

  lemma HalvesOfElided(l: string, r: string)
    requires forall j :: !DoubleColon(l, j)
    requires forall j :: !DoubleColon(r, j)
    requires l != "" ==> l[|l| - 1] != ':'
    ensures Halves(l + ("::" + r)) == [l, r]
  {
    GapIndex(l, r);
    DoubleColonAt(r);
    var s := l + ("::" + r);
    assert s[..|l|] == l && s[|l| + 2..] == r;
    assert Halves(r) == [r];
  }

  lemma ElidedHalves(ls: seq<string>, rs: seq<string>, l: string, r: string)
    requires AllGroups(ls) && AllGroups(rs) && l == Join(ls, ':') && r == Join(rs, ':')
    ensures Halves(l + ("::" + r)) == [l, r]
  {
    JoinedGroups(ls);
    JoinedGroups(rs);
    HalvesOfElided(l, r);
  }

  lemma ElidedSource(ls: seq<string>, rs: seq<string>)
    requires AllGroups(ls) && AllGroups(rs)
    ensures Groups(Join(ls, ':') + ("::" + Join(rs, ':'))) == Fill(ls, rs)
  {
    PiecesOfJoin(ls);
    PiecesOfJoin(rs);
    ElidedHalves(ls, rs, Join(ls, ':'), Join(rs, ':'));
  }

  // ----- dotted tails

  lemma TailGroupBytes(bytes: seq<Byte>)
    requires |bytes| == 4
    ensures GroupBytes(TailGroups(bytes)) == bytes
  {
    var gs := TailGroups(bytes);
    assert gs[..1][..0] == [];
  }

  lemma CutSource(pre: string, tail: string, other: Reading)
    requires ':' !in tail
    ensures HexSource(pre + (":" + tail), other) == Rewrite(pre, tail, other)
  {
    var w := pre + (":" + tail);
    LastIndexAfter(pre, ':', tail);
    assert w[..|pre|] == pre && w[|pre| + 1..] == tail;
  }

  lemma DottedSource(pre: string, dotted: string, other: Reading)
    requires IsDotted(dotted, other)
    ensures HexSource(pre + (":" + dotted), other) == pre + HexTail(Ipv4Bytes(dotted, other).value)
  {
    CutSource(pre, dotted, other);
  }

  /** A group ends the text, so there is no dotted tail. */
  lemma UndottedSource(pre: string, tail: string, other: Reading)
    requires ':' !in tail && '.' !in tail
    ensures HexSource(pre + (":" + tail), other) == pre + (":" + tail)
  {
    CutSource(pre, tail, other);
    SplitNone(tail, '.');
  }

  lemma JoinLast(gs: seq<string>, last: string)
    ensures gs != [] ==> Join(gs + [last], ':') == Join(gs, ':') + (":" + last)
    ensures gs == [] ==> Join(gs + [last], ':') == last
  {
    if gs == [] {
      assert gs + [last] == [last];
    } else {
      JoinConcat(gs, [last], ':');
      assert Join(gs, ':') + ":" + last == Join(gs, ':') + (":" + last);
    }
  }

  // ----- every text form parses to its meaning

  lemma HexJoinedSource(front: seq<string>, last: string, other: Reading)
    requires front != [] && IsGroup(last)
    ensures HexSource(Join(front + [last], ':'), other) == Join(front + [last], ':')
  {
    JoinLast(front, last);
    UndottedSource(Join(front, ':'), last, other);
  }

  lemma HexFullSource(gs: seq<string>, other: Reading)
    requires AllGroups(gs) && |gs| == 8
    ensures HexSource(Join(gs, ':'), other) == Join(gs, ':')
  {
    assert gs[..7] + [gs[7]] == gs;
    HexJoinedSource(gs[..7], gs[7], other);
  }

  /** What precedes the last colon of an elided form. */
  function BeforeLast(l: string, front: seq<string>): string {
    if front == [] then l + ":" else l + ("::" + Join(front, ':'))
  }

  lemma MoveColon(l: string, r: string, last: string)
    ensures l + ("::" + (r + (":" + last))) == (l + ("::" + r)) + (":" + last)
    ensures l + ("::" + last) == (l + ":") + (":" + last)
  {
  }

  /** An elided form, cut at its last colon. */
  lemma ElidedLast(l: string, front: seq<string>, last: string)
    ensures l + ("::" + Join(front + [last], ':')) == BeforeLast(l, front) + (":" + last)
  {
    JoinLast(front, last);
    MoveColon(l, Join(front, ':'), last);
  }

  lemma HexElidedSource(l: string, rs: seq<string>, other: Reading)
    requires AllGroups(rs)
    ensures HexSource(l + ("::" + Join(rs, ':')), other) == l + ("::" + Join(rs, ':'))
  {
    if rs == [] {
      MoveColon(l, "", "");
      UndottedSource(l + ":", "", other);
    } else {
      var front, last := rs[..|rs| - 1], rs[|rs| - 1];
      assert rs == front + [last];
      ElidedLast(l, front, last);
      UndottedSource(BeforeLast(l, front), last, other);
    }
  }

  lemma JoinTwo(gs: seq<string>, pair: seq<string>)
    requires gs != [] && |pair| == 2
    ensures Join(gs + pair, ':') == Join(gs, ':') + (":" + pair[0] + ":" + pair[1])
  {
    assert gs + pair == (gs + [pair[0]]) + [pair[1]];
    JoinLast(gs, pair[0]);
    JoinLast(gs + [pair[0]], pair[1]);
  }

  lemma FullDottedSource(gs: seq<string>, d: string, other: Reading)
    requires gs != [] && IsDotted(d, other)
    ensures HexSource(Join(gs + [d], ':'), other) == Join(gs + TailGroups(Ipv4Bytes(d, other).value), ':')
  {
    JoinLast(gs, d);
    DottedSource(Join(gs, ':'), d, other);
    JoinTwo(gs, TailGroups(Ipv4Bytes(d, other).value));
  }

  lemma ElidedTwo(l: string, rs: seq<string>, pair: seq<string>)
    requires |pair| == 2
    ensures l + ("::" + Join(rs + pair, ':')) == BeforeLast(l, rs) + (":" + pair[0] + ":" + pair[1])
  {
    assert rs + pair == (rs + [pair[0]]) + [pair[1]];
    ElidedLast(l, rs + [pair[0]], pair[1]);
    ElidedLast(l, rs, pair[0]);
    var a := BeforeLast(l, rs);
    assert a + (":" + pair[0]) + (":" + pair[1]) == a + (":" + pair[0] + ":" + pair[1]);
  }

  lemma ElidedDottedSource(l: string, rs: seq<string>, d: string, other: Reading)
    requires IsDotted(d, other)
    ensures HexSource(l + ("::" + Join(rs + [d], ':')), other)
         == l + ("::" + Join(rs + TailGroups(Ipv4Bytes(d, other).value), ':'))
  {
    ElidedLast(l, rs, d);
    DottedSource(BeforeLast(l, rs), d, other);
    ElidedTwo(l, rs, TailGroups(Ipv4Bytes(d, other).value));
  }

  /** The hexadecimal form of a text form. */
  function HexForm(sp: Spelling, other: Reading): Spelling
    requires IsSpelling(sp, other)
  {
    match sp
    case Full(_) => sp
    case Elided(_, _) => sp
    case FullDotted(gs, d) => Full(gs + TailGroups(Ipv4Bytes(d, other).value))
    case ElidedDotted(ls, rs, d) => Elided(ls, rs + TailGroups(Ipv4Bytes(d, other).value))
  }

  lemma HexFormSource(sp: Spelling, other: Reading)
    requires IsSpelling(sp, other)
    ensures HexSource(Spell(sp), other) == Spell(HexForm(sp, other))
  {
    match sp
    case Full(gs) => HexFullSource(gs, other);
    case Elided(ls, rs) => HexElidedSource(Join(ls, ':'), rs, other);
    case FullDotted(gs, d) => FullDottedSource(gs, d, other);
    case ElidedDotted(ls, rs, d) => ElidedDottedSource(Join(ls, ':'), rs, d, other);
  }

  lemma HexFormMeaning(sp: Spelling, other: Reading)
    requires IsSpelling(sp, other)
    ensures IsSpelling(HexForm(sp, other), other)
    ensures Meaning(HexForm(sp, other), other) == Meaning(sp, other)
  {
    match sp
    case Full(gs) =>
    case Elided(ls, rs) =>
    case FullDotted(gs, d) =>
      var tail := TailGroups(Ipv4Bytes(d, other).value);
      GroupBytesConcat(gs, tail);
      TailGroupBytes(Ipv4Bytes(d, other).value);
    case ElidedDotted(ls, rs, d) =>
      var tail := TailGroups(Ipv4Bytes(d, other).value);
      GroupBytesConcat(rs, tail);
      TailGroupBytes(Ipv4Bytes(d, other).value);
  }

  lemma FilledBytes(ls: seq<string>, n: nat, rs: seq<string>)
    requires AllGroups(ls) && AllGroups(rs)
    ensures AllGroups(ls + Zeros(n) + rs)
    ensures GroupBytes(ls + Zeros(n) + rs) == GroupBytes(ls) + ZeroBytes(2 * n) + GroupBytes(rs)
  {
    GroupBytesConcat(ls, Zeros(n));
    GroupBytesConcat(ls + Zeros(n), rs);
    ZeroGroupBytes(n);
  }

  lemma FillIs(ls: seq<string>, n: nat, rs: seq<string>)
    requires |ls| + n + |rs| == 8
    ensures Fill(ls, rs) == Some(ls + Zeros(n) + rs)
  {
    assert 8 - |ls| - |rs| == n;
  }

  lemma PaddedIs(l: seq<Byte>, n: nat, r: seq<Byte>)
    requires |l| + n + |r| == 16
    ensures Padded(l, r) == l + ZeroBytes(n) + r
  {
    assert 16 - |l| - |r| == n;
  }

  lemma FilledParses(ls: seq<string>, rs: seq<string>)
    requires AllGroups(ls) && AllGroups(rs) && |ls| + |rs| <= 8
    ensures Checked(Fill(ls, rs)) == Some(Padded(GroupBytes(ls), GroupBytes(rs)))
  {
    var n := 8 - |ls| - |rs|;
    FillIs(ls, n, rs);
    PaddedIs(GroupBytes(ls), 2 * n, GroupBytes(rs));
    FilledBytes(ls, n, rs);
  }

  lemma HexSpellingParses(sp: Spelling, other: Reading)
    requires (sp.Full? || sp.Elided?) && IsSpelling(sp, other)
    ensures Checked(Groups(Spell(sp))) == Some(Meaning(sp, other))
  {
    match sp
    case Full(gs) => FullSource(gs);
    case Elided(ls, rs) =>
      ElidedSource(ls, rs);
      FilledParses(ls, rs);
  }

  /** Completeness: every text form of section 2.2 parses to the bytes it stands for. */
  lemma SpellingParses(sp: Spelling, other: Reading)
    requires IsSpelling(sp, other)
    ensures ParsePlain(Spell(sp), other) == Some(Meaning(sp, other))
  {
    HexFormSource(sp, other);
    HexFormMeaning(sp, other);
    HexSpellingParses(HexForm(sp, other), other);
  }

  // ----- nothing else parses

  lemma FilledParts(ls: seq<string>, rs: seq<string>)
    requires Fill(ls, rs).Some? && AllGroups(Fill(ls, rs).value)
    ensures AllGroups(ls) && AllGroups(rs) && |ls| + |rs| <= 8
  {
    var gs, n := Fill(ls, rs).value, 8 - |ls| - |rs|;
    assert forall i :: 0 <= i < |ls| ==> gs[i] == ls[i];
    assert forall i :: 0 <= i < |rs| ==> gs[|ls| + n + i] == rs[i];
  }

  lemma TwoHalves(source: string, k: nat)
    requires IndexOf(source, "::") == k && |Halves(source)| <= 2
    ensures Halves(source) == [source[..k], source[k + 2..]]
  {
    assert Halves(source[k + 2..]) == [source[k + 2..]];
  }

  lemma Rejoined(source: string, k: nat)
    requires IndexOf(source, "::") == k
    ensures source == Join(Pieces(source[..k]), ':') + ("::" + Join(Pieces(source[k + 2..]), ':'))
  {
    JoinOfPieces(source[..k]);
    JoinOfPieces(source[k + 2..]);
  }

  lemma SourceSpelling(source: string, other: Reading) returns (sp: Spelling)
    requires Groups(source).Some? && AllGroups(Groups(source).value)
    ensures (sp.Full? || sp.Elided?) && IsSpelling(sp, other) && Spell(sp) == source
  {
    var k := IndexOf(source, "::");
    if k == -1 {
      assert Halves(source) == [source];
      JoinOfPieces(source);
      sp := Full(Pieces(source));
    } else {
      TwoHalves(source, k);
      FilledParts(Pieces(source[..k]), Pieces(source[k + 2..]));
      Rejoined(source, k);
      sp := Elided(Pieces(source[..k]), Pieces(source[k + 2..]));
    }
  }

  lemma CutTwo(a: string, pair: seq<string>, b: string, pair': seq<string>)
    requires |pair| == 2 && |pair'| == 2
    requires forall i :: 0 <= i < 2 ==> ':' !in pair[i] && ':' !in pair'[i]
    requires a + (":" + pair[0] + ":" + pair[1]) == b + (":" + pair'[0] + ":" + pair'[1])
    ensures a == b
  {
    assert a + (":" + pair[0] + ":" + pair[1]) == (a + (":" + pair[0])) + (":" + pair[1]);
    assert b + (":" + pair'[0] + ":" + pair'[1]) == (b + (":" + pair'[0])) + (":" + pair'[1]);
    CutLast(a + (":" + pair[0]), pair[1], ':', b + (":" + pair'[0]), pair'[1]);
    CutLast(a, pair[0], ':', b, pair'[0]);
  }

  /** Undoing the rewriting of a dotted tail, when the rewritten text is in full form. */
  lemma UndottedFull(gs: seq<string>, pre: string, tail: seq<string>)
    requires AllGroups(gs) && |gs| == 8 && AllGroups(tail) && |tail| == 2
    requires Join(gs, ':') == pre + (":" + tail[0] + ":" + tail[1])
    ensures pre == Join(gs[..6], ':')
  {
    assert gs == gs[..6] + gs[6..];
    JoinTwo(gs[..6], gs[6..]);
    CutTwo(Join(gs[..6], ':'), gs[6..], pre, tail);
  }

  /** A text whose last two pieces are groups has no empty piece there. */
  lemma ShortTail(l: string, x: string, y: string, pre: string, tail: seq<string>)
    requires ':' !in x && ':' !in y && AllGroups(tail) && |tail| == 2
    requires l + (":" + x + ":" + y) == pre + (":" + tail[0] + ":" + tail[1])
    ensures x != ""
  {
    assert l + (":" + x + ":" + y) == (l + (":" + x)) + (":" + y);
    assert pre + (":" + tail[0] + ":" + tail[1]) == (pre + (":" + tail[0])) + (":" + tail[1]);
    CutLast(l + (":" + x), y, ':', pre + (":" + tail[0]), tail[1]);
    CutLast(l, x, ':', pre, tail[0]);
  }

  lemma ShortJoin(rs: seq<string>)
    requires AllGroups(rs) && |rs| <= 1
    ensures ':' !in Join(rs, ':')
  {
  }

  lemma GapText(l: string, y: string)
    ensures l + ("::" + y) == l + (":" + "" + ":" + y)
  {
  }

  /** ... and when it is in elided form: both rewritten groups follow the `::`. */
  lemma BothAfterGap(l: string, rs: seq<string>, pre: string, tail: seq<string>)
    requires AllGroups(rs) && AllGroups(tail) && |tail| == 2
    requires l + ("::" + Join(rs, ':')) == pre + (":" + tail[0] + ":" + tail[1])
    ensures |rs| >= 2
  {
    if |rs| <= 1 {
      ShortJoin(rs);
      GapText(l, Join(rs, ':'));
      ShortTail(l, "", Join(rs, ':'), pre, tail);
    }
  }

  lemma UndottedElided(l: string, rs: seq<string>, pre: string, tail: seq<string>)
    requires AllGroups(rs) && |rs| >= 2 && AllGroups(tail) && |tail| == 2
    requires l + ("::" + Join(rs, ':')) == pre + (":" + tail[0] + ":" + tail[1])
    ensures pre == BeforeLast(l, rs[..|rs| - 2])
  {
    var front, pair := rs[..|rs| - 2], rs[|rs| - 2..];
    assert rs == front + pair;
    ElidedTwo(l, front, pair);
    CutTwo(BeforeLast(l, front), pair, pre, tail);
  }

  lemma UndotFull(pre: string, d: string, gs: seq<string>, other: Reading)
    requires IsDotted(d, other) && AllGroups(gs) && |gs| == 8
    requires Join(gs, ':') == pre + HexTail(Ipv4Bytes(d, other).value)
    ensures Spell(FullDotted(gs[..6], d)) == pre + (":" + d)
  {
    UndottedFull(gs, pre, TailGroups(Ipv4Bytes(d, other).value));
    JoinLast(gs[..6], d);
  }

  lemma UndotElided(pre: string, d: string, ls: seq<string>, rs: seq<string>, other: Reading)
    requires IsDotted(d, other) && AllGroups(rs)
    requires Join(ls, ':') + ("::" + Join(rs, ':')) == pre + HexTail(Ipv4Bytes(d, other).value)
    ensures |rs| >= 2 && Spell(ElidedDotted(ls, rs[..|rs| - 2], d)) == pre + (":" + d)
  {
    var l, tail := Join(ls, ':'), TailGroups(Ipv4Bytes(d, other).value);
    BothAfterGap(l, rs, pre, tail);
    UndottedElided(l, rs, pre, tail);
    ElidedLast(l, rs[..|rs| - 2], d);
  }

  lemma Undot(pre: string, d: string, hex: Spelling, other: Reading) returns (sp: Spelling)
    requires IsDotted(d, other)
    requires (hex.Full? || hex.Elided?) && IsSpelling(hex, other)
    requires Spell(hex) == pre + HexTail(Ipv4Bytes(d, other).value)
    ensures IsSpelling(sp, other) && Spell(sp) == pre + (":" + d)
  {
    match hex
    case Full(gs) =>
      UndotFull(pre, d, gs, other);
      sp := FullDotted(gs[..6], d);
    case Elided(ls, rs) =>
      UndotElided(pre, d, ls, rs, other);
      sp := ElidedDotted(ls, rs[..|rs| - 2], d);
  }

  lemma CutAtLast(w: string, k: nat)
    requires k < |w| && w[k] == ':'
    ensures w == w[..k] + (":" + w[k + 1..])
  {
  }

  lemma WholeSpelling(w: string, other: Reading) returns (sp: Spelling)
    requires LastIndexOf(w, ':') == -1 && ParsePlain(w, other).Some?
    ensures IsSpelling(sp, other) && Spell(sp) == w
  {
    sp := SourceSpelling(w, other);
  }

  lemma CutSpelling(pre: string, d: string, other: Reading) returns (sp: Spelling)
    requires ':' !in d && ParsePlain(pre + (":" + d), other).Some?
    ensures IsSpelling(sp, other) && Spell(sp) == pre + (":" + d)
  {
    CutSource(pre, d, other);
    sp := SourceSpelling(Rewrite(pre, d, other), other);
    if Ipv4Bytes(d, other).Some? {
      sp := Undot(pre, d, sp, other);
    }
  }

  /** Soundness: whatever parses is one of the text forms. */
  lemma ParsedIsSpelling(w: string, other: Reading) returns (sp: Spelling)
    requires ParsePlain(w, other).Some?
    ensures IsSpelling(sp, other) && Spell(sp) == w
  {
    var k := LastIndexOf(w, ':');
    if k == -1 {
      sp := WholeSpelling(w, other);
    } else {
      CutAtLast(w, k);
      sp := CutSpelling(w[..k], w[k + 1..], other);
    }
  }

  /** The parser and the text forms define each other: a text parses exactly when it is
      a text form, and then to that form's bytes. */
  lemma ParsesIffSpelling(w: string, other: Reading)
    ensures ParsePlain(w, other).Some? <==> exists sp :: IsSpelling(sp, other) && Spell(sp) == w
    ensures forall sp :: IsSpelling(sp, other) && Spell(sp) == w ==> ParsePlain(w, other) == Some(Meaning(sp, other))
  {
    forall sp | IsSpelling(sp, other) && Spell(sp) == w
      ensures ParsePlain(w, other) == Some(Meaning(sp, other))
    {
      SpellingParses(sp, other);
    }
    if ParsePlain(w, other).Some? {
      var sp := ParsedIsSpelling(w, other);
    }
  }
}

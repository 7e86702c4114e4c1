/**
 * Textual IP addresses as Go's net.ParseIP reads them and net.IP.String prints them: dotted quads
 * without leading zeros and the IPv6 forms of section 2.2 of RFC 4291, without zones. An address is
 * held as eight 16-bit groups; an IPv4 address is the IPv4-mapped address ::ffff:a.b.c.d.
 */
module NetIp {
  import opened Wrappers
  import opened Text

  type Groups = seq<nat>

  predicate IsAddress(g: Groups) {
    |g| == 8 && forall x | x in g :: x < 0x1_0000
  }

  /** The characters a valid address text is made of. */
  predicate IsAddressChar(c: char) {
    c == '.' || c == ':' || 0 <= DigitValue(c) < 16
  }

  // Reading.

  function Octet(s: string): Option<nat> {
    if IsNumeral(s, 10) && |s| <= 3 && (|s| == 1 || s[0] != '0') && Value(s, 10) < 256
    then Some(Value(s, 10))
    else None
  }

  function ParseV4(s: string): Option<seq<nat>> {
    var p := Split(s, '.');
    if |p| == 4 && Octet(p[0]).Some? && Octet(p[1]).Some? && Octet(p[2]).Some? && Octet(p[3]).Some?
    then Some([Octet(p[0]).value, Octet(p[1]).value, Octet(p[2]).value, Octet(p[3]).value])
    else None
  }

  predicate IsGroup(s: string) {
    IsNumeral(s, 16) && |s| <= 4
  }

  function ReadGroups(parts: seq<string>): (g: Groups)
    requires forall p | p in parts :: IsGroup(p)
    ensures |g| == |parts| && forall x | x in g :: x < 0x1_0000
  {
    if parts == [] then [] else
      GroupBound(parts[0]);
      [Value(parts[0], 16)] + ReadGroups(parts[1..])
  }

  lemma {:induction false} GroupBound(s: string)
    requires IsGroup(s)
    ensures Value(s, 16) < 0x1_0000
  {
    ValueBound(s);
  }

  /** Each further hexadecimal digit multiplies the range by sixteen. */
  lemma {:induction false} ValueBound(s: string)
    requires forall c | c in s :: 0 <= DigitValue(c) < 16
    requires |s| <= 4
    ensures Value(s, 16) <
      if |s| == 4 then 0x1_0000 else if |s| == 3 then 0x1000 else if |s| == 2 then 0x100 else if |s| == 1 then 16 else 1
    decreases |s|
  {
    if s != "" {
      var t := s[..|s| - 1];
      assert forall c | c in t :: c in s;
      assert s[|s| - 1] in s;
      ValueBound(t);
    }
  }

  /** Colon-separated groups, of which the last may be a dotted quad standing for two groups. */
  function ParseGroups(s: string): Option<Groups> {
    var p := Split(s, ':');
    var last := ParseV4(p[|p| - 1]);
    if exists q | q in p[..|p| - 1] :: !IsGroup(q) then None
    else if IsGroup(p[|p| - 1]) then
      assert p == p[..|p| - 1] + [p[|p| - 1]];
      Some(ReadGroups(p))
    else if last.Some? then Some(ReadGroups(p[..|p| - 1]) + Embed(last.value))
    else None
  }

  /** A dotted quad as two groups. */
  function Embed(b: seq<nat>): Groups
    requires |b| == 4
  {
    [b[0] * 256 + b[1], b[2] * 256 + b[3]]
  }

  /** The position of the first "::". */
  function Ellipsis(s: string): (i: Option<nat>)
    ensures i.Some? ==> i.value + 1 < |s| && s[i.value] == ':' && s[i.value + 1] == ':'
  {
    if |s| < 2 then None
    else if s[0] == ':' && s[1] == ':' then Some(0)
    else match Ellipsis(s[1..])
      case None => None
      case Some(i) => Some(i + 1)
  }

  function Zeros(n: nat): Groups {
    seq(n, _ => 0)
  }

  function ParseV6(s: string): Option<Groups> {
    match Ellipsis(s)
    case None =>
      var g := ParseGroups(s);
      if g.Some? && |g.value| == 8 then g else None
    case Some(i) =>
      var l, r := s[..i], s[i + 2..];
      var left := if l == "" then Some([]) else ParseGroups(l);
      var right := if r == "" then Some([]) else ParseGroups(r);
      // A dotted quad may only end the address, and "::" stands for at least one group.
      if left.Some? && '.' !in l && right.Some? && |left.value| + |right.value| <= 7
      then Some(left.value + Zeros(8 - |left.value| - |right.value|) + right.value)
      else None
  }

  function MappedPrefix(): Groups {
    [0, 0, 0, 0, 0, 0xffff]
  }

  /** net.ParseIP: None stands for nil. */
  function ParseIP(s: string): Option<Groups> {
    if ':' in s then ParseV6(s)
    else match ParseV4(s)
      case None => None
      case Some(b) => Some(MappedPrefix() + Embed(b))
  }

  lemma ParseGroupsBounds(s: string)
    requires ParseGroups(s).Some?
    ensures forall x | x in ParseGroups(s).value :: x < 0x1_0000
  {
  }

  lemma ParsedIsAddress(s: string)
    requires ParseIP(s).Some?
    ensures IsAddress(ParseIP(s).value)
  {
    hide ParseGroups, Ellipsis, Octet, Split;
    if ':' !in s {
      V4Bytes(s);
      var b := ParseV4(s).value;
      assert forall i | 0 <= i < 4 :: b[i] in b;
      assert ParseIP(s).value == MappedPrefix() + Embed(b);
    } else if Ellipsis(s).None? {
      ParseGroupsBounds(s);
    } else {
      var i := Ellipsis(s).value;
      var l, r := s[..i], s[i + 2..];
      if l != "" { ParseGroupsBounds(l); }
      if r != "" { ParseGroupsBounds(r); }
    }
  }

  lemma V4Bytes(s: string)
    requires ParseV4(s).Some?
    ensures |ParseV4(s).value| == 4 && forall x | x in ParseV4(s).value :: x < 256
  {
  }

  // Every character of a parsed text is an address character.

  lemma V4Chars(s: string)
    requires ParseV4(s).Some?
    ensures s != "" && forall c | c in s :: IsAddressChar(c) && c != ':'
  {
    forall c | c in s
      ensures IsAddressChar(c) && c != ':'
    {
      SplitChars(s, '.', c);
      assert forall q | q in Split(s, '.') :: Octet(q).Some?;
    }
  }

  lemma GroupsChars(s: string)
    requires ParseGroups(s).Some?
    ensures forall c | c in s :: IsAddressChar(c)
  {
    var p := Split(s, ':');
    assert p == p[..|p| - 1] + [p[|p| - 1]];
    forall c | c in s
      ensures IsAddressChar(c)
    {
      SplitChars(s, ':', c);
      if c != ':' {
        var q :| q in p && c in q;
        if !IsGroup(q) {
          V4Chars(q);
        }
      }
    }
  }

  lemma ParsedChars(s: string)
    requires ParseIP(s).Some?
    ensures s != "" && forall c | c in s :: IsAddressChar(c)
  {
    hide ParseGroups, ParseV4, Split;
    if ':' !in s {
      V4Chars(s);
    } else if Ellipsis(s).None? {
      GroupsChars(s);
    } else {
      var i := Ellipsis(s).value;
      var l, r := s[..i], s[i + 2..];
      if l != "" { GroupsChars(l); }
      if r != "" { GroupsChars(r); }
      assert s == l + [s[i], s[i + 1]] + r;
    }
  }

  // Printing.

  function PrintV4(b: seq<nat>): string
    requires |b| == 4
  {
    Join([Numeral(b[0], 10), Numeral(b[1], 10), Numeral(b[2], 10), Numeral(b[3], 10)], ".")
  }

  /** The number of zero groups from position i on. */
  function ZeroRun(g: Groups, i: nat): (n: nat)
    requires i <= |g|
    ensures i + n <= |g|
    decreases |g| - i
  {
    if i < |g| && g[i] == 0 then 1 + ZeroRun(g, i + 1) else 0
  }

  lemma {:induction false} ZeroRunIs(g: Groups, i: nat)
    requires i <= |g|
    ensures var n := ZeroRun(g, i);
      (forall k | i <= k < i + n :: g[k] == 0) && (i + n < |g| ==> g[i + n] != 0)
    decreases |g| - i
  {
    if i < |g| {
      ZeroRunIs(g, i + 1);
    }
  }

  /** Where the first longest run of zero groups starts, |g| if no run has two groups. */
  function LongestRun(g: Groups, i: nat, best: nat): (r: nat)
    requires i <= |g| && best <= |g| && (best < |g| ==> ZeroRun(g, best) >= 2)
    ensures r <= |g| && (r < |g| ==> ZeroRun(g, r) >= 2)
    decreases |g| - i
  {
    if i == |g| then best else LongestRun(g, i + 1, Longer(g, i, best))
  }

  function Longer(g: Groups, i: nat, best: nat): nat
    requires i <= |g| && best <= |g|
  {
    if ZeroRun(g, i) >= 2 && ZeroRun(g, i) > ZeroRun(g, best) then i else best
  }

  /** No run of two or more groups from position i on is longer, nor is the best one before it. */
  lemma {:induction false} LongestIsLongest(g: Groups, i: nat, best: nat, k: nat)
    requires i <= |g| && best <= |g| && (best < |g| ==> ZeroRun(g, best) >= 2) && k < |g|
    ensures ZeroRun(g, LongestRun(g, i, best)) >= ZeroRun(g, best)
    ensures i <= k && ZeroRun(g, k) >= 2 ==> ZeroRun(g, k) <= ZeroRun(g, LongestRun(g, i, best))
    decreases |g| - i
  {
    hide ZeroRun;
    if i < |g| {
      LongestIsLongest(g, i + 1, Longer(g, i, best), k);
    }
  }

  function PrintFrom(g: Groups, i: nat, start: nat, end: nat): string
    requires i <= |g| && start <= end <= |g| && (start < |g| ==> start < end)
    decreases |g| - i
  {
    if i == |g| then ""
    else if i == start then
      if end == |g| then "::" else "::" + Numeral(g[end], 16) + PrintFrom(g, end + 1, start, end)
    else (if i > 0 then ":" else "") + Numeral(g[i], 16) + PrintFrom(g, i + 1, start, end)
  }

  /** The IPv6 text: lower-case groups, the first longest run of two or more zero groups as "::". */
  function PrintV6(g: Groups): string
    requires IsAddress(g)
  {
    var start := LongestRun(g, 0, |g|);
    PrintFrom(g, 0, start, start + ZeroRun(g, start))
  }

  /** What "::" replaces in a printed address is a run of zero groups, and no run of two or more is longer. */
  lemma EllipsisIsLongest(g: Groups, k: nat, m: nat)
    requires IsAddress(g) && m >= 2 && k + m <= 8 && forall j | k <= j < k + m :: g[j] == 0
    ensures var start := LongestRun(g, 0, 8);
      m <= ZeroRun(g, start) && forall j | start <= j < start + ZeroRun(g, start) :: g[j] == 0
  {
    hide ZeroRun, LongestRun;
    var start := LongestRun(g, 0, 8);
    ZeroRunIs(g, start);
    ZeroRunIs(g, k);
    LongestIsLongest(g, 0, 8, k);
  }

  // Network prefixes.

  /** To4 is non-nil. */
  predicate IsV4(g: Groups) {
    |g| == 8 && g[..6] == MappedPrefix()
  }

  /** The four bytes of an IPv4 address with the last one cleared. */
  function Mask24(g: Groups): (b: seq<nat>)
    requires IsAddress(g)
    ensures |b| == 4 && forall x | x in b :: x < 256
  {
    assert g[6] in g && g[7] in g;
    [g[6] / 256, g[6] % 256, g[7] / 256, 0]
  }

  /** An IPv6 address with all but its first 32 bits cleared. */
  function Mask32(g: Groups): (m: Groups)
    requires IsAddress(g)
    ensures IsAddress(m)
  {
    assert g[0] in g && g[1] in g;
    [g[0], g[1]] + Zeros(6)
  }

  /** An address text has nothing at its ends that TrimSpace or bracket trimming would take. */
  lemma AddressTextTrimmed(s: string)
    requires s != "" && forall c | c in s :: IsAddressChar(c)
    ensures TrimSpace(s) == s && Trim(s, BRACKETS) == s && ',' !in s
  {
    hide Trim;
    assert s[0] in s && s[|s| - 1] in s;
    NotTrimmed(s[0]);
    NotTrimmed(s[|s| - 1]);
    TrimIsProjection(s, SPACE);
    TrimIsProjection(s, BRACKETS);
  }

  lemma NotTrimmed(c: char)
    requires IsAddressChar(c)
    ensures c !in SPACE && c !in BRACKETS && c != ','
  {
  }

  lemma OctetOfNumeral(n: nat)
    requires n < 256
    ensures Octet(Numeral(n, 10)) == Some(n) && '.' !in Numeral(n, 10) && ':' !in Numeral(n, 10)
  {
    ValueOfNumeral(n, 10);
    NumeralWidth(n);
  }

  lemma GroupOfNumeral(n: nat)
    requires n < 0x1_0000
    ensures var h := Numeral(n, 16); IsGroup(h) && Value(h, 16) == n && ':' !in h && '.' !in h
  {
    ValueOfNumeral(n, 16);
    NumeralWidth(n);
  }

  lemma ParsePrintV4(b: seq<nat>)
    requires |b| == 4 && forall x | x in b :: x < 256
    ensures ParseV4(PrintV4(b)) == Some(b)
  {
    hide Numeral, Octet, Split, Join;
    assert forall i | 0 <= i < 4 :: b[i] in b;
    QuadIs(PrintV4(b), b);
  }

  lemma {:induction false} EllipsisAfter(s: string)
    requires forall i | 0 <= i < |s| - 1 :: !(s[i] == ':' && s[i + 1] == ':')
    requires s != "" ==> s[|s| - 1] != ':'
    ensures Ellipsis(s + "::") == Some(|s|)
  {
    if s != "" {
      assert (s + "::")[1..] == s[1..] + "::";
      EllipsisAfter(s[1..]);
    }
  }

  /** The printed form of a masked IPv6 address has at most its first two groups before "::". */
  function PrintedMask(g: Groups): string
    requires |g| == 8
  {
    if g[1] != 0 then Numeral(g[0], 16) + ":" + Numeral(g[1], 16) + "::"
    else if g[0] != 0 then Numeral(g[0], 16) + "::"
    else "::"
  }

  lemma RunsOfMasked(g: Groups, z: nat)
    requires |g| == 8 && z <= 2 && forall i | z <= i < 8 :: g[i] == 0
    ensures forall i | z <= i <= 8 :: ZeroRun(g, i) == 8 - i
  {
    forall i | z <= i <= 8
      ensures ZeroRun(g, i) == 8 - i
    {
      ZerosToEnd(g, i);
    }
  }

  lemma {:induction false} ZerosToEnd(g: Groups, i: nat)
    requires i <= |g| && forall k | i <= k < |g| :: g[k] == 0
    ensures ZeroRun(g, i) == |g| - i
    decreases |g| - i
  {
    if i < |g| {
      ZerosToEnd(g, i + 1);
    }
  }

  /** Once the trailing zeros have started, no later run is longer. */
  lemma {:induction false} LongestStays(g: Groups, z: nat, i: nat)
    requires |g| == 8 && z <= 2 && z < i <= 8 && forall k | z <= k <= 8 :: ZeroRun(g, k) == 8 - k
    ensures LongestRun(g, i, z) == z
    decreases 8 - i
  {
    if i < 8 { LongestStays(g, z, i + 1); }
  }

  lemma LongestOfMasked(g: Groups, z: nat)
    requires |g| == 8 && z <= 2 && forall i | z <= i < 8 :: g[i] == 0
    requires z > 0 ==> g[z - 1] != 0
    ensures LongestRun(g, 0, 8) == z && ZeroRun(g, z) == 8 - z
  {
    RunsOfMasked(g, z);
    assert ZeroRun(g, 8) == 0;
    assert z == 2 ==> ZeroRun(g, 0) <= 1 && ZeroRun(g, 1) == 0;
    assert z == 1 ==> ZeroRun(g, 0) == 0;
    LongestStays(g, z, z + 1);
    assert LongestRun(g, z, 8) == LongestRun(g, z + 1, z);
    if z == 2 {
      assert LongestRun(g, 1, 8) == LongestRun(g, 2, 8);
    }
  }

  lemma PrintMasked(g: Groups)
    requires IsAddress(g) && forall i | 2 <= i < 8 :: g[i] == 0
    ensures PrintV6(g) == PrintedMask(g)
  {
    hide LongestRun, ZeroRun, Numeral;
    var z := if g[1] != 0 then 2 else if g[0] != 0 then 1 else 0;
    LongestOfMasked(g, z);
    assert PrintFrom(g, z, z, 8) == "::";
    if z == 2 {
      assert PrintFrom(g, 1, z, 8) == ":" + Numeral(g[1], 16) + "::";
    }
  }

  lemma ReadOne(s: string)
    requires IsGroup(s)
    ensures ReadGroups([s]) == [Value(s, 16)]
  {
    assert [s][1..] == [];
  }

  // Every printed address reads as itself.

  function HexTexts(gs: Groups): seq<string> {
    seq(|gs|, i requires 0 <= i < |gs| => Numeral(gs[i], 16))
  }

  /** Groups joined by colons. */
  function Hexes(gs: Groups): string {
    Join(HexTexts(gs), [':'])
  }

  predicate AreGroups(gs: Groups) {
    forall i | 0 <= i < |gs| :: gs[i] < 0x1_0000
  }

  lemma HexesStep(gs: Groups)
    requires gs != []
    ensures Hexes(gs) == Numeral(gs[0], 16) + if |gs| == 1 then "" else ":" + Hexes(gs[1..])
  {
    hide Numeral;
    assert HexTexts(gs)[1..] == HexTexts(gs[1..]);
    assert ":" == [':'];
    if |gs| > 1 {
      assert Numeral(gs[0], 16) + [':'] + Hexes(gs[1..]) == Numeral(gs[0], 16) + (":" + Hexes(gs[1..]));
    }
  }

  lemma {:induction false} ReadHexes(gs: Groups)
    requires AreGroups(gs)
    ensures forall p | p in HexTexts(gs) :: IsGroup(p) && ':' !in p
    ensures ReadGroups(HexTexts(gs)) == gs
    decreases |gs|
  {
    hide Numeral;
    forall i | 0 <= i < |gs|
      ensures IsGroup(HexTexts(gs)[i]) && ':' !in HexTexts(gs)[i] && Value(HexTexts(gs)[i], 16) == gs[i]
    {
      GroupOfNumeral(gs[i]);
    }
    if gs != [] {
      assert HexTexts(gs)[1..] == HexTexts(gs[1..]);
      ReadHexes(gs[1..]);
      assert [gs[0]] + gs[1..] == gs;
    }
  }

  lemma ParseHexes(gs: Groups)
    requires gs != [] && AreGroups(gs)
    ensures ParseGroups(Hexes(gs)) == Some(gs)
  {
    ReadHexes(gs);
    hide IsGroup, ParseV4, Split, HexTexts, AreGroups;
    TextsCount(gs);
    var p := HexTexts(gs);
    SplitJoin(p, ':');
    assert p[|p| - 1] in p && forall q | q in p[..|p| - 1] :: q in p;
  }

  lemma TextsCount(gs: Groups)
    ensures |HexTexts(gs)| == |gs|
  {
  }

  // A dotted quad has one spelling.

  lemma {:induction false} NumeralOfValue(s: string)
    requires IsNumeral(s, 10) && (|s| == 1 || s[0] != '0')
    ensures Numeral(Value(s, 10), 10) == s && (s[0] != '0' ==> Value(s, 10) > 0)
    decreases |s|
  {
    hide Numeral, Value, DigitValue;
    var n := |s| - 1;
    var d := s[n];
    assert d in s;
    DecimalDigit(d);
    ValueLast(s);
    if n == 0 {
      NumeralOne(DigitValue(d));
    } else {
      assert forall c | c in s[..n] :: c in s;
      NumeralOfValue(s[..n]);
      NumeralSnoc(Value(s[..n], 10), DigitValue(d));
      assert s == s[..n] + [d];
    }
  }

  lemma ValueLast(s: string)
    requires IsNumeral(s, 10)
    ensures forall c | c in s[..|s| - 1] :: 0 <= DigitValue(c) < 10
    ensures Value(s, 10) == Value(s[..|s| - 1], 10) * 10 + DigitValue(s[|s| - 1])
    ensures |s| == 1 ==> Value(s, 10) == DigitValue(s[0])
  {
    hide DigitValue;
  }

  lemma NumeralOne(d: nat)
    requires d < 10
    ensures Numeral(d, 10) == [DIGITS[d]]
  {
  }

  lemma DecimalDigit(d: char)
    requires 0 <= DigitValue(d) < 10
    ensures DIGITS[DigitValue(d)] == d && (DigitValue(d) == 0 <==> d == '0')
  {
    assert DIGITS[..10] == ['0', '1', '2', '3', '4', '5', '6', '7', '8', '9'];
    assert DIGITS[DigitValue(d)] == DIGITS[..10][DigitValue(d)];
  }

  lemma NumeralSnoc(q: nat, d: nat)
    requires q > 0 && d < 10
    ensures Numeral(q * 10 + d, 10) == Numeral(q, 10) + [DIGITS[d]]
  {
    assert (q * 10 + d) / 10 == q && (q * 10 + d) % 10 == d;
  }

  lemma OctetIs(s: string, n: nat)
    ensures Octet(s) == Some(n) <==> n < 256 && s == Itoa(n)
  {
    hide Numeral, Value;
    if Octet(s) == Some(n) {
      NumeralOfValue(s);
    }
    if n < 256 {
      OctetOfNumeral(n);
    }
  }

  /** A text is a dotted quad exactly when it is four bytes in decimal, joined by dots. */
  lemma QuadIs(s: string, b: seq<nat>)
    requires |b| == 4
    ensures ParseV4(s) == Some(b) <==>
      (forall i | 0 <= i < 4 :: b[i] < 256)
      && s == Join([Itoa(b[0]), Itoa(b[1]), Itoa(b[2]), Itoa(b[3])], ".")
  {
    hide Octet, Itoa, Join, Split;
    var parts := [Itoa(b[0]), Itoa(b[1]), Itoa(b[2]), Itoa(b[3])];
    var p := Split(s, '.');
    JoinSplit(s, '.');
    assert "." == ['.'];
    if ParseV4(s) == Some(b) {
      OctetIs(p[0], b[0]);
      OctetIs(p[1], b[1]);
      OctetIs(p[2], b[2]);
      OctetIs(p[3], b[3]);
      assert p == parts;
    }
    if (forall i | 0 <= i < 4 :: b[i] < 256) && s == Join(parts, ".") {
      BytesSplit(b, parts);
    }
  }

  lemma BytesSplit(b: seq<nat>, parts: seq<string>)
    requires |b| == 4 && forall i | 0 <= i < 4 :: b[i] < 256
    requires parts == [Itoa(b[0]), Itoa(b[1]), Itoa(b[2]), Itoa(b[3])]
    ensures ParseV4(Join(parts, ['.'])) == Some(b)
  {
    hide Numeral, Octet, Join, Split;
    forall i | 0 <= i < 4
      ensures Octet(parts[i]) == Some(b[i]) && '.' !in parts[i]
    {
      OctetOfNumeral(b[i]);
    }
    SplitJoin(parts, '.');
    assert [b[0], b[1], b[2], b[3]] == b;
  }

  /** No "::" occurs in the text. */
  predicate SingleColons(s: string) {
    forall i | 0 <= i < |s| - 1 :: !(s[i] == ':' && s[i + 1] == ':')
  }

  /** Joined groups have no dots, no two colons in a row, and no colon at either end. */
  lemma {:induction false} HexesChars(gs: Groups)
    requires AreGroups(gs) && gs != []
    ensures var t := Hexes(gs);
      && t != "" && t[0] != ':' && t[|t| - 1] != ':' && '.' !in t && SingleColons(t)
      && (|gs| > 1 ==> ':' in t)
    decreases |gs|
  {
    HexesStep(gs);
    GroupOfNumeral(gs[0]);
    hide Hexes, Numeral, IsGroup, AreGroups, SingleColons;
    var n := Numeral(gs[0], 16);
    assert n[0] in n && n[|n| - 1] in n;
    HexChars(n);
    if |gs| > 1 {
      TailGroups(gs);
      HexesChars(gs[1..]);
      ColonJoins(n, Hexes(gs[1..]));
    }
  }

  lemma TailGroups(gs: Groups)
    requires AreGroups(gs) && gs != []
    ensures AreGroups(gs[1..])
  {
  }

  lemma HexChars(n: string)
    requires ':' !in n
    ensures SingleColons(n)
  {
    assert forall i | 0 <= i < |n| :: n[i] in n;
  }

  lemma ColonJoins(a: string, b: string)
    requires SingleColons(a) && SingleColons(b) && a != "" && b != "" && a[|a| - 1] != ':' && b[0] != ':'
    ensures var t := a + (":" + b);
      SingleColons(t) && t[0] == a[0] && t[|t| - 1] == b[|b| - 1] && t[|a|] == ':'
    ensures '.' !in a && '.' !in b ==> '.' !in a + (":" + b)
  {
    var t := a + (":" + b);
    assert forall i | 0 <= i < |a| :: t[i] == a[i];
    assert forall i | |a| < i < |t| :: t[i] == b[i - |a| - 1];
    forall i | 0 <= i < |t| - 1
      ensures !(t[i] == ':' && t[i + 1] == ':')
    {
      if i > |a| {
        assert !(b[i - |a| - 1] == ':' && b[i - |a|] == ':');
      }
    }
  }

  lemma {:induction false} EllipsisOf(l: string, r: string)
    requires SingleColons(l) && (l != "" ==> l[|l| - 1] != ':')
    ensures Ellipsis(l + ("::" + r)) == Some(|l|)
    decreases |l|
  {
    var t := l + ("::" + r);
    if l != "" {
      assert t[1..] == l[1..] + ("::" + r);
      EllipsisOf(l[1..], r);
      assert t[0] == l[0];
      assert |l| > 1 ==> t[1] == l[1];
    } else {
      assert t[0] == ':' && t[1] == ':';
    }
  }

  lemma {:induction false} NoEllipsis(s: string)
    requires SingleColons(s)
    ensures Ellipsis(s) == None
    decreases |s|
  {
    if s != "" {
      NoEllipsis(s[1..]);
    }
  }

  /** Eight groups joined by colons are the address of those groups. */
  lemma ParseFull(g: Groups)
    requires IsAddress(g)
    ensures ParseIP(Hexes(g)) == Some(g)
  {
    AddressGroups(g);
    HexesChars(g);
    ParseHexes(g);
    NoEllipsis(Hexes(g));
    hide Hexes, ParseGroups, Ellipsis, SingleColons, IsAddress, ParseV4;
  }

  lemma AddressGroups(g: Groups)
    requires IsAddress(g)
    ensures |g| == 8 && AreGroups(g) && forall i, j | 0 <= i <= j <= 8 :: AreGroups(g[i..j])
  {
    assert forall i | 0 <= i < 8 :: g[i] in g;
  }

  lemma HexesParts(gs: Groups)
    requires AreGroups(gs)
    ensures var t := Hexes(gs);
      && SingleColons(t)
      && if gs == [] then t == "" else t != "" && ParseGroups(t) == Some(gs) && '.' !in t && t[|t| - 1] != ':'
  {
    if gs == [] {
      NoHexes(gs);
    } else {
      hide Hexes, ParseGroups, SingleColons, AreGroups;
      HexesChars(gs);
      ParseHexes(gs);
    }
  }

  /** At most seven groups around "::" are the address with zeros between them. */
  lemma ParseCompressed(l: Groups, r: Groups)
    requires AreGroups(l) && AreGroups(r) && |l| + |r| <= 7
    ensures ParseIP(Hexes(l) + ("::" + Hexes(r))) == Some(l + Zeros(8 - |l| - |r|) + r)
  {
    hide Hexes, ParseIP, ParseGroups, SingleColons, AreGroups;
    HexesParts(l);
    HexesParts(r);
    CompressedParts(Hexes(l), Hexes(r), l, r);
  }

  lemma NoHexes(gs: Groups)
    requires gs == []
    ensures Hexes(gs) == ""
  {
  }

  lemma CompressedParts(a: string, b: string, l: Groups, r: Groups)
    requires |l| + |r| <= 7
    requires if l == [] then a == "" else a != "" && ParseGroups(a) == Some(l) && '.' !in a && a[|a| - 1] != ':'
    requires SingleColons(a)
    requires if r == [] then b == "" else b != "" && ParseGroups(b) == Some(r)
    ensures ParseIP(a + ("::" + b)) == Some(l + Zeros(8 - |l| - |r|) + r)
  {
    hide ParseGroups, Ellipsis, SingleColons, ParseV4, ParseV6;
    EllipsisOf(a, b);
    var t := a + ("::" + b);
    assert t[|a|] == ':' && t[..|a|] == a && t[|a| + 2..] == b;
    AroundEllipsis(t, |a|, l, r);
  }

  lemma AroundEllipsis(t: string, i: nat, l: Groups, r: Groups)
    requires Ellipsis(t) == Some(i) && |l| + |r| <= 7
    requires if l == [] then t[..i] == "" else t[..i] != "" && ParseGroups(t[..i]) == Some(l) && '.' !in t[..i]
    requires if r == [] then t[i + 2..] == "" else t[i + 2..] != "" && ParseGroups(t[i + 2..]) == Some(r)
    ensures ParseV6(t) == Some(l + Zeros(8 - |l| - |r|) + r)
  {
    hide ParseGroups, Ellipsis;
  }

  /** The groups from position i on, after others. */
  function RestText(g: Groups, i: nat): string
    requires i <= |g|
  {
    if i == |g| then "" else ":" + Hexes(g[i..])
  }

  lemma RestTextIs(g: Groups, i: nat)
    requires i < |g|
    ensures RestText(g, i) == ":" + Hexes(g[i..])
  {
    hide Hexes;
  }

  lemma PrintRestStep(g: Groups, i: nat, start: nat, end: nat)
    requires 0 < i < |g| && start <= end <= |g| && (start < |g| ==> start < end) && (start == |g| || start < i)
    ensures PrintFrom(g, i, start, end) == ":" + Numeral(g[i], 16) + PrintFrom(g, i + 1, start, end)
  {
    hide Numeral;
  }

  /** The rest of a printed address once "::" is behind it, or there is none. */
  lemma {:induction false} PrintRest(g: Groups, i: nat, start: nat, end: nat)
    requires 0 < i <= |g| && start <= end <= |g| && (start < |g| ==> start < end) && (start == |g| || start < i)
    ensures PrintFrom(g, i, start, end) == RestText(g, i)
    decreases |g| - i
  {
    if i == |g| {
      hide Hexes;
    } else {
      hide Hexes, Numeral, RestText;
      PrintRestStep(g, i, start, end);
      HexesFrom(g, i);
      PrintRest(g, i + 1, start, end);
      Associate(":", Numeral(g[i], 16), RestText(g, i + 1));
      RestTextIs(g, i);
    }
  }

  /** The groups before "::". */
  lemma {:induction false} PrintBefore(g: Groups, i: nat, start: nat, end: nat)
    requires i <= start < end <= |g|
    ensures PrintFrom(g, i, start, end) ==
      (if i == start then "" else (if i > 0 then ":" else "") + Hexes(g[i..start])) + PrintFrom(g, start, start, end)
    decreases start - i
  {
    hide Hexes, Numeral;
    if i < start {
      HexesFrom(g[..start], i);
      assert g[..start][i..] == g[i..start] && g[..start][i + 1..] == g[i + 1..start];
      PrintBefore(g, i + 1, start, end);
    }
  }

  lemma PrintAll(g: Groups, end: nat)
    requires |g| == 8 == end
    ensures PrintFrom(g, 0, 8, end) == Hexes(g)
  {
    hide Hexes, Numeral;
    HexesStep(g);
    PrintRest(g, 1, 8, end);
    assert "" + Numeral(g[0], 16) == Numeral(g[0], 16);
  }

  lemma NothingLeft(g: Groups)
    ensures "::" + Hexes(g[|g|..]) == "::"
  {
    NoHexes(g[|g|..]);
  }

  lemma PrintRunStep(g: Groups, start: nat, end: nat)
    requires start < end <= |g|
    ensures PrintFrom(g, start, start, end) ==
      if end == |g| then "::" else "::" + Numeral(g[end], 16) + PrintFrom(g, end + 1, start, end)
  {
    hide Numeral;
  }

  lemma HexesFrom(g: Groups, i: nat)
    requires i < |g|
    ensures Hexes(g[i..]) == Numeral(g[i], 16) + RestText(g, i + 1)
  {
    hide Hexes, Numeral;
    HexesStep(g[i..]);
    assert g[i..][1..] == g[i + 1..];
  }

  lemma Associate(a: string, b: string, c: string)
    ensures a + b + c == a + (b + c)
  {
  }

  /** From "::" on. */
  lemma PrintFromRun(g: Groups, start: nat, end: nat)
    requires start < end <= |g|
    ensures PrintFrom(g, start, start, end) == "::" + Hexes(g[end..])
  {
    hide Hexes, Numeral, PrintFrom, RestText;
    PrintRunStep(g, start, end);
    if end < |g| {
      PrintRest(g, end + 1, start, end);
      HexesFrom(g, end);
      Associate("::", Numeral(g[end], 16), RestText(g, end + 1));
    } else {
      NothingLeft(g);
    }
  }

  lemma PrintIs(g: Groups)
    requires IsAddress(g)
    ensures var start := LongestRun(g, 0, 8);
      && start + ZeroRun(g, start) <= 8
      && PrintV6(g) == if start == 8 then Hexes(g) else
           Hexes(g[..start]) + ("::" + Hexes(g[start + ZeroRun(g, start)..]))
  {
    hide LongestRun, ZeroRun, Hexes, Numeral, PrintFrom;
    var start := LongestRun(g, 0, 8);
    var end := start + ZeroRun(g, start);
    if start == 8 {
      PrintAll(g, end);
    } else {
      PrintBefore(g, 0, start, end);
      PrintFromRun(g, start, end);
      assert g[0..start] == g[..start];
      NoHexes([]);
    }
  }

  /** Every address is read back from its printed form, wherever that has "::", if anywhere. */
  lemma ParsePrintV6(g: Groups)
    requires IsAddress(g)
    ensures ParseIP(PrintV6(g)) == Some(g) && ':' in PrintV6(g)
  {
    hide ParseIP, PrintV6, Hexes, LongestRun, ZeroRun;
    PrintIs(g);
    AddressGroups(g);
    var start := LongestRun(g, 0, 8);
    var end := start + ZeroRun(g, start);
    if start == 8 {
      ParseFull(g);
      HexesChars(g);
    } else {
      ZeroRunIs(g, start);
      ParseCompressed(g[..start], g[end..]);
      assert g[..start] == g[0..start] && g[end..] == g[end..8];
      assert g == g[..start] + Zeros(end - start) + g[end..];
      assert PrintV6(g)[|Hexes(g[..start])|] == ':';
    }
  }
}

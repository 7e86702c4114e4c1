/** The canonical identifier and the two pseudonymous log fields (logfields.go). */
module LogFields {
  import opened Wrappers
  import opened Text
  import opened NetIp

  function NormaliseIdentifier(identifier: string): string {
    ToLower(TrimSpace(identifier))
  }

  /** hmac(key, identifier) stands for the first 16 hex characters of HMAC-SHA256. */
  function IdentifierHash(hmac: (string, string) -> string, key: string, identifier: string): string {
    if key == "" || identifier == "" then "" else hmac(key, identifier)
  }

  function IpPrefix(ip: string): string {
    match ParseIP(TrimSpace(ip))
    case None => ""
    case Some(g) =>
      ParsedIsAddress(TrimSpace(ip));
      Tagged(g)
  }

  /** The address part of a printed prefix. */
  function Printed(g: Groups): string
    requires IsAddress(g)
  {
    if IsV4(g) then PrintV4(Mask24(g)) else PrintV6(Mask32(g))
  }

  function Tagged(g: Groups): string
    requires IsAddress(g)
  {
    Printed(g) + if IsV4(g) then "/24" else "/32"
  }

  /** Normal forms are the fixed points of normalisation, so a stored email counts as typed. */
  lemma NormaliseIsProjection(s: string)
    ensures NormaliseIdentifier(NormaliseIdentifier(s)) == NormaliseIdentifier(s)
    ensures NormaliseIdentifier(TrimSpace(s)) == NormaliseIdentifier(s) == NormaliseIdentifier(ToLower(s))
  {
    hide Trim, ToLower;
    var t := TrimSpace(s);
    TrimIsProjection(s, SPACE);
    TrimIsProjection(t, SPACE);
    LowerKeepsTrimmed(t);
    TrimIsProjection(ToLower(t), SPACE);
    LowerIdempotent(t);
    TrimCommutesWithLower(s);
    LowerIdempotent(TrimSpace(s));
  }

  /** The normal form, character by character: white space taken off the ends, capitals replaced by the
      letters 32 codes on. */
  lemma NormaliseIs(s: string, u: string)
    requires Unspaced(s, u)
    ensures |NormaliseIdentifier(s)| == |u|
    ensures forall k | 0 <= k < |u| ::
      && NormaliseIdentifier(s)[k] as int == u[k] as int + (if 'A' <= u[k] <= 'Z' then 32 else 0)
      && !('A' <= NormaliseIdentifier(s)[k] <= 'Z')
  {
    UnspacedIs(s, u);
    hide TrimSpace;
  }

  /** Two identifiers are one exactly when they are the same but for outer white space and case. */
  lemma NormaliseDecides(s: string, u: string, t: string, v: string)
    requires Unspaced(s, u) && Unspaced(t, v)
    ensures NormaliseIdentifier(s) == NormaliseIdentifier(t) <==> SameButCase(u, v)
    ensures NormaliseIdentifier(s) == "" <==> u == ""
  {
    UnspacedIs(s, u);
    UnspacedIs(t, v);
    hide TrimSpace;
    LowerDecides(u, v);
  }

  lemma LowerChars(c: char)
    ensures LowerChar(c) in SPACE <==> c in SPACE
    ensures LowerChar(LowerChar(c)) == LowerChar(c)
  {
  }

  lemma LowerKeepsTrimmed(t: string)
    requires Trimmed(t, SPACE)
    ensures Trimmed(ToLower(t), SPACE)
  {
    if t != "" {
      LowerChars(t[0]);
      LowerChars(t[|t| - 1]);
    }
  }

  lemma LowerIdempotent(t: string)
    ensures ToLower(ToLower(t)) == ToLower(t)
  {
  }

  lemma TrimCommutesWithLower(s: string)
    ensures TrimSpace(ToLower(s)) == ToLower(TrimSpace(s))
  {
    LeftCommutes(s);
    RightCommutes(TrimLeft(s, SPACE));
  }

  lemma LowerTail(s: string)
    requires s != ""
    ensures ToLower(s)[0] == LowerChar(s[0]) && ToLower(s)[1..] == ToLower(s[1..])
  {
  }

  lemma {:induction false} LeftCommutes(s: string)
    ensures TrimLeft(ToLower(s), SPACE) == ToLower(TrimLeft(s, SPACE))
  {
    hide LowerChar, ToLower;
    if s != "" {
      LowerChars(s[0]);
      LowerTail(s);
      LeftCommutes(s[1..]);
    }
  }

  lemma {:induction false} RightCommutes(s: string)
    ensures TrimRight(ToLower(s), SPACE) == ToLower(TrimRight(s, SPACE))
  {
    if s != "" {
      var t := s[..|s| - 1];
      LowerChars(s[|s| - 1]);
      assert ToLower(s)[..|s| - 1] == ToLower(t);
      RightCommutes(t);
    }
  }

  /** The network an address is logged as: its first 24 bits as IPv4, else its first 32 bits. */
  predicate SameNetwork(g: Groups, h: Groups)
    requires IsAddress(g) && IsAddress(h)
  {
    if IsV4(g) && IsV4(h) then g[6] == h[6] && g[7] / 256 == h[7] / 256
    else !IsV4(g) && !IsV4(h) && g[0] == h[0] && g[1] == h[1]
  }

  function Masked(g: Groups): Groups
    requires IsAddress(g)
  {
    if IsV4(g) then MappedPrefix() + Embed(Mask24(g)) else Mask32(g)
  }

  lemma PrintedParses(g: Groups)
    requires IsAddress(g)
    ensures ParseIP(Printed(g)) == Some(Masked(g))
    ensures IsAddress(Masked(g)) && IsV4(Masked(g)) == IsV4(g) && SameNetwork(g, Masked(g))
  {
    hide ParseV6, ParseV4, PrintV4, PrintV6;
    assert g[6] in g && g[7] in g && g[0] in g && g[1] in g;
    if IsV4(g) {
      ParsePrintV4(Mask24(g));
      V4Chars(PrintV4(Mask24(g)));
      assert Masked(g)[6] == g[6] && Masked(g)[7] / 256 == g[7] / 256;
      assert Masked(g)[..6] == MappedPrefix();
    } else {
      ParsePrintV6(Mask32(g));
      assert Mask32(g)[..6][5] == 0;
    }
  }

  lemma TagsTellNetworksApart(g: Groups, h: Groups)
    requires IsAddress(g) && IsAddress(h)
    ensures Tagged(g) == Tagged(h) <==> SameNetwork(g, h)
  {
    var p, q := Tagged(g), Tagged(h);
    assert p[..|p| - 3] == Printed(g) && q[..|q| - 3] == Printed(h);
    assert p[|p| - 1] == if IsV4(g) then '4' else '2';
    assert q[|q| - 1] == if IsV4(h) then '4' else '2';
    PrintedParses(g);
    PrintedParses(h);
    SameNetworkSameMask(g, h);
    if p == q {
      MaskedDecides(g, h);
    }
  }

  lemma MaskedDecides(g: Groups, h: Groups)
    requires IsAddress(g) && IsAddress(h) && IsV4(g) == IsV4(h) && Masked(g) == Masked(h)
    ensures SameNetwork(g, h)
  {
    assert g[6] in g && h[6] in h;
    if IsV4(g) {
      assert Masked(g)[6] == g[6] && Masked(g)[7] == g[7] / 256 * 256;
      assert Masked(h)[6] == h[6] && Masked(h)[7] == h[7] / 256 * 256;
    } else {
      assert Masked(g)[0] == g[0] && Masked(h)[0] == h[0];
      assert Masked(g)[1] == g[1] && Masked(h)[1] == h[1];
    }
  }

  /** Equal log prefixes mean exactly equal networks, whatever the spelling of the two addresses. */
  lemma PrefixIsNetwork(s: string, t: string, g: Groups, h: Groups)
    requires ParseIP(TrimSpace(s)) == Some(g) && ParseIP(TrimSpace(t)) == Some(h)
    ensures IsAddress(g) && IsAddress(h)
    ensures IpPrefix(s) == IpPrefix(t) <==> SameNetwork(g, h)
  {
    PrefixOf(s, g);
    PrefixOf(t, h);
    TagsTellNetworksApart(g, h);
  }

  lemma PrefixOf(s: string, g: Groups)
    requires ParseIP(TrimSpace(s)) == Some(g)
    ensures IsAddress(g) && IpPrefix(s) == Tagged(g)
  {
    ParsedIsAddress(TrimSpace(s));
  }

  /** Three bytes in decimal and a zero, or the first two groups in hexadecimal, of which trailing zeros
      vanish in "::". */
  function NetworkText(g: Groups): string
    requires IsAddress(g)
  {
    if IsV4(g) then
      Itoa(g[6] / 256) + "." + Itoa(g[6] % 256) + "." + Itoa(g[7] / 256) + ".0/24"
    else
      (if g[1] != 0 then Numeral(g[0], 16) + ":" + Numeral(g[1], 16)
       else if g[0] != 0 then Numeral(g[0], 16) else "") + "::/32"
  }

  /** That is what is logged. */
  lemma PrefixText(s: string, g: Groups)
    requires ParseIP(TrimSpace(s)) == Some(g)
    ensures IsAddress(g) && IpPrefix(s) == NetworkText(g)
  {
    hide IpPrefix, NetworkText, Tagged, ParseIP;
    PrefixOf(s, g);
    TaggedText(g);
  }

  lemma TaggedText(g: Groups)
    requires IsAddress(g)
    ensures Tagged(g) == NetworkText(g)
  {
    hide Numeral, PrintV6, PrintV4;
    if IsV4(g) {
      assert g[6] in g && g[7] in g;
      QuadText(g[6] / 256, g[6] % 256, g[7] / 256);
    } else {
      PrintMasked(Mask32(g));
      MaskText(g[0], g[1]);
    }
  }

  lemma ZeroText()
    ensures Itoa(0) == "0"
  {
    assert DIGITS[0] == '0';
  }

  lemma JoinRest(parts: seq<string>, sep: string)
    requires |parts| > 1
    ensures Join(parts, sep) == parts[0] + sep + Join(parts[1..], sep)
  {
  }

  lemma QuadText(a: nat, b: nat, c: nat)
    ensures PrintV4([a, b, c, 0]) + "/24" == Itoa(a) + "." + Itoa(b) + "." + Itoa(c) + ".0/24"
  {
    var (p, q, r, z) := (Itoa(a), Itoa(b), Itoa(c), Itoa(0));
    ZeroText();
    JoinTwo(r, z, ".");
    JoinRest([q, r, z], ".");
    JoinRest([p, q, r, z], ".");
    hide Numeral, Join;
    assert [p, q, r, z][1..] == [q, r, z] && [q, r, z][1..] == [r, z];
    assert p + "." + (q + "." + (r + "." + "0")) + "/24" == p + "." + q + "." + r + ".0/24";
  }

  lemma MaskText(x: nat, y: nat)
    ensures forall g: Groups | |g| == 8 && g[0] == x && g[1] == y ::
      PrintedMask(g) + "/32" == (if y != 0 then Numeral(x, 16) + ":" + Numeral(y, 16)
                                 else if x != 0 then Numeral(x, 16) else "") + "::/32"
  {
    hide Numeral;
  }

  lemma SameNetworkSameMask(g: Groups, h: Groups)
    requires IsAddress(g) && IsAddress(h)
    ensures SameNetwork(g, h) ==> Printed(g) == Printed(h)
  {
  }

  /** The printed address is itself an address of that network, with nothing left to mask. */
  lemma PrefixReparses(s: string, g: Groups)
    requires ParseIP(TrimSpace(s)) == Some(g)
    ensures IsAddress(g) && IpPrefix(s) == Tagged(g) != ""
    ensures ParseIP(Printed(g)) == Some(Masked(g)) && IpPrefix(Printed(g)) == IpPrefix(s)
  {
    PrefixOf(s, g);
    PrintedParses(g);
    var p := Printed(g);
    ParsedChars(p);
    AddressTextTrimmed(p);
    PrefixOf(p, Masked(g));
    TagsTellNetworksApart(g, Masked(g));
  }

  /** The four bytes of an IPv4 address. */
  function Quad(g: Groups): (b: seq<nat>)
    requires IsAddress(g)
    ensures |b| == 4 && forall x | x in b :: x < 256
  {
    assert g[6] in g && g[7] in g;
    [g[6] / 256, g[6] % 256, g[7] / 256, g[7] % 256]
  }

  /** Any text of an IPv4-mapped address, in whatever IPv6 spelling, is logged like its dotted quad; and
      each dotted quad after "::ffff:" is such a text. */
  lemma MappedLikePlain(s: string, g: Groups)
    requires ParseIP(TrimSpace(s)) == Some(g) && IsV4(g)
    ensures IsAddress(g)
    ensures var quad := PrintV4(Quad(g));
      && ParseIP(quad) == Some(g) && IpPrefix(s) == IpPrefix(quad)
      && ParseIP("::" + ("ffff:" + quad)) == Some(g)
  {
    ParsedIsAddress(TrimSpace(s));
    var b := Quad(g);
    var quad := PrintV4(b);
    QuadEmbeds(g);
    hide ParseV6, ParseIP, PrintV4, Quad, IpPrefix;
    ParsePrintV4(b);
    V4Chars(quad);
    PlainParses(quad, b);
    MappedParses(quad, "::" + ("ffff:" + quad), b);
    PrefixOf(s, g);
    ParsedChars(quad);
    AddressTextTrimmed(quad);
    PrefixOf(quad, g);
  }

  lemma QuadEmbeds(g: Groups)
    requires IsAddress(g) && IsV4(g)
    ensures MappedPrefix() + Embed(Quad(g)) == g
  {
    assert g[6] in g && g[7] in g;
    assert g == g[..6] + [g[6], g[7]];
  }

  lemma PlainParses(quad: string, b: seq<nat>)
    requires ParseV4(quad) == Some(b) && ':' !in quad && |b| == 4
    ensures ParseIP(quad) == Some(MappedPrefix() + Embed(b))
  {
  }

  /** So "::ffff:" before any dotted quad, however that is spelt, changes nothing. */
  lemma MappedSpelling(quad: string, mapped: string)
    requires ParseV4(quad).Some? && mapped == "::" + ("ffff:" + quad)
    ensures ParseIP(mapped) == ParseIP(quad)
    ensures IpPrefix(mapped) == IpPrefix(quad)
  {
    var b := ParseV4(quad).value;
    V4Chars(quad);
    MappedParses(quad, mapped, b);
    SameAddressSamePrefix(quad, mapped, MappedPrefix() + Embed(b));
  }

  /** Two spellings of one address are logged alike. */
  lemma SameAddressSamePrefix(s: string, t: string, g: Groups)
    requires ParseIP(s) == Some(g) && ParseIP(t) == Some(g)
    ensures IpPrefix(s) == IpPrefix(t)
  {
    ParsedChars(s);
    ParsedChars(t);
    AddressTextTrimmed(s);
    AddressTextTrimmed(t);
    PrefixOf(s, g);
    PrefixOf(t, g);
  }

  lemma MappedParses(quad: string, mapped: string, b: seq<nat>)
    requires ParseV4(quad) == Some(b) && ':' !in quad && mapped == "::" + ("ffff:" + quad)
    ensures ParseIP(mapped) == Some(MappedPrefix() + Embed(b))
  {
    hide ParseIP, ParseGroups, ParseV4;
    V4Bytes(quad);
    MappedGroups(quad, b);
    MappedBytes(b);
    ParseTrailing("ffff:" + quad, [0xffff] + Embed(b));
  }

  lemma MappedBytes(b: seq<nat>)
    requires |b| == 4
    ensures Zeros(5) + ([0xffff] + Embed(b)) == MappedPrefix() + Embed(b)
  {
  }

  lemma ParseTrailing(r: string, right: Groups)
    requires r != "" && ParseGroups(r) == Some(right) && |right| <= 7
    ensures ParseIP("::" + r) == Some(Zeros(8 - |right|) + right)
  {
    hide ParseGroups, ParseV4;
    var s := "::" + r;
    assert s[0] == ':';
    assert s[..0] == "" && s[2..] == r;
    assert Ellipsis(s) == Some(0);
    assert [] + Zeros(8 - |right|) + right == Zeros(8 - |right|) + right;
  }

  lemma JoinTwo(a: string, b: string, sep: string)
    ensures Join([a, b], sep) == a + sep + b
  {
    assert [a, b][1..] == [b];
  }

  lemma MappedGroups(quad: string, b: seq<nat>)
    requires ParseV4(quad) == Some(b) && ':' !in quad
    ensures ParseGroups("ffff:" + quad) == Some([0xffff] + Embed(b))
  {
    hide IsGroup, Split, Join, ParseV4;
    var parts := ["ffff", quad];
    JoinTwo("ffff", quad, [':']);
    assert "ffff" + [':'] + quad == "ffff:" + quad;
    Ffff();
    assert ':' !in "ffff";
    SplitJoin(parts, ':');
    QuadIsNoGroup(quad);
    assert parts[..1] == ["ffff"];
  }

  lemma Ffff()
    ensures IsGroup("ffff") && ReadGroups(["ffff"]) == [0xffff]
  {
    assert "ffff"[..3] == "fff" && "fff"[..2] == "ff" && "ff"[..1] == "f" && "f"[..0] == "";
    ReadOne("ffff");
    assert Value("f", 16) == 15;
    assert Value("ff", 16) == 255;
    assert Value("fff", 16) == 4095;
  }

  lemma QuadIsNoGroup(quad: string)
    requires ParseV4(quad).Some?
    ensures !IsGroup(quad)
  {
    assert '.' !in quad ==> Split(quad, '.') == [quad];
  }
}

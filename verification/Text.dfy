/** ASCII text handling: the parts of Go's strings and strconv packages that the service leans on. */
module Text {

  /** ASCII white space: tab, line feed, vertical tab, form feed, carriage return and blank. */
  const SPACE: set<char> := {' ', '\t', '\n', '\r', '\U{000B}', '\U{000C}'}
  const BRACKETS: set<char> := {'[', ']'}

  function TrimLeft(s: string, cut: set<char>): (t: string)
    ensures |t| <= |s| && t == s[|s| - |t|..]
    ensures t != "" ==> t[0] !in cut
    ensures forall i | 0 <= i < |s| - |t| :: s[i] in cut
  {
    if s != "" && s[0] in cut then
      var t := TrimLeft(s[1..], cut);
      assert forall i | 0 < i < |s| - |t| :: s[i] == s[1..][i - 1];
      t
    else s
  }

  function TrimRight(s: string, cut: set<char>): (t: string)
    ensures |t| <= |s| && t == s[..|t|]
    ensures t != "" ==> t[|t| - 1] !in cut
    ensures forall i | |t| <= i < |s| :: s[i] in cut
  {
    if s != "" && s[|s| - 1] in cut then TrimRight(s[..|s| - 1], cut) else s
  }

  function Trim(s: string, cut: set<char>): string {
    TrimRight(TrimLeft(s, cut), cut)
  }

  function TrimSpace(s: string): string {
    Trim(s, SPACE)
  }

  predicate Trimmed(s: string, cut: set<char>) {
    s != "" ==> s[0] !in cut && s[|s| - 1] !in cut
  }

  /** Trimming leaves a trimmed string, and changes nothing else: trimmed strings are its fixed points. */
  lemma TrimIsProjection(s: string, cut: set<char>)
    ensures Trimmed(Trim(s, cut), cut)
    ensures Trim(s, cut) == s <==> Trimmed(s, cut)
  {
    var l := TrimLeft(s, cut);
    var t := TrimRight(l, cut);
    if t != "" {
      assert t[0] == l[0];
    }
    if s != "" && Trimmed(s, cut) {
      assert |l| == |s|;
    }
  }

  function LowerChar(c: char): char {
    if 'A' <= c <= 'Z' then (c as int + 32) as char else c
  }

  function ToLower(s: string): (t: string)
    ensures |t| == |s|
  {
    seq(|s|, i requires 0 <= i < |s| => LowerChar(s[i]))
  }

  // Trimming and case folding, told character by character.

  /** u is what remains of s, from position i on, when characters to be cut are taken off both ends. */
  predicate CoreAt(s: string, u: string, cut: set<char>, i: nat) {
    && i + |u| <= |s| && s[i..i + |u|] == u
    && (forall k | 0 <= k < |s| && (k < i || i + |u| <= k) :: s[k] in cut)
    && (u != "" ==> u[0] !in cut && u[|u| - 1] !in cut)
  }

  ghost predicate Core(s: string, u: string, cut: set<char>) {
    exists i: nat :: CoreAt(s, u, cut, i)
  }

  /** u is s without white space at its ends. */
  ghost predicate Unspaced(s: string, u: string) {
    Core(s, u, {' ', '\t', '\n', '\U{000B}', '\U{000C}', '\r'})
  }

  /** u is s without brackets at its ends. */
  ghost predicate Unbracketed(s: string, u: string) {
    Core(s, u, {'[', ']'})
  }

  lemma TrimIsCore(s: string, cut: set<char>)
    ensures Core(s, Trim(s, cut), cut)
  {
    hide TrimLeft, TrimRight;
    var l := TrimLeft(s, cut);
    var t := TrimRight(l, cut);
    var i := |s| - |l|;
    forall k | 0 <= k < |s| && (k < i || i + |t| <= k)
      ensures s[k] in cut
    {
      if i + |t| <= k {
        assert s[k] == l[k - i];
      }
    }
    if t != "" {
      assert t[0] == l[0];
    }
    assert CoreAt(s, t, cut, i);
  }

  lemma CoreIsUnique(s: string, u: string, v: string, cut: set<char>, i: nat, j: nat)
    requires CoreAt(s, u, cut, i) && CoreAt(s, v, cut, j)
    ensures u == v
  {
    CoreStarts(s, u, v, cut, i, j);
    CoreStarts(s, v, u, cut, j, i);
    if u != "" && v != "" {
      assert i == j && i + |u| == j + |v|;
    }
  }

  /** The first and last characters of one core lie inside any other. */
  lemma CoreStarts(s: string, u: string, v: string, cut: set<char>, i: nat, j: nat)
    requires CoreAt(s, u, cut, i) && CoreAt(s, v, cut, j)
    ensures u != "" ==> v != "" && j <= i && i + |u| <= j + |v|
  {
    if u != "" {
      assert s[i] == s[i..i + |u|][0] && s[i + |u| - 1] == s[i..i + |u|][|u| - 1];
    }
  }

  lemma CoreIsTrim(s: string, u: string, cut: set<char>)
    requires Core(s, u, cut)
    ensures u == Trim(s, cut)
  {
    var i: nat :| CoreAt(s, u, cut, i);
    TrimIsCore(s, cut);
    var j: nat :| CoreAt(s, Trim(s, cut), cut, j);
    hide CoreAt;
    CoreIsUnique(s, u, Trim(s, cut), cut, i, j);
  }

  /** Nothing but white space. */
  predicate Blank(s: string) {
    forall c | c in s :: c in {' ', '\t', '\n', '\U{000B}', '\U{000C}', '\r'}
  }

  /** Trimming finds that core, and no text has another. */
  lemma UnspacedIs(s: string, u: string)
    ensures Unspaced(s, u) <==> u == TrimSpace(s)
  {
    hide Trim, Core;
    assert {' ', '\t', '\n', '\U{000B}', '\U{000C}', '\r'} == SPACE;
    TrimIsCore(s, SPACE);
    if Unspaced(s, u) {
      CoreIsTrim(s, u, SPACE);
    }
  }

  lemma UnbracketedIs(s: string, u: string)
    ensures Unbracketed(s, u) <==> u == Trim(s, BRACKETS)
  {
    hide Trim, Core;
    assert {'[', ']'} == BRACKETS;
    TrimIsCore(s, BRACKETS);
    if Unbracketed(s, u) {
      CoreIsTrim(s, u, BRACKETS);
    }
  }

  lemma BlankIs(s: string)
    ensures Blank(s) <==> TrimSpace(s) == ""
  {
    UnspacedIs(s, "");
    hide TrimSpace;
    if Blank(s) {
      AllCut(s, {' ', '\t', '\n', '\U{000B}', '\U{000C}', '\r'});
    }
    if Unspaced(s, "") {
      var i: nat :| CoreAt(s, "", {' ', '\t', '\n', '\U{000B}', '\U{000C}', '\r'}, i);
      CutWhole(s, {' ', '\t', '\n', '\U{000B}', '\U{000C}', '\r'}, i);
    }
  }

  lemma AllCut(s: string, cut: set<char>)
    requires forall c | c in s :: c in cut
    ensures CoreAt(s, "", cut, 0)
  {
    assert s[0..0] == "";
  }

  lemma CutWhole(s: string, cut: set<char>, i: nat)
    requires CoreAt(s, "", cut, i)
    ensures forall c | c in s :: c in cut
  {
  }

  /** The same but for the case of its letters. */
  predicate SameButCase(u: string, v: string) {
    |u| == |v| && forall k | 0 <= k < |u| :: u[k] == v[k] || IsCapitalOf(u[k], v[k]) || IsCapitalOf(v[k], u[k])
  }

  predicate IsCapitalOf(c: char, d: char) {
    'A' <= c <= 'Z' && d as int == c as int + 32
  }

  lemma LowerDecides(u: string, v: string)
    ensures ToLower(u) == ToLower(v) <==> SameButCase(u, v)
  {
    if ToLower(u) == ToLower(v) {
      forall k | 0 <= k < |u|
        ensures u[k] == v[k] || IsCapitalOf(u[k], v[k]) || IsCapitalOf(v[k], u[k])
      {
        assert ToLower(u)[k] == ToLower(v)[k];
      }
    }
  }

  /** The position of the first occurrence of a character. */
  function IndexOf(s: string, c: char): (i: nat)
    requires c in s
    ensures i < |s| && s[i] == c && c !in s[..i]
  {
    if s[0] == c then 0
    else
      var i := IndexOf(s[1..], c);
      assert s[..i + 1] == [s[0]] + s[1..][..i];
      i + 1
  }

  lemma {:induction false} IndexOfFirst(s: string, c: char, k: nat)
    requires k < |s| && s[k] == c && c !in s[..k]
    ensures IndexOf(s, c) == k
  {
    if k > 0 {
      assert s[0] in s[..k];
      assert forall x | x in s[1..][..k - 1] :: x in s[..k];
      IndexOfFirst(s[1..], c, k - 1);
    }
  }

  /** strings.Split with a one-character separator. */
  function Split(s: string, sep: char): (parts: seq<string>)
    ensures parts != []
    ensures forall p | p in parts :: sep !in p
    decreases |s|
  {
    if sep !in s then [s]
    else
      var i := IndexOf(s, sep);
      [s[..i]] + Split(s[i + 1..], sep)
  }

  function Join(parts: seq<string>, sep: string): string {
    if parts == [] then ""
    else if |parts| == 1 then parts[0]
    else parts[0] + sep + Join(parts[1..], sep)
  }

  lemma JoinHead(first: string, rest: seq<string>, sep: string)
    requires rest != []
    ensures Join([first] + rest, sep) == first + sep + Join(rest, sep)
  {
    assert ([first] + rest)[1..] == rest;
  }

  lemma {:induction false} JoinSplit(s: string, sep: char)
    ensures Join(Split(s, sep), [sep]) == s
    decreases |s|
  {
    hide IndexOf;
    if sep in s {
      var i := IndexOf(s, sep);
      JoinSplit(s[i + 1..], sep);
      JoinHead(s[..i], Split(s[i + 1..], sep), [sep]);
      assert s == s[..i] + ([sep] + s[i + 1..]);
      assert s[..i] + [sep] + s[i + 1..] == s[..i] + ([sep] + s[i + 1..]);
    }
  }

  lemma {:induction false} SplitJoin(parts: seq<string>, sep: char)
    requires parts != [] && forall p | p in parts :: sep !in p
    ensures Split(Join(parts, [sep]), sep) == parts
    decreases |parts|
  {
    if |parts| > 1 {
      var rest := Join(parts[1..], [sep]);
      var s := Join(parts, [sep]);
      assert s == parts[0] + [sep] + rest;
      assert s[..|parts[0]|] == parts[0];
      var i := |parts[0]|;
      IndexOfFirst(s, sep, i);
      assert s[..i] == parts[0] && s[i + 1..] == rest;
      SplitJoin(parts[1..], sep);
    }
  }

  /** Splitting loses nothing but the separators. */
  lemma {:induction false} SplitChars(s: string, sep: char, c: char)
    requires c in s
    ensures c == sep || exists p | p in Split(s, sep) :: c in p
    decreases |s|
  {
    if sep in s {
      var i := IndexOf(s, sep);
      assert s == s[..i] + [sep] + s[i + 1..];
      assert Split(s, sep) == [s[..i]] + Split(s[i + 1..], sep);
      if c in s[i + 1..] {
        SplitChars(s[i + 1..], sep, c);
      } else if c in s[..i] {
        assert s[..i] in Split(s, sep);
      }
    } else {
      assert s in Split(s, sep);
    }
  }

  // Numerals.

  const DIGITS := "0123456789abcdef"

  function DigitValue(c: char): int {
    if '0' <= c <= '9' then c as int - '0' as int
    else if 'a' <= c <= 'f' then c as int - 'a' as int + 10
    else if 'A' <= c <= 'F' then c as int - 'A' as int + 10
    else -1
  }

  predicate IsNumeral(s: string, base: nat) {
    s != "" && forall c | c in s :: 0 <= DigitValue(c) < base
  }

  function Value(s: string, base: nat): (n: nat)
    requires forall c | c in s :: 0 <= DigitValue(c) < base
  {
    if s == "" then 0 else Value(s[..|s| - 1], base) * base + DigitValue(s[|s| - 1])
  }

  function Numeral(n: nat, base: nat): (s: string)
    requires 2 <= base <= 16
    ensures s != ""
    decreases n
  {
    if n < base then [DIGITS[n]] else
      Shrinks(n, base);
      Numeral(n / base, base) + [DIGITS[n % base]]
  }

  lemma DigitRoundTrip(d: nat)
    requires d < 16
    ensures DigitValue(DIGITS[d]) == d
    ensures DIGITS[d] == '0' <==> d == 0
  {
    assert DIGITS[..] == ['0', '1', '2', '3', '4', '5', '6', '7', '8', '9', 'a', 'b', 'c', 'd', 'e', 'f'];
  }

  /** One more digit on the right of a numeral. */
  lemma ValueSnoc(s: string, q: nat, d: nat, base: nat)
    requires 2 <= base <= 16 && d < base
    requires (forall c | c in s :: 0 <= DigitValue(c) < base) && Value(s, base) == q
    ensures IsNumeral(s + [DIGITS[d]], base)
    ensures Value(s + [DIGITS[d]], base) == q * base + d
  {
    DigitRoundTrip(d);
    assert (s + [DIGITS[d]])[..|s|] == s;
  }

  /** Reading a printed number gives the number back, and printing never adds leading zeros. */
  lemma {:induction false} ValueOfNumeral(n: nat, base: nat)
    requires 2 <= base <= 16
    ensures IsNumeral(Numeral(n, base), base) && Value(Numeral(n, base), base) == n
    ensures Numeral(n, base)[0] == '0' <==> n == 0
    decreases n
  {
    hide DigitValue, Value;
    if n < base {
      DigitRoundTrip(n);
      ValueOfNothing(base);
      ValueSnoc("", 0, n, base);
      assert "" + [DIGITS[n]] == Numeral(n, base);
    } else {
      Shrinks(n, base);
      var q, d := n / base, n % base;
      ValueOfNumeral(q, base);
      ValueSnoc(Numeral(q, base), q, d, base);
      assert Numeral(n, base) == Numeral(q, base) + [DIGITS[d]];
    }
  }

  lemma ValueOfNothing(base: nat)
    ensures Value("", base) == 0
  {
  }

  lemma Shrinks(n: nat, base: nat)
    requires 2 <= base <= n
    ensures 0 < n / base < n && n == n / base * base + n % base
  {
  }

  lemma OneDigitMore(n: nat, base: nat)
    requires 2 <= base <= 16
    ensures |Numeral(n, base)| == if n < base then 1 else |Numeral(n / base, base)| + 1
  {
    if base <= n {
      Shrinks(n, base);
    }
  }

  /** A byte takes at most three decimal digits, a 16-bit group at most four hexadecimal ones. */
  lemma NumeralWidth(n: nat)
    ensures n < 256 ==> |Numeral(n, 10)| <= 3
    ensures n < 65536 ==> |Numeral(n, 16)| <= 4
  {
    hide Numeral;
    if n < 256 {
      OneDigitMore(n, 10);
      OneDigitMore(n / 10, 10);
      OneDigitMore(n / 10 / 10, 10);
    }
    if n < 65536 {
      OneDigitMore(n, 16);
      OneDigitMore(n / 16, 16);
      OneDigitMore(n / 16 / 16, 16);
      OneDigitMore(n / 16 / 16 / 16, 16);
    }
  }

  /** Printing of a signed integer with "%d". */
  function Itoa(n: int): string {
    if n < 0 then "-" + Numeral(-n, 10) else Numeral(n, 10)
  }

  // Decimal text, told character by character.

  function DecimalValue(s: string): int {
    if s == "" then 0 else DecimalValue(s[..|s| - 1]) * 10 + (s[|s| - 1] as int - 48)
  }

  predicate IsDecimal(s: string) {
    s != "" && (forall k | 0 <= k < |s| :: '0' <= s[k] <= '9') && (|s| > 1 ==> s[0] != '0')
  }

  /** The decimal text of a number. */
  predicate Denotes(s: string, n: int) {
    if n < 0 then s != "" && s[0] == '-' && IsDecimal(s[1..]) && DecimalValue(s[1..]) == -n
    else IsDecimal(s) && DecimalValue(s) == n
  }

  lemma {:induction false} ValueIsDecimal(s: string)
    requires forall c | c in s :: 0 <= DigitValue(c) < 10
    ensures (forall k | 0 <= k < |s| :: '0' <= s[k] <= '9') && Value(s, 10) == DecimalValue(s)
  {
    forall k | 0 <= k < |s|
      ensures '0' <= s[k] <= '9'
    {
      assert s[k] in s;
    }
    if s != "" {
      ValueIsDecimal(s[..|s| - 1]);
    }
  }

  lemma NumeralDenotes(n: nat)
    ensures Denotes(Numeral(n, 10), n)
  {
    ValueOfNumeral(n, 10);
    ValueIsDecimal(Numeral(n, 10));
    if Numeral(n, 10)[0] == '0' {
      assert Numeral(0, 10) == [DIGITS[0]];
    }
  }

  lemma ItoaDenotes(n: int)
    ensures Denotes(Itoa(n), n)
  {
    hide Numeral;
    NumeralDenotes(if n < 0 then -n else n);
    if n < 0 {
      assert Itoa(n)[1..] == Numeral(-n, 10);
    }
  }

  lemma ItoaInjective(m: int, n: int)
    requires Itoa(m) == Itoa(n)
    ensures m == n
  {
    var p, q := if m < 0 then -m else m, if n < 0 then -n else n;
    ValueOfNumeral(p, 10);
    ValueOfNumeral(q, 10);
    SignShows(m);
    SignShows(n);
    if m < 0 {
      assert Itoa(m)[1..] == Numeral(p, 10) && Itoa(n)[1..] == Numeral(q, 10);
    }
  }

  lemma SignShows(n: int)
    ensures Itoa(n)[0] == '-' <==> n < 0
  {
    if n >= 0 {
      ValueOfNumeral(n, 10);
      assert Numeral(n, 10)[0] in Numeral(n, 10);
    }
  }
}

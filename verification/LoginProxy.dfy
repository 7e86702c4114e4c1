/** The reverse proxy in front of Kratos (proxy.go): whose login it is, and whether it is forwarded. */
module LoginProxy {
  import opened Wrappers
  import opened Text
  import opened NetIp
  import opened LogFields
  import opened RedisServer
  import opened Clients
  import opened LoginBackoff
  import opened LoginService
  import opened LoginRuns
  import opened LoginBounds
  import opened LoginBurst
  import opened LoginLockout

  type Byte = b: int | 0 <= b < 256

  const MAX_LOGIN_REQUEST_BODY_BYTES := 1048576

  /** A request as a value; broken means that reading the body fails after these bytes. A contentLength
      of -1 means that the length was not declared. */
  datatype Snapshot = Snapshot(
    verb: string,
    body: seq<Byte>,
    broken: bool,
    contentLength: int,
    trueClientIp: string,
    forwardedFor: string,
    realIp: string,
    remoteAddr: string,
    accept: string)

  datatype Outcome =
    | Forwarded(sent: Snapshot)
    | Redirected(url: string)
    | TooManyRequests(reason: string, message: string)
    | EntityTooLarge

  datatype ReadError = BodyTooLarge | ReadFailed

  // The client's address.

  /** One part of a header, as it is tried for an address. */
  function Candidate(part: string): string {
    Trim(TrimSpace(part), BRACKETS)
  }

  function FirstValid(parts: seq<string>): string {
    if parts == [] then ""
    else if ParseIP(Candidate(parts[0])).Some? then Candidate(parts[0])
    else FirstValid(parts[1..])
  }

  method FirstValidIP(raw: string) returns (ip: string)
    ensures ip == FirstValid(Split(raw, ','))
  {
    var parts := Split(raw, ',');
    for i := 0 to |parts|
      invariant FirstValid(parts) == FirstValid(parts[i..])
    {
      ip := Candidate(parts[i]);
      if ParseIP(ip).Some? {
        return;
      }
    }
    return "";
  }

  /** The result is the first comma-separated part that parses, or empty when none does. */
  lemma {:induction false} FirstValidIsFirst(parts: seq<string>)
    ensures var ip := FirstValid(parts);
      && (ip != "" ==> ParseIP(ip).Some?)
      && (ip == "" <==> forall p | p in parts :: ParseIP(Candidate(p)).None?)
      && (ip != "" ==> exists k | 0 <= k < |parts| :: IsFirstValid(parts, k, ip))
  {
    hide ParseIP, Candidate;
    if parts != [] {
      var c := Candidate(parts[0]);
      if ParseIP(c).Some? {
        NotEmpty(c);
        assert parts[0] in parts && IsFirstValid(parts, 0, c);
      } else {
        FirstValidIsFirst(parts[1..]);
        var tail := parts[1..];
        assert parts == [parts[0]] + tail;
        if FirstValid(tail) != "" {
          var k :| 0 <= k < |tail| && IsFirstValid(tail, k, FirstValid(tail));
          forall j | 0 <= j < k + 1
            ensures ParseIP(Candidate(parts[j])).None?
          {
            if j > 0 {
              assert parts[j] == tail[j - 1];
              assert ParseIP(Candidate(tail[j - 1])).None?;
            }
          }
          assert IsFirstValid(parts, k + 1, FirstValid(parts));
        }
      }
    }
  }

  predicate IsFirstValid(parts: seq<string>, k: nat, ip: string)
    requires k < |parts|
  {
    ip == Candidate(parts[k]) && ParseIP(ip).Some? && forall j | 0 <= j < k :: ParseIP(Candidate(parts[j])).None?
  }

  lemma NotEmpty(s: string)
    requires ParseIP(s).Some?
    ensures s != ""
  {
    ParsedChars(s);
  }

  /** An address text is found again as itself. */
  lemma AddressIsFirstValid(ip: string)
    requires ParseIP(ip).Some?
    ensures FirstValid(Split(ip, ',')) == ip
  {
    ParsedChars(ip);
    hide ParseIP;
    AddressTextTrimmed(ip);
    assert Split(ip, ',') == [ip];
    assert Candidate(ip) == ip;
  }

  lemma EmptyFirst()
    ensures FirstValid(Split("", ',')) == ""
  {
    NothingIsNoAddress();
    hide ParseIP, Candidate;
    assert Split("", ',') == [""];
    FirstValidIsFirst([""]);
  }

  /** What the proxy hands to the after-login hook reads back as itself. */
  lemma FirstValidIdempotent(raw: string)
    ensures FirstValid(Split(FirstValid(Split(raw, ',')), ',')) == FirstValid(Split(raw, ','))
  {
    hide ParseIP, Candidate;
    var ip := FirstValid(Split(raw, ','));
    FirstValidIsFirst(Split(raw, ','));
    if ip != "" {
      AddressIsFirstValid(ip);
    } else {
      EmptyFirst();
    }
  }

  lemma NothingIsNoAddress()
    ensures ParseIP(Candidate("")).None?
  {
    assert Candidate("") == "";
    if ParseIP("").Some? {
      ParsedChars("");
    }
  }

  function LastIndexOf(s: string, c: char): (i: nat)
    requires c in s
    ensures i < |s| && s[i] == c && c !in s[i + 1..]
  {
    var n := |s| - 1;
    if s[n] == c then n
    else
      assert s == s[..n] + [s[n]];
      var i := LastIndexOf(s[..n], c);
      assert s[i + 1..] == s[..n][i + 1..] + [s[n]];
      i
  }

  /** The host of net.SplitHostPort; None stands for an error. */
  function SplitHost(hostport: string): Option<string> {
    if ':' !in hostport then None
    else
      var i := LastIndexOf(hostport, ':');
      if hostport[0] == '[' then
        if ']' !in hostport then None
        else
          var close := IndexOf(hostport, ']');
          if close + 1 != i || '[' in hostport[1..] || ']' in hostport[close + 1..] then None
          else Some(hostport[1..close])
      else if ':' in hostport[..i] || '[' in hostport || ']' in hostport then None
      else Some(hostport[..i])
  }

  function RemoteIP(remoteAddr: string): string {
    match SplitHost(TrimSpace(remoteAddr))
    case Some(host) => Trim(host, BRACKETS)
    case None => Trim(TrimSpace(remoteAddr), BRACKETS)
  }

  /** The first header, in order of trust, that names an address. */
  function HeaderIP(trueClientIp: string, forwardedFor: string, realIp: string): string {
    var a, b := FirstValid(Split(trueClientIp, ',')), FirstValid(Split(forwardedFor, ','));
    if a != "" then a else if b != "" then b else FirstValid(Split(realIp, ','))
  }

  function AddressOf(trueClientIp: string, forwardedFor: string, realIp: string, remoteAddr: string): string {
    var ip := HeaderIP(trueClientIp, forwardedFor, realIp);
    if ip != "" then ip else RemoteIP(remoteAddr)
  }

  /** extractClientIP */
  function ClientIP(q: Snapshot): string {
    AddressOf(q.trueClientIp, q.forwardedFor, q.realIp, q.remoteAddr)
  }

  /** An address-valued client IP is trimmed text, and a request that carries it as True-Client-Ip
      yields the same one again. */
  lemma HandOffIsStable(ip: string, forwardedFor: string, realIp: string, remoteAddr: string)
    requires ParseIP(ip).Some?
    ensures ip != "" && TrimSpace(ip) == ip
    ensures AddressOf(ip, forwardedFor, realIp, remoteAddr) == ip
  {
    ParsedChars(ip);
    hide ParseIP;
    AddressTextTrimmed(ip);
    AddressIsFirstValid(ip);
  }

  /** Whatever a header yields is an address. */
  lemma HeaderIPParses(q: Snapshot)
    requires HeaderIP(q.trueClientIp, q.forwardedFor, q.realIp) != ""
    ensures ClientIP(q) == HeaderIP(q.trueClientIp, q.forwardedFor, q.realIp) && ParseIP(ClientIP(q)).Some?
  {
    hide ParseIP, Split;
    FirstValidIsFirst(Split(q.trueClientIp, ','));
    FirstValidIsFirst(Split(q.forwardedFor, ','));
    FirstValidIsFirst(Split(q.realIp, ','));
  }

  // The same, told without the functions above.

  /** u is a comma-separated part of a header without white space and then brackets at its ends. */
  ghost predicate Bare(part: string, u: string) {
    exists inner :: Unspaced(part, inner) && Unbracketed(inner, u)
  }

  ghost predicate NoAddress(header: string) {
    forall part, u | part in Split(header, ',') && Bare(part, u) :: ParseIP(u).None?
  }

  /** ip is the first address among the parts of a header. */
  ghost predicate FirstAddress(header: string, ip: string) {
    exists k: nat :: k < |Split(header, ',')| && IsFirstAddress(Split(header, ','), k, ip)
  }

  ghost predicate IsFirstAddress(parts: seq<string>, k: nat, ip: string)
    requires k < |parts|
  {
    && Bare(parts[k], ip) && ParseIP(ip).Some?
    && forall j, u | 0 <= j < k && Bare(parts[j], u) :: ParseIP(u).None?
  }

  /** host:port, where neither part has a colon or a bracket. */
  predicate IsHostPort(addr: string, host: string, port: string) {
    addr == host + ":" + port && IsWord(host) && IsWord(port)
  }

  /** [host]:port, where the host may have colons. */
  predicate IsBracketed(addr: string, host: string, port: string) {
    addr == "[" + host + "]:" + port && IsWord(port) && NoBrackets(host)
  }

  predicate IsWord(s: string) {
    forall c | c in s :: c !in {':', '[', ']'}
  }

  predicate NoBrackets(s: string) {
    forall c | c in s :: c !in {'[', ']'}
  }

  /** The host of an address of one of these forms; an address of neither form, without brackets at its ends. */
  ghost predicate IsHostOf(addr: string, ip: string) {
    || (exists port :: IsHostPort(addr, ip, port) || IsBracketed(addr, ip, port))
    || ((forall host, port :: !IsHostPort(addr, host, port) && !IsBracketed(addr, host, port)) && Unbracketed(addr, ip))
  }

  /** The client's address: the first one in True-Client-Ip, else in X-Forwarded-For, else in X-Real-Ip, else
      the host of the remote address without white space at its ends. */
  ghost predicate IsClientIP(q: Snapshot, ip: string) {
    || FirstAddress(q.trueClientIp, ip)
    || (NoAddress(q.trueClientIp) && FirstAddress(q.forwardedFor, ip))
    || (NoAddress(q.trueClientIp) && NoAddress(q.forwardedFor) && FirstAddress(q.realIp, ip))
    || (NoAddress(q.trueClientIp) && NoAddress(q.forwardedFor) && NoAddress(q.realIp)
        && exists addr :: Unspaced(q.remoteAddr, addr) && IsHostOf(addr, ip))
  }

  lemma BareIs(part: string, u: string)
    ensures Bare(part, u) <==> u == Candidate(part)
  {
    UnspacedIs(part, TrimSpace(part));
    UnbracketedIs(TrimSpace(part), Candidate(part));
    if Bare(part, u) {
      var inner :| Unspaced(part, inner) && Unbracketed(inner, u);
      UnspacedIs(part, inner);
      UnbracketedIs(inner, u);
    }
  }

  lemma FirstValidAddress(header: string)
    ensures var ip := FirstValid(Split(header, ','));
      if ip == "" then NoAddress(header) else FirstAddress(header, ip)
  {
    hide ParseIP, Candidate, Bare, Split, FirstValid;
    var parts := Split(header, ',');
    var ip := FirstValid(parts);
    FirstValidIsFirst(parts);
    forall part, u | part in parts && Bare(part, u)
      ensures u == Candidate(part)
    {
      BareIs(part, u);
    }
    if ip != "" {
      var k: nat :| k < |parts| && IsFirstValid(parts, k, ip);
      BareIs(parts[k], ip);
      assert IsFirstAddress(parts, k, ip);
    }
  }

  /** Where a host and port end: the last colon is the one before the port. */
  lemma LastColon(before: string, port: string)
    requires ':' !in port
    ensures ':' in before + ":" + port && LastIndexOf(before + ":" + port, ':') == |before|
  {
    var s := before + ":" + port;
    assert s[|before|] == ':';
    var i := LastIndexOf(s, ':');
    assert s[i + 1..] != [] ==> forall k | i < k < |s| :: s[k] == s[i + 1..][k - i - 1];
    assert forall k | |before| < k < |s| :: s[k] == port[k - |before| - 1];
  }

  lemma NoBracketsTrim(host: string)
    requires NoBrackets(host)
    ensures Trim(host, BRACKETS) == host
  {
    if host != "" {
      assert host[0] in host && host[|host| - 1] in host;
    }
    TrimIsProjection(host, BRACKETS);
  }

  lemma SplitPair(host: string, port: string)
    requires IsWord(host) && IsWord(port)
    ensures SplitHost(host + ":" + port) == Some(host)
  {
    LastColon(host, port);
    hide LastIndexOf, IndexOf;
    var s := host + ":" + port;
    assert s[..|host|] == host;
    assert forall c | c in s :: c in host || c == ':' || c in port;
    if host != "" {
      assert s[0] == host[0] && host[0] in host;
    }
  }

  lemma WordPort(port: string)
    requires IsWord(port)
    ensures ':' !in port && '[' !in port && ']' !in port && NoBrackets(port)
  {
  }

  lemma BracketedIs(s: string, close: nat, colon: nat)
    requires ':' in s && ']' in s && s[0] == '['
    requires IndexOf(s, ']') == close && LastIndexOf(s, ':') == colon && close + 1 == colon && close > 0
    requires '[' !in s[1..] && ']' !in s[close + 1..]
    ensures SplitHost(s) == Some(s[1..close])
  {
    hide LastIndexOf, IndexOf;
  }

  lemma BracketedParts(host: string, port: string)
    requires NoBrackets(host) && '[' !in port && ']' !in port
    ensures var s, n := "[" + host + "]:" + port, |host| + 1;
      && s[n] == ']' && s[1..n] == host && ']' !in s[..n]
      && '[' !in s[1..] && ']' !in s[n + 1..]
  {
    var s, n := "[" + host + "]:" + port, |host| + 1;
    assert s[..n] == "[" + host && s[1..] == host + ("]:" + port) && s[n + 1..] == ":" + port;
  }

  lemma SplitBracketed(host: string, port: string)
    requires IsWord(port) && NoBrackets(host)
    ensures SplitHost("[" + host + "]:" + port) == Some(host)
  {
    hide LastIndexOf, IndexOf, IsWord, NoBrackets;
    var s, n := "[" + host + "]:" + port, |host| + 1;
    assert s == ("[" + host + "]") + ":" + port;
    WordPort(port);
    LastColon("[" + host + "]", port);
    BracketedParts(host, port);
    IndexOfFirst(s, ']', n);
    BracketedIs(s, n, n + 1);
  }

  lemma PairParts(s: string, host: string, port: string, i: nat)
    requires i < |s| && s[..i] == host && s[i + 1..] == port
    requires ':' !in port && ':' !in s[..i] && '[' !in s && ']' !in s
    ensures IsWord(host) && IsWord(port) && NoBrackets(host)
  {
    assert forall c | c in host :: c in s;
    assert forall c | c in port :: c in s;
  }

  lemma BracketParts(s: string, host: string, port: string, close: nat)
    requires close + 1 < |s| && s[..close] == "[" + host && s[close..] == "]:" + port
    requires ':' !in port && '[' !in s[1..] && ']' !in s[close + 1..] && ']' !in s[..close]
    ensures s == "[" + host + "]:" + port && IsWord(port) && NoBrackets(host)
  {
    assert s == s[..close] + s[close..];
    assert s[1..] == host + "]:" + port && s[close + 1..] == ":" + port;
    assert forall c | c in host :: c in "[" + host && c in host + "]:" + port;
    assert forall c | c in port :: c in ":" + port && c in host + "]:" + port;
  }

  /** And nothing else splits. */
  lemma SplitForms(s: string) returns (port: string)
    requires SplitHost(s).Some?
    ensures NoBrackets(SplitHost(s).value)
    ensures IsHostPort(s, SplitHost(s).value, port) || IsBracketed(s, SplitHost(s).value, port)
  {
    hide LastIndexOf, IndexOf, IsWord, NoBrackets;
    var host, i := SplitHost(s).value, LastIndexOf(s, ':');
    port := s[i + 1..];
    if s[0] == '[' {
      var close := IndexOf(s, ']');
      assert s[..close] == "[" + host && s[close..] == "]:" + port;
      BracketParts(s, host, port, close);
    } else {
      assert s[..i] == host && s == host + ":" + port;
      PairParts(s, host, port, i);
    }
  }

  lemma RemoteIs(addr: string)
    ensures IsHostOf(addr, match SplitHost(addr)
                           case Some(host) => Trim(host, BRACKETS)
                           case None => Trim(addr, BRACKETS))
  {
    hide Trim, IsHostPort, IsBracketed;
    if SplitHost(addr).Some? {
      var port := SplitForms(addr);
      NoBracketsTrim(SplitHost(addr).value);
    } else {
      UnbracketedIs(addr, Trim(addr, BRACKETS));
      hide SplitHost;
      forall host, port
        ensures !IsHostPort(addr, host, port) && !IsBracketed(addr, host, port)
      {
        if IsHostPort(addr, host, port) || IsBracketed(addr, host, port) {
          FormsSplit(addr, host, port);
        }
      }
    }
  }

  lemma FormsSplit(addr: string, host: string, port: string)
    requires IsHostPort(addr, host, port) || IsBracketed(addr, host, port)
    ensures SplitHost(addr) == Some(host)
  {
    hide SplitHost;
    if IsHostPort(addr, host, port) {
      SplitPair(host, port);
    } else {
      SplitBracketed(host, port);
    }
  }

  /** What is modelled is that address. */
  lemma ClientIPIs(q: Snapshot)
    ensures IsClientIP(q, ClientIP(q))
  {
    FirstValidAddress(q.trueClientIp);
    FirstValidAddress(q.forwardedFor);
    FirstValidAddress(q.realIp);
    UnspacedIs(q.remoteAddr, TrimSpace(q.remoteAddr));
    RemoteIs(TrimSpace(q.remoteAddr));
    hide FirstValid, Split, Bare, NoAddress, FirstAddress, IsHostOf, TrimSpace, SplitHost, Unspaced;
  }

  lemma RemoteOf(addr: string, host: string, port: string)
    requires IsHostPort(addr, host, port) || IsBracketed(addr, host, port)
    requires forall c | c in addr :: c !in {' ', '\t', '\n', '\U{000B}', '\U{000C}', '\r'}
    ensures RemoteIP(addr) == host
  {
    hide TrimSpace, SplitHost, Trim, IsHostPort, IsBracketed;
    NotSpaced(addr);
    FormsSplit(addr, host, port);
    WordHost(addr, host, port);
    NoBracketsTrim(host);
  }

  /** In particular the host of host:port, and what stands in the brackets of [host]:port. */
  lemma RemoteHost(q: Snapshot, host: string, port: string)
    requires NoAddress(q.trueClientIp) && NoAddress(q.forwardedFor) && NoAddress(q.realIp)
    requires IsHostPort(q.remoteAddr, host, port) || IsBracketed(q.remoteAddr, host, port)
    requires forall c | c in q.remoteAddr :: c !in {' ', '\t', '\n', '\U{000B}', '\U{000C}', '\r'}
    ensures ClientIP(q) == host
  {
    hide HeaderIP, NoAddress, RemoteIP, IsHostPort, IsBracketed;
    NoHeaderIP(q);
    RemoteOf(q.remoteAddr, host, port);
  }

  lemma NoHeaderIP(q: Snapshot)
    requires NoAddress(q.trueClientIp) && NoAddress(q.forwardedFor) && NoAddress(q.realIp)
    ensures HeaderIP(q.trueClientIp, q.forwardedFor, q.realIp) == ""
  {
    FirstValidAddress(q.trueClientIp);
    FirstValidAddress(q.forwardedFor);
    FirstValidAddress(q.realIp);
    NoneIsNone(q.trueClientIp, FirstValid(Split(q.trueClientIp, ',')));
    NoneIsNone(q.forwardedFor, FirstValid(Split(q.forwardedFor, ',')));
    NoneIsNone(q.realIp, FirstValid(Split(q.realIp, ',')));
    hide FirstValid, Split, NoAddress, FirstAddress;
  }

  lemma NoneIsNone(header: string, ip: string)
    requires NoAddress(header)
    ensures !FirstAddress(header, ip)
  {
    hide Bare, ParseIP, Split;
  }

  lemma NotSpaced(s: string)
    requires forall c | c in s :: c !in {' ', '\t', '\n', '\U{000B}', '\U{000C}', '\r'}
    ensures TrimSpace(s) == s
  {
    if s != "" {
      assert s[0] in s && s[|s| - 1] in s;
    }
    TrimIsProjection(s, SPACE);
  }

  lemma WordHost(addr: string, host: string, port: string)
    requires IsHostPort(addr, host, port) || IsBracketed(addr, host, port)
    ensures NoBrackets(host)
  {
  }

  // The decision.

  predicate Contains(s: string, t: string) {
    t <= s || (s != "" && Contains(s[1..], t))
  }

  predicate OccursAt(s: string, t: string, k: nat) {
    k + |t| <= |s| && s[k..k + |t|] == t
  }

  lemma OccursFirst(s: string, t: string)
    ensures OccursAt(s, t, 0) <==> t <= s
  {
    assert t <= s <==> |t| <= |s| && s[..|t|] == t;
    assert |t| <= |s| ==> s[0..0 + |t|] == s[..|t|];
  }

  lemma OccursLater(s: string, t: string, k: nat)
    requires s != ""
    ensures OccursAt(s, t, k + 1) <==> OccursAt(s[1..], t, k)
  {
    if k + 1 + |t| <= |s| {
      SameSlice(s, k, |t|);
    }
  }

  lemma SameSlice(s: string, k: nat, n: nat)
    requires k + 1 + n <= |s|
    ensures s[k + 1..k + 1 + n] == s[1..][k..k + n]
  {
    var a, b := s[k + 1..k + 1 + n], s[1..][k..k + n];
    assert |a| == |b| && forall i | 0 <= i < n :: a[i] == b[i];
  }

  lemma OccursInNothing(t: string)
    ensures forall k: nat :: OccursAt("", t, k) ==> t <= ""
  {
  }

  lemma {:induction false} ContainsIff(s: string, t: string)
    ensures Contains(s, t) <==> exists k: nat :: OccursAt(s, t, k)
    decreases |s|
  {
    hide OccursAt;
    OccursFirst(s, t);
    if !(t <= s) && s != "" {
      ContainsIff(s[1..], t);
      if Contains(s[1..], t) {
        var k: nat :| OccursAt(s[1..], t, k);
        OccursLater(s, t, k);
      }
      if k: nat :| OccursAt(s, t, k) {
        if k > 0 {
          OccursLater(s, t, k - 1);
        }
      }
    } else if s == "" {
      OccursInNothing(t);
    }
  }

  /** isBrowserRequest */
  predicate IsBrowserRequest(q: Snapshot) {
    Contains(q.accept, "text/html")
  }

  /** A POST whose body was read whole, within the limit: the requests that count as attempts. */
  predicate IsAttempt(q: Snapshot) {
    q.verb == "POST" && |q.body| <= MAX_LOGIN_REQUEST_BODY_BYTES && !q.broken
  }

  /** What the proxy does to the counters, given the identifier found in the body. */
  function ProxyEvent(q: Snapshot, identifier: string, corr: string, fault: Fault): Event {
    if IsAttempt(q) then AttemptEvent(BeforeLogin("", identifier, ClientIP(q)), corr, fault) else Tick(0)
  }

  function Prepared(q: Snapshot): Snapshot {
    q.(trueClientIp := if ClientIP(q) != "" then ClientIP(q) else q.trueClientIp, contentLength := |q.body|)
  }

  /** A request whose body has been read to its end, or to its failure, and closed. */
  function Spent(q: Snapshot): Snapshot {
    q.(body := [], broken := true)
  }

  function Decision(q: Snapshot, reply: CheckResult): Outcome {
    if q.verb != "POST" then Forwarded(q)
    else if |q.body| > MAX_LOGIN_REQUEST_BODY_BYTES then EntityTooLarge
    else if q.broken then Forwarded(q.(broken := false))
    else if reply.allowed then Forwarded(Prepared(q))
    else if IsBrowserRequest(q) then Redirected(LockoutURL(reply.retryAfterSeconds))
    else TooManyRequests(reply.reason, reply.message)
  }

  function LockoutURL(retryAfterSeconds: int): string {
    "/login?lockout=true&retry_after=" + Itoa(retryAfterSeconds)
  }

  /** An incoming request, which the proxy changes in place before it forwards it. */
  class Request {
    const verb: string
    const forwardedFor: string
    const realIp: string
    const remoteAddr: string
    const accept: string
    var body: seq<Byte>
    var broken: bool
    var contentLength: int
    var trueClientIp: string

    constructor (q: Snapshot)
      ensures Now() == q
    {
      verb := q.verb;
      forwardedFor := q.forwardedFor;
      realIp := q.realIp;
      remoteAddr := q.remoteAddr;
      accept := q.accept;
      body := q.body;
      broken := q.broken;
      contentLength := q.contentLength;
      trueClientIp := q.trueClientIp;
    }

    function Now(): Snapshot
      reads this
    {
      Snapshot(verb, body, broken, contentLength, trueClientIp, forwardedFor, realIp, remoteAddr, accept)
    }

    /** io.ReadAll behind a http.MaxBytesReader, and Close: the bytes are taken out of the request. */
    method ReadBody(limit: nat) returns (bytes: seq<Byte>, err: Option<ReadError>)
      modifies this`body, this`broken
      ensures Now() == Spent(old(Now()))
      ensures err == if |old(body)| > limit then Some(BodyTooLarge) else if old(broken) then Some(ReadFailed) else None
      ensures bytes == if |old(body)| > limit then old(body)[..limit] else old(body)
    {
      bytes := if |body| > limit then body[..limit] else body;
      err := if |body| > limit then Some(BodyTooLarge) else if broken then Some(ReadFailed) else None;
      body := [];
      broken := true;
    }

    /** r.Body = io.NopCloser(bytes.NewReader(bytes)): a body that can be read once more. */
    method SetBody(bytes: seq<Byte>)
      modifies this`body, this`broken
      ensures Now() == old(Now()).(body := bytes, broken := false)
    {
      body := bytes;
      broken := false;
    }

    method ExtractClientIP() returns (ip: string)
      ensures ip == ClientIP(Now())
      ensures IsClientIP(Now(), ip)
    {
      ClientIPIs(Now());
      hide IsClientIP;
      ip := FirstValidIP(trueClientIp);
      if ip != "" {
        return;
      }
      ip := FirstValidIP(forwardedFor);
      if ip != "" {
        return;
      }
      ip := FirstValidIP(realIp);
      if ip != "" {
        return;
      }
      return RemoteIP(remoteAddr);
    }
  }

  class Proxy {
    const service: Service

    constructor (service: Service)
      ensures this.service == service
    {
      this.service := service;
    }

    /** identifier stands for what extractIdentifier finds in the body. */
    method ServeHTTP(r: Request, identifier: string, correlationID: string, fault: Fault) returns (o: Outcome)
      requires Validated(service.cfg)
      modifies r, service`log, service.redisClient.server`keys
      ensures var q := old(r.Now());
        var db := old(service.redisClient.State());
        var e := ProxyEvent(q, identifier, correlationID, fault);
        && service.redisClient.State() == Step(service.cfg, db, e)
        && o == Decision(q, if e.Attempt? then ReplyTo(service.cfg, db, e) else UNCHECKED)
        && r.Now() == if o.Forwarded? then o.sent else Spent(q)
      // What each kind of request comes to.
      ensures var q := old(r.Now());
        var db := old(service.redisClient.State());
        var e := AttemptEvent(BeforeLogin("", identifier, ClientIP(q)), correlationID, fault);
        var reply := ReplyTo(service.cfg, db, e);
        if q.verb != "POST" then
          o == Forwarded(q) && service.redisClient.State() == db
        else if |q.body| > 1048576 then
          o == EntityTooLarge && service.redisClient.State() == db
        else if q.broken then
          o == Forwarded(q.(broken := false)) && service.redisClient.State() == db
        else
          && service.redisClient.State() == Step(service.cfg, db, e)
          && if reply.allowed then
               o == Forwarded(q.(contentLength := |q.body|,
                                 trueClientIp := if ClientIP(q) != "" then ClientIP(q) else q.trueClientIp))
             else Refused(q, reply, o)
      // Nothing is lost or added on the way, and Kratos reads what it would have read without the proxy, with
      // one exception: a POST body of undeclared length that breaks off arrives as if it were whole.
      ensures o.Forwarded? ==>
        var q := old(r.Now());
        && r.Now() == q.(broken := r.broken, contentLength := r.contentLength, trueClientIp := r.trueClientIp)
        && (IsAttempt(q) ==> Received(r.Now()) == Some(q.body))
        && (Delivered(q) ==>
            (Received(r.Now()) == Received(q) <==> q.verb != "POST" || !q.broken || q.contentLength != -1))
    {
      hide ReplyTo, Step, LogOf, Who, NormaliseIdentifier, TrimSpace, AddressOf, Contains, Itoa, IsClientIP, Refused;
      TickZero(service.cfg, service.redisClient.State());
      if r.verb != "POST" {
        return Forwarded(r.Now());
      }
      var bodyBytes, err := r.ReadBody(MAX_LOGIN_REQUEST_BODY_BYTES);
      if err.Some? {
        if err.value.BodyTooLarge? {
          return EntityTooLarge;
        }
        r.SetBody(bodyBytes);
        return Forwarded(r.Now());
      }
      var clientIP := r.ExtractClientIP();
      var result := service.CheckAndIncrement(BeforeLogin("", identifier, clientIP), correlationID, fault);
      if !result.allowed {
        DecisionRefuses(old(r.Now()), result);
        if IsBrowserRequest(r.Now()) {
          return Redirected(LockoutURL(result.retryAfterSeconds));
        }
        return TooManyRequests(result.reason, result.message);
      }
      if clientIP != "" {
        r.trueClientIp := clientIP;
      }
      r.SetBody(bodyBytes);
      r.contentLength := |bodyBytes|;
      return Forwarded(r.Now());
    }
  }

  /** A browser, which is whoever accepts "text/html", is sent to the login page, which is told the wait in
      decimal; anyone else is told the reason and the message. */
  ghost predicate Refused(q: Snapshot, reply: CheckResult, o: Outcome) {
    if exists k: nat :: OccursAt(q.accept, "text/html", k) then
      exists digits :: Denotes(digits, reply.retryAfterSeconds)
                       && o == Redirected("/login?lockout=true&retry_after=" + digits)
    else o == TooManyRequests(reply.reason, reply.message)
  }

  lemma DecisionRefuses(q: Snapshot, reply: CheckResult)
    requires IsAttempt(q) && !reply.allowed
    ensures Refused(q, reply, Decision(q, reply))
  {
    hide Contains, Itoa, Denotes, ClientIP;
    ContainsIff(q.accept, "text/html");
    ItoaDenotes(reply.retryAfterSeconds);
  }

  lemma TickZero(cfg: Config, db: Db)
    ensures Step(cfg, db, Tick(0)) == db
  {
  }

  // What arrives at Kratos.

  /** The body a server reads from a request: none when it breaks off or is not of its declared length. */
  function Received(q: Snapshot): Option<seq<Byte>> {
    if q.broken || (q.contentLength != -1 && q.contentLength != |q.body|) then None else Some(q.body)
  }

  /** How net/http delivers requests: a body that can be read whole has its declared length, one that
      breaks off is shorter. */
  predicate Delivered(q: Snapshot) {
    q.contentLength == -1 || if q.broken then |q.body| < q.contentLength else |q.body| == q.contentLength
  }

  /** The exception in ServeHTTP's contract: two bytes of a chunked login arrive, and then the connection breaks. */
  lemma TruncationArrivesWhole(reply: CheckResult)
    ensures var q := Snapshot("POST", [123, 34], true, -1, "", "", "", "192.0.2.1:5000", "");
      && Delivered(q) && Received(q) == None
      && Decision(q, reply).Forwarded? && Received(Decision(q, reply).sent) == Some([123, 34])
  {
    hide ClientIP;
  }

  /** The address read back from one that was written into True-Client-Ip: the same exactly when the
      first address among its comma-separated parts, if any, is the whole of it. */
  lemma AddressAgain(trueClientIp: string, forwardedFor: string, realIp: string, remoteAddr: string)
    ensures var ip := AddressOf(trueClientIp, forwardedFor, realIp, remoteAddr);
      && (AddressOf(ip, forwardedFor, realIp, remoteAddr) == ip <==> FirstValid(Split(ip, ',')) in ["", ip])
      && (HeaderIP(trueClientIp, forwardedFor, realIp) != "" ==> FirstValid(Split(ip, ',')) == ip)
  {
    FirstValidIdempotent(trueClientIp);
    FirstValidIdempotent(forwardedFor);
    FirstValidIdempotent(realIp);
    hide FirstValid, Split, RemoteIP;
  }

  /** A second proxy would find the client IP that the first one counted, and change nothing more, exactly
      when the first address among the comma-separated parts of that IP, if any, is the whole of it: always
      when the IP came from a header, or is an address. */
  lemma ForwardedAgain(q: Snapshot)
    ensures var ip := ClientIP(q);
      && (Prepared(Prepared(q)) == Prepared(q) <==> FirstValid(Split(ip, ',')) in ["", ip])
      && (HeaderIP(q.trueClientIp, q.forwardedFor, q.realIp) != "" || ParseIP(ip).Some? ==>
          FirstValid(Split(ip, ',')) == ip)
  {
    hide ParseIP, FirstValid, Split, HeaderIP, AddressOf;
    var ip := ClientIP(q);
    EmptyFirst();
    AddressAgain(q.trueClientIp, q.forwardedFor, q.realIp, q.remoteAddr);
    if ParseIP(ip).Some? {
      AddressIsFirstValid(ip);
    }
    EmptyAgain(ip, q.forwardedFor, q.realIp, q.remoteAddr);
  }

  lemma EmptyAgain(ip: string, forwardedFor: string, realIp: string, remoteAddr: string)
    ensures AddressOf(ip, forwardedFor, realIp, remoteAddr) == "" ==> FirstValid(Split(ip, ',')) == ""
  {
  }

  /** The redirect of a blocked browser names its wait: two differ exactly when the waits do. */
  lemma RedirectTellsWait(q: Snapshot, r: CheckResult, p: Snapshot, s: CheckResult)
    requires Decision(q, r).Redirected? && Decision(p, s).Redirected?
    ensures Decision(q, r) == Decision(p, s) <==> r.retryAfterSeconds == s.retryAfterSeconds
  {
    hide Itoa, ClientIP;
    var url := "/login?lockout=true&retry_after=";
    assert LockoutURL(r.retryAfterSeconds)[|url|..] == Itoa(r.retryAfterSeconds);
    assert LockoutURL(s.retryAfterSeconds)[|url|..] == Itoa(s.retryAfterSeconds);
    if Decision(q, r) == Decision(p, s) {
      ItoaInjective(r.retryAfterSeconds, s.retryAfterSeconds);
    }
  }

  // The after-login hook resets what the proxy counted.

  /** The hook's reset, for an email of the identifier's normal form and the forwarded True-Client-Ip,
      deletes the very keys that the attempt raised, and no other counter; the next attempt then counts
      1 on each. */
  lemma ProxyResetsWhatItCounted(cfg: Config, db: Db, q: Snapshot, identifier: string, corr: string, fault: Fault,
                                 hook: AfterLogin, hookCorr: string)
    requires Validated(cfg) && GoodDb(cfg, db) && IsAttempt(q) && ClientIP(q) != ""
    requires NormaliseIdentifier(hook.email) == NormaliseIdentifier(identifier)
    requires hook.clientIP == Prepared(q).trueClientIp
    ensures var e := ProxyEvent(q, identifier, corr, fault);
      var f := ResetEvent(hook, hookCorr, NoFault);
      var after := Step(cfg, db, f);
      && KeysOf(f) == KeysOf(e)
      && ResetKeys(f.id, f.ip) == (set k | k in KeysOf(e) :: KeyText(k))
      && GoodDb(cfg, after)
      && (forall k | IsCounter(k) :: CellOf(after, k) == if k in KeysOf(e) then Absent else CellOf(db, k))
  {
    hide ClientIP, NormaliseIdentifier, TrimSpace, Step;
    var e := ProxyEvent(q, identifier, corr, fault);
    var f := ResetEvent(hook, hookCorr, NoFault);
    StepKeepsGood(cfg, db, f);
    forall k | IsCounter(k)
      ensures CellOf(Step(cfg, db, f), k) == if k in KeysOf(e) then Absent else CellOf(db, k)
    {
      StepCell(cfg, db, f, k);
      assert Names(f, k) <==> k in KeysOf(e);
    }
  }

  /** After that reset, whatever else the service handles and however long it takes, the first login
      attempt with the same normal form of identifier and the same client IP counts 1 and 1. */
  lemma NextAttemptIsFirst(cfg: Config, db: Db, q: Snapshot, identifier: string, hook: AfterLogin, hookCorr: string,
                           es: seq<Event>, p: Snapshot, again: string, corr: string)
    requires Validated(cfg) && GoodDb(cfg, db) && IsAttempt(q) && IsAttempt(p) && ParseIP(ClientIP(q)).Some?
    requires NormaliseIdentifier(hook.email) == NormaliseIdentifier(identifier) == NormaliseIdentifier(again) != ""
    requires hook.clientIP == Prepared(q).trueClientIp && ClientIP(p) == ClientIP(q)
    requires var next := ProxyEvent(p, again, corr, NoFault); forall k | k in KeysOf(next) :: NeverHit(es, k)
    ensures var after := Run(cfg, Step(cfg, db, ResetEvent(hook, hookCorr, NoFault)), es);
      ReplyTo(cfg, after, ProxyEvent(p, again, corr, NoFault)) == CheckResult(true, 1, 1, "", "", 0)
  {
    hide ClientIP, NormaliseIdentifier, TrimSpace, Step, Run, ReplyTo, ParseIP, KeysOf, NeverHit;
    PreparedKeepsIP(q);
    ProxyResetsWhatItCounted(cfg, db, q, identifier, corr, NoFault, hook, hookCorr);
    var start := Step(cfg, db, ResetEvent(hook, hookCorr, NoFault));
    var next := ProxyEvent(p, again, corr, NoFault);
    assert next == ProxyEvent(q, identifier, corr, NoFault);
    forall k | k in KeysOf(next)
      ensures CellOf(Run(cfg, start, es), k).Absent?
    {
      AbsentStays(cfg, start, es, k);
    }
    RunKeepsGood(cfg, start, es);
    FreshReply(cfg, Run(cfg, start, es), next);
  }

  lemma PreparedKeepsIP(q: Snapshot)
    requires ParseIP(ClientIP(q)).Some?
    ensures ClientIP(Prepared(q)) == ClientIP(q) != "" && TrimSpace(ClientIP(q)) == ClientIP(q)
  {
    hide ParseIP, AddressOf, TrimSpace;
    HandOffIsStable(ClientIP(q), q.forwardedFor, q.realIp, q.remoteAddr);
    assert Prepared(q).trueClientIp == ClientIP(q);
  }

  // What Kratos gets to see.

  /** A run of the service with its proxy in front. */
  datatype ProxyStep =
    | Login(q: Snapshot, identifier: string, corr: string, fault: Fault)
    | Other(event: Event)

  function EventOf(p: ProxyStep): Event {
    match p
    case Login(q, identifier, corr, fault) => ProxyEvent(q, identifier, corr, fault)
    case Other(e) => e
  }

  function EventsOf(ps: seq<ProxyStep>): seq<Event> {
    seq(|ps|, i requires 0 <= i < |ps| => EventOf(ps[i]))
  }

  /** A login for the identifier, or from the IP. */
  predicate On(q: Snapshot, identifier: string, key: Key) {
    match key
    case IdentifierKey(id) => NormaliseIdentifier(identifier) == id
    case IpKey(ip) => TrimSpace(ClientIP(q)) == ip
    case WelcomeKey(_) => false
  }

  function OutcomeOf(cfg: Config, db: Db, p: ProxyStep): Outcome
    requires p.Login?
  {
    Decision(p.q, if IsAttempt(p.q) then ReplyTo(cfg, db, EventOf(p)) else UNCHECKED)
  }

  /** A login POST that Kratos gets to read whole. */
  predicate Arrives(cfg: Config, db: Db, p: ProxyStep, key: Key) {
    && p.Login? && On(p.q, p.identifier, key) && p.q.verb == "POST"
    && OutcomeOf(cfg, db, p).Forwarded? && Received(OutcomeOf(cfg, db, p).sent).Some?
  }

  /** An attempt that the service let through. */
  predicate IsGuess(cfg: Config, db: Db, p: ProxyStep, key: Key) {
    && p.Login? && On(p.q, p.identifier, key) && IsAttempt(p.q)
    && OutcomeOf(cfg, db, p).Forwarded?
  }

  /** A POST of undeclared length that breaks off within the limit. */
  predicate IsCut(p: ProxyStep, key: Key) {
    && p.Login? && On(p.q, p.identifier, key) && p.q.verb == "POST"
    && p.q.broken && p.q.contentLength == -1 && |p.q.body| <= MAX_LOGIN_REQUEST_BODY_BYTES
  }

  predicate AllDelivered(ps: seq<ProxyStep>) {
    forall p | p in ps :: p.Login? ==> Delivered(p.q)
  }

  /** The logins that arrive at a time in [from, end). */
  function Arrivals(cfg: Config, db: Db, ps: seq<ProxyStep>, key: Key, from: int, end: int): nat
    decreases |ps|
  {
    if ps == [] then 0
    else
      One(Within(db.now, from, end) && Arrives(cfg, db, ps[0], key)) +
      Arrivals(cfg, Step(cfg, db, EventOf(ps[0])), ps[1..], key, from, end)
  }

  function Guesses(cfg: Config, db: Db, ps: seq<ProxyStep>, key: Key, from: int, end: int): nat
    decreases |ps|
  {
    if ps == [] then 0
    else
      One(Within(db.now, from, end) && IsGuess(cfg, db, ps[0], key)) +
      Guesses(cfg, Step(cfg, db, EventOf(ps[0])), ps[1..], key, from, end)
  }

  function Cuts(now: int, ps: seq<ProxyStep>, key: Key, from: int, end: int): nat
    decreases |ps|
  {
    if ps == [] then 0
    else
      One(Within(now, from, end) && IsCut(ps[0], key)) +
      Cuts(now + Duration(EventOf(ps[0])), ps[1..], key, from, end)
  }

  lemma GuessIsAllowed(cfg: Config, db: Db, p: ProxyStep, key: Key)
    requires key.name != "" && IsGuess(cfg, db, p, key)
    ensures var e := EventOf(p); e.Attempt? && Names(e, key) && ReplyTo(cfg, db, e).allowed
  {
    hide ReplyTo, NormaliseIdentifier, TrimSpace, ClientIP, Contains;
  }

  lemma {:induction false} GuessesAreAllowed(cfg: Config, db: Db, ps: seq<ProxyStep>, key: Key, from: int, end: int)
    requires key.name != ""
    ensures Guesses(cfg, db, ps, key, from, end) <= AllowedIn(cfg, db, EventsOf(ps), key, from, end)
    decreases |ps|
  {
    hide IsGuess, ReplyTo, Step, EventOf;
    if ps != [] {
      var e := EventOf(ps[0]);
      assert EventsOf(ps)[0] == e && EventsOf(ps)[1..] == EventsOf(ps[1..]);
      GuessesAreAllowed(cfg, Step(cfg, db, e), ps[1..], key, from, end);
      if IsGuess(cfg, db, ps[0], key) {
        GuessIsAllowed(cfg, db, ps[0], key);
      }
    }
  }

  /** However logins, hooks, clock ticks and faults interleave, the attempts that are forwarded for one
      normalised identifier, or from one client IP, in any interval obey the rate bound. */
  lemma GuessesAreBounded(cfg: Config, db: Db, ps: seq<ProxyStep>, key: Key, from: int, n: int)
    requires Validated(cfg) && GoodDb(cfg, db) && IsCounter(key) && key.name != "" && n > 0
    ensures var es, end := EventsOf(ps), from + n;
      Guesses(cfg, db, ps, key, from, end) <=
        SharpBound(cfg, key, n, ResetsIn(db.now, es, key, from, end), FaultsIn(db.now, es, key, from, end))
  {
    hide SharpBound, Bound, Guesses, AllowedIn, GoodDb;
    GuessesAreAllowed(cfg, db, ps, key, from, from + n);
    RateBound(cfg, db, EventsOf(ps), key, from, n);
  }

  /** What arrives whole was counted and let through, or was cut. */
  lemma ArrivesIff(cfg: Config, db: Db, p: ProxyStep, key: Key)
    requires p.Login? ==> Delivered(p.q)
    ensures Arrives(cfg, db, p, key) <==> IsGuess(cfg, db, p, key) || IsCut(p, key)
    ensures !(IsGuess(cfg, db, p, key) && IsCut(p, key))
  {
    hide ReplyTo, On, ClientIP, EventOf;
  }

  lemma {:induction false} ArrivalsAre(cfg: Config, db: Db, ps: seq<ProxyStep>, key: Key, from: int, end: int)
    requires AllDelivered(ps)
    ensures Arrivals(cfg, db, ps, key, from, end) ==
      Guesses(cfg, db, ps, key, from, end) + Cuts(db.now, ps, key, from, end)
    decreases |ps|
  {
    hide Arrives, IsGuess, IsCut, Step, EventOf, Delivered;
    if ps != [] {
      assert ps[0] in ps && AllDelivered(ps[1..]);
      ArrivesIff(cfg, db, ps[0], key);
      StepClock(cfg, db, EventOf(ps[0]));
      ArrivalsAre(cfg, Step(cfg, db, EventOf(ps[0])), ps[1..], key, from, end);
    }
  }

  /** The login POSTs that Kratos gets to read whole obey the rate bound, but for those that were cut. */
  lemma ArrivalsAreBounded(cfg: Config, db: Db, ps: seq<ProxyStep>, key: Key, from: int, n: int)
    requires Validated(cfg) && GoodDb(cfg, db) && IsCounter(key) && key.name != "" && n > 0 && AllDelivered(ps)
    ensures var es, end := EventsOf(ps), from + n;
      Arrivals(cfg, db, ps, key, from, end) <=
        SharpBound(cfg, key, n, ResetsIn(db.now, es, key, from, end), FaultsIn(db.now, es, key, from, end))
        + Cuts(db.now, ps, key, from, end)
  {
    hide SharpBound, Guesses, Arrivals, Cuts, GoodDb, AllDelivered;
    ArrivalsAre(cfg, db, ps, key, from, from + n);
    GuessesAreBounded(cfg, db, ps, key, from, n);
  }

  // Exactly when the bound holds.

  /** In every run with at most b cut POSTs in an interval, what arrives exceeds the rate bound by at most x. */
  ghost predicate ExceedsByAtMost(cfg: Config, key: Key, b: nat, x: nat)
    requires Validated(cfg)
  {
    forall db: Db, ps: seq<ProxyStep>, from: int, end: int |
      GoodDb(cfg, db) && AllDelivered(ps) && from < end && Cuts(db.now, ps, key, from, end) <= b ::
      Arrivals(cfg, db, ps, key, from, end) <=
        SharpBound(cfg, key, end - from, ResetsIn(db.now, EventsOf(ps), key, from, end),
                   FaultsIn(db.now, EventsOf(ps), key, from, end)) + x
  }

  /** Some login is on this counter: the identifier is in normal form, the IP is one that requests can have. */
  ghost predicate Nameable(key: Key) {
    exists q: Snapshot, identifier: string :: On(q, identifier, key)
  }

  lemma WhatCanBeNamed(name: string)
    ensures Nameable(IdentifierKey(name)) <==> NormaliseIdentifier(name) == name
    ensures ParseIP(name).Some? ==> Nameable(IpKey(name))
  {
    hide NormaliseIdentifier, ParseIP, AddressOf, TrimSpace;
    var q := Snapshot("POST", [], false, 0, name, "", "", "", "");
    if NormaliseIdentifier(name) == name {
      assert On(q, name, IdentifierKey(name));
    }
    if Nameable(IdentifierKey(name)) {
      var r: Snapshot, identifier: string :| On(r, identifier, IdentifierKey(name));
      NormaliseIsProjection(identifier);
    }
    if ParseIP(name).Some? {
      HandOffIsStable(name, "", "", "");
      assert On(q, "", IpKey(name));
    }
  }

  /** A login on one counter alone. */
  lemma SoleLogin(key: Key) returns (q: Snapshot, identifier: string)
    requires Nameable(key) && key.name != ""
    ensures IsAttempt(q) && Delivered(q) && On(q, identifier, key)
    ensures Lone(ProxyEvent(q, identifier, "", NoFault), key)
  {
    hide On, IsAttempt, Delivered, Lone, ProxyEvent;
    q, identifier :| On(q, identifier, key);
    if key.IdentifierKey? {
      NamesIdentifier(q, identifier, key);
      q := Snapshot("POST", [123, 125], false, 2, "", "", "", "", "");
      IdentifierAlone(identifier, q, key);
    } else {
      IpAlone(q, identifier, key);
      q, identifier := q.(verb := "POST", body := [123, 125], broken := false, contentLength := 2), "";
    }
  }

  lemma NamesIdentifier(q: Snapshot, identifier: string, key: Key)
    requires key.IdentifierKey? && On(q, identifier, key)
    ensures NormaliseIdentifier(identifier) == key.name
  {
  }

  lemma IdentifierAlone(identifier: string, q: Snapshot, key: Key)
    requires key.IdentifierKey? && NormaliseIdentifier(identifier) == key.name != ""
    requires q == Snapshot("POST", [123, 125], false, 2, "", "", "", "", "")
    ensures IsAttempt(q) && Delivered(q) && On(q, identifier, key)
    ensures Lone(ProxyEvent(q, identifier, "", NoFault), key)
  {
    hide NormaliseIdentifier, TrimSpace, AddressOf;
    NothingThere();
  }

  lemma IpAlone(q: Snapshot, identifier: string, key: Key)
    requires !key.IdentifierKey? && On(q, identifier, key) && key.name != ""
    ensures var login := q.(verb := "POST", body := [123, 125], broken := false, contentLength := 2);
      IsAttempt(login) && Delivered(login) && On(login, "", key) && Lone(ProxyEvent(login, "", "", NoFault), key)
  {
    hide NormaliseIdentifier, TrimSpace, AddressOf;
    NothingThere();
  }

  lemma NoHost()
    ensures TrimSpace("") == "" && NormaliseIdentifier("") == "" && RemoteIP("") == ""
  {
    hide ParseIP, FirstValid;
  }

  lemma NothingThere()
    ensures NormaliseIdentifier("") == "" && AddressOf("", "", "", "") == "" && TrimSpace("") == ""
  {
    EmptyFirst();
    NoHost();
    hide FirstValid, Split, RemoteIP, TrimSpace, NormaliseIdentifier;
  }

  function Copies(p: ProxyStep, n: nat): seq<ProxyStep> {
    if n == 0 then [] else [p] + Copies(p, n - 1)
  }

  lemma {:induction false} CopiesMembers(p: ProxyStep, n: nat)
    ensures forall r | r in Copies(p, n) :: r == p
  {
    if n > 0 {
      CopiesMembers(p, n - 1);
    }
  }

  /** Each cut POST arrives, whatever the store, and changes nothing. */
  lemma {:induction false} CutsArrive(cfg: Config, db: Db, key: Key, cut: ProxyStep, b: nat, from: int, end: int)
    requires from <= db.now < end && IsCut(cut, key)
    ensures Arrivals(cfg, db, Copies(cut, b), key, from, end) == Cuts(db.now, Copies(cut, b), key, from, end) == b
    decreases b
  {
    hide Step, On, ClientIP;
    if b > 0 {
      assert Copies(cut, b)[1..] == Copies(cut, b - 1);
      assert EventOf(cut) == Tick(0);
      TickZero(cfg, db);
      CutsArrive(cfg, db, key, cut, b - 1, from, end);
    }
  }

  /** A full limit of attempts on a fresh counter arrives, and each cut POST after it. */
  lemma {:induction false} AllArrive(cfg: Config, db: Db, key: Key, p: ProxyStep, n: nat, cut: ProxyStep, b: nat,
                                     from: int, end: int)
    requires Validated(cfg) && GoodDb(cfg, db) && from <= db.now < end && IsCut(cut, key)
    requires p.Login? && IsAttempt(p.q) && On(p.q, p.identifier, key) && Lone(EventOf(p), key)
    requires CountIn(CellOf(db, key)) + n <= Limit(cfg, key)
    ensures Arrivals(cfg, db, Copies(p, n) + Copies(cut, b), key, from, end) == n + b
    ensures Cuts(db.now, Copies(p, n) + Copies(cut, b), key, from, end) == b
    decreases n
  {
    hide Step, On, ClientIP, EventOf, KeysOf, GoodDb, CellOf, ReplyTo, IsAttempt, IsCut, Arrives;
    var ps := Copies(p, n) + Copies(cut, b);
    if n == 0 {
      assert ps == Copies(cut, b);
      CutsArrive(cfg, db, key, cut, b, from, end);
    } else {
      assert ps[0] == p && ps[1..] == Copies(p, n - 1) + Copies(cut, b);
      OneMore(cfg, db, key, EventOf(p));
      StepClock(cfg, db, EventOf(p));
      FirstArrives(cfg, db, p, key);
      AllArrive(cfg, Step(cfg, db, EventOf(p)), key, p, n - 1, cut, b, from, end);
    }
  }

  lemma FirstArrives(cfg: Config, db: Db, p: ProxyStep, key: Key)
    requires p.Login? && IsAttempt(p.q) && On(p.q, p.identifier, key) && EventOf(p).Attempt?
    requires ReplyTo(cfg, db, EventOf(p)).allowed
    ensures Arrives(cfg, db, p, key) && !IsCut(p, key)
  {
    hide On, ClientIP, EventOf, ReplyTo;
  }

  /** At one instant on a fresh counter: a full limit of attempts and b cut POSTs, without resets or faults. */
  lemma CutsExceed(cfg: Config, key: Key, b: nat) returns (ps: seq<ProxyStep>)
    requires Validated(cfg) && IsCounter(key) && key.name != "" && Nameable(key)
    ensures AllDelivered(ps) && Cuts(0, ps, key, 0, 1) == b
    ensures ResetsIn(0, EventsOf(ps), key, 0, 1) == 0 && FaultsIn(0, EventsOf(ps), key, 0, 1) == 0
    ensures Arrivals(cfg, Db(map[], 0), ps, key, 0, 1) == SharpBound(cfg, key, 1, 0, 0) + b
  {
    hide On, ClientIP, Lone, GoodDb, CellOf, Nameable, Copies, Arrivals, Cuts, ResetsIn, FaultsIn, EventsOf,
        AllDelivered;
    hide IsAttempt, IsCut, Delivered, SharpBound, ProxyEvent;
    var q, identifier := SoleLogin(key);
    var p := Login(q, identifier, "", NoFault);
    var cut := Login(q.(broken := true, contentLength := -1), identifier, "", NoFault);
    CutOf(q, identifier, key);
    EmptyIsClean(cfg, key);
    var m := Limit(cfg, key);
    ps := Copies(p, m) + Copies(cut, b);
    AllArrive(cfg, Db(map[], 0), key, p, m, cut, b, 0, 1);
    OnlyLogins(key, p, m, cut, b);
    InstantBound(cfg, key);
  }

  lemma InstantBound(cfg: Config, key: Key)
    requires Validated(cfg)
    ensures SharpBound(cfg, key, 1, 0, 0) == Limit(cfg, key)
  {
    NothingIsWhole(Lockout(cfg, key));
  }

  lemma OnlyLogins(key: Key, p: ProxyStep, n: nat, cut: ProxyStep, b: nat)
    requires p.Login? && IsAttempt(p.q) && Delivered(p.q) && p.fault.NoFault?
    requires cut.Login? && Delivered(cut.q) && IsCut(cut, key)
    ensures var ps := Copies(p, n) + Copies(cut, b);
      && AllDelivered(ps)
      && ResetsIn(0, EventsOf(ps), key, 0, 1) == 0 && FaultsIn(0, EventsOf(ps), key, 0, 1) == 0
  {
    hide On, ClientIP, NormaliseIdentifier, TrimSpace, ResetsIn, FaultsIn, Copies;
    var ps := Copies(p, n) + Copies(cut, b);
    CopiesMembers(p, n);
    CopiesMembers(cut, b);
    forall e | e in EventsOf(ps)
      ensures e.Tick? || (e.Attempt? && e.fault.NoFault?)
    {
      var i :| 0 <= i < |ps| && EventsOf(ps)[i] == e;
      assert ps[i] in ps;
    }
    OnlyAttemptsAndTicks(0, EventsOf(ps), key, 0, 1);
  }

  lemma CutOf(q: Snapshot, identifier: string, key: Key)
    requires On(q, identifier, key) && IsAttempt(q)
    ensures var cut := q.(broken := true, contentLength := -1);
      Delivered(cut) && IsCut(Login(cut, identifier, "", NoFault), key)
  {
    hide AddressOf, NormaliseIdentifier, TrimSpace;
  }

  /** Cut POSTs are all that can exceed the rate bound, and each of them can: what arrives stays within x of
      it in every run with at most b cut POSTs in the interval, exactly when b is at most x. */
  lemma CutsDecide(cfg: Config, key: Key, b: nat, x: nat)
    requires Validated(cfg) && IsCounter(key) && key.name != ""
    ensures ExceedsByAtMost(cfg, key, b, x) <==> b <= x || !Nameable(key)
  {
    hide SharpBound, Arrivals, Cuts, Nameable, AllDelivered, GoodDb;
    if ExceedsByAtMost(cfg, key, b, x) && Nameable(key) {
      var ps := CutsExceed(cfg, key, b);
      EmptyIsClean(cfg, key);
    }
    if b <= x || !Nameable(key) {
      forall db: Db, ps: seq<ProxyStep>, from: int, end: int |
        GoodDb(cfg, db) && AllDelivered(ps) && from < end && Cuts(db.now, ps, key, from, end) <= b
        ensures Arrivals(cfg, db, ps, key, from, end) <=
          SharpBound(cfg, key, end - from, ResetsIn(db.now, EventsOf(ps), key, from, end),
                     FaultsIn(db.now, EventsOf(ps), key, from, end)) + x
      {
        ArrivalsAreBounded(cfg, db, ps, key, from, end - from);
        if !Nameable(key) {
          NobodyCuts(db.now, ps, key, from, end);
        }
      }
    }
  }

  lemma {:induction false} NobodyCuts(now: int, ps: seq<ProxyStep>, key: Key, from: int, end: int)
    requires !Nameable(key)
    ensures Cuts(now, ps, key, from, end) == 0
    decreases |ps|
  {
    hide EventOf, On;
    if ps != [] {
      NobodyCuts(now + Duration(EventOf(ps[0])), ps[1..], key, from, end);
    }
  }

  /** So the rate bound holds for what Kratos gets to read exactly if no POST of undeclared length may break off. */
  lemma BoundHoldsIff(cfg: Config, key: Key, b: nat)
    requires Validated(cfg) && IsCounter(key) && key.name != "" && Nameable(key)
    ensures ExceedsByAtMost(cfg, key, b, 0) <==> b == 0
  {
    hide ExceedsByAtMost, Nameable;
    CutsDecide(cfg, key, b, 0);
  }
}

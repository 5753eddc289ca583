/** Printing the authority of a request, and parsing a target back from it. Whether a string is an IPv6
    literal is a parameter: the address parser of the standard library. */
module Authority {
  import opened Collections
  import opened Text

  const HTTPS_DEFAULT_PORT := 443
  const HTTP_DEFAULT_PORT := 80

  predicate IsSpace(c: char) {
    c == ' ' || c == '\t' || c == '\n' || c == '\r' || c == '\U{0B}' || c == '\U{0C}'
  }

  function TrimStart(s: string): string {
    if s != [] && IsSpace(s[0]) then TrimStart(s[1..]) else s
  }

  function TrimEnd(s: string): string {
    if s != [] && IsSpace(s[|s| - 1]) then TrimEnd(s[..|s| - 1]) else s
  }

  function Trim(s: string): string { TrimEnd(TrimStart(s)) }

  function TrimStartChar(s: string, c: char): string {
    if s != [] && s[0] == c then TrimStartChar(s[1..], c) else s
  }

  function TrimEndChar(s: string, c: char): string {
    if s != [] && s[|s| - 1] == c then TrimEndChar(s[..|s| - 1], c) else s
  }

  function StripPrefix(s: string, prefix: string): Option<string> {
    if prefix <= s then Some(s[|prefix|..]) else None
  }

  /** `rsplit_once(c)`: around the last separator. */
  function RSplitOnce(s: string, c: char): (r: Option<(string, string)>)
    ensures r.Some? ==> s == r.value.0 + [c] + r.value.1 && c !in r.value.1
    ensures r.None? <==> c !in s
  {
    if s == [] then None
    else
      var init, last := s[..|s| - 1], s[|s| - 1];
      assert s == init + [last];
      if last == c then Some((init, []))
      else
        var r := RSplitOnce(init, c);
        if r.Some? then Some((r.value.0, r.value.1 + [last])) else None
  }

  function Occurrences(s: string, c: char): nat {
    if s == [] then 0 else (if s[0] == c then 1 else 0) + Occurrences(s[1..], c)
  }

  // ----- printing -----

  function WireHost(host: string): string {
    TrimEndChar(TrimStartChar(host, '['), ']')
  }

  predicate HasExplicitPort(input: string) {
    var t := Trim(input);
    if t != [] && t[0] == '[' then
      var split := SplitOnce(t, ']');
      && split.Some?
      && StripPrefix(split.value.1, ":").Some?
      && ParseU16(StripPrefix(split.value.1, ":").value).Some?
    else
      var split := RSplitOnce(t, ':');
      split.Some? && ':' !in split.value.0 && ParseU16(split.value.1).Some?
  }

  function Bracketed(bare: string): string { "[" + bare + "]" }

  function WireAuthority(host: string, port: nat, tls: bool): string {
    if HasExplicitPort(host) then Trim(host)
    else
      var bare := WireHost(host);
      var default := if tls then HTTPS_DEFAULT_PORT else HTTP_DEFAULT_PORT;
      if port != 0 && port != default then
        if ':' in bare then Bracketed(bare) + ":" + Digits(port) else bare + ":" + Digits(port)
      else if ':' in bare then Bracketed(bare)
      else bare
  }

  function UriAuthority(host: string, isV6: string -> bool): string {
    if HasExplicitPort(host) then Trim(host)
    else
      var bare := WireHost(host);
      if isV6(bare) then Bracketed(bare) else bare
  }

  function UriAuthorityAt(host: string, port: nat, isV6: string -> bool): string {
    if HasExplicitPort(host) then Trim(host)
    else
      UriAuthority(host, isV6) + if port != 0 && port != HTTPS_DEFAULT_PORT then ":" + Digits(port) else []
  }

  // ----- parsing -----

  datatype Target = Target(host: string, port: nat)

  datatype TargetError =
    LooksLikeUrl | EmptyBrackets | Unterminated | PortOutOfRange | UserAtHost | ExpectedHostPort | EmptyTarget

  predicate HasScheme(input: string) {
    StripPrefix(input, "http://").Some? || StripPrefix(input, "https://").Some?
  }

  function ParseBracketed(rest: string, defaultPort: nat): Result<Target, TargetError> {
    var split := SplitOnce(rest, ']');
    if split.None? then Err(Unterminated)
    else
      var (addr, portPart) := split.value;
      if addr == [] then Err(EmptyBrackets)
      else if portPart == [] then Ok(Target(Bracketed(addr), defaultPort))
      else
        var digits := StripPrefix(portPart, ":");
        var port := ParseU16(if digits.Some? then digits.value else []);
        if port.Some? then Ok(Target(Bracketed(addr), port.value)) else Err(PortOutOfRange)
  }

  function ParseHostPort(input: string): Result<Target, TargetError> {
    var split := RSplitOnce(input, ':');
    if split.Some? && split.value.0 != [] && AllDigits(split.value.1) then
      var port := ParseU16(split.value.1);
      if port.Some? then Ok(Target(split.value.0, port.value)) else Err(PortOutOfRange)
    else Err(ExpectedHostPort)
  }

  function Parse(text: string, defaultPort: nat): Result<Target, TargetError> {
    var input := Trim(text);
    if HasScheme(input) then Err(LooksLikeUrl)
    else if input != [] && input[0] == '[' then ParseBracketed(input[1..], defaultPort)
    else
      var user := RSplitOnce(input, '@');
      if user.Some? && user.value.0 != [] then Err(UserAtHost)
      else if Occurrences(input, ':') == 1 then ParseHostPort(input)
      else if Trim(input) == [] then Err(EmptyTarget)
      else Ok(Target(input, defaultPort))
  }

  // ----- hosts -----

  /** Free of white space and of the characters an authority gives a meaning. */
  predicate Plain(s: string) {
    forall c :: c in s ==> !IsSpace(c) && c != '[' && c != ']' && c != '@'
  }

  /** A host name or an IPv4 literal. */
  predicate NameHost(host: string) { host != [] && Plain(host) && ':' !in host }

  /** What the address parser promises of the literals it accepts. */
  ghost predicate AddressParser(isV6: string -> bool) {
    forall b :: isV6(b) ==> Plain(b) && Occurrences(b, ':') >= 2
  }

  /** An IPv6 literal, bare or in brackets. */
  predicate LiteralHost(host: string, bare: string, isV6: string -> bool) {
    isV6(bare) && (host == bare || host == Bracketed(bare))
  }

  // ----- lemmas -----

  lemma TrimNothing(s: string)
    requires s == [] || (!IsSpace(s[0]) && !IsSpace(s[|s| - 1]))
    ensures Trim(s) == s
  {
  }

  lemma {:induction false} NoOccurrence(s: string, c: char)
    ensures c !in s <==> Occurrences(s, c) == 0
  {
    if s != [] {
      NoOccurrence(s[1..], c);
      assert forall x :: x in s <==> x == s[0] || x in s[1..];
    }
  }

  lemma OccurrencesAppend(a: string, b: string, c: char)
    ensures Occurrences(a + b, c) == Occurrences(a, c) + Occurrences(b, c)
  {
    if a == [] {
      assert a + b == b;
    } else {
      assert (a + b)[1..] == a[1..] + b;
      OccurrencesAppend(a[1..], b, c);
    }
  }

  lemma RSplitAt(a: string, b: string, c: char)
    requires c !in b
    ensures RSplitOnce(a + [c] + b, c) == Some((a, b))
  {
    hide RSplitOnce;
    var s := a + [c] + b;
    assert s[|a|] == c;
    var (x, y) := RSplitOnce(s, c).value;
    assert s[|x|] == c;
    AtJoint(a, b, c, |x|);
    AtJoint(x, y, c, |a|);
    assert s[..|a|] == a && s[|a| + 1..] == b && s[..|x|] == x && s[|x| + 1..] == y;
  }

  lemma DigitsArePlain(n: nat)
    ensures Plain(Digits(n)) && ':' !in Digits(n) && Digits(n)[0] != '/'
  {
  }

  /** A string with two colons has a colon before its last one. */
  lemma ManyColons(s: string)
    requires Occurrences(s, ':') >= 2
    ensures RSplitOnce(s, ':').Some? && ':' in RSplitOnce(s, ':').value.0
  {
    NoOccurrence(s, ':');
    var (a, b) := RSplitOnce(s, ':').value;
    OccurrencesAppend(a + ":", b, ':');
    OccurrencesAppend(a, ":", ':');
    NoOccurrence(a, ':');
    NoOccurrence(b, ':');
  }

  // ----- names -----

  lemma NamePrints(host: string, port: nat)
    requires NameHost(host)
    ensures WireHost(host) == host && !HasExplicitPort(host)
    ensures WireAuthority(host, port, true)
         == if port != 0 && port != HTTPS_DEFAULT_PORT then host + ":" + Digits(port) else host
  {
  }

  lemma SchemeColon(s: string)
    ensures HasScheme(s) ==> ':' in s
  {
    assert "http://"[4] == ':' && "https://"[5] == ':';
  }

  lemma NameParses(host: string, defaultPort: nat)
    requires NameHost(host)
    ensures Parse(host, defaultPort) == Ok(Target(host, defaultPort))
  {
    assert host[0] in host && host[|host| - 1] in host;
    TrimNothing(host);
    NoOccurrence(host, ':');
    SchemeColon(host);
    assert RSplitOnce(host, '@').None?;
  }

  /** After the first colon of a URL comes a slash. */
  lemma SchemeSlash(s: string, k: nat)
    requires HasScheme(s) && k < |s| && s[k] == ':' && ':' !in s[..k]
    ensures k + 1 < |s| && s[k + 1] == '/'
  {
    assert "http://"[4] == ':' && "https://"[5] == ':' && "http://"[5] == '/' && "https://"[6] == '/';
    var at := if "http://" <= s then 4 else 5;
    assert s[at] == ':' && s[at + 1] == '/';
    AtJoint(s[..k], s[k + 1..], ':', at);
    assert s == s[..k] + [':'] + s[k + 1..];
    assert forall i :: 0 <= i < at ==> s[i] != ':';
  }

  lemma NoScheme(host: string, digits: string)
    requires ':' !in host && digits != [] && digits[0] != '/'
    ensures !HasScheme(host + ":" + digits)
  {
    hide HasScheme;
    var s := host + ":" + digits;
    assert s[..|host|] == host && s[|host|] == ':' && s[|host| + 1] == digits[0];
    if HasScheme(s) {
      SchemeSlash(s, |host|);
    }
  }

  lemma NamePortParses(host: string, port: nat, defaultPort: nat)
    requires NameHost(host) && port < 0x1_0000
    ensures Parse(host + ":" + Digits(port), defaultPort) == Ok(Target(host, port))
  {
    hide Digits;
    var s := host + ":" + Digits(port);
    DigitsArePlain(port);
    assert s[0] == host[0] && host[0] in host;
    assert s[|s| - 1] == Digits(port)[|Digits(port)| - 1] && s[|s| - 1] in Digits(port);
    TrimNothing(s);
    NoScheme(host, Digits(port));
    hide HasScheme, Trim, Occurrences, RSplitOnce;
    assert '@' !in s && RSplitOnce(s, '@').None?;
    NoOccurrence(host, ':');
    NoOccurrence(Digits(port), ':');
    OccurrencesAppend(host + ":", Digits(port), ':');
    OccurrencesAppend(host, ":", ':');
    RSplitAt(host, Digits(port), ':');
    ParsePrintedPort(port);
  }

  // ----- literals -----

  lemma LiteralPrints(host: string, bare: string, port: nat, isV6: string -> bool)
    requires AddressParser(isV6) && LiteralHost(host, bare, isV6)
    ensures WireHost(host) == bare && !HasExplicitPort(host) && ':' in bare
  {
    NoOccurrence(bare, ':');
    assert bare[0] in bare && bare[|bare| - 1] in bare;
    if host == bare {
      TrimNothing(host);
      ManyColons(host);
    } else {
      TrimNothing(host);
      assert host[1..] == bare + "]";
      assert TrimStartChar(host, '[') == bare + "]";
      assert (bare + "]")[..|bare|] == bare;
      assert TrimEndChar(bare + "]", ']') == TrimEndChar(bare, ']') == bare;
      assert host == ("[" + bare) + [']'] + [];
      SplitOnceAt("[" + bare, [], ']');
    }
  }

  lemma LiteralParses(bare: string, defaultPort: nat)
    requires bare != [] && Plain(bare)
    ensures Parse(Bracketed(bare), defaultPort) == Ok(Target(Bracketed(bare), defaultPort))
  {
    var s := Bracketed(bare);
    TrimNothing(s);
    assert s[1..] == bare + [']'] + [];
    SplitOnceAt(bare, [], ']');
  }

  lemma LiteralPortParses(bare: string, port: nat, defaultPort: nat)
    requires bare != [] && Plain(bare) && port < 0x1_0000
    ensures Parse(Bracketed(bare) + ":" + Digits(port), defaultPort) == Ok(Target(Bracketed(bare), port))
  {
    hide Digits;
    var s := Bracketed(bare) + ":" + Digits(port);
    DigitsArePlain(port);
    assert s[|s| - 1] == Digits(port)[|Digits(port)| - 1] && s[|s| - 1] in Digits(port);
    TrimNothing(s);
    assert s[0] == '[' && !HasScheme(s);
    hide Trim, HasScheme, RSplitOnce, Occurrences, SplitOnce;
    assert s[1..] == bare + [']'] + (":" + Digits(port));
    SplitOnceAt(bare, ":" + Digits(port), ']');
    ParsePrintedPort(port);
    hide ParseU16;
    assert StripPrefix(":" + Digits(port), ":") == Some(Digits(port));
  }

  // ----- the two results -----

  /** The two wire forms of the authority agree exactly when a colon in the bare host means an IPv6
      literal; a host that names its own port is printed as it stands by both. */
  lemma FormsAgree(host: string, port: nat, isV6: string -> bool)
    requires AddressParser(isV6)
    ensures UriAuthorityAt(host, port, isV6) == WireAuthority(host, port, true)
        <==> HasExplicitPort(host) || (':' in WireHost(host) ==> isV6(WireHost(host)))
  {
    hide Digits, HasExplicitPort, WireHost;
    var bare := WireHost(host);
    NoOccurrence(bare, ':');
    if !HasExplicitPort(host) && ':' in bare && !isV6(bare) {
      var suffix := if port != 0 && port != HTTPS_DEFAULT_PORT then ":" + Digits(port) else [];
      assert |WireAuthority(host, port, true)| == |bare + suffix| + 2;
    }
  }

  /** Parsing what was printed gives back the port and the host, brackets aside. */
  lemma AuthorityRoundTrip(host: string, bare: string, port: nat, isV6: string -> bool)
    requires AddressParser(isV6) && 1 <= port < 0x1_0000
    requires (NameHost(host) && bare == host) || LiteralHost(host, bare, isV6)
    ensures UriAuthorityAt(host, port, isV6) == WireAuthority(host, port, true)
    ensures var r := Parse(WireAuthority(host, port, true), HTTPS_DEFAULT_PORT);
      r.Ok? && r.value.port == port && WireHost(r.value.host) == bare == WireHost(host)
  {
    hide Digits, Parse, HasExplicitPort, WireHost;
    FormsAgree(host, port, isV6);
    if NameHost(host) && bare == host {
      NamePrints(host, port);
      NameParses(host, HTTPS_DEFAULT_PORT);
      NamePortParses(host, port, HTTPS_DEFAULT_PORT);
    } else {
      LiteralPrints(host, bare, port, isV6);
      LiteralPrints(Bracketed(bare), bare, port, isV6);
      LiteralParses(bare, HTTPS_DEFAULT_PORT);
      LiteralPortParses(bare, port, HTTPS_DEFAULT_PORT);
    }
  }

  // ----- what is printed and what is refused -----

  /** The brackets around a host are dropped, however many there are, and nothing else. */
  lemma WireHostTrims(host: string) returns (i: nat, j: nat)
    ensures i <= j <= |host| && WireHost(host) == host[i..j]
    ensures (forall k :: 0 <= k < i ==> host[k] == '[') && (forall k :: j <= k < |host| ==> host[k] == ']')
    ensures i < j ==> host[i] != '[' && host[j - 1] != ']'
  {
    i := StartTrimmed(host, '[');
    var rest := TrimStartChar(host, '[');
    var end := EndTrimmed(rest, ']');
    j := i + end;
    assert rest[..end] == host[i..j];
    forall k | j <= k < |host| ensures host[k] == ']' {
      assert host[k] == rest[k - i];
    }
  }

  lemma {:induction false} StartTrimmed(s: string, c: char) returns (i: nat)
    ensures i <= |s| && TrimStartChar(s, c) == s[i..] && (forall k :: 0 <= k < i ==> s[k] == c)
    ensures i < |s| ==> s[i] != c
  {
    if s != [] && s[0] == c {
      var k := StartTrimmed(s[1..], c);
      i := k + 1;
      assert s[1..][k..] == s[i..];
      forall m | 0 <= m < i ensures s[m] == c {
        assert m > 0 ==> s[m] == s[1..][m - 1];
      }
    } else {
      i := 0;
    }
  }

  lemma {:induction false} EndTrimmed(s: string, c: char) returns (j: nat)
    ensures j <= |s| && TrimEndChar(s, c) == s[..j] && (forall k :: j <= k < |s| ==> s[k] == c)
    ensures j > 0 ==> s[j - 1] != c
  {
    if s != [] && s[|s| - 1] == c {
      j := EndTrimmed(s[..|s| - 1], c);
      assert s[..|s| - 1][..j] == s[..j];
    } else {
      j := |s|;
      assert s[..j] == s;
    }
  }

  /** A name as it stands, a literal in brackets, and the port unless it is zero or the scheme's own. */
  lemma AuthorityPrints(host: string, bare: string, port: nat, tls: bool, isV6: string -> bool)
    requires AddressParser(isV6)
    requires (NameHost(host) && bare == host) || LiteralHost(host, bare, isV6)
    ensures WireAuthority(host, port, tls)
         == (if isV6(bare) then "[" + bare + "]" else bare)
            + if port == 0 || port == (if tls then 443 else 80) then "" else ":" + Digits(port)
  {
    hide Digits, HasExplicitPort, WireHost;
    NoOccurrence(bare, ':');
    if NameHost(host) && bare == host {
      NamePrints(host, port);
    } else {
      LiteralPrints(host, bare, port, isV6);
    }
    assert ':' in bare <==> isV6(bare);
    assert bare + "" == bare && "[" + bare + "]" + "" == "[" + bare + "]";
  }

  /** A name or a bracketed literal, a colon and more: it names a port exactly when that is a port. */
  lemma ExplicitPortExactly(host: string, port: string)
    requires NameHost(host) || exists bare :: Plain(bare) && host == "[" + bare + "]"
    requires Plain(port) && ':' !in port
    ensures HasExplicitPort(host + ":" + port) <==> ParseU16(port).Some?
    ensures Trim(host + ":" + port) == host + ":" + port
  {
    hide Trim, HasExplicitPort, ParseU16;
    var s := host + ":" + port;
    assert s[0] == host[0] && host[0] in host;
    assert port != [] ==> port[|port| - 1] in port;
    TrimNothing(s);
    if NameHost(host) {
      PortNamed(host, port);
    } else {
      var bare :| Plain(bare) && host == "[" + bare + "]";
      BracketedPortNamed(bare, port);
    }
  }

  lemma PortNamed(host: string, port: string)
    requires NameHost(host) && ':' !in port && Trim(host + ":" + port) == host + ":" + port
    ensures HasExplicitPort(host + ":" + port) <==> ParseU16(port).Some?
  {
    hide Trim, ParseU16, RSplitOnce;
    RSplitAt(host, port, ':');
    assert (host + ":" + port)[0] == host[0] && host[0] in host;
  }

  lemma BracketedPortNamed(bare: string, port: string)
    requires Plain(bare)
    requires var s := "[" + bare + "]" + ":" + port; Trim(s) == s
    ensures HasExplicitPort("[" + bare + "]" + ":" + port) <==> ParseU16(port).Some?
  {
    hide Trim, ParseU16, SplitOnce;
    assert "[" + bare + "]" + ":" + port == ("[" + bare) + [']'] + (":" + port);
    SplitOnceAt("[" + bare, ":" + port, ']');
    assert StripPrefix(":" + port, ":") == Some(port);
  }

  /** A host that names its own port is printed as it stands, whatever port it is probed at. */
  lemma ExplicitPortKept(host: string, own: nat, port: nat, tls: bool, isV6: string -> bool)
    requires own < 0x1_0000
    requires NameHost(host) || exists bare :: Plain(bare) && host == "[" + bare + "]"
    ensures WireAuthority(host + ":" + Digits(own), port, tls) == host + ":" + Digits(own)
    ensures UriAuthorityAt(host + ":" + Digits(own), port, isV6) == host + ":" + Digits(own)
  {
    hide Digits, Trim, HasExplicitPort, ParseU16;
    DigitsArePlain(own);
    ParsePrintedPort(own);
    ExplicitPortExactly(host, Digits(own));
  }

  /** Spelled out: a name and a bare literal at a port of their own. */
  lemma AuthorityExample(isV6: string -> bool)
    requires AddressParser(isV6) && isV6("::1")
    ensures WireAuthority("a.b", 8443, true) == "a.b:8443"
    ensures WireAuthority("::1", 8080, false) == "[::1]:8080"
  {
    hide Digits, WireAuthority;
    AuthorityPrints("a.b", "a.b", 8443, true, isV6);
    AuthorityPrints("::1", "::1", 8080, false, isV6);
    assert NameHost("a.b") && !isV6("a.b") by { NoOccurrence("a.b", ':'); }
    PortsSpelled();
  }

  lemma PortsSpelled()
    ensures Digits(8443) == "8443" && Digits(8080) == "8080"
  {
    assert Digits(84) == "84" && Digits(80) == "80";
    assert Digits(844) == "84" + "4" && Digits(808) == "80" + "8";
  }
}

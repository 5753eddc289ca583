/** Which texts `Target::parse` refuses, and why; what it accepts is in `Authority`. */
module Targets {
  import opened Collections
  import opened Text
  import opened Authority

  lemma {:induction false} PaddingTrimmed(left: string, s: string, right: string)
    requires forall c :: c in left || c in right ==> IsSpace(c)
    requires s != [] && !IsSpace(s[0]) && !IsSpace(s[|s| - 1])
    ensures Trim(left + s + right) == s
    decreases |left| + |right|
  {
    var all := left + s + right;
    if left != [] {
      assert left[0] in left && all[1..] == left[1..] + s + right;
      PaddingTrimmed(left[1..], s, right);
    } else if right != [] {
      var n := |right| - 1;
      assert right[n] in right && all[..|all| - 1] == left + s + right[..n];
      assert all[0] == s[0] && (left + s + right[..n])[0] == s[0];
      PaddingTrimmed(left, s, right[..n]);
    } else {
      assert all == s;
      TrimNothing(s);
    }
  }

  /** White space around the text does not matter. */
  lemma PaddingIgnored(left: string, s: string, right: string, defaultPort: nat)
    requires forall c :: c in left || c in right ==> IsSpace(c)
    requires s != [] && !IsSpace(s[0]) && !IsSpace(s[|s| - 1])
    ensures Parse(left + s + right, defaultPort) == Parse(s, defaultPort)
  {
    PaddingTrimmed(left, s, right);
    TrimNothing(s);
    hide Trim, HasScheme, ParseBracketed, ParseHostPort, Occurrences, RSplitOnce;
  }

  lemma {:induction false} BlankTrimmed(blank: string)
    requires forall c :: c in blank ==> IsSpace(c)
    ensures Trim(blank) == []
  {
    if blank != [] {
      assert blank[0] in blank;
      BlankTrimmed(blank[1..]);
    }
  }

  /** Nothing but white space is no target; a URL is none either. */
  lemma EmptyAndUrlsRefused(blank: string, rest: string, defaultPort: nat)
    requires forall c :: c in blank ==> IsSpace(c)
    requires rest == [] || !IsSpace(rest[|rest| - 1])
    ensures Parse(blank, defaultPort) == Err(EmptyTarget)
    ensures Parse("http://" + rest, defaultPort) == Err(LooksLikeUrl)
    ensures Parse("https://" + rest, defaultPort) == Err(LooksLikeUrl)
  {
    BlankTrimmed(blank);
    TrimNothing("http://" + rest);
    TrimNothing("https://" + rest);
  }

  lemma PlainEnds(s: string)
    requires Plain(s) && s != []
    ensures !IsSpace(s[0]) && !IsSpace(s[|s| - 1]) && s[0] != '['
  {
    assert s[0] in s && s[|s| - 1] in s;
  }

  /** A text that opens a bracket is read from there on. */
  lemma Opened(rest: string, defaultPort: nat)
    requires rest == [] || !IsSpace(rest[|rest| - 1])
    ensures Parse("[" + rest, defaultPort) == ParseBracketed(rest, defaultPort)
  {
    TrimNothing("[" + rest);
    assert ("[" + rest)[1..] == rest;
    hide Trim, ParseBracketed;
  }

  /** A bracket that is never closed. */
  lemma UnterminatedRefused(addr: string, defaultPort: nat)
    requires Plain(addr)
    ensures Parse("[" + addr, defaultPort) == Err(Unterminated)
  {
    if addr != [] {
      PlainEnds(addr);
    }
    Opened(addr, defaultPort);
  }

  lemma ClosedAt(addr: string, more: string, defaultPort: nat)
    requires Plain(addr) && Plain(more)
    ensures Parse("[" + addr + "]" + more, defaultPort) == ParseBracketed(addr + "]" + more, defaultPort)
    ensures SplitOnce(addr + "]" + more, ']') == Some((addr, more))
  {
    hide SplitOnce, ParseBracketed;
    var rest := addr + "]" + more;
    if more != [] {
      PlainEnds(more);
    }
    assert "[" + addr + "]" + more == "[" + rest;
    Opened(rest, defaultPort);
    SplitOnceAt(addr, more, ']');
  }

  /** A bracket closed at once, or followed by anything but a port in range. */
  lemma BracketsRefused(addr: string, more: string, defaultPort: nat)
    requires Plain(addr) && Plain(more)
    ensures addr == [] ==> Parse("[" + addr + "]" + more, defaultPort) == Err(EmptyBrackets)
    ensures addr != [] && more != [] && (more[0] != ':' || ParseU16(more[1..]).None?) ==>
      Parse("[" + addr + "]" + more, defaultPort) == Err(PortOutOfRange)
  {
    ClosedAt(addr, more, defaultPort);
    hide SplitOnce, Parse;
  }

  /** A user in front of the host. */
  lemma UserRefused(user: string, host: string, defaultPort: nat)
    requires Plain(user) && Plain(host) && user != [] && !HasScheme(user + "@" + host)
    ensures Parse(user + "@" + host, defaultPort) == Err(UserAtHost)
  {
    hide HasScheme, RSplitOnce;
    var s := user + "@" + host;
    PlainEnds(user);
    if host != [] {
      PlainEnds(host);
    }
    assert s[0] == user[0];
    TrimNothing(s);
    assert '@' !in host;
    RSplitAt(user, host, '@');
  }

  /** A single colon must stand between a host and a number in range. */
  lemma PortRefused(host: string, port: string, defaultPort: nat)
    requires Plain(host) && Plain(port) && ':' !in host && ':' !in port && !HasScheme(host + ":" + port)
    ensures host == [] || !AllDigits(port) ==> Parse(host + ":" + port, defaultPort) == Err(ExpectedHostPort)
    ensures host != [] && AllDigits(port) && ParseU16(port).None? ==>
      Parse(host + ":" + port, defaultPort) == Err(PortOutOfRange)
  {
    var s := host + ":" + port;
    ColonSplits(host, port);
    OneColon(host, port);
    hide Plain, HasScheme, Trim, RSplitOnce, Occurrences, ParseU16;
  }

  lemma ColonSplits(host: string, port: string)
    requires Plain(host) && Plain(port) && ':' !in host && ':' !in port
    ensures var s := host + ":" + port;
      Trim(s) == s && s[0] != '[' && RSplitOnce(s, '@').None? && RSplitOnce(s, ':') == Some((host, port))
  {
    hide RSplitOnce;
    var s := host + ":" + port;
    if host != [] {
      PlainEnds(host);
      assert s[0] == host[0];
    }
    if port != [] {
      PlainEnds(port);
    }
    TrimNothing(s);
    assert '@' !in s;
    RSplitAt(host, port, ':');
  }

  lemma OneColon(host: string, port: string)
    requires ':' !in host && ':' !in port
    ensures Occurrences(host + ":" + port, ':') == 1
  {
    NoOccurrence(host, ':');
    NoOccurrence(port, ':');
    OccurrencesAppend(host + ":", port, ':');
    OccurrencesAppend(host, ":", ':');
  }

  /** Without a colon, or with several, the text is a host at the default port. */
  lemma HostAccepted(host: string, defaultPort: nat)
    requires Plain(host) && host != [] && !HasScheme(host) && Occurrences(host, ':') != 1
    ensures Parse(host, defaultPort) == Ok(Target(host, defaultPort))
  {
    hide HasScheme, Occurrences;
    PlainEnds(host);
    TrimNothing(host);
    assert RSplitOnce(host, '@').None?;
  }
}

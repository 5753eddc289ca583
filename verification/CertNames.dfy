/** Whether a certificate's subject alternative names cover the presented host name. The address parser
    of the standard library is a parameter. */
module CertNames {
  import opened Collections
  import opened Net
  import opened Text
  import Authority

  function LowerChar(c: char): char {
    if 'A' <= c <= 'Z' then (c as int + 32) as char else c
  }

  function Lower(s: string): (r: string)
    ensures |r| == |s|
  {
    seq(|s|, i requires 0 <= i < |s| => LowerChar(s[i]))
  }

  predicate SanCovers(sni: string, san: string) {
    var lower := Lower(san);
    match Authority.StripPrefix(lower, "*.")
    case None => lower == Lower(sni)
    case Some(wildcard) =>
      match SplitOnce(Lower(sni), '.')
      case None => false
      case Some((_, rest)) => rest == wildcard
  }

  predicate CertCoversHostname(sni: string, sans: seq<string>, parseIp: string -> Option<Ip>) {
    var bare := Authority.WireHost(sni);
    if parseIp(bare).Some? then exists san :: san in sans && parseIp(san) == parseIp(bare)
    else exists san :: san in sans && SanCovers(bare, san)
  }

  /** A wildcard covers exactly the names that put one left-most label before its suffix; any other name
      covers only itself. Case never matters. */
  lemma SanCoversExactly(sni: string, san: string)
    ensures var name, pattern := Lower(sni), Lower(san);
      SanCovers(sni, san) <==>
        if "*." <= pattern then exists left :: '.' !in left && name == left + "." + pattern[2..]
        else name == pattern
  {
    var name, pattern := Lower(sni), Lower(san);
    if "*." <= pattern {
      if SanCovers(sni, san) {
        var (left, rest) := SplitOnce(name, '.').value;
        assert '.' !in left && name == left + "." + pattern[2..];
      }
      forall left | '.' !in left && name == left + "." + pattern[2..] ensures SanCovers(sni, san) {
        SplitOnceAt(left, pattern[2..], '.');
      }
    }
  }

  /** An address is covered only by the same address, whatever its spelling; brackets do not matter. */
  lemma AddressCoverage(sni: string, sans: seq<string>, parseIp: string -> Option<Ip>)
    requires parseIp(Authority.WireHost(sni)).Some?
    ensures CertCoversHostname(sni, sans, parseIp)
       <==> exists i :: 0 <= i < |sans| && parseIp(sans[i]) == parseIp(Authority.WireHost(sni))
  {
  }

  /** The same text but for the case of ASCII letters. */
  predicate SameText(a: string, b: string) {
    |a| == |b| && forall i :: 0 <= i < |a| ==> SameLetter(a[i], b[i])
  }

  predicate SameLetter(c: char, d: char) {
    || c == d
    || ('A' <= c <= 'Z' && 'a' <= d <= 'z' && d as int - 'a' as int == c as int - 'A' as int)
    || ('A' <= d <= 'Z' && 'a' <= c <= 'z' && c as int - 'a' as int == d as int - 'A' as int)
  }

  lemma LowerSame(a: string, b: string)
    ensures Lower(a) == Lower(b) <==> SameText(a, b)
  {
    if Lower(a) == Lower(b) {
      forall i | 0 <= i < |a| ensures SameLetter(a[i], b[i]) {
        assert Lower(a)[i] == Lower(b)[i];
      }
    }
  }

  /** What a wildcard or a plain alternative name covers, on the names as they stand. */
  predicate Covers(name: string, san: string) {
    if "*." <= san then
      exists i :: 0 <= i < |name| && name[i] == '.' && '.' !in name[..i] && SameText(name[i + 1..], san[2..])
    else SameText(name, san)
  }

  lemma DotsStay(s: string)
    ensures '.' in Lower(s) <==> '.' in s
    ensures "*." <= Lower(s) <==> "*." <= s
  {
    if '.' in s {
      var i :| 0 <= i < |s| && s[i] == '.';
      assert Lower(s)[i] == '.';
    }
  }

  lemma LowerParts(s: string, i: nat)
    requires i <= |s|
    ensures Lower(s)[..i] == Lower(s[..i]) && Lower(s)[i..] == Lower(s[i..])
  {
  }

  lemma SanCoversName(name: string, san: string)
    ensures SanCovers(name, san) <==> Covers(name, san)
  {
    hide SameText;
    DotsStay(san);
    LowerSame(name, san);
    if "*." <= san {
      LowerParts(san, 2);
      hide Lower;
      SanCoversExactly(name, san);
      forall i | 0 <= i < |name| && name[i] == '.' && '.' !in name[..i]
        ensures SanCovers(name, san) <==> SameText(name[i + 1..], san[2..])
      {
        WildcardAt(name, san, i);
      }
      if SanCovers(name, san) {
        var left :| '.' !in left && Lower(name) == left + "." + Lower(san)[2..];
        DotAt(name, |left|);
      }
    }
  }

  lemma DotAt(name: string, i: nat)
    requires i < |name| && Lower(name)[i] == '.' && '.' !in Lower(name)[..i]
    ensures name[i] == '.' && '.' !in name[..i]
  {
    LowerParts(name, i);
    DotsStay(name[..i]);
  }

  lemma FirstDot(name: string, i: nat)
    requires i < |name| && name[i] == '.' && '.' !in name[..i]
    ensures SplitOnce(Lower(name), '.') == Some((Lower(name[..i]), Lower(name[i + 1..])))
  {
    LowerParts(name, i);
    LowerParts(name, i + 1);
    DotsStay(name[..i]);
    assert Lower(name)[i] == '.';
    hide Lower, SplitOnce;
    SplitAtFirst(Lower(name), i);
  }

  lemma SplitAtFirst(s: string, i: nat)
    requires i < |s| && s[i] == '.' && '.' !in s[..i]
    ensures SplitOnce(s, '.') == Some((s[..i], s[i + 1..]))
  {
    hide SplitOnce;
    assert s == s[..i] + ['.'] + s[i + 1..];
    SplitOnceAt(s[..i], s[i + 1..], '.');
  }

  lemma WildcardAt(name: string, san: string, i: nat)
    requires "*." <= san && i < |name| && name[i] == '.' && '.' !in name[..i]
    ensures SanCovers(name, san) <==> SameText(name[i + 1..], san[2..])
  {
    DotsStay(san);
    FirstDot(name, i);
    LowerParts(san, 2);
    LowerSame(name[i + 1..], san[2..]);
    hide Lower, SameText, SplitOnce;
  }

  /** A presented name that is no address is covered exactly by an alternative name that is the same but for
      letter case, or by a wildcard whose suffix is what follows its first dot. */
  lemma NameCoverage(sni: string, sans: seq<string>, parseIp: string -> Option<Ip>)
    requires parseIp(Authority.WireHost(sni)).None?
    ensures CertCoversHostname(sni, sans, parseIp)
       <==> exists i :: 0 <= i < |sans| && Covers(Authority.WireHost(sni), sans[i])
  {
    hide SanCovers, Covers;
    forall san ensures SanCovers(Authority.WireHost(sni), san) <==> Covers(Authority.WireHost(sni), san) {
      SanCoversName(Authority.WireHost(sni), san);
    }
  }
}

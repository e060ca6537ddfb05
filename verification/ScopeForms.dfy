/** The forms in which assets and targets are written, and what assets of each form cover. */
module ScopeForms {
  import opened Options
  import opened ScopeIndex

  lemma ContainsIff(s: string, part: string)
    ensures Contains(s, part) <==> exists a, b :: s == a + part + b
  {
    if Contains(s, part) {
      var i: nat :| i <= |s| && OccursAt(s, i, part);
      assert s == s[..i] + part + s[i + |part|..];
    }
    if a, b :| s == a + part + b {
      assert s[|a|..] == part + b;
      assert OccursAt(s, |a|, part);
    }
  }

  lemma FirstIs(a: string, rest: string, chars: set<char>)
    requires (forall i :: 0 <= i < |a| ==> a[i] !in chars) && (rest == "" || rest[0] in chars)
    ensures FirstOf(a + rest, chars) == |a|
  {
    var s := a + rest;
    assert forall i :: 0 <= i < |a| ==> s[i] == a[i];
    if rest != "" {
      assert s[|a|] == rest[0];
    }
  }

  // ---------- identifiers without a scheme ----------

  /** No character of the text ends a host or separates a port from it. */
  predicate Simple(s: string) {
    forall i :: 0 <= i < |s| ==> s[i] != '/' && s[i] != '?' && s[i] != '#' && s[i] != ':' && s[i] != '[' && s[i] != ']'
  }

  /** Nothing, or a path, query or fragment. */
  predicate IsTail(s: string) { s == "" || s[0] == '/' || s[0] == '?' || s[0] == '#' }

  predicate NoTail(s: string) { forall i :: 0 <= i < |s| ==> s[i] != '/' && s[i] != '?' && s[i] != '#' }

  lemma TailCut(front: string, tail: string)
    requires NoTail(front) && IsTail(tail)
    ensures (front + tail)[..FirstOf(front + tail, {'/', '?', '#'})] == front
  {
    FirstIs(front, tail, {'/', '?', '#'});
    assert (front + tail)[..|front|] == front;
  }

  lemma DigitsPlain(port: string)
    requires IsNumeric(port)
    ensures NoTail(port) && forall i :: 0 <= i < |port| ==> port[i] != ':'
  {
    forall i | 0 <= i < |port| ensures port[i] != '/' && port[i] != '?' && port[i] != '#' && port[i] != ':' {
      assert IsDigit(port[i]);
    }
  }

  lemma LastIs(s: string, c: char, n: nat)
    requires n < |s| && s[n] == c && forall k :: n < k < |s| ==> s[k] != c
    ensures LastOf(s, c) == n
  {
  }

  /** A host by itself, with any path behind it. */
  lemma HostAlone(host: string, tail: string)
    requires Simple(host) && IsTail(tail)
    ensures BareEndpoint(host + tail) == Endpoint(host, "")
  {
    TailCut(host, tail);
    assert LastOf(host, ':') == -1;
  }

  /** A host and a port. */
  lemma HostAndPort(host: string, port: string, tail: string)
    requires host != "" && Simple(host) && IsNumeric(port) && IsTail(tail)
    ensures BareEndpoint(host + ":" + port + tail) == Endpoint(host, port)
  {
    var clean := host + ":" + port;
    DigitsPlain(port);
    forall i | 0 <= i < |clean| ensures clean[i] != '/' && clean[i] != '?' && clean[i] != '#' {
      assert i > |host| ==> clean[i] == port[i - |host| - 1];
    }
    TailCut(clean, tail);
    forall k | |host| < k < |clean| ensures clean[k] != ':' {
      assert clean[k] == port[k - |host| - 1];
    }
    LastIs(clean, ':', |host|);
    assert clean[..|host|] == host && clean[|host| + 1..] == port;
    assert clean[0] == host[0];
  }

  /** A bracketed address, with a port, or without one. */
  lemma Brackets(host: string, port: string, tail: string)
    requires NoTail(host) && ']' !in host && (port == "" || IsNumeric(port)) && IsTail(tail)
    ensures BareEndpoint("[" + host + "]" + (if port == "" then "" else ":" + port) + tail) == Endpoint(host, port)
  {
    var behind := if port == "" then "" else ":" + port;
    if port != "" {
      DigitsPlain(port);
      assert behind[1..] == port;
    }
    NoTailJoined("[", host);
    NoTailJoined("[" + host, "]");
    NoTailJoined("[" + host + "]", behind);
    BracketRead(host, behind, tail);
  }

  lemma NoTailJoined(a: string, b: string)
    requires NoTail(a) && NoTail(b)
    ensures NoTail(a + b)
  {
  }

  lemma BracketRead(host: string, behind: string, tail: string)
    requires NoTail("[" + host + "]" + behind) && ']' !in host && IsTail(tail)
    ensures BareEndpoint("[" + host + "]" + behind + tail)
            == Endpoint(host, if HasPrefix(behind, ":") && IsNumeric(behind[1..]) then behind[1..] else "")
  {
    var clean := "[" + host + "]" + behind;
    TailCut(clean, tail);
    BracketEnd(host, behind);
    assert clean[1..|host| + 1] == host && clean[|host| + 2..] == behind;
  }

  lemma BracketEnd(host: string, behind: string)
    requires ']' !in host
    ensures FirstOf("[" + host + "]" + behind, {']'}) == |host| + 1
  {
    var open := "[" + host;
    forall i | 0 <= i < |open| ensures open[i] !in {']'} {
      if i > 0 {
        assert open[i] == host[i - 1] && host[i - 1] in host;
      }
    }
    FirstIs(open, "]" + behind, {']'});
    assert "[" + host + "]" + behind == open + ("]" + behind);
  }

  /** A bracket that is not closed makes nothing. */
  lemma OpenBracket(host: string, tail: string)
    requires NoTail(host) && ']' !in host && IsTail(tail)
    ensures BareEndpoint("[" + host + tail) == Endpoint("", "")
  {
    var clean := "[" + host;
    NoTailJoined("[", host);
    TailCut(clean, tail);
    forall i | 0 <= i < |clean| ensures clean[i] !in {']'} {
      if i > 0 {
        assert clean[i] == host[i - 1] && host[i - 1] in host;
      }
    }
    FirstIs(clean, "", {']'});
    assert clean + "" == clean;
  }

  /** What stands behind a colon and is no port belongs to the host. */
  lemma OddPort(host: string, other: string, tail: string)
    requires host != "" && Simple(host) && Simple(other) && !IsNumeric(other) && IsTail(tail)
    ensures BareEndpoint(host + ":" + other + tail) == Endpoint(host + ":" + other, "")
  {
    var clean := host + ":" + other;
    NoTailJoined(host, ":");
    NoTailJoined(host + ":", other);
    TailCut(clean, tail);
    forall k | |host| < k < |clean| ensures clean[k] != ':' {
      assert clean[k] == other[k - |host| - 1];
    }
    LastIs(clean, ':', |host|);
    assert clean[|host| + 1..] == other && clean[0] == host[0];
  }

  /** An address with several colons and no brackets is a host. */
  lemma BareAddress(a: string, b: string, tail: string)
    requires NoTail(a) && NoTail(b) && ':' in a && !HasPrefix(a, "[") && IsTail(tail)
    ensures BareEndpoint(a + ":" + b + tail) == Endpoint(a + ":" + b, "")
  {
    var clean := a + ":" + b;
    forall i | 0 <= i < |clean| ensures clean[i] != '/' && clean[i] != '?' && clean[i] != '#' {
      assert i > |a| ==> clean[i] == b[i - |a| - 1];
    }
    TailCut(clean, tail);
    assert clean[0] == a[0];
    var idx := LastOf(clean, ':');
    assert clean[|a|] == ':';
    assert idx >= |a|;
    var k :| 0 <= k < |a| && a[k] == ':';
    assert clean[..idx][k] == ':';
  }

  // ---------- targets ----------

  /** A web address is parsed as it is. */
  lemma WebTarget(lib: Library, target: string, name: string, rest: string)
    requires (name == "http" || name == "https") && lib.trim(target) == name + "://" + rest
    ensures TargetEndpoint(lib, target) == UrlEndpoint(lib, name + "://" + rest)
  {
    var raw := lib.trim(target);
    SchemeOf(name, "//" + rest);
    assert raw == name + ":" + ("//" + rest);
    Slashes(name, rest);
  }

  lemma Slashes(name: string, rest: string)
    ensures Contains(name + "://" + rest, "://")
  {
    var raw := name + "://" + rest;
    assert raw[|name|..] == "://" + rest;
    assert OccursAt(raw, |name|, "://");
  }

  /** A target without a colon is a host of https. */
  lemma HostTarget(lib: Library, target: string)
    requires lib.trim(target) != "" && ':' !in lib.trim(target)
    ensures TargetEndpoint(lib, target) == UrlEndpoint(lib, "https://" + lib.trim(target))
  {
    var raw := lib.trim(target);
    forall i | 0 <= i < |raw| ensures raw[i] != ':' {
      assert raw[i] in raw;
    }
    NoSlashes(raw);
  }

  lemma NoSlashes(s: string)
    requires (forall i :: 0 <= i < |s| ==> s[i] != ':') || (forall i :: 0 <= i < |s| ==> s[i] != '/')
    ensures !Contains(s, "://")
  {
    forall i: nat | i <= |s| ensures !OccursAt(s, i, "://") {
      if |s[i..]| >= 3 {
        assert s[i..][..3][0] == s[i] && s[i..][..3][1] == s[i + 1];
      }
    }
  }

  lemma SchemeOf(name: string, rest: string)
    requires name != "" && ':' !in name
    ensures SchemePrefix(name + ":" + rest)
            == if IsSchemeName(name) && (rest == "" || !(IsDigit(rest[0]) || rest[0] == '[')) then Some(name) else None
  {
    var raw := name + ":" + rest;
    forall i | 0 <= i < |name| ensures name[i] !in {':'} {
      assert name[i] in name;
    }
    FirstIs(name, ":" + rest, {':'});
    assert raw == name + (":" + rest);
    assert raw[..|name|] == name;
    if rest != "" {
      assert raw[|name| + 1] == rest[0];
    }
  }

  /** The names of schemes: a letter, and then letters, digits, and three signs. */
  lemma SchemeNameIff(s: string)
    ensures IsSchemeName(s)
            <==> s != "" && ('a' <= s[0] <= 'z' || 'A' <= s[0] <= 'Z')
                 && forall i :: 1 <= i < |s| ==>
                      || 'a' <= s[i] <= 'z' || 'A' <= s[i] <= 'Z' || '0' <= s[i] <= '9'
                      || s[i] == '+' || s[i] == '-' || s[i] == '.'
  {
  }

  /** Any other scheme is refused, one in capitals too; a name before digits is a host with its port. */
  lemma OtherTarget(lib: Library, target: string, name: string, rest: string)
    requires lib.trim(target) == name + ":" + rest && name != "" && ':' !in name
    ensures IsSchemeName(name) && name != "http" && name != "https" && (rest == "" || !(IsDigit(rest[0]) || rest[0] == '['))
            ==> TargetEndpoint(lib, target) == NOWHERE
    ensures rest != "" && IsDigit(rest[0]) && !Contains(name + ":" + rest, "://")
            ==> TargetEndpoint(lib, target) == UrlEndpoint(lib, "https://" + name + ":" + rest)
  {
    SchemeOf(name, rest);
    assert "https://" + (name + ":" + rest) == "https://" + name + ":" + rest;
  }

  /** Nothing comes of an empty text or one that does not parse. */
  lemma NoEndpoint(lib: Library, text: string)
    ensures lib.trim(text) == "" ==> TargetEndpoint(lib, text) == Endpoint("", "")
    ensures lib.lower(lib.trim(text)) == "" ==> AssetEndpoint(lib, text) == Endpoint("", "")
    ensures lib.parseUrl(text).None? ==> UrlEndpoint(lib, text) == Endpoint("", "")
  {
  }

  /** The port of a web address is the one written, and otherwise 80 or 443. */
  lemma UrlForms(lib: Library, text: string, u: Url)
    requires lib.parseUrl(text) == Some(u)
    ensures UrlEndpoint(lib, text)
            == if lib.lower(u.scheme) == "http" then Endpoint(lib.lower(u.host), if u.port == "" then "80" else u.port)
               else if lib.lower(u.scheme) == "https" then Endpoint(lib.lower(u.host), if u.port == "" then "443" else u.port)
               else Endpoint("", "")
  {
  }

  // ---------- what assets cover ----------

  /** A wildcard covers exactly what ends in a dot and its base, with whatever before that, on its port if it has
      one. */
  lemma WildcardIff(lib: Library, e: Endpoint, identifier: string)
    ensures var id := AssetEndpoint(lib, identifier);
            MatchWildcard(lib, e, identifier)
            <==> exists sub, base :: base != "" && id.host == "*." + base && e.host == sub + "." + base
                                     && (id.port == "" || e.port == id.port)
  {
    var id := AssetEndpoint(lib, identifier);
    Below(e.host, id.host);
  }

  lemma Below(target: string, pattern: string)
    ensures HasPrefix(pattern, "*.") && pattern[2..] != "" && HasSuffix(target, "." + pattern[2..])
            <==> exists sub, base :: base != "" && pattern == "*." + base && target == sub + "." + base
  {
    if HasPrefix(pattern, "*.") && pattern[2..] != "" && HasSuffix(target, "." + pattern[2..]) {
      var base := pattern[2..];
      assert pattern == "*." + base;
      assert target == target[..|target| - |base| - 1] + "." + base;
    }
    if sub, base :| base != "" && pattern == "*." + base && target == sub + "." + base {
      assert pattern[..2] == "*." && pattern[2..] == base;
      assert target == sub + ("." + base);
      assert target[|sub|..] == "." + base;
    }
  }

  lemma UrlIff(lib: Library, e: Endpoint, identifier: string)
    ensures var id := AssetEndpoint(lib, identifier);
            MatchUrl(lib, e, identifier)
            <==> id.host != "" && e.host == id.host && (id.port == "" || e.port == id.port)
  {
  }

  lemma WrittenHost(lib: Library, identifier: string, host: string, port: string)
    requires host != "" && Simple(host) && (port == "" || IsNumeric(port))
    requires lib.lower(lib.trim(identifier)) == if port == "" then host else host + ":" + port
    ensures AssetEndpoint(lib, identifier) == Endpoint(host, port)
  {
    var clean := lib.lower(lib.trim(identifier));
    if port == "" {
      HostAlone(host, "");
      assert host + "" == host;
    } else {
      HostAndPort(host, port, "");
      DigitsPlain(port);
      assert host + ":" + port + "" == clean;
    }
    assert forall i :: 0 <= i < |clean| && i > |host| ==> clean[i] == port[i - |host| - 1];
    NoSlashes(clean);
  }

  /** A host as an asset covers that host and no other, on its port if it has one; a wildcard over a host covers
      exactly the hosts below it. */
  lemma WrittenAssetCovers(lib: Library, e: Endpoint, a: Asset, host: string, port: string)
    requires host != "" && Simple(host) && (port == "" || IsNumeric(port)) && a.eligible
    ensures a.kind == UrlAsset && lib.lower(lib.trim(a.identifier)) == (if port == "" then host else host + ":" + port)
            ==> (Matches(lib, e, a) <==> e.host == host && (port == "" || e.port == port))
    ensures a.kind == WildcardAsset
            && lib.lower(lib.trim(a.identifier)) == (if port == "" then "*." + host else "*." + host + ":" + port)
            ==> (Matches(lib, e, a) <==> (exists sub :: e.host == sub + "." + host) && (port == "" || e.port == port))
  {
    if a.kind == UrlAsset && lib.lower(lib.trim(a.identifier)) == (if port == "" then host else host + ":" + port) {
      WrittenHost(lib, a.identifier, host, port);
    }
    if a.kind == WildcardAsset
       && lib.lower(lib.trim(a.identifier)) == (if port == "" then "*." + host else "*." + host + ":" + port) {
      assert Simple("*." + host);
      WrittenHost(lib, a.identifier, "*." + host, port);
      WildcardIff(lib, e, a.identifier);
      WildcardBase(e.host, host);
    }
  }

  lemma WildcardBase(target: string, host: string)
    ensures forall base :: "*." + host == "*." + base ==> base == host
  {
    forall base | "*." + host == "*." + base ensures base == host {
      assert ("*." + host)[2..] == host && ("*." + base)[2..] == base;
    }
  }
}

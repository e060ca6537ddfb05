/** The bounty-scope check: a compiled index of host and port keys, against matching every asset.

    URL, IP and CIDR parsing, trimming and lower-casing are library functions, gathered in `Library`
    and otherwise arbitrary; only what `url.URL.Port` returns is constrained.
 */
module ScopeIndex {
  import opened Options

  datatype Url = Url(scheme: string, host: string, port: string)

  type Ip = nat
  type Network = nat

  datatype Library = Library(
    trim: string -> string,
    lower: string -> string,
    parseUrl: string -> Option<Url>,
    parseIp: string -> Option<Ip>,
    parseCidr: string -> Option<Network>,
    contains: (Network, Ip) -> bool)

  datatype AssetKind = UrlAsset | WildcardAsset | CidrAsset | OtherAsset

  datatype Asset = Asset(kind: AssetKind, identifier: string, eligible: bool)

  // ---------- ports and endpoints ----------

  predicate IsDigit(c: char) { '0' <= c <= '9' }

  predicate IsNumeric(s: string) {
    s != "" && forall i :: 0 <= i < |s| ==> IsDigit(s[i])
  }

  predicate IsPort(s: string) { s == "" || IsNumeric(s) }

  /** A parsed port is empty or a string of digits. */
  ghost predicate Sane(lib: Library) {
    forall s :: lib.parseUrl(s).Some? ==> IsPort(lib.parseUrl(s).value.port)
  }

  /** The first position of one of the characters, or the length of the string. */
  function FirstOf(s: string, chars: set<char>): (i: nat)
    ensures i <= |s|
    ensures i < |s| ==> s[i] in chars
    ensures forall k :: 0 <= k < i ==> s[k] !in chars
  {
    if s == "" || s[0] in chars then 0 else 1 + FirstOf(s[1..], chars)
  }

  /** The last position of a character, or -1. */
  function LastOf(s: string, c: char): (i: int)
    ensures -1 <= i < |s|
    ensures i >= 0 ==> s[i] == c
    ensures forall k :: i < k < |s| ==> s[k] != c
  {
    if s == "" then -1 else if s[|s| - 1] == c then |s| - 1 else LastOf(s[..|s| - 1], c)
  }

  predicate HasPrefix(s: string, p: string) { |p| <= |s| && s[..|p|] == p }

  predicate HasSuffix(s: string, p: string) { |p| <= |s| && s[|s| - |p|..] == p }

  predicate OccursAt(s: string, i: nat, p: string) { i <= |s| && HasPrefix(s[i..], p) }

  predicate Contains(s: string, p: string) { exists i: nat :: i <= |s| && OccursAt(s, i, p) }

  function DefaultPort(scheme: string): string {
    if scheme == "http" then "80" else if scheme == "https" then "443" else ""
  }

  datatype Endpoint = Endpoint(host: string, port: string)

  const NOWHERE := Endpoint("", "")

  predicate IsWeb(scheme: string) { scheme == "http" || scheme == "https" }

  function UrlEndpoint(lib: Library, text: string): Endpoint {
    match lib.parseUrl(text)
    case None => NOWHERE
    case Some(u) =>
      if !IsWeb(lib.lower(u.scheme)) then NOWHERE
      else Endpoint(lib.lower(u.host), if u.port == "" then DefaultPort(lib.lower(u.scheme)) else u.port)
  }

  /** `extractAssetEndpoint` on an identifier without a scheme. */
  function BareEndpoint(text: string): Endpoint {
    var clean := text[..FirstOf(text, {'/', '?', '#'})];
    if HasPrefix(clean, "[") then
      var end := FirstOf(clean, {']'});
      if end == |clean| then NOWHERE
      else
        var remainder := clean[end + 1..];
        if HasPrefix(remainder, ":") && IsNumeric(remainder[1..]) then Endpoint(clean[1..end], remainder[1..])
        else Endpoint(clean[1..end], "")
    else
      var idx := LastOf(clean, ':');
      if idx >= 0 && clean[..idx] != "" && IsNumeric(clean[idx + 1..]) && ':' !in clean[..idx]
      then Endpoint(clean[..idx], clean[idx + 1..])
      else Endpoint(clean, "")
  }

  function AssetEndpoint(lib: Library, identifier: string): Endpoint {
    var clean := lib.lower(lib.trim(identifier));
    if clean == "" then NOWHERE
    else if Contains(clean, "://") then UrlEndpoint(lib, clean)
    else BareEndpoint(clean)
  }

  /** `schemePrefix`: what comes before the first colon, unless it reads as a host and port. */
  function SchemePrefix(raw: string): Option<string> {
    var idx := FirstOf(raw, {':'});
    if idx == |raw| || idx == 0 || !IsSchemeName(raw[..idx]) then None
    else if idx + 1 == |raw| then Some(raw[..idx])
    else if IsDigit(raw[idx + 1]) || raw[idx + 1] == '[' then None
    else Some(raw[..idx])
  }

  predicate IsAlpha(c: char) { 'a' <= c <= 'z' || 'A' <= c <= 'Z' }

  predicate IsSchemeName(s: string) {
    && s != "" && IsAlpha(s[0])
    && forall i :: 1 <= i < |s| ==> IsAlpha(s[i]) || IsDigit(s[i]) || s[i] in {'+', '-', '.'}
  }

  function TargetEndpoint(lib: Library, target: string): Endpoint {
    var raw := lib.trim(target);
    if raw == "" then NOWHERE
    else
      var prefix := SchemePrefix(raw);
      if prefix.Some? && !IsWeb(prefix.value) then NOWHERE
      else UrlEndpoint(lib, if Contains(raw, "://") then raw else "https://" + raw)
  }

  lemma UrlPort(lib: Library, text: string)
    requires Sane(lib)
    ensures IsPort(UrlEndpoint(lib, text).port)
    ensures UrlEndpoint(lib, text) != NOWHERE ==> IsNumeric(UrlEndpoint(lib, text).port)
  {
    assert IsNumeric("80") && IsNumeric("443");
    if lib.parseUrl(text).Some? {
      assert IsPort(lib.parseUrl(text).value.port);
    }
  }

  lemma AssetPort(lib: Library, identifier: string)
    requires Sane(lib)
    ensures IsPort(AssetEndpoint(lib, identifier).port)
  {
    UrlPort(lib, lib.lower(lib.trim(identifier)));
  }

  lemma TargetPort(lib: Library, target: string)
    requires Sane(lib) && TargetEndpoint(lib, target).host != ""
    ensures IsNumeric(TargetEndpoint(lib, target).port)
  {
    var raw := lib.trim(target);
    UrlPort(lib, if Contains(raw, "://") then raw else "https://" + raw);
  }

  // ---------- keys ----------

  /** `net.JoinHostPort`. */
  function JoinHostPort(host: string, port: string): string {
    if ':' in host then "[" + host + "]:" + port else host + ":" + port
  }

  /** The key of an asset: without a port, the host and a colon. */
  function KeyOf(e: Endpoint): string {
    if e.port == "" then e.host + ":" else JoinHostPort(e.host, e.port)
  }

  /** What stands before the last colon of a key with a port. */
  function Bracketed(host: string): string { if ':' in host then "[" + host + "]" else host }

  lemma KeyShape(host: string, port: string)
    ensures JoinHostPort(host, port) == Bracketed(host) + ":" + port
    ensures ':' in host <==> ':' in Bracketed(host)
  {
    if ':' in host {
      var i :| 0 <= i < |host| && host[i] == ':';
      assert Bracketed(host)[i + 1] == ':';
      assert "[" + host + "]:" + port == "[" + host + "]" + ":" + port;
    }
  }

  lemma NoColon(port: string)
    requires IsPort(port)
    ensures ':' !in port
  {
    forall i | 0 <= i < |port| ensures port[i] != ':' {
      assert IsDigit(port[i]);
    }
  }

  /** Splitting at the last colon is unique. */
  lemma SplitUnique(a: string, p: string, b: string, q: string)
    requires a + ":" + p == b + ":" + q && ':' !in p && ':' !in q
    ensures a == b && p == q
  {
    var s := a + ":" + p;
    assert s[|a|] == ':' && s[|b|] == ':';
    assert forall i :: |a| < i < |s| ==> s[i] == p[i - |a| - 1] && s[i] != ':';
    assert forall i :: |b| < i < |s| ==> s[i] == q[i - |b| - 1] && s[i] != ':';
    assert |a| == |b|;
    assert a == s[..|a|] && b == s[..|b|];
    assert p == s[|a| + 1..] && q == s[|b| + 1..];
  }

  /** The key encoding is injective on endpoints with an empty or numeric port: bracketed IPv6 hosts,
      plain hosts and any-port keys never meet. */
  lemma KeysInjective(x: Endpoint, y: Endpoint)
    requires IsPort(x.port) && IsPort(y.port) && KeyOf(x) == KeyOf(y)
    ensures x == y
  {
    NoColon(x.port);
    NoColon(y.port);
    KeyShape(x.host, x.port);
    KeyShape(y.host, y.port);
    var a := if x.port == "" then x.host else Bracketed(x.host);
    var b := if y.port == "" then y.host else Bracketed(y.host);
    assert x.host + ":" == x.host + ":" + "" && y.host + ":" == y.host + ":" + "";
    SplitUnique(a, x.port, b, y.port);
    if x.port != "" {
      BracketedInjective(x.host, y.host);
    }
  }

  lemma BracketedInjective(g: string, h: string)
    requires Bracketed(g) == Bracketed(h)
    ensures g == h
  {
    KeyShape(g, "");
    KeyShape(h, "");
    if ':' in g {
      assert g == Bracketed(g)[1..|g| + 1] && h == Bracketed(h)[1..|h| + 1];
    }
  }

  // ---------- matching every asset ----------

  predicate PortMatches(targetPort: string, assetPort: string) {
    assetPort == "" || (targetPort != "" && targetPort == assetPort)
  }

  predicate MatchUrl(lib: Library, target: Endpoint, identifier: string) {
    var id := AssetEndpoint(lib, identifier);
    id.host != "" && target.host != "" && target.host == id.host && PortMatches(target.port, id.port)
  }

  predicate MatchWildcard(lib: Library, target: Endpoint, identifier: string) {
    var id := AssetEndpoint(lib, identifier);
    && target.host != "" && HasPrefix(id.host, "*.") && id.host[2..] != ""
    && HasSuffix(target.host, "." + id.host[2..])
    && PortMatches(target.port, id.port)
    && |target.host| > |id.host[2..]|
  }

  predicate MatchCidr(lib: Library, target: Endpoint, identifier: string) {
    var ip := lib.parseIp(target.host);
    var network := lib.parseCidr(lib.trim(identifier));
    ip.Some? && network.Some? && lib.contains(network.value, ip.value)
  }

  predicate Matches(lib: Library, target: Endpoint, a: Asset) {
    && a.eligible
    && match a.kind
       case UrlAsset => MatchUrl(lib, target, a.identifier)
       case WildcardAsset => MatchWildcard(lib, target, a.identifier)
       case CidrAsset => MatchCidr(lib, target, a.identifier)
       case OtherAsset => false
  }

  // ---------- the compiled index ----------

  datatype Engine = Engine(exactUrls: map<string, string>, wildcards: seq<Asset>, cidrs: seq<Network>)

  /** `normalizeAssetIdentifier` of an identifier with a host: the text given as a reason. */
  function Normalized(id: Endpoint): string {
    if id.port == "" then id.host else JoinHostPort(id.host, id.port)
  }

  /** The asset is an eligible URL with a host. */
  predicate Exact(lib: Library, a: Asset) {
    a.eligible && a.kind == UrlAsset && AssetEndpoint(lib, a.identifier).host != ""
  }

  /** What `CompileAssets` stores for a list of assets. */
  ghost predicate Represents(lib: Library, engine: Engine, assets: seq<Asset>) {
    && (forall key :: key in engine.exactUrls <==>
          exists a :: a in assets && Exact(lib, a) && key == KeyOf(AssetEndpoint(lib, a.identifier)))
    && (forall a :: a in engine.wildcards <==> a in assets && a.eligible && a.kind == WildcardAsset)
    && (forall network :: network in engine.cidrs <==>
          exists a :: a in assets && a.eligible && a.kind == CidrAsset && lib.parseCidr(lib.trim(a.identifier)) == Some(network))
  }

  /** Each key gives the text of an asset with that key. */
  ghost predicate Labelled(lib: Library, engine: Engine, assets: seq<Asset>) {
    forall key :: key in engine.exactUrls ==>
      exists a :: a in assets && Exact(lib, a) && Labels(lib, key, a, engine.exactUrls[key])
  }

  predicate Labels(lib: Library, key: string, a: Asset, text: string) {
    var id := AssetEndpoint(lib, a.identifier);
    key == KeyOf(id) && text == if id.port == "" then id.host else JoinHostPort(id.host, id.port)
  }

  /** One pass of the loop of `CompileAssets`. */
  function Entered(lib: Library, engine: Engine, a: Asset): Engine {
    if !a.eligible then engine
    else
      match a.kind
      case UrlAsset =>
        var id := AssetEndpoint(lib, a.identifier);
        if id.host == "" then engine
        else engine.(exactUrls := engine.exactUrls[KeyOf(id) := Normalized(id)])
      case WildcardAsset => engine.(wildcards := engine.wildcards + [a])
      case CidrAsset =>
        var network := lib.parseCidr(lib.trim(a.identifier));
        if network.None? then engine else engine.(cidrs := engine.cidrs + [network.value])
      case OtherAsset => engine
  }

  lemma EnteredKeys(lib: Library, engine: Engine, assets: seq<Asset>, a: Asset, key: string)
    requires key in engine.exactUrls <==>
             exists x :: x in assets && Exact(lib, x) && key == KeyOf(AssetEndpoint(lib, x.identifier))
    ensures key in Entered(lib, engine, a).exactUrls <==>
            exists x :: x in assets + [a] && Exact(lib, x) && key == KeyOf(AssetEndpoint(lib, x.identifier))
  {
    assert forall x :: x in assets + [a] <==> x in assets || x == a;
    assert key in Entered(lib, engine, a).exactUrls <==>
           key in engine.exactUrls || (Exact(lib, a) && key == KeyOf(AssetEndpoint(lib, a.identifier)));
  }

  lemma EnteredNetworks(lib: Library, engine: Engine, assets: seq<Asset>, a: Asset, network: Network)
    requires network in engine.cidrs <==>
             exists x :: x in assets && x.eligible && x.kind == CidrAsset && lib.parseCidr(lib.trim(x.identifier)) == Some(network)
    ensures network in Entered(lib, engine, a).cidrs <==>
            exists x :: x in assets + [a] && x.eligible && x.kind == CidrAsset
                        && lib.parseCidr(lib.trim(x.identifier)) == Some(network)
  {
    assert forall x :: x in assets + [a] <==> x in assets || x == a;
    assert network in Entered(lib, engine, a).cidrs <==>
           network in engine.cidrs
           || (a.eligible && a.kind == CidrAsset && lib.parseCidr(lib.trim(a.identifier)) == Some(network));
  }

  lemma EnteredWildcards(lib: Library, engine: Engine, assets: seq<Asset>, a: Asset, x: Asset)
    requires x in engine.wildcards <==> x in assets && x.eligible && x.kind == WildcardAsset
    ensures x in Entered(lib, engine, a).wildcards <==> x in assets + [a] && x.eligible && x.kind == WildcardAsset
  {
    assert x in assets + [a] <==> x in assets || x == a;
    assert x in Entered(lib, engine, a).wildcards <==>
           x in engine.wildcards || (x == a && a.eligible && a.kind == WildcardAsset);
  }

  lemma EnteredRepresents(lib: Library, engine: Engine, assets: seq<Asset>, a: Asset)
    requires Represents(lib, engine, assets)
    ensures Represents(lib, Entered(lib, engine, a), assets + [a])
  {
    var next := Entered(lib, engine, a);
    forall key ensures key in next.exactUrls <==>
                       exists x :: x in assets + [a] && Exact(lib, x) && key == KeyOf(AssetEndpoint(lib, x.identifier))
    {
      EnteredKeys(lib, engine, assets, a, key);
    }
    forall x ensures x in next.wildcards <==> x in assets + [a] && x.eligible && x.kind == WildcardAsset {
      EnteredWildcards(lib, engine, assets, a, x);
    }
    forall network ensures network in next.cidrs <==>
                           exists x :: x in assets + [a] && x.eligible && x.kind == CidrAsset
                                       && lib.parseCidr(lib.trim(x.identifier)) == Some(network)
    {
      EnteredNetworks(lib, engine, assets, a, network);
    }
  }

  lemma EnteredLabels(lib: Library, engine: Engine, assets: seq<Asset>, a: Asset)
    requires Labelled(lib, engine, assets)
    ensures Labelled(lib, Entered(lib, engine, a), assets + [a])
  {
    var next := Entered(lib, engine, a);
    forall key | key in next.exactUrls
      ensures exists x :: x in assets + [a] && Exact(lib, x) && Labels(lib, key, x, next.exactUrls[key])
    {
      if key in engine.exactUrls && next.exactUrls[key] == engine.exactUrls[key] {
        var x :| x in assets && Exact(lib, x) && Labels(lib, key, x, engine.exactUrls[key]);
        assert x in assets + [a];
      } else {
        assert a in assets + [a] && Exact(lib, a) && Labels(lib, key, a, next.exactUrls[key]);
      }
    }
  }

  method CompileAssets(lib: Library, assets: seq<Asset>) returns (engine: Engine)
    ensures Represents(lib, engine, assets) && Labelled(lib, engine, assets)
  {
    engine := Engine(map[], [], []);
    for n := 0 to |assets|
      invariant Represents(lib, engine, assets[..n]) && Labelled(lib, engine, assets[..n])
    {
      var a := assets[n];
      EnteredRepresents(lib, engine, assets[..n], a);
      EnteredLabels(lib, engine, assets[..n], a);
      assert assets[..n + 1] == assets[..n] + [a];
      if !a.eligible {
        continue;
      }
      match a.kind {
        case UrlAsset =>
          var id := AssetEndpoint(lib, a.identifier);
          if id.host != "" {
            var key := JoinHostPort(id.host, id.port);
            if id.port == "" {
              key := id.host + ":";
            }
            engine := engine.(exactUrls := engine.exactUrls[key := Normalized(id)]);
          }
        case WildcardAsset =>
          engine := engine.(wildcards := engine.wildcards + [a]);
        case CidrAsset =>
          var network := lib.parseCidr(lib.trim(a.identifier));
          if network.Some? {
            engine := engine.(cidrs := engine.cidrs + [network.value]);
          }
        case OtherAsset =>
      }
    }
    assert assets[..|assets|] == assets;
  }

  /** The loops over networks and over wildcards: whether one of the elements matches. */
  method AnyMatch<T>(elements: seq<T>, matches: T -> bool) returns (ok: bool)
    ensures ok <==> exists x :: x in elements && matches(x)
  {
    for i := 0 to |elements|
      invariant forall k :: 0 <= k < i ==> !matches(elements[k])
    {
      if matches(elements[i]) {
        return true;
      }
    }
    return false;
  }

  /** `ScopeEngine.IsAllowed`: exact key, any-port key, networks, then wildcards. */
  method IsAllowed(lib: Library, engine: Engine, target: string) returns (ok: bool)
    ensures ok <==> Lookup(lib, engine, TargetEndpoint(lib, target))
  {
    var e := TargetEndpoint(lib, target);
    var ip := lib.parseIp(e.host);
    if e.host == "" && ip.None? {
      return false;
    }
    if JoinHostPort(e.host, e.port) in engine.exactUrls {
      return true;
    }
    if e.host + ":" in engine.exactUrls {
      return true;
    }
    if ip.Some? {
      var inNetwork := AnyMatch(engine.cidrs, network => lib.contains(network, ip.value));
      if inNetwork {
        return true;
      }
    }
    ok := AnyMatch(engine.wildcards, (a: Asset) => MatchWildcard(lib, e, a.identifier));
  }

  predicate Lookup(lib: Library, engine: Engine, e: Endpoint) {
    var ip := lib.parseIp(e.host);
    && !(e.host == "" && ip.None?)
    && (|| JoinHostPort(e.host, e.port) in engine.exactUrls
        || e.host + ":" in engine.exactUrls
        || (ip.Some? && exists network :: network in engine.cidrs && lib.contains(network, ip.value))
        || exists a :: a in engine.wildcards && MatchWildcard(lib, e, a.identifier))
  }

  // ---------- the index decides what matching decides ----------

  /** For a target with a host and port, the two key lookups find exactly the URL matches. */
  lemma KeysDecide(lib: Library, engine: Engine, assets: seq<Asset>, e: Endpoint)
    requires Sane(lib) && Represents(lib, engine, assets) && e.host != "" && IsNumeric(e.port)
    ensures JoinHostPort(e.host, e.port) in engine.exactUrls || e.host + ":" in engine.exactUrls <==>
            exists a :: a in assets && a.eligible && a.kind == UrlAsset && MatchUrl(lib, e, a.identifier)
  {
    forall a | a in assets && Exact(lib, a)
      ensures MatchUrl(lib, e, a.identifier) <==>
              var key := KeyOf(AssetEndpoint(lib, a.identifier));
              key == JoinHostPort(e.host, e.port) || key == e.host + ":"
    {
      var id := AssetEndpoint(lib, a.identifier);
      AssetPort(lib, a.identifier);
      if KeyOf(id) == JoinHostPort(e.host, e.port) {
        KeysInjective(id, e);
      }
      if KeyOf(id) == e.host + ":" {
        KeysInjective(id, Endpoint(e.host, ""));
      }
    }
  }

  /** The compiled index allows a target exactly when some eligible asset matches it by its kind.
      `parseIp` of the empty string is nothing. */
  lemma IndexAgrees(lib: Library, engine: Engine, assets: seq<Asset>, target: string)
    requires Sane(lib) && lib.parseIp("").None? && Represents(lib, engine, assets)
    ensures Lookup(lib, engine, TargetEndpoint(lib, target)) <==>
            exists a :: a in assets && Matches(lib, TargetEndpoint(lib, target), a)
  {
    var e := TargetEndpoint(lib, target);
    if e.host == "" {
      forall a | a in assets ensures !Matches(lib, e, a) {}
    } else {
      TargetPort(lib, target);
      KeysDecide(lib, engine, assets, e);
      CidrsDecide(lib, engine, assets, e);
      WildcardsDecide(lib, engine, assets, e);
      ByKind(lib, assets, e);
    }
  }

  lemma CidrsDecide(lib: Library, engine: Engine, assets: seq<Asset>, e: Endpoint)
    requires Represents(lib, engine, assets)
    ensures (lib.parseIp(e.host).Some? && exists network :: network in engine.cidrs && lib.contains(network, lib.parseIp(e.host).value))
            <==> exists a :: a in assets && a.eligible && a.kind == CidrAsset && MatchCidr(lib, e, a.identifier)
  {
    if lib.parseIp(e.host).Some? {
      var ip := lib.parseIp(e.host).value;
      if network :| network in engine.cidrs && lib.contains(network, ip) {
        var a :| a in assets && a.eligible && a.kind == CidrAsset && lib.parseCidr(lib.trim(a.identifier)) == Some(network);
        assert MatchCidr(lib, e, a.identifier);
      }
      if a :| a in assets && a.eligible && a.kind == CidrAsset && MatchCidr(lib, e, a.identifier) {
        assert lib.parseCidr(lib.trim(a.identifier)).value in engine.cidrs;
      }
    }
  }

  lemma WildcardsDecide(lib: Library, engine: Engine, assets: seq<Asset>, e: Endpoint)
    requires Represents(lib, engine, assets)
    ensures (exists a :: a in engine.wildcards && MatchWildcard(lib, e, a.identifier)) <==>
            exists a :: a in assets && a.eligible && a.kind == WildcardAsset && MatchWildcard(lib, e, a.identifier)
  {
  }

  lemma ByKind(lib: Library, assets: seq<Asset>, e: Endpoint)
    ensures (exists a :: a in assets && Matches(lib, e, a)) <==>
            || (exists a :: a in assets && a.eligible && a.kind == UrlAsset && MatchUrl(lib, e, a.identifier))
            || (exists a :: a in assets && a.eligible && a.kind == WildcardAsset && MatchWildcard(lib, e, a.identifier))
            || (exists a :: a in assets && a.eligible && a.kind == CidrAsset && MatchCidr(lib, e, a.identifier))
  {
  }

  /** The package-level `IsAllowed`: without assets nothing is allowed; otherwise the target is allowed
      exactly when some eligible asset matches it. */
  method IsTargetAllowed(lib: Library, target: string, assets: seq<Asset>) returns (ok: bool)
    requires Sane(lib) && lib.parseIp("").None?
    ensures ok <==> exists a :: a in assets && Matches(lib, TargetEndpoint(lib, target), a)
  {
    if |assets| == 0 {
      return false;
    }
    var engine := CompileAssets(lib, assets);
    ok := IsAllowed(lib, engine, target);
    IndexAgrees(lib, engine, assets, target);
  }
}

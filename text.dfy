/**
 * String rules used for keyed lookup: ASCII case folding, the session-id format,
 * the byte order in which member ids are kept, and base-URL normalisation.
 */
module Text {

  /** ASCII lower-casing of one character; every other character is unchanged. */
  function LowerChar(c: char): char {
    if 'A' <= c <= 'Z' then (c as int + 32) as char else c
  }

  predicate IsLowerCase(s: string) {
    forall i :: 0 <= i < |s| ==> !('A' <= s[i] <= 'Z')
  }

  /** ASCII lower-casing of a whole string. */
  function Lower(s: string): (r: string)
    ensures |r| == |s| && IsLowerCase(r)
    ensures forall i :: 0 <= i < |s| ==> r[i] == LowerChar(s[i])
  {
    seq(|s|, i requires 0 <= i < |s| => LowerChar(s[i]))
  }

  /** A string with no upper-case letter is its own lower-case form. */
  lemma LowerOfLowerCase(s: string)
    requires IsLowerCase(s)
    ensures Lower(s) == s
  {
  }

  /** Case-insensitive equality, as used for community room tokens. */
  predicate SameIgnoringCase(a: string, b: string) {
    Lower(a) == Lower(b)
  }

  lemma SameIgnoringCaseIsEquivalence(a: string, b: string, c: string)
    ensures SameIgnoringCase(a, a)
    ensures SameIgnoringCase(a, b) ==> SameIgnoringCase(b, a)
    ensures SameIgnoringCase(a, b) && SameIgnoringCase(b, c) ==> SameIgnoringCase(a, c)
  {
  }

  // ---------------------------------------------------------------------------
  // Session ids

  predicate IsHexDigit(c: char) {
    '0' <= c <= '9' || 'a' <= c <= 'f' || 'A' <= c <= 'F'
  }

  /** A session id (and a legacy group id, which has the same format) is 66 hex digits. */
  predicate ValidSessionId(s: string) {
    |s| == 66 && forall i :: 0 <= i < |s| ==> IsHexDigit(s[i])
  }

  // ---------------------------------------------------------------------------
  // Byte order of strings (the order of an ordered string-keyed table)

  /** Strict lexicographic order on strings, character by character. */
  predicate Before(a: string, b: string) {
    if |a| == 0 then |b| > 0
    else if |b| == 0 then false
    else a[0] < b[0] || (a[0] == b[0] && Before(a[1..], b[1..]))
  }

  lemma {:induction false} BeforeIrreflexive(a: string)
    ensures !Before(a, a)
  {
    if |a| > 0 {
      BeforeIrreflexive(a[1..]);
    }
  }

  lemma {:induction false} BeforeTransitive(a: string, b: string, c: string)
    requires Before(a, b) && Before(b, c)
    ensures Before(a, c)
  {
    if |a| > 0 && |b| > 0 && |c| > 0 && a[0] == b[0] == c[0] {
      BeforeTransitive(a[1..], b[1..], c[1..]);
    }
  }

  lemma {:induction false} BeforeTotal(a: string, b: string)
    ensures a == b || Before(a, b) || Before(b, a)
  {
    if |a| > 0 && |b| > 0 && a[0] == b[0] {
      BeforeTotal(a[1..], b[1..]);
      if a[1..] == b[1..] {
        assert a == [a[0]] + a[1..] && b == [b[0]] + b[1..];
      }
    }
  }

  /** Two strings in the order are distinct. */
  lemma BeforeDistinct(a: string, b: string)
    requires Before(a, b)
    ensures a != b
  {
    BeforeIrreflexive(a);
  }

  /** Two strings are never ordered both ways. */
  lemma BeforeAsymmetric(a: string, b: string)
    requires Before(a, b)
    ensures !Before(b, a)
  {
    if Before(b, a) {
      BeforeTransitive(a, b, a);
      BeforeIrreflexive(a);
    }
  }

  // ---------------------------------------------------------------------------
  // Base-URL normalisation

  const HttpScheme: string := "http://"
  const HttpsScheme: string := "https://"

  predicate HasPrefix(p: string, s: string) {
    |p| <= |s| && s[..|p|] == p
  }

  /** The port a scheme uses when none is written (section 6.2.3 of RFC 3986). */
  function DefaultPortSuffix(scheme: string): string {
    if scheme == HttpsScheme then ":443"
    else if scheme == HttpScheme then ":80"
    else ""
  }

  /** Splits a lower-cased URL into its scheme prefix (possibly empty) and the rest. */
  function SplitScheme(l: string): (r: (string, string))
    ensures r.0 + r.1 == l
    ensures r.0 == HttpsScheme || r.0 == HttpScheme || r.0 == ""
  {
    if HasPrefix(HttpsScheme, l) then (HttpsScheme, l[|HttpsScheme|..])
    else if HasPrefix(HttpScheme, l) then (HttpScheme, l[|HttpScheme|..])
    else ("", l)
  }

  /** Index of the first '/' of `s`, or |s| when there is none. */
  function SlashIndex(s: string): (k: nat)
    ensures k <= |s|
    ensures forall j :: 0 <= j < k ==> s[j] != '/'
    ensures k < |s| ==> s[k] == '/'
  {
    if |s| == 0 || s[0] == '/' then 0 else 1 + SlashIndex(s[1..])
  }

  /** Removes every trailing '/'. */
  function TrimTrailingSlashes(s: string): (r: string)
    ensures HasPrefix(r, s)
    ensures |r| == 0 || r[|r| - 1] != '/'
    ensures forall j :: |r| <= j < |s| ==> s[j] == '/'
  {
    if |s| > 0 && s[|s| - 1] == '/' then TrimTrailingSlashes(s[..|s| - 1]) else s
  }

  /**
   * Whether an authority already ends in a port: a ':' after its last ']'
   * (which closes an IPv6 literal) and after its last '@' (which ends the
   * user information).
   */
  function HasPortColon(h: string): bool
  {
    if |h| == 0 then false
    else if h[|h| - 1] == ':' then true
    else if h[|h| - 1] == ']' || h[|h| - 1] == '@' then false
    else HasPortColon(h[..|h| - 1])
  }

  /**
   * Drops the scheme's default port from the end of a host, when that is
   * the host's port: "h:443" becomes "h" for https, "[::1]:443" becomes
   * "[::1]", and "h:8443" or "h:443:443" are kept.
   */
  function StripDefaultPort(scheme: string, host: string): (r: string)
    ensures HasPrefix(r, host)
    ensures r == host || host[|r|..] == DefaultPortSuffix(scheme) != ""
    ensures r == host || !HasPortColon(r)
  {
    var p := DefaultPortSuffix(scheme);
    if p != "" && |p| <= |host| && host[|host| - |p|..] == p && !HasPortColon(host[..|host| - |p|])
    then host[..|host| - |p|]
    else host
  }

  /**
   * The normalised form of a community base URL: lower-cased throughout
   * (section 6.2.2.1 of RFC 3986), without the scheme's default port and
   * without trailing '/'.
   */
  function NormalizeUrl(url: string): (r: string)
    ensures IsLowerCase(r)
    ensures |r| <= |url|
  {
    var l := Lower(url);
    var (scheme, rest) := SplitScheme(l);
    var k := SlashIndex(rest);
    var host := StripDefaultPort(scheme, rest[..k]);
    var path := TrimTrailingSlashes(rest[k..]);
    LowerCasePieces(l, scheme, rest, k, host, path);
    scheme + host + path
  }

  lemma LowerCasePieces(l: string, scheme: string, rest: string, k: nat, host: string, path: string)
    requires IsLowerCase(l) && scheme + rest == l && k <= |rest|
    requires HasPrefix(host, rest[..k]) && HasPrefix(path, rest[k..])
    ensures IsLowerCase(scheme + host + path)
  {
    var r := scheme + host + path;
    forall i | 0 <= i < |r| ensures !('A' <= r[i] <= 'Z') {
      if i < |scheme| {
        assert r[i] == l[i];
      } else if i < |scheme| + |host| {
        assert r[i] == l[i];
      } else {
        assert r[i] == rest[k + (i - |scheme| - |host|)] == l[|scheme| + k + (i - |scheme| - |host|)];
      }
    }
  }

  lemma {:induction false} SlashIndexOfConcat(a: string, b: string)
    requires forall j :: 0 <= j < |a| ==> a[j] != '/'
    requires |b| == 0 || b[0] == '/'
    ensures SlashIndex(a + b) == |a|
  {
    if |a| > 0 {
      assert (a + b)[1..] == a[1..] + b;
      SlashIndexOfConcat(a[1..], b);
    } else {
      assert a + b == b;
    }
  }

  lemma StripDefaultPortIdempotent(scheme: string, host: string)
    ensures StripDefaultPort(scheme, StripDefaultPort(scheme, host)) == StripDefaultPort(scheme, host)
  {
    DefaultPortIsPortColon(scheme, StripDefaultPort(scheme, host));
  }

  /** A host that ends in the scheme's default port has a port colon. */
  lemma DefaultPortIsPortColon(scheme: string, h: string)
    ensures var p := DefaultPortSuffix(scheme);
      p != "" && |p| <= |h| && h[|h| - |p|..] == p ==> HasPortColon(h)
  {
    var p := DefaultPortSuffix(scheme);
    if p != "" && |p| <= |h| && h[|h| - |p|..] == p {
      var a := h[..|h| - |p|];
      assert p == [':'] + p[1..];
      assert a + [':'] + p[1..] == h;
      PortEndsInPortColon(a, p[1..]);
    }
  }

  /** An authority ending in ':' and digits has a port colon. */
  lemma {:induction false} PortEndsInPortColon(a: string, digits: string)
    requires forall j :: 0 <= j < |digits| ==> '0' <= digits[j] <= '9'
    ensures HasPortColon(a + [':'] + digits)
  {
    var h := a + [':'] + digits;
    if |digits| > 0 {
      var d := digits[..|digits| - 1];
      assert h[..|h| - 1] == a + [':'] + d;
      PortEndsInPortColon(a, d);
    }
  }

  lemma PrefixOfPrefix(p: string, r: string, l: string)
    requires HasPrefix(r, l) && HasPrefix(p, r)
    ensures HasPrefix(p, l)
  {
    assert l[..|p|] == l[..|r|][..|p|];
  }

  lemma SplitHttps(host: string, path: string)
    ensures SplitScheme(HttpsScheme + host + path) == (HttpsScheme, host + path)
  {
    var r := HttpsScheme + host + path;
    assert r[..|HttpsScheme|] == HttpsScheme;
    assert r[|HttpsScheme|..] == host + path;
  }

  lemma SplitHttp(host: string, path: string)
    ensures SplitScheme(HttpScheme + host + path) == (HttpScheme, host + path)
  {
    var r := HttpScheme + host + path;
    assert r[..|HttpScheme|] == HttpScheme;
    assert r[|HttpScheme|..] == host + path;
    assert |r| >= |HttpsScheme| ==> r[4] == ':' != HttpsScheme[4];
  }

  /** A host cut from the front of `rest`, followed by a prefix of what follows it, is a prefix of `rest`. */
  lemma PrefixCut(rest: string, k: nat, path: string)
    requires k <= |rest| && HasPrefix(path, rest[k..])
    ensures HasPrefix(rest[..k] + path, rest)
  {
    var r := rest[..k] + path;
    forall i | 0 <= i < |r| ensures r[i] == rest[i] {
      if i >= k {
        assert r[i] == path[i - k] == rest[k..][i - k];
      }
    }
    assert rest[..|r|] == r;
  }

  /** A prefix of a string without a scheme has no scheme either. */
  lemma NoSchemePrefix(l: string, r: string)
    requires !HasPrefix(HttpsScheme, l) && !HasPrefix(HttpScheme, l) && HasPrefix(r, l)
    ensures SplitScheme(r) == ("", r)
  {
    if HasPrefix(HttpsScheme, r) {
      PrefixOfPrefix(HttpsScheme, r, l);
      assert false;
    }
    if HasPrefix(HttpScheme, r) {
      PrefixOfPrefix(HttpScheme, r, l);
      assert false;
    }
  }

  /** The host and path cut from a URL without a scheme still have no scheme. */
  lemma SplitNoScheme(l: string, rest: string, k: nat, host: string, path: string)
    requires SplitScheme(l) == ("", rest) && k <= |rest|
    requires host == rest[..k] && HasPrefix(path, rest[k..])
    ensures SplitScheme("" + host + path) == ("", host + path)
  {
    assert "" + host + path == host + path;
    PrefixCut(rest, k, path);
    NoSchemePrefix(l, host + path);
  }

  /** A normalised URL splits again into the same scheme and the same host-and-path. */
  lemma SplitSchemeAgain(l: string, scheme: string, rest: string, k: nat, host: string, path: string)
    requires SplitScheme(l) == (scheme, rest) && k <= |rest|
    requires HasPrefix(host, rest[..k]) && HasPrefix(path, rest[k..])
    requires scheme == "" ==> host == rest[..k]
    ensures SplitScheme(scheme + host + path) == (scheme, host + path)
  {
    if scheme == HttpsScheme {
      SplitHttps(host, path);
    } else if scheme == HttpScheme {
      SplitHttp(host, path);
    } else {
      SplitNoScheme(l, rest, k, host, path);
    }
  }

  /**
   * A normalised URL ends in '/' only when it is a bare scheme: every
   * trailing '/' of the path is gone, and the host holds no '/'.
   */
  lemma NormalizedHasNoTrailingSlash(url: string)
    ensures var r := NormalizeUrl(url);
            r == "" || r[|r| - 1] != '/' || r == HttpScheme || r == HttpsScheme
  {
    var l := Lower(url);
    var (scheme, rest) := SplitScheme(l);
    var k := SlashIndex(rest);
    var host := StripDefaultPort(scheme, rest[..k]);
    var path := TrimTrailingSlashes(rest[k..]);
    assert NormalizeUrl(url) == scheme + host + path;
    if path == "" && host != "" {
      assert host[|host| - 1] == rest[..k][|host| - 1];
    }
  }

  /** The lower-case string `a + b + c + d`, split as `a` then `b + c` then `d`. */
  lemma LowerCaseConcat(a: string, b: string, c: string, d: string)
    requires IsLowerCase(a) && IsLowerCase(b) && IsLowerCase(c) && IsLowerCase(d)
    ensures a + b + c + d == a + (b + c) + d
    ensures IsLowerCase(a + b + c + d)
  {
    var u := a + b + c + d;
    forall i | 0 <= i < |u| ensures !('A' <= u[i] <= 'Z') {
      if i < |a| {
        assert u[i] == a[i];
      } else if i < |a| + |b| {
        assert u[i] == b[i - |a|];
      } else if i < |a| + |b| + |c| {
        assert u[i] == c[i - |a| - |b|];
      } else {
        assert u[i] == d[i - |a| - |b| - |c|];
      }
    }
  }

  /** A scheme and its default port are lower case; the port is ':' and digits. */
  lemma SchemeAndPortPlain(scheme: string)
    requires scheme == HttpsScheme || scheme == HttpScheme
    ensures IsLowerCase(scheme) && IsLowerCase(DefaultPortSuffix(scheme))
    ensures |DefaultPortSuffix(scheme)| > 0 && DefaultPortSuffix(scheme)[0] == ':'
    ensures forall j :: 0 <= j < |DefaultPortSuffix(scheme)| ==> DefaultPortSuffix(scheme)[j] != '/'
  {
  }

  /** A host followed by exactly the scheme's default port loses that port. */
  lemma StripWrittenDefaultPort(scheme: string, host: string)
    requires scheme == HttpsScheme || scheme == HttpScheme
    requires !HasPortColon(host)
    ensures StripDefaultPort(scheme, host + DefaultPortSuffix(scheme)) == host
  {
    var hp := host + DefaultPortSuffix(scheme);
    assert hp[..|host|] == host;
    assert hp[|host|..] == DefaultPortSuffix(scheme);
  }

  /** Splitting `scheme + hp + path` into scheme, host and path, when `hp` has no '/'. */
  lemma SplitHostAndPath(scheme: string, hp: string, path: string)
    requires scheme == HttpsScheme || scheme == HttpScheme
    requires forall j :: 0 <= j < |hp| ==> hp[j] != '/'
    requires path == "" || path[0] == '/'
    ensures SplitScheme(scheme + hp + path) == (scheme, hp + path)
    ensures SlashIndex(hp + path) == |hp|
    ensures (hp + path)[..|hp|] == hp && (hp + path)[|hp|..] == path
  {
    if scheme == HttpsScheme {
      SplitHttps(hp, path);
    } else {
      SplitHttp(hp, path);
    }
    SlashIndexOfConcat(hp, path);
    assert (hp + path)[..|hp|] == hp;
    assert (hp + path)[|hp|..] == path;
  }

  /**
   * The scheme's default port is dropped from a host that has no port of
   * its own, and the path loses its trailing '/': "https://h:443/p/" becomes
   * "https://h/p".
   */
  lemma NormalizeDropsDefaultPort(scheme: string, host: string, path: string)
    requires scheme == HttpsScheme || scheme == HttpScheme
    requires IsLowerCase(host) && IsLowerCase(path)
    requires forall j :: 0 <= j < |host| ==> host[j] != '/'
    requires !HasPortColon(host)
    requires path == "" || path[0] == '/'
    ensures NormalizeUrl(scheme + host + DefaultPortSuffix(scheme) + path)
         == scheme + host + TrimTrailingSlashes(path)
  {
    var p := DefaultPortSuffix(scheme);
    var hp := host + p;
    SchemeAndPortPlain(scheme);
    LowerCaseConcat(scheme, host, p, path);
    LowerOfLowerCase(scheme + hp + path);
    SplitHostAndPath(scheme, hp, path);
    StripWrittenDefaultPort(scheme, host);
  }

  /** A URL already made of a normalised scheme, host and path normalises to itself. */
  lemma NormalizeSettled(scheme: string, host: string, path: string)
    requires IsLowerCase(scheme + host + path)
    requires SplitScheme(scheme + host + path) == (scheme, host + path)
    requires forall j :: 0 <= j < |host| ==> host[j] != '/'
    requires path == "" || path[0] == '/'
    requires StripDefaultPort(scheme, host) == host && TrimTrailingSlashes(path) == path
    ensures NormalizeUrl(scheme + host + path) == scheme + host + path
  {
    LowerOfLowerCase(scheme + host + path);
    SlashIndexOfConcat(host, path);
    assert (host + path)[..|host|] == host;
    assert (host + path)[|host|..] == path;
  }

  /** The scheme, host and path a normalised URL is made of, with what normalising left in them. */
  lemma NormalizedPieces(url: string) returns (scheme: string, host: string, path: string)
    ensures NormalizeUrl(url) == scheme + host + path
    ensures IsLowerCase(scheme + host + path)
    ensures SplitScheme(scheme + host + path) == (scheme, host + path)
    ensures forall j :: 0 <= j < |host| ==> host[j] != '/'
    ensures path == "" || path[0] == '/'
    ensures StripDefaultPort(scheme, host) == host && TrimTrailingSlashes(path) == path
  {
    var l := Lower(url);
    var rest;
    scheme, rest := SplitScheme(l).0, SplitScheme(l).1;
    var k := SlashIndex(rest);
    host := StripDefaultPort(scheme, rest[..k]);
    path := TrimTrailingSlashes(rest[k..]);
    PiecesSettled(l, scheme, rest, k);
  }

  /** What normalising leaves in the host and path cut from a lower-cased URL. */
  lemma PiecesSettled(l: string, scheme: string, rest: string, k: nat)
    requires IsLowerCase(l) && SplitScheme(l) == (scheme, rest) && k == SlashIndex(rest)
    ensures var host, path := StripDefaultPort(scheme, rest[..k]), TrimTrailingSlashes(rest[k..]);
      && IsLowerCase(scheme + host + path)
      && SplitScheme(scheme + host + path) == (scheme, host + path)
      && (forall j :: 0 <= j < |host| ==> host[j] != '/')
      && (path == "" || path[0] == '/')
      && StripDefaultPort(scheme, host) == host && TrimTrailingSlashes(path) == path
  {
    var host, path := StripDefaultPort(scheme, rest[..k]), TrimTrailingSlashes(rest[k..]);
    LowerCasePieces(l, scheme, rest, k, host, path);
    SplitSchemeAgain(l, scheme, rest, k, host, path);
    assert path != [] ==> k < |rest| && path[0] == rest[k];
    StrippedHost(scheme, rest[..k]);
  }

  /** Stripping the default port from a host without '/' leaves a host without '/' that strips to itself. */
  lemma StrippedHost(scheme: string, h: string)
    requires forall j :: 0 <= j < |h| ==> h[j] != '/'
    ensures forall j :: 0 <= j < |StripDefaultPort(scheme, h)| ==> StripDefaultPort(scheme, h)[j] != '/'
    ensures StripDefaultPort(scheme, StripDefaultPort(scheme, h)) == StripDefaultPort(scheme, h)
  {
    var r := StripDefaultPort(scheme, h);
    assert forall j :: 0 <= j < |r| ==> r[j] == h[j];
    StripDefaultPortIdempotent(scheme, h);
  }

  /** Normalising a normalised URL changes nothing, so stored base URLs are stable lookup keys. */
  lemma NormalizeUrlIdempotent(url: string)
    ensures NormalizeUrl(NormalizeUrl(url)) == NormalizeUrl(url)
  {
    var scheme, host, path := NormalizedPieces(url);
    NormalizeSettled(scheme, host, path);
  }

  /** Lower-casing works piece by piece. */
  lemma LowerConcat(a: string, b: string)
    ensures Lower(a + b) == Lower(a) + Lower(b)
  {
  }

  /** The case a URL is written in does not change its normalised form. */
  lemma NormalizeUrlOfLower(url: string)
    ensures NormalizeUrl(Lower(url)) == NormalizeUrl(url)
  {
    LowerOfLowerCase(Lower(url));
  }

  /** Lower-casing keeps ':', ']' and '@', so it keeps whether a host has a port. */
  lemma {:induction false} LowerKeepsPortColon(h: string)
    ensures HasPortColon(Lower(h)) == HasPortColon(h)
  {
    if |h| > 0 {
      var l := Lower(h);
      assert l[..|l| - 1] == Lower(h[..|h| - 1]);
      LowerKeepsPortColon(h[..|h| - 1]);
    }
  }

  /** Lower-casing a URL whose scheme and tail are already lower case lower-cases only its host. */
  lemma LowerOfPieces(scheme: string, host: string, tail: string)
    requires IsLowerCase(scheme) && IsLowerCase(tail)
    ensures Lower(scheme + host + tail) == scheme + Lower(host) + tail
  {
    LowerConcat(scheme + host, tail);
    LowerConcat(scheme, host);
    LowerOfLowerCase(scheme);
    LowerOfLowerCase(tail);
  }

  /** Lower-casing "scheme + host + port + tail" lower-cases only the host. */
  lemma LowerWithPort(scheme: string, host: string, tail: string)
    requires scheme == HttpsScheme || scheme == HttpScheme
    requires IsLowerCase(tail)
    ensures Lower(scheme + host + DefaultPortSuffix(scheme) + tail)
         == scheme + Lower(host) + DefaultPortSuffix(scheme) + tail
  {
    var p := DefaultPortSuffix(scheme);
    SchemeAndPortPlain(scheme);
    LowerCaseConcat(p, tail, "", "");
    assert p + tail + "" + "" == p + tail;
    assert scheme + host + p + tail == scheme + host + (p + tail);
    assert scheme + Lower(host) + p + tail == scheme + Lower(host) + (p + tail);
    LowerOfPieces(scheme, host, p + tail);
  }

  /** A run of '/' trims away entirely. */
  lemma {:induction false} TrimOnlySlashes(slashes: string)
    requires forall j :: 0 <= j < |slashes| ==> slashes[j] == '/'
    ensures TrimTrailingSlashes(slashes) == []
  {
    if |slashes| > 0 {
      TrimOnlySlashes(slashes[..|slashes| - 1]);
    }
  }

  /**
   * A base URL written with upper-case letters, the scheme's default port
   * and trailing '/' normalises to the plain lower-case one:
   * "https://Example.com:443/" becomes "https://example.com".
   */
  lemma NormalizeIgnoresCaseAndDefaultPort(scheme: string, host: string, slashes: string)
    requires scheme == HttpsScheme || scheme == HttpScheme
    requires forall j :: 0 <= j < |host| ==> host[j] != '/'
    requires !HasPortColon(host)
    requires forall j :: 0 <= j < |slashes| ==> slashes[j] == '/'
    ensures NormalizeUrl(scheme + host + DefaultPortSuffix(scheme) + slashes) == scheme + Lower(host)
  {
    var h := Lower(host);
    TrimOnlySlashes(slashes);
    assert scheme + h + TrimTrailingSlashes(slashes) == scheme + h;
    LowerKeepsPortColon(host);
    LowerKeepsNoSlash(host);
    LowerWithPort(scheme, host, slashes);
    NormalizeDropsDefaultPort(scheme, h, slashes);
    NormalizeThroughLower(scheme + host + DefaultPortSuffix(scheme) + slashes, scheme + h + DefaultPortSuffix(scheme) + slashes);
  }

  /** A URL normalises as its lower-cased spelling does. */
  lemma NormalizeThroughLower(url: string, l: string)
    requires Lower(url) == l
    ensures NormalizeUrl(url) == NormalizeUrl(l)
  {
    NormalizeUrlOfLower(url);
  }

  /** Lower-casing keeps a host free of '/'. */
  lemma LowerKeepsNoSlash(h: string)
    requires forall j :: 0 <= j < |h| ==> h[j] != '/'
    ensures forall j :: 0 <= j < |Lower(h)| ==> Lower(h)[j] != '/'
  {
  }

  /** A base URL of a scheme and a host with no port of its own normalises to its lower-case form. */
  lemma NormalizePlainHost(scheme: string, host: string)
    requires scheme == HttpsScheme || scheme == HttpScheme
    requires forall j :: 0 <= j < |host| ==> host[j] != '/'
    requires !HasPortColon(host)
    ensures NormalizeUrl(scheme + host) == scheme + Lower(host)
  {
    var h := Lower(host);
    SchemeAndPortPlain(scheme);
    LowerKeepsPortColon(host);
    LowerOfPieces(scheme, host, "");
    assert scheme + host + "" == scheme + host && scheme + h + "" == scheme + h;
    NormalizeUrlOfLower(scheme + host);
    PlainHostSettled(scheme, h);
  }

  /** A lower-case host with no '/' and no port, after a scheme, is already normalised. */
  lemma PlainHostSettled(scheme: string, h: string)
    requires scheme == HttpsScheme || scheme == HttpScheme
    requires IsLowerCase(h) && !HasPortColon(h)
    requires forall j :: 0 <= j < |h| ==> h[j] != '/'
    ensures NormalizeUrl(scheme + h) == scheme + h
  {
    assert scheme + h + "" == scheme + h;
    SchemeAndPortPlain(scheme);
    NoPortKept(scheme, h);
    if scheme == HttpsScheme {
      SplitHttps(h, "");
    } else {
      SplitHttp(h, "");
    }
    LowerCaseConcat(scheme, h, "", "");
    NormalizeSettled(scheme, h, "");
  }

  /** A host with no port of its own has no default port to lose. */
  lemma NoPortKept(scheme: string, h: string)
    requires !HasPortColon(h)
    ensures StripDefaultPort(scheme, h) == h
  {
    DefaultPortIsPortColon(scheme, h);
  }
}

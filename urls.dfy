/**
 * The network location (`netloc`) of a URL, as `urllib.parse.urlparse`
 * finds it: an optional scheme up to the first `:`, then, only if what
 * follows starts with `//`, everything up to the first `/`, `?` or `#`.
 */
module Urls {

  /** The characters `urlsplit` accepts in a scheme. */
  predicate IsSchemeChar(c: char) {
    ('a' <= c <= 'z') || ('A' <= c <= 'Z') || ('0' <= c <= '9') || c == '+' || c == '-' || c == '.'
  }

  predicate IsAsciiLetter(c: char) {
    ('a' <= c <= 'z') || ('A' <= c <= 'Z')
  }

  /** The characters that end the network location. */
  predicate IsAuthorityEnd(c: char) {
    c == '/' || c == '?' || c == '#'
  }

  /** `str.find` for one character, with `|s|` for "absent". */
  function IndexOf(s: string, c: char): (r: nat)
    ensures r <= |s|
    ensures forall i :: 0 <= i < r ==> s[i] != c
    ensures r < |s| ==> s[r] == c
  {
    if s == [] then 0 else if s[0] == c then 0 else 1 + IndexOf(s[1..], c)
  }

  /** The position of the first `/`, `?` or `#`, or `|s|` if there is none. */
  function AuthorityLength(s: string): (r: nat)
    ensures r <= |s|
    ensures forall i :: 0 <= i < r ==> !IsAuthorityEnd(s[i])
    ensures r < |s| ==> IsAuthorityEnd(s[r])
  {
    if s == [] then 0 else if IsAuthorityEnd(s[0]) then 0 else 1 + AuthorityLength(s[1..])
  }

  /** A scheme as `urlsplit` recognises it: a letter, then scheme characters. */
  predicate IsScheme(s: string) {
    && s != []
    && IsAsciiLetter(s[0])
    && forall i :: 0 <= i < |s| ==> IsSchemeChar(s[i])
  }

  /** The URL with its scheme and the `:` after it removed, if it has one. */
  function AfterScheme(url: string): (r: string)
    ensures |r| <= |url|
  {
    var i := IndexOf(url, ':');
    if i < |url| && IsScheme(url[..i]) then url[i + 1..] else url
  }

  /** `urlparse(url).netloc`. */
  function Host(url: string): (r: string)
    ensures forall i :: 0 <= i < |r| ==> !IsAuthorityEnd(r[i])
  {
    var rest := AfterScheme(url);
    if |rest| >= 2 && rest[..2] == "//" then
      var authority := rest[2..];
      authority[..AuthorityLength(authority)]
    else ""
  }

  /**
   * What is removed is a suffix split: either nothing, or a valid scheme up
   * to the first `:` together with that `:`.
   */
  lemma AfterSchemeSplits(url: string)
    ensures var r := AfterScheme(url);
      && r == url[|url| - |r|..]
      && (r != url ==>
            var k := |url| - |r| - 1;
            && 0 <= k && url[k] == ':' && IsScheme(url[..k])
            && forall i :: 0 <= i < k ==> url[i] != ':')
  {
  }

  /** A recognised scheme and its `:` are removed, and nothing else. */
  lemma AfterSchemeOf(url: string, scheme: string)
    requires IsScheme(scheme)
    requires |scheme| < |url| && url[..|scheme|] == scheme && url[|scheme|] == ':'
    ensures AfterScheme(url) == url[|scheme| + 1..]
  {
    assert forall i :: 0 <= i < |scheme| ==> url[i] == scheme[i] && url[i] != ':';
    assert IndexOf(url, ':') == |scheme|;
  }

  /** The authority ends where the host does. */
  lemma AuthorityLengthOf(host: string, tail: string)
    requires forall i :: 0 <= i < |host| ==> !IsAuthorityEnd(host[i])
    requires tail == [] || IsAuthorityEnd(tail[0])
    ensures AuthorityLength(host + tail) == |host|
  {
    var authority := host + tail;
    assert forall i :: 0 <= i < |host| ==> authority[i] == host[i];
    if tail != [] {
      assert authority[|host|] == tail[0];
    }
  }

  /**
   * For `scheme://host` followed by nothing or by a path, query or fragment,
   * the network location is exactly `host`.
   */
  lemma HostOfAbsoluteUrl(scheme: string, host: string, tail: string)
    requires IsScheme(scheme)
    requires forall i :: 0 <= i < |host| ==> !IsAuthorityEnd(host[i])
    requires tail == [] || IsAuthorityEnd(tail[0])
    ensures Host(scheme + "://" + host + tail) == host
  {
    var url := scheme + "://" + host + tail;
    var k := |scheme|;
    assert url[..k] == scheme;
    assert url[k] == ':';
    AfterSchemeOf(url, scheme);
    var rest := url[k + 1..];
    assert rest[..2] == "//";
    assert rest[2..] == host + tail;
    AuthorityLengthOf(host, tail);
    assert (host + tail)[..|host|] == host;
  }

  /** Without `//` after the scheme there is no network location. */
  lemma NoHostWithoutSlashes(scheme: string, rest: string)
    requires IsScheme(scheme)
    requires |rest| < 2 || rest[..2] != "//"
    ensures Host(scheme + ":" + rest) == ""
  {
    var url := scheme + ":" + rest;
    assert url[..|scheme|] == scheme;
    AfterSchemeOf(url, scheme);
    assert url[|scheme| + 1..] == rest;
  }
}

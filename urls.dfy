/**
 * The part of Python's `urllib.parse` the pipeline uses: the `netloc`
 * (authority, section 3.2 of RFC 3986) that `urlparse` finds, and the
 * resolution of a listing page's relative links against its base URL.
 */
module Urls {
  import opened Wrappers
  import opened Text

  /** Characters `urlsplit` accepts in a scheme name. */
  predicate IsSchemeChar(c: char) {
    IsLetter(c) || IsDigit(c) || c == '+' || c == '-' || c == '.'
  }

  /** C0 control characters and space, which `urlsplit` strips from the front. */
  predicate IsC0OrSpace(c: char) {
    c <= ' '
  }

  function LStripC0(s: string): (r: string)
    ensures r == [] || !IsC0OrSpace(r[0])
  {
    if s != [] && IsC0OrSpace(s[0]) then LStripC0(s[1..]) else s
  }

  /** `urlsplit` deletes every tab, carriage return and line feed. */
  function RemoveUnsafe(s: string): (r: string)
    ensures forall c :: c in r ==> c in s && c != '\t' && c != '\r' && c != '\n'
  {
    if s == [] then []
    else if s[0] == '\t' || s[0] == '\r' || s[0] == '\n' then RemoveUnsafe(s[1..])
    else [s[0]] + RemoveUnsafe(s[1..])
  }

  /** The length of the run of scheme characters that `u` starts with. */
  function SchemeRun(u: string): (n: nat)
    ensures n <= |u|
  {
    if u != [] && IsSchemeChar(u[0]) then 1 + SchemeRun(u[1..]) else 0
  }

  /**
   * What follows `scheme:` when `u` starts with a well-formed scheme, else
   * `u` itself.  `urlsplit` takes the text before the first `:` as the
   * scheme when it is non-empty, starts with a letter and holds only scheme
   * characters; as `:` is not one, that is the leading run of scheme
   * characters followed by `:`.
   */
  function AfterScheme(u: string): string {
    var n := SchemeRun(u);
    if 0 < n < |u| && u[n] == ':' && IsLetter(u[0]) then u[n + 1..] else u
  }

  predicate IsAuthorityEnd(c: char) {
    c == '/' || c == '?' || c == '#'
  }

  /** `_splitnetloc`: everything up to the first `/`, `?` or `#`. */
  function AuthorityPrefix(s: string): (a: string)
    ensures a <= s
    ensures forall k :: 0 <= k < |a| ==> !IsAuthorityEnd(a[k])
    ensures |a| == |s| || IsAuthorityEnd(s[|a|])
  {
    if s == [] || IsAuthorityEnd(s[0]) then [] else [s[0]] + AuthorityPrefix(s[1..])
  }

  /**
   * `urlparse(url).netloc`; `None` where `urlparse` raises `ValueError`
   * (a `[` without `]` or the reverse in the authority).
   */
  function Netloc(url: string): Option<string> {
    var u := RemoveUnsafe(LStripC0(url));
    var rest := AfterScheme(u);
    if |rest| >= 2 && rest[..2] == "//" then
      var n := AuthorityPrefix(rest[2..]);
      if ('[' in n) != (']' in n) then None else Some(n)
    else Some("")
  }

  /** A host and port as they may stand between `//` and the path. */
  predicate IsPlainAuthority(host: string) {
    forall c :: c in host ==> !IsAuthorityEnd(c) && c != '[' && c != ']' && c != '\t' && c != '\r' && c != '\n'
  }

  /** A path, query and fragment that start where the authority ends. */
  predicate IsPathPart(path: string) {
    (path == [] || IsAuthorityEnd(path[0])) && forall c :: c in path ==> c != '\t' && c != '\r' && c != '\n'
  }

  /** No tab, carriage return or line feed. */
  predicate NoUnsafe(s: string) {
    forall c :: c in s ==> c != '\t' && c != '\r' && c != '\n'
  }

  lemma {:induction false} NoUnsafeConcat(a: string, b: string)
    requires NoUnsafe(a) && NoUnsafe(b)
    ensures NoUnsafe(a + b)
  {
    forall c | c in a + b ensures c in a || c in b { }
  }

  lemma {:induction false} RemoveUnsafeKeeps(s: string)
    requires NoUnsafe(s)
    ensures RemoveUnsafe(s) == s
  {
    if s != [] {
      assert s[0] in s;
      assert NoUnsafe(s[1..]) by {
        forall c | c in s[1..] ensures c in s { }
      }
      RemoveUnsafeKeeps(s[1..]);
      assert s == [s[0]] + s[1..];
    }
  }

  lemma {:induction false} AuthorityPrefixOf(host: string, path: string)
    requires IsPlainAuthority(host) && IsPathPart(path)
    ensures AuthorityPrefix(host + path) == host
  {
    if host != [] {
      assert host[0] in host;
      assert IsPlainAuthority(host[1..]) by {
        forall c | c in host[1..] ensures c in host { }
      }
      assert (host + path)[1..] == host[1..] + path;
      AuthorityPrefixOf(host[1..], path);
    }
  }

  /** A scheme name as `urlsplit` recognises one. */
  predicate IsScheme(scheme: string) {
    scheme != [] && IsLetter(scheme[0]) && forall c :: c in scheme ==> IsSchemeChar(c)
  }

  lemma {:induction false} AfterSchemeOf(scheme: string, rest: string)
    requires IsScheme(scheme)
    ensures AfterScheme(scheme + ":" + rest) == rest
  {
    var u := scheme + ":" + rest;
    assert u == scheme + (":" + rest);
    assert !IsSchemeChar(':');
    SchemeRunOf(scheme, ":" + rest);
    assert u[0] == scheme[0] && u[|scheme|] == ':';
    assert u[|scheme| + 1..] == rest;
  }

  /** The run of scheme characters of `scheme + tail` is `scheme` when `tail` starts with something else. */
  lemma {:induction false} SchemeRunOf(scheme: string, tail: string)
    requires forall c :: c in scheme ==> IsSchemeChar(c)
    requires tail != [] && !IsSchemeChar(tail[0])
    ensures SchemeRun(scheme + tail) == |scheme|
  {
    if scheme != [] {
      assert scheme[0] in scheme;
      assert (scheme + tail)[1..] == scheme[1..] + tail;
      assert forall c :: c in scheme[1..] ==> c in scheme;
      SchemeRunOf(scheme[1..], tail);
    }
  }

  /** `urlsplit` leaves `scheme:rest` as it is when `rest` has no tab, carriage return or line feed. */
  lemma {:induction false} SchemeUrlClean(scheme: string, rest: string)
    requires IsScheme(scheme) && NoUnsafe(rest)
    ensures RemoveUnsafe(LStripC0(scheme + ":" + rest)) == scheme + ":" + rest
  {
    var url := scheme + ":" + rest;
    assert url[0] == scheme[0] && !IsC0OrSpace(url[0]);
    assert NoUnsafe(scheme) by {
      forall c | c in scheme ensures c != '\t' && c != '\r' && c != '\n' { assert IsSchemeChar(c); }
    }
    NoUnsafeConcat(scheme, ":");
    NoUnsafeConcat(scheme + ":", rest);
    RemoveUnsafeKeeps(url);
  }

  /** The netloc of `scheme://host/path` is `host`, whatever the scheme. */
  lemma {:induction false} NetlocOfUrl(scheme: string, host: string, path: string)
    requires IsScheme(scheme)
    requires IsPlainAuthority(host) && IsPathPart(path)
    ensures Netloc(scheme + "://" + host + path) == Some(host)
  {
    var rest := "//" + (host + path);
    var url := scheme + ":" + rest;
    assert url == scheme + "://" + host + path;
    assert NoUnsafe(rest) by {
      assert NoUnsafe(host);
      NoUnsafeConcat(host, path);
      NoUnsafeConcat("//", host + path);
    }
    SchemeUrlClean(scheme, rest);
    AfterSchemeOf(scheme, rest);
    assert rest[..2] == "//" && rest[2..] == host + path;
    AuthorityPrefixOf(host, path);
    assert '[' !in host && ']' !in host;
  }

  /** The authority of `[host` followed by a path is `[host`. */
  lemma {:induction false} BracketAuthority(host: string, path: string)
    requires IsPlainAuthority(host) && IsPathPart(path)
    ensures AuthorityPrefix("[" + host + path) == "[" + host
  {
    var authority := "[" + host + path;
    AuthorityPrefixOf(host, path);
    assert authority[0] == '[' && authority[1..] == host + path;
  }

  /** `//[host` followed by a path has no tab, carriage return or line feed. */
  lemma {:induction false} BracketRestClean(host: string, path: string)
    requires IsPlainAuthority(host) && IsPathPart(path)
    ensures NoUnsafe("//" + ("[" + host + path))
  {
    assert NoUnsafe(host);
    NoUnsafeConcat(host, path);
    NoUnsafeConcat("//[", host + path);
    assert "//" + ("[" + host + path) == "//[" + (host + path);
  }

  /** `[host` holds a `[` and no `]`. */
  lemma {:induction false} UnclosedBracket(host: string)
    requires IsPlainAuthority(host)
    ensures '[' in "[" + host && ']' !in "[" + host
  {
    assert ("[" + host)[0] == '[';
    assert ']' !in host;
  }

  /** `scheme://[host` followed by a path, with no `]`, makes `urlparse` raise. */
  lemma {:induction false} UnclosedBracketRaises(scheme: string, host: string, path: string)
    requires IsScheme(scheme)
    requires IsPlainAuthority(host) && IsPathPart(path)
    ensures Netloc(scheme + "://[" + host + path).None?
  {
    var authority := "[" + host + path;
    var rest := "//" + authority;
    var url := scheme + ":" + rest;
    assert url == scheme + "://[" + host + path;
    BracketRestClean(host, path);
    SchemeUrlClean(scheme, rest);
    AfterSchemeOf(scheme, rest);
    assert rest[..2] == "//" && rest[2..] == authority;
    BracketAuthority(host, path);
    UnclosedBracket(host);
  }

  /** A relative `//[host` followed by a path, with no `]`, makes `urlparse` raise too. */
  lemma {:induction false} BracketRelativeRaises(host: string, path: string)
    requires IsPlainAuthority(host) && IsPathPart(path)
    ensures Netloc("//[" + host + path).None?
  {
    var authority := "[" + host + path;
    var rest := "//" + authority;
    assert rest == "//[" + host + path;
    BracketRestClean(host, path);
    assert rest[0] == '/' && !IsC0OrSpace(rest[0]);
    RemoveUnsafeKeeps(rest);
    assert !IsLetter(rest[0]);
    assert AfterScheme(rest) == rest;
    assert rest[..2] == "//" && rest[2..] == authority;
    BracketAuthority(host, path);
    UnclosedBracket(host);
  }

  /**
   * `urljoin("https://tldr.tech/", href)` for an `href` that does not start
   * with `http`.  Dot segments are not resolved.
   */
  function ResolveLink(href: string): string {
    if |href| >= 2 && href[..2] == "//" then "https:" + href
    else if |href| >= 1 && href[0] == '/' then "https://tldr.tech" + href
    else if AfterScheme(href) != href then href
    else "https://tldr.tech/" + href
  }
}

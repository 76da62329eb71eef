/**
 Authorities and absolute URLs as RFC 3986 describes them: what `host_name` in
 `src/middleware/url_canonicalization.rs` reads out of a Host header, and what a client
 reads out of a Location header.
*/
module Authority {
  import opened Text

  // ----- Characters (section 2 of RFC 3986) -----

  predicate IsUnreserved(c: char) {
    'a' <= c <= 'z' || 'A' <= c <= 'Z' || IsDigit(c) || c in "-._~"
  }

  predicate IsSubDelim(c: char) {
    c in "!$&'()*+,;="
  }

  predicate IsNameChar(c: char) {
    IsUnreserved(c) || IsSubDelim(c) || c == '%'
  }

  predicate IsUserinfo(s: string) {
    forall i :: 0 <= i < |s| ==> IsNameChar(s[i]) || s[i] == ':'
  }

  predicate IsRegName(s: string) {
    forall i :: 0 <= i < |s| ==> IsNameChar(s[i])
  }

  predicate IsLiteral(s: string) {
    && |s| > 2 && s[0] == '[' && s[|s| - 1] == ']'
    && forall i :: 1 <= i < |s| - 1 ==> IsUnreserved(s[i]) || IsSubDelim(s[i]) || s[i] == ':'
  }

  predicate IsHost(s: string) {
    IsLiteral(s) || IsRegName(s)
  }

  predicate IsPort(s: string) {
    forall i :: 0 <= i < |s| ==> IsDigit(s[i])
  }

  // ----- Authorities (section 3.2) -----

  datatype Parts = Parts(userinfo: Option<string>, host: string, port: Option<string>)

  predicate ValidParts(p: Parts) {
    && IsHost(p.host)
    && (p.userinfo.Some? ==> IsUserinfo(p.userinfo.value))
    && (p.port.Some? ==> IsPort(p.port.value))
  }

  function HostPort(host: string, port: Option<string>): string {
    host + if port.Some? then ":" + port.value else ""
  }

  /** An authority spelled from its parts. */
  function Spelling(p: Parts): string {
    (if p.userinfo.Some? then p.userinfo.value + "@" else "") + HostPort(p.host, p.port)
  }

  /** The first position of `c` in `s`, or the length. */
  function IndexOf(s: string, c: char): (k: nat)
    ensures k <= |s|
    ensures k < |s| ==> s[k] == c
    ensures c !in s[..k]
  {
    if s == "" || s[0] == c then 0
    else
      assert forall k :: 0 < k <= |s| ==> s[..k] == [s[0]] + s[1..][..k - 1];
      1 + IndexOf(s[1..], c)
  }

  lemma {:induction false} IndexOfConcat(u: string, v: string, c: char)
    requires c !in u
    ensures IndexOf(u + v, c) == |u| + IndexOf(v, c)
  {
    if u == "" {
      assert u + v == v;
    } else {
      IndexOfConcat(u[1..], v, c);
      assert (u + v)[1..] == u[1..] + v;
    }
  }

  lemma IndexOfFirst(u: string, v: string, c: char)
    requires c !in u
    ensures IndexOf(u + [c] + v, c) == |u|
  {
    IndexOfConcat(u, [c] + v, c);
    Associates(u, [c], v);
  }

  lemma IndexOfAbsent(u: string, c: char)
    requires c !in u
    ensures IndexOf(u, c) == |u|
  {
    IndexOfConcat(u, "", c);
    assert u + "" == u;
  }

  function ParsePort(rest: string): (port: Option<Option<string>>) {
    if rest == "" then Some(None)
    else if rest[0] == ':' && IsPort(rest[1..]) then Some(Some(rest[1..]))
    else None
  }

  /** Where the host of `hp` ends: after the closing bracket, or at the first colon. */
  function HostEnd(hp: string): (k: nat)
    ensures k <= |hp|
  {
    if hp != "" && hp[0] == '[' then
      if IndexOf(hp, ']') < |hp| then IndexOf(hp, ']') + 1 else |hp|
    else IndexOf(hp, ':')
  }

  function ParseHostPort(userinfo: Option<string>, hp: string): Option<Parts> {
    var host := hp[..HostEnd(hp)];
    var port := ParsePort(hp[HostEnd(hp)..]);
    if IsHost(host) && port.Some? then Some(Parts(userinfo, host, port.value)) else None
  }

  function ParseAuthority(s: string): Option<Parts> {
    var k := IndexOf(s, '@');
    if k == |s| then ParseHostPort(None, s)
    else if IsUserinfo(s[..k]) then ParseHostPort(Some(s[..k]), s[k + 1..])
    else None
  }

  lemma HostCharacters(host: string, c: char)
    requires IsHost(host) && c in host
    ensures c == '[' || c == ']' || c == ':' || IsNameChar(c)
    ensures IsRegName(host) ==> IsNameChar(c)
  {
  }

  /** The characters that end an authority or its user information are in none of its other parts. */
  lemma HostPortCharacters(host: string, port: Option<string>, c: char)
    requires IsHost(host) && (port.Some? ==> IsPort(port.value))
    requires c in "@/?#"
    ensures c !in HostPort(host, port)
  {
    hide IsHost;
    if c in host {
      HostCharacters(host, c);
    }
  }

  lemma HostEndsThere(host: string, port: Option<string>)
    requires IsHost(host) && (port.Some? ==> IsPort(port.value))
    ensures HostEnd(HostPort(host, port)) == |host|
  {
    var hp := HostPort(host, port);
    if host != "" && host[0] == '[' {
      var inner := host[..|host| - 1];
      assert ']' !in inner;
      assert host == inner + "]";
      IndexOfFirst(inner, hp[|host|..], ']');
      assert hp == inner + "]" + hp[|host|..];
      assert hp[0] == '[';
    } else {
      assert IsRegName(host);
      assert ':' !in host;
      if port.Some? {
        IndexOfFirst(host, port.value, ':');
        assert hp == host + ":" + port.value;
      } else {
        IndexOfAbsent(host, ':');
        assert hp == host;
      }
    }
  }

  lemma HostPortReadsBack(userinfo: Option<string>, host: string, port: Option<string>)
    requires IsHost(host) && (port.Some? ==> IsPort(port.value))
    ensures ParseHostPort(userinfo, HostPort(host, port)) == Some(Parts(userinfo, host, port))
  {
    var hp := HostPort(host, port);
    HostEndsThere(host, port);
    hide IsHost, HostEnd, IsPort;
    assert hp[..|host|] == host;
    if port.Some? {
      assert hp[|host|..] == ":" + port.value;
      assert hp[|host|..][1..] == port.value;
    } else {
      assert hp[|host|..] == "";
    }
  }

  lemma CutAtUserinfo(user: string, hp: string)
    requires IsUserinfo(user)
    ensures ParseAuthority(user + "@" + hp) == ParseHostPort(Some(user), hp)
  {
    var s := user + "@" + hp;
    assert '@' !in user;
    IndexOfFirst(user, hp, '@');
    hide IndexOf, ParseHostPort, IsUserinfo;
    assert s[..|user|] == user && s[|user| + 1..] == hp;
  }

  lemma NothingToCut(hp: string)
    requires '@' !in hp
    ensures ParseAuthority(hp) == ParseHostPort(None, hp)
  {
    IndexOfAbsent(hp, '@');
  }

  /** A spelled authority reads back as its parts ... */
  lemma SpellingReadsBack(p: Parts)
    requires ValidParts(p)
    ensures ParseAuthority(Spelling(p)) == Some(p)
  {
    HostPortReadsBack(p.userinfo, p.host, p.port);
    HostPortCharacters(p.host, p.port, '@');
    var hp := HostPort(p.host, p.port);
    hide HostPort, ParseHostPort, ParseAuthority, IsHost, IsPort, IsUserinfo;
    if p.userinfo.Some? {
      CutAtUserinfo(p.userinfo.value, hp);
    } else {
      NothingToCut(hp);
      assert "" + hp == hp;
    }
  }

  lemma HostPortIsSpelled(userinfo: Option<string>, hp: string)
    requires ParseHostPort(userinfo, hp).Some?
    ensures var p := ParseHostPort(userinfo, hp).value;
            p.userinfo == userinfo && HostPort(p.host, p.port) == hp
            && IsHost(p.host) && (p.port.Some? ==> IsPort(p.port.value))
  {
    hide IsHost, IsPort, HostEnd;
    var rest := hp[HostEnd(hp)..];
    assert hp[..HostEnd(hp)] + rest == hp;
    assert rest != "" ==> rest == [rest[0]] + rest[1..];
  }

  /** ... and what is read is a spelling of the parts, so an authority has one reading at most. */
  lemma ReadingIsSpelled(s: string)
    requires ParseAuthority(s).Some?
    ensures ValidParts(ParseAuthority(s).value)
    ensures Spelling(ParseAuthority(s).value) == s
  {
    hide HostPort, IsHost, IsPort, HostEnd, ParseHostPort, IsUserinfo;
    var k := IndexOf(s, '@');
    if k < |s| {
      HostPortIsSpelled(Some(s[..k]), s[k + 1..]);
      assert s == s[..k] + "@" + s[k + 1..];
    } else {
      HostPortIsSpelled(None, s);
      assert "" + s == s;
    }
  }

  /** `host_name`: the host, lowercased, of a valid authority. */
  function HostName(header: string): Option<string> {
    match ParseAuthority(header)
    case Some(p) => Some(ToLower(p.host))
    case None => None
  }

  // ----- Absolute URLs -----

  datatype Url = Url(https: bool, authority: string, path: string, query: Option<string>)

  predicate EndsAuthority(c: char) {
    c == '/' || c == '?' || c == '#'
  }

  function AuthorityLength(s: string): (k: nat)
    ensures k <= |s|
  {
    if s == "" || EndsAuthority(s[0]) then 0 else 1 + AuthorityLength(s[1..])
  }

  lemma {:induction false} AuthorityIsCut(u: string, v: string)
    requires forall i :: 0 <= i < |u| ==> !EndsAuthority(u[i])
    requires v != "" && EndsAuthority(v[0])
    ensures AuthorityLength(u + v) == |u|
  {
    if u == "" {
      assert u + v == v;
    } else {
      AuthorityIsCut(u[1..], v);
      assert (u + v)[1..] == u[1..] + v;
    }
  }

  /** Path and query of the part after the authority; a fragment is dropped, an empty path is `/`. */
  function ParseTarget(https: bool, authority: string, tail: string): Url {
    var target := tail[..IndexOf(tail, '#')];
    var k := IndexOf(target, '?');
    var path := if k == 0 then "/" else target[..k];
    Url(https, authority, path, if k < |target| then Some(target[k + 1..]) else None)
  }

  /** How a client takes an absolute URL apart (section 3 of RFC 3986). */
  function ParseUrl(s: string): Option<Url> {
    var rest := if "https://" <= s then s[8..] else if "http://" <= s then s[7..] else "";
    if rest == "" then None
    else
      var k := AuthorityLength(rest);
      Some(ParseTarget("https://" <= s, rest[..k], rest[k..]))
  }

  function Target(path: string, query: Option<string>): string {
    path + if query.Some? then "?" + query.value else ""
  }

  /** What a request target can hold: a path from the root, no fragment and no control characters. */
  predicate IsTarget(path: string, query: Option<string>) {
    && path != "" && path[0] == '/' && '?' !in path && '#' !in path
    && (query.Some? ==> '#' !in query.value)
    && IsFieldValue(path) && (query.Some? ==> IsFieldValue(query.value))
  }

  lemma QueryIsCut(path: string, query: string)
    requires '?' !in path
    ensures var target := path + "?" + query;
            IndexOf(target, '?') == |path| && target[..|path|] == path && target[|path| + 1..] == query
  {
    IndexOfFirst(path, query, '?');
    hide IndexOf;
  }

  lemma NoFragment(path: string, query: Option<string>)
    requires IsTarget(path, query)
    ensures IndexOf(Target(path, query), '#') == |Target(path, query)|
  {
    IndexOfAbsent(Target(path, query), '#');
  }

  lemma TargetReadsBack(https: bool, authority: string, path: string, query: Option<string>)
    requires IsTarget(path, query)
    ensures ParseTarget(https, authority, Target(path, query)) == Url(https, authority, path, query)
  {
    NoFragment(path, query);
    hide IndexOf;
    var tail := Target(path, query);
    assert tail[..|tail|] == tail;
    if query.Some? {
      QueryIsCut(path, query.value);
      assert tail == path + "?" + query.value;
    } else {
      assert tail == path;
      IndexOfAbsent(path, '?');
    }
  }

  /** Scheme, authority and target put together read back as what they were. */
  lemma UrlReadsBack(https: bool, authority: string, path: string, query: Option<string>)
    requires IsTarget(path, query)
    requires forall i :: 0 <= i < |authority| ==> !EndsAuthority(authority[i])
    ensures ParseUrl((if https then "https" else "http") + "://" + authority + Target(path, query))
         == Some(Url(https, authority, path, query))
  {
    var scheme := (if https then "https" else "http") + "://";
    var tail := Target(path, query);
    var s := scheme + authority + tail;
    Associates(scheme, authority, tail);
    assert s[|scheme|..] == authority + tail;
    assert scheme == if https then "https://" else "http://";
    assert s[4] == scheme[4];
    assert scheme <= s;
    AuthorityIsCut(authority, tail);
    assert (authority + tail)[..|authority|] == authority && (authority + tail)[|authority|..] == tail;
    TargetReadsBack(https, authority, path, query);
    hide ParseTarget, AuthorityLength, Target;
    assert "https://" <= s <==> https;
  }

  // ----- Host names -----

  predicate IsLetterOrDigit(c: char) {
    'a' <= c <= 'z' || 'A' <= c <= 'Z' || '0' <= c <= '9'
  }

  predicate IsPlainName(s: string) {
    forall i :: 0 <= i < |s| ==> IsLetterOrDigit(s[i]) || s[i] == '-' || s[i] == '.'
  }

  predicate IsPlainUser(s: string) {
    forall i :: 0 <= i < |s| ==> IsLetterOrDigit(s[i]) || s[i] == '-' || s[i] == '.' || s[i] == ':'
  }

  /** The host is what stands between user information and port, in lower case, whatever stands before the `@`. */
  lemma HostBetween(user: string, name: string, port: string)
    requires IsPlainUser(user) && IsPlainName(name) && forall i :: 0 <= i < |port| ==> '0' <= port[i] <= '9'
    ensures HostName(name) == Some(ToLower(name)) && HostName(name + (":" + port)) == Some(ToLower(name))
    ensures HostName(user + "@" + name) == Some(ToLower(name))
    ensures HostName(user + "@" + (name + (":" + port))) == Some(ToLower(name))
  {
    assert IsUserinfo(user) && IsRegName(name) && IsPort(port);
    hide IsUserinfo, IsRegName, IsPort, ParseAuthority, IsPlainUser, IsPlainName;
    SpellingReadsBack(Parts(None, name, None));
    SpellingReadsBack(Parts(None, name, Some(port)));
    SpellingReadsBack(Parts(Some(user), name, None));
    SpellingReadsBack(Parts(Some(user), name, Some(port)));
    assert name + "" == name && "" + name == name && "" + (name + (":" + port)) == name + (":" + port);
  }

  /** An address literal is a host with its brackets. */
  lemma LiteralHost(address: string, port: string)
    requires address != "" && forall i :: 0 <= i < |address| ==> IsLetterOrDigit(address[i]) || address[i] == ':'
    requires forall i :: 0 <= i < |port| ==> '0' <= port[i] <= '9'
    ensures var literal := "[" + address + "]";
            HostName(literal) == Some(ToLower(literal)) && HostName(literal + (":" + port)) == Some(ToLower(literal))
  {
    var literal := "[" + address + "]";
    assert forall i :: 1 <= i < |literal| - 1 ==> literal[i] == address[i - 1];
    assert IsLiteral(literal) && IsPort(port);
    hide IsLiteral, IsPort, ParseAuthority;
    SpellingReadsBack(Parts(None, literal, None));
    SpellingReadsBack(Parts(None, literal, Some(port)));
    assert literal + "" == literal && "" + literal == literal;
    assert "" + (literal + (":" + port)) == literal + (":" + port);
  }

  lemma ForeignCharacter(p: Parts, c: char)
    requires ValidParts(p) && c in " \t/?#"
    ensures c !in Spelling(p)
  {
    assert !IsNameChar(c);
    if c in p.host {
      HostCharacters(p.host, c);
    }
  }

  /** A header with white space, a slash, a question mark or a hash in it names no host. */
  lemma NotAHost(header: string, c: char)
    requires c in header && c in " \t/?#"
    ensures HostName(header) == None
  {
    if ParseAuthority(header).Some? {
      ReadingIsSpelled(header);
      hide ParseAuthority, Spelling, ValidParts;
      ForeignCharacter(ParseAuthority(header).value, c);
    }
  }
}

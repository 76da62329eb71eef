/**
 The canonicalization layer, `src/middleware/url_canonicalization.rs`, together with a
 client that follows the redirects it is given.
*/
module Canonicalization {
  import opened Text
  import opened Registry
  import opened Authority

  const MASTER_HOST := "crackstation.net"

  const DEV_HOSTS: seq<string> := [
    "localhost", "localhost:3000", "localhost:8080", "localhost:8443",
    "127.0.0.1", "127.0.0.1:3000", "127.0.0.1:8080", "127.0.0.1:8443",
    "crackstation", "crackstation:20443", "crackstation.h.defuse.ca"
  ]

  const FORCE_HTTPS := true

  /** A request as the layer sees it; an absent Host header is "" and `https` is the proxy's report. */
  datatype Request = Request(host: string, https: bool, path: string, query: Option<string>)

  /** `Failed` is a panic, inside path resolution or in building the redirect. */
  datatype Decision = BadRequest | Moved(location: string) | Forward | Failed

  predicate IsDevHost(host: string) {
    exists i :: 0 <= i < |DEV_HOSTS| && ToLower(DEV_HOSTS[i]) == ToLower(host)
  }

  function BuildRedirectUrl(https: bool, host: string, path: string, query: Option<string>): string {
    var scheme := if https then "https" else "http";
    match query
    case Some(q) => scheme + "://" + host + path + "?" + q
    case None => scheme + "://" + host + path
  }

  function AppendQuery(path: string, query: Option<string>): string {
    match query
    case Some(q) => path + "?" + q
    case None => path
  }

  /** `redirect_301`, whose `expect` fails on a URL that cannot be the value of a header. */
  function Redirect301(url: string): Decision {
    if IsFieldValue(url) then Moved(url) else Failed
  }

  function NameOrEmpty(host: string): string {
    match HostName(host)
    case Some(name) => name
    case None => ""
  }

  /** `UrlCanonicalizationMiddleware::call`, up to the inner service. */
  function Decide(reg: Pages, r: Request): Decision {
    var name := NameOrEmpty(r.host);
    var dev := IsDevHost(r.host);
    if r.host == "" || name == "" then BadRequest
    else if !dev && name != MASTER_HOST then
      Redirect301(BuildRedirectUrl(FORCE_HTTPS || r.https, MASTER_HOST, r.path, r.query))
    else if FORCE_HTTPS && !r.https && !dev then
      Redirect301(BuildRedirectUrl(true, name, r.path, r.query))
    else
      match Resolve(reg, r.path)
      case Redirect(path) => Redirect301(BuildRedirectUrl(r.https, r.host, AppendQuery(path, r.query), None))
      case Canonical(_) => Forward
      case NotFound => Forward
      case Broken => Failed
  }

  // ----- The client -----

  /**
   The request a client makes for a Location: the authority without its user information is the Host. The
   proxy reports the scheme the client used, and the report counts if the proxy is `trusted`
   (`is_https` in `src/libs/util.rs`).
  */
  function Follow(trusted: bool, location: string): Option<Request> {
    match ParseUrl(location)
    case None => None
    case Some(url) =>
      match ParseAuthority(url.authority)
      case None => None
      case Some(p) => Some(Request(HostPort(p.host, p.port), trusted && url.https, url.path, url.query))
  }

  datatype Journey = Ends(last: Request, answer: Decision, redirects: nat) | Lost | StillMoving

  /** Following at most `patience` redirects. */
  function Travel(reg: Pages, trusted: bool, r: Request, patience: nat): Journey
    decreases patience
  {
    match Decide(reg, r)
    case Moved(location) => (
      match Follow(trusted, location)
      case None => Lost
      case Some(next) =>
        if patience == 0 then StillMoving
        else
          match Travel(reg, trusted, next, patience - 1)
          case Ends(last, answer, n) => Ends(last, answer, n + 1)
          case Lost => Lost
          case StillMoving => StillMoving
    )
    case answer => Ends(r, answer, 0)
  }

  /** A Host header that names a host, and a path from the root. */
  predicate Parseable(r: Request) {
    NameOrEmpty(r.host) != "" && IsTarget(r.path, r.query)
  }

  // ----- Redirect URLs read back -----

  lemma BuiltUrl(https: bool, host: string, path: string, query: Option<string>)
    ensures BuildRedirectUrl(https, host, path, query)
         == (if https then "https" else "http") + "://" + host + Target(path, query)
    ensures BuildRedirectUrl(https, host, AppendQuery(path, query), None) == BuildRedirectUrl(https, host, path, query)
  {
    var front := (if https then "https" else "http") + "://" + host;
    if query.Some? {
      var q := query.value;
      assert front + path + "?" + q == front + (path + "?" + q);
      assert path + "?" + q == path + ("?" + q);
    } else {
      assert path + "" == path;
    }
  }

  lemma UserinfoCharacters(s: string, c: char)
    requires IsUserinfo(s) && EndsAuthority(c)
    ensures c !in s
  {
  }

  lemma AuthorityCharacters(p: Parts, c: char)
    requires ValidParts(p) && EndsAuthority(c)
    ensures c !in Spelling(p)
  {
    HostPortCharacters(p.host, p.port, c);
    if p.userinfo.Some? {
      UserinfoCharacters(p.userinfo.value, c);
    }
    hide IsHost, IsUserinfo, IsPort, HostPort;
  }

  /** A redirect to a valid authority is followed to that host, scheme, path and query. */
  lemma RedirectIsFollowed(trusted: bool, https: bool, p: Parts, path: string, query: Option<string>)
    requires ValidParts(p) && IsTarget(path, query)
    ensures Follow(trusted, BuildRedirectUrl(https, Spelling(p), path, query))
         == Some(Request(HostPort(p.host, p.port), trusted && https, path, query))
  {
    var host := Spelling(p);
    BuiltUrl(https, host, path, query);
    forall i | 0 <= i < |host|
      ensures !EndsAuthority(host[i])
    {
      if EndsAuthority(host[i]) {
        AuthorityCharacters(p, host[i]);
      }
    }
    UrlReadsBack(https, host, path, query);
    SpellingReadsBack(p);
    hide Spelling, ParseUrl, ParseAuthority, HostPort, BuildRedirectUrl, Target, IsTarget, ValidParts;
  }

  /** A redirect URL can be sent if its host, path and query can. */
  lemma BuiltUrlIsField(https: bool, host: string, path: string, query: Option<string>)
    ensures IsFieldValue(BuildRedirectUrl(https, host, path, query))
       <==> IsFieldValue(host) && IsFieldValue(path) && (query.Some? ==> IsFieldValue(query.value))
  {
    var scheme := if https then "https" else "http";
    assert IsFieldValue(scheme) && IsFieldValue("://") && IsFieldValue("?");
    hide IsFieldValue;
    FieldValueConcat(scheme, "://");
    FieldValueConcat(scheme + "://", host);
    FieldValueConcat(scheme + "://" + host, path);
    if query.Some? {
      FieldValueConcat(scheme + "://" + host + path, "?");
      FieldValueConcat(scheme + "://" + host + path + "?", query.value);
    }
  }

  lemma NameCharIsVisible(c: char)
    requires IsNameChar(c)
    ensures '!' <= c <= '~'
  {
  }

  lemma VisibleIsField(s: string)
    requires forall i :: 0 <= i < |s| ==> '!' <= s[i] <= '~'
    ensures IsFieldValue(s)
  {
  }

  lemma NameIsField(s: string)
    requires IsUserinfo(s) || IsRegName(s)
    ensures IsFieldValue(s)
  {
    forall i | 0 <= i < |s|
      ensures '!' <= s[i] <= '~'
    {
      if s[i] != ':' {
        NameCharIsVisible(s[i]);
      }
    }
    VisibleIsField(s);
  }

  lemma LiteralIsField(s: string)
    requires IsLiteral(s)
    ensures IsFieldValue(s)
  {
    hide IsNameChar;
    forall i | 0 <= i < |s|
      ensures '!' <= s[i] <= '~'
    {
      if 1 <= i < |s| - 1 && s[i] != ':' {
        LiteralCharIsVisible(s[i]);
      }
    }
    VisibleIsField(s);
  }

  lemma LiteralCharIsVisible(c: char)
    requires IsUnreserved(c) || IsSubDelim(c)
    ensures '!' <= c <= '~'
  {
    NameCharIsVisible(c);
  }

  lemma HostIsField(p: Parts)
    requires ValidParts(p)
    ensures IsFieldValue(p.host) && (p.port.Some? ==> IsFieldValue(p.port.value))
    ensures p.userinfo.Some? ==> IsFieldValue(p.userinfo.value)
  {
    if IsLiteral(p.host) {
      LiteralIsField(p.host);
    } else {
      NameIsField(p.host);
    }
    if p.userinfo.Some? {
      NameIsField(p.userinfo.value);
    }
    if p.port.Some? {
      VisibleIsField(p.port.value);
    }
  }

  lemma AuthorityIsField(p: Parts)
    requires ValidParts(p)
    ensures IsFieldValue(Spelling(p))
  {
    HostIsField(p);
    assert IsFieldValue("@") && IsFieldValue(":") && IsFieldValue("");
    hide IsFieldValue, IsHost, IsUserinfo, IsPort;
    var user := if p.userinfo.Some? then p.userinfo.value + "@" else "";
    var port := if p.port.Some? then ":" + p.port.value else "";
    if p.userinfo.Some? {
      FieldValueConcat(p.userinfo.value, "@");
    }
    if p.port.Some? {
      FieldValueConcat(":", p.port.value);
    }
    FieldValueConcat(p.host, port);
    FieldValueConcat(user, HostPort(p.host, p.port));
  }

  // ----- Hosts -----

  lemma NamedHostIsNotEmpty(host: string)
    requires NameOrEmpty(host) != ""
    ensures host != "" && ParseAuthority(host).Some?
  {
    if host == "" && ParseAuthority(host).Some? {
      ReadingIsSpelled(host);
      hide ParseAuthority;
    }
  }

  function BareHost(host: string): string {
    match ParseAuthority(host)
    case Some(p) => HostPort(p.host, p.port)
    case None => host
  }

  lemma BareParts(p: Parts)
    requires ValidParts(p)
    ensures ParseAuthority(HostPort(p.host, p.port)) == Some(p.(userinfo := None))
  {
    var bare := p.(userinfo := None);
    SpellingReadsBack(bare);
    assert "" + HostPort(p.host, p.port) == HostPort(p.host, p.port);
  }

  /** Leaving out the user information keeps the host name. */
  lemma BareHostKeepsName(host: string)
    requires ParseAuthority(host).Some?
    ensures HostName(BareHost(host)) == HostName(host)
    ensures BareHost(BareHost(host)) == BareHost(host)
    ensures BareHost(host) == "" ==> NameOrEmpty(host) == ""
  {
    ReadingIsSpelled(host);
    BareParts(ParseAuthority(host).value);
  }

  lemma DevHostCharacters(i: nat)
    requires i < |DEV_HOSTS|
    ensures '@' !in DEV_HOSTS[i]
    ensures !(MASTER_HOST <= ToLower(DEV_HOSTS[i]))
  {
    var dev := DEV_HOSTS[i];
    assert |MASTER_HOST| == 16;
    assert |DEV_HOSTS| == 11;
    if i == 10 {
      assert ToLower(dev)[13] == 'h' && MASTER_HOST[13] == 'n';
    } else if i == 9 {
      assert ToLower(dev)[12] == ':' && MASTER_HOST[12] == '.';
    } else if i == 8 {
      assert |dev| == 12;
    } else {
      assert ToLower(dev)[0] == 'l' || ToLower(dev)[0] == '1';
      assert MASTER_HOST[0] == 'c';
    }
  }

  /** A dev host is one of the listed names, in any case. */
  lemma DevHostIff(host: string)
    ensures IsDevHost(host) <==>
              exists i :: 0 <= i < |DEV_HOSTS| && |host| == |DEV_HOSTS[i]|
                          && forall j :: 0 <= j < |host| ==> SameLetter(DEV_HOSTS[i][j], host[j])
  {
    hide DEV_HOSTS, ToLower, SameLetter;
    forall i: nat | i < |DEV_HOSTS|
      ensures ToLower(DEV_HOSTS[i]) == ToLower(host) <==>
                |host| == |DEV_HOSTS[i]| && forall j :: 0 <= j < |host| ==> SameLetter(DEV_HOSTS[i][j], host[j])
    {
      LowerIsCaseBlind(DEV_HOSTS[i], host);
    }
  }

  lemma UserinfoShows(p: Parts)
    ensures p.userinfo.Some? ==> '@' in Spelling(p)
    ensures p.userinfo.None? ==> Spelling(p) == HostPort(p.host, p.port)
  {
    hide HostPort;
    if p.userinfo.Some? {
      assert Spelling(p)[|p.userinfo.value|] == '@';
    } else {
      assert "" + HostPort(p.host, p.port) == HostPort(p.host, p.port);
    }
  }

  lemma NoUserinfoIsBare(host: string)
    requires '@' !in host && ParseAuthority(host).Some?
    ensures BareHost(host) == host
    ensures NameOrEmpty(host) <= ToLower(host)
  {
    var p := ParseAuthority(host).value;
    ReadingIsSpelled(host);
    UserinfoShows(p);
    var rest := if p.port.Some? then ":" + p.port.value else "";
    assert HostPort(p.host, p.port) == p.host + rest;
    LowerConcat(p.host, rest);
    hide ParseAuthority, ValidParts, Spelling, HostPort, ToLower;
  }

  lemma SameButForCase(s: string, t: string, c: char)
    requires ToLower(s) == ToLower(t) && c !in s && LowerChar(c) == c && !('a' <= c <= 'z')
    ensures c !in t
  {
    forall j | 0 <= j < |t|
      ensures t[j] != c
    {
      assert s[j] in s;
      assert LowerChar(t[j]) == ToLower(s)[j] == LowerChar(s[j]);
    }
  }

  /** A dev host carries no user information and is not a spelling of the master host. */
  lemma DevHostFacts(host: string)
    requires IsDevHost(host) && ParseAuthority(host).Some?
    ensures BareHost(host) == host
    ensures NameOrEmpty(host) != MASTER_HOST
  {
    var i :| 0 <= i < |DEV_HOSTS| && ToLower(DEV_HOSTS[i]) == ToLower(host);
    DevHostCharacters(i);
    hide DEV_HOSTS, MASTER_HOST, ParseAuthority, ToLower, BareHost, NameOrEmpty;
    SameButForCase(DEV_HOSTS[i], host, '@');
    NoUserinfoIsBare(host);
  }

  lemma MasterHostIsPlain()
    ensures forall i :: 0 <= i < |MASTER_HOST| ==> 'a' <= MASTER_HOST[i] <= 'z' || MASTER_HOST[i] == '.'
  {
  }

  lemma MasterHostParts()
    ensures ValidParts(Parts(None, MASTER_HOST, None))
    ensures Spelling(Parts(None, MASTER_HOST, None)) == MASTER_HOST
    ensures HostPort(MASTER_HOST, None) == MASTER_HOST
    ensures ToLower(MASTER_HOST) == MASTER_HOST
  {
    MasterHostIsPlain();
    hide MASTER_HOST, IsLiteral;
    assert IsRegName(MASTER_HOST);
    assert MASTER_HOST + "" == MASTER_HOST && "" + MASTER_HOST == MASTER_HOST;
  }

  lemma MasterHostIsNamed()
    ensures HostName(MASTER_HOST) == Some(MASTER_HOST) && !IsDevHost(MASTER_HOST)
  {
    MasterHostParts();
    SpellingReadsBack(Parts(None, MASTER_HOST, None));
    hide ParseAuthority, IsDevHost;
    if IsDevHost(MASTER_HOST) {
      DevHostFacts(MASTER_HOST);
    }
  }

  // ----- Journeys -----

  /** Whether the request has to change host or scheme first. */
  predicate Elsewhere(r: Request) {
    !IsDevHost(r.host) && (NameOrEmpty(r.host) != MASTER_HOST || !r.https)
  }

  lemma TargetIsField(path: string, query: Option<string>)
    requires IsTarget(path, query)
    ensures IsFieldValue(path) && (query.Some? ==> IsFieldValue(query.value))
  {
  }

  lemma ElsewhereIsDecided(reg: Pages, r: Request)
    requires NameOrEmpty(r.host) != "" && r.host != "" && Elsewhere(r)
    ensures Decide(reg, r) == Redirect301(BuildRedirectUrl(true, MASTER_HOST, r.path, r.query))
  {
    hide MASTER_HOST, IsDevHost, Resolve, HostName, BuildRedirectUrl, Redirect301;
  }

  lemma ElsewhereIsSentHome(reg: Pages, trusted: bool, r: Request)
    requires Parseable(r) && Elsewhere(r)
    ensures Decide(reg, r).Moved?
    ensures Follow(trusted, Decide(reg, r).location) == Some(Request(MASTER_HOST, trusted, r.path, r.query))
  {
    NamedHostIsNotEmpty(r.host);
    ElsewhereIsDecided(reg, r);
    MasterHostParts();
    TargetIsField(r.path, r.query);
    RedirectIsFollowed(trusted, true, Parts(None, MASTER_HOST, None), r.path, r.query);
    AuthorityIsField(Parts(None, MASTER_HOST, None));
    BuiltUrlIsField(true, MASTER_HOST, r.path, r.query);
    hide MASTER_HOST, Elsewhere, Decide, Follow, IsTarget, NameOrEmpty, BuildRedirectUrl, IsFieldValue, Spelling;
  }

  lemma CanonicalUrlIsTarget(page: PageInfo, query: Option<string>)
    requires UrlSafe(page.slug) && (query.Some? ==> '#' !in query.value && IsFieldValue(query.value))
    ensures IsTarget(RelativeUrl(page), query)
  {
    assert '?' !in ".htm" && '#' !in ".htm";
  }

  lemma CanonicalPathIsTarget(reg: Pages, r: Request)
    requires WellFormed(reg) && IsTarget(r.path, r.query) && Resolve(reg, r.path).Redirect?
    ensures IsTarget(Resolve(reg, r.path).canonicalPath, r.query)
  {
    AnswersAreRegistered(reg, r.path);
    hide Resolve, RelativeUrl;
    var page :| page in reg.Values && Resolve(reg, r.path) == Redirect(RelativeUrl(page));
    var k :| k in reg && reg[k] == page;
    CanonicalUrlIsTarget(reg[k], r.query);
  }

  lemma WrongPathIsCorrected(reg: Pages, r: Request)
    requires WellFormed(reg) && Parseable(r) && !Elsewhere(r) && Resolve(reg, r.path).Redirect?
    ensures Decide(reg, r).Moved?
    ensures Follow(true, Decide(reg, r).location)
         == Some(Request(BareHost(r.host), r.https, Resolve(reg, r.path).canonicalPath, r.query))
  {
    var path := Resolve(reg, r.path).canonicalPath;
    CanonicalPathIsTarget(reg, r);
    ReadingIsSpelled(r.host);
    BuiltUrl(r.https, r.host, path, r.query);
    AuthorityIsField(ParseAuthority(r.host).value);
    BuiltUrlIsField(r.https, r.host, path, r.query);
    TargetIsField(path, r.query);
    hide MASTER_HOST, IsDevHost, Resolve, WellFormed, IsTarget, ParseAuthority, BuildRedirectUrl, ValidParts, Spelling;
    RedirectIsFollowed(true, r.https, ParseAuthority(r.host).value, path, r.query);
    NamedHostIsNotEmpty(r.host);
  }

  /** Whether the URL a request would be sent to can be the value of a header. */
  predicate Locatable(r: Request) {
    (Elsewhere(r) ==> IsFieldValue(r.path)) && (r.query.Some? ==> IsFieldValue(r.query.value))
  }

  lemma NamedHostIsField(host: string)
    requires NameOrEmpty(host) != ""
    ensures IsFieldValue(host)
  {
    NamedHostIsNotEmpty(host);
    ReadingIsSpelled(host);
    AuthorityIsField(ParseAuthority(host).value);
  }

  lemma MasterHostIsField()
    ensures IsFieldValue(MASTER_HOST)
  {
    MasterHostParts();
    AuthorityIsField(Parts(None, MASTER_HOST, None));
  }

  lemma CanonicalUrlIsField(reg: Pages, path: string)
    requires WellFormed(reg) && Resolve(reg, path).Redirect?
    ensures IsFieldValue(Resolve(reg, path).canonicalPath)
  {
    AnswersAreRegistered(reg, path);
    hide Resolve, RelativeUrl;
    var page :| page in reg.Values && Resolve(reg, path) == Redirect(RelativeUrl(page));
    var k :| k in reg && reg[k] == page;
    CanonicalUrlIsTarget(reg[k], None);
    TargetIsField(RelativeUrl(page), None);
  }

  /** Exactly when a request is redirected, refused or lost to a panic. */
  lemma DecisionByCase(reg: Pages, r: Request)
    requires WellFormed(reg)
    ensures Decide(reg, r) == BadRequest <==> NameOrEmpty(r.host) == ""
    ensures NameOrEmpty(r.host) != "" && (Elsewhere(r) || Resolve(reg, r.path).Redirect?) ==>
              if Locatable(r) then Decide(reg, r).Moved? else Decide(reg, r) == Failed
    ensures NameOrEmpty(r.host) != "" && !Elsewhere(r) && !Resolve(reg, r.path).Redirect? ==>
              Decide(reg, r) == Forward
  {
    AnswersAreRegistered(reg, r.path);
    if NameOrEmpty(r.host) != "" {
      NamedHostIsNotEmpty(r.host);
      NamedHostIsField(r.host);
      MasterHostIsField();
      BuiltUrlIsField(true, MASTER_HOST, r.path, r.query);
      if Resolve(reg, r.path).Redirect? {
        var path := Resolve(reg, r.path).canonicalPath;
        CanonicalUrlIsField(reg, r.path);
        BuiltUrl(r.https, r.host, path, r.query);
        BuiltUrlIsField(r.https, r.host, path, r.query);
      }
    }
    hide MASTER_HOST, IsDevHost, Resolve, WellFormed, HostName, IsFieldValue, BuildRedirectUrl, AppendQuery;
  }

  /** The request at the end of the journey. */
  function Destination(reg: Pages, r: Request): Request {
    var home := if Elsewhere(r) then Request(MASTER_HOST, true, r.path, r.query) else r;
    match Resolve(reg, r.path)
    case Redirect(path) => Request(BareHost(home.host), home.https, path, home.query)
    case _ => home
  }

  function RedirectsNeeded(reg: Pages, r: Request): nat {
    (if Elsewhere(r) then 1 else 0) + (if Resolve(reg, r.path).Redirect? then 1 else 0)
  }

  /** A request that is at the right place for a path that is canonical or unknown is let through. */
  lemma SettledIsForwarded(reg: Pages, r: Request)
    requires WellFormed(reg) && Parseable(r) && !Elsewhere(r) && !Resolve(reg, r.path).Redirect?
    ensures Decide(reg, r) == Forward
  {
    AnswersAreRegistered(reg, r.path);
    NamedHostIsNotEmpty(r.host);
    hide MASTER_HOST, IsDevHost, Resolve, WellFormed, IsTarget, ParseAuthority;
  }

  /** Dropping user information leaves a request at the right place. */
  lemma BareHostStaysHome(r: Request, path: string)
    requires Parseable(r) && !Elsewhere(r) && IsTarget(path, r.query)
    ensures var bare := Request(BareHost(r.host), r.https, path, r.query);
            Parseable(bare) && !Elsewhere(bare)
  {
    NamedHostIsNotEmpty(r.host);
    BareHostKeepsName(r.host);
    if IsDevHost(r.host) {
      DevHostFacts(r.host);
    }
    hide MASTER_HOST, IsDevHost, IsTarget, ParseAuthority;
  }

  lemma OneMoreRedirect(reg: Pages, r: Request, next: Request, patience: nat)
    requires patience >= 1
    requires Decide(reg, r).Moved? && Follow(true, Decide(reg, r).location) == Some(next)
    ensures Travel(reg, true, next, patience - 1).Ends? ==>
              var rest := Travel(reg, true, next, patience - 1);
              Travel(reg, true, r, patience) == Ends(rest.last, rest.answer, rest.redirects + 1)
  {
    hide Decide, Follow;
  }

  lemma NoMoreRedirects(reg: Pages, r: Request, patience: nat)
    requires Decide(reg, r) == Forward
    ensures Travel(reg, true, r, patience) == Ends(r, Forward, 0)
  {
    hide Decide, Follow;
  }

  lemma DestinationByCase(reg: Pages, r: Request)
    ensures Elsewhere(r) ==>
              var home := Request(MASTER_HOST, true, r.path, r.query);
              !Elsewhere(home) ==>
                && Destination(reg, r) == Destination(reg, home)
                && RedirectsNeeded(reg, r) == 1 + RedirectsNeeded(reg, home)
    ensures !Elsewhere(r) && Resolve(reg, r.path).Redirect? ==>
              && Destination(reg, r) == Request(BareHost(r.host), r.https, Resolve(reg, r.path).canonicalPath, r.query)
              && RedirectsNeeded(reg, r) == 1
    ensures !Elsewhere(r) && !Resolve(reg, r.path).Redirect? ==>
              Destination(reg, r) == r && RedirectsNeeded(reg, r) == 0
  {
    hide Elsewhere, Resolve, BareHost, MASTER_HOST;
  }

  lemma PathIsCorrectedOnce(reg: Pages, r: Request, patience: nat)
    requires WellFormed(reg) && Parseable(r) && !Elsewhere(r) && patience >= 1
    ensures Parseable(Destination(reg, r)) && !Elsewhere(Destination(reg, r))
    ensures !Resolve(reg, Destination(reg, r).path).Redirect?
    ensures Travel(reg, true, r, patience) == Ends(Destination(reg, r), Forward, RedirectsNeeded(reg, r))
  {
    hide *;
    DestinationByCase(reg, r);
    if Resolve(reg, r.path).Redirect? {
      var next := Destination(reg, r);
      ParseableTarget(r);
      WrongPathIsCorrected(reg, r);
      CanonicalPathIsTarget(reg, r);
      RedirectLandsOnCanonical(reg, r.path);
      BareHostStaysHome(r, next.path);
      SettledIsForwarded(reg, next);
      NoMoreRedirects(reg, next, patience - 1);
      OneMoreRedirect(reg, r, next, patience);
    } else {
      SettledIsForwarded(reg, r);
      NoMoreRedirects(reg, r, patience);
    }
  }

  lemma ParseableTarget(r: Request)
    requires Parseable(r)
    ensures IsTarget(r.path, r.query)
  {
  }

  lemma HomeIsHome(r: Request)
    requires IsTarget(r.path, r.query)
    ensures var home := Request(MASTER_HOST, true, r.path, r.query); Parseable(home) && !Elsewhere(home)
  {
    MasterHostIsNamed();
    assert |MASTER_HOST| == 16;
    hide IsDevHost, IsTarget, HostName;
  }

  lemma ArrivesWhereDestined(reg: Pages, r: Request, patience: nat)
    requires WellFormed(reg) && Parseable(r) && patience >= 2
    ensures Parseable(Destination(reg, r)) && !Elsewhere(Destination(reg, r))
    ensures !Resolve(reg, Destination(reg, r).path).Redirect?
    ensures Travel(reg, true, r, patience) == Ends(Destination(reg, r), Forward, RedirectsNeeded(reg, r))
  {
    hide *;
    if Elsewhere(r) {
      var home := Request(MASTER_HOST, true, r.path, r.query);
      ParseableTarget(r);
      HomeIsHome(r);
      DestinationByCase(reg, r);
      ElsewhereIsSentHome(reg, true, r);
      PathIsCorrectedOnce(reg, home, patience - 1);
      OneMoreRedirect(reg, r, home, patience);
    } else {
      PathIsCorrectedOnce(reg, r, patience);
    }
  }

  /**
   A client that follows redirects meets one if host or scheme is wrong and one if the path is, so two at
   most. It arrives with its query unchanged, at the master host over HTTPS or at the dev host it asked,
   and at a path that is canonical or not registered.
  */
  lemma AtMostTwoRedirects(reg: Pages, r: Request, patience: nat)
    requires WellFormed(reg) && Parseable(r) && patience >= 2
    ensures Travel(reg, true, r, patience) == Ends(Destination(reg, r), Forward, RedirectsNeeded(reg, r))
    ensures Destination(reg, r).query == r.query
    ensures var path := Destination(reg, r).path;
            Resolve(reg, path).Canonical? || (Resolve(reg, path).NotFound? && path == r.path)
    ensures var last := Destination(reg, r);
            IsDevHost(last.host) || (HostName(last.host) == Some(MASTER_HOST) && last.https)
    ensures IsDevHost(r.host) ==> Destination(reg, r).host == r.host && Destination(reg, r).https == r.https
  {
    ArrivesWhereDestined(reg, r, patience);
    AnswersAreRegistered(reg, Destination(reg, r).path);
    if IsDevHost(r.host) {
      NamedHostIsNotEmpty(r.host);
      DevHostFacts(r.host);
    }
    hide MASTER_HOST, IsDevHost, WellFormed, BareHost, IsTarget, HostName, Travel;
    if Resolve(reg, r.path).Redirect? {
      RedirectLandsOnCanonical(reg, r.path);
    }
    hide Resolve;
  }

  lemma KeepsMoving(reg: Pages, trusted: bool, r: Request, next: Request, patience: nat)
    requires Decide(reg, r).Moved? && Follow(trusted, Decide(reg, r).location) == Some(next)
    requires patience > 0 ==> Travel(reg, trusted, next, patience - 1) == StillMoving
    ensures Travel(reg, trusted, r, patience) == StillMoving
  {
    hide Decide, Follow;
  }

  lemma InsecureIsElsewhere(r: Request)
    requires Parseable(r) && !IsDevHost(r.host) && !r.https
    ensures Elsewhere(r)
    ensures var home := Request(MASTER_HOST, false, r.path, r.query);
            Parseable(home) && !IsDevHost(home.host) && !home.https
  {
    MasterHostIsNamed();
    assert |MASTER_HOST| == 16;
    hide IsDevHost, IsTarget, HostName;
  }

  /**
   Behind a proxy that is not trusted the report never counts, and every request to the site itself is
   redirected for as long as the client keeps following.
  */
  lemma {:induction false} UntrustedProxyLoops(reg: Pages, r: Request, patience: nat)
    requires Parseable(r) && !IsDevHost(r.host) && !r.https
    ensures Travel(reg, false, r, patience) == StillMoving
    decreases patience
  {
    hide *;
    var home := Request(MASTER_HOST, false, r.path, r.query);
    InsecureIsElsewhere(r);
    ElsewhereIsSentHome(reg, false, r);
    if patience > 0 {
      UntrustedProxyLoops(reg, home, patience - 1);
    }
    KeepsMoving(reg, false, r, home, patience);
  }
}

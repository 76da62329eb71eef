/**
 A request on its way through the layers to a page: the layer order of `src/main.rs`,
 `src/middleware/buffer_body.rs` and `src/registered_page_handler.rs`.

 What a panic would be is a response of its own, `Panic`; the outermost layer turns it into
 a 500.
*/
module Dispatcher {
  import opened Text
  import opened Registry
  import opened Canonicalization
  import Authority
  import Digits

  const MAX_BODY_BYTES := 128 * 1024

  datatype Method = GET | HEAD | POST | OtherMethod

  type Bytes = seq<bv8>

  datatype Body = Complete(bytes: Bytes) | Unreadable

  /** `buffered` is the request extension that carries a body to the dispatcher; nothing arrives with one. */
  datatype Message = Message(
    verb: Method,
    head: Request,
    contentLength: Option<string>,
    body: Body,
    buffered: Option<Bytes>)

  /** What the rest of the system decides: admission, the origin check, and whether a static file exists. */
  datatype Circumstances = Circumstances(admitted: bool, originAccepted: bool, fileExists: bool)

  datatype Response =
    | MissingHost               // 400
    | MovedTo(location: string) // 301
    | TooLarge                  // 413
    | BodyNotRead               // 400
    | Unavailable               // 503
    | WordlistFiles             // the directory service under /files
    | StaticFile
    | NotFoundPage              // 404
    | NotAllowed(allow: string) // 405
    | CrossOrigin               // 403
    | Shown(page: PageInfo)
    | Posted(page: PageInfo, bytes: Bytes)
    | Panic

  /** A response and the pages a hit was recorded for. */
  datatype Served = Served(response: Response, hits: seq<string>)

  function Answered(response: Response): Served {
    Served(response, [])
  }

  // ----- Handlers -----

  function AllowedMethods(h: Handler): string {
    if h.acceptsPost then "GET, HEAD, POST" else "GET, HEAD"
  }

  predicate Serves(h: Handler, m: Method) {
    m == GET || m == HEAD || (m == POST && h.acceptsPost)
  }

  // ----- buffer_body -----

  function DeclaresOversizedBody(contentLength: Option<string>): bool {
    match contentLength
    case None => false
    case Some(value) =>
      match Digits.ParseU64(value)
      case Some(n) => n > MAX_BODY_BYTES
      case None => false
  }

  function BufferedMessage(m: Message): Message
    requires m.body.Complete?
  {
    m.(buffered := Some(m.body.bytes), body := Complete([]))
  }

  /** Only a header that writes a number above the limit declares too much; none, or another, does not. */
  lemma OversizedIff(contentLength: Option<string>)
    ensures DeclaresOversizedBody(contentLength) <==>
              contentLength.Some?
              && exists plus, k, n: nat :: 128 * 1024 < n < Digits.U64_LIMIT
                                           && Digits.Writes(contentLength.value, plus, k, n)
  {
    hide Digits.ParseU64, Digits.Writes;
    if contentLength.Some? {
      var value := contentLength.value;
      if Digits.ParseU64(value).Some? {
        Digits.ParsedIff(value, Digits.ParseU64(value).value);
      }
      if plus, k, n: nat :| 128 * 1024 < n < Digits.U64_LIMIT && Digits.Writes(value, plus, k, n) {
        Digits.ParsedIff(value, n);
      }
    }
  }

  datatype Buffering = Refused(response: Response) | Passed(message: Message)

  function Buffer(reg: Pages, m: Message): Buffering {
    match Resolve(reg, m.head.path)
    case Broken => if m.verb == POST then Refused(Panic) else Passed(m)
    case Canonical(page) =>
      if m.verb != POST || page.handler.None? || !page.handler.value.acceptsPost then Passed(m)
      else if DeclaresOversizedBody(m.contentLength) then Refused(TooLarge)
      else if m.body.Complete? && |m.body.bytes| <= MAX_BODY_BYTES then
        Passed(BufferedMessage(m))
      else Refused(BodyNotRead)
    case Redirect(_) => Passed(m)
    case NotFound => Passed(m)
  }

  // ----- registered_page_handler -----

  /** `handle`. */
  function Dispatch(reg: Pages, c: Circumstances, m: Message): Served {
    if m.head.host == "" then Answered(MissingHost)
    else
      match Resolve(reg, m.head.path)
      case NotFound => Answered(NotFoundPage)
      case Redirect(_) => Answered(Panic)
      case Broken => Answered(Panic)
      case Canonical(page) =>
        if page.handler.None? then Answered(Panic)
        else
          var handler := page.handler.value;
          if m.verb == POST && !handler.acceptsPost then Answered(NotAllowed(AllowedMethods(handler)))
          else if m.verb == POST && !c.originAccepted then Answered(CrossOrigin)
          else if m.verb == POST && m.buffered.None? then Answered(Panic)
          else Served(RunPage(page, handler, m), [page.hitId])
  }

  function RunPage(page: PageInfo, handler: Handler, m: Message): Response {
    match m.verb
    case GET => Shown(page)
    case HEAD => Shown(page)
    case POST => if handler.acceptsPost && m.buffered.Some? then Posted(page, m.buffered.value) else Panic
    case OtherMethod => Panic
  }

  function HandleUnsupportedMethod(reg: Pages, m: Message): Response {
    match Resolve(reg, m.head.path)
    case Canonical(page) =>
      if page.handler.None? then Panic else NotAllowed(AllowedMethods(page.handler.value))
    case Broken => Panic
    case Redirect(_) => NotFoundPage
    case NotFound => NotFoundPage
  }

  // ----- The stack -----

  predicate UnderFiles(path: string) {
    path == "/files" || "/files/" <= path
  }

  function Route(reg: Pages, c: Circumstances, m: Message): Served {
    if UnderFiles(m.head.path) then Answered(WordlistFiles)
    else
      match m.verb
      case GET => if c.fileExists then Answered(StaticFile) else Dispatch(reg, c, m)
      case HEAD => if c.fileExists then Answered(StaticFile) else Dispatch(reg, c, m)
      case POST => Dispatch(reg, c, m)
      case OtherMethod => Answered(HandleUnsupportedMethod(reg, m))
  }

  function Admit(reg: Pages, c: Circumstances, m: Message): Served {
    if c.admitted then Route(reg, c, m) else Answered(Unavailable)
  }

  function Serve(reg: Pages, c: Circumstances, m: Message): Served {
    match Decide(reg, m.head)
    case BadRequest => Answered(MissingHost)
    case Moved(location) => Answered(MovedTo(location))
    case Failed => Answered(Panic)
    case Forward =>
      match Buffer(reg, m)
      case Refused(response) => Answered(response)
      case Passed(message) => Admit(reg, c, message)
  }

  // ----- What reaches the router -----

  /** A request the canonicalization layer lets through: it names a host, and nothing about it is to be corrected. */
  predicate Settled(reg: Pages, r: Request) {
    NameOrEmpty(r.host) != "" && !Elsewhere(r) && !Resolve(reg, r.path).Redirect?
  }

  lemma ForwardedIffSettled(reg: Pages, r: Request)
    requires WellFormed(reg)
    ensures Decide(reg, r) == Forward <==> Settled(reg, r)
    ensures Decide(reg, r) == Failed <==> NameOrEmpty(r.host) != "" && !Settled(reg, r) && !Locatable(r)
    ensures Decide(reg, r) == BadRequest <==> NameOrEmpty(r.host) == ""
    ensures Settled(reg, r) ==> r.host != ""
  {
    DecisionByCase(reg, r);
    if NameOrEmpty(r.host) != "" {
      NamedHostIsNotEmpty(r.host);
    }
    hide Resolve, WellFormed, Elsewhere, Locatable, NameOrEmpty, Decide;
  }

  /** A canonical page of a well-formed registry has a handler. */
  lemma CanonicalHasHandler(reg: Pages, path: string)
    requires WellFormed(reg)
    ensures !Resolve(reg, path).Broken?
    ensures Resolve(reg, path).Canonical? ==> Resolve(reg, path).page.handler.Some?
  {
    AnswersAreRegistered(reg, path);
    hide Resolve, RelativeUrl;
    if Resolve(reg, path).Canonical? {
      var k :| k in reg && reg[k] == Resolve(reg, path).page;
    }
  }

  /** Whether the body can be read and is within the limit, by declaration and by content. */
  predicate BodyFits(m: Message) {
    !DeclaresOversizedBody(m.contentLength) && m.body.Complete? && |m.body.bytes| <= MAX_BODY_BYTES
  }

  /** The handler of the page a path is the canonical URL of. */
  function HandlerAt(reg: Pages, path: string): Option<Handler> {
    match Resolve(reg, path)
    case Canonical(page) => page.handler
    case _ => None
  }

  predicate TakesPost(reg: Pages, path: string) {
    HandlerAt(reg, path).Some? && HandlerAt(reg, path).value.acceptsPost
  }

  /**
   What the dispatcher needs of the layers in front of it: on its own it panics exactly for a path that
   should have been redirected, for a method that should have been routed elsewhere, and for an accepted
   POST whose body was not buffered.
  */
  lemma DispatcherAlonePanicsIff(reg: Pages, c: Circumstances, m: Message)
    requires WellFormed(reg) && m.head.host != ""
    ensures Dispatch(reg, c, m).response == Panic <==>
      || Resolve(reg, m.head.path).Redirect?
      || (m.verb == OtherMethod && Resolve(reg, m.head.path).Canonical?)
      || (m.verb == POST && TakesPost(reg, m.head.path) && c.originAccepted && m.buffered.None?)
  {
    CanonicalHasHandler(reg, m.head.path);
    hide Resolve, WellFormed, AllowedMethods;
  }

  lemma BufferedIffTaken(reg: Pages, m: Message)
    requires WellFormed(reg)
    ensures !(m.verb == POST && TakesPost(reg, m.head.path)) ==> Buffer(reg, m) == Passed(m)
    ensures m.verb == POST && TakesPost(reg, m.head.path) ==>
              Buffer(reg, m) == if BodyFits(m) then Passed(BufferedMessage(m))
                                else if DeclaresOversizedBody(m.contentLength) then Refused(TooLarge)
                                else Refused(BodyNotRead)
  {
    CanonicalHasHandler(reg, m.head.path);
    hide Resolve, WellFormed, DeclaresOversizedBody;
  }

  // ----- The promises -----

  /** An arriving message carries no buffered body. */
  predicate Arriving(m: Message) {
    m.buffered.None?
  }

  lemma RoutedDoesNotPanic(reg: Pages, c: Circumstances, m: Message)
    requires WellFormed(reg) && m.head.host != "" && !Resolve(reg, m.head.path).Redirect?
    requires m.verb == POST && TakesPost(reg, m.head.path) ==> m.buffered.Some?
    ensures Route(reg, c, m).response != Panic
  {
    DispatcherAlonePanicsIff(reg, c, m);
    CanonicalHasHandler(reg, m.head.path);
    hide Resolve, WellFormed, Dispatch, TakesPost, UnderFiles, AllowedMethods;
  }

  /**
   Behind the layers one panic is left: a request that is to be redirected to a URL that no header can carry.
   No other request, whatever its method, path, host and headers, reaches one.
  */
  lemma PanicsIff(reg: Pages, c: Circumstances, m: Message)
    requires WellFormed(reg) && Arriving(m)
    ensures Serve(reg, c, m).response == Panic <==>
              NameOrEmpty(m.head.host) != "" && !Settled(reg, m.head) && !Locatable(m.head)
  {
    ForwardedIffSettled(reg, m.head);
    BufferedIffTaken(reg, m);
    hide Resolve, WellFormed, Decide, Buffer, Route, NameOrEmpty, Elsewhere, Locatable;
    hide TakesPost, BodyFits, DeclaresOversizedBody;
    if Settled(reg, m.head) {
      if m.verb == POST && TakesPost(reg, m.head.path) {
        if BodyFits(m) {
          RoutedDoesNotPanic(reg, c, BufferedMessage(m));
        }
      } else {
        RoutedDoesNotPanic(reg, c, m);
      }
    }
  }

  /** A request target holds no control characters, so no request that has one reaches a panic. */
  lemma NeverPanics(reg: Pages, c: Circumstances, m: Message)
    requires WellFormed(reg) && Arriving(m) && Authority.IsTarget(m.head.path, m.head.query)
    ensures Serve(reg, c, m).response != Panic
  {
    PanicsIff(reg, c, m);
    hide Serve, Settled, Elsewhere, WellFormed;
  }

  /** What gets past the outer layers, and with which body. */
  lemma PastTheOuterLayers(reg: Pages, c: Circumstances, m: Message)
    requires WellFormed(reg)
    ensures !Settled(reg, m.head) ==>
              var answer := Serve(reg, c, m);
              answer.hits == [] && (answer.response.MissingHost? || answer.response.MovedTo? || answer.response.Panic?)
    ensures Settled(reg, m.head) && !(m.verb == POST && TakesPost(reg, m.head.path)) ==>
              Serve(reg, c, m) == Admit(reg, c, m)
    ensures Settled(reg, m.head) && m.verb == POST && TakesPost(reg, m.head.path) ==>
              Serve(reg, c, m) == if BodyFits(m) then Admit(reg, c, BufferedMessage(m))
                                  else if DeclaresOversizedBody(m.contentLength) then Answered(TooLarge)
                                  else Answered(BodyNotRead)
    ensures Settled(reg, m.head) ==> m.head.host != "" && !Resolve(reg, m.head.path).Redirect?
  {
    ForwardedIffSettled(reg, m.head);
    BufferedIffTaken(reg, m);
    hide Resolve, WellFormed, Decide, Buffer, Admit, NameOrEmpty, Elsewhere, Locatable;
    hide TakesPost, BodyFits, DeclaresOversizedBody;
  }

  lemma AdmissionAlone(reg: Pages, c: Circumstances, m: Message)
    ensures Admit(reg, c, m).response == Unavailable <==> !c.admitted
    ensures !Admit(reg, c, m).response.MovedTo?
    ensures m.head.host != "" ==> Admit(reg, c, m).response != MissingHost
  {
    hide Resolve, AllowedMethods, UnderFiles;
  }

  /** Which layer answers a request that does not reach the router, and why. */
  lemma EarlyAnswersIff(reg: Pages, c: Circumstances, m: Message)
    requires WellFormed(reg) && Arriving(m)
    ensures var answer := Serve(reg, c, m).response;
            var post := m.verb == POST && TakesPost(reg, m.head.path);
            var settled := Settled(reg, m.head);
            && (answer.MissingHost? <==> NameOrEmpty(m.head.host) == "")
            && (answer.MovedTo? <==> NameOrEmpty(m.head.host) != "" && !settled && Locatable(m.head))
            && (answer.TooLarge? <==> settled && post && DeclaresOversizedBody(m.contentLength))
            && (answer.BodyNotRead? <==> settled && post && !DeclaresOversizedBody(m.contentLength) && !BodyFits(m))
            && (answer.Unavailable? <==> settled && (post ==> BodyFits(m)) && !c.admitted)
  {
    ForwardedIffSettled(reg, m.head);
    BufferedIffTaken(reg, m);
    AdmissionAlone(reg, c, m);
    AdmittedIsRead(reg, c, m);
    if m.body.Complete? {
      AdmissionAlone(reg, c, BufferedMessage(m));
      AdmittedIsRead(reg, c, BufferedMessage(m));
    }
    hide Resolve, WellFormed, Decide, Buffer, Admit, Settled, Locatable, TakesPost, DeclaresOversizedBody, NameOrEmpty;
  }

  lemma DispatchedPost(reg: Pages, c: Circumstances, m: Message)
    requires m.head.host != "" && m.verb == POST && TakesPost(reg, m.head.path) && m.buffered.Some?
    ensures var page := Resolve(reg, m.head.path).page;
            Dispatch(reg, c, m) == if c.originAccepted then Served(Posted(page, m.buffered.value), [page.hitId])
                                   else Answered(CrossOrigin)
  {
    hide Resolve, AllowedMethods;
  }

  lemma OnlyTakenPostsArePosted(reg: Pages, c: Circumstances, m: Message)
    requires !(m.verb == POST && TakesPost(reg, m.head.path))
    ensures !Admit(reg, c, m).response.Posted?
  {
    hide Resolve, AllowedMethods, UnderFiles;
  }

  /** Everything a POST has to meet to reach its page. */
  predicate ReachesItsPage(reg: Pages, c: Circumstances, m: Message) {
    && m.verb == POST && Settled(reg, m.head) && TakesPost(reg, m.head.path) && BodyFits(m)
    && c.admitted && c.originAccepted && !UnderFiles(m.head.path)
  }

  lemma AdmittedPost(reg: Pages, c: Circumstances, m: Message)
    requires m.head.host != "" && m.verb == POST && TakesPost(reg, m.head.path) && m.buffered.Some?
    ensures Admit(reg, c, m).response.Posted? <==> c.admitted && c.originAccepted && !UnderFiles(m.head.path)
    ensures Admit(reg, c, m).response.Posted? ==>
              Resolve(reg, m.head.path).Canonical?
              && var page := Resolve(reg, m.head.path).page;
                 Admit(reg, c, m) == Served(Posted(page, m.buffered.value), [page.hitId])
  {
    DispatchedPost(reg, c, m);
    hide Resolve, Dispatch, UnderFiles;
  }

  /**
   A page gets a POST exactly when the request is settled, the page takes posts, the body fits, and the
   request is admitted and of an accepted origin. It then gets the body as sent, within the limit, and
   its hit is recorded once.
  */
  lemma PostedIff(reg: Pages, c: Circumstances, m: Message)
    requires WellFormed(reg) && Arriving(m)
    ensures Serve(reg, c, m).response.Posted? <==> ReachesItsPage(reg, c, m)
    ensures Serve(reg, c, m).response.Posted? ==>
              && m.body.Complete? && |m.body.bytes| <= MAX_BODY_BYTES
              && Resolve(reg, m.head.path).Canonical?
              && var page := Resolve(reg, m.head.path).page;
                 && m.head.path == RelativeUrl(page)
                 && Serve(reg, c, m) == Served(Posted(page, m.body.bytes), [page.hitId])
  {
    PastTheOuterLayers(reg, c, m);
    AnswersAreRegistered(reg, m.head.path);
    hide Resolve, WellFormed, Serve, Admit, Settled, TakesPost, DeclaresOversizedBody, UnderFiles, RelativeUrl;
    if m.verb == POST && TakesPost(reg, m.head.path) {
      if Settled(reg, m.head) && BodyFits(m) {
        AdmittedPost(reg, c, BufferedMessage(m));
      }
    } else {
      OnlyTakenPostsArePosted(reg, c, m);
    }
  }

  /** When the declared length is the length of the body, the limit alone decides, and too large a body is told so. */
  lemma HonestLengthDecides(reg: Pages, c: Circumstances, m: Message)
    requires WellFormed(reg) && Arriving(m) && m.verb == POST && Settled(reg, m.head) && TakesPost(reg, m.head.path)
    requires m.body.Complete? && |m.body.bytes| < Digits.U64_LIMIT
    requires m.contentLength == Some(Digits.Decimal(|m.body.bytes|))
    ensures Serve(reg, c, m).response == TooLarge <==> |m.body.bytes| > MAX_BODY_BYTES
    ensures Serve(reg, c, m).response != BodyNotRead
  {
    PastTheOuterLayers(reg, c, m);
    Digits.ParsedAsWritten(|m.body.bytes|);
    hide Resolve, WellFormed, Serve, Settled, TakesPost, UnderFiles, Digits.Decimal;
    assert BodyFits(m) <==> |m.body.bytes| <= MAX_BODY_BYTES;
    if BodyFits(m) {
      AdmittedIsRead(reg, c, BufferedMessage(m));
    }
  }

  lemma AdmittedIsRead(reg: Pages, c: Circumstances, m: Message)
    ensures !Admit(reg, c, m).response.TooLarge? && !Admit(reg, c, m).response.BodyNotRead?
  {
    hide Resolve, AllowedMethods, UnderFiles;
  }

  lemma AdmittedHits(reg: Pages, c: Circumstances, m: Message)
    requires WellFormed(reg) && m.head.host != "" && !Resolve(reg, m.head.path).Redirect?
    requires m.verb == POST && TakesPost(reg, m.head.path) ==> m.buffered.Some?
    ensures var answer := Admit(reg, c, m);
            answer.hits == if answer.response.Shown? || answer.response.Posted? then [answer.response.page.hitId]
                           else []
  {
    CanonicalHasHandler(reg, m.head.path);
    hide Resolve, WellFormed, UnderFiles, AllowedMethods;
  }

  /** A hit is recorded exactly for the page that ran: no redirect, error or static file counts. */
  lemma HitsAreOfPagesThatRan(reg: Pages, c: Circumstances, m: Message)
    requires WellFormed(reg) && Arriving(m)
    ensures var answer := Serve(reg, c, m);
            answer.hits == if answer.response.Shown? || answer.response.Posted? then [answer.response.page.hitId]
                           else []
  {
    PastTheOuterLayers(reg, c, m);
    hide WellFormed, Resolve, Serve, Admit, Settled, TakesPost, BodyFits, DeclaresOversizedBody;
    if Settled(reg, m.head) {
      if m.verb == POST && TakesPost(reg, m.head.path) {
        if BodyFits(m) {
          AdmittedHits(reg, c, BufferedMessage(m));
        }
      } else {
        AdmittedHits(reg, c, m);
      }
    }
  }

  lemma AdmittedToPage(reg: Pages, c: Circumstances, m: Message)
    requires m.head.host != "" && HandlerAt(reg, m.head.path).Some?
    requires c.admitted && !UnderFiles(m.head.path)
    ensures var handler := HandlerAt(reg, m.head.path).value;
            if Serves(handler, m.verb) then !Admit(reg, c, m).response.NotAllowed?
            else Admit(reg, c, m) == Answered(NotAllowed(AllowedMethods(handler)))
  {
    hide Resolve, UnderFiles, AllowedMethods;
  }

  lemma AdmittedToNothing(reg: Pages, c: Circumstances, m: Message)
    requires m.head.host != "" && Resolve(reg, m.head.path).NotFound?
    requires c.admitted && !UnderFiles(m.head.path)
    ensures Admit(reg, c, m) == Answered(NotFoundPage)
         || (c.fileExists && (m.verb == GET || m.verb == HEAD) && Admit(reg, c, m) == Answered(StaticFile))
  {
    hide Resolve, UnderFiles, AllowedMethods;
  }

  /**
   A settled and admitted request is refused for its method exactly when its path is a registered page
   that does not serve the method, and the refusal lists the methods of that page.
  */
  lemma NotAllowedIff(reg: Pages, c: Circumstances, m: Message)
    requires WellFormed(reg) && Arriving(m) && Settled(reg, m.head) && c.admitted && !UnderFiles(m.head.path)
    ensures var handler := HandlerAt(reg, m.head.path);
            && (Serve(reg, c, m).response.NotAllowed? <==> handler.Some? && !Serves(handler.value, m.verb))
            && (Serve(reg, c, m).response.NotAllowed? ==>
                  Serve(reg, c, m) == Answered(NotAllowed(AllowedMethods(handler.value))))
  {
    PastTheOuterLayers(reg, c, m);
    MissingOrHandled(reg, m.head.path);
    hide WellFormed, Resolve, HandlerAt, Serve, Admit, Settled;
    hide BodyFits, DeclaresOversizedBody, AllowedMethods, UnderFiles;
    if HandlerAt(reg, m.head.path).Some? {
      AdmittedToPage(reg, c, m);
      if m.verb == POST && TakesPost(reg, m.head.path) && BodyFits(m) {
        AdmittedToPage(reg, c, BufferedMessage(m));
      }
    } else {
      AdmittedToNothing(reg, c, m);
    }
  }

  lemma MissingOrHandled(reg: Pages, path: string)
    requires WellFormed(reg)
    ensures Resolve(reg, path).Redirect? || HandlerAt(reg, path).Some? || Resolve(reg, path).NotFound?
    ensures HandlerAt(reg, path).Some? ==> Resolve(reg, path).Canonical?
  {
    CanonicalHasHandler(reg, path);
    hide Resolve, WellFormed;
  }

  /** A path that is not registered gets the 404 page whatever the method, unless a file answers it. */
  lemma MissesAlike(reg: Pages, c: Circumstances, m: Message)
    requires WellFormed(reg) && Arriving(m) && Settled(reg, m.head) && c.admitted && !UnderFiles(m.head.path)
    requires Resolve(reg, m.head.path).NotFound?
    ensures Serve(reg, c, m) == Answered(NotFoundPage) || (c.fileExists && (m.verb == GET || m.verb == HEAD))
  {
    PastTheOuterLayers(reg, c, m);
    hide WellFormed, Resolve, Serve, Admit, Settled, BodyFits, DeclaresOversizedBody, UnderFiles;
    AdmittedToNothing(reg, c, m);
  }

  /** `name` is an element of the comma-separated list `allow`. */
  predicate Listed(name: string, allow: string) {
    name in Split(allow, ',') || [' '] + name in Split(allow, ',')
  }

  lemma AllowedParts(h: Handler)
    ensures Split(AllowedMethods(h), ',') == if h.acceptsPost then ["GET", " HEAD", " POST"] else ["GET", " HEAD"]
  {
    hide Split;
    if h.acceptsPost {
      SplitAtSeparator("GET", " HEAD, POST", ',');
      SplitAtSeparator(" HEAD", " POST", ',');
      SplitWithout(" POST", ',');
      assert "GET" + [','] + " HEAD, POST" == "GET, HEAD, POST";
      assert " HEAD" + [','] + " POST" == " HEAD, POST";
    } else {
      SplitAtSeparator("GET", " HEAD", ',');
      SplitWithout(" HEAD", ',');
      assert "GET" + [','] + " HEAD" == "GET, HEAD";
    }
  }

  /** The list names GET and HEAD always, and POST exactly when posts are accepted. */
  lemma AllowListsWhatIsServed(h: Handler)
    ensures Listed("GET", AllowedMethods(h)) && Listed("HEAD", AllowedMethods(h))
    ensures Listed("POST", AllowedMethods(h)) <==> h.acceptsPost
    ensures |Split(AllowedMethods(h), ',')| == if h.acceptsPost then 3 else 2
  {
    AllowedParts(h);
    hide Split, AllowedMethods;
    var parts := Split(AllowedMethods(h), ',');
    assert [' '] + "HEAD" == " HEAD" && [' '] + "POST" == " POST";
    assert parts[0] == "GET" && parts[1] == " HEAD";
    if h.acceptsPost {
      assert parts[2] == " POST";
    } else {
      assert " HEAD"[1] != " POST"[1];
    }
  }

  lemma CanonicalIsShown(reg: Pages, c: Circumstances, m: Message)
    requires WellFormed(reg) && Settled(reg, m.head) && Resolve(reg, m.head.path).Canonical?
    requires m.verb == GET || m.verb == HEAD
    requires c.admitted && !c.fileExists && !UnderFiles(m.head.path)
    ensures var page := Resolve(reg, m.head.path).page; Serve(reg, c, m) == Served(Shown(page), [page.hitId])
  {
    PastTheOuterLayers(reg, c, m);
    CanonicalHasHandler(reg, m.head.path);
    hide WellFormed, Resolve, Serve, Settled, AllowedMethods, UnderFiles;
  }

  lemma DestinationPath(reg: Pages, r: Request)
    ensures Destination(reg, r).path
         == if Resolve(reg, r.path).Redirect? then Resolve(reg, r.path).canonicalPath else r.path
  {
    hide Resolve, Elsewhere, BareHost;
  }

  /** Where a spelling leads, and that the way ends there. */
  lemma SpellingLeadsToPage(reg: Pages, path: string, key: string)
    requires WellFormed(reg) && key in reg && Spells(path, key)
    ensures Chase(reg, reg[key], {}).Found?
    ensures var page := Chase(reg, reg[key], {}).page;
            && Resolve(reg, RelativeUrl(page)) == Canonical(page)
            && if path == RelativeUrl(page) then Resolve(reg, path) == Canonical(page)
               else Resolve(reg, path) == Redirect(RelativeUrl(page))
  {
    SpellingIsLookup(reg, path, key);
    FoundIsRegistered(reg, reg[key], {});
    var page := Chase(reg, reg[key], {}).page;
    var k :| k in reg && reg[k] == page;
    LowerKeepsLastSlash(page.slug);
    CanonicalUrlIsCanonical(reg, k);
    hide Resolve, Chase, Spells, RelativeUrl, EndsWith;
  }

  /**
   However a registered page or alias is spelled, and whichever host is asked, a client that follows
   redirects is shown the page, and one hit is recorded for it.
  */
  lemma EverySpellingIsShown(reg: Pages, c: Circumstances, r: Request, key: string, verb: Method)
    requires WellFormed(reg) && Parseable(r) && key in reg && Spells(r.path, key)
    requires verb == GET || verb == HEAD
    requires c.admitted && !c.fileExists && !UnderFiles(Destination(reg, r).path)
    ensures Chase(reg, reg[key], {}).Found?
    ensures var last := Destination(reg, r);
            var page := Chase(reg, reg[key], {}).page;
            && Travel(reg, true, r, 2) == Ends(last, Forward, RedirectsNeeded(reg, r))
            && last.path == RelativeUrl(page)
            && Serve(reg, c, Message(verb, last, None, Complete([]), None)) == Served(Shown(page), [page.hitId])
  {
    hide *;
    ArrivesWhereDestined(reg, r, 2);
    SpellingLeadsToPage(reg, r.path, key);
    DestinationPath(reg, r);
    var last := Destination(reg, r);
    ParseableIsSettled(reg, last);
    CanonicalIsShown(reg, c, Message(verb, last, None, Complete([]), None));
  }

  lemma ParseableIsSettled(reg: Pages, r: Request)
    requires Parseable(r) && !Elsewhere(r) && !Resolve(reg, r.path).Redirect?
    ensures Settled(reg, r)
  {
    hide Resolve, Elsewhere;
  }

  // ----- Who answers -----

  /** A request that gets as far as the router. */
  predicate Routed(reg: Pages, c: Circumstances, m: Message) {
    Settled(reg, m.head) && c.admitted && (m.verb == POST && TakesPost(reg, m.head.path) ==> BodyFits(m))
  }

  predicate Reads(m: Message) {
    m.verb == GET || m.verb == HEAD
  }

  lemma UnderFilesIff(path: string)
    ensures UnderFiles(path) <==> path == "/files" || exists rest :: path == "/files/" + rest
  {
    if "/files/" <= path {
      assert path == "/files/" + path[|"/files/"|..];
    }
  }

  /** What the router is given of a message, and that it decides. */
  lemma RoutedIsRouted(reg: Pages, c: Circumstances, m: Message) returns (given: Message)
    requires WellFormed(reg) && Arriving(m)
    ensures given.verb == m.verb && given.head == m.head
    ensures m.verb == POST && TakesPost(reg, m.head.path) && BodyFits(m) ==> given.buffered == Some(m.body.bytes)
    ensures Routed(reg, c, m) ==> Serve(reg, c, m) == Route(reg, c, given) && m.head.host != ""
                                  && !Resolve(reg, m.head.path).Redirect?
    ensures !Routed(reg, c, m) ==>
              var answer := Serve(reg, c, m).response;
              || answer.MissingHost? || answer.MovedTo? || answer.Panic? || answer.TooLarge? || answer.BodyNotRead?
              || answer.Unavailable?
  {
    PastTheOuterLayers(reg, c, m);
    given := if m.verb == POST && TakesPost(reg, m.head.path) && BodyFits(m) then BufferedMessage(m) else m;
    hide Resolve, WellFormed, Serve, Route, Settled, TakesPost, DeclaresOversizedBody;
  }

  lemma RouterAnswers(reg: Pages, c: Circumstances, m: Message)
    requires WellFormed(reg) && m.head.host != "" && !Resolve(reg, m.head.path).Redirect?
    requires m.verb == POST && TakesPost(reg, m.head.path) ==> m.buffered.Some?
    ensures var answer := Route(reg, c, m).response;
            var files, file := UnderFiles(m.head.path), Reads(m) && c.fileExists;
            && !answer.MissingHost? && !answer.MovedTo? && !answer.TooLarge? && !answer.BodyNotRead?
            && !answer.Unavailable?
            && (answer.WordlistFiles? <==> files)
            && (answer.StaticFile? <==> !files && file)
            && (answer.NotFoundPage? <==> !files && !file && Resolve(reg, m.head.path).NotFound?)
            && (answer.CrossOrigin? <==>
                  !files && m.verb == POST && TakesPost(reg, m.head.path) && !c.originAccepted)
            && (answer.Shown? <==> !files && !file && Reads(m) && Resolve(reg, m.head.path).Canonical?)
  {
    CanonicalHasHandler(reg, m.head.path);
    hide Resolve, WellFormed, AllowedMethods, UnderFiles;
  }

  /** For each answer of the router, exactly when it is given. */
  lemma RouterAnswersIff(reg: Pages, c: Circumstances, m: Message)
    requires WellFormed(reg) && Arriving(m)
    ensures var answer := Serve(reg, c, m).response;
            var routed := Routed(reg, c, m);
            var files := m.head.path == "/files" || exists rest :: m.head.path == "/files/" + rest;
            var file := Reads(m) && c.fileExists;
            && (answer == WordlistFiles <==> routed && files)
            && (answer == StaticFile <==> routed && !files && file)
            && (answer == NotFoundPage <==> routed && !files && !file && Resolve(reg, m.head.path).NotFound?)
            && (answer == CrossOrigin <==>
                  routed && !files && m.verb == POST && TakesPost(reg, m.head.path) && !c.originAccepted)
            && (answer.Shown? <==>
                  routed && !files && !file && Reads(m) && Resolve(reg, m.head.path).Canonical?)
  {
    UnderFilesIff(m.head.path);
    var given := RoutedIsRouted(reg, c, m);
    hide WellFormed, Resolve, Serve, Route, TakesPost, UnderFiles, Settled, DeclaresOversizedBody;
    if Routed(reg, c, m) {
      RouterAnswers(reg, c, given);
    }
  }

  // ----- The shipped site -----

  lemma PublishedIsNotUnderFiles(n: nat)
    requires n < |PUBLISHED|
    ensures !UnderFiles(PUBLISHED[n])
  {
    hide WORDLIST;
    assert |PUBLISHED| == 6;
    assert "/files"[1] == 'f' && "/files/"[1] == 'f';
    if n == 3 {
      WordlistStarts();
      assert PUBLISHED[3][1] == WORDLIST[0];
    } else if n > 0 {
      assert PUBLISHED[n][1] != 'f';
    }
  }

  lemma WordlistStarts()
    ensures WORDLIST != "" && WORDLIST[0] == 'c'
  {
  }

  /** No page of the shipped site is hidden by the file service. */
  lemma ShippedPagesAreNotUnderFiles(reg: Pages, path: string)
    requires Indexes(reg, SHIPPED) && Resolve(reg, path).Canonical?
    ensures !UnderFiles(path)
  {
    PublishedUrlsAreCanonical(reg, path);
    hide Resolve, Indexes, SHIPPED, UnderFiles, PUBLISHED;
    var n :| 0 <= n < |PUBLISHED| && PUBLISHED[n] == path;
    PublishedIsNotUnderFiles(n);
  }

  /** On the shipped site every spelling of every page and alias is shown, from any host. */
  lemma ShippedSpellingIsShown(reg: Pages, c: Circumstances, r: Request, key: string, verb: Method)
    requires Indexes(reg, SHIPPED) && Parseable(r) && key in reg && Spells(r.path, key)
    requires (verb == GET || verb == HEAD) && c.admitted && !c.fileExists
    ensures Chase(reg, reg[key], {}).Found?
    ensures var last := Destination(reg, r);
            var page := Chase(reg, reg[key], {}).page;
            && Travel(reg, true, r, 2) == Ends(last, Forward, RedirectsNeeded(reg, r))
            && last.path in PUBLISHED && last.path == RelativeUrl(page)
            && Serve(reg, c, Message(verb, last, None, Complete([]), None)) == Served(Shown(page), [page.hitId])
  {
    hide *;
    ShippedIsWellFormed(reg);
    SpellingLeadsToPage(reg, r.path, key);
    DestinationPath(reg, r);
    ShippedPagesAreNotUnderFiles(reg, Destination(reg, r).path);
    PublishedUrlsAreCanonical(reg, Destination(reg, r).path);
    EverySpellingIsShown(reg, c, r, key, verb);
  }

  lemma HomeTakesPosts(reg: Pages, path: string)
    requires Indexes(reg, SHIPPED)
    ensures TakesPost(reg, path) <==> path == "/"
  {
    ShippedIsWellFormed(reg);
    AnswersAreRegistered(reg, path);
    HomeIsShipped(reg);
    hide SHIPPED, Resolve, Indexes, WellFormed;
    if Resolve(reg, path).Canonical? {
      var k := PageOfCanonical(reg, path);
      CanonicalUrlIsCanonicalOf(reg, path, k);
      ShippedPages(reg, k);
    }
    if path == "/" {
      HomeIsCanonical(reg);
      ShippedPages(reg, "");
    }
  }

  lemma CanonicalUrlIsCanonicalOf(reg: Pages, path: string, k: string)
    requires WellFormed(reg) && k in reg && reg[k].redirect.None? && path == Published(reg[k].slug)
    ensures Resolve(reg, path) == Canonical(reg[k])
    ensures k == "" <==> path == "/"
  {
    PublishedIsCanonical(reg, k);
    SlugEndsLikeKey(reg[k].slug, k);
  }

  lemma HomeIsCanonical(reg: Pages)
    requires Indexes(reg, SHIPPED)
    ensures "" in reg && reg[""].redirect.None? && Resolve(reg, "/") == Canonical(reg[""])
  {
    ShippedIsWellFormed(reg);
    ShippedIsIndexed(reg, 0);
    assert SHIPPED[0].slug == "" && SHIPPED[0].redirect.None?;
    hide SHIPPED, Indexes, Resolve;
    PublishedIsCanonical(reg, "");
  }

  /** On the shipped site a POST reaches the home page, and no other, when nothing about it is to be corrected. */
  lemma ShippedPostedIff(reg: Pages, c: Circumstances, m: Message)
    requires Indexes(reg, SHIPPED) && Arriving(m)
    ensures Serve(reg, c, m).response.Posted? <==>
              && m.verb == POST && NameOrEmpty(m.head.host) != "" && !Elsewhere(m.head) && m.head.path == "/"
              && BodyFits(m) && c.admitted && c.originAccepted
    ensures Serve(reg, c, m).response.Posted? ==>
              "" in reg && Serve(reg, c, m) == Served(Posted(reg[""], m.body.bytes), [""])
  {
    ShippedIsWellFormed(reg);
    PostedIff(reg, c, m);
    HomeTakesPosts(reg, m.head.path);
    HomeIsCanonical(reg);
    ShippedPages(reg, "");
    ShippedHomeIsNotUnderFiles();
    hide Serve, Resolve, Indexes, SHIPPED, WellFormed, NameOrEmpty, Elsewhere, DeclaresOversizedBody, UnderFiles;
    hide TakesPost, RelativeUrl;
  }

  lemma ShippedHomeIsNotUnderFiles()
    ensures !UnderFiles("/")
  {
  }
}

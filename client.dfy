/**
 * The generated client's engine: the credential state (token pair, token file,
 * default request headers), sign-in, the single-flight refresh with its stale
 * token guard, sign-out, configuration headers, and request execution with its
 * one 401 refresh-and-resend.
 *
 * Every operation is specified by a pure function over `Session`, the client's
 * observable state together with the shared token folder; the class methods
 * mirror the source step by step and are proved to compute those functions.
 */
module ApiClient {
  import opened Wrappers
  import opened Text

  datatype TokenPair = TokenPair(accessToken: string, refreshToken: string)

  /** The default request headers: each key with its values, in the order added. */
  type Headers = map<string, seq<string>>

  /** Everything the credential operations read or write. `files` is the
      per-user token folder, shared by every client instance. */
  datatype Session = Session(
    tokenPair: Option<TokenPair>,
    tokenFilePath: Option<string>,
    headers: Headers,
    files: map<string, string>)

  /** The marker in a WWW-Authenticate parameter that announces an expired token. */
  const ExpiryMarker: string := "The token expired at"

  /** `DefaultRequestHeaders.Remove(key)`: drops every value of `key`. */
  function RemoveHeader(h: Headers, key: string): (r: Headers)
    ensures key !in r
    ensures forall k :: k in h && k != key ==> k in r && r[k] == h[k]
    ensures r.Keys <= h.Keys
  {
    h - {key}
  }

  /** `DefaultRequestHeaders.Add(key, value)`: appends one more value for `key`. */
  function AddHeader(h: Headers, key: string, value: string): (r: Headers)
    ensures key in r && r[key] == (if key in h then h[key] else []) + [value]
    ensures forall k :: k in h && k != key ==> k in r && r[k] == h[k]
    ensures r.Keys == h.Keys + {key}
  {
    h[key := (if key in h then h[key] else []) + [value]]
  }

  /** Where the token of a sign-in is persisted: the token folder, the hex
      digest of the initial refresh token, and ".json". */
  function TokenFilePath(folder: string, digest: string): string {
    folder + "/" + digest + ".json"
  }

  /** The state after `SignOut`. */
  function AfterSignOut(s: Session, authKey: string): (r: Session)
    ensures r.tokenPair == None && authKey !in r.headers
    ensures forall k :: k in s.headers && k != authKey ==> k in r.headers && r.headers[k] == s.headers[k]
    ensures r.tokenFilePath == s.tokenFilePath && r.files == s.files
  {
    s.(tokenPair := None, headers := RemoveHeader(s.headers, authKey))
  }

  /** Signing out twice is signing out once. */
  lemma SignOutIdempotent(s: Session, authKey: string)
    ensures AfterSignOut(AfterSignOut(s, authKey), authKey) == AfterSignOut(s, authKey)
  {
    assert RemoveHeader(RemoveHeader(s.headers, authKey), authKey) == RemoveHeader(s.headers, authKey);
  }

  /** The state after a refresh that obtained `pair`. */
  function AfterRefresh(s: Session, authKey: string, pair: TokenPair): (r: Session)
    ensures r.tokenPair == Some(pair) && r.tokenFilePath == s.tokenFilePath
    ensures authKey in r.headers && r.headers[authKey] == ["Bearer " + pair.accessToken]
    ensures forall k :: k in s.headers && k != authKey ==> k in r.headers && r.headers[k] == s.headers[k]
    ensures r.headers.Keys == s.headers.Keys + {authKey}
    ensures match s.tokenFilePath
            case None => r.files == s.files
            case Some(path) => r.files == s.files[path := pair.refreshToken]
  {
    var files := if s.tokenFilePath.Some? then s.files[s.tokenFilePath.value := pair.refreshToken] else s.files;
    var headers := AddHeader(RemoveHeader(s.headers, authKey), authKey, "Bearer " + pair.accessToken);
    s.(tokenPair := Some(pair), headers := headers, files := files)
  }

  datatype RefreshOutcome =
    | Stale      // the supplied token was already redeemed: nothing happens
    | Threw      // the token endpoint failed: the exception propagates, nothing changed
    | Refreshed  // a new pair is installed

  /** `RefreshTokenAsync(token)`, with `reply` the token endpoint's answer
      (None when that call throws). */
  function RefreshSpec(s: Session, authKey: string, token: string, reply: Option<TokenPair>): (r: (Session, RefreshOutcome))
    ensures r.1 != Refreshed ==> r.0 == s
    ensures r.1 == Refreshed ==> reply.Some? && r.0.tokenPair == reply
  {
    if s.tokenPair.Some? && token != s.tokenPair.value.refreshToken then (s, Stale)
    else if reply.None? then (s, Threw)
    else (AfterRefresh(s, authKey, reply.value), Refreshed)
  }

  /** The stale-token guard: with a pair held, a token other than the held
      refresh token changes nothing and makes no network call; with no pair held
      the refresh is always attempted. */
  lemma RefreshGuard(s: Session, authKey: string, token: string, reply: Option<TokenPair>)
    ensures s.tokenPair.Some? && token != s.tokenPair.value.refreshToken
            ==> RefreshSpec(s, authKey, token, reply) == (s, Stale)
    ensures s.tokenPair.None? ==> RefreshSpec(s, authKey, token, reply).1 != Stale
    ensures RefreshSpec(s, authKey, token, reply).1 == Refreshed <==>
            reply.Some? && (s.tokenPair.None? || token == s.tokenPair.value.refreshToken)
  {
  }

  /** Two refreshes racing with the same token, one after the other: the first
      installs the new pair, the second sees a stale token and does nothing, as
      long as the token endpoint really rotated the token. */
  lemma RefreshSingleFlight(s: Session, authKey: string, token: string, first: TokenPair, second: Option<TokenPair>)
    requires first.refreshToken != token
    ensures var (s1, o1) := RefreshSpec(s, authKey, token, Some(first));
            o1 == Refreshed ==> RefreshSpec(s1, authKey, token, second) == (s1, Stale)
  {
  }

  /** The refresh token `SignInAsync` redeems: the persisted one when a file
      for this initial token exists, otherwise the supplied one. */
  function SignInToken(s: Session, folder: string, digest: string -> string, token: string): string {
    var path := TokenFilePath(folder, digest(token));
    if path in s.files then s.files[path] else token
  }

  /** The state right before `SignInAsync` refreshes: the file path is set and,
      when no file existed, the supplied token has been written to it. */
  function BeforeSignInRefresh(s: Session, folder: string, digest: string -> string, token: string): (r: Session)
    ensures var path := TokenFilePath(folder, digest(token));
            r.tokenFilePath == Some(path) && path in r.files && r.files[path] == SignInToken(s, folder, digest, token)
  {
    var path := TokenFilePath(folder, digest(token));
    s.(tokenFilePath := Some(path), files := if path in s.files then s.files else s.files[path := token])
  }

  /** `SignInAsync(token)`. */
  function SignInSpec(s: Session, authKey: string, folder: string, digest: string -> string, token: string, reply: Option<TokenPair>): (r: (Session, RefreshOutcome))
    ensures r.0.tokenFilePath == Some(TokenFilePath(folder, digest(token)))
    ensures TokenFilePath(folder, digest(token)) in r.0.files
    ensures r.1 == Refreshed ==> reply.Some? && r.0.files[TokenFilePath(folder, digest(token))] == reply.value.refreshToken
  {
    RefreshSpec(BeforeSignInRefresh(s, folder, digest, token), authKey, SignInToken(s, folder, digest, token), reply)
  }

  /** A second client that signs in with the same initial token, sharing the
      token folder, redeems the token the first client's refresh left in the
      file, not the initial one. */
  lemma SignInResumesRotatedToken(
    s: Session, other: Session, authKey: string, folder: string, digest: string -> string,
    token: string, pair: TokenPair)
    requires s.tokenPair.None?
    ensures var (s1, o) := SignInSpec(s, authKey, folder, digest, token, Some(pair));
            o == Refreshed && SignInToken(other.(files := s1.files), folder, digest, token) == pair.refreshToken
  {
    var path := TokenFilePath(folder, digest(token));
    var s0 := BeforeSignInRefresh(s, folder, digest, token);
    var s1 := AfterRefresh(s0, authKey, pair);
    assert s1.files == s0.files[path := pair.refreshToken];
  }

  /** The request `BuildRequestMessage` produces. */
  datatype Request = Request(
    verb: string,
    url: string,
    content: Option<string>,
    contentType: Option<string>,
    accept: Option<string>,
    streamResponse: bool)

  function BuildRequest(verb: string, url: string, content: Option<string>, contentType: Option<string>, accept: Option<string>): (r: Request)
    ensures r.verb == verb && r.url == url && r.content == content && r.accept == accept
    ensures r.contentType.Some? <==> contentType.Some? && content.Some?
    ensures r.contentType.Some? ==> r.contentType == contentType
    ensures r.streamResponse
  {
    Request(verb, url, content, if content.Some? then contentType else None, accept, true)
  }

  /** A response: its status code, the parameter of its first WWW-Authenticate
      challenge (None when there is no challenge or it has no parameter), and its
      body as text. */
  datatype Response = Response(status: nat, challenge: Option<string>, body: string)

  predicate IsSuccess(status: nat) { 200 <= status <= 299 }

  predicate AnnouncesExpiry(r: Response) {
    r.challenge.Some? && Contains(r.challenge.value, ExpiryMarker)
  }

  /** What the sends and the token endpoint answer during one `InvokeAsync`:
      the first response, the token endpoint's reply if a refresh is made, and
      the response to the resend if one is made (None when a call throws). */
  datatype Exchange = Exchange(first: Response, refreshReply: Option<TokenPair>, resend: Option<Response>)

  /** The requested result type `T`: `object`, `HttpResponseMessage` or a
      deserialised value. */
  datatype ResultKind = AsObject | AsResponse | AsValue

  /** The client exception type: a code and, for HTTP failures, the body text
      when it is not blank. */
  datatype ApiError = ApiError(code: string, detail: Option<string>)

  datatype Outcome<V> = NoContent | Raw(response: Response) | Value(value: V) | Failed(error: ApiError)

  /** A request as it went out, with the default headers at that moment. */
  datatype Sent = Sent(request: Request, headers: Headers)

  datatype Invocation<V> = Invocation(session: Session, outcome: Outcome<V>, sent: seq<Sent>, disposed: seq<Response>)

  /** The error code of an HTTP failure. */
  function StatusCode(status: nat): string {
    "N00." + Decimal(status)
  }

  /** Different statuses give different codes. */
  lemma StatusCodeInjective(a: nat, b: nat)
    requires StatusCode(a) == StatusCode(b)
    ensures a == b
  {
    assert Decimal(a) == StatusCode(a)[4..];
    assert Decimal(b) == StatusCode(b)[4..];
    DecimalInjective(a, b);
  }

  function HttpError(r: Response): ApiError {
    ApiError(StatusCode(r.status), if IsBlank(r.body) then None else Some(r.body))
  }

  /** The end of `InvokeAsync` once the final response is known. */
  function Finish<V>(s: Session, sent: seq<Sent>, disposed: seq<Response>, final: Response,
                     kind: ResultKind, parse: string -> Option<V>): Invocation<V>
  {
    if !IsSuccess(final.status) then Invocation(s, Failed(HttpError(final)), sent, disposed)
    else match kind
      case AsObject => Invocation(s, NoContent, sent, disposed + [final])
      case AsResponse => Invocation(s, Raw(final), sent, disposed)
      case AsValue =>
        match parse(final.body)
        case None => Invocation(s, Failed(ApiError("N01", None)), sent, disposed + [final])
        case Some(v) => Invocation(s, Value(v), sent, disposed + [final])
  }

  /** `InvokeAsync`: send, and on a 401 while signed in either refresh and
      resend once (expired token) or sign out. */
  function InvokeSpec<V>(s: Session, authKey: string, request: Request, kind: ResultKind,
                         parse: string -> Option<V>, ex: Exchange): (r: Invocation<V>)
    ensures r.session == s || r.session.tokenPair.None? || r.session.tokenPair == ex.refreshReply
    ensures r.session.tokenFilePath == s.tokenFilePath
    ensures r.outcome.Raw? ==> kind == AsResponse
  {
    var sent0 := Sent(request, s.headers);
    if IsSuccess(ex.first.status) || ex.first.status != 401 || s.tokenPair.None? then
      Finish(s, [sent0], [], ex.first, kind, parse)
    else if !AnnouncesExpiry(ex.first) then
      Finish(AfterSignOut(s, authKey), [sent0], [], ex.first, kind, parse)
    else
      var (s1, o) := RefreshSpec(s, authKey, s.tokenPair.value.refreshToken, ex.refreshReply);
      if o == Threw then
        Finish(AfterSignOut(s1, authKey), [sent0], [], ex.first, kind, parse)
      else
        var sent := [sent0, Sent(request, s1.headers)];
        match ex.resend
        case None => Finish(AfterSignOut(s1, authKey), sent, [], ex.first, kind, parse)
        case Some(second) => Finish(s1, sent, [ex.first], second, kind, parse)
  }

  /** Whether `InvokeAsync` takes the refresh path on this first response. */
  predicate TriesRefresh(s: Session, first: Response) {
    first.status == 401 && s.tokenPair.Some? && AnnouncesExpiry(first)
  }

  /** Whether the resend's response replaced the first one. */
  predicate Replaced(s: Session, ex: Exchange) {
    TriesRefresh(s, ex.first) && ex.refreshReply.Some? && ex.resend.Some?
  }

  /** The response the caller's result comes from: the resent one when a resend
      answered, the first one otherwise. */
  function FinalResponse(s: Session, ex: Exchange): Response {
    if Replaced(s, ex) then ex.resend.value else ex.first
  }

  /** The 401 policy: a refresh and a single resend happen exactly when the
      status is 401, a pair is held, the first challenge announces expiry and
      the refresh succeeds; the resend repeats the request with the new
      Authorization header. */
  lemma RetryPolicy<V>(s: Session, authKey: string, request: Request, kind: ResultKind,
                       parse: string -> Option<V>, ex: Exchange)
    ensures var r := InvokeSpec(s, authKey, request, kind, parse, ex);
            && 1 <= |r.sent| <= 2
            && r.sent[0] == Sent(request, s.headers)
            && (|r.sent| == 2 <==> TriesRefresh(s, ex.first) && ex.refreshReply.Some?)
            && (|r.sent| == 2 ==> r.sent[1].request == request
                                  && authKey in r.sent[1].headers
                                  && r.sent[1].headers[authKey] == ["Bearer " + ex.refreshReply.value.accessToken])
  {
  }

  /** Who is signed out afterwards: on a 401 with a pair held, the client signs
      out unless the refresh and the resend both went through; in every other
      case a 401 or another failure leaves the credentials alone. */
  lemma SignOutPolicy<V>(s: Session, authKey: string, request: Request, kind: ResultKind,
                         parse: string -> Option<V>, ex: Exchange)
    ensures var r := InvokeSpec(s, authKey, request, kind, parse, ex);
            && (ex.first.status == 401 && s.tokenPair.Some?
                && !(AnnouncesExpiry(ex.first) && ex.refreshReply.Some? && ex.resend.Some?)
                ==> r.session.tokenPair.None? && authKey !in r.session.headers)
            && (ex.first.status != 401 || s.tokenPair.None? ==> r.session == s)
            && (TriesRefresh(s, ex.first) && ex.refreshReply.Some? && ex.resend.Some?
                ==> r.session == AfterRefresh(s, authKey, ex.refreshReply.value))
  {
  }

  /** The result mapping: a final response that still failed gives "N00." and
      its own status, with the body only when it is not blank; a successful one
      gives nothing, the response itself, or the deserialised value ("N01" when
      that fails). The final response is released unless it was handed out or
      it failed; the first response is released when the resend replaced it. */
  lemma ResultMapping<V>(s: Session, authKey: string, request: Request, kind: ResultKind,
                         parse: string -> Option<V>, ex: Exchange)
    ensures var r := InvokeSpec(s, authKey, request, kind, parse, ex);
            var final := FinalResponse(s, ex);
            && (!IsSuccess(final.status) ==>
                  r.outcome == Failed(ApiError(StatusCode(final.status),
                                               if IsBlank(final.body) then None else Some(final.body))))
            && (IsSuccess(final.status) && kind == AsObject ==> r.outcome == NoContent)
            && (IsSuccess(final.status) && kind == AsResponse ==> r.outcome == Raw(final))
            && (IsSuccess(final.status) && kind == AsValue ==>
                  r.outcome == (if parse(final.body).Some? then Value(parse(final.body).value)
                                else Failed(ApiError("N01", None))))
            && r.disposed == (if Replaced(s, ex) then [ex.first] else [])
                             + (if IsSuccess(final.status) && kind != AsResponse then [final] else [])
  {
  }

  /** The shared per-user token folder: file path to content. */
  class TokenStore {
    var files: map<string, string>

    constructor (files: map<string, string>)
      ensures this.files == files
    {
      this.files := files;
    }
  }

  const BaseAddressMissing := "The base address of the HTTP client must be set."

  /** Constructing a client over an `HttpClient` whose base address may be
      unset: the constructor's exception, or the new client, which keeps the
      HTTP client's default request headers as they are. */
  method NewClient(authKey: string, configKey: string, tokenFolder: string, store: TokenStore,
                   baseAddress: Option<string>, defaultHeaders: Headers) returns (r: Result<Client, string>)
    ensures r.Err? <==> baseAddress.None?
    ensures r.Err? ==> r.error == BaseAddressMissing
    ensures r.Ok? ==> fresh(r.value) && r.value.baseAddress == baseAddress.value
                      && r.value.authKey == authKey && r.value.configKey == configKey
                      && r.value.tokenFolder == tokenFolder && r.value.store == store
                      && r.value.State() == Session(None, None, defaultHeaders, store.files)
  {
    if baseAddress.None? {
      return Err(BaseAddressMissing);
    }
    var client := new Client(authKey, configKey, tokenFolder, store, baseAddress.value, defaultHeaders);
    return Ok(client);
  }

  /** The generated `{{1}}Client`, with `authKey` and `configKey` the header
      names the generator fills in, over an HTTP client with the base address
      `baseAddress` and the default request headers `headers`. */
  class Client {
    const authKey: string
    const configKey: string
    const tokenFolder: string
    const store: TokenStore
    const baseAddress: string
    var tokenPair: Option<TokenPair>
    var tokenFilePath: Option<string>
    var headers: Headers

    /** The constructor once the base address is known to be set. */
    constructor (authKey: string, configKey: string, tokenFolder: string, store: TokenStore,
                 baseAddress: string, defaultHeaders: Headers)
      ensures this.authKey == authKey && this.configKey == configKey
      ensures this.tokenFolder == tokenFolder && this.store == store && this.baseAddress == baseAddress
      ensures State() == Session(None, None, defaultHeaders, store.files)
    {
      this.authKey := authKey;
      this.configKey := configKey;
      this.tokenFolder := tokenFolder;
      this.store := store;
      this.baseAddress := baseAddress;
      tokenPair := None;
      tokenFilePath := None;
      headers := defaultHeaders;
    }

    function State(): Session
      reads this, store
    {
      Session(tokenPair, tokenFilePath, headers, store.files)
    }

    predicate IsAuthenticated()
      reads this
    {
      tokenPair.Some?
    }

    method SignIn(token: string, digest: string -> string, reply: Option<TokenPair>) returns (outcome: RefreshOutcome)
      modifies this, store
      ensures (State(), outcome) == SignInSpec(old(State()), authKey, tokenFolder, digest, token, reply)
    {
      var actualToken: string;
      tokenFilePath := Some(TokenFilePath(tokenFolder, digest(token)));
      if tokenFilePath.value in store.files {
        actualToken := store.files[tokenFilePath.value];
      } else {
        store.files := store.files[tokenFilePath.value := token];
        actualToken := token;
      }
      outcome := Refresh(actualToken, reply);
    }

    method AttachConfiguration(encoded: string)
      modifies this
      ensures headers == AddHeader(RemoveHeader(old(headers), configKey), configKey, encoded)
      ensures configKey in headers && headers[configKey] == [encoded]
      ensures tokenPair == old(tokenPair) && tokenFilePath == old(tokenFilePath)
    {
      headers := RemoveHeader(headers, configKey);
      headers := AddHeader(headers, configKey, encoded);
    }

    method ClearConfiguration()
      modifies this
      ensures headers == RemoveHeader(old(headers), configKey)
      ensures tokenPair == old(tokenPair) && tokenFilePath == old(tokenFilePath)
    {
      headers := RemoveHeader(headers, configKey);
    }

    method Refresh(token: string, reply: Option<TokenPair>) returns (outcome: RefreshOutcome)
      modifies this, store
      ensures (State(), outcome) == RefreshSpec(old(State()), authKey, token, reply)
    {
      if tokenPair.Some? && token != tokenPair.value.refreshToken {
        return Stale;
      }
      if reply.None? {
        return Threw;
      }
      var pair := reply.value;
      if tokenFilePath.Some? {
        store.files := store.files[tokenFilePath.value := pair.refreshToken];
      }
      var authorization := "Bearer " + pair.accessToken;
      headers := RemoveHeader(headers, authKey);
      headers := AddHeader(headers, authKey, authorization);
      tokenPair := Some(pair);
      outcome := Refreshed;
    }

    method SignOut()
      modifies this
      ensures State() == AfterSignOut(old(State()), authKey)
      ensures !IsAuthenticated()
    {
      headers := RemoveHeader(headers, authKey);
      tokenPair := None;
    }

    method Invoke<V>(verb: string, url: string, accept: Option<string>, contentType: Option<string>,
                     content: Option<string>, kind: ResultKind, parse: string -> Option<V>, ex: Exchange)
      returns (outcome: Outcome<V>, sent: seq<Sent>, disposed: seq<Response>)
      modifies this, store
      ensures Invocation(State(), outcome, sent, disposed)
              == InvokeSpec(old(State()), authKey, BuildRequest(verb, url, content, contentType, accept), kind, parse, ex)
    {
      var request := BuildRequest(verb, url, content, contentType, accept);
      sent := [Sent(request, headers)];
      disposed := [];
      var response := ex.first;
      if !IsSuccess(response.status) {
        if response.status == 401 && tokenPair.Some? {
          var signOut := true;
          if response.challenge.Some? && Contains(response.challenge.value, ExpiryMarker) {
            var refreshed := Refresh(tokenPair.value.refreshToken, ex.refreshReply);
            if refreshed != Threw {
              var newRequest := BuildRequest(verb, url, content, contentType, accept);
              sent := sent + [Sent(newRequest, headers)];
              if ex.resend.Some? {
                disposed := disposed + [response];
                response := ex.resend.value;
                signOut := false;
              }
            }
          }
          if signOut {
            SignOut();
          }
        }
        if !IsSuccess(response.status) {
          // thrown before the try/finally: this response is not released
          return Failed(HttpError(response)), sent, disposed;
        }
      }
      match kind {
        case AsObject =>
          outcome := NoContent;
          disposed := disposed + [response];
        case AsResponse =>
          outcome := Raw(response);
        case AsValue =>
          var parsed := parse(response.body);
          if parsed.None? {
            outcome := Failed(ApiError("N01", None));
          } else {
            outcome := Value(parsed.value);
          }
          disposed := disposed + [response];
      }
    }
  }
}

/**
  The life cycle of one browser session under the authorization code flow: login, callback, ordinary requests
  with transparent refresh, logout, and the redirect of browsers that are not logged in. The provider's
  answers, signature checks and the clock are inputs of each step; session writes are taken to succeed.
*/
module OidcSession {
  import opened Core

  const U64_SIZE: nat := 0x1_0000_0000_0000_0000

  type u64 = n: nat | n < 0x1_0000_0000_0000_0000

  const DEFAULT_TOKEN_LIFETIME: u64 := 300
  const REFRESH_MARGIN: nat := 30

  datatype SessionData = SessionData(
    pkceVerifier: Option<string>,
    csrfState: Option<string>,
    nonce: Option<string>,
    accessToken: Option<string>,
    refreshToken: Option<string>,
    idToken: Option<string>,
    tokenExpiry: Option<u64>,
    returnUrl: Option<string>)

  const EMPTY_SESSION := SessionData(None, None, None, None, None, None, None, None)

  datatype TokenResponse = TokenResponse(
    access: string, refresh: Option<string>, idToken: Option<string>, expiresIn: Option<u64>)

  datatype SignatureCheck = Valid | Invalid | Unverifiable

  /** `validates(idToken, nonce, now)` is the verdict of the ID token verifier at that instant. */
  datatype Env = Env(validates: (string, string, nat) -> bool, postLoginRedirect: string, skipPaths: seq<string>)

  datatype CallbackError =
    | MissingState
    | StateMismatch
    | MissingVerifier
    | MissingNonce
    | ExchangeFailed
    | NoIdToken
    | InvalidIdToken

  datatype Outcome =
    | SentToProvider
    | CallbackRejected(error: CallbackError)
    | LoggedIn(redirect: string)
    | LoggedOut(idTokenHint: Option<string>)
    | Anonymous
    | Identified(idToken: string, accessToken: Option<string>)
    | Passed
    | SentToLogin

  // ----- The handlers, by value -----

  predicate IsSafeLocalPath(path: string) {
    "/" <= path && !("//" <= path) && !("/\\" <= path)
  }

  /** `/` alone, or `/` followed by something that is neither a slash nor a backslash: a path on this host. */
  predicate NamesThisHost(url: string) {
    url != "" && url[0] == '/' && (|url| == 1 || (url[1] != '/' && url[1] != '\\'))
  }

  lemma SafePathShape(path: string)
    ensures IsSafeLocalPath(path) <==> NamesThisHost(path)
  {
    if |path| >= 2 {
      assert "//" <= path <==> path[..2] == "//";
      assert path[..2] == [path[0], path[1]];
    }
  }

  function ExpiryOf(r: TokenResponse, now: u64): u64 {
    (now + (if r.expiresIn.Some? then r.expiresIn.value else DEFAULT_TOKEN_LIFETIME)) % U64_SIZE
  }

  function Or<T>(a: Option<T>, b: Option<T>): Option<T> {
    if a.Some? then a else b
  }

  /** What a token response leaves in the session; a token it does not carry is kept. */
  function Store(s: SessionData, r: TokenResponse, now: u64): SessionData {
    s.(accessToken := Some(r.access),
       refreshToken := Or(r.refresh, s.refreshToken),
       idToken := Or(r.idToken, s.idToken),
       tokenExpiry := Some(ExpiryOf(r, now)))
  }

  function HandleLogin(s: SessionData, pkce: string, csrf: string, nonce: string): SessionData {
    s.(pkceVerifier := Some(pkce), csrfState := Some(csrf), nonce := Some(nonce))
  }

  function HandleCallback(env: Env, s: SessionData, state: string, response: Option<TokenResponse>, now: u64)
    : (SessionData, Outcome)
  {
    if s.csrfState.None? then (s, CallbackRejected(MissingState))
    else if state != s.csrfState.value then (s, CallbackRejected(StateMismatch))
    else if s.pkceVerifier.None? then (s, CallbackRejected(MissingVerifier))
    else if s.nonce.None? then (s, CallbackRejected(MissingNonce))
    else if response.None? then (s, CallbackRejected(ExchangeFailed))
    else if response.value.idToken.None? then (s, CallbackRejected(NoIdToken))
    else if !env.validates(response.value.idToken.value, s.nonce.value, now) then (s, CallbackRejected(InvalidIdToken))
    else
      (Store(s, response.value, now).(pkceVerifier := None, csrfState := None, nonce := None, returnUrl := None),
       LoggedIn(if s.returnUrl.Some? && IsSafeLocalPath(s.returnUrl.value) then s.returnUrl.value
                else env.postLoginRedirect))
  }

  /** Within the safety margin of its expiry, the margin saturating at time zero. */
  predicate IsExpired(expiry: u64, now: u64) {
    now >= (if expiry < REFRESH_MARGIN then 0 else expiry - REFRESH_MARGIN)
  }

  predicate NeedsRefresh(s: SessionData, now: u64) {
    s.tokenExpiry.Some? && IsExpired(s.tokenExpiry.value, now)
  }

  function HandleRequest(s: SessionData, bearer: bool, client: bool, now: u64, refreshed: Option<TokenResponse>,
                         refreshedAt: u64, signature: SignatureCheck, parses: bool): (SessionData, Outcome)
  {
    if bearer || s.accessToken.None? then (s, Anonymous)
    else if NeedsRefresh(s, now) && !(client && s.refreshToken.Some? && refreshed.Some?) then (EMPTY_SESSION, Anonymous)
    else
      var t := if NeedsRefresh(s, now) then Store(s, refreshed.value, refreshedAt) else s;
      if t.idToken.None? then (t, Anonymous)
      else if client && signature == Invalid then (EMPTY_SESSION, Anonymous)
      else (t, if parses then Identified(t.idToken.value, t.accessToken) else Anonymous)
  }

  /** What the browser redirect looks at in a request. */
  datatype Visitor = Visitor(
    authenticated: bool, path: string, hasAuthorization: bool, acceptsHtml: bool, pathAndQuery: Option<string>)

  predicate PassesThrough(env: Env, v: Visitor) {
    v.authenticated || (exists i :: 0 <= i < |env.skipPaths| && env.skipPaths[i] <= v.path)
    || v.hasAuthorization || !v.acceptsHtml
  }

  function Destination(v: Visitor): string {
    if v.pathAndQuery.Some? && IsSafeLocalPath(v.pathAndQuery.value) then v.pathAndQuery.value else "/"
  }

  /** A browser that is not authenticated is sent to log in, and where it was going is remembered. */
  function HandleVisit(env: Env, s: SessionData, v: Visitor): (SessionData, Outcome) {
    if PassesThrough(env, v) then (s, Passed)
    else
      (s.(returnUrl := Some(Destination(v))), SentToLogin)
  }

  // ----- The handlers on a shared session -----

  class Session {
    var pkceVerifier: Option<string>
    var csrfState: Option<string>
    var nonce: Option<string>
    var accessToken: Option<string>
    var refreshToken: Option<string>
    var idToken: Option<string>
    var tokenExpiry: Option<u64>
    var returnUrl: Option<string>

    function View(): SessionData
      reads this
    {
      SessionData(pkceVerifier, csrfState, nonce, accessToken, refreshToken, idToken, tokenExpiry, returnUrl)
    }

    constructor ()
      ensures View() == EMPTY_SESSION
    {
      pkceVerifier, csrfState, nonce, accessToken := None, None, None, None;
      refreshToken, idToken, tokenExpiry, returnUrl := None, None, None, None;
    }

    method Flush()
      modifies this
      ensures View() == EMPTY_SESSION
    {
      pkceVerifier, csrfState, nonce, accessToken := None, None, None, None;
      refreshToken, idToken, tokenExpiry, returnUrl := None, None, None, None;
    }

    method StoreTokens(r: TokenResponse, now: u64)
      modifies this
      ensures View() == Store(old(View()), r, now)
    {
      accessToken := Some(r.access);
      if r.refresh.Some? {
        refreshToken := r.refresh;
      }
      if r.idToken.Some? {
        idToken := r.idToken;
      }
      tokenExpiry := Some(ExpiryOf(r, now));
    }

    method Login(pkce: string, csrf: string, newNonce: string)
      modifies this
      ensures View() == HandleLogin(old(View()), pkce, csrf, newNonce)
    {
      pkceVerifier := Some(pkce);
      csrfState := Some(csrf);
      nonce := Some(newNonce);
    }

    method Callback(env: Env, state: string, response: Option<TokenResponse>, now: u64) returns (o: Outcome)
      modifies this
      ensures (View(), o) == HandleCallback(env, old(View()), state, response, now)
      ensures o == CallbackRejected(MissingVerifier) <==> old(csrfState) == Some(state) && old(pkceVerifier) == None
      ensures o == CallbackRejected(MissingNonce)
         <==> old(csrfState) == Some(state) && old(pkceVerifier) != None && old(nonce) == None
      ensures o.LoggedIn? ==>
                o.redirect == if old(returnUrl).Some? && NamesThisHost(old(returnUrl).value) then old(returnUrl).value
                              else env.postLoginRedirect
    {
      if csrfState.None? {
        return CallbackRejected(MissingState);
      }
      if state != csrfState.value {
        return CallbackRejected(StateMismatch);
      }
      if pkceVerifier.None? {
        return CallbackRejected(MissingVerifier);
      }
      if nonce.None? {
        return CallbackRejected(MissingNonce);
      }
      if response.None? {
        return CallbackRejected(ExchangeFailed);
      }
      if response.value.idToken.None? {
        return CallbackRejected(NoIdToken);
      }
      if !env.validates(response.value.idToken.value, nonce.value, now) {
        return CallbackRejected(InvalidIdToken);
      }
      StoreTokens(response.value, now);
      pkceVerifier, csrfState, nonce := None, None, None;
      var target := returnUrl;
      returnUrl := None;
      if target.Some? {
        SafePathShape(target.value);
      }
      if target.Some? && IsSafeLocalPath(target.value) {
        return LoggedIn(target.value);
      }
      return LoggedIn(env.postLoginRedirect);
    }

    method Logout() returns (o: Outcome)
      modifies this
      ensures View() == EMPTY_SESSION && o == LoggedOut(old(View()).idToken)
    {
      o := LoggedOut(idToken);
      Flush();
    }

    /** The last clause speaks of any session a store may hand back: tokens without an expiry count as alive. */
    method Identify(bearer: bool, client: bool, now: u64, refreshed: Option<TokenResponse>, refreshedAt: u64,
                    signature: SignatureCheck, parses: bool) returns (o: Outcome)
      modifies this
      ensures (View(), o) == HandleRequest(old(View()), bearer, client, now, refreshed, refreshedAt, signature, parses)
      ensures var s := old(View());
              var alive := s.tokenExpiry == None || now + 30 < s.tokenExpiry.value;
              var renewed := !alive && client && refreshed.Some? && s.refreshToken.Some?;
              var forged := client && signature == Invalid;
              var token := if renewed && refreshed.value.idToken.Some? then refreshed.value.idToken else s.idToken;
              && (o.Identified? <==>
                   !bearer && s.accessToken.Some? && (alive || renewed) && !forged && token.Some? && parses)
              && (s.accessToken.Some? && !bearer ==>
                   (View() == EMPTY_SESSION <==> (!alive && !renewed) || (forged && token.Some?)))
    {
      if bearer || accessToken.None? {
        return Anonymous;
      }
      if tokenExpiry.Some? && IsExpired(tokenExpiry.value, now) {
        if client && refreshToken.Some? && refreshed.Some? {
          StoreTokens(refreshed.value, refreshedAt);
        } else {
          Flush();
          return Anonymous;
        }
      }
      if idToken.None? {
        return Anonymous;
      }
      if client && signature == Invalid {
        Flush();
        return Anonymous;
      }
      return if parses then Identified(idToken.value, accessToken) else Anonymous;
    }

    method Visit(env: Env, v: Visitor) returns (o: Outcome)
      modifies this
      ensures (View(), o) == HandleVisit(env, old(View()), v)
    {
      if v.authenticated {
        return Passed;
      }
      if exists i :: 0 <= i < |env.skipPaths| && env.skipPaths[i] <= v.path {
        return Passed;
      }
      if v.hasAuthorization || !v.acceptsHtml {
        return Passed;
      }
      returnUrl := Some(Destination(v));
      return SentToLogin;
    }
  }

  // ----- Runs of one session -----

  datatype Step =
    | Login(pkce: string, csrf: string, nonce: string)
    | Callback(state: string, response: Option<TokenResponse>, now: u64)
    | Request(bearer: bool, client: bool, now: u64, refreshed: Option<TokenResponse>, refreshedAt: u64,
              signature: SignatureCheck, parses: bool)
    | Logout
    | Visit(visitor: Visitor)

  function Handle(env: Env, s: SessionData, step: Step): (SessionData, Outcome) {
    match step
    case Login(pkce, csrf, nonce) => (HandleLogin(s, pkce, csrf, nonce), SentToProvider)
    case Callback(state, response, now) => HandleCallback(env, s, state, response, now)
    case Request(bearer, client, now, refreshed, refreshedAt, signature, parses) =>
      HandleRequest(s, bearer, client, now, refreshed, refreshedAt, signature, parses)
    case Logout => (EMPTY_SESSION, LoggedOut(s.idToken))
    case Visit(v) => HandleVisit(env, s, v)
  }

  function After(env: Env, run: seq<Step>): SessionData {
    if run == [] then EMPTY_SESSION else Handle(env, After(env, Front(run)), Last(run)).0
  }

  /** What the last step of a run ended in. */
  function OutcomeOf(env: Env, run: seq<Step>): Outcome
    requires run != []
  {
    Handle(env, After(env, Front(run)), Last(run)).1
  }

  // ----- What happened in a run, read off its steps and outcomes -----

  predicate LogsIn(env: Env, run: seq<Step>) {
    run != [] && OutcomeOf(env, run).LoggedIn?
  }

  /** A token response accepted at `at`: by a callback, or by a refresh. */
  datatype Grant = Grant(atLogin: bool, tokens: TokenResponse, at: u64)

  /** When the tokens end: after the life the response gives them, or five minutes if it gives none. */
  function Deadline(g: Grant): u64 {
    (g.at + (if g.tokens.expiresIn.Some? then g.tokens.expiresIn.value else 300)) % 0x1_0000_0000_0000_0000
  }

  predicate Stale(g: Grant, now: u64) {
    now + 30 >= Deadline(g)
  }

  /** The last step threw the session away: a logout, or a request that found it beyond repair. */
  predicate Flushes(env: Env, run: seq<Step>)
    decreases |run|, 0
  {
    run != [] &&
    match Last(run)
    case Logout => true
    case Request(bearer, client, now, refreshed, _, signature, _) =>
      var grants := Grants(env, Front(run));
      && !bearer && grants != []
      && ((client && signature == Invalid)
          || (Stale(Last(grants), now) && !(client && refreshed.Some? && LatestRefreshToken(grants).Some?)))
    case _ => false
  }

  /** The last step is a request for which the provider refreshed stale tokens. */
  predicate Refreshes(env: Env, run: seq<Step>)
    decreases |run|, 0
  {
    run != [] &&
    match Last(run)
    case Request(bearer, client, now, refreshed, _, _, _) =>
      var grants := Grants(env, Front(run));
      && !bearer && client && refreshed.Some?
      && grants != [] && LatestRefreshToken(grants).Some? && Stale(Last(grants), now)
    case _ => false
  }

  /** The token responses accepted since the session was last thrown away. */
  function Grants(env: Env, run: seq<Step>): seq<Grant>
    decreases |run|, 1
  {
    if run == [] || Flushes(env, run) then []
    else
      Grants(env, Front(run))
      + (if LogsIn(env, run) then [Grant(true, Last(run).response.value, Last(run).now)]
         else if Refreshes(env, run) then [Grant(false, Last(run).refreshed.value, Last(run).refreshedAt)]
         else [])
  }

  function LatestIdToken(grants: seq<Grant>): Option<string> {
    if grants == [] then None else Or(Last(grants).tokens.idToken, LatestIdToken(Front(grants)))
  }

  function LatestRefreshToken(grants: seq<Grant>): Option<string> {
    if grants == [] then None else Or(Last(grants).tokens.refresh, LatestRefreshToken(Front(grants)))
  }

  /** The grants since the last flush start with a login, which carried an ID token. */
  ghost predicate StartsAtLogin(grants: seq<Grant>) {
    grants != [] ==> grants[0].atLogin && LatestIdToken(grants).Some?
  }

  /** The session's tokens are the grants since the last flush, merged: the newest of each kind. */
  ghost predicate HoldsGrants(s: SessionData, grants: seq<Grant>) {
    && StartsAtLogin(grants)
    && s.accessToken == (if grants == [] then None else Some(Last(grants).tokens.access))
    && s.tokenExpiry == (if grants == [] then None else Some(Deadline(Last(grants))))
    && s.idToken == LatestIdToken(grants)
    && s.refreshToken == LatestRefreshToken(grants)
  }

  lemma GrantStored(s: SessionData, grants: seq<Grant>, atLogin: bool, r: TokenResponse, now: u64)
    requires HoldsGrants(s, grants)
    requires (atLogin && r.idToken.Some?) || grants != []
    ensures HoldsGrants(Store(s, r, now), grants + [Grant(atLogin, r, now)])
  {
    assert Front(grants + [Grant(atLogin, r, now)]) == grants;
  }

  lemma {:induction false} SessionHoldsGrants(env: Env, run: seq<Step>)
    ensures HoldsGrants(After(env, run), Grants(env, run))
  {
    if run != [] {
      var s, grants := After(env, Front(run)), Grants(env, Front(run));
      SessionHoldsGrants(env, Front(run));
      if LogsIn(env, run) {
        GrantStored(s, grants, true, Last(run).response.value, Last(run).now);
      } else if Refreshes(env, run) {
        GrantStored(s, grants, false, Last(run).refreshed.value, Last(run).refreshedAt);
      } else if !Flushes(env, run) {
        assert Grants(env, run) == grants;
      }
    }
  }

  /**
    Session provenance: an identity is only ever built from the newest ID token granted since the session was
    last thrown away, a series of grants that begins with a successful callback; it carries the newest access
    token; its signature was not found invalid if a client could check it; and either this very request
    refreshed the tokens or the newest grant has more than half a minute of its life left.
  */
  lemma {:induction false} SessionProvenance(env: Env, run: seq<Step>)
    requires run != [] && OutcomeOf(env, run).Identified?
    ensures var grants, r := Grants(env, run), Last(run);
            && grants != [] && grants[0].atLogin
            && Some(OutcomeOf(env, run).idToken) == LatestIdToken(grants)
            && OutcomeOf(env, run).accessToken == Some(Last(grants).tokens.access)
            && !r.bearer && (r.client ==> r.signature != Invalid)
            && (|| (r.refreshed.Some? && Last(grants) == Grant(false, r.refreshed.value, r.refreshedAt))
                || r.now + 30 < (Last(grants).at + match Last(grants).tokens.expiresIn
                                                   case Some(life) => life
                                                   case None => 300) % 0x1_0000_0000_0000_0000)
  {
    SessionHoldsGrants(env, Front(run));
    SessionHoldsGrants(env, run);
  }
  /**
    Exactly when a request is identified from the session: some grant stands, it has more than half a minute of
    its life left or a refresh token buys another one, no signature check fails, and the ID token parses.
  */
  lemma {:induction false} IdentifiedIff(env: Env, run: seq<Step>)
    requires run != [] && Last(run).Request?
    ensures var before, r := Grants(env, Front(run)), Last(run);
            OutcomeOf(env, run).Identified? <==>
              && !r.bearer && before != [] && r.parses && !(r.client && r.signature == Invalid)
              && (|| r.now + 30 < (Last(before).at + match Last(before).tokens.expiresIn
                                                     case Some(life) => life
                                                     case None => 300) % 0x1_0000_0000_0000_0000
                  || (r.client && r.refreshed.Some? && LatestRefreshToken(before).Some?))
    ensures OutcomeOf(env, run).Identified? || OutcomeOf(env, run) == Anonymous
  {
    SessionHoldsGrants(env, Front(run));
    SessionHoldsGrants(env, run);
  }

  /**
    What a request does to the session, told by the grants before it. A forged ID token, or stale tokens without
    a refresh, empty it; stale tokens with a refresh are replaced, those of the answer first; else it is kept.
  */
  lemma {:induction false} RequestLeavesSession(env: Env, run: seq<Step>)
    requires run != [] && Last(run).Request?
    ensures var s, t, before, r := After(env, Front(run)), After(env, run), Grants(env, Front(run)), Last(run);
            var stale := before != [] && r.now + 30 >= (Last(before).at + match Last(before).tokens.expiresIn
                                                                          case Some(life) => life
                                                                          case None => 300) % 0x1_0000_0000_0000_0000;
            var refresh := r.client && r.refreshed.Some? && LatestRefreshToken(before).Some?;
            if r.bearer || before == [] then t == s && Grants(env, run) == before
            else if (stale && !refresh) || (r.client && r.signature == Invalid) then
              t == SessionData(None, None, None, None, None, None, None, None) && Grants(env, run) == []
            else if !stale then t == s && Grants(env, run) == before
            else
              && Grants(env, run) == before + [Grant(false, r.refreshed.value, r.refreshedAt)]
              && t.(accessToken := None, refreshToken := None, idToken := None, tokenExpiry := None)
                 == s.(accessToken := None, refreshToken := None, idToken := None, tokenExpiry := None)
              && t.accessToken == Some(r.refreshed.value.access)
              && t.refreshToken
                 == (if r.refreshed.value.refresh.Some? then r.refreshed.value.refresh else s.refreshToken)
              && t.idToken == (if r.refreshed.value.idToken.Some? then r.refreshed.value.idToken else s.idToken)
  {
    SessionHoldsGrants(env, Front(run));
  }

  /** A stored access token comes with a stored ID token and expiry, in every run. */
  lemma {:induction false} AccessTokenImpliesIdToken(env: Env, run: seq<Step>)
    ensures After(env, run).accessToken.Some? ==> After(env, run).idToken.Some? && After(env, run).tokenExpiry.Some?
  {
    SessionHoldsGrants(env, run);
  }

  // ----- Login flows -----

  /** The login whose flow is open: none since it was started has completed, and the session was not thrown away. */
  function PendingLogin(env: Env, run: seq<Step>): (login: Option<Step>)
    ensures login.Some? ==> login.value.Login?
  {
    if run == [] || Flushes(env, run) || LogsIn(env, run) then None
    else if Last(run).Login? then Some(Last(run))
    else PendingLogin(env, Front(run))
  }

  /** A flush leaves nothing; a step that neither flushes nor logs in touches only what it is there to change. */
  lemma StepFrame(env: Env, run: seq<Step>)
    requires run != []
    ensures Flushes(env, run) ==> After(env, run) == EMPTY_SESSION
    ensures var s, t := After(env, Front(run)), After(env, run);
            && (!Flushes(env, run) && !LogsIn(env, run) && !Last(run).Login? ==>
                 t.csrfState == s.csrfState && t.pkceVerifier == s.pkceVerifier && t.nonce == s.nonce)
            && (!Flushes(env, run) && !LogsIn(env, run) && !OutcomeOf(env, run).SentToLogin? ==>
                 t.returnUrl == s.returnUrl)
  {
    SessionHoldsGrants(env, Front(run));
  }

  lemma {:induction false} FlowStateIsPendingLogin(env: Env, run: seq<Step>)
    ensures var s := After(env, run);
            match PendingLogin(env, run) {
              case None => s.csrfState.None? && s.pkceVerifier.None? && s.nonce.None?
              case Some(l) =>
                l.Login? && s.csrfState == Some(l.csrf) && s.pkceVerifier == Some(l.pkce) && s.nonce == Some(l.nonce)
            }
  {
    if run != [] {
      FlowStateIsPendingLogin(env, Front(run));
      StepFrame(env, run);
    }
  }

  /**
    How a callback ends, told by the login that is pending: it succeeds exactly when it answers that login with
    the same state and an ID token that validates against its nonce. A rejected one leaves the session alone.
  */
  lemma {:induction false} CallbackAnswersPendingLogin(env: Env, run: seq<Step>)
    requires run != [] && Last(run).Callback?
    ensures var pending, r, o := PendingLogin(env, Front(run)), Last(run), OutcomeOf(env, run);
            if pending.None? then o == CallbackRejected(MissingState)
            else if r.state != pending.value.csrf then o == CallbackRejected(StateMismatch)
            else if r.response.None? then o == CallbackRejected(ExchangeFailed)
            else if r.response.value.idToken.None? then o == CallbackRejected(NoIdToken)
            else if !env.validates(r.response.value.idToken.value, pending.value.nonce, r.now) then
              o == CallbackRejected(InvalidIdToken)
            else LogsIn(env, run)
    ensures !LogsIn(env, run) ==> After(env, run) == After(env, Front(run))
    ensures LogsIn(env, run) ==>
              Grants(env, run) == Grants(env, Front(run)) + [Grant(true, Last(run).response.value, Last(run).now)]
  {
    FlowStateIsPendingLogin(env, Front(run));
  }

  /** A login sends the browser to the provider, opens its flow in place of any other, and touches nothing else. */
  lemma {:induction false} LoginOnlyOpensFlow(env: Env, run: seq<Step>)
    requires run != [] && Last(run).Login?
    ensures OutcomeOf(env, run) == SentToProvider
    ensures PendingLogin(env, run) == Some(Last(run))
    ensures Grants(env, run) == Grants(env, Front(run)) && PendingReturn(env, run) == PendingReturn(env, Front(run))
    ensures After(env, run).(pkceVerifier := None, csrfState := None, nonce := None)
         == After(env, Front(run)).(pkceVerifier := None, csrfState := None, nonce := None)
  {
  }

  /** A logout hands on the newest ID token granted and leaves nothing behind. */
  lemma {:induction false} LogoutHintsNewestIdToken(env: Env, run: seq<Step>)
    requires run != [] && Last(run).Logout?
    ensures OutcomeOf(env, run) == LoggedOut(LatestIdToken(Grants(env, Front(run))))
    ensures Grants(env, run) == [] && After(env, run) == SessionData(None, None, None, None, None, None, None, None)
  {
    SessionHoldsGrants(env, Front(run));
  }

  /** Flow state is single-use: after a successful callback no other succeeds until a new login. */
  lemma {:induction false} FlowStateIsSingleUse(env: Env, run: seq<Step>, more: seq<Step>)
    requires LogsIn(env, run)
    requires forall i :: 0 <= i < |more| ==> !more[i].Login?
    ensures PendingLogin(env, run + more) == None
    ensures more != [] ==> !LogsIn(env, run + more)
  {
    if more == [] {
      assert run + more == run;
    } else {
      FlowStateIsSingleUse(env, run, Front(more));
      assert Front(run + more) == run + Front(more);
      FlowStateIsPendingLogin(env, run + Front(more));
    }
  }

  // ----- Return targets -----

  /** A browser that nobody vouches for asks for a page, on a path that is not skipped. */
  predicate AsksForPage(env: Env, step: Step) {
    && step.Visit?
    && !step.visitor.authenticated && !step.visitor.hasAuthorization && step.visitor.acceptsHtml
    && forall skipped :: skipped in env.skipPaths ==> !(skipped <= step.visitor.path)
  }

  /** Where the browser redirect last noted that the user was going, since the last flush or completed login. */
  function PendingReturn(env: Env, run: seq<Step>): Option<string> {
    if run == [] || Flushes(env, run) || LogsIn(env, run) then None
    else if AsksForPage(env, Last(run)) then
      match Last(run).visitor.pathAndQuery
      case Some(url) => Some(if NamesThisHost(url) then url else "/")
      case None => Some("/")
    else PendingReturn(env, Front(run))
  }

  /** A visitor is sent to log in exactly when asking for such a page, and passed on otherwise. */
  lemma VisitsSentToLogin(env: Env, run: seq<Step>)
    requires run != [] && Last(run).Visit?
    ensures OutcomeOf(env, run) == if AsksForPage(env, Last(run)) then SentToLogin else Passed
    ensures !AsksForPage(env, Last(run)) ==> After(env, run) == After(env, Front(run))
  {
    var skips := env.skipPaths;
    assert forall i :: 0 <= i < |skips| ==> skips[i] in skips;
    assert forall skipped :: skipped in skips ==> exists i :: 0 <= i < |skips| && skips[i] == skipped;
  }

  lemma {:induction false} ReturnUrlIsPending(env: Env, run: seq<Step>)
    ensures After(env, run).returnUrl == PendingReturn(env, run)
    ensures PendingReturn(env, run).Some? ==> NamesThisHost(PendingReturn(env, run).value)
  {
    if run != [] {
      ReturnUrlIsPending(env, Front(run));
      StepFrame(env, run);
      if Last(run).Visit? {
        VisitsSentToLogin(env, run);
        if Last(run).visitor.pathAndQuery.Some? {
          SafePathShape(Last(run).visitor.pathAndQuery.value);
        }
      }
    }
  }

  /**
    A completed login redirects to the place last noted since the last flush or completed login, and to the
    configured page when there is none. What was noted names no other host: it does not start with a second
    slash or a backslash.
  */
  lemma {:induction false} LoginReturnsToNotedPlace(env: Env, run: seq<Step>)
    requires LogsIn(env, run)
    ensures OutcomeOf(env, run) == LoggedIn(match PendingReturn(env, Front(run)) {
                                              case Some(url) => url
                                              case None => env.postLoginRedirect })
    ensures match PendingReturn(env, Front(run))
            case Some(url) => url != "" && url[0] == '/' && (|url| == 1 || (url[1] != '/' && url[1] != '\\'))
            case None => true
  {
    ReturnUrlIsPending(env, Front(run));
    if PendingReturn(env, Front(run)).Some? {
      SafePathShape(PendingReturn(env, Front(run)).value);
    }
  }
}

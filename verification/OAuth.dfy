/** `src/oauth.rs`: the handlers of the authorization-code flow, run one at a
    time over the store. What the handlers decide is given as functions, which
    `AuthFlow` uses for handlers that interleave. */
module OAuth {
  import opened Wrappers
  import opened Whitespace
  import opened StoreLog
  import opened Store

  const CODE_TTL := 600 * NANOS
  const TOKEN_TTL := 60 * 60 * 24 * 30 * NANOS

  /** The consent secret, and the PKCE transform of section 4.2 of RFC 7636: the
      unpadded base64url text of the SHA-256 digest of a verifier. */
  datatype Config = Config(secret: string, s256: string -> string)

  /** A digest of 32 bytes encodes to 43 characters. */
  ghost predicate DigestsEncode(cfg: Config) {
    forall verifier :: |cfg.s256(verifier)| == 43
  }

  datatype AuthorizeParams = AuthorizeParams(
    clientId: string, redirectUri: string, state: string, codeChallenge: string, codeChallengeMethod: string)

  datatype ConsentForm = ConsentForm(
    clientId: string, redirectUri: string, state: string, codeChallenge: string, token: string)

  datatype TokenRequest = TokenRequest(grantType: string, code: string, redirectUri: string, codeVerifier: string)

  datatype OAuthError =
    | InvalidRedirectUri
    | UnknownClient
    | UnregisteredRedirect
    | PkceRequired
    | WrongToken
    | UnsupportedGrantType
    | UnknownCode
    | CodeExpired
    | RedirectMismatch
    | PkceMismatch
    | ServerError

  predicate SecretMatches(cfg: Config, form: ConsentForm) {
    Trim(form.token) == cfg.secret
  }

  /** What a consent given at `now` puts in the store. */
  function PendingFor(form: ConsentForm, now: int): PendingCode {
    PendingCode(form.clientId, form.redirectUri, form.codeChallenge, now + CODE_TTL)
  }

  /** The three checks of `token` on a code it has taken, in order. */
  function ExchangeError(cfg: Config, pending: PendingCode, request: TokenRequest, now: int): Option<OAuthError> {
    if pending.expiresAt < now then Some(CodeExpired)
    else if pending.redirectUri != request.redirectUri then Some(RedirectMismatch)
    else if cfg.s256(request.codeVerifier) != pending.codeChallenge then Some(PkceMismatch)
    else None
  }

  predicate Consents(cfg: Config, tables: Tables, form: ConsentForm) {
    (form.clientId, form.redirectUri) in tables.clients && SecretMatches(cfg, form)
  }

  /** What `authorize_submit` does to the store when nothing runs in between. */
  function SubmitEvents(cfg: Config, tables: Tables, form: ConsentForm, now: int, code: string): seq<Event> {
    if Consents(cfg, tables, form) then [CodeStored(code, PendingFor(form, now))] else []
  }

  function TokenRefusal(cfg: Config, tables: Tables, request: TokenRequest, now: int): Option<OAuthError> {
    if request.grantType != "authorization_code" then Some(UnsupportedGrantType)
    else if request.code !in tables.codes then Some(UnknownCode)
    else ExchangeError(cfg, PendingOf(tables.codes[request.code]), request, now)
  }

  /** What `token` does to the store when nothing runs in between: the code is gone
      whatever the checks say. */
  function TokenEvents(
      cfg: Config, tables: Tables, request: TokenRequest,
      checkedAt: int, storedAt: int, accessToken: string): seq<Event>
  {
    if request.grantType != "authorization_code" then []
    else if TokenRefusal(cfg, tables, request, checkedAt).Some? then [CodeTaken(request.code)]
    else [CodeTaken(request.code), TokenStored(accessToken, storedAt + TOKEN_TTL)]
  }

  function Location(form: ConsentForm, code: string): string {
    form.redirectUri + (if '?' in form.redirectUri then "&" else "?") + "code=" + code
    + (if form.state == "" then "" else "&state=" + form.state)
  }

  // ---- What the checks mean -------------------------------------------------

  /** The form's token is the secret with nothing but white space around it. A secret
      that itself has white space at an end matches no form. */
  ghost predicate GivesSecret(cfg: Config, form: ConsentForm) {
    Trimmed(cfg.secret) && Padded(form.token, cfg.secret)
  }

  lemma SecretIff(cfg: Config, form: ConsentForm)
    ensures SecretMatches(cfg, form) <==> GivesSecret(cfg, form)
  {
    TrimIff(form.token, cfg.secret);
  }

  /** What a consent records: good for ten minutes. */
  function Recorded(form: ConsentForm, code: string, now: int): Event {
    CodeStored(code, PendingCode(form.clientId, form.redirectUri, form.codeChallenge, now + 600 * 1_000_000_000))
  }

  /** The address the browser is sent to: the redirect URI, extended with `&` exactly
      if it has a query already, then the code up to the next `&`, then the state if
      there is one. */
  ghost predicate CarriesCode(location: string, form: ConsentForm, code: string) {
    && form.redirectUri < location
    && (var separator, query := location[|form.redirectUri|], location[|form.redirectUri| + 1..];
        && (separator == '&' <==> '?' in form.redirectUri) && (separator == '?' <==> '?' !in form.redirectUri)
        && (form.state == "" ==> query == "code=" + code)
        && (form.state != "" ==> query == "code=" + code + "&" + "state=" + form.state))
  }

  lemma LocationCarries(form: ConsentForm, code: string)
    ensures CarriesCode(Location(form, code), form, code)
  {
    var separator := if '?' in form.redirectUri then "&" else "?";
    var query := "code=" + code + (if form.state == "" then "" else "&state=" + form.state);
    assert Location(form, code) == form.redirectUri + separator + query;
    assert Location(form, code)[|form.redirectUri| + 1..] == query;
    if form.state != "" {
      assert query == "code=" + code + "&" + "state=" + form.state;
    } else {
      assert query == "code=" + code;
    }
  }

  /** The expiry of a pending code as the exchange sees it: cut to a whole second. */
  predicate ExpiredAt(p: PendingCode, now: int) {
    (if p.expiresAt < 0 then 0 else p.expiresAt / 1_000_000_000 * 1_000_000_000) < now
  }

  /** Each answer to an exchange of a live code has one cause, taken from the consent
      that recorded it and from the request, in this order. */
  ghost predicate Settles(cfg: Config, p: PendingCode, request: TokenRequest, now: int, refused: Option<OAuthError>) {
    var sameUri := request.redirectUri == p.redirectUri;
    var verified := cfg.s256(request.codeVerifier) == p.codeChallenge;
    && (refused == Some(CodeExpired) <==> ExpiredAt(p, now))
    && (refused == Some(RedirectMismatch) <==> !ExpiredAt(p, now) && !sameUri)
    && (refused == Some(PkceMismatch) <==> !ExpiredAt(p, now) && sameUri && !verified)
    && (refused.None? <==> !ExpiredAt(p, now) && sameUri && verified)
  }

  /** The refusal in an answer of `token`; a token that could not be stored is none. */
  function Refused(r: Result<string, OAuthError>): Option<OAuthError> {
    if r.Ok? || r.error.ServerError? then None else Some(r.error)
  }

  /** The refusal of an exchange, from the history of the store. */
  lemma RefusalExact(cfg: Config, log: seq<Event>, request: TokenRequest, now: int)
    ensures var refused := TokenRefusal(cfg, Replay(log), request, now);
            var live := exists i: nat :: CodeLiveFrom(log, i, request.code);
            && (refused == Some(UnsupportedGrantType) <==> request.grantType != "authorization_code")
            && (refused == Some(UnknownCode) <==> request.grantType == "authorization_code" && !live)
            && (forall i: nat :: CodeLiveFrom(log, i, request.code) && request.grantType == "authorization_code" ==>
                  Settles(cfg, log[i].pending, request, now, refused))
  {
    CodeRowIff(log, request.code);
    if request.grantType == "authorization_code" && request.code in Replay(log).codes {
      forall i: nat | CodeLiveFrom(log, i, request.code)
        ensures Settles(cfg, log[i].pending, request, now, TokenRefusal(cfg, Replay(log), request, now))
      {
        LiveSettles(cfg, log[i].pending, request, now);
      }
    }
  }

  lemma LiveSettles(cfg: Config, p: PendingCode, request: TokenRequest, now: int)
    ensures Settles(cfg, p, request, now, ExchangeError(cfg, PendingOf(RowOf(p)), request, now))
  {
    EpochFloors(p.expiresAt);
  }

  /** Entry `i` recorded a consent given at `consented`, nobody has taken its code
      since, and the clock has not gone back up to `now`. */
  ghost predicate Untaken(log: seq<Event>, i: nat, code: string, consented: int, now: int) {
    && 0 <= consented && 0 <= now && Monotone(log + [TokenChecked("", now)])
    && (forall j :: 0 <= j < |log| && log[j].TokenChecked? ==> log[j].now >= 0)
    && CodeInserted(log, i, code) && NotTakenSince(log, i, code)
    && (forall k: nat :: CodeInserted(log, k, code) ==> k <= i)
    && log[i].pending.expiresAt == consented + 600 * 1_000_000_000
  }

  /** Up to ten minutes less a second after the consent the answer depends on the
      request alone, whatever has been swept meanwhile; after ten minutes the code is
      no good. */
  ghost predicate SettledInTime(
      cfg: Config, p: PendingCode, request: TokenRequest, consented: int, now: int, refused: Option<OAuthError>)
  {
    && (now - consented <= 599 * 1_000_000_000 ==> !ExpiredAt(p, now) && Settles(cfg, p, request, now, refused))
    && (now - consented > 600 * 1_000_000_000 ==> refused == Some(CodeExpired) || refused == Some(UnknownCode))
  }

  lemma ExchangeInTime(cfg: Config, log: seq<Event>, i: nat, request: TokenRequest, consented: int, now: int)
    requires request.grantType == "authorization_code" && Untaken(log, i, request.code, consented, now)
    ensures SettledInTime(
              cfg, log[i].pending, request, consented, now, TokenRefusal(cfg, Replay(log), request, now))
  {
    CodeLifetime(log, i, request.code, consented, 600 * NANOS, now);
    RefusalExact(cfg, log, request, now);
    CodeRowIff(log, request.code);
    if request.code in Replay(log).codes {
      var k: nat :| CodeLiveFrom(log, k, request.code) && Replay(log).codes[request.code] == RowOf(log[k].pending);
      EarlierInsertIsLater(log, k, i, request.code);
      EpochFloors(log[i].pending.expiresAt);
    }
  }

  /** The answer of `token`, from the history of the store, the request, and whether
      the new access token is known already. */
  ghost predicate Exchanged(
      cfg: Config, log: seq<Event>, request: TokenRequest, now: int,
      known: bool, accessToken: string, r: Result<string, OAuthError>)
  {
    var supported := request.grantType == "authorization_code";
    && (r == Err(UnsupportedGrantType) <==> !supported)
    && (r == Err(UnknownCode) <==> supported && forall i: nat :: !CodeLiveFrom(log, i, request.code))
    && (forall i: nat :: supported && CodeLiveFrom(log, i, request.code) ==>
          Settles(cfg, log[i].pending, request, now, Refused(r)))
    && (forall i: nat, consented :: supported && Untaken(log, i, request.code, consented, now) ==>
          SettledInTime(cfg, log[i].pending, request, consented, now, Refused(r)))
    && (Refused(r).None? ==> r == if known then Err(ServerError) else Ok(accessToken))
  }

  /** What an exchange with that answer leaves in the log: any exchange of the right
      type takes its code, and a token is good for thirty days. */
  function Logged(
      request: TokenRequest, storedAt: int, accessToken: string, r: Result<string, OAuthError>): seq<Event>
  {
    if request.grantType != "authorization_code" then []
    else if r == Err(ServerError) || r == Ok(accessToken) then
      [CodeTaken(request.code), TokenStored(accessToken, storedAt + 2_592_000 * 1_000_000_000)]
    else [CodeTaken(request.code)]
  }

  function ReplyTo(refused: Option<OAuthError>, known: bool, accessToken: string): Result<string, OAuthError> {
    if refused.Some? then Err(refused.value) else if known then Err(ServerError) else Ok(accessToken)
  }

  lemma ExchangedExact(
      cfg: Config, log: seq<Event>, request: TokenRequest, now: int, known: bool, accessToken: string)
    ensures var refused := TokenRefusal(cfg, Replay(log), request, now);
            && refused != Some(ServerError)
            && Exchanged(cfg, log, request, now, known, accessToken, ReplyTo(refused, known, accessToken))
  {
    var refused := TokenRefusal(cfg, Replay(log), request, now);
    assert Refused(ReplyTo(refused, known, accessToken)) == refused;
    RefusalExact(cfg, log, request, now);
    forall i: nat, consented |
      request.grantType == "authorization_code" && Untaken(log, i, request.code, consented, now)
      ensures SettledInTime(cfg, log[i].pending, request, consented, now, refused)
    {
      ExchangeInTime(cfg, log, i, request, consented, now);
    }
  }

  /** The same, told by the checks. */
  lemma LoggedExact(
      cfg: Config, tables: Tables, request: TokenRequest,
      checkedAt: int, storedAt: int, accessToken: string, known: bool)
    ensures var r := ReplyTo(TokenRefusal(cfg, tables, request, checkedAt), known, accessToken);
            Logged(request, storedAt, accessToken, r)
            == TokenEvents(cfg, tables, request, checkedAt, storedAt, accessToken)
  {
  }

  class Server {
    const cfg: Config
    const store: Store

    constructor (cfg: Config, store: Store)
      ensures this.cfg == cfg && this.store == store
    {
      this.cfg, this.store := cfg, store;
    }

    /** `register`; the client id is the fresh UUID. */
    method Register(redirectUris: seq<string>, clientId: string) returns (r: Result<string, OAuthError>)
      requires store.Valid()
      modifies store
      ensures store.Valid()
      ensures redirectUris == [] ==> r == Err(InvalidRedirectUri) && store.log == old(store.log)
      ensures redirectUris != [] ==>
                r == Ok(clientId) && store.log == old(store.log) + [ClientRegistered(clientId, redirectUris)]
    {
      if redirectUris == [] {
        return Err(InvalidRedirectUri);
      }
      store.RegisterClient(clientId, redirectUris);
      return Ok(clientId);
    }

    /** `validate_client`. */
    method ValidateClient(clientId: string, redirectUri: string) returns (error: Option<OAuthError>)
      requires store.Valid()
      ensures error.None? <==> WasRegistered(store.log, clientId, redirectUri)
      ensures error == Some(UnknownClient) <==> forall uri :: !WasRegistered(store.log, clientId, uri)
      ensures error.None? || error == Some(UnknownClient) || error == Some(UnregisteredRedirect)
    {
      var registered := store.RedirectUris(clientId);
      if registered.None? {
        return Some(UnknownClient);
      }
      if redirectUri in registered.value {
        return None;
      }
      var other :| other in registered.value;
      assert WasRegistered(store.log, clientId, other);
      return Some(UnregisteredRedirect);
    }

    /** `authorize_form`; `Ok` is the consent page for the same parameters. */
    method AuthorizeForm(params: AuthorizeParams) returns (r: Result<AuthorizeParams, OAuthError>)
      requires store.Valid()
      ensures r == Ok(params) <==>
              && WasRegistered(store.log, params.clientId, params.redirectUri)
              && params.codeChallengeMethod == "S256" && params.codeChallenge != ""
      ensures r.Ok? ==> r.value == params
    {
      var invalid := ValidateClient(params.clientId, params.redirectUri);
      if invalid.Some? {
        return Err(invalid.value);
      }
      if params.codeChallengeMethod != "S256" || params.codeChallenge == "" {
        return Err(PkceRequired);
      }
      return Ok(params);
    }

    /** `authorize_submit`, at `now`; the code is the fresh UUID. */
    method AuthorizeSubmit(form: ConsentForm, now: int, code: string) returns (r: Result<string, OAuthError>)
      requires store.Valid()
      modifies store
      ensures store.Valid()
      ensures var registered := WasRegistered(old(store.log), form.clientId, form.redirectUri);
              var consented := registered && GivesSecret(cfg, form);
              && store.log == old(store.log) + (if consented then [Recorded(form, code, now)] else [])
              && (r == Err(UnknownClient) <==> forall uri :: !WasRegistered(old(store.log), form.clientId, uri))
              && (r == Err(WrongToken) <==> registered && !GivesSecret(cfg, form))
              && (r == Err(ServerError) <==> consented && code in old(store.codes))
              && (r.Ok? <==> consented && code !in old(store.codes))
              && (r.Ok? ==> CarriesCode(r.value, form, code) && code in store.codes)
      ensures store.log == old(store.log) + SubmitEvents(cfg, old(store.Contents()), form, now, code)
    {
      ClientRowIff(store.log, form.clientId, form.redirectUri);
      SecretIff(cfg, form);
      var invalid := ValidateClient(form.clientId, form.redirectUri);
      if invalid.Some? {
        return Err(invalid.value);
      }
      if Trim(form.token) != cfg.secret {
        return Err(WrongToken);
      }
      ReplaySnoc(store.log, CodeStored(code, PendingFor(form, now)));
      var pending := PendingCode(form.clientId, form.redirectUri, form.codeChallenge, now + CODE_TTL);
      var stored := store.StoreCode(code, pending);
      if stored.Err? {
        return Err(ServerError);
      }
      var location := form.redirectUri + (if '?' in form.redirectUri then "&" else "?") + "code=" + code;
      if form.state != "" {
        location := location + "&state=" + form.state;
      }
      assert location == Location(form, code);
      LocationCarries(form, code);
      return Ok(location);
    }

    /** The first half of `token`: the code is taken, then checked. */
    method Redeem(request: TokenRequest, checkedAt: int) returns (refused: Option<OAuthError>)
      requires store.Valid()
      modifies store
      ensures store.Valid() && store.tokens == old(store.tokens)
      ensures refused == TokenRefusal(cfg, old(store.Contents()), request, checkedAt)
      ensures request.grantType != "authorization_code" ==> store.log == old(store.log)
      ensures request.grantType == "authorization_code" ==>
                store.log == old(store.log) + [CodeTaken(request.code)] && request.code !in store.codes
    {
      if request.grantType != "authorization_code" {
        return Some(UnsupportedGrantType);
      }
      ReplaySnoc(store.log, CodeTaken(request.code));
      var pending := store.TakeCode(request.code);
      if pending.None? {
        return Some(UnknownCode);
      }
      if pending.value.expiresAt < checkedAt {
        return Some(CodeExpired);
      }
      if pending.value.redirectUri != request.redirectUri {
        return Some(RedirectMismatch);
      }
      if cfg.s256(request.codeVerifier) != pending.value.codeChallenge {
        return Some(PkceMismatch);
      }
      return None;
    }

    /** `token`: the code is gone whatever the checks say; the clock is read for
        the expiry check and again for the token's own expiry. */
    method Token(request: TokenRequest, checkedAt: int, storedAt: int, accessToken: string)
      returns (r: Result<string, OAuthError>)
      requires store.Valid()
      modifies store
      ensures store.Valid()
      ensures request.grantType == "authorization_code" ==> request.code !in store.codes
      ensures store.log == old(store.log) + Logged(request, storedAt, accessToken, r)
      ensures Exchanged(cfg, old(store.log), request, checkedAt, accessToken in old(store.tokens), accessToken, r)
      ensures r.Ok? ==> accessToken in store.tokens
                        && store.tokens[accessToken] == ToEpoch(storedAt + 2_592_000 * 1_000_000_000)
    {
      ExchangedExact(cfg, store.log, request, checkedAt, accessToken in store.tokens, accessToken);
      var refused := Redeem(request, checkedAt);
      if refused.Some? {
        return Err(refused.value);
      }
      ReplaySnoc(store.log, TokenStored(accessToken, storedAt + TOKEN_TTL));
      var stored := store.StoreToken(accessToken, storedAt + TOKEN_TTL);
      if stored.Err? {
        return Err(ServerError);
      }
      return Ok(accessToken);
    }
  }
}

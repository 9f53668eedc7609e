/** The authorization-code flow with handlers that interleave: each handler is
    several separate store operations, others run in between, and a crash may
    come at any point and forget every handler, but not the store. */
module AuthFlow {
  import opened Wrappers
  import opened Whitespace
  import opened StoreLog
  import opened OAuth

  /** A consent that was recorded, and a token that was issued. `checked` is how long
      the log was when the handler checked the form, `stored` where it recorded the
      code. */
  datatype Consent = Consent(form: ConsentForm, code: string, at: int, checked: nat, stored: nat)

  datatype Issue = Issue(token: string, consent: nat, request: TokenRequest, checkedAt: int, storedAt: int)

  /** Where a handler is between two store operations. `consent` is history: the
      consent behind the row it took. */
  datatype Handler =
    | Consenting(form: ConsentForm, checked: nat)
    | CodeHeld(consent: nat, pending: PendingCode, request: TokenRequest)
    | GrantHeld(consent: nat, request: TokenRequest, checkedAt: int)
    | Answered

  /** The store is its log. `recorded` says which consent a code was last recorded
      for; code strings are not assumed to be fresh. */
  datatype World = World(
    log: seq<Event>,
    handlers: map<nat, Handler>,
    consents: seq<Consent>,
    recorded: map<string, nat>,
    issues: seq<Issue>)

  const START := World([], map[], [], map[], [])

  datatype Action =
    | Register(clientId: string, uris: seq<string>)
    | SubmitCheck(handler: nat, form: ConsentForm)
    | SubmitStore(handler: nat, code: string, now: int)
    | TokenTake(handler: nat, request: TokenRequest)
    | TokenVerify(handler: nat, now: int)
    | TokenStore(handler: nat, token: string, now: int)
    | CheckToken(token: string, now: int)
    | Session(event: Event)
    | Crash

  function Codes(w: World): map<string, CodeRow> {
    Replay(w.log).codes
  }

  function Tokens(w: World): map<string, int> {
    Replay(w.log).tokens
  }

  function Move(w: World, t: nat, h: Handler): World {
    w.(handlers := w.handlers[t := h])
  }

  function Step(cfg: Config, w: World, a: Action): World {
    match a
    case Register(clientId, uris) =>
      if uris == [] then w else w.(log := w.log + [ClientRegistered(clientId, uris)])
    case SubmitCheck(t, form) =>
      if t in w.handlers then w
      else if Consents(cfg, Replay(w.log), form) then
        Move(w, t, Consenting(form, |w.log|))
      else Move(w, t, Answered)
    case SubmitStore(t, code, now) =>
      if t in w.handlers && w.handlers[t].Consenting? then
        var form := w.handlers[t].form;
        var after := Move(w, t, Answered).(log := w.log + [CodeStored(code, PendingFor(form, now))]);
        if code in Codes(w) then after
        else
          var consent := Consent(form, code, now, w.handlers[t].checked, |w.log|);
          after.(consents := w.consents + [consent], recorded := w.recorded[code := |w.consents|])
      else w
    case TokenTake(t, request) =>
      if t in w.handlers then w
      else if request.grantType != "authorization_code" then Move(w, t, Answered)
      else
        var after := w.(log := w.log + [CodeTaken(request.code)]);
        if request.code in Codes(w) && request.code in w.recorded then
          Move(after, t, CodeHeld(w.recorded[request.code], PendingOf(Codes(w)[request.code]), request))
        else Move(after, t, Answered)
    case TokenVerify(t, now) =>
      if t in w.handlers && w.handlers[t].CodeHeld? then
        var h := w.handlers[t];
        if ExchangeError(cfg, h.pending, h.request, now).Some? then Move(w, t, Answered)
        else Move(w, t, GrantHeld(h.consent, h.request, now))
      else w
    case TokenStore(t, token, now) =>
      if t in w.handlers && w.handlers[t].GrantHeld? then
        var h := w.handlers[t];
        var after := Move(w, t, Answered).(log := w.log + [TokenStored(token, now + TOKEN_TTL)]);
        if token in Tokens(w) then after
        else after.(issues := w.issues + [Issue(token, h.consent, h.request, h.checkedAt, now)])
      else w
    case CheckToken(token, now) => w.(log := w.log + [TokenChecked(token, now)])
    case Session(e) =>
      if e.SessionSaved? || e.SessionLoaded? || e.SessionDeleted? || e.SessionsSwept? then w.(log := w.log + [e]) else w
    case Crash => w.(handlers := map[])
  }

  function Run(cfg: Config, w: World, actions: seq<Action>): World
    decreases |actions|
  {
    if actions == [] then w else Run(cfg, Step(cfg, w, actions[0]), actions[1..])
  }

  // ---- The invariant --------------------------------------------------------

  /** What the store holds for a consent. */
  function StoredPending(c: Consent): PendingCode {
    PendingOf(RowOf(PendingFor(c.form, c.at)))
  }

  predicate Holds(h: Handler, consent: nat) {
    (h.CodeHeld? || h.GrantHeld?) && h.consent == consent
  }

  /** The form came with the secret, for a client and one of the redirect URIs that
      were registered for it before the check. */
  ghost predicate CheckedAt(cfg: Config, log: seq<Event>, form: ConsentForm, checked: nat) {
    SecretMatches(cfg, form) && checked <= |log| && WasRegistered(log[..checked], form.clientId, form.redirectUri)
  }

  /** A recorded consent passed its check before its code was recorded. */
  ghost predicate Given(cfg: Config, log: seq<Event>, c: Consent) {
    && CheckedAt(cfg, log, c.form, c.checked)
    && c.checked <= c.stored < |log| && log[c.stored] == CodeStored(c.code, PendingFor(c.form, c.at))
  }

  ghost predicate ConsentsOk(cfg: Config, w: World) {
    forall c :: 0 <= c < |w.consents| ==> Given(cfg, w.log, w.consents[c])
  }

  /** A code row is the row of the consent it was last recorded for. */
  ghost predicate CodesOk(w: World) {
    forall code :: code in Codes(w) ==>
      && code in w.recorded && w.recorded[code] < |w.consents|
      && w.consents[w.recorded[code]].code == code
      && Codes(w)[code] == RowOf(PendingFor(w.consents[w.recorded[code]].form, w.consents[w.recorded[code]].at))
  }

  /** The request was redeemed against that consent and passed every check. */
  ghost predicate Redeemed(cfg: Config, w: World, consent: nat, request: TokenRequest, checkedAt: int) {
    && consent < |w.consents|
    && w.consents[consent].code == request.code
    && ExchangeError(cfg, StoredPending(w.consents[consent]), request, checkedAt).None?
  }

  ghost predicate HandlerOk(cfg: Config, w: World, h: Handler) {
    match h
    case Consenting(form, checked) => CheckedAt(cfg, w.log, form, checked)
    case CodeHeld(c, pending, request) =>
      && c < |w.consents| && w.consents[c].code == request.code && pending == StoredPending(w.consents[c])
    case GrantHeld(c, request, at) => Redeemed(cfg, w, c, request, at)
    case Answered => true
  }

  ghost predicate HandlersOk(cfg: Config, w: World) {
    forall t :: t in w.handlers ==> HandlerOk(cfg, w, w.handlers[t])
  }

  ghost predicate IssuesOk(cfg: Config, w: World) {
    forall i :: 0 <= i < |w.issues| ==>
      Redeemed(cfg, w, w.issues[i].consent, w.issues[i].request, w.issues[i].checkedAt)
  }

  /** A consent is in one place at most: a row, a handler, or an issued token. */
  ghost predicate OnePlace(w: World) {
    && (forall code, t :: code in Codes(w) && code in w.recorded && t in w.handlers ==>
          !Holds(w.handlers[t], w.recorded[code]))
    && (forall code, i :: code in Codes(w) && code in w.recorded && 0 <= i < |w.issues| ==>
          w.issues[i].consent != w.recorded[code])
    && (forall t, t', c :: t in w.handlers && t' in w.handlers && t != t' && Holds(w.handlers[t], c) ==>
          !Holds(w.handlers[t'], c))
    && (forall t, i :: t in w.handlers && 0 <= i < |w.issues| ==> !Holds(w.handlers[t], w.issues[i].consent))
    && (forall i, j :: 0 <= i < j < |w.issues| ==> w.issues[i].consent != w.issues[j].consent)
  }

  ghost predicate IssuedUntil(issues: seq<Issue>, token: string, seconds: int) {
    exists i :: 0 <= i < |issues| && issues[i].token == token && seconds == ToEpoch(issues[i].storedAt + TOKEN_TTL)
  }

  /** Every token row was issued. */
  ghost predicate TokensOk(w: World) {
    forall token :: token in Tokens(w) ==> IssuedUntil(w.issues, token, Tokens(w)[token])
  }

  ghost predicate Inv(cfg: Config, w: World) {
    && ConsentsOk(cfg, w) && CodesOk(w) && HandlersOk(cfg, w)
    && IssuesOk(cfg, w) && OnePlace(w) && TokensOk(w)
  }

  // ---- Every step keeps it --------------------------------------------------

  lemma CheckStays(cfg: Config, log: seq<Event>, log': seq<Event>, form: ConsentForm, checked: nat)
    requires CheckedAt(cfg, log, form, checked) && log <= log'
    ensures CheckedAt(cfg, log', form, checked)
  {
    assert log'[..checked] == log[..checked];
  }

  lemma HandlerStays(cfg: Config, w: World, w': World, h: Handler)
    requires HandlerOk(cfg, w, h) && w.log <= w'.log && w.consents <= w'.consents
    ensures HandlerOk(cfg, w', h)
  {
    if h.Consenting? {
      CheckStays(cfg, w.log, w'.log, h.form, h.checked);
    }
  }

  lemma ConsentsStay(cfg: Config, w: World, w': World)
    requires ConsentsOk(cfg, w) && w.log <= w'.log && w'.consents == w.consents
    ensures ConsentsOk(cfg, w')
  {
    forall c | 0 <= c < |w'.consents| ensures Given(cfg, w'.log, w'.consents[c]) {
      assert Given(cfg, w.log, w.consents[c]);
      CheckStays(cfg, w.log, w'.log, w.consents[c].form, w.consents[c].checked);
    }
  }

  /** Token rows may go; none comes, and no issue is forgotten. */
  lemma TokensStay(w: World, w': World)
    requires TokensOk(w) && w'.issues == w.issues
    requires forall token :: token in Tokens(w') ==> token in Tokens(w) && Tokens(w')[token] == Tokens(w)[token]
    ensures TokensOk(w')
  {
    forall token | token in Tokens(w') ensures IssuedUntil(w'.issues, token, Tokens(w')[token]) {
      assert IssuedUntil(w.issues, token, Tokens(w)[token]);
    }
  }

  /** A store operation that records nothing: rows may go, clients may come. */
  lemma QuietEventKeeps(cfg: Config, w: World, w': World, e: Event)
    requires Inv(cfg, w) && w' == w.(log := w.log + [e])
    requires !e.CodeStored? && !e.TokenStored?
    ensures Inv(cfg, w')
  {
    ReplaySnoc(w.log, e);
    assert forall code :: code in Codes(w') ==> code in Codes(w) && Codes(w')[code] == Codes(w)[code];
    TokensStay(w, w');
    ConsentsStay(cfg, w, w');
    forall t | t in w'.handlers ensures HandlerOk(cfg, w', w'.handlers[t]) {
      HandlerStays(cfg, w, w', w.handlers[t]);
    }
  }

  /** A handler moves to a place where it holds no consent it did not hold. */
  lemma MoveKeeps(cfg: Config, w: World, w': World, t: nat, h: Handler)
    requires Inv(cfg, w) && w' == Move(w, t, h)
    requires HandlerOk(cfg, w, h)
    requires forall c :: Holds(h, c) ==> t in w.handlers && Holds(w.handlers[t], c)
    ensures Inv(cfg, w')
  {
    HandlerJoins(cfg, w, w', t, h);
    MovePlaces(w, w', t, h);
  }

  lemma MovePlaces(w: World, w': World, t: nat, h: Handler)
    requires OnePlace(w) && w'.handlers == w.handlers[t := h]
    requires Codes(w') == Codes(w) && w'.recorded == w.recorded && w'.issues == w.issues
    requires forall c :: Holds(h, c) ==> t in w.handlers && Holds(w.handlers[t], c)
    ensures OnePlace(w')
  {
  }

  lemma CrashKeeps(cfg: Config, w: World, w': World)
    requires Inv(cfg, w) && w' == w.(handlers := map[])
    ensures Inv(cfg, w')
  {
    TokensStay(w, w');
  }

  lemma RecordKeeps(cfg: Config, w: World, w': World, t: nat, code: string, now: int)
    requires Inv(cfg, w) && t in w.handlers && w.handlers[t].Consenting?
    requires w' == Step(cfg, w, SubmitStore(t, code, now))
    ensures Inv(cfg, w')
  {
    var consent := Consent(w.handlers[t].form, code, now, w.handlers[t].checked, |w.log|);
    ReplaySnoc(w.log, CodeStored(code, PendingFor(consent.form, now)));
    assert HandlerOk(cfg, w, w.handlers[t]);
    RecordPlaces(cfg, w, w', t, code, now);
    TokensStay(w, w');
    if code !in Codes(w) {
      RecordRest(cfg, w, w', t, consent);
    } else {
      HandlerJoins(cfg, w, Move(w, t, Answered), t, Answered);
      assert Replay(w'.log) == Replay(w.log);
      RecordRefused(cfg, Move(w, t, Answered), w');
    }
  }

  /** A refused insertion leaves the tables alone. */
  lemma RecordRefused(cfg: Config, w: World, w': World)
    requires ConsentsOk(cfg, w) && CodesOk(w) && HandlersOk(cfg, w) && IssuesOk(cfg, w)
    requires w' == w.(log := w'.log) && w.log <= w'.log && Replay(w'.log) == Replay(w.log)
    ensures ConsentsOk(cfg, w') && CodesOk(w') && HandlersOk(cfg, w') && IssuesOk(cfg, w')
  {
    ConsentsStay(cfg, w, w');
    forall u | u in w'.handlers ensures HandlerOk(cfg, w', w'.handlers[u]) {
      HandlerStays(cfg, w, w', w.handlers[u]);
    }
  }

  lemma RecordRest(cfg: Config, w: World, w': World, t: nat, consent: Consent)
    requires ConsentsOk(cfg, w) && CodesOk(w) && HandlersOk(cfg, w) && IssuesOk(cfg, w)
    requires t in w.handlers && w.handlers[t] == Consenting(consent.form, consent.checked)
    requires w'.handlers == w.handlers[t := Answered] && w'.issues == w.issues
    requires w'.consents == w.consents + [consent] && w'.recorded == w.recorded[consent.code := |w.consents|]
    requires consent.stored == |w.log|
    requires w'.log == w.log + [CodeStored(consent.code, PendingFor(consent.form, consent.at))]
    requires Codes(w') == Codes(w)[consent.code := RowOf(PendingFor(consent.form, consent.at))]
    ensures ConsentsOk(cfg, w') && CodesOk(w') && HandlersOk(cfg, w') && IssuesOk(cfg, w')
  {
    assert HandlerOk(cfg, w, w.handlers[t]);
    CheckStays(cfg, w.log, w'.log, consent.form, consent.checked);
    assert Given(cfg, w'.log, consent);
    var before := w.(log := w'.log);
    ConsentsStay(cfg, w, before);
    assert forall c :: 0 <= c < |w.consents| ==> w'.consents[c] == before.consents[c];
    forall u | u in w'.handlers ensures HandlerOk(cfg, w', w'.handlers[u]) {
      if u != t {
        HandlerStays(cfg, w, w', w.handlers[u]);
      }
    }
    IssuesStay(cfg, w, w');
  }

  lemma IssuesStay(cfg: Config, w: World, w': World)
    requires IssuesOk(cfg, w) && w'.issues == w.issues && w.consents <= w'.consents
    ensures IssuesOk(cfg, w')
  {
    forall i | 0 <= i < |w'.issues|
      ensures Redeemed(cfg, w', w'.issues[i].consent, w'.issues[i].request, w'.issues[i].checkedAt)
    {
      assert Redeemed(cfg, w, w.issues[i].consent, w.issues[i].request, w.issues[i].checkedAt);
    }
  }

  lemma RecordPlaces(cfg: Config, w: World, w': World, t: nat, code: string, now: int)
    requires HandlersOk(cfg, w) && IssuesOk(cfg, w) && CodesOk(w) && OnePlace(w)
    requires t in w.handlers && w.handlers[t].Consenting?
    requires w' == Step(cfg, w, SubmitStore(t, code, now))
    ensures OnePlace(w')
  {
    ReplaySnoc(w.log, CodeStored(code, PendingFor(w.handlers[t].form, now)));
    forall u | u in w.handlers ensures !Holds(w.handlers[u], |w.consents|) {
      assert HandlerOk(cfg, w, w.handlers[u]);
    }
    forall i | 0 <= i < |w.issues| ensures w.issues[i].consent != |w.consents| {
      assert Redeemed(cfg, w, w.issues[i].consent, w.issues[i].request, w.issues[i].checkedAt);
    }
    NewRowPlaces(w, w', t, code);
  }

  /** A row for a new consent, which nobody can hold yet. */
  lemma NewRowPlaces(w: World, w': World, t: nat, code: string)
    requires OnePlace(w)
    requires w'.handlers == w.handlers[t := Answered] && w'.issues == w.issues
    requires forall k :: k in Codes(w') ==> k in Codes(w) || k == code
    requires
      || (w'.recorded == w.recorded && Codes(w').Keys == Codes(w).Keys)
      || w'.recorded == w.recorded[code := |w.consents|]
    requires forall u :: u in w.handlers ==> !Holds(w.handlers[u], |w.consents|)
    requires forall i :: 0 <= i < |w.issues| ==> w.issues[i].consent != |w.consents|
    ensures OnePlace(w')
  {
  }

  lemma TakeKeeps(cfg: Config, w: World, w': World, t: nat, request: TokenRequest)
    requires Inv(cfg, w) && t !in w.handlers
    requires w' == Step(cfg, w, TokenTake(t, request))
    ensures Inv(cfg, w')
  {
    if request.grantType != "authorization_code" {
      MoveKeeps(cfg, w, w', t, Answered);
    } else if request.code in Codes(w) && request.code in w.recorded {
      TakeHeldKeeps(cfg, w, w', t, request);
    } else {
      var mid := w.(log := w.log + [CodeTaken(request.code)]);
      QuietEventKeeps(cfg, w, mid, CodeTaken(request.code));
      MoveKeeps(cfg, mid, w', t, Answered);
    }
  }

  lemma TakeHeldKeeps(cfg: Config, w: World, w': World, t: nat, request: TokenRequest)
    requires Inv(cfg, w) && t !in w.handlers && request.code in Codes(w) && request.code in w.recorded
    requires w' == Move(w.(log := w.log + [CodeTaken(request.code)]), t,
                        CodeHeld(w.recorded[request.code], PendingOf(Codes(w)[request.code]), request))
    ensures Inv(cfg, w')
  {
    var e := CodeTaken(request.code);
    var mid := w.(log := w.log + [e]);
    QuietEventKeeps(cfg, w, mid, e);
    ReplaySnoc(w.log, e);
    TakePlaces(w, w', t, request.code, w'.handlers[t]);
    HandlerJoins(cfg, mid, w', t, w'.handlers[t]);
  }

  /** The consent passes from the row to the handler. */
  lemma TakePlaces(w: World, w': World, t: nat, code: string, h: Handler)
    requires OnePlace(w) && CodesOk(w) && t !in w.handlers && code in Codes(w) && code in w.recorded
    requires w'.handlers == w.handlers[t := h] && h.CodeHeld? && h.consent == w.recorded[code]
    requires Codes(w') == Codes(w) - {code} && w'.recorded == w.recorded && w'.issues == w.issues
    ensures OnePlace(w')
  {
    forall other | other in Codes(w') ensures w.recorded[other] != w.recorded[code] {
      assert w.consents[w.recorded[other]].code == other;
    }
  }

  lemma HandlerJoins(cfg: Config, w: World, w': World, t: nat, h: Handler)
    requires ConsentsOk(cfg, w) && CodesOk(w) && HandlersOk(cfg, w) && IssuesOk(cfg, w) && TokensOk(w)
    requires w' == Move(w, t, h) && HandlerOk(cfg, w, h)
    ensures ConsentsOk(cfg, w') && CodesOk(w') && HandlersOk(cfg, w') && IssuesOk(cfg, w') && TokensOk(w')
  {
    TokensStay(w, w');
    assert HandlerOk(cfg, w', h);
    forall u | u in w'.handlers ensures HandlerOk(cfg, w', w'.handlers[u]) {
      if u != t {
        assert HandlerOk(cfg, w, w.handlers[u]);
      }
    }
  }

  lemma VerifyKeeps(cfg: Config, w: World, w': World, t: nat, now: int)
    requires Inv(cfg, w) && t in w.handlers && w.handlers[t].CodeHeld?
    requires w' == Step(cfg, w, TokenVerify(t, now))
    ensures Inv(cfg, w')
  {
    var h := w.handlers[t];
    assert HandlerOk(cfg, w, h);
    if ExchangeError(cfg, h.pending, h.request, now).Some? {
      MoveKeeps(cfg, w, w', t, Answered);
    } else {
      MoveKeeps(cfg, w, w', t, GrantHeld(h.consent, h.request, now));
    }
  }

  lemma IssueKeeps(cfg: Config, w: World, w': World, t: nat, token: string, now: int)
    requires Inv(cfg, w) && t in w.handlers && w.handlers[t].GrantHeld?
    requires w' == Step(cfg, w, TokenStore(t, token, now))
    ensures Inv(cfg, w')
  {
    var h := w.handlers[t];
    var issue := Issue(token, h.consent, h.request, h.checkedAt, now);
    GrantRedeemed(cfg, w, t);
    IssueShape(cfg, w, w', t, issue);
    if token in Tokens(w) {
      RefusedKeeps(cfg, w, w', t, issue);
    } else {
      IssuedKeeps(cfg, w, w', t, issue);
    }
  }

  lemma GrantRedeemed(cfg: Config, w: World, t: nat)
    requires HandlersOk(cfg, w) && t in w.handlers && w.handlers[t].GrantHeld?
    ensures Redeemed(cfg, w, w.handlers[t].consent, w.handlers[t].request, w.handlers[t].checkedAt)
  {
    assert HandlerOk(cfg, w, w.handlers[t]);
  }

  /** What storing a token does, with its key taken or free. */
  lemma IssueShape(cfg: Config, w: World, w': World, t: nat, issue: Issue)
    requires t in w.handlers && w.handlers[t] == GrantHeld(issue.consent, issue.request, issue.checkedAt)
    requires w' == Step(cfg, w, TokenStore(t, issue.token, issue.storedAt))
    ensures w.log <= w'.log && Codes(w') == Codes(w)
    ensures issue.token in Tokens(w) ==>
              w' == Move(w, t, Answered).(log := w'.log) && Tokens(w') == Tokens(w)
    ensures issue.token !in Tokens(w) ==>
              && w' == Move(w, t, Answered).(log := w'.log, issues := w.issues + [issue])
              && Tokens(w') == Tokens(w)[issue.token := ToEpoch(issue.storedAt + TOKEN_TTL)]
  {
    TokenStoredTables(w.log, issue.token, issue.storedAt + TOKEN_TTL);
  }

  lemma RefusedKeeps(cfg: Config, w: World, w': World, t: nat, issue: Issue)
    requires Inv(cfg, w) && t in w.handlers && w.handlers[t].GrantHeld?
    requires w' == Move(w, t, Answered).(log := w'.log) && w.log <= w'.log
    requires Codes(w') == Codes(w) && Tokens(w') == Tokens(w)
    requires Redeemed(cfg, w, issue.consent, issue.request, issue.checkedAt)
    ensures Inv(cfg, w')
  {
    IssuePlaces(w, w', t, w.issues);
    TokensStay(w, w');
    IssueRest(cfg, w, w', t, issue);
  }

  lemma IssuedKeeps(cfg: Config, w: World, w': World, t: nat, issue: Issue)
    requires Inv(cfg, w) && t in w.handlers && w.handlers[t].GrantHeld? && w.handlers[t].consent == issue.consent
    requires w' == Move(w, t, Answered).(log := w'.log, issues := w.issues + [issue]) && w.log <= w'.log
    requires Codes(w') == Codes(w) && Tokens(w') == Tokens(w)[issue.token := ToEpoch(issue.storedAt + TOKEN_TTL)]
    requires Redeemed(cfg, w, issue.consent, issue.request, issue.checkedAt)
    ensures Inv(cfg, w')
  {
    IssuePlaces(w, w', t, w.issues + [issue]);
    IssueTokens(w, w', issue);
    IssueRest(cfg, w, w', t, issue);
  }

  lemma TokenStoredTables(log: seq<Event>, token: string, expiresAt: int)
    ensures var t, t' := Replay(log), Replay(log + [TokenStored(token, expiresAt)]);
            && t'.codes == t.codes && t'.clients == t.clients
            && t'.tokens == if token in t.tokens then t.tokens else t.tokens[token := ToEpoch(expiresAt)]
  {
    ReplaySnoc(log, TokenStored(token, expiresAt));
  }

  lemma IssueRest(cfg: Config, w: World, w': World, t: nat, issue: Issue)
    requires ConsentsOk(cfg, w) && CodesOk(w) && HandlersOk(cfg, w) && IssuesOk(cfg, w)
    requires w'.handlers == w.handlers[t := Answered] && w'.consents == w.consents && w'.recorded == w.recorded
    requires Codes(w') == Codes(w) && w.log <= w'.log
    requires w'.issues == w.issues || w'.issues == w.issues + [issue]
    requires Redeemed(cfg, w, issue.consent, issue.request, issue.checkedAt)
    ensures ConsentsOk(cfg, w') && CodesOk(w') && HandlersOk(cfg, w') && IssuesOk(cfg, w')
  {
    ConsentsStay(cfg, w, w');
    forall u | u in w'.handlers ensures HandlerOk(cfg, w', w'.handlers[u]) {
      if u != t {
        HandlerStays(cfg, w, w', w.handlers[u]);
      }
    }
    forall i | 0 <= i < |w'.issues|
      ensures Redeemed(cfg, w', w'.issues[i].consent, w'.issues[i].request, w'.issues[i].checkedAt)
    {
      if i < |w.issues| {
        assert Redeemed(cfg, w, w.issues[i].consent, w.issues[i].request, w.issues[i].checkedAt);
      }
    }
  }

  /** The consent passes from the handler to the issued token, if one is issued. */
  lemma IssuePlaces(w: World, w': World, t: nat, issues: seq<Issue>)
    requires OnePlace(w) && t in w.handlers && w.handlers[t].GrantHeld?
    requires w'.handlers == w.handlers[t := Answered] && w'.issues == issues && w'.recorded == w.recorded
    requires Codes(w') == Codes(w)
    requires issues == w.issues
             || (|issues| == |w.issues| + 1 && w.issues == issues[..|w.issues|]
                 && issues[|w.issues|].consent == w.handlers[t].consent)
    ensures OnePlace(w')
  {
    assert Holds(w.handlers[t], w.handlers[t].consent);
  }

  lemma IssueTokens(w: World, w': World, issue: Issue)
    requires TokensOk(w) && w'.issues == w.issues + [issue]
    requires Tokens(w') == Tokens(w)[issue.token := ToEpoch(issue.storedAt + TOKEN_TTL)]
    ensures TokensOk(w')
  {
    forall k | k in Tokens(w') ensures IssuedUntil(w'.issues, k, Tokens(w')[k]) {
      if k != issue.token {
        assert IssuedUntil(w.issues, k, Tokens(w)[k]);
        var i :| 0 <= i < |w.issues| && w.issues[i].token == k
                 && Tokens(w)[k] == ToEpoch(w.issues[i].storedAt + TOKEN_TTL);
        assert w'.issues[i] == w.issues[i];
      } else {
        assert w'.issues[|w.issues|] == issue;
      }
    }
  }

  lemma CheckedNow(cfg: Config, w: World, form: ConsentForm)
    ensures Consents(cfg, Replay(w.log), form) ==> CheckedAt(cfg, w.log, form, |w.log|)
  {
    ClientRowIff(w.log, form.clientId, form.redirectUri);
    assert w.log[..|w.log|] == w.log;
  }

  lemma StepKeeps(cfg: Config, w: World, a: Action)
    requires Inv(cfg, w)
    ensures Inv(cfg, Step(cfg, w, a))
  {
    var w' := Step(cfg, w, a);
    if w' != w {
      match a
      case Register(clientId, uris) => QuietEventKeeps(cfg, w, w', ClientRegistered(clientId, uris));
      case SubmitCheck(t, form) =>
        CheckedNow(cfg, w, form);
        MoveKeeps(cfg, w, w', t, w'.handlers[t]);
      case SubmitStore(t, code, now) => RecordKeeps(cfg, w, w', t, code, now);
      case TokenTake(t, request) => TakeKeeps(cfg, w, w', t, request);
      case TokenVerify(t, now) => VerifyKeeps(cfg, w, w', t, now);
      case TokenStore(t, token, now) => IssueKeeps(cfg, w, w', t, token, now);
      case CheckToken(token, now) => QuietEventKeeps(cfg, w, w', TokenChecked(token, now));
      case Session(e) => QuietEventKeeps(cfg, w, w', e);
      case Crash => CrashKeeps(cfg, w, w');
    }
  }

  lemma {:induction false} RunKeeps(cfg: Config, w: World, actions: seq<Action>)
    requires Inv(cfg, w)
    ensures Inv(cfg, Run(cfg, w, actions))
    decreases |actions|
  {
    if actions != [] {
      StepKeeps(cfg, w, actions[0]);
      RunKeeps(cfg, Step(cfg, w, actions[0]), actions[1..]);
    }
  }

  lemma StartInv(cfg: Config)
    ensures Inv(cfg, START)
  {
  }

  // ---- One handler alone ----------------------------------------------------

  lemma TakeAlone(cfg: Config, w: World, w': World, t: nat, request: TokenRequest)
    requires CodesOk(w) && t !in w.handlers && w' == Step(cfg, w, TokenTake(t, request))
    ensures request.grantType != "authorization_code" ==> w' == Move(w, t, Answered)
    ensures request.grantType == "authorization_code" ==>
              w'.log == w.log + [CodeTaken(request.code)] && Tokens(w') == Tokens(w) && w'.issues == w.issues
    ensures request.grantType == "authorization_code" ==>
              t in w'.handlers
              && if request.code in Codes(w) then
                   w'.handlers[t].CodeHeld? && w'.handlers[t].request == request
                   && w'.handlers[t].pending == PendingOf(Codes(w)[request.code])
                 else w'.handlers[t] == Answered
  {
    if request.grantType == "authorization_code" {
      TakenTokens(w.log, request.code);
      if request.code in Codes(w) {
        assert request.code in w.recorded;
      }
    }
  }

  lemma TakenTokens(log: seq<Event>, code: string)
    ensures Replay(log + [CodeTaken(code)]).tokens == Replay(log).tokens
  {
    ReplaySnoc(log, CodeTaken(code));
  }

  /** The steps of a `token` handler with nothing in between do to the store what
      the handler does when it runs alone, and issue a token when it does. */
  lemma TokenAlone(cfg: Config, w: World, w1: World, w2: World, w3: World,
                   t: nat, request: TokenRequest, checkedAt: int, storedAt: int, token: string)
    requires Inv(cfg, w) && t !in w.handlers
    requires w1 == Step(cfg, w, TokenTake(t, request))
    requires w2 == Step(cfg, w1, TokenVerify(t, checkedAt))
    requires w3 == Step(cfg, w2, TokenStore(t, token, storedAt))
    ensures w3.log == w.log + TokenEvents(cfg, Replay(w.log), request, checkedAt, storedAt, token)
    ensures t in w3.handlers && w3.handlers[t] == Answered
    ensures |w3.issues| == |w.issues| + 1 <==>
              TokenRefusal(cfg, Replay(w.log), request, checkedAt).None? && token !in Tokens(w)
  {
    TakeAlone(cfg, w, w1, t, request);
    if request.grantType == "authorization_code" && request.code in Codes(w) {
      FinishAlone(cfg, w1, w2, w3, t, checkedAt, storedAt, token);
      var e := TokenStored(token, storedAt + TOKEN_TTL);
      assert (w.log + [CodeTaken(request.code)]) + [e] == w.log + [CodeTaken(request.code), e];
    } else {
      AnsweredStays(cfg, w1, w2, w3, t, checkedAt, storedAt, token);
    }
  }

  lemma AnsweredStays(
      cfg: Config, w1: World, w2: World, w3: World, t: nat, checkedAt: int, storedAt: int, token: string)
    requires t in w1.handlers && w1.handlers[t] == Answered
    requires w2 == Step(cfg, w1, TokenVerify(t, checkedAt))
    requires w3 == Step(cfg, w2, TokenStore(t, token, storedAt))
    ensures w3 == w1
  {
  }

  lemma FinishAlone(cfg: Config, w1: World, w2: World, w3: World, t: nat, checkedAt: int, storedAt: int, token: string)
    requires t in w1.handlers && w1.handlers[t].CodeHeld?
    requires w2 == Step(cfg, w1, TokenVerify(t, checkedAt))
    requires w3 == Step(cfg, w2, TokenStore(t, token, storedAt))
    ensures var refused := ExchangeError(cfg, w1.handlers[t].pending, w1.handlers[t].request, checkedAt);
            && (refused.Some? ==> w3.log == w1.log)
            && (refused.None? ==> w3.log == w1.log + [TokenStored(token, storedAt + TOKEN_TTL)])
            && (|w3.issues| == |w1.issues| + 1 <==> refused.None? && token !in Tokens(w1))
            && t in w3.handlers && w3.handlers[t] == Answered
  {
  }

  /** An exchange that deserves a token gets one: ten minutes less a second after the
      consent at the latest, with the redirect URI of the consent and a verifier for
      its challenge. */
  lemma GoodExchangeIssues(
      cfg: Config, w: World, w1: World, w2: World, w3: World, t: nat, request: TokenRequest,
      checkedAt: int, storedAt: int, token: string, i: nat, consented: int)
    requires Inv(cfg, w) && t !in w.handlers
    requires w1 == Step(cfg, w, TokenTake(t, request))
    requires w2 == Step(cfg, w1, TokenVerify(t, checkedAt))
    requires w3 == Step(cfg, w2, TokenStore(t, token, storedAt))
    requires request.grantType == "authorization_code" && Untaken(w.log, i, request.code, consented, checkedAt)
    requires checkedAt - consented <= 599 * 1_000_000_000
    requires request.redirectUri == w.log[i].pending.redirectUri
    requires cfg.s256(request.codeVerifier) == w.log[i].pending.codeChallenge && token !in Tokens(w)
    ensures |w3.issues| == |w.issues| + 1
  {
    TokenAlone(cfg, w, w1, w2, w3, t, request, checkedAt, storedAt, token);
    ExchangeInTime(cfg, w.log, i, request, consented, checkedAt);
  }

  /** So do the steps of an `authorize_submit` handler. */
  lemma SubmitAlone(cfg: Config, w: World, t: nat, form: ConsentForm, now: int, code: string)
    requires Inv(cfg, w) && t !in w.handlers
    ensures var w2 := Step(cfg, Step(cfg, w, SubmitCheck(t, form)), SubmitStore(t, code, now));
            var consented := WasRegistered(w.log, form.clientId, form.redirectUri) && GivesSecret(cfg, form);
            && w2.log == w.log + SubmitEvents(cfg, Replay(w.log), form, now, code)
            && w2.log == w.log + (if consented then [Recorded(form, code, now)] else [])
            && t in w2.handlers && w2.handlers[t] == Answered
            && (|w2.consents| == |w.consents| + 1 <==> consented && code !in Codes(w))
  {
    ClientRowIff(w.log, form.clientId, form.redirectUri);
    SecretIff(cfg, form);
  }

  // ---- The theorems ---------------------------------------------------------

  /** Over every run, interleaving and crash, issued tokens map one to one to
      consents (section 4.1.2 of RFC 6749: a code is good for one exchange). In
      particular, if no code string was recorded twice, no two tokens were ever
      issued for one code. */
  lemma OneTokenPerConsent(cfg: Config, actions: seq<Action>, i: nat, j: nat)
    requires var w := Run(cfg, START, actions); i < j < |w.issues|
    ensures var w := Run(cfg, START, actions);
            && w.issues[i].consent < |w.consents| && w.issues[j].consent < |w.consents|
            && w.issues[i].consent != w.issues[j].consent
            && ((forall a, b :: 0 <= a < b < |w.consents| ==> w.consents[a].code != w.consents[b].code) ==>
                  w.issues[i].request.code != w.issues[j].request.code)
  {
    StartInv(cfg);
    RunKeeps(cfg, START, actions);
    var w := Run(cfg, START, actions);
    assert Redeemed(cfg, w, w.issues[i].consent, w.issues[i].request, w.issues[i].checkedAt);
    assert Redeemed(cfg, w, w.issues[j].consent, w.issues[j].request, w.issues[j].checkedAt);
    var a, b := w.issues[i].consent, w.issues[j].consent;
    assert a < b || b < a;
  }

  /** Where a token comes from: a consent given with the secret, for a client and a
      redirect URI registered for it before that, and recorded after it; redeemed not
      after its expiry with the same redirect URI and a verifier whose S256 value is
      the recorded challenge (section 4.6 of RFC 7636). */
  ghost predicate Provenance(cfg: Config, w: World, token: string, issue: Issue) {
    && issue.token == token && issue.consent < |w.consents|
    && (var consent := w.consents[issue.consent];
        && GivesSecret(cfg, consent.form)
        && consent.checked <= consent.stored < |w.log|
        && WasRegistered(w.log[..consent.checked], consent.form.clientId, consent.form.redirectUri)
        && w.log[consent.stored] == Recorded(consent.form, consent.code, consent.at)
        && issue.request.code == consent.code
        && issue.request.redirectUri == consent.form.redirectUri
        && cfg.s256(issue.request.codeVerifier) == consent.form.codeChallenge
        && !ExpiredAt(w.log[consent.stored].pending, issue.checkedAt)
        && (consent.at >= 0 ==> issue.checkedAt - consent.at <= 600 * 1_000_000_000))
  }

  /** Every token row in every reachable world has such an origin, and its expiry
      is the token lifetime from the moment it was stored. */
  lemma TokenProvenance(cfg: Config, actions: seq<Action>, token: string) returns (i: nat)
    requires token in Tokens(Run(cfg, START, actions))
    ensures var w := Run(cfg, START, actions);
            && i < |w.issues| && Provenance(cfg, w, token, w.issues[i])
            && Tokens(w)[token] == ToEpoch(w.issues[i].storedAt + 2_592_000 * 1_000_000_000)
  {
    StartInv(cfg);
    RunKeeps(cfg, START, actions);
    var w := Run(cfg, START, actions);
    i := IssueBehind(w, token);
    IssueProvenance(cfg, w, i);
  }

  lemma IssueBehind(w: World, token: string) returns (i: nat)
    requires TokensOk(w) && token in Tokens(w)
    ensures i < |w.issues| && w.issues[i].token == token
    ensures Tokens(w)[token] == ToEpoch(w.issues[i].storedAt + TOKEN_TTL)
  {
    assert IssuedUntil(w.issues, token, Tokens(w)[token]);
    var k :| 0 <= k < |w.issues| && w.issues[k].token == token
             && Tokens(w)[token] == ToEpoch(w.issues[k].storedAt + TOKEN_TTL);
    i := k;
  }

  lemma IssueProvenance(cfg: Config, w: World, i: nat)
    requires ConsentsOk(cfg, w) && IssuesOk(cfg, w) && i < |w.issues|
    ensures Provenance(cfg, w, w.issues[i].token, w.issues[i])
  {
    assert Redeemed(cfg, w, w.issues[i].consent, w.issues[i].request, w.issues[i].checkedAt);
    var consent := w.consents[w.issues[i].consent];
    assert Given(cfg, w.log, consent);
    SecretIff(cfg, consent.form);
    EpochFloors(consent.at + CODE_TTL);
  }

  /** `authorize_submit` records whatever challenge the form carries, the empty one
      included; but a challenge that is not as long as an encoded digest is never
      redeemed on any run. */
  lemma UnusableChallengeNeverRedeemed(cfg: Config, actions: seq<Action>, i: nat)
    requires DigestsEncode(cfg)
    requires i < |Run(cfg, START, actions).issues|
    ensures var w := Run(cfg, START, actions);
            w.issues[i].consent < |w.consents| && |w.consents[w.issues[i].consent].form.codeChallenge| == 43
  {
    StartInv(cfg);
    RunKeeps(cfg, START, actions);
    var w := Run(cfg, START, actions);
    assert Redeemed(cfg, w, w.issues[i].consent, w.issues[i].request, w.issues[i].checkedAt);
  }

  lemma EmptyChallengeCanBeRecorded(cfg: Config, clientId: string, uri: string, code: string)
    requires Trim(cfg.secret) == cfg.secret
    ensures exists actions ::
              var w := Run(cfg, START, actions);
              code in Codes(w) && Codes(w)[code].codeChallenge == ""
  {
    var form := ConsentForm(clientId, uri, "", "", cfg.secret);
    var acts := [Register(clientId, [uri]), SubmitCheck(0, form), SubmitStore(0, code, 0)];
    var w1 := Step(cfg, START, acts[0]);
    ReplaySnoc([], ClientRegistered(clientId, [uri]));
    assert [] + [ClientRegistered(clientId, [uri])] == w1.log;
    assert uri in [uri];
    assert (clientId, uri) in Replay(w1.log).clients;
    var w2 := Step(cfg, w1, acts[1]);
    assert w2.handlers[0] == Consenting(form, 1);
    var w3 := Step(cfg, w2, acts[2]);
    ReplaySnoc(w2.log, CodeStored(code, PendingFor(form, 0)));
    assert code in Codes(w3);
    assert acts[1..][1..] == acts[2..] && acts[2..][1..] == [];
    assert Run(cfg, START, acts) == Run(cfg, w1, acts[1..]) == Run(cfg, w2, acts[2..]) == w3;
  }

  /** Taking a code uses it up whatever the checks say: from then on, until the
      same code string is recorded for a new consent, no request finds it. */
  lemma TakenIsGone(cfg: Config, w: World, t: nat, request: TokenRequest, after: seq<Action>)
    requires t !in w.handlers && request.grantType == "authorization_code"
    requires forall k :: 0 <= k < |after| ==> !(after[k].SubmitStore? && after[k].code == request.code)
    ensures request.code !in Codes(Run(cfg, Step(cfg, w, TokenTake(t, request)), after))
  {
    var taken := Step(cfg, w, TokenTake(t, request));
    assert taken.log == w.log + [CodeTaken(request.code)];
    TakeRemoves(w.log, request.code);
    AbsentStaysAbsent(cfg, taken, after, request.code);
  }

  lemma TakeRemoves(log: seq<Event>, code: string)
    ensures code !in Replay(log + [CodeTaken(code)]).codes
  {
    ReplaySnoc(log, CodeTaken(code));
  }

  lemma {:induction false} AbsentStaysAbsent(cfg: Config, w: World, actions: seq<Action>, code: string)
    requires code !in Codes(w)
    requires forall k :: 0 <= k < |actions| ==> !(actions[k].SubmitStore? && actions[k].code == code)
    ensures code !in Codes(Run(cfg, w, actions))
    decreases |actions|
  {
    if actions != [] {
      var added := LogAfterStep(cfg, w, actions[0]);
      LogBringsNoCode(w.log, added, code);
      AbsentStaysAbsent(cfg, Step(cfg, w, actions[0]), actions[1..], code);
    }
  }

  /** A step adds at most one entry to the log, and only `SubmitStore` records a
      code. */
  lemma LogAfterStep(cfg: Config, w: World, a: Action) returns (added: seq<Event>)
    ensures Step(cfg, w, a).log == w.log + added && |added| <= 1
    ensures added != [] && added[0].CodeStored? ==> a.SubmitStore? && a.code == added[0].code
  {
    added := [];
    match a {
      case Register(clientId, uris) =>
        if uris != [] {
          added := [ClientRegistered(clientId, uris)];
        }
      case SubmitStore(t, code, now) =>
        if t in w.handlers && w.handlers[t].Consenting? {
          added := [CodeStored(code, PendingFor(w.handlers[t].form, now))];
        }
      case TokenTake(t, request) =>
        if t !in w.handlers && request.grantType == "authorization_code" {
          added := [CodeTaken(request.code)];
        }
      case TokenStore(t, token, now) =>
        if t in w.handlers && w.handlers[t].GrantHeld? {
          added := [TokenStored(token, now + TOKEN_TTL)];
        }
      case CheckToken(token, now) => added := [TokenChecked(token, now)];
      case Session(e) =>
        if e.SessionSaved? || e.SessionLoaded? || e.SessionDeleted? || e.SessionsSwept? {
          added := [e];
        }
      case _ =>
    }
    if added == [] {
      assert w.log + added == w.log;
    }
  }

  lemma LogBringsNoCode(log: seq<Event>, added: seq<Event>, code: string)
    requires code !in Replay(log).codes && |added| <= 1
    requires added != [] ==> !(added[0].CodeStored? && added[0].code == code)
    ensures code !in Replay(log + added).codes
  {
    if added == [] {
      assert log + added == log;
    } else {
      assert log + added == log + [added[0]];
      ReplaySnoc(log, added[0]);
      EventBringsNoCode(Replay(log), added[0], code);
    }
  }

  lemma EventBringsNoCode(tables: Tables, e: Event, code: string)
    requires code !in tables.codes && !(e.CodeStored? && e.code == code)
    ensures code !in Apply(tables, e).codes
  {
  }
}

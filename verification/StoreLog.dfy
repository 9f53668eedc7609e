/** The statements of `src/store.rs` on their four tables, and what a history of
    calls says about the rows.

    Times are `SystemTime`s in nanoseconds since the epoch, negative before it;
    the clock may go back. */
module StoreLog {
  import opened Wrappers

  const NANOS := 1_000_000_000

  /** The earliest `SystemTime`: seconds in 64 bits. */
  const EARLIEST := -0x8000_0000_0000_0000 * NANOS

  function ToEpoch(time: int): int {
    if time < 0 then 0 else time / NANOS
  }

  function FromEpoch(seconds: int): int {
    (if seconds < 0 then 0 else seconds) * NANOS
  }

  datatype PendingCode = PendingCode(clientId: string, redirectUri: string, codeChallenge: string, expiresAt: int)

  /** Rows hold whole seconds. */
  datatype CodeRow = CodeRow(clientId: string, redirectUri: string, codeChallenge: string, expiresAt: int)

  datatype SessionRow = SessionRow(params: string, lastSeen: int)

  datatype Tables = Tables(
    clients: set<(string, string)>,
    codes: map<string, CodeRow>,
    tokens: map<string, int>,
    sessions: map<string, SessionRow>)

  const FRESH := Tables({}, map[], map[], map[])

  datatype Event =
    | ClientRegistered(clientId: string, uris: seq<string>)
    | CodeStored(code: string, pending: PendingCode)
    | CodeTaken(code: string)
    | TokenStored(token: string, expiresAt: int)
    | TokenChecked(token: string, now: int)
    | SessionSaved(session: string, params: string, now: int)
    | SessionLoaded(session: string, now: int)
    | SessionDeleted(session: string)
    | SessionsSwept(now: int, retention: nat)

  function RowOf(p: PendingCode): CodeRow {
    CodeRow(p.clientId, p.redirectUri, p.codeChallenge, ToEpoch(p.expiresAt))
  }

  function PendingOf(row: CodeRow): PendingCode {
    PendingCode(row.clientId, row.redirectUri, row.codeChallenge, FromEpoch(row.expiresAt))
  }

  /** `checked_sub(retention).unwrap_or(UNIX_EPOCH)`, as the seconds compared. */
  function Cutoff(now: int, retention: nat): int {
    ToEpoch(if now - retention < EARLIEST then 0 else now - retention)
  }

  /** One statement, or one transaction, on the tables. An `INSERT` that meets its
      primary key fails and changes nothing. */
  function Apply(t: Tables, e: Event): Tables {
    match e
    case ClientRegistered(clientId, uris) =>
      t.(clients := t.clients + set uri | uri in uris :: (clientId, uri))
    case CodeStored(code, pending) =>
      if code in t.codes then t else t.(codes := t.codes[code := RowOf(pending)])
    case CodeTaken(code) => t.(codes := t.codes - {code})
    case TokenStored(token, expiresAt) =>
      if token in t.tokens then t else t.(tokens := t.tokens[token := ToEpoch(expiresAt)])
    case TokenChecked(_, now) =>
      t.(tokens := map k | k in t.tokens && t.tokens[k] > ToEpoch(now) :: t.tokens[k],
         codes := map k | k in t.codes && t.codes[k].expiresAt > ToEpoch(now) :: t.codes[k])
    case SessionSaved(session, params, now) =>
      t.(sessions := t.sessions[session := SessionRow(params, ToEpoch(now))])
    case SessionLoaded(session, now) =>
      if session in t.sessions then
        t.(sessions := t.sessions[session := t.sessions[session].(lastSeen := ToEpoch(now))])
      else t
    case SessionDeleted(session) => t.(sessions := t.sessions - {session})
    case SessionsSwept(now, retention) =>
      t.(sessions := map k | k in t.sessions && t.sessions[k].lastSeen > Cutoff(now, retention) :: t.sessions[k])
  }

  function Replay(log: seq<Event>): Tables {
    if log == [] then FRESH else Apply(Replay(log[..|log| - 1]), log[|log| - 1])
  }

  lemma ReplaySnoc(log: seq<Event>, e: Event)
    ensures Replay(log + [e]) == Apply(Replay(log), e)
  {
    assert (log + [e])[..|log|] == log;
  }

  // ---- Tokens ---------------------------------------------------------------

  /** Entry `i` is the `INSERT` of `token` that succeeded. */
  ghost predicate TokenInserted(log: seq<Event>, i: nat, token: string) {
    i < |log| && log[i].TokenStored? && log[i].token == token && token !in Replay(log[..i]).tokens
  }

  /** Every check of entries from `i` on saw a whole second below `seconds`. */
  ghost predicate ChecksBelow(log: seq<Event>, i: nat, seconds: int) {
    forall j :: i <= j < |log| && log[j].TokenChecked? ==> ToEpoch(log[j].now) < seconds
  }

  lemma InsertedBefore(log: seq<Event>, e: Event, i: nat, token: string)
    requires i < |log|
    ensures TokenInserted(log + [e], i, token) <==> TokenInserted(log, i, token)
  {
    assert (log + [e])[..i] == log[..i];
  }

  ghost predicate TokenLiveFrom(log: seq<Event>, i: nat, token: string) {
    TokenInserted(log, i, token) && ChecksBelow(log, i, ToEpoch(log[i].expiresAt))
  }

  /** The token was stored, and no check since then came at or after its expiry. */
  ghost predicate TokenLive(log: seq<Event>, token: string) {
    exists i: nat :: TokenLiveFrom(log, i, token)
  }

  lemma TokenLiveSnoc(log: seq<Event>, e: Event, i: nat, token: string)
    requires i < |log|
    ensures TokenLiveFrom(log + [e], i, token) <==>
            TokenLiveFrom(log, i, token) && (e.TokenChecked? ==> ToEpoch(e.now) < ToEpoch(log[i].expiresAt))
  {
    var all := log + [e];
    assert all[..i] == log[..i];
    assert all[|log|] == e;
    if TokenLiveFrom(all, i, token) {
      assert forall j :: i <= j < |log| ==> log[j] == all[j];
    }
  }

  /** Exactly the live tokens have a row, for any clock; the row holds the expiry
      the token was stored with. */
  lemma {:induction false} TokenRowIff(log: seq<Event>, token: string)
    ensures token in Replay(log).tokens <==> TokenLive(log, token)
    ensures forall i: nat :: TokenLiveFrom(log, i, token) ==>
              token in Replay(log).tokens && Replay(log).tokens[token] == ToEpoch(log[i].expiresAt)
    decreases |log|
  {
    if log != [] {
      var n := |log| - 1;
      var init, e := log[..n], log[n];
      assert log == init + [e];
      TokenRowIff(init, token);
      forall i: nat | i < n ensures
        TokenLiveFrom(log, i, token) <==>
          TokenLiveFrom(init, i, token) && (e.TokenChecked? ==> ToEpoch(e.now) < ToEpoch(log[i].expiresAt))
      {
        TokenLiveSnoc(init, e, i, token);
      }
      if token in Replay(log).tokens {
        if token in Replay(init).tokens {
          var i: nat :| TokenLiveFrom(init, i, token);
          assert TokenLiveFrom(log, i, token);
        } else {
          assert TokenLiveFrom(log, n, token);
        }
      }
    }
  }

  // ---- A clock that does not go back ----------------------------------------

  predicate Timed(e: Event) {
    e.TokenChecked? || e.SessionSaved? || e.SessionLoaded? || e.SessionsSwept?
  }

  ghost predicate Monotone(log: seq<Event>) {
    forall i, j :: 0 <= i < j < |log| && Timed(log[i]) && Timed(log[j]) ==> log[i].now <= log[j].now
  }

  lemma ToEpochMonotone(a: int, b: int)
    requires a <= b
    ensures ToEpoch(a) <= ToEpoch(b)
  {
  }

  /** When the clock never goes back, deleting on the way past is invisible: a
      check answers as if no row were ever deleted, by expiry alone. */
  lemma MonotoneTokenCheck(log: seq<Event>, token: string, now: int)
    requires Monotone(log + [TokenChecked(token, now)])
    ensures token in Replay(log + [TokenChecked(token, now)]).tokens <==>
            exists i: nat :: TokenInserted(log, i, token) && ToEpoch(now) < ToEpoch(log[i].expiresAt)
  {
    var e := TokenChecked(token, now);
    var all := log + [e];
    TokenRowIff(all, token);
    forall i: nat | i < |log| ensures TokenInserted(all, i, token) <==> TokenInserted(log, i, token) {
      InsertedBefore(log, e, i, token);
    }
    forall i: nat | TokenInserted(log, i, token) && ToEpoch(now) < ToEpoch(log[i].expiresAt)
      ensures TokenLiveFrom(all, i, token)
    {
      forall j | i <= j < |all| && all[j].TokenChecked? ensures ToEpoch(all[j].now) < ToEpoch(all[i].expiresAt) {
        if j < |log| {
          assert all[j].now <= all[|log|].now;
          ToEpochMonotone(all[j].now, now);
        }
      }
    }
    if token in Replay(all).tokens {
      var i: nat :| TokenLiveFrom(all, i, token);
      assert all[|log|] == e;
    }
  }

  /** Rows hold whole seconds, cut down, and zero for any time before the epoch: read
      back, a time at or after it is never later than it was and less than a second
      earlier. */
  lemma EpochFloors(time: int)
    ensures time >= 0 ==> ToEpoch(time) * 1_000_000_000 <= time < (ToEpoch(time) + 1) * 1_000_000_000
    ensures time < 0 ==> ToEpoch(time) == 0
    ensures FromEpoch(ToEpoch(time)) == ToEpoch(time) * 1_000_000_000
  {
  }

  /** With that clock, a token stored at `stored` for `ttl` is good for at most
      `ttl` and for more than `ttl` less a second. */
  lemma TokenLifetime(log: seq<Event>, i: nat, token: string, stored: int, ttl: nat, now: int)
    requires Monotone(log + [TokenChecked(token, now)])
    requires TokenInserted(log, i, token) && log[i].expiresAt == stored + ttl && stored >= 0 && now >= 0
    requires forall k: nat :: TokenInserted(log, k, token) ==> k == i
    ensures var valid := token in Replay(log + [TokenChecked(token, now)]).tokens;
            && (valid ==> now - stored < ttl)
            && (now - stored <= ttl - NANOS ==> valid)
  {
    MonotoneTokenCheck(log, token, now);
    EpochFloors(stored + ttl);
  }

  // ---- Codes ----------------------------------------------------------------

  ghost predicate CodeInserted(log: seq<Event>, i: nat, code: string) {
    i < |log| && log[i].CodeStored? && log[i].code == code && code !in Replay(log[..i]).codes
  }

  ghost predicate NotTakenSince(log: seq<Event>, i: nat, code: string) {
    forall j :: i <= j < |log| ==> log[j] != CodeTaken(code)
  }

  /** Entry `i` stored the code, nobody has taken it since, and no check since
      swept it. */
  ghost predicate CodeLiveFrom(log: seq<Event>, i: nat, code: string) {
    && CodeInserted(log, i, code) && NotTakenSince(log, i, code)
    && ChecksBelow(log, i, ToEpoch(log[i].pending.expiresAt))
  }

  lemma CodeLiveSnoc(log: seq<Event>, e: Event, i: nat, code: string)
    requires i < |log|
    ensures CodeInserted(log + [e], i, code) <==> CodeInserted(log, i, code)
    ensures CodeLiveFrom(log + [e], i, code) <==>
            && CodeLiveFrom(log, i, code) && e != CodeTaken(code)
            && (e.TokenChecked? ==> ToEpoch(e.now) < ToEpoch(log[i].pending.expiresAt))
  {
    var all := log + [e];
    assert all[..i] == log[..i];
    assert all[|log|] == e;
    if CodeLiveFrom(all, i, code) {
      assert forall j :: i <= j < |log| ==> log[j] == all[j];
    }
  }

  /** Exactly the live codes have a row, and it is the one that was stored. */
  lemma {:induction false} CodeRowIff(log: seq<Event>, code: string)
    ensures code in Replay(log).codes ==>
              exists i: nat :: CodeLiveFrom(log, i, code) && Replay(log).codes[code] == RowOf(log[i].pending)
    ensures forall i: nat :: CodeLiveFrom(log, i, code) ==>
              code in Replay(log).codes && Replay(log).codes[code] == RowOf(log[i].pending)
    decreases |log|
  {
    if log != [] {
      var n := |log| - 1;
      var init, e := log[..n], log[n];
      assert log == init + [e];
      CodeRowIff(init, code);
      forall i: nat | i < n ensures
        CodeLiveFrom(log, i, code) <==>
          && CodeLiveFrom(init, i, code) && e != CodeTaken(code)
          && (e.TokenChecked? ==> ToEpoch(e.now) < ToEpoch(log[i].pending.expiresAt))
      {
        CodeLiveSnoc(init, e, i, code);
      }
      if code in Replay(log).codes {
        if code in Replay(init).codes {
          var i: nat :| CodeLiveFrom(init, i, code) && Replay(init).codes[code] == RowOf(init[i].pending);
          assert CodeLiveFrom(log, i, code);
        } else {
          assert CodeLiveFrom(log, n, code);
        }
      }
    }
  }

  /** The exchange of a code accepts it as unexpired when its row is there and its
      expiry is not strictly past. The sweep deletes at equality, so it can get in
      the way; with a clock that does not go back it does so only when the
      exchange and a check both fall on the very instant of expiry. */
  lemma SweepOfCodesIsTransparent(log: seq<Event>, i: nat, code: string, now: int)
    requires Monotone(log + [TokenChecked("", now)])
    requires forall j :: 0 <= j < |log| && log[j].TokenChecked? ==> log[j].now >= 0
    requires CodeInserted(log, i, code) && NotTakenSince(log, i, code)
    requires forall k: nat :: CodeInserted(log, k, code) ==> k <= i
    ensures var expiry := FromEpoch(ToEpoch(log[i].pending.expiresAt));
            var unswept := !(expiry < now);
            var actual := code in Replay(log).codes && !(FromEpoch(Replay(log).codes[code].expiresAt) < now);
            && (actual ==> unswept)
            && (unswept != actual <==>
                  now == expiry && exists j :: i <= j < |log| && log[j].TokenChecked? && log[j].now == now)
  {
    CodeRowIff(log, code);
    var seconds := ToEpoch(log[i].pending.expiresAt);
    if code in Replay(log).codes {
      var k: nat :| CodeLiveFrom(log, k, code) && Replay(log).codes[code] == RowOf(log[k].pending);
      EarlierInsertIsLater(log, k, i, code);
      assert ChecksBelow(log, i, seconds);
    } else {
      assert !ChecksBelow(log, i, seconds);
      var j :| i <= j < |log| && log[j].TokenChecked? && ToEpoch(log[j].now) >= seconds;
      var all := log + [TokenChecked("", now)];
      assert all[j].now <= all[|log|].now;
      EpochFloors(log[j].now);
    }
  }

  /** With a clock that does not go back, a code nobody has taken is accepted as
      unexpired by every exchange up to its lifetime less a second after the consent,
      and by none later than its lifetime. */
  lemma CodeLifetime(log: seq<Event>, i: nat, code: string, consented: int, ttl: nat, now: int)
    requires Monotone(log + [TokenChecked("", now)])
    requires forall j :: 0 <= j < |log| && log[j].TokenChecked? ==> log[j].now >= 0
    requires CodeInserted(log, i, code) && NotTakenSince(log, i, code)
    requires forall k: nat :: CodeInserted(log, k, code) ==> k <= i
    requires log[i].pending.expiresAt == consented + ttl && consented >= 0 && now >= 0
    ensures var accepted := code in Replay(log).codes && !(FromEpoch(Replay(log).codes[code].expiresAt) < now);
            && (now - consented <= ttl - NANOS ==> accepted)
            && (accepted ==> now - consented <= ttl)
  {
    SweepOfCodesIsTransparent(log, i, code, now);
    EpochFloors(consented + ttl);
  }

  /** While a code is live it cannot be inserted again. */
  lemma EarlierInsertIsLater(log: seq<Event>, k: nat, i: nat, code: string)
    requires CodeLiveFrom(log, k, code) && CodeInserted(log, i, code) && k <= i
    ensures k == i
  {
    if k < i {
      var early := log[..i];
      assert early[..k] == log[..k];
      assert CodeLiveFrom(early, k, code);
      CodeRowIff(early, code);
    }
  }

  // ---- Sessions -------------------------------------------------------------

  predicate Touches(e: Event, session: string) {
    (e.SessionSaved? || e.SessionLoaded?) && e.session == session
  }

  /** The time of the last save or load of the session. */
  function LastTouch(log: seq<Event>, session: string): Option<int> {
    if log == [] then None
    else if Touches(log[|log| - 1], session) then Some(log[|log| - 1].now)
    else LastTouch(log[..|log| - 1], session)
  }

  /** A sweep at entry `k` would spare the session. */
  ghost predicate SparedAt(log: seq<Event>, k: nat, session: string)
    requires k < |log|
  {
    log[k].SessionsSwept? ==>
      LastTouch(log[..k], session).Some?
      && ToEpoch(LastTouch(log[..k], session).value) > Cutoff(log[k].now, log[k].retention)
  }

  /** Entry `i` is the last save of the session, no delete came after it, and the
      last touch before each sweep since then was recent enough. */
  ghost predicate SessionLiveFrom(log: seq<Event>, i: nat, session: string) {
    && i < |log| && log[i].SessionSaved? && log[i].session == session
    && (forall k :: i < k < |log| ==>
          && !(log[k].SessionSaved? && log[k].session == session)
          && log[k] != SessionDeleted(session)
          && SparedAt(log, k, session))
  }

  lemma SessionLiveSnoc(log: seq<Event>, e: Event, i: nat, session: string)
    requires i < |log|
    ensures SessionLiveFrom(log + [e], i, session) <==>
            && SessionLiveFrom(log, i, session)
            && !(e.SessionSaved? && e.session == session) && e != SessionDeleted(session)
            && SparedAt(log + [e], |log|, session)
  {
    var all := log + [e];
    forall k | i < k < |log| ensures SparedAt(all, k, session) <==> SparedAt(log, k, session) {
      assert all[..k] == log[..k];
    }
    assert all[|log|] == e;
    if SessionLiveFrom(all, i, session) {
      assert forall k :: i < k < |log| ==> log[k] == all[k];
    }
  }

  /** A session has a row exactly while it is live by its history: the row holds
      what the last save gave and the time of the last touch. */
  lemma {:induction false} SessionRowIff(log: seq<Event>, session: string)
    ensures session in Replay(log).sessions ==>
              && LastTouch(log, session).Some?
              && Replay(log).sessions[session].lastSeen == ToEpoch(LastTouch(log, session).value)
              && exists i: nat ::
                   SessionLiveFrom(log, i, session) && Replay(log).sessions[session].params == log[i].params
    ensures forall i: nat :: SessionLiveFrom(log, i, session) ==>
              session in Replay(log).sessions && Replay(log).sessions[session].params == log[i].params
    decreases |log|
  {
    if log != [] {
      var n := |log| - 1;
      var init, e := log[..n], log[n];
      assert log == init + [e];
      SessionRowIff(init, session);
      forall i: nat | i < n ensures
        SessionLiveFrom(log, i, session) <==>
          && SessionLiveFrom(init, i, session)
          && !(e.SessionSaved? && e.session == session) && e != SessionDeleted(session)
          && SparedAt(log, n, session)
      {
        SessionLiveSnoc(init, e, i, session);
      }
      if e.SessionSaved? && e.session == session {
        assert SessionLiveFrom(log, n, session);
      } else if session in Replay(log).sessions {
        var i: nat :| SessionLiveFrom(init, i, session) && Replay(init).sessions[session].params == init[i].params;
        assert SessionLiveFrom(log, i, session);
      }
    }
  }

  /** What whole seconds mean for the retention window, at or after the epoch: a
      session a sweep spares was touched less than `retention` before it, one it
      drops more than `retention` less a second before it. */
  lemma SweepWindow(log: seq<Event>, session: string, now: int, retention: nat)
    requires session in Replay(log).sessions
    requires LastTouch(log, session).Some? && LastTouch(log, session).value >= 0 && now - retention >= 0
    ensures var touched := LastTouch(log, session).value;
            var after := Replay(log + [SessionsSwept(now, retention)]).sessions;
            && (session in after ==> now - touched < retention)
            && (session !in after ==> now - touched > retention - NANOS)
  {
    SessionRowIff(log, session);
    ReplaySnoc(log, SessionsSwept(now, retention));
    EpochFloors(LastTouch(log, session).value);
    EpochFloors(now - retention);
  }

  /** A retention reaching back before the epoch forgets nothing, except rows whose
      last touch was itself before the end of the epoch's first second. */
  lemma SweepBeforeEpoch(log: seq<Event>, session: string, now: int, retention: nat)
    requires session in Replay(log).sessions && now - retention < 0
    ensures LastTouch(log, session).Some?
    ensures session in Replay(log + [SessionsSwept(now, retention)]).sessions <==>
            LastTouch(log, session).value >= NANOS
  {
    SessionRowIff(log, session);
    ReplaySnoc(log, SessionsSwept(now, retention));
  }

  /** The exception happens: a session saved at the epoch is dropped by a sweep at the
      same moment, though its window of a second reaches back before the epoch. */
  lemma SweepBeforeEpochCanDrop()
    ensures exists log: seq<Event>, session: string, now: int, retention: nat ::
              && now - retention < 0 && session in Replay(log).sessions
              && session !in Replay(log + [SessionsSwept(now, retention)]).sessions
  {
    var log := [] + [SessionSaved("id", "", 0)];
    ReplaySnoc([], SessionSaved("id", "", 0));
    assert LastTouch(log, "id") == Some(0);
    SweepBeforeEpoch(log, "id", 0, NANOS);
    assert "id" !in Replay(log + [SessionsSwept(0, NANOS)]).sessions;
  }

  // ---- Clients --------------------------------------------------------------

  ghost predicate WasRegistered(log: seq<Event>, clientId: string, uri: string) {
    exists i :: 0 <= i < |log| && log[i].ClientRegistered? && log[i].clientId == clientId && uri in log[i].uris
  }

  /** Client rows are never removed. */
  lemma {:induction false} ClientRowIff(log: seq<Event>, clientId: string, uri: string)
    ensures (clientId, uri) in Replay(log).clients <==> WasRegistered(log, clientId, uri)
    decreases |log|
  {
    if log != [] {
      var n := |log| - 1;
      var init := log[..n];
      ClientRowIff(init, clientId, uri);
      if WasRegistered(init, clientId, uri) {
        var i :| 0 <= i < |init| && init[i].ClientRegistered? && init[i].clientId == clientId && uri in init[i].uris;
        assert log[i] == init[i];
      }
    }
  }
}

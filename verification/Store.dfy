/** `src/store.rs`: the persistent store. Each method is one critical section; a
    ghost log records the calls, and the tables are always what replaying the
    log gives. */
module Store {
  import opened Wrappers
  import opened StoreLog

  datatype StoreError = UniqueConstraint

  class Store {
    var clients: set<(string, string)>
    var codes: map<string, CodeRow>
    var tokens: map<string, int>
    var sessions: map<string, SessionRow>
    ghost var log: seq<Event>

    ghost function Contents(): Tables
      reads this
    {
      Tables(clients, codes, tokens, sessions)
    }

    ghost predicate Valid()
      reads this
    {
      Contents() == Replay(log)
    }

    /** A new database; reopening an existing file keeps its tables. */
    constructor ()
      ensures Valid() && log == []
    {
      clients, codes, tokens, sessions := {}, map[], map[], map[];
      log := [];
    }

    method RegisterClient(clientId: string, redirectUris: seq<string>)
      requires Valid()
      modifies this
      ensures Valid() && log == old(log) + [ClientRegistered(clientId, redirectUris)]
    {
      for i := 0 to |redirectUris|
        invariant Contents() ==
          old(Contents()).(clients := old(clients) + set k | 0 <= k < i :: (clientId, redirectUris[k]))
        invariant log == old(log)
      {
        clients := clients + {(clientId, redirectUris[i])};
      }
      assert (set uri | uri in redirectUris :: (clientId, uri)) ==
             set k | 0 <= k < |redirectUris| :: (clientId, redirectUris[k]);
      ReplaySnoc(log, ClientRegistered(clientId, redirectUris));
      log := log + [ClientRegistered(clientId, redirectUris)];
    }

    method RedirectUris(clientId: string) returns (uris: Option<set<string>>)
      requires Valid()
      ensures uris.Some? ==> uris.value != {}
      ensures forall uri :: (uris.Some? && uri in uris.value) <==> WasRegistered(log, clientId, uri)
    {
      forall uri ensures (clientId, uri) in clients <==> WasRegistered(log, clientId, uri) {
        ClientRowIff(log, clientId, uri);
      }
      var found := set row | row in clients && row.0 == clientId :: row.1;
      assert forall uri :: uri in found <==> (clientId, uri) in clients;
      uris := if found == {} then None else Some(found);
    }

    method StoreCode(code: string, pending: PendingCode) returns (r: Result<(), StoreError>)
      requires Valid()
      modifies this
      ensures Valid() && log == old(log) + [CodeStored(code, pending)]
      ensures r.Ok? <==> code !in old(codes)
    {
      ReplaySnoc(log, CodeStored(code, pending));
      log := log + [CodeStored(code, pending)];
      if code in codes {
        return Err(UniqueConstraint);
      }
      var row := CodeRow(pending.clientId, pending.redirectUri, pending.codeChallenge, ToEpoch(pending.expiresAt));
      codes := codes[code := row];
      return Ok(());
    }

    method TakeCode(code: string) returns (pending: Option<PendingCode>)
      requires Valid()
      modifies this
      ensures Valid() && log == old(log) + [CodeTaken(code)]
      ensures pending == if code in old(codes) then Some(PendingOf(old(codes)[code])) else None
      ensures pending.Some? <==> exists i: nat :: CodeLiveFrom(old(log), i, code)
      ensures forall i: nat :: CodeLiveFrom(old(log), i, code) ==>
                var p := old(log)[i].pending;
                pending ==
                Some(PendingCode(p.clientId, p.redirectUri, p.codeChallenge, FromEpoch(ToEpoch(p.expiresAt))))
      ensures code !in codes
    {
      ReplaySnoc(log, CodeTaken(code));
      log := log + [CodeTaken(code)];
      if code in codes {
        var row := codes[code];
        pending := Some(PendingCode(row.clientId, row.redirectUri, row.codeChallenge, FromEpoch(row.expiresAt)));
      } else {
        pending := None;
      }
      codes := codes - {code};
      TakenPending(old(log), code, pending);
    }

    method StoreToken(token: string, expiresAt: int) returns (r: Result<(), StoreError>)
      requires Valid()
      modifies this
      ensures Valid() && log == old(log) + [TokenStored(token, expiresAt)]
      ensures r.Ok? <==> token !in old(tokens)
    {
      ReplaySnoc(log, TokenStored(token, expiresAt));
      log := log + [TokenStored(token, expiresAt)];
      if token in tokens {
        return Err(UniqueConstraint);
      }
      tokens := tokens[token := ToEpoch(expiresAt)];
      return Ok(());
    }

    method TokenIsValid(token: string, now: int) returns (valid: bool)
      requires Valid()
      modifies this
      ensures Valid() && log == old(log) + [TokenChecked(token, now)]
      ensures valid <==> TokenLive(log, token)
    {
      TokenRowIff(log + [TokenChecked(token, now)], token);
      ReplaySnoc(log, TokenChecked(token, now));
      CheckedTables(Contents(), token, now);
      log := log + [TokenChecked(token, now)];
      var seconds := ToEpoch(now);
      tokens := map k | k in tokens && !(tokens[k] <= seconds) :: tokens[k];
      codes := map k | k in codes && !(codes[k].expiresAt <= seconds) :: codes[k];
      valid := token in tokens;
    }

    method SaveSession(session: string, params: string, now: int)
      requires Valid()
      modifies this
      ensures Valid() && log == old(log) + [SessionSaved(session, params, now)]
    {
      ReplaySnoc(log, SessionSaved(session, params, now));
      log := log + [SessionSaved(session, params, now)];
      sessions := sessions[session := SessionRow(params, ToEpoch(now))];
    }

    method LoadSession(session: string, now: int) returns (params: Option<string>)
      requires Valid()
      modifies this
      ensures Valid() && log == old(log) + [SessionLoaded(session, now)]
      ensures params == if session in old(sessions) then Some(old(sessions)[session].params) else None
      ensures params.Some? <==> exists i: nat :: SessionLiveFrom(old(log), i, session)
      ensures forall i: nat :: SessionLiveFrom(old(log), i, session) ==> params == Some(old(log)[i].params)
    {
      SessionRowIff(log, session);
      ReplaySnoc(log, SessionLoaded(session, now));
      log := log + [SessionLoaded(session, now)];
      if session !in sessions {
        return None;
      }
      sessions := sessions[session := sessions[session].(lastSeen := ToEpoch(now))];
      return Some(sessions[session].params);
    }

    method DeleteSession(session: string)
      requires Valid()
      modifies this
      ensures Valid() && log == old(log) + [SessionDeleted(session)]
    {
      ReplaySnoc(log, SessionDeleted(session));
      log := log + [SessionDeleted(session)];
      sessions := sessions - {session};
    }

    method SweepSessions(now: int, retention: nat) returns (dropped: nat)
      requires Valid()
      modifies this
      ensures Valid() && log == old(log) + [SessionsSwept(now, retention)]
      ensures dropped == |old(sessions)| - |sessions|
    {
      ReplaySnoc(log, SessionsSwept(now, retention));
      var cutoff := ToEpoch(if now - retention < EARLIEST then 0 else now - retention);
      var gone := set k | k in sessions && sessions[k].lastSeen <= cutoff;
      RowsSplit(sessions, gone);
      SweptTables(Contents(), now, retention, gone);
      dropped := |gone|;
      sessions := sessions - gone;
      log := log + [SessionsSwept(now, retention)];
    }
  }

  /** What a live code was stored with comes back, its expiry cut to a whole second. */
  lemma TakenPending(log: seq<Event>, code: string, pending: Option<PendingCode>)
    requires pending == if code in Replay(log).codes then Some(PendingOf(Replay(log).codes[code])) else None
    ensures pending.Some? <==> exists i: nat :: CodeLiveFrom(log, i, code)
    ensures forall i: nat :: CodeLiveFrom(log, i, code) ==>
              var p := log[i].pending;
              pending == Some(PendingCode(p.clientId, p.redirectUri, p.codeChallenge, FromEpoch(ToEpoch(p.expiresAt))))
  {
    CodeRowIff(log, code);
  }

  lemma SweptTables(t: Tables, now: int, retention: nat, gone: set<string>)
    requires gone == set k | k in t.sessions && t.sessions[k].lastSeen <= Cutoff(now, retention)
    ensures Apply(t, SessionsSwept(now, retention)) == t.(sessions := t.sessions - gone)
  {
  }

  lemma CheckedTables(t: Tables, token: string, now: int)
    ensures Apply(t, TokenChecked(token, now)) ==
            t.(tokens := map k | k in t.tokens && !(t.tokens[k] <= ToEpoch(now)) :: t.tokens[k],
               codes := map k | k in t.codes && !(t.codes[k].expiresAt <= ToEpoch(now)) :: t.codes[k])
  {
  }

  lemma RowsSplit(rows: map<string, SessionRow>, gone: set<string>)
    requires gone <= rows.Keys
    ensures |gone| + |rows - gone| == |rows|
  {
    assert (rows - gone).Keys == rows.Keys - gone;
    assert |rows.Keys| == |gone| + |rows.Keys - gone|;
  }
}

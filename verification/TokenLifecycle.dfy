/**
 * Authorization codes and refresh tokens (sections 4.1.2 and 6 of RFC 6749): the store, the grant
 * handlers of the two front ends that share it, and what holds over every interleaving of them.
 */
module TokenLifecycle {
  import opened Wrappers

  // ------------------------------------------------------------------ the store

  /** Points in time and durations are nanoseconds. */
  const SECOND := 1_000_000_000
  const CODE_LIFETIME := 10 * 60 * SECOND
  const TOKEN_LIFETIME := 7 * 24 * 3600 * SECOND

  datatype Code = Code(
    client: string, user: string, redirectUri: string, scope: string, state: string, nonce: string,
    challenge: string, challengeMethod: string, expiresAt: int)

  datatype Token = Token(client: string, user: string, scope: string, expiresAt: int)

  datatype Client = Client(public: bool, secret: string)

  datatype IdP = IdP(codes: map<string, Code>, tokens: map<string, Token>)

  datatype GrantError =
    | UnknownClient | ClientAuthenticationFailed
    | InvalidCode | CodeExpired | ClientMismatch | RedirectMismatch | PkceFailed
    | InvalidToken | TokenExpired
    | ServerError

  /** The base64url form of the SHA-256 digest. */
  type Digest = string -> string

  predicate ValidatePkce(verifier: string, challenge: string, challengeMethod: string, digest: Digest) {
    verifier != "" && if challengeMethod == "plain" then verifier == challenge else digest(verifier) == challenge
  }

  /** The first check a presented code fails, in the order the program makes them. */
  function CodeFault(c: Code, now: int, client: string, redirectUri: string, verifier: string, digest: Digest): Option<GrantError> {
    if c.expiresAt < now then Some(CodeExpired)
    else if c.client != client then Some(ClientMismatch)
    else if c.redirectUri != redirectUri then Some(RedirectMismatch)
    else if c.challenge != "" && !ValidatePkce(verifier, c.challenge, c.challengeMethod, digest) then Some(PkceFailed)
    else None
  }

  /** A presented code is deleted before it is checked. */
  function Redeem(s: IdP, now: int, code: string, client: string, redirectUri: string, verifier: string, digest: Digest):
    (IdP, Result<Code, GrantError>)
  {
    if code !in s.codes then (s, Err(InvalidCode))
    else
      var c := s.codes[code];
      (s.(codes := s.codes - {code}),
       match CodeFault(c, now, client, redirectUri, verifier, digest) case Some(e) => Err(e) case None => Ok(c))
  }

  /** A refresh token is deleted when it is used or found expired, but kept for the wrong client. */
  function Rotate(s: IdP, now: int, token: string, client: string): (IdP, Result<Token, GrantError>) {
    if token !in s.tokens then (s, Err(InvalidToken))
    else
      var t := s.tokens[token];
      if t.expiresAt < now then (s.(tokens := s.tokens - {token}), Err(TokenExpired))
      else if t.client != client then (s, Err(ClientMismatch))
      else (s.(tokens := s.tokens - {token}), Ok(t))
  }

  class MockIdP {
    const clients: map<string, Client>
    const digest: Digest
    var authCodes: map<string, Code>
    var refreshTokens: map<string, Token>

    ghost function State(): IdP
      reads this
    {
      IdP(authCodes, refreshTokens)
    }

    constructor (clients: map<string, Client>, digest: Digest)
      ensures this.clients == clients && this.digest == digest && State() == IdP(map[], map[])
    {
      this.clients := clients;
      this.digest := digest;
      authCodes := map[];
      refreshTokens := map[];
    }

    method CreateAuthorizationCode(code: string, details: Code, now: int)
      modifies this
      ensures State() == old(State()).(codes := old(State()).codes[code := details.(expiresAt := now + CODE_LIFETIME)])
    {
      authCodes := authCodes[code := details.(expiresAt := now + CODE_LIFETIME)];
    }

    method ValidateAuthorizationCode(code: string, client: string, redirectUri: string, verifier: string, now: int)
      returns (r: Result<Code, GrantError>)
      modifies this
      ensures (State(), r) == Redeem(old(State()), now, code, client, redirectUri, verifier, digest)
    {
      if code !in authCodes {
        return Err(InvalidCode);
      }
      var authCode := authCodes[code];
      authCodes := authCodes - {code};
      if authCode.expiresAt < now {
        return Err(CodeExpired);
      }
      if authCode.client != client {
        return Err(ClientMismatch);
      }
      if authCode.redirectUri != redirectUri {
        return Err(RedirectMismatch);
      }
      if authCode.challenge != "" {
        if !ValidatePkce(verifier, authCode.challenge, authCode.challengeMethod, digest) {
          return Err(PkceFailed);
        }
      }
      return Ok(authCode);
    }

    method StoreRefreshToken(token: string, client: string, user: string, scope: string, expiresAt: int)
      modifies this
      ensures State() == old(State()).(tokens := old(State()).tokens[token := Token(client, user, scope, expiresAt)])
    {
      refreshTokens := refreshTokens[token := Token(client, user, scope, expiresAt)];
    }

    method ValidateRefreshToken(token: string, client: string, now: int) returns (r: Result<Token, GrantError>)
      modifies this
      ensures (State(), r) == Rotate(old(State()), now, token, client)
    {
      if token !in refreshTokens {
        return Err(InvalidToken);
      }
      var rt := refreshTokens[token];
      if rt.expiresAt < now {
        refreshTokens := refreshTokens - {token};
        return Err(TokenExpired);
      }
      if rt.client != client {
        return Err(ClientMismatch);
      }
      refreshTokens := refreshTokens - {token};
      return Ok(rt);
    }

    method RevokeRefreshToken(token: string)
      modifies this
      ensures State() == old(State()).(tokens := old(State()).tokens - {token})
    {
      refreshTokens := refreshTokens - {token};
    }
  }

  // ------------------------------------------------------------------ the grant handlers

  datatype Endpoint = OAuth | Oidc

  datatype CodeForm = CodeForm(code: string, client: string, secret: string, redirectUri: string, verifier: string)

  datatype RefreshForm = RefreshForm(token: string, client: string, secret: string, scope: string)

  datatype RevokeForm = RevokeForm(token: string, hint: string, client: string, secret: string)

  /** Whom and what the tokens of a granted request are issued for. */
  datatype Grant = Grant(client: string, user: string, scope: string)

  function ClientFault(clients: map<string, Client>, client: string, secret: string): Option<GrantError> {
    if client !in clients then Some(UnknownClient)
    else if !clients[client].public && clients[client].secret != secret then Some(ClientAuthenticationFailed)
    else None
  }

  /** A code grant up to the point where the tokens are made. The OpenID endpoint reads the client from the code. */
  function BeginCode(s: IdP, clients: map<string, Client>, endpoint: Endpoint, form: CodeForm, now: int, digest: Digest):
    (IdP, Result<Grant, GrantError>)
  {
    match ClientFault(clients, form.client, form.secret)
    case Some(e) => (s, Err(e))
    case None =>
      var (after, r) := Redeem(s, now, form.code, form.client, form.redirectUri, form.verifier, digest);
      match r
      case Err(e) => (after, Err(e))
      case Ok(c) => (after, Ok(Grant(if endpoint.OAuth? then form.client else c.client, c.user, c.scope)))
  }

  /** A refresh up to the point where the new tokens are made; both endpoints do the same. */
  function BeginRefresh(s: IdP, clients: map<string, Client>, form: RefreshForm, now: int): (IdP, Result<Grant, GrantError>) {
    match ClientFault(clients, form.client, form.secret)
    case Some(e) => (s, Err(e))
    case None =>
      var (after, r) := Rotate(s, now, form.token, form.client);
      match r
      case Err(e) => (after, Err(e))
      case Ok(t) => (after, Ok(Grant(form.client, t.user, if form.scope == "" then t.scope else form.scope)))
  }

  /** The end of a grant: the new refresh token is stored. */
  function Finish(s: IdP, grant: Grant, token: string, now: int): IdP {
    s.(tokens := s.tokens[token := Token(grant.client, grant.user, grant.scope, now + TOKEN_LIFETIME)])
  }

  function FinishIfSigned(begun: (IdP, Result<Grant, GrantError>), signed: Option<string>, now: int):
    (IdP, Result<string, GrantError>)
  {
    match begun.1
    case Err(e) => (begun.0, Err(e))
    case Ok(grant) =>
      match signed
      case None => (begun.0, Err(ServerError))
      case Some(token) => (Finish(begun.0, grant, token, now), Ok(token))
  }

  function Revoke(s: IdP, clients: map<string, Client>, form: RevokeForm): IdP {
    if ClientFault(clients, form.client, form.secret).None? && form.hint in {"refresh_token", ""}
    then s.(tokens := s.tokens - {form.token})
    else s
  }

  /** `signed` is the new refresh token, `None` when signing fails; `later` is the time it is stored. */
  class TokenEndpoint {
    const idp: MockIdP
    const endpoint: Endpoint

    constructor (idp: MockIdP, endpoint: Endpoint)
      ensures this.idp == idp && this.endpoint == endpoint
    {
      this.idp := idp;
      this.endpoint := endpoint;
    }

    method Authenticate(client: string, secret: string) returns (fault: Option<GrantError>)
      ensures fault == ClientFault(idp.clients, client, secret)
    {
      if client !in idp.clients {
        return Some(UnknownClient);
      }
      if !idp.clients[client].public {
        if idp.clients[client].secret != secret {
          return Some(ClientAuthenticationFailed);
        }
      }
      return None;
    }

    method HandleAuthorizationCodeGrant(form: CodeForm, now: int, signed: Option<string>, later: int)
      returns (r: Result<string, GrantError>)
      modifies idp
      ensures (idp.State(), r) ==
              FinishIfSigned(BeginCode(old(idp.State()), idp.clients, endpoint, form, now, idp.digest), signed, later)
    {
      var fault := Authenticate(form.client, form.secret);
      if fault.Some? {
        return Err(fault.value);
      }
      var authCode := idp.ValidateAuthorizationCode(form.code, form.client, form.redirectUri, form.verifier, now);
      if authCode.Err? {
        return Err(authCode.error);
      }
      var client := form.client;
      if endpoint.Oidc? {
        client := authCode.value.client;
      }
      r := IssueTokens(authCode.value.user, client, authCode.value.scope, signed, later);
    }

    method HandleRefreshTokenGrant(form: RefreshForm, now: int, signed: Option<string>, later: int)
      returns (r: Result<string, GrantError>)
      modifies idp
      ensures (idp.State(), r) == FinishIfSigned(BeginRefresh(old(idp.State()), idp.clients, form, now), signed, later)
    {
      var fault := Authenticate(form.client, form.secret);
      if fault.Some? {
        return Err(fault.value);
      }
      var rt := idp.ValidateRefreshToken(form.token, form.client, now);
      if rt.Err? {
        return Err(rt.error);
      }
      var scope := form.scope;
      if scope == "" {
        scope := rt.value.scope;
      }
      r := IssueTokens(rt.value.user, form.client, scope, signed, later);
    }

    method IssueTokens(user: string, client: string, scope: string, signed: Option<string>, now: int)
      returns (r: Result<string, GrantError>)
      modifies idp
      ensures (idp.State(), r) == FinishIfSigned((old(idp.State()), Ok(Grant(client, user, scope))), signed, now)
    {
      if signed.None? {
        return Err(ServerError);
      }
      idp.StoreRefreshToken(signed.value, client, user, scope, now + TOKEN_LIFETIME);
      return Ok(signed.value);
    }

    method HandleRevoke(form: RevokeForm)
      modifies idp
      ensures idp.State() == Revoke(old(idp.State()), idp.clients, form)
    {
      var fault := Authenticate(form.client, form.secret);
      if fault.Some? {
        return;
      }
      if form.hint == "refresh_token" || form.hint == "" {
        idp.RevokeRefreshToken(form.token);
      }
    }
  }

  // ------------------------------------------------------------------ runs

  /** A granted request that has not stored its refresh token yet, and the code it goes back to. */
  datatype InFlight = InFlight(origin: string, grant: Grant)

  /** Validating a code or token and storing the next token are separate locked steps. */
  datatype Step =
    | Issue(code: string, details: Code, now: int)
    | RedeemStep(key: nat, endpoint: Endpoint, form: CodeForm, now: int)
    | RefreshStep(key: nat, refresh: RefreshForm, now: int)
    | Store(key: nat, token: string, now: int)
    | Abort(key: nat)
    | RevokeStep(revoke: RevokeForm)

  /**
   * `issued` holds every code ever created, `origin` the code every stored token goes back to,
   * `redeemed` the codes in the order they were successfully exchanged.
   */
  datatype System = System(
    idp: IdP, grants: map<nat, InFlight>, issued: map<string, Code>, origin: map<string, string>, redeemed: seq<string>)

  const EMPTY := System(IdP(map[], map[]), map[], map[], map[], [])

  /** Codes, tokens and request keys are fresh: a step that would repeat one does nothing. */
  function Next(s: System, step: Step, clients: map<string, Client>, digest: Digest): System {
    match step
    case Issue(code, details, now) =>
      if code in s.issued then s
      else
        var c := details.(expiresAt := now + CODE_LIFETIME);
        s.(idp := s.idp.(codes := s.idp.codes[code := c]), issued := s.issued[code := c])
    case RedeemStep(key, endpoint, form, now) =>
      if key in s.grants then s
      else
        var (idp, r) := BeginCode(s.idp, clients, endpoint, form, now, digest);
        if r.Err? then s.(idp := idp)
        else s.(idp := idp, grants := s.grants[key := InFlight(form.code, r.value)], redeemed := s.redeemed + [form.code])
    case RefreshStep(key, form, now) =>
      if key in s.grants then s
      else
        var (idp, r) := BeginRefresh(s.idp, clients, form, now);
        if r.Err? || form.token !in s.origin then s.(idp := idp)
        else s.(idp := idp, grants := s.grants[key := InFlight(s.origin[form.token], r.value)])
    case Store(key, token, now) =>
      if key !in s.grants || token in s.origin then s
      else
        var flight := s.grants[key];
        s.(idp := Finish(s.idp, flight.grant, token, now),
           grants := s.grants - {key},
           origin := s.origin[token := flight.origin])
    case Abort(key) => s.(grants := s.grants - {key})
    case RevokeStep(form) => s.(idp := Revoke(s.idp, clients, form))
  }

  function Run(steps: seq<Step>, clients: map<string, Client>, digest: Digest): System {
    if steps == [] then EMPTY
    else Next(Run(steps[..|steps| - 1], clients, digest), steps[|steps| - 1], clients, digest)
  }

  /** What can still turn into tokens of a code's lineage. */
  datatype Holder = TheCode | Request(key: nat) | LiveToken(token: string)

  function Holders(s: System, code: string): set<Holder> {
    (if code in s.idp.codes then {TheCode} else {})
    + (set key | key in s.grants && s.grants[key].origin == code :: Request(key))
    + (set token | token in s.idp.tokens && token in s.origin && s.origin[token] == code :: LiveToken(token))
  }

  /** Two tokens that go back to the same code. */
  predicate SameOrigin(s: System, a: string, b: string) {
    a in s.origin && b in s.origin && s.origin[a] == s.origin[b]
  }

  /** Holders only disappear, or one of them makes way for one new one. */
  ghost predicate Moves(before: set<Holder>, after: set<Holder>) {
    after <= before || exists x, y :: x in before && after <= before - {x} + {y}
  }

  // ------------------------------------------------------------------ the invariant

  predicate CodesKnown(codes: map<string, Code>, issued: map<string, Code>) {
    forall code :: code in codes ==> code in issued && codes[code] == issued[code]
  }

  /** For the user and the client of the code it goes back to. */
  predicate Owed(origin: string, client: string, user: string, issued: map<string, Code>) {
    origin in issued && user == issued[origin].user && client == issued[origin].client
  }

  predicate GrantsRooted(grants: map<nat, InFlight>, issued: map<string, Code>) {
    forall key :: key in grants ==> Owed(grants[key].origin, grants[key].grant.client, grants[key].grant.user, issued)
  }

  predicate TokensRooted(tokens: map<string, Token>, origin: map<string, string>, issued: map<string, Code>) {
    && (forall token :: token in origin ==> origin[token] in issued)
    && (forall token :: token in tokens ==>
          token in origin && Owed(origin[token], tokens[token].client, tokens[token].user, issued))
  }

  predicate Rooted(s: System) {
    CodesKnown(s.idp.codes, s.issued) && GrantsRooted(s.grants, s.issued) && TokensRooted(s.idp.tokens, s.origin, s.issued)
  }

  /** An exchanged code is gone, and was exchanged only once. */
  predicate Once(redeemed: seq<string>, codes: map<string, Code>, issued: map<string, Code>) {
    && (forall i :: 0 <= i < |redeemed| ==> redeemed[i] in issued && redeemed[i] !in codes)
    && (forall i, j :: 0 <= i < j < |redeemed| ==> redeemed[i] != redeemed[j])
  }

  ghost predicate Inv(s: System) {
    Rooted(s) && Once(s.redeemed, s.idp.codes, s.issued)
  }

  /** What the first half of a code grant does to the store. */
  lemma BeginCodeEffect(s: IdP, clients: map<string, Client>, endpoint: Endpoint, form: CodeForm, now: int, digest: Digest)
    ensures var (after, r) := BeginCode(s, clients, endpoint, form, now, digest);
            && after.tokens == s.tokens
            && (after == s || after.codes == s.codes - {form.code})
            && (r.Ok? ==> form.code in s.codes && after.codes == s.codes - {form.code}
                          && r.value.user == s.codes[form.code].user && r.value.client == s.codes[form.code].client
                          && r.value.scope == s.codes[form.code].scope)
  {
    hide ClientFault;
    hide ValidatePkce;
  }

  lemma BeginRefreshEffect(s: IdP, clients: map<string, Client>, form: RefreshForm, now: int)
    ensures var (after, r) := BeginRefresh(s, clients, form, now);
            && after.codes == s.codes
            && (after == s || after.tokens == s.tokens - {form.token})
            && (r.Ok? ==> form.token in s.tokens && after.tokens == s.tokens - {form.token}
                          && r.value.user == s.tokens[form.token].user && r.value.client == s.tokens[form.token].client)
  {
    hide ClientFault;
  }

  lemma FewerCodes(codes: map<string, Code>, code: string, issued: map<string, Code>, redeemed: seq<string>)
    requires CodesKnown(codes, issued) && Once(redeemed, codes, issued)
    ensures CodesKnown(codes - {code}, issued) && Once(redeemed, codes - {code}, issued)
    ensures code in codes ==> Once(redeemed + [code], codes - {code}, issued)
  {
  }

  lemma FewerTokens(tokens: map<string, Token>, token: string, origin: map<string, string>, issued: map<string, Code>)
    requires TokensRooted(tokens, origin, issued)
    ensures TokensRooted(tokens - {token}, origin, issued)
  {
  }

  lemma FewerGrants(grants: map<nat, InFlight>, key: nat, issued: map<string, Code>)
    requires GrantsRooted(grants, issued)
    ensures GrantsRooted(grants - {key}, issued)
  {
  }

  lemma IssueInvariant(s: System, step: Step, clients: map<string, Client>, digest: Digest)
    requires Inv(s) && step.Issue?
    ensures Inv(Next(s, step, clients, digest))
  {
  }

  lemma RedeemInvariant(s: System, step: Step, clients: map<string, Client>, digest: Digest)
    requires Inv(s) && step.RedeemStep?
    ensures Inv(Next(s, step, clients, digest))
  {
    BeginCodeEffect(s.idp, clients, step.endpoint, step.form, step.now, digest);
    FewerCodes(s.idp.codes, step.form.code, s.issued, s.redeemed);
    var (idp, r) := BeginCode(s.idp, clients, step.endpoint, step.form, step.now, digest);
    hide BeginCode;
    hide Once;
    hide TokensRooted;
    if r.Ok? {
      assert CodesKnown(s.idp.codes, s.issued);
      hide CodesKnown;
      assert GrantsRooted(s.grants[step.key := InFlight(step.form.code, r.value)], s.issued);
    }
  }

  lemma RefreshInvariant(s: System, step: Step, clients: map<string, Client>, digest: Digest)
    requires Inv(s) && step.RefreshStep?
    ensures Inv(Next(s, step, clients, digest))
  {
    BeginRefreshEffect(s.idp, clients, step.refresh, step.now);
    FewerTokens(s.idp.tokens, step.refresh.token, s.origin, s.issued);
    hide BeginRefresh;
    hide Once;
    hide CodesKnown;
  }

  lemma StoreInvariant(s: System, step: Step, clients: map<string, Client>, digest: Digest)
    requires Inv(s) && step.Store?
    ensures Inv(Next(s, step, clients, digest))
  {
    FewerGrants(s.grants, step.key, s.issued);
    hide Once;
    hide CodesKnown;
  }

  lemma EndInvariant(s: System, step: Step, clients: map<string, Client>, digest: Digest)
    requires Inv(s) && (step.Abort? || step.RevokeStep?)
    ensures Inv(Next(s, step, clients, digest))
  {
    hide ClientFault;
    hide Once;
    hide CodesKnown;
    hide GrantsRooted;
    hide TokensRooted;
    if step.Abort? {
      FewerGrants(s.grants, step.key, s.issued);
    } else {
      FewerTokens(s.idp.tokens, step.revoke.token, s.origin, s.issued);
    }
  }

  lemma InvariantStep(s: System, step: Step, clients: map<string, Client>, digest: Digest)
    requires Inv(s)
    ensures Inv(Next(s, step, clients, digest))
  {
    hide Inv;
    hide Next;
    match step
    case Issue(_, _, _) => IssueInvariant(s, step, clients, digest);
    case RedeemStep(_, _, _, _) => RedeemInvariant(s, step, clients, digest);
    case RefreshStep(_, _, _) => RefreshInvariant(s, step, clients, digest);
    case Store(_, _, _) => StoreInvariant(s, step, clients, digest);
    case Abort(_) => EndInvariant(s, step, clients, digest);
    case RevokeStep(_) => EndInvariant(s, step, clients, digest);
  }

  /**
   * Conservation: issuing a code gives its lineage its one holder; no other step adds a holder
   * without taking one away.
   */
  lemma LineageStep(s: System, step: Step, clients: map<string, Client>, digest: Digest, code: string)
    requires Rooted(s)
    ensures var before, after := Holders(s, code), Holders(Next(s, step, clients, digest), code);
            if step.Issue? && step.code == code && code !in s.issued
            then before == {} && after == {TheCode}
            else Moves(before, after)
  {
    hide Rooted;
    hide Holders;
    hide Moves;
    match step
    case Issue(_, _, _) =>
      IssueMoves(s, step, clients, digest, code);
      Stays(Holders(s, code));
    case RedeemStep(_, _, _, _) => RedeemMoves(s, step, clients, digest, code);
    case RefreshStep(_, _, _) => RefreshMoves(s, step, clients, digest, code);
    case Store(_, _, _) => StoreMoves(s, step, clients, digest, code);
    case Abort(_) => EndMoves(s, step, clients, digest, code);
    case RevokeStep(_) => EndMoves(s, step, clients, digest, code);
  }

  lemma Stays(holders: set<Holder>)
    ensures Moves(holders, holders)
  {
  }

  lemma IssueMoves(s: System, step: Step, clients: map<string, Client>, digest: Digest, code: string)
    requires Rooted(s) && step.Issue?
    ensures var before, after := Holders(s, code), Holders(Next(s, step, clients, digest), code);
            if step.code == code && code !in s.issued then before == {} && after == {TheCode} else after == before
  {
  }

  lemma RedeemMoves(s: System, step: Step, clients: map<string, Client>, digest: Digest, code: string)
    requires step.RedeemStep?
    ensures Moves(Holders(s, code), Holders(Next(s, step, clients, digest), code))
  {
    BeginCodeEffect(s.idp, clients, step.endpoint, step.form, step.now, digest);
    hide BeginCode;
    var before, after := Holders(s, code), Holders(Next(s, step, clients, digest), code);
    assert after <= before || (step.form.code == code && TheCode in before && after <= before - {TheCode} + {Request(step.key)});
  }

  lemma RefreshMoves(s: System, step: Step, clients: map<string, Client>, digest: Digest, code: string)
    requires step.RefreshStep?
    ensures Moves(Holders(s, code), Holders(Next(s, step, clients, digest), code))
  {
    BeginRefreshEffect(s.idp, clients, step.refresh, step.now);
    hide BeginRefresh;
    var before, after := Holders(s, code), Holders(Next(s, step, clients, digest), code);
    var token := LiveToken(step.refresh.token);
    assert after <= before || (token in before && after <= before - {token} + {Request(step.key)});
  }

  lemma StoreMoves(s: System, step: Step, clients: map<string, Client>, digest: Digest, code: string)
    requires step.Store?
    ensures Moves(Holders(s, code), Holders(Next(s, step, clients, digest), code))
  {
    var before, after := Holders(s, code), Holders(Next(s, step, clients, digest), code);
    var request := Request(step.key);
    assert after <= before || (request in before && after <= before - {request} + {LiveToken(step.token)});
  }

  lemma EndMoves(s: System, step: Step, clients: map<string, Client>, digest: Digest, code: string)
    requires step.Abort? || step.RevokeStep?
    ensures Moves(Holders(s, code), Holders(Next(s, step, clients, digest), code))
  {
    hide ClientFault;
    assert Holders(Next(s, step, clients, digest), code) <= Holders(s, code);
  }

  lemma MovesNeverGrows(before: set<Holder>, after: set<Holder>)
    requires Moves(before, after)
    ensures |after| <= |before|
  {
    if after <= before {
      Smaller(after, before);
    } else {
      var x, y :| x in before && after <= before - {x} + {y};
      Smaller(after, before - {x} + {y});
    }
  }

  lemma {:induction false} Smaller(a: set<Holder>, b: set<Holder>)
    requires a <= b
    ensures |a| <= |b|
  {
    if a != {} {
      var x :| x in a;
      Smaller(a - {x}, b - {x});
    }
  }

  // ------------------------------------------------------------------ what holds over every run

  lemma {:induction false} RunInvariant(steps: seq<Step>, clients: map<string, Client>, digest: Digest, code: string)
    ensures var s := Run(steps, clients, digest); Inv(s) && |Holders(s, code)| <= 1
  {
    if steps == [] {
      assert Holders(EMPTY, code) == {};
    } else {
      hide Next;
      hide Rooted;
      hide Once;
      hide Holders;
      hide Moves;
      var n := |steps| - 1;
      var s := Run(steps[..n], clients, digest);
      RunInvariant(steps[..n], clients, digest, code);
      InvariantStep(s, steps[n], clients, digest);
      LineageStep(s, steps[n], clients, digest, code);
      if Moves(Holders(s, code), Holders(Next(s, steps[n], clients, digest), code)) {
        MovesNeverGrows(Holders(s, code), Holders(Next(s, steps[n], clients, digest), code));
      }
    }
  }

  /**
   * Over every run, through either endpoint: a code is exchanged at most once; a code, the requests
   * under way for it and its live refresh tokens are never more than one in all; and every
   * refresh token is for the user and the client its code was issued to.
   */
  lemma LineageConserved(steps: seq<Step>, clients: map<string, Client>, digest: Digest)
    ensures var s := Run(steps, clients, digest);
            && (forall i, j :: 0 <= i < j < |s.redeemed| ==> s.redeemed[i] != s.redeemed[j])
            && (forall code :: |Holders(s, code)| <= 1)
            && (forall a, b :: a in s.idp.tokens && b in s.idp.tokens && SameOrigin(s, a, b) ==> a == b)
            && (forall token :: token in s.idp.tokens ==>
                  token in s.origin && Owed(s.origin[token], s.idp.tokens[token].client, s.idp.tokens[token].user, s.issued))
  {
    hide Next;
    hide Run;
    var s := Run(steps, clients, digest);
    forall code ensures |Holders(s, code)| <= 1 {
      RunInvariant(steps, clients, digest, code);
    }
    RunInvariant(steps, clients, digest, "");
    forall a, b | a in s.idp.tokens && b in s.idp.tokens && SameOrigin(s, a, b) ensures a == b {
      OneToken(s, a, b);
    }
  }

  lemma OneToken(s: System, a: string, b: string)
    requires a in s.idp.tokens && b in s.idp.tokens && SameOrigin(s, a, b)
    requires |Holders(s, s.origin[a])| <= 1
    ensures a == b
  {
    Smaller({LiveToken(a), LiveToken(b)}, Holders(s, s.origin[a]));
  }

  /**
   * A code leaves the store exactly when an authenticated client presents it, whether or not it
   * is granted; and nothing ever brings it back.
   */
  lemma CodeLeavesExactly(s: System, step: Step, clients: map<string, Client>, digest: Digest, code: string)
    requires Rooted(s) && code in s.issued
    ensures var gone := code !in Next(s, step, clients, digest).idp.codes;
            gone <==> code !in s.idp.codes
                      || (step.RedeemStep? && step.key !in s.grants && step.form.code == code
                          && ClientFault(clients, step.form.client, step.form.secret).None?)
  {
    hide CodeFault;
    hide ClientFault;
    if step.RefreshStep? {
      BeginRefreshEffect(s.idp, clients, step.refresh, step.now);
      hide BeginRefresh;
    }
  }

  /** A live refresh token stops being live exactly by an accepted refresh, by being found expired, or by revocation. */
  lemma TokenLeavesExactly(s: System, step: Step, clients: map<string, Client>, digest: Digest, token: string)
    requires Rooted(s) && token in s.idp.tokens
    ensures var t := s.idp.tokens[token];
            token !in Next(s, step, clients, digest).idp.tokens <==>
              || (&& step.RefreshStep? && step.key !in s.grants && step.refresh.token == token
                  && ClientFault(clients, step.refresh.client, step.refresh.secret).None?
                  && (t.expiresAt < step.now || t.client == step.refresh.client))
              || (&& step.RevokeStep? && step.revoke.token == token && step.revoke.hint in {"refresh_token", ""}
                  && ClientFault(clients, step.revoke.client, step.revoke.secret).None?)
  {
    hide ClientFault;
    if step.RedeemStep? {
      BeginCodeEffect(s.idp, clients, step.endpoint, step.form, step.now, digest);
      hide BeginCode;
    }
  }

  /** Section 4.1.3 of RFC 6749 and section 4.6 of RFC 7636: everything a granted code exchange has proved. */
  predicate MayExchange(c: Code, form: CodeForm, now: int, digest: Digest) {
    && now <= c.expiresAt
    && form.client == c.client
    && form.redirectUri == c.redirectUri
    && (c.challenge == ""
        || (form.verifier != "" && c.challenge == (if c.challengeMethod == "plain" then form.verifier else digest(form.verifier))))
  }

  /** A code exchange or a refresh is granted exactly to an authenticated client that may have it, for the owner's user. */
  lemma GrantedExactly(s: IdP, clients: map<string, Client>, endpoint: Endpoint, form: CodeForm, refresh: RefreshForm, now: int, digest: Digest)
    ensures var r := BeginCode(s, clients, endpoint, form, now, digest).1;
            && (r.Ok? <==> && form.client in clients && (clients[form.client].public || clients[form.client].secret == form.secret)
                           && form.code in s.codes && MayExchange(s.codes[form.code], form, now, digest))
            && (r.Ok? ==> r.value == Grant(form.client, s.codes[form.code].user, s.codes[form.code].scope))
    ensures BeginRefresh(s, clients, refresh, now).1.Ok? <==>
              && refresh.client in clients && (clients[refresh.client].public || clients[refresh.client].secret == refresh.secret)
              && refresh.token in s.tokens && now <= s.tokens[refresh.token].expiresAt
              && refresh.client == s.tokens[refresh.token].client
  {
  }

  predicate Authenticates(clients: map<string, Client>, client: string, secret: string) {
    client in clients && (clients[client].public || clients[client].secret == secret)
  }

  /** Why a request is refused: the client comes first, then what it presents, then whether it may present it. */
  lemma RefusedExactly(s: IdP, clients: map<string, Client>, endpoint: Endpoint, form: CodeForm, refresh: RefreshForm, now: int, digest: Digest)
    ensures var r := BeginCode(s, clients, endpoint, form, now, digest).1;
            var mine := Authenticates(clients, form.client, form.secret);
            && (r == Err(UnknownClient) <==> form.client !in clients)
            && (r == Err(ClientAuthenticationFailed) <==> form.client in clients && !mine)
            && (r == Err(InvalidCode) <==> mine && form.code !in s.codes)
            && (r == Err(CodeExpired) <==> mine && form.code in s.codes && now > s.codes[form.code].expiresAt)
            && (r in {Err(ClientMismatch), Err(RedirectMismatch), Err(PkceFailed)} ==>
                  && mine && form.code in s.codes && now <= s.codes[form.code].expiresAt
                  && (r == Err(ClientMismatch) <==> form.client != s.codes[form.code].client)
                  && (r == Err(PkceFailed) ==> form.redirectUri == s.codes[form.code].redirectUri))
    ensures var r := BeginRefresh(s, clients, refresh, now).1;
            var mine := Authenticates(clients, refresh.client, refresh.secret);
            && (r == Err(UnknownClient) <==> refresh.client !in clients)
            && (r == Err(ClientAuthenticationFailed) <==> refresh.client in clients && !mine)
            && (r == Err(InvalidToken) <==> mine && refresh.token !in s.tokens)
            && (r == Err(TokenExpired) <==> mine && refresh.token in s.tokens && now > s.tokens[refresh.token].expiresAt)
            && (r == Err(ClientMismatch) <==> mine && refresh.token in s.tokens && now <= s.tokens[refresh.token].expiresAt
                                              && refresh.client != s.tokens[refresh.token].client)
  {
    hide ValidatePkce;
  }

  /** The two endpoints grant the same tokens for a code. */
  lemma EndpointsAgree(s: IdP, clients: map<string, Client>, form: CodeForm, now: int, digest: Digest)
    ensures BeginCode(s, clients, OAuth, form, now, digest) == BeginCode(s, clients, Oidc, form, now, digest)
  {
  }

  // ------------------------------------------------------------------ scopes

  /** The parts of a text between spaces. */
  function Words(text: string): seq<string> {
    if text == "" then [""]
    else
      var rest := Words(text[1..]);
      if text[0] == ' ' || rest == [] then [""] + rest else [[text[0]] + rest[0]] + rest[1..]
  }

  /** What a scope parameter asks for (section 3.3 of RFC 6749). */
  function ScopeSet(scope: string): set<string> {
    set word | word in Words(scope) && word != ""
  }

  /**
   * A refresh widens what the replaced token was granted exactly when it asks for something the
   * token does not have: the program does not check or narrow a requested scope.
   */
  lemma RefreshWidensExactly(s: IdP, clients: map<string, Client>, form: RefreshForm, now: int)
    requires BeginRefresh(s, clients, form, now).1.Ok?
    ensures form.token in s.tokens
    ensures var before, after := ScopeSet(s.tokens[form.token].scope), ScopeSet(BeginRefresh(s, clients, form, now).1.value.scope);
            && (after <= before <==> ScopeSet(form.scope) <= before)
            && (form.scope == "" ==> after == before)
  {
    assert Words("") == [""];
    hide Words;
  }

  /** A refresh asks for no more than its token has. */
  predicate Modest(s: System, step: Step) {
    step.RefreshStep? && step.refresh.token in s.idp.tokens ==>
      ScopeSet(step.refresh.scope) <= ScopeSet(s.idp.tokens[step.refresh.token].scope)
  }

  predicate GrantsWithin(grants: map<nat, InFlight>, issued: map<string, Code>) {
    forall key :: key in grants ==>
      grants[key].origin in issued && ScopeSet(grants[key].grant.scope) <= ScopeSet(issued[grants[key].origin].scope)
  }

  predicate TokensWithin(tokens: map<string, Token>, origin: map<string, string>, issued: map<string, Code>) {
    forall token :: token in tokens ==>
      && token in origin && origin[token] in issued
      && ScopeSet(tokens[token].scope) <= ScopeSet(issued[origin[token]].scope)
  }

  predicate ScopesWithin(s: System) {
    GrantsWithin(s.grants, s.issued) && TokensWithin(s.idp.tokens, s.origin, s.issued)
  }

  lemma RedeemScope(s: System, step: Step, clients: map<string, Client>, digest: Digest)
    requires Inv(s) && ScopesWithin(s) && step.RedeemStep?
    ensures ScopesWithin(Next(s, step, clients, digest))
  {
    BeginCodeEffect(s.idp, clients, step.endpoint, step.form, step.now, digest);
    var (idp, r) := BeginCode(s.idp, clients, step.endpoint, step.form, step.now, digest);
    hide BeginCode;
    hide Once;
    hide TokensRooted;
    hide GrantsRooted;
    hide ScopeSet;
    if r.Ok? {
      assert GrantsWithin(s.grants[step.key := InFlight(step.form.code, r.value)], s.issued);
    }
  }

  lemma RefreshScope(s: System, step: Step, clients: map<string, Client>, digest: Digest)
    requires Inv(s) && ScopesWithin(s) && step.RefreshStep? && Modest(s, step)
    ensures ScopesWithin(Next(s, step, clients, digest))
  {
    BeginRefreshEffect(s.idp, clients, step.refresh, step.now);
    var (idp, r) := BeginRefresh(s.idp, clients, step.refresh, step.now);
    if r.Ok? {
      RefreshWidensExactly(s.idp, clients, step.refresh, step.now);
    }
    hide BeginRefresh;
    hide Once;
    hide CodesKnown;
    hide TokensRooted;
    hide GrantsRooted;
    hide ScopeSet;
  }

  lemma OtherScope(s: System, step: Step, clients: map<string, Client>, digest: Digest)
    requires Inv(s) && ScopesWithin(s) && !step.RedeemStep? && !step.RefreshStep?
    ensures ScopesWithin(Next(s, step, clients, digest))
  {
    hide ClientFault;
    hide ScopeSet;
    hide Once;
    hide TokensRooted;
    hide GrantsRooted;
  }

  /**
   * Over every run in which no refresh asks for more than its token has, every live refresh
   * token has at most the scope its code was issued with.
   */
  lemma {:induction false} ModestRunsKeepScope(steps: seq<Step>, clients: map<string, Client>, digest: Digest)
    requires forall n :: 0 <= n < |steps| ==> Modest(Run(steps[..n], clients, digest), steps[n])
    ensures ScopesWithin(Run(steps, clients, digest))
  {
    if steps != [] {
      var n := |steps| - 1;
      var front := steps[..n];
      var s := Run(front, clients, digest);
      hide Modest;
      hide Next;
      forall k | 0 <= k < n ensures Modest(Run(front[..k], clients, digest), front[k]) {
        assert front[..k] == steps[..k];
      }
      ModestRunsKeepScope(front, clients, digest);
      RunInvariant(front, clients, digest, "");
      hide Inv;
      hide ScopesWithin;
      if steps[n].RedeemStep? {
        RedeemScope(s, steps[n], clients, digest);
      } else if steps[n].RefreshStep? {
        RefreshScope(s, steps[n], clients, digest);
      } else {
        OtherScope(s, steps[n], clients, digest);
      }
    }
  }

  /** A refresh may ask for more than was granted, and gets it. */
  lemma RefreshCanWidenScope(digest: Digest)
    ensures var clients := map["app" := Client(true, "")];
            var s := IdP(map[], map["t" := Token("app", "ann", "read", 10)]);
            BeginRefresh(s, clients, RefreshForm("t", "app", "", "read admin"), 5).1 == Ok(Grant("app", "ann", "read admin"))
  {
    var clients := map["app" := Client(true, "")];
    assert ClientFault(clients, "app", "").None?;
  }
}

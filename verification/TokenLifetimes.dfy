/** How long codes and refresh tokens are accepted, in every run. */
module TokenLifetimes {
  import opened Wrappers
  import opened TokenLifecycle

  /** The step presents or revokes the token. */
  predicate NamesToken(step: Step, token: string) {
    (step.RefreshStep? && step.refresh.token == token) || (step.RevokeStep? && step.revoke.token == token)
  }

  predicate NamesCode(step: Step, code: string) {
    step.RedeemStep? && step.form.code == code
  }

  /** The token is known; as long as it is stored it is stored like this. */
  predicate HoldsToken(s: System, token: string, t: Token) {
    token in s.origin && (token in s.idp.tokens ==> s.idp.tokens[token] == t)
  }

  predicate HoldsCode(s: System, code: string, c: Code) {
    code in s.issued && (code in s.idp.codes ==> s.idp.codes[code] == c)
  }

  lemma TokenStep(s: System, step: Step, clients: map<string, Client>, digest: Digest, token: string, t: Token)
    requires HoldsToken(s, token, t)
    ensures var next := Next(s, step, clients, digest);
            HoldsToken(next, token, t) && (!NamesToken(step, token) && token in s.idp.tokens ==> token in next.idp.tokens)
  {
    if step.RedeemStep? {
      BeginCodeEffect(s.idp, clients, step.endpoint, step.form, step.now, digest);
    } else if step.RefreshStep? {
      BeginRefreshEffect(s.idp, clients, step.refresh, step.now);
    }
    hide BeginCode;
    hide BeginRefresh;
    hide ClientFault;
  }

  lemma CodeStep(s: System, step: Step, clients: map<string, Client>, digest: Digest, code: string, c: Code)
    requires HoldsCode(s, code, c)
    ensures var next := Next(s, step, clients, digest);
            HoldsCode(next, code, c) && (!NamesCode(step, code) && code in s.idp.codes ==> code in next.idp.codes)
  {
    if step.RedeemStep? {
      BeginCodeEffect(s.idp, clients, step.endpoint, step.form, step.now, digest);
    } else if step.RefreshStep? {
      BeginRefreshEffect(s.idp, clients, step.refresh, step.now);
    }
    hide BeginCode;
    hide BeginRefresh;
    hide ClientFault;
  }

  lemma OneStep(steps: seq<Step>, step: Step, clients: map<string, Client>, digest: Digest)
    ensures Run(steps + [step], clients, digest) == Next(Run(steps, clients, digest), step, clients, digest)
  {
    assert (steps + [step])[..|steps|] == steps;
  }

  lemma {:induction false} TokenRun(steps: seq<Step>, later: seq<Step>, clients: map<string, Client>, digest: Digest, token: string, t: Token)
    requires HoldsToken(Run(steps, clients, digest), token, t) && token in Run(steps, clients, digest).idp.tokens
    ensures var s := Run(steps + later, clients, digest);
            HoldsToken(s, token, t) && ((forall n :: 0 <= n < |later| ==> !NamesToken(later[n], token)) ==> token in s.idp.tokens)
    decreases |later|
  {
    if later == [] {
      assert steps + later == steps;
    } else {
      var front, last := later[..|later| - 1], later[|later| - 1];
      TokenRun(steps, front, clients, digest, token, t);
      assert steps + later == (steps + front) + [last];
      OneStep(steps + front, last, clients, digest);
      hide Run;
      TokenStep(Run(steps + front, clients, digest), last, clients, digest, token, t);
      hide Next;
      hide NamesToken;
      assert forall n :: 0 <= n < |front| ==> front[n] == later[n];
    }
  }

  lemma {:induction false} CodeRun(steps: seq<Step>, later: seq<Step>, clients: map<string, Client>, digest: Digest, code: string, c: Code)
    requires HoldsCode(Run(steps, clients, digest), code, c) && code in Run(steps, clients, digest).idp.codes
    ensures var s := Run(steps + later, clients, digest);
            HoldsCode(s, code, c) && ((forall n :: 0 <= n < |later| ==> !NamesCode(later[n], code)) ==> code in s.idp.codes)
    decreases |later|
  {
    if later == [] {
      assert steps + later == steps;
    } else {
      var front, last := later[..|later| - 1], later[|later| - 1];
      CodeRun(steps, front, clients, digest, code, c);
      assert steps + later == (steps + front) + [last];
      OneStep(steps + front, last, clients, digest);
      hide Run;
      CodeStep(Run(steps + front, clients, digest), last, clients, digest, code, c);
      hide Next;
      hide NamesCode;
      assert forall n :: 0 <= n < |front| ==> front[n] == later[n];
    }
  }

  /**
   * A refresh token stored at `at` stays in the store until a step names it. As long as it is
   * there, a refresh with it is granted exactly to the authenticated client of its grant, for
   * the user of the grant, and no later than seven days after `at`.
   */
  lemma SevenDays(steps: seq<Step>, key: nat, token: string, at: int, later: seq<Step>,
                  clients: map<string, Client>, digest: Digest, form: RefreshForm, now: int)
    requires var s := Run(steps, clients, digest); key in s.grants && token !in s.origin
    requires form.token == token && form.client in clients
    requires clients[form.client].public || clients[form.client].secret == form.secret
    ensures var grant := Run(steps, clients, digest).grants[key].grant;
            var s := Run(steps + [Store(key, token, at)] + later, clients, digest);
            var r := BeginRefresh(s.idp, clients, form, now).1;
            && ((forall n :: 0 <= n < |later| ==> !NamesToken(later[n], token)) ==> token in s.idp.tokens)
            && (r.Ok? <==> token in s.idp.tokens && form.client == grant.client && now <= at + 7 * 24 * 60 * 60 * 1_000_000_000)
            && (r.Ok? ==> r.value.user == grant.user)
            && (token in s.idp.tokens && now > at + 7 * 24 * 60 * 60 * 1_000_000_000 ==> r == Err(TokenExpired))
  {
    var s := Run(steps, clients, digest);
    var grant := s.grants[key].grant;
    var t := Token(grant.client, grant.user, grant.scope, at + TOKEN_LIFETIME);
    OneStep(steps, Store(key, token, at), clients, digest);
    TokenRun(steps + [Store(key, token, at)], later, clients, digest, token, t);
    hide Run;
    hide NamesToken;
  }

  /**
   * A code issued at `at` stays until it is presented. As long as it is there, an authenticated
   * client exchanges it exactly if it may have it, and no later than ten minutes after `at`.
   */
  lemma TenMinutes(steps: seq<Step>, code: string, details: Code, at: int, later: seq<Step>,
                   clients: map<string, Client>, digest: Digest, endpoint: Endpoint, form: CodeForm, now: int)
    requires code !in Run(steps, clients, digest).issued && form.code == code && form.client in clients
    requires clients[form.client].public || clients[form.client].secret == form.secret
    ensures var s := Run(steps + [Issue(code, details, at)] + later, clients, digest);
            var r := BeginCode(s.idp, clients, endpoint, form, now, digest).1;
            && ((forall n :: 0 <= n < |later| ==> !NamesCode(later[n], code)) ==> code in s.idp.codes)
            && (r.Ok? <==> && code in s.idp.codes && now <= at + 10 * 60 * 1_000_000_000
                           && MayExchange(details.(expiresAt := now), form, now, digest))
            && (r.Ok? ==> r.value == Grant(details.client, details.user, details.scope))
            && (code in s.idp.codes && now > at + 10 * 60 * 1_000_000_000 ==> r == Err(CodeExpired))
  {
    var c := details.(expiresAt := at + CODE_LIFETIME);
    OneStep(steps, Issue(code, details, at), clients, digest);
    CodeRun(steps + [Issue(code, details, at)], later, clients, digest, code, c);
    hide Run;
    hide NamesCode;
  }
}

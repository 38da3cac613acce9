/** The client's authentication store: one shared state object updated by the
    login, register, logout and refresh actions, the default Authorization
    header of the HTTP client, and the 401 retry interceptor. */
module AuthStore {
  import opened Wrappers

  datatype User = User(id: nat, username: string, email: string, fullName: Option<string>, avatarUrl: Option<string>)

  datatype RegisterData = RegisterData(username: string, email: string, password: string, fullName: Option<string>)

  /** A request the store sends to the API. */
  datatype Call =
    | PostLogin(username: string, password: string)
    | PostRegister(data: RegisterData)
    | PostRefresh(bearer: string)

  /** What the server answered to one login POST: a body, or an error with the
      response's HTTP status (None when no response came) and the `detail` the
      response may carry. */
  datatype LoginOutcome =
    | LoginOk(accessToken: string, user: User)
    | LoginErr(status: Option<int>, detail: Option<string>)

  /** The server's answer to one refresh POST: a token, or a failure with
      the response's HTTP status (None when no response came). */
  datatype RefreshOutcome = RefreshOk(accessToken: string) | RefreshErr(status: Option<int>)

  /** The part of the state written to persistent storage (`partialize`). */
  datatype Snapshot = Snapshot(user: Option<User>, token: Option<string>, isAuthenticated: bool)

  /** `error.response?.data?.detail || fallback`. */
  function ErrorMessage(detail: Option<string>, fallback: string): (m: string)
    ensures detail.Some? && detail.value != "" ==> m == detail.value
    ensures detail.None? || detail.value == "" ==> m == fallback
  {
    if detail.Some? && detail.value != "" then detail.value else fallback
  }

  function Bearer(token: string): string {
    "Bearer " + token
  }

  /** `!token`: a missing or empty token. */
  predicate NoToken(token: Option<string>) {
    token.None? || token.value == ""
  }

  class Store {
    var user: Option<User>
    var token: Option<string>
    var isAuthenticated: bool
    var isLoading: bool
    var error: Option<string>
    /** `axios.defaults.headers.common['Authorization']`. */
    var authHeader: Option<string>
    /** Every request the actions sent, in order. */
    var calls: seq<Call>

    /** The initial state, before anything is restored. */
    constructor ()
      ensures user == None && token == None && !isAuthenticated && !isLoading && error == None
      ensures authHeader == None && calls == []
    {
      user, token, isAuthenticated, isLoading, error := None, None, false, false, None;
      authHeader, calls := None, [];
    }

    /** A store restored from persisted state: the header is set again when
        the restored token is non-empty. */
    constructor Rehydrate(s: Snapshot)
      ensures Persisted() == s
      ensures !isLoading && error == None && calls == []
      ensures authHeader == if NoToken(s.token) then None else Some(Bearer(s.token.value))
    {
      user, token, isAuthenticated := s.user, s.token, s.isAuthenticated;
      isLoading, error, calls := false, None, [];
      authHeader := if NoToken(s.token) then None else Some(Bearer(s.token.value));
    }

    /** `partialize`: exactly user, token and isAuthenticated are persisted. */
    function Persisted(): (s: Snapshot)
      reads this
      ensures s.user == user && s.token == token && s.isAuthenticated == isAuthenticated
    {
      Snapshot(user, token, isAuthenticated)
    }

    /** The first `set` of login and register, before the request is awaited. */
    method BeginRequest()
      modifies this`isLoading, this`error
      ensures isLoading && error == None
    {
      isLoading, error := true, None;
    }

    /** The rest of `login`, once the request settles. Returns false where the
        action rethrows. */
    method FinishLogin(outcome: LoginOutcome) returns (ok: bool)
      modifies this`user, this`token, this`isAuthenticated, this`isLoading, this`error, this`authHeader
      ensures ok == outcome.LoginOk?
      ensures !isLoading
      ensures outcome.LoginOk? ==>
        user == Some(outcome.user) && token == Some(outcome.accessToken) && isAuthenticated
        && error == None && authHeader == Some(Bearer(outcome.accessToken))
      ensures outcome.LoginErr? ==>
        user == None && token == None && !isAuthenticated
        && error == Some(ErrorMessage(outcome.detail, "Erro ao fazer login")) && authHeader == old(authHeader)
    {
      match outcome
      case LoginOk(accessToken, u) =>
        authHeader := Some(Bearer(accessToken));
        user, token, isAuthenticated, isLoading, error := Some(u), Some(accessToken), true, false, None;
        ok := true;
      case LoginErr(_, detail) =>
        error, isLoading, isAuthenticated, user, token := Some(ErrorMessage(detail, "Erro ao fazer login")), false, false, None, None;
        ok := false;
    }

    /** `login(username, password)`. The login POST passes the response
        interceptor: a 401 on it (wrong credentials) makes the interceptor run
        the refresh, here the corrected RefreshToken, and send the login once
        more, marked as retried; the answer to that resend is the one `login`
        awaits. `first` answers the first POST, `refresh` the refresh POST and
        `resend` the second login POST; an answer that is not asked for is
        ignored. */
    method Login(username: string, password: string, first: LoginOutcome, refresh: RefreshOutcome, resend: LoginOutcome)
      returns (ok: bool)
      modifies this`user, this`token, this`isAuthenticated, this`isLoading, this`error, this`authHeader, this`calls
      ensures calls == old(calls) + LoginCalls(username, password, first, old(token))
      ensures ok == Answer(first, resend).LoginOk? && !isLoading
      ensures Answer(first, resend).LoginOk? ==>
        user == Some(Answer(first, resend).user) && token == Some(Answer(first, resend).accessToken) && isAuthenticated
        && error == None && authHeader == Some(Bearer(Answer(first, resend).accessToken))
      ensures Answer(first, resend).LoginErr? ==>
        user == None && token == None && !isAuthenticated
        && error == Some(ErrorMessage(Answer(first, resend).detail, "Erro ao fazer login"))
        && authHeader == LoginHeader(old(authHeader), old(token), first, refresh)
    {
      BeginRequest();
      calls := calls + [PostLogin(username, password)];
      var answer := first;
      if first.LoginErr? {
        var d := Intercept(this, LoginRequest, first.status, refresh);
        if d.RefreshAndRetry? {
          calls := calls + [PostLogin(username, password)];
          answer := resend;
        }
      }
      ok := FinishLogin(answer);
    }

    /** `register(data)`: on success the store logs in with the same
        credentials, as Login says. Any failure, the login's included, ends
        with the error's detail or the registration message, and rethrows. */
    method Register(data: RegisterData, registered: Result<(), Option<string>>,
                    login: LoginOutcome, refresh: RefreshOutcome, resend: LoginOutcome) returns (ok: bool)
      modifies this`user, this`token, this`isAuthenticated, this`isLoading, this`error, this`authHeader, this`calls
      ensures !isLoading
      ensures registered.Failure? ==>
        ok == false && calls == old(calls) + [PostRegister(data)]
        && error == Some(ErrorMessage(registered.error, "Erro ao registrar usuário"))
        && user == old(user) && token == old(token) && isAuthenticated == old(isAuthenticated)
        && authHeader == old(authHeader)
      ensures registered.Success? ==>
        ok == Answer(login, resend).LoginOk?
        && calls == old(calls) + [PostRegister(data)] + LoginCalls(data.username, data.password, login, old(token))
      ensures registered.Success? && Answer(login, resend).LoginOk? ==>
        user == Some(Answer(login, resend).user) && token == Some(Answer(login, resend).accessToken)
        && isAuthenticated && error == None && authHeader == Some(Bearer(Answer(login, resend).accessToken))
      ensures registered.Success? && Answer(login, resend).LoginErr? ==>
        user == None && token == None && !isAuthenticated
        && error == Some(ErrorMessage(Answer(login, resend).detail, "Erro ao registrar usuário"))
        && authHeader == LoginHeader(old(authHeader), old(token), login, refresh)
    {
      BeginRequest();
      calls := calls + [PostRegister(data)];
      match registered
      case Failure(detail) =>
        error, isLoading := Some(ErrorMessage(detail, "Erro ao registrar usuário")), false;
        ok := false;
      case Success(_) =>
        ok := Login(data.username, data.password, login, refresh, resend);
        if !ok {
          error, isLoading := Some(ErrorMessage(Answer(login, resend).detail, "Erro ao registrar usuário")), false;
        }
    }

    /** `logout`: forget the session and remove the header; isLoading is kept. */
    method Logout()
      modifies this`user, this`token, this`isAuthenticated, this`error, this`authHeader
      ensures user == None && token == None && !isAuthenticated && error == None && authHeader == None
    {
      authHeader := None;
      user, token, isAuthenticated, error := None, None, false, None;
    }

    method ClearError()
      modifies this`error
      ensures error == None
    {
      error := None;
    }

    method SetLoading(loading: bool)
      modifies this`isLoading
      ensures isLoading == loading
    {
      isLoading := loading;
    }

    /** `refreshToken`, with the refresh POST sent marked as retried (see
        RefreshAsWritten for the code as it stands): without a token nothing
        happens and nothing is sent; success replaces only the token (and the
        header); every failure, a 401 included, passes the interceptor and
        logs out after that one POST. */
    method RefreshToken(outcome: RefreshOutcome)
      modifies this`user, this`token, this`isAuthenticated, this`error, this`authHeader, this`calls
      ensures NoToken(old(token)) ==>
        calls == old(calls) && token == old(token) && user == old(user) && isAuthenticated == old(isAuthenticated)
        && error == old(error) && authHeader == old(authHeader)
      ensures !NoToken(old(token)) ==> calls == old(calls) + [PostRefresh(Bearer(old(token).value))]
      ensures !NoToken(old(token)) && outcome.RefreshOk? ==>
        token == Some(outcome.accessToken) && authHeader == Some(Bearer(outcome.accessToken))
        && user == old(user) && isAuthenticated == old(isAuthenticated) && error == old(error)
      ensures !NoToken(old(token)) && outcome.RefreshErr? ==>
        user == None && token == None && !isAuthenticated && error == None && authHeader == None
    {
      if NoToken(token) {
        return;
      }
      calls := calls + [PostRefresh(Bearer(token.value))];
      match outcome
      case RefreshOk(accessToken) =>
        authHeader := Some(Bearer(accessToken));
        token := Some(accessToken);
      case RefreshErr(status) =>
        MarkedRefreshPassesThrough(status);
        Logout();
    }
  }

  /** The request configuration the interceptor sees; `retry` is `_retry`. */
  datatype RequestConfig = RequestConfig(url: string, retry: bool)

  datatype Decision = RefreshAndRetry(again: RequestConfig) | Reject

  /** The interceptor's choice for a failed response: a 401 on a request that
      was not retried yet is retried once, marked; everything else is rejected. */
  function Decide(config: RequestConfig, status: Option<int>): (d: Decision)
    ensures d.RefreshAndRetry? <==> status == Some(401) && !config.retry
    ensures d.RefreshAndRetry? ==> d.again == config.(retry := true)
  {
    if status == Some(401) && !config.retry then RefreshAndRetry(config.(retry := true)) else Reject
  }

  /** A request is retried at most once: whatever the retry's response, the
      interceptor rejects it. */
  lemma AtMostOneRetry(config: RequestConfig, status: Option<int>, second: Option<int>)
    requires Decide(config, status).RefreshAndRetry?
    ensures Decide(Decide(config, status).again, second) == Reject
  {
  }

  /** The response interceptor: on a first 401 it refreshes the token and sends
      the request again, marked as retried. `refresh` is the refresh POST's
      answer; the catch that would log out and redirect to /login is never
      reached, because `refreshToken` handles its own failure. */
  method Intercept(store: Store, config: RequestConfig, status: Option<int>, refresh: RefreshOutcome)
    returns (d: Decision)
    modifies store`user, store`token, store`isAuthenticated, store`error, store`authHeader, store`calls
    ensures d == Decide(config, status)
    ensures d == Reject || NoToken(old(store.token)) ==>
      store.calls == old(store.calls) && store.token == old(store.token) && store.user == old(store.user)
      && store.isAuthenticated == old(store.isAuthenticated) && store.error == old(store.error)
      && store.authHeader == old(store.authHeader)
    ensures d.RefreshAndRetry? && !NoToken(old(store.token)) ==>
      store.calls == old(store.calls) + [PostRefresh(Bearer(old(store.token).value))]
    ensures d.RefreshAndRetry? && !NoToken(old(store.token)) && refresh.RefreshOk? ==>
      store.token == Some(refresh.accessToken) && store.authHeader == Some(Bearer(refresh.accessToken))
      && store.user == old(store.user) && store.isAuthenticated == old(store.isAuthenticated)
      && store.error == old(store.error)
    ensures d.RefreshAndRetry? && !NoToken(old(store.token)) && refresh.RefreshErr? ==>
      store.user == None && store.token == None && !store.isAuthenticated && store.error == None
      && store.authHeader == None
  {
    d := Decide(config, status);
    if d.RefreshAndRetry? {
      store.RefreshToken(refresh);
    }
  }

  /** The login POST's configuration: a fresh request, not marked as retried. */
  const LoginRequest := RequestConfig("/auth/login", false)

  /** Whether the first login answer sends `login` through the interceptor's
      refresh and resend: exactly a 401. */
  predicate Retried(first: LoginOutcome)
    ensures Retried(first) <==> first.LoginErr? && first.status == Some(401)
  {
    first.LoginErr? && Decide(LoginRequest, first.status).RefreshAndRetry?
  }

  /** The answer the login's `await` settles with: the first one, or after a
      401 the resend's. */
  function Answer(first: LoginOutcome, resend: LoginOutcome): LoginOutcome {
    if Retried(first) then resend else first
  }

  /** The requests one `login` sends while the store holds `token`: the login,
      and after a 401 the refresh POST (when there is a token) and the login
      again. */
  function LoginCalls(username: string, password: string, first: LoginOutcome, token: Option<string>): (cs: seq<Call>)
    ensures !Retried(first) <==> |cs| == 1
    ensures Retried(first) ==> |cs| == if NoToken(token) then 2 else 3
    ensures cs[0] == PostLogin(username, password) && cs[|cs| - 1] == PostLogin(username, password)
    ensures Retried(first) && !NoToken(token) ==> cs[1] == PostRefresh(Bearer(token.value))
  {
    if !Retried(first) then [PostLogin(username, password)]
    else if NoToken(token) then [PostLogin(username, password), PostLogin(username, password)]
    else [PostLogin(username, password), PostRefresh(Bearer(token.value)), PostLogin(username, password)]
  }

  /** The Authorization header a failed `login` leaves: the catch does not
      touch it, so it is the one the interceptor's refresh left, if it ran. */
  function LoginHeader(header: Option<string>, token: Option<string>, first: LoginOutcome, refresh: RefreshOutcome)
    : Option<string>
  {
    if !Retried(first) || NoToken(token) then header
    else if refresh.RefreshOk? then Some(Bearer(refresh.accessToken))
    else None
  }

  /** The refresh POST's configuration as the source builds it: a fresh
      request, not marked as retried. */
  const RefreshRequest := RequestConfig("/auth/refresh", false)

  /** The corrected refresh POST, marked as retried so that the interceptor
      hands its failure straight back to `refreshToken`. */
  const MarkedRefresh := RequestConfig("/auth/refresh", true)

  lemma MarkedRefreshPassesThrough(status: Option<int>)
    ensures Decide(MarkedRefresh, status) == Reject
  {
  }

  /** How a settled `refreshToken` call changed the store, in order. */
  datatype Effect = NewToken(accessToken: string) | LoggedOut

  /** A chain of refresh POSTs: settled, with the answers it left unused, or
      still waiting for an answer. */
  datatype RefreshRun =
    | Settled(calls: seq<Call>, effects: seq<Effect>, rest: seq<RefreshOutcome>)
    | Unsettled(calls: seq<Call>)

  /** `refreshToken` on a token whose header is `bearer`, as written: the
      refresh POST goes through the response interceptor like any request.
      `answers` are the server's answers to the successive POSTs. A 401 on a
      refresh POST makes the interceptor call `refreshToken` again, still with
      the unchanged token, and then send that POST once more, marked; the
      answer to that resend decides what the outer call does. */
  function RefreshAsWritten(bearer: string, answers: seq<RefreshOutcome>): (r: RefreshRun)
    ensures r.Settled? ==> |r.rest| < |answers|
    decreases |answers|
  {
    if answers == [] then Unsettled([PostRefresh(bearer)])
    else match answers[0]
      case RefreshOk(access) => Settled([PostRefresh(bearer)], [NewToken(access)], answers[1..])
      case RefreshErr(status) =>
        if Decide(RefreshRequest, status) == Reject then Settled([PostRefresh(bearer)], [LoggedOut], answers[1..])
        else
          match RefreshAsWritten(bearer, answers[1..])
          case Unsettled(calls) => Unsettled([PostRefresh(bearer)] + calls)
          case Settled(calls, effects, rest) =>
            // The resend is marked, so any failure of it is rejected and the
            // outer call's catch logs out.
            var sent := [PostRefresh(bearer)] + calls + [PostRefresh(bearer)];
            if rest == [] then Unsettled(sent)
            else if rest[0].RefreshOk? then Settled(sent, effects + [NewToken(rest[0].accessToken)], rest[1..])
            else Settled(sent, effects + [LoggedOut], rest[1..])
  }

  /** `refreshToken` as intended, on the same answers: one POST, whose answer
      alone decides between the new token and a logout. */
  function RefreshIntended(bearer: string, answers: seq<RefreshOutcome>): (r: RefreshRun)
    ensures answers == [] <==> r.Unsettled?
    ensures r.calls == [PostRefresh(bearer)]
    ensures r.Settled? ==>
      r.rest == answers[1..] && r.effects == [if answers[0].RefreshOk? then NewToken(answers[0].accessToken) else LoggedOut]
  {
    if answers == [] then Unsettled([PostRefresh(bearer)])
    else if answers[0].RefreshOk? then Settled([PostRefresh(bearer)], [NewToken(answers[0].accessToken)], answers[1..])
    else Settled([PostRefresh(bearer)], [LoggedOut], answers[1..])
  }

  /** As written, a server that keeps answering 401 to the refresh POST, as it
      does for an expired token, gets one more POST with the same token for
      every 401, and the chain never settles: the user is never logged out. */
  lemma {:induction false} RefreshLoopsOn401(bearer: string, answers: seq<RefreshOutcome>)
    requires forall i :: 0 <= i < |answers| ==> answers[i] == RefreshErr(Some(401))
    ensures RefreshAsWritten(bearer, answers) == Unsettled(seq(|answers| + 1, _ => PostRefresh(bearer)))
  {
    if answers != [] {
      RefreshLoopsOn401(bearer, answers[1..]);
      assert [PostRefresh(bearer)] + seq(|answers[1..]| + 1, _ => PostRefresh(bearer))
          == seq(|answers| + 1, _ => PostRefresh(bearer));
    }
  }

  /** The two differ only on a 401: for every other first answer the code as
      written does what was intended. */
  lemma RefreshAgreesUnless401(bearer: string, answers: seq<RefreshOutcome>)
    requires answers != [] ==> answers[0] != RefreshErr(Some(401))
    ensures RefreshAsWritten(bearer, answers) == RefreshIntended(bearer, answers)
  {
  }
}

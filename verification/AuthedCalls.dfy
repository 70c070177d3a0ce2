/** One authenticated wire call with its single renewal and retry (apiclient.py), and why the
    reporter may treat it as a single call that is refused, lost or delivered. */
module AuthedCalls {
  import opened Basics
  import Reporting

  /** One HTTP exchange: whether the server acted on it, the status that came back (none when no
      response arrived), and any tokens in the body. */
  datatype Exchange = Exchange(applied: bool, status: Option<int>, access: Option<string>, refresh: Option<string>)

  /** The server's side of the contract: it does not act on a request it rejects as
      unauthenticated, and it answers below 400 only when it has acted. */
  predicate Honest(e: Exchange) {
    && (e.status == Some(401) ==> !e.applied)
    && (e.status.Some? && e.status.value < 400 ==> e.applied)
  }

  predicate Succeeded(e: Exchange) {
    e.status.Some? && e.status.value < 400
  }

  datatype Credentials = Credentials(apiKey: string, email: string, password: string)

  datatype Session = Session(access: Option<string>, refresh: Option<string>)

  datatype ApiResult = ApiResult(ok: bool, status: Option<int>)

  function ResultOf(e: Exchange): ApiResult {
    ApiResult(Succeeded(e), e.status)
  }

  /** Keeps a token already held when the body omits it. */
  function Stored(session: Session, e: Exchange): Session {
    Session(if e.access.Some? then e.access else session.access,
            if e.refresh.Some? then e.refresh else session.refresh)
  }

  /** The result of a step that may exchange one message: new session, success, what is left. */
  datatype Step = Step(session: Session, result: ApiResult, rest: seq<Exchange>)

  const NO_CREDENTIALS := ApiResult(false, None)

  function LoggedIn(cred: Credentials, session: Session, script: seq<Exchange>): (s: Step)
    requires script != []
    ensures s.rest == script || s.rest == script[1..]
  {
    if cred.email == "" || cred.password == "" then Step(session, NO_CREDENTIALS, script)
    else Step(if Succeeded(script[0]) then Stored(session, script[0]) else session, ResultOf(script[0]), script[1..])
  }

  /** Success means an access token is held afterwards. */
  function Refreshed(session: Session, script: seq<Exchange>): (s: Step)
    requires script != []
    ensures s.rest == script || s.rest == script[1..]
  {
    if session.refresh.None? then Step(session, NO_CREDENTIALS, script)
    else if !Succeeded(script[0]) then Step(session, ResultOf(script[0]), script[1..])
    else
      var stored := Stored(session, script[0]);
      Step(stored, ApiResult(stored.access.Some?, script[0].status), script[1..])
  }

  /** The credential a request carries: the API key, or the access token held, or nothing. */
  datatype Header = ApiKey(key: string) | Bearer(token: string) | NoCredential

  function HeaderFor(cred: Credentials, session: Session): Header {
    if cred.apiKey != "" then ApiKey(cred.apiKey)
    else if session.access.Some? then Bearer(session.access.value)
    else NoCredential
  }

  /** The request itself going out, and what came of it. */
  datatype Send = Send(header: Header, exchange: Exchange)

  /** An authenticated call: the session afterwards, the result, and the sends of the request
      itself, in order. */
  function Called(cred: Credentials, session: Session, script: seq<Exchange>): (r: (Session, ApiResult, seq<Send>))
    requires |script| >= 5
  {
    if cred.apiKey != "" then
      (session, ResultOf(script[0]), [Send(HeaderFor(cred, session), script[0])])
    else
      var auth :=
        if session.access.Some? then Step(session, ApiResult(true, None), script)
        else LoggedIn(cred, session, script);
      if !auth.result.ok then (auth.session, auth.result, [])
      else
        var first, s1 := auth.rest[0], auth.rest[1..];
        var sent := Send(HeaderFor(cred, auth.session), first);
        if first.status != Some(401) then (auth.session, ResultOf(first), [sent])
        else
          var renewed := Refreshed(auth.session, s1);
          var again := if renewed.result.ok then renewed else LoggedIn(cred, renewed.session, renewed.rest);
          if !again.result.ok then (again.session, ResultOf(first), [sent])
          else
            var retry := Send(HeaderFor(cred, again.session), again.rest[0]);
            (again.session, ResultOf(retry.exchange), [sent, retry])
  }

  function TimesApplied(sent: seq<Send>): nat {
    if sent == [] then 0 else (if sent[0].exchange.applied then 1 else 0) + TimesApplied(sent[1..])
  }

  /** What the reporter sees of a whole call. */
  function ReplyOf(result: ApiResult, sent: seq<Send>): Reporting.Reply {
    if result.ok then Reporting.Delivered
    else if TimesApplied(sent) > 0 then Reporting.LostReply
    else Reporting.Refused
  }

  // ------------------------------------------------------------ logging in and renewing

  /** A login goes out exactly when both credentials are configured; it succeeds exactly when its
      reply does; and it then takes over each token the reply carries and keeps the others. */
  lemma {:induction false} LoginLaws(cred: Credentials, session: Session, script: seq<Exchange>)
    requires script != []
    ensures
      var s := LoggedIn(cred, session, script);
      var out := cred.email != "" && cred.password != "";
      && s.rest == (if out then script[1..] else script)
      && (s.result.ok <==> out && Succeeded(script[0]))
      && s.session.access == (if s.result.ok && script[0].access.Some? then script[0].access else session.access)
      && s.session.refresh == (if s.result.ok && script[0].refresh.Some? then script[0].refresh else session.refresh)
  {
  }

  /** A refresh goes out exactly when a refresh token is held; it succeeds exactly when its reply
      does and leaves an access token held, a fresh one or the one already there. */
  lemma {:induction false} RefreshLaws(session: Session, script: seq<Exchange>)
    requires script != []
    ensures
      var s := Refreshed(session, script);
      && s.rest == (if session.refresh.Some? then script[1..] else script)
      && (s.result.ok <==>
            && session.refresh.Some? && Succeeded(script[0])
            && (script[0].access.Some? || session.access.Some?))
      && (s.result.ok ==> s.session.access == if script[0].access.Some? then script[0].access else session.access)
      && s.session.refresh ==
           (if session.refresh.Some? && Succeeded(script[0]) && script[0].refresh.Some? then script[0].refresh
            else session.refresh)
  {
  }

  /** Exactly when a request leaves without a credential: no API key is configured, no token was
      held, and the login that was accepted carried no token.  Every later send of the call carries
      the token then held. */
  lemma {:induction false} SendsCarryCredentials(cred: Credentials, session: Session, script: seq<Exchange>)
    requires |script| >= 5
    ensures
      var (after, result, sent) := Called(cred, session, script);
      && ((exists i :: 0 <= i < |sent| && sent[i].header == NoCredential) <==>
            cred.apiKey == "" && session.access.None? && sent != [] && script[0].access.None?)
      && (cred.apiKey != "" ==> forall i :: 0 <= i < |sent| ==> sent[i].header == ApiKey(cred.apiKey))
      && (cred.apiKey == "" && session.access.Some? && sent != [] ==>
            sent[0].header == Bearer(session.access.value))
      && (|sent| == 2 ==> sent[1].header == HeaderFor(cred, after))
  {
    var (after, result, sent) := Called(cred, session, script);
    if cred.apiKey == "" && sent != [] {
      assert sent[0].header == NoCredential <==> session.access.None? && script[0].access.None?;
    }
  }

  /** A concrete one: a login accepted without a token, and the request goes out bare. */
  lemma {:induction false} LoginWithoutToken()
    ensures
      var reply := Exchange(true, Some(200), None, None);
      var cred := Credentials("", "e", "p");
      Called(cred, Session(None, None), [reply, reply, reply, reply, reply]).2 == [Send(NoCredential, reply)]
  {
  }

  lemma {:induction false} SentHonestly(cred: Credentials, session: Session, script: seq<Exchange>)
    requires |script| >= 5 && forall i :: 0 <= i < |script| ==> Honest(script[i])
    ensures forall i :: 0 <= i < |Called(cred, session, script).2| ==>
      Honest(Called(cred, session, script).2[i].exchange)
  {
    assert forall k, i :: 0 <= k <= |script| && 0 <= i < |script[k..]| ==> script[k..][i] == script[k + i];
  }

  /** The in-call retry never makes the server act twice: against an honest server a call has no
      effect or exactly one, success means exactly one, and a second send only follows a 401. */
  lemma {:induction false} CallAppliesAtMostOnce(cred: Credentials, session: Session, script: seq<Exchange>)
    requires |script| >= 5 && forall i :: 0 <= i < |script| ==> Honest(script[i])
    ensures
      var (_, result, sent) := Called(cred, session, script);
      && TimesApplied(sent) == (if ReplyOf(result, sent) == Reporting.Refused then 0 else 1)
      && (result.ok <==> ReplyOf(result, sent) == Reporting.Delivered)
      && |sent| <= 2
      && (|sent| == 2 ==> sent[0].exchange.status == Some(401) && cred.apiKey == "")
  {
    var (_, result, sent) := Called(cred, session, script);
    SentHonestly(cred, session, script);
    assert |sent| == 2 ==> sent[1..] == [sent[1]] && sent[1..][1..] == [];
    assert |sent| == 1 ==> sent[1..] == [];
  }

  /** A call never loses a token it held; an API key leaves the session alone and is never retried;
      a call that is not sent at all had no token and failed to log in. */
  lemma {:induction false} TokensAreKept(cred: Credentials, session: Session, script: seq<Exchange>)
    requires |script| >= 5
    ensures
      var (after, result, sent) := Called(cred, session, script);
      && (session.access.Some? ==> after.access.Some?)
      && (session.refresh.Some? ==> after.refresh.Some?)
      && (cred.apiKey != "" ==> after == session && |sent| == 1 && sent[0].exchange == script[0])
      && (sent == [] ==> cred.apiKey == "" && session.access.None? && !result.ok)
      && (sent != [] && sent[0].exchange.status != Some(401) ==>
            |sent| == 1 && result == ResultOf(sent[0].exchange))
  {
  }

  // ------------------------------------------------------------ what a call sends

  predicate Below400(e: Exchange) {
    e.status.Some? && e.status.value < 400
  }

  function Newer(delivered: Option<string>, held: Option<string>): Option<string> {
    if delivered.Some? then delivered else held
  }

  function Carrying(token: Option<string>): Header {
    if token.Some? then Bearer(token.value) else NoCredential
  }

  /** The first send goes out with the API key, or the token held, or after a login, which takes the
      first reply, with the token that brought; it is left out exactly when that login is needed and
      impossible or not accepted.  Its reply is the result unless it is a 401 met without an API key. */
  lemma {:induction false} FirstSend(cred: Credentials, session: Session, script: seq<Exchange>)
    requires |script| >= 5
    ensures
      var (after, result, sent) := Called(cred, session, script);
      var configured := cred.email != "" && cred.password != "";
      var direct := cred.apiKey != "" || session.access.Some?;
      && (sent == [] <==> !direct && !(configured && Below400(script[0])))
      && (sent == [] ==> result == ApiResult(false, if configured then script[0].status else None))
      && (sent != [] ==>
            && sent[0].exchange == script[if direct then 0 else 1]
            && sent[0].header ==
                 (if cred.apiKey != "" then ApiKey(cred.apiKey)
                  else Carrying(if session.access.Some? then session.access else script[0].access)))
      && (sent != [] && (cred.apiKey != "" || sent[0].exchange.status != Some(401)) ==>
            |sent| == 1 && result == ApiResult(Below400(sent[0].exchange), sent[0].exchange.status))
  {
    LoginLaws(cred, session, script);
  }

  /** Exactly when a call is sent again.  Without an API key and after a 401, a refresh goes first if
      a refresh token is held, and takes the next reply; if it leaves no renewed session, a login with
      email and password takes the one after.  The call is sent again if and only if one of the two is
      accepted: with the token it delivered, and with that send's reply as the result.  Otherwise the
      result is the 401.  The tokens held at the first send are the session's, or the login's. */
  lemma {:induction false} RetriedIff(cred: Credentials, session: Session, script: seq<Exchange>)
    requires |script| >= 5 && cred.apiKey == ""
    requires
      var sent := Called(cred, session, script).2;
      sent != [] && sent[0].exchange.status == Some(401)
    ensures
      var (after, result, sent) := Called(cred, session, script);
      var next := if session.access.Some? then 1 else 2;
      var access := if session.access.Some? then session.access else script[0].access;
      var refresh := if session.access.Some? then session.refresh else Newer(script[0].refresh, session.refresh);
      var login := if refresh.Some? then next + 1 else next;
      var refreshed :=
        refresh.Some? && Below400(script[next]) && (script[next].access.Some? || access.Some?);
      var loggedIn := !refreshed && cred.email != "" && cred.password != "" && Below400(script[login]);
      && (|sent| == 2 <==> refreshed || loggedIn)
      && (refreshed ==>
            && sent[1] == Send(Carrying(Newer(script[next].access, access)), script[next + 1])
            && after == Session(Newer(script[next].access, access), Newer(script[next].refresh, refresh)))
      && (loggedIn ==>
            && sent[1] == Send(Carrying(Newer(script[login].access, access)), script[login + 1])
            && after.access == Newer(script[login].access, access))
      && (|sent| == 2 ==>
            result.status == sent[1].exchange.status && (result.ok <==> Below400(sent[1].exchange)))
      && (!(refreshed || loggedIn) ==> |sent| == 1 && result == ApiResult(false, Some(401)))
  {
    var first := if session.access.Some? then script else script[1..];
    assert first[1..][0] == first[1] && first[1..][1..][0] == first[2] && first[1..][1..][1..] == first[3..];
  }

  class ApiClient {
    const cred: Credentials
    var session: Session

    constructor (cred: Credentials)
      ensures this.cred == cred && session == Session(None, None)
    {
      this.cred, session := cred, Session(None, None);
    }

    method Login(script: seq<Exchange>) returns (result: ApiResult, rest: seq<Exchange>)
      requires script != []
      modifies this
      ensures Step(session, result, rest) == LoggedIn(cred, old(session), script)
    {
      if cred.email == "" || cred.password == "" {
        return NO_CREDENTIALS, script;
      }
      if Succeeded(script[0]) {
        session := Stored(session, script[0]);
      }
      result, rest := ResultOf(script[0]), script[1..];
    }

    method Refresh(script: seq<Exchange>) returns (result: ApiResult, rest: seq<Exchange>)
      requires script != []
      modifies this
      ensures Step(session, result, rest) == Refreshed(old(session), script)
    {
      if session.refresh.None? {
        return NO_CREDENTIALS, script;
      }
      rest := script[1..];
      if !Succeeded(script[0]) {
        return ResultOf(script[0]), rest;
      }
      session := Stored(session, script[0]);
      result := ApiResult(session.access.Some?, script[0].status);
    }

    method AuthedRequest(script: seq<Exchange>) returns (result: ApiResult, sent: seq<Send>)
      requires |script| >= 5
      modifies this
      ensures (session, result, sent) == Called(cred, old(session), script)
    {
      if cred.apiKey != "" {
        return ResultOf(script[0]), [Send(HeaderFor(cred, session), script[0])];
      }
      var rest := script;
      if session.access.None? {
        result, rest := Login(script);
        if !result.ok {
          return result, [];
        }
      }
      var first := Send(HeaderFor(cred, session), rest[0]);
      if first.exchange.status != Some(401) {
        return ResultOf(first.exchange), [first];
      }
      var renewed, rest1 := Refresh(rest[1..]);
      if !renewed.ok {
        renewed, rest1 := Login(rest1);
      }
      if renewed.ok {
        var retry := Send(HeaderFor(cred, session), rest1[0]);
        return ResultOf(retry.exchange), [first, retry];
      }
      return ResultOf(first.exchange), [first];
    }
  }
}

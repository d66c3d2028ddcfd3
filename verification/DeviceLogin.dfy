/** The polling loop of `ghp auth login` (cmd/ghp/auth.go), and what it means for a client
    of the device-flow server. */
module DeviceLogin {
  import opened Prelude
  import opened DeviceFlow
  import opened DeviceHandlers
  import opened DeviceReplies

  /** The error codes the client knows, any other, and none. */
  datatype ErrorCode =
    | CodePending | CodeSlowDown | CodeDenied | CodeExpired | CodeInvalidRequest | CodeInvalidGrant | CodeServerError
    | OtherCode(text: string)
    | NoCode

  /** How the token endpoint answers: the HTTP statuses 200 and 429, any other status with
      its error code, or not at all. */
  datatype Response =
    | Success(token: string)
    // The parsed Retry-After header, 0 if absent or malformed.
    | TooManyRequests(retryAfter: Time)
    | Error(code: ErrorCode)
    | NoResponse

  /** One poll: the time it takes to get to the server's handler and back, how much longer
      than asked the client sleeps, and whether it is cancelled meanwhile. */
  datatype Round = Round(latency: nat, response: Response, back: nat, oversleep: nat, cancelled: bool)

  datatype Result =
    | LoggedIn(token: string)
    | Expired
    | Refused
    | BadCode
    | ServerFailure
    | Unexpected(text: string)
    | Broken
    | Cancelled
    // Cut off: the rounds given are used up.
    | StillPolling

  /** A poll sent by the client. */
  datatype Sent = Sent(at: Time, handledAt: Time, answeredAt: Time)

  // ----- What the loop does, round by round -----

  function ClampedInterval(seconds: int): Time {
    if seconds * SECOND < SECOND then 5 * SECOND else seconds * SECOND
  }

  /** The poll interval after the first n rounds: every slow_down adds five seconds. */
  function Interval(start: StartReply, rounds: seq<Round>, n: nat): (interval: Time)
    requires n <= |rounds|
    ensures ClampedInterval(start.interval) <= interval
  {
    if n == 0 then ClampedInterval(start.interval)
    else Interval(start, rounds, n - 1) + if rounds[n - 1].response == Error(CodeSlowDown) then 5 * SECOND else 0
  }

  function Deadline(start: StartReply, now: Time): Time {
    now + if start.expiresIn <= 0 then REQUEST_TTL else start.expiresIn * SECOND
  }

  /** The sleep after round n, if polling goes on. */
  function Sleep(start: StartReply, rounds: seq<Round>, n: nat): Time
    requires n < |rounds|
  {
    match rounds[n].response
    case TooManyRequests(retryAfter) => Backoff(retryAfter, Interval(start, rounds, n))
    case _ => Interval(start, rounds, n + 1)
  }

  /** At most a minute of what a rate limiter asks for, or of twice the interval. */
  function Backoff(retryAfter: Time, interval: Time): Time {
    var wait := if retryAfter <= 0 then interval * 2 else retryAfter;
    if wait > 60 * SECOND then 60 * SECOND else wait
  }

  /** How the login ends with a response, if it does. */
  function Verdict(response: Response): Option<Result> {
    match response
    case Success(token) => Some(if token == "" then Broken else LoggedIn(token))
    case TooManyRequests(_) => None
    case NoResponse => Some(Broken)
    case Error(code) =>
      match code
      case CodePending => None
      case CodeSlowDown => None
      case CodeDenied => Some(Refused)
      case CodeExpired => Some(Expired)
      case CodeInvalidRequest => Some(BadCode)
      case CodeInvalidGrant => Some(BadCode)
      case CodeServerError => Some(ServerFailure)
      case OtherCode(text) => Some(Unexpected(text))
      case NoCode => Some(Broken)
  }

  predicate GoesOn(round: Round) {
    Verdict(round.response).None? && !round.cancelled
  }

  function SentAt(now: Time, round: Round): Sent {
    Sent(now, now + round.latency, now + round.latency + round.back)
  }

  /** The n-th poll is the first one or follows the one before, after its sleep. */
  predicate PollOk(start: StartReply, now: Time, rounds: seq<Round>, log: seq<Sent>, n: nat)
    requires n < |log| <= |rounds|
  {
    && log[n] == SentAt(log[n].at, rounds[n]) && log[n].at <= Deadline(start, now)
    && if n == 0 then log[n].at == now
       else
         && GoesOn(rounds[n - 1])
         && log[n].at == log[n - 1].answeredAt + Sleep(start, rounds, n - 1) + rounds[n - 1].oversleep
  }

  /** `log` is what a login that starts polling at `now` sends. */
  ghost predicate Polls(start: StartReply, now: Time, rounds: seq<Round>, log: seq<Sent>) {
    |log| <= |rounds| && forall n :: 0 <= n < |log| ==> PollOk(start, now, rounds, log, n)
  }

  function NextAt(start: StartReply, rounds: seq<Round>, log: seq<Sent>): Time
    requires 0 < |log| <= |rounds|
  {
    var n := |log| - 1;
    log[n].answeredAt + Sleep(start, rounds, n) + rounds[n].oversleep
  }

  /** The next poll is due at `clock`. */
  predicate Due(start: StartReply, now: Time, rounds: seq<Round>, log: seq<Sent>, clock: Time)
    requires |log| <= |rounds|
  {
    if log == [] then clock == now else GoesOn(rounds[|log| - 1]) && clock == NextAt(start, rounds, log)
  }

  lemma PollOnce(start: StartReply, now: Time, rounds: seq<Round>, log: seq<Sent>, clock: Time)
    requires Polls(start, now, rounds, log) && |log| < |rounds|
    requires Due(start, now, rounds, log, clock) && clock <= Deadline(start, now)
    ensures Polls(start, now, rounds, log + [SentAt(clock, rounds[|log|])])
  {
    var more := log + [SentAt(clock, rounds[|log|])];
    forall n | 0 <= n < |more| ensures PollOk(start, now, rounds, more, n) {
      assert n < |log| ==> PollOk(start, now, rounds, log, n);
    }
  }

  // ----- The loop -----

  /** The part of the loop that looks at the response. */
  method HandleResponse(response: Response, interval: Time)
      returns (verdict: Option<Result>, pollInterval: Time, nextSleep: Time)
    requires SECOND <= interval
    ensures verdict == Verdict(response)
    ensures pollInterval == interval + if response == Error(CodeSlowDown) then 5 * SECOND else 0
    ensures verdict.None? ==> nextSleep == if response.TooManyRequests? then Backoff(response.retryAfter, interval)
                                           else pollInterval
  {
    verdict, pollInterval, nextSleep := None, interval, interval;
    match response
    case NoResponse => verdict := Some(Broken);
    case Success(token) => verdict := Some(if token == "" then Broken else LoggedIn(token));
    case TooManyRequests(retryAfter) =>
      nextSleep := retryAfter;
      if nextSleep <= 0 {
        nextSleep := pollInterval * 2;
      }
      if nextSleep > 60 * SECOND {
        nextSleep := 60 * SECOND;
      }
    case Error(CodePending) =>
    case Error(CodeSlowDown) =>
      pollInterval := pollInterval + 5 * SECOND;
      nextSleep := pollInterval;
    case Error(CodeDenied) => verdict := Some(Refused);
    case Error(CodeExpired) => verdict := Some(Expired);
    case Error(CodeInvalidRequest) => verdict := Some(BadCode);
    case Error(CodeInvalidGrant) => verdict := Some(BadCode);
    case Error(CodeServerError) => verdict := Some(ServerFailure);
    case Error(OtherCode(text)) => verdict := Some(Unexpected(text));
    case Error(NoCode) => verdict := Some(Broken);
  }

  /** `now` is when the start request has been answered. */
  method RunDeviceLogin(start: StartReply, now: Time, rounds: seq<Round>)
      returns (result: Result, log: seq<Sent>)
    ensures Polls(start, now, rounds, log)
    // A token is what the last poll was answered with.
    ensures result.LoggedIn? ==>
              |log| > 0 && rounds[|log| - 1].response == Success(result.token) && result.token != ""
    // The login ends with the first response that ends it, or with a cancellation, or when
    // it is time for a poll past the deadline.
    ensures |log| > 0 ==>
              var round := rounds[|log| - 1];
              var onwards := if round.cancelled then Cancelled
                             else if NextAt(start, rounds, log) > Deadline(start, now) then Result.Expired
                             else StillPolling;
              match round.response
              case Success(token) => result == if token == "" then Broken else LoggedIn(token)
              case TooManyRequests(_) => result == onwards
              case NoResponse => result == Broken
              case Error(CodePending) => result == onwards
              case Error(CodeSlowDown) => result == onwards
              case Error(CodeDenied) => result == Refused
              case Error(CodeExpired) => result == Result.Expired
              case Error(CodeInvalidRequest) => result == BadCode
              case Error(CodeInvalidGrant) => result == BadCode
              case Error(CodeServerError) => result == ServerFailure
              case Error(OtherCode(text)) => result == Unexpected(text)
              case Error(NoCode) => result == Broken
    ensures log == [] && rounds != [] ==> result == Result.Expired
    ensures result == StillPolling ==> |log| == |rounds|
  {
    var pollInterval := start.interval * SECOND;
    if pollInterval < SECOND {
      pollInterval := 5 * SECOND;
    }
    var expiresAt := now + start.expiresIn * SECOND;
    if start.expiresIn <= 0 {
      expiresAt := now + REQUEST_TTL;
    }
    log := [];
    var clock := now;
    while |log| < |rounds|
      invariant Polls(start, now, rounds, log)
      invariant pollInterval == Interval(start, rounds, |log|) && expiresAt == Deadline(start, now)
      invariant Due(start, now, rounds, log, clock)
      decreases |rounds| - |log|
    {
      if clock > expiresAt {
        return Expired, log;
      }
      var round := rounds[|log|];
      PollOnce(start, now, rounds, log, clock);
      log := log + [SentAt(clock, round)];
      var verdict, nextSleep;
      verdict, pollInterval, nextSleep := HandleResponse(round.response, pollInterval);
      if verdict.Some? {
        return verdict.value, log;
      }
      if round.cancelled {
        return Cancelled, log;
      }
      clock := clock + round.latency + round.back + nextSleep + round.oversleep;
    }
    result := if clock > expiresAt then Expired else StillPolling;
  }

  // ----- The times of the polls -----

  ghost function SlowDowns(rounds: seq<Round>, n: nat): set<nat>
    requires n <= |rounds|
  {
    set m: nat | m < n && rounds[m].response == Error(CodeSlowDown)
  }

  /** The interval is the server's, or five seconds instead of none, and five seconds more
      for every time the client has been told to slow down. */
  lemma {:induction false} IntervalCounts(start: StartReply, rounds: seq<Round>, n: nat)
    requires n <= |rounds|
    ensures Interval(start, rounds, n) ==
            (if start.interval <= 0 then 5_000_000_000 else start.interval * 1_000_000_000)
            + 5_000_000_000 * |SlowDowns(rounds, n)|
  {
    if n == 0 {
      assert SlowDowns(rounds, 0) == {};
    } else {
      IntervalCounts(start, rounds, n - 1);
      var before, counted := SlowDowns(rounds, n - 1), SlowDowns(rounds, n);
      if rounds[n - 1].response == Error(CodeSlowDown) {
        assert counted == before + {n - 1};
      } else {
        assert counted == before;
      }
    }
  }

  /** A poll follows the answer to the one before after the interval, or, if that was turned
      away by a rate limiter, after what the limiter asks for or twice the interval, but at
      most a minute. None is sent after the deadline. */
  lemma PollTimes(start: StartReply, now: Time, rounds: seq<Round>, log: seq<Sent>, n: nat)
    requires Polls(start, now, rounds, log) && n < |log|
    ensures n == 0 ==> log[n].at == now
    ensures n > 0 ==>
              log[n].at - log[n - 1].answeredAt - rounds[n - 1].oversleep ==
              if !rounds[n - 1].response.TooManyRequests? then Interval(start, rounds, n)
              else
                var asked, twice := rounds[n - 1].response.retryAfter, 2 * Interval(start, rounds, n - 1);
                if asked > 0 then (if asked < 60_000_000_000 then asked else 60_000_000_000)
                else if twice < 60_000_000_000 then twice else 60_000_000_000
    ensures log[n].at <= now + if start.expiresIn <= 0 then 600_000_000_000 else start.expiresIn * 1_000_000_000
  {
    assert PollOk(start, now, rounds, log, n);
  }

  // ----- A client of the server -----

  /** However often rate limiters interfere, and whatever is answered, no poll comes sooner
      after the answer to an earlier one than the interval then in force, unless the
      earlier one was turned away by a rate limiter. */
  lemma {:induction false} PollsKeepInterval(start: StartReply, now: Time, rounds: seq<Round>, log: seq<Sent>,
                                             i: nat, j: nat)
    requires Polls(start, now, rounds, log) && i < j < |log| && !rounds[i].response.TooManyRequests?
    ensures log[i].answeredAt + Interval(start, rounds, i + 1) <= log[j].at
    decreases j
  {
    assert PollOk(start, now, rounds, log, j) && PollOk(start, now, rounds, log, j - 1);
    if i < j - 1 {
      PollsKeepInterval(start, now, rounds, log, i, j - 1);
    }
  }

  function ResponseTo(reply: Reply): Response {
    match reply
    case Granted(token, _) => Success(token)
    case AuthorizationPending => Error(CodePending)
    case SlowDown => Error(CodeSlowDown)
    case AccessDenied => Error(CodeDenied)
    case ExpiredToken => Error(CodeExpired)
    case InvalidRequest => Error(CodeInvalidRequest)
    case _ => Error(CodeServerError)
  }

  /** The client's polls are the polls for its device code that the server handles, where
      place[n] is the event of the n-th. The server does not handle those that a rate
      limiter turns away. */
  ghost predicate Connected(p: Precision, run: seq<Timed>, code: string, rounds: seq<Round>, log: seq<Sent>,
                            place: map<nat, nat>)
    requires |log| <= |rounds|
  {
    && (forall n :: n in place ==> n < |log| && !rounds[n].response.TooManyRequests?)
    && (forall n :: n in place ==>
          && place[n] < |run| && IsPoll(run[place[n]].ev, code) && run[place[n]].at == log[n].handledAt
          && (rounds[n].response == ResponseTo(ReplyTo(p, run, place[n])) || rounds[n].response == NoResponse))
    && (forall m, n :: m in place && n in place && m < n ==> place[m] < place[n])
    && (forall i :: 0 <= i < |run| && IsPoll(run[i].ev, code) ==> exists n :: n in place && place[n] == i)
  }

  lemma HandledApart(start: StartReply, now: Time, rounds: seq<Round>, log: seq<Sent>, m: nat, n: nat)
    requires Polls(start, now, rounds, log) && m < n < |log| && !rounds[m].response.TooManyRequests?
    ensures log[n].handledAt - log[m].handledAt >= ClampedInterval(start.interval)
  {
    assert PollOk(start, now, rounds, log, m) && PollOk(start, now, rounds, log, n);
    PollsKeepInterval(start, now, rounds, log, m, n);
  }

  lemma ClientKeepsPace(p: Precision, run: seq<Timed>, start: StartReply, now: Time, rounds: seq<Round>,
                        log: seq<Sent>, place: map<nat, nat>, n: nat)
    requires start.interval == 2
    requires Polls(start, now, rounds, log) && Connected(p, run, start.deviceCode, rounds, log, place)
    requires n in place
    ensures forall j :: 0 <= j < place[n] && IsPoll(run[j].ev, start.deviceCode) ==>
              run[place[n]].at - run[j].at >= 2_000_000_000
  {
    forall j | 0 <= j < place[n] && IsPoll(run[j].ev, start.deviceCode)
      ensures run[place[n]].at - run[j].at >= 2_000_000_000
    {
      var m :| m in place && place[m] == j;
      HandledApart(start, now, rounds, log, m, n);
    }
  }

  /** This server never tells this client to slow down, not even after a 429, whatever
      anybody else does and whichever of the store's writes fail. */
  lemma ClientIsNotSlowed(p: Precision, run: seq<Timed>, start: StartReply, now: Time, rounds: seq<Round>,
                          log: seq<Sent>, place: map<nat, nat>, n: nat)
    requires Legal(p, run) && start.interval == 2
    requires Polls(start, now, rounds, log) && Connected(p, run, start.deviceCode, rounds, log, place)
    requires n in place
    ensures ReplyTo(p, run, place[n]) != SlowDown && rounds[n].response != Error(CodeSlowDown)
  {
    ClientKeepsPace(p, run, start, now, rounds, log, place, n);
    PoliteIsNotSlowed(p, run, place[n], start.deviceCode);
  }

  lemma NotEnded(p: Precision, run: seq<Timed>, start: StartReply, now: Time, rounds: seq<Round>,
                 log: seq<Sent>, place: map<nat, nat>, n: nat, k: nat)
    requires Polls(start, now, rounds, log) && Connected(p, run, start.deviceCode, rounds, log, place)
    requires n in place && k < place[n] && place[n] < |run|
    ensures !EndsIt(p, run, k, start.deviceCode)
  {
    hide ReplyTo;
    if IsPoll(run[k].ev, start.deviceCode) {
      var m :| m in place && place[m] == k;
      assert m < n && PollOk(start, now, rounds, log, m + 1);
      assert GoesOn(rounds[m]);
    }
  }

  lemma ResponseTells(reply: Reply)
    ensures ResponseTo(reply).Success? <==> reply.Granted?
    ensures ResponseTo(reply) == Error(CodeDenied) <==> reply == AccessDenied
    ensures ResponseTo(reply) == Error(CodePending) <==> reply == AuthorizationPending
  {}

  /** From end to end: of a request that it started at most ten minutes ago, this client
      learns from this server, at each poll that is answered and whose lookup works, what
      the user has decided, whatever anybody else does and whichever writes fail. */
  lemma ClientIsTold(p: Precision, run: seq<Timed>, begun: nat, start: StartReply, now: Time, rounds: seq<Round>,
                     log: seq<Sent>, place: map<nat, nat>, n: nat)
    requires Legal(p, run) && start.interval == 2
    requires Polls(start, now, rounds, log) && Connected(p, run, start.deviceCode, rounds, log, place)
    requires n in place && begun < place[n] && run[begun].ev == Start(start.deviceCode, start.userCode)
    requires run[place[n]].ev.calls.lookupOk && rounds[n].response != NoResponse
    requires log[n].handledAt + p as int <= run[begun].at + 600_000_000_000
    ensures var approved := DecidedSince(p, run, begun, place[n], start.userCode, JustApproved);
            var denied := DecidedSince(p, run, begun, place[n], start.userCode, JustDenied);
            && (rounds[n].response.Success? <==> approved)
            && (rounds[n].response == Error(CodeDenied) <==> denied)
            && (rounds[n].response == Error(CodePending) <==> !approved && !denied)
  {
    assert n < |log| <= |rounds|;
    hide Polls;
    hide Legal;
    hide DecidedSince;
    hide ReplyTo;
    ClientKeepsPace(p, run, start, now, rounds, log, place, n);
    forall k | begun < k < place[n] ensures !EndsIt(p, run, k, start.deviceCode) {
      NotEnded(p, run, start, now, rounds, log, place, n, k);
    }
    assert rounds[n].response == ResponseTo(ReplyTo(p, run, place[n])) && IsPoll(run[place[n]].ev, start.deviceCode);
    assert run[place[n]].at == log[n].handledAt;
    ResponseTells(ReplyTo(p, run, place[n]));
    hide ResponseTo;
    hide Connected;
    hide EndsIt;
    PoliteCliIsTold(p, run, begun, place[n], start.deviceCode, start.userCode);
  }
}

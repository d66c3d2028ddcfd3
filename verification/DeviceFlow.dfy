/** The CLI's device-authorization flow on the server (internal/auth/device.go), after
    RFC 8628: a CLI starts a request and polls with its device code, a signed-in user
    approves or denies the request by its user code, and a cleanup drops expired requests.

    Every handler is one step on the stored requests. Which of its store calls succeed is
    part of the event. */
module DeviceFlow {
  import opened Prelude

  /** Nanoseconds. */
  type Time = int

  const SECOND: Time := 1_000_000_000
  const REQUEST_TTL: Time := 600 * SECOND
  const POLL_MIN_INTERVAL: Time := 2 * SECOND
  const MAX_ATTEMPTS: nat := 5

  /** What the store keeps of a time: SQLite truncates to milliseconds, Postgres to
      microseconds, and Vault keeps nanoseconds. */
  type Precision = p: int | 0 < p witness 1

  function Stored(p: Precision, t: Time): Time {
    t / p * p
  }

  lemma StoredBelow(p: Precision, t: Time)
    ensures Stored(p, t) <= t < Stored(p, t) + p
  {}

  lemma StoredMonotone(p: Precision, t: Time, u: Time)
    requires t <= u
    ensures Stored(p, t) <= Stored(p, u)
  {
    StoredBelow(p, t);
    StoredBelow(p, u);
    ProductsApart(t / p, u / p, p);
    ProductsOrdered(t / p, u / p, p);
  }

  lemma ProductsApart(a: int, b: int, p: Precision)
    ensures a > b ==> a * p >= b * p + p
  {
    if a > b {
      ProductsOrdered(b + 1, a, p);
      assert (b + 1) * p == b * p + p;
    }
  }

  lemma ProductsOrdered(a: int, b: int, p: Precision)
    ensures a <= b ==> a * p <= b * p
  {
    if a <= b {
      assert (b - a) * p >= 0;
    }
  }

  datatype Status = Pending | Approved | Denied

  datatype Request = Request(
    userCode: string,
    status: Status,
    token: string,
    username: string,
    lastPolledAt: Option<Time>,
    expiresAt: Time)

  /** `codes` and `tokens` are history: every device code and session token ever issued. */
  datatype State = State(
    precision: Precision,
    requests: map<string, Request>,
    sessions: map<string, string>,
    codes: set<string>,
    tokens: set<string>)

  function Initial(p: Precision): State {
    State(p, map[], map[], {}, {})
  }

  /** Which store calls of a handler succeed: the lookup, the update of the request, and the
      deletion, of the request by a poll and of a session by a decision. A lookup that finds
      nothing has succeeded. */
  datatype Calls = Calls(lookupOk: bool, updateOk: bool, deleteOk: bool)

  const ALL_OK := Calls(true, true, true)

  datatype Event =
    | Start(deviceCode: string, userCode: string)
    | Poll(deviceCode: string, calls: Calls)
    // `user` is who the browser session belongs to, and `token` the CLI session minted.
    | Decide(user: Option<string>, userCode: string, approve: bool, token: Option<string>, calls: Calls)
    | Cleanup

  datatype Reply =
    | Started
    // What a poll answers.
    | InvalidRequest | ExpiredToken | SlowDown | AuthorizationPending | AccessDenied
    | Granted(token: string, username: string) | ServerError
    // What a decision answers.
    | Unauthenticated | InvalidForm | UnknownCode | AlreadyDecided(status: Status)
    | JustApproved | JustDenied | InternalError
    | Cleaned

  datatype Outcome = Outcome(state: State, reply: Reply)

  // ----- The handlers -----

  /** The store's lookups report an expired request as not found. */
  predicate Live(s: State, deviceCode: string, now: Time) {
    deviceCode in s.requests && now <= s.requests[deviceCode].expiresAt
  }

  ghost predicate HasUserCode(s: State, userCode: string) {
    exists code :: code in s.requests && s.requests[code].userCode == userCode
  }

  ghost function ByUserCode(s: State, userCode: string): (code: string)
    requires HasUserCode(s, userCode)
    ensures code in s.requests && s.requests[code].userCode == userCode
  {
    var code :| code in s.requests && s.requests[code].userCode == userCode; code
  }

  function Put(s: State, code: string, r: Request, ok: bool): State {
    if ok then s.(requests := s.requests[code := r]) else s
  }

  function Drop(s: State, code: string, ok: bool): State {
    if ok then s.(requests := s.requests - {code}) else s
  }

  function NewRequest(p: Precision, userCode: string, now: Time): Request {
    Request(userCode, Pending, "", "", None, Stored(p, now + REQUEST_TTL))
  }

  function StartStep(s: State, now: Time, deviceCode: string, userCode: string): State {
    s.(requests := s.requests[deviceCode := NewRequest(s.precision, userCode, now)], codes := s.codes + {deviceCode})
  }

  predicate TooSoon(r: Request, now: Time) {
    r.lastPolledAt.Some? && now - r.lastPolledAt.value < POLL_MIN_INTERVAL
  }

  function PollStep(s: State, now: Time, code: string, calls: Calls): Outcome {
    if code == "" then Outcome(s, InvalidRequest)
    else if !calls.lookupOk then Outcome(s, ServerError)
    else if !Live(s, code, now) then Outcome(s, ExpiredToken)
    else
      var r := s.requests[code];
      var polled := Put(s, code, r.(lastPolledAt := Some(Stored(s.precision, now))), calls.updateOk);
      if TooSoon(r, now) then Outcome(polled, SlowDown)
      else
        match r.status
        case Pending => Outcome(polled, AuthorizationPending)
        case Denied => Outcome(Drop(s, code, calls.deleteOk), AccessDenied)
        case Approved => Outcome(Drop(s, code, calls.deleteOk), Granted(r.token, r.username))
  }

  /** The user code leads to a live request that is still undecided. */
  ghost predicate Undecided(s: State, now: Time, userCode: string) {
    && userCode != "" && HasUserCode(s, userCode) && Live(s, ByUserCode(s, userCode), now)
    && s.requests[ByUserCode(s, userCode)].status == Pending
  }

  ghost function DecideStep(s: State, now: Time, user: Option<string>, userCode: string, approve: bool,
                            token: Option<string>, calls: Calls): Outcome {
    if user.None? then Outcome(s, Unauthenticated)
    else if userCode == "" then Outcome(s, InvalidForm)
    else if !calls.lookupOk || !HasUserCode(s, userCode) || !Live(s, ByUserCode(s, userCode), now)
    then Outcome(s, UnknownCode)
    else
      var code := ByUserCode(s, userCode);
      var r := s.requests[code];
      if r.status != Pending then Outcome(s, AlreadyDecided(r.status))
      else if !approve then
        Outcome(Put(s, code, r.(status := Denied), calls.updateOk),
                if calls.updateOk then JustDenied else InternalError)
      else if token.None? then Outcome(s, InternalError)
      else
        var minted := s.(sessions := s.sessions[token.value := user.value], tokens := s.tokens + {token.value});
        if calls.updateOk then
          var approved := r.(status := Approved, token := token.value, username := user.value);
          Outcome(minted.(requests := s.requests[code := approved]), JustApproved)
        else Outcome(if calls.deleteOk then minted.(sessions := s.sessions - {token.value}) else minted, InternalError)
  }

  function CleanupStep(s: State, now: Time): State {
    s.(requests := map code | code in s.requests && s.requests[code].expiresAt >= Stored(s.precision, now) ::
         s.requests[code])
  }

  ghost function Step(s: State, now: Time, ev: Event): Outcome {
    match ev
    case Start(deviceCode, userCode) => Outcome(StartStep(s, now, deviceCode, userCode), Started)
    case Poll(code, calls) => PollStep(s, now, code, calls)
    case Decide(user, userCode, approve, token, calls) => DecideStep(s, now, user, userCode, approve, token, calls)
    case Cleanup => Outcome(CleanupStep(s, now), Cleaned)
  }

  /** Device codes and session tokens are random and so never issued twice. A user code is
      unique among the stored requests. */
  ghost predicate Enabled(s: State, ev: Event) {
    match ev
    case Start(deviceCode, userCode) => deviceCode != "" && deviceCode !in s.codes && !HasUserCode(s, userCode)
    case Decide(_, _, _, token, _) => token.Some? ==> token.value !in s.tokens
    case _ => true
  }

  // ----- Runs -----

  datatype Timed = Timed(at: Time, ev: Event)

  ghost function After(p: Precision, run: seq<Timed>): (s: State)
    ensures s.precision == p
  {
    if run == [] then Initial(p) else Step(After(p, run[..|run| - 1]), run[|run| - 1].at, run[|run| - 1].ev).state
  }

  /** Time does not run backwards. */
  ghost predicate Legal(p: Precision, run: seq<Timed>) {
    run == [] ||
    (Legal(p, run[..|run| - 1]) && Enabled(After(p, run[..|run| - 1]), run[|run| - 1].ev) &&
     (|run| > 1 ==> run[|run| - 2].at <= run[|run| - 1].at))
  }

  ghost function ReplyTo(p: Precision, run: seq<Timed>, i: nat): Reply
    requires i < |run|
  {
    Step(After(p, run[..i]), run[i].at, run[i].ev).reply
  }

  lemma StepOfRun(p: Precision, run: seq<Timed>, i: nat)
    requires i < |run|
    ensures After(p, run[..i + 1]) == Step(After(p, run[..i]), run[i].at, run[i].ev).state
  {
    assert run[..i + 1][..i] == run[..i];
  }

  lemma {:induction false} PrefixLegal(p: Precision, run: seq<Timed>, i: nat)
    requires Legal(p, run) && i <= |run|
    ensures Legal(p, run[..i])
  {
    if i == |run| {
      assert run[..i] == run;
    } else {
      assert run[..|run| - 1][..i] == run[..i];
      PrefixLegal(p, run[..|run| - 1], i);
    }
  }

  lemma StepLegal(p: Precision, run: seq<Timed>, i: nat)
    requires Legal(p, run) && i < |run|
    ensures Legal(p, run[..i]) && Enabled(After(p, run[..i]), run[i].ev)
    ensures i > 0 ==> run[i - 1].at <= run[i].at
  {
    PrefixLegal(p, run, i + 1);
    assert run[..i + 1][..i] == run[..i];
  }

  lemma {:induction false} TimeIsMonotone(p: Precision, run: seq<Timed>, i: nat, j: nat)
    requires Legal(p, run) && i <= j < |run|
    ensures run[i].at <= run[j].at
    decreases j
  {
    if i < j {
      StepLegal(p, run, j);
      TimeIsMonotone(p, run, i, j - 1);
    }
  }

  // ----- Invariant -----

  ghost predicate Ok(s: State) {
    && (forall c :: c in s.requests ==> c in s.codes)
    && (forall c, d :: c in s.requests && d in s.requests && s.requests[c].userCode == s.requests[d].userCode ==>
          c == d)
    && (forall c :: c in s.requests && s.requests[c].status == Approved ==> SessionOk(s, s.requests[c]))
    && (forall t :: t in s.sessions ==> t in s.tokens)
  }

  predicate SessionOk(s: State, r: Request) {
    r.token in s.sessions && s.sessions[r.token] == r.username
  }

  lemma PollOk(s: State, now: Time, code: string, calls: Calls)
    requires Ok(s)
    ensures Ok(PollStep(s, now, code, calls).state)
  {}

  lemma DecideOk(s: State, now: Time, ev: Event)
    requires Ok(s) && Enabled(s, ev) && ev.Decide?
    ensures Ok(Step(s, now, ev).state)
  {}

  lemma StepOk(s: State, now: Time, ev: Event)
    requires Ok(s) && Enabled(s, ev)
    ensures Ok(Step(s, now, ev).state)
  {
    match ev
    case Start(_, _) =>
    case Poll(code, calls) => PollOk(s, now, code, calls);
    case Decide(_, _, _, _, _) => DecideOk(s, now, ev);
    case Cleanup =>
  }

  lemma {:induction false} RunOk(p: Precision, run: seq<Timed>)
    requires Legal(p, run)
    ensures Ok(After(p, run))
  {
    if run != [] {
      RunOk(p, run[..|run| - 1]);
      StepOk(After(p, run[..|run| - 1]), run[|run| - 1].at, run[|run| - 1].ev);
    }
  }

  // ----- One request through a run -----

  /** What later events leave of a request: its codes and its end stay, and a decision
      stays with its session. */
  predicate Continues(r: Request, later: Request) {
    && later.userCode == r.userCode && later.expiresAt == r.expiresAt
    && (r.status != Pending ==> later.status == r.status && later.token == r.token && later.username == r.username)
  }

  lemma StepContinues(s: State, now: Time, ev: Event, code: string)
    requires Ok(s) && Enabled(s, ev) && code in s.codes
    ensures var s' := Step(s, now, ev).state;
            && code in s'.codes
            && (code in s'.requests ==> code in s.requests && Continues(s.requests[code], s'.requests[code]))
  {}

  /** A request that is gone does not come back, and one that is there has been there ever
      since. */
  lemma {:induction false} RequestContinues(p: Precision, run: seq<Timed>, i: nat, j: nat, code: string)
    requires Legal(p, run) && i <= j <= |run| && code in After(p, run[..i]).codes
    ensures code in After(p, run[..j]).codes
    ensures code in After(p, run[..j]).requests ==>
              && code in After(p, run[..i]).requests
              && Continues(After(p, run[..i]).requests[code], After(p, run[..j]).requests[code])
    decreases j
  {
    if i < j {
      RequestContinues(p, run, i, j - 1, code);
      StepLegal(p, run, j - 1);
      RunOk(p, run[..j - 1]);
      StepOfRun(p, run, j - 1);
      StepContinues(After(p, run[..j - 1]), run[j - 1].at, run[j - 1].ev, code);
    }
  }

  /** Approved and denied are final: until the request is deleted, its status, session and
      user do not change. */
  lemma DecisionsAreFinal(p: Precision, run: seq<Timed>, i: nat, j: nat, code: string)
    requires Legal(p, run) && i <= j <= |run|
    requires code in After(p, run[..i]).requests && After(p, run[..i]).requests[code].status != Pending
    requires code in After(p, run[..j]).requests
    ensures var r, later := After(p, run[..i]).requests[code], After(p, run[..j]).requests[code];
            later.status == r.status && later.token == r.token && later.username == r.username
  {
    PrefixLegal(p, run, i);
    RunOk(p, run[..i]);
    RequestContinues(p, run, i, j, code);
  }

  predicate IsPoll(ev: Event, code: string) {
    ev.Poll? && ev.deviceCode == code
  }

  // ----- How often a token is handed out -----

  /** A poll that deletes the request, once it is granted. */
  predicate Deletes(ev: Event, code: string) {
    IsPoll(ev, code) && ev.calls.lookupOk && ev.calls.deleteOk
  }

  ghost predicate DeletedBetween(run: seq<Timed>, i: nat, m: nat, code: string)
    requires m <= |run|
  {
    exists k :: i <= k < m && Deletes(run[k].ev, code)
  }

  /** An approved request that may be polled stays as it is, until it has expired or such a
      poll deletes it. */
  lemma StepOnGranted(s: State, now: Time, ev: Event, code: string)
    requires Ok(s) && Enabled(s, ev) && code != "" && code in s.requests
    requires s.requests[code].status == Approved && !TooSoon(s.requests[code], now) && now <= s.requests[code].expiresAt
    ensures var s' := Step(s, now, ev).state;
            if Deletes(ev, code) then code !in s'.requests && code in s'.codes
            else code in s'.requests && s'.requests[code] == s.requests[code]
  {
    StoredBelow(s.precision, now);
  }

  /** The request may be granted from now on. */
  predicate Grantable(s: State, code: string, now: Time) {
    code != "" && Live(s, code, now) && s.requests[code].status == Approved && !TooSoon(s.requests[code], now)
  }

  lemma GrantedIsGrantable(s: State, now: Time, code: string, calls: Calls)
    requires PollStep(s, now, code, calls).reply.Granted?
    ensures Grantable(s, code, now)
  {}

  lemma {:induction false} GrantedStays(p: Precision, run: seq<Timed>, i: nat, m: nat, code: string)
    requires Legal(p, run) && i < |run| && i <= m <= |run| && Grantable(After(p, run[..i]), code, run[i].at)
    requires m > i ==> run[m - 1].at <= After(p, run[..i]).requests[code].expiresAt
    ensures code in After(p, run[..i]).requests && code in After(p, run[..m]).codes
    ensures code in After(p, run[..m]).requests <==> !DeletedBetween(run, i, m, code)
    ensures code in After(p, run[..m]).requests ==>
              After(p, run[..m]).requests[code] == After(p, run[..i]).requests[code]
    decreases m
  {
    hide Step;
    StepLegal(p, run, i);
    RunOk(p, run[..i]);
    if m > i {
      TimeIsMonotone(p, run, i, m - 1);
      if m - 1 > i {
        TimeIsMonotone(p, run, m - 2, m - 1);
      }
      GrantedStays(p, run, i, m - 1, code);
      GrantedStep(p, run, m - 1, code, After(p, run[..i]).requests[code]);
      DeletedOneMore(run, i, m - 1, code);
    }
  }

  lemma GrantedStep(p: Precision, run: seq<Timed>, n: nat, code: string, r: Request)
    requires Legal(p, run) && n < |run| && code != "" && code in After(p, run[..n]).codes
    requires r.status == Approved && !TooSoon(r, run[n].at) && run[n].at <= r.expiresAt
    requires code in After(p, run[..n]).requests ==> After(p, run[..n]).requests[code] == r
    ensures var after := After(p, run[..n + 1]);
            && code in after.codes
            && (code in after.requests <==> code in After(p, run[..n]).requests && !Deletes(run[n].ev, code))
            && (code in after.requests ==> after.requests[code] == r)
  {
    StepLegal(p, run, n);
    RunOk(p, run[..n]);
    StepOfRun(p, run, n);
    StepContinues(After(p, run[..n]), run[n].at, run[n].ev, code);
    if code in After(p, run[..n]).requests {
      StepOnGranted(After(p, run[..n]), run[n].at, run[n].ev, code);
    }
  }

  lemma DeletedOneMore(run: seq<Timed>, i: nat, n: nat, code: string)
    requires i <= n < |run|
    ensures DeletedBetween(run, i, n + 1, code) <==> DeletedBetween(run, i, n, code) || Deletes(run[n].ev, code)
  {}

  /** When a session is handed out once more: a later poll of the code gets it again if and
      only if the request can be looked up and has not expired, and no poll of it from the first
      grant on could look it up and delete it. */
  lemma GrantedAgain(p: Precision, run: seq<Timed>, i: nat, j: nat, code: string)
    requires Legal(p, run) && i < j < |run| && IsPoll(run[i].ev, code) && IsPoll(run[j].ev, code)
    requires ReplyTo(p, run, i).Granted?
    ensures code in After(p, run[..i]).requests
    ensures ReplyTo(p, run, j).Granted? <==>
            && run[j].ev.calls.lookupOk
            && run[j].at <= After(p, run[..i]).requests[code].expiresAt
            && !DeletedBetween(run, i, j, code)
    ensures ReplyTo(p, run, j).Granted? ==> ReplyTo(p, run, j) == ReplyTo(p, run, i)
  {
    GrantedIsGrantable(After(p, run[..i]), run[i].at, code, run[i].ev.calls);
    var r := After(p, run[..i]).requests[code];
    StepLegal(p, run, i);
    RunOk(p, run[..i]);
    hide Legal;
    hide Ok;
    TimeIsMonotone(p, run, i, j);
    if run[j].at <= r.expiresAt {
      TimeIsMonotone(p, run, j - 1, j);
      GrantedStays(p, run, i, j, code);
    } else {
      RequestContinues(p, run, i, j, code);
    }
  }

  /** So a device code yields its session once, if the request that was granted is deleted. */
  lemma GrantedOnce(p: Precision, run: seq<Timed>, i: nat, j: nat, code: string)
    requires Legal(p, run) && i < j < |run| && IsPoll(run[i].ev, code) && IsPoll(run[j].ev, code)
    requires ReplyTo(p, run, i).Granted? && run[i].ev.calls.deleteOk
    ensures ReplyTo(p, run, j) == if run[j].ev.calls.lookupOk then ExpiredToken else ServerError
  {
    StepLegal(p, run, i);
    RunOk(p, run[..i]);
    StepOfRun(p, run, i);
    RequestContinues(p, run, i + 1, j, code);
  }

  /** If that deletion fails, whoever polls next before the expiry gets the session, too. */
  lemma GrantedTwice(p: Precision, run: seq<Timed>, code: string, at: Time)
    requires Legal(p, run) && run != [] && IsPoll(run[|run| - 1].ev, code)
    requires ReplyTo(p, run, |run| - 1).Granted? && !run[|run| - 1].ev.calls.deleteOk
    requires code in After(p, run[..|run| - 1]).requests
    requires run[|run| - 1].at <= at <= After(p, run[..|run| - 1]).requests[code].expiresAt
    ensures var again := run + [Timed(at, Poll(code, ALL_OK))];
            Legal(p, again) && ReplyTo(p, again, |run|) == ReplyTo(p, run, |run| - 1)
  {
    var again, i := run + [Timed(at, Poll(code, ALL_OK))], |run| - 1;
    assert again[..|run|] == run && again[..i] == run[..i];
    GrantedAgain(p, again, i, |run|, code);
  }

  /** Such a run: started, approved, and polled with a deletion that fails. */
  lemma SecondGrant(p: Precision) returns (run: seq<Timed>)
    requires p <= SECOND
    ensures |run| == 4 && Legal(p, run) && ReplyTo(p, run, 2) == ReplyTo(p, run, 3) == Granted("t", "u")
  {
    var start, approval := Timed(0, Start("d", "A")), Timed(1, Decide(Some("u"), "A", true, Some("t"), ALL_OK));
    var poll := Timed(2, Poll("d", Calls(true, true, false)));
    StoredBelow(p, REQUEST_TTL);
    Extend(p, [], start);
    var s1 := After(p, [start]);
    assert [] + [start] == [start];
    assert s1.requests == map["d" := NewRequest(p, "A", 0)];
    assert "d" in s1.requests && s1.requests["d"].userCode == "A";
    assert HasUserCode(s1, "A") && ByUserCode(s1, "A") == "d";
    Extend(p, [start], approval);
    var s2 := After(p, [start, approval]);
    assert [start] + [approval] == [start, approval];
    assert s2.requests == map["d" := s1.requests["d"].(status := Approved, token := "t", username := "u")];
    Extend(p, [start, approval], poll);
    var polled := [start, approval, poll];
    assert [start, approval] + [poll] == polled && polled[..2] == [start, approval];
    GrantedTwice(p, polled, "d", 2);
    run := polled + [Timed(2, Poll("d", ALL_OK))];
    assert run[..2] == polled[..2];
  }

  lemma Extend(p: Precision, run: seq<Timed>, e: Timed)
    requires Legal(p, run) && Enabled(After(p, run), e.ev) && (run != [] ==> run[|run| - 1].at <= e.at)
    ensures Legal(p, run + [e]) && After(p, run + [e]) == Step(After(p, run), e.at, e.ev).state
  {
    assert (run + [e])[..|run|] == run;
  }

  // ----- Where a token comes from -----

  /** Event j started the request. */
  ghost predicate StartedAt(p: Precision, run: seq<Timed>, j: nat, code: string, r: Request)
    requires j < |run|
  {
    run[j].ev == Start(code, r.userCode) && r.expiresAt == Stored(p, run[j].at + REQUEST_TTL)
  }

  predicate IsApproval(ev: Event, username: string, userCode: string, token: string) {
    ev.Decide? && ev.user == Some(username) && ev.userCode == userCode && ev.approve && ev.token == Some(token)
  }

  /** At event k, the signed-in user approved the request by its user code. */
  ghost predicate ApprovedAt(p: Precision, run: seq<Timed>, k: nat, code: string, r: Request)
    requires k < |run|
  {
    && IsApproval(run[k].ev, r.username, r.userCode, r.token)
    && ReplyTo(p, run, k) == JustApproved
    && Live(After(p, run[..k]), code, run[k].at)
  }

  lemma StepOrigin(s: State, now: Time, ev: Event, code: string)
    requires Ok(s) && Enabled(s, ev) && code in Step(s, now, ev).state.requests
    ensures var r := Step(s, now, ev).state.requests[code];
            || (ev == Start(code, r.userCode) && r.expiresAt == Stored(s.precision, now + REQUEST_TTL))
            || (code in s.requests && Continues(s.requests[code], r))
  {}

  lemma StepApproval(s: State, now: Time, ev: Event, code: string)
    requires Ok(s) && Enabled(s, ev) && code in Step(s, now, ev).state.requests
    requires Step(s, now, ev).state.requests[code].status == Approved
    ensures var r := Step(s, now, ev).state.requests[code];
            || (code in s.requests && s.requests[code].status == Approved && Continues(s.requests[code], r))
            || (&& IsApproval(ev, r.username, r.userCode, r.token)
                && Step(s, now, ev).reply == JustApproved && Live(s, code, now))
  {}

  lemma {:induction false} RequestWasStarted(p: Precision, run: seq<Timed>, i: nat, code: string) returns (j: nat)
    requires Legal(p, run) && i <= |run| && code in After(p, run[..i]).requests
    ensures j < i && StartedAt(p, run, j, code, After(p, run[..i]).requests[code])
    decreases i
  {
    StepLegal(p, run, i - 1);
    RunOk(p, run[..i - 1]);
    StepOfRun(p, run, i - 1);
    StepOrigin(After(p, run[..i - 1]), run[i - 1].at, run[i - 1].ev, code);
    if run[i - 1].ev.Start? && run[i - 1].ev.deviceCode == code {
      j := i - 1;
    } else {
      j := RequestWasStarted(p, run, i - 1, code);
    }
  }

  lemma {:induction false} RequestWasApproved(p: Precision, run: seq<Timed>, i: nat, code: string) returns (k: nat)
    requires Legal(p, run) && i <= |run| && code in After(p, run[..i]).requests
    requires After(p, run[..i]).requests[code].status == Approved
    ensures k < i && ApprovedAt(p, run, k, code, After(p, run[..i]).requests[code])
    decreases i
  {
    StepLegal(p, run, i - 1);
    RunOk(p, run[..i - 1]);
    StepOfRun(p, run, i - 1);
    var before, r := After(p, run[..i - 1]), After(p, run[..i]).requests[code];
    StepApproval(before, run[i - 1].at, run[i - 1].ev, code);
    if code in before.requests && before.requests[code].status == Approved && Continues(before.requests[code], r) {
      k := RequestWasApproved(p, run, i - 1, code);
    } else {
      k := i - 1;
      assert ApprovedAt(p, run, k, code, r);
    }
  }

  /** A token is handed out only before the request expires, only after a signed-in user
      has approved it by the user code it was started with, and it is that user's session,
      minted by that approval. */
  lemma GrantIsEarned(p: Precision, run: seq<Timed>, i: nat, code: string) returns (start: nat, approval: nat)
    requires Legal(p, run) && i < |run| && IsPoll(run[i].ev, code) && ReplyTo(p, run, i).Granted?
    ensures start < approval < i && run[start].ev.Start? && run[start].ev.deviceCode == code
    ensures run[i].at <= run[start].at + 600_000_000_000
    ensures var Granted(token, username) := ReplyTo(p, run, i);
            && IsApproval(run[approval].ev, username, run[start].ev.userCode, token)
            && ReplyTo(p, run, approval) == JustApproved
            && token in After(p, run[..i]).sessions && After(p, run[..i]).sessions[token] == username
  {
    StepLegal(p, run, i);
    RunOk(p, run[..i]);
    start := RequestWasStarted(p, run, i, code);
    approval := RequestWasApproved(p, run, i, code);
    StoredBelow(p, run[start].at + REQUEST_TTL);
    StartBeforeApproval(p, run, start, approval, code);
  }

  /** A request is not there before it is started. */
  lemma StartBeforeApproval(p: Precision, run: seq<Timed>, start: nat, approval: nat, code: string)
    requires Legal(p, run) && start < |run| && approval < |run|
    requires run[start].ev.Start? && run[start].ev.deviceCode == code
    requires code in After(p, run[..approval]).requests
    ensures start < approval
  {
    if approval <= start {
      StepLegal(p, run, approval);
      StepLegal(p, run, start);
      RunOk(p, run[..approval]);
      RequestContinues(p, run, approval, start, code);
      assert false;
    }
  }

  /** And an approved request is delivered: as long as it lives and has not been granted,
      a poll that does not come too soon answers with the approver's session. */
  lemma ApprovalIsDelivered(p: Precision, run: seq<Timed>, k: nat, i: nat, code: string, r: Request)
    requires Legal(p, run) && k < i < |run| && ApprovedAt(p, run, k, code, r)
    requires After(p, run[..k]).requests[code].userCode == r.userCode
    requires IsPoll(run[i].ev, code) && run[i].ev.calls.lookupOk && code != ""
    requires Live(After(p, run[..i]), code, run[i].at)
    requires !TooSoon(After(p, run[..i]).requests[code], run[i].at)
    ensures ReplyTo(p, run, i) == Granted(r.token, r.username)
  {
    StepLegal(p, run, k);
    RunOk(p, run[..k]);
    StepOfRun(p, run, k);
    RequestContinues(p, run, k + 1, i, code);
  }

  // ----- Polling too fast -----

  lemma StepPolled(s: State, now: Time, ev: Event, code: string)
    requires code in Step(s, now, ev).state.requests
    requires Step(s, now, ev).state.requests[code].lastPolledAt.Some?
    ensures var last := Step(s, now, ev).state.requests[code].lastPolledAt;
            && code in s.requests
            && (s.requests[code].lastPolledAt == last ||
                (last == Some(Stored(s.precision, now)) && IsPoll(ev, code) && ev.calls.lookupOk))
  {}

  lemma {:induction false} WasPolled(p: Precision, run: seq<Timed>, i: nat, code: string) returns (j: nat)
    requires Legal(p, run) && i <= |run| && code in After(p, run[..i]).requests
    requires After(p, run[..i]).requests[code].lastPolledAt.Some?
    ensures j < i && IsPoll(run[j].ev, code) && run[j].ev.calls.lookupOk && code in After(p, run[..j]).requests
    ensures Stored(p, run[j].at) == After(p, run[..i]).requests[code].lastPolledAt.value
    decreases i
  {
    StepOfRun(p, run, i - 1);
    var before := After(p, run[..i - 1]);
    StepPolled(before, run[i - 1].at, run[i - 1].ev, code);
    if before.requests[code].lastPolledAt == After(p, run[..i]).requests[code].lastPolledAt {
      j := WasPolled(p, run, i - 1, code);
    } else {
      j := i - 1;
    }
  }

  /** Polls that keep the interval are never told to slow down, whoever else does what,
      and whatever writes fail. */
  lemma PoliteIsNotSlowed(p: Precision, run: seq<Timed>, i: nat, code: string)
    requires Legal(p, run) && i < |run| && IsPoll(run[i].ev, code)
    requires forall j :: 0 <= j < i && IsPoll(run[j].ev, code) ==> run[i].at - run[j].at >= 2_000_000_000
    ensures ReplyTo(p, run, i) != SlowDown
  {
    if ReplyTo(p, run, i) == SlowDown {
      var j := WasPolled(p, run, i, code);
      StoredBelow(p, run[j].at);
      assert false;
    }
  }

  lemma StepKeepsPoll(s: State, now: Time, ev: Event, code: string, since: Time)
    requires Ok(s) && Enabled(s, ev) && code in s.requests && code in Step(s, now, ev).state.requests
    requires since <= Stored(s.precision, now)
    requires s.requests[code].lastPolledAt.Some? && since <= s.requests[code].lastPolledAt.value
    ensures var last := Step(s, now, ev).state.requests[code].lastPolledAt; last.Some? && since <= last.value
  {}

  lemma StepRecordsPoll(s: State, now: Time, code: string)
    requires code != "" && Live(s, code, now) && code in PollStep(s, now, code, ALL_OK).state.requests
    ensures PollStep(s, now, code, ALL_OK).state.requests[code].lastPolledAt == Some(Stored(s.precision, now))
  {}

  /** The time of a poll of a live request is remembered, as the store keeps it, as
      long as the request is there. */
  lemma {:induction false} PollIsRecorded(p: Precision, run: seq<Timed>, j: nat, i: nat, code: string)
    requires Legal(p, run) && j < i <= |run| && code != "" && run[j].ev == Poll(code, ALL_OK)
    requires Live(After(p, run[..j]), code, run[j].at) && code in After(p, run[..i]).requests
    ensures var last := After(p, run[..i]).requests[code].lastPolledAt; last.Some? && Stored(p, run[j].at) <= last.value
    decreases i
  {
    StepOfRun(p, run, i - 1);
    if j == i - 1 {
      StepRecordsPoll(After(p, run[..j]), run[j].at, code);
    } else {
      StepLegal(p, run, i - 1);
      StepLegal(p, run, j);
      RunOk(p, run[..i - 1]);
      RunOk(p, run[..j]);
      TimeIsMonotone(p, run, j, i - 1);
      RequestContinues(p, run, j, i - 1, code);
      StepContinues(After(p, run[..i - 1]), run[i - 1].at, run[i - 1].ev, code);
      PollIsRecorded(p, run, j, i - 1, code);
      StoredMonotone(p, run[j].at, run[i - 1].at);
      StepKeepsPoll(After(p, run[..i - 1]), run[i - 1].at, run[i - 1].ev, code, Stored(p, run[j].at));
    }
  }

  /** Where the writes for the request succeed, the answer is slow_down exactly when the
      live request has been polled less than the interval ago, the time of that poll being
      what the store has kept of it. */
  lemma SlowDownIsExact(p: Precision, run: seq<Timed>, i: nat, code: string)
    requires Legal(p, run) && i < |run| && code != "" && IsPoll(run[i].ev, code)
    requires forall j :: 0 <= j < i && IsPoll(run[j].ev, code) && run[j].ev.calls.lookupOk ==> run[j].ev.calls == ALL_OK
    ensures ReplyTo(p, run, i) == SlowDown <==>
            && run[i].ev.calls.lookupOk && Live(After(p, run[..i]), code, run[i].at)
            && exists j :: 0 <= j < i && PolledWithin(p, run, j, i, code)
  {
    if ReplyTo(p, run, i) == SlowDown {
      var j := WasPolled(p, run, i, code);
      assert PolledWithin(p, run, j, i, code);
    }
    if run[i].ev.calls.lookupOk && Live(After(p, run[..i]), code, run[i].at) {
      forall j | 0 <= j < i && PolledWithin(p, run, j, i, code) ensures ReplyTo(p, run, i) == SlowDown {
        StepLegal(p, run, j);
        RunOk(p, run[..j]);
        TimeIsMonotone(p, run, j, i);
        RequestContinues(p, run, j, i, code);
        PollIsRecorded(p, run, j, i, code);
      }
    }
  }

  ghost predicate PolledWithin(p: Precision, run: seq<Timed>, j: nat, i: nat, code: string)
    requires j < i < |run|
  {
    && IsPoll(run[j].ev, code) && run[j].ev.calls.lookupOk && code in After(p, run[..j]).requests
    && run[i].at - Stored(p, run[j].at) < 2_000_000_000
  }

  // ----- Sessions that an approval mints -----

  /** The decision gets as far as minting a session. */
  ghost predicate Mints(s: State, now: Time, ev: Event) {
    && ev.Decide? && ev.user.Some? && ev.approve && ev.token.Some? && ev.calls.lookupOk
    && Undecided(s, now, ev.userCode)
  }

  ghost predicate Carried(s: State, token: string) {
    exists c :: c in s.requests && s.requests[c].status == Approved && s.requests[c].token == token
  }

  lemma StepKeepsSessions(s: State, now: Time, ev: Event, token: string)
    requires Ok(s) && Enabled(s, ev) && token in s.tokens
    ensures var s' := Step(s, now, ev).state;
            && token in s'.tokens && (token in s'.sessions <==> token in s.sessions)
            && (Carried(s', token) ==> Carried(s, token))
  {
    var s' := Step(s, now, ev).state;
    if c :| c in s'.requests && s'.requests[c].status == Approved && s'.requests[c].token == token {
      StepApproval(s, now, ev, c);
    }
  }

  lemma MintedSession(s: State, now: Time, ev: Event)
    requires Ok(s) && Enabled(s, ev) && Mints(s, now, ev)
    ensures var s', token := Step(s, now, ev).state, ev.token.value;
            && token in s'.tokens
            && (token in s'.sessions <==> ev.calls.updateOk || !ev.calls.deleteOk)
            && (Carried(s', token) <==> ev.calls.updateOk)
  {
    var s', token := Step(s, now, ev).state, ev.token.value;
    if ev.calls.updateOk {
      var code := ByUserCode(s, ev.userCode);
      assert code in s'.requests && s'.requests[code].status == Approved && s'.requests[code].token == token;
    } else {
      forall c | c in s.requests && s.requests[c].status == Approved ensures s.requests[c].token != token {
        assert SessionOk(s, s.requests[c]);
      }
    }
  }

  /** What becomes of a session that an approval minted at event k: it is there from then
      on unless the update failed and it could be deleted, and the request carries it, for
      a time, if and only if the update succeeded. */
  lemma {:induction false} SessionStays(p: Precision, run: seq<Timed>, k: nat, m: nat)
    requires Legal(p, run) && k < m <= |run| && Mints(After(p, run[..k]), run[k].at, run[k].ev)
    ensures var token, calls := run[k].ev.token.value, run[k].ev.calls;
            && token in After(p, run[..m]).tokens
            && (token in After(p, run[..m]).sessions <==> calls.updateOk || !calls.deleteOk)
            && (!calls.updateOk ==> !Carried(After(p, run[..m]), token))
            && (calls.updateOk ==> Carried(After(p, run[..k + 1]), token))
    decreases m
  {
    var token := run[k].ev.token.value;
    StepLegal(p, run, m - 1);
    RunOk(p, run[..m - 1]);
    StepOfRun(p, run, m - 1);
    if m - 1 == k {
      MintedSession(After(p, run[..k]), run[k].at, run[k].ev);
    } else {
      SessionStays(p, run, k, m - 1);
      StepKeepsSessions(After(p, run[..m - 1]), run[m - 1].at, run[m - 1].ev, token);
    }
  }

  /** So a session that no request has ever carried is left behind if and only if the update
      of the request and the deletion of the session both fail. */
  lemma SessionLeftBehind(p: Precision, run: seq<Timed>, k: nat, m: nat)
    requires Legal(p, run) && k < m <= |run| && Mints(After(p, run[..k]), run[k].at, run[k].ev)
    ensures LeftBehind(p, run, k, m, run[k].ev.token.value) <==>
            !run[k].ev.calls.updateOk && !run[k].ev.calls.deleteOk
  {
    SessionStays(p, run, k, m);
    if !run[k].ev.calls.updateOk {
      forall l | k < l <= m ensures !Carried(After(p, run[..l]), run[k].ev.token.value) {
        SessionStays(p, run, k, l);
      }
    }
  }

  ghost predicate LeftBehind(p: Precision, run: seq<Timed>, k: nat, m: nat, token: string)
    requires m <= |run|
  {
    token in After(p, run[..m]).sessions && forall l :: k < l <= m ==> !Carried(After(p, run[..l]), token)
  }

  lemma StepMints(s: State, now: Time, ev: Event, token: string)
    requires token in Step(s, now, ev).state.sessions && token !in s.sessions
    ensures Mints(s, now, ev) && ev.token == Some(token)
  {}

  /** There are no other sessions. */
  lemma {:induction false} SessionWasMinted(p: Precision, run: seq<Timed>, m: nat, token: string) returns (k: nat)
    requires Legal(p, run) && m <= |run| && token in After(p, run[..m]).sessions
    ensures k < m && Mints(After(p, run[..k]), run[k].at, run[k].ev) && run[k].ev.token == Some(token)
    decreases m
  {
    StepOfRun(p, run, m - 1);
    hide Step;
    if token in After(p, run[..m - 1]).sessions {
      k := SessionWasMinted(p, run, m - 1, token);
    } else {
      k := m - 1;
      StepMints(After(p, run[..k]), run[k].at, run[k].ev, token);
    }
  }
}

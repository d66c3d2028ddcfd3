/** What a poll and a decision answer, told by what has happened since the request was
    started. */
module DeviceReplies {
  import opened Prelude
  import opened DeviceFlow

  /** A decision on the user code was answered like that after event `start` and before `i`. */
  ghost predicate DecidedSince(p: Precision, run: seq<Timed>, start: nat, i: nat, userCode: string, reply: Reply)
    requires i <= |run|
  {
    exists k :: start < k < i && run[k].ev.Decide? && run[k].ev.userCode == userCode && ReplyTo(p, run, k) == reply
  }

  predicate DecidedAt(ev: Event, reply: Reply, userCode: string, wanted: Reply) {
    ev.Decide? && ev.userCode == userCode && reply == wanted
  }

  lemma DecidedOneMore(p: Precision, run: seq<Timed>, start: nat, n: nat, userCode: string, reply: Reply)
    requires start < n < |run|
    ensures DecidedSince(p, run, start, n + 1, userCode, reply) <==>
            DecidedSince(p, run, start, n, userCode, reply) || DecidedAt(run[n].ev, ReplyTo(p, run, n), userCode, reply)
  {}

  lemma StatusStep(s: State, now: Time, ev: Event, code: string)
    requires Ok(s) && Enabled(s, ev) && code in s.requests && code in Step(s, now, ev).state.requests
    ensures var r, r', reply := s.requests[code], Step(s, now, ev).state.requests[code], Step(s, now, ev).reply;
            if DecidedAt(ev, reply, r.userCode, JustApproved) then r.status == Pending && r'.status == Approved
            else if DecidedAt(ev, reply, r.userCode, JustDenied) then r.status == Pending && r'.status == Denied
            else r'.status == r.status
  {}

  /** The request was started at event `start` and is there before event `i`. */
  ghost predicate There(p: Precision, run: seq<Timed>, start: nat, i: nat, code: string, userCode: string) {
    && Legal(p, run) && start < i <= |run|
    && run[start].ev == Start(code, userCode) && code in After(p, run[..i]).requests
  }

  lemma ThereBefore(p: Precision, run: seq<Timed>, start: nat, i: nat, code: string, userCode: string)
    requires There(p, run, start, i, code, userCode)
    ensures After(p, run[..i]).requests[code].userCode == userCode
    ensures After(p, run[..i]).requests[code].expiresAt == Stored(p, run[start].at + 600_000_000_000)
    ensures start + 1 < i ==> There(p, run, start, i - 1, code, userCode)
  {
    hide Step;
    hide After;
    hide Legal;
    hide Ok;
    StartIsPending(p, run, start, code, userCode);
    RequestContinues(p, run, start + 1, i, code);
    if start + 1 < i {
      RequestContinues(p, run, start + 1, i - 1, code);
      RequestContinues(p, run, i - 1, i, code);
    }
  }

  lemma StartIsPending(p: Precision, run: seq<Timed>, start: nat, code: string, userCode: string)
    requires start < |run| && run[start].ev == Start(code, userCode)
    ensures var s := After(p, run[..start + 1]);
            && code in s.codes && code in s.requests && s.requests[code].status == Pending
            && s.requests[code].userCode == userCode
            && s.requests[code].expiresAt == Stored(p, run[start].at + 600_000_000_000)
  {
    StepOfRun(p, run, start);
  }

  /** The status of a request tells which decision, if any, its user code has had. */
  lemma {:induction false} StatusIsDecision(p: Precision, run: seq<Timed>, start: nat, i: nat,
                                            code: string, userCode: string)
    requires There(p, run, start, i, code, userCode)
    ensures var status := After(p, run[..i]).requests[code].status;
            && (status == Approved <==> DecidedSince(p, run, start, i, userCode, JustApproved))
            && (status == Denied <==> DecidedSince(p, run, start, i, userCode, JustDenied))
    decreases i
  {
    hide Step;
    ThereBefore(p, run, start, i, code, userCode);
    StepOfRun(p, run, i - 1);
    if i == start + 1 {
      StartIsPending(p, run, start, code, userCode);
    } else {
      StatusIsDecision(p, run, start, i - 1, code, userCode);
      StepLegal(p, run, i - 1);
      RunOk(p, run[..i - 1]);
      ThereBefore(p, run, start, i - 1, code, userCode);
      StatusStep(After(p, run[..i - 1]), run[i - 1].at, run[i - 1].ev, code);
      DecidedOneMore(p, run, start, i - 1, userCode, JustApproved);
      DecidedOneMore(p, run, start, i - 1, userCode, JustDenied);
    }
  }

  // ----- Polls -----

  ghost predicate Answers(p: Precision, run: seq<Timed>, start: nat, i: nat, userCode: string)
    requires i < |run|
  {
    && (ReplyTo(p, run, i) == AuthorizationPending <==>
          !DecidedSince(p, run, start, i, userCode, JustApproved)
          && !DecidedSince(p, run, start, i, userCode, JustDenied))
    && (ReplyTo(p, run, i) == AccessDenied <==> DecidedSince(p, run, start, i, userCode, JustDenied))
    && (ReplyTo(p, run, i).Granted? <==> DecidedSince(p, run, start, i, userCode, JustApproved))
  }

  /** A poll that works, of a request that is there and has not expired, and that comes two
      seconds after the last one: it is told to go on waiting if and only if there has been
      no decision, that the user has denied if and only if one has, and it gets a session if
      and only if one has approved. */
  lemma PollTellsDecision(p: Precision, run: seq<Timed>, start: nat, i: nat, code: string, userCode: string)
    requires There(p, run, start, i, code, userCode) && i < |run|
    requires IsPoll(run[i].ev, code) && run[i].ev.calls.lookupOk
    requires var r := After(p, run[..i]).requests[code];
             && run[i].at <= r.expiresAt
             && (r.lastPolledAt.Some? ==> run[i].at - r.lastPolledAt.value >= 2_000_000_000)
    ensures Answers(p, run, start, i, userCode)
  {
    StepLegal(p, run, start);
    StatusIsDecision(p, run, start, i, code, userCode);
  }

  /** The poll has ended the request: it is over for the CLI, and the deletion works. */
  ghost predicate EndsIt(p: Precision, run: seq<Timed>, k: nat, code: string)
    requires k < |run|
  {
    && IsPoll(run[k].ev, code) && run[k].ev.calls.deleteOk
    && (ReplyTo(p, run, k).Granted? || ReplyTo(p, run, k) == AccessDenied)
  }

  lemma StaysThereStep(s: State, now: Time, ev: Event, code: string)
    requires code in s.requests && now <= s.requests[code].expiresAt
    requires !(IsPoll(ev, code) && ev.calls.deleteOk
               && (Step(s, now, ev).reply.Granted? || Step(s, now, ev).reply == AccessDenied))
    ensures code in Step(s, now, ev).state.requests
  {
    StoredBelow(s.precision, now);
  }

  lemma {:induction false} StaysThere(p: Precision, run: seq<Timed>, start: nat, i: nat, code: string, userCode: string)
    requires Legal(p, run) && start < i <= |run| && run[start].ev == Start(code, userCode)
    requires run[i - 1].at <= Stored(p, run[start].at + 600_000_000_000)
    requires forall k :: start < k < i ==> !EndsIt(p, run, k, code)
    ensures There(p, run, start, i, code, userCode)
    decreases i
  {
    hide Step;
    StartIsPending(p, run, start, code, userCode);
    if start + 1 < i {
      TimeIsMonotone(p, run, i - 2, i - 1);
      StaysThere(p, run, start, i - 1, code, userCode);
      ThereBefore(p, run, start, i - 1, code, userCode);
      assert !EndsIt(p, run, i - 1, code);
      StepOfRun(p, run, i - 1);
      StaysThereStep(After(p, run[..i - 1]), run[i - 1].at, run[i - 1].ev, code);
    }
  }

  /** From end to end: within the ten minutes, and until a poll has ended the request, a CLI
      that keeps two seconds between its polls is told at each of them what has been decided,
      whoever else does what, and whatever writes fail. */
  lemma PoliteCliIsTold(p: Precision, run: seq<Timed>, start: nat, i: nat, code: string, userCode: string)
    requires Legal(p, run) && start < i < |run| && run[start].ev == Start(code, userCode)
    requires IsPoll(run[i].ev, code) && run[i].ev.calls.lookupOk
    requires run[i].at + p as int <= run[start].at + 600_000_000_000
    requires forall k :: 0 <= k < i && IsPoll(run[k].ev, code) ==> run[i].at - run[k].at >= 2_000_000_000
    requires forall k :: start < k < i ==> !EndsIt(p, run, k, code)
    ensures Answers(p, run, start, i, userCode)
  {
    StoredBelow(p, run[start].at + 600_000_000_000);
    TimeIsMonotone(p, run, i - 1, i);
    StaysThere(p, run, start, i, code, userCode);
    ThereBefore(p, run, start, i, code, userCode);
    var r := After(p, run[..i]).requests[code];
    if r.lastPolledAt.Some? {
      var j := WasPolled(p, run, i, code);
      StoredBelow(p, run[j].at);
    }
    PollTellsDecision(p, run, start, i, code, userCode);
  }

  /** A request is over ten minutes after its start. */
  lemma LateIsExpired(p: Precision, run: seq<Timed>, start: nat, i: nat, code: string, userCode: string)
    requires Legal(p, run) && start < i < |run| && run[start].ev == Start(code, userCode)
    requires IsPoll(run[i].ev, code) && run[i].ev.calls.lookupOk
    requires run[i].at > run[start].at + 600_000_000_000
    ensures ReplyTo(p, run, i) == ExpiredToken
  {
    StepLegal(p, run, start);
    StoredBelow(p, run[start].at + 600_000_000_000);
    if code in After(p, run[..i]).requests {
      ThereBefore(p, run, start, i, code, userCode);
    }
  }

  /** Once the user's denial has been delivered and the request deleted, it is gone. */
  lemma DeniedOnce(p: Precision, run: seq<Timed>, i: nat, j: nat, code: string)
    requires Legal(p, run) && i < j < |run| && IsPoll(run[i].ev, code) && IsPoll(run[j].ev, code)
    requires ReplyTo(p, run, i) == AccessDenied && run[i].ev.calls.deleteOk
    ensures ReplyTo(p, run, j) == if run[j].ev.calls.lookupOk then ExpiredToken else ServerError
  {
    StepLegal(p, run, i);
    RunOk(p, run[..i]);
    StepOfRun(p, run, i);
    RequestContinues(p, run, i + 1, j, code);
  }

  /** A poll that cannot look anything up, or finds no live request, changes nothing. */
  lemma PollOfNothing(s: State, now: Time, code: string, calls: Calls)
    requires code == "" || !calls.lookupOk || code !in s.requests || s.requests[code].expiresAt < now
    ensures Step(s, now, Poll(code, calls)) ==
            Outcome(s, if code == "" then InvalidRequest else if !calls.lookupOk then ServerError else ExpiredToken)
  {}

  /** A cleanup removes what has expired, up to the precision of the store, and keeps all
      that has not as it is. */
  lemma CleanupRemovesExpired(s: State, now: Time, code: string)
    requires code in s.requests
    ensures var kept := Step(s, now, Cleanup).state.requests;
            && (s.requests[code].expiresAt + s.precision as int <= now ==> code !in kept)
            && (now <= s.requests[code].expiresAt ==> code in kept)
            && (code in kept ==> kept[code] == s.requests[code])
  {
    StoredBelow(s.precision, now);
  }

  // ----- Decisions -----

  /** A signed-in user's decision on a live request counts if it is the first, and is told of
      the first one otherwise. */
  lemma FirstDecisionCounts(p: Precision, run: seq<Timed>, start: nat, i: nat, code: string, userCode: string)
    requires There(p, run, start, i, code, userCode) && i < |run| && userCode != ""
    requires run[i].at <= After(p, run[..i]).requests[code].expiresAt
    requires run[i].ev.Decide? && run[i].ev.userCode == userCode && run[i].ev.user.Some? && run[i].ev.calls.lookupOk
    ensures ReplyTo(p, run, i) ==
            if DecidedSince(p, run, start, i, userCode, JustApproved) then AlreadyDecided(Approved)
            else if DecidedSince(p, run, start, i, userCode, JustDenied) then AlreadyDecided(Denied)
            else if !run[i].ev.calls.updateOk || (run[i].ev.approve && run[i].ev.token.None?) then InternalError
            else if run[i].ev.approve then JustApproved
            else JustDenied
  {
    PrefixLegal(p, run, i);
    RunOk(p, run[..i]);
    ThereBefore(p, run, start, i, code, userCode);
    StatusIsDecision(p, run, start, i, code, userCode);
    var s := After(p, run[..i]);
    assert HasUserCode(s, userCode) && ByUserCode(s, userCode) == code;
  }

  /** Without a session nobody decides anything, and no decision is made on a code that
      leads to no live request. */
  lemma NobodyDecides(s: State, now: Time, ev: Event)
    requires ev.Decide?
    requires ev.user.None?
             || forall code :: code in s.requests && s.requests[code].userCode == ev.userCode ==>
                  s.requests[code].expiresAt < now
    ensures Step(s, now, ev).state == s
    ensures Step(s, now, ev).reply == if ev.user.None? then Unauthenticated
                                      else if ev.userCode == "" then InvalidForm else UnknownCode
  {}
}

/** The device-flow handlers (internal/auth/device.go) over the stored requests, each proved
    to do its step of DeviceFlow. */
module DeviceHandlers {
  import opened Prelude
  import opened DeviceFlow

  /** One attempt to start a request: the codes generated, and whether the store accepts
      the insert as far as its constraints go. */
  datatype Attempt = NoEntropy | Codes(deviceCode: string, userCode: string, storeOk: bool)

  /** Seconds, as in the response. */
  datatype StartReply = StartReply(deviceCode: string, userCode: string, expiresIn: int, interval: int)

  ghost predicate Storable(s: State, a: Attempt) {
    && a.Codes? && a.storeOk && a.deviceCode != "" && a.userCode != ""
    && a.deviceCode !in s.requests && !HasUserCode(s, a.userCode)
  }

  class DeviceStore {
    const precision: Precision
    var requests: map<string, Request>
    var sessions: map<string, string>
    ghost var codes: set<string>
    ghost var tokens: set<string>

    ghost function Contents(): State
      reads this
    {
      State(precision, requests, sessions, codes, tokens)
    }

    ghost predicate Valid()
      reads this
    {
      Ok(Contents())
    }

    constructor (precision: Precision)
      ensures Valid() && Contents() == Initial(precision)
    {
      this.precision := precision;
      requests, sessions, codes, tokens := map[], map[], {}, {};
    }

    method CreateDeviceAuth(deviceCode: string, userCode: string, expiresAt: Time, storeOk: bool) returns (ok: bool)
      modifies this`requests, this`codes
      ensures ok <==> Storable(old(Contents()), Codes(deviceCode, userCode, storeOk))
      ensures Contents() == if ok then StartStep(old(Contents()), expiresAt - REQUEST_TTL, deviceCode, userCode)
                            else old(Contents())
    {
      if deviceCode == "" || userCode == "" || !storeOk || deviceCode in requests {
        return false;
      }
      if exists code :: code in requests && requests[code].userCode == userCode {
        return false;
      }
      requests := requests[deviceCode := Request(userCode, Pending, "", "", None, Stored(precision, expiresAt))];
      codes := codes + {deviceCode};
      ok := true;
    }

    /** `failed` counts the attempts that did not work. */
    method HandleDeviceStart(now: Time, attempts: seq<Attempt>) returns (reply: Option<StartReply>, failed: nat)
      requires Valid() && |attempts| == 5
      requires forall i :: 0 <= i < |attempts| && attempts[i].Codes? ==> attempts[i].deviceCode !in codes
      modifies this`requests, this`codes
      ensures Valid()
      ensures failed <= 5
      ensures forall i :: 0 <= i < failed ==> attempts[i].Codes? && !Storable(old(Contents()), attempts[i])
      ensures reply.Some? ==>
                && failed < 5 && Storable(old(Contents()), attempts[failed])
                && var Codes(deviceCode, userCode, _) := attempts[failed];
                && reply.value == StartReply(deviceCode, userCode, 600, 2)
                && Enabled(old(Contents()), Start(deviceCode, userCode))
                && Contents() == Step(old(Contents()), now, Start(deviceCode, userCode)).state
      ensures reply.None? ==>
                Contents() == old(Contents()) && (failed == 5 || attempts[failed].NoEntropy?)
    {
      reply, failed := None, 0;
      ghost var before := Contents();
      while failed < MAX_ATTEMPTS
        invariant 0 <= failed <= MAX_ATTEMPTS && Contents() == before
        invariant forall i :: 0 <= i < failed ==> attempts[i].Codes? && !Storable(before, attempts[i])
      {
        match attempts[failed]
        case NoEntropy => return;
        case Codes(deviceCode, userCode, storeOk) =>
          var ok := CreateDeviceAuth(deviceCode, userCode, now + REQUEST_TTL, storeOk);
          if ok {
            StepOk(before, now, Start(deviceCode, userCode));
            reply := Some(StartReply(deviceCode, userCode, REQUEST_TTL / SECOND, POLL_MIN_INTERVAL / SECOND));
            return;
          }
          failed := failed + 1;
      }
    }

    method GetByDeviceCode(code: string, now: Time) returns (r: Option<Request>)
      ensures r == if Live(Contents(), code, now) then Some(requests[code]) else None
    {
      if code !in requests || now > requests[code].expiresAt {
        return None;
      }
      r := Some(requests[code]);
    }

    method UpdateDeviceAuth(code: string, r: Request, ok: bool)
      requires code in requests
      modifies this`requests
      ensures Contents() == Put(old(Contents()), code, r, ok)
    {
      if ok {
        requests := requests[code := r];
      }
    }

    method DeleteDeviceAuth(code: string, ok: bool)
      modifies this`requests
      ensures Contents() == Drop(old(Contents()), code, ok)
    {
      if ok {
        requests := requests - {code};
      }
    }

    method HandleDevicePoll(now: Time, deviceCode: string, calls: Calls) returns (reply: Reply)
      requires Valid()
      modifies this`requests
      ensures Valid()
      ensures Outcome(Contents(), reply) == Step(old(Contents()), now, Poll(deviceCode, calls))
    {
      StepOk(Contents(), now, Poll(deviceCode, calls));
      if deviceCode == "" {
        return InvalidRequest;
      }
      if !calls.lookupOk {
        return ServerError;
      }
      var found := GetByDeviceCode(deviceCode, now);
      if found.None? {
        return ExpiredToken;
      }
      var r := found.value;
      var polled := r.(lastPolledAt := Some(Stored(precision, now)));
      if r.lastPolledAt.Some? && now - r.lastPolledAt.value < POLL_MIN_INTERVAL {
        UpdateDeviceAuth(deviceCode, polled, calls.updateOk);
        return SlowDown;
      }
      match r.status
      case Pending =>
        UpdateDeviceAuth(deviceCode, polled, calls.updateOk);
        reply := AuthorizationPending;
      case Denied =>
        DeleteDeviceAuth(deviceCode, calls.deleteOk);
        reply := AccessDenied;
      case Approved =>
        DeleteDeviceAuth(deviceCode, calls.deleteOk);
        reply := Granted(r.token, r.username);
    }

    method GetByUserCode(userCode: string, now: Time) returns (code: Option<string>)
      requires Valid()
      ensures var s := Contents();
              code == if HasUserCode(s, userCode) && Live(s, ByUserCode(s, userCode), now)
                      then Some(ByUserCode(s, userCode)) else None
    {
      if !exists c :: c in requests && requests[c].userCode == userCode {
        return None;
      }
      var c :| c in requests && requests[c].userCode == userCode;
      assert c == ByUserCode(Contents(), userCode);
      if now > requests[c].expiresAt {
        return None;
      }
      code := Some(c);
    }

    method HandleDeviceDecision(now: Time, user: Option<string>, userCode: string, approve: bool,
                                token: Option<string>, calls: Calls) returns (reply: Reply)
      requires Valid() && Enabled(Contents(), Decide(user, userCode, approve, token, calls))
      modifies this
      ensures Valid()
      ensures Outcome(Contents(), reply) ==
              Step(old(Contents()), now, Decide(user, userCode, approve, token, calls))
    {
      StepOk(Contents(), now, Decide(user, userCode, approve, token, calls));
      if user.None? {
        return Unauthenticated;
      }
      if userCode == "" {
        return InvalidForm;
      }
      if !calls.lookupOk {
        return UnknownCode;
      }
      var found := GetByUserCode(userCode, now);
      if found.None? {
        return UnknownCode;
      }
      var code := found.value;
      var r := requests[code];
      if r.status != Pending {
        return AlreadyDecided(r.status);
      }
      if !approve {
        UpdateDeviceAuth(code, r.(status := Denied), calls.updateOk);
        return if calls.updateOk then JustDenied else InternalError;
      }
      if token.None? {
        return InternalError;
      }
      sessions, tokens := sessions[token.value := user.value], tokens + {token.value};
      UpdateDeviceAuth(code, r.(status := Approved, token := token.value, username := user.value), calls.updateOk);
      if !calls.updateOk {
        DeleteSession(token.value, calls.deleteOk);
        assert calls.deleteOk ==> sessions == old(sessions) - {token.value};
        return InternalError;
      }
      reply := JustApproved;
    }

    /** Best effort: a failure is logged and no more. */
    method DeleteSession(token: string, ok: bool)
      modifies this`sessions
      ensures sessions == if ok then old(sessions) - {token} else old(sessions)
    {
      if ok {
        sessions := sessions - {token};
      }
    }

    method DeleteExpiredDeviceAuths(now: Time) returns (deleted: nat)
      requires Valid()
      modifies this`requests
      ensures Valid() && Contents() == Step(old(Contents()), now, Cleanup).state
      ensures deleted == |old(requests)| - |requests|
    {
      StepOk(Contents(), now, Cleanup);
      var kept := map code | code in requests && requests[code].expiresAt >= Stored(precision, now) :: requests[code];
      FewerKeys(kept, requests);
      deleted := |requests| - |kept|;
      requests := kept;
    }
  }

  lemma FewerKeys<K, V>(part: map<K, V>, whole: map<K, V>)
    requires part.Keys <= whole.Keys
    ensures |part| <= |whole|
    decreases |part|
  {
    if part != map[] {
      var k :| k in part;
      assert (part - {k}).Keys == part.Keys - {k} && (whole - {k}).Keys == whole.Keys - {k};
      FewerKeys(part - {k}, whole - {k});
    }
  }
}

/** Coalesced lookups (internal/proxy/enterprise.go, internal/proxy/username.go): of the
    concurrent calls that miss the cache for one key, one leads and does the lookup, and
    the others wait for its flight.

    An event moves one call over one operation on shared memory. A flight is named after
    the call that created it. */
module SingleFlight {
  import opened Prelude

  /** A team verdict, or a username ("" when the lookup failed). */
  datatype Value = Verdict(member: bool) | Username(login: string)

  /** A team check caches every verdict, a username lookup only a name. */
  predicate Cacheable(v: Value) {
    v.Verdict? || v.login != ""
  }

  /** What a call answers when it gives up waiting. */
  function FailClosed(team: bool): Value {
    if team then Verdict(false) else Username("")
  }

  type Key = string
  type Call = nat

  /** `waits` is false for the asynchronous resolver and the cache warm-up, which leave
      when somebody else is already looking the key up. */
  datatype Request = Request(key: Key, team: bool, waits: bool)

  datatype Pc =
    | ReadCache
    | LoadOrStore
    // The leader: look up, cache, publish in the flight, close it, remove it.
    | LookUp
    | AddToCache(v: Value)
    | SetResult(v: Value)
    | Close(v: Value)
    | RemoveFlight(v: Value)
    // A leader whose lookup panicked; its request is abandoned.
    | Panicked
    | Wait(flight: Call)
    | Done(v: Value, led: bool)

  datatype Thread = Thread(req: Request, pc: Pc)

  /** `looked` is history: what lookups have answered, per key. */
  datatype State = State(
    calls: map<Call, Thread>,
    flights: map<Key, Call>,
    closed: set<Call>,
    result: map<Call, Value>,
    cache: map<Key, Value>,
    looked: set<(Key, Value)>)
  {
    function Goto(c: Call, pc: Pc): State
      requires c in calls
    {
      this.(calls := calls[c := calls[c].(pc := pc)])
    }
  }

  const INITIAL := State(map[], map[], {}, map[], map[], {})

  datatype Event =
    | Begin(c: Call, req: Request)
    | Step(c: Call)
    | LookedUp(c: Call, v: Value)
    | Panic(c: Call)
    | Cancel(c: Call)
    // The cache drops an entry, by age or for space.
    | Evict(key: Key)

  predicate Enabled(s: State, ev: Event) {
    match ev
    case Begin(c, _) => c !in s.calls
    case LookedUp(c, v) => c in s.calls && v.Verdict? == s.calls[c].req.team
    case _ => true
  }

  function StepCall(s: State, c: Call): State
    requires c in s.calls
  {
    var req := s.calls[c].req;
    match s.calls[c].pc
    case ReadCache =>
      if req.key in s.cache then s.Goto(c, Done(s.cache[req.key], false)) else s.Goto(c, LoadOrStore)
    case LoadOrStore =>
      if req.key !in s.flights then s.(flights := s.flights[req.key := c]).Goto(c, LookUp)
      else if req.waits then s.Goto(c, Wait(s.flights[req.key]))
      else s.Goto(c, Done(FailClosed(req.team), false))
    case LookUp => s
    case Panicked => s
    case AddToCache(v) =>
      (if Cacheable(v) then s.(cache := s.cache[req.key := v]) else s).Goto(c, SetResult(v))
    case SetResult(v) => s.(result := s.result[c := v]).Goto(c, Close(v))
    case Close(v) => s.(closed := s.closed + {c}).Goto(c, RemoveFlight(v))
    case RemoveFlight(v) => s.(flights := s.flights - {req.key}).Goto(c, Done(v, true))
    case Wait(f) => if f in s.closed && f in s.result then s.Goto(c, Done(s.result[f], false)) else s
    case Done(_, _) => s
  }

  function Apply(s: State, ev: Event): State {
    match ev
    case Begin(c, req) => s.(calls := s.calls[c := Thread(req, ReadCache)])
    case Step(c) => if c in s.calls then StepCall(s, c) else s
    case LookedUp(c, v) =>
      if c in s.calls && s.calls[c].pc.LookUp?
      then s.(looked := s.looked + {(s.calls[c].req.key, v)}).Goto(c, AddToCache(v))
      else s
    case Panic(c) => if c in s.calls && s.calls[c].pc.LookUp? then s.Goto(c, Panicked) else s
    case Cancel(c) =>
      if c in s.calls && s.calls[c].pc.Wait? then s.Goto(c, Done(FailClosed(s.calls[c].req.team), false)) else s
    case Evict(key) => s.(cache := s.cache - {key})
  }

  function After(run: seq<Event>): State {
    if run == [] then INITIAL else Apply(After(run[..|run| - 1]), run[|run| - 1])
  }

  predicate Legal(run: seq<Event>) {
    run == [] ||
    (Legal(run[..|run| - 1]) && Enabled(After(run[..|run| - 1]), run[|run| - 1]))
  }

  // ----- Invariant -----

  /** The call leads: its flight is registered and not yet removed. That of a leader that
      has panicked never is. */
  predicate Leads(s: State, c: Call) {
    && c in s.calls
    && var pc := s.calls[c].pc;
       pc.LookUp? || pc.AddToCache? || pc.SetResult? || pc.Close? || pc.RemoveFlight? || pc.Panicked?
  }

  /** The verdict a leader has come to. */
  predicate Concluded(s: State, f: Call, v: Value) {
    f in s.calls && (s.calls[f].pc == RemoveFlight(v) || s.calls[f].pc == Done(v, true))
  }

  ghost predicate CallOk(s: State, c: Call)
    requires c in s.calls
  {
    var key := s.calls[c].req.key;
    match s.calls[c].pc
    case AddToCache(v) => (key, v) in s.looked
    case SetResult(v) => (key, v) in s.looked
    case Close(v) => (key, v) in s.looked && c in s.result && s.result[c] == v
    case RemoveFlight(v) => (key, v) in s.looked && c in s.closed
    case Wait(f) =>
      // Either the flight is over, or its leader is still at work on it.
      && f in s.calls && s.calls[f].req.key == key
      && (f in s.closed || (Leads(s, f) && key in s.flights && s.flights[key] == f))
    case Done(v, led) => (key, v) in s.looked || (!led && v == FailClosed(s.calls[c].req.team))
    case _ => true
  }

  ghost predicate Ok(s: State) {
    && (forall c :: c in s.calls ==> CallOk(s, c))
    // The registered flights are exactly those of the leaders, each under its own key.
    && (forall c :: Leads(s, c) ==> s.calls[c].req.key in s.flights && s.flights[s.calls[c].req.key] == c)
    && (forall k :: k in s.flights ==> Leads(s, s.flights[k]) && s.calls[s.flights[k]].req.key == k)
    // A closed flight carries its leader's verdict.
    && (forall f :: f in s.closed ==>
          f in s.result && Concluded(s, f, s.result[f]) && (s.calls[f].req.key, s.result[f]) in s.looked)
    && (forall k :: k in s.cache ==> (k, s.cache[k]) in s.looked)
  }

  lemma ReadCacheOk(s: State, c: Call)
    requires Ok(s) && c in s.calls && s.calls[c].pc.ReadCache?
    ensures Ok(StepCall(s, c))
  {}

  lemma LeadOk(s: State, c: Call)
    requires Ok(s) && c in s.calls && s.calls[c].pc.LoadOrStore? && s.calls[c].req.key !in s.flights
    ensures Ok(StepCall(s, c))
  {}

  lemma JoinOk(s: State, c: Call)
    requires Ok(s) && c in s.calls && s.calls[c].pc.LoadOrStore? && s.calls[c].req.key in s.flights
    requires s.calls[c].req.waits
    ensures Ok(StepCall(s, c))
  {}

  lemma LeaveOk(s: State, c: Call)
    requires Ok(s) && c in s.calls && s.calls[c].pc.LoadOrStore? && s.calls[c].req.key in s.flights
    requires !s.calls[c].req.waits
    ensures Ok(StepCall(s, c))
  {}

  lemma AddToCacheOk(s: State, c: Call)
    requires Ok(s) && c in s.calls && s.calls[c].pc.AddToCache? && Cacheable(s.calls[c].pc.v)
    ensures Ok(StepCall(s, c))
  {}

  lemma SkipCacheOk(s: State, c: Call)
    requires Ok(s) && c in s.calls && s.calls[c].pc.AddToCache? && !Cacheable(s.calls[c].pc.v)
    ensures Ok(StepCall(s, c))
  {}

  lemma SetResultOk(s: State, c: Call)
    requires Ok(s) && c in s.calls && s.calls[c].pc.SetResult?
    ensures Ok(StepCall(s, c))
  {
    var s' := StepCall(s, c);
    forall d | d in s'.calls ensures CallOk(s', d) {
      assert CallOk(s, d);
    }
  }

  lemma CloseOk(s: State, c: Call)
    requires Ok(s) && c in s.calls && s.calls[c].pc.Close?
    ensures Ok(StepCall(s, c))
  {}

  lemma RemoveFlightOk(s: State, c: Call)
    requires Ok(s) && c in s.calls && s.calls[c].pc.RemoveFlight?
    ensures Ok(StepCall(s, c))
  {}

  lemma WaitOk(s: State, c: Call)
    requires Ok(s) && c in s.calls && s.calls[c].pc.Wait?
    ensures Ok(StepCall(s, c))
  {}

  lemma BeginOk(s: State, c: Call, req: Request)
    requires Ok(s) && c !in s.calls
    ensures Ok(Apply(s, Begin(c, req)))
  {}

  lemma LookedUpOk(s: State, c: Call, v: Value)
    requires Ok(s) && c in s.calls
    ensures Ok(Apply(s, LookedUp(c, v)))
  {}

  lemma CancelOk(s: State, c: Call)
    requires Ok(s)
    ensures Ok(Apply(s, Cancel(c)))
  {}

  lemma PanicOk(s: State, c: Call)
    requires Ok(s)
    ensures Ok(Apply(s, Panic(c)))
  {}

  lemma EvictOk(s: State, key: Key)
    requires Ok(s)
    ensures Ok(Apply(s, Evict(key)))
  {}

  lemma StepOk(s: State, ev: Event)
    requires Ok(s) && Enabled(s, ev)
    ensures Ok(Apply(s, ev))
  {
    match ev
    case Begin(c, req) => BeginOk(s, c, req);
    case LookedUp(c, v) => LookedUpOk(s, c, v);
    case Cancel(c) => CancelOk(s, c);
    case Panic(c) => PanicOk(s, c);
    case Evict(key) => EvictOk(s, key);
    case Step(c) =>
      if c in s.calls {
        match s.calls[c].pc
        case ReadCache => ReadCacheOk(s, c);
        case LoadOrStore =>
          if s.calls[c].req.key !in s.flights {
            LeadOk(s, c);
          } else if s.calls[c].req.waits {
            JoinOk(s, c);
          } else {
            LeaveOk(s, c);
          }
        case LookUp =>
        case Panicked =>
        case AddToCache(v) =>
          if Cacheable(v) {
            AddToCacheOk(s, c);
          } else {
            SkipCacheOk(s, c);
          }
        case SetResult(_) => SetResultOk(s, c);
        case Close(_) => CloseOk(s, c);
        case RemoveFlight(_) => RemoveFlightOk(s, c);
        case Wait(_) => WaitOk(s, c);
        case Done(_, _) =>
      }
  }

  lemma {:induction false} RunOk(run: seq<Event>)
    requires Legal(run)
    ensures Ok(After(run))
  {
    if run != [] {
      RunOk(run[..|run| - 1]);
      StepOk(After(run[..|run| - 1]), run[|run| - 1]);
    }
  }

  // ----- Every run -----

  /** Per key at most one call leads, and the registered flight is its own. */
  lemma OneLeaderPerKey(run: seq<Event>, c: Call, d: Call)
    requires Legal(run)
    requires var s := After(run); Leads(s, c) && Leads(s, d) && s.calls[c].req.key == s.calls[d].req.key
    ensures var s := After(run); c == d && s.calls[c].req.key in s.flights && s.flights[s.calls[c].req.key] == c
  {
    RunOk(run);
  }

  /** The leader removes no flight but its own. */
  lemma RemovesOwnFlight(run: seq<Event>, c: Call)
    requires Legal(run) && c in After(run).calls && After(run).calls[c].pc.RemoveFlight?
    ensures var s, s' := After(run), Apply(After(run), Step(c));
            && s.calls[c].req.key in s.flights && s.flights[s.calls[c].req.key] == c
            && s'.flights == map k | k in s.flights && s.flights[k] != c :: s.flights[k]
  {
    RunOk(run);
    assert Leads(After(run), c);
  }

  /** A waiter released by its flight answers exactly what the leader concluded, and it
      is released only by that. */
  lemma WaiterGetsLeadersVerdict(run: seq<Event>, c: Call)
    requires Legal(run) && c in After(run).calls && After(run).calls[c].pc.Wait?
    ensures var s, s', f := After(run), Apply(After(run), Step(c)), After(run).calls[c].pc.flight;
            && f in s.calls && s.calls[f].req.key == s.calls[c].req.key
            && if f in s.closed then s'.calls[c].pc.Done? && Concluded(s, f, s'.calls[c].pc.v) else s' == s
  {
    RunOk(run);
    var s := After(run);
    assert CallOk(s, c);
    var f := s.calls[c].pc.flight;
    if f in s.closed {
      assert Concluded(s, f, s.result[f]);
    }
  }

  /** Every answer is one that a lookup for that key has given, except for the
      fail-closed answer of a call that did not lead. */
  lemma AnswersComeFromLookups(run: seq<Event>, c: Call)
    requires Legal(run) && c in After(run).calls && After(run).calls[c].pc.Done?
    ensures var s, v := After(run), After(run).calls[c].pc.v;
            || (s.calls[c].req.key, v) in s.looked
            || (!s.calls[c].pc.led && v == FailClosed(s.calls[c].req.team))
  {
    RunOk(run);
    assert CallOk(After(run), c);
  }

  /** `looked` is what it says. */
  lemma {:induction false} LookedIsRecorded(run: seq<Event>, key: Key, v: Value) returns (e: nat)
    requires (key, v) in After(run).looked
    ensures e < |run| && run[e].LookedUp? && run[e].v == v
    ensures var s, c := After(run[..e]), run[e].c;
            c in s.calls && s.calls[c].pc.LookUp? && s.calls[c].req.key == key
  {
    var before := run[..|run| - 1];
    if (key, v) in After(before).looked {
      e := LookedIsRecorded(before, key, v);
      assert before[..e] == run[..e];
    } else {
      e := |run| - 1;
    }
  }

  /** No call, cancelled or not, reports membership or a name that no lookup has given. */
  lemma PositiveAnswersWereLookedUp(run: seq<Event>, c: Call)
    requires Legal(run) && c in After(run).calls && After(run).calls[c].pc.Done?
    ensures var s, key := After(run), After(run).calls[c].req.key;
            match s.calls[c].pc.v
            case Verdict(member) => member ==> (key, Verdict(true)) in s.looked
            case Username(login) => login != "" ==> (key, Username(login)) in s.looked
  {
    AnswersComeFromLookups(run, c);
  }

  /** A waiter that is cancelled is no member, or has no name, and it changes nothing else. */
  lemma CancelledIsDenied(s: State, c: Call)
    requires c in s.calls && s.calls[c].pc.Wait?
    ensures var s' := Apply(s, Cancel(c));
            && s'.calls[c].pc == Done(if s.calls[c].req.team then Verdict(false) else Username(""), false)
            && s' == s.(calls := s'.calls) && s'.calls.Keys == s.calls.Keys
            && forall d :: d in s.calls && d != c ==> s'.calls[d] == s.calls[d]
  {}

  /** Who does not wait is never found waiting. */
  lemma {:induction false} AsyncNeverWaits(run: seq<Event>, c: Call)
    requires Legal(run) && c in After(run).calls && After(run).calls[c].pc.Wait?
    ensures After(run).calls[c].req.waits
  {
    var s, ev := After(run[..|run| - 1]), run[|run| - 1];
    StartsToWait(s, ev, c);
    hide Apply;
    if c in s.calls && s.calls[c].pc.Wait? {
      AsyncNeverWaits(run[..|run| - 1], c);
    }
  }

  lemma StartsToWait(s: State, ev: Event, c: Call)
    requires Enabled(s, ev) && c in Apply(s, ev).calls && Apply(s, ev).calls[c].pc.Wait?
    ensures Apply(s, ev).calls[c].req.waits || (c in s.calls && s.calls[c] == Apply(s, ev).calls[c])
  {}

  /** It leaves without a name while somebody else is looking the key up. */
  lemma AsyncLeaves(s: State, c: Call)
    requires c in s.calls && s.calls[c].pc.LoadOrStore? && s.calls[c].req.key in s.flights
    requires !s.calls[c].req.waits && !s.calls[c].req.team
    ensures Apply(s, Step(c)).calls[c].pc == Done(Username(""), false)
  {}

  /** The cache holds no missing name. */
  lemma {:induction false} NoNameIsNotCached(run: seq<Event>, key: Key)
    requires key in After(run).cache
    ensures After(run).cache[key] != Username("")
  {
    if run != [] && key in After(run[..|run| - 1]).cache {
      NoNameIsNotCached(run[..|run| - 1], key);
    }
  }

  /** A call that misses the cache and finds no flight leads. */
  lemma FirstLeads(s: State, c: Call)
    requires c in s.calls && s.calls[c].pc.ReadCache?
    requires s.calls[c].req.key !in s.cache && s.calls[c].req.key !in s.flights
    ensures var s' := Apply(Apply(s, Step(c)), Step(c));
            && s'.calls[c].pc == LookUp
            && s'.flights == s.flights[s.calls[c].req.key := c]
  {
    assert Apply(s, Step(c)).calls[c].pc == LoadOrStore;
  }

  /** Once its lookup has answered, a leader left to itself caches the answer, unless it is
      a missing name, hands it to the waiters, removes its flight and answers with it. */
  lemma LeaderFinishes(s: State, c: Call, v: Value)
    requires c in s.calls && s.calls[c].pc.LookUp?
    ensures var key, step := s.calls[c].req.key, Step(c);
            var s' := Apply(Apply(Apply(Apply(Apply(s, LookedUp(c, v)), step), step), step), step);
            && s'.calls == s.calls[c := Thread(s.calls[c].req, Done(v, true))]
            && s'.cache == (if v == Username("") then s.cache else s.cache[key := v])
            && c in s'.closed && c in s'.result && s'.result[c] == v
            && s'.flights == s.flights - {key}
            && s'.looked == s.looked + {(key, v)}
  {
    var s1 := Apply(s, LookedUp(c, v));
    assert s1.calls[c].pc == AddToCache(v);
    var s2 := Apply(s1, Step(c));
    assert s2.calls[c].pc == SetResult(v);
    var s3 := Apply(s2, Step(c));
    assert s3.calls[c].pc == Close(v);
    var s4 := Apply(s3, Step(c));
    assert s4.calls[c].pc == RemoveFlight(v);
    var s5 := Apply(s4, Step(c));
    assert s5.calls[c].pc == Done(v, true);
  }

  /** How many of its own operations a leader still has to do. */
  function Remaining(pc: Pc): nat {
    match pc
    case LookUp => 5
    case AddToCache(_) => 4
    case SetResult(_) => 3
    case Close(_) => 2
    case RemoveFlight(_) => 1
    case _ => 0
  }

  /** No waiter is stranded but by a panic: the flight it waits on is over, or its leader
      has panicked, or its leader is live and each of the leader's operations brings the end
      closer. */
  lemma WaiterHasLiveLeader(run: seq<Event>, c: Call, v: Value)
    requires Legal(run) && c in After(run).calls && After(run).calls[c].pc.Wait?
    requires v.Verdict? == After(run).calls[c].req.team
    ensures var s, f := After(run), After(run).calls[c].pc.flight;
            f !in s.closed ==>
              && Leads(s, f)
              && f in s.calls
              && (s.calls[f].pc.Panicked? ||
                 var next := if s.calls[f].pc.LookUp? then Apply(s, LookedUp(f, v)) else Apply(s, Step(f));
                 f in next.closed || (Leads(next, f) && Remaining(next.calls[f].pc) < Remaining(s.calls[f].pc)))
  {
    RunOk(run);
    assert CallOk(After(run), c);
  }

  /** A panic strands its key for good: the flight stays registered and open, so that no
      other call ever leads and whoever waits on it waits until it is cancelled. */
  lemma {:induction false} PanicStrands(run: seq<Event>, later: seq<Event>, f: Call)
    requires Legal(run + later) && f in After(run).calls && After(run).calls[f].pc.Panicked?
    ensures var s, key := After(run + later), After(run).calls[f].req.key;
            && f in s.calls && s.calls[f] == After(run).calls[f]
            && f !in s.closed && key in s.flights && s.flights[key] == f
            && (forall c :: Leads(s, c) && s.calls[c].req.key == key ==> c == f)
            && (forall c :: c in s.calls && s.calls[c].pc == Wait(f) ==> Apply(s, Step(c)) == s)
    decreases |later|
  {
    RunOk(run + later);
    var s := After(run + later);
    if later == [] {
      assert run + later == run;
    } else {
      var shorter := later[..|later| - 1];
      assert (run + later)[..|run + later| - 1] == run + shorter;
      PanicStrands(run, shorter, f);
      StaysPanicked(After(run + shorter), later[|later| - 1], f);
    }
    assert Leads(s, f);
    assert f in s.closed ==> Concluded(s, f, s.result[f]);
  }

  lemma StaysPanicked(s: State, ev: Event, f: Call)
    requires f in s.calls && s.calls[f].pc.Panicked? && Enabled(s, ev)
    ensures f in Apply(s, ev).calls && Apply(s, ev).calls[f] == s.calls[f]
  {}

  // ----- The cache after a flight -----

  /** Once a leader has cached its verdict, and until that entry is evicted, the key is
      cached. So a call that starts then is answered from the cache and looks nothing up. */
  lemma {:induction false} CachedUntilEvicted(run: seq<Event>, c: Call, later: seq<Event>)
    requires Legal(run + [Step(c)] + later)
    requires c in After(run).calls && After(run).calls[c].pc.AddToCache? && Cacheable(After(run).calls[c].pc.v)
    requires Evict(After(run).calls[c].req.key) !in later
    ensures After(run).calls[c].req.key in After(run + [Step(c)] + later).cache
  {
    var all, key := run + [Step(c)] + later, After(run).calls[c].req.key;
    if later == [] {
      assert all == run + [Step(c)] && all[..|all| - 1] == run;
    } else {
      var shorter := later[..|later| - 1];
      assert all[..|all| - 1] == run + [Step(c)] + shorter;
      CachedUntilEvicted(run, c, shorter);
      StaysCached(After(run + [Step(c)] + shorter), later[|later| - 1], key);
    }
  }

  lemma StaysCached(s: State, ev: Event, key: Key)
    requires key in s.cache && ev != Evict(key)
    ensures key in Apply(s, ev).cache
  {}

  lemma CachedCallLooksNothingUp(s: State, c: Call)
    requires c in s.calls && s.calls[c].pc.ReadCache? && s.calls[c].req.key in s.cache
    ensures Apply(s, Step(c)).calls[c].pc == Done(s.cache[s.calls[c].req.key], false)
    ensures Apply(s, Step(c)).flights == s.flights && Apply(s, Step(c)).looked == s.looked
  {}

  // ----- How many lookups there are -----

  /** The call has not got past the cache for this key, or it is done with looking up. */
  predicate Settled(s: State, c: Call, key: Key) {
    c in s.calls && s.calls[c].req.key == key ==> !s.calls[c].pc.LoadOrStore? && !s.calls[c].pc.LookUp?
  }

  lemma StaysSettled(s: State, ev: Event, c: Call, key: Key)
    requires Enabled(s, ev) && key in s.cache && Settled(s, c, key)
    ensures Settled(Apply(s, ev), c, key)
  {}

  lemma {:induction false} SettledUntilEvicted(run: seq<Event>, leader: Call, later: seq<Event>, c: Call)
    requires Legal(run + [Step(leader)] + later)
    requires leader in After(run).calls && After(run).calls[leader].pc.AddToCache?
    requires Cacheable(After(run).calls[leader].pc.v) && Evict(After(run).calls[leader].req.key) !in later
    requires Settled(After(run), c, After(run).calls[leader].req.key)
    ensures Settled(After(run + [Step(leader)] + later), c, After(run).calls[leader].req.key)
    decreases |later|
  {
    var all := run + [Step(leader)] + later;
    if later == [] {
      assert all == run + [Step(leader)] && all[..|all| - 1] == run;
    } else {
      var shorter := later[..|later| - 1];
      assert all[..|all| - 1] == run + [Step(leader)] + shorter;
      SettledUntilEvicted(run, leader, shorter, c);
      CachedUntilEvicted(run, leader, shorter);
      StaysSettled(After(run + [Step(leader)] + shorter), later[|later| - 1], c, After(run).calls[leader].req.key);
    }
  }

  /** One lookup for concurrent calls, but for this: after a leader caches its verdict and
      until that is evicted, another lookup for the key can only come from a call that had
      then read the cache already and had not yet asked for the flight. */
  lemma FurtherLookup(run: seq<Event>, leader: Call, later: seq<Event>, c: Call)
    requires Legal(run + [Step(leader)] + later)
    requires leader in After(run).calls && After(run).calls[leader].pc.AddToCache?
    requires Cacheable(After(run).calls[leader].pc.v) && Evict(After(run).calls[leader].req.key) !in later
    requires var s := After(run + [Step(leader)] + later);
             c in s.calls && s.calls[c].pc.LookUp? && s.calls[c].req.key == After(run).calls[leader].req.key
    ensures var s := After(run);
            c in s.calls && s.calls[c].pc.LoadOrStore? && s.calls[c].req.key == s.calls[leader].req.key
  {
    var s, key := After(run), After(run).calls[leader].req.key;
    assert run + ([Step(leader)] + later) == run + [Step(leader)] + later;
    LegalPrefix(run, [Step(leader)] + later);
    RunOk(run);
    assert Leads(s, leader);
    if Settled(s, c, key) {
      SettledUntilEvicted(run, leader, later, c);
    }
    assert s.calls[c].pc.LookUp? ==> Leads(s, c);
  }

  lemma {:induction false} LegalPrefix(run: seq<Event>, later: seq<Event>)
    requires Legal(run + later)
    ensures Legal(run)
  {
    if later == [] {
      assert run + later == run;
    } else {
      assert (run + later)[..|run + later| - 1] == run + later[..|later| - 1];
      LegalPrefix(run, later[..|later| - 1]);
    }
  }

  lemma Extend(run: seq<Event>, ev: Event)
    requires Legal(run) && Enabled(After(run), ev)
    ensures Legal(run + [ev]) && After(run + [ev]) == Apply(After(run), ev)
  {
    assert (run + [ev])[..|run|] == run;
  }

  /** Two calls have read the cache in vain. */
  lemma BothMissed(req: Request) returns (run: seq<Event>)
    ensures Legal(run)
    ensures After(run) ==
            State(map[0 := Thread(req, LoadOrStore), 1 := Thread(req, LoadOrStore)], map[], {}, map[], map[], {})
  {
    Extend([], Begin(0, req));
    Extend([] + [Begin(0, req)], Begin(1, req));
    var both := [] + [Begin(0, req)] + [Begin(1, req)];
    Extend(both, Step(0));
    Extend(both + [Step(0)], Step(1));
    run := both + [Step(0)] + [Step(1)];
  }

  predicate At(s: State, c: Call, req: Request, pc: Pc) {
    c in s.calls && s.calls[c] == Thread(req, pc)
  }

  /** The first one caches its verdict, publishes it and removes its flight. */
  lemma FirstFinishes(s: State, req: Request, v: Value)
    requires Cacheable(v) && s.cache == map[] && s.flights == map[req.key := 0]
    requires At(s, 0, req, AddToCache(v)) && At(s, 1, req, LoadOrStore)
    ensures var s' := Apply(Apply(Apply(Apply(s, Step(0)), Step(0)), Step(0)), Step(0));
            At(s', 1, req, LoadOrStore) && req.key !in s'.flights && s'.cache == map[req.key := v]
  {
    var s1 := Apply(s, Step(0));
    assert At(s1, 0, req, SetResult(v)) && At(s1, 1, req, LoadOrStore) && s1.cache == map[req.key := v];
    var s2 := Apply(s1, Step(0));
    assert At(s2, 0, req, Close(v)) && At(s2, 1, req, LoadOrStore) && s2.cache == s1.cache;
    var s3 := Apply(s2, Step(0));
    assert At(s3, 0, req, RemoveFlight(v)) && At(s3, 1, req, LoadOrStore) && s3.cache == s1.cache;
  }

  lemma ExtendThrice(run: seq<Event>, ev: Event)
    requires Legal(run) && ev.Step?
    ensures Legal(run + [ev, ev, ev]) && After(run + [ev, ev, ev]) == Apply(Apply(Apply(After(run), ev), ev), ev)
  {
    Extend(run, ev);
    Extend(run + [ev], ev);
    Extend(run + [ev] + [ev], ev);
    assert run + [ev, ev, ev] == run + [ev] + [ev] + [ev];
  }

  /** And such a call does look up again: it reads the cache before the first call's verdict
      is there, and asks for the flight after the first call has removed it. */
  lemma SecondLookup(req: Request, v: Value) returns (run: seq<Event>, later: seq<Event>)
    requires v.Verdict? == req.team && Cacheable(v)
    ensures Legal(run + [Step(0)] + later) && Evict(req.key) !in later
    ensures 0 in After(run).calls && After(run).calls[0] == Thread(req, AddToCache(v))
    ensures var s := After(run + [Step(0)] + later);
            s.cache == map[req.key := v] && 1 in s.calls && s.calls[1] == Thread(req, LookUp)
  {
    var read := BothMissed(req);
    Extend(read, Step(0));
    Extend(read + [Step(0)], LookedUp(0, v));
    run := read + [Step(0)] + [LookedUp(0, v)];
    FirstFinishes(After(run), req, v);
    Extend(run, Step(0));
    ExtendThrice(run + [Step(0)], Step(0));
    var ended := run + [Step(0)] + [Step(0), Step(0), Step(0)];
    Extend(ended, Step(1));
    later := [Step(0), Step(0), Step(0), Step(1)];
    assert run + [Step(0)] + later == ended + [Step(1)];
  }
}

/** What the token and credential caches are for: what has been resolved is resolved again
    while it is cached, and so without the store. Refusals, too, have their reasons. */
module TokenCacheOutage {
  import opened Prelude
  import opened ProxyTokens
  import opened TokenCache
  import opened TokenCacheRuns

  function Now(run: seq<Event>): int {
    After(run).clock
  }

  // ----- Refusals -----

  /** The token resolves, and still no credential is handed out: a proxy token has no linked
      credential, or the store does not have it or does not answer; the provider of
      installation tokens refuses an agent token; or the kind is unknown. */
  lemma CredentialRefusalIsJustified(run: seq<Event>, i: nat, hash: string, up: bool, minted: Option<string>)
    requires Answer(run, i, hash, up).Resolved? && AnsweredCredential(run, i, hash, up, minted).Refused?
    ensures var t := Answer(run, i, hash, up).token;
            match t.kind
            case ProxyKind => t.githubTokenId.None? || !up || t.githubTokenId.value !in After(run).db.credentials
            case AgentKind => minted == None
            case UnknownKind => true
  {}

  /** An agent token gets what the provider answers. */
  lemma AgentGetsMinted(run: seq<Event>, i: nat, hash: string, up: bool, plaintext: string)
    requires Answer(run, i, hash, up).Resolved? && Answer(run, i, hash, up).token.kind == AgentKind
    ensures AnsweredCredential(run, i, hash, up, Some(plaintext)) == Granted(plaintext)
  {}

  // ----- Runs and their beginnings -----

  lemma Prefix(run: seq<Event>, n: nat)
    requires Legal(run) && n <= |run|
    ensures Legal(run[..n])
    decreases |run|
  {
    if n < |run| {
      Prefix(run[..|run| - 1], n);
      assert run[..|run| - 1][..n] == run[..n];
    } else {
      assert run[..n] == run;
    }
  }

  lemma {:induction false} ClockGrows(run: seq<Event>, n: nat)
    requires Legal(run) && n <= |run|
    ensures Now(run[..n]) <= Now(run)
    decreases |run|
  {
    if n < |run| {
      ClockGrows(run[..|run| - 1], n);
      assert run[..|run| - 1][..n] == run[..n];
    } else {
      assert run[..n] == run;
    }
  }

  // ----- Credentials -----

  /** The resolution finds a proxy token linked to `id`. */
  predicate Linked(s: System, i: nat, hash: string, up: bool, id: string) {
    var r := ResolveStep(s.At(i), s.db, hash, s.clock, up).1;
    r.Resolved? && r.token.kind == ProxyKind && r.token.githubTokenId == Some(id)
  }

  function Handed(s: System, i: nat, hash: string, up: bool, minted: Option<string>): Credential {
    GitHubTokenStep(s.At(i), s.db, hash, s.clock, up, minted).2
  }

  /** The event is a resolution on instance `i` that hands out the credential `id`. */
  predicate Grants(s: System, ev: Event, i: nat, id: string) {
    && ev.Resolve? && ev.i == i
    && Linked(s, i, ev.hash, ev.up, id)
    && Handed(s, i, ev.hash, ev.up, ev.minted).Granted?
  }

  predicate GrantedAt(run: seq<Event>, e: nat, i: nat, id: string)
    requires e < |run|
  {
    Grants(After(run[..e]), run[e], i, id)
  }

  lemma StepCredential(s: System, ev: Event, i: nat, id: string)
    requires id in Apply(s, ev).At(i).credCache
    ensures (id in s.At(i).credCache && Apply(s, ev).At(i).credCache[id] == s.At(i).credCache[id])
            || (Grants(s, ev, i, id) && Apply(s, ev).At(i).credCache[id].cachedAt == s.clock)
  {
    ChangeAt(s, ev, i);
    if ev.Warm? && ev.i == i {
      WarmKeepsCredentials(s.At(i), ev.active, s.clock);
    }
  }

  lemma WarmKeepsCredentials(inst: Instance, active: seq<ProxyToken>, now: int)
    ensures WarmAll(inst, active, now).credCache == inst.credCache
  {}

  /** A cached credential was handed out at the time it is marked with. */
  lemma {:induction false} CachedWasGranted(run: seq<Event>, i: nat, id: string) returns (e: nat)
    requires id in After(run).At(i).credCache
    ensures e < |run| && GrantedAt(run, e, i, id) && After(run).At(i).credCache[id].cachedAt == Now(run[..e])
  {
    var before, ev := run[..|run| - 1], run[|run| - 1];
    StepCredential(After(before), ev, i, id);
    if id in After(before).At(i).credCache && After(run).At(i).credCache[id] == After(before).At(i).credCache[id] {
      e := CachedWasGranted(before, i, id);
      assert run[..e] == before[..e];
    } else {
      e := |run| - 1;
    }
  }

  /** After a grant the credential is in the cache, as it was handed out. */
  lemma GrantCaches(s: System, ev: Event, i: nat, id: string)
    requires Grants(s, ev, i, id)
    ensures var cache := Apply(s, ev).At(i).credCache;
            && id in cache && s.clock - 300_000_000_000 < cache[id].cachedAt
            && Handed(s, i, ev.hash, ev.up, ev.minted) == Granted(cache[id].plaintext)
  {
    ChangeAt(s, ev, i);
  }

  lemma GrantedFromCache(s: System, i: nat, hash: string, up: bool, minted: Option<string>, id: string)
    requires Linked(s, i, hash, up, id)
    requires id in s.At(i).credCache && s.clock < s.At(i).credCache[id].cachedAt + 300_000_000_000
    ensures Handed(s, i, hash, up, minted) == Granted(s.At(i).credCache[id].plaintext)
  {}

  lemma StepKeepsCredential(s: System, ev: Event, i: nat, id: string)
    requires id in s.At(i).credCache && s.clock < s.At(i).credCache[id].cachedAt + 300_000_000_000
    ensures id in Apply(s, ev).At(i).credCache && Apply(s, ev).At(i).credCache[id] == s.At(i).credCache[id]
  {
    ChangeAt(s, ev, i);
    if ev.Warm? && ev.i == i {
      WarmKeepsCredentials(s.At(i), ev.active, s.clock);
    }
  }

  lemma {:induction false} CredentialStays(run: seq<Event>, n: nat, i: nat, id: string)
    requires Legal(run) && n <= |run| && id in After(run[..n]).At(i).credCache
    requires Now(run) < After(run[..n]).At(i).credCache[id].cachedAt + 300_000_000_000
    ensures id in After(run).At(i).credCache
            && After(run).At(i).credCache[id] == After(run[..n]).At(i).credCache[id]
    decreases |run|
  {
    if n == |run| {
      assert run[..n] == run;
    } else {
      var before := run[..|run| - 1];
      assert before[..n] == run[..n];
      ClockGrows(run, |before|);
      CredentialStays(before, n, i, id);
      StepKeepsCredential(After(before), run[|run| - 1], i, id);
    }
  }

  predicate GrantedBefore(run: seq<Event>, k: nat, e: nat, i: nat, id: string)
    requires k < |run| && e < |run|
  {
    GrantedAt(run, k, i, id) && Now(run[..e]) < Now(run[..k]) + 300_000_000_000
  }

  /** The first grant for a while fills the cache. */
  lemma FirstGrantCaches(run: seq<Event>, e: nat, i: nat, id: string)
    requires e < |run| && GrantedAt(run, e, i, id)
    requires forall k :: 0 <= k < e ==> !GrantedBefore(run, k, e, i, id)
    ensures var cache := After(run[..e + 1]).At(i).credCache;
            && id in cache && cache[id].cachedAt == Now(run[..e])
            && Handed(After(run[..e]), i, run[e].hash, run[e].up, run[e].minted) == Granted(cache[id].plaintext)
  {
    hide Handed;
    hide Linked;
    hide Apply;
    var next := run[..e + 1];
    assert next[..e] == run[..e] && next[e] == run[e];
    GrantCaches(After(run[..e]), run[e], i, id);
    var f := CachedWasGranted(next, i, id);
    assert next[..f] == run[..f];
    assert f < e ==> GrantedBefore(run, f, e, i, id);
  }

  lemma LinkedAnswer(run: seq<Event>, i: nat, hash: string, up: bool, minted: Option<string>, id: string)
    requires var r := Answer(run, i, hash, up);
             r.Resolved? && r.token.kind == ProxyKind && r.token.githubTokenId == Some(id)
    requires id in After(run).At(i).credCache && Now(run) < After(run).At(i).credCache[id].cachedAt + 300_000_000_000
    ensures AnsweredCredential(run, i, hash, up, minted) == Granted(After(run).At(i).credCache[id].plaintext)
  {
    assert Linked(After(run), i, hash, up, id);
    GrantedFromCache(After(run), i, hash, up, minted, id);
  }

  /** A credential handed out, and not already within the 5 minutes before, is handed out again
      by the same instance for 5 minutes, to every token linked to it, although the store
      does not answer. */
  lemma CredentialOutlivesStore(run: seq<Event>, e: nat, i: nat, id: string, hash: string, up: bool,
                                minted: Option<string>)
    requires Legal(run) && e < |run| && GrantedAt(run, e, i, id)
    requires forall k :: 0 <= k < e ==> !GrantedBefore(run, k, e, i, id)
    requires Now(run) < Now(run[..e]) + 300_000_000_000
    requires var r := Answer(run, i, hash, up);
             r.Resolved? && r.token.kind == ProxyKind && r.token.githubTokenId == Some(id)
    ensures AnsweredCredential(run, i, hash, up, minted)
         == AnsweredCredential(run[..e], i, run[e].hash, run[e].up, run[e].minted)
  {
    assert AnsweredCredential(run[..e], i, run[e].hash, run[e].up, run[e].minted)
        == Handed(After(run[..e]), i, run[e].hash, run[e].up, run[e].minted);
    hide Handed;
    hide After;
    hide Legal;
    hide Answer;
    hide AnsweredCredential;
    FirstGrantCaches(run, e, i, id);
    CredentialStays(run, e + 1, i, id);
    LinkedAnswer(run, i, hash, up, minted, id);
  }

  // ----- Tokens -----

  predicate Caches(ev: Event, i: nat, hash: string) {
    (ev.Resolve? && ev.i == i && ev.hash == hash) || (ev.Warm? && ev.i == i)
  }

  predicate Drops(ev: Event, i: nat) {
    (ev.Revoke? || ev.Invalidate?) && ev.i == i
  }

  lemma {:induction false} WarmTokens(inst: Instance, active: seq<ProxyToken>, now: int, hash: string)
    ensures var cache := WarmAll(inst, active, now).tokenCache;
            if hash != "" && exists j :: 0 <= j < |active| && active[j].tokenHash == hash
            then hash in cache && cache[hash].cachedAt == now
            else (hash in cache <==> hash in inst.tokenCache)
                 && (hash in cache ==> cache[hash] == inst.tokenCache[hash])
  {
    if active != [] {
      var before := active[..|active| - 1];
      WarmTokens(inst, before, now, hash);
      if j :| 0 <= j < |active| && active[j].tokenHash == hash {
        assert j < |before| ==> before[j].tokenHash == hash;
      }
    }
  }

  /** A cached token is as it was, or cached by this event. */
  lemma StepToken(s: System, ev: Event, i: nat, hash: string)
    requires hash in Apply(s, ev).At(i).tokenCache
    ensures (hash in s.At(i).tokenCache && Apply(s, ev).At(i).tokenCache[hash] == s.At(i).tokenCache[hash])
            || (Caches(ev, i, hash) && Apply(s, ev).At(i).tokenCache[hash].cachedAt == s.clock)
  {
    ChangeAt(s, ev, i);
    if ev.Warm? && ev.i == i {
      WarmTokens(s.At(i), ev.active, s.clock, hash);
    }
  }

  lemma {:induction false} CachedByEvent(run: seq<Event>, i: nat, hash: string) returns (e: nat)
    requires hash in After(run).At(i).tokenCache
    ensures e < |run| && Caches(run[e], i, hash) && After(run).At(i).tokenCache[hash].cachedAt == Now(run[..e])
  {
    var before, ev := run[..|run| - 1], run[|run| - 1];
    StepToken(After(before), ev, i, hash);
    if hash in After(before).At(i).tokenCache
       && After(run).At(i).tokenCache[hash] == After(before).At(i).tokenCache[hash] {
      e := CachedByEvent(before, i, hash);
      assert run[..e] == before[..e];
    } else {
      e := |run| - 1;
    }
  }

  lemma StepKeepsToken(s: System, ev: Event, i: nat, hash: string, time: int)
    requires !Drops(ev, i) && hash in s.At(i).tokenCache && time <= s.At(i).tokenCache[hash].cachedAt
    requires time <= s.clock < time + 30_000_000_000
    ensures hash in Apply(s, ev).At(i).tokenCache && time <= Apply(s, ev).At(i).tokenCache[hash].cachedAt
  {
    ChangeAt(s, ev, i);
    if ev.Warm? && ev.i == i {
      WarmTokens(s.At(i), ev.active, s.clock, hash);
    }
  }

  lemma {:induction false} TokenStays(run: seq<Event>, n: nat, i: nat, hash: string, time: int)
    requires Legal(run) && n <= |run| && hash in After(run[..n]).At(i).tokenCache
    requires time <= After(run[..n]).At(i).tokenCache[hash].cachedAt
    requires time <= Now(run[..n]) && Now(run) < time + 30_000_000_000
    requires forall k :: n <= k < |run| ==> !Drops(run[k], i)
    ensures hash in After(run).At(i).tokenCache && time <= After(run).At(i).tokenCache[hash].cachedAt
    decreases |run|
  {
    if n == |run| {
      assert run[..n] == run;
    } else {
      var before := run[..|run| - 1];
      assert before[..n] == run[..n];
      ClockGrows(run, |before|);
      ClockGrows(before, n);
      TokenStays(before, n, i, hash, time);
      StepKeepsToken(After(before), run[|run| - 1], i, hash, time);
    }
  }

  lemma AnsweredFromCache(run: seq<Event>, i: nat, hash: string, up: bool)
    requires Legal(run) && hash in After(run).At(i).tokenCache
    requires Now(run) < After(run).At(i).tokenCache[hash].cachedAt + 30_000_000_000
    ensures Answer(run, i, hash, up).Resolved? || Answer(run, i, hash, up).Expired?
  {
    RunOk(run);
    assert TokensOk(After(run).At(i), After(run).past);
  }

  lemma ResolveCaches(s: System, ev: Event, i: nat, hash: string)
    requires ev.Resolve? && ev.i == i && ev.hash == hash
    requires ResolveStep(s.At(i), s.db, hash, s.clock, ev.up).1.Resolved?
    requires hash in s.At(i).tokenCache ==> s.At(i).tokenCache[hash].cachedAt + 30_000_000_000 <= s.clock
    ensures hash in Apply(s, ev).At(i).tokenCache && Apply(s, ev).At(i).tokenCache[hash].cachedAt == s.clock
    ensures Apply(s, ev).clock == s.clock
  {
    ChangeAt(s, ev, i);
  }

  /** A token resolved, after 30 seconds in which its instance has neither resolved it nor
      warmed its cache, is resolved again for 30 seconds although the store does not answer,
      until it expires or a revocation or an invalidation on the instance. */
  lemma ResolvedOutlivesStore(run: seq<Event>, e: nat, i: nat, hash: string, up: bool)
    requires Legal(run) && e < |run| && run[e].Resolve? && run[e].i == i && run[e].hash == hash
    requires Answer(run[..e], i, hash, run[e].up).Resolved?
    requires forall k :: 0 <= k < e && Caches(run[k], i, hash) ==> Now(run[..k]) + 30_000_000_000 <= Now(run[..e])
    requires forall k :: e < k < |run| ==> !Drops(run[k], i)
    requires Now(run) < Now(run[..e]) + 30_000_000_000
    ensures Answer(run, i, hash, up).Resolved? || Answer(run, i, hash, up).Expired?
  {
    hide Apply;
    hide ResolveStep;
    var s, next := After(run[..e]), run[..e + 1];
    assert next[..e] == run[..e] && next[e] == run[e];
    if hash in s.At(i).tokenCache {
      var f := CachedByEvent(run[..e], i, hash);
      assert run[..e][..f] == run[..f];
    }
    ResolveCaches(s, run[e], i, hash);
    hide After;
    hide Legal;
    TokenStays(run, e + 1, i, hash, s.clock);
    AnsweredFromCache(run, i, hash, up);
  }

  /** So is every token with a hash that a warm-up has cached. */
  lemma WarmedOutlivesStore(run: seq<Event>, e: nat, i: nat, j: nat, up: bool)
    requires Legal(run) && e < |run| && run[e].Warm? && run[e].i == i
    requires j < |run[e].active| && run[e].active[j].tokenHash != ""
    requires forall k :: e < k < |run| ==> !Drops(run[k], i)
    requires Now(run) < Now(run[..e]) + 30_000_000_000
    ensures var hash := run[e].active[j].tokenHash;
            Answer(run, i, hash, up).Resolved? || Answer(run, i, hash, up).Expired?
  {
    var s, next, hash := After(run[..e]), run[..e + 1], run[e].active[j].tokenHash;
    assert next[..e] == run[..e] && next[e] == run[e];
    ChangeAt(s, run[e], i);
    WarmTokens(s.At(i), run[e].active, s.clock, hash);
    TokenStays(run, e + 1, i, hash, s.clock);
    AnsweredFromCache(run, i, hash, up);
  }

  /** After an invalidation the instance returns that token only as the store has it. */
  lemma InvalidationIsFresh(run: seq<Event>, i: nat, id: string, hash: string, up: bool)
    requires Legal(run) && run != [] && run[|run| - 1] == Invalidate(i, id)
    ensures Answer(run, i, hash, up).Resolved? && Answer(run, i, hash, up).token.id == id ==>
              up && hash in After(run).db.tokens && After(run).db.tokens[hash] == Answer(run, i, hash, up).token
  {
    var before := After(run[..|run| - 1]);
    RunOk(run[..|run| - 1]);
    InstanceOk(before, i);
    InvalidateOk(before.At(i), before.past, id);
    ChangeAt(before, run[|run| - 1], i);
    hide TokensOk;
    hide CredentialsOk;
    ForgottenIsFresh(After(run).At(i), After(run).db, hash, Now(run), up, id);
  }

  lemma ForgottenIsFresh(inst: Instance, db: Tables, hash: string, now: int, up: bool, id: string)
    requires Forgotten(inst, id)
    ensures var r := ResolveStep(inst, db, hash, now, up).1;
            r.Resolved? && r.token.id == id ==> up && hash in db.tokens && db.tokens[hash] == r.token
  {}
}

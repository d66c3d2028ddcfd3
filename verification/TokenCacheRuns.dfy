/** Runs of several instances over one token store: how long a cached token can outlive
    its revocation. */
module TokenCacheRuns {
  import opened Prelude
  import opened ProxyTokens
  import opened TokenCache

  /** The store as it was at some time. `used` maps the token ids handed out so
      far to the hashes they were created with. */
  datatype Moment = Moment(time: int, db: Tables, used: map<string, string>)

  /** `past` ends with the present moment. `revokedOn` records on which instance a
      `Revoke` call succeeded. */
  datatype System = System(
    db: Tables,
    used: map<string, string>,
    clock: int,
    instances: map<nat, Instance>,
    past: seq<Moment>,
    revokedOn: set<(nat, string)>)
  {
    function At(i: nat): Instance {
      if i in instances then instances[i] else Instance(map[], map[], map[])
    }
  }

  const EMPTY := Tables(map[], map[])
  const INITIAL := System(EMPTY, map[], 0, map[], [Moment(0, EMPTY, map[])], {})

  datatype Event =
    | Tick(now: int)
    | Resolve(i: nat, hash: string, up: bool, minted: Option<string>)
    | Revoke(i: nat, id: string)
    | Invalidate(i: nat, id: string)
    | Warm(i: nat, active: seq<ProxyToken>)
    // The store changes by other means: token creation, scope updates, cleanup, OAuth refresh.
    | Create(t: ProxyToken)
    | Update(id: string, rest: string)
    | Delete(hashes: set<string>)
    | SetCredential(id: string, plaintext: string)

  ghost predicate Enabled(s: System, ev: Event) {
    match ev
    case Tick(now) => s.clock <= now
    case Create(t) => t.id !in s.used && t.revokedAt.None? && t.tokenHash !in s.db.tokens
    case Warm(_, active) => ActiveTokens(s.db, s.clock, active)
    case _ => true
  }

  function Change(s: System, ev: Event): System {
    match ev
    case Tick(now) => s.(clock := now)
    case Resolve(i, hash, up, minted) =>
      s.(instances := s.instances[i := GitHubTokenStep(s.At(i), s.db, hash, s.clock, up, minted).0])
    case Revoke(i, id) =>
      if Revocable(s.db, id)
      then s.(db := RevokeRow(s.db, id, s.clock),
              instances := s.instances[i := InvalidateStep(s.At(i), id)],
              revokedOn := s.revokedOn + {(i, id)})
      else s
    case Invalidate(i, id) => s.(instances := s.instances[i := InvalidateStep(s.At(i), id)])
    case Warm(i, active) => s.(instances := s.instances[i := WarmAll(s.At(i), active, s.clock)])
    case Create(t) => s.(db := s.db.(tokens := s.db.tokens[t.tokenHash := t]), used := s.used[t.id := t.tokenHash])
    case Update(id, rest) => s.(db := UpdateRow(s.db, id, rest))
    case Delete(hashes) => s.(db := s.db.(tokens := s.db.tokens - hashes))
    case SetCredential(id, plaintext) => s.(db := s.db.(credentials := s.db.credentials[id := plaintext]))
  }

  function Apply(s: System, ev: Event): System {
    var s' := Change(s, ev);
    s'.(past := s.past + [Moment(s'.clock, s'.db, s'.used)])
  }

  function After(run: seq<Event>): System {
    if run == [] then INITIAL else Apply(After(run[..|run| - 1]), run[|run| - 1])
  }

  ghost predicate Legal(run: seq<Event>) {
    run == [] ||
    (Legal(run[..|run| - 1]) && Enabled(After(run[..|run| - 1]), run[|run| - 1]))
  }

  // ----- Invariants -----

  /** The row for `h` carries the token id `id`. */
  predicate Row(m: Moment, h: string, id: string) {
    h in m.db.tokens && m.db.tokens[h].id == id
  }

  ghost predicate WellFormed(m: Moment) {
    forall h :: h in m.db.tokens ==>
      m.db.tokens[h].tokenHash == h && m.db.tokens[h].id in m.used && m.used[m.db.tokens[h].id] == h
  }

  /** The id was handed out, and no unrevoked row carries it. */
  ghost predicate Dead(m: Moment, id: string) {
    id in m.used && forall h :: Row(m, h, id) ==> m.db.tokens[h].revokedAt.Some?
  }

  predicate StoredAt(m: Moment, t: ProxyToken, time: int) {
    m.time == time && t.tokenHash in m.db.tokens && m.db.tokens[t.tokenHash] == t && t.revokedAt.None? && t.id in m.used
  }

  predicate CredentialAt(m: Moment, id: string, plaintext: string, time: int) {
    m.time == time && id in m.db.credentials && m.db.credentials[id] == plaintext
  }

  /** A token id never changes its hash, and never comes back to life. */
  ghost predicate Follows(m: Moment, m': Moment) {
    && m.time <= m'.time
    && (forall id :: id in m.used ==> id in m'.used && m'.used[id] == m.used[id])
    && (forall id :: Dead(m, id) ==> Dead(m', id))
  }

  ghost predicate PastOk(past: seq<Moment>) {
    && past != []
    && (forall k :: 0 <= k < |past| ==> WellFormed(past[k]))
    && (forall k, l :: 0 <= k <= l < |past| ==> Follows(past[k], past[l]))
  }

  ghost predicate WasStored(past: seq<Moment>, t: ProxyToken, time: int) {
    exists k :: 0 <= k < |past| && StoredAt(past[k], t, time)
  }

  ghost predicate WasCredential(past: seq<Moment>, id: string, plaintext: string, time: int) {
    exists k :: 0 <= k < |past| && CredentialAt(past[k], id, plaintext, time)
  }

  /** Every cached token is reachable through `idToHash` and was in the store, unrevoked,
      when it was cached. */
  ghost predicate TokensOk(inst: Instance, past: seq<Moment>) {
    forall h :: h in inst.tokenCache ==>
      && var ct := inst.tokenCache[h];
         && ct.token.tokenHash == h
         && ct.token.id in inst.idToHash && inst.idToHash[ct.token.id] == h
         && WasStored(past, ct.token, ct.cachedAt)
  }

  ghost predicate CredentialsOk(inst: Instance, past: seq<Moment>) {
    forall id :: id in inst.credCache ==>
      WasCredential(past, id, inst.credCache[id].plaintext, inst.credCache[id].cachedAt)
  }

  predicate Forgotten(inst: Instance, id: string) {
    forall h :: h in inst.tokenCache ==> inst.tokenCache[h].token.id != id
  }

  ghost predicate Ok(s: System) {
    && PastOk(s.past) && s.past[|s.past| - 1] == Moment(s.clock, s.db, s.used)
    && (forall i :: i in s.instances ==> TokensOk(s.instances[i], s.past) && CredentialsOk(s.instances[i], s.past))
    && (forall p :: p in s.revokedOn ==> Dead(s.past[|s.past| - 1], p.1) && Forgotten(s.At(p.0), p.1))
  }

  // ----- The caches of one instance -----

  lemma CachesGrow(inst: Instance, past: seq<Moment>, m: Moment)
    requires TokensOk(inst, past) && CredentialsOk(inst, past)
    ensures TokensOk(inst, past + [m]) && CredentialsOk(inst, past + [m])
  {
    assert forall k :: 0 <= k < |past| ==> (past + [m])[k] == past[k];
    forall h | h in inst.tokenCache
      ensures WasStored(past + [m], inst.tokenCache[h].token, inst.tokenCache[h].cachedAt) {
      var k :| 0 <= k < |past| && StoredAt(past[k], inst.tokenCache[h].token, inst.tokenCache[h].cachedAt);
      assert StoredAt((past + [m])[k], inst.tokenCache[h].token, inst.tokenCache[h].cachedAt);
    }
    forall id | id in inst.credCache
      ensures WasCredential(past + [m], id, inst.credCache[id].plaintext, inst.credCache[id].cachedAt)
    {
      var k :| 0 <= k < |past| && CredentialAt(past[k], id, inst.credCache[id].plaintext, inst.credCache[id].cachedAt);
      assert CredentialAt((past + [m])[k], id, inst.credCache[id].plaintext, inst.credCache[id].cachedAt);
    }
  }

  lemma CacheTokenOk(inst: Instance, past: seq<Moment>, t: ProxyToken)
    requires TokensOk(inst, past) && PastOk(past)
    requires StoredAt(past[|past| - 1], t, past[|past| - 1].time)
    ensures TokensOk(CacheToken(inst, t.tokenHash, t, past[|past| - 1].time), past)
  {
    var last := |past| - 1;
    var inst' := CacheToken(inst, t.tokenHash, t, past[last].time);
    forall h | h in inst'.tokenCache && h != t.tokenHash ensures inst.tokenCache[h].token.id != t.id {
      var k :| 0 <= k < |past| && StoredAt(past[k], inst.tokenCache[h].token, inst.tokenCache[h].cachedAt);
      assert Follows(past[k], past[last]) && WellFormed(past[k]) && WellFormed(past[last]);
    }
  }

  lemma InvalidateOk(inst: Instance, past: seq<Moment>, id: string)
    requires TokensOk(inst, past)
    ensures TokensOk(InvalidateStep(inst, id), past) && Forgotten(InvalidateStep(inst, id), id)
  {}

  lemma EvictOk(inst: Instance, past: seq<Moment>, hash: string)
    requires TokensOk(inst, past)
    ensures TokensOk(inst.(tokenCache := inst.tokenCache - {hash}), past)
  {}

  lemma ResolveOk(inst: Instance, past: seq<Moment>, hash: string, up: bool)
    requires TokensOk(inst, past) && PastOk(past)
    ensures TokensOk(ResolveStep(inst, past[|past| - 1].db, hash, past[|past| - 1].time, up).0, past)
  {
    var now, db := past[|past| - 1].time, past[|past| - 1].db;
    EvictOk(inst, past, hash);
    if hash in db.tokens && db.tokens[hash].revokedAt.None? {
      assert WellFormed(past[|past| - 1]);
      assert StoredAt(past[|past| - 1], db.tokens[hash], now);
      CacheTokenOk(inst.(tokenCache := inst.tokenCache - {hash}), past, db.tokens[hash]);
    }
  }

  /** Resolution does not bring back a token that is dead in the store. */
  lemma ResolveForgets(inst: Instance, m: Moment, hash: string, up: bool, id: string)
    requires Dead(m, id) && Forgotten(inst, id)
    ensures Forgotten(ResolveStep(inst, m.db, hash, m.time, up).0, id)
  {
    assert hash in m.db.tokens ==> Row(m, hash, m.db.tokens[hash].id);
  }

  lemma CredentialStepOk(inst: Instance, past: seq<Moment>, t: ProxyToken, up: bool)
    requires past != [] && CredentialsOk(inst, past)
    ensures var inst' := CredentialStep(inst, past[|past| - 1].db, t, past[|past| - 1].time, up).0;
            CredentialsOk(inst', past)
  {
    var now, db := past[|past| - 1].time, past[|past| - 1].db;
    if t.githubTokenId.Some? && t.githubTokenId.value in db.credentials {
      assert CredentialAt(past[|past| - 1], t.githubTokenId.value, db.credentials[t.githubTokenId.value], now);
    }
  }

  lemma SameTokens(inst: Instance, inst': Instance, past: seq<Moment>)
    requires inst.tokenCache == inst'.tokenCache && inst.idToHash == inst'.idToHash && TokensOk(inst, past)
    ensures TokensOk(inst', past)
  {}

  lemma GitHubTokenStepOk(inst: Instance, past: seq<Moment>, hash: string, up: bool, minted: Option<string>)
    requires TokensOk(inst, past) && CredentialsOk(inst, past) && PastOk(past)
    ensures var inst' := GitHubTokenStep(inst, past[|past| - 1].db, hash, past[|past| - 1].time, up, minted).0;
            TokensOk(inst', past) && CredentialsOk(inst', past)
  {
    var (inst1, r) := ResolveStep(inst, past[|past| - 1].db, hash, past[|past| - 1].time, up);
    ResolveOk(inst, past, hash, up);
    assert CredentialsOk(inst1, past);
    hide TokensOk;
    hide CredentialsOk;
    if r.Resolved? && r.token.kind.ProxyKind? {
      CredentialStepOk(inst1, past, r.token, up);
      SameTokens(inst1, CredentialStep(inst1, past[|past| - 1].db, r.token, past[|past| - 1].time, up).0, past);
    }
  }

  /** The token returned was stored, as it is, less than the TTL ago. */
  lemma ResolveRecent(inst: Instance, past: seq<Moment>, hash: string, up: bool)
    requires TokensOk(inst, past) && PastOk(past)
    requires ResolveStep(inst, past[|past| - 1].db, hash, past[|past| - 1].time, up).1.Resolved?
    ensures var now := past[|past| - 1].time;
            var t := ResolveStep(inst, past[|past| - 1].db, hash, now, up).1.token;
            && t.tokenHash == hash && !ExpiredAt(t, now)
            && exists time :: now - TOKEN_CACHE_TTL < time && WasStored(past, t, time)
  {
    var m := past[|past| - 1];
    assert WellFormed(m);
    if hash in inst.tokenCache && m.time - inst.tokenCache[hash].cachedAt < TOKEN_CACHE_TTL {
      assert WasStored(past, inst.tokenCache[hash].token, inst.tokenCache[hash].cachedAt);
    } else {
      assert StoredAt(m, m.db.tokens[hash], m.time);
      assert WasStored(past, m.db.tokens[hash], m.time);
    }
  }

  /** The token was stored less than the TTL ago and has expired since. */
  ghost predicate ExpiredSince(past: seq<Moment>, hash: string, t: ProxyToken, time: int)
    requires past != []
  {
    && t.tokenHash == hash && WasStored(past, t, time)
    && past[|past| - 1].time - 30_000_000_000 < time
    && t.expiresAt.Some? && past[|past| - 1].time > t.expiresAt.value
  }

  ghost predicate Justified(r: Resolution, past: seq<Moment>, hash: string, up: bool)
    requires past != []
  {
    var db := past[|past| - 1].db;
    match r
    case Resolved(_) => true
    case BadPrefix => false
    case StoreFailure => !up
    case NotFound => hash !in db.tokens
    case Revoked => hash in db.tokens && db.tokens[hash].revokedAt.Some?
    case Expired => exists t, time :: ExpiredSince(past, hash, t, time)
  }

  lemma ResolveJustified(inst: Instance, past: seq<Moment>, hash: string, up: bool)
    requires TokensOk(inst, past) && PastOk(past)
    ensures Justified(ResolveStep(inst, past[|past| - 1].db, hash, past[|past| - 1].time, up).1, past, hash, up)
  {
    var m := past[|past| - 1];
    assert WellFormed(m);
    if hash in inst.tokenCache && m.time - inst.tokenCache[hash].cachedAt < TOKEN_CACHE_TTL {
      var ct := inst.tokenCache[hash];
      assert WasStored(past, ct.token, ct.cachedAt) && ct.token.revokedAt.None?;
      assert ExpiredAt(ct.token, m.time) ==> ExpiredSince(past, hash, ct.token, ct.cachedAt);
    } else if hash in m.db.tokens && m.db.tokens[hash].revokedAt.None? {
      assert StoredAt(m, m.db.tokens[hash], m.time);
      assert WasStored(past, m.db.tokens[hash], m.time);
      assert ExpiredAt(m.db.tokens[hash], m.time) ==> ExpiredSince(past, hash, m.db.tokens[hash], m.time);
    }
  }

  lemma CredentialRecent(inst: Instance, past: seq<Moment>, t: ProxyToken, up: bool)
    requires CredentialsOk(inst, past) && past != []
    requires CredentialStep(inst, past[|past| - 1].db, t, past[|past| - 1].time, up).1.Granted?
    ensures var now := past[|past| - 1].time;
            var plaintext := CredentialStep(inst, past[|past| - 1].db, t, now, up).1.plaintext;
            && t.githubTokenId.Some?
            && exists time ::
                 now - CREDENTIAL_CACHE_TTL < time && WasCredential(past, t.githubTokenId.value, plaintext, time)
  {
    var m, id := past[|past| - 1], t.githubTokenId.value;
    if id in inst.credCache && m.time - inst.credCache[id].cachedAt < CREDENTIAL_CACHE_TTL {
      assert WasCredential(past, id, inst.credCache[id].plaintext, inst.credCache[id].cachedAt);
    } else {
      assert CredentialAt(m, id, m.db.credentials[id], m.time);
      assert WasCredential(past, id, m.db.credentials[id], m.time);
    }
  }

  lemma {:induction false} WarmOk(inst: Instance, past: seq<Moment>, active: seq<ProxyToken>)
    requires TokensOk(inst, past) && PastOk(past)
    requires ActiveTokens(past[|past| - 1].db, past[|past| - 1].time, active)
    ensures var inst' := WarmAll(inst, active, past[|past| - 1].time);
            && TokensOk(inst', past) && inst'.credCache == inst.credCache
            && forall id :: Dead(past[|past| - 1], id) && Forgotten(inst, id) ==> Forgotten(inst', id)
  {
    if active != [] {
      var t := active[|active| - 1];
      WarmOk(inst, past, active[..|active| - 1]);
      assert StoredAt(past[|past| - 1], t, past[|past| - 1].time);
      assert Row(past[|past| - 1], t.tokenHash, t.id);
      CacheTokenOk(WarmAll(inst, active[..|active| - 1], past[|past| - 1].time), past, t);
    }
  }

  // ----- The store -----

  lemma StoreFollows(s: System, ev: Event)
    requires Ok(s) && Enabled(s, ev)
    ensures var s' := Apply(s, ev);
            WellFormed(s'.past[|s.past|]) && Follows(s.past[|s.past| - 1], s'.past[|s.past|])
  {
    var m, m' := s.past[|s.past| - 1], Apply(s, ev).past[|s.past|];
    assert WellFormed(m) && Follows(m, m);
    forall id | Dead(m, id) ensures Dead(m', id) {
      forall h | Row(m', h, id) ensures m'.db.tokens[h].revokedAt.Some? {
        assert Row(m, h, id);
      }
    }
  }

  lemma PastGrows(past: seq<Moment>, m: Moment)
    requires PastOk(past) && WellFormed(m) && Follows(past[|past| - 1], m)
    ensures PastOk(past + [m])
  {
    var past' := past + [m];
    forall k, l | 0 <= k <= l < |past'| ensures Follows(past'[k], past'[l]) {
      if l == |past| {
        if k < l {
          assert Follows(past[k], past[|past| - 1]);
          FollowsTransitive(past[k], past[|past| - 1], m);
        } else {
          assert Follows(past[|past| - 1], m);
        }
      }
    }
  }

  lemma FollowsTransitive(a: Moment, b: Moment, c: Moment)
    requires Follows(a, b) && Follows(b, c)
    ensures Follows(a, c)
  {}

  // ----- Every run -----

  lemma InstanceOk(s: System, i: nat)
    requires Ok(s)
    ensures TokensOk(s.At(i), s.past) && CredentialsOk(s.At(i), s.past)
  {}

  /** What an event does to instance `i`. */
  function InstanceStep(s: System, ev: Event, i: nat): Instance {
    match ev
    case Resolve(j, hash, up, minted) =>
      if j == i then GitHubTokenStep(s.At(i), s.db, hash, s.clock, up, minted).0 else s.At(i)
    case Revoke(j, id) => if j == i && Revocable(s.db, id) then InvalidateStep(s.At(i), id) else s.At(i)
    case Invalidate(j, id) => if j == i then InvalidateStep(s.At(i), id) else s.At(i)
    case Warm(j, active) => if j == i then WarmAll(s.At(i), active, s.clock) else s.At(i)
    case _ => s.At(i)
  }

  lemma ChangeAt(s: System, ev: Event, i: nat)
    ensures Change(s, ev).At(i) == InstanceStep(s, ev, i)
  {}

  lemma InstanceStepOk(s: System, ev: Event, i: nat)
    requires Ok(s) && Enabled(s, ev)
    ensures TokensOk(InstanceStep(s, ev, i), s.past) && CredentialsOk(InstanceStep(s, ev, i), s.past)
  {
    InstanceOk(s, i);
    match ev
    case Resolve(j, hash, up, minted) => GitHubTokenStepOk(s.At(i), s.past, hash, up, minted);
    case Revoke(j, id) => InvalidateOk(s.At(i), s.past, id);
    case Invalidate(j, id) => InvalidateOk(s.At(i), s.past, id);
    case Warm(j, active) =>
      if j == i {
        WarmOk(s.At(i), s.past, active);
      }
    case _ =>
  }

  lemma RevokedOk(s: System, ev: Event, p: (nat, string))
    requires Ok(s) && Enabled(s, ev) && p in s.revokedOn
    ensures Forgotten(InstanceStep(s, ev, p.0), p.1)
  {
    var inst, m := s.At(p.0), s.past[|s.past| - 1];
    assert Dead(m, p.1) && Forgotten(inst, p.1);
    match ev
    case Resolve(i, hash, up, _) => ResolveForgets(inst, m, hash, up, p.1);
    case Warm(i, active) =>
      if i == p.0 {
        WarmOk(inst, s.past, active);
      }
    case _ =>
  }

  /** A successful `Revoke` leaves the token dead in the store and gone from its cache. */
  lemma RevokeKills(s: System, i: nat, id: string)
    requires Ok(s) && Revocable(s.db, id)
    ensures var s' := Apply(s, Revoke(i, id)); Dead(s'.past[|s.past|], id) && Forgotten(s'.At(i), id)
  {
    var m := s.past[|s.past| - 1];
    assert WellFormed(m);
    if i in s.instances {
      InvalidateOk(s.At(i), s.past, id);
    }
  }

  lemma StepOk(s: System, ev: Event)
    requires Ok(s) && Enabled(s, ev)
    ensures Ok(Apply(s, ev))
  {
    var s' := Apply(s, ev);
    var m := s'.past[|s.past|];
    StoreFollows(s, ev);
    PastGrows(s.past, m);
    forall i | i in s'.instances ensures TokensOk(s'.instances[i], s'.past) && CredentialsOk(s'.instances[i], s'.past) {
      ChangeAt(s, ev, i);
      InstanceStepOk(s, ev, i);
      CachesGrow(s'.instances[i], s.past, m);
    }
    forall p | p in s'.revokedOn ensures Dead(m, p.1) && Forgotten(s'.At(p.0), p.1) {
      if p in s.revokedOn {
        ChangeAt(s, ev, p.0);
        RevokedOk(s, ev, p);
      } else {
        RevokeKills(s, p.0, p.1);
      }
    }
  }

  lemma {:induction false} RunOk(run: seq<Event>)
    requires Legal(run)
    ensures Ok(After(run))
  {
    if run == [] {
      assert PastOk(INITIAL.past);
    } else {
      var before, ev := run[..|run| - 1], run[|run| - 1];
      RunOk(before);
      StepOk(After(before), ev);
    }
  }

  /** What a `Resolve` of instance `i` returns after `run`. */
  function Answer(run: seq<Event>, i: nat, hash: string, up: bool): Resolution {
    var s := After(run);
    ResolveStep(s.At(i), s.db, hash, s.clock, up).1
  }

  function AnsweredCredential(run: seq<Event>, i: nat, hash: string, up: bool, minted: Option<string>): Credential {
    var s := After(run);
    GitHubTokenStep(s.At(i), s.db, hash, s.clock, up, minted).2
  }

  /** No token is returned past its expiry, and every token returned was in the store,
      unrevoked and exactly as returned, at some time within the last 30 seconds. */
  lemma ResolvedIsRecent(run: seq<Event>, i: nat, hash: string, up: bool)
    requires Legal(run) && Answer(run, i, hash, up).Resolved?
    ensures var s, t := After(run), Answer(run, i, hash, up).token;
            && t.tokenHash == hash && (t.expiresAt.None? || s.clock <= t.expiresAt.value) && t.revokedAt.None?
            && exists time :: s.clock - 30_000_000_000 < time && WasStored(s.past, t, time)
  {
    RunOk(run);
    ResolveRecent(After(run).At(i), After(run).past, hash, up);
  }

  /** A refusal, too, is what the store said: a token is refused only because the store
      does not answer, has no such token, has it revoked, or because the token as it was
      stored within the last 30 seconds has expired. The caches refuse no good token. */
  lemma RefusalIsJustified(run: seq<Event>, i: nat, hash: string, up: bool)
    requires Legal(run)
    ensures After(run).past != [] && Justified(Answer(run, i, hash, up), After(run).past, hash, up)
  {
    RunOk(run);
    ResolveJustified(After(run).At(i), After(run).past, hash, up);
  }

  lemma DeadLater(past: seq<Moment>, k: nat, l: nat, id: string)
    requires PastOk(past) && k < |past| && l < |past|
    requires Dead(past[k], id) && past[k].time < past[l].time
    ensures Dead(past[l], id)
  {
    forall j | 0 <= j <= k ensures past[j].time <= past[k].time {
      assert Follows(past[j], past[k]);
    }
    assert Follows(past[k], past[l]);
  }

  /** Once a token has been dead in the store for 30 seconds (revoked, or revoked and
      deleted), no instance returns it. */
  lemma RevocationPropagates(run: seq<Event>, k: nat, id: string, i: nat, hash: string, up: bool)
    requires Legal(run) && k < |After(run).past| && Dead(After(run).past[k], id)
    requires After(run).clock >= After(run).past[k].time + 30_000_000_000
    ensures Answer(run, i, hash, up).Resolved? ==> Answer(run, i, hash, up).token.id != id
  {
    RunOk(run);
    if Answer(run, i, hash, up).Resolved? {
      ResolvedIsRecent(run, i, hash, up);
      var past, t := After(run).past, Answer(run, i, hash, up).token;
      var time :| After(run).clock - 30_000_000_000 < time && WasStored(past, t, time);
      var l :| 0 <= l < |past| && StoredAt(past[l], t, time);
      DeadLater(past, k, l, id);
      assert Row(past[l], t.tokenHash, t.id);
    }
  }

  /** The instance on which `Revoke` succeeded never returns the token again. */
  lemma RevokerNeverReturns(run: seq<Event>, i: nat, id: string, hash: string, up: bool)
    requires Legal(run) && (i, id) in After(run).revokedOn
    ensures Answer(run, i, hash, up).Resolved? ==> Answer(run, i, hash, up).token.id != id
  {
    RunOk(run);
    var s := After(run);
    assert Dead(s.past[|s.past| - 1], id) && Forgotten(s.At(i), id);
    assert hash in s.db.tokens ==> Row(s.past[|s.past| - 1], hash, s.db.tokens[hash].id);
  }

  lemma {:induction false} RevokedOnIsRecorded(run: seq<Event>, i: nat, id: string)
    requires Legal(run) && run != [] && run[|run| - 1] == Revoke(i, id)
    requires Revocable(After(run[..|run| - 1]).db, id)
    ensures (i, id) in After(run).revokedOn && Dead(After(run).past[|After(run).past| - 1], id)
  {
    RunOk(run[..|run| - 1]);
    RevokeKills(After(run[..|run| - 1]), i, id);
  }

  /** A credential is handed out only for a token that resolves, so the bounds above hold
      for it too. That of a proxy token was the stored one within the last 5 minutes; that of
      an agent token is what the provider of installation tokens answers. */
  lemma CredentialIsRecent(run: seq<Event>, i: nat, hash: string, up: bool, minted: Option<string>)
    requires Legal(run) && AnsweredCredential(run, i, hash, up, minted).Granted?
    ensures Answer(run, i, hash, up).Resolved?
    ensures var t, plaintext := Answer(run, i, hash, up).token, AnsweredCredential(run, i, hash, up, minted).plaintext;
            match t.kind
            case ProxyKind =>
              && t.githubTokenId.Some?
              && exists time :: After(run).clock - 300_000_000_000 < time
                                && WasCredential(After(run).past, t.githubTokenId.value, plaintext, time)
            case AgentKind => minted == Some(plaintext)
            case UnknownKind => false
  {
    RunOk(run);
    var s := After(run);
    var (inst, r) := ResolveStep(s.At(i), s.db, hash, s.clock, up);
    assert CredentialsOk(s.At(i), s.past);
    if r.token.kind.ProxyKind? {
      CredentialRecent(inst, s.past, r.token, up);
    }
  }
}

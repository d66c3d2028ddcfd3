/** Token resolution with per-instance caches (internal/token/token.go,
    internal/proxy/resolver.go): several instances share one store, and each keeps
    resolved tokens for 30 seconds and GitHub credentials for 5 minutes.

    Tokens are identified by their hash (SHA-256 is taken to be injective). `Resolve`,
    `Revoke`, `InvalidateByID` and the cache warm-up are atomic on their instance. */
module TokenCache {
  import opened Prelude
  import opened ProxyTokens

  const SECOND: int := 1_000_000_000
  const TOKEN_CACHE_TTL: int := 30 * SECOND
  const CREDENTIAL_CACHE_TTL: int := 300 * SECOND

  datatype CachedToken = CachedToken(token: ProxyToken, cachedAt: int)
  datatype CachedCredential = CachedCredential(plaintext: string, cachedAt: int)

  datatype Resolution =
    | Resolved(token: ProxyToken)
    | BadPrefix
    | NotFound
    | Revoked
    | Expired
    | StoreFailure

  datatype Credential = Granted(plaintext: string) | Refused

  /** The rows of proxy_tokens by their unique hash, and the decrypted GitHub tokens. */
  datatype Tables = Tables(tokens: map<string, ProxyToken>, credentials: map<string, string>)

  predicate ExpiredAt(t: ProxyToken, now: int) {
    t.expiresAt.Some? && now > t.expiresAt.value
  }

  // ----- The store -----

  predicate Revocable(db: Tables, id: string) {
    exists h :: h in db.tokens && db.tokens[h].id == id && db.tokens[h].revokedAt.None?
  }

  function RevokeRow(db: Tables, id: string, now: int): Tables {
    db.(tokens := map h | h in db.tokens ::
      if db.tokens[h].id == id && db.tokens[h].revokedAt.None? then db.tokens[h].(revokedAt := Some(now))
      else db.tokens[h])
  }

  function UpdateRow(db: Tables, id: string, rest: string): Tables {
    db.(tokens := map h | h in db.tokens ::
      if db.tokens[h].id == id then db.tokens[h].(rest := rest) else db.tokens[h])
  }

  // ----- One instance -----

  datatype Instance = Instance(
    tokenCache: map<string, CachedToken>,
    idToHash: map<string, string>,
    credCache: map<string, CachedCredential>)

  function CacheToken(inst: Instance, hash: string, t: ProxyToken, now: int): Instance {
    inst.(tokenCache := inst.tokenCache[hash := CachedToken(t, now)], idToHash := inst.idToHash[t.id := hash])
  }

  /** Resolution of a token with a known prefix; `up` says whether the store answers. */
  function ResolveStep(inst: Instance, db: Tables, hash: string, now: int, up: bool): (r: (Instance, Resolution))
    ensures r.0.credCache == inst.credCache
  {
    if hash in inst.tokenCache && now - inst.tokenCache[hash].cachedAt < TOKEN_CACHE_TTL then
      var t := inst.tokenCache[hash].token;
      (inst, if t.revokedAt.Some? then Revoked else if ExpiredAt(t, now) then Expired else Resolved(t))
    else
      var inst := inst.(tokenCache := inst.tokenCache - {hash});
      if !up then (inst, StoreFailure)
      else if hash !in db.tokens then (inst, NotFound)
      else
        var t := db.tokens[hash];
        if t.revokedAt.Some? then (inst, Revoked)
        else if ExpiredAt(t, now) then (inst, Expired)
        else (CacheToken(inst, hash, t, now), Resolved(t))
  }

  function InvalidateStep(inst: Instance, id: string): Instance {
    if id in inst.idToHash
    then inst.(tokenCache := inst.tokenCache - {inst.idToHash[id]}, idToHash := inst.idToHash - {id})
    else inst
  }

  /** The warm-up caches the active tokens, newest last. */
  function WarmAll(inst: Instance, active: seq<ProxyToken>, now: int): Instance {
    if active == [] then inst
    else
      var t := active[|active| - 1];
      var inst := WarmAll(inst, active[..|active| - 1], now);
      if t.tokenHash == "" then inst else CacheToken(inst, t.tokenHash, t, now)
  }

  ghost predicate ActiveTokens(db: Tables, now: int, active: seq<ProxyToken>) {
    forall i :: 0 <= i < |active| ==>
      && active[i].tokenHash in db.tokens && db.tokens[active[i].tokenHash] == active[i]
      && active[i].revokedAt.None? && (active[i].expiresAt.Some? ==> active[i].expiresAt.value > now)
  }

  /** The credential behind a proxy token. */
  function CredentialStep(inst: Instance, db: Tables, t: ProxyToken, now: int, up: bool): (r: (Instance, Credential))
    ensures r.0.tokenCache == inst.tokenCache && r.0.idToHash == inst.idToHash
  {
    if t.githubTokenId.None? then (inst, Refused)
    else
      var id := t.githubTokenId.value;
      if id in inst.credCache && now - inst.credCache[id].cachedAt < CREDENTIAL_CACHE_TTL
      then (inst, Granted(inst.credCache[id].plaintext))
      else
        var inst := inst.(credCache := inst.credCache - {id});
        if !up || id !in db.credentials then (inst, Refused)
        else (inst.(credCache := inst.credCache[id := CachedCredential(db.credentials[id], now)]),
              Granted(db.credentials[id]))
  }

  /** `minted` is what the provider of installation tokens answers for an agent token. */
  function GitHubTokenStep(inst: Instance, db: Tables, hash: string, now: int, up: bool, minted: Option<string>)
      : (Instance, Resolution, Credential)
  {
    var (inst, r) := ResolveStep(inst, db, hash, now, up);
    if !r.Resolved? then (inst, r, Refused)
    else
      match r.token.kind
      case ProxyKind => var (inst, c) := CredentialStep(inst, db, r.token, now, up); (inst, r, c)
      case AgentKind => (inst, r, if minted.Some? then Granted(minted.value) else Refused)
      case UnknownKind => (inst, r, Refused)
  }

  // ----- The program -----

  class Store {
    var db: Tables

    constructor () {
      db := Tables(map[], map[]);
    }

    method RevokeProxyToken(id: string, now: int) returns (ok: bool)
      modifies this
      ensures ok == Revocable(old(db), id) && db == if ok then RevokeRow(old(db), id, now) else old(db)
    {
      ok := false;
      var rest := db.tokens.Keys;
      ghost var db0 := db;
      while rest != {}
        invariant rest <= db0.tokens.Keys && db.credentials == db0.credentials && db.tokens.Keys == db0.tokens.Keys
        invariant ok <==> exists h ::
                    h in db0.tokens && h !in rest && db0.tokens[h].id == id && db0.tokens[h].revokedAt.None?
        invariant forall h :: h in db0.tokens ==>
                    db.tokens[h] == if h !in rest then RevokeRow(db0, id, now).tokens[h] else db0.tokens[h]
      {
        var h :| h in rest;
        if db.tokens[h].id == id && db.tokens[h].revokedAt.None? {
          db := db.(tokens := db.tokens[h := db.tokens[h].(revokedAt := Some(now))]);
          ok := true;
        }
        rest := rest - {h};
      }
      assert db.tokens == RevokeRow(db0, id, now).tokens;
    }
  }

  /** The token service of one instance, with the credential cache of its resolver. */
  class Service {
    const store: Store
    var tokenCache: map<string, CachedToken>
    var idToHash: map<string, string>
    var credCache: map<string, CachedCredential>

    constructor (store: Store)
      ensures this.store == store && View() == Instance(map[], map[], map[])
    {
      this.store := store;
      tokenCache, idToHash, credCache := map[], map[], map[];
    }

    ghost function View(): Instance
      reads this
    {
      Instance(tokenCache, idToHash, credCache)
    }

    method Resolve(hash: string, knownPrefix: bool, now: int, up: bool) returns (r: Resolution)
      modifies this
      ensures if knownPrefix then (View(), r) == ResolveStep(old(View()), store.db, hash, now, up)
              else View() == old(View()) && r == BadPrefix
    {
      if !knownPrefix {
        return BadPrefix;
      }
      if hash in tokenCache {
        var ct := tokenCache[hash];
        if now - ct.cachedAt < TOKEN_CACHE_TTL {
          if ct.token.revokedAt.Some? {
            return Revoked;
          }
          if ExpiredAt(ct.token, now) {
            return Expired;
          }
          return Resolved(ct.token);
        }
        tokenCache := tokenCache - {hash};
      }
      assert tokenCache == old(tokenCache) - {hash};
      if !up {
        return StoreFailure;
      }
      if hash !in store.db.tokens {
        return NotFound;
      }
      var t := store.db.tokens[hash];
      if t.revokedAt.Some? {
        return Revoked;
      }
      if ExpiredAt(t, now) {
        return Expired;
      }
      StoreInCache(hash, t, now);
      return Resolved(t);
    }

    method StoreInCache(hash: string, t: ProxyToken, now: int)
      modifies this
      ensures View() == CacheToken(old(View()), hash, t, now)
    {
      tokenCache := tokenCache[hash := CachedToken(t, now)];
      idToHash := idToHash[t.id := hash];
    }

    method InvalidateByID(id: string)
      modifies this
      ensures View() == InvalidateStep(old(View()), id)
    {
      if id in idToHash {
        var hash := idToHash[id];
        idToHash := idToHash - {id};
        tokenCache := tokenCache - {hash};
      }
    }

    method Revoke(id: string, now: int) returns (ok: bool)
      modifies this, store
      ensures ok <==> exists h ::
                h in old(store.db).tokens && old(store.db).tokens[h].id == id
                && old(store.db).tokens[h].revokedAt == None
      ensures store.db.tokens.Keys == old(store.db).tokens.Keys && store.db.credentials == old(store.db).credentials
      ensures forall h :: h in store.db.tokens ==>
                store.db.tokens[h] ==
                var t := old(store.db).tokens[h];
                if t.id == id && t.revokedAt == None then t.(revokedAt := Some(now)) else t
      ensures store.db == if ok then RevokeRow(old(store.db), id, now) else old(store.db)
      ensures View() == if ok then InvalidateStep(old(View()), id) else old(View())
    {
      ok := store.RevokeProxyToken(id, now);
      if ok {
        InvalidateByID(id);
      }
    }

    method WarmTokenCache(active: seq<ProxyToken>, now: int)
      modifies this
      ensures View() == WarmAll(old(View()), active, now)
    {
      for i := 0 to |active|
        invariant View() == WarmAll(old(View()), active[..i], now)
      {
        assert active[..i + 1][..i] == active[..i];
        if active[i].tokenHash != "" {
          StoreInCache(active[i].tokenHash, active[i], now);
        }
      }
      assert active[..|active|] == active;
    }

    method ResolveProxyToken(t: ProxyToken, now: int, up: bool) returns (c: Credential)
      modifies this
      ensures (View(), c) == CredentialStep(old(View()), store.db, t, now, up)
    {
      if t.githubTokenId.None? {
        return Refused;
      }
      var id := t.githubTokenId.value;
      if id in credCache {
        if now - credCache[id].cachedAt < CREDENTIAL_CACHE_TTL {
          return Granted(credCache[id].plaintext);
        }
        credCache := credCache - {id};
      }
      assert credCache == old(credCache) - {id};
      if !up || id !in store.db.credentials {
        return Refused;
      }
      credCache := credCache[id := CachedCredential(store.db.credentials[id], now)];
      return Granted(store.db.credentials[id]);
    }

    method ResolveToGitHubToken(hash: string, now: int, up: bool, minted: Option<string>)
        returns (r: Resolution, c: Credential)
      modifies this
      ensures (View(), r, c) == GitHubTokenStep(old(View()), store.db, hash, now, up, minted)
    {
      r := Resolve(hash, true, now, up);
      if !r.Resolved? {
        return r, Refused;
      }
      match r.token.kind
      case ProxyKind => c := ResolveProxyToken(r.token, now, up);
      case AgentKind => c := if minted.Some? then Granted(minted.value) else Refused;
      case UnknownKind => c := Refused;
    }
  }
}

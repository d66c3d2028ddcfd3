/** Proxy tokens in Vault (internal/database/vault.go): a record per token and two
    indexes, by hash and by user. Any KV operation may fail, in any of the ways of
    `VaultKV.Fault`. */
module ProxyTokenVault {
  import opened Prelude
  import opened ProxyTokens
  import opened VaultKV

  const INDEX_DIRS := {"by-hash", "by-user"}

  /** The WHERE clause of the SQL stores (internal/database/postgres.go). */
  predicate Eligible(t: ProxyToken, cutoff: int) {
    || (t.revokedAt.Some? && t.revokedAt.value < cutoff)
    || (t.expiresAt.Some? && t.expiresAt.value < cutoff)
  }

  /** What the SQL DELETE leaves. */
  function Survivors(tokens: map<string, ProxyToken>, cutoff: int): map<string, ProxyToken> {
    map id | id in tokens && !Eligible(tokens[id], cutoff) :: tokens[id]
  }

  /** What Vault holds under proxy-tokens/. */
  datatype Contents = Contents(
    tokens: map<string, ProxyToken>,
    byHash: map<string, string>,
    byUser: map<(string, string), string>)

  /** Every index entry points at an existing token with that hash or that user. */
  ghost predicate Indexed(c: Contents) {
    && (forall id :: id in c.tokens ==> c.tokens[id].id == id && id !in INDEX_DIRS && c.tokens[id].tokenHash != "")
    && (forall h :: h in c.byHash ==> c.byHash[h] in c.tokens && c.tokens[c.byHash[h]].tokenHash == h)
    && (forall k :: k in c.byUser ==> c.byUser[k] == k.1 && k.1 in c.tokens && c.tokens[k.1].userId == k.0 != "")
  }

  /** Token hashes are digests of distinct random tokens. */
  ghost predicate DistinctHashes(c: Contents) {
    forall i, j :: i in c.tokens && j in c.tokens && c.tokens[i].tokenHash == c.tokens[j].tokenHash ==> i == j
  }

  ghost predicate TokensTrimmed(c0: Contents, tokens: map<string, ProxyToken>, cutoff: int) {
    && tokens.Keys <= c0.tokens.Keys
    && forall id :: id in c0.tokens ==>
         if id in tokens then tokens[id] == c0.tokens[id] else Eligible(c0.tokens[id], cutoff)
  }

  ghost predicate HashesTrimmed(c0: Contents, byHash: map<string, string>, cutoff: int)
    requires Indexed(c0)
  {
    && byHash.Keys <= c0.byHash.Keys
    && forall h :: h in c0.byHash ==>
         if h in byHash then byHash[h] == c0.byHash[h] else Eligible(c0.tokens[c0.byHash[h]], cutoff)
  }

  ghost predicate UsersTrimmed(c0: Contents, byUser: map<(string, string), string>, cutoff: int)
    requires Indexed(c0)
  {
    && byUser.Keys <= c0.byUser.Keys
    && forall k :: k in c0.byUser ==>
         if k in byUser then byUser[k] == c0.byUser[k] else Eligible(c0.tokens[k.1], cutoff)
  }

  /** `c` differs from the earlier `c0` in removals only: of records that are eligible,
      and of index entries of such records. */
  ghost predicate Trimmed(c0: Contents, c: Contents, cutoff: int)
    requires Indexed(c0)
  {
    TokensTrimmed(c0, c.tokens, cutoff) && HashesTrimmed(c0, c.byHash, cutoff) && UsersTrimmed(c0, c.byUser, cutoff)
  }

  /** `c'` is `c` after the deletes for `t` of one pass through the loop, as many of them
      as were made. */
  ghost predicate RemovedInPart(c: Contents, c': Contents, t: ProxyToken) {
    && (c'.tokens == c.tokens || c'.tokens == c.tokens - {t.id})
    && (c'.byHash == c.byHash || c'.byHash == c.byHash - {t.tokenHash})
    && (c'.byUser == c.byUser || c'.byUser == c.byUser - {(t.userId, t.id)})
  }

  lemma TrimTokens(c0: Contents, tokens: map<string, ProxyToken>, cutoff: int, t: ProxyToken)
    requires TokensTrimmed(c0, tokens, cutoff)
    requires t.id in c0.tokens && c0.tokens[t.id] == t && Eligible(t, cutoff)
    ensures TokensTrimmed(c0, tokens - {t.id}, cutoff)
    ensures t.id in tokens ==> |tokens - {t.id}| == |tokens| - 1
  {
    assert (tokens - {t.id}).Keys == tokens.Keys - {t.id};
  }

  lemma TrimHashes(c0: Contents, byHash: map<string, string>, cutoff: int, t: ProxyToken)
    requires Indexed(c0) && DistinctHashes(c0) && HashesTrimmed(c0, byHash, cutoff)
    requires t.id in c0.tokens && c0.tokens[t.id] == t && Eligible(t, cutoff)
    ensures HashesTrimmed(c0, byHash - {t.tokenHash}, cutoff)
  {
    assert t.tokenHash in c0.byHash ==> c0.byHash[t.tokenHash] == t.id;
  }

  lemma TrimUsers(c0: Contents, byUser: map<(string, string), string>, cutoff: int, t: ProxyToken)
    requires Indexed(c0) && UsersTrimmed(c0, byUser, cutoff)
    requires t.id in c0.tokens && c0.tokens[t.id] == t && Eligible(t, cutoff)
    ensures UsersTrimmed(c0, byUser - {(t.userId, t.id)}, cutoff)
  {}

  lemma TrimRemoved(c0: Contents, c: Contents, c': Contents, cutoff: int, t: ProxyToken)
    requires Indexed(c0) && DistinctHashes(c0) && Trimmed(c0, c, cutoff)
    requires t.id in c.tokens && c.tokens[t.id] == t && Eligible(t, cutoff)
    requires RemovedInPart(c, c', t)
    ensures Trimmed(c0, c', cutoff)
    ensures |c.tokens - {t.id}| == |c.tokens| - 1
  {
    TrimTokens(c0, c.tokens, cutoff, t);
    TrimHashes(c0, c.byHash, cutoff, t);
    TrimUsers(c0, c.byUser, cutoff, t);
  }

  /** What the cleanup loop knows of the listed tokens before round `i`. */
  ghost predicate Pending(all: seq<ProxyToken>, i: nat, tokens: map<string, ProxyToken>) {
    && (forall j :: i <= j < |all| ==> all[j].id in tokens && tokens[all[j].id] == all[j])
    && (forall j, k :: 0 <= j < k < |all| ==> all[j].id != all[k].id)
  }

  ghost predicate Cleared(all: seq<ProxyToken>, i: nat, tokens: map<string, ProxyToken>, cutoff: int) {
    forall j :: 0 <= j < i && j < |all| && Eligible(all[j], cutoff) ==> all[j].id !in tokens
  }

  lemma PendingStep(all: seq<ProxyToken>, i: nat, tokens: map<string, ProxyToken>,
                    tokens': map<string, ProxyToken>, cutoff: int)
    requires i < |all| && Pending(all, i, tokens)
    requires tokens' == tokens || tokens' == tokens - {all[i].id}
    ensures Pending(all, i + 1, tokens')
    ensures Cleared(all, i, tokens, cutoff) && (Eligible(all[i], cutoff) ==> tokens' == tokens - {all[i].id}) ==>
              Cleared(all, i + 1, tokens', cutoff)
  {}

  lemma ClearedIsSurvivors(all: seq<ProxyToken>, tokens0: map<string, ProxyToken>,
                           tokens: map<string, ProxyToken>, cutoff: int)
    requires forall id :: id in tokens0 ==> tokens0[id] in all && tokens0[id].id == id
    requires tokens.Keys <= tokens0.Keys
    requires forall id :: id in tokens0 ==>
               if id in tokens then tokens[id] == tokens0[id] else Eligible(tokens0[id], cutoff)
    requires Cleared(all, |all|, tokens, cutoff)
    ensures tokens == Survivors(tokens0, cutoff)
  {
    forall id | id in tokens ensures !Eligible(tokens[id], cutoff) {
      assert tokens0[id] in all;
    }
  }

  class VaultStore {
    var tokens: map<string, ProxyToken>
    var byHash: map<string, string>
    var byUser: map<(string, string), string>
    var faults: Script

    ghost function View(): Contents
      reads this
    {
      Contents(tokens, byHash, byUser)
    }

    ghost predicate Valid()
      reads this
    {
      Indexed(View()) && DistinctHashes(View())
    }

    constructor ()
      ensures Valid() && tokens == map[] && byHash == map[] && byUser == map[] && faults == []
    {
      tokens, byHash, byUser, faults := map[], map[], map[], [];
    }

    // ----- KV operations -----

    method NextFault() returns (f: Fault)
      modifies this`faults
      ensures f == if old(faults) == [] then Ok else old(faults)[0]
      ensures faults == if old(faults) == [] then [] else old(faults)[1..]
      ensures NoFaults(old(faults)) ==> f == Ok && NoFaults(faults)
    {
      if faults == [] {
        f := Ok;
      } else {
        f, faults := faults[0], faults[1..];
      }
    }

    method WriteToken(t: ProxyToken) returns (ok: bool)
      modifies this`faults, this`tokens
      ensures tokens == old(tokens)[t.id := t] || (tokens == old(tokens) && !ok)
      ensures NoFaults(old(faults)) ==> ok && NoFaults(faults)
    {
      var f := NextFault();
      if f != Failed {
        tokens := tokens[t.id := t];
      }
      ok := f == Ok;
    }

    method WriteHashIndex(hash: string, id: string) returns (ok: bool)
      modifies this`faults, this`byHash
      ensures byHash == old(byHash)[hash := id] || (byHash == old(byHash) && !ok)
      ensures NoFaults(old(faults)) ==> ok && NoFaults(faults)
    {
      var f := NextFault();
      if f != Failed {
        byHash := byHash[hash := id];
      }
      ok := f == Ok;
    }

    method WriteUserIndex(userId: string, id: string) returns (ok: bool)
      modifies this`faults, this`byUser
      ensures byUser == old(byUser)[(userId, id) := id] || (byUser == old(byUser) && !ok)
      ensures NoFaults(old(faults)) ==> ok && NoFaults(faults)
    {
      var f := NextFault();
      if f != Failed {
        byUser := byUser[(userId, id) := id];
      }
      ok := f == Ok;
    }

    method DeleteHashIndex(hash: string) returns (ok: bool)
      modifies this`faults, this`byHash
      ensures byHash == old(byHash) - {hash} || (byHash == old(byHash) && !ok)
      ensures NoFaults(old(faults)) ==> ok && NoFaults(faults)
    {
      var f := NextFault();
      if f != Failed {
        byHash := byHash - {hash};
      }
      ok := f == Ok;
    }

    method DeleteUserIndex(userId: string, id: string) returns (ok: bool)
      modifies this`faults, this`byUser
      ensures byUser == old(byUser) - {(userId, id)} || (byUser == old(byUser) && !ok)
      ensures NoFaults(old(faults)) ==> ok && NoFaults(faults)
    {
      var f := NextFault();
      if f != Failed {
        byUser := byUser - {(userId, id)};
      }
      ok := f == Ok;
    }

    method DeleteToken(id: string) returns (ok: bool, ghost lost: bool)
      modifies this`faults, this`tokens
      ensures ok ==> tokens == old(tokens) - {id} && !lost
      ensures !ok ==> tokens == if lost then old(tokens) - {id} else old(tokens)
      ensures NoFaults(old(faults)) ==> ok && NoFaults(faults)
    {
      var f := NextFault();
      if f != Failed {
        tokens := tokens - {id};
      }
      ok, lost := f == Ok, f == FailedButApplied;
    }

    /** The keys directly under proxy-tokens/, sub-directories included, in some order. */
    method ListTokenKeys() returns (ok: bool, keys: seq<string>)
      modifies this`faults
      ensures forall i, j :: 0 <= i < j < |keys| ==> keys[i] != keys[j]
      ensures ok ==> forall id :: id in tokens && id !in INDEX_DIRS ==> id in keys
      ensures NoFaults(old(faults)) ==> ok && NoFaults(faults)
    {
      var f := NextFault();
      keys := [];
      if f != Ok {
        return false, [];
      }
      var rest := tokens.Keys + (if byHash == map[] then {} else {"by-hash"})
                              + (if byUser == map[] then {} else {"by-user"});
      while rest != {}
        invariant forall i, j :: 0 <= i < j < |keys| ==> keys[i] != keys[j]
        invariant forall i :: 0 <= i < |keys| ==> keys[i] !in rest
        invariant forall id :: id in tokens ==> id in rest || id in keys
        invariant NoFaults(old(faults)) ==> NoFaults(faults)
      {
        var k :| k in rest;
        keys, rest := keys + [k], rest - {k};
      }
      ok := true;
    }

    method GetProxyTokenByID(id: string) returns (ok: bool, t: Option<ProxyToken>)
      modifies this`faults
      ensures ok ==> t == if id in tokens then Some(tokens[id]) else None
      ensures NoFaults(old(faults)) ==> ok && NoFaults(faults)
    {
      var f := NextFault();
      if f != Ok {
        return false, None;
      }
      return true, if id in tokens then Some(tokens[id]) else None;
    }

    // ----- Store methods -----

    /** The token carries the fresh id and hash that the caller generated. */
    method CreateProxyToken(t: ProxyToken) returns (ok: bool)
      requires Valid()
      requires t.id !in tokens && t.id !in INDEX_DIRS && t.tokenHash != ""
      requires forall id :: id in tokens ==> tokens[id].tokenHash != t.tokenHash
      modifies this
      ensures Valid()
      ensures tokens == old(tokens)[t.id := t] || (tokens == old(tokens) && !ok)
      ensures ok ==>
                && byHash == old(byHash)[t.tokenHash := t.id]
                && byUser == if t.userId == "" then old(byUser) else old(byUser)[(t.userId, t.id) := t.id]
      ensures NoFaults(old(faults)) ==> ok && NoFaults(faults)
    {
      ok := WriteToken(t);
      if !ok {
        return;
      }
      ok := WriteHashIndex(t.tokenHash, t.id);
      if !ok {
        return;
      }
      if t.userId != "" {
        ok := WriteUserIndex(t.userId, t.id);
      }
    }

    method GetProxyTokenByHash(hash: string) returns (ok: bool, t: Option<ProxyToken>)
      requires Valid()
      modifies this`faults
      ensures Valid()
      ensures t.Some? ==> t.value.tokenHash == hash && t.value.id in tokens && tokens[t.value.id] == t.value
      ensures ok && t.None? ==> hash !in byHash
      ensures NoFaults(old(faults)) ==>
                && ok && NoFaults(faults)
                && t == if hash in byHash then Some(tokens[byHash[hash]]) else None
    {
      var f := NextFault();
      if f != Ok {
        return false, None;
      }
      if hash !in byHash {
        return true, None;
      }
      ok, t := GetProxyTokenByID(byHash[hash]);
      if !ok {
        t := None;
      }
    }

    method RevokeProxyToken(id: string, now: int) returns (ok: bool)
      requires Valid()
      modifies this`faults, this`tokens
      ensures Valid()
      ensures ok ==> id in old(tokens) && old(tokens)[id].revokedAt.None?
      ensures tokens == old(tokens)
              || (id in old(tokens) && tokens == old(tokens)[id := old(tokens)[id].(revokedAt := Some(now))])
      ensures ok ==> id in tokens && tokens[id].revokedAt == Some(now)
      ensures NoFaults(old(faults)) ==>
                (ok <==> id in old(tokens) && old(tokens)[id].revokedAt.None?) && NoFaults(faults)
      ensures NoFaults(old(faults)) && !ok ==> tokens == old(tokens)
    {
      var read, t := GetProxyTokenByID(id);
      if !read || t.None? || t.value.revokedAt.Some? {
        return false;
      }
      ok := WriteToken(t.value.(revokedAt := Some(now)));
    }

    /** UpdateProxyTokenScopes and UpdateProxyTokenAppID: hash, user and dates stay. */
    method UpdateProxyToken(id: string, rest: string) returns (ok: bool)
      requires Valid()
      modifies this`faults, this`tokens
      ensures Valid()
      ensures tokens == old(tokens)
              || (id in old(tokens) && tokens == old(tokens)[id := old(tokens)[id].(rest := rest)])
      ensures ok ==> id in tokens && tokens[id].rest == rest
      ensures NoFaults(old(faults)) ==> (ok <==> id in old(tokens)) && NoFaults(faults)
      ensures NoFaults(old(faults)) && !ok ==> tokens == old(tokens)
    {
      var read, t := GetProxyTokenByID(id);
      if !read || t.None? {
        return false;
      }
      ok := WriteToken(t.value.(rest := rest));
    }

    method ListAllProxyTokens() returns (ok: bool, all: seq<ProxyToken>)
      requires Valid()
      modifies this`faults
      ensures ok ==> forall i :: 0 <= i < |all| ==> all[i].id in tokens && tokens[all[i].id] == all[i]
      ensures ok ==> forall i, j :: 0 <= i < j < |all| ==> all[i].id != all[j].id
      ensures ok ==> forall id :: id in tokens ==> tokens[id] in all
      ensures NoFaults(old(faults)) ==> ok && NoFaults(faults)
    {
      var keys;
      ok, keys := ListTokenKeys();
      all := [];
      if !ok {
        return;
      }
      for i := 0 to |keys|
        invariant forall j :: 0 <= j < |all| ==>
                    all[j].id in keys[..i] && all[j].id in tokens && tokens[all[j].id] == all[j]
        invariant forall j, k :: 0 <= j < k < |all| ==> all[j].id != all[k].id
        invariant forall id :: id in keys[..i] && id in tokens ==> tokens[id] in all
        invariant NoFaults(old(faults)) ==> NoFaults(faults)
      {
        if keys[i] !in INDEX_DIRS {
          var read, t := GetProxyTokenByID(keys[i]);
          if !read {
            return false, [];
          }
          if t.Some? {
            all := all + [t.value];
          }
        }
      }
    }

    /** The body of the cleanup loop: both index entries first, the record last. */
    method RemoveToken(t: ProxyToken) returns (ok: bool, ghost lost: bool)
      requires Valid() && t.id in tokens && tokens[t.id] == t
      modifies this
      ensures Valid()
      ensures tokens == if ok || lost then old(tokens) - {t.id} else old(tokens)
      ensures !(ok && lost)
      ensures RemovedInPart(old(View()), View(), t)
      ensures NoFaults(old(faults)) ==> ok && NoFaults(faults)
    {
      lost := false;
      if t.tokenHash != "" {
        ok := DeleteHashIndex(t.tokenHash);
        if !ok {
          return;
        }
      }
      if t.userId != "" {
        ok := DeleteUserIndex(t.userId, t.id);
        if !ok {
          return;
        }
      }
      ok, lost := DeleteToken(t.id);
    }

    /** `cancelAfter` is the number of tokens handled before the context is cancelled. */
    method DeleteExpiredProxyTokens(olderThan: int, now: int, cancelAfter: Option<nat>)
        returns (deleted: nat, ok: bool, ghost lost: nat)
      requires Valid()
      modifies this
      ensures Valid()
      ensures olderThan <= 0 ==> !ok && View() == old(View())
      // It removes only tokens the SQL stores would remove, and only their index entries.
      ensures olderThan > 0 ==>
                Trimmed(old(View()), View(), now - olderThan)
      // It counts them; `lost` are the deletes that took effect but were reported as failed.
      ensures deleted + lost == |old(tokens)| - |tokens|
      // If it reports success it has removed all of them, and so it does without failures.
      ensures ok ==> lost == 0 && tokens == Survivors(old(tokens), now - olderThan)
      ensures olderThan > 0 && NoFaults(old(faults)) && cancelAfter.None? ==> ok
    {
      deleted, ok, lost := 0, true, 0;
      if olderThan <= 0 {
        return 0, false, 0;
      }
      var cutoff := now - olderThan;
      var listed, all := ListAllProxyTokens();
      if !listed {
        return 0, false, 0;
      }
      for i := 0 to |all|
        invariant Valid()
        invariant Trimmed(old(View()), View(), cutoff)
        invariant Pending(all, i, tokens)
        invariant deleted + lost == |old(tokens)| - |tokens|
        invariant ok ==> lost == 0 && Cleared(all, i, tokens, cutoff)
        invariant NoFaults(old(faults)) && cancelAfter.None? ==> NoFaults(faults) && ok
      {
        ghost var before := View();
        if cancelAfter.Some? && i >= cancelAfter.value {
          ok := false;
          break;
        }
        if Eligible(all[i], cutoff) {
          var removed, l := RemoveToken(all[i]);
          if removed {
            deleted := deleted + 1;
          } else {
            ok := false;
            lost := lost + if l then 1 else 0;
          }
          TrimRemoved(old(View()), before, View(), cutoff, all[i]);
        }
        PendingStep(all, i, before.tokens, tokens, cutoff);
      }
      if ok {
        ClearedIsSurvivors(all, old(tokens), tokens, cutoff);
      }
    }
  }

  /** Without failures what is created is found by its hash, as it was last updated, and
      revoked once it has been. A second revocation fails and leaves the first one's time. */
  method CreateUpdateRevoke(store: VaultStore, t: ProxyToken, rest: string, now: int, later: int)
      returns (created: Option<ProxyToken>, updated: Option<ProxyToken>, revoked: Option<ProxyToken>)
    requires store.Valid() && NoFaults(store.faults)
    requires t.id !in store.tokens && t.id !in INDEX_DIRS && t.tokenHash != "" && t.revokedAt.None?
    requires forall id :: id in store.tokens ==> store.tokens[id].tokenHash != t.tokenHash
    modifies store
    ensures store.Valid()
    ensures created == Some(t)
    ensures updated == Some(t.(rest := rest))
    ensures revoked == Some(t.(rest := rest, revokedAt := Some(now)))
  {
    var ok := store.CreateProxyToken(t);
    ok, created := store.GetProxyTokenByHash(t.tokenHash);
    ok := store.UpdateProxyToken(t.id, rest);
    assert store.tokens[t.id] == t.(rest := rest) && store.byHash[t.tokenHash] == t.id;
    ok, updated := store.GetProxyTokenByHash(t.tokenHash);
    ok := store.RevokeProxyToken(t.id, now);
    assert store.tokens[t.id] == t.(rest := rest, revokedAt := Some(now));
    ok := store.RevokeProxyToken(t.id, later);
    assert !ok && store.tokens[t.id] == t.(rest := rest, revokedAt := Some(now));
    ok, revoked := store.GetProxyTokenByHash(t.tokenHash);
  }

  /** A token stays if it is not revoked before the cutoff and does not expire before it. */
  lemma KeptUntilCutoff(tokens: map<string, ProxyToken>, cutoff: int, id: string)
    ensures id in Survivors(tokens, cutoff) <==>
            && id in tokens
            && (tokens[id].revokedAt.None? || tokens[id].revokedAt.value >= cutoff)
            && (tokens[id].expiresAt.None? || tokens[id].expiresAt.value >= cutoff)
    ensures id in Survivors(tokens, cutoff) ==> Survivors(tokens, cutoff)[id] == tokens[id]
  {}

  // ----- The hourly cleanup loop (internal/token/cleanup.go) -----

  /** One tick: the time, the retention period then configured, and what goes wrong. */
  datatype Cycle = Cycle(now: int, retention: int, cancelAfter: Option<nat>, faults: Script) {
    function Cutoff(): int {
      now - retention
    }

    predicate Undisturbed() {
      cancelAfter.None? && NoFaults(faults)
    }
  }

  lemma TrimmedTwice(c0: Contents, c1: Contents, c2: Contents, cutoff: int, cutoff1: int)
    requires Indexed(c0) && Indexed(c1) && Trimmed(c0, c1, cutoff) && Trimmed(c1, c2, cutoff1) && cutoff1 <= cutoff
    ensures Trimmed(c0, c2, cutoff)
    ensures Survivors(c1.tokens, cutoff) == Survivors(c0.tokens, cutoff)
  {
    forall id | id in c0.tokens && id !in c2.tokens ensures Eligible(c0.tokens[id], cutoff) {
      assert id in c1.tokens ==> Eligible(c1.tokens[id], cutoff1);
    }
    forall h | h in c0.byHash && h !in c2.byHash ensures Eligible(c0.tokens[c0.byHash[h]], cutoff) {
      if h in c1.byHash {
        assert Eligible(c1.tokens[c1.byHash[h]], cutoff1);
      }
    }
    forall k | k in c0.byUser && k !in c2.byUser ensures Eligible(c0.tokens[k.1], cutoff) {
      if k in c1.byUser {
        assert Eligible(c1.tokens[k.1], cutoff1);
      }
    }
    forall id | id in c0.tokens && !Eligible(c0.tokens[id], cutoff) ensures id in c1.tokens {}
  }

  /** No token is left that is eligible under the cutoff. */
  ghost predicate NoneEligible(tokens: map<string, ProxyToken>, cutoff: int) {
    forall id :: id in tokens ==> !Eligible(tokens[id], cutoff)
  }

  /** `c0` is what the store held when the loop began, and no cutoff is later than `cutoff`. */
  method RunCleanupCycle(store: VaultStore, cycle: Cycle, ghost c0: Contents, ghost cutoff: int)
    requires store.Valid()
    requires Indexed(c0) && Trimmed(c0, store.View(), cutoff)
    requires cycle.retention > 0 ==> cycle.Cutoff() <= cutoff
    modifies store
    ensures store.Valid()
    ensures Trimmed(c0, store.View(), cutoff)
    ensures cycle.retention <= 0 ==> store.View() == old(store.View())
    ensures forall id :: id in store.tokens ==> id in old(store.tokens) && store.tokens[id] == old(store.tokens)[id]
    ensures cycle.retention > 0 && cycle.Undisturbed() ==> NoneEligible(store.tokens, cycle.Cutoff())
  {
    ghost var before := store.View();
    store.faults := cycle.faults;
    var deleted, ok, lost := store.DeleteExpiredProxyTokens(cycle.retention, cycle.now, cycle.cancelAfter);
    if cycle.retention > 0 {
      TrimmedTwice(c0, before, store.View(), cutoff, cycle.Cutoff());
    }
  }

  /** The latest cutoff of the cycles that have one. The retention period may change from
      cycle to cycle. */
  function LatestCutoff(cycles: seq<Cycle>): (latest: Option<int>)
    ensures forall i :: 0 <= i < |cycles| && cycles[i].retention > 0 ==>
              latest.Some? && cycles[i].Cutoff() <= latest.value
    ensures latest.Some? ==>
              exists i :: 0 <= i < |cycles| && cycles[i].retention > 0 && cycles[i].Cutoff() == latest.value
  {
    if cycles == [] then None
    else
      var last, before := cycles[|cycles| - 1], LatestCutoff(cycles[..|cycles| - 1]);
      if last.retention <= 0 || (before.Some? && last.Cutoff() <= before.value) then before
      else Some(last.Cutoff())
  }

  lemma TrimmedToSurvivors(c0: Contents, c: Contents, cutoff: int)
    requires Indexed(c0) && Trimmed(c0, c, cutoff) && NoneEligible(c.tokens, cutoff)
    ensures c.tokens == Survivors(c0.tokens, cutoff)
  {}

  /** However many cleanups go wrong, and however the retention period changes: only tokens
      are removed, with their index entries, that are eligible under the latest cutoff, and
      none is left that is eligible under the cutoff of a cleanup that was undisturbed. So
      if one with the latest cutoff was, exactly the tokens that are not eligible remain. No
      index entry points at a removed token, since `Valid` holds throughout. */
  method RunCleanupLoop(store: VaultStore, cycles: seq<Cycle>)
    requires store.Valid()
    modifies store
    ensures store.Valid()
    ensures match LatestCutoff(cycles)
            case None => store.View() == old(store.View())
            case Some(latest) => Trimmed(old(store.View()), store.View(), latest)
    ensures forall i :: 0 <= i < |cycles| && cycles[i].retention > 0 && cycles[i].Undisturbed() ==>
              NoneEligible(store.tokens, cycles[i].Cutoff())
    ensures forall i :: 0 <= i < |cycles| && cycles[i].retention > 0 && cycles[i].Undisturbed()
                        && LatestCutoff(cycles) == Some(cycles[i].Cutoff()) ==>
              store.tokens == Survivors(old(store.tokens), cycles[i].Cutoff())
  {
    ghost var c0, latest := store.View(), LatestCutoff(cycles);
    ghost var cutoff := if latest.Some? then latest.value else 0;
    for i := 0 to |cycles|
      invariant store.Valid() && Trimmed(c0, store.View(), cutoff)
      invariant latest.None? ==> store.View() == c0
      invariant forall j :: 0 <= j < i && cycles[j].retention > 0 && cycles[j].Undisturbed() ==>
                  NoneEligible(store.tokens, cycles[j].Cutoff())
    {
      RunCleanupCycle(store, cycles[i], c0, cutoff);
    }
    if latest.Some? && NoneEligible(store.tokens, cutoff) {
      TrimmedToSurvivors(c0, store.View(), cutoff);
    }
  }
}

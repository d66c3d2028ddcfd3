/** The cache key of installation tokens (internal/github/app.go). The key is the SHA-256
    digest of a text; the digest is taken to be injective, so this is about the text. */
module InstallationKey {
  import opened ByteStrings

  const NUL: char := 0 as char
  const UNIT_SEPARATOR: char := 31 as char
  const EQUALS: char := '='

  // ----- Decimal numbers -----

  function Digit(d: nat): char
    requires d < 10
  {
    (48 + d) as char
  }

  function DecimalNat(n: nat): string {
    if n < 10 then [Digit(n)] else DecimalNat(n / 10) + [Digit(n % 10)]
  }

  function Decimal(n: int): string {
    if n < 0 then "-" + DecimalNat(-n) else DecimalNat(n)
  }

  function ReadNat(s: string): int {
    if s == "" then 0 else ReadNat(s[..|s| - 1]) * 10 + s[|s| - 1] as int - 48
  }

  lemma {:induction false} DecimalNatReads(n: nat)
    ensures ReadNat(DecimalNat(n)) == n
    ensures forall i :: 0 <= i < |DecimalNat(n)| ==> '0' <= DecimalNat(n)[i] <= '9'
    ensures DecimalNat(n) != ""
  {
    if n < 10 {
      assert ReadNat("") == 0;
      assert DecimalNat(n)[..0] == "";
    } else {
      DecimalNatReads(n / 10);
      var s := DecimalNat(n);
      assert s[..|s| - 1] == DecimalNat(n / 10);
    }
  }

  function ReadInt(s: string): int {
    if s != "" && s[0] == '-' then -ReadNat(s[1..]) else ReadNat(s)
  }

  lemma DecimalReads(n: int)
    ensures ReadInt(Decimal(n)) == n && NUL !in Decimal(n)
  {
    DecimalNatReads(if n < 0 then -n else n);
    if n < 0 {
      assert Decimal(n)[1..] == DecimalNat(-n);
    } else {
      assert '0' <= Decimal(n)[0];
    }
  }

  // ----- The key -----

  function PermParts(permissions: map<string, string>, keys: seq<string>): (parts: seq<string>)
    requires forall i :: 0 <= i < |keys| ==> keys[i] in permissions
    ensures |parts| == |keys|
    ensures forall i :: 0 <= i < |keys| ==> parts[i] == keys[i] + [EQUALS] + permissions[keys[i]]
  {
    if keys == [] then []
    else
      var last := keys[|keys| - 1];
      PermParts(permissions, keys[..|keys| - 1]) + [last + [EQUALS] + permissions[last]]
  }

  /** The keys of a map in byte order. */
  ghost predicate KeyList(permissions: map<string, string>, keys: seq<string>) {
    Sorted(keys) && multiset(keys) == multiset(permissions.Keys)
  }

  ghost function SortedKeys(permissions: map<string, string>): (keys: seq<string>)
    ensures KeyList(permissions, keys)
  {
    KeyListExists(permissions.Keys);
    var keys :| Sorted(keys) && multiset(keys) == multiset(permissions.Keys);
    keys
  }

  lemma {:induction false} KeyListExists(names: set<string>)
    ensures exists keys :: Sorted(keys) && multiset(keys) == multiset(names)
  {
    if names == {} {
      assert Sorted([]) && multiset([]) == multiset(names);
    } else {
      var n :| n in names;
      KeyListExists(names - {n});
      var keys :| Sorted(keys) && multiset(keys) == multiset(names - {n});
      assert multiset(names) == multiset(names - {n}) + multiset{n};
      assert Sorted(Insert(n, keys)) && multiset(Insert(n, keys)) == multiset(names);
    }
  }

  lemma KeyListMembers(permissions: map<string, string>, keys: seq<string>)
    requires multiset(keys) == multiset(permissions.Keys)
    ensures forall i :: 0 <= i < |keys| ==> keys[i] in permissions
    ensures forall k :: k in permissions ==> k in keys
  {
    forall i | 0 <= i < |keys| ensures keys[i] in permissions {
      assert keys[i] in multiset(keys);
    }
    forall k | k in permissions ensures k in keys {
      assert k in multiset(permissions.Keys);
    }
  }

  function KeyText(installationId: int, sortedRepos: seq<string>, permParts: seq<string>): string {
    Decimal(installationId) + [NUL] + (Join(sortedRepos, UNIT_SEPARATOR) + [NUL] + Join(permParts, UNIT_SEPARATOR))
  }

  /** The text that is hashed. */
  ghost function CacheKeyText(installationId: int, repos: seq<string>, permissions: map<string, string>): string {
    KeyListMembers(permissions, SortedKeys(permissions));
    KeyText(installationId, Sort(repos), PermParts(permissions, SortedKeys(permissions)))
  }

  /** The loop over the map may yield the keys in any order. */
  method SortPermissionKeys(permissions: map<string, string>) returns (permKeys: seq<string>)
    ensures permKeys == SortedKeys(permissions)
  {
    permKeys := [];
    var rest := permissions.Keys;
    while rest != {}
      invariant rest <= permissions.Keys
      invariant multiset(permKeys) == multiset(permissions.Keys - rest)
    {
      var k :| k in rest;
      OneKeyMore(permissions.Keys, rest, k);
      permKeys := permKeys + [k];
      rest := rest - {k};
    }
    assert permissions.Keys - rest == permissions.Keys;
    permKeys := Sort(permKeys);
    SortedIsUnique(permKeys, SortedKeys(permissions));
  }

  lemma OneKeyMore(all: set<string>, rest: set<string>, k: string)
    requires rest <= all && k in rest
    ensures multiset(all - (rest - {k})) == multiset(all - rest) + multiset{k}
  {}

  method InstallationCacheKeyText(installationId: int, repos: seq<string>, permissions: map<string, string>)
      returns (raw: string)
    ensures raw == CacheKeyText(installationId, repos, permissions)
  {
    var sortedRepos := Sort(repos);
    var permKeys := SortPermissionKeys(permissions);
    KeyListMembers(permissions, permKeys);
    var permParts: seq<string> := [];
    for i := 0 to |permKeys|
      invariant permParts == PermParts(permissions, permKeys[..i])
    {
      assert permKeys[..i + 1][..i] == permKeys[..i];
      permParts := permParts + [permKeys[i] + [EQUALS] + permissions[permKeys[i]]];
    }
    assert permKeys[..|permKeys|] == permKeys;
    raw := KeyText(installationId, sortedRepos, permParts);
  }

  // ----- The key identifies the request -----

  /** Names as GitHub has them: repositories are not empty, and no separator occurs. */
  predicate CleanRepos(repos: seq<string>) {
    forall i :: 0 <= i < |repos| ==> repos[i] != "" && NUL !in repos[i] && UNIT_SEPARATOR !in repos[i]
  }

  predicate CleanPermissions(permissions: map<string, string>) {
    forall k :: k in permissions ==> EQUALS !in k && UNIT_SEPARATOR !in k && UNIT_SEPARATOR !in permissions[k]
  }

  lemma SortKeepsClean(repos: seq<string>)
    requires CleanRepos(repos)
    ensures CleanRepos(Sort(repos)) && Joinable(Sort(repos), UNIT_SEPARATOR)
  {
    var sorted := Sort(repos);
    forall i | 0 <= i < |sorted| ensures sorted[i] in repos {
      assert sorted[i] in multiset(sorted);
    }
  }

  lemma {:induction false} JoinAvoids(parts: seq<string>, sep: char, c: char)
    requires c != sep && forall i :: 0 <= i < |parts| ==> c !in parts[i]
    ensures c !in Join(parts, sep)
  {
    if |parts| > 1 {
      JoinAvoids(parts[1..], sep, c);
    }
  }

  lemma PartsDetermineEntry(p: map<string, string>, ks: seq<string>, q: map<string, string>, ls: seq<string>, i: nat)
    requires CleanPermissions(p) && CleanPermissions(q)
    requires forall j :: 0 <= j < |ks| ==> ks[j] in p
    requires forall j :: 0 <= j < |ls| ==> ls[j] in q
    requires PermParts(p, ks) == PermParts(q, ls) && i < |ks|
    ensures |ks| == |ls| && ks[i] == ls[i] && p[ks[i]] == q[ls[i]]
  {
    assert PermParts(p, ks)[i] == PermParts(q, ls)[i];
    FirstSeparator(ks[i], p[ks[i]], ls[i], q[ls[i]], EQUALS);
  }

  lemma PartsDetermineKeys(p: map<string, string>, ks: seq<string>, q: map<string, string>, ls: seq<string>)
    requires CleanPermissions(p) && CleanPermissions(q)
    requires forall j :: 0 <= j < |ks| ==> ks[j] in p
    requires forall j :: 0 <= j < |ls| ==> ls[j] in q
    requires PermParts(p, ks) == PermParts(q, ls)
    ensures ks == ls && forall j :: 0 <= j < |ks| ==> p[ks[j]] == q[ks[j]]
  {
    assert |ks| == |PermParts(p, ks)| == |ls|;
    forall i | 0 <= i < |ks| ensures ks[i] == ls[i] && p[ks[i]] == q[ls[i]] {
      PartsDetermineEntry(p, ks, q, ls, i);
    }
  }

  lemma EqualOnKeys(p: map<string, string>, q: map<string, string>, ks: seq<string>)
    requires forall k :: k in p <==> k in ks
    requires forall k :: k in q <==> k in ks
    requires forall j :: 0 <= j < |ks| ==> p[ks[j]] == q[ks[j]]
    ensures p == q
  {}

  /** The parts give back the map. */
  lemma PartsDetermineMap(p: map<string, string>, ks: seq<string>, q: map<string, string>, ls: seq<string>)
    requires CleanPermissions(p) && CleanPermissions(q)
    requires KeyList(p, ks) && (forall j :: 0 <= j < |ks| ==> ks[j] in p)
    requires KeyList(q, ls) && (forall j :: 0 <= j < |ls| ==> ls[j] in q)
    requires PermParts(p, ks) == PermParts(q, ls)
    ensures p == q
  {
    KeyListMembers(p, ks);
    KeyListMembers(q, ls);
    PartsDetermineKeys(p, ks, q, ls);
    EqualOnKeys(p, q, ks);
  }

  lemma PartsJoinable(p: map<string, string>)
    requires CleanPermissions(p)
    requires forall i :: 0 <= i < |SortedKeys(p)| ==> SortedKeys(p)[i] in p
    ensures Joinable(PermParts(p, SortedKeys(p)), UNIT_SEPARATOR)
  {}

  lemma EqualRequestsEqualKeys(repos: seq<string>, repos': seq<string>)
    requires multiset(repos) == multiset(repos')
    ensures Sort(repos) == Sort(repos')
  {
    SortedIsUnique(Sort(repos), Sort(repos'));
  }

  /** Two requests share a key exactly when they agree on the installation, on the
      repositories up to order, and on the permissions. */
  lemma KeyIdentifiesRequest(id: int, repos: seq<string>, p: map<string, string>,
                             id': int, repos': seq<string>, p': map<string, string>)
    requires CleanRepos(repos) && CleanRepos(repos') && CleanPermissions(p) && CleanPermissions(p')
    ensures CacheKeyText(id, repos, p) == CacheKeyText(id', repos', p')
       <==> id == id' && multiset(repos) == multiset(repos') && p == p'
  {
    KeyListMembers(p, SortedKeys(p));
    KeyListMembers(p', SortedKeys(p'));
    var parts, parts' := PermParts(p, SortedKeys(p)), PermParts(p', SortedKeys(p'));
    DecimalReads(id);
    DecimalReads(id');
    if multiset(repos) == multiset(repos') {
      EqualRequestsEqualKeys(repos, repos');
    }
    if CacheKeyText(id, repos, p) == CacheKeyText(id', repos', p') {
      var tail := Join(Sort(repos), UNIT_SEPARATOR) + [NUL] + Join(parts, UNIT_SEPARATOR);
      var tail' := Join(Sort(repos'), UNIT_SEPARATOR) + [NUL] + Join(parts', UNIT_SEPARATOR);
      FirstSeparator(Decimal(id), tail, Decimal(id'), tail', NUL);
      SortKeepsClean(repos);
      SortKeepsClean(repos');
      JoinAvoids(Sort(repos), UNIT_SEPARATOR, NUL);
      JoinAvoids(Sort(repos'), UNIT_SEPARATOR, NUL);
      FirstSeparator(Join(Sort(repos), UNIT_SEPARATOR), Join(parts, UNIT_SEPARATOR),
                     Join(Sort(repos'), UNIT_SEPARATOR), Join(parts', UNIT_SEPARATOR), NUL);
      JoinInjective(Sort(repos), Sort(repos'), UNIT_SEPARATOR);
      PartsJoinable(p);
      PartsJoinable(p');
      JoinInjective(parts, parts', UNIT_SEPARATOR);
      PartsDetermineMap(p, SortedKeys(p), p', SortedKeys(p'));
    }
  }

  /** The conditions on names are needed: an empty repository name is lost. */
  lemma EmptyNameCollides(id: int, p: map<string, string>)
    ensures CacheKeyText(id, [], p) == CacheKeyText(id, [""], p)
  {
    assert Sort([""]) == [""] by {
      SortedIsUnique(Sort([""]), [""]);
    }
  }
}

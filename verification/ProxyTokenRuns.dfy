/** Proxy tokens in Vault (internal/database/vault.go) under several instances at once: the
    KV operations of creates, lookups, revocations, updates and cleanups interleave, and any
    of them may fail. The one-instance view is in `ProxyTokenVault`. */
module ProxyTokenRuns {
  import opened Prelude
  import opened ProxyTokens
  import opened VaultKV
  import opened ProxyTokenVault

  /** A removal that a cleanup has begun: the token as it had read it, and its cutoff. */
  datatype Removal = Removal(token: ProxyToken, cutoff: int)

  /** What Vault holds under proxy-tokens/ and the time. The rest is history: the tokens as
      they were created and the ids for their hashes, the removals begun, and the tokens of
      which a create has written an index entry after their removal had begun. */
  datatype Store = Store(
    tokens: map<string, ProxyToken>,
    byHash: map<string, string>,
    byUser: map<(string, string), string>,
    clock: int,
    issued: map<string, ProxyToken>,
    owners: map<string, string>,
    removals: map<string, Removal>,
    late: set<string>)
  {
    function PutToken(t: ProxyToken, fault: Fault): Store {
      if fault == Failed then this else this.(tokens := tokens[t.id := t])
    }

    function PutHash(t: ProxyToken, fault: Fault): Store {
      if fault == Failed then this else this.(byHash := byHash[t.tokenHash := t.id]).Late(t.id)
    }

    function PutUser(t: ProxyToken, fault: Fault): Store {
      if fault == Failed then this else this.(byUser := byUser[(t.userId, t.id) := t.id]).Late(t.id)
    }

    function Issue(t: ProxyToken): Store {
      this.(issued := issued[t.id := t], owners := owners[t.tokenHash := t.id])
    }

    function Late(id: string): Store {
      if id in removals then this.(late := late + {id}) else this
    }

    function BeginRemoval(t: ProxyToken, cutoff: int): Store {
      this.(removals := removals[t.id := Removal(t, cutoff)])
    }

    function DropHash(t: ProxyToken, fault: Fault): Store {
      if fault == Failed then this else this.(byHash := byHash - {t.tokenHash})
    }

    function DropUser(t: ProxyToken, fault: Fault): Store {
      if fault == Failed then this else this.(byUser := byUser - {(t.userId, t.id)})
    }

    function DropToken(t: ProxyToken, fault: Fault): Store {
      if fault == Failed then this else this.(tokens := tokens - {t.id})
    }
  }

  /** The place of a thread inside a store method. */
  datatype Op =
    | Idle
    // CreateProxyToken
    | CreateRecord(t: ProxyToken)
    | CreateHash(t: ProxyToken)
    | CreateUser(t: ProxyToken)
    // GetProxyTokenByHash, and GetProxyTokenByID (via == None)
    | GetHash(hash: string)
    | GetRecord(via: Option<string>, id: string)
    | Got(via: Option<string>, t: ProxyToken)
    // RevokeProxyToken, and UpdateProxyTokenScopes and its sibling: read, then write
    | RevokeRead(id: string)
    | UpdateRead(id: string, rest: string)
    | WriteBack(t: ProxyToken)
    // DeleteExpiredProxyTokens: read the listed tokens, then remove the eligible ones
    | SweepRead(cutoff: int, todo: seq<string>, all: seq<ProxyToken>)
    | SweepNext(cutoff: int, all: seq<ProxyToken>)
    | SweepHash(cutoff: int, t: ProxyToken, all: seq<ProxyToken>)
    | SweepUser(cutoff: int, t: ProxyToken, all: seq<ProxyToken>)
    | SweepToken(cutoff: int, t: ProxyToken, all: seq<ProxyToken>)

  // ----- One KV operation of each store method -----

  function CreateKv(s: Store, op: Op, fault: Fault): (Store, Op) {
    match op
    case CreateRecord(t) => (s.PutToken(t, fault), if fault == Ok then CreateHash(t) else Idle)
    case CreateHash(t) => (s.PutHash(t, fault), if fault == Ok && t.userId != "" then CreateUser(t) else Idle)
    case CreateUser(t) => (s.PutUser(t, fault), Idle)
    case _ => (s, op)
  }

  function GetKv(s: Store, op: Op, fault: Fault): (Store, Op) {
    match op
    case GetHash(hash) => (s, if fault == Ok && hash in s.byHash then GetRecord(Some(hash), s.byHash[hash]) else Idle)
    case GetRecord(via, id) => (s, if fault == Ok && id in s.tokens then Got(via, s.tokens[id]) else Idle)
    case _ => (s, op)
  }

  function WriteKv(s: Store, op: Op, fault: Fault): (Store, Op) {
    match op
    case RevokeRead(id) =>
      (s, if fault == Ok && id in s.tokens && s.tokens[id].revokedAt.None?
          then WriteBack(s.tokens[id].(revokedAt := Some(s.clock))) else Idle)
    case UpdateRead(id, rest) =>
      (s, if fault == Ok && id in s.tokens then WriteBack(s.tokens[id].(rest := rest)) else Idle)
    case WriteBack(t) => (s.PutToken(t, fault), Idle)
    case _ => (s, op)
  }

  function SweepKv(s: Store, op: Op, fault: Fault): (Store, Op) {
    match op
    case SweepRead(cutoff, todo, all) =>
      (s,
       if todo == [] then SweepNext(cutoff, all)
       else if todo[0] in INDEX_DIRS then SweepRead(cutoff, todo[1..], all)
       else if fault != Ok then Idle
       else if todo[0] !in s.tokens then SweepRead(cutoff, todo[1..], all)
       else SweepRead(cutoff, todo[1..], all + [s.tokens[todo[0]]]))
    case SweepNext(cutoff, all) =>
      (s,
       if all == [] then Idle
       else if Eligible(all[0], cutoff) then SweepHash(cutoff, all[0], all[1..])
       else SweepNext(cutoff, all[1..]))
    case SweepHash(cutoff, t, all) =>
      (s.BeginRemoval(t, cutoff).DropHash(t, fault),
       if fault != Ok then SweepNext(cutoff, all)
       else if t.userId != "" then SweepUser(cutoff, t, all)
       else SweepToken(cutoff, t, all))
    case SweepUser(cutoff, t, all) =>
      (s.DropUser(t, fault), if fault == Ok then SweepToken(cutoff, t, all) else SweepNext(cutoff, all))
    case SweepToken(cutoff, t, all) => (s.DropToken(t, fault), SweepNext(cutoff, all))
    case _ => (s, op)
  }

  function KvStep(s: Store, op: Op, fault: Fault): (Store, Op) {
    if op.CreateRecord? || op.CreateHash? || op.CreateUser? then CreateKv(s, op, fault)
    else if op.GetHash? || op.GetRecord? then GetKv(s, op, fault)
    else if op.RevokeRead? || op.UpdateRead? || op.WriteBack? then WriteKv(s, op, fault)
    else SweepKv(s, op, fault)
  }

  // ----- Runs -----

  datatype Action =
    | StartCreate(t: ProxyToken)
    | StartGetByHash(hash: string)
    | StartGetByID(id: string)
    | StartRevoke(id: string)
    | StartUpdate(id: string, rest: string)
    // The keys are what the listing returned.
    | StartSweep(keys: seq<string>, olderThan: int)
    | Kv(fault: Fault)
    | Return
    | CancelSweep

  function Act(s: Store, op: Op, a: Action): (Store, Op) {
    match (a, op)
    case (StartCreate(t), Idle) => (s.Issue(t), CreateRecord(t))
    case (StartGetByHash(hash), Idle) => (s, GetHash(hash))
    case (StartGetByID(id), Idle) => (s, GetRecord(None, id))
    case (StartRevoke(id), Idle) => (s, RevokeRead(id))
    case (StartUpdate(id, rest), Idle) => (s, UpdateRead(id, rest))
    case (StartSweep(keys, olderThan), Idle) =>
      (s, if olderThan <= 0 then Idle else SweepRead(s.clock - olderThan, keys, []))
    case (Kv(fault), _) => KvStep(s, op, fault)
    case (Return, Got(_, _)) => (s, Idle)
    case (CancelSweep, SweepNext(_, _)) => (s, Idle)
    case _ => (s, op)
  }

  type Thread = nat

  datatype Event = Tick(now: int) | Step(t: Thread, a: Action)

  datatype State = State(store: Store, threads: map<Thread, Op>) {
    function Pc(t: Thread): Op {
      if t in threads then threads[t] else Idle
    }
  }

  const INITIAL := State(Store(map[], map[], map[], 0, map[], map[], map[], {}), map[])

  function Apply(s: State, ev: Event): State {
    match ev
    case Tick(now) => s.(store := s.store.(clock := now))
    case Step(t, a) => var (store, op) := Act(s.store, s.Pc(t), a); State(store, s.threads[t := op])
  }

  /** Ids are fresh, and hashes are digests of fresh random tokens. */
  predicate Fresh(s: Store, t: ProxyToken) {
    t.id !in s.issued && t.id !in INDEX_DIRS && t.tokenHash != "" && t.tokenHash !in s.owners
  }

  ghost predicate Enabled(s: State, ev: Event) {
    match ev
    case Tick(now) => s.store.clock <= now
    case Step(_, StartCreate(t)) => Fresh(s.store, t)
    case _ => true
  }

  function After(run: seq<Event>): State {
    if run == [] then INITIAL else Apply(After(run[..|run| - 1]), run[|run| - 1])
  }

  ghost predicate Legal(run: seq<Event>) {
    run == [] ||
    (Legal(run[..|run| - 1]) && Enabled(After(run[..|run| - 1]), run[|run| - 1]))
  }

  // ----- Invariant -----

  /** The token is one that was created, up to what revocations and updates change. */
  predicate Genuine(s: Store, t: ProxyToken) {
    && t.id in s.issued
    && var first := s.issued[t.id];
       t.tokenHash == first.tokenHash && t.userId == first.userId && t.expiresAt == first.expiresAt
  }

  ghost predicate AllGenuine(s: Store, all: seq<ProxyToken>) {
    forall i :: 0 <= i < |all| ==> Genuine(s, all[i])
  }

  ghost predicate IssuedOk(s: Store) {
    forall id :: id in s.issued ==>
      var t := s.issued[id];
      t.id == id && id !in INDEX_DIRS && t.tokenHash != "" && t.tokenHash in s.owners && s.owners[t.tokenHash] == id
  }

  /** The token is there, unless a create has been late. */
  predicate Present(s: Store, id: string) {
    id in s.tokens || id in s.late
  }

  ghost predicate EntriesOk(s: Store) {
    && (forall h :: h in s.byHash ==>
          s.byHash[h] in s.issued && s.issued[s.byHash[h]].tokenHash == h && Present(s, s.byHash[h]))
    && (forall k :: k in s.byUser ==>
          s.byUser[k] == k.1 && k.1 in s.issued && s.issued[k.1].userId == k.0 != "" && Present(s, k.1))
  }

  ghost predicate RemovalsOk(s: Store) {
    && (forall id :: id in s.removals ==>
          var m := s.removals[id];
          m.token.id == id && Genuine(s, m.token) && Eligible(m.token, m.cutoff) && m.cutoff < s.clock)
    && s.late <= s.removals.Keys
  }

  ghost predicate StoreOk(s: Store) {
    && IssuedOk(s) && EntriesOk(s) && RemovalsOk(s)
    && (forall id :: id in s.tokens ==> s.tokens[id].id == id && Genuine(s, s.tokens[id]))
  }

  /** The entry is gone, unless a create has been late. */
  predicate HashGone(s: Store, t: ProxyToken) {
    t.id in s.removals && (t.tokenHash in s.byHash ==> t.id in s.late)
  }

  predicate UserGone(s: Store, t: ProxyToken) {
    (t.userId, t.id) in s.byUser ==> t.id in s.late
  }

  ghost predicate OpOk(s: Store, op: Op) {
    match op
    case CreateRecord(t) => Genuine(s, t)
    case CreateHash(t) => Genuine(s, t) && (t.id in s.tokens || t.id in s.removals)
    case CreateUser(t) => Genuine(s, t) && t.userId != "" && (t.id in s.tokens || t.id in s.removals)
    case GetRecord(via, id) => via.Some? ==> id in s.issued && s.issued[id].tokenHash == via.value
    case Got(via, t) => Genuine(s, t) && (via.Some? ==> t.tokenHash == via.value)
    case WriteBack(t) => Genuine(s, t)
    case SweepRead(cutoff, _, all) => cutoff < s.clock && AllGenuine(s, all)
    case SweepNext(cutoff, all) => cutoff < s.clock && AllGenuine(s, all)
    case SweepHash(cutoff, t, all) =>
      cutoff < s.clock && AllGenuine(s, all) && Genuine(s, t) && Eligible(t, cutoff)
    case SweepUser(cutoff, t, all) => cutoff < s.clock && AllGenuine(s, all) && Genuine(s, t) && HashGone(s, t)
    case SweepToken(cutoff, t, all) =>
      cutoff < s.clock && AllGenuine(s, all) && Genuine(s, t) && HashGone(s, t) && (t.userId != "" ==> UserGone(s, t))
    case _ => true
  }

  /** What a step may do to what other threads rely on. */
  ghost predicate Advances(s: Store, s': Store) {
    && (forall id :: id in s.issued ==> id in s'.issued && s'.issued[id] == s.issued[id])
    && s.removals.Keys <= s'.removals.Keys && s.late <= s'.late && s.clock <= s'.clock
    && (forall id :: id in s.tokens ==> id in s'.tokens || id in s'.removals)
    && (forall id :: id in s.removals && id in s.issued && s.issued[id].tokenHash in s'.byHash ==>
          s.issued[id].tokenHash in s.byHash || id in s'.late)
    && (forall id, u :: id in s.removals && (u, id) in s'.byUser ==> (u, id) in s.byUser || id in s'.late)
  }

  /** A step from s to s' keeps what every thread relies on. */
  ghost predicate Keeps(s: Store, s': Store) {
    StoreOk(s') && Advances(s, s')
  }

  lemma SameKeeps(s: Store)
    requires StoreOk(s)
    ensures Keeps(s, s)
  {}

  lemma PutTokenKeeps(s: Store, t: ProxyToken, fault: Fault)
    requires StoreOk(s) && Genuine(s, t)
    ensures Keeps(s, s.PutToken(t, fault))
  {
    hide Eligible;
    var s' := s.PutToken(t, fault);
    assert EntriesOk(s') && IssuedOk(s');
  }

  lemma PutHashKeeps(s: Store, t: ProxyToken, fault: Fault)
    requires StoreOk(s) && Genuine(s, t) && (t.id in s.tokens || t.id in s.removals)
    ensures Keeps(s, s.PutHash(t, fault))
  {}

  lemma PutUserEntries(s: Store, t: ProxyToken)
    requires StoreOk(s) && Genuine(s, t) && t.userId != "" && (t.id in s.tokens || t.id in s.removals)
    ensures EntriesOk(s.PutUser(t, Ok)) && RemovalsOk(s.PutUser(t, Ok))
  {}

  lemma PutUserKeeps(s: Store, t: ProxyToken, fault: Fault)
    requires StoreOk(s) && Genuine(s, t) && t.userId != "" && (t.id in s.tokens || t.id in s.removals)
    ensures Keeps(s, s.PutUser(t, fault))
  {
    hide EntriesOk;
    hide RemovalsOk;
    PutUserEntries(s, t);
  }

  lemma BeginRemovalKeeps(s: Store, t: ProxyToken, cutoff: int)
    requires StoreOk(s) && Genuine(s, t) && Eligible(t, cutoff) && cutoff < s.clock
    ensures Keeps(s, s.BeginRemoval(t, cutoff))
  {}

  lemma DropHashKeeps(s: Store, t: ProxyToken, fault: Fault)
    requires StoreOk(s)
    ensures Keeps(s, s.DropHash(t, fault))
  {}

  lemma DropUserKeeps(s: Store, t: ProxyToken, fault: Fault)
    requires StoreOk(s)
    ensures Keeps(s, s.DropUser(t, fault))
  {}

  lemma DropTokenKeeps(s: Store, t: ProxyToken, fault: Fault)
    requires StoreOk(s) && Genuine(s, t) && HashGone(s, t) && (t.userId != "" ==> UserGone(s, t))
    ensures Keeps(s, s.DropToken(t, fault))
  {}

  lemma IssueKeeps(s: Store, t: ProxyToken)
    requires StoreOk(s) && Fresh(s, t)
    ensures Keeps(s, s.Issue(t))
  {
    var s' := s.Issue(t);
    assert forall id :: id in s.issued ==> id in s'.issued && s'.issued[id] == s.issued[id];
    assert IssuedOk(s') && RemovalsOk(s') && EntriesOk(s');
  }

  lemma KeepsTransitive(s: Store, s1: Store, s2: Store)
    requires Keeps(s, s1) && Keeps(s1, s2)
    ensures Keeps(s, s2)
  {}

  // ----- Steps and runs -----

  lemma CreateOk(s: Store, op: Op, fault: Fault)
    requires StoreOk(s) && OpOk(s, op)
    ensures var (s', op') := CreateKv(s, op, fault); Keeps(s, s') && OpOk(s', op')
  {
    hide IssuedOk;
    hide EntriesOk;
    hide RemovalsOk;
    SameKeeps(s);
    match op
    case CreateRecord(t) => PutTokenKeeps(s, t, fault);
    case CreateHash(t) => PutHashKeeps(s, t, fault);
    case CreateUser(t) => PutUserKeeps(s, t, fault);
    case _ =>
  }

  lemma GetOk(s: Store, op: Op, fault: Fault)
    requires StoreOk(s) && OpOk(s, op)
    ensures var (s', op') := GetKv(s, op, fault); Keeps(s, s') && OpOk(s', op')
  {
    SameKeeps(s);
  }

  lemma WriteOk(s: Store, op: Op, fault: Fault)
    requires StoreOk(s) && OpOk(s, op)
    ensures var (s', op') := WriteKv(s, op, fault); Keeps(s, s') && OpOk(s', op')
  {
    SameKeeps(s);
    if op.WriteBack? {
      PutTokenKeeps(s, op.t, fault);
    }
  }

  lemma DroppedHash(s: Store, t: ProxyToken, fault: Fault, all: seq<ProxyToken>)
    requires AllGenuine(s, all) && Genuine(s, t) && t.id in s.removals
    ensures var s' := s.DropHash(t, fault);
            && s'.clock == s.clock && AllGenuine(s', all) && Genuine(s', t)
            && (fault == Ok ==> HashGone(s', t) && t.tokenHash !in s'.byHash)
  {}

  lemma SweepHashKeeps(s: Store, cutoff: int, t: ProxyToken, fault: Fault)
    requires StoreOk(s) && Genuine(s, t) && Eligible(t, cutoff) && cutoff < s.clock
    ensures Keeps(s, s.BeginRemoval(t, cutoff).DropHash(t, fault))
  {
    var s1 := s.BeginRemoval(t, cutoff);
    BeginRemovalKeeps(s, t, cutoff);
    DropHashKeeps(s1, t, fault);
    KeepsTransitive(s, s1, s1.DropHash(t, fault));
  }

  lemma SweepHashOk(s: Store, cutoff: int, t: ProxyToken, all: seq<ProxyToken>, fault: Fault)
    requires StoreOk(s) && OpOk(s, SweepHash(cutoff, t, all))
    ensures var (s', op') := SweepKv(s, SweepHash(cutoff, t, all), fault); Keeps(s, s') && OpOk(s', op')
  {
    hide StoreOk;
    hide Keeps;
    SweepHashKeeps(s, cutoff, t, fault);
    DroppedHash(s.BeginRemoval(t, cutoff), t, fault, all);
    hide AllGenuine;
    hide Genuine;
  }

  lemma DroppedUser(s: Store, t: ProxyToken, fault: Fault, all: seq<ProxyToken>)
    requires AllGenuine(s, all) && Genuine(s, t) && HashGone(s, t)
    ensures var s' := s.DropUser(t, fault);
            && s'.clock == s.clock && AllGenuine(s', all) && Genuine(s', t) && HashGone(s', t)
            && (fault == Ok ==> UserGone(s', t))
  {}

  lemma SweepUserOk(s: Store, cutoff: int, t: ProxyToken, all: seq<ProxyToken>, fault: Fault)
    requires StoreOk(s) && OpOk(s, SweepUser(cutoff, t, all))
    ensures var (s', op') := SweepKv(s, SweepUser(cutoff, t, all), fault); Keeps(s, s') && OpOk(s', op')
  {
    DropUserKeeps(s, t, fault);
    DroppedUser(s, t, fault, all);
    hide StoreOk;
    hide Keeps;
    hide AllGenuine;
    hide Genuine;
    hide HashGone;
    hide UserGone;
  }

  lemma SweepTokenOk(s: Store, cutoff: int, t: ProxyToken, all: seq<ProxyToken>, fault: Fault)
    requires StoreOk(s) && OpOk(s, SweepToken(cutoff, t, all))
    ensures var (s', op') := SweepKv(s, SweepToken(cutoff, t, all), fault); Keeps(s, s') && OpOk(s', op')
  {
    DropTokenKeeps(s, t, fault);
    AllGenuineAdvances(s, s.DropToken(t, fault), all);
    hide StoreOk;
    hide AllGenuine;
  }

  lemma SweepReadOk(s: Store, op: Op, fault: Fault)
    requires StoreOk(s) && OpOk(s, op) && (op.SweepRead? || op.SweepNext?)
    ensures var (s', op') := SweepKv(s, op, fault); s' == s && OpOk(s', op')
  {}

  lemma SweepOk(s: Store, op: Op, fault: Fault)
    requires StoreOk(s) && OpOk(s, op)
    ensures var (s', op') := SweepKv(s, op, fault); Keeps(s, s') && OpOk(s', op')
  {
    hide StoreOk;
    hide Keeps;
    hide OpOk;
    SameKeeps(s);
    match op
    case SweepHash(cutoff, t, all) => SweepHashOk(s, cutoff, t, all, fault);
    case SweepUser(cutoff, t, all) => SweepUserOk(s, cutoff, t, all, fault);
    case SweepToken(cutoff, t, all) => SweepTokenOk(s, cutoff, t, all, fault);
    case SweepRead(_, _, _) => SweepReadOk(s, op, fault);
    case SweepNext(_, _) => SweepReadOk(s, op, fault);
    case _ =>
  }

  lemma AllGenuineAdvances(s: Store, s': Store, all: seq<ProxyToken>)
    requires Advances(s, s') && AllGenuine(s, all)
    ensures AllGenuine(s', all)
  {}

  lemma ActOk(s: Store, op: Op, a: Action)
    requires StoreOk(s) && OpOk(s, op) && (a.StartCreate? ==> Fresh(s, a.t))
    ensures var (s', op') := Act(s, op, a); Keeps(s, s') && OpOk(s', op')
  {
    hide StoreOk;
    hide Keeps;
    SameKeeps(s);
    if a.Kv? {
      CreateOk(s, op, a.fault);
      GetOk(s, op, a.fault);
      WriteOk(s, op, a.fault);
      SweepOk(s, op, a.fault);
    } else if a.StartCreate? {
      IssueKeeps(s, a.t);
    }
  }

  lemma OpOkAdvances(s: Store, s': Store, op: Op)
    requires StoreOk(s) && Keeps(s, s') && OpOk(s, op)
    ensures OpOk(s', op)
  {}

  ghost predicate Consistent(s: State) {
    StoreOk(s.store) && forall t :: t in s.threads ==> OpOk(s.store, s.threads[t])
  }

  lemma TickKeeps(s: Store, now: int)
    requires StoreOk(s) && s.clock <= now
    ensures Keeps(s, s.(clock := now))
  {}

  /** Invariant of every interleaving. */
  lemma {:induction false} RunOk(run: seq<Event>)
    requires Legal(run)
    ensures Consistent(After(run))
  {
    hide StoreOk;
    hide OpOk;
    if run == [] {
      EmptyStoreOk();
    } else {
      var s, ev := After(run[..|run| - 1]), run[|run| - 1];
      RunOk(run[..|run| - 1]);
      var s' := Apply(s, ev);
      IdleOk(s.store);
      match ev {
        case Tick(now) => TickKeeps(s.store, now);
        case Step(t, a) => ActOk(s.store, s.Pc(t), a);
      }
      forall t | t in s'.threads ensures OpOk(s'.store, s'.threads[t]) {
        if t in s.threads && !(ev.Step? && ev.t == t) {
          OpOkAdvances(s.store, s'.store, s.threads[t]);
        }
      }
    }
  }

  lemma EmptyStoreOk()
    ensures StoreOk(INITIAL.store)
  {}

  lemma IdleOk(s: Store)
    ensures OpOk(s, Idle)
  {}

  // ----- Agreement -----

  /** In every interleaving, with any operations failing: an index entry points at a token
      with that hash or that user; or else its token is gone, and then a create has written
      an entry for it after a cleanup had begun to remove it as eligible. */
  lemma EntriesAgree(run: seq<Event>)
    requires Legal(run)
    ensures var s := After(run).store;
            && (forall h :: h in s.byHash && s.byHash[h] in s.tokens ==> s.tokens[s.byHash[h]].tokenHash == h)
            && (forall k :: k in s.byUser && s.byUser[k] in s.tokens ==> s.tokens[s.byUser[k]].userId == k.0)
            && (forall h :: h in s.byHash && s.byHash[h] !in s.tokens ==> RemovedLate(s, s.byHash[h]))
            && (forall k :: k in s.byUser && s.byUser[k] !in s.tokens ==> RemovedLate(s, s.byUser[k]))
  {
    RunOk(run);
  }

  /** A cleanup has begun to remove the token, having read it as eligible under a cutoff in
      the past, before a create wrote an index entry for it. */
  predicate RemovedLate(s: Store, id: string) {
    && id in s.late && id in s.removals
    && var m := s.removals[id]; m.token.id == id && Eligible(m.token, m.cutoff) && m.cutoff < s.clock
  }

  predicate WritesIndex(op: Op, id: string) {
    (op.CreateHash? || op.CreateUser?) && op.t.id == id
  }

  /** A create that is about to write an index entry of a token whose removal has begun. */
  predicate LateWrite(s: State, ev: Event, id: string) {
    ev.Step? && ev.a.Kv? && ev.a.fault != Failed && WritesIndex(s.Pc(ev.t), id) && id in s.store.removals
  }

  lemma KvLate(s: Store, op: Op, fault: Fault, id: string)
    requires id in KvStep(s, op, fault).0.late && id !in s.late
    ensures fault != Failed && WritesIndex(op, id) && id in s.removals
  {}

  lemma StepLate(s: State, ev: Event, id: string)
    requires id in Apply(s, ev).store.late && id !in s.store.late
    ensures LateWrite(s, ev, id)
  {
    hide KvStep;
    if ev.Step? && ev.a.Kv? {
      KvLate(s.store, s.Pc(ev.t), ev.a.fault, id);
    }
  }

  /** `late` is what it says. */
  lemma {:induction false} LateIsRecorded(run: seq<Event>, id: string) returns (e: nat)
    requires Legal(run) && id in After(run).store.late
    ensures e < |run| && LateWrite(After(run[..e]), run[e], id)
  {
    hide Apply;
    hide Enabled;
    var before, ev := run[..|run| - 1], run[|run| - 1];
    if id in After(before).store.late {
      e := LateIsRecorded(before, id);
      assert before[..e] == run[..e];
    } else {
      e := |run| - 1;
      StepLate(After(before), ev, id);
    }
  }

  /** So where no create is late, the indexes agree with the tokens outright. */
  lemma PromptCreatesAgree(run: seq<Event>)
    requires Legal(run)
    requires forall e, id :: 0 <= e < |run| ==> !LateWrite(After(run[..e]), run[e], id)
    ensures var s := After(run).store; Indexed(Contents(s.tokens, s.byHash, s.byUser))
  {
    RunOk(run);
    hide StoreOk;
    hide Indexed;
    forall id ensures id !in After(run).store.late {
      if id in After(run).store.late {
        var e := LateIsRecorded(run, id);
      }
    }
    StoreIndexed(After(run).store);
  }

  lemma StoreIndexed(s: Store)
    requires StoreOk(s) && forall id :: id !in s.late
    ensures Indexed(Contents(s.tokens, s.byHash, s.byUser))
  {}

  /** A token that no revocation has reached is removed only after its expiry. */
  lemma RemovalIsDue(run: seq<Event>, id: string)
    requires Legal(run) && id in After(run).store.removals
    ensures var s := After(run).store;
            && id in s.issued
            && (s.removals[id].token.revokedAt.Some?
                || (s.issued[id].expiresAt.Some? && s.issued[id].expiresAt.value < s.clock))
  {
    RunOk(run);
  }

  /** A lookup by hash hands its caller a token with that hash. */
  lemma FoundByHash(run: seq<Event>, t: Thread)
    requires Legal(run) && t in After(run).threads && After(run).threads[t].Got? && After(run).threads[t].via.Some?
    ensures After(run).threads[t].t.tokenHash == After(run).threads[t].via.value
  {
    RunOk(run);
    assert OpOk(After(run).store, After(run).threads[t]);
  }

  // ----- Revocations hold -----

  predicate Unrevoked(s: Store, id: string) {
    id in s.tokens && s.tokens[id].revokedAt.None?
  }

  /** A thread is about to write the record as it was before its revocation. */
  predicate StaleWrite(op: Op, id: string) {
    (op.WriteBack? || op.CreateRecord?) && op.t.id == id && op.t.revokedAt.None?
  }

  ghost predicate NoStaleWrite(s: State, id: string) {
    forall t :: t in s.threads ==> !StaleWrite(s.threads[t], id)
  }

  lemma KvKeepsRevoked(s: Store, op: Op, fault: Fault, id: string)
    requires StoreOk(s) && OpOk(s, op) && !Unrevoked(s, id) && !StaleWrite(op, id)
    ensures var (s', op') := KvStep(s, op, fault); !Unrevoked(s', id) && !StaleWrite(op', id)
  {
    hide IssuedOk;
    hide EntriesOk;
    hide RemovalsOk;
    hide HashGone;
    hide UserGone;
    hide AllGenuine;
  }

  lemma StepKeepsRevoked(s: State, ev: Event, id: string)
    requires Consistent(s) && Enabled(s, ev) && id in s.store.issued
    requires !Unrevoked(s.store, id) && NoStaleWrite(s, id)
    ensures !Unrevoked(Apply(s, ev).store, id) && NoStaleWrite(Apply(s, ev), id)
  {
    if ev.Step? && ev.a.Kv? {
      KvKeepsRevoked(s.store, s.Pc(ev.t), ev.a.fault, id);
      hide KvStep;
      hide StoreOk;
    } else {
      hide StoreOk;
    }
  }

  lemma {:induction false} RevokedStaysSo(run: seq<Event>, more: seq<Event>, id: string)
    requires Legal(run + more) && id in After(run).store.tokens
    requires !Unrevoked(After(run).store, id) && NoStaleWrite(After(run), id)
    ensures !Unrevoked(After(run + more).store, id) && NoStaleWrite(After(run + more), id)
    ensures id in After(run + more).store.issued
    decreases |more|
  {
    hide StoreOk;
    hide OpOk;
    hide Apply;
    hide Enabled;
    if more == [] {
      assert run + more == run;
      RunOk(run);
      GenuineTokens(After(run).store);
    } else {
      var before, ev := more[..|more| - 1], more[|more| - 1];
      assert (run + more)[..|run + more| - 1] == run + before && (run + more)[|run + more| - 1] == ev;
      RevokedStaysSo(run, before, id);
      RunOk(run + before);
      RunOk(run + more);
      StepKeepsRevoked(After(run + before), ev, id);
      StepIssued(After(run + before), ev);
    }
  }

  lemma GenuineTokens(s: Store)
    requires StoreOk(s)
    ensures s.tokens.Keys <= s.issued.Keys
  {}

  lemma StepIssued(s: State, ev: Event)
    requires Consistent(s) && Enabled(s, ev)
    ensures s.store.issued.Keys <= Apply(s, ev).store.issued.Keys
  {
    if ev.Step? {
      IdleOk(s.store);
      ActOk(s.store, s.Pc(ev.t), ev.a);
    }
  }

  /** A revoked token stays revoked, whatever happens, if and only if no thread is about to
      write the record back as it had read it before: updates read and write without a
      version check. */
  lemma RevocationHolds(run: seq<Event>, id: string)
    requires Legal(run) && id in After(run).store.tokens && !Unrevoked(After(run).store, id)
    ensures NoStaleWrite(After(run), id) <==>
            forall more :: Legal(run + more) ==> !Unrevoked(After(run + more).store, id)
  {
    if NoStaleWrite(After(run), id) {
      forall more | Legal(run + more) ensures !Unrevoked(After(run + more).store, id) {
        RevokedStaysSo(run, more, id);
      }
    } else {
      var t :| t in After(run).threads && StaleWrite(After(run).threads[t], id);
      var ev := Step(t, Kv(Ok));
      StaleWriteUndoes(After(run), t, id);
      hide Apply;
      assert (run + [ev])[..|run + [ev]| - 1] == run && (run + [ev])[|run + [ev]| - 1] == ev;
      assert Legal(run + [ev]) && Unrevoked(After(run + [ev]).store, id);
    }
  }

  lemma StaleWriteUndoes(s: State, t: Thread, id: string)
    requires t in s.threads && StaleWrite(s.threads[t], id)
    ensures Unrevoked(Apply(s, Step(t, Kv(Ok))).store, id)
  {}

  // ----- Methods that run undisturbed -----

  function Left(op: Op): nat {
    match op
    case Idle => 0
    case CreateRecord(_) => 3
    case CreateHash(_) => 2
    case CreateUser(_) => 1
    case GetHash(_) => 2
    case GetRecord(_, _) => 1
    case Got(_, _) => 0
    case RevokeRead(_) => 2
    case UpdateRead(_, _) => 2
    case WriteBack(_) => 1
    case SweepRead(_, todo, all) => 5 * |todo| + 4 * |all| + 2
    case SweepNext(_, all) => 4 * |all| + 1
    case SweepHash(_, _, all) => 4 * |all| + 4
    case SweepUser(_, _, all) => 4 * |all| + 3
    case SweepToken(_, _, all) => 4 * |all| + 2
  }

  /** Runs a method to its end, undisturbed. */
  function Alone(s: Store, op: Op): Store
    decreases Left(op)
  {
    if Left(op) == 0 then s
    else
      var (s', op') := KvStep(s, op, Ok);
      Alone(s', op')
  }

  lemma Once(s: Store, op: Op, s': Store, op': Op)
    requires Left(op) > 0 && KvStep(s, op, Ok) == (s', op')
    ensures Alone(s, op) == Alone(s', op') && Ending(s, op) == Ending(s', op')
    ensures Left(op') == 0 ==> Alone(s, op) == s' && Ending(s, op) == op'
  {}

  /** Where the method ends that way. */
  function Ending(s: Store, op: Op): Op
    decreases Left(op)
  {
    if Left(op) == 0 then op
    else
      var (s', op') := KvStep(s, op, Ok);
      Ending(s', op')
  }

  /** The token that was created is there, is found by its hash and listed for its user,
      and nothing else has changed. */
  lemma CreatedIsFound(s: Store, t: ProxyToken)
    requires t.id !in s.removals
    ensures var s' := Alone(s, CreateRecord(t));
            && s'.tokens == s.tokens[t.id := t]
            && s'.byHash == s.byHash[t.tokenHash := t.id]
            && s'.byUser == (if t.userId == "" then s.byUser else s.byUser[(t.userId, t.id) := t.id])
            && Ending(s', GetHash(t.tokenHash)) == Got(Some(t.tokenHash), t)
  {
    var s1 := s.PutToken(t, Ok);
    var s2 := s1.PutHash(t, Ok);
    Once(s, CreateRecord(t), s1, CreateHash(t));
    if t.userId == "" {
      Once(s1, CreateHash(t), s2, Idle);
    } else {
      Once(s1, CreateHash(t), s2, CreateUser(t));
      Once(s2, CreateUser(t), s2.PutUser(t, Ok), Idle);
    }
    LookupIsRead(Alone(s, CreateRecord(t)), t.tokenHash);
  }

  /** A lookup answers what the index and the record say. */
  lemma LookupIsRead(s: Store, hash: string)
    ensures Alone(s, GetHash(hash)) == s
    ensures Ending(s, GetHash(hash)) ==
            if hash in s.byHash && s.byHash[hash] in s.tokens then Got(Some(hash), s.tokens[s.byHash[hash]]) else Idle
  {
    if hash in s.byHash {
      var op := GetRecord(Some(hash), s.byHash[hash]);
      var op' := KvStep(s, op, Ok).1;
      Once(s, GetHash(hash), s, op);
      Once(s, op, s, op');
    } else {
      Once(s, GetHash(hash), s, Idle);
    }
  }

  /** A revocation marks a token that is there and not yet revoked with the time, and leaves
      everything else as it is. */
  lemma RevokeTakesEffect(s: Store, id: string)
    requires id in s.tokens ==> s.tokens[id].id == id
    ensures Alone(s, RevokeRead(id)) ==
            if id in s.tokens && s.tokens[id].revokedAt == None
            then s.(tokens := s.tokens[id := s.tokens[id].(revokedAt := Some(s.clock))])
            else s
  {
    if id in s.tokens && s.tokens[id].revokedAt.None? {
      var t := s.tokens[id].(revokedAt := Some(s.clock));
      Once(s, RevokeRead(id), s, WriteBack(t));
      Once(s, WriteBack(t), s.PutToken(t, Ok), Idle);
    } else {
      Once(s, RevokeRead(id), s, Idle);
    }
  }

  /** An update changes the fields it is for, of a token that is there. */
  lemma UpdateTakesEffect(s: Store, id: string, rest: string)
    requires id in s.tokens ==> s.tokens[id].id == id
    ensures Alone(s, UpdateRead(id, rest)) ==
            if id in s.tokens then s.(tokens := s.tokens[id := s.tokens[id].(rest := rest)]) else s
  {
    if id in s.tokens {
      var t := s.tokens[id].(rest := rest);
      Once(s, UpdateRead(id, rest), s, WriteBack(t));
      Once(s, WriteBack(t), s.PutToken(t, Ok), Idle);
    } else {
      Once(s, UpdateRead(id, rest), s, Idle);
    }
  }

  /** The tokens under the listed keys, as they are read. */
  function Listed(s: Store, keys: seq<string>): seq<ProxyToken> {
    if keys == [] then []
    else
      var last, before := keys[|keys| - 1], Listed(s, keys[..|keys| - 1]);
      if last in INDEX_DIRS || last !in s.tokens then before else before + [s.tokens[last]]
  }

  lemma {:induction false} ReadsListed(s: Store, cutoff: int, keys: seq<string>, n: nat)
    requires n <= |keys|
    ensures Alone(s, SweepRead(cutoff, keys[n..], Listed(s, keys[..n]))) == Alone(s, SweepNext(cutoff, Listed(s, keys)))
    decreases |keys| - n
  {
    var all := Listed(s, keys[..n]);
    if n == |keys| {
      assert keys[..n] == keys && keys[n..] == [];
      Once(s, SweepRead(cutoff, [], all), s, SweepNext(cutoff, all));
    } else {
      assert keys[n..][0] == keys[n] && keys[n..][1..] == keys[n + 1..];
      assert keys[..n + 1][..n] == keys[..n];
      Once(s, SweepRead(cutoff, keys[n..], all), s, SweepRead(cutoff, keys[n + 1..], Listed(s, keys[..n + 1])));
      ReadsListed(s, cutoff, keys, n + 1);
    }
  }

  function Removed(s: Store, t: ProxyToken, cutoff: int): Store {
    var s1 := s.BeginRemoval(t, cutoff).DropHash(t, Ok);
    (if t.userId != "" then s1.DropUser(t, Ok) else s1).DropToken(t, Ok)
  }

  lemma RemovesOne(s: Store, cutoff: int, all: seq<ProxyToken>)
    requires all != []
    ensures Alone(s, SweepNext(cutoff, all)) ==
            Alone(if Eligible(all[0], cutoff) then Removed(s, all[0], cutoff) else s, SweepNext(cutoff, all[1..]))
  {
    var t, rest := all[0], all[1..];
    if Eligible(t, cutoff) {
      var s1 := s.BeginRemoval(t, cutoff).DropHash(t, Ok);
      Once(s, SweepNext(cutoff, all), s, SweepHash(cutoff, t, rest));
      if t.userId != "" {
        Once(s, SweepHash(cutoff, t, rest), s1, SweepUser(cutoff, t, rest));
        Once(s1, SweepUser(cutoff, t, rest), s1.DropUser(t, Ok), SweepToken(cutoff, t, rest));
        Once(s1.DropUser(t, Ok), SweepToken(cutoff, t, rest), Removed(s, t, cutoff), SweepNext(cutoff, rest));
      } else {
        Once(s, SweepHash(cutoff, t, rest), s1, SweepToken(cutoff, t, rest));
        Once(s1, SweepToken(cutoff, t, rest), Removed(s, t, cutoff), SweepNext(cutoff, rest));
      }
    } else {
      Once(s, SweepNext(cutoff, all), s, SweepNext(cutoff, rest));
    }
  }

  predicate EligibleIn(all: seq<ProxyToken>, id: string, cutoff: int) {
    exists i :: 0 <= i < |all| && all[i].id == id && Eligible(all[i], cutoff)
  }

  lemma {:induction false} RemovesEligible(s: Store, cutoff: int, all: seq<ProxyToken>)
    ensures Alone(s, SweepNext(cutoff, all)).tokens ==
            map id | id in s.tokens && !EligibleIn(all, id, cutoff) :: s.tokens[id]
    decreases |all|
  {
    if all == [] {
      Once(s, SweepNext(cutoff, all), s, Idle);
    } else {
      RemovesOne(s, cutoff, all);
      var s1 := if Eligible(all[0], cutoff) then Removed(s, all[0], cutoff) else s;
      RemovesEligible(s1, cutoff, all[1..]);
      forall id ensures EligibleIn(all, id, cutoff) <==>
                        (all[0].id == id && Eligible(all[0], cutoff)) || EligibleIn(all[1..], id, cutoff) {
        if i :| 0 <= i < |all| && all[i].id == id && Eligible(all[i], cutoff) {
          assert i > 0 ==> all[1..][i - 1] == all[i];
        }
      }
    }
  }

  lemma {:induction false} ListedIs(s: Store, keys: seq<string>)
    requires forall id :: id in s.tokens ==> s.tokens[id].id == id
    ensures forall i :: 0 <= i < |Listed(s, keys)| ==>
              Listed(s, keys)[i].id in s.tokens && s.tokens[Listed(s, keys)[i].id] == Listed(s, keys)[i]
    ensures forall id :: id in keys && id in s.tokens && id !in INDEX_DIRS ==> s.tokens[id] in Listed(s, keys)
  {
    if keys != [] {
      ListedIs(s, keys[..|keys| - 1]);
    }
  }

  /** An undisturbed cleanup with a complete listing leaves what the SQL DELETE leaves. */
  lemma CleanupIsExact(s: Store, cutoff: int, keys: seq<string>)
    requires StoreOk(s) && forall id :: id in s.tokens ==> id in keys
    ensures Alone(s, SweepRead(cutoff, keys, [])).tokens == Survivors(s.tokens, cutoff)
  {
    assert keys[0..] == keys && keys[..0] == [];
    ReadsListed(s, cutoff, keys, 0);
    var all := Listed(s, keys);
    RemovesEligible(s, cutoff, all);
    ListedIs(s, keys);
    forall id | id in s.tokens ensures EligibleIn(all, id, cutoff) <==> Eligible(s.tokens[id], cutoff) {
      assert s.tokens[id] in all;
    }
  }

  /** An index entry of the token is left, but no token. */
  ghost predicate Dangling(s: Store, id: string) {
    && id !in s.tokens
    && ((exists h :: h in s.byHash && s.byHash[h] == id) || (exists k :: k in s.byUser && s.byUser[k] == id))
  }

  /** A cleanup between the record write and the index writes of a create, neither of which
      fails, leaves a dangling entry if and only if the token was eligible by then. */
  lemma CleanupWithinCreate(s: Store, op: Op, cutoff: int, keys: seq<string>)
    requires StoreOk(s) && OpOk(s, op) && (op.CreateHash? || op.CreateUser?) && op.t.id in s.tokens
    requires forall id :: id in s.tokens ==> id in keys
    ensures Dangling(Alone(Alone(s, SweepRead(cutoff, keys, [])), op), op.t.id) <==> Eligible(s.tokens[op.t.id], cutoff)
  {
    var t, s1 := op.t, Alone(s, SweepRead(cutoff, keys, []));
    CleanupIsExact(s, cutoff, keys);
    var s2 := Alone(s1, op);
    if op.CreateHash? {
      var written := s1.PutHash(t, Ok);
      assert KvStep(s1, op, Ok).0 == written;
      assert t.tokenHash in written.byHash && written.byHash[t.tokenHash] == t.id;
      if t.userId != "" {
        Once(s1, op, written, CreateUser(t));
        Once(written, CreateUser(t), written.PutUser(t, Ok), Idle);
      } else {
        Once(s1, op, written, Idle);
      }
      assert s2.tokens == s1.tokens && t.tokenHash in s2.byHash && s2.byHash[t.tokenHash] == t.id;
    } else {
      Once(s1, op, s1.PutUser(t, Ok), Idle);
      assert s2.tokens == s1.tokens && (t.userId, t.id) in s2.byUser && s2.byUser[(t.userId, t.id)] == t.id;
    }
  }
}

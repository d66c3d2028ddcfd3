/** Device authorizations in Vault (internal/database/vault.go): a record per device
    code and an index from user codes, kept by single-key operations that other
    instances interleave with and that may fail at any point.

    Vault has no transactions, so the unit of this model is one KV operation. A thread
    is somewhere inside one store method (`Op`); an event lets one thread do its next KV
    operation. A write, create or delete that reports failure may or may not have taken
    effect. */
module DeviceAuthVault {
  import opened Prelude
  import opened VaultKV

  /** `body` stands for status, session token, username and poll time, which the
      store methods copy without looking. */
  datatype Record = Record(deviceCode: string, userCode: string, expiresAt: int, body: string)

  /** What Vault holds under device-auth/ and the time. `issued` and `deleting` are
      history: the record each device code was created with, and the device codes whose
      deletion has begun. */
  datatype Store = Store(
    records: map<string, Record>,
    index: map<string, string>,
    clock: int,
    issued: map<string, Record>,
    deleting: set<string>)
  {
    function PutRecord(da: Record): Store {
      this.(records := records[da.deviceCode := da])
    }

    function DropRecord(deviceCode: string, fault: Fault): Store {
      if fault == Failed then this else this.(records := records - {deviceCode})
    }

    function PutIndex(da: Record): Store {
      this.(index := index[da.userCode := da.deviceCode])
    }

    function DropIndex(userCode: string, fault: Fault): Store {
      if fault == Failed then this else this.(index := index - {userCode})
    }

    function BeginDelete(deviceCode: string): Store {
      this.(deleting := deleting + {deviceCode})
    }
  }

  const INDEX_DIR := "by-user-code"

  /** The place of a thread inside a store method. */
  datatype Op =
    | Idle
    // CreateDeviceAuth: create the record, create the index, or roll the record back
    | CreateRecord(da: Record)
    | CreateIndex(da: Record)
    | RollBack(da: Record)
    // GetDeviceAuthByUserCode, and GetDeviceAuthByDeviceCode (via == None)
    | GetIndex(userCode: string)
    | GetRecord(via: Option<string>, deviceCode: string)
    | Got(via: Option<string>, da: Record)
    // UpdateDeviceAuth
    | UpdateRead(da: Record)
    | UpdateWrite(da: Record)
    // DeleteDeviceAuth
    | DeleteRead(deviceCode: string)
    | DeleteIndex(deviceCode: string, userCode: string)
    | DeleteRecord(deviceCode: string)
    // DeleteExpiredDeviceAuths: expired records, then dangling index entries
    | SweepRecords(now: int, todo: seq<string>)
    | SweepRecordIndex(now: int, deviceCode: string, userCode: string, todo: seq<string>)
    | SweepRecordDelete(now: int, deviceCode: string, todo: seq<string>)
    | SweepListIndex
    | SweepIndex(todo: seq<string>)
    | SweepPrimary(userCode: string, deviceCode: string, todo: seq<string>)
    | SweepDangling(userCode: string, deviceCode: string, todo: seq<string>)

  // ----- One KV operation of each store method -----

  function CreateKv(s: Store, op: Op, fault: Fault): (Store, Op) {
    match op
    case CreateRecord(da) =>
      if fault == Failed || da.deviceCode in s.records then (s, Idle)
      else (s.PutRecord(da), if fault == Ok then CreateIndex(da) else Idle)
    case CreateIndex(da) =>
      if da.userCode !in s.index && fault == Ok then (s.PutIndex(da), Idle)
      else
        var s1 := if da.userCode !in s.index && fault == FailedButApplied then s.PutIndex(da) else s;
        (s1.BeginDelete(da.deviceCode), RollBack(da))
    case RollBack(da) => (s.DropRecord(da.deviceCode, fault), Idle)
    case _ => (s, op)
  }

  function GetKv(s: Store, op: Op, fault: Fault): (Store, Op) {
    match op
    case GetIndex(uc) =>
      (s, if fault == Ok && uc in s.index && s.index[uc] != "" then GetRecord(Some(uc), s.index[uc]) else Idle)
    case GetRecord(via, dc) =>
      (s, if fault == Ok && dc in s.records && s.clock <= s.records[dc].expiresAt
          then Got(via, s.records[dc]) else Idle)
    case _ => (s, op)
  }

  function UpdateKv(s: Store, op: Op, fault: Fault): (Store, Op) {
    match op
    case UpdateRead(da) => (s, if fault == Ok && da.deviceCode in s.records then UpdateWrite(da) else Idle)
    case UpdateWrite(da) => (if fault == Failed then s else s.PutRecord(da), Idle)
    case _ => (s, op)
  }

  function DeleteKv(s: Store, op: Op, fault: Fault): (Store, Op) {
    match op
    case DeleteRead(dc) =>
      (s, if fault == Ok && dc in s.records && s.records[dc].userCode != ""
          then DeleteIndex(dc, s.records[dc].userCode) else DeleteRecord(dc))
    case DeleteIndex(dc, uc) => (s.DropIndex(uc, fault), DeleteRecord(dc))
    case DeleteRecord(dc) => (s.DropRecord(dc, fault), Idle)
    case _ => (s, op)
  }

  function SweepRecordsKv(s: Store, op: Op, fault: Fault): (Store, Op) {
    match op
    case SweepRecords(now, todo) =>
      (s,
       if todo == [] then SweepListIndex
       else if todo[0] == INDEX_DIR then SweepRecords(now, todo[1..])
       else if fault != Ok then Idle
       else if todo[0] !in s.records || now <= s.records[todo[0]].expiresAt then SweepRecords(now, todo[1..])
       else if s.records[todo[0]].userCode == "" then SweepRecordDelete(now, todo[0], todo[1..])
       else SweepRecordIndex(now, todo[0], s.records[todo[0]].userCode, todo[1..]))
    case SweepRecordIndex(now, dc, uc, todo) => (s.DropIndex(uc, fault), SweepRecordDelete(now, dc, todo))
    case SweepRecordDelete(now, dc, todo) =>
      (s.DropRecord(dc, fault), if fault == Ok then SweepRecords(now, todo) else Idle)
    case _ => (s, op)
  }

  function SweepIndexKv(s: Store, op: Op, fault: Fault): (Store, Op) {
    match op
    case SweepIndex(todo) =>
      (s,
       if todo == [] then Idle
       else if fault != Ok || todo[0] !in s.index then SweepIndex(todo[1..])
       else if s.index[todo[0]] == "" then SweepDangling(todo[0], "", todo[1..])
       else SweepPrimary(todo[0], s.index[todo[0]], todo[1..]))
    case SweepPrimary(uc, dc, todo) =>
      // A failed read and a present record leave the entry alone.
      (s, if fault != Ok || dc in s.records then SweepIndex(todo) else SweepDangling(uc, dc, todo))
    case SweepDangling(uc, dc, todo) => (s.DropIndex(uc, fault), SweepIndex(todo))
    case _ => (s, op)
  }

  function KvStep(s: Store, op: Op, fault: Fault): (Store, Op) {
    if op.CreateRecord? || op.CreateIndex? || op.RollBack? then CreateKv(s, op, fault)
    else if op.GetIndex? || op.GetRecord? then GetKv(s, op, fault)
    else if op.UpdateRead? || op.UpdateWrite? then UpdateKv(s, op, fault)
    else if op.DeleteRead? || op.DeleteIndex? || op.DeleteRecord? then DeleteKv(s, op, fault)
    else if op.SweepRecords? || op.SweepRecordIndex? || op.SweepRecordDelete? then SweepRecordsKv(s, op, fault)
    else SweepIndexKv(s, op, fault)
  }

  // ----- What a thread may do, and runs -----

  datatype Action =
    // A call begins. The keys of a sweep are what the listing returned.
    | StartCreate(da: Record)
    | StartGetByUserCode(userCode: string)
    | StartGetByDeviceCode(deviceCode: string)
    | StartDelete(deviceCode: string)
    | StartSweep(keys: seq<string>)
    | Kv(fault: Fault)
    // The handler that read a record updates its body, deletes it, or returns.
    | UseUpdate(body: string)
    | UseDelete
    | UseReturn
    // The sweep lists the index (None: the listing failed), or leaves its loop early.
    | ListIndex(listed: Option<seq<string>>)
    | CancelSweep

  function Act(s: Store, op: Op, a: Action): (Store, Op) {
    match (a, op)
    case (StartCreate(da), Idle) => (s.(issued := s.issued[da.deviceCode := da]), CreateRecord(da))
    case (StartGetByUserCode(uc), Idle) => (s, GetIndex(uc))
    case (StartGetByDeviceCode(dc), Idle) => (s, GetRecord(None, dc))
    case (StartDelete(dc), Idle) => (s.BeginDelete(dc), DeleteRead(dc))
    case (StartSweep(keys), Idle) => (s, SweepRecords(s.clock, keys))
    case (Kv(fault), _) => KvStep(s, op, fault)
    case (UseUpdate(body), Got(_, da)) => (s, UpdateRead(da.(body := body)))
    case (UseDelete, Got(_, da)) => (s.BeginDelete(da.deviceCode), DeleteRead(da.deviceCode))
    case (UseReturn, Got(_, _)) => (s, Idle)
    case (ListIndex(listed), SweepListIndex) => (s, if listed.Some? then SweepIndex(listed.value) else Idle)
    case (CancelSweep, SweepRecords(_, _)) => (s, SweepListIndex)
    case (CancelSweep, SweepIndex(_)) => (s, Idle)
    case _ => (s, op)
  }

  type Thread = nat

  datatype Event = Tick(now: int) | Step(t: Thread, a: Action)

  datatype State = State(store: Store, threads: map<Thread, Op>) {
    function Pc(t: Thread): Op {
      if t in threads then threads[t] else Idle
    }
  }

  const INITIAL := State(Store(map[], map[], 0, map[], {}), map[])

  function Apply(s: State, ev: Event): State {
    match ev
    case Tick(now) => s.(store := s.store.(clock := now))
    case Step(t, a) => var (store, op) := Act(s.store, s.Pc(t), a); State(store, s.threads[t := op])
  }

  /** A device code is used for one create only; `freshUserCodes` says whether a user
      code is, too. */
  ghost predicate Fresh(s: Store, da: Record, freshUserCodes: bool) {
    && da.deviceCode !in s.issued && da.deviceCode != "" && da.userCode != ""
    && (freshUserCodes ==> forall dc :: dc in s.issued ==> s.issued[dc].userCode != da.userCode)
  }

  ghost predicate Enabled(s: State, ev: Event, freshUserCodes: bool) {
    match ev
    case Tick(now) => s.store.clock <= now
    case Step(_, StartCreate(da)) => Fresh(s.store, da, freshUserCodes)
    case _ => true
  }

  function After(run: seq<Event>): State {
    if run == [] then INITIAL else Apply(After(run[..|run| - 1]), run[|run| - 1])
  }

  ghost predicate Legal(run: seq<Event>, freshUserCodes: bool) {
    run == [] ||
    (&& Legal(run[..|run| - 1], freshUserCodes)
     && Enabled(After(run[..|run| - 1]), run[|run| - 1], freshUserCodes))
  }

  // ----- Agreement of index and records -----

  /** The record is one that was created under its device code, up to `body`. */
  predicate Genuine(s: Store, da: Record) {
    && da.deviceCode in s.issued
    && var first := s.issued[da.deviceCode]; first.userCode == da.userCode && first.expiresAt == da.expiresAt
  }

  predicate Belongs(s: Store, uc: string, dc: string) {
    dc in s.issued && s.issued[dc].userCode == uc
  }

  predicate OpAgrees(s: Store, op: Op) {
    match op
    case CreateRecord(da) => Genuine(s, da)
    case CreateIndex(da) => Genuine(s, da)
    case RollBack(da) => Genuine(s, da)
    case GetRecord(via, dc) => via.Some? ==> Belongs(s, via.value, dc)
    case Got(via, da) => Genuine(s, da) && (via.Some? ==> da.userCode == via.value)
    case UpdateRead(da) => Genuine(s, da)
    case UpdateWrite(da) => Genuine(s, da)
    case DeleteIndex(dc, uc) => Belongs(s, uc, dc)
    case SweepRecordIndex(_, dc, uc, _) => Belongs(s, uc, dc)
    case SweepPrimary(uc, dc, _) => Belongs(s, uc, dc)
    case SweepDangling(uc, dc, _) => Belongs(s, uc, dc)
    case _ => true
  }

  ghost predicate StoreAgrees(s: Store) {
    && "" !in s.issued
    && (forall dc :: dc in s.records ==> s.records[dc].deviceCode == dc && Genuine(s, s.records[dc]))
    && (forall uc :: uc in s.index ==> Belongs(s, uc, s.index[uc]))
  }

  /** Codes issued before keep their meaning. */
  ghost predicate Grew(s: Store, s': Store) {
    && (forall dc :: dc in s.issued ==> dc in s'.issued && s'.issued[dc] == s.issued[dc])
    && s.deleting <= s'.deleting && s.clock <= s'.clock
  }

  lemma CreateAgrees(s: Store, op: Op, fault: Fault)
    requires StoreAgrees(s) && OpAgrees(s, op)
    ensures var (s', op') := CreateKv(s, op, fault); Grew(s, s') && StoreAgrees(s') && OpAgrees(s', op')
  {}

  lemma GetAgrees(s: Store, op: Op, fault: Fault)
    requires StoreAgrees(s) && OpAgrees(s, op)
    ensures var (s', op') := GetKv(s, op, fault); Grew(s, s') && StoreAgrees(s') && OpAgrees(s', op')
  {}

  lemma UpdateAgrees(s: Store, op: Op, fault: Fault)
    requires StoreAgrees(s) && OpAgrees(s, op)
    ensures var (s', op') := UpdateKv(s, op, fault); Grew(s, s') && StoreAgrees(s') && OpAgrees(s', op')
  {}

  lemma DeleteAgrees(s: Store, op: Op, fault: Fault)
    requires StoreAgrees(s) && OpAgrees(s, op)
    ensures var (s', op') := DeleteKv(s, op, fault); Grew(s, s') && StoreAgrees(s') && OpAgrees(s', op')
  {}

  lemma SweepRecordsAgrees(s: Store, op: Op, fault: Fault)
    requires StoreAgrees(s) && OpAgrees(s, op)
    ensures var (s', op') := SweepRecordsKv(s, op, fault); Grew(s, s') && StoreAgrees(s') && OpAgrees(s', op')
  {}

  lemma SweepIndexAgrees(s: Store, op: Op, fault: Fault)
    requires StoreAgrees(s) && OpAgrees(s, op)
    ensures var (s', op') := SweepIndexKv(s, op, fault); Grew(s, s') && StoreAgrees(s') && OpAgrees(s', op')
  {}

  lemma ActAgrees(s: Store, op: Op, a: Action)
    requires StoreAgrees(s) && OpAgrees(s, op)
    requires a.StartCreate? ==> Fresh(s, a.da, false)
    ensures var (s', op') := Act(s, op, a); Grew(s, s') && StoreAgrees(s') && OpAgrees(s', op')
  {
    if a.Kv? {
      CreateAgrees(s, op, a.fault);
      GetAgrees(s, op, a.fault);
      UpdateAgrees(s, op, a.fault);
      DeleteAgrees(s, op, a.fault);
      SweepRecordsAgrees(s, op, a.fault);
      SweepIndexAgrees(s, op, a.fault);
    }
  }

  ghost predicate Agrees(s: State) {
    StoreAgrees(s.store) && forall t :: t in s.threads ==> OpAgrees(s.store, s.threads[t])
  }

  lemma OpAgreesGrows(s: Store, s': Store, op: Op)
    requires Grew(s, s') && OpAgrees(s, op)
    ensures OpAgrees(s', op)
  {}

  /** Invariant of every run in which device codes are fresh. */
  lemma {:induction false} RunAgrees(run: seq<Event>)
    requires Legal(run, false)
    ensures Agrees(After(run))
  {
    if run != [] {
      var s, ev := After(run[..|run| - 1]), run[|run| - 1];
      RunAgrees(run[..|run| - 1]);
      var s' := Apply(s, ev);
      if ev.Step? {
        ActAgrees(s.store, s.Pc(ev.t), ev.a);
      }
      forall t | t in s'.threads ensures OpAgrees(s'.store, s'.threads[t]) {
        if t in s.threads && !(ev.Step? && ev.t == t) {
          OpAgreesGrows(s.store, s'.store, s.threads[t]);
        }
      }
    }
  }

  /** In every interleaving, with any operations failing: an index entry for a user code
      names a record that is absent or carries that user code, and a lookup by user code
      hands its caller a record that carries it. */
  lemma IndexNamesItsRecord(run: seq<Event>)
    requires Legal(run, false)
    ensures var s := After(run).store;
            forall uc :: uc in s.index && s.index[uc] in s.records ==> s.records[s.index[uc]].userCode == uc
    ensures forall t :: t in After(run).threads && After(run).threads[t].Got? && After(run).threads[t].via.Some? ==>
              After(run).threads[t].da.userCode == After(run).threads[t].via.value
  {
    RunAgrees(run);
    var s := After(run);
    forall t | t in s.threads && s.threads[t].Got? && s.threads[t].via.Some?
      ensures s.threads[t].da.userCode == s.threads[t].via.value
    {
      assert OpAgrees(s.store, s.threads[t]);
    }
  }

  // ----- What the cleanup may remove -----

  /** The record has expired, or a delete of it has begun. */
  predicate Gone(s: Store, dc: string) {
    dc in s.deleting || (dc in s.issued && s.issued[dc].expiresAt < s.clock)
  }

  predicate OpSafe(s: Store, op: Op) {
    match op
    case CreateIndex(da) => da.deviceCode in s.records || Gone(s, da.deviceCode)
    case RollBack(da) => Gone(s, da.deviceCode)
    case DeleteRead(dc) => Gone(s, dc)
    case DeleteIndex(dc, _) => Gone(s, dc)
    case DeleteRecord(dc) => Gone(s, dc)
    case SweepRecords(now, _) => now <= s.clock
    case SweepRecordIndex(now, dc, _, _) => now <= s.clock && Gone(s, dc)
    case SweepRecordDelete(now, dc, _) => now <= s.clock && Gone(s, dc)
    case SweepPrimary(_, dc, _) => dc in s.records || Gone(s, dc)
    case SweepDangling(_, dc, _) => Gone(s, dc)
    case _ => true
  }

  ghost predicate Unshared(s: Store) {
    forall dc, dc' :: dc in s.issued && dc' in s.issued && s.issued[dc].userCode == s.issued[dc'].userCode ==> dc == dc'
  }

  ghost predicate StoreSafe(s: Store) {
    forall uc :: uc in s.index ==> s.index[uc] in s.records || Gone(s, s.index[uc])
  }

  /** A record disappears only when it is gone. */
  ghost predicate KeepsRecords(s: Store, s': Store) {
    && Grew(s, s')
    && forall dc :: dc in s.records ==> dc in s'.records || Gone(s', dc)
  }

  lemma CreateSafe(s: Store, op: Op, fault: Fault)
    requires StoreAgrees(s) && OpAgrees(s, op) && StoreSafe(s) && OpSafe(s, op)
    ensures var (s', op') := CreateKv(s, op, fault); KeepsRecords(s, s') && StoreSafe(s') && OpSafe(s', op')
  {}

  lemma GetSafe(s: Store, op: Op, fault: Fault)
    requires StoreAgrees(s) && OpAgrees(s, op) && StoreSafe(s) && OpSafe(s, op)
    ensures var (s', op') := GetKv(s, op, fault); KeepsRecords(s, s') && StoreSafe(s') && OpSafe(s', op')
  {}

  lemma UpdateSafe(s: Store, op: Op, fault: Fault)
    requires StoreAgrees(s) && OpAgrees(s, op) && StoreSafe(s) && OpSafe(s, op)
    ensures var (s', op') := UpdateKv(s, op, fault); KeepsRecords(s, s') && StoreSafe(s') && OpSafe(s', op')
  {}

  lemma DeleteSafe(s: Store, op: Op, fault: Fault)
    requires StoreAgrees(s) && OpAgrees(s, op) && StoreSafe(s) && OpSafe(s, op)
    ensures var (s', op') := DeleteKv(s, op, fault); KeepsRecords(s, s') && StoreSafe(s') && OpSafe(s', op')
  {}

  lemma SweepRecordsSafe(s: Store, op: Op, fault: Fault)
    requires StoreAgrees(s) && OpAgrees(s, op) && StoreSafe(s) && OpSafe(s, op)
    ensures var (s', op') := SweepRecordsKv(s, op, fault); KeepsRecords(s, s') && StoreSafe(s') && OpSafe(s', op')
  {}

  lemma SweepIndexSafe(s: Store, op: Op, fault: Fault)
    requires StoreAgrees(s) && OpAgrees(s, op) && StoreSafe(s) && OpSafe(s, op)
    ensures var (s', op') := SweepIndexKv(s, op, fault); KeepsRecords(s, s') && StoreSafe(s') && OpSafe(s', op')
  {}

  lemma ActSafe(s: Store, op: Op, a: Action)
    requires StoreAgrees(s) && OpAgrees(s, op) && StoreSafe(s) && OpSafe(s, op)
    requires a.StartCreate? ==> Fresh(s, a.da, false)
    ensures var (s', op') := Act(s, op, a); KeepsRecords(s, s') && StoreSafe(s') && OpSafe(s', op')
  {
    if a.Kv? {
      CreateSafe(s, op, a.fault);
      GetSafe(s, op, a.fault);
      UpdateSafe(s, op, a.fault);
      DeleteSafe(s, op, a.fault);
      SweepRecordsSafe(s, op, a.fault);
      SweepIndexSafe(s, op, a.fault);
    }
  }

  lemma OpSafeGrows(s: Store, s': Store, op: Op)
    requires KeepsRecords(s, s') && OpSafe(s, op)
    ensures OpSafe(s', op)
  {}

  ghost predicate Safe(s: State) {
    StoreSafe(s.store) && forall t :: t in s.threads ==> OpSafe(s.store, s.threads[t])
  }

  /** Invariant of every run in which device codes are fresh. */
  lemma {:induction false} RunSafe(run: seq<Event>)
    requires Legal(run, false)
    ensures Safe(After(run))
  {
    if run != [] {
      var s, ev := After(run[..|run| - 1]), run[|run| - 1];
      RunSafe(run[..|run| - 1]);
      RunAgrees(run[..|run| - 1]);
      var s' := Apply(s, ev);
      if ev.Step? {
        ActSafe(s.store, s.Pc(ev.t), ev.a);
      }
      assert KeepsRecords(s.store, s'.store);
      forall t | t in s'.threads ensures OpSafe(s'.store, s'.threads[t]) {
        if t in s.threads && !(ev.Step? && ev.t == t) {
          OpSafeGrows(s.store, s'.store, s.threads[t]);
        }
      }
    }
  }

  predicate Sweeping(op: Op) {
    || op.SweepRecords? || op.SweepRecordIndex? || op.SweepRecordDelete?
    || op.SweepListIndex? || op.SweepIndex? || op.SweepPrimary? || op.SweepDangling?
  }

  /** A cleanup removes an index entry on account of a record with that user code which
      has expired or whose deletion has begun. It hits the entry of a live record only if
      the entry names another record than that one, with the same user code. */
  lemma CleanupRemovesForTheGone(run: seq<Event>, ev: Event, uc: string)
    requires Legal(run + [ev], false)
    requires ev.Step? && Sweeping(After(run).Pc(ev.t))
    requires uc in After(run).store.index && uc !in Apply(After(run), ev).store.index
    ensures var s, op := After(run).store, After(run).Pc(ev.t);
            && (op.SweepRecordIndex? || op.SweepDangling?)
            && Gone(s, op.deviceCode) && Belongs(s, uc, op.deviceCode) && Belongs(s, uc, s.index[uc])
            && (Gone(s, s.index[uc]) || s.index[uc] != op.deviceCode)
  {
    assert (run + [ev])[..|run|] == run;
    RunSafe(run);
    RunAgrees(run);
    var s, op := After(run), After(run).Pc(ev.t);
    assert OpAgrees(s.store, op) && OpSafe(s.store, op);
    assert op.SweepRecordIndex? || op.SweepDangling?;
  }

  // ----- Fresh user codes -----

  lemma {:induction false} LegalWeakens(run: seq<Event>)
    requires Legal(run, true)
    ensures Legal(run, false)
  {
    if run != [] {
      LegalWeakens(run[..|run| - 1]);
    }
  }

  lemma ActUnshared(s: Store, op: Op, a: Action)
    requires Unshared(s) && (a.StartCreate? ==> Fresh(s, a.da, true))
    ensures Unshared(Act(s, op, a).0)
  {}

  lemma {:induction false} RunUnshared(run: seq<Event>)
    requires Legal(run, true)
    ensures Unshared(After(run).store)
  {
    if run != [] {
      var s, ev := After(run[..|run| - 1]), run[|run| - 1];
      RunUnshared(run[..|run| - 1]);
      if ev.Step? {
        ActUnshared(s.store, s.Pc(ev.t), ev.a);
      }
    }
  }

  /** Where user codes are fresh, too, a cleanup removes an index entry only when the record
      it names has expired or a delete of it has begun: a live one stays reachable. */
  lemma CleanupSparesLiveEntries(run: seq<Event>, ev: Event, uc: string)
    requires Legal(run + [ev], true)
    requires ev.Step? && Sweeping(After(run).Pc(ev.t))
    requires uc in After(run).store.index && uc !in Apply(After(run), ev).store.index
    ensures Gone(After(run).store, After(run).store.index[uc])
  {
    assert (run + [ev])[..|run|] == run;
    LegalWeakens(run + [ev]);
    RunUnshared(run);
    CleanupRemovesForTheGone(run, ev, uc);
  }

  // ----- A user code in use twice -----

  lemma Extend(run: seq<Event>, ev: Event)
    requires Legal(run, false) && Enabled(After(run), ev, false)
    ensures Legal(run + [ev], false) && After(run + [ev]) == Apply(After(run), ev)
  {
    assert (run + [ev])[..|run|] == run;
  }

  /** The steps of one thread, none of which fails. */
  lemma {:induction false} ExtendBy(run: seq<Event>, t: Thread, actions: seq<Action>)
    requires Legal(run, false)
    requires forall i :: 0 <= i < |actions| ==> !actions[i].StartCreate? || i == 0
    requires actions != [] && actions[0].StartCreate? ==> Fresh(After(run).store, actions[0].da, false)
    ensures Legal(run + Steps(t, actions), false)
    ensures After(run + Steps(t, actions)) == ApplyAll(After(run), t, actions)
    decreases |actions|
  {
    if actions == [] {
      assert run + Steps(t, actions) == run;
    } else {
      Extend(run, Step(t, actions[0]));
      ExtendBy(run + [Step(t, actions[0])], t, actions[1..]);
      assert run + Steps(t, actions) == run + [Step(t, actions[0])] + Steps(t, actions[1..]);
    }
  }

  function Steps(t: Thread, actions: seq<Action>): seq<Event> {
    if actions == [] then [] else [Step(t, actions[0])] + Steps(t, actions[1..])
  }

  function ApplyAll(s: State, t: Thread, actions: seq<Action>): State
    decreases |actions|
  {
    if actions == [] then s else ApplyAll(Apply(s, Step(t, actions[0])), t, actions[1..])
  }

  lemma CreatePhase(s: State, t: Thread, da: Record)
    requires s.Pc(t) == Idle && da.deviceCode !in s.store.records && da.userCode !in s.store.index
    ensures ApplyAll(s, t, [StartCreate(da), Kv(Ok), Kv(Ok)]) ==
            State(s.store.(issued := s.store.issued[da.deviceCode := da]).PutRecord(da).PutIndex(da),
                  s.threads[t := Idle])
  {
    var a := [StartCreate(da), Kv(Ok), Kv(Ok)];
    var issued := s.store.(issued := s.store.issued[da.deviceCode := da]);
    var s1 := Apply(s, Step(t, a[0]));
    assert s1 == State(issued, s.threads[t := CreateRecord(da)]);
    var s2 := Apply(s1, Step(t, a[1]));
    assert s2 == State(issued.PutRecord(da), s.threads[t := CreateIndex(da)]);
    var s3 := Apply(s2, Step(t, a[2]));
    assert s3 == State(issued.PutRecord(da).PutIndex(da), s.threads[t := Idle]);
    assert a[1..] == [a[1], a[2]] && [a[1], a[2]][1..] == [a[2]] && [a[2]][1..] == [];
    assert ApplyAll(s, t, a) == ApplyAll(s1, t, [a[1], a[2]]) == ApplyAll(s2, t, [a[2]]) == ApplyAll(s3, t, []);
  }

  lemma DeletePhase(s: State, t: Thread, dc: string)
    requires s.Pc(t) == Idle && dc in s.store.records && s.store.records[dc].userCode != ""
    ensures ApplyAll(s, t, [StartDelete(dc), Kv(Ok), Kv(Ok), Kv(Ok)]) ==
            State(s.store.BeginDelete(dc).DropIndex(s.store.records[dc].userCode, Ok).DropRecord(dc, Ok),
                  s.threads[t := Idle])
  {
    var a, uc := [StartDelete(dc), Kv(Ok), Kv(Ok), Kv(Ok)], s.store.records[dc].userCode;
    var s1 := Apply(s, Step(t, a[0]));
    assert s1 == State(s.store.BeginDelete(dc), s.threads[t := DeleteRead(dc)]);
    var s2 := Apply(s1, Step(t, a[1]));
    assert s2 == State(s.store.BeginDelete(dc), s.threads[t := DeleteIndex(dc, uc)]);
    var s3 := Apply(s2, Step(t, a[2]));
    assert s3 == State(s.store.BeginDelete(dc).DropIndex(uc, Ok), s.threads[t := DeleteRecord(dc)]);
    var s4 := Apply(s3, Step(t, a[3]));
    assert s4 == State(s.store.BeginDelete(dc).DropIndex(uc, Ok).DropRecord(dc, Ok), s.threads[t := Idle]);
    assert a[1..] == [a[1], a[2], a[3]] && [a[1], a[2], a[3]][1..] == [a[2], a[3]] && [a[2], a[3]][1..] == [a[3]];
    assert [a[3]][1..] == [];
    assert ApplyAll(s, t, a) == ApplyAll(s1, t, [a[1], a[2], a[3]]) == ApplyAll(s2, t, [a[2], a[3]])
        == ApplyAll(s3, t, [a[3]]) == ApplyAll(s4, t, []);
  }

  /** d1 is created and expires. */
  lemma ExpiredRequest(d1: Record) returns (run: seq<Event>)
    requires d1 == Record("d1", "u", 0, "")
    ensures Legal(run, false) && After(run).threads == map[0 := Idle]
    ensures After(run).store == Store(map["d1" := d1], map["u" := "d1"], 1, map["d1" := d1], {})
  {
    var created := Steps(0, [StartCreate(d1), Kv(Ok), Kv(Ok)]);
    ExtendBy([], 0, [StartCreate(d1), Kv(Ok), Kv(Ok)]);
    CreatePhase(INITIAL, 0, d1);
    assert [] + created == created;
    Extend(created, Tick(1));
    run := created + [Tick(1)];
  }

  /** A cleanup reads d1. */
  lemma SweepHasRead(d1: Record) returns (run: seq<Event>)
    requires d1 == Record("d1", "u", 0, "")
    ensures Legal(run, false)
    ensures After(run).store.records == map["d1" := d1] && After(run).store.index == map["u" := "d1"]
    ensures After(run).threads == map[0 := Idle, 1 := SweepRecordIndex(1, "d1", "u", [])]
    ensures After(run).store.issued == map["d1" := d1] && After(run).store.deleting == {} && After(run).store.clock == 1
  {
    var run2 := ExpiredRequest(d1);
    Extend(run2, Step(1, StartSweep(["d1"])));
    var run3 := run2 + [Step(1, StartSweep(["d1"]))];
    assert After(run3).threads == map[0 := Idle, 1 := SweepRecords(1, ["d1"])];
    Extend(run3, Step(1, Kv(Ok)));
    run := run3 + [Step(1, Kv(Ok))];
    assert ["d1"][1..] == [];
  }

  /** d1 is deleted, and d2 is created with its user code. */
  lemma CodeIsReused(before: seq<Event>, d2: Record) returns (run: seq<Event>)
    requires Legal(before, false) && d2 == Record("d2", "u", 9, "")
    requires var s := After(before);
             && s.store.records.Keys == {"d1"} && s.store.records["d1"].userCode == "u" && s.store.index.Keys == {"u"}
             && s.Pc(0) == Idle && "d2" !in s.store.issued && "d2" !in s.store.deleting
    ensures Legal(run, false)
    ensures After(run).Pc(1) == After(before).Pc(1) && After(run).store.clock == After(before).store.clock
    ensures After(run).store.index == map["u" := "d2"] && After(run).store.records == map["d2" := d2]
    ensures After(run).store.issued == After(before).store.issued["d2" := d2] && "d2" !in After(run).store.deleting
  {
    var middle := before + Steps(0, [StartDelete("d1"), Kv(Ok), Kv(Ok), Kv(Ok)]);
    ExtendBy(before, 0, [StartDelete("d1"), Kv(Ok), Kv(Ok), Kv(Ok)]);
    DeletePhase(After(before), 0, "d1");
    assert After(middle).store.records == map[] && After(middle).store.index == map[];
    run := middle + Steps(0, [StartCreate(d2), Kv(Ok), Kv(Ok)]);
    ExtendBy(middle, 0, [StartCreate(d2), Kv(Ok), Kv(Ok)]);
    CreatePhase(After(middle), 0, d2);
  }

  /** With a user code in use twice a cleanup can remove the entry of the live request, and
      no operation need fail: it has read the expired d1, which is then deleted, and its
      user code goes to d2, before the cleanup deletes what it takes for d1's entry. */
  lemma LiveEntryCanBeLost() returns (run: seq<Event>, ev: Event)
    ensures Legal(run + [ev], false) && ev.Step? && Sweeping(After(run).Pc(ev.t))
    ensures var s, s' := After(run).store, Apply(After(run), ev).store;
            && "u" in s.index && s.index["u"] == "d2" && !Gone(s, "d2") && "d2" in s'.records
            && "u" !in s'.index
  {
    var d1, d2 := Record("d1", "u", 0, ""), Record("d2", "u", 9, "");
    var before := SweepHasRead(d1);
    run := CodeIsReused(before, d2);
    ev := Step(1, Kv(Ok));
    Extend(run, ev);
  }
}

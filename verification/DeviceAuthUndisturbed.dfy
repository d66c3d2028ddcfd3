/** What the device-authorization methods of the Vault store achieve when nothing fails and
    nobody interferes (internal/database/vault.go). */
module DeviceAuthUndisturbed {
  import opened Prelude
  import opened VaultKV
  import opened DeviceAuthVault

  /** The KV operations a method has left at most. It pauses with a record in hand, and
      for the second listing of a cleanup. */
  function Left(op: Op): nat {
    match op
    case Idle => 0
    case CreateRecord(_) => 3
    case CreateIndex(_) => 2
    case RollBack(_) => 1
    case GetIndex(_) => 2
    case GetRecord(_, _) => 1
    case Got(_, _) => 0
    case UpdateRead(_) => 2
    case UpdateWrite(_) => 1
    case DeleteRead(_) => 3
    case DeleteIndex(_, _) => 2
    case DeleteRecord(_) => 1
    case SweepRecords(_, todo) => 3 * |todo| + 1
    case SweepRecordIndex(_, _, _, todo) => 3 * |todo| + 3
    case SweepRecordDelete(_, _, todo) => 3 * |todo| + 2
    case SweepListIndex => 0
    case SweepIndex(todo) => 3 * |todo| + 1
    case SweepPrimary(_, _, todo) => 3 * |todo| + 3
    case SweepDangling(_, _, todo) => 3 * |todo| + 2
  }

  /** Runs a method up to its next pause. */
  function Alone(s: Store, op: Op): (Store, Op)
    decreases Left(op)
  {
    if Left(op) == 0 then (s, op)
    else
      var (s', op') := KvStep(s, op, Ok);
      Alone(s', op')
  }

  lemma Once(s: Store, op: Op, s': Store, op': Op)
    requires Left(op) > 0 && KvStep(s, op, Ok) == (s', op')
    ensures Alone(s, op) == Alone(s', op')
    ensures Left(op') == 0 ==> Alone(s, op) == (s', op')
  {}

  // ----- Create, find, delete -----

  /** A create makes the authorization reachable by its user code. */
  lemma CreatedIsFound(s: Store, da: Record)
    requires da.deviceCode !in s.records && da.userCode !in s.index
    requires da.deviceCode != "" && s.clock <= da.expiresAt
    ensures var (s', op) := Alone(s, CreateRecord(da));
            && op == Idle
            && s' == s.(records := s.records[da.deviceCode := da], index := s.index[da.userCode := da.deviceCode])
            && Alone(s', GetIndex(da.userCode)) == (s', Got(Some(da.userCode), da))
  {
    var s1, s2 := s.PutRecord(da), s.PutRecord(da).PutIndex(da);
    Once(s, CreateRecord(da), s1, CreateIndex(da));
    Once(s1, CreateIndex(da), s2, Idle);
    Once(s2, GetIndex(da.userCode), s2, GetRecord(Some(da.userCode), da.deviceCode));
    Once(s2, GetRecord(Some(da.userCode), da.deviceCode), s2, Got(Some(da.userCode), da));
  }

  /** A create whose user code is taken leaves neither record nor index entry behind. */
  lemma CollisionIsRolledBack(s: Store, da: Record)
    requires da.deviceCode !in s.records && da.userCode in s.index
    ensures var (s', op) := Alone(s, CreateRecord(da));
            op == Idle && s'.records == s.records && s'.index == s.index && s'.clock == s.clock
  {
    var s1 := s.PutRecord(da);
    Once(s, CreateRecord(da), s1, CreateIndex(da));
    Once(s1, CreateIndex(da), s1.BeginDelete(da.deviceCode), RollBack(da));
    assert s1.records - {da.deviceCode} == s.records;
    Once(s1.BeginDelete(da.deviceCode), RollBack(da), s.BeginDelete(da.deviceCode), Idle);
  }

  /** A delete leaves neither the record nor an index entry that names it. */
  lemma DeletedIsGone(s: Store, dc: string)
    requires StoreAgrees(s) && dc in s.records && s.records[dc].userCode != ""
    ensures var (s', op) := Alone(s, DeleteRead(dc));
            && op == Idle && s'.records == s.records - {dc}
            && (forall uc :: uc in s'.index ==> s'.index[uc] != dc)
            && (forall uc :: uc in s.index && s.index[uc] != dc && uc != s.records[dc].userCode ==>
                  uc in s'.index && s'.index[uc] == s.index[uc])
  {
    var uc := s.records[dc].userCode;
    var s1 := s.DropIndex(uc, Ok);
    Once(s, DeleteRead(dc), s, DeleteIndex(dc, uc));
    Once(s, DeleteIndex(dc, uc), s1, DeleteRecord(dc));
    Once(s1, DeleteRecord(dc), s1.DropRecord(dc, Ok), Idle);
    assert forall u :: u in s.index ==> Belongs(s, u, s.index[u]);
  }

  /** A lookup by user code answers with the record that the index names, until it expires. */
  lemma FoundUntilExpiry(s: Store, uc: string)
    ensures Alone(s, GetIndex(uc)) ==
            (s, if uc in s.index && s.index[uc] != "" && s.index[uc] in s.records
                   && s.clock <= s.records[s.index[uc]].expiresAt
                then Got(Some(uc), s.records[s.index[uc]]) else Idle)
  {
    if uc in s.index && s.index[uc] != "" {
      var op := GetRecord(Some(uc), s.index[uc]);
      Once(s, GetIndex(uc), s, op);
      Once(s, op, s, KvStep(s, op, Ok).1);
    } else {
      Once(s, GetIndex(uc), s, Idle);
    }
  }

  /** An update puts the record in the place of the one there, and puts none where none is. */
  lemma UpdateTakesEffect(s: Store, da: Record)
    ensures Alone(s, UpdateRead(da)) ==
            (if da.deviceCode in s.records then s.(records := s.records[da.deviceCode := da]) else s, Idle)
  {
    if da.deviceCode in s.records {
      Once(s, UpdateRead(da), s, UpdateWrite(da));
      Once(s, UpdateWrite(da), s.PutRecord(da), Idle);
    } else {
      Once(s, UpdateRead(da), s, Idle);
    }
  }

  // ----- The cleanup -----

  predicate Expired(s: Store, now: int, dc: string) {
    dc in s.records && dc != "by-user-code" && s.records[dc].expiresAt < now
  }

  /** The user code belongs to a record that the first half removes. */
  ghost predicate CodeSwept(s: Store, now: int, todo: seq<string>, uc: string) {
    uc != "" && exists dc :: dc in todo && Expired(s, now, dc) && s.records[dc].userCode == uc
  }

  /** What the first half of a cleanup leaves. */
  ghost predicate RecordsSwept(s: Store, s': Store, now: int, todo: seq<string>) {
    && s'.records == (map dc | dc in s.records && !(dc in todo && Expired(s, now, dc)) :: s.records[dc])
    && s'.index == (map uc | uc in s.index && !CodeSwept(s, now, todo, uc) :: s.index[uc])
  }

  function WithoutRecord(s: Store, dc: string): Store
    requires dc in s.records
  {
    var s1 := if s.records[dc].userCode == "" then s else s.DropIndex(s.records[dc].userCode, Ok);
    s1.DropRecord(dc, Ok)
  }

  lemma SweepOne(s: Store, now: int, todo: seq<string>)
    requires todo != []
    ensures Alone(s, SweepRecords(now, todo)) ==
            Alone(if Expired(s, now, todo[0]) then WithoutRecord(s, todo[0]) else s, SweepRecords(now, todo[1..]))
  {
    var dc, rest := todo[0], todo[1..];
    if Expired(s, now, dc) {
      var uc := s.records[dc].userCode;
      if uc == "" {
        Once(s, SweepRecords(now, todo), s, SweepRecordDelete(now, dc, rest));
        Once(s, SweepRecordDelete(now, dc, rest), WithoutRecord(s, dc), SweepRecords(now, rest));
      } else {
        var s1 := s.DropIndex(uc, Ok);
        Once(s, SweepRecords(now, todo), s, SweepRecordIndex(now, dc, uc, rest));
        Once(s, SweepRecordIndex(now, dc, uc, rest), s1, SweepRecordDelete(now, dc, rest));
        Once(s1, SweepRecordDelete(now, dc, rest), WithoutRecord(s, dc), SweepRecords(now, rest));
      }
    } else {
      Once(s, SweepRecords(now, todo), s, SweepRecords(now, rest));
    }
  }

  lemma {:induction false} SweepsRecords(s: Store, now: int, todo: seq<string>)
    ensures Alone(s, SweepRecords(now, todo)).1 == SweepListIndex
    ensures RecordsSwept(s, Alone(s, SweepRecords(now, todo)).0, now, todo)
    decreases |todo|
  {
    if todo == [] {
      Once(s, SweepRecords(now, todo), s, SweepListIndex);
      NothingSwept(s, now);
    } else {
      hide RecordsSwept;
      hide KvStep;
      var dc, rest := todo[0], todo[1..];
      var s1 := if Expired(s, now, dc) then WithoutRecord(s, dc) else s;
      SweepOne(s, now, todo);
      assert todo == [dc] + rest;
      SweepsRecords(s1, now, rest);
      SweptFurther(s, Alone(s1, SweepRecords(now, rest)).0, now, dc, rest);
    }
  }

  lemma NothingSwept(s: Store, now: int)
    ensures RecordsSwept(s, s, now, [])
  {
    assert forall uc :: !CodeSwept(s, now, [], uc);
  }

  lemma SweptFurther(s: Store, s2: Store, now: int, dc: string, rest: seq<string>)
    requires RecordsSwept(if Expired(s, now, dc) then WithoutRecord(s, dc) else s, s2, now, rest)
    ensures RecordsSwept(s, s2, now, [dc] + rest)
  {
    hide CodeSwept;
    if Expired(s, now, dc) {
      CodesSweptFurther(s, now, dc, rest);
    } else {
      CodesSweptNoFurther(s, now, dc, rest);
    }
  }

  lemma CodesSweptNoFurther(s: Store, now: int, dc: string, rest: seq<string>)
    requires !Expired(s, now, dc)
    ensures forall uc :: CodeSwept(s, now, [dc] + rest, uc) <==> CodeSwept(s, now, rest, uc)
  {
    forall uc ensures CodeSwept(s, now, [dc] + rest, uc) <==> CodeSwept(s, now, rest, uc) {
      if other :| other in rest && Expired(s, now, other) && s.records[other].userCode == uc {
        assert other in [dc] + rest;
      }
    }
  }

  lemma CodesSweptFurther(s: Store, now: int, dc: string, rest: seq<string>)
    requires Expired(s, now, dc)
    ensures forall uc :: CodeSwept(s, now, [dc] + rest, uc) <==>
              (uc != "" && uc == s.records[dc].userCode) || CodeSwept(WithoutRecord(s, dc), now, rest, uc)
  {
    var s1 := WithoutRecord(s, dc);
    forall uc
      ensures CodeSwept(s, now, [dc] + rest, uc) <==>
              (uc != "" && uc == s.records[dc].userCode) || CodeSwept(s1, now, rest, uc)
    {
      if uc != "" && uc == s.records[dc].userCode {
        assert dc in [dc] + rest;
      } else if CodeSwept(s, now, [dc] + rest, uc) {
        var other :| other in [dc] + rest && Expired(s, now, other) && s.records[other].userCode == uc;
        assert other in rest && Expired(s1, now, other);
      }
      if CodeSwept(s1, now, rest, uc) {
        var other :| other in rest && Expired(s1, now, other) && s1.records[other].userCode == uc;
        assert other in [dc] + rest && Expired(s, now, other);
      }
    }
  }

  /** What the second half of a cleanup leaves. */
  function IndexSwept(s: Store, todo: seq<string>): map<string, string> {
    map uc | uc in s.index && (uc in todo ==> s.index[uc] in s.records) :: s.index[uc]
  }

  lemma SweepOneEntry(s: Store, todo: seq<string>)
    requires todo != [] && "" !in s.records
    ensures Alone(s, SweepIndex(todo)) ==
            Alone(if todo[0] in s.index && s.index[todo[0]] !in s.records then s.DropIndex(todo[0], Ok) else s,
                  SweepIndex(todo[1..]))
  {
    var uc, rest := todo[0], todo[1..];
    if uc in s.index {
      var dc := s.index[uc];
      if dc == "" {
        Once(s, SweepIndex(todo), s, SweepDangling(uc, "", rest));
      } else {
        Once(s, SweepIndex(todo), s, SweepPrimary(uc, dc, rest));
        Once(s, SweepPrimary(uc, dc, rest), s,
             if dc in s.records then SweepIndex(rest) else SweepDangling(uc, dc, rest));
      }
      Once(s, SweepDangling(uc, dc, rest), s.DropIndex(uc, Ok), SweepIndex(rest));
    } else {
      Once(s, SweepIndex(todo), s, SweepIndex(rest));
    }
  }

  lemma {:induction false} SweepsIndex(s: Store, todo: seq<string>)
    requires "" !in s.records
    ensures Alone(s, SweepIndex(todo)) == (s.(index := IndexSwept(s, todo)), Idle)
    decreases |todo|
  {
    if todo == [] {
      Once(s, SweepIndex(todo), s, Idle);
      assert IndexSwept(s, todo) == s.index;
    } else {
      var uc, rest := todo[0], todo[1..];
      var s1 := if uc in s.index && s.index[uc] !in s.records then s.DropIndex(uc, Ok) else s;
      SweepOneEntry(s, todo);
      SweepsIndex(s1, rest);
      assert todo == [uc] + rest;
      assert IndexSwept(s1, rest) == IndexSwept(s, todo);
    }
  }

  /** An undisturbed cleanup, given complete listings: exactly the expired records are
      gone, and of the index exactly the entries remain that name a record that is left and
      whose user code no expired record has, whatever earlier failures had left. */
  lemma CleanupIsExact(s: Store, keys: seq<string>, entries: seq<string>)
    requires "" !in s.records
    requires forall dc :: dc in s.records ==> dc in keys
    requires forall uc :: uc in s.index ==> uc in entries
    ensures var (s1, paused) := Alone(s, SweepRecords(s.clock, keys));
            var (s2, op) := Alone(s1, SweepIndex(entries));
            && paused == SweepListIndex && op == Idle
            && s2.records == (map dc | dc in s.records && !Expired(s, s.clock, dc) :: s.records[dc])
            && s2.index == (map uc | uc in s.index && s.index[uc] in s2.records && !CodeSwept(s, s.clock, keys, uc) ::
                              s.index[uc])
  {
    SweepsRecords(s, s.clock, keys);
    SweepsIndex(Alone(s, SweepRecords(s.clock, keys)).0, entries);
  }

  /** Where no user code is in use twice, those are the entries of the records left. */
  lemma CleanupKeepsLiveEntries(s: Store, keys: seq<string>, entries: seq<string>)
    requires StoreAgrees(s) && Unshared(s)
    requires forall dc :: dc in s.records ==> dc in keys
    requires forall uc :: uc in s.index ==> uc in entries
    ensures var s2 := Alone(Alone(s, SweepRecords(s.clock, keys)).0, SweepIndex(entries)).0;
            s2.index == (map uc | uc in s.index && s.index[uc] in s2.records :: s.index[uc])
  {
    CleanupIsExact(s, keys, entries);
    forall uc | uc in s.index && CodeSwept(s, s.clock, keys, uc) ensures Expired(s, s.clock, s.index[uc]) {
      var dc :| dc in keys && Expired(s, s.clock, dc) && s.records[dc].userCode == uc;
      assert Belongs(s, uc, s.index[uc]) && Genuine(s, s.records[dc]);
    }
  }

  /** Where one is, the cleanup can take away the entry of a record that is left, even when
      undisturbed: an expired record whose own entry is gone is enough. */
  lemma SharedCodeLosesEntry(live: Record, expired: Record, s: Store)
    requires live.deviceCode != expired.deviceCode && live.userCode == expired.userCode != ""
    requires live.deviceCode !in {"", INDEX_DIR} && expired.deviceCode !in {"", INDEX_DIR}
    requires expired.expiresAt < s.clock <= live.expiresAt
    requires s.records == map[live.deviceCode := live, expired.deviceCode := expired]
    requires s.index == map[live.userCode := live.deviceCode]
    ensures var s2 := Alone(Alone(s, SweepRecords(s.clock, [live.deviceCode, expired.deviceCode])).0,
                            SweepIndex([live.userCode])).0;
            live.deviceCode in s2.records && live.userCode !in s2.index
  {
    var keys := [live.deviceCode, expired.deviceCode];
    CleanupIsExact(s, keys, [live.userCode]);
    assert keys[1] == expired.deviceCode && Expired(s, s.clock, expired.deviceCode);
    assert CodeSwept(s, s.clock, keys, live.userCode);
  }
}

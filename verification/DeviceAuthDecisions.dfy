/** Whether a decision on a device authorization lasts (internal/database/vault.go,
    internal/auth/device.go). Handlers read an authorization, change it and write it back
    without a version check, so a poll that had read it as pending can undo an approval. */
module DeviceAuthDecisions {
  import opened Prelude
  import opened VaultKV
  import opened DeviceAuthVault

  /** Tells the contents of a decided authorization from those of a pending one. */
  type Judgement = string -> bool

  predicate Carries(op: Op, dc: string) {
    (op.CreateRecord? || op.Got? || op.UpdateRead? || op.UpdateWrite?) && op.da.deviceCode == dc
  }

  predicate Creates(op: Op, dc: string) {
    op.CreateRecord? && op.da.deviceCode == dc
  }

  /** The thread has the authorization in hand as it was before the decision. */
  predicate Stale(op: Op, dc: string, decided: Judgement) {
    (op.Got? || op.UpdateRead? || op.UpdateWrite?) && op.da.deviceCode == dc && !decided(op.da.body)
  }

  ghost predicate NobodyStale(s: State, dc: string, decided: Judgement) {
    forall t :: t in s.threads ==> !Stale(s.threads[t], dc, decided)
  }

  predicate Undecided(s: Store, dc: string, decided: Judgement) {
    dc in s.records && !decided(s.records[dc].body)
  }

  /** A handler that has read a decided authorization writes back none that is pending. */
  predicate Respects(s: State, ev: Event, dc: string, decided: Judgement) {
    ev.Step? && ev.a.UseUpdate? && s.Pc(ev.t).Got? && s.Pc(ev.t).da.deviceCode == dc ==>
      (decided(s.Pc(ev.t).da.body) ==> decided(ev.a.body))
  }

  ghost predicate AllRespect(run: seq<Event>, more: seq<Event>, dc: string, decided: Judgement) {
    forall k :: 0 <= k < |more| ==> Respects(After(run + more[..k]), more[k], dc, decided)
  }

  // ----- An authorization is created once -----

  ghost predicate CreatesAlone(s: State, dc: string) {
    forall t :: t in s.threads && Creates(s.threads[t], dc) ==>
      && dc !in s.store.records
      && forall u :: u in s.threads && u != t ==> !Carries(s.threads[u], dc)
  }

  lemma ActFromOutside(s: Store, op: Op, a: Action, dc: string)
    requires StoreAgrees(s) && dc !in s.records && !Carries(op, dc)
    requires a.StartCreate? ==> a.da.deviceCode != dc
    ensures var (s', op') := Act(s, op, a); dc !in s'.records && !Carries(op', dc)
  {}

  lemma ActOfCreator(s: Store, op: Op, a: Action, dc: string)
    requires Creates(op, dc)
    ensures !Creates(Act(s, op, a).1, dc) || Act(s, op, a) == (s, op)
  {}

  lemma ActCreates(s: Store, op: Op, a: Action, dc: string)
    requires Creates(Act(s, op, a).1, dc)
    ensures Creates(op, dc) || (a.StartCreate? && a.da.deviceCode == dc && Act(s, op, a).0.records == s.records)
  {}

  lemma StepCreatesAlone(s: State, ev: Event, dc: string)
    requires Agrees(s) && Enabled(s, ev, false) && CreatesAlone(s, dc)
    ensures CreatesAlone(Apply(s, ev), dc)
  {
    if ev.Step? {
      var s', op := Apply(s, ev), s.Pc(ev.t);
      forall t | t in s'.threads && Creates(s'.threads[t], dc)
        ensures dc !in s'.store.records && forall u :: u in s'.threads && u != t ==> !Carries(s'.threads[u], dc)
      {
        if t != ev.t {
          assert t in s.threads && !Carries(op, dc);
          assert Genuine(s.store, s.threads[t].da) by {
            assert OpAgrees(s.store, s.threads[t]);
          }
          ActFromOutside(s.store, op, ev.a, dc);
        } else if Creates(op, dc) {
          ActOfCreator(s.store, op, ev.a, dc);
        } else {
          ActCreates(s.store, op, ev.a, dc);
          forall u | u in s.threads ensures !Carries(s.threads[u], dc) {
            assert OpAgrees(s.store, s.threads[u]);
          }
        }
      }
    }
  }

  lemma {:induction false} RunCreatesAlone(run: seq<Event>, dc: string)
    requires Legal(run, false)
    ensures CreatesAlone(After(run), dc)
  {
    hide Apply;
    hide Enabled;
    hide Agrees;
    if run != [] {
      RunCreatesAlone(run[..|run| - 1], dc);
      RunAgrees(run[..|run| - 1]);
      StepCreatesAlone(After(run[..|run| - 1]), run[|run| - 1], dc);
    }
  }

  // ----- A decision stays -----

  /** The authorization is decided, if there, in the store and in every hand. */
  ghost predicate Settled(s: State, dc: string, decided: Judgement) {
    && dc in s.store.issued && !Undecided(s.store, dc, decided)
    && NobodyStale(s, dc, decided)
    && forall t :: t in s.threads ==> !Creates(s.threads[t], dc)
  }

  lemma ActSettled(s: Store, op: Op, a: Action, dc: string, decided: Judgement)
    requires StoreAgrees(s) && !Undecided(s, dc, decided) && !Stale(op, dc, decided) && !Creates(op, dc)
    requires a.StartCreate? ==> a.da.deviceCode != dc
    requires a.UseUpdate? && op.Got? && op.da.deviceCode == dc && decided(op.da.body) ==> decided(a.body)
    ensures var (s', op') := Act(s, op, a);
            !Undecided(s', dc, decided) && !Stale(op', dc, decided) && !Creates(op', dc)
  {}

  lemma StepSettled(s: State, ev: Event, dc: string, decided: Judgement)
    requires Agrees(s) && Enabled(s, ev, false) && Settled(s, dc, decided) && Respects(s, ev, dc, decided)
    ensures Settled(Apply(s, ev), dc, decided)
  {
    if ev.Step? {
      ActSettled(s.store, s.Pc(ev.t), ev.a, dc, decided);
      IssuedStays(s.store, s.Pc(ev.t), ev.a, dc);
      hide Act;
    }
  }

  lemma IssuedStays(s: Store, op: Op, a: Action, dc: string)
    requires dc in s.issued
    ensures dc in Act(s, op, a).0.issued
  {}

  lemma {:induction false} StaysSettled(run: seq<Event>, more: seq<Event>, dc: string, decided: Judgement)
    requires Legal(run + more, false) && Settled(After(run), dc, decided) && AllRespect(run, more, dc, decided)
    ensures Settled(After(run + more), dc, decided)
    decreases |more|
  {
    hide Apply;
    hide Enabled;
    hide Settled;
    hide Agrees;
    hide Respects;
    if more == [] {
      assert run + more == run;
    } else {
      var before, ev := more[..|more| - 1], more[|more| - 1];
      assert (run + more)[..|run + more| - 1] == run + before && (run + more)[|run + more| - 1] == ev;
      assert forall k :: 0 <= k < |before| ==> before[k] == more[k] && before[..k] == more[..k];
      StaysSettled(run, before, dc, decided);
      RunAgrees(run + before);
      StepSettled(After(run + before), ev, dc, decided);
    }
  }

  lemma IsSettled(run: seq<Event>, dc: string, decided: Judgement)
    requires Legal(run, false) && dc in After(run).store.records && !Undecided(After(run).store, dc, decided)
    requires NobodyStale(After(run), dc, decided)
    ensures Settled(After(run), dc, decided)
  {
    RunAgrees(run);
    RunCreatesAlone(run, dc);
    assert Genuine(After(run).store, After(run).store.records[dc]);
  }

  // ----- A decision undone -----

  /** What a thread with a stale copy may do next, up to the write. */
  function Undoing(op: Op): seq<Action> {
    match op
    case Got(_, da) => [UseUpdate(da.body), Kv(Ok), Kv(Ok)]
    case UpdateRead(_) => [Kv(Ok), Kv(Ok)]
    case _ => [Kv(Ok)]
  }

  lemma UndoneByOne(s: State, t: Thread, dc: string, decided: Judgement)
    requires t in s.threads && Stale(s.threads[t], dc, decided) && dc in s.store.records
    ensures var s' := Apply(s, Step(t, Undoing(s.threads[t])[0]));
            if s.threads[t].UpdateWrite? then Undecided(s'.store, dc, decided)
            else
              && t in s'.threads && Stale(s'.threads[t], dc, decided) && dc in s'.store.records
              && Undoing(s'.threads[t]) == Undoing(s.threads[t])[1..]
    ensures Respects(s, Step(t, Undoing(s.threads[t])[0]), dc, decided)
  {}

  lemma {:induction false} CanBeUndone(run: seq<Event>, t: Thread, dc: string, decided: Judgement)
      returns (more: seq<Event>)
    requires Legal(run, false) && t in After(run).threads && Stale(After(run).threads[t], dc, decided)
    requires dc in After(run).store.records
    ensures Legal(run + more, false) && AllRespect(run, more, dc, decided)
    ensures Undecided(After(run + more).store, dc, decided)
    decreases |Undoing(After(run).threads[t])|
  {
    hide Apply;
    hide Respects;
    hide Stale;
    hide Undecided;
    var s, ev := After(run), Step(t, Undoing(After(run).threads[t])[0]);
    UndoneByOne(s, t, dc, decided);
    Extend(run, ev);
    hide Legal;
    hide AllRespect;
    var rest := [];
    assert run + [ev] + rest == run + [ev];
    if s.threads[t].UpdateWrite? {
      NothingToRespect(run + [ev], dc, decided);
    } else {
      rest := CanBeUndone(run + [ev], t, dc, decided);
    }
    more := [ev] + rest;
    RespectMore(run, ev, rest, dc, decided);
  }

  lemma NothingToRespect(run: seq<Event>, dc: string, decided: Judgement)
    ensures AllRespect(run, [], dc, decided)
  {}

  lemma RespectMore(run: seq<Event>, ev: Event, rest: seq<Event>, dc: string, decided: Judgement)
    requires Respects(After(run), ev, dc, decided) && AllRespect(run + [ev], rest, dc, decided)
    ensures run + ([ev] + rest) == run + [ev] + rest
    ensures AllRespect(run, [ev] + rest, dc, decided)
  {
    hide Respects;
    hide After;
    var more := [ev] + rest;
    forall k | 0 <= k < |more| ensures Respects(After(run + more[..k]), more[k], dc, decided) {
      if k == 0 {
        assert run + more[..k] == run;
      } else {
        assert run + more[..k] == run + [ev] + rest[..k - 1];
      }
    }
  }

  /** A decided authorization stays decided, whatever happens, if and only if no handler has it
      in hand as it was before the decision. */
  lemma DecisionHolds(run: seq<Event>, dc: string, decided: Judgement)
    requires Legal(run, false) && dc in After(run).store.records && !Undecided(After(run).store, dc, decided)
    ensures NobodyStale(After(run), dc, decided) <==>
            forall more :: Legal(run + more, false) && AllRespect(run, more, dc, decided) ==>
              !Undecided(After(run + more).store, dc, decided)
  {
    if NobodyStale(After(run), dc, decided) {
      IsSettled(run, dc, decided);
      forall more | Legal(run + more, false) && AllRespect(run, more, dc, decided)
        ensures !Undecided(After(run + more).store, dc, decided)
      {
        StaysSettled(run, more, dc, decided);
      }
    } else {
      var t :| t in After(run).threads && Stale(After(run).threads[t], dc, decided);
      var more := CanBeUndone(run, t, dc, decided);
    }
  }
}

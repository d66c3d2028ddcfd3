/** Switching the default app in Vault (internal/database/vault.go): set the new default,
    then clear the others, one KV write at a time and with any of them failing. */
module DefaultAppVault {
  import opened Prelude
  import opened VaultKV

  /** `rest` stands for the fields the switch does not look at. */
  datatype App = App(id: string, isDefault: bool, updatedAt: int, rest: string)

  type Apps = map<string, App>

  predicate Keyed(apps: Apps) {
    forall id :: id in apps ==> apps[id].id == id
  }

  predicate IsDefault(apps: Apps, id: string) {
    id in apps && apps[id].isDefault
  }

  predicate HasDefault(apps: Apps) {
    exists id :: id in apps && apps[id].isDefault
  }

  /** The transaction of the SQL stores (internal/database/sqlite.go). */
  function SqlSetDefault(apps: Apps, target: string, now: int): Apps {
    map id | id in apps ::
      if id == target then apps[id].(isDefault := true, updatedAt := now)
      else if apps[id].isDefault then apps[id].(isDefault := false, updatedAt := now)
      else apps[id]
  }

  lemma SqlLeavesOneDefault(apps: Apps, target: string, now: int)
    requires target in apps
    ensures forall id :: IsDefault(SqlSetDefault(apps, target, now), id) <==> id == target
    // The target and the former defaults are marked as updated, and nothing else changes.
    ensures SqlSetDefault(apps, target, now).Keys == apps.Keys
    ensures forall id :: id in apps ==>
              var before, after := apps[id], SqlSetDefault(apps, target, now)[id];
              && after.id == before.id && after.rest == before.rest
              && after.updatedAt == if id == target || before.isDefault then now else before.updatedAt
  {}

  /** Somewhere between `apps0` and the result of the transaction: the target is done, and
      every other app is untouched or done. */
  predicate Between(apps0: Apps, apps: Apps, target: string, now: int)
    requires target in apps0
  {
    && apps.Keys == apps0.Keys
    && apps[target] == SqlSetDefault(apps0, target, now)[target]
    && forall id :: id in apps0 ==> apps[id] == apps0[id] || apps[id] == SqlSetDefault(apps0, target, now)[id]
  }

  /** A state passed through in the course of the switch. */
  predicate Passed(apps0: Apps, apps: Apps, target: string, now: int)
    requires target in apps0
  {
    apps == apps0 || Between(apps0, apps, target, now)
  }

  /** No state passed through lacks a default if there was one before; once the target is
      set it is a default throughout, and no other app ever becomes one. */
  lemma PassedHasDefault(apps0: Apps, apps: Apps, target: string, now: int)
    requires target in apps0 && Passed(apps0, apps, target, now)
    ensures HasDefault(apps0) ==> HasDefault(apps)
    ensures Between(apps0, apps, target, now) ==> IsDefault(apps, target)
    ensures forall id :: IsDefault(apps, id) ==> id == target || IsDefault(apps0, id)
  {
    assert Between(apps0, apps, target, now) ==> IsDefault(apps, target);
  }

  /** The clearing loop before round `i`: the apps still to come are as they were
      listed, the others are done. */
  ghost predicate Clearing(apps0: Apps, apps: Apps, target: string, now: int, all: seq<App>, i: nat)
    requires target in apps0
  {
    && Between(apps0, apps, target, now)
    && (forall j :: i <= j < |all| ==> all[j].id in apps && apps[all[j].id] == all[j])
    && (forall j, k :: 0 <= j < k < |all| ==> all[j].id != all[k].id)
    && (forall j :: 0 <= j < i && j < |all| ==>
          all[j].id in apps && apps[all[j].id] == SqlSetDefault(apps0, target, now)[all[j].id])
  }

  function Cleared(app: App, now: int): App {
    app.(isDefault := false, updatedAt := now)
  }

  lemma ClearOne(apps0: Apps, apps: Apps, target: string, now: int, all: seq<App>, i: nat)
    requires target in apps0 && Keyed(apps0) && i < |all| && Clearing(apps0, apps, target, now, all, i)
    ensures all[i].id == target || !all[i].isDefault ==> Clearing(apps0, apps, target, now, all, i + 1)
    ensures all[i].id != target && all[i].isDefault ==>
              Clearing(apps0, apps[all[i].id := Cleared(all[i], now)], target, now, all, i + 1)
  {}

  class AppStore {
    var apps: Apps
    var faults: Script
    /** Every state the store went through, the present one last. */
    ghost var history: seq<Apps>

    ghost predicate Valid()
      reads this
    {
      Keyed(apps) && history != [] && history[|history| - 1] == apps
    }

    constructor ()
      ensures Valid() && apps == map[] && faults == []
    {
      apps, faults, history := map[], [], [map[]];
    }

    method NextFault() returns (f: Fault)
      modifies this`faults
      ensures NoFaults(old(faults)) ==> f == Ok && NoFaults(faults)
    {
      if faults == [] {
        f := Ok;
      } else {
        f, faults := faults[0], faults[1..];
      }
    }

    method WriteApp(app: App) returns (ok: bool)
      requires Valid()
      modifies this
      ensures Valid()
      ensures apps == old(apps)[app.id := app] || (apps == old(apps) && !ok)
      ensures history == old(history) + [apps]
      ensures NoFaults(old(faults)) ==> ok && NoFaults(faults)
    {
      var f := NextFault();
      if f != Failed {
        apps := apps[app.id := app];
      }
      history := history + [apps];
      ok := f == Ok;
    }

    method GetAppByID(id: string) returns (ok: bool, app: Option<App>)
      modifies this`faults
      ensures ok ==> app == if id in apps then Some(apps[id]) else None
      ensures NoFaults(old(faults)) ==> ok && NoFaults(faults)
    {
      var f := NextFault();
      if f != Ok {
        return false, None;
      }
      return true, if id in apps then Some(apps[id]) else None;
    }

    /** The apps in whatever order Vault lists them. */
    method ListApps() returns (ok: bool, all: seq<App>)
      requires Keyed(apps)
      modifies this`faults
      ensures ok ==> forall i :: 0 <= i < |all| ==> all[i].id in apps && apps[all[i].id] == all[i]
      ensures ok ==> forall i, j :: 0 <= i < j < |all| ==> all[i].id != all[j].id
      ensures ok ==> forall id :: id in apps ==> apps[id] in all
      ensures NoFaults(old(faults)) ==> ok && NoFaults(faults)
    {
      all := [];
      var f := NextFault();
      if f != Ok {
        return false, [];
      }
      var rest := apps.Keys;
      while rest != {}
        invariant rest <= apps.Keys
        invariant forall i :: 0 <= i < |all| ==> all[i].id in apps && all[i].id !in rest && apps[all[i].id] == all[i]
        invariant forall i, j :: 0 <= i < j < |all| ==> all[i].id != all[j].id
        invariant forall id :: id in apps && id !in rest ==> apps[id] in all
        invariant NoFaults(old(faults)) ==> NoFaults(faults)
      {
        var id :| id in rest;
        var read, app := GetAppByID(id);
        if !read {
          return false, [];
        }
        all := all + [app.value];
        rest := rest - {id};
      }
      ok := true;
    }

    method GetDefaultApp() returns (ok: bool, app: Option<App>)
      requires Keyed(apps)
      modifies this`faults
      ensures app.Some? ==> IsDefault(apps, app.value.id) && apps[app.value.id] == app.value
      ensures ok && app.None? ==> !HasDefault(apps)
      ensures NoFaults(old(faults)) ==> ok && (app.Some? <==> HasDefault(apps))
    {
      var all;
      ok, all := ListApps();
      if !ok {
        return false, None;
      }
      for i := 0 to |all|
        invariant forall j :: 0 <= j < i ==> !all[j].isDefault
      {
        if all[i].isDefault {
          return true, Some(all[i]);
        }
      }
      return true, None;
    }

    method SetDefaultApp(target: string, now: int) returns (ok: bool)
      requires Valid()
      modifies this
      ensures Valid()
      ensures target !in old(apps) ==> !ok && apps == old(apps) && history == old(history)
      // Every state passed through is the one before the first effective write, or has
      // the target as a default.
      ensures old(history) <= history
      ensures target in old(apps) ==>
                forall i :: |old(history)| <= i < |history| ==> Passed(old(apps), history[i], target, now)
      // After the first write was reported as done, the target is a default whatever fails.
      ensures |history| > |old(history)| + 1 ==> target in old(apps) && Between(old(apps), apps, target, now)
      ensures ok ==> target in old(apps) && apps == SqlSetDefault(old(apps), target, now)
      ensures NoFaults(old(faults)) && target in old(apps) ==> ok
    {
      var read, t := GetAppByID(target);
      if !read || t.None? {
        return false;
      }
      ok := WriteApp(t.value.(isDefault := true, updatedAt := now));
      if !ok {
        return;
      }
      assert Between(old(apps), apps, target, now);
      var all;
      ok, all := ListApps();
      if !ok {
        return;
      }
      ok := ClearOthers(target, now, all, old(apps));
    }

    /** The second half of the switch: clears the default flag of all other apps. */
    method ClearOthers(target: string, now: int, all: seq<App>, ghost apps0: Apps) returns (ok: bool)
      requires Valid() && Keyed(apps0) && target in apps0
      requires Clearing(apps0, apps, target, now, all, 0)
      modifies this
      ensures Valid() && Between(apps0, apps, target, now)
      ensures old(history) <= history
      ensures forall k :: |old(history)| <= k < |history| ==> Between(apps0, history[k], target, now)
      ensures ok ==> Clearing(apps0, apps, target, now, all, |all|)
      ensures NoFaults(old(faults)) ==> ok
    {
      ok := true;
      for i := 0 to |all|
        invariant Valid() && ok
        invariant Clearing(apps0, apps, target, now, all, i)
        invariant old(history) <= history
        invariant forall k :: |old(history)| <= k < |history| ==> Between(apps0, history[k], target, now)
        invariant NoFaults(old(faults)) ==> NoFaults(faults)
      {
        ClearOne(apps0, apps, target, now, all, i);
        if all[i].id != target && all[i].isDefault {
          ok := WriteApp(Cleared(all[i], now));
          if !ok {
            return;
          }
        }
      }
    }
  }
}

/** The commands of one git-upload-pack request (internal/gitcache/handler.go): listing the
    refs asks the upstream and so verifies access, and cached fetches are to be served only
    after that. */
module UploadPack {
  import opened Prelude

  datatype Command = LsRefs | Fetch | Other

  /** How listing the refs ends. */
  datatype LsRefsOutcome = Accepted | Rejected | Broken

  datatype CacheState = StateHit | StateMiss | StateRejected | StateError

  /** How a fetch ends: its cache state, and whether without an error. */
  datatype FetchOutcome = FetchOutcome(state: CacheState, ok: bool)

  /** What is asked of a request, and how each command would end if it were run. */
  datatype Batch = Batch(commands: seq<Command>, lsRefs: seq<LsRefsOutcome>, fetches: seq<FetchOutcome>)
  {
    predicate Valid() {
      |commands| == |lsRefs| == |fetches|
    }

    ghost predicate ListsRefs() {
      LsRefs in commands
    }

    /** A fetch that comes before every listing of a request that has one. */
    ghost predicate Premature(i: nat)
      requires i < |commands|
    {
      commands[i].Fetch? && ListsRefs() && LsRefs !in commands[..i]
    }

    /** `state` is how the last fetch among the first n commands ended. */
    ghost predicate LastFetch(n: nat, state: Option<CacheState>)
      requires Valid() && n <= |commands|
    {
      match state
      case None => Fetch !in commands[..n]
      case Some(c) =>
        exists i :: 0 <= i < n && commands[i] == Fetch && fetches[i].state == c && Fetch !in commands[i + 1..n]
    }

    /** The request ends with this command, if it gets that far. */
    ghost predicate EndsAt(i: nat)
      requires Valid() && i < |commands|
    {
      match commands[i]
      case LsRefs => lsRefs[i] != Accepted
      case Fetch => Premature(i) || !fetches[i].ok
      case Other => false
    }
  }

  /** `listed` and `fetched` are the commands that were run, by position, and `handled` is
      how many commands were looked at. */
  method ServeUploadPack(batch: Batch)
      returns (listed: set<nat>, fetched: set<nat>, state: Option<CacheState>, handled: nat)
    requires batch.Valid()
    // The request is handled up to the first command that ends it: a listing that is not
    // accepted, a fetch that fails, or a fetch that comes before every listing of a request
    // that has one.
    ensures handled <= |batch.commands|
    ensures forall i :: 0 <= i < handled - 1 ==>
              && (batch.commands[i].LsRefs? ==> batch.lsRefs[i] == Accepted)
              && (batch.commands[i].Fetch? ==>
                    batch.fetches[i].ok && (LsRefs in batch.commands ==> LsRefs in batch.commands[..i]))
    ensures handled < |batch.commands| ==>
              && handled > 0
              && var last := handled - 1;
                 || (batch.commands[last].LsRefs? && batch.lsRefs[last] != Accepted)
                 || (batch.commands[last].Fetch?
                     && (!batch.fetches[last].ok || (LsRefs in batch.commands && LsRefs !in batch.commands[..last])))
    // Of the commands handled, all are run, except for a premature fetch.
    ensures listed == set i | 0 <= i < handled && batch.commands[i].LsRefs?
    ensures fetched == set i | 0 <= i < handled && batch.commands[i].Fetch?
                               && (LsRefs in batch.commands ==> LsRefs in batch.commands[..i])
    // The gate: where refs are listed at all, a fetch is preceded by an accepted listing,
    // and by none that failed.
    ensures forall i :: i in fetched && batch.ListsRefs() ==>
              exists j :: j in listed && j < i && batch.lsRefs[j] == Accepted
    ensures forall i, j :: i in fetched && j in listed && j < i ==> batch.lsRefs[j] == Accepted
    // A request that ended early says why.
    ensures handled > 0 && batch.EndsAt(handled - 1) ==>
              state == Some(match batch.commands[handled - 1]
                            case LsRefs => if batch.lsRefs[handled - 1].Rejected? then StateRejected else StateError
                            case _ => if batch.Premature(handled - 1) then StateRejected
                                      else batch.fetches[handled - 1].state)
    // One that did not is told of its last fetch, if it has one.
    ensures handled == 0 || !batch.EndsAt(handled - 1) ==> batch.LastFetch(handled, state)
  {
    var hasLsRefs := HasLsRefs(batch.commands);
    listed, fetched, state, handled := {}, {}, None, 0;
    var lsRefsSucceeded := false;
    while handled < |batch.commands|
      invariant 0 <= handled <= |batch.commands|
      invariant handled > 0 ==> !batch.EndsAt(handled - 1)
      invariant forall i :: 0 <= i < handled ==>
                  && (batch.commands[i].LsRefs? ==> batch.lsRefs[i] == Accepted)
                  && (batch.commands[i].Fetch? ==>
                        batch.fetches[i].ok && (LsRefs in batch.commands ==> LsRefs in batch.commands[..i]))
      invariant listed == set i | 0 <= i < handled && batch.commands[i].LsRefs?
      invariant fetched == set i | 0 <= i < handled && batch.commands[i].Fetch? && !batch.Premature(i)
      invariant batch.LastFetch(handled, state)
      invariant lsRefsSucceeded <==> LsRefs in batch.commands[..handled]
      invariant forall j :: j in listed ==> batch.lsRefs[j] == Accepted
      invariant forall i :: i in fetched && batch.ListsRefs() ==>
                  exists j :: j in listed && j < i && batch.lsRefs[j] == Accepted
    {
      var i := handled;
      handled := handled + 1;
      assert batch.commands[..handled] == batch.commands[..i] + [batch.commands[i]];
      match batch.commands[i]
      case LsRefs =>
        listed := listed + {i};
        if batch.lsRefs[i] != Accepted {
          state := Some(if batch.lsRefs[i].Rejected? then StateRejected else StateError);
          return;
        }
        lsRefsSucceeded := true;
      case Fetch =>
        if hasLsRefs && !lsRefsSucceeded {
          state := Some(StateRejected);
          return;
        }
        if batch.ListsRefs() {
          var j :| 0 <= j < i && batch.commands[..i][j] == LsRefs;
          assert j in listed;
        }
        fetched := fetched + {i};
        state := Some(batch.fetches[i].state);
        if !batch.fetches[i].ok {
          return;
        }
      case Other =>
    }
  }

  method HasLsRefs(commands: seq<Command>) returns (has: bool)
    ensures has <==> LsRefs in commands
  {
    has := false;
    for i := 0 to |commands|
      invariant !has && LsRefs !in commands[..i]
    {
      if commands[i].LsRefs? {
        return true;
      }
    }
  }
}

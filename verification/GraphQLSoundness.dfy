/** The analyser against the unfolding: what it records is what the unfolding holds. */
module GraphQLSoundness {
  import opened Prelude
  import opened GraphQLAst
  import opened GraphQLAnalyzer
  import opened GraphQLVisits

  // ----- The depth cap only ever rejects -----

  /** A walk that stays above the cap records exactly what the uncapped walk records. */
  lemma {:induction false} CapIsTransparent(t: Tables, frags: Fragments, sels: seq<Selection>, stack: set<string>,
                                            inMutation: bool, atRoot: bool, depth: nat)
    requires TooDeep !in Walk(t, frags, sels, stack, inMutation, atRoot, depth)
    ensures Walk(t, frags, sels, stack, inMutation, atRoot, depth)
         == WalkUncapped(t, frags, sels, stack, inMutation, atRoot)
    decreases if depth <= MAX_ANALYSIS_DEPTH then MAX_ANALYSIS_DEPTH + 1 - depth else 0, sels
  {
    hide NodeFindings;
    if sels != [] {
      WalkSplits(t, frags, sels, stack, inMutation, atRoot, depth);
      CapIsTransparent(t, frags, sels[1..], stack, inMutation, atRoot, depth);
      match sels[0]
      case Field(_, _, children) =>
        if children != [] {
          CapIsTransparent(t, frags, children, stack, false, false, depth + 1);
        }
      case InlineFragment(children) =>
        CapIsTransparent(t, frags, children, stack, inMutation, atRoot, depth + 1);
      case FragmentSpread(name) =>
        if name !in stack && name in frags {
          CapIsTransparent(t, frags, frags[name], stack + {name}, inMutation, atRoot, depth + 1);
        }
    }
  }

  lemma WalkSplits(t: Tables, frags: Fragments, sels: seq<Selection>, stack: set<string>,
                   inMutation: bool, atRoot: bool, depth: nat)
    requires sels != [] && TooDeep !in Walk(t, frags, sels, stack, inMutation, atRoot, depth)
    ensures depth <= MAX_ANALYSIS_DEPTH
    ensures Walk(t, frags, sels, stack, inMutation, atRoot, depth) ==
            NodeFindings(t, frags, Node(sels[0], inMutation, atRoot))
            + WalkBelow(t, frags, sels[0], stack, inMutation, atRoot, depth)
            + Walk(t, frags, sels[1..], stack, inMutation, atRoot, depth)
  {}

  // ----- The findings are those of the nodes visited -----

  ghost predicate FoundIn(t: Tables, frags: Fragments, v: set<Node>, x: Finding) {
    exists n :: n in v && x in NodeFindings(t, frags, n)
  }

  lemma {:induction false} WalkOfVisited(t: Tables, frags: Fragments, sels: seq<Selection>, stack: set<string>,
                                         inMutation: bool, atRoot: bool, x: Finding)
    ensures x in WalkUncapped(t, frags, sels, stack, inMutation, atRoot) <==>
            FoundIn(t, frags, Visited(frags, sels, stack, inMutation, atRoot), x)
    decreases frags.Keys - stack, sels
  {
    if sels != [] {
      WalkOfVisited(t, frags, sels[1..], stack, inMutation, atRoot, x);
      match sels[0]
      case Field(_, _, children) => WalkOfVisited(t, frags, children, stack, false, false, x);
      case InlineFragment(children) => WalkOfVisited(t, frags, children, stack, inMutation, atRoot, x);
      case FragmentSpread(name) =>
        if name !in stack && name in frags {
          WalkOfVisited(t, frags, frags[name], stack + {name}, inMutation, atRoot, x);
        }
    }
  }

  lemma FoundAtNode(t: Tables, frags: Fragments, sels: seq<Selection>, inMutation: bool, atRoot: bool, x: Finding)
    ensures Found(t, frags, sels, inMutation, atRoot, x) <==>
            exists n :: Unfolds(frags, sels, inMutation, atRoot, n) && x in NodeFindings(t, frags, n)
  {
    if path: seq<nat> :| FoundAt(t, frags, sels, inMutation, atRoot, path, x) {
      assert Unfolds(frags, sels, inMutation, atRoot, NodeAt(frags, sels, inMutation, atRoot, path).value);
    }
    if n :| Unfolds(frags, sels, inMutation, atRoot, n) && x in NodeFindings(t, frags, n) {
      var path: seq<nat> :| NodeAt(frags, sels, inMutation, atRoot, path) == Some(n);
      assert FoundAt(t, frags, sels, inMutation, atRoot, path, x);
    }
  }

  /** Nothing is recorded that the unfolding does not hold. */
  lemma WalkIsPrecise(t: Tables, frags: Fragments, sels: seq<Selection>, stack: set<string>,
                      inMutation: bool, atRoot: bool, x: Finding)
    requires x in WalkUncapped(t, frags, sels, stack, inMutation, atRoot)
    ensures Found(t, frags, sels, inMutation, atRoot, x)
  {
    WalkOfVisited(t, frags, sels, stack, inMutation, atRoot, x);
    var n :| n in Visited(frags, sels, stack, inMutation, atRoot) && x in NodeFindings(t, frags, n);
    VisitedUnfolds(frags, sels, stack, inMutation, atRoot, n);
    FoundAtNode(t, frags, sels, inMutation, atRoot, x);
  }

  lemma RootFindsMore(t: Tables, frags: Fragments, sel: Selection, atRoot: bool)
    ensures NodeFindings(t, frags, Node(sel, false, atRoot)) <= NodeFindings(t, frags, Node(sel, false, true))
  {}

  /** On any fragment table, cyclic ones included, the walk of a query finds exactly
      what the unfolding holds: a root context finds at least what a nested one does. */
  lemma QueryWalkIsExact(t: Tables, frags: Fragments, sels: seq<Selection>, x: Finding)
    ensures x in WalkUncapped(t, frags, sels, {}, false, true) <==> Found(t, frags, sels, false, true, x)
  {
    var v := Visited(frags, sels, {}, false, true);
    if x in WalkUncapped(t, frags, sels, {}, false, true) {
      WalkIsPrecise(t, frags, sels, {}, false, true, x);
    }
    WalkOfVisited(t, frags, sels, {}, false, true, x);
    FoundAtNode(t, frags, sels, false, true, x);
    if n :| Unfolds(frags, sels, false, true, n) && x in NodeFindings(t, frags, n) {
      EverythingIsSeen(frags, sels, false, n);
      RootFindsMore(t, frags, n.sel, n.atRoot);
      assert n in v || Node(n.sel, false, true) in v;
    }
  }

  lemma AcyclicWalkIsExact(t: Tables, frags: Fragments, sels: seq<Selection>, inMutation: bool, x: Finding)
    requires Acyclic(frags)
    ensures x in WalkUncapped(t, frags, sels, {}, inMutation, true) <==> Found(t, frags, sels, inMutation, true, x)
  {
    if x in WalkUncapped(t, frags, sels, {}, inMutation, true) {
      WalkIsPrecise(t, frags, sels, {}, inMutation, true, x);
    }
    WalkOfVisited(t, frags, sels, {}, inMutation, true, x);
    FoundAtNode(t, frags, sels, inMutation, true, x);
    if n :| Unfolds(frags, sels, inMutation, true, n) && x in NodeFindings(t, frags, n) {
      AcyclicVisitsAll(frags, sels, inMutation, n);
    }
  }

  // ----- Mutations on any table -----

  /** What a selection finds wherever it stands. */
  function PlainFindings(t: Tables, frags: Fragments, sel: Selection): set<Finding> {
    match sel
    case Field(name, args, _) => RepositoryFinding(name, args) + CrossRepoFinding(t, name, false)
    case InlineFragment(_) => {}
    case FragmentSpread(name) => if name in frags then {} else {Unknown("fragment:" + name)}
  }

  lemma NestedFindings(t: Tables, frags: Fragments, sel: Selection)
    ensures NodeFindings(t, frags, Node(sel, false, false)) ==
            PlainFindings(t, frags, sel)
            + if sel.Field? then AccessFinding(t, sel.name, sel.sels == [], false, false) else {}
    ensures forall m, c :: PlainFindings(t, frags, sel) <= NodeFindings(t, frags, Node(sel, m, c))
  {}

  /** A nested field's access finding is that of any nested field of its name, as long as
      that one has selections if the first one has. */
  lemma AccessByName(t: Tables, frags: Fragments, n: Node, name: string, leaf: bool, x: Finding)
    requires NestedField(n, name, !leaf) && !n.inMutation && x in AccessFinding(t, name, leaf, false, false)
    ensures x in NodeFindings(t, frags, n)
  {}

  /** The walk of a mutation misses nothing if it visits the names. */
  lemma MutationWalkIsComplete(t: Tables, frags: Fragments, sels: seq<Selection>, n: Node, x: Finding)
    requires NamesVisited(frags, sels)
    requires Unfolds(frags, sels, true, true, n) && x in NodeFindings(t, frags, n)
    ensures x in WalkUncapped(t, frags, sels, {}, true, true)
  {
    var v := Visited(frags, sels, {}, true, true);
    WalkOfVisited(t, frags, sels, {}, true, true, x);
    EverythingIsSeen(frags, sels, true, n);
    if !n.atRoot {
      NestedFindings(t, frags, n.sel);
      if x in PlainFindings(t, frags, n.sel) {
        assert x in NodeFindings(t, frags, Node(n.sel, false, false));
        assert x in NodeFindings(t, frags, Node(n.sel, true, true));
      } else {
        assert NameVisited(v, n.sel.name, n.sel.sels != []);
        var other :| other in v && NestedField(other, n.sel.name, n.sel.sels != []);
        VisitedUnfolds(frags, sels, {}, true, true, other);
        EverythingIsSeen(frags, sels, true, other);
        AccessByName(t, frags, other, n.sel.name, n.sel.sels == [], x);
      }
    }
  }

  lemma MutationWalkIsExact(t: Tables, frags: Fragments, sels: seq<Selection>, x: Finding)
    requires NamesVisited(frags, sels)
    ensures x in WalkUncapped(t, frags, sels, {}, true, true) <==> Found(t, frags, sels, true, true, x)
  {
    if x in WalkUncapped(t, frags, sels, {}, true, true) {
      WalkIsPrecise(t, frags, sels, {}, true, true, x);
    }
    FoundAtNode(t, frags, sels, true, true, x);
    if n :| Unfolds(frags, sels, true, true, n) && x in NodeFindings(t, frags, n) {
      MutationWalkIsComplete(t, frags, sels, n, x);
    }
  }

  /** Tables that tell a missed name from the names visited: by the scope of the field, or,
      for a field with selections, by its being unknown anywhere but at the root. */
  function Detector(name: string, parent: bool): (Tables, Finding) {
    var req := Requirement(name, Read);
    if parent then (Tables({}, map[], map[name := req], {}, {}), Unknown(name))
    else (Tables({}, map[name := req], map[], {}, {}), Scope(req))
  }

  /** Where it misses a name, there are tables for which it misses a finding. */
  lemma MissedNameLosesFinding(frags: Fragments, sels: seq<Selection>, n: Node, parent: bool)
    requires PlainNames(frags, sels) && Unfolds(frags, sels, true, true, n) && !n.atRoot && n.sel.Field?
    requires (parent ==> n.sel.sels != []) && !NameVisited(Visited(frags, sels, {}, true, true), n.sel.name, parent)
    ensures var (t, x) := Detector(n.sel.name, parent);
            Found(t, frags, sels, true, true, x) && x !in WalkUncapped(t, frags, sels, {}, true, true)
  {
    var (t, x) := Detector(n.sel.name, parent);
    var v := Visited(frags, sels, {}, true, true);
    EverythingIsSeen(frags, sels, true, n);
    FoundAtNode(t, frags, sels, true, true, x);
    WalkOfVisited(t, frags, sels, {}, true, true, x);
    forall other | other in v ensures x !in NodeFindings(t, frags, other) {
      VisitedUnfolds(frags, sels, {}, true, true, other);
      EverythingIsSeen(frags, sels, true, other);
      assert !NestedField(other, n.sel.name, parent);
      if other.sel.FragmentSpread? {
        assert ("fragment:" + other.sel.name)[8] == ':';
      }
    }
  }

  /** On every fragment table: the walk of a mutation finds what the unfolding holds, under
      all policy tables, if and only if it visits the names. */
  lemma MutationWalkIsCompleteIff(frags: Fragments, sels: seq<Selection>)
    requires PlainNames(frags, sels)
    ensures (forall t, x :: Found(t, frags, sels, true, true, x) ==> x in WalkUncapped(t, frags, sels, {}, true, true))
       <==> NamesVisited(frags, sels)
  {
    if NamesVisited(frags, sels) {
      forall t, x | Found(t, frags, sels, true, true, x)
        ensures x in WalkUncapped(t, frags, sels, {}, true, true)
      {
        MutationWalkIsExact(t, frags, sels, x);
      }
    } else {
      var n :| Unfolds(frags, sels, true, true, n) && n.sel.Field? && !n.atRoot
               && !NameVisited(Visited(frags, sels, {}, true, true), n.sel.name, n.sel.sels != []);
      MissedNameLosesFinding(frags, sels, n, n.sel.sels != []);
    }
  }

  /** Replacing every defined spread by its body changes nothing, the depth verdict
      included: on an acyclic table the stack check never fires. */
  lemma {:induction false} InlineWalk(t: Tables, frags: Fragments, rank: map<string, nat>, bound: nat,
                                      sels: seq<Selection>, stack: set<string>,
                                      inMutation: bool, atRoot: bool, depth: nat)
    requires Ranks(frags, rank) && Below(frags, rank, bound, sels) && StackAbove(frags, rank, bound, stack)
    ensures Walk(t, map[], Inline(frags, rank, bound, sels), {}, inMutation, atRoot, depth)
         == Walk(t, frags, sels, stack, inMutation, atRoot, depth)
    decreases bound, sels
  {
    if depth <= MAX_ANALYSIS_DEPTH && sels != [] {
      var r := Inline(frags, rank, bound, sels);
      assert r[1..] == Inline(frags, rank, bound, sels[1..]);
      InlineWalk(t, frags, rank, bound, sels[1..], stack, inMutation, atRoot, depth);
      InlineWalkOne(t, frags, rank, bound, sels, stack, inMutation, atRoot, depth);
    }
  }

  lemma {:induction false} InlineWalkOne(t: Tables, frags: Fragments, rank: map<string, nat>, bound: nat,
                                         sels: seq<Selection>, stack: set<string>,
                                         inMutation: bool, atRoot: bool, depth: nat)
    requires Ranks(frags, rank) && Below(frags, rank, bound, sels) && StackAbove(frags, rank, bound, stack)
    requires sels != [] && depth <= MAX_ANALYSIS_DEPTH
    ensures WalkOne(t, map[], Inline(frags, rank, bound, sels)[0], {}, inMutation, atRoot, depth)
         == WalkOne(t, frags, sels[0], stack, inMutation, atRoot, depth)
    decreases bound, sels, 0
  {
    var one := Inline(frags, rank, bound, sels)[0];
    match sels[0]
    case Field(_, _, children) =>
      InlineWalk(t, frags, rank, bound, children, stack, false, false, depth + 1);
    case InlineFragment(children) =>
      InlineWalk(t, frags, rank, bound, children, stack, inMutation, atRoot, depth + 1);
    case FragmentSpread(name) =>
      if name in frags {
        InlineWalk(t, frags, rank, rank[name], frags[name], stack + {name}, inMutation, atRoot, depth + 1);
        assert WalkBelow(t, map[], one, {}, inMutation, atRoot, depth)
            == WalkBelow(t, frags, sels[0], stack, inMutation, atRoot, depth);
      }
  }

  /** For an acyclic table, the analysis of an operation is the analysis of the
      document without fragments that it abbreviates. */
  lemma {:induction false} AnalysisOfInlined(t: Tables, frags: Fragments, rank: map<string, nat>, bound: nat,
                                             op: Operation)
    requires Ranks(frags, rank) && Below(frags, rank, bound, op.sels)
    ensures Walk(t, map[], Inline(frags, rank, bound, op.sels), {}, op.kind.Mutation?, true, 1)
         == Walk(t, frags, op.sels, {}, op.kind.Mutation?, true, 1)
    ensures Spreads(Inline(frags, rank, bound, op.sels)) !! frags.Keys
  {
    InlineWalk(t, frags, rank, bound, op.sels, {}, op.kind.Mutation?, true, 1);
    InlineIsSpreadFree(frags, rank, bound, op.sels);
  }

  // ----- The depth verdict -----

  /** The unfolding has a node at depth `n` that opens yet another selection set. */
  ghost predicate Reaches(frags: Fragments, sels: seq<Selection>, n: nat) {
    exists path: seq<nat> :: ReachesAt(frags, sels, n, path)
  }

  predicate ReachesAt(frags: Fragments, sels: seq<Selection>, n: nat, path: seq<nat>) {
    // The context of a node plays no part in its depth.
    |path| == n && var node := NodeAt(frags, sels, false, false, path); node.Some? && Opens(frags, node.value)
  }

  lemma {:induction false} ContextFree(frags: Fragments, sels: seq<Selection>, inMutation: bool, atRoot: bool,
                                       path: seq<nat>)
    ensures var a, b := NodeAt(frags, sels, inMutation, atRoot, path), NodeAt(frags, sels, false, false, path);
            a.Some? == b.Some? && (a.Some? ==> a.value.sel == b.value.sel)
    decreases |path|
  {
    if |path| > 1 && path[0] < |sels| {
      match sels[path[0]]
      case Field(_, _, _) =>
      case InlineFragment(children) => ContextFree(frags, children, inMutation, atRoot, path[1..]);
      case FragmentSpread(name) =>
        if name in frags {
          ContextFree(frags, frags[name], inMutation, atRoot, path[1..]);
        }
    }
  }

  /** The selections below `sel` in the unfolding. */
  function Children(frags: Fragments, sel: Selection): seq<Selection> {
    match sel
    case Field(_, _, children) => children
    case InlineFragment(children) => children
    case FragmentSpread(name) => if name in frags then frags[name] else []
  }

  lemma {:induction false} ReachesStep(frags: Fragments, sels: seq<Selection>, n: nat)
    requires sels != [] && n > 0
    ensures Reaches(frags, sels, n) <==>
              || (n == 1 && Opens(frags, Node(sels[0], false, false)))
              || (n > 1 && Reaches(frags, Children(frags, sels[0]), n - 1))
              || Reaches(frags, sels[1..], n)
  {
    if Reaches(frags, sels, n) {
      var path: seq<nat> :| ReachesAt(frags, sels, n, path);
      if path[0] > 0 {
        var shifted: seq<nat> := [path[0] - 1] + path[1..];
        assert shifted[1..] == path[1..];
        assert ReachesAt(frags, sels[1..], n, shifted);
      } else if n > 1 {
        assert ReachesAt(frags, Children(frags, sels[0]), n - 1, path[1..]);
      }
    }
    if n == 1 && Opens(frags, Node(sels[0], false, false)) {
      assert ReachesAt(frags, sels, n, [0]);
    }
    if n > 1 && Reaches(frags, Children(frags, sels[0]), n - 1) {
      var path: seq<nat> :| ReachesAt(frags, Children(frags, sels[0]), n - 1, path);
      assert ([0] + path)[1..] == path;
      assert ReachesAt(frags, sels, n, [0] + path);
    }
    if Reaches(frags, sels[1..], n) {
      var path: seq<nat> :| ReachesAt(frags, sels[1..], n, path);
      var shifted := [path[0] + 1] + path[1..];
      assert shifted[1..] == path[1..];
      assert ReachesAt(frags, sels, n, shifted);
    }
  }

  /** On an acyclic table the walk is too deep exactly when the unfolding is. */
  lemma {:induction false} TooDeepIsExact(t: Tables, frags: Fragments, rank: map<string, nat>, bound: nat,
                                          sels: seq<Selection>, stack: set<string>,
                                          inMutation: bool, atRoot: bool, depth: nat)
    requires Ranks(frags, rank) && Below(frags, rank, bound, sels) && StackAbove(frags, rank, bound, stack)
    requires depth <= MAX_ANALYSIS_DEPTH
    ensures TooDeep in Walk(t, frags, sels, stack, inMutation, atRoot, depth)
       <==> Reaches(frags, sels, MAX_ANALYSIS_DEPTH + 1 - depth)
    decreases MAX_ANALYSIS_DEPTH + 1 - depth, sels, 1
  {
    if sels != [] {
      ReachesStep(frags, sels, MAX_ANALYSIS_DEPTH + 1 - depth);
      TooDeepIsExact(t, frags, rank, bound, sels[1..], stack, inMutation, atRoot, depth);
      TooDeepBelow(t, frags, rank, bound, sels, stack, inMutation, atRoot, depth);
    }
  }

  lemma {:induction false} TooDeepBelow(t: Tables, frags: Fragments, rank: map<string, nat>, bound: nat,
                                        sels: seq<Selection>, stack: set<string>,
                                        inMutation: bool, atRoot: bool, depth: nat)
    requires Ranks(frags, rank) && Below(frags, rank, bound, sels) && StackAbove(frags, rank, bound, stack)
    requires depth <= MAX_ANALYSIS_DEPTH && sels != []
    ensures TooDeep in WalkBelow(t, frags, sels[0], stack, inMutation, atRoot, depth)
       <==> if depth == MAX_ANALYSIS_DEPTH then Opens(frags, Node(sels[0], false, false))
            else Reaches(frags, Children(frags, sels[0]), MAX_ANALYSIS_DEPTH - depth)
    decreases MAX_ANALYSIS_DEPTH + 1 - depth, sels, 0
  {
    BelowAt(frags, rank, bound, sels, 0);
    if depth < MAX_ANALYSIS_DEPTH {
      match sels[0]
      case Field(_, _, children) =>
        TooDeepIsExact(t, frags, rank, bound, children, stack, false, false, depth + 1);
      case InlineFragment(children) =>
        TooDeepIsExact(t, frags, rank, bound, children, stack, inMutation, atRoot, depth + 1);
      case FragmentSpread(name) =>
        if name in frags {
          TooDeepIsExact(t, frags, rank, rank[name], frags[name], stack + {name}, inMutation, atRoot, depth + 1);
        }
    }
  }

  function Max(a: nat, b: nat): nat {
    if a >= b then a else b
  }

  /** The most selection sets that are open at once below `sels`, if a fragment is not entered
      while it is open. */
  function Levels(frags: Fragments, sels: seq<Selection>, stack: set<string>): nat
    decreases frags.Keys - stack, sels
  {
    if sels == [] then 0
    else
      Max(match sels[0]
          case Field(_, _, children) => if children == [] then 0 else 1 + Levels(frags, children, stack)
          case InlineFragment(children) => 1 + Levels(frags, children, stack)
          case FragmentSpread(name) =>
            if name in stack || name !in frags then 0 else 1 + Levels(frags, frags[name], stack + {name}),
          Levels(frags, sels[1..], stack))
  }

  /** On any table the walk is too deep exactly when more than 100 selection sets are open at
      once, the operation's own included. */
  lemma {:induction false} TooDeepIsLevels(t: Tables, frags: Fragments, sels: seq<Selection>, stack: set<string>,
                                           inMutation: bool, atRoot: bool, depth: nat)
    requires depth <= 101
    ensures TooDeep in Walk(t, frags, sels, stack, inMutation, atRoot, depth) <==>
            depth + Levels(frags, sels, stack) > 100
    decreases 101 - depth, sels
  {
    if sels != [] && depth <= 100 {
      TooDeepIsLevels(t, frags, sels[1..], stack, inMutation, atRoot, depth);
      TooDeepInOne(t, frags, sels, stack, inMutation, atRoot, depth);
      hide Walk;
      match sels[0]
      case Field(_, _, children) => TooDeepIsLevels(t, frags, children, stack, false, false, depth + 1);
      case InlineFragment(children) => TooDeepIsLevels(t, frags, children, stack, inMutation, atRoot, depth + 1);
      case FragmentSpread(name) =>
        if name !in stack && name in frags {
          TooDeepIsLevels(t, frags, frags[name], stack + {name}, inMutation, atRoot, depth + 1);
        }
    }
  }

  lemma TooDeepInOne(t: Tables, frags: Fragments, sels: seq<Selection>, stack: set<string>,
                     inMutation: bool, atRoot: bool, depth: nat)
    requires depth <= 100 && sels != []
    ensures TooDeep in Walk(t, frags, sels, stack, inMutation, atRoot, depth) <==>
            || TooDeep in WalkBelow(t, frags, sels[0], stack, inMutation, atRoot, depth)
            || TooDeep in Walk(t, frags, sels[1..], stack, inMutation, atRoot, depth)
  {
    assert TooDeep !in NodeFindings(t, frags, Node(sels[0], inMutation, atRoot));
  }

  /** So nothing is called too deep unless its unfolding is, cyclic or not. */
  lemma {:induction false} LevelsAreReached(frags: Fragments, sels: seq<Selection>, stack: set<string>, n: nat)
    requires 0 < n <= Levels(frags, sels, stack)
    ensures Reaches(frags, sels, n)
    decreases frags.Keys - stack, sels
  {
    ReachesStep(frags, sels, n);
    if n <= Levels(frags, sels[1..], stack) {
      LevelsAreReached(frags, sels[1..], stack, n);
    } else if n > 1 {
      match sels[0]
      case Field(_, _, children) => LevelsAreReached(frags, children, stack, n - 1);
      case InlineFragment(children) => LevelsAreReached(frags, children, stack, n - 1);
      case FragmentSpread(name) => LevelsAreReached(frags, frags[name], stack + {name}, n - 1);
    }
  }

  // ----- Cyclic mutations -----

  /** A mutation over a cyclic table can lose a finding, so the theorem above cannot
      include it: the body of `F` is walked at the mutation root only, where the
      mutation table answers, and the nested occurrence of the same field is skipped. */
  lemma CyclicMutationLosesFinding() returns (t: Tables, frags: Fragments, sels: seq<Selection>, x: Finding)
    ensures Found(t, frags, sels, true, true, x)
    ensures x !in Walk(t, frags, sels, {}, true, true, 1)
    ensures TooDeep !in Walk(t, frags, sels, {}, true, true, 1)
  {
    var body := [Field("createIssue", [], [FragmentSpread("F")])];
    t := Tables({}, map[], map["createIssue" := Requirement("issues", Write)], {}, {});
    frags := map["F" := body];
    sels := [FragmentSpread("F")];
    x := Unknown("createIssue");
    var path: seq<nat> := [0, 0, 0, 0];
    assert path[1..] == [0, 0, 0] && path[1..][1..] == [0, 0] && path[1..][1..][1..] == [0];
    assert NodeAt(frags, sels, true, true, path) == NodeAt(frags, body, true, true, path[1..]);
    assert NodeAt(frags, body, true, true, path[1..]) == NodeAt(frags, sels, false, false, path[1..][1..]);
    assert NodeAt(frags, sels, false, false, path[1..][1..]) == NodeAt(frags, body, false, false, [0]);
    assert FoundAt(t, frags, sels, true, true, path, x);
    var spread := sels;
    assert Walk(t, frags, spread, {"F"}, false, false, 3) == {};
    assert Walk(t, frags, body, {"F"}, true, true, 2) == {Scope(Requirement("issues", Write))};
    assert Walk(t, frags, sels, {}, true, true, 1) == {Scope(Requirement("issues", Write))} by {
      assert {} + {"F"} == {"F"};
      assert sels[1..] == [];
    }
  }
}

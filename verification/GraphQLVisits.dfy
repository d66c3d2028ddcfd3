/** Which nodes of the unfolding the analyser's walk visits, whatever the policy tables. */
module GraphQLVisits {
  import opened Prelude
  import opened GraphQLAst

  ghost predicate Unfolds(frags: Fragments, sels: seq<Selection>, inMutation: bool, atRoot: bool, n: Node) {
    exists path: seq<nat> :: NodeAt(frags, sels, inMutation, atRoot, path) == Some(n)
  }

  /** The nodes that the walk without a depth cap visits. Spreads of open fragments are
      visited, but not entered. */
  function Visited(frags: Fragments, sels: seq<Selection>, stack: set<string>,
                   inMutation: bool, atRoot: bool): set<Node>
    decreases frags.Keys - stack, sels
  {
    if sels == [] then {}
    else
      {Node(sels[0], inMutation, atRoot)}
      + (match sels[0]
         case Field(_, _, children) => Visited(frags, children, stack, false, false)
         case InlineFragment(children) => Visited(frags, children, stack, inMutation, atRoot)
         case FragmentSpread(name) =>
           if name in stack || name !in frags then {}
           else Visited(frags, frags[name], stack + {name}, inMutation, atRoot))
      + Visited(frags, sels[1..], stack, inMutation, atRoot)
  }

  // ----- Every node visited is in the unfolding -----

  lemma UnfoldsInTail(frags: Fragments, sels: seq<Selection>, inMutation: bool, atRoot: bool, n: Node)
    requires sels != [] && Unfolds(frags, sels[1..], inMutation, atRoot, n)
    ensures Unfolds(frags, sels, inMutation, atRoot, n)
  {
    var path: seq<nat> :| NodeAt(frags, sels[1..], inMutation, atRoot, path) == Some(n);
    var shifted := [path[0] + 1] + path[1..];
    assert shifted[1..] == path[1..];
    assert NodeAt(frags, sels, inMutation, atRoot, shifted) == Some(n);
  }

  lemma UnfoldsBelow(frags: Fragments, sels: seq<Selection>, children: seq<Selection>,
                     inMutation: bool, atRoot: bool, inMutation': bool, atRoot': bool, n: Node)
    requires sels != []
    requires forall p: seq<nat> :: p != [] ==>
               NodeAt(frags, sels, inMutation, atRoot, [0] + p) == NodeAt(frags, children, inMutation', atRoot', p)
    requires Unfolds(frags, children, inMutation', atRoot', n)
    ensures Unfolds(frags, sels, inMutation, atRoot, n)
  {
    var path: seq<nat> :| NodeAt(frags, children, inMutation', atRoot', path) == Some(n);
    assert NodeAt(frags, sels, inMutation, atRoot, [0] + path) == Some(n);
  }

  lemma {:induction false} VisitedUnfolds(frags: Fragments, sels: seq<Selection>, stack: set<string>,
                                          inMutation: bool, atRoot: bool, n: Node)
    requires n in Visited(frags, sels, stack, inMutation, atRoot)
    ensures Unfolds(frags, sels, inMutation, atRoot, n)
    decreases frags.Keys - stack, sels
  {
    if n == Node(sels[0], inMutation, atRoot) {
      var path: seq<nat> := [0];
      assert NodeAt(frags, sels, inMutation, atRoot, path) == Some(n);
    } else if n in Visited(frags, sels[1..], stack, inMutation, atRoot) {
      VisitedUnfolds(frags, sels[1..], stack, inMutation, atRoot, n);
      UnfoldsInTail(frags, sels, inMutation, atRoot, n);
    } else {
      forall p: seq<nat> ensures ([0] + p)[1..] == p {}
      match sels[0]
      case Field(_, _, children) =>
        VisitedUnfolds(frags, children, stack, false, false, n);
        UnfoldsBelow(frags, sels, children, inMutation, atRoot, false, false, n);
      case InlineFragment(children) =>
        VisitedUnfolds(frags, children, stack, inMutation, atRoot, n);
        UnfoldsBelow(frags, sels, children, inMutation, atRoot, inMutation, atRoot, n);
      case FragmentSpread(name) =>
        VisitedUnfolds(frags, frags[name], stack + {name}, inMutation, atRoot, n);
        UnfoldsBelow(frags, sels, frags[name], inMutation, atRoot, inMutation, atRoot, n);
    }
  }

  // ----- Every selection of the unfolding is visited, in its context or at the root -----
  //
  // A spread of an open fragment is skipped, and what lies below it is visited by the
  // walk of that fragment that is still going on. The argument fixes the set `v` of nodes
  // visited and the set `h` of (fragment, context) pairs entered at all, and shows that
  // both are closed under unfolding. `m` says whether the operation is a mutation; below
  // a field nothing is in a mutation.

  predicate Seen(v: set<Node>, m: bool, sel: Selection, atRoot: bool) {
    Node(sel, m && atRoot, atRoot) in v || Node(sel, m, true) in v
  }

  /** The fragment was entered in this context or at the root. */
  predicate Covered(h: set<(string, bool)>, name: string, atRoot: bool) {
    (name, true) in h || (name, atRoot) in h
  }

  /** `v` has seen the selections in `sels`, and `h` covers every fragment they spread. */
  predicate Closed(frags: Fragments, v: set<Node>, h: set<(string, bool)>, m: bool, sels: seq<Selection>, atRoot: bool)
  {
    sels == [] ||
    (&& Seen(v, m, sels[0], atRoot)
     && (match sels[0]
         case Field(_, _, children) => Closed(frags, v, h, m, children, false)
         case InlineFragment(children) => Closed(frags, v, h, m, children, atRoot)
         case FragmentSpread(name) => name in frags ==> Covered(h, name, atRoot))
     && Closed(frags, v, h, m, sels[1..], atRoot))
  }

  ghost predicate ClosedTable(frags: Fragments, v: set<Node>, h: set<(string, bool)>, m: bool, w: set<(string, bool)>) {
    forall n, c :: (n, c) in w && n in frags ==> Closed(frags, v, h, m, frags[n], c)
  }

  /** The (fragment, context) pairs that the walk enters. */
  function Entered(frags: Fragments, sels: seq<Selection>, stack: set<string>, atRoot: bool): set<(string, bool)>
    decreases frags.Keys - stack, sels
  {
    if sels == [] then {}
    else
      (match sels[0]
       case Field(_, _, children) => Entered(frags, children, stack, false)
       case InlineFragment(children) => Entered(frags, children, stack, atRoot)
       case FragmentSpread(name) =>
         if name in stack || name !in frags then {}
         else {(name, atRoot)} + Entered(frags, frags[name], stack + {name}, atRoot))
      + Entered(frags, sels[1..], stack, atRoot)
  }

  lemma {:induction false} ClosedNested(frags: Fragments, v: set<Node>, h: set<(string, bool)>, m: bool,
                                        sels: seq<Selection>)
    requires Closed(frags, v, h, m, sels, true)
    ensures Closed(frags, v, h, m, sels, false)
  {
    if sels != [] {
      ClosedNested(frags, v, h, m, sels[1..]);
      match sels[0]
      case Field(_, _, _) =>
      case InlineFragment(children) => ClosedNested(frags, v, h, m, children);
      case FragmentSpread(_) =>
    }
  }

  lemma {:induction false} WalkCloses(frags: Fragments, sels: seq<Selection>, stack: set<string>, m: bool,
                                      atRoot: bool, v: set<Node>, h: set<(string, bool)>)
    requires Visited(frags, sels, stack, m && atRoot, atRoot) <= v
    requires Entered(frags, sels, stack, atRoot) <= h
    requires forall n :: n in stack ==> Covered(h, n, atRoot)
    ensures Closed(frags, v, h, m, sels, atRoot)
    ensures ClosedTable(frags, v, h, m, Entered(frags, sels, stack, atRoot))
    decreases frags.Keys - stack, sels
  {
    if sels != [] {
      assert Node(sels[0], m && atRoot, atRoot) in v;
      WalkCloses(frags, sels[1..], stack, m, atRoot, v, h);
      match sels[0]
      case Field(_, _, children) => WalkCloses(frags, children, stack, m, false, v, h);
      case InlineFragment(children) => WalkCloses(frags, children, stack, m, atRoot, v, h);
      case FragmentSpread(name) =>
        if name !in stack && name in frags {
          assert (name, atRoot) in Entered(frags, sels, stack, atRoot);
          WalkCloses(frags, frags[name], stack + {name}, m, atRoot, v, h);
        }
    }
  }

  lemma {:induction false} ClosedAt(frags: Fragments, v: set<Node>, h: set<(string, bool)>, m: bool,
                                    sels: seq<Selection>, atRoot: bool, i: nat)
    requires Closed(frags, v, h, m, sels, atRoot) && i < |sels|
    ensures Closed(frags, v, h, m, sels[i..], atRoot)
  {
    if i == 0 {
      assert sels[0..] == sels;
    } else {
      ClosedAt(frags, v, h, m, sels[1..], atRoot, i - 1);
      assert sels[1..][i - 1..] == sels[i..];
    }
  }

  /** Closed sets have seen every selection of the unfolding, however long the path to it. */
  lemma {:induction false} ClosedIsSound(frags: Fragments, v: set<Node>, h: set<(string, bool)>, m: bool,
                                         sels: seq<Selection>, atRoot: bool, path: seq<nat>)
    requires Closed(frags, v, h, m, sels, atRoot) && ClosedTable(frags, v, h, m, h)
    requires NodeAt(frags, sels, m && atRoot, atRoot, path).Some?
    ensures var n := NodeAt(frags, sels, m && atRoot, atRoot, path).value;
            n.inMutation == (m && n.atRoot) && Seen(v, m, n.sel, n.atRoot)
    decreases |path|
  {
    ClosedAt(frags, v, h, m, sels, atRoot, path[0]);
    if |path| > 1 {
      match sels[path[0]]
      case Field(_, _, children) => ClosedIsSound(frags, v, h, m, children, false, path[1..]);
      case InlineFragment(children) => ClosedIsSound(frags, v, h, m, children, atRoot, path[1..]);
      case FragmentSpread(name) =>
        if (name, atRoot) !in h {
          ClosedNested(frags, v, h, m, frags[name]);
        }
        ClosedIsSound(frags, v, h, m, frags[name], atRoot, path[1..]);
    }
  }

  /** On any fragment table, cyclic ones included: every selection of the unfolding is
      visited in its own context or at the root. So nothing is missed at the root. */
  lemma EverythingIsSeen(frags: Fragments, sels: seq<Selection>, m: bool, n: Node)
    requires Unfolds(frags, sels, m, true, n)
    ensures n.inMutation == (m && n.atRoot)
    ensures Seen(Visited(frags, sels, {}, m, true), m, n.sel, n.atRoot)
    ensures n.atRoot ==> n in Visited(frags, sels, {}, m, true)
  {
    var path: seq<nat> :| NodeAt(frags, sels, m, true, path) == Some(n);
    var v, h := Visited(frags, sels, {}, m, true), Entered(frags, sels, {}, true);
    WalkCloses(frags, sels, {}, m, true, v, h);
    ClosedIsSound(frags, v, h, m, sels, true, path);
  }

  // ----- Acyclic tables: every node is visited -----

  /** No fragment on the stack can be spread by selections below `bound`. */
  ghost predicate StackAbove(frags: Fragments, rank: map<string, nat>, bound: nat, stack: set<string>) {
    forall n :: n in stack && n in frags && n in rank ==> rank[n] >= bound
  }

  lemma {:induction false} BelowAt(frags: Fragments, rank: map<string, nat>, bound: nat, sels: seq<Selection>, i: nat)
    requires Below(frags, rank, bound, sels) && i < |sels|
    ensures match sels[i]
            case Field(_, _, children) => Below(frags, rank, bound, children)
            case InlineFragment(children) => Below(frags, rank, bound, children)
            case FragmentSpread(name) => name in frags ==> name in rank && rank[name] < bound
  {
    if i > 0 {
      assert Below(frags, rank, bound, sels[1..]);
      BelowAt(frags, rank, bound, sels[1..], i - 1);
    }
  }

  lemma {:induction false} VisitedBelow(frags: Fragments, sels: seq<Selection>, stack: set<string>,
                                        inMutation: bool, atRoot: bool, i: nat)
    requires i < |sels|
    ensures Node(sels[i], inMutation, atRoot) in Visited(frags, sels, stack, inMutation, atRoot)
    ensures match sels[i]
            case Field(_, _, children) =>
              Visited(frags, children, stack, false, false) <= Visited(frags, sels, stack, inMutation, atRoot)
            case InlineFragment(children) =>
              Visited(frags, children, stack, inMutation, atRoot) <= Visited(frags, sels, stack, inMutation, atRoot)
            case FragmentSpread(name) =>
              name in frags && name !in stack ==>
                Visited(frags, frags[name], stack + {name}, inMutation, atRoot)
                <= Visited(frags, sels, stack, inMutation, atRoot)
  {
    if i > 0 {
      VisitedBelow(frags, sels[1..], stack, inMutation, atRoot, i - 1);
    }
  }

  lemma {:induction false} AcyclicVisits(frags: Fragments, rank: map<string, nat>, bound: nat, sels: seq<Selection>,
                                         stack: set<string>, inMutation: bool, atRoot: bool, path: seq<nat>)
    requires Ranks(frags, rank) && Below(frags, rank, bound, sels) && StackAbove(frags, rank, bound, stack)
    requires NodeAt(frags, sels, inMutation, atRoot, path).Some?
    ensures NodeAt(frags, sels, inMutation, atRoot, path).value in Visited(frags, sels, stack, inMutation, atRoot)
    decreases |path|
  {
    VisitedBelow(frags, sels, stack, inMutation, atRoot, path[0]);
    BelowAt(frags, rank, bound, sels, path[0]);
    if |path| > 1 {
      match sels[path[0]]
      case Field(_, _, children) =>
        AcyclicVisits(frags, rank, bound, children, stack, false, false, path[1..]);
      case InlineFragment(children) =>
        AcyclicVisits(frags, rank, bound, children, stack, inMutation, atRoot, path[1..]);
      case FragmentSpread(name) =>
        AcyclicVisits(frags, rank, rank[name], frags[name], stack + {name}, inMutation, atRoot, path[1..]);
    }
  }

  lemma AcyclicVisitsAll(frags: Fragments, sels: seq<Selection>, inMutation: bool, n: Node)
    requires Acyclic(frags) && Unfolds(frags, sels, inMutation, true, n)
    ensures n in Visited(frags, sels, {}, inMutation, true)
  {
    var path: seq<nat> :| NodeAt(frags, sels, inMutation, true, path) == Some(n);
    var rank :| Ranks(frags, rank);
    var bound := BoundExists(frags, rank, frags.Keys);
    AcyclicVisits(frags, rank, bound, sels, {}, inMutation, true, path);
  }

  // ----- Mutations: the names met below fields -----

  /** A field below another field; with `parent`, one that has selections of its own. */
  predicate NestedField(n: Node, name: string, parent: bool) {
    !n.atRoot && n.sel.Field? && n.sel.name == name && (parent ==> n.sel.sels != [])
  }

  ghost predicate NameVisited(v: set<Node>, name: string, parent: bool) {
    exists n :: n in v && NestedField(n, name, parent)
  }

  /** Every name of a nested field in the unfolding of a mutation is the name of a nested
      field that the walk visits, and likewise for fields with selections. */
  ghost predicate NamesVisited(frags: Fragments, sels: seq<Selection>) {
    forall n :: Unfolds(frags, sels, true, true, n) && n.sel.Field? && !n.atRoot ==>
      NameVisited(Visited(frags, sels, {}, true, true), n.sel.name, n.sel.sels != [])
  }

  lemma AcyclicNamesVisited(frags: Fragments, sels: seq<Selection>)
    requires Acyclic(frags)
    ensures NamesVisited(frags, sels)
  {
    forall n | Unfolds(frags, sels, true, true, n) && n.sel.Field? && !n.atRoot
      ensures NameVisited(Visited(frags, sels, {}, true, true), n.sel.name, n.sel.sels != [])
    {
      AcyclicVisitsAll(frags, sels, true, n);
      assert NestedField(n, n.sel.name, n.sel.sels != []);
    }
  }

  /** Names as section 2.1.9 of the GraphQL specification has them, as far as needed. */
  ghost predicate PlainNames(frags: Fragments, sels: seq<Selection>) {
    forall n :: Unfolds(frags, sels, true, true, n) && n.sel.Field? ==> ':' !in n.sel.name
  }
}

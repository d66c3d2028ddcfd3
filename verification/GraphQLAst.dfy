/** The part of a GraphQL document the analyser looks at, and the unfolding of
    its fragments.

    A named fragment stands for the selections of its definition, so an operation
    denotes a tree that has no spreads left: the unfolding. When fragments refer to
    each other in a cycle that tree is infinite, so it is never built here. Every
    node of it lies at a finite path of child indices, and `NodeAt` finds the node. */
module GraphQLAst {
  import opened Prelude

  datatype OperationKind = Query | Mutation | Subscription

  datatype Value = StringValue(raw: string) | OtherValue

  datatype Argument = Argument(name: string, value: Option<Value>)

  datatype Selection =
    | Field(name: string, args: seq<Argument>, sels: seq<Selection>)
    | InlineFragment(sels: seq<Selection>)
    | FragmentSpread(name: string)

  datatype FragmentDefinition = FragmentDefinition(name: string, sels: seq<Selection>)

  datatype Operation = Operation(kind: OperationKind, name: string, sels: seq<Selection>)

  datatype Document = Document(operations: seq<Operation>, fragments: seq<FragmentDefinition>)

  /** The decoded request: a parsed document and the `operationName` field. */
  datatype Request = Request(doc: Document, operationName: string)

  type Fragments = map<string, seq<Selection>>

  /** A node of the unfolding: a selection, and the context it is read in. */
  datatype Node = Node(sel: Selection, inMutation: bool, atRoot: bool)

  /** The node of the unfolding of `sels` at `path`. A field opens a nested context;
      an inline fragment and a defined spread keep the context they are in. */
  function NodeAt(frags: Fragments, sels: seq<Selection>, inMutation: bool, atRoot: bool, path: seq<nat>): Option<Node>
    decreases |path|
  {
    if path == [] || path[0] >= |sels| then None
    else
      var sel := sels[path[0]];
      if |path| == 1 then Some(Node(sel, inMutation, atRoot))
      else match sel
        case Field(_, _, children) => NodeAt(frags, children, false, false, path[1..])
        case InlineFragment(children) => NodeAt(frags, children, inMutation, atRoot, path[1..])
        case FragmentSpread(name) =>
          if name in frags then NodeAt(frags, frags[name], inMutation, atRoot, path[1..]) else None
  }

  /** The node opens a further selection set, so that a walk goes one level down. */
  predicate Opens(frags: Fragments, node: Node) {
    match node.sel
    case Field(_, _, children) => children != []
    case InlineFragment(_) => true
    case FragmentSpread(name) => name in frags
  }

  /** The fragment names spread anywhere in the text of `sels`. */
  function Spreads(sels: seq<Selection>): set<string> {
    if sels == [] then {}
    else
      (match sels[0]
       case Field(_, _, children) => Spreads(children)
       case InlineFragment(children) => Spreads(children)
       case FragmentSpread(name) => {name}) + Spreads(sels[1..])
  }

  /** Every defined fragment that `sels` spreads ranks below `bound`. */
  predicate Below(frags: Fragments, rank: map<string, nat>, bound: nat, sels: seq<Selection>) {
    forall n :: n in Spreads(sels) && n in frags ==> n in rank && rank[n] < bound
  }

  /** `rank` witnesses that no fragment reaches itself: each definition only spreads
      fragments of a smaller rank. */
  predicate Ranks(frags: Fragments, rank: map<string, nat>) {
    forall n :: n in frags ==> n in rank && Below(frags, rank, rank[n], frags[n])
  }

  /** Section 5.5.2.2 of the GraphQL specification (October 2021). */
  ghost predicate Acyclic(frags: Fragments) {
    exists rank :: Ranks(frags, rank)
  }

  /** Some bound exceeds every rank in use. */
  lemma {:induction false} BoundExists(frags: Fragments, rank: map<string, nat>, names: set<string>)
      returns (bound: nat)
    requires Ranks(frags, rank)
    requires names <= frags.Keys
    ensures forall n :: n in names ==> rank[n] < bound
    decreases names
  {
    if names == {} {
      bound := 0;
    } else {
      var n :| n in names;
      bound := BoundExists(frags, rank, names - {n});
      bound := if rank[n] < bound then bound else rank[n] + 1;
    }
  }

  /** The operation with every defined spread replaced by an inline fragment that
      holds the (likewise replaced) body of the definition. */
  function Inline(frags: Fragments, rank: map<string, nat>, bound: nat, sels: seq<Selection>): (r: seq<Selection>)
    requires Ranks(frags, rank)
    requires Below(frags, rank, bound, sels)
    ensures |r| == |sels|
    decreases bound, sels
  {
    if sels == [] then []
    else
      var rest := Inline(frags, rank, bound, sels[1..]);
      match sels[0]
      case Field(name, args, children) => [Field(name, args, Inline(frags, rank, bound, children))] + rest
      case InlineFragment(children) => [InlineFragment(Inline(frags, rank, bound, children))] + rest
      case FragmentSpread(name) =>
        if name in frags
        then [InlineFragment(Inline(frags, rank, rank[name], frags[name]))] + rest
        else [sels[0]] + rest
  }

  /** Inlining leaves no defined spread behind. */
  lemma {:induction false} InlineIsSpreadFree(frags: Fragments, rank: map<string, nat>, bound: nat,
                                              sels: seq<Selection>)
    requires Ranks(frags, rank)
    requires Below(frags, rank, bound, sels)
    ensures Spreads(Inline(frags, rank, bound, sels)) !! frags.Keys
    decreases bound, sels
  {
    if sels != [] {
      InlineIsSpreadFree(frags, rank, bound, sels[1..]);
      var r := Inline(frags, rank, bound, sels);
      assert r[1..] == Inline(frags, rank, bound, sels[1..]);
      match sels[0]
      case Field(_, _, children) => InlineIsSpreadFree(frags, rank, bound, children);
      case InlineFragment(children) => InlineIsSpreadFree(frags, rank, bound, children);
      case FragmentSpread(name) =>
        if name in frags {
          InlineIsSpreadFree(frags, rank, rank[name], frags[name]);
        }
    }
  }
}

/** What the gate promises, in plain terms: the policy of a document without fragments, read
    off its text, and the requirement that each mapped field puts on a scoped token. */
module GraphQLPolicy {
  import opened Prelude
  import opened GraphQLAst
  import opened GraphQLAnalyzer
  import opened GraphQLVisits
  import opened GraphQLSoundness
  import opened GraphQLGate

  // ----- Grants, names and literals -----

  /** A write requirement needs "write", a read requirement "read" or "write". */
  predicate Grants(scopes: map<string, string>, permission: string, level: Level) {
    permission in scopes && (scopes[permission] == "write" || (level.Read? && scopes[permission] == "read"))
  }

  lemma GrantsIsPermission(scopes: map<string, string>, req: Requirement)
    ensures HasPermission(scopes, req) <==> Grants(scopes, req.permission, req.level)
  {}

  predicate SameLetter(c: char, d: char) {
    c == d || ('A' <= c <= 'Z' && d as int == c as int + 32) || ('A' <= d <= 'Z' && c as int == d as int + 32)
  }

  /** The names differ in the case of letters only. */
  predicate SameName(a: string, b: string) {
    |a| == |b| && forall i :: 0 <= i < |a| ==> SameLetter(a[i], b[i])
  }

  lemma SameNameIsEqualFold(a: string, b: string)
    ensures EqualFold(a, b) <==> SameName(a, b)
  {
    if EqualFold(a, b) {
      assert |Lower(a)| == |Lower(b)|;
      forall i | 0 <= i < |a| ensures SameLetter(a[i], b[i]) {
        assert Lower(a)[i] == Lower(b)[i];
      }
    }
    if SameName(a, b) {
      assert Lower(a) == Lower(b);
    }
  }

  predicate Listed(repos: seq<string>, fullName: string) {
    exists i :: 0 <= i < |repos| && SameName(repos[i], fullName)
  }

  lemma ListedIsAllowed(si: TokenScopeInfo, repo: string)
    ensures RepoAllowed(si, repo) <==> Listed(si.repos, repo)
  {
    forall i | 0 <= i < |si.repos| ensures EqualFold(si.repos[i], repo) <==> SameName(si.repos[i], repo) {
      SameNameIsEqualFold(si.repos[i], repo);
    }
  }

  predicate LiteralFor(arg: Argument, key: string) {
    arg.name == key && arg.value.Some? && arg.value.value.StringValue?
  }

  /** `v` is what the last literal argument of this name says. */
  predicate Says(args: seq<Argument>, key: string, v: string) {
    exists i :: 0 <= i < |args| && LiteralFor(args[i], key) && args[i].value.value.raw == v
                && forall j :: i < j < |args| ==> !LiteralFor(args[j], key)
  }

  lemma SaysInInit(args: seq<Argument>, key: string, v: string)
    requires args != [] && !LiteralFor(args[|args| - 1], key)
    ensures Says(args, key, v) <==> Says(args[..|args| - 1], key, v)
  {
    var n := |args| - 1;
    var init := args[..n];
    if i :| 0 <= i < n && LiteralFor(init[i], key) && init[i].value.value.raw == v
            && forall j :: i < j < n ==> !LiteralFor(init[j], key) {
      assert LiteralFor(args[i], key);
      assert forall j :: i < j < n ==> args[j] == init[j];
    }
    if i :| 0 <= i < |args| && LiteralFor(args[i], key) && args[i].value.value.raw == v
            && forall j :: i < j < |args| ==> !LiteralFor(args[j], key) {
      assert LiteralFor(init[i], key);
      assert forall j :: i < j < n ==> init[j] == args[j];
    }
  }

  lemma {:induction false} SaysIsLastLiteral(args: seq<Argument>, key: string, v: string)
    requires v != ""
    ensures LastLiteral(args, key) == v <==> Says(args, key, v)
  {
    if args != [] {
      var n := |args| - 1;
      if LiteralFor(args[n], key) {
        if i :| 0 <= i < |args| && LiteralFor(args[i], key) && args[i].value.value.raw == v
                && forall j :: i < j < |args| ==> !LiteralFor(args[j], key) {
          assert i == n;
        }
      } else {
        SaysIsLastLiteral(args[..n], key, v);
        SaysInInit(args, key, v);
      }
    }
  }

  /** The lookup names one repository, literally, and the token lists it. */
  ghost predicate PinsListed(repos: seq<string>, args: seq<Argument>) {
    exists owner, repo :: Says(args, "owner", owner) && Says(args, "name", repo) && owner != "" && repo != ""
                          && Listed(repos, owner + "/" + repo)
  }

  lemma PinsListedIsAllowed(si: TokenScopeInfo, node: Node)
    requires node.sel.Field?
    ensures PinsListed(si.repos, node.sel.args) <==> PinnedRepo(node).Some? && RepoAllowed(si, PinnedRepo(node).value)
  {
    var args := node.sel.args;
    var o, r := LastLiteral(args, "owner"), LastLiteral(args, "name");
    if o != "" {
      SaysIsLastLiteral(args, "owner", o);
    }
    if r != "" {
      SaysIsLastLiteral(args, "name", r);
    }
    ListedIsAllowed(si, o + "/" + r);
    if owner, repo :| Says(args, "owner", owner) && Says(args, "name", repo) && owner != "" && repo != ""
                      && Listed(si.repos, owner + "/" + repo) {
      SaysIsLastLiteral(args, "owner", owner);
      SaysIsLastLiteral(args, "name", repo);
    }
  }

  // ----- The policy of a document without fragments -----

  /** A field at the root of a mutation, at the root of another operation, or nested. */
  datatype Place = MutationRoot | QueryRoot | Nested

  function PlaceOf(inMutation: bool, atRoot: bool): Place {
    if !atRoot then Nested else if inMutation then MutationRoot else QueryRoot
  }

  predicate Scoped(t: Tables, name: string, place: Place) {
    if place.MutationRoot? then name in t.mutationScopes else name !in t.alwaysAllowed && name in t.fieldScopes
  }

  ghost predicate FieldAllowed(t: Tables, si: TokenScopeInfo, name: string, args: seq<Argument>,
                               leaf: bool, place: Place)
  {
    && (match place
        case MutationRoot =>
          && name in t.mutationScopes
          && (si.scopes == map[] || Grants(si.scopes, t.mutationScopes[name].permission, t.mutationScopes[name].level))
        case _ =>
          || name in t.alwaysAllowed
          || (name in t.fieldScopes
              && (si.scopes == map[] || Grants(si.scopes, t.fieldScopes[name].permission, t.fieldScopes[name].level)))
          || (name !in t.fieldScopes && leaf && place.Nested?))
    && (si.repos != [] ==>
          && name !in t.crossRepoAnywhere
          && (name in t.crossRepoRootOnly ==> place.Nested?)
          && (name == "repository" && args != [] ==> PinsListed(si.repos, args)))
  }

  /** Every field is allowed where it stands. What stands below a field is nested, what
      stands in an inline fragment is where the fragment is. */
  ghost predicate TreeAllowed(t: Tables, si: TokenScopeInfo, sels: seq<Selection>, place: Place) {
    sels == [] ||
    (&& (match sels[0]
         case Field(name, args, children) =>
           FieldAllowed(t, si, name, args, children == [], place) && TreeAllowed(t, si, children, Nested)
         case InlineFragment(children) => TreeAllowed(t, si, children, place)
         case FragmentSpread(_) => false)
     && TreeAllowed(t, si, sels[1..], place))
  }

  predicate HasLookup(sels: seq<Selection>) {
    sels != [] &&
    (|| (match sels[0]
         case Field(name, args, children) => (name == "repository" && args != []) || HasLookup(children)
         case InlineFragment(children) => HasLookup(children)
         case FragmentSpread(_) => false)
     || HasLookup(sels[1..]))
  }

  predicate HasScoped(t: Tables, sels: seq<Selection>, place: Place) {
    sels != [] &&
    (|| (match sels[0]
         case Field(name, _, children) => Scoped(t, name, place) || HasScoped(t, children, Nested)
         case InlineFragment(children) => HasScoped(t, children, place)
         case FragmentSpread(_) => false)
     || HasScoped(t, sels[1..], place))
  }

  ghost predicate PolicyMet(t: Tables, si: TokenScopeInfo, op: Operation) {
    var place := if op.kind == Mutation then MutationRoot else QueryRoot;
    && op.kind != Subscription
    && TreeAllowed(t, si, op.sels, place)
    && (si.repos != [] ==> op.kind != Mutation && HasLookup(op.sels))
    && (si.scopes != map[] && op.kind == Mutation ==> HasScoped(t, op.sels, place))
  }

  // ----- It is the policy of the unfolding -----

  lemma NodeAllowedPlainly(t: Tables, frags: Fragments, si: TokenScopeInfo, node: Node)
    requires node.sel.Field?
    ensures NodeAllowed(t, frags, si, node) <==>
            FieldAllowed(t, si, node.sel.name, node.sel.args, node.sel.sels == [],
                         PlaceOf(node.inMutation, node.atRoot))
  {
    PinsListedIsAllowed(si, node);
    if node.sel.name in t.mutationScopes {
      GrantsIsPermission(si.scopes, t.mutationScopes[node.sel.name]);
    }
    if node.sel.name in t.fieldScopes {
      GrantsIsPermission(si.scopes, t.fieldScopes[node.sel.name]);
    }
  }

  ghost predicate UnfoldsFirst(frags: Fragments, sels: seq<Selection>, inMutation: bool, atRoot: bool, n: Node)
    requires sels != []
  {
    match sels[0]
    case Field(_, _, children) => Unfolds(frags, children, false, false, n)
    case InlineFragment(children) => Unfolds(frags, children, inMutation, atRoot, n)
    case FragmentSpread(name) => name in frags && Unfolds(frags, frags[name], inMutation, atRoot, n)
  }

  lemma UnfoldsOnly(frags: Fragments, sels: seq<Selection>, inMutation: bool, atRoot: bool, n: Node)
    requires sels != [] && Unfolds(frags, sels, inMutation, atRoot, n)
    ensures n == Node(sels[0], inMutation, atRoot) || UnfoldsFirst(frags, sels, inMutation, atRoot, n)
            || Unfolds(frags, sels[1..], inMutation, atRoot, n)
  {
    var path: seq<nat> :| NodeAt(frags, sels, inMutation, atRoot, path) == Some(n);
    if path[0] > 0 {
      var shifted: seq<nat> := [path[0] - 1] + path[1..];
      assert shifted[1..] == path[1..];
      assert NodeAt(frags, sels[1..], inMutation, atRoot, shifted) == Some(n);
    } else if |path| > 1 {
      var below: seq<nat> := path[1..];
      match sels[0] {
        case Field(_, _, children) => assert NodeAt(frags, children, false, false, below) == Some(n);
        case InlineFragment(children) => assert NodeAt(frags, children, inMutation, atRoot, below) == Some(n);
        case FragmentSpread(name) => assert NodeAt(frags, frags[name], inMutation, atRoot, below) == Some(n);
      }
    }
  }

  /** The nodes of an unfolding: the first one, those below it, and those of the rest. */
  lemma UnfoldsCases(frags: Fragments, sels: seq<Selection>, inMutation: bool, atRoot: bool, n: Node)
    requires sels != []
    ensures Unfolds(frags, sels, inMutation, atRoot, n) <==>
            || n == Node(sels[0], inMutation, atRoot)
            || UnfoldsFirst(frags, sels, inMutation, atRoot, n)
            || Unfolds(frags, sels[1..], inMutation, atRoot, n)
  {
    if Unfolds(frags, sels, inMutation, atRoot, n) {
      UnfoldsOnly(frags, sels, inMutation, atRoot, n);
    }
    if n == Node(sels[0], inMutation, atRoot) {
      var path: seq<nat> := [0];
      assert NodeAt(frags, sels, inMutation, atRoot, path) == Some(n);
    }
    if UnfoldsFirst(frags, sels, inMutation, atRoot, n) {
      forall p: seq<nat> ensures ([0] + p)[1..] == p {}
      match sels[0]
      case Field(_, _, children) => UnfoldsBelow(frags, sels, children, inMutation, atRoot, false, false, n);
      case InlineFragment(children) => UnfoldsBelow(frags, sels, children, inMutation, atRoot, inMutation, atRoot, n);
      case FragmentSpread(name) => UnfoldsBelow(frags, sels, frags[name], inMutation, atRoot, inMutation, atRoot, n);
    }
    if Unfolds(frags, sels[1..], inMutation, atRoot, n) {
      UnfoldsInTail(frags, sels, inMutation, atRoot, n);
    }
  }

  ghost predicate AllAllowed(t: Tables, si: TokenScopeInfo, sels: seq<Selection>, inMutation: bool, atRoot: bool) {
    forall n :: Unfolds(map[], sels, inMutation, atRoot, n) ==> NodeAllowed(t, map[], si, n)
  }

  ghost predicate SomeLookup(sels: seq<Selection>, inMutation: bool, atRoot: bool) {
    exists n :: Unfolds(map[], sels, inMutation, atRoot, n) && IsLookup(n)
  }

  ghost predicate SomeScoped(t: Tables, sels: seq<Selection>, inMutation: bool, atRoot: bool) {
    exists n :: Unfolds(map[], sels, inMutation, atRoot, n) && RequiresScope(t, n)
  }

  lemma {:induction false} TreeIsAllowed(t: Tables, si: TokenScopeInfo, sels: seq<Selection>,
                                         inMutation: bool, atRoot: bool)
    ensures AllAllowed(t, si, sels, inMutation, atRoot) <==> TreeAllowed(t, si, sels, PlaceOf(inMutation, atRoot))
  {
    if sels == [] {
      forall n ensures !Unfolds(map[], sels, inMutation, atRoot, n) {}
    } else {
      var first := Node(sels[0], inMutation, atRoot);
      forall n {
        UnfoldsCases(map[], sels, inMutation, atRoot, n);
      }
      assert Unfolds(map[], sels, inMutation, atRoot, first);
      TreeIsAllowed(t, si, sels[1..], inMutation, atRoot);
      match sels[0]
      case Field(name, args, children) =>
        NodeAllowedPlainly(t, map[], si, first);
        TreeIsAllowed(t, si, children, false, false);
      case InlineFragment(children) => TreeIsAllowed(t, si, children, inMutation, atRoot);
      case FragmentSpread(_) =>
    }
  }

  lemma {:induction false} TreeHas(t: Tables, sels: seq<Selection>, inMutation: bool, atRoot: bool)
    ensures SomeLookup(sels, inMutation, atRoot) <==> HasLookup(sels)
    ensures SomeScoped(t, sels, inMutation, atRoot) <==> HasScoped(t, sels, PlaceOf(inMutation, atRoot))
  {
    if sels == [] {
      forall n ensures !Unfolds(map[], sels, inMutation, atRoot, n) {}
    } else {
      forall n {
        UnfoldsCases(map[], sels, inMutation, atRoot, n);
      }
      assert Unfolds(map[], sels, inMutation, atRoot, Node(sels[0], inMutation, atRoot));
      TreeHas(t, sels[1..], inMutation, atRoot);
      match sels[0]
      case Field(_, _, children) => TreeHas(t, children, false, false);
      case InlineFragment(children) => TreeHas(t, children, inMutation, atRoot);
      case FragmentSpread(_) =>
    }
  }

  lemma PolicyIsUnfolding(t: Tables, si: TokenScopeInfo, op: Operation)
    ensures UnfoldingAllowed(t, map[], si, op) <==> PolicyMet(t, si, op)
  {
    var m := op.kind == Mutation;
    TreeIsAllowed(t, si, op.sels, m, true);
    TreeHas(t, op.sels, m, true);
    forall n | Unfolds(map[], op.sels, m, true, n)
      ensures exists path: seq<nat> :: OpNode(map[], op, path) == Some(n)
    {
      var path: seq<nat> :| NodeAt(map[], op.sels, m, true, path) == Some(n);
      assert OpNode(map[], op, path) == Some(n);
    }
    forall path: seq<nat> | OpNode(map[], op, path).Some?
      ensures Unfolds(map[], op.sels, m, true, OpNode(map[], op, path).value)
    {
      assert NodeAt(map[], op.sels, m, true, path) == Some(OpNode(map[], op, path).value);
    }
  }

  // ----- The gate -----

  lemma AcceptedIsPassing(t: Tables, si: TokenScopeInfo, req: Request, op: Operation)
    requires Analysable(t, Some(req), op)
    ensures Accepted(t, si, Some(req)) <==>
            Passes(si, op, WalkOperation(t, FragmentTable(req.doc.fragments), op))
  {
    if Accepted(t, si, Some(req)) {
      var other :| Analysable(t, Some(req), other)
                   && Passes(si, other, WalkOperation(t, FragmentTable(req.doc.fragments), other));
      SelectedIsUnique(req.doc, req.operationName, op, other);
    }
  }

  /** A document without fragment cycles is forwarded if and only if the policy holds of
      its text, once every fragment is written out where it is spread. */
  lemma AcceptedIsPolicy(t: Tables, si: TokenScopeInfo, req: Request, op: Operation, rank: map<string, nat>, bound: nat)
    requires Analysable(t, Some(req), op)
    requires Ranks(FragmentTable(req.doc.fragments), rank)
    requires Below(FragmentTable(req.doc.fragments), rank, bound, op.sels)
    ensures Accepted(t, si, Some(req)) <==>
            PolicyMet(t, si, op.(sels := Inline(FragmentTable(req.doc.fragments), rank, bound, op.sels)))
  {
    var frags := FragmentTable(req.doc.fragments);
    var inlined := op.(sels := Inline(frags, rank, bound, op.sels));
    AcceptedIsPassing(t, si, req, op);
    AnalysisOfInlined(t, frags, rank, bound, op);
    assert WalkOperation(t, map[], inlined) == WalkOperation(t, frags, op);
    var none: map<string, nat> := map[];
    assert Ranks(map[], none);
    AcyclicNamesVisited(map[], inlined.sels);
    PassesIsPolicy(t, map[], si, inlined);
    PolicyIsUnfolding(t, si, inlined);
  }

  /** The operation's unfolding has this field at `path`. */
  predicate HasField(frags: Fragments, op: Operation, path: seq<nat>,
                           name: string, args: seq<Argument>, leaf: bool, place: Place)
  {
    var node := NodeAt(frags, op.sels, op.kind == Mutation, true, path);
    && node.Some? && node.value.sel.Field?
    && node.value.sel.name == name && node.value.sel.args == args
    && leaf == (node.value.sel.sels == []) && place == PlaceOf(node.value.inMutation, node.value.atRoot)
  }

  predicate HasSpread(frags: Fragments, op: Operation, path: seq<nat>, name: string) {
    var node := NodeAt(frags, op.sels, op.kind == Mutation, true, path);
    node.Some? && node.value.sel == FragmentSpread(name)
  }

  /** The policy at every node of an unfolding, finite or not. */
  ghost predicate PolicyAtNodes(t: Tables, frags: Fragments, si: TokenScopeInfo, op: Operation) {
    && op.kind != Subscription
    && (forall path: seq<nat>, name, args, leaf, place :: HasField(frags, op, path, name, args, leaf, place) ==>
          FieldAllowed(t, si, name, args, leaf, place))
    && (forall path: seq<nat>, name :: HasSpread(frags, op, path, name) ==> name in frags)
    && (si.repos != [] ==>
          && op.kind != Mutation
          && exists path: seq<nat>, args, leaf, place ::
               HasField(frags, op, path, "repository", args, leaf, place) && args != [])
    && (si.scopes != map[] && op.kind == Mutation ==>
          exists path: seq<nat>, name, args, leaf, place ::
            HasField(frags, op, path, name, args, leaf, place) && Scoped(t, name, place))
  }

  /** A node with its field, in both manners of speaking. */
  lemma FieldOfNode(t: Tables, frags: Fragments, si: TokenScopeInfo, op: Operation, path: seq<nat>, node: Node)
    requires OpNode(frags, op, path) == Some(node)
    ensures node.sel.Field? ==>
              var leaf, place := node.sel.sels == [], PlaceOf(node.inMutation, node.atRoot);
              && HasField(frags, op, path, node.sel.name, node.sel.args, leaf, place)
              && (NodeAllowed(t, frags, si, node) <==> FieldAllowed(t, si, node.sel.name, node.sel.args, leaf, place))
              && (RequiresScope(t, node) <==> Scoped(t, node.sel.name, place))
    ensures node.sel.FragmentSpread? ==> HasSpread(frags, op, path, node.sel.name)
  {
    if node.sel.Field? {
      NodeAllowedPlainly(t, frags, si, node);
    }
  }

  lemma NodesAllowed(t: Tables, frags: Fragments, si: TokenScopeInfo, op: Operation)
    ensures (forall path: seq<nat> :: OpNode(frags, op, path).Some? ==>
               NodeAllowed(t, frags, si, OpNode(frags, op, path).value)) <==>
            && (forall path: seq<nat>, name, args, leaf, place ::
                  HasField(frags, op, path, name, args, leaf, place) ==> FieldAllowed(t, si, name, args, leaf, place))
            && (forall path: seq<nat>, name :: HasSpread(frags, op, path, name) ==> name in frags)
  {
    forall path: seq<nat> | OpNode(frags, op, path).Some?
      ensures NodeAllowed(t, frags, si, OpNode(frags, op, path).value) <==>
              && (forall name, args, leaf, place ::
                    HasField(frags, op, path, name, args, leaf, place) ==> FieldAllowed(t, si, name, args, leaf, place))
              && (forall name :: HasSpread(frags, op, path, name) ==> name in frags)
    {
      FieldOfNode(t, frags, si, op, path, OpNode(frags, op, path).value);
    }
    forall path: seq<nat>, name, args, leaf, place | HasField(frags, op, path, name, args, leaf, place)
      ensures OpNode(frags, op, path).Some?
    {}
    forall path: seq<nat>, name | HasSpread(frags, op, path, name) ensures OpNode(frags, op, path).Some? {}
  }

  lemma SomeNodes(t: Tables, frags: Fragments, op: Operation)
    ensures (exists path: seq<nat> :: OpNode(frags, op, path).Some? && IsLookup(OpNode(frags, op, path).value)) <==>
            exists path: seq<nat>, args, leaf, place ::
              HasField(frags, op, path, "repository", args, leaf, place) && args != []
    ensures (exists path: seq<nat> ::
               OpNode(frags, op, path).Some? && RequiresScope(t, OpNode(frags, op, path).value)) <==>
            exists path: seq<nat>, name, args, leaf, place ::
              HasField(frags, op, path, name, args, leaf, place) && Scoped(t, name, place)
  {
    forall path: seq<nat> | OpNode(frags, op, path).Some? && OpNode(frags, op, path).value.sel.Field?
      ensures var node := OpNode(frags, op, path).value;
              HasField(frags, op, path, node.sel.name, node.sel.args, node.sel.sels == [],
                       PlaceOf(node.inMutation, node.atRoot))
    {}
    forall path: seq<nat>, name, args, leaf, place | HasField(frags, op, path, name, args, leaf, place)
      ensures OpNode(frags, op, path).Some?
      ensures IsLookup(OpNode(frags, op, path).value) <==> name == "repository" && args != []
      ensures RequiresScope(t, OpNode(frags, op, path).value) <==> Scoped(t, name, place)
    {}
  }

  lemma UnfoldingAllowedAtNodes(t: Tables, frags: Fragments, si: TokenScopeInfo, op: Operation)
    ensures UnfoldingAllowed(t, frags, si, op) <==> PolicyAtNodes(t, frags, si, op)
  {
    NodesAllowed(t, frags, si, op);
    SomeNodes(t, frags, op);
  }

  /** On any document: an operation that can be analysed is forwarded if and only if the
      policy holds at every node of its unfolding. */
  lemma AcceptedAtNodes(t: Tables, si: TokenScopeInfo, req: Request, op: Operation)
    requires Analysable(t, Some(req), op) && Complete(FragmentTable(req.doc.fragments), op)
    ensures Accepted(t, si, Some(req)) <==> PolicyAtNodes(t, FragmentTable(req.doc.fragments), si, op)
  {
    AcceptedIsAllowed(t, si, req, op);
    UnfoldingAllowedAtNodes(t, FragmentTable(req.doc.fragments), si, op);
  }

  /** What a field asks of a scoped token. */
  ghost predicate Asks(t: Tables, name: string, place: Place, permission: string, level: Level) {
    if place.MutationRoot?
    then name in t.mutationScopes && t.mutationScopes[name] == Requirement(permission, level)
    else name !in t.alwaysAllowed && name in t.fieldScopes && t.fieldScopes[name] == Requirement(permission, level)
  }

  /** A scoped token's request is forwarded only if the token holds "write" for every
      write, and "read" or "write" for every read, that a field of the unfolding asks for. */
  lemma ForwardedIsGranted(t: Tables, si: TokenScopeInfo, req: Request, op: Operation)
    requires Analysable(t, Some(req), op) && Complete(FragmentTable(req.doc.fragments), op)
    requires Accepted(t, si, Some(req)) && si.scopes != map[]
    ensures forall path: seq<nat>, name, args, leaf, place, p, level ::
              HasField(FragmentTable(req.doc.fragments), op, path, name, args, leaf, place)
              && Asks(t, name, place, p, level) ==>
                p in si.scopes && (si.scopes[p] == "write" || (level == Read && si.scopes[p] == "read"))
  {
    AcceptedAtNodes(t, si, req, op);
    forall path: seq<nat>, name, args, leaf, place, p, level |
      HasField(FragmentTable(req.doc.fragments), op, path, name, args, leaf, place) && Asks(t, name, place, p, level)
      ensures p in si.scopes && (si.scopes[p] == "write" || (level == Read && si.scopes[p] == "read"))
    {
      assert FieldAllowed(t, si, name, args, leaf, place);
    }
  }

  /** Every field is known, and the token holds what it asks for. */
  ghost predicate KnownAndGranted(t: Tables, scopes: map<string, string>, name: string, leaf: bool, place: Place) {
    && (if place.MutationRoot? then name in t.mutationScopes
        else name in t.alwaysAllowed || name in t.fieldScopes || (leaf && place.Nested?))
    && forall p, level :: Asks(t, name, place, p, level) ==>
         p in scopes && (scopes[p] == "write" || (level == Read && scopes[p] == "read"))
  }

  /** The converse, for tokens without a list of repositories. */
  lemma GrantedIsForwarded(t: Tables, si: TokenScopeInfo, req: Request, op: Operation)
    requires Analysable(t, Some(req), op) && Complete(FragmentTable(req.doc.fragments), op)
    requires si.repos == [] && op.kind != Subscription
    requires forall path: seq<nat>, name :: HasSpread(FragmentTable(req.doc.fragments), op, path, name) ==>
               name in FragmentTable(req.doc.fragments)
    requires forall path: seq<nat>, name, args, leaf, place ::
               HasField(FragmentTable(req.doc.fragments), op, path, name, args, leaf, place) ==>
                 KnownAndGranted(t, si.scopes, name, leaf, place)
    requires op.kind == Mutation ==> exists path: seq<nat>, name, args, leaf, place ::
               HasField(FragmentTable(req.doc.fragments), op, path, name, args, leaf, place) && Scoped(t, name, place)
    ensures Accepted(t, si, Some(req))
  {
    var frags := FragmentTable(req.doc.fragments);
    forall path: seq<nat>, name, args, leaf, place | HasField(frags, op, path, name, args, leaf, place)
      ensures FieldAllowed(t, si, name, args, leaf, place)
    {
      assert KnownAndGranted(t, si.scopes, name, leaf, place);
      if place.MutationRoot? {
        assert Asks(t, name, place, t.mutationScopes[name].permission, t.mutationScopes[name].level);
      } else if name !in t.alwaysAllowed && name in t.fieldScopes {
        assert Asks(t, name, place, t.fieldScopes[name].permission, t.fieldScopes[name].level);
      }
    }
    assert PolicyAtNodes(t, frags, si, op);
    AcceptedAtNodes(t, si, req, op);
  }

  /** A field written at the root of a mutation needs the level its entry of the table names. */
  lemma MutationNeedsItsScope(t: Tables, si: TokenScopeInfo, req: Request, op: Operation, i: nat,
                              name: string, args: seq<Argument>, children: seq<Selection>)
    requires Analysable(t, Some(req), op) && Complete(FragmentTable(req.doc.fragments), op)
    requires op.kind == Mutation && i < |op.sels| && op.sels[i] == Field(name, args, children)
    requires Accepted(t, si, Some(req)) && si.scopes != map[]
    ensures name in t.mutationScopes
    ensures var p := t.mutationScopes[name].permission;
            p in si.scopes
            && (si.scopes[p] == "write" || (t.mutationScopes[name].level == Read && si.scopes[p] == "read"))
  {
    AcceptedAtNodes(t, si, req, op);
    var path: seq<nat> := [i];
    var frags := FragmentTable(req.doc.fragments);
    assert NodeAt(frags, op.sels, op.kind == Mutation, true, path) == Some(Node(op.sels[i], true, true));
    assert HasField(frags, op, path, name, args, children == [], MutationRoot);
    assert FieldAllowed(t, si, name, args, children == [], MutationRoot);
  }

  // ----- Selecting the operation -----

  /** Without a name a document of one operation selects it; with a name, and no two
      operations of that name, the operation so named is selected. */
  lemma SelectedPlainly(doc: Document, operationName: string, op: Operation)
    ensures operationName == "" ==> (Selected(doc, operationName, op) <==> doc.operations == [op])
    ensures operationName != ""
            && (forall i, j :: 0 <= i < j < |doc.operations| ==> doc.operations[i].name != doc.operations[j].name) ==>
              (Selected(doc, operationName, op) <==> op in doc.operations && op.name == operationName)
  {
    if op in doc.operations {
      var i :| 0 <= i < |doc.operations| && doc.operations[i] == op;
      assert doc.operations[i] == op;
    }
  }
}

/** The decision to forward a GraphQL request (internal/proxy/proxy.go), from the raw
    body through the analysis to the checks against the token's restrictions. */
module GraphQLGate {
  import opened Prelude
  import opened GraphQLAst
  import opened GraphQLAnalyzer
  import opened GraphQLSoundness
  import opened GraphQLVisits

  // ----- Token restrictions -----

  /** Empty repositories or scopes mean no restriction of that kind. */
  datatype TokenScopeInfo = TokenScopeInfo(repos: seq<string>, scopes: map<string, string>) {
    predicate OpenScoped() {
      repos == [] && scopes == map[]
    }
  }

  function LevelName(level: Level): string {
    match level
    case Read => "read"
    case Write => "write"
  }

  predicate HasPermission(scopes: map<string, string>, req: Requirement) {
    && req.permission in scopes
    && var granted := scopes[req.permission];
       if req.level == Read then granted == "read" || granted == "write" else granted == LevelName(req.level)
  }

  function LowerChar(c: char): char {
    if 'A' <= c <= 'Z' then c + 32 as char else c
  }

  function Lower(s: string): string {
    seq(|s|, i requires 0 <= i < |s| => LowerChar(s[i]))
  }

  predicate EqualFold(a: string, b: string) {
    Lower(a) == Lower(b)
  }

  predicate RepoAllowed(si: TokenScopeInfo, repo: string) {
    exists i :: 0 <= i < |si.repos| && EqualFold(si.repos[i], repo)
  }

  // ----- From the document to the analysis -----

  /** The lookup table: of several definitions with one name the last one counts. */
  function FragmentTable(defs: seq<FragmentDefinition>): Fragments {
    if defs == [] then map[]
    else FragmentTable(defs[..|defs| - 1])[defs[|defs| - 1].name := defs[|defs| - 1].sels]
  }

  lemma {:induction false} LastDefinitionCounts(defs: seq<FragmentDefinition>, i: nat)
    requires i < |defs| && forall j :: i < j < |defs| ==> defs[j].name != defs[i].name
    ensures defs[i].name in FragmentTable(defs) && FragmentTable(defs)[defs[i].name] == defs[i].sels
  {
    var init := defs[..|defs| - 1];
    if i < |init| {
      assert forall j :: 0 <= j < |init| ==> init[j] == defs[j];
      LastDefinitionCounts(init, i);
    }
  }

  /** The operation GitHub executes: the first of the requested name, or the only one. */
  predicate Selected(doc: Document, operationName: string, op: Operation) {
    if operationName != "" then
      exists i :: 0 <= i < |doc.operations| && doc.operations[i] == op && op.name == operationName
                  && forall j :: 0 <= j < i ==> doc.operations[j].name != operationName
    else doc.operations == [op]
  }

  method SelectOperation(doc: Document, operationName: string) returns (r: Option<Operation>)
    requires doc.operations != []
    ensures r.Some? ==> Selected(doc, operationName, r.value)
    ensures r.None? ==> forall op :: !Selected(doc, operationName, op)
  {
    if operationName != "" {
      for i := 0 to |doc.operations|
        invariant forall j :: 0 <= j < i ==> doc.operations[j].name != operationName
      {
        if doc.operations[i].name == operationName {
          return Some(doc.operations[i]);
        }
      }
      return None;
    }
    if |doc.operations| > 1 {
      return None;
    }
    return Some(doc.operations[0]);
  }

  lemma SelectedIsUnique(doc: Document, operationName: string, a: Operation, b: Operation)
    requires Selected(doc, operationName, a) && Selected(doc, operationName, b)
    ensures a == b
  {
    if operationName != "" {
      var i :| 0 <= i < |doc.operations| && doc.operations[i] == a && a.name == operationName
               && forall j :: 0 <= j < i ==> doc.operations[j].name != operationName;
      var k :| 0 <= k < |doc.operations| && doc.operations[k] == b && b.name == operationName
               && forall j :: 0 <= j < k ==> doc.operations[j].name != operationName;
      assert !(i < k) && !(k < i);
    }
  }

  /** Reads and writes of one permission collapse to the stricter one. */
  ghost predicate Collapses(seen: set<Requirement>, collapsed: map<string, Level>) {
    && (forall r :: r in seen ==> r.permission in collapsed)
    && (forall p :: p in collapsed ==> Requirement(p, collapsed[p]) in seen)
    && (forall p :: p in collapsed && collapsed[p] == Read ==> Requirement(p, Write) !in seen)
  }

  /** The loop over the seen scopes, in whatever order the map yields them. */
  method CollapseScopes(seen: set<Requirement>) returns (collapsed: map<string, Level>)
    ensures Collapses(seen, collapsed)
  {
    collapsed := map[];
    var rest := seen;
    while rest != {}
      invariant rest <= seen
      invariant Collapses(seen - rest, collapsed)
    {
      var s :| s in rest;
      if s.permission !in collapsed || (collapsed[s.permission] == Read && s.level == Write) {
        collapsed := collapsed[s.permission := s.level];
      }
      rest := rest - {s};
    }
    assert seen - rest == seen;
  }

  /** Checking the collapsed scopes is checking every requirement seen. */
  lemma CollapseKeepsVerdict(seen: set<Requirement>, collapsed: map<string, Level>, scopes: map<string, string>)
    requires Collapses(seen, collapsed)
    ensures (forall p :: p in collapsed ==> HasPermission(scopes, Requirement(p, collapsed[p])))
       <==> (forall r :: r in seen ==> HasPermission(scopes, r))
    ensures collapsed == map[] <==> seen == {}
  {
    if forall p :: p in collapsed ==> HasPermission(scopes, Requirement(p, collapsed[p])) {
      forall r | r in seen ensures HasPermission(scopes, r) {
        assert HasPermission(scopes, Requirement(r.permission, collapsed[r.permission]));
        assert collapsed[r.permission] == r.level || collapsed[r.permission] == Write;
      }
    }
    if seen != {} {
      var r :| r in seen;
      assert r.permission in collapsed;
    }
    if collapsed != map[] {
      var p :| p in collapsed;
      assert Requirement(p, collapsed[p]) in seen;
    }
  }

  datatype Analysis = Analysis(
    requiredScopes: map<string, Level>,
    referencedRepos: set<string>,
    hasMutation: bool,
    hasSubscription: bool,
    crossRepoFields: set<string>,
    unknownFields: set<string>,
    hasUnpinnedRepositoryLookup: bool)

  /** The analysis is the content of `found`, sorted by kind. */
  ghost predicate Describes(a: Analysis, op: Operation, found: set<Finding>) {
    && a.hasMutation == op.kind.Mutation?
    && a.hasSubscription == op.kind.Subscription?
    && Collapses(set x | x in found && x.Scope? :: x.req, a.requiredScopes)
    && (forall r :: r in a.referencedRepos <==> Repo(r) in found)
    && (forall f :: f in a.crossRepoFields <==> CrossRepo(f) in found)
    && (forall f :: f in a.unknownFields <==> Unknown(f) in found)
    && a.hasUnpinnedRepositoryLookup == (Unpinned in found)
  }

  /** The walk of the operation, from its root and with nothing on the stack. */
  function WalkOperation(t: Tables, frags: Fragments, op: Operation): set<Finding> {
    Walk(t, frags, op.sels, {}, op.kind.Mutation?, true, 1)
  }

  /** The request can be analysed as the operation `op`. */
  ghost predicate Analysable(t: Tables, parsed: Option<Request>, op: Operation) {
    && parsed.Some?
    && parsed.value.doc.operations != []
    && Selected(parsed.value.doc, parsed.value.operationName, op)
    && TooDeep !in WalkOperation(t, FragmentTable(parsed.value.doc.fragments), op)
  }

  /** `None` stands for the error returns. */
  method AnalyzeRequest(t: Tables, parsed: Option<Request>) returns (r: Option<Analysis>)
    ensures r.Some? <==> exists op :: Analysable(t, parsed, op)
    ensures r.Some? ==> forall op :: Analysable(t, parsed, op) ==>
              Describes(r.value, op, WalkOperation(t, FragmentTable(parsed.value.doc.fragments), op))
  {
    if parsed.None? || |parsed.value.doc.operations| == 0 {
      return None;
    }
    var doc := parsed.value.doc;
    var frags: Fragments := map[];
    for i := 0 to |doc.fragments|
      invariant frags == FragmentTable(doc.fragments[..i])
    {
      assert doc.fragments[..i + 1][..i] == doc.fragments[..i];
      frags := frags[doc.fragments[i].name := doc.fragments[i].sels];
    }
    assert doc.fragments[..|doc.fragments|] == doc.fragments;

    var selected := SelectOperation(doc, parsed.value.operationName);
    if selected.None? {
      return None;
    }
    var op := selected.value;
    forall other | Selected(doc, parsed.value.operationName, other) ensures other == op {
      SelectedIsUnique(doc, parsed.value.operationName, op, other);
    }
    var a := new Analyzer(t, frags);
    a.WalkSelectionSet(op.sels, op.kind.Mutation?, true, 1);
    assert a.found == WalkOperation(t, frags, op);
    if TooDeep in a.found {
      return None;
    }
    assert Analysable(t, parsed, op);
    var scopes := CollapseScopes(set x | x in a.found && x.Scope? :: x.req);
    var analysis := Analysis(
      scopes,
      set x | x in a.found && x.Repo? :: x.fullName,
      op.kind.Mutation?,
      op.kind.Subscription?,
      set x | x in a.found && x.CrossRepo? :: x.field,
      set x | x in a.found && x.Unknown? :: x.field,
      Unpinned in a.found);
    return Some(analysis);
  }

  // ----- The chain of checks -----

  const MAX_BODY_BYTES: nat := 0x10_0000

  datatype Decision = Forward(body: Bytes) | Reject(status: nat)

  method MissingScopes(required: map<string, Level>, scopes: map<string, string>) returns (missing: set<string>)
    ensures missing == set p | p in required && !HasPermission(scopes, Requirement(p, required[p]))
  {
    missing := {};
    var rest := required.Keys;
    while rest != {}
      invariant rest <= required.Keys
      invariant missing == set p | p in required && p !in rest && !HasPermission(scopes, Requirement(p, required[p]))
    {
      var p :| p in rest;
      if !HasPermission(scopes, Requirement(p, required[p])) {
        missing := missing + {p};
      }
      rest := rest - {p};
    }
  }

  /** The findings pass every check of the chain. */
  ghost predicate Passes(si: TokenScopeInfo, op: Operation, found: set<Finding>) {
    && !op.kind.Subscription?
    && (forall f :: Unknown(f) !in found)
    && (si.repos != [] ==>
          && (forall f :: CrossRepo(f) !in found)
          && !op.kind.Mutation?
          && Unpinned !in found
          && (exists r :: Repo(r) in found)
          && (forall r :: Repo(r) in found ==> RepoAllowed(si, r)))
    && (si.scopes != map[] ==>
          && (op.kind.Mutation? ==> exists r :: Scope(r) in found)
          && (forall r :: Scope(r) in found ==> HasPermission(si.scopes, r)))
  }

  method CheckAnalysis(si: TokenScopeInfo, a: Analysis, ghost op: Operation, ghost found: set<Finding>)
      returns (ok: bool)
    requires Describes(a, op, found)
    ensures ok <==> Passes(si, op, found)
  {
    ghost var seen := set x | x in found && x.Scope? :: x.req;
    assert forall r :: r in seen <==> Scope(r) in found;
    CollapseKeepsVerdict(seen, a.requiredScopes, si.scopes);
    if a.hasSubscription {
      return false;
    }
    if |a.unknownFields| > 0 {
      var f :| f in a.unknownFields;
      assert Unknown(f) in found;
      return false;
    }
    if |si.repos| > 0 {
      if |a.crossRepoFields| > 0 {
        var f :| f in a.crossRepoFields;
        assert CrossRepo(f) in found;
        return false;
      }
      if a.hasMutation {
        return false;
      }
      if a.hasUnpinnedRepositoryLookup {
        return false;
      }
      if |a.referencedRepos| == 0 {
        return false;
      }
      var r0 :| r0 in a.referencedRepos;
      assert Repo(r0) in found;
      var rest := a.referencedRepos;
      while rest != {}
        invariant rest <= a.referencedRepos
        invariant forall r :: r in a.referencedRepos && r !in rest ==> RepoAllowed(si, r)
      {
        var r :| r in rest;
        if !RepoAllowed(si, r) {
          assert Repo(r) in found;
          return false;
        }
        rest := rest - {r};
      }
    }
    if si.scopes != map[] {
      if a.hasMutation && |a.requiredScopes| == 0 {
        return false;
      }
      if a.hasMutation {
        var p :| p in a.requiredScopes;
        assert Scope(Requirement(p, a.requiredScopes[p])) in found;
      }
      var missing := MissingScopes(a.requiredScopes, si.scopes);
      if |missing| > 0 {
        var p :| p in missing;
        assert Scope(Requirement(p, a.requiredScopes[p])) in found;
        return false;
      }
      assert missing == {};
      forall p | p in a.requiredScopes ensures HasPermission(si.scopes, Requirement(p, a.requiredScopes[p])) {
        assert p !in missing;
      }
    }
    return true;
  }

  // ----- What forwarding means for the unfolded query -----

  predicate Granted(si: TokenScopeInfo, req: Requirement) {
    si.scopes != map[] ==> HasPermission(si.scopes, req)
  }

  /** The policy, read off a single node of the unfolding. */
  predicate NodeAllowed(t: Tables, frags: Fragments, si: TokenScopeInfo, node: Node) {
    match node.sel
    case InlineFragment(_) => true
    case FragmentSpread(name) => name in frags
    case Field(name, args, children) =>
      && (if node.inMutation && node.atRoot then
            name in t.mutationScopes && Granted(si, t.mutationScopes[name])
          else
            || name in t.alwaysAllowed
            || (name in t.fieldScopes && Granted(si, t.fieldScopes[name]))
            || (name !in t.fieldScopes && children == [] && !node.atRoot))
      && (si.repos != [] ==>
            && name !in t.crossRepoAnywhere
            && !(node.atRoot && name in t.crossRepoRootOnly)
            && (IsLookup(node) ==> PinnedRepo(node).Some? && RepoAllowed(si, PinnedRepo(node).value)))
  }

  predicate IsLookup(node: Node) {
    node.sel.Field? && node.sel.name == "repository" && node.sel.args != []
  }

  function PinnedRepo(node: Node): Option<string>
    requires node.sel.Field?
  {
    var owner, repo := LastLiteral(node.sel.args, "owner"), LastLiteral(node.sel.args, "name");
    if owner != "" && repo != "" then Some(owner + "/" + repo) else None
  }

  predicate RequiresScope(t: Tables, node: Node) {
    && node.sel.Field?
    && (if node.inMutation && node.atRoot then node.sel.name in t.mutationScopes
        else node.sel.name !in t.alwaysAllowed && node.sel.name in t.fieldScopes)
  }

  /** The node of the operation's unfolding at `path`. */
  function OpNode(frags: Fragments, op: Operation, path: seq<nat>): Option<Node> {
    NodeAt(frags, op.sels, op.kind.Mutation?, true, path)
  }

  /** The policy for the whole unfolded operation. */
  ghost predicate UnfoldingAllowed(t: Tables, frags: Fragments, si: TokenScopeInfo, op: Operation) {
    && !op.kind.Subscription?
    && (forall path: seq<nat> :: OpNode(frags, op, path).Some? ==>
          NodeAllowed(t, frags, si, OpNode(frags, op, path).value))
    && (si.repos != [] ==>
          && !op.kind.Mutation?
          && exists path: seq<nat> :: OpNode(frags, op, path).Some? && IsLookup(OpNode(frags, op, path).value))
    && (si.scopes != map[] && op.kind.Mutation? ==>
          exists path: seq<nat> :: OpNode(frags, op, path).Some? && RequiresScope(t, OpNode(frags, op, path).value))
  }

  /** A node is allowed exactly when none of its findings is held against it. */
  ghost predicate Harmless(si: TokenScopeInfo, x: Finding) {
    match x
    case Scope(req) => Granted(si, req)
    case Repo(name) => si.repos != [] ==> RepoAllowed(si, name)
    case CrossRepo(_) => si.repos == []
    case Unknown(_) => false
    case Unpinned => si.repos == []
    case TooDeep => true
  }

  lemma NodeAllowedByFindings(t: Tables, frags: Fragments, si: TokenScopeInfo, node: Node)
    ensures NodeAllowed(t, frags, si, node) <==> forall x :: x in NodeFindings(t, frags, node) ==> Harmless(si, x)
  {
    match node.sel
    case InlineFragment(_) =>
    case FragmentSpread(name) =>
      if name !in frags {
        assert Unknown("fragment:" + name) in NodeFindings(t, frags, node);
      }
    case Field(name, args, children) =>
      var lookup := RepositoryFinding(name, args);
      var cross := CrossRepoFinding(t, name, node.atRoot);
      var access := AccessFinding(t, name, children == [], node.inMutation, node.atRoot);
      assert NodeFindings(t, frags, node) == lookup + cross + access;
      assert (forall x :: x in NodeFindings(t, frags, node) ==> Harmless(si, x)) <==>
             && (forall x :: x in lookup ==> Harmless(si, x))
             && (forall x :: x in cross ==> Harmless(si, x))
             && (forall x :: x in access ==> Harmless(si, x));
  }

  /** The walk records exactly what the unfolding holds. */
  ghost predicate Exact(t: Tables, frags: Fragments, op: Operation) {
    forall x :: x != TooDeep ==>
      (x in WalkOperation(t, frags, op) <==> Found(t, frags, op.sels, op.kind.Mutation?, true, x))
  }

  /** The walk misses nothing, under any policy tables: always for a query, and for a
      mutation if it visits the names of the nested fields. */
  ghost predicate Complete(frags: Fragments, op: Operation) {
    op.kind.Mutation? ==> NamesVisited(frags, op.sels)
  }

  lemma WalkOperationIsExact(t: Tables, frags: Fragments, op: Operation)
    requires Complete(frags, op)
    requires TooDeep !in WalkOperation(t, frags, op)
    ensures Exact(t, frags, op)
  {
    CapIsTransparent(t, frags, op.sels, {}, op.kind.Mutation?, true, 1);
    forall x | x != TooDeep
      ensures x in WalkOperation(t, frags, op) <==> Found(t, frags, op.sels, op.kind.Mutation?, true, x)
    {
      if op.kind.Mutation? {
        MutationWalkIsExact(t, frags, op.sels, x);
      } else {
        QueryWalkIsExact(t, frags, op.sels, x);
      }
    }
  }

  lemma FindingsHarmless(t: Tables, frags: Fragments, si: TokenScopeInfo, op: Operation)
    requires Exact(t, frags, op) && TooDeep !in WalkOperation(t, frags, op)
    ensures (forall x :: x in WalkOperation(t, frags, op) ==> Harmless(si, x)) <==>
            (forall path: seq<nat> :: OpNode(frags, op, path).Some? ==>
                                        NodeAllowed(t, frags, si, OpNode(frags, op, path).value))
  {
    var found := WalkOperation(t, frags, op);
    if forall x :: x in found ==> Harmless(si, x) {
      forall path: seq<nat> | OpNode(frags, op, path).Some?
        ensures NodeAllowed(t, frags, si, OpNode(frags, op, path).value)
      {
        var node := OpNode(frags, op, path).value;
        forall x | x in NodeFindings(t, frags, node) ensures Harmless(si, x) {
          assert FoundAt(t, frags, op.sels, op.kind.Mutation?, true, path, x);
          assert x in found || x == TooDeep;
        }
        NodeAllowedByFindings(t, frags, si, node);
      }
    }
    if forall path: seq<nat> :: OpNode(frags, op, path).Some? ==>
                                  NodeAllowed(t, frags, si, OpNode(frags, op, path).value) {
      forall x | x in found ensures Harmless(si, x) {
        var path: seq<nat> :| FoundAt(t, frags, op.sels, op.kind.Mutation?, true, path, x);
        NodeAllowedByFindings(t, frags, si, OpNode(frags, op, path).value);
      }
    }
  }

  lemma LookupFound(t: Tables, frags: Fragments, op: Operation)
    requires Exact(t, frags, op)
    ensures (exists r :: Repo(r) in WalkOperation(t, frags, op)) || Unpinned in WalkOperation(t, frags, op) <==>
            exists path: seq<nat> :: OpNode(frags, op, path).Some? && IsLookup(OpNode(frags, op, path).value)
  {
    var found := WalkOperation(t, frags, op);
    if x :| x in found && (x.Repo? || x.Unpinned?) {
      LookupOfFinding(t, frags, op, x);
    }
    if path: seq<nat> :| OpNode(frags, op, path).Some? && IsLookup(OpNode(frags, op, path).value) {
      var node := OpNode(frags, op, path).value;
      var x := if PinnedRepo(node).Some? then Repo(PinnedRepo(node).value) else Unpinned;
      assert FoundAt(t, frags, op.sels, op.kind.Mutation?, true, path, x);
      assert x in found;
    }
  }

  lemma LookupOfFinding(t: Tables, frags: Fragments, op: Operation, x: Finding)
    requires Found(t, frags, op.sels, op.kind.Mutation?, true, x) && (x.Repo? || x.Unpinned?)
    ensures exists path: seq<nat> :: OpNode(frags, op, path).Some? && IsLookup(OpNode(frags, op, path).value)
  {
    var path: seq<nat> :| FoundAt(t, frags, op.sels, op.kind.Mutation?, true, path, x);
    assert OpNode(frags, op, path).Some? && IsLookup(OpNode(frags, op, path).value);
  }

  lemma ScopeOfNode(t: Tables, frags: Fragments, node: Node)
    ensures (exists r :: Scope(r) in NodeFindings(t, frags, node)) <==> RequiresScope(t, node)
  {
    if node.sel.Field? {
      var access := AccessFinding(t, node.sel.name, node.sel.sels == [], node.inMutation, node.atRoot);
      forall r ensures Scope(r) in NodeFindings(t, frags, node) <==> Scope(r) in access {}
      if RequiresScope(t, node) {
        var r := if node.inMutation && node.atRoot then t.mutationScopes[node.sel.name]
                 else t.fieldScopes[node.sel.name];
        assert Scope(r) in access;
      }
    }
  }

  lemma ScopeFound(t: Tables, frags: Fragments, op: Operation)
    requires Exact(t, frags, op)
    ensures (exists r :: Scope(r) in WalkOperation(t, frags, op)) <==>
            exists path: seq<nat> :: OpNode(frags, op, path).Some? && RequiresScope(t, OpNode(frags, op, path).value)
  {
    if r :| Scope(r) in WalkOperation(t, frags, op) {
      var path: seq<nat> :| FoundAt(t, frags, op.sels, op.kind.Mutation?, true, path, Scope(r));
      ScopeOfNode(t, frags, OpNode(frags, op, path).value);
    }
    if path: seq<nat> :| OpNode(frags, op, path).Some? && RequiresScope(t, OpNode(frags, op, path).value) {
      ScopeOfNode(t, frags, OpNode(frags, op, path).value);
      var r :| Scope(r) in NodeFindings(t, frags, OpNode(frags, op, path).value);
      assert FoundAt(t, frags, op.sels, op.kind.Mutation?, true, path, Scope(r));
    }
  }

  /** The chain of checks decides the policy of the unfolding, exactly. */
  lemma PassesIsPolicy(t: Tables, frags: Fragments, si: TokenScopeInfo, op: Operation)
    requires Complete(frags, op)
    requires TooDeep !in WalkOperation(t, frags, op)
    ensures Passes(si, op, WalkOperation(t, frags, op)) <==> UnfoldingAllowed(t, frags, si, op)
  {
    var found := WalkOperation(t, frags, op);
    WalkOperationIsExact(t, frags, op);
    FindingsHarmless(t, frags, si, op);
    LookupFound(t, frags, op);
    ScopeFound(t, frags, op);
    if Passes(si, op, found) {
      assert forall x :: x in found ==> Harmless(si, x);
    }
    if UnfoldingAllowed(t, frags, si, op) {
      assert forall x :: x in found ==> Harmless(si, x);
      assert forall f :: CrossRepo(f) in found ==> Harmless(si, CrossRepo(f));
      assert forall f :: Unknown(f) in found ==> Harmless(si, Unknown(f));
      assert forall r :: Repo(r) in found ==> Harmless(si, Repo(r));
      assert forall r :: Scope(r) in found ==> Harmless(si, Scope(r));
    }
  }

  /** The analysis succeeds and its findings pass the chain of checks. */
  ghost predicate Accepted(t: Tables, si: TokenScopeInfo, parsed: Option<Request>) {
    exists op ::
      && Analysable(t, parsed, op)
      && Passes(si, op, WalkOperation(t, FragmentTable(parsed.value.doc.fragments), op))
  }

  /** One operation is selected, its unfolding is at most 100 levels deep, and the
      unfolding meets the policy. */
  ghost predicate Forwardable(t: Tables, si: TokenScopeInfo, req: Request) {
    exists op ::
      && req.doc.operations != [] && Selected(req.doc, req.operationName, op)
      && !Reaches(FragmentTable(req.doc.fragments), op.sels, 100)
      && UnfoldingAllowed(t, FragmentTable(req.doc.fragments), si, op)
  }

  /** Forwarding theorem: on documents without fragment cycles the program's verdict is
      the policy of the unfolding. */
  lemma AcceptedIsForwardable(t: Tables, si: TokenScopeInfo, req: Request)
    requires Acyclic(FragmentTable(req.doc.fragments))
    ensures Accepted(t, si, Some(req)) <==> Forwardable(t, si, req)
  {
    var frags := FragmentTable(req.doc.fragments);
    var rank :| Ranks(frags, rank);
    var bound := BoundExists(frags, rank, frags.Keys);
    forall op: Operation
      ensures TooDeep in WalkOperation(t, frags, op) <==> Reaches(frags, op.sels, MAX_ANALYSIS_DEPTH)
      ensures TooDeep !in WalkOperation(t, frags, op) ==>
                (Passes(si, op, WalkOperation(t, frags, op)) <==> UnfoldingAllowed(t, frags, si, op))
    {
      TooDeepIsExact(t, frags, rank, bound, op.sels, {}, op.kind.Mutation?, true, 1);
      if TooDeep !in WalkOperation(t, frags, op) {
        AcyclicNamesVisited(frags, op.sels);
        PassesIsPolicy(t, frags, si, op);
      }
    }
    if Accepted(t, si, Some(req)) {
      var op :| Analysable(t, Some(req), op) && Passes(si, op, WalkOperation(t, frags, op));
      assert UnfoldingAllowed(t, frags, si, op);
    }
    if Forwardable(t, si, req) {
      var op :| req.doc.operations != [] && Selected(req.doc, req.operationName, op)
        && !Reaches(frags, op.sels, MAX_ANALYSIS_DEPTH) && UnfoldingAllowed(t, frags, si, op);
      assert Analysable(t, Some(req), op);
    }
  }

  /** On any document, with cycles or without: an operation that can be analysed is
      accepted if and only if its unfolding meets the policy at every node. */
  lemma AcceptedIsAllowed(t: Tables, si: TokenScopeInfo, req: Request, op: Operation)
    requires Analysable(t, Some(req), op) && Complete(FragmentTable(req.doc.fragments), op)
    ensures Accepted(t, si, Some(req)) <==> UnfoldingAllowed(t, FragmentTable(req.doc.fragments), si, op)
  {
    var frags := FragmentTable(req.doc.fragments);
    PassesIsPolicy(t, frags, si, op);
    if Accepted(t, si, Some(req)) {
      var other :| Analysable(t, Some(req), other) && Passes(si, other, WalkOperation(t, frags, other));
      SelectedIsUnique(req.doc, req.operationName, op, other);
    }
  }

  /** `stream` is what the client sends; `readOk` is false when reading it fails.
      `parse` is the JSON and GraphQL parser, `None` its failure. The body forwarded is
      the body analysed. */
  method HandleGraphQL(t: Tables, si: TokenScopeInfo, isPost: bool, readOk: bool, stream: Bytes,
                       parse: Bytes -> Option<Request>) returns (d: Decision)
    ensures d == Reject(405) <==> !isPost
    ensures d == Reject(413) <==> isPost && (si.repos != [] || si.scopes != map[]) && readOk && |stream| > 1_048_576
    ensures d == Reject(400) <==>
              && isPost && (si.repos != [] || si.scopes != map[])
              && (!readOk || (|stream| <= 1_048_576 && forall op :: !Analysable(t, parse(stream), op)))
    ensures d.Forward? <==>
              && isPost
              && ((si.repos == [] && si.scopes == map[])
                  || (readOk && |stream| <= 1_048_576 && Accepted(t, si, parse(stream))))
    ensures d.Forward? ==> d.body == stream
    ensures isPost && readOk && (si.repos != [] || si.scopes != map[]) && |stream| <= 1_048_576
            && parse(stream).Some? ==>
              forall op :: Analysable(t, parse(stream), op)
                           && Complete(FragmentTable(parse(stream).value.doc.fragments), op) ==>
                (d.Forward? <==> UnfoldingAllowed(t, FragmentTable(parse(stream).value.doc.fragments), si, op))
    ensures isPost && readOk && (si.repos != [] || si.scopes != map[]) && parse(stream).Some?
            && Acyclic(FragmentTable(parse(stream).value.doc.fragments)) ==>
              (d.Forward? <==> |stream| <= 1_048_576 && Forwardable(t, si, parse(stream).value))
  {
    if !isPost {
      return Reject(405);
    }
    if si.OpenScoped() {
      return Forward(stream);
    }
    if !readOk {
      return Reject(400);
    }
    var body := if |stream| <= MAX_BODY_BYTES + 1 then stream else stream[..MAX_BODY_BYTES + 1];
    if |body| > MAX_BODY_BYTES {
      return Reject(413);
    }
    var parsed := parse(body);
    if parsed.Some? && Acyclic(FragmentTable(parsed.value.doc.fragments)) {
      AcceptedIsForwardable(t, si, parsed.value);
    }
    forall op | Analysable(t, parsed, op) && Complete(FragmentTable(parsed.value.doc.fragments), op)
      ensures Accepted(t, si, parsed) <==> UnfoldingAllowed(t, FragmentTable(parsed.value.doc.fragments), si, op)
    {
      AcceptedIsAllowed(t, si, parsed.value, op);
    }
    var analysis := AnalyzeRequest(t, parsed);
    if analysis.None? {
      return Reject(400);
    }
    ghost var op :| Analysable(t, parsed, op);
    forall other | Analysable(t, parsed, other) ensures other == op {
      SelectedIsUnique(parsed.value.doc, parsed.value.operationName, op, other);
    }
    var ok := CheckAnalysis(si, analysis.value, op, WalkOperation(t, FragmentTable(parsed.value.doc.fragments), op));
    if !ok {
      return Reject(403);
    }
    return Forward(body);
  }
}

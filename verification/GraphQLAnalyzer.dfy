/** The static analyser: a depth-first walk with a stack of open fragments and a
    depth cap (internal/proxy/graphql.go). */
module GraphQLAnalyzer {
  import opened Prelude
  import opened GraphQLAst

  datatype Level = Read | Write

  datatype Requirement = Requirement(permission: string, level: Level)

  /** The policy tables. Their contents are arbitrary. */
  datatype Tables = Tables(
    alwaysAllowed: set<string>,
    fieldScopes: map<string, Requirement>,
    mutationScopes: map<string, Requirement>,
    crossRepoAnywhere: set<string>,
    crossRepoRootOnly: set<string>)

  const MAX_ANALYSIS_DEPTH: nat := 100

  /** One fact the analysis can record. */
  datatype Finding =
    | Scope(req: Requirement)
    | Repo(fullName: string)
    | CrossRepo(field: string)
    | Unknown(field: string)
    | Unpinned
    | TooDeep

  /** The value of the last literal argument called `key`, "" when there is none. */
  function LastLiteral(args: seq<Argument>, key: string): string {
    if args == [] then ""
    else
      var last := args[|args| - 1];
      if last.name == key && last.value.Some? && last.value.value.StringValue?
      then last.value.value.raw
      else LastLiteral(args[..|args| - 1], key)
  }

  method RepositoryArgs(args: seq<Argument>) returns (owner: string, repo: string)
    ensures owner == LastLiteral(args, "owner") && repo == LastLiteral(args, "name")
  {
    owner, repo := "", "";
    for i := 0 to |args|
      invariant owner == LastLiteral(args[..i], "owner") && repo == LastLiteral(args[..i], "name")
    {
      assert args[..i + 1][..i] == args[..i];
      var arg := args[i];
      if arg.value.Some? && arg.value.value.StringValue? {
        if arg.name == "owner" {
          owner := arg.value.value.raw;
        } else if arg.name == "name" {
          repo := arg.value.value.raw;
        }
      }
    }
    assert args[..|args|] == args;
  }

  function RepositoryFinding(name: string, args: seq<Argument>): set<Finding> {
    if name == "repository" && |args| > 0 then
      var owner, repo := LastLiteral(args, "owner"), LastLiteral(args, "name");
      if owner != "" && repo != "" then {Repo(owner + "/" + repo)} else {Unpinned}
    else {}
  }

  function CrossRepoFinding(t: Tables, name: string, atRoot: bool): set<Finding> {
    if name in t.crossRepoAnywhere || (atRoot && name in t.crossRepoRootOnly) then {CrossRepo(name)} else {}
  }

  function AccessFinding(t: Tables, name: string, leaf: bool, inMutation: bool, atRoot: bool): set<Finding> {
    if inMutation && atRoot then
      if name in t.mutationScopes then {Scope(t.mutationScopes[name])} else {Unknown(name)}
    else if name in t.alwaysAllowed then {}
    else if name in t.fieldScopes then {Scope(t.fieldScopes[name])}
    else if leaf && !atRoot then {}
    else {Unknown(name)}
  }

  /** What a single node of the unfolding contributes. */
  function NodeFindings(t: Tables, frags: Fragments, node: Node): set<Finding> {
    match node.sel
    case Field(name, args, children) =>
      RepositoryFinding(name, args) + CrossRepoFinding(t, name, node.atRoot)
      + AccessFinding(t, name, children == [], node.inMutation, node.atRoot)
    case InlineFragment(_) => {}
    case FragmentSpread(name) => if name in frags then {} else {Unknown("fragment:" + name)}
  }

  /** The unfolding has `x` at some node. */
  ghost predicate Found(t: Tables, frags: Fragments, sels: seq<Selection>, inMutation: bool, atRoot: bool, x: Finding) {
    exists path: seq<nat> :: FoundAt(t, frags, sels, inMutation, atRoot, path, x)
  }

  predicate FoundAt(t: Tables, frags: Fragments, sels: seq<Selection>, inMutation: bool, atRoot: bool,
                    path: seq<nat>, x: Finding)
  {
    var n := NodeAt(frags, sels, inMutation, atRoot, path);
    n.Some? && x in NodeFindings(t, frags, n.value)
  }

  // ----- The walk as a function of its arguments -----

  /** The findings of the walk, including `TooDeep` for a set below the depth cap. */
  function Walk(t: Tables, frags: Fragments, sels: seq<Selection>, stack: set<string>,
                inMutation: bool, atRoot: bool, depth: nat): set<Finding>
    decreases if depth <= MAX_ANALYSIS_DEPTH then MAX_ANALYSIS_DEPTH + 1 - depth else 0, sels, 2
  {
    if depth > MAX_ANALYSIS_DEPTH then {TooDeep}
    else if sels == [] then {}
    else
      WalkOne(t, frags, sels[0], stack, inMutation, atRoot, depth)
      + Walk(t, frags, sels[1..], stack, inMutation, atRoot, depth)
  }

  function WalkOne(t: Tables, frags: Fragments, sel: Selection, stack: set<string>,
                   inMutation: bool, atRoot: bool, depth: nat): set<Finding>
    requires depth <= MAX_ANALYSIS_DEPTH
    decreases MAX_ANALYSIS_DEPTH + 1 - depth, sel, 1
  {
    NodeFindings(t, frags, Node(sel, inMutation, atRoot)) + WalkBelow(t, frags, sel, stack, inMutation, atRoot, depth)
  }

  /** The findings of the selection set that `sel` opens, if the walk enters it. */
  function WalkBelow(t: Tables, frags: Fragments, sel: Selection, stack: set<string>,
                     inMutation: bool, atRoot: bool, depth: nat): set<Finding>
    requires depth <= MAX_ANALYSIS_DEPTH
    decreases MAX_ANALYSIS_DEPTH + 1 - depth, sel, 0
  {
    match sel
    case Field(_, _, children) =>
      if children != [] then Walk(t, frags, children, stack, false, false, depth + 1) else {}
    case InlineFragment(children) => Walk(t, frags, children, stack, inMutation, atRoot, depth + 1)
    case FragmentSpread(name) =>
      if name in stack || name !in frags then {}
      else Walk(t, frags, frags[name], stack + {name}, inMutation, atRoot, depth + 1)
  }

  /** The same walk without a depth cap. It terminates all the same: opening a
      fragment shrinks the set of fragments not on the stack. */
  function WalkUncapped(t: Tables, frags: Fragments, sels: seq<Selection>, stack: set<string>,
                        inMutation: bool, atRoot: bool): set<Finding>
    decreases frags.Keys - stack, sels
  {
    if sels == [] then {}
    else
      NodeFindings(t, frags, Node(sels[0], inMutation, atRoot))
      + (match sels[0]
         case Field(_, _, children) => WalkUncapped(t, frags, children, stack, false, false)
         case InlineFragment(children) => WalkUncapped(t, frags, children, stack, inMutation, atRoot)
         case FragmentSpread(name) =>
           if name in stack || name !in frags then {}
           else WalkUncapped(t, frags, frags[name], stack + {name}, inMutation, atRoot))
      + WalkUncapped(t, frags, sels[1..], stack, inMutation, atRoot)
  }

  // ----- The walk as the program runs it -----

  class Analyzer {
    const tables: Tables
    const fragments: Fragments
    var fragmentStack: set<string>
    /** The seen-sets of scopes, repositories, cross-repository fields and unknown
        fields, the unpinned flag and `tooDeep`, kept apart by their constructor. */
    var found: set<Finding>

    constructor (tables: Tables, fragments: Fragments)
      ensures this.tables == tables && this.fragments == fragments
      ensures fragmentStack == {} && found == {}
    {
      this.tables, this.fragments := tables, fragments;
      fragmentStack, found := {}, {};
    }

    method WalkSelectionSet(sels: seq<Selection>, inMutation: bool, atRoot: bool, depth: nat)
      requires fragmentStack <= fragments.Keys
      modifies this
      ensures fragmentStack == old(fragmentStack)
      ensures found == old(found) + Walk(tables, fragments, sels, fragmentStack, inMutation, atRoot, depth)
      decreases if depth <= MAX_ANALYSIS_DEPTH then MAX_ANALYSIS_DEPTH + 1 - depth else 0, 2
    {
      if depth > MAX_ANALYSIS_DEPTH {
        found := found + {TooDeep};
        return;
      }
      for i := 0 to |sels|
        invariant fragmentStack == old(fragmentStack)
        invariant found + Walk(tables, fragments, sels[i..], fragmentStack, inMutation, atRoot, depth)
               == old(found) + Walk(tables, fragments, sels, fragmentStack, inMutation, atRoot, depth)
      {
        assert sels[i..][1..] == sels[i + 1..];
        ghost var before := found;
        ghost var one := WalkOne(tables, fragments, sels[i], fragmentStack, inMutation, atRoot, depth);
        match sels[i] {
        case Field(name, args, children) =>
          WalkField(name, args, children, inMutation, atRoot, depth);
        case InlineFragment(children) =>
          assert WalkOne(tables, fragments, InlineFragment(children), fragmentStack, inMutation, atRoot, depth)
              == Walk(tables, fragments, children, fragmentStack, inMutation, atRoot, depth + 1);
          WalkSelectionSet(children, inMutation, atRoot, depth + 1);
        case FragmentSpread(name) =>
          WalkSpread(name, inMutation, atRoot, depth);
        }
        assert found == before + one;
      }
      assert sels[|sels|..] == [];
    }

    method WalkSpread(name: string, inMutation: bool, atRoot: bool, depth: nat)
      requires fragmentStack <= fragments.Keys
      requires depth <= MAX_ANALYSIS_DEPTH
      modifies this
      ensures fragmentStack == old(fragmentStack)
      ensures found == old(found)
                     + WalkOne(tables, fragments, FragmentSpread(name), fragmentStack, inMutation, atRoot, depth)
      decreases MAX_ANALYSIS_DEPTH + 1 - depth, 1
    {
      if name in fragmentStack {
        return;
      }
      if name !in fragments {
        found := found + {Unknown("fragment:" + name)};
        return;
      }
      fragmentStack := fragmentStack + {name};
      WalkSelectionSet(fragments[name], inMutation, atRoot, depth + 1);
      fragmentStack := fragmentStack - {name};
    }

    method WalkField(name: string, args: seq<Argument>, children: seq<Selection>,
                     inMutation: bool, atRoot: bool, depth: nat)
      requires fragmentStack <= fragments.Keys
      requires depth <= MAX_ANALYSIS_DEPTH
      modifies this
      ensures fragmentStack == old(fragmentStack)
      ensures found == old(found)
                     + WalkOne(tables, fragments, Field(name, args, children), fragmentStack, inMutation, atRoot, depth)
      decreases MAX_ANALYSIS_DEPTH + 1 - depth, 0
    {
      RecordLookup(name, args);
      RecordCrossRepo(name, atRoot);
      RecordAccess(name, children == [], inMutation, atRoot);
      if |children| > 0 {
        WalkSelectionSet(children, false, false, depth + 1);
      }
    }

    method RecordLookup(name: string, args: seq<Argument>)
      modifies this`found
      ensures found == old(found) + RepositoryFinding(name, args)
    {
      if name == "repository" && |args| > 0 {
        var owner, repo := RepositoryArgs(args);
        if owner != "" && repo != "" {
          found := found + {Repo(owner + "/" + repo)};
        } else {
          found := found + {Unpinned};
        }
      }
    }

    method RecordCrossRepo(name: string, atRoot: bool)
      modifies this`found
      ensures found == old(found) + CrossRepoFinding(tables, name, atRoot)
    {
      if name in tables.crossRepoAnywhere {
        found := found + {CrossRepo(name)};
      } else if atRoot {
        if name in tables.crossRepoRootOnly {
          found := found + {CrossRepo(name)};
        }
      }
    }

    method RecordAccess(name: string, leaf: bool, inMutation: bool, atRoot: bool)
      modifies this`found
      ensures found == old(found) + AccessFinding(tables, name, leaf, inMutation, atRoot)
    {
      if inMutation && atRoot {
        if name in tables.mutationScopes {
          found := found + {Scope(tables.mutationScopes[name])};
        } else {
          found := found + {Unknown(name)};
        }
      } else if name in tables.alwaysAllowed {
      } else if name in tables.fieldScopes {
        found := found + {Scope(tables.fieldScopes[name])};
      } else if leaf {
        if atRoot {
          found := found + {Unknown(name)};
        }
      } else {
        found := found + {Unknown(name)};
      }
    }
  }
}

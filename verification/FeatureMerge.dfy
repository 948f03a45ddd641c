/**
  Merging internal API features into the first public feature that depends on them
  (tools/vkex/reg.py, mergeInternalFeatures with its local has_dependency).
 */
module FeatureMerge {
  import opened Wrappers

  // ---------------------------------------------------------------- reachability

  /** The names each known feature depends on; names outside the map are not followed. */
  type Graph = map<string, set<string>>

  ghost predicate IsPath(g: Graph, path: seq<string>) {
    && path != []
    && (forall i :: 0 <= i < |path| ==> path[i] in g)
    && (forall i :: 0 <= i < |path| - 1 ==> path[i + 1] in g[path[i]])
  }

  /** `target` is named by `from`, or by a feature that `from` leads to. */
  ghost predicate DependsOn(g: Graph, from: string, target: string) {
    exists path :: IsPath(g, path) && path[0] == from && target in g[path[|path| - 1]]
  }

  /** Everything in `s` has its known dependencies in `seen`, and none of it names the target. */
  ghost predicate Exhausted(g: Graph, s: set<string>, seen: set<string>, target: string) {
    forall v :: v in s ==> v in g && target !in g[v] && forall d :: d in g[v] && d in g ==> d in seen
  }

  lemma {:induction false} PathStaysInside(g: Graph, path: seq<string>, seen: set<string>, target: string, i: nat)
    requires IsPath(g, path) && path[0] in seen && Exhausted(g, seen, seen, target) && i < |path|
    ensures path[i] in seen
  {
    if i > 0 { PathStaysInside(g, path, seen, target, i - 1); }
  }

  lemma {:induction false} ExhaustedMeansUnreachable(g: Graph, from: string, seen: set<string>, target: string)
    requires from in seen && Exhausted(g, seen, seen, target)
    ensures !DependsOn(g, from, target)
  {
    forall path | IsPath(g, path) && path[0] == from ensures target !in g[path[|path| - 1]] {
      PathStaysInside(g, path, seen, target, |path| - 1);
    }
  }

  lemma {:induction false} DependsDirectly(g: Graph, from: string, target: string)
    requires from in g && target in g[from]
    ensures DependsOn(g, from, target)
  {
    assert IsPath(g, [from]) && [from][0] == from;
  }

  lemma {:induction false} DependsThrough(g: Graph, from: string, dep: string, target: string)
    requires from in g && dep in g[from] && DependsOn(g, dep, target)
    ensures DependsOn(g, from, target)
  {
    var path :| IsPath(g, path) && path[0] == dep && target in g[path[|path| - 1]];
    var longer := [from] + path;
    forall i | 0 <= i < |longer| - 1 ensures longer[i + 1] in g[longer[i]] {
      if i > 0 { assert path[i] in g[path[i - 1]]; }
    }
    assert IsPath(g, longer);
  }

  /**
    The graph as a search sees it that starts at one element: for the element's own name, its own dependencies
    count.
   */
  function SeenFrom(g: Graph, name: string, deps: set<string>): Graph {
    g[name := deps]
  }

  /** The search, with the set of visited names that all its recursive calls share. */
  class DependencySearch {
    const graph: Graph
    ghost const first: string
    ghost const view: Graph
    var visited: set<string>

    ghost predicate Valid()
      reads this
    {
      first in view && view == SeenFrom(graph, first, view[first])
    }

    constructor (graph: Graph, ghost name: string, ghost deps: set<string>)
      ensures this.graph == graph && first == name && view == SeenFrom(graph, name, deps) && visited == {} && Valid()
    {
      this.graph, first, view, visited := graph, name, SeenFrom(graph, name, deps), {};
    }

    /**
      Terminates on every graph, cyclic ones included.  A positive answer is a real dependency; after a
      negative one, everything newly visited has been exhausted.
     */
    method Search(name: string, deps: set<string>, target: string) returns (found: bool)
      requires Valid() && (name in visited || (name in view && deps == view[name]))
      requires first in visited || name == first
      modifies this`visited
      ensures old(visited) <= visited && name in visited
      ensures found ==> DependsOn(view, name, target)
      ensures !found ==> Exhausted(view, visited - old(visited), visited, target)
      decreases view.Keys - visited
    {
      if name in visited {
        return false;
      }
      visited := visited + {name};
      if target in deps {
        DependsDirectly(view, name, target);
        return true;
      }
      var todo := deps;
      while todo != {}
        invariant todo <= deps
        invariant old(visited) + {name} <= visited
        invariant forall d :: d in deps - todo && d in graph ==> d in visited
        invariant Exhausted(view, visited - old(visited) - {name}, visited, target)
        decreases todo
      {
        var dep :| dep in todo;
        todo := todo - {dep};
        if dep in graph {
          ghost var before := visited;
          var inner := Search(dep, graph[dep], target);
          if inner {
            DependsThrough(view, name, dep, target);
            return true;
          }
          assert visited - old(visited) - {name} <= (before - old(visited) - {name}) + (visited - before);
        }
      }
      return false;
    }
  }

  /** has_dependency with a fresh visited set decides reachability. */
  method HasDependency(graph: Graph, name: string, deps: set<string>, target: string) returns (found: bool)
    ensures found <==> DependsOn(SeenFrom(graph, name, deps), name, target)
  {
    var search := new DependencySearch(graph, name, deps);
    found := search.Search(name, deps, target);
    if !found {
      assert search.visited - {} == search.visited;
      ExhaustedMeansUnreachable(SeenFrom(graph, name, deps), name, search.visited, target);
    }
  }

  // ---------------------------------------------------------------- the registry tree

  datatype BlockKind = Require | Deprecate | Remove | OtherTag
  datatype Block = Block(kind: BlockKind, content: int)
  datatype Feature = Feature(
    name: string, apis: set<string>, isInternal: bool, depends: set<string>, blocks: seq<Block>)

  /** The document: feature elements by identity, and the order of the children of the root. */
  type Elements = map<nat, Feature>

  /** Every id is that of a known element. */
  ghost predicate AllIn(ids: seq<nat>, es: Elements) {
    forall id :: id in ids ==> id in es
  }

  function OfKind(blocks: seq<Block>, kind: BlockKind): seq<Block> {
    if blocks == [] then []
    else (if blocks[0].kind == kind then [blocks[0]] else []) + OfKind(blocks[1..], kind)
  }

  /** What a merge copies: the require blocks, then the deprecate blocks, then the remove blocks. */
  function Moved(blocks: seq<Block>): seq<Block> {
    OfKind(blocks, Require) + OfKind(blocks, Deprecate) + OfKind(blocks, Remove)
  }

  /** The features of one API that are internal, or those that are not, in document order. */
  function Select(tree: seq<nat>, es: Elements, api: string, isInternal: bool): seq<nat>
    requires AllIn(tree, es)
  {
    if tree == [] then []
    else
      var rest := Select(tree[1..], es, api, isInternal);
      if api in es[tree[0]].apis && es[tree[0]].isInternal == isInternal then [tree[0]] + rest else rest
  }

  /** all_features_map, by the dependencies of each feature; of two with the same name the later one counts. */
  function DependencyGraph(features: seq<nat>, es: Elements): Graph
    requires AllIn(features, es)
  {
    if features == [] then map[]
    else
      var n := |features| - 1;
      DependencyGraph(features[..n], es)[es[features[n]].name := es[features[n]].depends]
  }

  /** A feature depends on `name`, by its own dependencies and those of the features they lead to. */
  ghost predicate Needs(es: Elements, g: Graph, id: nat, name: string)
    requires id in es
  {
    DependsOn(SeenFrom(g, es[id].name, es[id].depends), es[id].name, name)
  }

  /** The k-th feature depends on `name`, and none before it does. */
  ghost predicate FirstAt(publics: seq<nat>, es: Elements, g: Graph, name: string, k: nat)
    requires AllIn(publics, es)
  {
    k < |publics| && Needs(es, g, publics[k], name) && forall j :: 0 <= j < k ==> !Needs(es, g, publics[j], name)
  }

  /** Feature `id` is the first public one that depends on `name`. */
  ghost predicate GoesTo(publics: seq<nat>, es: Elements, g: Graph, name: string, id: nat)
    requires AllIn(publics, es)
  {
    exists k: nat :: FirstAt(publics, es, g, name, k) && publics[k] == id
  }

  ghost predicate SomeNeeds(publics: seq<nat>, es: Elements, g: Graph, name: string)
    requires AllIn(publics, es)
  {
    exists k :: 0 <= k < |publics| && Needs(es, g, publics[k], name)
  }

  /** There is only one first, and there is one exactly if some public feature depends on the name. */
  lemma {:induction false} OneFirst(publics: seq<nat>, es: Elements, g: Graph, name: string, id: nat)
    requires AllIn(publics, es) && GoesTo(publics, es, g, name, id)
    ensures id in publics && SomeNeeds(publics, es, g, name)
    ensures forall other: nat :: GoesTo(publics, es, g, name, other) ==> other == id
  {
    var k: nat :| FirstAt(publics, es, g, name, k) && publics[k] == id;
    forall other: nat | GoesTo(publics, es, g, name, other) ensures other == id {
      var j: nat :| FirstAt(publics, es, g, name, j) && publics[j] == other;
      assert j == k;
    }
  }

  lemma {:induction false} NoneIsFirst(publics: seq<nat>, es: Elements, g: Graph, name: string)
    requires AllIn(publics, es) && !SomeNeeds(publics, es, g, name)
    ensures forall id: nat :: !GoesTo(publics, es, g, name, id)
  {
    forall k: nat ensures !FirstAt(publics, es, g, name, k) {
      assert 0 <= k < |publics| ==> !Needs(es, g, publics[k], name);
    }
  }

  /** Everything the first `n` internal features hand to feature `id`. */
  ghost function Received(internals: seq<nat>, n: nat, publics: seq<nat>, es: Elements, g: Graph, id: nat): seq<Block>
    requires n <= |internals| && AllIn(internals, es) && AllIn(publics, es)
  {
    if n == 0 then []
    else
      var q := internals[n - 1];
      Received(internals, n - 1, publics, es, g, id) +
      if GoesTo(publics, es, g, es[q].name, id) then Moved(es[q].blocks) else []
  }

  /** The internal features among the first `n` that have a public dependent. */
  ghost function Merged(internals: seq<nat>, n: nat, publics: seq<nat>, es: Elements, g: Graph): set<nat>
    requires n <= |internals| && AllIn(internals, es) && AllIn(publics, es)
  {
    if n == 0 then {}
    else
      var q := internals[n - 1];
      Merged(internals, n - 1, publics, es, g) + if SomeNeeds(publics, es, g, es[q].name) then {q} else {}
  }

  function Occurs(blocks: seq<Block>, b: Block): nat {
    multiset(blocks)[b]
  }

  /** How often a block occurs in the whole document. */
  function Total(tree: seq<nat>, es: Elements, b: Block): nat
    requires AllIn(tree, es)
  {
    if tree == [] then 0 else Occurs(es[tree[0]].blocks, b) + Total(tree[1..], es, b)
  }

  ghost predicate Distinct(ids: seq<nat>) {
    forall i, j :: 0 <= i < j < |ids| ==> ids[i] != ids[j]
  }

  function Kept(tree: seq<nat>, gone: set<nat>): seq<nat> {
    if tree == [] then [] else (if tree[0] in gone then [] else [tree[0]]) + Kept(tree[1..], gone)
  }

  // ---------------------------------------------------------------- facts about the tree

  /** The elements of `part` stand in `whole` in the same order. */
  ghost predicate InOrderOf(part: seq<nat>, whole: seq<nat>) {
    forall i, j :: 0 <= i < j < |part| ==> Before(part[i], part[j], whole)
  }

  ghost predicate Before(a: nat, b: nat, whole: seq<nat>) {
    exists k, l :: 0 <= k < l < |whole| && whole[k] == a && whole[l] == b
  }

  lemma {:induction false} BeforeInTail(a: nat, b: nat, whole: seq<nat>)
    requires whole != [] && (Before(a, b, whole[1..]) || (a == whole[0] && b in whole[1..]))
    ensures Before(a, b, whole)
  {
    if Before(a, b, whole[1..]) {
      var k, l :| 0 <= k < l < |whole[1..]| && whole[1..][k] == a && whole[1..][l] == b;
      assert whole[k + 1] == a && whole[l + 1] == b;
    } else {
      var l :| 0 <= l < |whole[1..]| && whole[1..][l] == b;
      assert whole[0] == a && whole[l + 1] == b;
    }
  }

  lemma {:induction false} OrderFromTail(part: seq<nat>, rest: seq<nat>, whole: seq<nat>)
    requires whole != [] && InOrderOf(rest, whole[1..]) && (part == rest || part == [whole[0]] + rest)
    requires forall id :: id in rest ==> id in whole[1..]
    ensures InOrderOf(part, whole)
  {
    forall i, j | 0 <= i < j < |part| ensures Before(part[i], part[j], whole) {
      BeforeInTail(part[i], part[j], whole);
    }
  }

  lemma {:induction false} KeptOrder(tree: seq<nat>, gone: set<nat>)
    ensures InOrderOf(Kept(tree, gone), tree)
  {
    if tree != [] {
      KeptOrder(tree[1..], gone);
      KeptMembers(tree[1..], gone);
      OrderFromTail(Kept(tree, gone), Kept(tree[1..], gone), tree);
    }
  }

  lemma {:induction false} SelectSplit(tree: seq<nat>, es: Elements, api: string, isInternal: bool, i: nat)
    requires AllIn(tree, es) && i < |tree|
    ensures AllIn(tree[i..], es) && AllIn(tree[i + 1..], es) && tree[i] in es
    ensures Select(tree[i..], es, api, isInternal) ==
            (if api in es[tree[i]].apis && es[tree[i]].isInternal == isInternal then [tree[i]] else [])
            + Select(tree[i + 1..], es, api, isInternal)
  {
    assert tree[i..][0] == tree[i] && tree[i..][1..] == tree[i + 1..];
  }

  /** The features selected come in document order. */
  lemma {:induction false} SelectOrder(tree: seq<nat>, es: Elements, api: string, isInternal: bool)
    requires AllIn(tree, es)
    ensures InOrderOf(Select(tree, es, api, isInternal), tree)
  {
    if tree != [] {
      SelectOrder(tree[1..], es, api, isInternal);
      SelectMembers(tree[1..], es, api, isInternal);
      OrderFromTail(Select(tree, es, api, isInternal), Select(tree[1..], es, api, isInternal), tree);
    }
  }

  /** The map knows exactly the names of the features, and the last feature of a name gives its dependencies. */
  lemma {:induction false} LastNamedCounts(features: seq<nat>, es: Elements, k: nat)
    requires AllIn(features, es) && k < |features|
    ensures es[features[k]].name in DependencyGraph(features, es)
    ensures (forall j :: k < j < |features| ==> es[features[j]].name != es[features[k]].name) ==>
              DependencyGraph(features, es)[es[features[k]].name] == es[features[k]].depends
  {
    var n := |features| - 1;
    if k < n {
      assert features[..n][k] == features[k];
      LastNamedCounts(features[..n], es, k);
    }
  }

  lemma {:induction false} OnlyNamedKnown(features: seq<nat>, es: Elements, name: string)
    requires AllIn(features, es) && name in DependencyGraph(features, es)
    ensures exists k :: 0 <= k < |features| && es[features[k]].name == name
  {
    var n := |features| - 1;
    if es[features[n]].name != name {
      OnlyNamedKnown(features[..n], es, name);
      var k :| 0 <= k < n && es[features[..n][k]].name == name;
      assert es[features[k]].name == name;
    }
  }

  lemma {:induction false} OfKindOfKind(blocks: seq<Block>, a: BlockKind, b: BlockKind)
    ensures OfKind(OfKind(blocks, a), b) == if a == b then OfKind(blocks, a) else []
  {
    if blocks != [] {
      OfKindOfKind(blocks[1..], a, b);
      if blocks[0].kind == a {
        assert OfKind(blocks, a)[1..] == OfKind(blocks[1..], a);
      } else {
        assert OfKind(blocks, a) == OfKind(blocks[1..], a);
      }
    }
  }

  lemma {:induction false} OfKindConcat(a: seq<Block>, b: seq<Block>, kind: BlockKind)
    ensures OfKind(a + b, kind) == OfKind(a, kind) + OfKind(b, kind)
  {
    if a == [] {
      assert a + b == b;
    } else {
      var head := if a[0].kind == kind then [a[0]] else [];
      assert (a + b)[0] == a[0] && (a + b)[1..] == a[1..] + b;
      OfKindConcat(a[1..], b, kind);
      assert head + (OfKind(a[1..], kind) + OfKind(b, kind)) == (head + OfKind(a[1..], kind)) + OfKind(b, kind);
    }
  }

  function Rank(kind: BlockKind): nat {
    match kind
    case Require => 0
    case Deprecate => 1
    case Remove => 2
    case OtherTag => 3
  }

  lemma {:induction false} OfKindIsKind(blocks: seq<Block>, kind: BlockKind)
    ensures forall b :: b in OfKind(blocks, kind) ==> b.kind == kind
  {
    if blocks != [] { OfKindIsKind(blocks[1..], kind); }
  }

  /** What is copied of each kind keeps its order. */
  lemma {:induction false} MovedKeepsKinds(blocks: seq<Block>, kind: BlockKind)
    requires !kind.OtherTag?
    ensures OfKind(Moved(blocks), kind) == OfKind(blocks, kind)
  {
    var a, b, c := OfKind(blocks, Require), OfKind(blocks, Deprecate), OfKind(blocks, Remove);
    OfKindConcat(a + b, c, kind);
    OfKindConcat(a, b, kind);
    OfKindOfKind(blocks, Require, kind);
    OfKindOfKind(blocks, Deprecate, kind);
    OfKindOfKind(blocks, Remove, kind);
    var all := OfKind(blocks, kind);
    assert [] + all == all && all + [] == all;
    assert OfKind(a, kind) + OfKind(b, kind) + OfKind(c, kind) == all;
  }

  /** The copies come kind by kind: require before deprecate before remove. */
  lemma {:induction false} MovedByRank(blocks: seq<Block>, i: nat, j: nat)
    requires i < j < |Moved(blocks)|
    ensures Rank(Moved(blocks)[i].kind) <= Rank(Moved(blocks)[j].kind)
  {
    RankAt(blocks, i);
    RankAt(blocks, j);
  }

  lemma {:induction false} RankAt(blocks: seq<Block>, i: nat)
    requires i < |Moved(blocks)|
    ensures var a, b := |OfKind(blocks, Require)|, |OfKind(blocks, Deprecate)|;
            Rank(Moved(blocks)[i].kind) == if i < a then 0 else if i < a + b then 1 else 2
  {
    var a, b, c := OfKind(blocks, Require), OfKind(blocks, Deprecate), OfKind(blocks, Remove);
    var block := Moved(blocks)[i];
    if i < |a| {
      OfKindIsKind(blocks, Require);
      assert block in a;
    } else if i < |a| + |b| {
      OfKindIsKind(blocks, Deprecate);
      assert block == b[i - |a|];
    } else {
      OfKindIsKind(blocks, Remove);
      assert block == c[i - |a| - |b|];
    }
  }

  lemma {:induction false} KeptMembers(tree: seq<nat>, gone: set<nat>)
    ensures forall id :: id in Kept(tree, gone) <==> id in tree && id !in gone
    ensures Distinct(tree) ==> Distinct(Kept(tree, gone))
  {
    if tree != [] {
      KeptMembers(tree[1..], gone);
      assert Distinct(tree) ==> Distinct(tree[1..]) && tree[0] !in tree[1..];
      var rest := Kept(tree[1..], gone);
      assert tree[0] !in gone ==> forall i :: 0 < i < |Kept(tree, gone)| ==> Kept(tree, gone)[i] == rest[i - 1];
    }
  }

  lemma {:induction false} KeptTwice(tree: seq<nat>, gone: set<nat>, id: nat)
    ensures Kept(Kept(tree, gone), {id}) == Kept(tree, gone + {id})
  {
    if tree != [] {
      KeptTwice(tree[1..], gone, id);
      var rest := Kept(tree[1..], gone);
      if tree[0] in gone {
        assert Kept(tree, gone) == rest;
        assert Kept(tree, gone + {id}) == Kept(tree[1..], gone + {id});
      } else {
        assert Kept(tree, gone)[0] == tree[0] && Kept(tree, gone)[1..] == rest;
      }
    }
  }

  lemma {:induction false} KeptAll(tree: seq<nat>)
    ensures Kept(tree, {}) == tree
  {
    if tree != [] { KeptAll(tree[1..]); }
  }

  lemma {:induction false} SelectMembers(tree: seq<nat>, es: Elements, api: string, isInternal: bool)
    requires AllIn(tree, es)
    ensures forall id :: id in Select(tree, es, api, isInternal) <==>
              id in tree && api in es[id].apis && es[id].isInternal == isInternal
    ensures Distinct(tree) ==> Distinct(Select(tree, es, api, isInternal))
  {
    if tree != [] {
      SelectMembers(tree[1..], es, api, isInternal);
      assert Distinct(tree) ==> Distinct(tree[1..]) && tree[0] !in tree[1..];
      var rest, all := Select(tree[1..], es, api, isInternal), Select(tree, es, api, isInternal);
      assert all != rest ==> forall i :: 0 < i < |all| ==> all[i] == rest[i - 1];
    }
  }

  /** Only public features receive anything. */
  lemma {:induction false} OnlyPublicsReceive(
      internals: seq<nat>, n: nat, publics: seq<nat>, es: Elements, g: Graph, id: nat)
    requires n <= |internals| && AllIn(internals, es) && AllIn(publics, es) && id !in publics
    ensures Received(internals, n, publics, es, g, id) == []
  {
    if n > 0 {
      OnlyPublicsReceive(internals, n - 1, publics, es, g, id);
      assert !GoesTo(publics, es, g, es[internals[n - 1]].name, id);
    }
  }

  lemma {:induction false} MergedAreInternal(internals: seq<nat>, n: nat, publics: seq<nat>, es: Elements, g: Graph)
    requires n <= |internals| && AllIn(internals, es) && AllIn(publics, es)
    ensures forall id :: id in Merged(internals, n, publics, es, g) ==> id in internals[..n]
  {
    if n > 0 {
      MergedAreInternal(internals, n - 1, publics, es, g);
      assert internals[..n] == internals[..n - 1] + [internals[n - 1]];
    }
  }

  // ---------------------------------------------------------------- conservation

  lemma {:induction false} OfKindOccurs(blocks: seq<Block>, kind: BlockKind, b: Block)
    ensures Occurs(OfKind(blocks, kind), b) == if b.kind == kind then Occurs(blocks, b) else 0
  {
    if blocks != [] {
      OfKindOccurs(blocks[1..], kind, b);
      assert blocks == [blocks[0]] + blocks[1..];
      var head := if blocks[0].kind == kind then [blocks[0]] else [];
      assert multiset(head + OfKind(blocks[1..], kind)) == multiset(head) + multiset(OfKind(blocks[1..], kind));
    }
  }

  lemma {:induction false} MovedOccurs(blocks: seq<Block>, b: Block)
    ensures Occurs(Moved(blocks), b) == if b.kind.OtherTag? then 0 else Occurs(blocks, b)
  {
    OfKindOccurs(blocks, Require, b);
    OfKindOccurs(blocks, Deprecate, b);
    OfKindOccurs(blocks, Remove, b);
  }

  lemma {:induction false} TotalAgrees(tree: seq<nat>, es: Elements, es': Elements, b: Block)
    requires forall id :: id in tree ==> id in es && id in es' && es'[id].blocks == es[id].blocks
    ensures Total(tree, es', b) == Total(tree, es, b)
  {
    if tree != [] { TotalAgrees(tree[1..], es, es', b); }
  }

  /** Appending to one element of the tree adds what is appended. */
  lemma {:induction false} TotalAppend(tree: seq<nat>, es: Elements, p: nat, extra: seq<Block>, b: Block)
    requires Distinct(tree) && p in tree && AllIn(tree, es)
    ensures Total(tree, es[p := es[p].(blocks := es[p].blocks + extra)], b) == Total(tree, es, b) + Occurs(extra, b)
  {
    var es' := es[p := es[p].(blocks := es[p].blocks + extra)];
    if tree[0] == p {
      assert p !in tree[1..];
      TotalAgrees(tree[1..], es, es', b);
      assert multiset(es[p].blocks + extra) == multiset(es[p].blocks) + multiset(extra);
    } else {
      TotalAppend(tree[1..], es, p, extra, b);
    }
  }

  /** Removing an element takes its blocks away. */
  lemma {:induction false} TotalRemove(tree: seq<nat>, es: Elements, q: nat, b: Block)
    requires Distinct(tree) && q in tree && AllIn(tree, es)
    ensures forall id :: id in Kept(tree, {q}) ==> id in es
    ensures Total(Kept(tree, {q}), es, b) + Occurs(es[q].blocks, b) == Total(tree, es, b)
  {
    KeptMembers(tree, {q});
    var rest := Kept(tree[1..], {q});
    if tree[0] == q {
      assert q !in tree[1..];
      KeptNone(tree[1..], q);
      assert Kept(tree, {q}) == tree[1..];
    } else {
      TotalRemove(tree[1..], es, q, b);
      assert Kept(tree, {q}) == [tree[0]] + rest;
      assert Kept(tree, {q})[0] == tree[0] && Kept(tree, {q})[1..] == rest;
    }
  }

  lemma {:induction false} KeptNone(tree: seq<nat>, q: nat)
    requires q !in tree
    ensures Kept(tree, {q}) == tree
  {
    if tree != [] { KeptNone(tree[1..], q); }
  }

  /** One merge loses and duplicates no block, except tags a merge does not copy. */
  lemma {:induction false} MergeConserves(tree: seq<nat>, es: Elements, q: nat, p: nat, b: Block)
    requires Distinct(tree) && q in tree && p in tree && p != q && AllIn(tree, es)
    requires !b.kind.OtherTag?
    ensures var es' := es[p := es[p].(blocks := es[p].blocks + Moved(es[q].blocks))];
            && (forall id :: id in Kept(tree, {q}) ==> id in es')
            && Total(Kept(tree, {q}), es', b) == Total(tree, es, b)
  {
    var es' := es[p := es[p].(blocks := es[p].blocks + Moved(es[q].blocks))];
    MovedOccurs(es[q].blocks, b);
    TotalAppend(tree, es, p, Moved(es[q].blocks), b);
    TotalRemove(tree, es', q, b);
  }

  // ---------------------------------------------------------------- one step of the merge, on values

  /** What partitioning a document with distinct children gives. */
  ghost predicate Setting(tree: seq<nat>, es: Elements, internals: seq<nat>, publics: seq<nat>) {
    && Distinct(tree) && Distinct(internals) && AllIn(tree, es)
    && (forall i :: i in internals ==> i in tree && i in es && i !in publics)
    && (forall i :: i in publics ==> i in tree && i in es && i !in internals)
  }

  /** No require, deprecate or remove block was lost or duplicated between two documents. */
  ghost predicate SameBlocks(tree: seq<nat>, es: Elements, tree0: seq<nat>, es0: Elements) {
    && AllIn(tree, es) && AllIn(tree0, es0)
    && forall b: Block :: !b.kind.OtherTag? ==> Total(tree, es, b) == Total(tree0, es0, b)
  }

  function Appended(es: Elements, p: nat, extra: seq<Block>): Elements
    requires p in es
  {
    es[p := es[p].(blocks := es[p].blocks + extra)]
  }

  /**
    `es` is the elements of the document `es0`, each with what it has received from the first `n` internal
    features.
   */
  ghost predicate HandedOver(es: Elements, es0: Elements, internals: seq<nat>, n: nat, publics: seq<nat>, g: Graph)
    requires n <= |internals| && AllIn(internals, es0) && AllIn(publics, es0)
  {
    && es.Keys == es0.Keys
    && forall id :: id in es0 ==>
         es[id] == es0[id].(blocks := es0[id].blocks + Received(internals, n, publics, es0, g, id))
  }

  /** What merging the first `n` internal features of the document `(tree0, es0)` leaves. */
  ghost predicate MergedSoFar(tree: seq<nat>, es: Elements, tree0: seq<nat>, es0: Elements,
                              internals: seq<nat>, n: nat, publics: seq<nat>, g: Graph)
    requires n <= |internals| && Setting(tree0, es0, internals, publics)
  {
    && tree == Kept(tree0, Merged(internals, n, publics, es0, g))
    && HandedOver(es, es0, internals, n, publics, g)
  }

  lemma {:induction false} NothingMerged(tree: seq<nat>, es: Elements, internals: seq<nat>, publics: seq<nat>, g: Graph)
    requires Setting(tree, es, internals, publics)
    ensures MergedSoFar(tree, es, tree, es, internals, 0, publics, g)
  {
    KeptAll(tree);
    forall id | id in es
      ensures es[id] == es[id].(blocks := es[id].blocks + Received(internals, 0, publics, es, g, id))
    {
      assert es[id].blocks + [] == es[id].blocks;
    }
  }

  /** Features that are still in the tree: all public ones, and the internal ones not yet looked at. */
  lemma {:induction false} StillThere(tree: seq<nat>, tree0: seq<nat>, es0: Elements, internals: seq<nat>, n: nat,
                                      publics: seq<nat>, g: Graph)
    requires n < |internals| && Setting(tree0, es0, internals, publics)
    requires tree == Kept(tree0, Merged(internals, n, publics, es0, g))
    ensures Distinct(tree) && internals[n] in tree && (forall i :: i in tree ==> i in tree0)
    ensures forall p :: p in publics ==> p in tree
  {
    MergedAreInternal(internals, n, publics, es0, g);
    KeptMembers(tree0, Merged(internals, n, publics, es0, g));
    assert internals[n] !in internals[..n];
    forall p | p in publics ensures p in tree {
      assert p !in internals[..n];
    }
  }

  lemma {:induction false} HandOne(
      es: Elements, es0: Elements, internals: seq<nat>, n: nat, publics: seq<nat>, g: Graph, p: nat)
    requires n < |internals| && AllIn(internals, es0) && AllIn(publics, es0) && internals[n] !in publics
    requires HandedOver(es, es0, internals, n, publics, g)
    requires GoesTo(publics, es0, g, es0[internals[n]].name, p) && p in es
    ensures HandedOver(Appended(es, p, Moved(es[internals[n]].blocks)), es0, internals, n + 1, publics, g)
  {
    var q := internals[n];
    OnlyPublicsReceive(internals, n, publics, es0, g, q);
    assert es[q].blocks == es0[q].blocks;
    var es' := Appended(es, p, Moved(es0[q].blocks));
    forall id | id in es0
      ensures es'[id] == es0[id].(blocks := es0[id].blocks + Received(internals, n + 1, publics, es0, g, id))
    {
      ReceivedStep(internals, n, publics, es0, g, id, p);
    }
  }

  lemma {:induction false} ReceivedStep(
      internals: seq<nat>, n: nat, publics: seq<nat>, es0: Elements, g: Graph, id: nat, p: nat)
    requires n < |internals| && AllIn(internals, es0) && AllIn(publics, es0) && id in es0
    requires GoesTo(publics, es0, g, es0[internals[n]].name, p)
    ensures es0[id].blocks + Received(internals, n + 1, publics, es0, g, id) ==
            es0[id].blocks + Received(internals, n, publics, es0, g, id)
            + if id == p then Moved(es0[internals[n]].blocks) else []
  {
    OneFirst(publics, es0, g, es0[internals[n]].name, p);
    var extra := if id == p then Moved(es0[internals[n]].blocks) else [];
    assert Received(internals, n + 1, publics, es0, g, id) == Received(internals, n, publics, es0, g, id) + extra;
  }

  lemma {:induction false} MergeStep(
      tree: seq<nat>, es: Elements, tree0: seq<nat>, es0: Elements, internals: seq<nat>, n: nat,
      publics: seq<nat>, g: Graph, p: nat)
    requires n < |internals| && Setting(tree0, es0, internals, publics)
    requires MergedSoFar(tree, es, tree0, es0, internals, n, publics, g)
    requires GoesTo(publics, es0, g, es0[internals[n]].name, p)
    ensures p in es && internals[n] in es
    ensures var tree', es' := Kept(tree, {internals[n]}), Appended(es, p, Moved(es[internals[n]].blocks));
            MergedSoFar(tree', es', tree0, es0, internals, n + 1, publics, g) && SameBlocks(tree', es', tree, es)
  {
    var q := internals[n];
    OneFirst(publics, es0, g, es0[q].name, p);
    StillThere(tree, tree0, es0, internals, n, publics, g);
    KeptTwice(tree0, Merged(internals, n, publics, es0, g), q);
    HandOne(es, es0, internals, n, publics, g, p);
    MergeSame(tree, es, q, p);
  }

  lemma {:induction false} MergeSame(tree: seq<nat>, es: Elements, q: nat, p: nat)
    requires Distinct(tree) && q in tree && p in tree && p != q && AllIn(tree, es)
    ensures SameBlocks(Kept(tree, {q}), Appended(es, p, Moved(es[q].blocks)), tree, es)
  {
    KeptMembers(tree, {q});
    forall b: Block | !b.kind.OtherTag?
      ensures Total(Kept(tree, {q}), Appended(es, p, Moved(es[q].blocks)), b) == Total(tree, es, b)
    {
      MergeConserves(tree, es, q, p, b);
    }
  }

  lemma {:induction false} SkipStep(
      tree: seq<nat>, es: Elements, tree0: seq<nat>, es0: Elements, internals: seq<nat>, n: nat,
      publics: seq<nat>, g: Graph)
    requires n < |internals| && Setting(tree0, es0, internals, publics)
    requires MergedSoFar(tree, es, tree0, es0, internals, n, publics, g)
    requires !SomeNeeds(publics, es0, g, es0[internals[n]].name)
    ensures MergedSoFar(tree, es, tree0, es0, internals, n + 1, publics, g) && SameBlocks(tree, es, tree, es)
  {
    StillThere(tree, tree0, es0, internals, n, publics, g);
    NoneIsFirst(publics, es0, g, es0[internals[n]].name);
    assert Merged(internals, n + 1, publics, es0, g) == Merged(internals, n, publics, es0, g);
    forall id | id in es0
      ensures es[id] == es0[id].(blocks := es0[id].blocks + Received(internals, n + 1, publics, es0, g, id))
    {
      assert Received(internals, n + 1, publics, es0, g, id) == Received(internals, n, publics, es0, g, id) + [];
    }
  }

  // ---------------------------------------------------------------- the merge

  ghost predicate IsFeature(es: Elements, id: nat, api: string, isInternal: bool) {
    id in es && api in es[id].apis && es[id].isInternal == isInternal
  }

  /** all_features_map of a document: public features first, so of one name the last internal one counts. */
  ghost function FeatureMap(tree: seq<nat>, es: Elements, api: string): Graph
    requires AllIn(tree, es)
  {
    SelectMembers(tree, es, api, true);
    SelectMembers(tree, es, api, false);
    DependencyGraph(Select(tree, es, api, false) + Select(tree, es, api, true), es)
  }

  /** What has left the tree: exactly the internal features of the API that some public one of it depends on. */
  ghost predicate LeftIff(tree: seq<nat>, tree0: seq<nat>, es0: Elements, api: string)
    requires AllIn(tree0, es0)
  {
    && (forall id :: id in tree ==> id in tree0)
    && forall id :: id in tree0 ==>
         (id !in tree <==> IsFeature(es0, id, api, true) && Wanted(tree0, es0, api, es0[id].name))
  }

  ghost predicate Wanted(tree: seq<nat>, es: Elements, api: string, name: string)
    requires AllIn(tree, es)
  {
    exists p :: p in tree && IsFeature(es, p, api, false) && Needs(es, FeatureMap(tree, es, api), p, name)
  }

  ghost predicate IncludesAt(whole: seq<Block>, part: seq<Block>, i: nat) {
    i + |part| <= |whole| && whole[i..i + |part|] == part
  }

  ghost predicate Includes(whole: seq<Block>, part: seq<Block>) {
    exists i: nat :: IncludesAt(whole, part, i)
  }

  lemma {:induction false} IncludesMid(before: seq<Block>, part: seq<Block>, after: seq<Block>)
    ensures Includes(before + part + after, part)
  {
    assert IncludesAt(before + part + after, part, |before|);
  }

  /** The blocks of each internal feature are in the first public one that depends on it; no other feature changes. */
  ghost predicate HandedToFirst(es: Elements, es0: Elements, internals: seq<nat>, publics: seq<nat>, g: Graph)
    requires AllIn(internals, es0) && AllIn(publics, es0)
  {
    && es.Keys == es0.Keys
    && (forall q, p: nat :: q in internals && GoesTo(publics, es0, g, es0[q].name, p) ==> Given(es, es0, q, p))
    && forall p: nat :: p in es0 && NothingFor(es0, internals, publics, g, p) ==> es[p] == es0[p]
  }

  ghost predicate Given(es: Elements, es0: Elements, q: nat, p: nat)
    requires q in es0
  {
    p in es && Includes(es[p].blocks, Moved(es0[q].blocks))
  }

  ghost predicate NothingFor(es0: Elements, internals: seq<nat>, publics: seq<nat>, g: Graph, p: nat)
    requires AllIn(internals, es0) && AllIn(publics, es0)
  {
    forall q :: q in internals ==> !GoesTo(publics, es0, g, es0[q].name, p)
  }

  lemma {:induction false} ReceivedMore(
      internals: seq<nat>, n: nat, publics: seq<nat>, es: Elements, g: Graph, p: nat)
    returns (last: seq<Block>)
    requires 0 < n <= |internals| && AllIn(internals, es) && AllIn(publics, es)
    ensures Received(internals, n, publics, es, g, p) == Received(internals, n - 1, publics, es, g, p) + last
    ensures GoesTo(publics, es, g, es[internals[n - 1]].name, p) ==> last == Moved(es[internals[n - 1]].blocks)
  {
    var q := internals[n - 1];
    last := if GoesTo(publics, es, g, es[q].name, p) then Moved(es[q].blocks) else [];
  }

  lemma {:induction false} ReceivedGrows(
      internals: seq<nat>, m: nat, n: nat, publics: seq<nat>, es: Elements, g: Graph, p: nat)
    returns (rest: seq<Block>)
    requires m <= n <= |internals| && AllIn(internals, es) && AllIn(publics, es)
    ensures Received(internals, n, publics, es, g, p) == Received(internals, m, publics, es, g, p) + rest
  {
    if m == n {
      rest := [];
      assert Received(internals, m, publics, es, g, p) + [] == Received(internals, m, publics, es, g, p);
    } else {
      var earlier := ReceivedGrows(internals, m, n - 1, publics, es, g, p);
      var last := ReceivedMore(internals, n, publics, es, g, p);
      rest := earlier + last;
      Associates(Received(internals, m, publics, es, g, p), earlier, last);
    }
  }

  /** What is handed on to `p` by the m-th internal feature stands in the blocks of `p` afterwards. */
  lemma {:induction false} ReceivedIncludes(
      blocks: seq<Block>, internals: seq<nat>, publics: seq<nat>, es: Elements, g: Graph, p: nat, m: nat)
    requires m < |internals| && AllIn(internals, es) && AllIn(publics, es)
    requires GoesTo(publics, es, g, es[internals[m]].name, p)
    ensures Includes(blocks + Received(internals, |internals|, publics, es, g, p), Moved(es[internals[m]].blocks))
  {
    var part := ReceivedMore(internals, m + 1, publics, es, g, p);
    var rest := ReceivedGrows(internals, m + 1, |internals|, publics, es, g, p);
    var before := Received(internals, m, publics, es, g, p);
    IncludesMid(blocks + before, part, rest);
    Regroup(blocks, before, part, rest);
  }

  lemma {:induction false} Associates(a: seq<Block>, b: seq<Block>, c: seq<Block>)
    ensures (a + b) + c == a + (b + c)
  {
  }

  lemma {:induction false} Regroup(a: seq<Block>, b: seq<Block>, c: seq<Block>, d: seq<Block>)
    ensures a + ((b + c) + d) == (a + b) + c + d
  {
  }

  lemma {:induction false} ReceivedNothing(
      internals: seq<nat>, n: nat, publics: seq<nat>, es: Elements, g: Graph, p: nat)
    requires n <= |internals| && AllIn(internals, es) && AllIn(publics, es)
    requires forall q :: q in internals ==> !GoesTo(publics, es, g, es[q].name, p)
    ensures Received(internals, n, publics, es, g, p) == []
  {
    if n > 0 { ReceivedNothing(internals, n - 1, publics, es, g, p); }
  }

  lemma {:induction false} HandedOne(
      es: Elements, es0: Elements, internals: seq<nat>, publics: seq<nat>, g: Graph, q: nat, p: nat)
    requires AllIn(internals, es0) && AllIn(publics, es0)
    requires HandedOver(es, es0, internals, |internals|, publics, g)
    requires q in internals && GoesTo(publics, es0, g, es0[q].name, p)
    ensures Given(es, es0, q, p)
  {
    var m :| 0 <= m < |internals| && internals[m] == q;
    OneFirst(publics, es0, g, es0[q].name, p);
    ReceivedIncludes(es0[p].blocks, internals, publics, es0, g, p, m);
  }

  lemma {:induction false} AllHanded(es: Elements, es0: Elements, internals: seq<nat>, publics: seq<nat>, g: Graph)
    requires AllIn(internals, es0) && AllIn(publics, es0)
    requires HandedOver(es, es0, internals, |internals|, publics, g)
    ensures HandedToFirst(es, es0, internals, publics, g)
  {
    forall q, p: nat | q in internals && GoesTo(publics, es0, g, es0[q].name, p) ensures Given(es, es0, q, p) {
      HandedOne(es, es0, internals, publics, g, q, p);
    }
    forall p: nat | p in es0 && NothingFor(es0, internals, publics, g, p) ensures es[p] == es0[p] {
      HandedNothing(es, es0, internals, publics, g, p);
    }
  }

  lemma {:induction false} HandedNothing(
      es: Elements, es0: Elements, internals: seq<nat>, publics: seq<nat>, g: Graph, p: nat)
    requires AllIn(internals, es0) && AllIn(publics, es0)
    requires HandedOver(es, es0, internals, |internals|, publics, g)
    requires p in es0 && NothingFor(es0, internals, publics, g, p)
    ensures p in es && es[p] == es0[p]
  {
    ReceivedNothing(internals, |internals|, publics, es0, g, p);
    assert es0[p].blocks + [] == es0[p].blocks;
  }

  lemma {:induction false} MergedMembers(
      internals: seq<nat>, n: nat, publics: seq<nat>, es: Elements, g: Graph, id: nat)
    requires n <= |internals| && AllIn(internals, es) && AllIn(publics, es)
    ensures id in Merged(internals, n, publics, es, g) <==>
              id in internals[..n] && SomeNeeds(publics, es, g, es[id].name)
  {
    if n > 0 {
      MergedMembers(internals, n - 1, publics, es, g, id);
      assert internals[..n] == internals[..n - 1] + [internals[n - 1]];
    }
  }

  lemma {:induction false} MergedLeft(tree: seq<nat>, es: Elements, api: string)
    requires AllIn(tree, es)
    ensures var internals, publics := Select(tree, es, api, true), Select(tree, es, api, false);
            && AllIn(internals, es) && AllIn(publics, es)
            && LeftIff(Kept(tree, Merged(internals, |internals|, publics, es, FeatureMap(tree, es, api))), tree, es,
                api)
  {
    var internals, publics := Select(tree, es, api, true), Select(tree, es, api, false);
    SelectMembers(tree, es, api, true);
    SelectMembers(tree, es, api, false);
    var g := FeatureMap(tree, es, api);
    KeptMembers(tree, Merged(internals, |internals|, publics, es, g));
    forall id | id in tree
      ensures id in Merged(internals, |internals|, publics, es, g) <==>
                IsFeature(es, id, api, true) && Wanted(tree, es, api, es[id].name)
    {
      MergedMembers(internals, |internals|, publics, es, g, id);
      assert internals[..|internals|] == internals;
      WantedIsNeeded(tree, es, api, es[id].name);
    }
  }

  lemma {:induction false} PartitionSetting(tree: seq<nat>, es: Elements, api: string)
    requires Distinct(tree) && AllIn(tree, es)
    ensures var internals, publics := Select(tree, es, api, true), Select(tree, es, api, false);
            && Setting(tree, es, internals, publics) && AllIn(internals, es) && AllIn(publics, es)
            && AllIn(publics + internals, es)
  {
    SelectMembers(tree, es, api, true);
    SelectMembers(tree, es, api, false);
  }

  /**
    The document after the merge.  Every internal feature of the API that some public one depends on, directly
    or not, has left the tree; its blocks are in the first such public feature in document order; everything
    else is as it was, and in the same order; no block that a merge copies is lost or duplicated.
   */
  ghost predicate MergeDone(tree: seq<nat>, es: Elements, tree0: seq<nat>, es0: Elements, api: string)
    requires Distinct(tree0) && AllIn(tree0, es0)
  {
    PartitionSetting(tree0, es0, api);
    var internals, publics, g :=
        Select(tree0, es0, api, true), Select(tree0, es0, api, false), FeatureMap(tree0, es0, api);
    && MergedSoFar(tree, es, tree0, es0, internals, |internals|, publics, g)
    && LeftIff(tree, tree0, es0, api)
    && HandedToFirst(es, es0, internals, publics, g)
    && InOrderOf(tree, tree0)
    && SameBlocks(tree, es, tree0, es0)
  }

  lemma {:induction false} MergeFinished(tree: seq<nat>, es: Elements, tree0: seq<nat>, es0: Elements, api: string)
    requires Distinct(tree0) && AllIn(tree0, es0) && SameBlocks(tree, es, tree0, es0)
    requires Setting(tree0, es0, Select(tree0, es0, api, true), Select(tree0, es0, api, false))
    requires MergedSoFar(tree, es, tree0, es0, Select(tree0, es0, api, true), |Select(tree0, es0, api, true)|,
                         Select(tree0, es0, api, false), FeatureMap(tree0, es0, api))
    ensures MergeDone(tree, es, tree0, es0, api)
  {
    var internals, publics, g :=
        Select(tree0, es0, api, true), Select(tree0, es0, api, false), FeatureMap(tree0, es0, api);
    PartitionSetting(tree0, es0, api);
    MergedLeft(tree0, es0, api);
    AllHanded(es, es0, internals, publics, g);
    KeptOrder(tree0, Merged(internals, |internals|, publics, es0, g));
  }

  lemma {:induction false} WantedIsNeeded(tree: seq<nat>, es: Elements, api: string, name: string)
    requires AllIn(tree, es)
    ensures var publics := Select(tree, es, api, false);
            && AllIn(publics, es)
            && (Wanted(tree, es, api, name) <==> SomeNeeds(publics, es, FeatureMap(tree, es, api), name))
  {
    var publics, g := Select(tree, es, api, false), FeatureMap(tree, es, api);
    SelectMembers(tree, es, api, false);
    if Wanted(tree, es, api, name) {
      var p :| p in tree && IsFeature(es, p, api, false) && Needs(es, g, p, name);
      var k :| 0 <= k < |publics| && publics[k] == p;
    }
    if SomeNeeds(publics, es, g, name) {
      var k :| 0 <= k < |publics| && Needs(es, g, publics[k], name);
      assert publics[k] in publics;
    }
  }

  class Registry {
    var tree: seq<nat>
    var elements: Elements

    /** Children are distinct elements. */
    ghost predicate Valid()
      reads this
    {
      Distinct(tree) && AllIn(tree, elements)
    }

    /** Splits the features of the API into internal and public ones. */
    method Partition(api: string) returns (internals: seq<nat>, publics: seq<nat>)
      requires AllIn(tree, elements)
      ensures internals == Select(tree, elements, api, true) && publics == Select(tree, elements, api, false)
    {
      internals, publics := [], [];
      var i := 0;
      while i < |tree|
        invariant 0 <= i <= |tree|
        invariant internals + Select(tree[i..], elements, api, true) == Select(tree, elements, api, true)
        invariant publics + Select(tree[i..], elements, api, false) == Select(tree, elements, api, false)
      {
        var feature := tree[i];
        SelectSplit(tree, elements, api, true, i);
        SelectSplit(tree, elements, api, false, i);
        if api in elements[feature].apis {
          if elements[feature].isInternal {
            internals := internals + [feature];
          } else {
            publics := publics + [feature];
          }
        }
        i := i + 1;
      }
    }

    /** The first public feature, in document order, that depends on the name, if any does. */
    method FindTarget(publics: seq<nat>, graph: Graph, name: string) returns (target: Option<nat>)
      requires AllIn(publics, elements)
      ensures target.None? <==> !SomeNeeds(publics, elements, graph, name)
      ensures forall id: nat :: target == Some(id) <==> GoesTo(publics, elements, graph, name, id)
    {
      var i := 0;
      while i < |publics|
        invariant 0 <= i <= |publics|
        invariant forall j :: 0 <= j < i ==> !Needs(elements, graph, publics[j], name)
      {
        var depends := HasDependency(graph, elements[publics[i]].name, elements[publics[i]].depends, name);
        if depends {
          assert FirstAt(publics, elements, graph, name, i);
          OneFirst(publics, elements, graph, name, publics[i]);
          return Some(publics[i]);
        }
        i := i + 1;
      }
      NoneIsFirst(publics, elements, graph, name);
      return None;
    }

    /** The comprehension that builds all_features_map. */
    method BuildGraph(features: seq<nat>) returns (graph: Graph)
      requires AllIn(features, elements)
      ensures graph == DependencyGraph(features, elements)
    {
      graph := map[];
      var i := 0;
      while i < |features|
        invariant 0 <= i <= |features| && graph == DependencyGraph(features[..i], elements)
      {
        assert features[..i + 1][..i] == features[..i];
        graph := graph[elements[features[i]].name := elements[features[i]].depends];
        i := i + 1;
      }
      assert features[..i] == features;
    }

    /**
      Every internal feature that some public feature depends on, directly or not, leaves the tree; its blocks
      go to the first such public feature in document order; everything else stays as it was.  The number of
      occurrences of every require, deprecate and remove block in the document does not change.
     */
    method MergeInternalFeatures(api: string)
      requires Valid()
      modifies this
      ensures MergeDone(tree, elements, old(tree), old(elements), api)
    {
      var internals, publics := Partition(api);
      PartitionSetting(tree, elements, api);
      var graph := BuildGraph(publics + internals);
      ghost var tree0, es0 := tree, elements;
      NothingMerged(tree, elements, internals, publics, graph);
      var n := 0;
      while n < |internals|
        invariant 0 <= n <= |internals|
        invariant MergedSoFar(tree, elements, tree0, es0, internals, n, publics, graph)
        invariant SameBlocks(tree, elements, tree0, es0)
      {
        MergeOne(tree0, es0, internals, n, publics, graph);
        n := n + 1;
      }
      MergeFinished(tree, elements, tree0, es0, api);
    }

    method MergeOne(
        ghost tree0: seq<nat>, ghost es0: Elements, internals: seq<nat>, n: nat, publics: seq<nat>, graph: Graph)
      requires n < |internals| && Setting(tree0, es0, internals, publics)
      requires MergedSoFar(tree, elements, tree0, es0, internals, n, publics, graph)
      modifies this
      ensures MergedSoFar(tree, elements, tree0, es0, internals, n + 1, publics, graph)
      ensures SameBlocks(tree, elements, old(tree), old(elements))
    {
      var q := internals[n];
      var target := FindTarget(publics, graph, elements[q].name);
      FirstIgnoresBlocks(publics, es0, elements, graph, es0[q].name, if target.Some? then target.value else 0);
      if target.Some? {
        var p := target.value;
        MergeStep(tree, elements, tree0, es0, internals, n, publics, graph, p);
        elements := Appended(elements, p, Moved(elements[q].blocks));
        tree := Kept(tree, {q});
      } else {
        SkipStep(tree, elements, tree0, es0, internals, n, publics, graph);
      }
    }
  }

  lemma {:induction false} FirstIgnoresBlocks(
      publics: seq<nat>, es: Elements, es': Elements, g: Graph, name: string, id: nat)
    requires forall id :: id in publics ==>
              id in es && id in es' && es'[id].name == es[id].name && es'[id].depends == es[id].depends
    ensures GoesTo(publics, es', g, name, id) <==> GoesTo(publics, es, g, name, id)
    ensures SomeNeeds(publics, es', g, name) <==> SomeNeeds(publics, es, g, name)
  {
    forall k | 0 <= k < |publics| ensures Needs(es', g, publics[k], name) <==> Needs(es, g, publics[k], name) {
      assert publics[k] in publics;
    }
    forall k: nat ensures FirstAt(publics, es', g, name, k) <==> FirstAt(publics, es, g, name, k) {
    }
  }

}

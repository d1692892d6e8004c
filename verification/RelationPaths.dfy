/** Bounded search for simple relation paths, and the two-hop join over the same edges. */
module RelationPaths {
  import opened Ordering
  import opened Texts
  import opened KnowledgeStore

  type Objects = map<string, Object>

  // ---------------------------------------------------------------- what a path is

  /** The i-th object a chain of edges visits. */
  function Node(t: seq<Relation>, i: nat): string
    requires |t| > 0 && i <= |t|
  {
    if i == 0 then t[0].source else t[i - 1].target
  }

  /** A directed chain of given edges through pairwise distinct, known objects. */
  ghost predicate IsSimplePath(rels: seq<Relation>, objs: Objects, t: seq<Relation>) {
    && |t| > 0
    && (forall i :: 0 <= i < |t| ==> t[i] in rels)
    && (forall i :: 0 < i < |t| ==> t[i].source == t[i - 1].target)
    && (forall i :: 0 <= i <= |t| ==> Node(t, i) in objs)
    && (forall i, j :: 0 <= i < j <= |t| ==> Node(t, i) != Node(t, j))
  }

  function Key(objs: Objects, id: string): string {
    if id in objs then objs[id].key else ""
  }

  /** Relation types and target keys along a chain. */
  function KeyTail(objs: Objects, t: seq<Relation>): seq<string> {
    if t == [] then []
    else [t[0].kind, Key(objs, t[0].target)] + KeyTail(objs, t[1..])
  }

  lemma {:induction false} KeyTailLength(objs: Objects, t: seq<Relation>)
    ensures |KeyTail(objs, t)| == 2 * |t|
  {
    if t != [] { KeyTailLength(objs, t[1..]); }
  }

  /** The key sequence printed for a path: object key, relation type, object key, and so on. */
  function PathKeys(objs: Objects, t: seq<Relation>): seq<string>
    requires |t| > 0
  {
    [Key(objs, t[0].source)] + KeyTail(objs, t)
  }

  /** The keys of some simple path of 2 to `cap` hops. */
  ghost predicate IsPathKeys(rels: seq<Relation>, objs: Objects, cap: int, keys: seq<string>) {
    exists t: seq<Relation> :: IsSimplePath(rels, objs, t) && 2 <= |t| <= cap && PathKeys(objs, t) == keys
  }

  // ---------------------------------------------------------------- what one call of the walk adds

  /** The edges leaving one object, in row order. */
  function EdgesFrom(rels: seq<Relation>, node: string): (r: seq<Relation>)
    ensures forall e :: e in r <==> e in rels && e.source == node
  {
    if rels == [] then []
    else
      var last := rels[|rels| - 1];
      assert rels == rels[..|rels| - 1] + [last];
      EdgesFrom(rels[..|rels| - 1], node) + (if last.source == node then [last] else [])
  }

  /** `t` continues a walk that stands at `node` having visited `visited`. */
  ghost predicate Continues(rels: seq<Relation>, objs: Objects, node: string, visited: set<string>,
                            t: seq<Relation>)
    decreases |t|
  {
    t == [] ||
    (t[0] in rels && t[0].source == node && t[0].target in objs && t[0].target !in visited
     && Continues(rels, objs, t[0].target, visited + {t[0].target}, t[1..]))
  }

  /** `p` is `path` followed by the keys of a continuation that stays within the hop bound. */
  ghost predicate Reaches(rels: seq<Relation>, objs: Objects, node: string, path: seq<string>,
                          visited: set<string>, hops: nat, cap: nat, p: seq<string>)
  {
    exists t :: Continues(rels, objs, node, visited, t) && 2 <= hops + |t| <= cap && p == path + KeyTail(objs, t)
  }

  /** `p` is reached through the edge `e`. */
  ghost predicate Follows(rels: seq<Relation>, objs: Objects, e: Relation, path: seq<string>,
                          visited: set<string>, hops: nat, cap: nat, p: seq<string>)
  {
    && e.target in objs && e.target !in visited
    && Reaches(rels, objs, e.target, path + [e.kind, objs[e.target].key], visited + {e.target}, hops + 1, cap, p)
  }

  /** A call of the walk adds its own path from two hops on, and what its edges lead to below the bound. */
  lemma ReachesStep(rels: seq<Relation>, objs: Objects, node: string, path: seq<string>,
                    visited: set<string>, hops: nat, cap: nat, p: seq<string>)
    requires hops <= cap
    ensures Reaches(rels, objs, node, path, visited, hops, cap, p)
       <==> ((hops >= 2 && p == path)
             || (hops < cap && FollowsAny(rels, objs, EdgesFrom(rels, node), path, visited, hops, cap, p)))
  {
    if Reaches(rels, objs, node, path, visited, hops, cap, p) {
      var t: seq<Relation> :| Continues(rels, objs, node, visited, t) && 2 <= hops + |t| <= cap && p == path + KeyTail(objs, t);
      if t == [] {
        assert p == path;
      } else {
        assert p == path + [t[0].kind, objs[t[0].target].key] + KeyTail(objs, t[1..]);
        assert t[0] in EdgesFrom(rels, node) && Follows(rels, objs, t[0], path, visited, hops, cap, p);
      }
    }
    if hops >= 2 && p == path {
      assert p == path + KeyTail(objs, []) && Continues(rels, objs, node, visited, []);
    }
    if hops < cap && FollowsAny(rels, objs, EdgesFrom(rels, node), path, visited, hops, cap, p) {
      var e :| e in EdgesFrom(rels, node) && Follows(rels, objs, e, path, visited, hops, cap, p);
      ReachesPrepend(rels, objs, e, path, visited, hops, cap, p);
    }
  }

  lemma ReachesPrepend(rels: seq<Relation>, objs: Objects, e: Relation, path: seq<string>,
                       visited: set<string>, hops: nat, cap: nat, p: seq<string>)
    requires e in rels && Follows(rels, objs, e, path, visited, hops, cap, p)
    ensures Reaches(rels, objs, e.source, path, visited, hops, cap, p)
  {
    var next := path + [e.kind, objs[e.target].key];
    var rest :| Continues(rels, objs, e.target, visited + {e.target}, rest)
                && 2 <= hops + 1 + |rest| <= cap && p == next + KeyTail(objs, rest);
    var t := [e] + rest;
    assert t[1..] == rest;
    assert p == path + KeyTail(objs, t);
    assert Continues(rels, objs, e.source, visited, t);
  }

  /** `p` is reached through one of several edges. */
  ghost predicate FollowsAny(rels: seq<Relation>, objs: Objects, edges: seq<Relation>, path: seq<string>,
                             visited: set<string>, hops: nat, cap: nat, p: seq<string>)
  {
    exists e :: e in edges && Follows(rels, objs, e, path, visited, hops, cap, p)
  }

  lemma FollowsAnyAppend(rels: seq<Relation>, objs: Objects, edges: seq<Relation>, e: Relation, path: seq<string>,
                         visited: set<string>, hops: nat, cap: nat, p: seq<string>)
    ensures FollowsAny(rels, objs, edges + [e], path, visited, hops, cap, p)
       <==> FollowsAny(rels, objs, edges, path, visited, hops, cap, p) || Follows(rels, objs, e, path, visited, hops, cap, p)
  {
    assert forall x :: x in edges + [e] <==> x in edges || x == e;
  }

  /** The chain `t` read from `node`, without recursion. */
  ghost predicate Chain(rels: seq<Relation>, objs: Objects, node: string, visited: set<string>, t: seq<Relation>) {
    && (forall i :: 0 <= i < |t| ==> t[i] in rels && t[i].target in objs && t[i].target !in visited)
    && (|t| > 0 ==> t[0].source == node)
    && (forall i :: 0 < i < |t| ==> t[i].source == t[i - 1].target)
    && (forall i, j :: 0 <= i < j < |t| ==> t[i].target != t[j].target)
  }

  lemma {:induction false} ContinuesIsChain(rels: seq<Relation>, objs: Objects, node: string,
                                            visited: set<string>, t: seq<Relation>)
    ensures Continues(rels, objs, node, visited, t) <==> Chain(rels, objs, node, visited, t)
    decreases |t|
  {
    if t != [] {
      var s := t[1..];
      ContinuesIsChain(rels, objs, t[0].target, visited + {t[0].target}, s);
      assert forall i :: 0 <= i < |s| ==> s[i] == t[i + 1];
      assert forall i :: 0 < i < |t| ==> t[i] == s[i - 1];
      if Chain(rels, objs, node, visited, t) {
        assert Chain(rels, objs, t[0].target, visited + {t[0].target}, s);
      }
      if Continues(rels, objs, node, visited, t) {
        forall i | 0 < i < |t| ensures t[i].source == t[i - 1].target {
          if i > 1 { assert s[i - 1].source == s[i - 2].target; }
        }
        forall i, j | 0 <= i < j < |t| ensures t[i].target != t[j].target {
          if i > 0 { assert s[i - 1].target != s[j - 1].target; }
        }
      }
    }
  }

  lemma ChainIsSimplePath(rels: seq<Relation>, objs: Objects, s: string, t: seq<Relation>)
    requires |t| > 0 && s in objs
    ensures Chain(rels, objs, s, {s}, t) <==> (IsSimplePath(rels, objs, t) && t[0].source == s)
  {
    assert forall i :: 0 < i <= |t| ==> Node(t, i) == t[i - 1].target;
    assert Node(t, 0) == t[0].source;
    if IsSimplePath(rels, objs, t) && t[0].source == s {
      forall i | 0 <= i < |t| ensures t[i].target in objs && t[i].target != s {
        assert Node(t, i + 1) == t[i].target && Node(t, 0) != Node(t, i + 1);
      }
      forall i, j | 0 <= i < j < |t| ensures t[i].target != t[j].target {
        assert Node(t, i + 1) != Node(t, j + 1);
      }
    }
  }

  /** What the outer loop adds for one source. */
  ghost predicate FromSource(rels: seq<Relation>, objs: Objects, s: string, cap: nat, p: seq<string>) {
    s in objs && Reaches(rels, objs, s, [objs[s].key], {s}, 0, cap, p)
  }

  /** Over all sources, exactly the key sequences of the simple paths of 2 to `cap` hops. */
  lemma FromSourcesExact(rels: seq<Relation>, objs: Objects, cap: nat, p: seq<string>)
    ensures IsPathKeys(rels, objs, cap, p) <==> exists e :: e in rels && FromSource(rels, objs, e.source, cap, p)
  {
    if exists e :: e in rels && FromSource(rels, objs, e.source, cap, p) {
      var e :| e in rels && FromSource(rels, objs, e.source, cap, p);
      var s := e.source;
      var t: seq<Relation> :| Continues(rels, objs, s, {s}, t) && 2 <= |t| <= cap && p == [objs[s].key] + KeyTail(objs, t);
      ContinuesIsChain(rels, objs, s, {s}, t);
      ChainIsSimplePath(rels, objs, s, t);
    }
    if IsPathKeys(rels, objs, cap, p) {
      var t: seq<Relation> :| IsSimplePath(rels, objs, t) && 2 <= |t| <= cap && PathKeys(objs, t) == p;
      var s := t[0].source;
      assert Node(t, 0) in objs && t[0] in rels;
      ChainIsSimplePath(rels, objs, s, t);
      ContinuesIsChain(rels, objs, s, {s}, t);
      assert FromSource(rels, objs, t[0].source, cap, p);
    }
  }

  /** More edges and more known objects can only add paths. */
  lemma PathsMonotone(rels: seq<Relation>, objs: Objects, more: seq<Relation>, moreObjs: Objects,
                      cap: int, p: seq<string>)
    requires forall r :: r in rels ==> r in more
    requires forall id :: id in objs ==> id in moreObjs && moreObjs[id] == objs[id]
    requires IsPathKeys(rels, objs, cap, p)
    ensures IsPathKeys(more, moreObjs, cap, p)
  {
    var t: seq<Relation> :| IsSimplePath(rels, objs, t) && 2 <= |t| <= cap && PathKeys(objs, t) == p;
    assert forall i :: 0 <= i < |t| ==> t[i].target == Node(t, i + 1);
    assert t[0].source == Node(t, 0);
    KeyTailSame(objs, moreObjs, t);
    assert IsSimplePath(more, moreObjs, t);
  }

  lemma {:induction false} KeyTailSame(objs: Objects, other: Objects, t: seq<Relation>)
    requires forall i :: 0 <= i < |t| ==> Key(objs, t[i].target) == Key(other, t[i].target)
    ensures KeyTail(objs, t) == KeyTail(other, t)
  {
    if t != [] { KeyTailSame(objs, other, t[1..]); }
  }

  // ---------------------------------------------------------------- the search as the code runs it

  /** Exactly the sources are keys, and each lists its edges in row order. */
  ghost predicate IsAdjacency(rels: seq<Relation>, adjacency: map<string, seq<Relation>>) {
    forall s :: if s in adjacency then adjacency[s] == EdgesFrom(rels, s) && adjacency[s] != [] else EdgesFrom(rels, s) == []
  }

  /** The edges of each source, appended in row order. */
  method BuildAdjacency(rels: seq<Relation>) returns (adjacency: map<string, seq<Relation>>)
    ensures IsAdjacency(rels, adjacency)
  {
    adjacency := map[];
    for i := 0 to |rels|
      invariant IsAdjacency(rels[..i], adjacency)
    {
      var r := rels[i];
      assert rels[..i + 1][..i] == rels[..i];
      adjacency := adjacency[r.source := (if r.source in adjacency then adjacency[r.source] else []) + [r]];
    }
    assert rels[..|rels|] == rels;
  }

  /** The set of tuples the nested `walk` function shares with its caller. */
  class Collector {
    var found: set<seq<string>>

    constructor ()
      ensures found == {}
    {
      found := {};
    }

    method Walk(ghost rels: seq<Relation>, adjacency: map<string, seq<Relation>>, objs: Objects,
                node: string, path: seq<string>, visited: set<string>, hops: nat, cap: nat)
      requires IsAdjacency(rels, adjacency) && hops <= cap
      modifies this
      ensures forall p :: p in found <==> p in old(found) || Reaches(rels, objs, node, path, visited, hops, cap, p)
      decreases cap - hops
    {
      if hops >= 2 {
        found := found + {path};
      }
      if hops >= cap {
        forall p { ReachesStep(rels, objs, node, path, visited, hops, cap, p); }
        return;
      }
      var edges := if node in adjacency then adjacency[node] else [];
      assert edges == EdgesFrom(rels, node);
      ghost var start := found;
      for i := 0 to |edges|
        invariant forall p :: p in found <==> p in start || FollowsAny(rels, objs, edges[..i], path, visited, hops, cap, p)
      {
        var edge := edges[i];
        if edge.target in objs && edge.target !in visited {
          Walk(rels, adjacency, objs, edge.target, path + [edge.kind, objs[edge.target].key],
               visited + {edge.target}, hops + 1, cap);
        }
        assert edges[..i + 1] == edges[..i] + [edge];
        forall p { FollowsAnyAppend(rels, objs, edges[..i], edge, path, visited, hops, cap, p); }
      }
      assert edges[..|edges|] == edges;
      forall p { ReachesStep(rels, objs, node, path, visited, hops, cap, p); }
    }
  }

  /** Any listing of a finite set, as iterating a Python set gives one. */
  method Listing<T(==, !new)>(s: set<T>) returns (xs: seq<T>)
    ensures forall x :: x in xs <==> x in s
  {
    xs := [];
    var rest := s;
    while rest != {}
      invariant rest <= s
      invariant forall x :: x in xs <==> x in s && x !in rest
      decreases rest
    {
      var x :| x in rest;
      xs := xs + [x];
      rest := rest - {x};
    }
  }

  /** The keys of the adjacency are the sources every path must start from. */
  lemma SourcesCover(rels: seq<Relation>, objs: Objects, adjacency: map<string, seq<Relation>>,
                     sources: seq<string>, cap: nat, p: seq<string>)
    requires IsAdjacency(rels, adjacency) && (forall s :: s in sources <==> s in adjacency) && 2 <= cap
    ensures (exists j :: 0 <= j < |sources| && FromSource(rels, objs, sources[j], cap, p)) <==> IsPathKeys(rels, objs, cap, p)
  {
    FromSourcesExact(rels, objs, cap, p);
    if e :| e in rels && FromSource(rels, objs, e.source, cap, p) {
      assert e in EdgesFrom(rels, e.source) && e.source in sources;
    }
    if j :| 0 <= j < |sources| && FromSource(rels, objs, sources[j], cap, p) {
      assert sources[j] in sources && EdgesFrom(rels, sources[j])[0] in EdgesFrom(rels, sources[j]);
    }
  }

  /** The strict branch, for `maximumHops` above 2: exactly the simple paths, sorted, each once. */
  method SearchPaths(rels: seq<Relation>, objs: Objects, maximumHops: nat) returns (paths: seq<seq<string>>)
    requires maximumHops > 2
    ensures Increasing(TupleLess, paths)
    ensures forall p :: p in paths <==> IsPathKeys(rels, objs, if maximumHops < 6 then maximumHops else 6, p)
  {
    var cap := if maximumHops < 6 then maximumHops else 6;
    var adjacency := BuildAdjacency(rels);
    var collector := new Collector();
    var listed := Listing(adjacency.Keys);
    StringLessStrictTotal();
    var sources := SortedSet(StringLess, listed);
    for i := 0 to |sources|
      invariant forall p :: p in collector.found <==> exists j :: 0 <= j < i && FromSource(rels, objs, sources[j], cap, p)
    {
      var s := sources[i];
      if s in objs {
        collector.Walk(rels, adjacency, objs, s, [objs[s].key], {s}, 0, cap);
      }
    }
    forall p ensures p in collector.found <==> IsPathKeys(rels, objs, cap, p) {
      SourcesCover(rels, objs, adjacency, sources, cap, p);
    }
    TupleLessStrictTotal();
    var tuples := Listing(collector.found);
    paths := SortedSet(TupleLess, tuples);
  }

  // ---------------------------------------------------------------- the two-hop join

  predicate Joins(objs: Objects, a: Relation, b: Relation) {
    a.source in objs && a.target in objs && b.source == a.target && b.target in objs
  }

  function JoinKeys(objs: Objects, a: Relation, b: Relation): seq<string>
    requires Joins(objs, a, b)
  {
    [objs[a.source].key, a.kind, objs[a.target].key, b.kind, objs[b.target].key]
  }

  /** The paths one outer iteration of the join appends, in row order. */
  function JoinRow(objs: Objects, a: Relation, rels: seq<Relation>): seq<seq<string>> {
    if rels == [] then []
    else
      var last := rels[|rels| - 1];
      JoinRow(objs, a, rels[..|rels| - 1]) + (if Joins(objs, a, last) then [JoinKeys(objs, a, last)] else [])
  }

  function JoinAll(objs: Objects, firsts: seq<Relation>, rels: seq<Relation>): seq<seq<string>> {
    if firsts == [] then []
    else JoinAll(objs, firsts[..|firsts| - 1], rels) + JoinRow(objs, firsts[|firsts| - 1], rels)
  }

  lemma {:induction false} JoinRowExact(objs: Objects, a: Relation, rels: seq<Relation>, p: seq<string>)
    ensures p in JoinRow(objs, a, rels) <==> exists b :: b in rels && Joins(objs, a, b) && JoinKeys(objs, a, b) == p
  {
    if rels != [] {
      JoinRowExact(objs, a, rels[..|rels| - 1], p);
      assert rels == rels[..|rels| - 1] + [rels[|rels| - 1]];
    }
  }

  lemma {:induction false} JoinAllExact(objs: Objects, firsts: seq<Relation>, rels: seq<Relation>, p: seq<string>)
    ensures p in JoinAll(objs, firsts, rels)
       <==> exists a, b :: a in firsts && b in rels && Joins(objs, a, b) && JoinKeys(objs, a, b) == p
  {
    if firsts != [] {
      var front, a := firsts[..|firsts| - 1], firsts[|firsts| - 1];
      assert firsts == front + [a];
      JoinAllExact(objs, front, rels, p);
      JoinRowExact(objs, a, rels, p);
    }
  }

  lemma {:induction false} JoinRowUnknown(objs: Objects, a: Relation, rels: seq<Relation>)
    requires a.source !in objs || a.target !in objs
    ensures JoinRow(objs, a, rels) == []
  {
    if rels != [] { JoinRowUnknown(objs, a, rels[..|rels| - 1]); }
  }

  /** The default branch: every pair of consecutive edges with known ends, first occurrences in order. */
  method JoinPaths(rels: seq<Relation>, objs: Objects) returns (paths: seq<seq<string>>)
    ensures paths == Unique(JoinAll(objs, rels, rels))
  {
    paths := [];
    for i := 0 to |rels|
      invariant paths == JoinAll(objs, rels[..i], rels)
    {
      var first := rels[i];
      assert rels[..i + 1][..i] == rels[..i];
      ghost var before := paths;
      if first.source !in objs || first.target !in objs {
        JoinRowUnknown(objs, first, rels);
        continue;
      }
      for j := 0 to |rels|
        invariant paths == before + JoinRow(objs, first, rels[..j])
      {
        var second := rels[j];
        assert rels[..j + 1][..j] == rels[..j];
        if second.source == first.target && second.target in objs {
          paths := paths + [JoinKeys(objs, first, second)];
        }
      }
      assert rels[..|rels|] == rels;
    }
    assert rels[..|rels|] == rels;
    paths := Unique(paths);
  }

  /** Canonical keys tell objects apart. */
  ghost predicate KeysInjective(objs: Objects) {
    forall x, y :: x in objs && y in objs && objs[x].key == objs[y].key ==> x == y
  }

  lemma PairKeys(objs: Objects, a: Relation, b: Relation)
    ensures PathKeys(objs, [a, b]) == [Key(objs, a.source), a.kind, Key(objs, a.target), b.kind, Key(objs, b.target)]
  {
    assert [a, b][1..] == [b] && [b][1..] == [];
    assert KeyTail(objs, [b]) == [b.kind, Key(objs, b.target)];
  }

  predicate ThreeObjects(p: seq<string>) {
    |p| == 5 && p[0] != p[2] && p[2] != p[4] && p[0] != p[4]
  }

  lemma TwoHopSearchJoins(rels: seq<Relation>, objs: Objects, t: seq<Relation>)
    requires KeysInjective(objs) && IsSimplePath(rels, objs, t) && |t| == 2
    ensures ThreeObjects(PathKeys(objs, t)) && PathKeys(objs, t) in Unique(JoinAll(objs, rels, rels))
  {
    var a, b := t[0], t[1];
    assert t == [a, b];
    PairKeys(objs, a, b);
    assert Node(t, 0) == a.source && Node(t, 1) == a.target && Node(t, 2) == b.target;
    JoinAllExact(objs, rels, rels, PathKeys(objs, t));
    assert Joins(objs, a, b) && JoinKeys(objs, a, b) == PathKeys(objs, t);
  }

  lemma JoinIsTwoHopSearch(rels: seq<Relation>, objs: Objects, a: Relation, b: Relation)
    requires a in rels && b in rels && Joins(objs, a, b) && ThreeObjects(JoinKeys(objs, a, b))
    ensures IsSimplePath(rels, objs, [a, b]) && PathKeys(objs, [a, b]) == JoinKeys(objs, a, b)
  {
    PairKeys(objs, a, b);
    assert Node([a, b], 0) == a.source && Node([a, b], 1) == a.target && Node([a, b], 2) == b.target;
  }

  /** The two-hop results of the search are the join's paths whose three objects differ. */
  lemma TwoHopSearchIsJoin(rels: seq<Relation>, objs: Objects, cap: int, p: seq<string>)
    requires KeysInjective(objs) && cap >= 2
    ensures (IsPathKeys(rels, objs, cap, p) && |p| == 5)
       <==> (p in Unique(JoinAll(objs, rels, rels)) && ThreeObjects(p))
  {
    if IsPathKeys(rels, objs, cap, p) && |p| == 5 {
      var t: seq<Relation> :| IsSimplePath(rels, objs, t) && 2 <= |t| <= cap && PathKeys(objs, t) == p;
      KeyTailLength(objs, t);
      TwoHopSearchJoins(rels, objs, t);
    }
    if p in Unique(JoinAll(objs, rels, rels)) && ThreeObjects(p) {
      JoinAllExact(objs, rels, rels, p);
      var a, b :| a in rels && b in rels && Joins(objs, a, b) && JoinKeys(objs, a, b) == p;
      JoinIsTwoHopSearch(rels, objs, a, b);
    }
  }

  /** The join also reports cycles: an edge and its way back form a join path but never a search path. */
  lemma JoinKeepsCycles(rels: seq<Relation>, objs: Objects, a: Relation, b: Relation, cap: int)
    requires a in rels && b in rels && Joins(objs, a, b) && b.target == a.source
    ensures JoinKeys(objs, a, b) in Unique(JoinAll(objs, rels, rels))
    ensures KeysInjective(objs) && cap >= 2 ==> !IsPathKeys(rels, objs, cap, JoinKeys(objs, a, b))
  {
    JoinAllExact(objs, rels, rels, JoinKeys(objs, a, b));
    if KeysInjective(objs) && cap >= 2 {
      TwoHopSearchIsJoin(rels, objs, cap, JoinKeys(objs, a, b));
    }
  }

  // ---------------------------------------------------------------- from references to paths

  const RELATION := "relation:"

  /** The rows a list of `relation:` references names. */
  ghost predicate RowsFor(store: Store, refs: seq<string>, rels: seq<Relation>) {
    forall r :: r in rels <==>
      exists ref :: ref in refs && StartsWith(ref, RELATION) && RemovePrefix(ref, RELATION) in store.relations
                    && store.relations[RemovePrefix(ref, RELATION)] == r
  }

  method RelationIds(refs: seq<string>) returns (ids: seq<string>)
    ensures forall id :: id in ids <==> exists ref :: ref in refs && StartsWith(ref, RELATION) && RemovePrefix(ref, RELATION) == id
  {
    ids := [];
    for i := 0 to |refs|
      invariant forall id :: id in ids <==>
        exists ref :: ref in refs[..i] && StartsWith(ref, RELATION) && RemovePrefix(ref, RELATION) == id
    {
      assert refs[..i + 1] == refs[..i] + [refs[i]];
      if StartsWith(refs[i], RELATION) {
        ids := ids + [RemovePrefix(refs[i], RELATION)];
      }
    }
    assert refs[..|refs|] == refs;
  }

  /** `_relation_paths_for_refs`: the strict search above two hops, the join otherwise. */
  method RelationPathsForRefs(store: Store, refs: seq<string>, maximumHops: int)
    returns (paths: seq<seq<string>>, ghost rels: seq<Relation>)
    ensures RowsFor(store, refs, rels)
    ensures maximumHops > 2 ==>
      && Increasing(TupleLess, paths)
      && forall p :: p in paths <==>
           IsPathKeys(rels, SelectObjects(store, rels), if maximumHops < 6 then maximumHops else 6, p)
    ensures maximumHops <= 2 ==> paths == Unique(JoinAll(SelectObjects(store, rels), rels, rels))
  {
    var ids := RelationIds(refs);
    if ids == [] {
      rels := [];
      paths := [];
      assert forall ref :: ref in refs && StartsWith(ref, RELATION) ==> RemovePrefix(ref, RELATION) in ids;
      return;
    }
    var rows := SelectRelations(store, ids);
    rels := rows;
    var objs := SelectObjects(store, rows);
    if maximumHops > 2 {
      paths := SearchPaths(rows, objs, maximumHops);
    } else {
      paths := JoinPaths(rows, objs);
    }
  }
}

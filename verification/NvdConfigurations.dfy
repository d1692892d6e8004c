/** Walking the configuration trees of an NVD record, and the applicability facts found in them. */
module NvdConfigurations {
  import opened JsonTrees
  import opened Ordering
  import CpeNames

  const NODES := "nodes"

  /** `_walk_nvd_nodes`: every object node reachable through object nodes, once, in preorder. */
  method Walk(nodes: seq<Json>, prefix: seq<int>) returns (result: seq<Found>)
    ensures WalkUpTo(NODES, nodes, prefix, |nodes|, result)
    decreases nodes
  {
    result := [];
    for i := 0 to |nodes|
      invariant WalkUpTo(NODES, nodes, prefix, i, result)
    {
      var node := nodes[i];
      if !node.Obj? {
        continue;
      }
      var path := prefix + [i];
      ghost var before := result;
      var below := [];
      if node.Items(NODES).Some? {
        below := Walk(node.Items(NODES).value, path);
      }
      WalkExtends(NODES, nodes, prefix, i, result, below);
      result := result + [(path, node)];
      result := result + below;
    }
  }

  // ---------------------------------------------------------------- applicability facts

  /** A fact and where it comes from. */
  datatype Fact = Fact(root: int, path: seq<int>, index: int, identity: CpeNames.Identity, criteria: string)

  /** Order of emission. */
  predicate FactLess(a: Fact, b: Fact) {
    a.root < b.root || (a.root == b.root && (PathLess(a.path, b.path) || (a.path == b.path && a.index < b.index)))
  }

  /** A vulnerable match whose criteria name a product. */
  function MatchIdentity(lower: char -> char, m: Json): Option<(CpeNames.Identity, string)> {
    if !m.Obj? || "vulnerable" !in m.fields || m.fields["vulnerable"] != Bool(true) then None
    else if "criteria" !in m.fields || !m.fields["criteria"].Str? then None
    else
      var id := CpeNames.AwareIdentity(lower, m.fields["criteria"].s);
      if id.None? then None else Some((id.value, m.fields["criteria"].s))
  }

  /** A match counts when it is marked vulnerable and its criteria are a text that names a product. */
  lemma MatchExact(lower: char -> char, m: Json, id: CpeNames.Identity, criteria: string)
    ensures MatchIdentity(lower, m) == Some((id, criteria)) <==>
      && m.Obj? && "vulnerable" in m.fields && m.fields["vulnerable"] == Bool(true)
      && "criteria" in m.fields && m.fields["criteria"] == Str(criteria)
      && CpeNames.AwareIdentity(lower, criteria) == Some(id)
  {
  }

  ghost predicate IsNodeFact(lower: char -> char, node: Json, root: int, path: seq<int>, bound: int, f: Fact) {
    && f.root == root && f.path == path && node.Items("cpeMatch").Some?
    && 0 <= f.index < bound && f.index < |node.Items("cpeMatch").value|
    && MatchIdentity(lower, node.Items("cpeMatch").value[f.index]) == Some((f.identity, f.criteria))
  }

  /** The fact stands at an object node of the tree below one root. */
  ghost predicate IsRootFact(lower: char -> char, root: int, nodes: seq<Json>, f: Fact) {
    exists node :: PathTo("nodes", nodes, f.path, node) && IsNodeFact(lower, node, root, f.path, f.index + 1, f)
  }

  /** The fact stands at a root, an object node of its tree and a vulnerable product match of that node. */
  ghost predicate IsFact(lower: char -> char, configurations: seq<Json>, f: Fact) {
    && 0 <= f.root < |configurations| && configurations[f.root].Items("nodes").Some?
    && IsRootFact(lower, f.root, configurations[f.root].Items("nodes").value, f)
  }

  method NodeFacts(lower: char -> char, node: Json, root: int, path: seq<int>) returns (facts: seq<Fact>)
    ensures forall f :: f in facts <==> IsNodeFact(lower, node, root, path, f.index + 1, f)
    ensures Increasing(FactLess, facts)
  {
    facts := [];
    if node.Items("cpeMatch").None? {
      return;
    }
    var matches := node.Items("cpeMatch").value;
    for i := 0 to |matches|
      invariant forall f :: f in facts <==> IsNodeFact(lower, node, root, path, i, f)
      invariant Increasing(FactLess, facts)
    {
      var identity := MatchIdentity(lower, matches[i]);
      if identity.None? {
        continue;
      }
      assert forall k :: 0 <= k < |facts| ==> facts[k] in facts;
      facts := facts + [Fact(root, path, i, identity.value.0, identity.value.1)];
    }
  }

  ghost predicate FoundFact(lower: char -> char, root: int, found: seq<Found>, f: Fact) {
    exists k :: 0 <= k < |found| && IsNodeFact(lower, found[k].1, root, found[k].0, f.index + 1, f)
  }

  lemma FoundFactAppend(lower: char -> char, root: int, found: seq<Found>, next: Found, f: Fact)
    ensures FoundFact(lower, root, found + [next], f)
       <==> FoundFact(lower, root, found, f) || IsNodeFact(lower, next.1, root, next.0, f.index + 1, f)
  {
    var all := found + [next];
    if k :| 0 <= k < |found| && IsNodeFact(lower, found[k].1, root, found[k].0, f.index + 1, f) {
      assert all[k] == found[k];
    }
    if IsNodeFact(lower, next.1, root, next.0, f.index + 1, f) { assert all[|found|] == next; }
  }

  /** The facts of the nodes a walk finds are the facts of the tree. */
  lemma FoundFactsAreRootFacts(lower: char -> char, root: int, nodes: seq<Json>, found: seq<Found>, f: Fact)
    requires WalkUpTo(NODES, nodes, [], |nodes|, found)
    ensures FoundFact(lower, root, found, f) <==> IsRootFact(lower, root, nodes, f)
  {
    if k :| 0 <= k < |found| && IsNodeFact(lower, found[k].1, root, found[k].0, f.index + 1, f) {
      assert Located(NODES, nodes, [], |nodes|, found[k]) && found[k].0[0..] == found[k].0;
      assert PathTo(NODES, nodes, f.path, found[k].1);
    }
    if node :| PathTo(NODES, nodes, f.path, node) && IsNodeFact(lower, node, root, f.path, f.index + 1, f) {
      assert [] + f.path == f.path && (f.path, node) in found;
    }
  }

  lemma EarlierNodeFirst(lower: char -> char, root: int, nodes: seq<Json>, found: seq<Found>, i: int, a: Fact, b: Fact)
    requires WalkUpTo(NODES, nodes, [], |nodes|, found) && 0 <= i < |found|
    requires FoundFact(lower, root, found[..i], a) && IsNodeFact(lower, found[i].1, root, found[i].0, b.index + 1, b)
    ensures FactLess(a, b)
  {
    var k :| 0 <= k < i && IsNodeFact(lower, found[..i][k].1, root, found[..i][k].0, a.index + 1, a);
    assert PathLess(found[k].0, found[i].0);
  }

  lemma IncreasingAppend(a: seq<Fact>, b: seq<Fact>)
    requires Increasing(FactLess, a) && Increasing(FactLess, b)
    requires forall x, y :: x in a && y in b ==> FactLess(x, y)
    ensures Increasing(FactLess, a + b)
  {
    var s := a + b;
    forall i, j | 0 <= i < j < |s| ensures FactLess(s[i], s[j]) {
      if i < |a| <= j { assert s[i] in a && s[j] in b; }
    }
  }

  method RootFacts(lower: char -> char, root: int, nodes: seq<Json>) returns (facts: seq<Fact>)
    ensures forall f :: f in facts <==> IsRootFact(lower, root, nodes, f)
    ensures Increasing(FactLess, facts)
  {
    var found := Walk(nodes, []);
    facts := [];
    for i := 0 to |found|
      invariant forall f :: f in facts <==> FoundFact(lower, root, found[..i], f)
      invariant Increasing(FactLess, facts)
    {
      var (path, node) := found[i];
      var more := NodeFacts(lower, node, root, path);
      assert found[..i + 1] == found[..i] + [found[i]];
      forall f { FoundFactAppend(lower, root, found[..i], found[i], f); }
      forall a, b | a in facts && b in more ensures FactLess(a, b) { EarlierNodeFirst(lower, root, nodes, found, i, a, b); }
      IncreasingAppend(facts, more);
      facts := facts + more;
    }
    assert found[..|found|] == found;
    forall f { FoundFactsAreRootFacts(lower, root, nodes, found, f); }
  }

  /** `_nvd_cpe_applicability`: exactly the facts of the record, each once. */
  method Applicability(lower: char -> char, cve: Json) returns (facts: seq<Fact>)
    ensures cve.Items("configurations").None? ==> facts == []
    ensures cve.Items("configurations").Some? ==>
      forall f :: f in facts <==> IsFact(lower, cve.Items("configurations").value, f)
    ensures Increasing(FactLess, facts)
  {
    facts := [];
    if cve.Items("configurations").None? {
      return;
    }
    var configurations := cve.Items("configurations").value;
    for r := 0 to |configurations|
      invariant forall f :: f in facts <==> f.root < r && IsFact(lower, configurations, f)
      invariant Increasing(FactLess, facts)
    {
      if configurations[r].Items(NODES).None? {
        continue;
      }
      var more := RootFacts(lower, r, configurations[r].Items(NODES).value);
      IncreasingAppend(facts, more);
      facts := facts + more;
    }
  }

  /** Facts in emission order differ in their coordinates, so none is lost when gold becomes a set. */
  lemma {:induction false} NoneCollapses(facts: seq<Fact>)
    requires Increasing(FactLess, facts)
    ensures forall i, j :: 0 <= i < j < |facts| ==>
      (facts[i].root, facts[i].path, facts[i].index) != (facts[j].root, facts[j].path, facts[j].index)
    ensures |set f | f in facts| == |facts|
  {
    forall i, j | 0 <= i < j < |facts|
      ensures (facts[i].root, facts[i].path, facts[i].index) != (facts[j].root, facts[j].path, facts[j].index)
    {
      assert FactLess(facts[i], facts[j]);
      LexIrreflexive(IntLess, facts[i].path);
    }
    if facts != [] {
      var front, last := facts[..|facts| - 1], facts[|facts| - 1];
      NoneCollapses(front);
      assert facts == front + [last];
      assert (set f | f in facts) == (set f | f in front) + {last};
      assert last !in front;
    }
  }
}

/** The product tree, relationships, flags and product statuses of a CSAF VEX document. */
module CsafProducts {
  import opened JsonTrees
  import opened Ordering

  const BRANCHES := "branches"

  function Get(j: Json, name: string): Json {
    if j.Obj? && name in j.fields then j.fields[name] else Null
  }

  function Text(j: Json, name: string): Option<string> {
    var v := Get(j, name);
    if v.Str? then Some(v.s) else None
  }

  /** A field is read as a text when it is one. */
  lemma TextExact(j: Json, name: string, t: string)
    ensures Text(j, name) == Some(t) <==> j.Obj? && name in j.fields && j.fields[name] == Str(t)
  {
  }

  function ItemsOf(j: Json): seq<Json> { if j.Arr? then j.items else [] }

  // ---------------------------------------------------------------- the product index

  /** The product a branch declares itself, with its identifier. */
  function ProductOf(branch: Json): Option<(string, Json)> {
    var product := Get(branch, "product");
    var id := Text(product, "product_id");
    if product.Obj? && id.Some? then Some((id.value, product)) else None
  }

  type Index = map<string, Json>

  /** What recording the found branches, in order, makes of an index. */
  function Record(index: Index, found: seq<Found>): Index {
    if found == [] then index
    else
      var before, p := Record(index, found[..|found| - 1]), ProductOf(found[|found| - 1].1);
      if p.Some? then before[p.value.0 := p.value.1] else before
  }

  lemma {:induction false} RecordAppend(index: Index, a: seq<Found>, b: seq<Found>)
    ensures Record(index, a + b) == Record(Record(index, a), b)
  {
    if b == [] {
      assert a + b == a;
    } else {
      assert (a + b)[..|a + b| - 1] == a + b[..|b| - 1];
      RecordAppend(index, a, b[..|b| - 1]);
    }
  }

  lemma RecordOne(index: Index, f: Found)
    ensures Record(index, [f]) == if ProductOf(f.1).Some? then index[ProductOf(f.1).value.0 := ProductOf(f.1).value.1] else index
  {
    assert [f][..0] == [];
  }

  /** Entry `k` of the found branches is the last one to declare `id`. */
  ghost predicate LastFound(found: seq<Found>, id: string, k: int) {
    && 0 <= k < |found| && ProductOf(found[k].1).Some? && ProductOf(found[k].1).value.0 == id
    && forall j :: k < j < |found| ==> !Names(found[j].1, id)
  }

  predicate Names(branch: Json, id: string) { ProductOf(branch).Some? && ProductOf(branch).value.0 == id }

  lemma {:induction false} RecordedLast(found: seq<Found>, id: string)
    ensures id !in Record(map[], found) ==> forall k :: 0 <= k < |found| ==> !Names(found[k].1, id)
    ensures id in Record(map[], found) ==>
      exists k :: LastFound(found, id, k) && Record(map[], found)[id] == ProductOf(found[k].1).value.1
  {
    if found != [] {
      var front := found[..|found| - 1];
      RecordedLast(front, id);
      if Names(found[|found| - 1].1, id) {
        assert LastFound(found, id, |found| - 1);
      } else if id in Record(map[], front) {
        var k :| LastFound(front, id, k) && Record(map[], front)[id] == ProductOf(front[k].1).value.1;
        assert LastFound(found, id, k);
      }
    }
  }

  /** The walk that fills one dictionary. */
  class Indexer {
    var result: Index

    constructor ()
      ensures result == map[]
    {
      result := map[];
    }

    method Walk(branches: Json, ghost prefix: seq<int>) returns (ghost found: seq<Found>)
      modifies this
      ensures WalkUpTo(BRANCHES, ItemsOf(branches), prefix, |ItemsOf(branches)|, found)
      ensures result == Record(old(result), found)
      decreases branches
    {
      found := [];
      if !branches.Arr? {
        return;
      }
      for i := 0 to |branches.items|
        invariant WalkUpTo(BRANCHES, branches.items, prefix, i, found)
        invariant result == Record(old(result), found)
      {
        var branch := branches.items[i];
        if !branch.Obj? {
          continue;
        }
        var product := Get(branch, "product");
        if product.Obj? && Text(product, "product_id").Some? {
          result := result[Text(product, "product_id").value := product];
        }
        RecordAppend(old(result), found, [(prefix + [i], branch)]);
        RecordOne(Record(old(result), found), (prefix + [i], branch));
        ghost var above := found + [(prefix + [i], branch)];
        ghost var below := [];
        if Get(branch, BRANCHES).Arr? {
          below := Walk(Get(branch, BRANCHES), prefix + [i]);
        }
        WalkExtends(BRANCHES, branches.items, prefix, i, found, below);
        RecordAppend(old(result), above, below);
        found := above + below;
      }
    }
  }

  ghost predicate Declares(branches: seq<Json>, path: seq<int>, id: string, product: Json) {
    exists branch :: PathTo("branches", branches, path, branch) && ProductOf(branch) == Some((id, product))
  }

  ghost predicate Declared(branches: seq<Json>, id: string, product: Json) {
    exists path :: Declares(branches, path, id, product)
  }

  /** In document order, `path` is the last declaration of `id`. */
  ghost predicate LastDeclares(branches: seq<Json>, path: seq<int>, id: string, product: Json) {
    && Declares(branches, path, id, product)
    && forall other, p :: Declares(branches, other, id, p) ==> other == path || PathLess(other, path)
  }

  /** The index holds every declared identifier, with its last declaration. */
  ghost predicate IsIndex(branches: seq<Json>, index: Index) {
    && (forall id, product :: Declared(branches, id, product) ==> id in index)
    && forall id :: id in index ==> exists path :: LastDeclares(branches, path, id, index[id])
  }

  lemma FoundIsDeclared(branches: seq<Json>, found: seq<Found>, k: int)
    requires WalkUpTo(BRANCHES, branches, [], |branches|, found) && 0 <= k < |found|
    ensures PathTo(BRANCHES, branches, found[k].0, found[k].1)
  {
    assert Located(BRANCHES, branches, [], |branches|, found[k]) && found[k].0[0..] == found[k].0;
  }

  lemma DeclaredIsFound(branches: seq<Json>, found: seq<Found>, path: seq<int>, branch: Json) returns (k: int)
    requires WalkUpTo(BRANCHES, branches, [], |branches|, found) && PathTo(BRANCHES, branches, path, branch)
    ensures 0 <= k < |found| && found[k] == (path, branch)
  {
    assert [] + path == path && (path, branch) in found;
    k :| 0 <= k < |found| && found[k] == (path, branch);
  }

  lemma LastFoundIsLast(branches: seq<Json>, found: seq<Found>, id: string, k: int)
    requires WalkUpTo(BRANCHES, branches, [], |branches|, found) && LastFound(found, id, k)
    ensures LastDeclares(branches, found[k].0, id, ProductOf(found[k].1).value.1)
  {
    FoundIsDeclared(branches, found, k);
    forall other, p | Declares(branches, other, id, p) ensures other == found[k].0 || PathLess(other, found[k].0) {
      var branch :| PathTo(BRANCHES, branches, other, branch) && ProductOf(branch) == Some((id, p));
      var j := DeclaredIsFound(branches, found, other, branch);
      assert Names(found[j].1, id);
    }
  }

  lemma RecordIsIndex(branches: seq<Json>, found: seq<Found>)
    requires WalkUpTo(BRANCHES, branches, [], |branches|, found)
    ensures IsIndex(branches, Record(map[], found))
  {
    var index := Record(map[], found);
    forall id, product | Declared(branches, id, product) ensures id in index {
      var path :| Declares(branches, path, id, product);
      var branch :| PathTo(BRANCHES, branches, path, branch) && ProductOf(branch) == Some((id, product));
      var k := DeclaredIsFound(branches, found, path, branch);
      assert Names(found[k].1, id);
      RecordedLast(found, id);
    }
    forall id | id in index ensures exists path :: LastDeclares(branches, path, id, index[id]) {
      RecordedLast(found, id);
      var k :| LastFound(found, id, k) && index[id] == ProductOf(found[k].1).value.1;
      LastFoundIsLast(branches, found, id, k);
    }
  }

  /** `_product_index`: all declared products, the last declaration of an identifier winning. */
  method ProductIndex(tree: Json) returns (index: Index)
    ensures IsIndex(ItemsOf(Get(tree, BRANCHES)), index)
  {
    var indexer := new Indexer();
    ghost var found := [];
    if tree.Obj? {
      found := indexer.Walk(Get(tree, BRANCHES), []);
    }
    RecordIsIndex(ItemsOf(Get(tree, BRANCHES)), found);
    index := indexer.result;
  }

  /** No identifier is declared with two different products. */
  ghost predicate Consistent(branches: seq<Json>) {
    forall id, p, q :: Declared(branches, id, p) && Declared(branches, id, q) ==> p == q
  }

  lemma DeclaredIsIndexed(branches: seq<Json>, index: Index, id: string, product: Json)
    requires IsIndex(branches, index) && Consistent(branches)
    ensures Declared(branches, id, product) <==> id in index && index[id] == product
  {
    if id in index {
      var path :| LastDeclares(branches, path, id, index[id]);
      assert Declared(branches, id, index[id]);
    }
  }

  /** The index is the relation the tree declares exactly when the tree is consistent. */
  lemma ConsistentIndexExact(branches: seq<Json>, index: Index)
    requires IsIndex(branches, index)
    ensures Consistent(branches) <==>
      forall id, product :: Declared(branches, id, product) <==> id in index && index[id] == product
  {
    if Consistent(branches) {
      forall id, product ensures Declared(branches, id, product) <==> id in index && index[id] == product {
        DeclaredIsIndexed(branches, index, id, product);
      }
    }
  }

  /** So regrouping or reordering the branches of a consistent tree leaves its index alone. */
  lemma IndexIgnoresShape(a: seq<Json>, b: seq<Json>, indexA: Index, indexB: Index)
    requires IsIndex(a, indexA) && IsIndex(b, indexB) && Consistent(a)
    requires forall id, product :: Declared(a, id, product) <==> Declared(b, id, product)
    ensures indexA == indexB
  {
    forall id ensures (id in indexA <==> id in indexB) && (id in indexA ==> indexA[id] == indexB[id]) {
      if id in indexA { DeclaredIsIndexed(a, indexA, id, indexA[id]); }
      if id in indexB {
        DeclaredIsIndexed(b, indexB, id, indexB[id]);
        DeclaredIsIndexed(a, indexA, id, indexB[id]);
      }
    }
  }

  // ---------------------------------------------------------------- the relationship index

  function FullProductId(relation: Json): Option<string> { Text(Get(relation, "full_product_name"), "product_id") }

  /** A relationship forms the product whose identifier stands in its full product name. */
  lemma FormsExact(relation: Json, id: string)
    ensures FullProductId(relation) == Some(id) <==>
      && relation.Obj? && "full_product_name" in relation.fields
      && var full := relation.fields["full_product_name"];
         full.Obj? && "product_id" in full.fields && full.fields["product_id"] == Str(id)
  {
  }

  ghost predicate LastRelation(relations: seq<Json>, id: string, i: int) {
    && 0 <= i < |relations| && FullProductId(relations[i]) == Some(id)
    && forall j :: i < j < |relations| ==> FullProductId(relations[j]) != Some(id)
  }

  ghost predicate IsRelationshipIndex(relations: seq<Json>, index: Index) {
    && (forall i :: 0 <= i < |relations| && FullProductId(relations[i]).Some? ==> FullProductId(relations[i]).value in index)
    && forall id :: id in index ==> exists i :: LastRelation(relations, id, i) && index[id] == relations[i]
  }

  /** `_relationship_index`: the relationships by the product they form, the last one winning. */
  method RelationshipIndex(tree: Json) returns (index: Index)
    ensures IsRelationshipIndex(ItemsOf(Get(tree, "relationships")), index)
  {
    index := map[];
    if !tree.Obj? || !Get(tree, "relationships").Arr? {
      return;
    }
    var relations := Get(tree, "relationships").items;
    for n := 0 to |relations|
      invariant IsRelationshipIndex(relations[..n], index)
    {
      ghost var before := index;
      if relations[n].Obj? && FullProductId(relations[n]).Some? {
        index := index[FullProductId(relations[n]).value := relations[n]];
      }
      RelationshipStep(relations[..n], relations[n], before, index);
      assert relations[..n + 1] == relations[..n] + [relations[n]];
    }
    assert relations[..|relations|] == relations;
  }

  lemma RelationshipStep(relations: seq<Json>, relation: Json, before: Index, after: Index)
    requires IsRelationshipIndex(relations, before)
    requires after == match FullProductId(relation) case None => before case Some(id) => before[id := relation]
    ensures IsRelationshipIndex(relations + [relation], after)
  {
    var all := relations + [relation];
    forall id | id in after ensures exists i :: LastRelation(all, id, i) && after[id] == all[i] {
      if FullProductId(relation) == Some(id) {
        assert LastRelation(all, id, |relations|);
      } else {
        var i :| LastRelation(relations, id, i) && before[id] == relations[i];
        assert LastRelation(all, id, i);
      }
    }
  }

  // ---------------------------------------------------------------- flags

  /** A flag that counts: its label and the products it names. */
  function FlagOf(flag: Json): Option<(string, seq<Json>)> {
    var name, ids := Text(flag, "label"), Get(flag, "product_ids");
    if name.Some? && ids.Arr? then Some((name.value, ids.items)) else None
  }

  lemma FlagExact(flag: Json, text: string, ids: seq<Json>)
    ensures FlagOf(flag) == Some((text, ids)) <==>
      && flag.Obj? && "label" in flag.fields && flag.fields["label"] == Str(text)
      && "product_ids" in flag.fields && flag.fields["product_ids"] == Arr(ids)
  {
  }

  /** One label for every time the product is named. */
  function Labels(text: string, ids: seq<Json>, product: string): seq<string> {
    if ids == [] then []
    else Labels(text, ids[..|ids| - 1], product) + if ids[|ids| - 1] == Str(product) then [text] else []
  }

  function LabelsOf(flags: seq<Json>, product: string): seq<string> {
    if flags == [] then []
    else
      var flag := FlagOf(flags[|flags| - 1]);
      LabelsOf(flags[..|flags| - 1], product) + if flag.Some? then Labels(flag.value.0, flag.value.1, product) else []
  }

  type Labelling = map<string, seq<string>>

  function At(m: Labelling, product: string): seq<string> { if product in m then m[product] else [] }

  /** `_flags`: the labels of every product, in document order; products without labels have no entry. */
  method Flags(value: Json) returns (result: Labelling)
    ensures forall p :: At(result, p) == LabelsOf(ItemsOf(value), p)
    ensures forall p :: p in result ==> result[p] != []
  {
    result := map[];
    if !value.Arr? {
      return;
    }
    var flags := value.items;
    for n := 0 to |flags|
      invariant forall p :: At(result, p) == LabelsOf(flags[..n], p)
      invariant forall p :: p in result ==> result[p] != []
    {
      assert flags[..n + 1][..n] == flags[..n];
      var flag := FlagOf(flags[n]);
      if flag.Some? {
        result := AddLabels(result, flag.value.0, flag.value.1);
      }
    }
    assert flags[..|flags|] == flags;
  }

  method AddLabels(start: Labelling, text: string, ids: seq<Json>) returns (result: Labelling)
    requires forall p :: p in start ==> start[p] != []
    ensures forall p :: At(result, p) == At(start, p) + Labels(text, ids, p)
    ensures forall p :: p in result ==> result[p] != []
  {
    result := start;
    for i := 0 to |ids|
      invariant Adds(start, result, text, ids[..i])
    {
      AddsStep(start, result, text, ids, i);
      if ids[i].Str? {
        result := result[ids[i].s := At(result, ids[i].s) + [text]];
      }
    }
    assert ids[..|ids|] == ids;
  }

  /** `result` is `start` with the labels of the products named so far. */
  ghost predicate Adds(start: Labelling, result: Labelling, text: string, ids: seq<Json>) {
    && (forall p :: At(result, p) == At(start, p) + Labels(text, ids, p))
    && forall p :: p in result ==> result[p] != []
  }

  lemma AddsStep(start: Labelling, result: Labelling, text: string, ids: seq<Json>, i: nat)
    requires i < |ids| && Adds(start, result, text, ids[..i])
    ensures var next := if ids[i].Str? then result[ids[i].s := At(result, ids[i].s) + [text]] else result;
      Adds(start, next, text, ids[..i + 1])
  {
    forall p { AddsStepAt(start, result, text, ids, i, p); }
  }

  lemma AddsStepAt(start: Labelling, result: Labelling, text: string, ids: seq<Json>, i: nat, p: string)
    requires i < |ids| && At(result, p) == At(start, p) + Labels(text, ids[..i], p)
    ensures var next := if ids[i].Str? then result[ids[i].s := At(result, ids[i].s) + [text]] else result;
      At(next, p) == At(start, p) + Labels(text, ids[..i + 1], p)
  {
    LabelsStep(text, ids, i, p);
    var before, now := Labels(text, ids[..i], p), Labels(text, ids[..i + 1], p);
    if ids[i] == Str(p) {
      assert At(start, p) + before + [text] == At(start, p) + now;
    }
  }

  lemma LabelsStep(text: string, ids: seq<Json>, i: nat, product: string)
    requires i < |ids|
    ensures Labels(text, ids[..i + 1], product) == Labels(text, ids[..i], product) + if ids[i] == Str(product) then [text] else []
  {
    assert ids[..i + 1][..i] == ids[..i];
  }

  lemma {:induction false} LabelNamed(text: string, ids: seq<Json>, product: string, l: string)
    ensures l in Labels(text, ids, product) <==> l == text && Str(product) in ids
  {
    if ids != [] {
      LabelNamed(text, ids[..|ids| - 1], product, l);
      assert ids == ids[..|ids| - 1] + [ids[|ids| - 1]];
    }
  }

  ghost predicate FlagNames(flag: Json, product: string, l: string) {
    FlagOf(flag).Some? && FlagOf(flag).value.0 == l && Str(product) in FlagOf(flag).value.1
  }

  ghost predicate AnyNames(flags: seq<Json>, product: string, l: string) {
    exists i :: 0 <= i < |flags| && FlagNames(flags[i], product, l)
  }

  lemma AnyNamesAppend(flags: seq<Json>, last: Json, product: string, l: string)
    ensures AnyNames(flags + [last], product, l) <==> AnyNames(flags, product, l) || FlagNames(last, product, l)
  {
    var all := flags + [last];
    if i :| 0 <= i < |flags| && FlagNames(flags[i], product, l) { assert all[i] == flags[i]; }
    if FlagNames(last, product, l) { assert all[|flags|] == last; }
  }

  /** A product is justified by a label exactly when some flag with that label names the product. */
  lemma {:induction false} LabelsExact(flags: seq<Json>, product: string, l: string)
    ensures l in LabelsOf(flags, product) <==> AnyNames(flags, product, l)
  {
    if flags != [] {
      var front, last := flags[..|flags| - 1], flags[|flags| - 1];
      LabelsExact(front, product, l);
      if FlagOf(last).Some? { LabelNamed(FlagOf(last).value.0, FlagOf(last).value.1, product, l); }
      AnyNamesAppend(front, last, product, l);
      assert flags == front + [last];
    }
  }
}

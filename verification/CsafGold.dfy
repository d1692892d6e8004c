/** The gold facts a CSAF VEX document states about one CVE. */
module CsafGold {
  import opened CsafProducts
  import opened JsonTrees
  import opened Ordering

  datatype Snapshot = Snapshot(id: string, name: Option<string>, purl: Option<string>, cpe: Option<string>)

  datatype Context =
    | Direct(product: Snapshot)
    | Related(category: Option<string>, fullName: Option<string>, component: Option<Snapshot>, platform: Option<Snapshot>)

  datatype Fact =
    | AdvisoryFact(url: string)
    | StatusFact(status: string, state: string, target: string, product: string, context: Context, justification: seq<string>)

  /** How a publisher's product identifier becomes the key of the target object. */
  type KeyOf = (string, string) -> string

  const STATUSES: seq<(string, string)> := [
    ("known_affected", "affected"),
    ("known_not_affected", "not_affected"),
    ("fixed", "fixed"),
    ("under_investigation", "under_investigation")
  ]

  function SnapshotOf(id: string, products: Index): Snapshot {
    if id !in products then Snapshot(id, None, None, None)
    else
      var helper := Get(products[id], "product_identification_helper");
      Snapshot(id, Text(products[id], "name"), Text(helper, "purl"), Text(helper, "cpe"))
  }

  function Referenced(id: Option<string>, products: Index): Option<Snapshot> {
    if id.Some? then Some(SnapshotOf(id.value, products)) else None
  }

  function ContextOf(id: string, products: Index, relationships: Index): Context {
    if id !in relationships then Direct(SnapshotOf(id, products))
    else
      var r := relationships[id];
      Related(Text(r, "category"), Text(Get(r, "full_product_name"), "name"),
        Referenced(Text(r, "product_reference"), products), Referenced(Text(r, "relates_to_product_reference"), products))
  }

  function Namespace(payload: Json): string {
    var namespace := Text(Get(Get(payload, "document"), "publisher"), "namespace");
    if namespace.Some? && namespace.value != "" then namespace.value else "redhat-security-data"
  }

  /** What the document says beside its statuses: products, relationships, labels and the publisher. */
  datatype Lookup = Lookup(namespace: string, products: Index, relationships: Index, labels: Labelling)

  function FactFor(key: KeyOf, lookup: Lookup, status: (string, string), id: string): Fact {
    StatusFact(status.0, status.1, key(lookup.namespace, id), id,
      ContextOf(id, lookup.products, lookup.relationships), At(lookup.labels, id))
  }

  predicate Lists(statuses: Json, status: (string, string), id: string) {
    Str(id) in ItemsOf(Get(statuses, status.0))
  }

  ghost predicate FactOfStatus(key: KeyOf, lookup: Lookup, statuses: Json, status: (string, string), f: Fact) {
    f.StatusFact? && Lists(statuses, status, f.product) && f == FactFor(key, lookup, status, f.product)
  }

  /** The facts of one status, in the order its identifiers are listed. */
  function FactsOfStatus(key: KeyOf, lookup: Lookup, ids: seq<Json>, status: (string, string)): seq<Fact> {
    if ids == [] then []
    else
      var last := ids[|ids| - 1];
      FactsOfStatus(key, lookup, ids[..|ids| - 1], status)
      + (if last.Str? then [FactFor(key, lookup, status, last.s)] else [])
  }

  function FactsOfStatuses(key: KeyOf, lookup: Lookup, statuses: Json, order: seq<(string, string)>): seq<Fact> {
    if order == [] then []
    else
      var last := order[|order| - 1];
      FactsOfStatuses(key, lookup, statuses, order[..|order| - 1])
      + FactsOfStatus(key, lookup, ItemsOf(Get(statuses, last.0)), last)
  }

  /** The advisory first, then the statuses in order. */
  function FactsOfCase(key: KeyOf, lookup: Lookup, url: Option<string>, statuses: Json): seq<Fact> {
    (if url.Some? && url.value != "" then [AdvisoryFact(url.value)] else [])
    + FactsOfStatuses(key, lookup, statuses, STATUSES)
  }

  lemma {:induction false} FactsOfStatusExact(key: KeyOf, lookup: Lookup, ids: seq<Json>, status: (string, string),
                                              f: Fact)
    ensures f in FactsOfStatus(key, lookup, ids, status)
       <==> f.StatusFact? && Str(f.product) in ids && f == FactFor(key, lookup, status, f.product)
  {
    if ids != [] {
      FactsOfStatusExact(key, lookup, ids[..|ids| - 1], status, f);
      assert ids == ids[..|ids| - 1] + [ids[|ids| - 1]];
    }
  }

  ghost predicate OfAnyStatus(key: KeyOf, lookup: Lookup, statuses: Json, order: seq<(string, string)>, f: Fact) {
    exists s :: 0 <= s < |order| && FactOfStatus(key, lookup, statuses, order[s], f)
  }

  lemma OfAnyStatusAppend(key: KeyOf, lookup: Lookup, statuses: Json, order: seq<(string, string)>,
                          last: (string, string),
                          f: Fact)
    ensures OfAnyStatus(key, lookup, statuses, order + [last], f)
       <==> OfAnyStatus(key, lookup, statuses, order, f) || FactOfStatus(key, lookup, statuses, last, f)
  {
    var all := order + [last];
    if s :| 0 <= s < |order| && FactOfStatus(key, lookup, statuses, order[s], f) { assert all[s] == order[s]; }
    if FactOfStatus(key, lookup, statuses, last, f) { assert all[|order|] == last; }
  }

  lemma {:induction false} FactsOfStatusesExact(key: KeyOf, lookup: Lookup, statuses: Json, order: seq<(string, string)>,
                                                f: Fact)
    ensures f in FactsOfStatuses(key, lookup, statuses, order) <==> OfAnyStatus(key, lookup, statuses, order, f)
  {
    if order != [] {
      var front, last := order[..|order| - 1], order[|order| - 1];
      FactsOfStatusesExact(key, lookup, statuses, front, f);
      FactsOfStatusExact(key, lookup, ItemsOf(Get(statuses, last.0)), last, f);
      assert order == front + [last];
      OfAnyStatusAppend(key, lookup, statuses, front, last, f);
    }
  }

  /** The list holds exactly the advisory and the facts of the listed products. */
  lemma FactsOfCaseExact(key: KeyOf, lookup: Lookup, url: Option<string>, statuses: Json, f: Fact)
    ensures f in FactsOfCase(key, lookup, url, statuses)
       <==> (url.Some? && url.value != "" && f == AdvisoryFact(url.value)) || OfAnyStatus(key, lookup, statuses, STATUSES, f)
  {
    FactsOfStatusesExact(key, lookup, statuses, STATUSES, f);
  }

  /** The first vulnerability entry about the CVE. */
  function Vulnerability(entries: seq<Json>, cve: string): Option<Json> {
    if entries == [] then None
    else if entries[0].Obj? && Get(entries[0], "cve") == Str(cve) then Some(entries[0])
    else Vulnerability(entries[1..], cve)
  }

  function Tree(snapshot: Json): Json { Get(Get(snapshot, "payload"), "product_tree") }

  function Entry(snapshot: Json, cve: string): Option<Json> {
    Vulnerability(ItemsOf(Get(Get(snapshot, "payload"), "vulnerabilities")), cve)
  }

  ghost predicate IsLookup(snapshot: Json, entry: Json, lookup: Lookup) {
    && lookup.namespace == Namespace(Get(snapshot, "payload"))
    && IsIndex(ItemsOf(Get(Tree(snapshot), BRANCHES)), lookup.products)
    && IsRelationshipIndex(ItemsOf(Get(Tree(snapshot), "relationships")), lookup.relationships)
    && IsLabelling(ItemsOf(Get(entry, "flags")), lookup.labels)
  }

  ghost predicate IsLabelling(flags: seq<Json>, labels: Labelling) {
    (forall p :: At(labels, p) == LabelsOf(flags, p)) && forall p :: p in labels ==> labels[p] != []
  }

  /** No facts, without the CVE's entry and its statuses; otherwise those of the case. */
  ghost predicate IsGold(key: KeyOf, cve: string, snapshot: Json, facts: seq<Fact>) {
    var entry := Entry(snapshot, cve);
    if entry.None? || !Get(entry.value, "product_status").Obj? then facts == []
    else exists lookup :: IsLookup(snapshot, entry.value, lookup) && facts == GoldFacts(key, lookup, snapshot, entry.value)
  }

  function GoldFacts(key: KeyOf, lookup: Lookup, snapshot: Json, entry: Json): seq<Fact> {
    FactsOfCase(key, lookup, Text(snapshot, "canonical_url"), Get(entry, "product_status"))
  }

  /** The loop over the identifiers of one status. */
  method StatusFacts(key: KeyOf, lookup: Lookup, ids: seq<Json>, status: (string, string)) returns (facts: seq<Fact>)
    ensures facts == FactsOfStatus(key, lookup, ids, status)
  {
    facts := [];
    for i := 0 to |ids|
      invariant facts == FactsOfStatus(key, lookup, ids[..i], status)
    {
      assert ids[..i + 1][..i] == ids[..i];
      if !ids[i].Str? {
        continue;
      }
      facts := facts + [FactFor(key, lookup, status, ids[i].s)];
    }
    assert ids[..|ids|] == ids;
  }

  method AllStatusFacts(key: KeyOf, lookup: Lookup, statuses: Json,
                        order: seq<(string, string)>) returns (facts: seq<Fact>)
    ensures facts == FactsOfStatuses(key, lookup, statuses, order)
  {
    facts := [];
    for s := 0 to |order|
      invariant facts == FactsOfStatuses(key, lookup, statuses, order[..s])
    {
      assert order[..s + 1][..s] == order[..s];
      var more := StatusFacts(key, lookup, ItemsOf(Get(statuses, order[s].0)), order[s]);
      facts := facts + more;
    }
    assert order[..|order|] == order;
  }

  /** `_gold_for_case`. */
  method GoldForCase(key: KeyOf, cve: string, snapshot: Json) returns (facts: seq<Fact>)
    ensures IsGold(key, cve, snapshot, facts)
  {
    facts := [];
    var payload := Get(snapshot, "payload");
    var entry := Entry(snapshot, cve);
    if entry.None? {
      return;
    }
    var products := ProductIndex(Tree(snapshot));
    var relationships := RelationshipIndex(Tree(snapshot));
    var labels := Flags(Get(entry.value, "flags"));
    var statuses := Get(entry.value, "product_status");
    if !statuses.Obj? {
      return;
    }
    var lookup := Lookup(Namespace(payload), products, relationships, labels);
    var url := Text(snapshot, "canonical_url");
    if url.Some? && url.value != "" {
      facts := [AdvisoryFact(url.value)];
    }
    var listed := AllStatusFacts(key, lookup, statuses, STATUSES);
    facts := facts + listed;
    assert IsLookup(snapshot, entry.value, lookup) && facts == GoldFacts(key, lookup, snapshot, entry.value);
  }

  // ---------------------------------------------------------------- gold does not depend on the tree's shape

  lemma RelationshipIndexUnique(relations: seq<Json>, a: Index, b: Index)
    requires IsRelationshipIndex(relations, a) && IsRelationshipIndex(relations, b)
    ensures a == b
  {
    forall id ensures (id in a <==> id in b) && (id in a ==> a[id] == b[id]) {
      if id in a { var i :| LastRelation(relations, id, i) && a[id] == relations[i]; }
      if id in b { var i :| LastRelation(relations, id, i) && b[id] == relations[i]; }
    }
  }

  lemma LabellingUnique(flags: seq<Json>, a: Labelling, b: Labelling)
    requires IsLabelling(flags, a) && IsLabelling(flags, b)
    ensures a == b
  {
    forall p ensures (p in a <==> p in b) && (p in a ==> a[p] == b[p]) {
      assert At(a, p) == LabelsOf(flags, p) == At(b, p);
    }
  }

  /** The two documents declare the same products, differing only in how branches group and order them. */
  ghost predicate Regrouped(a: Json, b: Json, cve: string) {
    && Entry(a, cve) == Entry(b, cve) && Text(a, "canonical_url") == Text(b, "canonical_url")
    && Namespace(Get(a, "payload")) == Namespace(Get(b, "payload"))
    && ItemsOf(Get(Tree(a), "relationships")) == ItemsOf(Get(Tree(b), "relationships"))
    && SameProducts(ItemsOf(Get(Tree(a), BRANCHES)), ItemsOf(Get(Tree(b), BRANCHES)))
  }

  ghost predicate SameProducts(a: seq<Json>, b: seq<Json>) {
    forall id, product :: Declared(a, id, product) <==> Declared(b, id, product)
  }

  lemma LookupUnique(a: Json, b: Json, cve: string, entry: Json, x: Lookup, y: Lookup)
    requires Regrouped(a, b, cve) && Consistent(ItemsOf(Get(Tree(a), BRANCHES)))
    requires IsLookup(a, entry, x) && IsLookup(b, entry, y)
    ensures x == y
  {
    IndexIgnoresShape(ItemsOf(Get(Tree(a), BRANCHES)), ItemsOf(Get(Tree(b), BRANCHES)), x.products, y.products);
    RelationshipIndexUnique(ItemsOf(Get(Tree(a), "relationships")), x.relationships, y.relationships);
    LabellingUnique(ItemsOf(Get(entry, "flags")), x.labels, y.labels);
  }

  /** With consistent product identifiers, regrouping the branches does not change the gold facts. */
  lemma GoldIgnoresShape(key: KeyOf, cve: string, a: Json, b: Json, factsA: seq<Fact>, factsB: seq<Fact>)
    requires Regrouped(a, b, cve) && Consistent(ItemsOf(Get(Tree(a), BRANCHES)))
    requires IsGold(key, cve, a, factsA) && IsGold(key, cve, b, factsB)
    ensures factsA == factsB
  {
    var entry := Entry(a, cve);
    if entry.Some? && Get(entry.value, "product_status").Obj? {
      var x :| IsLookup(a, entry.value, x) && factsA == GoldFacts(key, x, a, entry.value);
      var y :| IsLookup(b, entry.value, y) && factsB == GoldFacts(key, y, b, entry.value);
      LookupUnique(a, b, cve, entry.value, x, y);
    }
  }
}

/** What each gold fact of a CSAF VEX document states, field by field, and in which order they stand. */
module CsafStatements {
  import opened CsafGold
  import opened CsafProducts
  import opened JsonTrees
  import opened Ordering

  /** What is known of a product: its name, package URL and CPE, as far as the index has them as texts. */
  ghost predicate IsSnapshot(s: Snapshot, id: string, products: Index) {
    && s.id == id
    && (id !in products ==> s.name == None && s.purl == None && s.cpe == None)
    && (id in products ==>
          && s.name == Text(products[id], "name")
          && s.purl == Text(Get(products[id], "product_identification_helper"), "purl")
          && s.cpe == Text(Get(products[id], "product_identification_helper"), "cpe"))
  }

  /** The product a field of the relationship names, if it names one. */
  ghost predicate IsReferenced(s: Option<Snapshot>, relationship: Json, field: string, products: Index) {
    if Text(relationship, field) == None then s == None
    else s.Some? && IsSnapshot(s.value, Text(relationship, field).value, products)
  }

  /** A product of its own, or the component and the platform its relationship references. */
  ghost predicate IsContext(c: Context, id: string, products: Index, relationships: Index) {
    if id !in relationships then c.Direct? && IsSnapshot(c.product, id, products)
    else
      && c.Related? && c.category == Text(relationships[id], "category")
      && c.fullName == Text(Get(relationships[id], "full_product_name"), "name")
      && IsReferenced(c.component, relationships[id], "product_reference", products)
      && IsReferenced(c.platform, relationships[id], "relates_to_product_reference", products)
  }

  /** The state recorded for a status. */
  ghost predicate Records(status: string, state: string) {
    || (status == "known_affected" && state == "affected")
    || (status == "known_not_affected" && state == "not_affected")
    || (status == "fixed" && state == "fixed")
    || (status == "under_investigation" && state == "under_investigation")
  }

  lemma ContextExact(c: Context, id: string, products: Index, relationships: Index)
    ensures IsContext(c, id, products, relationships) <==> c == ContextOf(id, products, relationships)
  {
  }

  lemma StatusExact(status: string, state: string)
    ensures Records(status, state) <==> (status, state) in STATUSES
  {
    assert STATUSES[0] == ("known_affected", "affected") && STATUSES[1] == ("known_not_affected", "not_affected");
    assert STATUSES[2] == ("fixed", "fixed") && STATUSES[3] == ("under_investigation", "under_investigation");
  }

  /** The statements of a case: one for each status and each product it lists, with the state recorded for the
      status, the product's target, its context and its labels. */
  lemma StatementExact(key: KeyOf, lookup: Lookup, url: Option<string>, statuses: Json, f: Fact)
    requires f.StatusFact?
    ensures f in FactsOfCase(key, lookup, url, statuses) <==>
      && Records(f.status, f.state) && Str(f.product) in ItemsOf(Get(statuses, f.status))
      && f.target == key(lookup.namespace, f.product)
      && IsContext(f.context, f.product, lookup.products, lookup.relationships)
      && f.justification == (if f.product in lookup.labels then lookup.labels[f.product] else [])
  {
    FactsOfCaseExact(key, lookup, url, statuses, f);
    StatusExact(f.status, f.state);
    ContextExact(f.context, f.product, lookup.products, lookup.relationships);
    if (f.status, f.state) in STATUSES {
      var s :| 0 <= s < |STATUSES| && STATUSES[s] == (f.status, f.state);
    }
  }

  /** Where a fact belongs: the advisory first, then what is affected, what is not, what is fixed and what is
      under investigation. */
  function Rank(f: Fact): nat {
    match f
    case AdvisoryFact(_) => 0
    case StatusFact(status, _, _, _, _, _) => RankOf(status)
  }

  function RankOf(status: string): nat {
    if status == "known_affected" then 1
    else if status == "known_not_affected" then 2
    else if status == "fixed" then 3
    else 4
  }

  ghost predicate RankedWithin(facts: seq<Fact>, lo: nat, hi: nat) {
    && (forall i :: 0 <= i < |facts| ==> lo <= Rank(facts[i]) <= hi)
    && forall i, j :: 0 <= i < j < |facts| ==> Rank(facts[i]) <= Rank(facts[j])
  }

  lemma StatusRank(k: nat)
    requires k < |STATUSES|
    ensures RankOf(STATUSES[k].0) == k + 1
  {
    assert STATUSES[0].0 == "known_affected" && STATUSES[1].0 == "known_not_affected" && STATUSES[2].0 == "fixed";
    assert STATUSES[3].0 == "under_investigation" && |"fixed"| == 5 && |"under_investigation"| == 19;
    assert |"known_affected"| == 14 && |"known_not_affected"| == 18;
  }

  /** Statements stand in that order. */
  lemma StatementsInOrder(key: KeyOf, lookup: Lookup, url: Option<string>, statuses: Json)
    ensures RankedWithin(FactsOfCase(key, lookup, url, statuses), 0, 4)
  {
    RankedUpTo(key, lookup, statuses, |STATUSES|);
    assert STATUSES[..|STATUSES|] == STATUSES;
  }

  lemma {:induction false} RankedUpTo(key: KeyOf, lookup: Lookup, statuses: Json, n: nat)
    requires n <= |STATUSES|
    ensures RankedWithin(FactsOfStatuses(key, lookup, statuses, STATUSES[..n]), 1, n)
  {
    if n > 0 {
      var before := FactsOfStatuses(key, lookup, statuses, STATUSES[..n - 1]);
      var more := FactsOfStatus(key, lookup, ItemsOf(Get(statuses, STATUSES[n - 1].0)), STATUSES[n - 1]);
      RankedUpTo(key, lookup, statuses, n - 1);
      StatusRank(n - 1);
      RankedStatus(key, lookup, ItemsOf(Get(statuses, STATUSES[n - 1].0)), STATUSES[n - 1]);
      assert STATUSES[..n][..n - 1] == STATUSES[..n - 1] && STATUSES[..n][n - 1] == STATUSES[n - 1];
      RankedAppend(before, more, n);
    }
  }

  lemma RankedAppend(before: seq<Fact>, more: seq<Fact>, n: nat)
    requires n > 0 && RankedWithin(before, 1, n - 1) && RankedWithin(more, n, n)
    ensures RankedWithin(before + more, 1, n)
  {
  }

  lemma {:induction false} RankedStatus(key: KeyOf, lookup: Lookup, ids: seq<Json>, status: (string, string))
    ensures RankedWithin(FactsOfStatus(key, lookup, ids, status), RankOf(status.0), RankOf(status.0))
  {
    if ids != [] { RankedStatus(key, lookup, ids[..|ids| - 1], status); }
  }

  /** The publisher's namespace when it is a text that is not empty, else a fixed one. */
  lemma NamespaceExact(payload: Json, namespace: string)
    ensures Namespace(payload) == namespace <==>
      var stated := Text(Get(Get(payload, "document"), "publisher"), "namespace");
      if stated == None || stated == Some("") then namespace == "redhat-security-data" else stated == Some(namespace)
  {
  }

  /** The entry taken is the first object whose field `cve` is the CVE. */
  lemma {:induction false} VulnerabilityFirst(entries: seq<Json>, cve: string) returns (i: int)
    ensures Vulnerability(entries, cve).None? ==> i == |entries|
    ensures Vulnerability(entries, cve).Some? ==>
      0 <= i < |entries| && Vulnerability(entries, cve) == Some(entries[i]) && IsAbout(entries[i], cve)
    ensures forall j :: 0 <= j < i ==> !IsAbout(entries[j], cve)
  {
    i := 0;
    if entries != [] && !IsAbout(entries[0], cve) {
      i := VulnerabilityFirst(entries[1..], cve);
      forall j | 0 <= j < i + 1 ensures !IsAbout(entries[j], cve) {
        if j > 0 { assert entries[j] == entries[1..][j - 1]; }
      }
      i := i + 1;
    }
  }

  ghost predicate IsAbout(entry: Json, cve: string) {
    entry.Obj? && "cve" in entry.fields && entry.fields["cve"] == Str(cve)
  }

  // ---------------------------------------------------------------- where the parts stand in a document

  ghost predicate Holds(j: Json, name: string, value: Json) {
    j.Obj? && name in j.fields && j.fields[name] == value
  }

  /** The entry the CVE is read from: the first one about it in the payload's list. */
  lemma EntryExact(snapshot: Json, payload: Json, entries: seq<Json>, cve: string)
    requires Holds(snapshot, "payload", payload) && Holds(payload, "vulnerabilities", Arr(entries))
    ensures Entry(snapshot, cve) == Vulnerability(entries, cve)
  {
  }

  /** The gold of a document is made of the payload's product tree, its branches and relationships, and the flags
      and statuses of the entry. */
  lemma GoldIsOfParts(key: KeyOf, cve: string, snapshot: Json, payload: Json, tree: Json, branches: seq<Json>,
                      relationships: seq<Json>, flags: seq<Json>, statuses: Json, url: string, facts: seq<Fact>)
    returns (lookup: Lookup)
    requires Holds(snapshot, "payload", payload) && Holds(snapshot, "canonical_url", Str(url))
    requires Holds(payload, "product_tree", tree)
    requires Holds(tree, "branches", Arr(branches)) && Holds(tree, "relationships", Arr(relationships))
    requires Entry(snapshot, cve).Some? && statuses.Obj?
    requires Holds(Entry(snapshot, cve).value, "flags", Arr(flags))
    requires Holds(Entry(snapshot, cve).value, "product_status", statuses)
    requires IsGold(key, cve, snapshot, facts)
    ensures lookup.namespace == Namespace(payload) && IsIndex(branches, lookup.products)
    ensures IsRelationshipIndex(relationships, lookup.relationships) && IsLabelling(flags, lookup.labels)
    ensures facts == FactsOfCase(key, lookup, Some(url), statuses)
  {
    var entry := Entry(snapshot, cve).value;
    lookup :| IsLookup(snapshot, entry, lookup) && facts == GoldFacts(key, lookup, snapshot, entry);
  }

  /** Gold needs an entry for the CVE and its statuses. */
  lemma GoldNeedsStatuses(key: KeyOf, cve: string, snapshot: Json, facts: seq<Fact>) returns (statuses: Json)
    requires IsGold(key, cve, snapshot, facts) && facts != []
    ensures Entry(snapshot, cve).Some? && Holds(Entry(snapshot, cve).value, "product_status", statuses) && statuses.Obj?
  {
    statuses := Get(Entry(snapshot, cve).value, "product_status");
  }
}

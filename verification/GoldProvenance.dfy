/** Fail-closed validation of frozen question-answering gold against cited evidence. */
module GoldProvenance {
  import opened Ordering
  import opened Texts
  import opened KnowledgeStore
  import opened RelationPaths
  import opened DecisionEvidence

  datatype Gold = Gold(requiredFacts: seq<string>, acceptableFacts: seq<string>, requiredPaths: seq<seq<string>>)

  datatype Absence = Absence(subjectKey: string, predicate_: string)

  function LinkOf(ref: string): string { RemovePrefix(ref, EVIDENCE) }

  /** The reference resolves, through a link and an observation, to a complete row visible at `at`. */
  predicate RefResolves(store: Store, ref: string, at: int) {
    && StartsWith(ref, EVIDENCE)
    && LinkOf(ref) in store.links
    && var link := store.links[LinkOf(ref)];
       && link.observation in store.observations
       && ((&& link.targetKind == "claim"
            && link.targetId in store.claims
            && (var claim := store.claims[link.targetId];
                Visible(claim.created, claim.superseded, at) && claim.subject in store.objects))
        || (&& link.targetKind == "relation"
            && link.targetId in store.relations
            && (var r := store.relations[link.targetId];
                Visible(r.created, r.superseded, at) && r.source in store.objects && r.target in store.objects)))
  }

  function RefSource(store: Store, ref: string): string
    requires LinkOf(ref) in store.links && store.links[LinkOf(ref)].observation in store.observations
  {
    store.observations[store.links[LinkOf(ref)].observation]
  }

  /** The sentence a resolved reference supports. */
  function RefFact(render: Renderer, store: Store, ref: string, at: int): string
    requires RefResolves(store, ref, at)
  {
    var link := store.links[LinkOf(ref)];
    if link.targetKind == "claim" then
      var c := store.claims[link.targetId];
      render.claim(store.objects[c.subject].key, c.predicate_, c.value, c.qualifier)
    else
      var r := store.relations[link.targetId];
      render.relation(store.objects[r.source].key, r.kind, store.objects[r.target].key, r.qualifier,
                      store.objects[r.target].properties)
  }

  ghost predicate SeenAt(created: int, superseded: Option<int>, at: int) {
    created <= at && (superseded == None || at < superseded.value)
  }

  /** A claim visible at `at` about a known object, printed as this sentence. */
  ghost predicate ClaimSays(render: Renderer, store: Store, id: string, at: int, sentence: string) {
    && id in store.claims
    && var c := store.claims[id];
       && SeenAt(c.created, c.superseded, at) && c.subject in store.objects
       && sentence == render.claim(store.objects[c.subject].key, c.predicate_, c.value, c.qualifier)
  }

  /** A relation visible at `at` between known objects, printed as this sentence. */
  ghost predicate RelationSays(render: Renderer, store: Store, id: string, at: int, sentence: string) {
    && id in store.relations
    && var r := store.relations[id];
       && SeenAt(r.created, r.superseded, at) && r.source in store.objects && r.target in store.objects
       && sentence == render.relation(store.objects[r.source].key, r.kind, store.objects[r.target].key, r.qualifier,
                                      store.objects[r.target].properties)
  }

  /** What a reference resolves to: through the link it names, an observation of this source and a claim or a
      relation that says this sentence. */
  lemma CitationExact(render: Renderer, store: Store, ref: string, at: int, source: string, sentence: string)
    ensures RefResolves(store, ref, at) && RefSource(store, ref) == source && RefFact(render, store, ref, at) == sentence
      <==> exists linkId :: Cites(render, store, ref, at, source, sentence, linkId)
  {
    if StartsWith(ref, EVIDENCE) { assert ref == "evidence:" + LinkOf(ref); }
    if RefResolves(store, ref, at) && RefSource(store, ref) == source && RefFact(render, store, ref, at) == sentence {
      assert Cites(render, store, ref, at, source, sentence, LinkOf(ref));
    }
    if linkId :| Cites(render, store, ref, at, source, sentence, linkId) {
      assert LinkOf(ref) == linkId;
    }
  }

  ghost predicate Cites(render: Renderer, store: Store, ref: string, at: int, source: string, sentence: string,
                        linkId: string) {
    && ref == "evidence:" + linkId && linkId in store.links
    && var link := store.links[linkId];
       && link.observation in store.observations && store.observations[link.observation] == source
       && ((link.targetKind == "claim" && ClaimSays(render, store, link.targetId, at, sentence))
        || (link.targetKind == "relation" && RelationSays(render, store, link.targetId, at, sentence)))
  }

  /** The reference cites the relation `r`. */
  predicate CitesRow(store: Store, ref: string, r: Relation) {
    && LinkOf(ref) in store.links
    && store.links[LinkOf(ref)].targetKind == "relation"
    && store.links[LinkOf(ref)].targetId in store.relations
    && store.relations[store.links[LinkOf(ref)].targetId] == r
  }

  /** `r` is the relation reference appended for an evidence reference. */
  predicate NamesRelation(store: Store, ref: string, r: string) {
    && LinkOf(ref) in store.links && store.links[LinkOf(ref)].targetKind == "relation"
    && r == RELATION + store.links[LinkOf(ref)].targetId
  }

  /** The relations cited by the references. */
  ghost predicate CitedRows(store: Store, refs: seq<string>, rels: seq<Relation>) {
    forall r :: r in rels <==> exists ref :: ref in refs && CitesRow(store, ref, r)
  }

  /** Every reference resolves, and the sources seen are exactly the declared ones. */
  ghost predicate SourcesMatch(store: Store, refs: seq<string>, sources: set<string>, at: int) {
    && refs != [] && sources != {}
    && (forall ref :: ref in refs ==> RefResolves(store, ref, at))
    && (forall s :: s in sources <==> exists ref :: ref in refs && RefSource(store, ref) == s)
  }

  ghost predicate FactsSupported(render: Renderer, store: Store, gold: Gold, refs: seq<string>, at: int)
    requires forall ref :: ref in refs ==> RefResolves(store, ref, at)
  {
    forall f :: f in gold.requiredFacts || f in gold.acceptableFacts ==>
      exists ref :: ref in refs && RefFact(render, store, ref, at) == f
  }

  ghost predicate PathsSupported(store: Store, gold: Gold, refs: seq<string>) {
    forall p :: p in gold.requiredPaths ==>
      exists rels :: CitedRows(store, refs, rels) && IsPathKeys(rels, SelectObjects(store, rels), 6, p)
  }

  /** The part of the gold that must be present. */
  ghost predicate Positive(render: Renderer, store: Store, gold: Gold, refs: seq<string>, sources: set<string>,
                           at: int) {
    && SourcesMatch(store, refs, sources, at)
    && FactsSupported(render, store, gold, refs, at)
    && PathsSupported(store, gold, refs)
  }

  predicate HasKey(store: Store, id: string, key: string) {
    id in store.objects && store.objects[id].key == key
  }

  /** Claim `c` is an accepted claim about `id`, visible at `at`. */
  predicate Asserts(store: Store, c: string, id: string, predicate_: string, at: int)
    requires c in store.claims
  {
    && store.claims[c].subject == id && store.claims[c].predicate_ == predicate_
    && store.claims[c].lifecycle == "accepted" && Visible(store.claims[c].created, store.claims[c].superseded, at)
  }

  ghost predicate Present(store: Store, id: string, predicate_: string, at: int) {
    exists c :: c in store.claims && Asserts(store, c, id, predicate_, at)
  }

  /** The gap holds when `id` is the object read for the check's key. */
  ghost predicate GapHolds(store: Store, check: Absence, id: string, at: int) {
    HasKey(store, id, check.subjectKey) && store.objects[id].created <= at && !Present(store, id, check.predicate_, at)
  }

  /** The object with the key is there, and no accepted claim visible at `at` says this of it. */
  lemma GapExact(store: Store, check: Absence, id: string, at: int)
    ensures GapHolds(store, check, id, at) <==>
      && id in store.objects && store.objects[id].key == check.subjectKey && store.objects[id].created <= at
      && forall c :: c in store.claims && store.claims[c].subject == id && store.claims[c].predicate_ == check.predicate_ ==>
           !(store.claims[c].lifecycle == "accepted" && SeenAt(store.claims[c].created, store.claims[c].superseded, at))
  {
    if c :| c in store.claims && Asserts(store, c, id, check.predicate_, at) {
      assert store.claims[c].lifecycle == "accepted";
    }
  }

  /** Some object with the key has the gap: what an accepting run has seen. */
  ghost predicate GapSeen(store: Store, check: Absence, at: int) {
    exists id :: GapHolds(store, check, id, at)
  }

  /** All rows with the key have the gap, so whichever is read shows it. */
  ghost predicate GapEverywhere(store: Store, check: Absence, at: int) {
    forall id :: HasKey(store, id, check.subjectKey) ==> GapHolds(store, check, id, at)
  }

  /** `session.scalar(select(ObjectModel).where(canonical_key == key))`: some matching row, or none. */
  method FindObject(store: Store, key: string) returns (id: Option<string>)
    ensures id.None? ==> forall x :: !HasKey(store, x, key)
    ensures id.Some? ==> HasKey(store, id.value, key)
  {
    var matching := set x | x in store.objects && HasKey(store, x, key);
    if matching == {} {
      id := None;
      assert forall x :: HasKey(store, x, key) ==> x in matching;
    } else {
      var x :| x in matching;
      id := Some(x);
    }
  }

  method IsPresent(store: Store, id: string, predicate_: string, at: int) returns (present: bool)
    ensures present <==> Present(store, id, predicate_, at)
  {
    var matching := set c | c in store.claims && Asserts(store, c, id, predicate_, at);
    present := matching != {};
    assert forall c :: c in store.claims && Asserts(store, c, id, predicate_, at) ==> c in matching;
    if present {
      var c :| c in matching;
    }
  }

  /** The first loop: resolves every reference, gathering facts, sources and relation references. */
  method Gather(render: Renderer, store: Store, refs: seq<string>, sources: set<string>, at: int)
    returns (ok: bool, facts: set<string>, observed: set<string>, relationRefs: seq<string>)
    ensures ok <==> forall ref :: ref in refs ==> RefResolves(store, ref, at) && RefSource(store, ref) in sources
    ensures ok ==> forall f :: f in facts <==> exists ref :: ref in refs && RefFact(render, store, ref, at) == f
    ensures ok ==> forall s :: s in observed <==> exists ref :: ref in refs && RefSource(store, ref) == s
    ensures ok ==> forall r :: r in relationRefs <==> exists ref :: ref in refs && NamesRelation(store, ref, r)
  {
    ok, facts, observed, relationRefs := true, {}, {}, [];
    for i := 0 to |refs|
      invariant ok
      invariant forall ref :: ref in refs[..i] ==> RefResolves(store, ref, at) && RefSource(store, ref) in sources
      invariant forall f :: f in facts <==> exists ref :: ref in refs[..i] && RefFact(render, store, ref, at) == f
      invariant forall s :: s in observed <==> exists ref :: ref in refs[..i] && RefSource(store, ref) == s
      invariant forall r :: r in relationRefs <==>
        exists ref :: ref in refs[..i] && NamesRelation(store, ref, r)
    {
      var ref := refs[i];
      assert refs[..i + 1] == refs[..i] + [ref];
      if !RefResolves(store, ref, at) || RefSource(store, ref) !in sources {
        ok := false;
        return;
      }
      observed := observed + {RefSource(store, ref)};
      ghost var before := relationRefs;
      if store.links[LinkOf(ref)].targetKind == "relation" {
        relationRefs := relationRefs + [RELATION + store.links[LinkOf(ref)].targetId];
      }
      assert forall r :: r in relationRefs <==> NamesRelation(store, ref, r) || r in before;
      facts := facts + {RefFact(render, store, ref, at)};
    }
    assert refs[..|refs|] == refs;
  }

  lemma CitedRowsFromRefs(store: Store, refs: seq<string>, relationRefs: seq<string>, rels: seq<Relation>, at: int)
    requires forall ref :: ref in refs ==> RefResolves(store, ref, at)
    requires forall r :: r in relationRefs <==> exists ref :: ref in refs && NamesRelation(store, ref, r)
    requires RowsFor(store, relationRefs, rels)
    ensures CitedRows(store, refs, rels)
  {
    forall r ensures r in rels <==> exists ref :: ref in refs && CitesRow(store, ref, r) {
      if r in rels {
        var rr :| rr in relationRefs && StartsWith(rr, RELATION) && RemovePrefix(rr, RELATION) in store.relations
                  && store.relations[RemovePrefix(rr, RELATION)] == r;
        var ref :| ref in refs && NamesRelation(store, ref, rr);
        assert RemovePrefix(rr, RELATION) == store.links[LinkOf(ref)].targetId;
        assert CitesRow(store, ref, r);
      }
      if ref :| ref in refs && CitesRow(store, ref, r) {
        var rr := RELATION + store.links[LinkOf(ref)].targetId;
        assert NamesRelation(store, ref, rr);
        assert rr in relationRefs && RemovePrefix(rr, RELATION) == store.links[LinkOf(ref)].targetId;
      }
    }
  }

  /** All listings of the cited rows give the same paths. */
  lemma SamePaths(store: Store, refs: seq<string>, rels: seq<Relation>, other: seq<Relation>, p: seq<string>)
    requires CitedRows(store, refs, rels) && CitedRows(store, refs, other)
    requires IsPathKeys(other, SelectObjects(store, other), 6, p)
    ensures IsPathKeys(rels, SelectObjects(store, rels), 6, p)
  {
    assert forall r :: r in other ==> r in rels;
    PathsMonotone(other, SelectObjects(store, other), rels, SelectObjects(store, rels), 6, p);
  }

  method PathsObserved(store: Store, gold: Gold, refs: seq<string>, relationRefs: seq<string>,
                       at: int) returns (ok: bool)
    requires forall ref :: ref in refs ==> RefResolves(store, ref, at)
    requires forall r :: r in relationRefs <==> exists ref :: ref in refs && NamesRelation(store, ref, r)
    ensures ok <==> PathsSupported(store, gold, refs)
  {
    if gold.requiredPaths == [] {
      return true;
    }
    ghost var rels;
    var observed;
    observed, rels := RelationPathsForRefs(store, relationRefs, 6);
    CitedRowsFromRefs(store, refs, relationRefs, rels, at);
    ok := forall p | p in gold.requiredPaths :: p in observed;
    forall p | p in gold.requiredPaths
      ensures p in observed <==> exists other :: CitedRows(store, refs, other) && IsPathKeys(other, SelectObjects(store, other), 6, p)
    {
      if other :| CitedRows(store, refs, other) && IsPathKeys(other, SelectObjects(store, other), 6, p) {
        SamePaths(store, refs, rels, other, p);
      }
    }
  }

  method ValidatePositive(render: Renderer, store: Store, gold: Gold, refs: seq<string>, sources: set<string>, at: int)
    returns (ok: bool)
    ensures ok <==> Positive(render, store, gold, refs, sources, at)
  {
    if refs == [] || sources == {} {
      return false;
    }
    var gathered, facts, observed, relationRefs := Gather(render, store, refs, sources, at);
    if !gathered || observed != sources {
      if SourcesMatch(store, refs, sources, at) {
        assert forall ref :: ref in refs ==> RefSource(store, ref) in sources;
        assert forall s :: s in observed <==> s in sources;
        assert false;
      }
      return false;
    }
    assert SourcesMatch(store, refs, sources, at);
    if !((forall f | f in gold.requiredFacts :: f in facts) && (forall f | f in gold.acceptableFacts :: f in facts)) {
      assert !FactsSupported(render, store, gold, refs, at);
      return false;
    }
    assert FactsSupported(render, store, gold, refs, at);
    ok := PathsObserved(store, gold, refs, relationRefs, at);
  }

  /** What a query for a key may return: any object with it, for keys are unique only within one object
      type, and none only when there is none. */
  ghost predicate MayRead(store: Store, key: string, id: Option<string>) {
    if id.Some? then HasKey(store, id.value, key) else forall x :: !HasKey(store, x, key)
  }

  /** One choice of rows for all the checks. */
  ghost predicate Reading(store: Store, absences: seq<Absence>, rows: seq<Option<string>>) {
    |rows| == |absences| && forall k :: 0 <= k < |rows| ==> MayRead(store, absences[k].subjectKey, rows[k])
  }

  ghost predicate ShowsGap(store: Store, check: Absence, row: Option<string>, at: int) {
    row.Some? && GapHolds(store, check, row.value, at)
  }

  ghost predicate ShowsAll(store: Store, absences: seq<Absence>, rows: seq<Option<string>>, at: int) {
    |rows| == |absences| && forall k :: 0 <= k < |rows| ==> ShowsGap(store, absences[k], rows[k], at)
  }

  /** Some choice of rows makes the absence checks end like this. */
  ghost predicate MayEnd(store: Store, absences: seq<Absence>, at: int, ok: bool) {
    exists rows :: Reading(store, absences, rows) && (ShowsAll(store, absences, rows, at) <==> ok)
  }

  lemma SomeRow(store: Store, key: string) returns (id: Option<string>)
    ensures MayRead(store, key, id)
  {
    if x :| HasKey(store, x, key) {
      id := Some(x);
    } else {
      id := None;
    }
  }

  /** A choice for the first checks extends to one for all of them. */
  lemma {:induction false} ExtendReading(store: Store, absences: seq<Absence>, rows: seq<Option<string>>)
    returns (all: seq<Option<string>>)
    requires |rows| <= |absences| && Reading(store, absences[..|rows|], rows)
    ensures Reading(store, absences, all) && rows <= all
    decreases |absences| - |rows|
  {
    if |rows| == |absences| {
      assert absences[..|rows|] == absences;
      all := rows;
    } else {
      var row := SomeRow(store, absences[|rows|].subjectKey);
      all := ExtendReading(store, absences, rows + [row]);
    }
  }

  /** The absence checks: their end is one that some choice of rows leads to. */
  method ValidateAbsences(store: Store, absences: seq<Absence>, at: int) returns (ok: bool)
    ensures MayEnd(store, absences, at, ok)
  {
    ghost var rows: seq<Option<string>> := [];
    for i := 0 to |absences|
      invariant Reading(store, absences[..i], rows) && ShowsAll(store, absences[..i], rows, at)
    {
      var check := absences[i];
      var subject := FindObject(store, check.subjectKey);
      ghost var all := ExtendReading(store, absences, rows + [subject]);
      assert all[i] == subject;
      if subject.None? || store.objects[subject.value].created > at {
        assert !ShowsGap(store, absences[i], all[i], at);
        return false;
      }
      var present := IsPresent(store, subject.value, check.predicate_, at);
      if present {
        assert !ShowsGap(store, absences[i], all[i], at);
        return false;
      }
      rows := rows + [subject];
    }
    assert absences[..|absences|] == absences;
    ok := true;
  }

  lemma {:induction false} ReadGaps(store: Store, absences: seq<Absence>, at: int) returns (rows: seq<Option<string>>)
    requires forall k :: 0 <= k < |absences| ==> GapSeen(store, absences[k], at)
    ensures Reading(store, absences, rows) && ShowsAll(store, absences, rows, at)
  {
    if absences == [] {
      rows := [];
    } else {
      var front, last := absences[..|absences| - 1], absences[|absences| - 1];
      rows := ReadGaps(store, front, at);
      assert GapSeen(store, last, at);
      var id :| GapHolds(store, last, id, at);
      rows := rows + [Some(id)];
    }
  }

  /** A row that does not show the gap can be read exactly when not every row has it, or there is none. */
  lemma ReadOther(store: Store, check: Absence, at: int) returns (row: Option<string>)
    requires !(GapSeen(store, check, at) && GapEverywhere(store, check, at))
    ensures MayRead(store, check.subjectKey, row) && !ShowsGap(store, check, row, at)
  {
    if id :| HasKey(store, id, check.subjectKey) && !GapHolds(store, check, id, at) {
      row := Some(id);
    } else {
      row := SomeRow(store, check.subjectKey);
    }
  }

  /**
    When the store decides the absence checks. They can pass exactly when every check has a row with its
    gap; they can fail exactly when some check has a row without it, or no row. So they are forced to pass
    when all rows of every check agree on the gap, and left open exactly when rows of a check disagree
    while each check has one that shows its gap.
  */
  lemma AbsencesDecidedExact(store: Store, absences: seq<Absence>, at: int)
    ensures MayEnd(store, absences, at, true) <==> forall k :: 0 <= k < |absences| ==> GapSeen(store, absences[k], at)
    ensures MayEnd(store, absences, at, false)
       <==> exists k :: 0 <= k < |absences| && !(GapSeen(store, absences[k], at) && GapEverywhere(store, absences[k], at))
  {
    if forall k :: 0 <= k < |absences| ==> GapSeen(store, absences[k], at) {
      var rows := ReadGaps(store, absences, at);
    }
    if rows :| Reading(store, absences, rows) && ShowsAll(store, absences, rows, at) {
      forall k | 0 <= k < |absences| ensures GapSeen(store, absences[k], at) { assert ShowsGap(store, absences[k], rows[k], at); }
    }
    if k :| 0 <= k < |absences| && !(GapSeen(store, absences[k], at) && GapEverywhere(store, absences[k], at)) {
      var before := ExtendReading(store, absences, []);
      var row := ReadOther(store, absences[k], at);
      var rows := before[k := row];
      assert Reading(store, absences, rows) && !ShowsGap(store, absences[k], rows[k], at);
    }
    if rows :| Reading(store, absences, rows) && !ShowsAll(store, absences, rows, at) {
      var k :| 0 <= k < |absences| && !ShowsGap(store, absences[k], rows[k], at);
      assert MayRead(store, absences[k].subjectKey, rows[k]);
    }
  }

  /** `validate_structured_qa_gold_provenance`: `ok` stands for a normal return, `!ok` for a raise. */
  method Validate(render: Renderer, store: Store, gold: Gold, evidenceRefs: seq<string>, sources: set<string>, at: int,
                  absences: seq<Absence>)
    returns (ok: bool)
    ensures ok ==> Positive(render, store, gold, Unique(NonEmpty(evidenceRefs)), sources, at)
    ensures Positive(render, store, gold, Unique(NonEmpty(evidenceRefs)), sources, at) ==> MayEnd(store, absences, at, ok)
    ensures (forall k :: 0 <= k < |absences| ==> GapSeen(store, absences[k], at) && GapEverywhere(store, absences[k], at)) ==>
      (ok <==> Positive(render, store, gold, Unique(NonEmpty(evidenceRefs)), sources, at))
    ensures (exists k :: 0 <= k < |absences| && !GapSeen(store, absences[k], at)) ==> !ok
  {
    var refs := StableUnique(evidenceRefs);
    ok := ValidatePositive(render, store, gold, refs, sources, at);
    if ok {
      ok := ValidateAbsences(store, absences, at);
      AbsencesDecidedExact(store, absences, at);
    }
  }

  /** The positive part is convex in the revision: valid at two revisions, valid in between. */
  lemma PositiveBetween(render: Renderer, store: Store, gold: Gold, refs: seq<string>, sources: set<string>,
                        low: int, mid: int, high: int)
    requires low <= mid <= high
    requires Positive(render, store, gold, refs, sources, low) && Positive(render, store, gold, refs, sources, high)
    ensures Positive(render, store, gold, refs, sources, mid)
  {
    forall ref | ref in refs ensures RefResolves(store, ref, mid) {
      assert RefResolves(store, ref, low) && RefResolves(store, ref, high);
    }
    forall f | f in gold.requiredFacts || f in gold.acceptableFacts
      ensures exists ref :: ref in refs && RefFact(render, store, ref, mid) == f
    {
      var ref :| ref in refs && RefFact(render, store, ref, low) == f;
      assert RefFact(render, store, ref, mid) == f;
    }
  }

  /** Claim `c` about `id` came and went between the two revisions. */
  predicate Passes(store: Store, c: string, id: string, predicate_: string, low: int, high: int) {
    && c in store.claims && store.claims[c].subject == id && store.claims[c].predicate_ == predicate_
    && store.claims[c].lifecycle == "accepted" && low < store.claims[c].created
    && store.claims[c].superseded.Some? && store.claims[c].created < store.claims[c].superseded.value <= high
  }

  /** A gap at two revisions holds at every revision between exactly when no claim came and went there. */
  lemma GapConvexExact(store: Store, check: Absence, id: string, low: int, high: int)
    requires low <= high && GapHolds(store, check, id, low) && GapHolds(store, check, id, high)
    ensures (forall mid :: low <= mid <= high ==> GapHolds(store, check, id, mid))
       <==> forall c :: !Passes(store, c, id, check.predicate_, low, high)
  {
    forall c | Passes(store, c, id, check.predicate_, low, high)
      ensures !GapHolds(store, check, id, store.claims[c].created)
    {
      assert Asserts(store, c, id, check.predicate_, store.claims[c].created);
    }
    forall mid | low <= mid <= high && !GapHolds(store, check, id, mid)
      ensures exists c :: Passes(store, c, id, check.predicate_, low, high)
    {
      var c :| c in store.claims && Asserts(store, c, id, check.predicate_, mid);
      assert !Asserts(store, c, id, check.predicate_, low) && !Asserts(store, c, id, check.predicate_, high);
      assert Passes(store, c, id, check.predicate_, low, high);
    }
  }

  /** A gap that was filled and opened again. */
  lemma GapNotConvex() returns (store: Store, check: Absence)
    ensures GapSeen(store, check, 1) && !GapSeen(store, check, 2) && GapSeen(store, check, 3)
  {
    var claim := Claim("o", "p", "v", "", "accepted", 2, Some(3));
    store := Store(map["o" := Object("T", "k", "", 0)], map[], map["c" := claim], map[], map[]);
    check := Absence("k", "p");
    assert GapHolds(store, check, "o", 1) && GapHolds(store, check, "o", 3);
    assert "c" in store.claims && Asserts(store, "c", "o", "p", 2);
  }

  /** With a key shared by two object types, the row that happens to be read decides the check. */
  lemma SharedKeyDecidesByChance() returns (store: Store, check: Absence, x: string, y: string)
    ensures HasKey(store, x, check.subjectKey) && HasKey(store, y, check.subjectKey)
    ensures GapHolds(store, check, x, 1) && !GapHolds(store, check, y, 1)
    ensures MayEnd(store, [check], 1, true) && MayEnd(store, [check], 1, false)
  {
    var claim := Claim("y", "p", "v", "", "accepted", 1, None);
    x, y := "x", "y";
    store := Store(map["x" := Object("T", "k", "", 0), "y" := Object("U", "k", "", 0)], map[], map["c" := claim], map[], map[]);
    check := Absence("k", "p");
    assert "c" in store.claims && Asserts(store, "c", "y", "p", 1);
    assert GapHolds(store, check, x, 1) && HasKey(store, y, check.subjectKey);
    assert GapSeen(store, [check][0], 1) && !GapEverywhere(store, [check][0], 1);
    AbsencesDecidedExact(store, [check], 1);
  }
}

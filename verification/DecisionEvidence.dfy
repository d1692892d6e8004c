/** Which relations a decision may claim as evidence, and the paths built from them. */
module DecisionEvidence {
  import opened Ordering
  import opened Texts
  import opened KnowledgeStore
  import opened RelationPaths

  datatype Kind = Fact | Inference | Recommendation

  datatype Conclusion = Conclusion(kind: Kind, statement: string, evidenceRefs: seq<string>, reasoningRefs: seq<string>)

  datatype Citation = Citation(index: int, evidenceRef: string)

  datatype Decision = Decision(id: string, conclusions: seq<Conclusion>, citations: seq<Citation>)

  /** Adjudicated support, by conclusion index and evidence reference. */
  type Verdicts = map<(int, string), bool>

  /** The sentences printed for a claim (subject, predicate, value, qualifier) and for a
      relation (source, type, target, qualifier, target properties). */
  datatype Renderer = Renderer(
    claim: (string, string, string, string) -> string,
    relation: (string, string, string, string, string) -> string)

  const EVIDENCE := "evidence:"

  /** A verdict decides; without one only facts are supported. */
  predicate Supported(decision: Decision, verdicts: Verdicts, c: Citation) {
    && 0 <= c.index < |decision.conclusions|
    && !decision.conclusions[c.index].kind.Recommendation?
    && c.evidenceRef in decision.conclusions[c.index].evidenceRefs
    && (var key := (c.index, c.evidenceRef);
        if key in verdicts then verdicts[key] else decision.conclusions[c.index].kind.Fact?)
    && StartsWith(c.evidenceRef, EVIDENCE)
  }

  /** The accepted, unsuperseded relation an evidence reference points at. */
  function CitedRelation(store: Store, evidenceRef: string): Option<Relation> {
    var linkId := RemovePrefix(evidenceRef, EVIDENCE);
    if linkId !in store.links || store.links[linkId].targetKind != "relation" then None
    else if store.links[linkId].targetId !in store.relations then None
    else
      var r := store.relations[store.links[linkId].targetId];
      if r.superseded.Some? || r.lifecycle != "accepted" then None else Some(r)
  }

  /** The conclusion names the relation as its reasoning, or states it word for word as a fact. */
  predicate Relies(render: Renderer, store: Store, conclusion: Conclusion, r: Relation) {
    || RELATION + r.id in conclusion.reasoningRefs
    || (&& conclusion.kind.Fact?
        && r.source in store.objects && r.target in store.objects
        && conclusion.statement == render.relation(store.objects[r.source].key, r.kind, store.objects[r.target].key,
                                                   r.qualifier, store.objects[r.target].properties))
  }

  /** Citation `c` puts relation `r` to use. */
  predicate Uses(render: Renderer, store: Store, decision: Decision, verdicts: Verdicts, c: Citation, r: Relation) {
    && Supported(decision, verdicts, c)
    && CitedRelation(store, c.evidenceRef) == Some(r)
    && Relies(render, store, decision.conclusions[c.index], r)
  }

  /** A citation counts: of a fact or an inference that lists its evidence, with a verdict for it, or without
      any if it is a fact. */
  ghost predicate Counts(decision: Decision, verdicts: Verdicts, c: Citation) {
    && 0 <= c.index < |decision.conclusions| && decision.conclusions[c.index].kind != Recommendation
    && c.evidenceRef in decision.conclusions[c.index].evidenceRefs
    && ((c.index, c.evidenceRef) in verdicts ==> verdicts[(c.index, c.evidenceRef)])
    && ((c.index, c.evidenceRef) !in verdicts ==> decision.conclusions[c.index].kind == Fact)
  }

  /** The reference leads through a link to a relation that is accepted and not superseded. */
  ghost predicate LeadsTo(store: Store, evidenceRef: string, r: Relation) {
    exists linkId :: evidenceRef == "evidence:" + linkId && linkId in store.links
      && store.links[linkId].targetKind == "relation" && store.links[linkId].targetId in store.relations
      && r == store.relations[store.links[linkId].targetId] && r.lifecycle == "accepted" && r.superseded == None
  }

  /** A fact that states the relation in the words it is printed in. */
  ghost predicate States(render: Renderer, store: Store, conclusion: Conclusion, r: Relation) {
    && conclusion.kind == Fact && r.source in store.objects && r.target in store.objects
    && conclusion.statement == render.relation(store.objects[r.source].key, r.kind, store.objects[r.target].key,
                                               r.qualifier, store.objects[r.target].properties)
  }

  /** When a citation puts a relation to use. */
  lemma UsesExact(render: Renderer, store: Store, decision: Decision, verdicts: Verdicts, c: Citation, r: Relation)
    ensures Uses(render, store, decision, verdicts, c, r) <==>
      && Counts(decision, verdicts, c) && LeadsTo(store, c.evidenceRef, r)
      && ("relation:" + r.id in decision.conclusions[c.index].reasoningRefs
          || States(render, store, decision.conclusions[c.index], r))
  {
    if StartsWith(c.evidenceRef, EVIDENCE) {
      assert c.evidenceRef == EVIDENCE + RemovePrefix(c.evidenceRef, EVIDENCE);
    }
    if linkId :| c.evidenceRef == "evidence:" + linkId {
      assert RemovePrefix(c.evidenceRef, EVIDENCE) == linkId;
    }
  }

  /** `rels` are the relations the decision uses. */
  ghost predicate UsedRows(render: Renderer, store: Store, decision: Decision, verdicts: Verdicts,
                           rels: seq<Relation>) {
    forall r :: r in rels <==> exists c :: c in decision.citations && Uses(render, store, decision, verdicts, c, r)
  }

  method UsedRelationRefs(render: Renderer, store: Store, decision: Decision, verdicts: Verdicts)
    returns (used: set<string>)
    requires store.Keyed()
    ensures forall ref :: ref in used <==>
      exists c, r :: c in decision.citations && Uses(render, store, decision, verdicts, c, r) && ref == RELATION + r.id
  {
    used := {};
    for i := 0 to |decision.citations|
      invariant forall ref :: ref in used <==>
        exists c, r :: c in decision.citations[..i] && Uses(render, store, decision, verdicts, c, r) && ref == RELATION + r.id
    {
      var c := decision.citations[i];
      assert decision.citations[..i + 1] == decision.citations[..i] + [c];
      if !(0 <= c.index < |decision.conclusions|) { continue; }
      var conclusion := decision.conclusions[c.index];
      if conclusion.kind.Recommendation? { continue; }
      if c.evidenceRef !in conclusion.evidenceRefs { continue; }
      var key := (c.index, c.evidenceRef);
      var supported := if key in verdicts then verdicts[key] else conclusion.kind.Fact?;
      if !supported || !StartsWith(c.evidenceRef, EVIDENCE) { continue; }
      var relation := CitedRelation(store, c.evidenceRef);
      if relation.None? { continue; }
      var r := relation.value;
      if Relies(render, store, conclusion, r) {
        assert Uses(render, store, decision, verdicts, c, r);
        used := used + {RELATION + r.id};
      }
    }
    assert decision.citations[..|decision.citations|] == decision.citations;
  }

  /** `_decision_relation_paths`: the simple paths of 2 to 6 hops over the relations the decision uses. */
  method DecisionRelationPaths(render: Renderer, store: Store, decision: Decision, verdicts: Verdicts)
    returns (paths: seq<seq<string>>, ghost rels: seq<Relation>)
    requires store.Keyed()
    ensures UsedRows(render, store, decision, verdicts, rels)
    ensures Increasing(TupleLess, paths)
    ensures forall p :: p in paths <==> IsPathKeys(rels, SelectObjects(store, rels), 6, p)
  {
    var used := UsedRelationRefs(render, store, decision, verdicts);
    var listed := Listing(used);
    StringLessStrictTotal();
    var refs := SortedSet(StringLess, listed);
    paths, rels := RelationPathsForRefs(store, refs, 6);
    assert forall ref :: ref in refs <==> ref in used;
    forall r ensures r in rels <==> exists c :: c in decision.citations && Uses(render, store, decision, verdicts, c, r) {
      RowOfUsedRef(render, store, decision, verdicts, refs, rels, r);
    }
  }

  /** Printing a relation reference and reading it back finds the same row. */
  lemma RowOfUsedRef(render: Renderer, store: Store, decision: Decision, verdicts: Verdicts,
                     refs: seq<string>, rels: seq<Relation>, r: Relation)
    requires store.Keyed() && RowsFor(store, refs, rels)
    requires forall ref :: ref in refs <==>
      exists c, x :: c in decision.citations && Uses(render, store, decision, verdicts, c, x) && ref == RELATION + x.id
    ensures r in rels <==> exists c :: c in decision.citations && Uses(render, store, decision, verdicts, c, r)
  {
    if c :| c in decision.citations && Uses(render, store, decision, verdicts, c, r) {
      var ref := RELATION + r.id;
      assert StartsWith(ref, RELATION) && RemovePrefix(ref, RELATION) == r.id;
      assert ref in refs;
    }
    if r in rels {
      var ref :| ref in refs && StartsWith(ref, RELATION) && RemovePrefix(ref, RELATION) in store.relations
                 && store.relations[RemovePrefix(ref, RELATION)] == r;
      var c, x :| c in decision.citations && Uses(render, store, decision, verdicts, c, x) && ref == RELATION + x.id;
      assert RemovePrefix(ref, RELATION) == x.id;
    }
  }

  /** Some supported citation points at the relation, and its conclusion relies on the relation. */
  ghost predicate Used(render: Renderer, store: Store, decision: Decision, verdicts: Verdicts, r: Relation) {
    exists c :: c in decision.citations && Uses(render, store, decision, verdicts, c, r)
  }

  /** Every hop of a decision path is an accepted, unsuperseded relation that a supported citation cites and its
      conclusion relies on. */
  lemma EveryHopSupported(render: Renderer, store: Store, decision: Decision, verdicts: Verdicts,
                          rels: seq<Relation>, p: seq<string>)
    returns (t: seq<Relation>)
    requires UsedRows(render, store, decision, verdicts, rels)
    requires IsPathKeys(rels, SelectObjects(store, rels), 6, p)
    ensures IsSimplePath(rels, SelectObjects(store, rels), t) && 2 <= |t| <= 6 && PathKeys(SelectObjects(store, rels), t) == p
    ensures forall i :: 0 <= i < |t| ==> t[i].lifecycle == "accepted" && t[i].superseded.None?
    ensures forall i :: 0 <= i < |t| ==> Used(render, store, decision, verdicts, t[i])
  {
    t :| IsSimplePath(rels, SelectObjects(store, rels), t) && 2 <= |t| <= 6 && PathKeys(SelectObjects(store, rels), t) == p;
    forall i | 0 <= i < |t|
      ensures t[i].lifecycle == "accepted" && t[i].superseded.None?
      ensures Used(render, store, decision, verdicts, t[i])
    {
      var c :| c in decision.citations && Uses(render, store, decision, verdicts, c, t[i]);
    }
  }

  lemma RaisedUses(render: Renderer, store: Store, decision: Decision, verdicts: Verdicts, key: (int, string),
                   r: Relation)
    requires Used(render, store, decision, verdicts, r)
    ensures Used(render, store, decision, verdicts[key := true], r)
  {
    var c :| c in decision.citations && Uses(render, store, decision, verdicts, c, r);
    assert Uses(render, store, decision, verdicts[key := true], c, r);
  }

  /** Turning a citation verdict true can only add decision paths. */
  lemma RaisingVerdictAddsPaths(render: Renderer, store: Store, decision: Decision, verdicts: Verdicts,
                                key: (int, string), rels: seq<Relation>, more: seq<Relation>, p: seq<string>)
    requires UsedRows(render, store, decision, verdicts, rels)
    requires UsedRows(render, store, decision, verdicts[key := true], more)
    requires IsPathKeys(rels, SelectObjects(store, rels), 6, p)
    ensures IsPathKeys(more, SelectObjects(store, more), 6, p)
  {
    forall r | r in rels ensures r in more {
      RaisedUses(render, store, decision, verdicts, key, r);
    }
    PathsMonotone(rels, SelectObjects(store, rels), more, SelectObjects(store, more), 6, p);
  }
}

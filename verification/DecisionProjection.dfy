/** Projecting a stored decision into benchmark form, with and without the investigation state. */
module DecisionProjection {
  import opened DecisionEvidence
  import opened Ordering

  datatype ConfirmedItem = ConfirmedItem(proposition: string, evidenceRefs: seq<string>)

  /** `current` is the decision identifier recorded in the state's current decision, if it has one. */
  datatype State = State(caseId: string, current: Option<Option<string>>, confirmed: seq<ConfirmedItem>)

  datatype Stored = Stored(decision: Decision, caseId: string, caseRevision: int,
    unknowns: seq<string>, conflicts: seq<string>, assumptions: seq<string>)

  datatype Check = Check(fact: string, evidenceRef: string, supports: bool)

  datatype Prediction = Prediction(caseId: string, facts: seq<string>,
    paths: seq<seq<string>>, availablePaths: seq<seq<string>>, decisionPaths: seq<seq<string>>,
    checks: seq<Check>, unknowns: seq<string>, conflicts: seq<string>, assumptions: seq<string>,
    latency: Option<real>, executionRefs: seq<string>)

  /** What a caller passes through: the available paths, the decision's paths, the latency and further references. */
  datatype Extras = Extras(paths: seq<seq<string>>, decisionPaths: seq<seq<string>>, latency: Option<real>,
    executionRefs: seq<string>)

  datatype Error = EmptyCaseId | WrongCase | WrongCurrentDecision | StaleVerdicts(keys: set<(int, string)>)

  datatype Result = Projected(prediction: Prediction) | Rejected(error: Error)

  /** What the projections read of texts: whether one is only white space, and how a revision is written. */
  datatype Format = Format(blank: string -> bool, revision: int -> string)

  /** What a citation counts for when no verdict adjudicates it. */
  type Fallback = (Conclusion, string) -> bool

  function FactsAreSupported(): Fallback { (conclusion: Conclusion, evidenceRef: string) => conclusion.kind.Fact? }

  predicate ConfirmedSupports(state: State, statement: string, evidenceRef: string) {
    exists i :: 0 <= i < |state.confirmed| && state.confirmed[i].proposition == statement
      && evidenceRef in state.confirmed[i].evidenceRefs
  }

  function StateSupports(state: State): Fallback {
    (conclusion: Conclusion, evidenceRef: string) => ConfirmedSupports(state, conclusion.statement, evidenceRef)
  }

  /** The citation points at a conclusion that is not a recommendation. */
  predicate Eligible(decision: Decision, c: Citation) {
    0 <= c.index < |decision.conclusions| && !decision.conclusions[c.index].kind.Recommendation?
  }

  function Key(c: Citation): (int, string) { (c.index, c.evidenceRef) }

  function EligibleOf(decision: Decision, citations: seq<Citation>): (r: seq<Citation>)
    ensures forall k :: 0 <= k < |r| ==> Eligible(decision, r[k])
  {
    if citations == [] then []
    else
      var last := citations[|citations| - 1];
      EligibleOf(decision, citations[..|citations| - 1]) + (if Eligible(decision, last) then [last] else [])
  }

  lemma {:induction false} EligibleExact(decision: Decision, citations: seq<Citation>)
    ensures forall c :: c in EligibleOf(decision, citations) <==> c in citations && Eligible(decision, c)
  {
    if citations != [] {
      EligibleExact(decision, citations[..|citations| - 1]);
      assert citations == citations[..|citations| - 1] + [citations[|citations| - 1]];
    }
  }

  function CheckOf(decision: Decision, verdicts: Verdicts, fallback: Fallback, c: Citation): Check
    requires Eligible(decision, c)
  {
    var conclusion := decision.conclusions[c.index];
    Check(conclusion.statement, c.evidenceRef,
      if Key(c) in verdicts then verdicts[Key(c)] else fallback(conclusion, c.evidenceRef))
  }

  /** One check for every eligible citation, in the order of the citations. */
  ghost predicate IsChecked(decision: Decision, verdicts: Verdicts, fallback: Fallback, citations: seq<Citation>,
                            checks: seq<Check>) {
    var eligible := EligibleOf(decision, citations);
    && |checks| == |eligible|
    && forall k :: 0 <= k < |checks| ==> checks[k] == CheckOf(decision, verdicts, fallback, eligible[k])
  }

  /** The verdict adjudicates no eligible citation of the decision. */
  ghost predicate Stale(decision: Decision, key: (int, string)) {
    forall c :: c in decision.citations && Eligible(decision, c) ==> Key(c) != key
  }

  /** The loop both projections run: the checks, and the verdicts no citation consumed. */
  method CheckCitations(decision: Decision, verdicts: Verdicts, fallback: Fallback)
    returns (checks: seq<Check>, stale: set<(int, string)>)
    ensures IsChecked(decision, verdicts, fallback, decision.citations, checks)
    ensures forall key :: key in stale <==> key in verdicts && Stale(decision, key)
  {
    checks := [];
    var eligible := set index | 0 <= index < |decision.conclusions| && !decision.conclusions[index].kind.Recommendation?;
    var consumed: set<(int, string)> := {};
    for i := 0 to |decision.citations|
      invariant IsChecked(decision, verdicts, fallback, decision.citations[..i], checks)
      invariant forall key :: key in consumed <==>
        key in verdicts && exists j :: 0 <= j < i && Eligible(decision, decision.citations[j]) && Key(decision.citations[j]) == key
    {
      var citation := decision.citations[i];
      assert decision.citations[..i + 1][..i] == decision.citations[..i];
      if citation.index !in eligible {
        continue;
      }
      assert citation.index < |decision.conclusions|;  // so the range check that follows can never fire
      var conclusion := decision.conclusions[citation.index];
      var supports;
      if Key(citation) in verdicts {
        supports := verdicts[Key(citation)];
        consumed := consumed + {Key(citation)};
      } else {
        supports := fallback(conclusion, citation.evidenceRef);
      }
      checks := checks + [Check(conclusion.statement, citation.evidenceRef, supports)];
    }
    assert decision.citations[..|decision.citations|] == decision.citations;
    stale := verdicts.Keys - consumed;
  }

  function StatedFacts(conclusions: seq<Conclusion>): seq<string> {
    if conclusions == [] then []
    else
      var last := conclusions[|conclusions| - 1];
      StatedFacts(conclusions[..|conclusions| - 1]) + (if last.kind.Recommendation? then [] else [last.statement])
  }

  function ReasoningRefs(conclusions: seq<Conclusion>): seq<string> {
    if conclusions == [] then []
    else
      var last := conclusions[|conclusions| - 1];
      ReasoningRefs(conclusions[..|conclusions| - 1]) + (if last.kind.Recommendation? then [] else last.reasoningRefs)
  }

  // ---------------------------------------------------------------- what is projected, field by field

  lemma {:induction false} StatedFactsAppend(a: seq<Conclusion>, b: seq<Conclusion>)
    ensures StatedFacts(a + b) == StatedFacts(a) + StatedFacts(b)
  {
    if b == [] {
      assert a + b == a;
    } else {
      assert (a + b)[..|a + b| - 1] == a + b[..|b| - 1];
      StatedFactsAppend(a, b[..|b| - 1]);
    }
  }

  lemma {:induction false} ReasoningRefsAppend(a: seq<Conclusion>, b: seq<Conclusion>)
    ensures ReasoningRefs(a + b) == ReasoningRefs(a) + ReasoningRefs(b)
  {
    if b == [] {
      assert a + b == a;
    } else {
      assert (a + b)[..|a + b| - 1] == a + b[..|b| - 1];
      ReasoningRefsAppend(a, b[..|b| - 1]);
    }
  }

  /** Wherever a conclusion stands, it adds its statement and its reasoning references there, unless it is a
      recommendation. */
  lemma ProjectedInOrder(a: seq<Conclusion>, c: Conclusion, b: seq<Conclusion>)
    ensures StatedFacts(a + [c] + b)
      == StatedFacts(a) + (if c.kind == Recommendation then [] else [c.statement]) + StatedFacts(b)
    ensures ReasoningRefs(a + [c] + b)
      == ReasoningRefs(a) + (if c.kind == Recommendation then [] else c.reasoningRefs) + ReasoningRefs(b)
    ensures StatedFacts([]) == [] && ReasoningRefs([]) == []
  {
    StatedFactsAppend(a + [c], b);
    ReasoningRefsAppend(a + [c], b);
    assert (a + [c])[..|a|] == a;
  }

  /** A check says of a citation what its verdict says, or else what stands for a verdict. */
  ghost predicate Judges(decision: Decision, verdicts: Verdicts, fallback: Fallback, c: Citation, check: Check)
    requires 0 <= c.index < |decision.conclusions|
  {
    check == Check(fact := decision.conclusions[c.index].statement, evidenceRef := c.evidenceRef,
      supports := if (c.index, c.evidenceRef) in verdicts then verdicts[(c.index, c.evidenceRef)]
                  else fallback(decision.conclusions[c.index], c.evidenceRef))
  }

  /** The citation is of a conclusion that is not a recommendation. */
  ghost predicate OfStated(decision: Decision, c: Citation) {
    0 <= c.index < |decision.conclusions| && decision.conclusions[c.index].kind != Recommendation
  }

  lemma {:induction false} EligibleInOrder(decision: Decision, citations: seq<Citation>) returns (at: seq<int>)
    ensures Picks(citations, at, EligibleOf(decision, citations))
    ensures forall k :: 0 <= k < |citations| ==> (k in at <==> OfStated(decision, citations[k]))
  {
    at := [];
    if citations != [] {
      var front, last := citations[..|citations| - 1], citations[|citations| - 1];
      assert citations == front + [last];
      var kept := EligibleInOrder(decision, front);
      PicksPush(front, kept, EligibleOf(decision, front), last);
      at := if OfStated(decision, last) then kept + [|front|] else kept;
    }
  }

  /** One check for each citation of a conclusion that is not a recommendation, in order. */
  lemma ChecksExact(decision: Decision, verdicts: Verdicts, fallback: Fallback, citations: seq<Citation>,
                    checks: seq<Check>)
    returns (at: seq<int>, eligible: seq<Citation>)
    requires IsChecked(decision, verdicts, fallback, citations, checks)
    ensures Picks(citations, at, eligible) && |checks| == |eligible|
    ensures forall k :: 0 <= k < |citations| ==> (k in at <==> OfStated(decision, citations[k]))
    ensures forall j :: 0 <= j < |checks| ==>
      OfStated(decision, eligible[j]) && Judges(decision, verdicts, fallback, eligible[j], checks[j])
  {
    at := EligibleInOrder(decision, citations);
    eligible := EligibleOf(decision, citations);
  }

  /** From state, a citation without a verdict is supported exactly when a confirmed item with the conclusion's
      very words lists its evidence; from the decision alone, exactly when it cites a fact. */
  lemma FallbacksExact(state: State, conclusion: Conclusion, evidenceRef: string)
    ensures StateSupports(state)(conclusion, evidenceRef) <==>
      exists item :: item in state.confirmed && item.proposition == conclusion.statement && evidenceRef in item.evidenceRefs
    ensures FactsAreSupported()(conclusion, evidenceRef) <==> conclusion.kind == Fact
  {
    if item :| item in state.confirmed && item.proposition == conclusion.statement && evidenceRef in item.evidenceRefs {
      var i :| 0 <= i < |state.confirmed| && state.confirmed[i] == item;
    }
  }

  ghost predicate AnyStale(decision: Decision,
                           verdicts: Verdicts) { exists key :: key in verdicts && Stale(decision, key) }

  /** The prediction holds the stated facts, one check for each eligible citation, what was passed through, and
      each reference once. */
  ghost predicate IsPrediction(caseId: string, stored: Stored, verdicts: Verdicts, fallback: Fallback, extras: Extras,
                               refs: seq<string>, p: Prediction) {
    && p.caseId == caseId && p.facts == StatedFacts(stored.decision.conclusions)
    && p.paths == extras.paths && p.availablePaths == extras.paths && p.decisionPaths == extras.decisionPaths
    && p.unknowns == stored.unknowns && p.conflicts == stored.conflicts && p.assumptions == stored.assumptions
    && p.latency == extras.latency
    && IsChecked(stored.decision, verdicts, fallback, stored.decision.citations, p.checks)
    && p.executionRefs == Unique(NonEmpty(refs + ReasoningRefs(stored.decision.conclusions) + extras.executionRefs))
  }

  /** `project_decision_to_qa_prediction`. */
  method ProjectFromState(format: Format, caseId: string, stored: Stored, state: State, verdicts: Verdicts,
                          extras: Extras)
    returns (r: Result)
    ensures format.blank(caseId) ==> r == Rejected(EmptyCaseId)
    ensures !format.blank(caseId) && stored.caseId != state.caseId ==> r == Rejected(WrongCase)
    ensures !format.blank(caseId) && stored.caseId == state.caseId ==>
      if state.current.Some? && state.current.value != Some(stored.decision.id) then r == Rejected(WrongCurrentDecision)
      else RejectsStale(stored.decision, verdicts, r)
    ensures r.Projected? ==>
      IsPrediction(caseId, stored, verdicts, StateSupports(state), extras,
        ["case:" + stored.caseId, stored.decision.id, "case-revision:" + stored.caseId + "@" + format.revision(stored.caseRevision)],
        r.prediction)
  {
    var decision := stored.decision;
    if format.blank(caseId) {
      return Rejected(EmptyCaseId);
    }
    if stored.caseId != state.caseId {
      return Rejected(WrongCase);
    }
    if state.current.Some? && state.current.value != Some(decision.id) {
      return Rejected(WrongCurrentDecision);
    }
    var checks, stale := CheckCitations(decision, verdicts, StateSupports(state));
    if stale != {} {
      return Rejected(StaleVerdicts(stale));
    }
    var own := ["case:" + stored.caseId, decision.id, "case-revision:" + stored.caseId + "@" + format.revision(stored.caseRevision)];
    var refs := StableUnique(own + ReasoningRefs(decision.conclusions) + extras.executionRefs);
    r := Projected(Prediction(caseId, StatedFacts(decision.conclusions), extras.paths, extras.paths, extras.decisionPaths,
      checks, stored.unknowns, stored.conflicts, stored.assumptions, extras.latency, refs));
  }

  /** A result is the rejection of exactly the stale verdicts, or there are none. */
  ghost predicate RejectsStale(decision: Decision, verdicts: Verdicts, r: Result) {
    && (r.Projected? <==> !AnyStale(decision, verdicts))
    && (r.Rejected? ==> r.error.StaleVerdicts? && forall key :: key in r.error.keys <==> key in verdicts && Stale(decision, key))
  }

  /** `project_validated_decision_to_qa_prediction`. */
  method ProjectValidated(format: Format, caseId: string, stored: Stored, verdicts: Verdicts,
                          extras: Extras)
    returns (r: Result)
    ensures format.blank(caseId) ==> r == Rejected(EmptyCaseId)
    ensures !format.blank(caseId) ==> RejectsStale(stored.decision, verdicts, r)
    ensures r.Projected? ==>
      IsPrediction(caseId, stored, verdicts, FactsAreSupported(), extras, [stored.decision.id], r.prediction)
  {
    var decision := stored.decision;
    if format.blank(caseId) {
      return Rejected(EmptyCaseId);
    }
    var checks, stale := CheckCitations(decision, verdicts, FactsAreSupported());
    if stale != {} {
      return Rejected(StaleVerdicts(stale));
    }
    var refs := StableUnique([decision.id] + ReasoningRefs(decision.conclusions) + extras.executionRefs);
    r := Projected(Prediction(caseId, StatedFacts(decision.conclusions), extras.paths, extras.paths, extras.decisionPaths,
      checks, stored.unknowns, stored.conflicts, stored.assumptions, extras.latency, refs));
  }

  // ---------------------------------------------------------------- comparing the two

  /** Two projections that reach the verdicts reject the same stale ones. */
  lemma SameStaleVerdicts(decision: Decision, verdicts: Verdicts, a: Result, b: Result)
    requires RejectsStale(decision, verdicts, a) && RejectsStale(decision, verdicts, b)
    ensures a.Projected? <==> b.Projected?
    ensures a.Rejected? ==> a == b
  {
    if a.Rejected? {
      assert forall key :: key in a.error.keys <==> key in b.error.keys;
    }
  }

  /** The confirmed state backs every citation of a fact. */
  ghost predicate FactsBacked(decision: Decision, state: State) {
    forall c :: c in decision.citations && Eligible(decision, c) && decision.conclusions[c.index].kind.Fact? ==>
      ConfirmedSupports(state, decision.conclusions[c.index].statement, c.evidenceRef)
  }

  /** The confirmed state backs no citation of anything but a fact. */
  ghost predicate OnlyFactsBacked(decision: Decision, state: State) {
    forall c :: c in decision.citations && Eligible(decision, c) && !decision.conclusions[c.index].kind.Fact? ==>
      !ConfirmedSupports(state, decision.conclusions[c.index].statement, c.evidenceRef)
  }

  lemma EligibleAt(decision: Decision, k: int)
    requires 0 <= k < |EligibleOf(decision, decision.citations)|
    ensures EligibleOf(decision, decision.citations)[k] in decision.citations
  {
    EligibleExact(decision, decision.citations);
    assert EligibleOf(decision, decision.citations)[k] in EligibleOf(decision, decision.citations);
  }

  /** The same citations are checked, and with all facts backed the state supports whatever validation supports. */
  lemma ValidatedSupportIsStateSupport(decision: Decision, verdicts: Verdicts, state: State, validated: seq<Check>,
                                       fromState: seq<Check>)
    requires IsChecked(decision, verdicts, FactsAreSupported(), decision.citations, validated)
    requires IsChecked(decision, verdicts, StateSupports(state), decision.citations, fromState)
    ensures |validated| == |fromState|
    ensures forall k :: 0 <= k < |validated| ==>
      validated[k].fact == fromState[k].fact && validated[k].evidenceRef == fromState[k].evidenceRef
    ensures FactsBacked(decision, state) ==>
      forall k :: 0 <= k < |validated| && validated[k].supports ==> fromState[k].supports
  {
    forall k | 0 <= k < |validated| && FactsBacked(decision, state) && validated[k].supports
      ensures fromState[k].supports {
      EligibleAt(decision, k);
    }
  }

  /** The citation is judged alike with and without the state. */
  ghost predicate JudgedAlike(decision: Decision, verdicts: Verdicts, state: State, c: Citation)
    requires Eligible(decision, c)
  {
    var conclusion := decision.conclusions[c.index];
    Key(c) in verdicts || (conclusion.kind.Fact? <==> ConfirmedSupports(state, conclusion.statement, c.evidenceRef))
  }

  /** The two projections agree exactly when every citation without a verdict cites a fact just if it is backed. */
  lemma ProjectionsAgreeExact(decision: Decision, verdicts: Verdicts, state: State, validated: seq<Check>,
                              fromState: seq<Check>)
    requires IsChecked(decision, verdicts, FactsAreSupported(), decision.citations, validated)
    requires IsChecked(decision, verdicts, StateSupports(state), decision.citations, fromState)
    ensures validated == fromState <==>
      forall c :: c in decision.citations && Eligible(decision, c) ==> JudgedAlike(decision, verdicts, state, c)
  {
    var eligible := EligibleOf(decision, decision.citations);
    EligibleExact(decision, decision.citations);
    if forall c :: c in decision.citations && Eligible(decision, c) ==> JudgedAlike(decision, verdicts, state, c) {
      forall k | 0 <= k < |validated| ensures validated[k] == fromState[k] {
        EligibleAt(decision, k);
        assert JudgedAlike(decision, verdicts, state, eligible[k]);
      }
    }
    if validated == fromState {
      forall c | c in decision.citations && Eligible(decision, c) ensures JudgedAlike(decision, verdicts, state, c) {
        assert c in eligible;
        var k :| 0 <= k < |eligible| && eligible[k] == c;
        assert validated[k] == fromState[k];
      }
    }
  }

  /** So without verdicts, and with all facts backed, they agree exactly when nothing else is backed. */
  lemma AgreeWithoutVerdicts(decision: Decision, state: State, validated: seq<Check>, fromState: seq<Check>)
    requires FactsBacked(decision, state)
    requires IsChecked(decision, map[], FactsAreSupported(), decision.citations, validated)
    requires IsChecked(decision, map[], StateSupports(state), decision.citations, fromState)
    ensures validated == fromState <==> OnlyFactsBacked(decision, state)
  {
    ProjectionsAgreeExact(decision, map[], state, validated, fromState);
    if forall c :: c in decision.citations && Eligible(decision, c) ==> JudgedAlike(decision, map[], state, c) {
      forall c | c in decision.citations && Eligible(decision, c) && !decision.conclusions[c.index].kind.Fact?
        ensures !ConfirmedSupports(state, decision.conclusions[c.index].statement, c.evidenceRef)
      {
        assert JudgedAlike(decision, map[], state, c);
      }
    }
  }

  // ---------------------------------------------------------------- projections and decision paths

  /** A citation whose relation may enter a decision path is projected as supported, once validated. */
  lemma PathCitationsAreSupported(decision: Decision, verdicts: Verdicts, c: Citation,
                                  checks: seq<Check>) returns (k: int)
    requires c in decision.citations && Supported(decision, verdicts, c)
    requires IsChecked(decision, verdicts, FactsAreSupported(), decision.citations, checks)
    ensures 0 <= k < |checks| && checks[k] == Check(decision.conclusions[c.index].statement, c.evidenceRef, true)
  {
    EligibleExact(decision, decision.citations);
    var eligible := EligibleOf(decision, decision.citations);
    assert c in eligible;
    k :| 0 <= k < |eligible| && eligible[k] == c;
  }

  /** The projection from state can call such a citation unsupported: exactly when no verdict nor the state backs it. */
  lemma PathCitationFromState(decision: Decision, verdicts: Verdicts, state: State, c: Citation)
    requires Supported(decision, verdicts, c)
    ensures CheckOf(decision, verdicts, StateSupports(state), c).supports <==>
      Key(c) in verdicts || ConfirmedSupports(state, decision.conclusions[c.index].statement, c.evidenceRef)
  {
  }
}

/** What holds over every history of delegations, retries, context advances, transitions and wakes. */
module DelegationSafety {
  import opened Budgets
  import opened Ordering
  import opened Delegation

  predicate SameRun(a: Run, b: Run) {
    a.parent == b.parent && a.contractId == b.contractId && a.role == b.role && a.envelope == b.envelope && a.depth == b.depth
  }

  ghost predicate RunsKept(a: map<string, Run>, b: map<string, Run>) {
    forall k :: k in a ==> k in b && SameRun(a[k], b[k])
  }

  /** Rows are only added; of a stored run or account only the moving parts move. */
  ghost predicate Extends(a: Db, b: Db) {
    && Kept(a.objects, b.objects)
    && Kept(a.contracts, b.contracts) && Kept(a.contexts, b.contexts) && Kept(a.envelopes, b.envelopes)
    && AccountsKept(a.accounts, b.accounts) && RunsKept(a.runs, b.runs)
  }

  /** A delegated child is complete: queued once and for all, with contract, contexts, budget and envelope. */
  predicate ChildComplete(ids: Ids, db: Db, c: string)
    requires c in db.runs
  {
    var r := db.runs[c];
    && !r.status.Submitted?
    && r.envelope == ids.execution(c) && r.envelope in db.envelopes
    && r.contractId in db.contracts && r.context in db.contexts
    && (ids.context(c), 1) in db.contexts && ids.budget(c) in db.accounts
  }

  /** An envelope's scopes lie within those of the envelope `origin` it was handed down from. */
  predicate WithinOrigin(envelopes: map<string, Envelope>, e: Envelope, origin: Option<string>) {
    origin.Some? ==>
      (origin.value in envelopes && e.capability <= envelopes[origin.value].capability && e.identity <= envelopes[origin.value].identity)
  }

  ghost predicate ScopesOk(envelopes: map<string, Envelope>) {
    forall k :: k in envelopes ==>
      && envelopes[k].id == k && WithinOrigin(envelopes, envelopes[k], envelopes[k].parent)
      && WithinOrigin(envelopes, envelopes[k], envelopes[k].wokenFrom)
  }

  ghost predicate ChildrenOk(ids: Ids, db: Db) {
    && (forall c :: c in db.runs && IsChild(db.runs[c]) ==> ChildComplete(ids, db, c))
    && (forall c :: multiset(db.queued)[c] == if c in db.runs && IsChild(db.runs[c]) then 1 else 0)
  }

  ghost predicate Inv(ids: Ids, db: Db) {
    (forall k :: k in db.contracts ==> db.contracts[k].id == k) && ChildrenOk(ids, db) && ScopesOk(db.envelopes)
  }

  lemma ExtendsTransitive(a: Db, b: Db, c: Db)
    requires Extends(a, b) && Extends(b, c)
    ensures Extends(a, c)
  {
  }

  // ---------------------------------------------------------------- single transactions

  lemma AccountStep(db: Db, id: string, run: string, parent: Option<string>, limits: Quantities)
    requires CreateAccount(db, id, run, parent, limits).Some?
    ensures var after := CreateAccount(db, id, run, parent, limits).value;
      && after == db.(accounts := after.accounts)
      && AccountsKept(db.accounts, after.accounts)
      && id in after.accounts && SameAccount(after.accounts[id], NewAccount(limits, run, parent))
  {
    CreateKeepsRows(db.accounts, id, run, parent, limits);
  }

  lemma EnvelopeStep(db: Db, e: Envelope)
    requires CreateEnvelope(db, e).Some? && ScopesOk(db.envelopes)
    requires WithinOrigin(db.envelopes, e, e.parent) && WithinOrigin(db.envelopes, e, e.wokenFrom)
    ensures var after := CreateEnvelope(db, e).value;
      && after == db.(envelopes := after.envelopes)
      && Kept(db.envelopes, after.envelopes) && ScopesOk(after.envelopes)
      && e.id in after.envelopes && after.envelopes[e.id] == e
  {
  }

  /** The rows a successful delegation leaves, in terms of the state before it. */
  ghost predicate Delegated(ids: Ids, policy: Policy, db: Db, parentId: string, req: Request) {
    var c := ids.child(parentId, req.delegation);
    && (forall d :: d in req.dimensions ==> d in DIMENSIONS)
    && parentId in db.runs && db.runs[parentId].contractId in db.contracts && db.runs[parentId].envelope in db.envelopes
    && req.target in db.objects && db.objects[req.target].kind == "Vulnerability"
    && Upper(db.objects[req.target].key) == Upper("cve:" + req.cve)
    && var contract := ChildContract(ids, db.contracts[db.runs[parentId].contractId], req);
       var parentEnvelope := db.envelopes[db.runs[parentId].envelope];
       && policy.capability <= parentEnvelope.capability && policy.identity <= parentEnvelope.identity
       && c in db.runs && IsChild(db.runs[c]) && db.runs[c].parent == Some(parentId) && db.runs[c].contractId == contract.id
       && contract.id in db.contracts && db.contracts[contract.id] == contract
       && ids.budget(c) in db.accounts
       && SameAccount(db.accounts[ids.budget(c)], NewAccount(policy.budget, c, Some(parentEnvelope.budget)))
       && ids.execution(c) in db.envelopes
       && db.envelopes[ids.execution(c)] == ChildEnvelope(ids, parentEnvelope, policy, contract, c, req.delegation)
  }

  /** The world snapshot the child was created with. */
  function Pinned(ids: Ids, db: Db, c: string): Manifest
    requires (ids.context(c), 1) in db.contexts
  {
    db.contexts[(ids.context(c), 1)]
  }

  /** The fields of a child's context that the request and the child id determine. */
  predicate ChildShape(ids: Ids, m: Manifest, c: string, contractId: string, target: string) {
    && m.contextId == ids.context(c) && m.contractId == contractId && m.role == ENRICHMENT_ROLE
    && m.caseRef == None && m.investigation == None && m.objectRefs == [target]
    && m.capabilityRef == ids.capability(c) && m.budgetRef == ids.budget(c)
  }

  lemma ChildRunStep(db: Db, parentId: string, c: string, contract: Contract, context: Manifest, envelope: string)
    requires parentId in db.runs && db.runs[parentId].contractId in db.contracts && c !in db.runs
    requires CreateChildRun(db, parentId, c, contract, context, envelope).Some?
    ensures var key := (context.contextId, context.revision);
      && CreateChildRun(db, parentId, c, contract, context, envelope).value
         == db.(contracts := db.contracts[contract.id := contract], contexts := db.contexts[key := context],
                runs := db.runs[c := Run(Some(parentId), contract.id, ENRICHMENT_ROLE, envelope,
                                         db.runs[parentId].depth + 1, Submitted, key)])
      && Kept(db.contracts, db.contracts[contract.id := contract]) && Kept(db.contexts, db.contexts[key := context])
  {
  }

  /** The transactions a first delegation is made of. */
  lemma FirstDelegationParts(ids: Ids, policy: Policy, db: Db, parentId: string, req: Request)
    returns (made: Db, funded: Db, enveloped: Db)
    requires ids.child(parentId, req.delegation) !in db.runs
    requires Delegate(ids, policy, db, parentId, req).Some?
    ensures Gates(policy, db, parentId, req)
    ensures var c := ids.child(parentId, req.delegation);
      var contract := ChildContract(ids, db.contracts[db.runs[parentId].contractId], req);
      var context := ChildContext(ids, ContextOf(db, parentId), contract, c, req.target);
      var parentEnvelope := EnvelopeOf(db, parentId);
      && CreateChildRun(db, parentId, c, contract, context, ids.execution(c)) == Some(made)
      && CreateAccount(made, ids.budget(c), c, Some(parentEnvelope.budget), policy.budget) == Some(funded)
      && CreateEnvelope(funded, ChildEnvelope(ids, parentEnvelope, policy, contract, c, req.delegation)) == Some(enveloped)
      && c in enveloped.runs && Delegate(ids, policy, db, parentId, req).value == QueueChild(enveloped, c)
  {
    var c := ids.child(parentId, req.delegation);
    var contract := ChildContract(ids, db.contracts[db.runs[parentId].contractId], req);
    var context := ChildContext(ids, ContextOf(db, parentId), contract, c, req.target);
    made := CreateChildRun(db, parentId, c, contract, context, ids.execution(c)).value;
    funded := CreateAccount(made, ids.budget(c), c, Some(EnvelopeOf(db, parentId).budget), policy.budget).value;
    enveloped := CreateEnvelope(funded, ChildEnvelope(ids, EnvelopeOf(db, parentId), policy, contract, c, req.delegation)).value;
  }

  /** The run, contract and context rows a first delegation writes, and the queue. */
  lemma FirstDelegationRows(ids: Ids, policy: Policy, db: Db, parentId: string, req: Request)
    requires ids.child(parentId, req.delegation) !in db.runs && Delegate(ids, policy, db, parentId, req).Some?
    ensures Gates(policy, db, parentId, req)
    ensures var c := ids.child(parentId, req.delegation);
      var contract := ChildContract(ids, db.contracts[db.runs[parentId].contractId], req);
      var context := ChildContext(ids, ContextOf(db, parentId), contract, c, req.target);
      var after := Delegate(ids, policy, db, parentId, req).value;
      && after.objects == db.objects && after.queued == db.queued + [c]
      && after.runs == db.runs[c := Run(Some(parentId), contract.id, ENRICHMENT_ROLE, ids.execution(c),
                                        db.runs[parentId].depth + 1, Queued, (ids.context(c), 1))]
      && Kept(db.contracts, after.contracts) && after.contracts == db.contracts[contract.id := contract]
      && Kept(db.contexts, after.contexts) && after.contexts == db.contexts[(ids.context(c), 1) := context]
  {
    var c := ids.child(parentId, req.delegation);
    var contract := ChildContract(ids, db.contracts[db.runs[parentId].contractId], req);
    var context := ChildContext(ids, ContextOf(db, parentId), contract, c, req.target);
    var parentEnvelope := EnvelopeOf(db, parentId);
    var made, funded, enveloped := FirstDelegationParts(ids, policy, db, parentId, req);
    ChildRunStep(db, parentId, c, contract, context, ids.execution(c));
    AccountStep(made, ids.budget(c), c, Some(parentEnvelope.budget), policy.budget);
  }

  /** The account and envelope rows a first delegation writes. */
  lemma FirstDelegationGrants(ids: Ids, policy: Policy, db: Db, parentId: string, req: Request)
    requires ids.child(parentId, req.delegation) !in db.runs && Delegate(ids, policy, db, parentId, req).Some?
    requires ScopesOk(db.envelopes)
    ensures Gates(policy, db, parentId, req)
    ensures var c := ids.child(parentId, req.delegation);
      var contract := ChildContract(ids, db.contracts[db.runs[parentId].contractId], req);
      var parentEnvelope, after := EnvelopeOf(db, parentId), Delegate(ids, policy, db, parentId, req).value;
      && AccountsKept(db.accounts, after.accounts) && ids.budget(c) in after.accounts
      && SameAccount(after.accounts[ids.budget(c)], NewAccount(policy.budget, c, Some(parentEnvelope.budget)))
      && Kept(db.envelopes, after.envelopes) && ScopesOk(after.envelopes) && ids.execution(c) in after.envelopes
      && after.envelopes[ids.execution(c)] == ChildEnvelope(ids, parentEnvelope, policy, contract, c, req.delegation)
  {
    var c := ids.child(parentId, req.delegation);
    var contract := ChildContract(ids, db.contracts[db.runs[parentId].contractId], req);
    var parentEnvelope := EnvelopeOf(db, parentId);
    var made, funded, enveloped := FirstDelegationParts(ids, policy, db, parentId, req);
    AccountStep(made, ids.budget(c), c, Some(parentEnvelope.budget), policy.budget);
    EnvelopeStep(funded, ChildEnvelope(ids, parentEnvelope, policy, contract, c, req.delegation));
  }

  lemma ChildrenAdded(ids: Ids, a: Db, b: Db, c: string, run: Run)
    requires ChildrenOk(ids, a) && c !in a.runs && b.runs == a.runs[c := run] && b.queued == a.queued + [c]
    requires IsChild(run) && ChildComplete(ids, b, c)
    requires a.contracts.Keys <= b.contracts.Keys && a.contexts.Keys <= b.contexts.Keys
    requires a.envelopes.Keys <= b.envelopes.Keys && a.accounts.Keys <= b.accounts.Keys
    ensures ChildrenOk(ids, b)
  {
    forall k | k in b.runs && IsChild(b.runs[k]) ensures ChildComplete(ids, b, k) {
      if k != c { assert ChildComplete(ids, a, k); }
    }
    assert multiset(b.queued) == multiset(a.queued) + multiset{c};
  }

  lemma FirstDelegationExtends(ids: Ids, policy: Policy, db: Db, parentId: string, req: Request)
    requires ScopesOk(db.envelopes)
    requires ids.child(parentId, req.delegation) !in db.runs && Delegate(ids, policy, db, parentId, req).Some?
    ensures Extends(db, Delegate(ids, policy, db, parentId, req).value)
  {
    FirstDelegationRows(ids, policy, db, parentId, req);
    FirstDelegationGrants(ids, policy, db, parentId, req);
  }

  lemma FirstDelegationStands(ids: Ids, policy: Policy, db: Db, parentId: string, req: Request)
    requires ScopesOk(db.envelopes)
    requires ids.child(parentId, req.delegation) !in db.runs && Delegate(ids, policy, db, parentId, req).Some?
    ensures var after := Delegate(ids, policy, db, parentId, req).value;
      var c := ids.child(parentId, req.delegation);
      && Delegated(ids, policy, after, parentId, req) && (ids.context(c), 1) in after.contexts
      && ChildShape(ids, Pinned(ids, after, c), c, after.runs[c].contractId, req.target)
  {
    var after := Delegate(ids, policy, db, parentId, req).value;
    FirstDelegationRows(ids, policy, db, parentId, req);
    FirstDelegationGrants(ids, policy, db, parentId, req);
    assert after.runs[parentId] == db.runs[parentId] && after.envelopes[db.runs[parentId].envelope] == EnvelopeOf(db, parentId);
  }

  lemma FirstDelegationSafe(ids: Ids, policy: Policy, db: Db, parentId: string, req: Request)
    requires Inv(ids, db) && ids.child(parentId, req.delegation) !in db.runs
    requires Delegate(ids, policy, db, parentId, req).Some?
    ensures Inv(ids, Delegate(ids, policy, db, parentId, req).value)
  {
    var c := ids.child(parentId, req.delegation);
    var after := Delegate(ids, policy, db, parentId, req).value;
    FirstDelegationRows(ids, policy, db, parentId, req);
    FirstDelegationGrants(ids, policy, db, parentId, req);
    ChildrenAdded(ids, db, after, c, after.runs[c]);
  }

  /** The first delegation: a new child with everything it needs. */
  lemma FirstDelegation(ids: Ids, policy: Policy, db: Db, parentId: string, req: Request)
    requires Inv(ids, db) && ids.child(parentId, req.delegation) !in db.runs
    requires Delegate(ids, policy, db, parentId, req).Some?
    ensures var after := Delegate(ids, policy, db, parentId, req).value;
      var c := ids.child(parentId, req.delegation);
      && Loaded(db, parentId) && ChildRows(ids, policy, db, after, parentId, req)
      && Extends(db, after) && Inv(ids, after) && Delegated(ids, policy, after, parentId, req)
      && ChildShape(ids, Pinned(ids, after, c), c, after.runs[c].contractId, req.target)
  {
    FirstWrites(ids, policy, db, parentId, req);
    FirstDelegationExtends(ids, policy, db, parentId, req);
    FirstDelegationSafe(ids, policy, db, parentId, req);
    FirstDelegationStands(ids, policy, db, parentId, req);
  }

  /** A replay that returns has changed nothing at all. */
  lemma ReplayChangesNothing(ids: Ids, policy: Policy, db: Db, parentId: string, req: Request)
    requires Inv(ids, db) && ids.child(parentId, req.delegation) in db.runs
    requires Delegate(ids, policy, db, parentId, req).Some?
    ensures Delegate(ids, policy, db, parentId, req).value == db
    ensures Delegated(ids, policy, db, parentId, req)
  {
    var c := ids.child(parentId, req.delegation);
    assert ChildComplete(ids, db, c);
  }

  lemma AdmitStep(ids: Ids, db: Db, policyRevision: string, verdict: Verdict, obligations: set<string>,
                  fulfilled: set<string>, w: Wake)
    requires Inv(ids, db) && Admit(ids, db, policyRevision, verdict, obligations, fulfilled, w).Allowed?
    ensures var after := Admit(ids, db, policyRevision, verdict, obligations, fulfilled, w).after;
      Extends(db, after) && Inv(ids, after)
    ensures verdict.Permit? && obligations <= fulfilled && policyRevision == w.contract.policyRevision
    ensures w.previousBudget in db.accounts && w.templateEnvelope in db.envelopes
      && WokenRows(ids, db, Admit(ids, db, policyRevision, verdict, obligations, fulfilled, w).after, w)
  {
    var template := db.envelopes[w.templateEnvelope];
    var limits := db.accounts[w.previousBudget].limits;
    var e := Envelope(ids.execution(w.runId), None, Some(w.templateEnvelope), w.contract.id, w.runId, template.capability,
                      template.identity, w.deadline, ids.budget(w.runId), w.contract.policyRevision, w.trigger);
    var funded := CreateAccount(db, ids.budget(w.runId), w.runId, None, limits).value;
    var after := CreateEnvelope(funded, e).value;
    AccountStep(db, ids.budget(w.runId), w.runId, None, limits);
    EnvelopeStep(funded, e);
    AdmitExact(ids, db, policyRevision, verdict, obligations, fulfilled, w);
    forall k | k in after.runs && IsChild(after.runs[k]) ensures ChildComplete(ids, after, k) {
      assert ChildComplete(ids, db, k);
    }
  }

  // ---------------------------------------------------------------- every event

  lemma DelegateSafe(ids: Ids, policy: Policy, db: Db, parentId: string, req: Request)
    requires Inv(ids, db) && Delegate(ids, policy, db, parentId, req).Some?
    ensures var after := Delegate(ids, policy, db, parentId, req).value; Inv(ids, after) && Extends(db, after)
  {
    if ids.child(parentId, req.delegation) in db.runs {
      ReplayChangesNothing(ids, policy, db, parentId, req);
    } else {
      FirstDelegation(ids, policy, db, parentId, req);
    }
  }

  lemma AdvanceSafe(ids: Ids, db: Db, runId: string, m: Manifest)
    requires Inv(ids, db) && UpdateContext(db, runId, m).Some?
    ensures var after := UpdateContext(db, runId, m).value; Inv(ids, after) && Extends(db, after)
  {
    var after := UpdateContext(db, runId, m).value;
    assert Extends(db, after);
    assert ChildrenOk(ids, after) by { AdvanceKeepsChildren(ids, db, runId, m, after); }
  }

  lemma AdvanceKeepsChildren(ids: Ids, db: Db, runId: string, m: Manifest, after: Db)
    requires ChildrenOk(ids, db) && UpdateContext(db, runId, m) == Some(after)
    ensures ChildrenOk(ids, after)
  {
    forall k | k in after.runs && IsChild(after.runs[k]) ensures ChildComplete(ids, after, k) {
      assert ChildComplete(ids, db, k);
    }
  }

  lemma MoveSafe(ids: Ids, db: Db, runId: string, status: Status)
    requires Inv(ids, db) && Transition(db, runId, status).Some?
    ensures var after := Transition(db, runId, status).value; Inv(ids, after) && Extends(db, after)
  {
    var after := Transition(db, runId, status).value;
    assert RunsKept(db.runs, after.runs) by { assert after.runs == db.runs[runId := db.runs[runId].(status := status)]; }
    assert AccountsKept(db.accounts, after.accounts);
    assert Extends(db, after);
    assert ChildrenOk(ids, after) by { MoveKeepsChildren(ids, db, runId, status, after); }
  }

  lemma MoveKeepsChildren(ids: Ids, db: Db, runId: string, status: Status, after: Db)
    requires ChildrenOk(ids, db) && Transition(db, runId, status) == Some(after)
    ensures ChildrenOk(ids, after)
  {
    forall k | k in after.runs && IsChild(after.runs[k]) ensures ChildComplete(ids, after, k) {
      assert ChildComplete(ids, db, k);
    }
  }

  /** Children stay complete while their rows stay and no run changes. */
  lemma ChildrenFramed(ids: Ids, a: Db, b: Db)
    requires ChildrenOk(ids, a) && b.runs == a.runs && b.queued == a.queued
    requires a.contracts.Keys <= b.contracts.Keys && a.contexts.Keys <= b.contexts.Keys
    requires a.envelopes.Keys <= b.envelopes.Keys && a.accounts.Keys <= b.accounts.Keys
    ensures ChildrenOk(ids, b)
  {
    forall c | c in b.runs && IsChild(b.runs[c]) ensures ChildComplete(ids, b, c) { assert ChildComplete(ids, a, c); }
  }

  lemma RunsUnchanged(a: Db, b: Db)
    requires b.runs == a.runs
    ensures RunsKept(a.runs, b.runs)
  {
  }

  /** A change of accounts that loses none keeps the invariant. */
  lemma AccountsSafe(ids: Ids, db: Db, accounts: Accounts)
    requires Inv(ids, db) && AccountsKept(db.accounts, accounts)
    ensures var after := db.(accounts := accounts); Inv(ids, after) && Extends(db, after)
  {
    var after := db.(accounts := accounts);
    RunsUnchanged(db, after);
    ChildrenFramed(ids, db, after);
  }

  /** A budget operation touches nothing but accounts. */
  lemma OperateOnly(ids: Ids, db: Db, e: Event)
    requires IsBudget(e)
    ensures Apply(ids, db, e)
      == db.(accounts := if Operate(db.accounts, e).Some? then Operate(db.accounts, e).value else db.accounts)
  {
  }

  /** It loses no account, whatever the state of the ledger. */
  lemma OperateKeepsRows(accounts: Accounts, e: Event)
    requires IsBudget(e) && Operate(accounts, e).Some?
    ensures AccountsKept(accounts, Operate(accounts, e).value)
  {
    match e
    case Reserves(a, g, q) => ReserveKeepsRows(accounts, a, g, q, None);
    case Commits(a, g, c, o) => CommitKeepsRows(accounts, a, g, c, o);
    case Releases(a, g) => ReleaseKeepsRows(accounts, a, g);
    case Closes(a) => CloseKeepsRows(accounts, a);
  }

  lemma ElsewhereSafe(ids: Ids, db: Db, after: Db)
    requires Inv(ids, db) && Unrelated(db, after)
    ensures Inv(ids, after) && Extends(db, after)
  {
    assert RunsKept(db.runs, after.runs) && AccountsKept(db.accounts, after.accounts);
    forall c | c in after.runs && IsChild(after.runs[c]) ensures ChildComplete(ids, after, c) {
      assert c in db.runs && ChildComplete(ids, db, c);
    }
    forall k | k in after.envelopes
      ensures after.envelopes[k].id == k
        && WithinOrigin(after.envelopes, after.envelopes[k], after.envelopes[k].parent)
        && WithinOrigin(after.envelopes, after.envelopes[k], after.envelopes[k].wokenFrom)
    {
      if k !in db.envelopes { assert RootEnvelope(k, after.envelopes[k]); }
    }
  }

  /** Each transaction only adds rows and keeps the invariant. */
  lemma ApplySafe(ids: Ids, db: Db, e: Event)
    requires Inv(ids, db)
    ensures Inv(ids, Apply(ids, db, e)) && Extends(db, Apply(ids, db, e))
  {
    if Apply(ids, db, e) != db {
      match e
      case Delegates(policy, parentId, req) => DelegateSafe(ids, policy, db, parentId, req);
      case Advances(runId, m) => AdvanceSafe(ids, db, runId, m);
      case Moves(runId, status) => MoveSafe(ids, db, runId, status);
      case Wakes(revision, verdict, obligations, fulfilled, wake) =>
        AdmitStep(ids, db, revision, verdict, obligations, fulfilled, wake);
      case Elsewhere(after) => ElsewhereSafe(ids, db, after);
      case _ =>
        OperateOnly(ids, db, e);
        OperateKeepsRows(db.accounts, e);
        AccountsSafe(ids, db, Operate(db.accounts, e).value);
    }
  }

  lemma {:induction false} ApplyAllSafe(ids: Ids, db: Db, events: seq<Event>)
    requires Inv(ids, db)
    ensures Inv(ids, ApplyAll(ids, db, events)) && Extends(db, ApplyAll(ids, db, events))
    decreases |events|
  {
    if events != [] {
      var front := events[..|events| - 1];
      ApplyAllSafe(ids, db, front);
      ApplySafe(ids, ApplyAll(ids, db, front), events[|events| - 1]);
      ExtendsTransitive(db, ApplyAll(ids, db, front), ApplyAll(ids, db, events));
    }
  }

  /** What a delegation wrote stays written. */
  lemma DelegatedStays(ids: Ids, policy: Policy, a: Db, b: Db, parentId: string, req: Request)
    requires Extends(a, b) && Delegated(ids, policy, a, parentId, req)
    ensures Delegated(ids, policy, b, parentId, req)
  {
    var c := ids.child(parentId, req.delegation);
    assert SameRun(a.runs[c], b.runs[c]) && SameRun(a.runs[parentId], b.runs[parentId]);
    assert SameAccount(a.accounts[ids.budget(c)], b.accounts[ids.budget(c)]);
  }

  /** The child, its contract, pinned context, envelope and account, field by field, in terms of what its parent
      had when it delegated. */
  ghost predicate ChildStands(ids: Ids, policy: Policy, before: Db, later: Db, parentId: string, req: Request)
    requires Loaded(before, parentId)
  {
    var c := ids.child(parentId, req.delegation);
    var parent, envelope := before.contracts[before.runs[parentId].contractId], EnvelopeOf(before, parentId);
    var contractId := ids.contract(parent.id, req.delegation);
    && c in later.runs && later.runs[c].parent == Some(parentId) && later.runs[c].contractId == contractId
    && later.runs[c].envelope == ids.execution(c)
    && contractId in later.contracts && IsChildContract(later.contracts[contractId], ids, parent, req)
    && (ids.context(c), 1) in later.contexts
    && IsChildContext(later.contexts[(ids.context(c), 1)], ids, ContextOf(before, parentId), contractId, c, req.target)
    && ids.execution(c) in later.envelopes
    && IsChildEnvelope(later.envelopes[ids.execution(c)], ids, envelope, policy, contractId, c, req.delegation)
    && ids.budget(c) in later.accounts && IsChildAccount(later.accounts[ids.budget(c)], policy, envelope, c)
  }

  lemma RowsStand(ids: Ids, policy: Policy, before: Db, first: Db, later: Db, parentId: string, req: Request)
    requires Loaded(before, parentId) && ChildRows(ids, policy, before, first, parentId, req) && Extends(first, later)
    ensures ChildStands(ids, policy, before, later, parentId, req)
  {
    var c := ids.child(parentId, req.delegation);
    assert SameRun(first.runs[c], later.runs[c]) && SameAccount(first.accounts[ids.budget(c)], later.accounts[ids.budget(c)]);
  }

  /** From the first delegation on, whatever happens: one child with its first contract, pinned context, budget
      and envelope, queued exactly once. */
  lemma OneChildForever(ids: Ids, policy: Policy, db: Db, parentId: string, req: Request, events: seq<Event>)
    requires Inv(ids, db) && ids.child(parentId, req.delegation) !in db.runs
    requires Delegate(ids, policy, db, parentId, req).Some?
    ensures var later := ApplyAll(ids, Delegate(ids, policy, db, parentId, req).value, events);
      && Inv(ids, later) && Delegated(ids, policy, later, parentId, req)
      && Loaded(db, parentId) && ChildStands(ids, policy, db, later, parentId, req)
      && multiset(later.queued)[ids.child(parentId, req.delegation)] == 1
  {
    FirstDelegation(ids, policy, db, parentId, req);
    var first := Delegate(ids, policy, db, parentId, req).value;
    ApplyAllSafe(ids, first, events);
    DelegatedStays(ids, policy, first, ApplyAll(ids, first, events), parentId, req);
    RowsStand(ids, policy, db, first, ApplyAll(ids, first, events), parentId, req);
  }

  /** A run that has ended keeps its status and context, whatever follows. */
  lemma {:induction false} EndedForever(ids: Ids, db: Db, events: seq<Event>, r: string)
    requires Inv(ids, db) && r in db.runs && db.runs[r].status.Terminal()
    ensures var later := ApplyAll(ids, db, events); r in later.runs && later.runs[r] == db.runs[r]
    decreases |events|
  {
    if events != [] {
      var front := events[..|events| - 1];
      EndedForever(ids, db, front, r);
      ApplyAllSafe(ids, db, front);
      EndedStays(ids, ApplyAll(ids, db, front), events[|events| - 1], r);
    }
  }

  /** A delegation leaves every stored run as it is. */
  lemma DelegateKeepsOthers(ids: Ids, policy: Policy, db: Db, parentId: string, req: Request, r: string)
    requires Inv(ids, db) && r in db.runs
    ensures var after := OrElse(Delegate(ids, policy, db, parentId, req), db); r in after.runs && after.runs[r] == db.runs[r]
  {
    if Delegate(ids, policy, db, parentId, req).Some? {
      if ids.child(parentId, req.delegation) in db.runs {
        ReplayChangesNothing(ids, policy, db, parentId, req);
      } else {
        FirstWrites(ids, policy, db, parentId, req);
      }
    }
  }

  lemma EndedStays(ids: Ids, db: Db, e: Event, r: string)
    requires Inv(ids, db) && r in db.runs && db.runs[r].status.Terminal()
    ensures var after := Apply(ids, db, e); r in after.runs && after.runs[r] == db.runs[r]
  {
    match e
    case Delegates(policy, p, req) => DelegateKeepsOthers(ids, policy, db, p, req, r);
    case Advances(runId, m) =>
    case Moves(runId, status) =>
    case Wakes(revision, verdict, obligations, fulfilled, wake) =>
      AdmitKeepsRuns(ids, db, revision, verdict, obligations, fulfilled, wake);
    case Elsewhere(after) =>
    case _ => OperateOnly(ids, db, e);
  }

  // ---------------------------------------------------------------- retries

  /** What a caller can read before retrying: the parent's context still has the target, and the child's
      still has its own fields and names the parent's current context and policy. */
  predicate ReplayPossible(ids: Ids, db: Db, parentId: string, req: Request) {
    var c := ids.child(parentId, req.delegation);
    && Loaded(db, parentId) && Loaded(db, c)
    && req.target in ContextOf(db, parentId).objectRefs
    && ChildShape(ids, ContextOf(db, c), c, db.runs[c].contractId, req.target)
    && ContextOf(db, c).parentContext == Some(ContextOf(db, parentId).contextId)
    && ContextOf(db, c).policyRef == ContextOf(db, parentId).policyRef
  }

  /** A retry of the same request returns exactly when the contexts still allow it, and then changes nothing. */
  lemma RetryExact(ids: Ids, policy: Policy, db: Db, parentId: string, req: Request)
    requires Inv(ids, db) && Delegated(ids, policy, db, parentId, req)
    ensures Delegate(ids, policy, db, parentId, req).Some? <==> ReplayPossible(ids, db, parentId, req)
    ensures Delegate(ids, policy, db, parentId, req).Some? ==> Delegate(ids, policy, db, parentId, req).value == db
  {
    var c := ids.child(parentId, req.delegation);
    assert ChildComplete(ids, db, c);
    if Delegate(ids, policy, db, parentId, req).Some? {
      ReplayChangesNothing(ids, policy, db, parentId, req);
    }
    if ReplayPossible(ids, db, parentId, req) {
      var contract := ChildContract(ids, db.contracts[db.runs[parentId].contractId], req);
      var context := ChildContext(ids, ContextOf(db, parentId), contract, c, req.target);
      assert Gates(policy, db, parentId, req);
      assert ReplayAgrees(ids, db, parentId, c, contract, context);
      assert CreateAccount(db, ids.budget(c), c, Some(EnvelopeOf(db, parentId).budget), policy.budget) == Some(db);
      assert CreateEnvelope(db, ChildEnvelope(ids, EnvelopeOf(db, parentId), policy, contract, c, req.delegation)) == Some(db);
    }
  }

  /** A retry that asks for anything else raises, so the transaction leaves the store unchanged. */
  lemma ConflictingRetryRaises(ids: Ids, policy: Policy, other: Policy, db: Db, parentId: string, req: Request,
                               retry: Request)
    requires Inv(ids, db) && Delegated(ids, policy, db, parentId, req) && retry.delegation == req.delegation
    requires || Upper(retry.cve) != Upper(req.cve) || retry.target != req.target
             || SortedDimensions(retry.dimensions) != SortedDimensions(req.dimensions)
             || other.budget != policy.budget || other.capability != policy.capability || other.identity != policy.identity
    ensures Delegate(ids, other, db, parentId, retry).None?
    ensures Apply(ids, db, Delegates(other, parentId, retry)) == db
  {
    if Delegate(ids, other, db, parentId, retry).Some? {
      ReplayChangesNothing(ids, other, db, parentId, retry);
    }
  }

  /** `refresh_context`: the same context at a later revision, its references only growing. */
  predicate IsRefresh(current: Manifest, m: Manifest) {
    && m.revision > current.revision && (forall o :: o in current.objectRefs ==> o in m.objectRefs)
    && m == current.(revision := m.revision, knowledge := m.knowledge, investigation := m.investigation, objectRefs := m.objectRefs)
  }

  /** The event leaves the parent's context a refresh of itself, and the child's as well, with no object or
      investigation state added there. */
  ghost predicate WorldOnly(ids: Ids, db: Db, parentId: string, c: string, e: Event) {
    && (e.Advances? && e.runId == parentId && Loaded(db, parentId) ==> IsRefresh(ContextOf(db, parentId), e.manifest))
    && (e.Advances? && e.runId == c && Loaded(db, c) ==>
          IsRefresh(ContextOf(db, c), e.manifest) && StableFieldsAgree(e.manifest, ContextOf(db, c)))
  }

  ghost predicate AllWorldOnly(ids: Ids, db: Db, parentId: string, c: string, events: seq<Event>) {
    events == [] ||
    (AllWorldOnly(ids, db, parentId, c, events[..|events| - 1])
     && WorldOnly(ids, ApplyAll(ids, db, events[..|events| - 1]), parentId, c, events[|events| - 1]))
  }

  /** A transaction that leaves both current contexts in place leaves the retry possible. */
  lemma SameContextsKeepReplay(ids: Ids, db: Db, after: Db, parentId: string, req: Request)
    requires Extends(db, after) && ReplayPossible(ids, db, parentId, req)
    requires parentId in after.runs && after.runs[parentId].context == db.runs[parentId].context
    requires var c := ids.child(parentId, req.delegation); c in after.runs && after.runs[c].context == db.runs[c].context
    ensures ReplayPossible(ids, after, parentId, req)
  {
    var c := ids.child(parentId, req.delegation);
    assert SameRun(db.runs[c], after.runs[c]) && SameRun(db.runs[parentId], after.runs[parentId]);
    assert ContextOf(after, parentId) == ContextOf(db, parentId) && ContextOf(after, c) == ContextOf(db, c);
  }

  /** Only context updates move a run's context, and only that run's. */
  lemma OthersKeepContexts(ids: Ids, db: Db, e: Event, r: string)
    requires Inv(ids, db) && r in db.runs && !(e.Advances? && e.runId == r)
    ensures r in Apply(ids, db, e).runs && Apply(ids, db, e).runs[r].context == db.runs[r].context
  {
    match e
    case Delegates(policy, p, req) => DelegateKeepsOthers(ids, policy, db, p, req, r);
    case Advances(runId, m) =>
    case Moves(runId, status) =>
    case Wakes(revision, verdict, obligations, fulfilled, wake) =>
      AdmitKeepsRuns(ids, db, revision, verdict, obligations, fulfilled, wake);
    case Elsewhere(after) =>
    case _ => OperateOnly(ids, db, e);
  }

  lemma WorldOnlyKeepsReplay(ids: Ids, db: Db, parentId: string, req: Request, e: Event)
    requires Inv(ids, db) && ReplayPossible(ids, db, parentId, req)
    requires WorldOnly(ids, db, parentId, ids.child(parentId, req.delegation), e)
    ensures ReplayPossible(ids, Apply(ids, db, e), parentId, req)
  {
    var c := ids.child(parentId, req.delegation);
    var after := Apply(ids, db, e);
    ApplySafe(ids, db, e);
    if e.Advances? && after != db && (e.runId == parentId || e.runId == c) {
      assert after.runs[e.runId].context == (e.manifest.contextId, e.manifest.revision);
      assert SameRun(db.runs[c], after.runs[c]) && SameRun(db.runs[parentId], after.runs[parentId]);
      assert ContextOf(after, e.runId) == e.manifest;
      var other := if e.runId == c then parentId else c;
      if other != e.runId {
        OthersKeepContexts(ids, db, e, other);
        assert ContextOf(after, other) == ContextOf(db, other);
      }
    } else {
      if after != db {
        OthersKeepContexts(ids, db, e, parentId);
        OthersKeepContexts(ids, db, e, c);
      }
      SameContextsKeepReplay(ids, db, after, parentId, req);
    }
  }

  lemma AdmitKeepsRuns(ids: Ids, db: Db, policyRevision: string, verdict: Verdict, obligations: set<string>,
                       fulfilled: set<string>, w: Wake)
    requires Inv(ids, db)
    ensures var a := Admit(ids, db, policyRevision, verdict, obligations, fulfilled, w); a.Allowed? ==> a.after.runs == db.runs
  {
  }

  lemma {:induction false} AllWorldOnlyKeepsReplay(ids: Ids, db: Db, parentId: string, req: Request, events: seq<Event>)
    requires Inv(ids, db) && ReplayPossible(ids, db, parentId, req)
    requires AllWorldOnly(ids, db, parentId, ids.child(parentId, req.delegation), events)
    ensures ReplayPossible(ids, ApplyAll(ids, db, events), parentId, req)
    decreases |events|
  {
    if events != [] {
      var front := events[..|events| - 1];
      AllWorldOnlyKeepsReplay(ids, db, parentId, req, front);
      ApplyAllSafe(ids, db, front);
      WorldOnlyKeepsReplay(ids, ApplyAll(ids, db, front), parentId, req, events[|events| - 1]);
    }
  }

  /** Right after the first delegation a retry is possible. */
  lemma FirstIsReplayable(ids: Ids, policy: Policy, db: Db, parentId: string, req: Request)
    requires Inv(ids, db) && ids.child(parentId, req.delegation) !in db.runs
    requires Delegate(ids, policy, db, parentId, req).Some? && parentId != ids.child(parentId, req.delegation)
    ensures ReplayPossible(ids, Delegate(ids, policy, db, parentId, req).value, parentId, req)
  {
    FirstDelegationRows(ids, policy, db, parentId, req);
    FirstDelegation(ids, policy, db, parentId, req);
  }

  /** Parent and child may move to later worlds independently: the retry still returns and changes nothing. */
  lemma RetryAfterRefreshes(ids: Ids, policy: Policy, db: Db, parentId: string, req: Request, events: seq<Event>)
    requires Inv(ids, db) && ids.child(parentId, req.delegation) !in db.runs
    requires Delegate(ids, policy, db, parentId, req).Some?
    requires parentId != ids.child(parentId, req.delegation)
    requires AllWorldOnly(ids, Delegate(ids, policy, db, parentId, req).value, parentId, ids.child(parentId, req.delegation), events)
    ensures var later := ApplyAll(ids, Delegate(ids, policy, db, parentId, req).value, events);
      Delegate(ids, policy, later, parentId, req) == Some(later)
  {
    var c := ids.child(parentId, req.delegation);
    var first := Delegate(ids, policy, db, parentId, req).value;
    FirstDelegation(ids, policy, db, parentId, req);
    FirstIsReplayable(ids, policy, db, parentId, req);
    AllWorldOnlyKeepsReplay(ids, first, parentId, req, events);
    OneChildForever(ids, policy, db, parentId, req, events);
    RetryExact(ids, policy, ApplyAll(ids, first, events), parentId, req);
  }

  /** After the parent's context forks into a new one, the retry that was possible raises. */
  lemma ForkedParentConflicts(ids: Ids, policy: Policy, db: Db, parentId: string, req: Request, m: Manifest)
    requires Inv(ids, db) && Delegated(ids, policy, db, parentId, req) && ReplayPossible(ids, db, parentId, req)
    requires parentId != ids.child(parentId, req.delegation)
    requires UpdateContext(db, parentId, m).Some? && m.contextId != ContextOf(db, parentId).contextId
    ensures Delegate(ids, policy, UpdateContext(db, parentId, m).value, parentId, req).None?
  {
    var after := UpdateContext(db, parentId, m).value;
    AdvanceSafe(ids, db, parentId, m);
    DelegatedStays(ids, policy, db, after, parentId, req);
    RetryExact(ids, policy, after, parentId, req);
  }

  /** So does a refresh that adds an object to the child's own context. */
  lemma ChildObjectRefreshConflicts(ids: Ids, policy: Policy, db: Db, parentId: string, req: Request, m: Manifest)
    requires Inv(ids, db) && Delegated(ids, policy, db, parentId, req) && ReplayPossible(ids, db, parentId, req)
    requires var c := ids.child(parentId, req.delegation);
      UpdateContext(db, c, m).Some? && IsRefresh(ContextOf(db, c), m) && m.objectRefs != ContextOf(db, c).objectRefs
    ensures Delegate(ids, policy, UpdateContext(db, ids.child(parentId, req.delegation), m).value, parentId, req).None?
  {
    var c := ids.child(parentId, req.delegation);
    var after := UpdateContext(db, c, m).value;
    AdvanceSafe(ids, db, c, m);
    DelegatedStays(ids, policy, db, after, parentId, req);
    RetryExact(ids, policy, after, parentId, req);
  }

  // ---------------------------------------------------------------- scopes

  /** Each envelope of the chain was delegated or woken from the one before. */
  ghost predicate IsChain(envelopes: map<string, Envelope>, chain: seq<string>) {
    && |chain| > 0 && (forall i :: 0 <= i < |chain| ==> chain[i] in envelopes)
    && (forall i :: 0 < i < |chain| ==>
          envelopes[chain[i]].parent == Some(chain[i - 1]) || envelopes[chain[i]].wokenFrom == Some(chain[i - 1]))
  }

  /** Along any chain of delegations and wakes, capability and identity scopes never grow. */
  lemma {:induction false} ScopesNeverGrow(envelopes: map<string, Envelope>, chain: seq<string>)
    requires ScopesOk(envelopes) && IsChain(envelopes, chain)
    ensures envelopes[chain[|chain| - 1]].capability <= envelopes[chain[0]].capability
    ensures envelopes[chain[|chain| - 1]].identity <= envelopes[chain[0]].identity
    decreases |chain|
  {
    if |chain| > 1 {
      var n := |chain| - 1;
      ScopesNeverGrow(envelopes, chain[..n]);
      assert WithinOrigin(envelopes, envelopes[chain[n]], envelopes[chain[n]].parent);
      assert WithinOrigin(envelopes, envelopes[chain[n]], envelopes[chain[n]].wokenFrom);
    }
  }

  /** The same, for the envelopes of any history. */
  lemma ScopesNeverGrowInHistory(ids: Ids, db: Db, events: seq<Event>, chain: seq<string>)
    requires Inv(ids, db) && IsChain(ApplyAll(ids, db, events).envelopes, chain)
    ensures var envelopes := ApplyAll(ids, db, events).envelopes;
      && envelopes[chain[|chain| - 1]].capability <= envelopes[chain[0]].capability
      && envelopes[chain[|chain| - 1]].identity <= envelopes[chain[0]].identity
  {
    ApplyAllSafe(ids, db, events);
    ScopesNeverGrow(ApplyAll(ids, db, events).envelopes, chain);
  }

  // ---------------------------------------------------------------- budgets

  /** What a caller can check before an event: a commit must fit into its reservation and what remains. */
  predicate Fits(db: Db, e: Event) {
    e.Commits? ==> CommitFits(db.accounts, e.account, e.group, e.consumed)
  }

  lemma DelegateBudgets(ids: Ids, policy: Policy, db: Db, parentId: string, req: Request)
    requires Inv(ids, db) && Ledger(db.accounts) && Delegate(ids, policy, db, parentId, req).Some?
    ensures var after := Delegate(ids, policy, db, parentId, req).value;
      Ledger(after.accounts) && (BudgetsOk(db.accounts) ==> BudgetsOk(after.accounts))
  {
    var c := ids.child(parentId, req.delegation);
    if c in db.runs {
      ReplayChangesNothing(ids, policy, db, parentId, req);
    } else {
      var made, funded, enveloped := FirstDelegationParts(ids, policy, db, parentId, req);
      CreateKeeps(made.accounts, ids.budget(c), c, Some(EnvelopeOf(db, parentId).budget), policy.budget);
    }
  }

  lemma WakeBudgets(ids: Ids, db: Db, policyRevision: string, verdict: Verdict, obligations: set<string>,
                    fulfilled: set<string>, w: Wake)
    requires Ledger(db.accounts) && Admit(ids, db, policyRevision, verdict, obligations, fulfilled, w).Allowed?
    ensures var after := Admit(ids, db, policyRevision, verdict, obligations, fulfilled, w).after;
      Ledger(after.accounts) && (BudgetsOk(db.accounts) ==> BudgetsOk(after.accounts))
  {
    var previous := db.accounts[w.previousBudget];
    CreateKeeps(db.accounts, ids.budget(w.runId), w.runId, None, previous.limits);
    if BudgetsOk(db.accounts) {
      forall r | r in previous.limits ensures previous.limits[r] >= 0 {
        CommittedWithinUsed(previous.groups, r);
        assert WithinLimits(previous);
      }
    }
  }

  lemma ElsewhereBudgets(db: Db, after: Db)
    requires Ledger(db.accounts) && Unrelated(db, after)
    ensures Ledger(after.accounts) && (BudgetsOk(db.accounts) ==> BudgetsOk(after.accounts))
  {
    forall k | k in after.accounts ensures Sane(after.accounts[k].groups) && Allocated(after.accounts, k) {
      if k in db.accounts {
        assert Allocated(db.accounts, k);
      } else {
        assert RootAccount(after.accounts[k]);
      }
    }
    forall k | k in after.accounts && BudgetsOk(db.accounts) ensures WithinLimits(after.accounts[k]) {
      if k in db.accounts {
        assert WithinLimits(db.accounts[k]);
      } else {
        assert RootAccount(after.accounts[k]) && forall r :: Used([], r) == 0;
      }
    }
  }

  /** The event is not a commit that raises. */
  predicate Applied(ids: Ids, db: Db, e: Event) {
    e.Commits? ==> Commit(db.accounts, e.account, e.group, e.consumed, e.overrun).Some?
  }

  /** A budget operation keeps the ledger sound, and the limits exactly when it is no commit or fits. */
  lemma OperateExact(accounts: Accounts, e: Event)
    requires Ledger(accounts) && IsBudget(e) && Operate(accounts, e).Some?
    ensures Ledger(Operate(accounts, e).value)
    ensures BudgetsOk(accounts) ==>
      (BudgetsOk(Operate(accounts, e).value) <==> (e.Commits? ==> CommitFits(accounts, e.account, e.group, e.consumed)))
  {
    match e
    case Reserves(a, g, q) => ReserveKeeps(accounts, a, g, q, None);
    case Commits(a, g, c, o) => CommitExact(accounts, a, g, c, o);
    case Releases(a, g) => ReleaseKeeps(accounts, a, g);
    case Closes(a) => CloseKeeps(accounts, a);
  }

  /** An event keeps the ledger sound, and keeps all budgets within their limits exactly when it fits. */
  lemma ApplyBudgetsExact(ids: Ids, db: Db, e: Event)
    requires Inv(ids, db) && Ledger(db.accounts)
    ensures Ledger(Apply(ids, db, e).accounts)
    ensures BudgetsOk(db.accounts) ==> (BudgetsOk(Apply(ids, db, e).accounts) <==> Applied(ids, db, e) ==> Fits(db, e))
  {
    if IsBudget(e) {
      OperateOnly(ids, db, e);
      if Operate(db.accounts, e).Some? { OperateExact(db.accounts, e); }
    } else if Apply(ids, db, e).accounts != db.accounts {
      match e
      case Delegates(policy, parentId, req) => DelegateBudgets(ids, policy, db, parentId, req);
      case Wakes(revision, verdict, obligations, fulfilled, w) =>
        WakeBudgets(ids, db, revision, verdict, obligations, fulfilled, w);
      case Elsewhere(after) => ElsewhereBudgets(db, after);
      case _ =>
    }
  }

  /** Event `n` of the history fits when it happens. */
  ghost predicate FitsAt(ids: Ids, db: Db, events: seq<Event>, n: nat)
    requires n < |events|
  {
    var before := ApplyAll(ids, db, events[..n]);
    Applied(ids, before, events[n]) ==> Fits(before, events[n])
  }

  ghost predicate OkAt(ids: Ids, db: Db, events: seq<Event>, n: nat)
    requires n <= |events|
  {
    BudgetsOk(ApplyAll(ids, db, events[..n]).accounts)
  }

  ghost predicate AllFit(ids: Ids, db: Db, events: seq<Event>) {
    forall n: nat :: n < |events| ==> FitsAt(ids, db, events, n)
  }

  ghost predicate AlwaysOk(ids: Ids, db: Db, events: seq<Event>) {
    forall n: nat :: n <= |events| ==> OkAt(ids, db, events, n)
  }

  lemma SamePrefixes(ids: Ids, db: Db, events: seq<Event>, m: nat, n: nat)
    requires n <= m <= |events|
    ensures OkAt(ids, db, events[..m], n) <==> OkAt(ids, db, events, n)
    ensures n < m ==> (FitsAt(ids, db, events[..m], n) <==> FitsAt(ids, db, events, n))
  {
    assert events[..m][..n] == events[..n];
  }

  /** Over any history budgets stay within their limits throughout exactly when every commit fits. */
  lemma {:induction false} HistoryBudgetsExact(ids: Ids, db: Db, events: seq<Event>)
    requires Inv(ids, db) && Ledger(db.accounts) && BudgetsOk(db.accounts)
    ensures AlwaysOk(ids, db, events) <==> AllFit(ids, db, events)
    decreases |events|
  {
    if events == [] {
      assert OkAt(ids, db, events, 0) by { assert events[..0] == []; }
    } else {
      HistoryBudgetsExact(ids, db, events[..|events| - 1]);
      AlwaysOkSplit(ids, db, events);
      AllFitSplit(ids, db, events);
      LastExact(ids, db, events);
    }
  }

  lemma AlwaysOkSplit(ids: Ids, db: Db, events: seq<Event>)
    requires events != []
    ensures AlwaysOk(ids, db, events) <==> AlwaysOk(ids, db, events[..|events| - 1]) && OkAt(ids, db, events, |events|)
    ensures AlwaysOk(ids, db, events[..|events| - 1]) ==> OkAt(ids, db, events, |events| - 1)
  {
    var m := |events| - 1;
    forall n: nat | n <= m ensures OkAt(ids, db, events[..m], n) <==> OkAt(ids, db, events, n) {
      SamePrefixes(ids, db, events, m, n);
    }
  }

  lemma AllFitSplit(ids: Ids, db: Db, events: seq<Event>)
    requires events != []
    ensures AllFit(ids, db, events) <==> AllFit(ids, db, events[..|events| - 1]) && FitsAt(ids, db, events, |events| - 1)
  {
    var m := |events| - 1;
    forall n: nat | n < m ensures FitsAt(ids, db, events[..m], n) <==> FitsAt(ids, db, events, n) {
      SamePrefixes(ids, db, events, m, n);
    }
  }

  lemma LastExact(ids: Ids, db: Db, events: seq<Event>)
    requires Inv(ids, db) && Ledger(db.accounts) && events != []
    ensures OkAt(ids, db, events, |events| - 1) ==> (OkAt(ids, db, events, |events|) <==> FitsAt(ids, db, events, |events| - 1))
  {
    var m := |events| - 1;
    ApplyAllSafe(ids, db, events[..m]);
    ApplyAllLedger(ids, db, events[..m]);
    ApplyBudgetsExact(ids, ApplyAll(ids, db, events[..m]), events[m]);
    assert events[..|events|] == events;
  }

  /** So in particular as long as no commit may overrun its reservation. */
  lemma NoOverrunsNoExcess(ids: Ids, db: Db, events: seq<Event>)
    requires Inv(ids, db) && Ledger(db.accounts) && BudgetsOk(db.accounts)
    requires forall n :: 0 <= n < |events| ==> events[n].Commits? ==> !events[n].overrun
    ensures AlwaysOk(ids, db, events)
  {
    HistoryBudgetsExact(ids, db, events);
    forall n: nat | n < |events| ensures FitsAt(ids, db, events, n) {
      var before, e := ApplyAll(ids, db, events[..n]), events[n];
      ApplyAllLedger(ids, db, events[..n]);
      if e.Commits? && Applied(ids, before, e) { OrdinaryCommitFits(before.accounts, e.account, e.group, e.consumed); }
    }
  }

  lemma {:induction false} ApplyAllLedger(ids: Ids, db: Db, events: seq<Event>)
    requires Inv(ids, db) && Ledger(db.accounts)
    ensures Ledger(ApplyAll(ids, db, events).accounts)
    decreases |events|
  {
    if events != [] {
      var front := events[..|events| - 1];
      ApplyAllLedger(ids, db, front);
      ApplyAllSafe(ids, db, front);
      ApplyBudgetsExact(ids, ApplyAll(ids, db, front), events[|events| - 1]);
    }
  }
}

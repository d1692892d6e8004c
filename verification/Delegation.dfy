/** Delegated enrichment runs: creation, replay, and the scopes handed down by delegation and WATCH wakes. */
module Delegation {
  import opened Budgets
  import opened Ordering
  import opened Texts

  // ---------------------------------------------------------------- durable rows

  datatype Status =
    | Submitted | Queued | Running | WaitingInput | WaitingDependency
    | Blocked | Completed | Failed | Cancelled | TimedOut
  {
    predicate Terminal() { Blocked? || Completed? || Failed? || Cancelled? || TimedOut? }

    predicate MayBecome(next: Status) {
      match this
      case Submitted => next.Queued? || next.Cancelled? || next.Blocked?
      case Queued => next.Running? || next.Cancelled? || next.Blocked? || next.TimedOut?
      case Running => next.WaitingInput? || next.WaitingDependency? || next.Terminal()
      case WaitingInput => next.Queued? || next.Cancelled? || next.Blocked? || next.TimedOut?
      case WaitingDependency => next.Queued? || next.Cancelled? || next.Blocked? || next.TimedOut?
      case _ => false
    }
  }

  datatype Effect = ReadOnly | InternalState | ExternalSideEffect
  {
    function Rank(): nat {
      match this
      case ReadOnly => 0
      case InternalState => 1
      case ExternalSideEffect => 2
    }
  }

  /** What a contract lets its run delegate. */
  datatype Ceiling = Ceiling(allowed: bool, maxDepth: nat, kinds: set<string>, effect: Effect)

  datatype Contract = Contract(
    id: string, principal: string, onBehalfOf: Option<string>, policyRevision: string, kind: string, effect: Effect,
    target: string, cve: string, dimensions: seq<string>, ceiling: Ceiling)

  datatype Manifest = Manifest(
    contextId: string, revision: nat, parentContext: Option<string>, contractId: string, role: string,
    caseRef: Option<string>, knowledge: Option<int>, investigation: Option<string>, objectRefs: seq<string>,
    policyRef: string, capabilityRef: string, budgetRef: string)

  datatype Run = Run(
    parent: Option<string>, contractId: string, role: string, envelope: string, depth: nat,
    status: Status, context: (string, nat))

  datatype Envelope = Envelope(
    id: string, parent: Option<string>, wokenFrom: Option<string>, contractId: string, run: string,
    capability: set<string>, identity: set<string>, deadline: int, budget: string, policyRevision: string, origin: string)

  datatype Object = Object(kind: string, key: string)

  datatype Db = Db(
    runs: map<string, Run>, contracts: map<string, Contract>, contexts: map<(string, nat), Manifest>,
    accounts: Accounts, envelopes: map<string, Envelope>, objects: map<string, Object>,
    queued: seq<string>)   // the child runs queued by a delegation, one entry per queue event

  datatype Request = Request(delegation: string, target: string, cve: string, dimensions: seq<string>)

  datatype Policy = Policy(budget: Quantities, capability: set<string>, identity: set<string>)

  const ENRICHMENT_ROLE := "EnrichmentRole@1"

  const ENRICHMENT := "enrichment"

  const DIMENSIONS := {
    "identity", "severity", "weakness", "product_package", "version_applicability", "fix_remediation",
    "exploit_state", "exploit_likelihood", "advisory_reference", "asset_exposure", "research_paper", "incident_context"}

  function UpperChar(c: char): char {
    if 'a' <= c <= 'z' then ((c as int) - 32) as char else c
  }

  function Upper(s: string): string {
    MapChars(UpperChar, s)
  }

  /** How derived identifiers are formed: `child` stands for the name-based UUID of parent run and delegation,
      the others for a fixed prefix put before a run id. Nothing below depends on their being distinct. */
  datatype Ids = Ids(
    child: (string, string) -> string, contract: (string, string) -> string,
    context: string -> string, budget: string -> string, execution: string -> string, capability: string -> string)

  // ---------------------------------------------------------------- services of the packages

  /** Contract, context and run rows of a new child; none if a check raises. */
  function CreateChildRun(db: Db, parentId: string, childId: string, contract: Contract, context: Manifest,
                          envelope: string)
    : Option<Db>
    requires parentId in db.runs && db.runs[parentId].contractId in db.contracts
  {
    var parent := db.runs[parentId];
    var ceiling := db.contracts[parent.contractId].ceiling;
    var key := (context.contextId, context.revision);
    if !parent.status.Running? || !ceiling.allowed || contract.kind !in ceiling.kinds then None
    else if contract.effect.Rank() > ceiling.effect.Rank() || parent.depth + 1 > ceiling.maxDepth then None
    else if contract.id in db.contracts && db.contracts[contract.id] != contract then None
    else if key in db.contexts && db.contexts[key] != context then None
    else
      Some(db.(contracts := db.contracts[contract.id := contract],
               contexts := db.contexts[key := context],
               runs := db.runs[childId := Run(Some(parentId), contract.id, ENRICHMENT_ROLE, envelope,
                                              parent.depth + 1, Submitted, key)]))
  }

  function CreateAccount(db: Db, id: string, run: string, parent: Option<string>, limits: Quantities): Option<Db> {
    WithAccounts(db, Create(db.accounts, id, run, parent, limits))
  }

  function WithAccounts(db: Db, accounts: Option<Accounts>): Option<Db> {
    if accounts.Some? then Some(db.(accounts := accounts.value)) else None
  }

  /** `ExecutionRunService.create`: an envelope's identity is immutable. */
  function CreateEnvelope(db: Db, e: Envelope): Option<Db> {
    if e.id in db.envelopes then (if db.envelopes[e.id] == e then Some(db) else None)
    else if e.parent.Some? && e.parent.value !in db.envelopes then None
    else Some(db.(envelopes := db.envelopes[e.id := e]))
  }

  // ---------------------------------------------------------------- delegate_enrichment

  function SortedDimensions(values: seq<string>): seq<string> {
    StringLessStrictTotal();
    SortedSet(StringLess, values)
  }

  function ChildContract(ids: Ids, parent: Contract, req: Request): Contract {
    Contract(ids.contract(parent.id, req.delegation), parent.principal, parent.onBehalfOf,
             parent.policyRevision, ENRICHMENT, InternalState, req.target, Upper(req.cve),
             SortedDimensions(req.dimensions), Ceiling(false, 0, {}, ReadOnly))
  }

  function ChildContext(ids: Ids, parent: Manifest, contract: Contract, childId: string, target: string): Manifest {
    Manifest(ids.context(childId), 1, Some(parent.contextId), contract.id, ENRICHMENT_ROLE, None, parent.knowledge, None,
             [target], parent.policyRef, ids.capability(childId), ids.budget(childId))
  }

  function ChildEnvelope(ids: Ids, parent: Envelope, policy: Policy, contract: Contract, childId: string,
                         delegation: string): Envelope {
    Envelope(ids.execution(childId), Some(parent.id), None, contract.id, childId, policy.capability, policy.identity,
             parent.deadline, ids.budget(childId), parent.policyRevision, delegation)
  }

  /** The fields a replay compares; `knowledge` and `revision` may move on. */
  predicate StableFieldsAgree(a: Manifest, b: Manifest) {
    && a.contextId == b.contextId && a.parentContext == b.parentContext && a.contractId == b.contractId && a.role == b.role
    && a.caseRef == b.caseRef && a.investigation == b.investigation && a.objectRefs == b.objectRefs
    && a.policyRef == b.policyRef && a.capabilityRef == b.capabilityRef && a.budgetRef == b.budgetRef
  }

  /** The parent's run, contract, current context and envelope are all there. */
  predicate Loaded(db: Db, runId: string) {
    && runId in db.runs && db.runs[runId].contractId in db.contracts
    && db.runs[runId].context in db.contexts && db.runs[runId].envelope in db.envelopes
  }

  function ContextOf(db: Db, runId: string): Manifest
    requires Loaded(db, runId)
  {
    db.contexts[db.runs[runId].context]
  }

  function EnvelopeOf(db: Db, runId: string): Envelope
    requires Loaded(db, runId)
  {
    db.envelopes[db.runs[runId].envelope]
  }

  /** The checks made before anything is looked up or created for the child. */
  predicate Gates(policy: Policy, db: Db, parentId: string, req: Request) {
    && (forall d :: d in req.dimensions ==> d in DIMENSIONS)
    && Loaded(db, parentId)
    && req.target in ContextOf(db, parentId).objectRefs
    && req.target in db.objects && db.objects[req.target].kind == "Vulnerability"
    && Upper(db.objects[req.target].key) == Upper("cve:" + req.cve)
    && policy.capability <= EnvelopeOf(db, parentId).capability
    && policy.identity <= EnvelopeOf(db, parentId).identity
  }

  /** The stored child belongs to this parent, contract and context. */
  predicate ReplayAgrees(ids: Ids, db: Db, parentId: string, childId: string, contract: Contract, context: Manifest) {
    && Loaded(db, childId)
    && db.runs[childId].parent == Some(parentId)
    && db.runs[childId].role == ENRICHMENT_ROLE
    && db.runs[childId].envelope == ids.execution(childId)
    && db.contracts[db.runs[childId].contractId] == contract
    && StableFieldsAgree(ContextOf(db, childId), context)
  }

  /** Queues the child the first time. */
  function QueueChild(db: Db, childId: string): Db
    requires childId in db.runs
  {
    if db.runs[childId].status.Submitted?
    then db.(runs := db.runs[childId := db.runs[childId].(status := Queued)], queued := db.queued + [childId])
    else db
  }

  /** The database after `delegate_enrichment`; none when it raises and the transaction rolls back. */
  function Delegate(ids: Ids, policy: Policy, db: Db, parentId: string, req: Request): Option<Db> {
    if !Gates(policy, db, parentId, req) then None
    else
      var childId := ids.child(parentId, req.delegation);
      var contract := ChildContract(ids, db.contracts[db.runs[parentId].contractId], req);
      var context := ChildContext(ids, ContextOf(db, parentId), contract, childId, req.target);
      var parentEnvelope := EnvelopeOf(db, parentId);
      var made :=
        if childId !in db.runs then CreateChildRun(db, parentId, childId, contract, context, ids.execution(childId))
        else if ReplayAgrees(ids, db, parentId, childId, contract, context) then Some(db)
        else None;
      if made.None? then None
      else
        var funded := CreateAccount(made.value, ids.budget(childId), childId, Some(parentEnvelope.budget), policy.budget);
        if funded.None? then None
        else
          var enveloped := CreateEnvelope(funded.value, ChildEnvelope(ids, parentEnvelope, policy, contract, childId, req.delegation));
          if enveloped.None? then None else Some(QueueChild(enveloped.value, childId))
  }

  // ---------------------------------------------------------------- what a delegation writes, field by field

  /** Letters a to z have become A to Z, and nothing else has changed. */
  ghost predicate InUpper(u: string, s: string) {
    && |u| == |s|
    && forall i :: 0 <= i < |s| ==>
         if 'a' <= s[i] <= 'z' then u[i] as int - 'A' as int == s[i] as int - 'a' as int else u[i] == s[i]
  }

  /** The contract made for a request: the parent's principal and policy revision, the request's target, CVE
      and dimensions, and nothing to delegate further. */
  ghost predicate IsChildContract(k: Contract, ids: Ids, parent: Contract, req: Request) {
    && k == Contract(id := ids.contract(parent.id, req.delegation), principal := parent.principal,
         onBehalfOf := parent.onBehalfOf, policyRevision := parent.policyRevision, kind := "enrichment",
         effect := InternalState, target := req.target, cve := k.cve, dimensions := k.dimensions,
         ceiling := Ceiling(allowed := false, maxDepth := 0, kinds := {}, effect := ReadOnly))
    && InUpper(k.cve, req.cve)
    && Increasing(StringLess, k.dimensions) && SameElements(k.dimensions, req.dimensions)
  }

  /** The child's context: the parent's world and policy, the child's own capability and budget, one object. */
  ghost predicate IsChildContext(m: Manifest, ids: Ids, parent: Manifest, contractId: string, c: string, target: string) {
    m == Manifest(contextId := ids.context(c), revision := 1, parentContext := Some(parent.contextId),
      contractId := contractId, role := "EnrichmentRole@1", caseRef := None, knowledge := parent.knowledge,
      investigation := None, objectRefs := [target], policyRef := parent.policyRef,
      capabilityRef := ids.capability(c), budgetRef := ids.budget(c))
  }

  /** The child's envelope: the policy's scopes, the child's own budget, the parent's deadline and revision. */
  ghost predicate IsChildEnvelope(e: Envelope, ids: Ids, parent: Envelope, policy: Policy, contractId: string, c: string,
                                  delegation: string) {
    e == Envelope(id := ids.execution(c), parent := Some(parent.id), wokenFrom := None, contractId := contractId,
      run := c, capability := policy.capability, identity := policy.identity, deadline := parent.deadline,
      budget := ids.budget(c), policyRevision := parent.policyRevision, origin := delegation)
  }

  /** The child's own account, which takes from the budget of the parent's envelope. */
  ghost predicate IsChildAccount(a: Account, policy: Policy, parent: Envelope, c: string) {
    a.limits == policy.budget && a.run == Some(c) && a.parent == Some(parent.budget)
  }

  /** The rows of a first delegation: one run, contract, context and envelope, and the child queued. */
  ghost predicate ChildRows(ids: Ids, policy: Policy, before: Db, after: Db, parentId: string, req: Request)
    requires Loaded(before, parentId)
  {
    var c := ids.child(parentId, req.delegation);
    var parent, envelope := before.contracts[before.runs[parentId].contractId], EnvelopeOf(before, parentId);
    var contractId, contextKey := ids.contract(parent.id, req.delegation), (ids.context(c), 1);
    && after.objects == before.objects && after.queued == before.queued + [c]
    && after.runs == before.runs[c := Run(parent := Some(parentId), contractId := contractId, role := "EnrichmentRole@1",
         envelope := ids.execution(c), depth := before.runs[parentId].depth + 1, status := Queued, context := contextKey)]
    && contractId in after.contracts && after.contracts == before.contracts[contractId := after.contracts[contractId]]
    && IsChildContract(after.contracts[contractId], ids, parent, req)
    && contextKey in after.contexts && after.contexts == before.contexts[contextKey := after.contexts[contextKey]]
    && IsChildContext(after.contexts[contextKey], ids, ContextOf(before, parentId), contractId, c, req.target)
    && ids.execution(c) in after.envelopes
    && after.envelopes == before.envelopes[ids.execution(c) := after.envelopes[ids.execution(c)]]
    && IsChildEnvelope(after.envelopes[ids.execution(c)], ids, envelope, policy, contractId, c, req.delegation)
    && Create(before.accounts, ids.budget(c), c, Some(envelope.budget), policy.budget) == Some(after.accounts)
    && ids.budget(c) in after.accounts && IsChildAccount(after.accounts[ids.budget(c)], policy, envelope, c)
  }

  lemma UpperIs(s: string)
    ensures InUpper(Upper(s), s)
  {
    forall i | 0 <= i < |s|
      ensures if 'a' <= s[i] <= 'z' then Upper(s)[i] as int - 'A' as int == s[i] as int - 'a' as int else Upper(s)[i] == s[i]
    {
      assert Upper(s)[i] == UpperChar(s[i]);
    }
  }

  lemma ChildContractIs(ids: Ids, parent: Contract, req: Request)
    ensures IsChildContract(ChildContract(ids, parent, req), ids, parent, req)
  {
    UpperIs(req.cve);
    StringLessStrictTotal();
  }

  /** A first delegation that returns has written exactly its rows. */
  lemma FirstWrites(ids: Ids, policy: Policy, db: Db, parentId: string, req: Request)
    requires ids.child(parentId, req.delegation) !in db.runs && Delegate(ids, policy, db, parentId, req).Some?
    ensures Loaded(db, parentId) && ChildRows(ids, policy, db, Delegate(ids, policy, db, parentId, req).value, parentId, req)
  {
    ChildContractIs(ids, db.contracts[db.runs[parentId].contractId], req);
    var c := ids.child(parentId, req.delegation);
    CreateKeepsRows(db.accounts, ids.budget(c), c, Some(EnvelopeOf(db, parentId).budget), policy.budget);
  }

  /** A child run may be created: the parent runs, and its contract lets it delegate this. */
  ghost predicate MayDelegate(parent: Run, ceiling: Ceiling) {
    && parent.status == Running && ceiling.allowed && "enrichment" in ceiling.kinds && ceiling.effect != ReadOnly
    && parent.depth < ceiling.maxDepth
  }

  /** The request is sound: known dimensions, a target of the parent's context that is the Vulnerability of that CVE,
      and scopes within those of the parent's envelope. */
  ghost predicate Requestable(policy: Policy, db: Db, parentId: string, req: Request) {
    && (forall d :: d in req.dimensions ==> d in DIMENSIONS)
    && Loaded(db, parentId)
    && req.target in db.contexts[db.runs[parentId].context].objectRefs
    && req.target in db.objects && db.objects[req.target].kind == "Vulnerability"
    && Upper(db.objects[req.target].key) == Upper("cve:" + req.cve)
    && policy.capability <= db.envelopes[db.runs[parentId].envelope].capability
    && policy.identity <= db.envelopes[db.runs[parentId].envelope].identity
  }

  /** The child's budget can be had, and a stored envelope of the child is the one that would be written. */
  ghost predicate Fundable(ids: Ids, policy: Policy, db: Db, parentId: string, req: Request)
    requires Loaded(db, parentId)
  {
    var c, envelope := ids.child(parentId, req.delegation), EnvelopeOf(db, parentId);
    var contractId := ids.contract(db.contracts[db.runs[parentId].contractId].id, req.delegation);
    && Create(db.accounts, ids.budget(c), c, Some(envelope.budget), policy.budget).Some?
    && (if ids.execution(c) in db.envelopes
        then IsChildEnvelope(db.envelopes[ids.execution(c)], ids, envelope, policy, contractId, c, req.delegation)
        else envelope.id in db.envelopes)
  }

  /** When a first delegation returns: the request is sound, policy and parent allow it, the parent's budget has
      room, and whatever is already stored under the child's names is what would be written there. */
  lemma FirstReturnsExact(ids: Ids, policy: Policy, db: Db, parentId: string, req: Request)
    requires ids.child(parentId, req.delegation) !in db.runs
    ensures Delegate(ids, policy, db, parentId, req).Some? <==>
      && Requestable(policy, db, parentId, req)
      && var c := ids.child(parentId, req.delegation);
         var run, context := db.runs[parentId], ContextOf(db, parentId);
         var parent := db.contracts[run.contractId];
         var contractId := ids.contract(parent.id, req.delegation);
         && MayDelegate(run, parent.ceiling)
         && (contractId in db.contracts ==> IsChildContract(db.contracts[contractId], ids, parent, req))
         && ((ids.context(c), 1) in db.contexts ==>
               IsChildContext(db.contexts[(ids.context(c), 1)], ids, context, contractId, c, req.target))
         && Fundable(ids, policy, db, parentId, req)
  {
    if Loaded(db, parentId) {
      var parent := db.contracts[db.runs[parentId].contractId];
      var contractId := ids.contract(parent.id, req.delegation);
      ChildContractIs(ids, parent, req);
      if contractId in db.contracts && IsChildContract(db.contracts[contractId], ids, parent, req) {
        ChildContractOnly(db.contracts[contractId], ids, parent, req);
      }
    }
  }

  /** The stored child is this parent's, with the contract of this request and a context that differs from the one
      derived now in revision and world only. */
  ghost predicate IsSameChild(ids: Ids, db: Db, parentId: string, req: Request)
    requires Loaded(db, parentId) && ids.child(parentId, req.delegation) in db.runs
  {
    var c := ids.child(parentId, req.delegation);
    var run, context, parent := db.runs[c], ContextOf(db, parentId), db.contracts[db.runs[parentId].contractId];
    && Loaded(db, c)
    && run.parent == Some(parentId) && run.role == "EnrichmentRole@1" && run.envelope == ids.execution(c)
    && IsChildContract(db.contracts[run.contractId], ids, parent, req)
    && var stored := db.contexts[run.context];
       IsChildContext(stored.(revision := 1, knowledge := context.knowledge), ids, context,
                      ids.contract(parent.id, req.delegation), c, req.target)
  }

  /** When a delegation whose child is stored returns. */
  lemma ReplayReturnsExact(ids: Ids, policy: Policy, db: Db, parentId: string, req: Request)
    requires ids.child(parentId, req.delegation) in db.runs
    ensures Delegate(ids, policy, db, parentId, req).Some? <==>
      && Requestable(policy, db, parentId, req)
      && IsSameChild(ids, db, parentId, req)
      && Fundable(ids, policy, db, parentId, req)
  {
    if Loaded(db, parentId) {
      var parent := db.contracts[db.runs[parentId].contractId];
      var run := db.runs[ids.child(parentId, req.delegation)];
      ChildContractIs(ids, parent, req);
      if run.contractId in db.contracts && IsChildContract(db.contracts[run.contractId], ids, parent, req) {
        ChildContractOnly(db.contracts[run.contractId], ids, parent, req);
      }
    }
  }

  /** Its fields determine the contract. */
  lemma ChildContractOnly(k: Contract, ids: Ids, parent: Contract, req: Request)
    requires IsChildContract(k, ids, parent, req)
    ensures k == ChildContract(ids, parent, req)
  {
    ChildContractIs(ids, parent, req);
    var other := ChildContract(ids, parent, req);
    StringLessStrictTotal();
    IncreasingUnique(StringLess, k.dimensions, other.dimensions);
    forall i | 0 <= i < |req.cve| ensures k.cve[i] == other.cve[i] {
      assert (k.cve[i] as int) == (other.cve[i] as int);
    }
    assert k.cve == other.cve;
  }

  method Dimensions(values: seq<string>) returns (result: Option<seq<string>>)
    ensures result == if forall d :: d in values ==> d in DIMENSIONS then Some(SortedDimensions(values)) else None
    ensures result.Some? <==> forall d :: d in values ==> d in {
      "identity", "severity", "weakness", "product_package", "version_applicability", "fix_remediation",
      "exploit_state", "exploit_likelihood", "advisory_reference", "asset_exposure", "research_paper", "incident_context"}
    ensures result.Some? ==> Increasing(StringLess, result.value) && SameElements(result.value, values)
  {
    var collected: seq<string> := [];
    for i := 0 to |values|
      invariant collected == values[..i]
      invariant forall d :: d in values[..i] ==> d in DIMENSIONS
    {
      if values[i] !in DIMENSIONS {
        return None;
      }
      collected := collected + [values[i]];
      assert values[..i + 1] == values[..i] + [values[i]];
    }
    assert values[..|values|] == values;
    return Some(SortedDimensions(collected));
  }

  /** The adapter with the database its transactions commit to. */
  class DelegationAdapter {
    var db: Db
    const policy: Policy
    const ids: Ids

    constructor (db: Db, policy: Policy, ids: Ids)
      ensures this.db == db && this.policy == policy && this.ids == ids
    {
      this.db, this.policy, this.ids := db, policy, ids;
    }

    /** Works on a transaction's copy and commits at the end; an early return is a raise. */
    method DelegateEnrichment(parentId: string, req: Request) returns (child: Option<string>)
      modifies this
      ensures var after := Delegate(ids, policy, old(db), parentId, req);
        if after.None? then child.None? && db == old(db)
        else child == Some(ids.child(parentId, req.delegation)) && db == after.value
      ensures child.Some? && child.value !in old(db).runs ==>
        Loaded(old(db), parentId) && ChildRows(ids, policy, old(db), db, parentId, req)
    {
      ghost var before := db;
      var dimensions := Dimensions(req.dimensions);
      if dimensions.None? { return None; }
      var childId := ids.child(parentId, req.delegation);
      var work := db;
      if !Loaded(work, parentId) { return None; }
      var parentEnvelope := EnvelopeOf(work, parentId);
      if req.target !in ContextOf(work, parentId).objectRefs { return None; }
      if req.target !in work.objects || work.objects[req.target].kind != "Vulnerability"
         || Upper(work.objects[req.target].key) != Upper("cve:" + req.cve) { return None; }
      if !(policy.capability <= parentEnvelope.capability) { return None; }
      if !(policy.identity <= parentEnvelope.identity) { return None; }
      var contract := ChildContract(ids, work.contracts[work.runs[parentId].contractId], req);
      var context := ChildContext(ids, ContextOf(work, parentId), contract, childId, req.target);
      if childId !in work.runs {
        var made := CreateChildRun(work, parentId, childId, contract, context, ids.execution(childId));
        if made.None? { return None; }
        work := made.value;
      } else if !ReplayAgrees(ids, work, parentId, childId, contract, context) {
        return None;
      }
      var funded := CreateAccount(work, ids.budget(childId), childId, Some(parentEnvelope.budget), policy.budget);
      if funded.None? { return None; }
      work := funded.value;
      var enveloped := CreateEnvelope(work, ChildEnvelope(ids, parentEnvelope, policy, contract, childId, req.delegation));
      if enveloped.None? { return None; }
      work := enveloped.value;
      if work.runs[childId].status.Submitted? {
        work := work.(runs := work.runs[childId := work.runs[childId].(status := Queued)], queued := work.queued + [childId]);
      }
      db := work;
      if childId !in before.runs { FirstWrites(ids, policy, before, parentId, req); }
      return Some(childId);
    }
  }

  // ---------------------------------------------------------------- everything else that happens

  /** `update_task_context`: the context advances, or forks naming the current one as its parent. */
  function UpdateContext(db: Db, runId: string, m: Manifest): Option<Db> {
    if runId !in db.runs || db.runs[runId].status.Terminal() then None
    else
      var run := db.runs[runId];
      var key := (m.contextId, m.revision);
      if m.contractId != run.contractId || m.role != run.role then None
      else if m.contextId == run.context.0 && m.revision <= run.context.1 then None
      else if m.contextId != run.context.0 && m.parentContext != Some(run.context.0) then None
      else if key in db.contexts && db.contexts[key] != m then None
      else Some(db.(contexts := db.contexts[key := m], runs := db.runs[runId := run.(context := key)]))
  }

  function Transition(db: Db, runId: string, next: Status): Option<Db> {
    if runId !in db.runs || !db.runs[runId].status.MayBecome(next) then None
    else Some(db.(runs := db.runs[runId := db.runs[runId].(status := next)]))
  }

  /** When a context update returns, and what it does: the run has not ended, the context is of its contract and
      role, and it is a later revision of the run's context or forked from it; only that run moves. */
  lemma UpdateContextExact(db: Db, runId: string, m: Manifest)
    ensures UpdateContext(db, runId, m).Some? <==>
      && runId in db.runs && db.runs[runId].status !in {Blocked, Completed, Failed, Cancelled, TimedOut}
      && m.contractId == db.runs[runId].contractId && m.role == db.runs[runId].role
      && (|| (m.contextId == db.runs[runId].context.0 && m.revision > db.runs[runId].context.1)
          || (m.contextId != db.runs[runId].context.0 && m.parentContext == Some(db.runs[runId].context.0)))
      && ((m.contextId, m.revision) in db.contexts ==> db.contexts[(m.contextId, m.revision)] == m)
    ensures UpdateContext(db, runId, m).Some? ==>
      UpdateContext(db, runId, m).value == db.(contexts := db.contexts[(m.contextId, m.revision) := m],
        runs := db.runs[runId := db.runs[runId].(context := (m.contextId, m.revision))])
  {
  }

  /** From which statuses a run reaches another one, and that only its status moves. */
  lemma TransitionExact(db: Db, runId: string, next: Status)
    ensures Transition(db, runId, next).Some? <==>
      runId in db.runs && var s := db.runs[runId].status;
      match next
      case Submitted => false
      case Queued => s in {Submitted, WaitingInput, WaitingDependency}
      case Running => s == Queued
      case WaitingInput => s == Running
      case WaitingDependency => s == Running
      case Completed => s == Running
      case Failed => s == Running
      case Blocked => s !in {Blocked, Completed, Failed, Cancelled, TimedOut}
      case Cancelled => s !in {Blocked, Completed, Failed, Cancelled, TimedOut}
      case TimedOut => s in {Queued, Running, WaitingInput, WaitingDependency}
    ensures Transition(db, runId, next).Some? ==>
      Transition(db, runId, next).value == db.(runs := db.runs[runId := db.runs[runId].(status := next)])
  {
  }

  datatype Verdict = Permit | Deny | Indeterminate

  /** What a WATCH wake is admitted with. */
  datatype Wake = Wake(
    contract: Contract, templateEnvelope: string, previousBudget: string, runId: string, deadline: int, trigger: string)

  datatype Admission = Allowed(after: Db) | PolicyIndeterminate | PolicyDenied | ObligationUnsatisfied | LookupFailed

  /** `RuntimeWatchWakeAdmission.admit`: gates in order, then a budget and an envelope copied from the template. */
  function Admit(ids: Ids, db: Db, policyRevision: string, verdict: Verdict, obligations: set<string>,
                 fulfilled: set<string>, w: Wake): Admission {
    if policyRevision != w.contract.policyRevision then PolicyIndeterminate
    else if verdict.Indeterminate? then PolicyIndeterminate
    else if verdict.Deny? then PolicyDenied
    else if !(obligations <= fulfilled) then ObligationUnsatisfied
    else if w.previousBudget !in db.accounts || w.templateEnvelope !in db.envelopes then LookupFailed
    else
      var template := db.envelopes[w.templateEnvelope];
      var funded := CreateAccount(db, ids.budget(w.runId), w.runId, None, db.accounts[w.previousBudget].limits);
      if funded.None? then LookupFailed
      else
        var made := CreateEnvelope(funded.value,
          Envelope(ids.execution(w.runId), None, Some(w.templateEnvelope), w.contract.id, w.runId, template.capability,
                   template.identity, w.deadline, ids.budget(w.runId), w.contract.policyRevision, w.trigger));
        if made.None? then LookupFailed else Allowed(made.value)
  }

  /** The envelope of a woken run: the template's scopes, its own budget, the contract's policy revision. */
  ghost predicate IsWokenEnvelope(e: Envelope, ids: Ids, template: Envelope, w: Wake) {
    e == Envelope(id := ids.execution(w.runId), parent := None, wokenFrom := Some(w.templateEnvelope),
      contractId := w.contract.id, run := w.runId, capability := template.capability, identity := template.identity,
      deadline := w.deadline, budget := ids.budget(w.runId), policyRevision := w.contract.policyRevision, origin := w.trigger)
  }

  /** What an admitted wake leaves: an account of its own with the limits of the previous budget, an envelope of
      its own, and nothing else. */
  ghost predicate WokenRows(ids: Ids, before: Db, after: Db, w: Wake)
    requires w.previousBudget in before.accounts && w.templateEnvelope in before.envelopes
  {
    var budget, execution := ids.budget(w.runId), ids.execution(w.runId);
    && budget in after.accounts && execution in after.envelopes
    && after == before.(accounts := before.accounts[budget := after.accounts[budget]],
                        envelopes := before.envelopes[execution := after.envelopes[execution]])
    && after.accounts[budget].limits == before.accounts[w.previousBudget].limits
    && after.accounts[budget].run == Some(w.runId) && after.accounts[budget].parent == None
    && IsWokenEnvelope(after.envelopes[execution], ids, before.envelopes[w.templateEnvelope], w)
  }

  /** How a wake is decided, gate by gate. */
  lemma AdmitExact(ids: Ids, db: Db, policyRevision: string, verdict: Verdict, obligations: set<string>,
                   fulfilled: set<string>, w: Wake)
    ensures var a := Admit(ids, db, policyRevision, verdict, obligations, fulfilled, w);
      && (a.PolicyIndeterminate? <==> policyRevision != w.contract.policyRevision || verdict == Indeterminate)
      && (a.PolicyDenied? <==> policyRevision == w.contract.policyRevision && verdict == Deny)
      && (a.ObligationUnsatisfied? <==>
            policyRevision == w.contract.policyRevision && verdict == Permit && exists o :: o in obligations && o !in fulfilled)
      && (a.Allowed? <==>
            && policyRevision == w.contract.policyRevision && verdict == Permit && obligations <= fulfilled
            && w.previousBudget in db.accounts && w.templateEnvelope in db.envelopes
            && Create(db.accounts, ids.budget(w.runId), w.runId, None, db.accounts[w.previousBudget].limits).Some?
            && (ids.execution(w.runId) in db.envelopes ==>
                  IsWokenEnvelope(db.envelopes[ids.execution(w.runId)], ids, db.envelopes[w.templateEnvelope], w)))
      && (a.Allowed? ==> WokenRows(ids, db, a.after, w))
  {
  }

  datatype Event =
    | Delegates(policy: Policy, parentId: string, req: Request)
    | Advances(runId: string, manifest: Manifest)
    | Moves(runId: string, status: Status)
    | Wakes(policyRevision: string, verdict: Verdict, obligations: set<string>, fulfilled: set<string>, wake: Wake)
    | Reserves(account: string, group: string, quantities: Quantities)
    | Commits(account: string, group: string, consumed: Quantities, overrun: bool)
    | Releases(account: string, group: string)
    | Closes(account: string)
    | Elsewhere(after: Db)

  predicate IsChild(r: Run) { r.parent.Some? && r.role == ENRICHMENT_ROLE }

  ghost predicate Kept<K(!new), V>(a: map<K, V>, b: map<K, V>) {
    forall k :: k in a ==> k in b && b[k] == a[k]
  }

  /** What other code adds: rows of any kind beside those stored, but no delegated child, no handed-down scope
      and no account that takes from another. */
  ghost predicate Unrelated(db: Db, after: Db) {
    && after.queued == db.queued && Kept(db.objects, after.objects)
    && Kept(db.contracts, after.contracts) && (forall k :: k in after.contracts ==> k in db.contracts || after.contracts[k].id == k)
    && Kept(db.contexts, after.contexts)
    && Kept(db.runs, after.runs) && (forall k :: k in after.runs ==> k in db.runs || !IsChild(after.runs[k]))
    && Kept(db.envelopes, after.envelopes)
    && (forall k :: k in after.envelopes ==> k in db.envelopes || RootEnvelope(k, after.envelopes[k]))
    && Kept(db.accounts, after.accounts)
    && (forall k :: k in after.accounts ==> k in db.accounts || RootAccount(after.accounts[k]))
  }

  predicate RootEnvelope(id: string, e: Envelope) { e.id == id && e.parent.None? && e.wokenFrom.None? }

  ghost predicate RootAccount(a: Account) { a.parent.None? && a.groups == [] && NonNegative(a.limits) }

  predicate IsBudget(e: Event) { e.Reserves? || e.Commits? || e.Releases? || e.Closes? }

  /** A budget operation; none is a raise. */
  function Operate(accounts: Accounts, e: Event): Option<Accounts>
    requires IsBudget(e)
  {
    match e
    case Reserves(account, group, quantities) => Reserve(accounts, account, group, quantities, None)
    case Commits(account, group, consumed, overrun) => Commit(accounts, account, group, consumed, overrun)
    case Releases(account, group) => Release(accounts, account, group)
    case Closes(account) => CloseChild(accounts, account)
  }

  function OrElse(after: Option<Db>, before: Db): Db { if after.Some? then after.value else before }

  /** One transaction: a raise leaves the database as it was. */
  ghost function Apply(ids: Ids, db: Db, e: Event): Db {
    match e
    case Delegates(policy, parentId, req) => OrElse(Delegate(ids, policy, db, parentId, req), db)
    case Advances(runId, m) => OrElse(UpdateContext(db, runId, m), db)
    case Moves(runId, status) => OrElse(Transition(db, runId, status), db)
    case Wakes(revision, verdict, obligations, fulfilled, wake) =>
      var a := Admit(ids, db, revision, verdict, obligations, fulfilled, wake);
      if a.Allowed? then a.after else db
    case Reserves(_, _, _) | Commits(_, _, _, _) | Releases(_, _) | Closes(_) =>
      OrElse(WithAccounts(db, Operate(db.accounts, e)), db)
    case Elsewhere(after) => if Unrelated(db, after) then after else db
  }

  ghost function ApplyAll(ids: Ids, db: Db, events: seq<Event>): Db {
    if events == [] then db
    else Apply(ids, ApplyAll(ids, db, events[..|events| - 1]), events[|events| - 1])
  }
}

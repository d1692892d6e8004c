/** From a perception step to attached evidence: route, invoke, commit, promote. */
module ObservationPipeline {
  import opened Ordering

  // ---------------------------------------------------------------- what is stored

  datatype Provenance = Provenance(
    acquisition: Option<string>, externalId: Option<string>, revision: Option<string>, datesValid: bool)

  datatype Observation = Observation(id: string, capability: string, rawRef: string, trust: string,
                                     provenance: Provenance)

  datatype Acquisition = Acquisition(source: string, triggerKnown: bool)

  /** A hexadecimal digest, of which only matters that it holds no colon. */
  type Digest = s: string | ':' !in s witness ""

  /** A runtime artifact; `content` stands for its hash, `intact` says whether its bytes still have it. */
  datatype Artifact = Artifact(execution: string, content: Digest, intact: bool)

  /** A durable observation with its evidence artifact, kept under its idempotency key. */
  datatype Durable = Durable(source: string, acquisition: string, externalId: string, content: Digest)

  datatype Locator = Locator(route: string, routeRevision: string, observation: string, capability: string)

  datatype Link = Link(targetKind: string, target: string, evidence: Digest, locator: Locator)

  datatype Store = Store(
    invocations: map<(string, string), Option<Observation>>,
    acquisitions: map<string, Acquisition>,
    artifacts: map<string, Artifact>,
    evidence: map<string, Durable>,
    links: set<Link>,
    targets: set<(string, string)>,
    registered: set<string>)

  /** Rows are added and never rewritten. */
  ghost predicate Grows(a: Store, b: Store) {
    && a.links <= b.links && a.targets <= b.targets && a.registered <= b.registered
    && (forall k :: k in a.invocations ==> k in b.invocations && b.invocations[k] == a.invocations[k])
    && (forall k :: k in a.acquisitions ==> k in b.acquisitions && b.acquisitions[k] == a.acquisitions[k])
    && (forall k :: k in a.artifacts ==> k in b.artifacts && b.artifacts[k] == a.artifacts[k])
    && (forall k :: k in a.evidence ==> k in b.evidence && b.evidence[k] == a.evidence[k])
  }

  // ---------------------------------------------------------------- what is configured

  datatype Authorization = Permit | NotPermitted(reason: string)

  datatype Verdict = Verdict(authorization: Authorization, constraints: set<string>, obligations: set<string>)

  datatype PolicyQuery = PolicyQuery(principal: string, source: string, contract: string, run: string,
    observation: Observation, targetKind: string, target: string)

  datatype CapabilityQuery = CapabilityQuery(principal: string, action: string, resource: string, contract: string,
    run: string, capability: string)

  datatype Config = Config(
    policyRevision: string,
    capabilityPolicy: CapabilityQuery -> Verdict,
    policy: PolicyQuery -> Verdict,
    sources: map<string, string>,
    hash: string -> Digest,
    promotes: bool)

  /** The execution envelope of a task run. */
  datatype Envelope = Envelope(run: string, contract: string, caseId: Option<string>, policyRevision: string,
                               scope: set<string>)

  datatype Task = Task(run: string, contract: string, principal: string, policyRevision: string, execution: string,
    envelope: Envelope)

  datatype Route = Route(id: string, revision: string, capability: string, action: string,
    promotionSource: Option<string>, targetKind: string, bindsTarget: bool)

  datatype Binding = Binding(source: string, targetKind: string, target: string, route: string, routeRevision: string,
    fulfilled: set<string>)

  /** A perception step: the requirement it names, and the resource its input gives, if the input fits the route. */
  datatype Step = Step(external: bool, requirement: string, requestId: string, caseId: Option<string>,
    target: Option<string>, resource: Option<string>)

  datatype Resolved = Unresolved | Plain | Promoting(binding: Binding)

  /** `resolve_external`. Every failure raises before anything is stored. */
  function Resolve(routes: map<string, Route>, step: Step): Resolved {
    if !step.external || step.requirement !in routes || step.resource.None? then Unresolved
    else
      var route := routes[step.requirement];
      if route.promotionSource.None? then Plain
      else if !route.bindsTarget || step.target.None? then Unresolved
      else Promoting(Binding(route.promotionSource.value, route.targetKind, step.target.value, route.id, route.revision, {}))
  }

  // ---------------------------------------------------------------- the capability transaction

  /** How a request without an earlier result goes on once its envelope admits it: its contract rejects it,
      the registry, the budget or the commit raises, or the executor comes back. */
  datatype Result =
    | Rejects
    | Unbound
    | Fails
    | Returns(observation: Option<Observation>, acquisitions: map<string, Acquisition>, artifacts: map<string, Artifact>)

  /** What the broker is faced with: whether the envelope's deadline has passed, and the result. */
  datatype Reply = Reply(late: bool, result: Result)

  /** The request stays within the task run's envelope. */
  predicate InEnvelope(config: Config, route: Route, task: Task, step: Step, late: bool) {
    && task.envelope.run == task.run && task.envelope.contract == task.contract && task.envelope.caseId == step.caseId
    && task.envelope.policyRevision == config.policyRevision && route.capability in task.envelope.scope && !late
  }

  /** The policy permits the invocation and asks for nothing, for static routes are granted nothing. */
  predicate Permitted(config: Config, route: Route, task: Task, step: Step)
    requires step.resource.Some?
  {
    var verdict := config.capabilityPolicy(
      CapabilityQuery(task.principal, route.action, step.resource.value, task.contract, task.run, route.capability));
    verdict.authorization.Permit? && verdict.constraints + verdict.obligations <= {}
  }

  datatype Invocation = Commits | Denies | Raises

  /** The gates of `CapabilityBroker.invoke`, in order. */
  function Invoke(config: Config, route: Route, task: Task, step: Step, reply: Reply): Invocation
    requires step.resource.Some?
  {
    if !InEnvelope(config, route, task, step, reply.late) then Denies
    else if reply.result.Rejects? then Denies
    else if reply.result.Unbound? then Raises
    else if !Permitted(config, route, task, step) then Denies
    else if reply.result.Fails? then Raises
    else Commits
  }

  datatype Outcome =
    | Raised
    | Denied
    | NoObservation
    | Observed
    | PromotionUnavailable
    | Refused(reason: string)
    | Promoted(link: Link)

  /** The store after a committed invocation. */
  function Committed(store: Store, key: (string, string), result: Result): Store
    requires result.Returns?
  {
    store.(invocations := store.invocations[key := result.observation],
           acquisitions := result.acquisitions + store.acquisitions,
           artifacts := result.artifacts + store.artifacts)
  }

  // ---------------------------------------------------------------- promotion

  function Query(task: Task, observation: Observation, binding: Binding): PolicyQuery {
    PolicyQuery(task.principal, binding.source, task.contract, task.run, observation, binding.targetKind, binding.target)
  }

  function Present(text: Option<string>): bool { text.Some? && text.value != "" }

  /** Everything decided before the promotion transaction starts. */
  predicate Authorized(config: Config, task: Task, observation: Observation, binding: Binding) {
    var verdict := config.policy(Query(task, observation, binding));
    && task.policyRevision == config.policyRevision
    && verdict.authorization.Permit? && verdict.constraints + verdict.obligations <= binding.fulfilled
    && binding.source in config.sources
  }

  predicate Traceable(p: Provenance) { Present(p.acquisition) && Present(p.externalId) && p.datesValid }

  /** The text the idempotency key is hashed from. */
  function KeyText(source: string, externalId: string, identity: string): string {
    source + ":" + externalId + ":" + identity
  }

  function IdempotencyKey(config: Config, source: string, externalId: string, identity: string): Digest {
    config.hash(KeyText(source, externalId, identity))
  }

  /** Where content goes whose idempotency key is taken by other content. */
  function CollisionKey(config: Config, key: Digest, content: Digest): Digest { config.hash(key + ":" + content) }

  /** The idempotency key under which the content is, or would be, kept; none when both keys hold other content. */
  function IngestKey(config: Config, store: Store, source: string, externalId: string, revision: Option<string>,
                     content: Digest): Option<Digest> {
    var key := IdempotencyKey(config, source, externalId, if Present(revision) then revision.value else content);
    if key !in store.evidence || store.evidence[key].content == content then Some(key)
    else
      var other := CollisionKey(config, key, content);
      if other !in store.evidence || store.evidence[other].content == content then Some(other) else None
  }

  /** What the rows must say for the promotion transaction to go through, and the link it then makes. */
  function Attachment(config: Config, store: Store, task: Task, observation: Observation,
                      binding: Binding): Option<(Link, Durable)>
    requires binding.source in config.sources && Traceable(observation.provenance)
  {
    var p, source := observation.provenance, config.sources[binding.source];
    if p.acquisition.value !in store.acquisitions then None
    else if store.acquisitions[p.acquisition.value].source != source || !store.acquisitions[p.acquisition.value].triggerKnown then None
    else if observation.rawRef !in store.artifacts then None
    else
      var artifact := store.artifacts[observation.rawRef];
      if artifact.execution != task.execution || !artifact.intact then None
      else
        var key := IngestKey(config, store, source, p.externalId.value, p.revision, artifact.content);
        if key.None? || (binding.targetKind, binding.target) !in store.targets then None
        else if binding.targetKind != "object" && binding.targetKind != "claim" && binding.targetKind != "relation" then None
        else
          var added := Durable(source, p.acquisition.value, p.externalId.value, artifact.content);
          var durable := if key.value in store.evidence then store.evidence[key.value] else added;
          if durable.source !in store.registered then None
          else Some((Link(binding.targetKind, binding.target, key.value,
            Locator(binding.route, binding.routeRevision, observation.id, observation.capability)), durable))
  }

  function Attach(store: Store, link: Link, durable: Durable): Store {
    store.(evidence := store.evidence[link.evidence := durable], links := store.links + {link})
  }

  /** The database, and the code that runs against it. */
  class Pipeline {
    var store: Store

    constructor (store: Store)
      ensures this.store == store
    {
      this.store := store;
    }

    /** `ObservationPromotionService.promote`. */
    method Promote(config: Config, task: Task, observation: Observation, binding: Binding) returns (outcome: Outcome)
      modifies this
      ensures outcome.Promoted? <==>
        && Authorized(config, task, observation, binding) && Traceable(observation.provenance)
        && Attachment(config, old(store), task, observation, binding).Some?
      ensures outcome.Promoted? ==>
        var (link, durable) := Attachment(config, old(store), task, observation, binding).value;
        outcome.link == link && store == Attach(old(store), link, durable)
      ensures !outcome.Promoted? ==> store == old(store)
      ensures outcome.Refused? <==> !Authorized(config, task, observation, binding)
      ensures outcome.Raised? || outcome.Refused? || outcome.Promoted?
    {
      if task.policyRevision != config.policyRevision {
        return Refused("policy_revision_mismatch");
      }
      var verdict := config.policy(Query(task, observation, binding));
      if !verdict.authorization.Permit? {
        return Refused(verdict.authorization.reason);
      }
      var required := verdict.constraints + verdict.obligations;
      if !(required <= binding.fulfilled) {
        return Refused("obligation_unsatisfied");
      }
      if binding.source !in config.sources {
        return Refused("source_unknown");
      }
      var source := config.sources[binding.source];
      var p := observation.provenance;
      if !Present(p.acquisition) || !Present(p.externalId) || !p.datesValid {
        return Raised;
      }
      if p.acquisition.value !in store.acquisitions {
        return Raised;
      }
      var acquisition := store.acquisitions[p.acquisition.value];
      if acquisition.source != source {
        return Raised;
      }
      if observation.rawRef !in store.artifacts || store.artifacts[observation.rawRef].execution != task.execution {
        return Raised;
      }
      var artifact := store.artifacts[observation.rawRef];
      if !artifact.intact || !acquisition.triggerKnown {
        return Raised;
      }
      // The rest works on a transaction that is only kept when it reaches its end.
      var transaction := store;
      var key := IdempotencyKey(config, source, p.externalId.value, if Present(p.revision) then p.revision.value else artifact.content);
      if key in transaction.evidence && transaction.evidence[key].content != artifact.content {
        key := CollisionKey(config, key, artifact.content);
        if key in transaction.evidence && transaction.evidence[key].content != artifact.content {
          return Raised;
        }
      }
      if key !in transaction.evidence {
        var durable := Durable(source, p.acquisition.value, p.externalId.value, artifact.content);
        transaction := transaction.(evidence := transaction.evidence[key := durable]);
      }
      if binding.targetKind != "object" && binding.targetKind != "claim" && binding.targetKind != "relation" {
        return Raised;
      }
      if (binding.targetKind, binding.target) !in transaction.targets {
        return Raised;
      }
      var locator := Locator(binding.route, binding.routeRevision, observation.id, observation.capability);
      var link := Link(binding.targetKind, binding.target, key, locator);
      transaction := transaction.(links := transaction.links + {link});
      if transaction.evidence[key].source !in transaction.registered {
        return Raised;
      }
      assert transaction.evidence == store.evidence[key := transaction.evidence[key]];
      store := transaction;
      return Promoted(link);
    }

    /** `BrokeredPhysicalObservationPort._external`, with the broker's replay of finished requests. */
    method External(config: Config, routes: map<string, Route>, task: Task, step: Step,
                    reply: Reply) returns (outcome: Outcome)
      modifies this
      ensures Stepped(config, routes, task, step, reply, old(store), store, outcome)
    {
      var resolved := Resolve(routes, step);
      if resolved.Unresolved? {
        return Raised;
      }
      var key := (task.run, step.requestId);
      if key !in store.invocations {
        match Invoke(config, routes[step.requirement], task, step, reply) {
          case Denies => return Denied;
          case Raises => return Raised;
          case Commits => store := Committed(store, key, reply.result);
        }
      }
      var observation := store.invocations[key];
      if observation.None? {
        return NoObservation;
      }
      if resolved.Plain? {
        return Observed;
      }
      if !config.promotes {
        return PromotionUnavailable;
      }
      outcome := Promote(config, task, observation.value, resolved.binding);
    }
  }

  // ---------------------------------------------------------------- what one step may do

  /** The store once the capability transaction is over: committed, replayed, or rolled back. */
  function AfterInvocation(config: Config, routes: map<string, Route>, task: Task, step: Step, reply: Reply,
                           store: Store): Store {
    if Invoked(config, routes, task, step, reply, store) == Some(Commits)
    then Committed(store, (task.run, step.requestId), reply.result) else store
  }

  /** How the broker ends this step's invocation; none when it is never made or an earlier result is replayed. */
  function Invoked(config: Config, routes: map<string, Route>, task: Task, step: Step, reply: Reply, store: Store)
    : Option<Invocation>
  {
    if Resolve(routes, step).Unresolved? || (task.run, step.requestId) in store.invocations then None
    else Some(Invoke(config, routes[step.requirement], task, step, reply))
  }

  /** The observation the committed transaction left for this step. */
  function ObservedBy(task: Task, step: Step, store: Store): Option<Observation> {
    if (task.run, step.requestId) in store.invocations then store.invocations[(task.run, step.requestId)] else None
  }

  /** The attachment goes through: an observation is committed, promotion is permitted, and the rows fit. */
  ghost predicate Attaches(config: Config, routes: map<string, Route>, task: Task, step: Step, store: Store) {
    var resolved, observation := Resolve(routes, step), ObservedBy(task, step, store);
    && resolved.Promoting? && observation.Some? && config.promotes
    && Authorized(config, task, observation.value, resolved.binding) && Traceable(observation.value.provenance)
    && Attachment(config, store, task, observation.value, resolved.binding).Some?
  }

  /** One external step: evidence is attached exactly when it may be, and otherwise no evidence changes. */
  ghost predicate Stepped(config: Config, routes: map<string, Route>, task: Task, step: Step, reply: Reply,
                          before: Store, after: Store, outcome: Outcome) {
    var resolved := Resolve(routes, step);
    var invoked := Invoked(config, routes, task, step, reply, before);
    var committed := AfterInvocation(config, routes, task, step, reply, before);
    if resolved.Unresolved? || invoked == Some(Raises) then outcome.Raised? && after == before
    else if invoked == Some(Denies) then outcome.Denied? && after == before
    else if ObservedBy(task, step, committed).None? then outcome.NoObservation? && after == committed
    else if resolved.Plain? then outcome.Observed? && after == committed
    else if !config.promotes then outcome.PromotionUnavailable? && after == committed
    else
      var observation := ObservedBy(task, step, committed).value;
      && (outcome.Raised? || outcome.Refused? || outcome.Promoted?)
      && (outcome.Refused? <==> !Authorized(config, task, observation, resolved.binding))
      && (outcome.Promoted? <==> Attaches(config, routes, task, step, committed))
      && (outcome.Promoted? ==>
            var (link, durable) := Attachment(config, committed, task, observation, resolved.binding).value;
            outcome.link == link && after == Attach(committed, link, durable))
      && (!outcome.Promoted? ==> after == committed)
  }

  // ---------------------------------------------------------------- one step, field by field

  /** The route is known and gives all the step needs. */
  predicate Routed(routes: map<string, Route>, step: Step) {
    && step.external && step.requirement in routes && step.resource.Some?
    && (routes[step.requirement].promotionSource.Some? ==> routes[step.requirement].bindsTarget && step.target.Some?)
  }

  /** The request is within the task run's envelope. */
  ghost predicate Enveloped(config: Config, route: Route, task: Task, step: Step, late: bool) {
    && !late && task.envelope.run == task.run && task.envelope.contract == task.contract && task.envelope.caseId == step.caseId
    && task.envelope.policyRevision == config.policyRevision && route.capability in task.envelope.scope
  }

  /** The policy, asked about this principal's action on this resource, permits it without asking for anything. */
  ghost predicate InvocationPermitted(config: Config, route: Route, task: Task, step: Step) {
    && step.resource.Some?
    && config.capabilityPolicy(CapabilityQuery(principal := task.principal, action := route.action,
         resource := step.resource.value, contract := task.contract, run := task.run, capability := route.capability))
       == Verdict(authorization := Permit, constraints := {}, obligations := {})
  }

  /** A first request is denied outside its envelope, when its contract rejects it, and, once bound, when the
      policy does not permit it. */
  ghost predicate IsDenied(config: Config, routes: map<string, Route>, task: Task, step: Step, reply: Reply,
                           before: Store) {
    && Routed(routes, step) && (task.run, step.requestId) !in before.invocations
    && (|| !Enveloped(config, routes[step.requirement], task, step, reply.late) || reply.result.Rejects?
        || (!reply.result.Unbound? && !InvocationPermitted(config, routes[step.requirement], task, step)))
  }

  /** Rows are added where there are none. */
  ghost predicate Adds<V>(before: map<string, V>, rows: map<string, V>, after: map<string, V>) {
    && after.Keys == before.Keys + rows.Keys
    && forall k :: k in after ==> after[k] == if k in before then before[k] else rows[k]
  }

  /** A step with an earlier result leaves the store as it finds it. Any other commits exactly when its route
      is known, the request is admitted and the capability comes back; then the observation, the acquisitions
      and the artifacts are stored and nothing else changes. */
  ghost predicate Leaves(config: Config, routes: map<string, Route>, task: Task, step: Step, reply: Reply,
                          before: Store, committed: Store) {
    var key := (task.run, step.requestId);
    if Routed(routes, step) && key !in before.invocations && reply.result.Returns?
       && Enveloped(config, routes[step.requirement], task, step, reply.late)
       && InvocationPermitted(config, routes[step.requirement], task, step)
    then
      && committed.invocations == before.invocations[key := reply.result.observation]
      && Adds(before.acquisitions, reply.result.acquisitions, committed.acquisitions)
      && Adds(before.artifacts, reply.result.artifacts, committed.artifacts)
      && committed.links == before.links && committed.evidence == before.evidence
      && committed.targets == before.targets && committed.registered == before.registered
    else committed == before
  }

  /** The promotion policy, asked about this principal, the route's source, the stored observation and the
      step's target, permits it without asking for anything. */
  ghost predicate PromotionPermitted(config: Config, route: Route, task: Task, step: Step, observation: Observation) {
    && route.promotionSource.Some? && step.target.Some?
    && config.policy(PolicyQuery(principal := task.principal, source := route.promotionSource.value,
         contract := task.contract, run := task.run, observation := observation,
         targetKind := route.targetKind, target := step.target.value))
       == Verdict(authorization := Permit, constraints := {}, obligations := {})
  }

  /** The observation was acquired from the source the route names. */
  ghost predicate FromRouteSource(config: Config, store: Store, route: Route, observation: Observation) {
    var p := observation.provenance;
    && route.promotionSource.Some? && route.promotionSource.value in config.sources
    && p.acquisition.Some? && p.acquisition.value != "" && p.acquisition.value in store.acquisitions
    && store.acquisitions[p.acquisition.value].source == config.sources[route.promotionSource.value]
    && store.acquisitions[p.acquisition.value].triggerKnown
    && p.externalId.Some? && p.externalId.value != "" && p.datesValid
  }

  /** Its bytes are an artifact of the task run's own execution, as they were stored. */
  ghost predicate FromOwnExecution(store: Store, task: Task, observation: Observation) {
    && observation.rawRef in store.artifacts && store.artifacts[observation.rawRef].execution == task.execution
    && store.artifacts[observation.rawRef].intact
  }

  /** Where evidence with this content goes: under the hash of source, external id and revision, or of the
      content when there is no revision; and under the hash of that and the content when the place is taken. */
  ghost predicate Place(config: Config, store: Store, route: Route, observation: Observation, key: Digest)
    requires FromRouteSource(config, store, route, observation) && observation.rawRef in store.artifacts
  {
    var p, content := observation.provenance, store.artifacts[observation.rawRef].content;
    var identity := if p.revision.Some? && p.revision.value != "" then p.revision.value else content;
    var first := config.hash(config.sources[route.promotionSource.value] + ":" + p.externalId.value + ":" + identity);
    var taken := first in store.evidence && store.evidence[first].content != content;
    && key == (if taken then config.hash(first + ":" + content) else first)
    && (key in store.evidence ==> store.evidence[key].content == content)
  }

  /** The evidence as it is already kept, or as it is first stored. */
  ghost predicate Kept(config: Config, store: Store, route: Route, observation: Observation, key: Digest,
                       durable: Durable)
    requires FromRouteSource(config, store, route, observation) && observation.rawRef in store.artifacts
  {
    if key in store.evidence then durable == store.evidence[key]
    else durable == Durable(source := config.sources[route.promotionSource.value],
      acquisition := observation.provenance.acquisition.value, externalId := observation.provenance.externalId.value,
      content := store.artifacts[observation.rawRef].content)
  }

  /** The rows a promotion needs. */
  ghost predicate Fits(config: Config, store: Store, route: Route, task: Task, step: Step, observation: Observation,
                       key: Digest, durable: Durable) {
    && step.target.Some?
    && FromRouteSource(config, store, route, observation) && FromOwnExecution(store, task, observation)
    && Place(config, store, route, observation, key) && Kept(config, store, route, observation, key, durable)
    && route.targetKind in {"object", "claim", "relation"} && (route.targetKind, step.target.value) in store.targets
    && durable.source in store.registered
  }

  /** The link made for a step: to the step's target, with the route's own id and revision. */
  ghost predicate LinkOf(link: Link, route: Route, step: Step, observation: Observation, key: Digest) {
    && step.target.Some?
    && link == Link(targetKind := route.targetKind, target := step.target.value, evidence := key,
         locator := Locator(route := route.id, routeRevision := route.revision, observation := observation.id,
                            capability := observation.capability))
  }

  /** The step's observation, the policy and the rows let it through. */
  ghost predicate Promotes(config: Config, routes: map<string, Route>, task: Task, step: Step, committed: Store,
                           observation: Observation, key: Digest, durable: Durable) {
    && Routed(routes, step)
    && (task.run, step.requestId) in committed.invocations
    && committed.invocations[(task.run, step.requestId)] == Some(observation)
    && config.promotes && task.policyRevision == config.policyRevision
    && PromotionPermitted(config, routes[step.requirement], task, step, observation)
    && Fits(config, committed, routes[step.requirement], task, step, observation, key, durable)
  }

  /** What a promotion writes. */
  ghost predicate Written(route: Route, step: Step, observation: Observation, key: Digest, durable: Durable,
                            committed: Store, after: Store, link: Link) {
    && LinkOf(link, route, step, observation, key)
    && after == committed.(evidence := committed.evidence[key := durable], links := committed.links + {link})
  }

  lemma InvocationLeaves(config: Config, routes: map<string, Route>, task: Task, step: Step, reply: Reply, before: Store)
    ensures Leaves(config, routes, task, step, reply, before, AfterInvocation(config, routes, task, step, reply, before))
  {
  }

  lemma ResolveExact(routes: map<string, Route>, step: Step)
    ensures Routed(routes, step) <==> !Resolve(routes, step).Unresolved?
    ensures Routed(routes, step) ==>
      var route := routes[step.requirement];
      if route.promotionSource.None? then Resolve(routes, step) == Plain
      else step.target.Some? && Resolve(routes, step) == Promoting(BindingOf(route, step.target.value))
  {
  }

  function BindingOf(route: Route, target: string): Binding
    requires route.promotionSource.Some?
  {
    Binding(source := route.promotionSource.value, targetKind := route.targetKind, target := target, route := route.id,
            routeRevision := route.revision, fulfilled := {})
  }

  lemma AuthorizedExact(config: Config, route: Route, task: Task, step: Step, observation: Observation)
    requires route.promotionSource.Some? && step.target.Some?
    ensures Authorized(config, task, observation, BindingOf(route, step.target.value)) <==>
      task.policyRevision == config.policyRevision && PromotionPermitted(config, route, task, step, observation)
      && route.promotionSource.value in config.sources
  {
  }

  /** The rows let an attachment through exactly when there is a place for it, and then it goes there. */
  lemma AttachmentExact(config: Config, store: Store, route: Route, task: Task, step: Step, observation: Observation,
                        key: Digest, durable: Durable)
    requires route.promotionSource.Some? && step.target.Some? && route.promotionSource.value in config.sources
    requires Traceable(observation.provenance)
    ensures var a := Attachment(config, store, task, observation, BindingOf(route, step.target.value));
      Fits(config, store, route, task, step, observation, key, durable) <==>
      a.Some? && a.value.1 == durable && LinkOf(a.value.0, route, step, observation, key)
  {
  }

  /** How a step ends, field by field: denied, promoted, or neither, and what it leaves in the store. */
  lemma StepExact(config: Config, routes: map<string, Route>, task: Task, step: Step, reply: Reply,
                  before: Store, after: Store, outcome: Outcome)
    returns (committed: Store)
    requires Stepped(config, routes, task, step, reply, before, after, outcome)
    ensures Leaves(config, routes, task, step, reply, before, committed)
    ensures !Routed(routes, step) ==> outcome.Raised?
    ensures outcome.Denied? <==> IsDenied(config, routes, task, step, reply, before)
    ensures outcome.Promoted? <==> exists observation, key, durable ::
      Promotes(config, routes, task, step, committed, observation, key, durable)
    ensures forall observation, key, durable :: Promotes(config, routes, task, step, committed, observation, key, durable) ==>
      outcome.Promoted? && Written(routes[step.requirement], step, observation, key, durable, committed, after, outcome.link)
    ensures !outcome.Promoted? ==> after == committed
  {
    committed := AfterInvocation(config, routes, task, step, reply, before);
    InvocationLeaves(config, routes, task, step, reply, before);
    ResolveExact(routes, step);
    forall observation, key, durable | Promotes(config, routes, task, step, committed, observation, key, durable)
      ensures outcome.Promoted? && Written(routes[step.requirement], step, observation, key, durable, committed, after, outcome.link)
    {
      PromotesWhen(config, routes, task, step, reply, before, after, outcome, observation, key, durable);
    }
    if outcome.Promoted? {
      var observation, key, durable := PromotedOnly(config, routes, task, step, reply, before, after, outcome);
    }
  }

  lemma PromotesWhen(config: Config, routes: map<string, Route>, task: Task, step: Step, reply: Reply,
                     before: Store, after: Store, outcome: Outcome, observation: Observation, key: Digest, durable: Durable)
    requires Stepped(config, routes, task, step, reply, before, after, outcome)
    requires var committed := AfterInvocation(config, routes, task, step, reply, before);
      Promotes(config, routes, task, step, committed, observation, key, durable)
    ensures outcome.Promoted? && Written(routes[step.requirement], step, observation, key, durable,
      AfterInvocation(config, routes, task, step, reply, before), after, outcome.link)
  {
    var committed := AfterInvocation(config, routes, task, step, reply, before);
    var route := routes[step.requirement];
    ResolveExact(routes, step);
    AuthorizedExact(config, route, task, step, observation);
    AttachmentExact(config, committed, route, task, step, observation, key, durable);
  }

  lemma PromotedOnly(config: Config, routes: map<string, Route>, task: Task, step: Step, reply: Reply,
                     before: Store, after: Store, outcome: Outcome)
    returns (observation: Observation, key: Digest, durable: Durable)
    requires Stepped(config, routes, task, step, reply, before, after, outcome) && outcome.Promoted?
    ensures var committed := AfterInvocation(config, routes, task, step, reply, before);
      Promotes(config, routes, task, step, committed, observation, key, durable)
  {
    var committed := AfterInvocation(config, routes, task, step, reply, before);
    ResolveExact(routes, step);
    observation := ObservedBy(task, step, committed).value;
    var route := routes[step.requirement];
    var attachment := Attachment(config, committed, task, observation, BindingOf(route, step.target.value)).value;
    durable := attachment.1;
    AuthorizedExact(config, route, task, step, observation);
    key := attachment.0.evidence;
    AttachmentExact(config, committed, route, task, step, observation, key, durable);
  }

  // ---------------------------------------------------------------- whole runs

  /** A link a step attached, that step, its route and its observation. */
  datatype Attached = Attached(link: Link, task: Task, step: Step, route: Route, observation: Observation)

  /** The link is attached evidence with everything it needs behind it in the store. */
  ghost predicate Justified(config: Config, store: Store, a: Attached) {
    && a.link in store.links && a.link.evidence in store.evidence
    && LinkOf(a.link, a.route, a.step, a.observation, a.link.evidence)
    && (a.task.run, a.step.requestId) in store.invocations
    && store.invocations[(a.task.run, a.step.requestId)] == Some(a.observation)
    && a.task.policyRevision == config.policyRevision
    && PromotionPermitted(config, a.route, a.task, a.step, a.observation)
    && FromRouteSource(config, store, a.route, a.observation) && FromOwnExecution(store, a.task, a.observation)
    && store.evidence[a.link.evidence].content == store.artifacts[a.observation.rawRef].content
  }

  lemma AttachesJustified(config: Config, routes: map<string, Route>, task: Task, step: Step, reply: Reply,
                          before: Store, after: Store, outcome: Outcome)
    returns (a: Attached)
    requires Stepped(config, routes, task, step, reply, before, after, outcome) && outcome.Promoted?
    ensures step.requirement in routes && a.route == routes[step.requirement]
    ensures a.link == outcome.link && a.task == task && a.step == step && Justified(config, after, a)
    ensures after.links == before.links + {a.link}
  {
    var committed := StepExact(config, routes, task, step, reply, before, after, outcome);
    var observation, key, durable :| Promotes(config, routes, task, step, committed, observation, key, durable);
    a := Attached(outcome.link, task, step, routes[step.requirement], observation);
  }

  /** A step that does not promote attaches nothing and leaves all evidence as it was. */
  lemma OthersAttachNothing(config: Config, routes: map<string, Route>, task: Task, step: Step, reply: Reply,
                            before: Store, after: Store, outcome: Outcome)
    requires Stepped(config, routes, task, step, reply, before, after, outcome) && !outcome.Promoted?
    ensures after.links == before.links && after.evidence == before.evidence
  {
  }

  lemma StepGrows(config: Config, routes: map<string, Route>, task: Task, step: Step, reply: Reply, before: Store,
                  after: Store, outcome: Outcome)
    requires Stepped(config, routes, task, step, reply, before, after, outcome)
    ensures Grows(before, after)
  {
  }

  lemma JustifiedStays(config: Config, before: Store, after: Store, a: Attached)
    requires Justified(config, before, a) && Grows(before, after)
    ensures Justified(config, after, a)
  {
  }

  /** What happens to the database: a step of the pipeline, or other code adding rows. */
  datatype Event =
    | External(routes: map<string, Route>, task: Task, step: Step, reply: Reply, outcome: Outcome)
    | Elsewhere

  ghost predicate Happens(config: Config, e: Event, before: Store, after: Store) {
    match e
    case External(routes, task, step, reply, outcome) => Stepped(config, routes, task, step, reply, before, after, outcome)
    case Elsewhere => Grows(before, after)
  }

  ghost predicate Run(config: Config, events: seq<Event>, stores: seq<Store>) {
    && |stores| == |events| + 1
    && forall k :: 0 <= k < |events| ==> Happens(config, events[k], stores[k], stores[k + 1])
  }

  ghost predicate HasJustification(config: Config, store: Store, e: Event)
    requires e.External? && e.outcome.Promoted?
  {
    && e.step.requirement in e.routes
    && exists a: Attached :: a.link == e.outcome.link && a.task == e.task && a.step == e.step
         && a.route == e.routes[e.step.requirement] && Justified(config, store, a)
  }

  lemma HappensGrows(config: Config, e: Event, before: Store, after: Store)
    requires Happens(config, e, before, after)
    ensures Grows(before, after)
  {
    match e
    case External(routes, task, step, reply, outcome) =>
      StepGrows(config, routes, task, step, reply, before, after, outcome);
    case Elsewhere =>
  }

  lemma {:induction false} RunGrows(config: Config, events: seq<Event>, stores: seq<Store>, i: nat, j: nat)
    requires Run(config, events, stores) && i <= j < |stores|
    ensures Grows(stores[i], stores[j])
  {
    if i < j {
      RunGrows(config, events, stores, i, j - 1);
      HappensGrows(config, events[j - 1], stores[j - 1], stores[j]);
      GrowsTransitive(stores[i], stores[j - 1], stores[j]);
    }
  }

  lemma GrowsTransitive(a: Store, b: Store, c: Store)
    requires Grows(a, b) && Grows(b, c)
    ensures Grows(a, c)
  {
  }

  /** Whatever the interleaving, what any step attached is justified in every later store. */
  lemma RunSafe(config: Config, events: seq<Event>, stores: seq<Store>, k: nat, later: nat)
    requires Run(config, events, stores) && k < |events| && k < later < |stores|
    requires events[k].External? && events[k].outcome.Promoted?
    ensures HasJustification(config, stores[later], events[k])
  {
    var e := events[k];
    assert Happens(config, e, stores[k], stores[k + 1]);
    var a := AttachesJustified(config, e.routes, e.task, e.step, e.reply, stores[k], stores[k + 1], e.outcome);
    RunGrows(config, events, stores, k + 1, later);
    JustifiedStays(config, stores[k + 1], stores[later], a);
  }

  // ---------------------------------------------------------------- retries

  lemma AttachmentStable(config: Config, before: Store, after: Store, task: Task, observation: Observation,
                         binding: Binding)
    requires binding.source in config.sources && Traceable(observation.provenance)
    requires var a := Attachment(config, before, task, observation, binding);
      a.Some? && Grows(Attach(before, a.value.0, a.value.1), after)
    ensures Attachment(config, after, task, observation, binding) == Attachment(config, before, task, observation, binding)
    ensures var a := Attachment(config, before, task, observation, binding); Attach(after, a.value.0, a.value.1) == after
  {
    var a := Attachment(config, before, task, observation, binding).value;
    var attached := Attach(before, a.0, a.1);
    var p := observation.provenance;
    var content := before.artifacts[observation.rawRef].content;
    var key := IngestKey(config, before, config.sources[binding.source], p.externalId.value, p.revision, content);
    assert key == Some(a.0.evidence);
    IngestKeyStable(config, before, after, config.sources[binding.source], p.externalId.value, p.revision, content, a.1);
    assert after.evidence[a.0.evidence := a.1] == after.evidence;
    assert after.links + {a.0} == after.links;
  }

  lemma IngestKeyStable(config: Config, before: Store, after: Store, source: string, externalId: string,
                        revision: Option<string>, content: Digest, durable: Durable)
    requires var key := IngestKey(config, before, source, externalId, revision, content);
      key.Some? && key.value in after.evidence && after.evidence[key.value] == durable && durable.content == content
    requires forall k :: k in before.evidence ==> k in after.evidence && after.evidence[k] == before.evidence[k]
    ensures IngestKey(config, after, source, externalId, revision, content)
      == IngestKey(config, before, source, externalId, revision, content)
  {
  }

  /** After a promotion the same step, retried at any later time and however the broker would now
      answer, finds the same link and changes nothing. */
  lemma RetryAttachesOnce(config: Config, routes: map<string, Route>, task: Task, step: Step, reply: Reply,
                          before: Store, after: Store, link: Link,
                          reply': Reply, later: Store, final: Store, outcome: Outcome)
    requires Stepped(config, routes, task, step, reply, before, after, Promoted(link))
    requires Grows(after, later) && Stepped(config, routes, task, step, reply', later, final, outcome)
    ensures outcome == Promoted(link) && final == later
  {
    var committed := AfterInvocation(config, routes, task, step, reply, before);
    var observation, binding := ObservedBy(task, step, committed).value, Resolve(routes, step).binding;
    assert AfterInvocation(config, routes, task, step, reply', later) == later && ObservedBy(task, step, later) == Some(observation);
    AttachmentStable(config, committed, later, task, observation, binding);
  }

  // ---------------------------------------------------------------- limits of the resolver and of the key

  /** Routes fulfil no obligation: where the policy, asked about a step's observation, states a constraint or
      an obligation, nothing is attached. */
  lemma ObligationsNeverMet(config: Config, routes: map<string, Route>, task: Task, step: Step, reply: Reply,
                            before: Store, after: Store, outcome: Outcome, observation: Observation)
    requires Stepped(config, routes, task, step, reply, before, after, outcome)
    requires step.requirement in routes && routes[step.requirement].promotionSource.Some? && step.target.Some?
    requires (task.run, step.requestId) in after.invocations && after.invocations[(task.run, step.requestId)] == Some(observation)
    requires var verdict := config.policy(PolicyQuery(principal := task.principal,
        source := routes[step.requirement].promotionSource.value, contract := task.contract, run := task.run,
        observation := observation, targetKind := routes[step.requirement].targetKind, target := step.target.value));
      verdict.constraints != {} || verdict.obligations != {}
    ensures !outcome.Promoted? && after.links == before.links && after.evidence == before.evidence
  {
    if outcome.Promoted? {
      var a := AttachesJustified(config, routes, task, step, reply, before, after, outcome);
      assert false;
    }
    OthersAttachNothing(config, routes, task, step, reply, before, after, outcome);
  }

  /** A durable observation of `source` may be kept under this key. */
  ghost predicate KeyFor(config: Config, source: string, key: string) {
    || (exists e, i :: key == IdempotencyKey(config, source, e, i))
    || (exists e, i, c: Digest :: key == CollisionKey(config, IdempotencyKey(config, source, e, i), c))
  }

  /** No two of the sources can share a key. */
  ghost predicate KeysSeparate(config: Config, names: set<string>) {
    forall s, t, key :: s in names && t in names && KeyFor(config, s, key) && KeyFor(config, t, key) ==> s == t
  }

  ghost predicate Keyed(config: Config, names: set<string>, store: Store) {
    forall key :: key in store.evidence ==> store.evidence[key].source in names && KeyFor(config, store.evidence[key].source, key)
  }

  /** Where keys separate sources, the attached evidence itself, replayed or new, is of the route's source. */
  lemma AttachedFromRouteSource(config: Config, names: set<string>, store: Store, task: Task,
                                observation: Observation, binding: Binding)
    requires binding.source in config.sources && Traceable(observation.provenance) && config.sources[binding.source] in names
    requires KeysSeparate(config, names) && Keyed(config, names, store)
    requires Attachment(config, store, task, observation, binding).Some?
    ensures var (link, durable) := Attachment(config, store, task, observation, binding).value;
      durable.source == config.sources[binding.source] && Keyed(config, names, Attach(store, link, durable))
  {
    var (link, durable) := Attachment(config, store, task, observation, binding).value;
    var p, source := observation.provenance, config.sources[binding.source];
    IngestKeyIsFor(config, store, source, p.externalId.value, p.revision, store.artifacts[observation.rawRef].content);
    assert KeyFor(config, source, link.evidence);
  }

  lemma IngestKeyIsFor(config: Config, store: Store, source: string, externalId: string, revision: Option<string>,
                       content: Digest)
    ensures var key := IngestKey(config, store, source, externalId, revision, content);
      key.Some? ==> KeyFor(config, source, key.value)
  {
    var identity := if Present(revision) then revision.value else content;
    assert KeyFor(config, source, IdempotencyKey(config, source, externalId, identity));
    assert KeyFor(config, source, CollisionKey(config, IdempotencyKey(config, source, externalId, identity), content));
  }

  // ---------------------------------------------------------------- when two sources can share a key

  predicate ColonPrefix(s: string, t: string) { s + ":" <= t }

  /** Two names that stand before a colon in the same text are equal or one continues the other after a colon. */
  lemma NamesBeforeColon(s: string, x: string, t: string, y: string)
    requires s + ":" + x == t + ":" + y
    ensures s == t || ColonPrefix(s, t) || ColonPrefix(t, s)
  {
    var text := s + ":" + x;
    assert text[..|s|] == s && text[..|s| + 1] == s + ":";
    assert text[..|t|] == t && text[..|t| + 1] == t + ":";
    if |s| < |t| {
      assert text[..|t|][..|s| + 1] == text[..|s| + 1];
    } else if |t| < |s| {
      assert text[..|s|][..|t| + 1] == text[..|t| + 1];
    }
  }

  lemma KeyTextSplit(s: string, e: string, i: string)
    ensures KeyText(s, e, i) == s + ":" + (e + ":" + i)
  {
  }

  ghost predicate ShareText(s: string, t: string) {
    exists e, i, f, j :: KeyText(s, e, i) == KeyText(t, f, j)
  }

  lemma ColonPrefixShares(s: string, t: string)
    requires ColonPrefix(s, t)
    ensures ShareText(s, t)
  {
    var r := t[|s| + 1..];
    assert t == s + ":" + r;
    KeyTextSplit(s, r + ":" + "e", "i");
    KeyTextSplit(t, "e", "i");
    assert s + ":" + r + ":" + ("e" + ":" + "i") == s + ":" + (r + ":" + "e" + ":" + "i");
    assert KeyText(s, r + ":" + "e", "i") == KeyText(t, "e", "i");
  }

  /** Two sources can share the text of a key exactly when one name is, or continues after a colon, the other. */
  lemma ShareTextExact(s: string, t: string)
    ensures ShareText(s, t) <==> s == t || ColonPrefix(s, t) || ColonPrefix(t, s)
  {
    if e, i, f, j :| KeyText(s, e, i) == KeyText(t, f, j) {
      KeyTextSplit(s, e, i);
      KeyTextSplit(t, f, j);
      NamesBeforeColon(s, e + ":" + i, t, f + ":" + j);
    }
    if s == t {
      assert KeyText(s, "", "") == KeyText(t, "", "");
    }
    if ColonPrefix(s, t) {
      ColonPrefixShares(s, t);
    }
    if ColonPrefix(t, s) {
      ColonPrefixShares(t, s);
      var e, i, f, j :| KeyText(t, e, i) == KeyText(s, f, j);
      assert KeyText(s, f, j) == KeyText(t, e, i);
    }
  }

  ghost predicate Injective(hash: string -> Digest) {
    forall a, b :: hash(a) == hash(b) ==> a == b
  }

  /** A key's text has two colons, a collision key's text only one. */
  lemma TextsDiffer(s: string, e: string, i: string, d: Digest, c: Digest)
    ensures KeyText(s, e, i) != d + ":" + c
  {
    var text, other := KeyText(s, e, i), d + ":" + c;
    if text == other {
      assert text[|s|] == ':' && text[|s| + 1 + |e|] == ':';
      OneColon(d, c, |s|);
      OneColon(d, c, |s| + 1 + |e|);
    }
  }

  lemma OneColon(d: Digest, c: Digest, k: int)
    requires 0 <= k < |d + ":" + c| && (d + ":" + c)[k] == ':'
    ensures k == |d|
  {
    var text := d + ":" + c;
    forall j | 0 <= j < |text| && j != |d| ensures text[j] != ':' {
      if j < |d| {
        assert text[j] == d[j] && d[j] in d;
      } else {
        assert text[j] == c[j - |d| - 1] && c[j - |d| - 1] in c;
      }
    }
  }

  lemma CollisionTextsFix(d: Digest, c: Digest, d': Digest, c': Digest)
    requires d + ":" + c == d' + ":" + c'
    ensures d == d'
  {
    var text := d + ":" + c;
    assert text[|d|] == ':' && (d' + ":" + c')[|d|] == ':';
    OneColon(d', c', |d|);
    assert text[..|d|] == d && text[..|d'|] == d';
  }

  /** With an injective hash no idempotency key is a collision key. */
  lemma KeysDiffer(config: Config, s: string, e: string, i: string, d: Digest, c: Digest)
    requires Injective(config.hash)
    ensures IdempotencyKey(config, s, e, i) != CollisionKey(config, d, c)
  {
    TextsDiffer(s, e, i, d, c);
  }

  lemma CollisionKeysFix(config: Config, d: Digest, c: Digest, d': Digest, c': Digest)
    requires Injective(config.hash) && CollisionKey(config, d, c) == CollisionKey(config, d', c')
    ensures d == d'
  {
    assert d + ":" + c == d' + ":" + c';
    CollisionTextsFix(d, c, d', c');
  }

  lemma IdempotencyKeysMeet(config: Config, s: string, e: string, i: string, t: string, f: string, j: string)
    requires Injective(config.hash) && IdempotencyKey(config, s, e, i) == IdempotencyKey(config, t, f, j)
    ensures ShareText(s, t)
  {
    assert KeyText(s, e, i) == KeyText(t, f, j);
  }

  /** With an injective hash, keys of two sources meet only where their key texts do. */
  lemma KeysMeet(config: Config, s: string, t: string, key: string)
    requires Injective(config.hash) && KeyFor(config, s, key) && KeyFor(config, t, key)
    ensures ShareText(s, t)
  {
    if e, i :| key == IdempotencyKey(config, s, e, i) {
      if f, j :| key == IdempotencyKey(config, t, f, j) {
        IdempotencyKeysMeet(config, s, e, i, t, f, j);
      } else {
        var f, j, c: Digest :| key == CollisionKey(config, IdempotencyKey(config, t, f, j), c);
        KeysDiffer(config, s, e, i, IdempotencyKey(config, t, f, j), c);
        assert false;
      }
    } else {
      var e, i, b: Digest :| key == CollisionKey(config, IdempotencyKey(config, s, e, i), b);
      if f, j :| key == IdempotencyKey(config, t, f, j) {
        KeysDiffer(config, t, f, j, IdempotencyKey(config, s, e, i), b);
        assert false;
      } else {
        var f, j, c: Digest :| key == CollisionKey(config, IdempotencyKey(config, t, f, j), c);
        CollisionKeysFix(config, IdempotencyKey(config, s, e, i), b, IdempotencyKey(config, t, f, j), c);
        IdempotencyKeysMeet(config, s, e, i, t, f, j);
      }
    }
  }

  /** With an injective hash, keys separate a set of sources exactly when no name continues another after a colon. */
  lemma KeysSeparateExact(config: Config, names: set<string>)
    requires Injective(config.hash)
    ensures KeysSeparate(config, names) <==> forall s, t :: s in names && t in names ==> !ColonPrefix(s, t)
  {
    if forall s, t :: s in names && t in names ==> !ColonPrefix(s, t) {
      forall s, t, key | s in names && t in names && KeyFor(config, s, key) && KeyFor(config, t, key) ensures s == t {
        KeysMeet(config, s, t, key);
        ShareTextExact(s, t);
      }
    }
    if KeysSeparate(config, names) {
      forall s, t | s in names && t in names ensures !ColonPrefix(s, t) {
        if ColonPrefix(s, t) {
          ColonPrefixShares(s, t);
          var e, i, f, j :| KeyText(s, e, i) == KeyText(t, f, j);
          var key := IdempotencyKey(config, s, e, i);
          assert key == IdempotencyKey(config, t, f, j);
          assert KeyFor(config, s, key) && KeyFor(config, t, key);
          assert false;
        }
      }
    }
  }

  /** So with an injective hash and such names, attached evidence is of the route's source. */
  lemma AttachedUnderHash(config: Config, names: set<string>, store: Store, task: Task, observation: Observation,
                          binding: Binding)
    requires binding.source in config.sources && Traceable(observation.provenance) && config.sources[binding.source] in names
    requires Injective(config.hash) && (forall s, t :: s in names && t in names ==> !ColonPrefix(s, t))
    requires Keyed(config, names, store) && Attachment(config, store, task, observation, binding).Some?
    ensures Attachment(config, store, task, observation, binding).value.1.source == config.sources[binding.source]
  {
    KeysSeparateExact(config, names);
    AttachedFromRouteSource(config, names, store, task, observation, binding);
  }
}

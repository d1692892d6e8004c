/** Running one observation in a sandbox: whatever happens, the sandbox is torn down again. */
module SandboxLifecycle {
  import opened Ordering

  datatype Status = Active | Destroyed

  /** How a call to the sandbox broker's back end ends. */
  datatype Reply<T> = Done(value: T) | Unavailable | Throws

  datatype Finished = Finished(succeeded: bool, stdout: Option<string>)

  /** What reaches the back end. */
  datatype Call = Created(id: string) | Executed(id: string, timeout: real) | Exported(id: string) | TornDown(id: string)

  datatype Result = Returned(succeeded: bool, rawRef: Option<string>, exports: seq<string>) | FailedUnavailable | Raised

  /** One invocation and the answers the back end has ready for it. */
  datatype Invocation = Invocation(
    isSandboxProgram: bool,
    createRequest: string,
    requestedTimeout: real,
    timeout: real,
    exportPaths: seq<string>,
    create: Reply<()>,
    exec: Reply<Finished>,
    exported: Reply<seq<string>>,
    teardown: Reply<()>)

  function Min(a: real, b: real): real { if b < a then b else a }

  /** The calls of one use of an instance: one run, an export if the run ended and one is asked for, and
      the teardown last. */
  function UseCalls(i: Invocation): seq<Call> {
    [Executed(i.createRequest, Min(i.requestedTimeout, i.timeout))]
    + (if i.exec.Done? && i.exportPaths != [] then [Exported(i.createRequest)] else [])
    + [TornDown(i.createRequest)]
  }

  /** The run ends, and the export as well if one is asked for. */
  predicate EndsWell(i: Invocation) { i.exec.Done? && (i.exportPaths != [] ==> i.exported.Done?) }

  /** Standard output when there is any, else the first export. */
  function RawRef(i: Invocation): Option<string>
    requires EndsWell(i)
  {
    var stdout := i.exec.value.stdout;
    if stdout.Some? && stdout.value != "" then stdout
    else if i.exportPaths != [] && i.exported.value != [] then Some(i.exported.value[0])
    else None
  }

  /** The time a run gets is within what the invocation asks for and what is left, and is one of the two. */
  lemma RunWithinTimeouts(i: Invocation, t: real)
    ensures Executed(i.createRequest, t) in UseCalls(i) <==>
      t <= i.requestedTimeout && t <= i.timeout && (t == i.requestedTimeout || t == i.timeout)
  {
    assert UseCalls(i)[0] == Executed(i.createRequest, Min(i.requestedTimeout, i.timeout));
  }

  /** Standard output that is not empty comes before exports, and the first export stands for all of them. */
  lemma RawRefExact(i: Invocation, ref: string)
    requires EndsWell(i)
    ensures RawRef(i) == Some(ref) <==>
      var stdout := i.exec.value.stdout;
      || (ref != "" && stdout == Some(ref))
      || ((stdout == None || stdout == Some("")) && i.exportPaths != [] && i.exported.value != [] && i.exported.value[0] == ref)
  {
  }

  /** The invocation finds its instance active or creates it. */
  predicate Obtains(instances: map<string, Status>, i: Invocation) {
    i.isSandboxProgram && if i.createRequest in instances then instances[i.createRequest] == Active else i.create.Done?
  }

  /** The instances and the calls that reached the back end. */
  datatype Broker = Broker(instances: map<string, Status>, log: seq<Call>)

  /** One invocation: an instance is created unless an active one is reused, used, and torn down. */
  function After(b: Broker, i: Invocation): Broker {
    if !Obtains(b.instances, i) then b
    else
      Broker(b.instances[i.createRequest := if i.teardown.Done? then Destroyed else Active],
             b.log + (if i.createRequest in b.instances then [] else [Created(i.createRequest)]) + UseCalls(i))
  }

  /** What an invocation comes to. A failed teardown replaces every other result. */
  function ResultOf(instances: map<string, Status>, i: Invocation): Result {
    if !i.isSandboxProgram then Raised
    else if !Obtains(instances, i) then
      if i.createRequest in instances || i.create.Unavailable? then FailedUnavailable else Raised
    else if !i.teardown.Done? then Raised
    else if EndsWell(i) then
      Returned(i.exec.value.succeeded, RawRef(i), if i.exportPaths == [] then [] else i.exported.value)
    else if i.exec.Unavailable? || (i.exec.Done? && i.exported.Unavailable?) then FailedUnavailable
    else Raised
  }

  /** Any sequence of invocations, and their results. */
  function RunOf(b: Broker, invocations: seq<Invocation>): (Broker, seq<Result>) {
    if invocations == [] then (b, [])
    else
      var last := invocations[|invocations| - 1];
      var (before, results) := RunOf(b, invocations[..|invocations| - 1]);
      (After(before, last), results + [ResultOf(before.instances, last)])
  }

  class Sandboxes {
    var instances: map<string, Status>
    var log: seq<Call>

    constructor ()
      ensures instances == map[] && log == []
    {
      instances, log := map[], [];
    }

    function State(): Broker
      reads this
    {
      Broker(instances, log)
    }

    /** An existing instance of the request is reused while it is active, and never revived. */
    method Create(request: string, reply: Reply<()>) returns (r: Reply<string>)
      modifies this
      ensures r.Done? ==> r.value == request && instances == old(instances)[request := Active]
      ensures r.Done? <==> if request in old(instances) then old(instances)[request] == Active else reply.Done?
      ensures r.Done? ==> log == if request in old(instances) then old(log) else old(log) + [Created(request)]
      ensures !r.Done? ==> instances == old(instances) && log == old(log)
      ensures !r.Done? ==> r == if request in old(instances) || reply.Unavailable? then Unavailable else Throws
    {
      if request in instances {
        if instances[request] == Active {
          return Done(request);
        }
        return Unavailable;
      }
      match reply {
        case Unavailable => return Unavailable;
        case Throws => return Throws;
        case Done(_) =>
          instances := instances[request := Active];
          log := log + [Created(request)];
          return Done(request);
      }
    }

    /** Tears an instance down once; a second call finds nothing to do. */
    method Destroy(id: string, reply: Reply<()>) returns (ok: bool)
      requires id in instances
      modifies this
      ensures log == if old(instances)[id] == Active then old(log) + [TornDown(id)] else old(log)
      ensures ok <==> old(instances)[id] == Destroyed || reply.Done?
      ensures instances == if ok then old(instances)[id := Destroyed] else old(instances)
    {
      if instances[id] == Destroyed {
        assert instances == instances[id := Destroyed];
        return true;
      }
      log := log + [TornDown(id)];
      if !reply.Done? {
        return false;
      }
      instances := instances[id := Destroyed];
      ok := true;
    }

    /** `_SandboxCapabilityExecutor.execute`, its `finally` included. */
    method Execute(i: Invocation) returns (r: Result)
      modifies this
      ensures State() == After(old(State()), i) && r == ResultOf(old(instances), i)
    {
      if !i.isSandboxProgram {
        return Raised;
      }
      var made := Create(i.createRequest, i.create);
      match made {
        case Unavailable => return FailedUnavailable;
        case Throws => return Raised;
        case Done(_) =>
      }
      ghost var start := log;
      var id := i.createRequest;
      log := log + [Executed(id, Min(i.requestedTimeout, i.timeout))];
      match i.exec {
        case Unavailable => r := FailedUnavailable;
        case Throws => r := Raised;
        case Done(finished) =>
          if i.exportPaths != [] {
            log := log + [Exported(id)];
            match i.exported {
              case Unavailable => r := FailedUnavailable;
              case Throws => r := Raised;
              case Done(exports) => r := Returned(finished.succeeded, RawRef(i), exports);
            }
          } else {
            r := Returned(finished.succeeded, RawRef(i), []);
          }
      }
      var ok := Destroy(id, i.teardown);
      assert log == start + UseCalls(i);
      if !ok {
        r := Raised;
      }
    }

    /** Invocations one after the other. */
    method RunAll(invocations: seq<Invocation>) returns (results: seq<Result>)
      modifies this
      ensures (State(), results) == RunOf(old(State()), invocations)
    {
      results := [];
      for k := 0 to |invocations|
        invariant (State(), results) == RunOf(old(State()), invocations[..k])
      {
        assert invocations[..k + 1][..k] == invocations[..k];
        var r := Execute(invocations[k]);
        results := results + [r];
      }
      assert invocations[..|invocations|] == invocations;
    }
  }

  // ---------------------------------------------------------------- what runs keep

  ghost predicate TearsDown(invocations: seq<Invocation>) {
    forall k :: 0 <= k < |invocations| ==> invocations[k].teardown.Done?
  }

  /** As long as tearing down succeeds, a run leaves no sandbox active that was not. */
  lemma {:induction false} NoneLeftActive(b: Broker, invocations: seq<Invocation>, id: string)
    requires TearsDown(invocations)
    requires var after := RunOf(b, invocations).0; id in after.instances && after.instances[id] == Active
    ensures id in b.instances && b.instances[id] == Active
  {
    if invocations != [] {
      NoneLeftActive(b, invocations[..|invocations| - 1], id);
    }
  }

  /** The calls about one instance. */
  function About(log: seq<Call>, id: string): seq<Call> {
    if log == [] then []
    else About(log[..|log| - 1], id) + if log[|log| - 1].id == id then [log[|log| - 1]] else []
  }

  lemma {:induction false} AboutAppend(a: seq<Call>, b: seq<Call>, id: string)
    ensures About(a + b, id) == About(a, id) + About(b, id)
  {
    if b == [] {
      assert a + b == a;
    } else {
      assert (a + b)[..|a + b| - 1] == a + b[..|b| - 1];
      AboutAppend(a, b[..|b| - 1], id);
    }
  }

  lemma {:induction false} AboutAll(log: seq<Call>, id: string, other: string)
    requires forall k :: 0 <= k < |log| ==> log[k].id == other
    ensures About(log, id) == if id == other then log else []
  {
    if log != [] { AboutAll(log[..|log| - 1], id, other); }
  }

  /** The whole life of an instance: created, used by one invocation, torn down. */
  ghost predicate OneLife(invocations: seq<Invocation>, id: string, calls: seq<Call>) {
    exists k :: 0 <= k < |invocations| && invocations[k].createRequest == id && calls == [Created(id)] + UseCalls(invocations[k])
  }

  /** From nothing, and with teardowns that succeed, every instance has no life or one: it is created once,
      used once, torn down once and never touched again. */
  lemma {:induction false} OneLifeEach(invocations: seq<Invocation>, id: string)
    requires TearsDown(invocations)
    ensures var after := RunOf(Broker(map[], []), invocations).0;
      if id in after.instances then after.instances[id] == Destroyed && OneLife(invocations, id, About(after.log, id))
      else About(after.log, id) == []
  {
    if invocations != [] {
      var front, last := invocations[..|invocations| - 1], invocations[|invocations| - 1];
      var before := RunOf(Broker(map[], []), front).0;
      assert invocations == front + [last];
      OneLifeEach(front, id);
      LifeGrows(front, last, id, About(before.log, id));
      if Obtains(before.instances, last) {
        NotReused(front, last);
        AboutUse(before, last, id);
        LifeNow(front, last);
      }
    }
  }

  /** The use of a new instance adds its calls to what is known about it, and none about others. */
  lemma AboutUse(b: Broker, i: Invocation, id: string)
    requires Obtains(b.instances, i) && i.createRequest !in b.instances
    ensures About(After(b, i).log, id)
      == About(b.log, id) + if id == i.createRequest then [Created(id)] + UseCalls(i) else []
  {
    var calls := [Created(i.createRequest)] + UseCalls(i);
    assert After(b, i).log == b.log + calls by { assert After(b, i).log == b.log + [Created(i.createRequest)] + UseCalls(i); }
    AboutAppend(b.log, calls, id);
    UseNames(i);
    AboutAll(calls, id, i.createRequest);
  }

  lemma UseNames(i: Invocation)
    ensures forall k :: 0 <= k < |UseCalls(i)| ==> UseCalls(i)[k].id == i.createRequest
  {
  }

  lemma LifeNow(front: seq<Invocation>, last: Invocation)
    ensures OneLife(front + [last], last.createRequest, [] + ([Created(last.createRequest)] + UseCalls(last)))
  {
    assert (front + [last])[|front|] == last;
  }

  lemma LifeGrows(front: seq<Invocation>, last: Invocation, id: string, calls: seq<Call>)
    ensures OneLife(front, id, calls) ==> OneLife(front + [last], id, calls)
  {
    if k :| 0 <= k < |front| && front[k].createRequest == id && calls == [Created(id)] + UseCalls(front[k]) {
      assert (front + [last])[k] == front[k];
    }
  }

  /** With teardowns that succeed, no instance is found active, so whatever is obtained is created. */
  lemma NotReused(front: seq<Invocation>, last: Invocation)
    requires TearsDown(front) && Obtains(RunOf(Broker(map[], []), front).0.instances, last)
    ensures last.createRequest !in RunOf(Broker(map[], []), front).0.instances
  {
    var after := RunOf(Broker(map[], []), front).0;
    if last.createRequest in after.instances {
      NoneLeftActive(Broker(map[], []), front, last.createRequest);
    }
  }
}

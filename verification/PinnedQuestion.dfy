/** A live question pinned to one Knowledge revision, while other processes write Knowledge. */
module PinnedQuestion {
  import opened Ordering

  datatype Outcome = DriftedBefore | AskFailed | ContextMismatch | DriftedDuring | NoModelRequest | Answered

  ghost predicate Monotone(h: seq<int>) {
    forall i, j :: 0 <= i <= j < |h| ==> h[i] <= h[j]
  }

  ghost predicate Constant(h: seq<int>, first: int, last: int, value: int)
    requires 0 <= first <= last < |h|
  {
    forall t :: first <= t <= last ==> h[t] == value
  }

  /** Writers only raise the revision, so two equal readings leave no room for a change between them. */
  lemma Squeeze(h: seq<int>, first: int, last: int, value: int)
    requires Monotone(h) && 0 <= first <= last < |h|
    ensures h[first] == value && h[last] == value <==> Constant(h, first, last, value)
  {
  }

  /** A context: the revision it names, if it names one, and the moment that revision was read. */
  datatype Context = Context(revision: Option<int>, ghost moment: nat)

  /** A run makes a model request on behalf of a product request, or its current context is set. */
  datatype Entry = Requests(product: string, run: string) | Sets(run: string, context: Context)

  /** How many of the latest model requests are looked through. */
  const LIMIT := 100

  datatype ModelRequest = ModelRequest(product: string, run: string)

  ghost function RequestsOf(log: seq<Entry>): seq<ModelRequest> {
    if log == [] then []
    else
      var before, last := RequestsOf(log[..|log| - 1]), log[|log| - 1];
      if last.Requests? then before + [ModelRequest(last.product, last.run)] else before
  }

  ghost function ContextsOf(log: seq<Entry>): map<string, Context> {
    if log == [] then map[]
    else
      var before, last := ContextsOf(log[..|log| - 1]), log[|log| - 1];
      if last.Sets? then before[last.run := last.context] else before
  }

  /** The runs that made one of the latest requests for a product request. */
  function RunsOf(requests: seq<ModelRequest>, product: string): set<string> {
    var recent := if |requests| > LIMIT then requests[|requests| - LIMIT..] else requests;
    set k | 0 <= k < |recent| && recent[k].product == product :: recent[k].run
  }

  /** Their current contexts. */
  function Seen(requests: seq<ModelRequest>, contexts: map<string, Context>, product: string): map<string, Context> {
    map run | run in RunsOf(requests, product) && run in contexts :: contexts[run]
  }

  /** What a reader of the store finds after these entries. */
  ghost function SeenIn(log: seq<Entry>, product: string): map<string, Context> {
    Seen(RequestsOf(log), ContextsOf(log), product)
  }

  // ---------------------------------------------------------------- the same, read off the log

  /** Entry `k` is one of the latest requests, made by a run for a product request. */
  ghost predicate Asks(log: seq<Entry>, k: int, product: string, run: string) {
    0 <= k < |log| && log[k] == Requests(product, run) && |Later(log, k)| < 100
  }

  /** The model requests made after entry `k`. */
  ghost function Later(log: seq<Entry>, k: int): set<int>
    requires 0 <= k
  {
    set j | k < j < |log| && log[j].Requests?
  }

  /** The context a run has set last. */
  ghost predicate SetsLast(log: seq<Entry>, run: string, c: Context) {
    exists j :: SetsLastAt(log, j, run, c)
  }

  ghost predicate SetsLastAt(log: seq<Entry>, j: int, run: string, c: Context) {
    && 0 <= j < |log| && log[j] == Sets(run, c)
    && forall i :: j < i < |log| && log[i].Sets? ==> log[i].run != run
  }

  /** A run that made one of the latest requests for the product request has this context. */
  ghost predicate Shows(log: seq<Entry>, product: string, c: Context) {
    exists k, run :: Asks(log, k, product, run) && SetsLast(log, run, c)
  }

  /** One of these contexts names the pin, and none names another revision. */
  ghost predicate ShowsPin(log: seq<Entry>, product: string, pin: int) {
    && (exists c :: Shows(log, product, c) && c.revision == Some(pin))
    && forall c :: Shows(log, product, c) && c.revision.Some? ==> c.revision.value == pin
  }

  lemma LaterNext(log: seq<Entry>, k: int)
    requires 0 <= k < |log| - 1
    ensures |Later(log, k)| == |Later(log[..|log| - 1], k)| + if log[|log| - 1].Requests? then 1 else 0
  {
    var last := |log| - 1;
    assert Later(log, k) == Later(log[..last], k) + if log[last].Requests? then {last} else {};
  }

  /** Where a request stands among the model requests, and how many come after it. */
  lemma {:induction false} PlaceOf(log: seq<Entry>, k: int)
    requires 0 <= k < |log| && log[k].Requests?
    ensures var i := |RequestsOf(log[..k])|;
      && |RequestsOf(log)| == i + 1 + |Later(log, k)|
      && RequestsOf(log)[i] == ModelRequest(log[k].product, log[k].run)
    decreases |log|
  {
    var last := |log| - 1;
    if k == last {
      assert Later(log, k) == {};
    } else {
      LaterNext(log, k);
      PlaceOf(log[..last], k);
      assert log[..last][..k] == log[..k];
    }
  }

  /** Every model request stands in the log. */
  lemma {:induction false} EntryOf(log: seq<Entry>, i: int) returns (k: int)
    requires 0 <= i < |RequestsOf(log)|
    ensures 0 <= k < |log| && log[k].Requests? && |RequestsOf(log[..k])| == i
    decreases |log|
  {
    var last := |log| - 1;
    if i < |RequestsOf(log[..last])| {
      k := EntryOf(log[..last], i);
      assert log[..last][..k] == log[..k];
    } else {
      k := last;
    }
  }

  lemma RunsExact(log: seq<Entry>, product: string, run: string)
    ensures run in RunsOf(RequestsOf(log), product) <==> exists k :: Asks(log, k, product, run)
  {
    var requests := RequestsOf(log);
    var skipped := if |requests| > LIMIT then |requests| - LIMIT else 0;
    if run in RunsOf(requests, product) {
      var i :| skipped <= i < |requests| && requests[i] == ModelRequest(product, run);
      var k := EntryOf(log, i);
      PlaceOf(log, k);
      assert Asks(log, k, product, run);
    }
    if k :| Asks(log, k, product, run) {
      PlaceOf(log, k);
      var i := |RequestsOf(log[..k])|;
      assert requests[skipped..][i - skipped] == requests[i];
    }
  }

  /** An entry about another run, or a request, leaves what a run has set last. */
  lemma SetsLastNext(log: seq<Entry>, run: string, c: Context)
    requires log != [] && !(log[|log| - 1].Sets? && log[|log| - 1].run == run)
    ensures SetsLast(log, run, c) <==> SetsLast(log[..|log| - 1], run, c)
  {
    var front := log[..|log| - 1];
    if j :| SetsLastAt(front, j, run, c) { assert SetsLastAt(log, j, run, c); }
    if j :| SetsLastAt(log, j, run, c) { assert SetsLastAt(front, j, run, c); }
  }

  lemma {:induction false} ContextExact(log: seq<Entry>, run: string, c: Context)
    ensures run in ContextsOf(log) && ContextsOf(log)[run] == c <==> SetsLast(log, run, c)
  {
    if log != [] {
      var last := log[|log| - 1];
      if last.Sets? && last.run == run {
        assert last.context == c ==> SetsLastAt(log, |log| - 1, run, c);
      } else {
        SetsLastNext(log, run, c);
        ContextExact(log[..|log| - 1], run, c);
      }
    }
  }

  lemma ShowsExact(log: seq<Entry>, product: string, c: Context)
    ensures Shows(log, product, c) <==> exists run :: run in SeenIn(log, product) && SeenIn(log, product)[run] == c
  {
    forall run ensures run in SeenIn(log, product) && SeenIn(log, product)[run] == c <==>
      (exists k :: Asks(log, k, product, run)) && SetsLast(log, run, c)
    {
      RunsExact(log, product, run);
      ContextExact(log, run, c);
    }
  }

  lemma ShowsPinExact(log: seq<Entry>, product: string, pin: int)
    ensures ShowsPin(log, product, pin) <==> NamesPin(SeenIn(log, product), pin)
  {
    var seen := SeenIn(log, product);
    forall c { ShowsExact(log, product, c); }
    forall run | run in seen ensures Shows(log, product, seen[run]) {}
  }

  /** The shared store. `history` holds the revision at every moment so far, `log` every entry made. */
  class World {
    var revision: int
    var requests: seq<ModelRequest>
    var contexts: map<string, Context>   // the current context of every run
    ghost var history: seq<int>
    ghost var log: seq<Entry>

    ghost predicate Valid()
      reads this
    {
      && history != [] && history[|history| - 1] == revision && Monotone(history)
      && (forall k :: 0 <= k < |log| && log[k].Sets? ==> Honest(log[k].context, history))
      && requests == RequestsOf(log) && contexts == ContextsOf(log)
    }

    constructor (start: int)
      ensures Valid() && revision == start && log == []
    {
      revision, requests, contexts, history, log := start, [], map[], [start], [];
    }

    /** Only moments and entries were added. */
    twostate predicate Extends()
      reads this
    {
      old(history) <= history && old(log) <= log
    }

    /** A writer commits a new Knowledge revision. */
    method Raise(step: nat)
      requires Valid()
      modifies this
      ensures Valid() && Extends() && log == old(log)
      ensures history == old(history) + [old(revision) + step]
    {
      revision := revision + step;
      history := history + [revision];
    }

    /** A run makes a context its current one; the context names the revision just read, or none. */
    method Set(run: string, named: bool)
      requires Valid()
      modifies this
      ensures Valid() && Extends() && history == old(history)
      ensures log == old(log) + [Sets(run, Context(if named then Some(revision) else None, |history| - 1))]
    {
      var context := Context(if named then Some(revision) else None, |history| - 1);
      contexts := contexts[run := context];
      ghost var before := log;
      log := log + [Sets(run, context)];
      assert log[..|log| - 1] == before;
    }

    /** A run makes a model request. */
    method Request(product: string, run: string)
      requires Valid()
      modifies this
      ensures Valid() && Extends() && history == old(history) && log == old(log) + [Requests(product, run)]
    {
      requests := requests + [ModelRequest(product, run)];
      ghost var before := log;
      log := log + [Requests(product, run)];
      assert log[..|log| - 1] == before;
    }

    /** One step of any process. */
    method Step()
      requires Valid()
      modifies this
      ensures Valid() && Extends()
    {
      var kind: int, run: string := *, *;
      if kind == 0 {
        var step: nat := *;
        Raise(step);
      } else if kind == 1 {
        var named: bool := *;
        Set(run, named);
      } else {
        var product: string := *;
        Request(product, run);
      }
    }

    /** Any number of steps of other processes, on this request or others. */
    method Others()
      requires Valid()
      modifies this
      ensures Valid() && Extends()
    {
      var steps: nat :| true;
      for i := 0 to steps
        invariant Valid() && Extends()
      {
        Step();
      }
    }

    /** Answering the question: its runs set contexts and make requests, with others at work meanwhile. */
    method Ask(request: string)
      requires Valid()
      modifies this
      ensures Valid() && Extends()
    {
      var steps: nat :| true;
      for i := 0 to steps
        invariant Valid() && Extends()
      {
        Others();
        var run: string, named: bool := *, *;
        Set(run, named);
        Request(request, run);
      }
    }

    /** The revisions named by the contexts found for a product request. */
    function Revisions(request: string): (r: set<int>)
      reads this
      ensures forall x :: x in r <==> Names(Seen(requests, contexts, request), x)
    {
      var seen := Seen(requests, contexts, request);
      set run | run in seen && seen[run].revision.Some? :: seen[run].revision.value
    }

    /** `execute_product_question_qa_execution`, as far as the pin goes. `first` and `last` are the moments
        of its first and last step, `read` the number of entries made when it looks through the latest
        requests for contexts, and `fails` says whether answering raises. */
    method Execute(request: string, pin: Option<int>, fails: bool)
      returns (outcome: Outcome, ghost first: nat, ghost last: nat, ghost read: nat)
      requires Valid()
      modifies this
      ensures Valid() && Extends()
      ensures |old(history)| - 1 <= first <= last < |history| && |old(log)| <= read <= |log|
      ensures outcome == if pin.None? then if fails then AskFailed else Answered
        else if history[first] != pin.value then DriftedBefore
        else if fails then AskFailed
        else if !ShowsPin(log[..read], request, pin.value) then ContextMismatch
        else if history[last] != pin.value then DriftedDuring
        else Answered
      ensures outcome.Answered? && pin.Some? ==>
        Constant(history, first, last, pin.value) && ShowsPin(log[..read], request, pin.value)
    {
      Others();
      first, last, read := |history| - 1, |history| - 1, |log|;
      if pin.Some? && revision != pin.value {
        return DriftedBefore, first, last, read;
      }
      Ask(request);
      last := |history| - 1;
      if fails {
        return AskFailed, first, last, read;
      }
      Others();
      last := |history| - 1;
      var observed := Revisions(request);
      read := |log|;
      assert log[..read] == log;
      if pin.Some? {
        PinnedContexts(observed, Seen(requests, contexts, request), pin.value);
        ShowsPinExact(log, request, pin.value);
        if observed != {pin.value} {
          return ContextMismatch, first, last, read;
        }
        ghost var seen := log;
        Others();
        assert log[..read] == seen;
        last := |history| - 1;
        if revision != pin.value {
          return DriftedDuring, first, last, read;
        }
        Squeeze(history, first, last, pin.value);
      }
      outcome := Answered;
    }

    /** `load_product_question_timeout_qa_prediction`: no reading before, only contexts and one after. */
    method LoadTimeout(request: string, pin: Option<int>, recorded: bool)
      returns (outcome: Outcome, ghost last: nat, ghost read: nat)
      requires Valid()
      modifies this
      ensures Valid() && Extends()
      ensures |old(history)| - 1 <= last < |history| && |old(log)| <= read <= |log|
      ensures outcome == if !recorded then NoModelRequest
        else if pin.None? then Answered
        else if !ShowsPin(log[..read], request, pin.value) then ContextMismatch
        else if history[last] != pin.value then DriftedDuring
        else Answered
      ensures outcome.Answered? && pin.Some? ==>
        forall c :: Shows(log[..read], request, c) && c.revision.Some? ==> PinnedSince(history, c, last, pin.value)
    {
      Others();
      last, read := |history| - 1, |log|;
      if !recorded {
        return NoModelRequest, last, read;
      }
      if pin.Some? {
        var observed := Revisions(request);
        assert log[..read] == log;
        PinnedContexts(observed, Seen(requests, contexts, request), pin.value);
        ShowsPinExact(log, request, pin.value);
        if observed != {pin.value} {
          return ContextMismatch, last, read;
        }
        ghost var seen, soFar := log, history;
        Others();
        assert log[..read] == seen;
        last := |history| - 1;
        if revision != pin.value {
          return DriftedDuring, last, read;
        }
        SeenHonest(seen, request, soFar);
        AllSqueezed(history, SeenIn(seen, request), last, pin.value);
        forall c | Shows(seen, request, c) && c.revision.Some? ensures PinnedSince(history, c, last, pin.value) {
          ShowsExact(seen, request, c);
        }
      }
      outcome := Answered;
    }
  }

  /** A context that names a revision read it at its moment. */
  ghost predicate Honest(c: Context, history: seq<int>) {
    c.moment < |history| && (c.revision.Some? ==> history[c.moment] == c.revision.value)
  }

  lemma {:induction false} ContextsHonest(log: seq<Entry>, run: string, history: seq<int>)
    requires forall k :: 0 <= k < |log| && log[k].Sets? ==> Honest(log[k].context, history)
    requires run in ContextsOf(log)
    ensures Honest(ContextsOf(log)[run], history)
  {
    var last := log[|log| - 1];
    if !(last.Sets? && last.run == run) {
      ContextsHonest(log[..|log| - 1], run, history);
    }
  }

  lemma SeenHonest(log: seq<Entry>, request: string, history: seq<int>)
    requires forall k :: 0 <= k < |log| && log[k].Sets? ==> Honest(log[k].context, history)
    ensures forall run :: run in SeenIn(log, request) ==> Honest(SeenIn(log, request)[run], history)
  {
    forall run | run in SeenIn(log, request) ensures Honest(SeenIn(log, request)[run], history) {
      ContextsHonest(log, run, history);
    }
  }

  ghost predicate Names(contexts: map<string, Context>, x: int) {
    exists run :: run in contexts && contexts[run].revision == Some(x)
  }

  /** Some context names the pin, and none names anything else. */
  ghost predicate NamesPin(contexts: map<string, Context>, pin: int) {
    Names(contexts, pin) && forall run :: run in contexts && contexts[run].revision.Some? ==> contexts[run].revision.value == pin
  }

  /** The revision has been the pin from when any of these contexts that names one was set. */
  ghost predicate AllPinnedSince(history: seq<int>, contexts: map<string, Context>, last: nat, pin: int)
    requires last < |history|
  {
    forall run :: run in contexts && contexts[run].revision.Some? ==> PinnedSince(history, contexts[run], last, pin)
  }

  ghost predicate PinnedSince(history: seq<int>, c: Context, last: nat, pin: int)
    requires last < |history|
  {
    c.revision == Some(pin) && c.moment <= last && Constant(history, c.moment, last, pin)
  }

  lemma AllSqueezed(history: seq<int>, contexts: map<string, Context>, last: nat, pin: int)
    requires Monotone(history) && last == |history| - 1 && history[last] == pin && NamesPin(contexts, pin)
    requires forall run :: run in contexts ==> Honest(contexts[run], history)
    ensures AllPinnedSince(history, contexts, last, pin)
  {
    forall run | run in contexts && contexts[run].revision.Some? ensures PinnedSince(history, contexts[run], last, pin) {
      assert Honest(contexts[run], history);
      Squeeze(history, contexts[run].moment, last, pin);
    }
  }

  lemma PinnedContexts(observed: set<int>, contexts: map<string, Context>, pin: int)
    requires forall x :: x in observed <==> Names(contexts, x)
    ensures observed == {pin} <==> NamesPin(contexts, pin)
  {
    if observed == {pin} {
      assert pin in observed;
      forall run | run in contexts && contexts[run].revision.Some? ensures contexts[run].revision.value == pin {
        assert Names(contexts, contexts[run].revision.value);
      }
    }
    if NamesPin(contexts, pin) {
      forall x ensures x in observed <==> x == pin {
        if run :| run in contexts && contexts[run].revision == Some(x) { assert x == pin; }
      }
    }
  }

  /** Contexts set while the revision stood at the pin name the pin or none; so the check on the contexts
      can fail only for want of one that names a revision, or for one set before the first reading. */
  lemma ContextsArePinned(contexts: map<string, Context>, history: seq<int>, first: nat, last: nat, pin: int)
    requires first <= last < |history| && Constant(history, first, last, pin)
    requires forall run :: run in contexts ==> Honest(contexts[run], history) && contexts[run].moment <= last
    ensures !NamesPin(contexts, pin) ==>
      || (forall run :: run in contexts ==> contexts[run].revision.None?)
      || exists run :: run in contexts && contexts[run].moment < first
  {
    if run :| run in contexts && contexts[run].revision.Some? && contexts[run].moment >= first {
      assert contexts[run].revision == Some(pin);
      assert Names(contexts, pin);
    }
  }
}

/** Spacing and retrying NVD requests over a whole refresh run. */
module RequestSpacing {
  import opened Ordering

  /** One request: the clock when it was let through, and when it failed if it did. */
  datatype Attempt = Attempt(case_: nat, at: real, failedAt: Option<real>)

  /** What one request comes to: an answer, one of the two failures that are retried, or another exception. */
  datatype Reply = Answer | Retryable | Other

  const ATTEMPTS := 6

  /** The attempt was for this case and ended like this. */
  predicate Ends(a: Attempt, c: nat, reply: Reply) {
    a.case_ == c && (a.failedAt.None? <==> reply.Answer?)
  }

  /** Each request starts at least `gap` after the one before, and after that one's failure if it failed. */
  ghost predicate Spaced(gap: real, log: seq<Attempt>) {
    forall i :: 0 < i < |log| ==> After(gap, log[i - 1], log[i].at)
  }

  predicate After(gap: real, a: Attempt, t: real) {
    a.at + gap <= t && (a.failedAt.Some? ==> a.failedAt.value + gap <= t)
  }

  /** Requests of case `c` in the log. */
  function CountCase(log: seq<Attempt>, c: nat): nat {
    if log == [] then 0 else CountCase(log[..|log| - 1], c) + if log[|log| - 1].case_ == c then 1 else 0
  }

  lemma {:induction false} CountCaseAppend(before: seq<Attempt>, log: seq<Attempt>, c: nat, d: nat)
    requires before <= log && forall i :: |before| <= i < |log| ==> log[i].case_ == c
    ensures CountCase(log, d) == CountCase(before, d) + if d == c then |log| - |before| else 0
    decreases |log|
  {
    if |log| == |before| {
      assert log == before;
    } else {
      CountCaseAppend(before, log[..|log| - 1], c, d);
    }
  }

  /** How many attempts a query makes: up to and with the first reply that is not retried. */
  function Needed(replies: seq<Reply>): (n: nat)
    requires replies != []
    ensures 1 <= n <= |replies| && (forall i :: 0 <= i < n - 1 ==> replies[i].Retryable?)
    ensures n == |replies| || !replies[n - 1].Retryable?
  {
    if replies[0].Retryable? && |replies| > 1 then 1 + Needed(replies[1..]) else 1
  }

  /** At most six attempts, and all six exactly when the first five fail in one of the two ways. */
  lemma SixAtMost(replies: seq<Reply>)
    requires |replies| == ATTEMPTS
    ensures 1 <= Needed(replies) <= 6
    ensures Needed(replies) == 6 <==> forall i :: 0 <= i < 5 ==> replies[i].Retryable?
  {
    if Needed(replies) < 6 {
      assert !replies[Needed(replies) - 1].Retryable?;
    }
  }

  /** The reply a query ends with. */
  function Ending(replies: seq<Reply>): Reply
    requires replies != []
  {
    replies[Needed(replies) - 1]
  }

  /** What `n` attempts make of `Needed` when the next one is the last. */
  lemma NeededIs(replies: seq<Reply>, n: nat)
    requires 1 <= n <= |replies| && (forall i :: 0 <= i < n - 1 ==> replies[i].Retryable?)
    requires n == |replies| || !replies[n - 1].Retryable?
    ensures Needed(replies) == n
  {
  }

  /** How many cases a run asks for: up to and with the first that is not answered. */
  function Asked(replies: seq<seq<Reply>>): (n: nat)
    requires forall c :: 0 <= c < |replies| ==> replies[c] != []
    ensures n <= |replies|
  {
    if replies == [] then 0
    else
      var n := Asked(replies[..|replies| - 1]);
      if n == |replies| - 1 && AllAnswered(replies[..n]) then n + 1 else n
  }

  predicate AllAnswered(replies: seq<seq<Reply>>)
    requires forall c :: 0 <= c < |replies| ==> replies[c] != []
  {
    forall c :: 0 <= c < |replies| ==> Ending(replies[c]).Answer?
  }

  /** `n` cases are asked when those before the last are answered, and the last is not or is the last of all. */
  lemma {:induction false} AskedIs(replies: seq<seq<Reply>>, n: nat)
    requires (forall c :: 0 <= c < |replies| ==> replies[c] != []) && n <= |replies|
    requires forall c :: 0 <= c < n - 1 ==> Ending(replies[c]).Answer?
    requires n == |replies| || (n > 0 && !Ending(replies[n - 1]).Answer?)
    ensures Asked(replies) == n
  {
    if replies != [] {
      var m := |replies| - 1;
      var front := replies[..m];
      if n == |replies| {
        AskedIs(front, m);
        assert forall c :: 0 <= c < m ==> front[c] == replies[c];
        assert front[..m] == front && replies[..m] == front;
      } else {
        AskedIs(front, n);
        if n == m { assert !Ending(front[n - 1]).Answer? && replies[..n] == front; }
      }
    }
  }

  /** The cases asked for, in order: case `c` stands as often as it needs. */
  ghost predicate Counted(log: seq<Attempt>, replies: seq<seq<Reply>>, n: nat)
    requires n <= |replies| && forall c :: 0 <= c < |replies| ==> replies[c] != []
  {
    && (forall d: nat :: CountCase(log, d) == if d < n then Needed(replies[d]) else 0)
    && (forall i :: 0 <= i < |log| ==> log[i].case_ < n)
    && forall i, j :: 0 <= i <= j < |log| ==> log[i].case_ <= log[j].case_
  }

  /** What a query adds to the log: as many attempts as its replies need, each ending with its reply. */
  ghost predicate Attempted(before: seq<Attempt>, log: seq<Attempt>, c: nat, replies: seq<Reply>)
    requires replies != []
  {
    && before < log && |log| - |before| == Needed(replies)
    && forall i :: |before| <= i < |log| ==> Ends(log[i], c, replies[i - |before|])
  }

  lemma CountedNext(before: seq<Attempt>, log: seq<Attempt>, replies: seq<seq<Reply>>, c: nat)
    requires c < |replies| && forall d :: 0 <= d < |replies| ==> replies[d] != []
    requires Counted(before, replies, c) && Attempted(before, log, c, replies[c])
    ensures Counted(log, replies, c + 1)
  {
    forall d: nat ensures CountCase(log, d) == if d < c + 1 then Needed(replies[d]) else 0 {
      CountCaseAppend(before, log, c, d);
    }
    assert forall i :: 0 <= i < |before| ==> log[i] == before[i];
  }

  /** Any k requests of a run span at least k - 1 intervals. */
  lemma {:induction false} SpanAtLeast(gap: real, log: seq<Attempt>, i: nat, j: nat)
    requires Spaced(gap, log) && i <= j < |log|
    ensures log[i].at + (j - i) as real * gap <= log[j].at
    decreases j
  {
    if i < j {
      SpanAtLeast(gap, log, i, j - 1);
      assert After(gap, log[j - 1], log[j].at);
      assert (j - i) as real * gap == (j - 1 - i) as real * gap + gap;
    }
  }

  /** The clock, the earliest time of the next request, and what was sent. The event loop may end a sleep
      early by at most `slack`, its clock resolution. */
  class Refresher {
    const interval: real
    const slack: real
    var now: real
    var next: real
    var log: seq<Attempt>

    constructor (interval: real, slack: real, now: real)
      requires slack >= 0.0
      ensures this.interval == interval && this.slack == slack && this.now == now && next == 0.0 && log == [] && Valid()
    {
      this.interval, this.slack, this.now, next, log := interval, slack, now, 0.0, [];
    }

    function Gap(): real { interval - slack }

    /** The log is spaced, and the next request is due an interval after the last one. */
    ghost predicate Valid()
      reads this
    {
      && slack >= 0.0
      && Spaced(Gap(), log)
      && (log != [] ==> After(interval, log[|log| - 1], next))
    }

    /** The clock is monotone: any later time may be read. */
    method Tick()
      modifies this`now
      ensures now >= old(now)
    {
      var t: real := *;
      now := if t > now then t else now;
    }

    method Sleep(seconds: real)
      requires slack >= 0.0
      modifies this`now
      ensures now >= old(now) && now >= old(now) + seconds - slack
    {
      var t: real := *;
      var earliest := if seconds > slack then now + seconds - slack else now;
      now := if t > earliest then t else earliest;
    }

    /** Waits until a request is due. */
    method Await()
      requires Valid()
      modifies this`now
      ensures Valid() && now >= old(now)
      ensures log != [] ==> After(Gap(), log[|log| - 1], now)
    {
      Tick();
      var wait := if next - now > 0.0 then next - now else 0.0;
      if wait > 0.0 {
        Sleep(wait);
      }
      Tick();
    }

    /** Sends one request once it is due. */
    method Send(c: nat, reply: Reply)
      requires Valid()
      modifies this
      ensures now >= old(now) && |log| == |old(log)| + 1 && log[..|old(log)|] == old(log)
      ensures Spaced(Gap(), log) && Ends(log[|log| - 1], c, reply)
      ensures next == log[|log| - 1].at + interval
      ensures reply.Retryable? ==> log[|log| - 1].failedAt.value <= now
    {
      Await();
      var sentAt := now;
      next := sentAt + interval;
      Tick();
      log := log + [Attempt(c, sentAt, if reply.Answer? then None else Some(now))];
    }

    /** `query_nvd`: the replies are what the source does to each attempt, in turn. A rate limit or a failed
        fetch is retried, up to six attempts; any other exception ends the query at once. */
    method Query(c: nat, replies: seq<Reply>) returns (ended: Reply)
      requires Valid() && |replies| == ATTEMPTS
      modifies this
      ensures Spaced(Gap(), log) && now >= old(now)
      ensures ended.Answer? ==> Valid()
      ensures Attempted(old(log), log, c, replies) && ended == Ending(replies)
    {
      ghost var before := log;
      for attempt := 0 to ATTEMPTS
        invariant Valid() && now >= old(now)
        invariant before <= log && |log| == |before| + attempt
        invariant forall i :: 0 <= i < attempt ==> replies[i].Retryable?
        invariant forall i :: |before| <= i < |log| ==> Ends(log[i], c, replies[i - |before|])
      {
        ghost var sent := log;
        Send(c, replies[attempt]);
        assert sent <= log;
        if !replies[attempt].Retryable? || attempt == ATTEMPTS - 1 {
          NeededIs(replies, attempt + 1);
          return replies[attempt];
        }
        Tick();
        next := if next > now + interval then next else now + interval;
      }
      ended := replies[ATTEMPTS - 1];
    }

    /** The loop over cases; a case that raises ends the run. It asks for the cases in order, each as often
        as its replies need, and completes exactly when all are answered. */
    method Run(replies: seq<seq<Reply>>) returns (complete: bool)
      requires Valid() && log == [] && forall c :: 0 <= c < |replies| ==> |replies[c]| == ATTEMPTS
      modifies this
      ensures Spaced(Gap(), log) && Counted(log, replies, Asked(replies))
      ensures complete <==> AllAnswered(replies)
    {
      for c := 0 to |replies|
        invariant Valid() && Counted(log, replies, c)
        invariant forall d :: 0 <= d < c ==> Ending(replies[d]).Answer?
      {
        ghost var before := log;
        var ended := Query(c, replies[c]);
        CountedNext(before, log, replies, c);
        if !ended.Answer? {
          AskedIs(replies, c + 1);
          return false;
        }
        Tick();
      }
      AskedIs(replies, |replies|);
      complete := true;
    }
  }
}

/** Choosing benchmark cases from advisories: quotas by bucket first, then whatever came first. */
module CaseSelection {
  import opened Ordering

  datatype Bucket = RangeAndFix | RangeOnly | CweEpss | OtherStructured

  datatype Features = Features(range: bool, fix: bool, cwe: bool, epss: bool)

  function BucketOf(f: Features): Bucket {
    if f.range && f.fix then RangeAndFix
    else if f.range then RangeOnly
    else if f.cwe && f.epss then CweEpss
    else OtherStructured
  }

  /** A range and a fix come first, then a range alone, then weakness and likelihood without a range. */
  lemma BucketExact(f: Features)
    ensures BucketOf(f) == RangeAndFix <==> f.range && f.fix
    ensures BucketOf(f) == RangeOnly <==> f.range && !f.fix
    ensures BucketOf(f) == CweEpss <==> !f.range && f.cwe && f.epss
  {
  }

  datatype Advisory = Malformed | Advisory(withdrawn: bool, cve: Option<string>, features: Features)

  datatype Candidate = Candidate(id: string, bucket: Bucket)

  function Filter(keep: Candidate -> bool, xs: seq<Candidate>): (r: seq<Candidate>)
    ensures |r| <= |xs|
  {
    if xs == [] then []
    else
      var last := xs[|xs| - 1];
      Filter(keep, xs[..|xs| - 1]) + (if keep(last) then [last] else [])
  }

  lemma {:induction false} FilterMembers(keep: Candidate -> bool, xs: seq<Candidate>)
    ensures forall c :: c in Filter(keep, xs) <==> c in xs && keep(c)
  {
    if xs != [] {
      var front, last := xs[..|xs| - 1], xs[|xs| - 1];
      FilterMembers(keep, front);
      assert xs == front + [last];
    }
  }

  /** Filtering a prefix gives a prefix. */
  lemma {:induction false} FilterPrefix(keep: Candidate -> bool, xs: seq<Candidate>, i: nat)
    requires i <= |xs|
    ensures Filter(keep, xs[..i]) <= Filter(keep, xs)
    decreases |xs|
  {
    if i == |xs| {
      assert xs[..i] == xs;
    } else {
      assert xs[..|xs| - 1][..i] == xs[..i];
      FilterPrefix(keep, xs[..|xs| - 1], i);
    }
  }

  ghost predicate DistinctIds(xs: seq<Candidate>) {
    forall i, j :: 0 <= i < j < |xs| ==> xs[i].id != xs[j].id
  }

  lemma {:induction false} FilterDistinct(keep: Candidate -> bool, xs: seq<Candidate>)
    requires DistinctIds(xs)
    ensures DistinctIds(Filter(keep, xs))
  {
    if xs != [] {
      FilterDistinct(keep, xs[..|xs| - 1]);
      FilterMembers(keep, xs[..|xs| - 1]);
      forall c | c in Filter(keep, xs[..|xs| - 1]) ensures c.id != xs[|xs| - 1].id {
        var k :| 0 <= k < |xs| - 1 && xs[..|xs| - 1][k] == c;
      }
    }
  }

  // ---------------------------------------------------------------- candidates

  predicate Usable(a: Advisory) {
    a.Advisory? && !a.withdrawn && a.cve.Some? && "CVE-" <= a.cve.value
  }

  lemma UsableExact(a: Advisory)
    ensures Usable(a) <==> exists number, features :: a == Advisory(false, Some("CVE-" + number), features)
  {
    if Usable(a) {
      assert a.cve.value == "CVE-" + a.cve.value[4..];
      assert a == Advisory(false, Some("CVE-" + a.cve.value[4..]), a.features);
    }
  }

  /** The usable advisories, one candidate for each CVE, the first that names it, in their order. */
  method Candidates(payload: seq<Advisory>) returns (candidates: seq<Candidate>)
    ensures DistinctIds(candidates)
    ensures forall c :: c in candidates <==> exists i :: FirstNaming(payload, i, c)
    ensures InOrder(payload, candidates)
  {
    candidates := [];
    var seen := {};
    for n := 0 to |payload|
      invariant DistinctIds(candidates)
      invariant forall id :: id in seen <==> exists c :: c in candidates && c.id == id
      invariant forall id :: id in seen <==> exists j :: 0 <= j < n && Usable(payload[j]) && payload[j].cve.value == id
      invariant forall c :: c in candidates <==> NamedBefore(payload, n, c)
      invariant InOrder(payload, candidates)
    {
      var a := payload[n];
      if !Usable(a) || a.cve.value in seen {
        continue;
      }
      seen := seen + {a.cve.value};
      var c := Candidate(a.cve.value, BucketOf(a.features));
      assert FirstNaming(payload, n, c);
      assert forall k :: 0 <= k < |candidates| ==> candidates[k] in candidates;
      assert forall k :: 0 <= k < |candidates| ==> NamedBefore(payload, n, candidates[k]);
      LaterCandidate(payload, candidates, n, c);
      NamedNext(payload, n, c);
      candidates := candidates + [c];
    }
  }

  ghost predicate NamedBefore(payload: seq<Advisory>, n: int, c: Candidate) {
    exists i :: 0 <= i < n && FirstNaming(payload, i, c)
  }

  /** Candidate `a` comes from an earlier advisory than `b`. */
  ghost predicate Precedes(payload: seq<Advisory>, a: Candidate, b: Candidate) {
    forall i, j :: FirstNaming(payload, i, a) && FirstNaming(payload, j, b) ==> i < j
  }

  /** Candidates stand in the order of the advisories they come from. */
  ghost predicate InOrder(payload: seq<Advisory>, candidates: seq<Candidate>) {
    forall k, l :: 0 <= k < l < |candidates| ==> Precedes(payload, candidates[k], candidates[l])
  }

  lemma FirstNamingUnique(payload: seq<Advisory>, i: int, j: int, c: Candidate)
    requires FirstNaming(payload, i, c) && FirstNaming(payload, j, c)
    ensures i == j
  {
  }

  /** Taking one more advisory adds its candidate to those named. */
  lemma NamedNext(payload: seq<Advisory>, n: int, c: Candidate)
    requires FirstNaming(payload, n, c)
    ensures forall x :: NamedBefore(payload, n + 1, x) <==> NamedBefore(payload, n, x) || x == c
  {
    forall x ensures NamedBefore(payload, n + 1, x) <==> NamedBefore(payload, n, x) || x == c {
      if i :| 0 <= i < n + 1 && FirstNaming(payload, i, x) {
        assert i < n ==> NamedBefore(payload, n, x);
      }
      if i :| 0 <= i < n && FirstNaming(payload, i, x) {
        assert i < n + 1;
      }
    }
  }

  lemma LaterCandidate(payload: seq<Advisory>, candidates: seq<Candidate>, n: int, c: Candidate)
    requires InOrder(payload, candidates) && FirstNaming(payload, n, c)
    requires forall k :: 0 <= k < |candidates| ==> NamedBefore(payload, n, candidates[k])
    ensures InOrder(payload, candidates + [c])
  {
    var all := candidates + [c];
    forall k, l | 0 <= k < l < |all| ensures Precedes(payload, all[k], all[l]) {
      if l < |candidates| {
        assert Precedes(payload, candidates[k], candidates[l]);
      } else {
        var m :| 0 <= m < n && FirstNaming(payload, m, candidates[k]);
        forall i, j | FirstNaming(payload, i, all[k]) && FirstNaming(payload, j, all[l]) ensures i < j {
          FirstNamingUnique(payload, i, m, all[k]);
          FirstNamingUnique(payload, j, n, c);
        }
      }
    }
  }

  /** Advisory `i` is the first usable one for the CVE of candidate `c`. */
  ghost predicate FirstNaming(payload: seq<Advisory>, i: int, c: Candidate) {
    && 0 <= i < |payload| && Usable(payload[i])
    && c == Candidate(payload[i].cve.value, BucketOf(payload[i].features))
    && forall j :: 0 <= j < i && Usable(payload[j]) ==> payload[j].cve.value != c.id
  }

  // ---------------------------------------------------------------- selection

  function Min(a: int, b: int): int { if a < b then a else b }

  function Max(a: int, b: int): int { if a > b then a else b }

  /** Python's floor division by a positive number agrees with Dafny's. */
  function Quota(b: Bucket, count: int): int {
    match b
    case RangeAndFix => Max(1, count / 3)
    case RangeOnly => Max(1, count / 6)
    case CweEpss => Max(1, count / 3)
    case OtherStructured => count
  }

  /** A third of the count for the two richer buckets, a sixth for ranges alone, rounded down but at least one,
      and no limit of its own for the rest. */
  lemma QuotaIs(count: int)
    ensures forall b :: b in {RangeAndFix, CweEpss} ==>
      1 <= Quota(b, count) && count < 3 * Quota(b, count) + 3 && (count >= 3 ==> 3 * Quota(b, count) <= count)
    ensures 1 <= Quota(RangeOnly, count) && count < 6 * Quota(RangeOnly, count) + 6
    ensures count >= 6 ==> 6 * Quota(RangeOnly, count) <= count
    ensures count < 6 ==> Quota(RangeOnly, count) == 1
    ensures count < 3 ==> Quota(RangeAndFix, count) == Quota(CweEpss, count) == 1
    ensures Quota(OtherStructured, count) == count
  {
  }

  function OfBucket(b: Bucket): Candidate -> bool { (c: Candidate) => c.bucket == b }

  function Room(count: int, selected: seq<Candidate>): nat { Max(0, count - |selected|) }

  function Limit(b: Bucket, count: int, selected: seq<Candidate>): nat {
    Min(Max(0, Quota(b, count)), Room(count, selected))
  }

  /** What one bucket adds: its first candidates, within its quota and the room left. */
  function Added(candidates: seq<Candidate>, b: Bucket, count: int, selected: seq<Candidate>): seq<Candidate> {
    var all := Filter(OfBucket(b), candidates);
    all[..Min(|all|, Limit(b, count, selected))]
  }

  /** The buckets in order of priority. */
  const ORDER: seq<Bucket> := [RangeAndFix, RangeOnly, CweEpss, OtherStructured]

  /** The cases selected after the buckets of `order`. */
  function AfterBuckets(candidates: seq<Candidate>, count: int, order: seq<Bucket>): seq<Candidate> {
    if order == [] then []
    else
      var before := AfterBuckets(candidates, count, order[..|order| - 1]);
      before + Added(candidates, order[|order| - 1], count, before)
  }

  lemma AfterBucketsStep(candidates: seq<Candidate>, count: int, order: seq<Bucket>, k: nat)
    requires k < |order|
    ensures var before := AfterBuckets(candidates, count, order[..k]);
      AfterBuckets(candidates, count, order[..k + 1]) == before + Added(candidates, order[k], count, before)
  {
    assert order[..k + 1][..k] == order[..k];
  }

  function FirstPass(candidates: seq<Candidate>, count: int): seq<Candidate> { AfterBuckets(candidates, count, ORDER) }

  function Ids(xs: seq<Candidate>): (r: set<string>)
    ensures forall id :: id in r <==> exists i :: 0 <= i < |xs| && xs[i].id == id
  {
    set i | 0 <= i < |xs| :: xs[i].id
  }

  lemma IdsAppend(xs: seq<Candidate>, ys: seq<Candidate>)
    ensures Ids(xs + ys) == Ids(xs) + Ids(ys)
  {
    forall id | id in Ids(xs) ensures id in Ids(xs + ys) {
      var i :| 0 <= i < |xs| && xs[i].id == id;
      assert (xs + ys)[i].id == id;
    }
    forall id | id in Ids(ys) ensures id in Ids(xs + ys) {
      var i :| 0 <= i < |ys| && ys[i].id == id;
      assert (xs + ys)[|xs| + i].id == id;
    }
  }

  lemma IdsOne(c: Candidate)
    ensures Ids([c]) == {c.id}
  {
    assert [c][0].id == c.id;
  }

  function Outside(ids: set<string>): Candidate -> bool { (c: Candidate) => c.id !in ids }

  /** The earliest candidates not selected by quota, as far as there is room. */
  function Remainder(candidates: seq<Candidate>, count: int, selected: seq<Candidate>): seq<Candidate> {
    var rest := Filter(Outside(Ids(selected)), candidates);
    rest[..Min(|rest|, Room(count, selected))]
  }

  function Selection(candidates: seq<Candidate>, count: int): seq<Candidate> {
    FirstPass(candidates, count) + Remainder(candidates, count, FirstPass(candidates, count))
  }

  /** One bucket's pass over the candidates. */
  method TakeBucket(candidates: seq<Candidate>, b: Bucket, count: int,
                    start: seq<Candidate>) returns (selected: seq<Candidate>)
    requires DistinctIds(candidates)
    requires forall i :: 0 <= i < |start| ==> start[i] in candidates && start[i].bucket != b
    ensures selected == start + Added(candidates, b, count, start)
  {
    selected := start;
    var quota := Quota(b, count);
    var ids := Ids(start);
    var i := 0;
    ghost var taken: seq<Candidate> := [];
    ghost var limit := Limit(b, count, start);
    while i < |candidates|
      invariant 0 <= i <= |candidates|
      invariant taken == Filter(OfBucket(b), candidates[..i]) && selected == start + taken && ids == Ids(selected)
      invariant |taken| <= limit && quota == Quota(b, count) - |taken|
      invariant quota > 0 || count <= 0
    {
      if |selected| >= count {
        break;
      }
      var item := candidates[i];
      FilterStep(OfBucket(b), candidates, i);
      if item.bucket == b { NotYetSelected(candidates, b, start, i); }
      i := i + 1;
      if item.bucket != b || item.id in ids {
        continue;
      }
      IdsAppend(selected, [item]);
      IdsOne(item);
      assert start + taken + [item] == start + (taken + [item]);
      selected, taken := selected + [item], taken + [item];
      ids := ids + {item.id};
      quota := quota - 1;
      if quota <= 0 {
        break;
      }
    }
    TakenIsAdded(candidates, b, count, start, i);
  }

  lemma FilterStep(keep: Candidate -> bool, xs: seq<Candidate>, i: nat)
    requires i < |xs|
    ensures Filter(keep, xs[..i + 1]) == Filter(keep, xs[..i]) + if keep(xs[i]) then [xs[i]] else []
  {
    assert xs[..i + 1][..i] == xs[..i];
  }

  lemma TakenIsAdded(candidates: seq<Candidate>, b: Bucket, count: int, start: seq<Candidate>, i: nat)
    requires i <= |candidates| && |Filter(OfBucket(b), candidates[..i])| <= Limit(b, count, start)
    requires i == |candidates| || |Filter(OfBucket(b), candidates[..i])| == Limit(b, count, start)
    ensures Filter(OfBucket(b), candidates[..i]) == Added(candidates, b, count, start)
  {
    FilterPrefix(OfBucket(b), candidates, i);
    assert i == |candidates| ==> candidates[..i] == candidates;
  }

  lemma NotYetSelected(candidates: seq<Candidate>, b: Bucket, start: seq<Candidate>, i: int)
    requires DistinctIds(candidates) && 0 <= i < |candidates| && candidates[i].bucket == b
    requires forall k :: 0 <= k < |start| ==> start[k] in candidates && start[k].bucket != b
    ensures candidates[i].id !in Ids(start + Filter(OfBucket(b), candidates[..i]))
  {
    var selected := start + Filter(OfBucket(b), candidates[..i]);
    FilterMembers(OfBucket(b), candidates[..i]);
    forall k | 0 <= k < |selected| ensures selected[k].id != candidates[i].id {
      if k < |start| {
        var j :| 0 <= j < |candidates| && candidates[j] == start[k];
      } else {
        assert selected[k] in Filter(OfBucket(b), candidates[..i]);
        var j :| 0 <= j < i && candidates[..i][j] == selected[k];
      }
    }
  }

  lemma AddedOfBucket(candidates: seq<Candidate>, b: Bucket, count: int, selected: seq<Candidate>)
    ensures forall c :: c in Added(candidates, b, count, selected) ==> c in candidates && c.bucket == b
  {
    var all := Filter(OfBucket(b), candidates);
    FilterMembers(OfBucket(b), candidates);
    forall c | c in Added(candidates, b, count, selected) ensures c in candidates && c.bucket == b {
      assert c in all;
    }
  }

  lemma SameIdSameCandidate(candidates: seq<Candidate>, a: Candidate, b: Candidate)
    requires DistinctIds(candidates) && a in candidates && b in candidates
    ensures a.id == b.id ==> a == b
  {
  }

  lemma AppendDistinct(candidates: seq<Candidate>, a: seq<Candidate>, b: seq<Candidate>)
    requires DistinctIds(candidates) && DistinctIds(a) && DistinctIds(b)
    requires (forall c :: c in a ==> c in candidates) && (forall c :: c in b ==> c in candidates && c !in a)
    ensures DistinctIds(a + b) && forall c :: c in a + b ==> c in candidates
  {
    var s := a + b;
    forall i, j | 0 <= i < j < |s| ensures s[i].id != s[j].id {
      if i < |a| <= j {
        assert s[i] in a && s[j] in b;
        SameIdSameCandidate(candidates, s[i], s[j]);
      }
    }
  }

  /** Everything selected by quota is a candidate, once, and there is no more than asked for. */
  lemma {:induction false} FirstPassSound(candidates: seq<Candidate>, count: int, order: seq<Bucket>)
    requires DistinctIds(candidates) && Distinct(order)
    ensures Sound(candidates, count, order, AfterBuckets(candidates, count, order))
  {
    if order != [] {
      var front, b := order[..|order| - 1], order[|order| - 1];
      FirstPassSound(candidates, count, front);
      AddedSound(candidates, count, front, b, AfterBuckets(candidates, count, front));
      assert front + [b] == order;
    }
  }

  ghost predicate Sound(candidates: seq<Candidate>, count: int, order: seq<Bucket>, s: seq<Candidate>) {
    DistinctIds(s) && |s| <= Max(0, count) && forall c :: c in s ==> c in candidates && c.bucket in order
  }

  lemma AddedSound(candidates: seq<Candidate>, count: int, front: seq<Bucket>, b: Bucket, before: seq<Candidate>)
    requires DistinctIds(candidates) && Sound(candidates, count, front, before) && b !in front
    ensures Sound(candidates, count, front + [b], before + Added(candidates, b, count, before))
  {
    AddedOfBucket(candidates, b, count, before);
    FilterDistinct(OfBucket(b), candidates);
    AppendDistinct(candidates, before, Added(candidates, b, count, before));
  }

  lemma FromEarlierBuckets(candidates: seq<Candidate>, count: int, k: nat, selected: seq<Candidate>)
    requires k < |ORDER| && Sound(candidates, count, ORDER[..k], selected)
    ensures forall i :: 0 <= i < |selected| ==> selected[i] in candidates && selected[i].bucket != ORDER[k]
  {
    assert forall i :: 0 <= i < |selected| ==> selected[i] in selected;
  }

  /** The selection of `_discover_github`. */
  method Select(candidates: seq<Candidate>, count: int) returns (selected: seq<Candidate>)
    requires DistinctIds(candidates)
    ensures selected == Selection(candidates, count)
  {
    selected := [];
    for k := 0 to |ORDER|
      invariant selected == AfterBuckets(candidates, count, ORDER[..k])
    {
      FirstPassSound(candidates, count, ORDER[..k]);
      FromEarlierBuckets(candidates, count, k, selected);
      AfterBucketsStep(candidates, count, ORDER, k);
      selected := TakeBucket(candidates, ORDER[k], count, selected);
    }
    assert ORDER[..|ORDER|] == ORDER;
    if |selected| < count {
      selected := TakeRest(candidates, count, selected);
    } else {
      assert Remainder(candidates, count, selected) == [];
    }
  }

  lemma NotTakenBefore(candidates: seq<Candidate>, start: seq<Candidate>, keep: Candidate -> bool, i: int)
    requires DistinctIds(candidates) && 0 <= i < |candidates|
    ensures candidates[i].id in Ids(start + Filter(keep, candidates[..i])) <==> candidates[i].id in Ids(start)
  {
    var taken := Filter(keep, candidates[..i]);
    IdsAppend(start, taken);
    FilterMembers(keep, candidates[..i]);
    forall k | 0 <= k < |taken| ensures taken[k].id != candidates[i].id {
      assert taken[k] in candidates[..i];
    }
  }

  method TakeRest(candidates: seq<Candidate>, count: int, start: seq<Candidate>) returns (selected: seq<Candidate>)
    requires DistinctIds(candidates) && |start| < count
    ensures selected == start + Remainder(candidates, count, start)
  {
    selected := start;
    var ids := Ids(start);
    ghost var keep := Outside(Ids(start));
    ghost var taken: seq<Candidate> := [];
    var i := 0;
    while i < |candidates|
      invariant 0 <= i <= |candidates|
      invariant taken == Filter(keep, candidates[..i]) && selected == start + taken && |selected| <= count
      invariant ids == Ids(selected)
    {
      if |selected| >= count {
        break;
      }
      var item := candidates[i];
      FilterStep(keep, candidates, i);
      NotTakenBefore(candidates, start, keep, i);
      i := i + 1;
      if item.id in ids {
        continue;
      }
      IdsAppend(selected, [item]);
      IdsOne(item);
      assert start + taken + [item] == start + (taken + [item]);
      selected, taken := selected + [item], taken + [item];
      ids := ids + {item.id};
    }
    TakenIsRemainder(candidates, count, start, i);
  }

  lemma TakenIsRemainder(candidates: seq<Candidate>, count: int, start: seq<Candidate>, i: nat)
    requires i <= |candidates| && |start| + |Filter(Outside(Ids(start)), candidates[..i])| <= count
    requires i == |candidates| || |start| + |Filter(Outside(Ids(start)), candidates[..i])| == count
    ensures Filter(Outside(Ids(start)), candidates[..i]) == Remainder(candidates, count, start)
  {
    FilterPrefix(Outside(Ids(start)), candidates, i);
    assert i == |candidates| ==> candidates[..i] == candidates;
  }

  // ---------------------------------------------------------------- what the selection is worth

  lemma {:induction false} DistinctCard(xs: seq<Candidate>)
    requires DistinctIds(xs)
    ensures |set c | c in xs| == |xs|
  {
    if xs != [] {
      var front, last := xs[..|xs| - 1], xs[|xs| - 1];
      DistinctCard(front);
      assert xs == front + [last];
      assert last !in front;
      assert (set c | c in xs) == (set c | c in front) + {last};
    }
  }

  /** What is left after a selection complements it. */
  lemma RestComplements(candidates: seq<Candidate>, first: seq<Candidate>)
    requires DistinctIds(candidates) && DistinctIds(first) && forall c :: c in first ==> c in candidates
    ensures var rest := Filter(Outside(Ids(first)), candidates);
      |rest| == |candidates| - |first| && DistinctIds(rest) && forall c :: c in rest <==> c in candidates && c !in first
  {
    var rest := Filter(Outside(Ids(first)), candidates);
    FilterDistinct(Outside(Ids(first)), candidates);
    FilterMembers(Outside(Ids(first)), candidates);
    DistinctCard(candidates);
    DistinctCard(first);
    DistinctCard(rest);
    forall c ensures c in rest <==> c in candidates && c !in first {
      if c in candidates && c.id in Ids(first) {
        var i :| 0 <= i < |first| && first[i].id == c.id;
        SameIdSameCandidate(candidates, first[i], c);
      }
    }
    assert (set c | c in rest) == (set c | c in candidates) - (set c | c in first);
    assert (set c | c in first) <= (set c | c in candidates);
  }

  /** The selection holds min(count, number of candidates) distinct candidates. */
  lemma SelectionExact(candidates: seq<Candidate>, count: int)
    requires DistinctIds(candidates)
    ensures var s := Selection(candidates, count);
      |s| == Min(Max(0, count), |candidates|) && DistinctIds(s) && forall c :: c in s ==> c in candidates
  {
    var first := FirstPass(candidates, count);
    FirstPassSound(candidates, count, ORDER);
    RestComplements(candidates, first);
    var rest := Filter(Outside(Ids(first)), candidates);
    var more := Remainder(candidates, count, first);
    assert forall c :: c in more ==> c in rest;
    AppendDistinct(candidates, first, more);
  }

  lemma {:induction false} FilterAppend(keep: Candidate -> bool, xs: seq<Candidate>, ys: seq<Candidate>)
    ensures Filter(keep, xs + ys) == Filter(keep, xs) + Filter(keep, ys)
  {
    if ys == [] {
      assert xs + ys == xs;
    } else {
      var n := |xs + ys| - 1;
      assert (xs + ys)[..n] == xs + ys[..|ys| - 1];
      FilterAppend(keep, xs, ys[..|ys| - 1]);
    }
  }

  lemma {:induction false} FilterAll(keep: Candidate -> bool, xs: seq<Candidate>)
    requires forall i :: 0 <= i < |xs| ==> keep(xs[i])
    ensures Filter(keep, xs) == xs
  {
    if xs != [] {
      FilterAll(keep, xs[..|xs| - 1]);
    }
  }

  lemma {:induction false} FilterNone(keep: Candidate -> bool, xs: seq<Candidate>)
    requires forall i :: 0 <= i < |xs| ==> !keep(xs[i])
    ensures Filter(keep, xs) == []
  {
    if xs != [] {
      FilterNone(keep, xs[..|xs| - 1]);
    }
  }

  lemma AddedByBucket(candidates: seq<Candidate>, from: Bucket, b: Bucket, count: int, before: seq<Candidate>)
    ensures Filter(OfBucket(b), Added(candidates, from, count, before))
      == if b == from then Added(candidates, b, count, before) else []
  {
    AddedOfBucket(candidates, from, count, before);
    var added := Added(candidates, from, count, before);
    assert forall i :: 0 <= i < |added| ==> added[i] in added;
    if b == from {
      FilterAll(OfBucket(b), added);
    } else {
      FilterNone(OfBucket(b), added);
    }
  }

  /** What a pass selects of one bucket is what that bucket's turn added. */
  lemma {:induction false} OneBucket(candidates: seq<Candidate>, count: int, order: seq<Bucket>, i: nat)
    requires i < |order| && Distinct(order)
    ensures Filter(OfBucket(order[i]), AfterBuckets(candidates, count, order))
      == Added(candidates, order[i], count, AfterBuckets(candidates, count, order[..i]))
  {
    var front, last := order[..|order| - 1], order[|order| - 1];
    var before := AfterBuckets(candidates, count, front);
    FilterAppend(OfBucket(order[i]), before, Added(candidates, last, count, before));
    AddedByBucket(candidates, last, order[i], count, before);
    if i < |front| {
      assert order[..i] == front[..i];
      OneBucket(candidates, count, front, i);
    } else {
      OtherBucket(candidates, count, front, last);
    }
  }

  lemma {:induction false} OtherBucket(candidates: seq<Candidate>, count: int, order: seq<Bucket>, b: Bucket)
    requires b !in order
    ensures Filter(OfBucket(b), AfterBuckets(candidates, count, order)) == []
  {
    if order != [] {
      var front, last := order[..|order| - 1], order[|order| - 1];
      var before := AfterBuckets(candidates, count, front);
      OtherBucket(candidates, count, front, b);
      FilterAppend(OfBucket(b), before, Added(candidates, last, count, before));
      AddedByBucket(candidates, last, b, count, before);
    }
  }

  lemma {:induction false} PassGrows(candidates: seq<Candidate>, count: int, order: seq<Bucket>, i: nat)
    requires i <= |order|
    ensures AfterBuckets(candidates, count, order[..i]) <= AfterBuckets(candidates, count, order)
  {
    if i < |order| {
      assert order[..|order| - 1][..i] == order[..i];
      PassGrows(candidates, count, order[..|order| - 1], i);
    } else {
      assert order[..i] == order;
    }
  }

  /**
    The first pass holds, of every bucket, its earliest candidates in their order, no more than the
    quota, and fewer only when the bucket has no more or the selection is full.
  */
  lemma QuotaRespected(candidates: seq<Candidate>, count: int, b: Bucket)
    requires DistinctIds(candidates)
    ensures var first := FirstPass(candidates, count);
      var chosen, all := Filter(OfBucket(b), first), Filter(OfBucket(b), candidates);
      && chosen <= all
      && |chosen| <= Max(0, Quota(b, count))
      && (|chosen| == |all| || |chosen| == Max(0, Quota(b, count)) || |first| >= count)
  {
    var i := Position(b);
    TurnRespectsQuota(candidates, count, ORDER, i);
  }

  lemma TurnRespectsQuota(candidates: seq<Candidate>, count: int, order: seq<Bucket>, i: nat)
    requires i < |order| && Distinct(order)
    ensures var first, b := AfterBuckets(candidates, count, order), order[i];
      var chosen, all := Filter(OfBucket(b), first), Filter(OfBucket(b), candidates);
      && chosen <= all
      && |chosen| <= Max(0, Quota(b, count))
      && (|chosen| == |all| || |chosen| == Max(0, Quota(b, count)) || |first| >= count)
  {
    var before := AfterBuckets(candidates, count, order[..i]);
    OneBucket(candidates, count, order, i);
    AfterBucketsStep(candidates, count, order, i);
    PassGrows(candidates, count, order, i + 1);
    AddedWithinLimit(candidates, order[i], count, before, AfterBuckets(candidates, count, order));
  }

  lemma AddedWithinLimit(candidates: seq<Candidate>, b: Bucket, count: int, before: seq<Candidate>,
                         first: seq<Candidate>)
    requires before + Added(candidates, b, count, before) <= first
    ensures var added, all := Added(candidates, b, count, before), Filter(OfBucket(b), candidates);
      && added <= all
      && |added| <= Max(0, Quota(b, count))
      && (|added| == |all| || |added| == Max(0, Quota(b, count)) || |first| >= count)
  {
  }

  function Priority(b: Bucket): nat {
    match b
    case RangeAndFix => 1
    case RangeOnly => 2
    case CweEpss => 3
    case OtherStructured => 4
  }

  ghost predicate ByPriority(s: seq<Candidate>) {
    forall i, j :: 0 <= i < j < |s| ==> Priority(s[i].bucket) <= Priority(s[j].bucket)
  }

  /** The first pass selects the buckets in order of priority. */
  lemma SelectedByPriority(candidates: seq<Candidate>, count: int)
    requires DistinctIds(candidates)
    ensures ByPriority(FirstPass(candidates, count))
  {
    PassByPriority(candidates, count, ORDER);
  }

  lemma {:induction false} PassByPriority(candidates: seq<Candidate>, count: int, order: seq<Bucket>)
    requires DistinctIds(candidates) && forall k, l :: 0 <= k < l < |order| ==> Priority(order[k]) < Priority(order[l])
    ensures ByPriority(AfterBuckets(candidates, count, order))
  {
    if order != [] {
      var front, b := order[..|order| - 1], order[|order| - 1];
      var before := AfterBuckets(candidates, count, front);
      var added := Added(candidates, b, count, before);
      PassByPriority(candidates, count, front);
      FirstPassSound(candidates, count, front);
      AddedOfBucket(candidates, b, count, before);
      forall i | 0 <= i < |before| ensures Priority(before[i].bucket) < Priority(b) {
        assert before[i] in before && before[i].bucket in front;
      }
      forall i | 0 <= i < |added| ensures added[i].bucket == b { assert added[i] in added; }
    }
  }

  lemma Position(b: Bucket) returns (i: nat)
    ensures i < |ORDER| && ORDER[i] == b
  {
    i := match b case RangeAndFix => 0 case RangeOnly => 1 case CweEpss => 2 case OtherStructured => 3;
  }

  /** The rest is filled, in candidate order, with the earliest candidates the first pass left out. */
  lemma RemainderEarliest(candidates: seq<Candidate>, count: int)
    requires DistinctIds(candidates)
    ensures var first := FirstPass(candidates, count);
      var left := Filter((c: Candidate) => c !in first, candidates);
      && first <= Selection(candidates, count)
      && Selection(candidates, count)[|first|..] <= left
      && (Selection(candidates, count)[|first|..] == left || |Selection(candidates, count)| >= count)
  {
    var first := FirstPass(candidates, count);
    FirstPassSound(candidates, count, ORDER);
    forall c | c in candidates ensures c !in first <==> c.id !in Ids(first) {
      OutsideById(candidates, first, c);
    }
    FilterAgrees((c: Candidate) => c !in first, Outside(Ids(first)), candidates);
  }

  /** A candidate is left out exactly when its identifier is. */
  lemma OutsideById(candidates: seq<Candidate>, first: seq<Candidate>, c: Candidate)
    requires DistinctIds(candidates) && c in candidates && forall x :: x in first ==> x in candidates
    ensures c in first <==> c.id in Ids(first)
  {
    if c.id in Ids(first) {
      var i :| 0 <= i < |first| && first[i].id == c.id;
      SameIdSameCandidate(candidates, first[i], c);
    }
  }

  lemma {:induction false} FilterAgrees(keep: Candidate -> bool, same: Candidate -> bool, xs: seq<Candidate>)
    requires forall c :: c in xs ==> keep(c) == same(c)
    ensures Filter(keep, xs) == Filter(same, xs)
  {
    if xs != [] { FilterAgrees(keep, same, xs[..|xs| - 1]); }
  }
}

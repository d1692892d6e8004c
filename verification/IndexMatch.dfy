/** Choosing the registered document whose index entry fits a free-text query best. */
module IndexMatch {
  import opened Ordering

  /** An index entry: its title, when the locator holds one as text, and its canonical URL. */
  datatype Entry = Entry(title: Option<string>, url: Option<string>)

  /** How text is read: the lower-cased words of a text, and whether a text is only white space. */
  datatype Reader = Reader(words: string -> set<string>, blank: string -> bool)

  datatype Ranked = Ranked(ratio: real, matches: nat, entry: Entry)

  function TextOf(r: Reader, e: Entry): string {
    if e.title.Some? && !r.blank(e.title.value) then e.title.value
    else if e.url.Some? then e.url.value
    else ""
  }

  function Matches(r: Reader, terms: set<string>, e: Entry): nat { |terms * r.words(TextOf(r, e))| }

  function Threshold(terms: set<string>): nat {
    var floor := if |terms| >= 3 then 2 else 1;
    var half := (|terms| + 1) / 2;
    if floor > half then floor else half
  }

  predicate Qualifies(r: Reader, terms: set<string>, e: Entry) { Matches(r, terms, e) >= Threshold(terms) }

  /** What is matched against: the title unless it is missing or blank, else the URL, else nothing. */
  lemma TextExact(r: Reader, e: Entry, text: string)
    ensures TextOf(r, e) == text <==>
      || (e.title == Some(text) && !r.blank(text))
      || ((e.title == None || r.blank(e.title.value)) && (e.url == Some(text) || (e.url == None && text == "")))
  {
  }

  /** Enough terms match when at least half of them do, at least one, and at least two from three terms on. */
  lemma QualifiesExact(r: Reader, terms: set<string>, e: Entry)
    ensures var m := |set t | t in terms && t in r.words(TextOf(r, e))|;
      Qualifies(r, terms, e) <==> 2 * m >= |terms| && m >= 1 && (|terms| >= 3 ==> m >= 2)
  {
    assert (set t | t in terms && t in r.words(TextOf(r, e))) == terms * r.words(TextOf(r, e));
  }

  /** The sort key of `a` is below that of `b`. */
  predicate Below(a: Ranked, b: Ranked) {
    a.ratio < b.ratio || (a.ratio == b.ratio && a.matches < b.matches)
  }

  // ---------------------------------------------------------------- the stable descending sort

  function Insert(x: Ranked, xs: seq<Ranked>): (r: seq<Ranked>)
    ensures |r| == |xs| + 1
  {
    if xs == [] || Below(xs[0], x) then [x] + xs else [xs[0]] + Insert(x, xs[1..])
  }

  /** Descending by key, equal keys in their original order. */
  function Sorted(xs: seq<Ranked>): (r: seq<Ranked>)
    ensures |r| == |xs|
  {
    if xs == [] then [] else Insert(xs[|xs| - 1], Sorted(xs[..|xs| - 1]))
  }

  lemma InsertHead(x: Ranked, xs: seq<Ranked>)
    ensures Insert(x, xs)[0] == if xs == [] || Below(xs[0], x) then x else xs[0]
  {
  }

  /** The first of a stable descending sort is the first of the largest elements. */
  lemma {:induction false} HeadOfSorted(xs: seq<Ranked>) returns (i: int)
    requires xs != []
    ensures FirstLargest(xs, i) && Sorted(xs)[0] == xs[i]
  {
    var front, last := xs[..|xs| - 1], xs[|xs| - 1];
    InsertHead(last, Sorted(front));
    assert xs == front + [last];
    if front == [] {
      i := 0;
    } else {
      i := HeadOfSorted(front);
      i := ExtendLargest(front, last, i);
    }
  }

  lemma ExtendLargest(front: seq<Ranked>, last: Ranked, i: int) returns (k: int)
    requires FirstLargest(front, i)
    ensures FirstLargest(front + [last], k) && k == if Below(front[i], last) then |front| else i
  {
    k := if Below(front[i], last) then |front| else i;
    var xs := front + [last];
    forall j | 0 <= j < |xs| ensures !Below(xs[k], xs[j]) && (j < k ==> Below(xs[j], xs[k])) {
      if j < |front| { assert !Below(front[i], front[j]); }
    }
  }

  ghost predicate FirstLargest(xs: seq<Ranked>, i: int) {
    && 0 <= i < |xs|
    && (forall j :: 0 <= j < |xs| ==> !Below(xs[i], xs[j]))
    && forall j :: 0 <= j < i ==> Below(xs[j], xs[i])
  }

  // ---------------------------------------------------------------- the choice

  /** Entry `i` is the earliest of the qualifying entries with the most matching terms. */
  ghost predicate Best(r: Reader, terms: set<string>, items: seq<Entry>, i: int) {
    && 0 <= i < |items| && Qualifies(r, terms, items[i])
    && (forall j :: 0 <= j < |items| ==> Matches(r, terms, items[j]) <= Matches(r, terms, items[i]))
    && forall j :: 0 <= j < i ==> Matches(r, terms, items[j]) < Matches(r, terms, items[i])
  }

  /** `x` is what the loop records for the qualifying entry `i`. */
  ghost predicate Records(r: Reader, terms: set<string>, items: seq<Entry>, x: Ranked, i: int) {
    && 0 <= i < |items| && x.entry == items[i] && Qualifies(r, terms, items[i])
    && x.matches == Matches(r, terms, items[i])
    && |terms| > 0 && x.ratio == x.matches as real / |terms| as real
  }

  /** `ranked` records the qualifying entries before `n`, in order; `at` says where each stands. */
  ghost predicate Ranks(r: Reader, terms: set<string>, items: seq<Entry>, n: nat, ranked: seq<Ranked>, at: seq<int>)
    requires n <= |items|
  {
    && |at| == |ranked|
    && (forall k :: 0 <= k < |ranked| ==> Records(r, terms, items, ranked[k], at[k]) && at[k] < n)
    && (forall j, k :: 0 <= j < k < |at| ==> at[j] < at[k])
    && forall i :: 0 <= i < n && Qualifies(r, terms, items[i]) ==> exists k :: 0 <= k < |at| && at[k] == i
  }

  lemma RanksStep(r: Reader, terms: set<string>, items: seq<Entry>, n: nat, ranked: seq<Ranked>, at: seq<int>,
                  x: Ranked)
    requires n < |items| && Ranks(r, terms, items, n, ranked, at) && Records(r, terms, items, x, n)
    ensures Ranks(r, terms, items, n + 1, ranked + [x], at + [n])
  {
    var at' := at + [n];
    forall i | 0 <= i < n + 1 && Qualifies(r, terms, items[i]) ensures exists k :: 0 <= k < |at'| && at'[k] == i {
      if i == n {
        assert at'[|at|] == n;
      } else {
        var k :| 0 <= k < |at| && at[k] == i;
        assert at'[k] == i;
      }
    }
  }

  lemma RatioOrdersAsMatches(m: nat, n: nat, d: nat)
    requires d > 0
    ensures m < n <==> m as real / d as real < n as real / d as real
    ensures m == n <==> m as real / d as real == n as real / d as real
  {
    var x, y := m as real / d as real, n as real / d as real;
    assert x * d as real == m as real && y * d as real == n as real;
    if x < y { assert (y - x) * d as real > 0.0; }
    if y < x { assert (x - y) * d as real > 0.0; }
  }

  lemma BelowIsFewer(r: Reader, terms: set<string>, items: seq<Entry>, a: Ranked, i: int, b: Ranked, j: int)
    requires Records(r, terms, items, a, i) && Records(r, terms, items, b, j)
    ensures Below(a, b) <==> a.matches < b.matches
  {
    RatioOrdersAsMatches(a.matches, b.matches, |terms|);
  }

  lemma LargestIsBest(r: Reader, terms: set<string>, items: seq<Entry>, ranked: seq<Ranked>, at: seq<int>, i: int)
    requires Ranks(r, terms, items, |items|, ranked, at) && FirstLargest(ranked, i)
    ensures Best(r, terms, items, at[i])
  {
    var best := ranked[i];
    forall j | 0 <= j < |items|
      ensures Matches(r, terms, items[j]) <= best.matches
      ensures j < at[i] ==> Matches(r, terms, items[j]) < best.matches
    {
      if Qualifies(r, terms, items[j]) {
        var k :| 0 <= k < |at| && at[k] == j;
        BelowIsFewer(r, terms, items, best, at[i], ranked[k], j);
        BelowIsFewer(r, terms, items, ranked[k], j, best, at[i]);
      }
    }
  }

  /** `_best_index_match`: the best entry, or none when no entry qualifies. */
  method BestIndexMatch(r: Reader, items: seq<Entry>, query: string) returns (found: Option<Entry>)
    ensures found.None? <==> r.words(query) == {} || forall i :: 0 <= i < |items| ==> !Qualifies(r, r.words(query), items[i])
    ensures found.Some? ==> exists i :: Best(r, r.words(query), items, i) && found.value == items[i]
  {
    var terms := r.words(query);
    if terms == {} {
      return None;
    }
    var ranked: seq<Ranked> := [];
    ghost var at: seq<int> := [];
    for n := 0 to |items|
      invariant Ranks(r, terms, items, n, ranked, at)
    {
      var matches := Matches(r, terms, items[n]);
      if matches >= Threshold(terms) {
        var entry := Ranked(matches as real / |terms| as real, matches, items[n]);
        RanksStep(r, terms, items, n, ranked, at, entry);
        ranked, at := ranked + [entry], at + [n];
      }
    }
    if ranked == [] {
      return None;
    }
    ghost var i := HeadOfSorted(ranked);
    LargestIsBest(r, terms, items, ranked, at, i);
    return Some(Sorted(ranked)[0].entry);
  }

  // ---------------------------------------------------------------- consequences

  /** The best entry is unique, so the choice does not depend on how the ranking is sorted. */
  lemma BestIsUnique(r: Reader, terms: set<string>, items: seq<Entry>, i: int, j: int)
    requires Best(r, terms, items, i) && Best(r, terms, items, j)
    ensures i == j
  {
  }

  /** An entry holding every term of the query is never passed over for one that does not. */
  lemma FullMatchWins(r: Reader, terms: set<string>, items: seq<Entry>, full: int, i: int)
    requires terms != {} && 0 <= full < |items| && terms <= r.words(TextOf(r, items[full]))
    requires Best(r, terms, items, i)
    ensures terms <= r.words(TextOf(r, items[i])) && i <= full
  {
    var all, got := terms * r.words(TextOf(r, items[full])), terms * r.words(TextOf(r, items[i]));
    assert all == terms;
    if got != terms {
      var missing :| missing in terms && missing !in got;
      SubsetSmaller(got, terms - {missing});
    }
  }

  lemma {:induction false} SubsetSmaller(a: set<string>, b: set<string>)
    requires a <= b
    ensures |a| <= |b|
  {
    if a != {} {
      var x :| x in a;
      SubsetSmaller(a - {x}, b - {x});
    }
  }

  /** Entries indexed later replace the choice only by matching strictly more terms. */
  lemma LaterEntriesMustBeBetter(r: Reader, terms: set<string>, items: seq<Entry>, later: seq<Entry>, i: int, j: int)
    requires Best(r, terms, items, i) && Best(r, terms, items + later, j)
    ensures j == i || (j >= |items| && Matches(r, terms, (items + later)[j]) > Matches(r, terms, items[i]))
  {
    var all := items + later;
    assert all[i] == items[i];
    if j < |items| {
      assert forall k :: 0 <= k < |items| ==> all[k] == items[k];
      BestIsUnique(r, terms, items, i, j);
    }
  }
}

/** Python's orders on strings and tuples, duplicate-free sorting and order-preserving de-duplication. */
module Ordering {

  datatype Option<+T> = None | Some(value: T)

  /** `less` is a strict total order on T. */
  ghost predicate StrictTotal<T(!new)>(less: (T, T) -> bool) {
    && (forall x :: !less(x, x))
    && (forall x, y :: x == y || less(x, y) || less(y, x))
    && (forall x, y, z :: less(x, y) && less(y, z) ==> less(x, z))
  }

  predicate CharLess(a: char, b: char) { a < b }

  /** The order Python gives sequences: the first difference decides, a proper prefix comes first. */
  predicate LexLess<T(==)>(less: (T, T) -> bool, a: seq<T>, b: seq<T>) {
    if b == [] then false
    else if a == [] then true
    else less(a[0], b[0]) || (a[0] == b[0] && LexLess(less, a[1..], b[1..]))
  }

  predicate StringLess(a: string, b: string) { LexLess(CharLess, a, b) }

  predicate TupleLess(a: seq<string>, b: seq<string>) { LexLess(StringLess, a, b) }

  lemma {:induction false} LexIrreflexive<T(!new)>(less: (T, T) -> bool, a: seq<T>)
    requires StrictTotal(less)
    ensures !LexLess(less, a, a)
  {
    if a != [] {
      LexIrreflexive(less, a[1..]);
    }
  }

  lemma {:induction false} LexConnected<T(!new)>(less: (T, T) -> bool, a: seq<T>, b: seq<T>)
    requires StrictTotal(less)
    ensures a == b || LexLess(less, a, b) || LexLess(less, b, a)
  {
    if a != [] && b != [] && a[0] == b[0] {
      LexConnected(less, a[1..], b[1..]);
      assert a == [a[0]] + a[1..] && b == [b[0]] + b[1..];
    }
  }

  lemma {:induction false} LexTransitive<T(!new)>(less: (T, T) -> bool, a: seq<T>, b: seq<T>, c: seq<T>)
    requires StrictTotal(less)
    requires LexLess(less, a, b) && LexLess(less, b, c)
    ensures LexLess(less, a, c)
  {
    if a != [] && a[0] == b[0] == c[0] {
      LexTransitive(less, a[1..], b[1..], c[1..]);
    }
  }

  lemma StringLessStrictTotal()
    ensures StrictTotal(StringLess)
  {
    assert StrictTotal(CharLess);
    forall a: string { LexIrreflexive(CharLess, a); }
    forall a: string, b: string { LexConnected(CharLess, a, b); }
    forall a: string, b: string, c: string | StringLess(a, b) && StringLess(b, c) {
      LexTransitive(CharLess, a, b, c);
    }
  }

  lemma TupleLessStrictTotal()
    ensures StrictTotal(TupleLess)
  {
    StringLessStrictTotal();
    forall a: seq<string> { LexIrreflexive(StringLess, a); }
    forall a: seq<string>, b: seq<string> { LexConnected(StringLess, a, b); }
    forall a: seq<string>, b: seq<string>, c: seq<string> | TupleLess(a, b) && TupleLess(b, c) {
      LexTransitive(StringLess, a, b, c);
    }
  }

  /** Strictly increasing, hence free of duplicates. */
  ghost predicate Increasing<T>(less: (T, T) -> bool, s: seq<T>) {
    forall i, j :: 0 <= i < j < |s| ==> less(s[i], s[j])
  }

  ghost predicate Distinct<T>(s: seq<T>) {
    forall i, j :: 0 <= i < j < |s| ==> s[i] != s[j]
  }

  ghost predicate SameElements<T(!new)>(s: seq<T>, t: seq<T>) {
    forall x :: x in s <==> x in t
  }

  /** Two increasing listings of the same elements are the same list: sorting forgets the input order. */
  lemma {:induction false} IncreasingUnique<T(!new)>(less: (T, T) -> bool, s: seq<T>, t: seq<T>)
    requires StrictTotal(less)
    requires Increasing(less, s) && Increasing(less, t)
    requires SameElements(s, t)
    ensures s == t
  {
    assert s != [] ==> s[0] in t;
    assert t != [] ==> t[0] in s;
    if s != [] && t != [] {
      assert s[0] == t[0];
      forall x ensures x in s[1..] <==> x in t[1..] {
        assert x in s <==> x in t;
        assert s == [s[0]] + s[1..] && t == [t[0]] + t[1..];
      }
      IncreasingUnique(less, s[1..], t[1..]);
      assert s == [s[0]] + s[1..] && t == [t[0]] + t[1..];
    }
  }

  /** Adds `x` to an increasing list at its place, unless it is there already. */
  function Insert<T(==, !new)>(less: (T, T) -> bool, x: T, s: seq<T>): (r: seq<T>)
    requires StrictTotal(less)
    requires Increasing(less, s)
    ensures Increasing(less, r)
    ensures forall y :: y in r <==> y == x || y in s
  {
    if s == [] then [x]
    else if x == s[0] then s
    else if less(x, s[0]) then [x] + s
    else
      assert s == [s[0]] + s[1..];
      var rest := Insert(less, x, s[1..]);
      assert forall y | y in rest :: less(s[0], y);
      [s[0]] + rest
  }

  /** Python's `sorted(set(xs))`. */
  function SortedSet<T(==, !new)>(less: (T, T) -> bool, xs: seq<T>): (r: seq<T>)
    requires StrictTotal(less)
    ensures Increasing(less, r)
    ensures SameElements(r, xs)
  {
    if xs == [] then []
    else
      assert xs == xs[..|xs| - 1] + [xs[|xs| - 1]];
      Insert(less, xs[|xs| - 1], SortedSet(less, xs[..|xs| - 1]))
  }

  /** Python's `list(dict.fromkeys(xs))`: first occurrences, in order. */
  function Unique<T(==, !new)>(xs: seq<T>): (r: seq<T>)
    ensures SameElements(r, xs) && Distinct(r)
  {
    if xs == [] then []
    else
      assert xs == xs[..|xs| - 1] + [xs[|xs| - 1]];
      var front := Unique(xs[..|xs| - 1]);
      if xs[|xs| - 1] in front then front else front + [xs[|xs| - 1]]
  }

  /** `r` is what stands at the positions `at` of `xs`, in order. */
  ghost predicate Picks<T(!new)>(xs: seq<T>, at: seq<int>, r: seq<T>) {
    && |r| == |at| && (forall j :: 0 <= j < |at| ==> 0 <= at[j] < |xs| && r[j] == xs[at[j]])
    && forall j, l :: 0 <= j < l < |at| ==> at[j] < at[l]
  }

  lemma PicksPush<T(!new)>(xs: seq<T>, at: seq<int>, r: seq<T>, x: T)
    requires Picks(xs, at, r)
    ensures Picks(xs + [x], at, r) && Picks(xs + [x], at + [|xs|], r + [x])
  {
  }

  /** De-duplication keeps first occurrences, in order. */
  lemma {:induction false} UniqueFirsts<T(!new)>(xs: seq<T>) returns (at: seq<int>)
    ensures Picks(xs, at, Unique(xs)) && forall j :: 0 <= j < |at| ==> xs[at[j]] !in xs[..at[j]]
  {
    at := [];
    if xs != [] {
      var front, last := xs[..|xs| - 1], xs[|xs| - 1];
      assert xs == front + [last];
      var first := UniqueFirsts(front);
      PicksPush(front, first, Unique(front), last);
      at := if last in Unique(front) then first else first + [|front|];
      assert forall j :: 0 <= j < |first| ==> front[..first[j]] == xs[..first[j]];
      assert xs[..|front|] == front;
    }
  }

  lemma UniquePush<T(!new)>(xs: seq<T>, x: T)
    ensures Unique(xs + [x]) == if x in Unique(xs) then Unique(xs) else Unique(xs) + [x]
  {
    assert (xs + [x])[..|xs + [x]| - 1] == xs;
  }

  lemma {:induction false} UniqueAppend<T(!new)>(a: seq<T>, b: seq<T>)
    ensures Unique(Unique(a) + b) == Unique(a + b)
  {
    if b == [] {
      assert Unique(a) + b == Unique(a) && a + b == a;
      UniqueIdempotent(a);
    } else {
      var last := |b| - 1;
      assert (Unique(a) + b)[..|Unique(a) + b| - 1] == Unique(a) + b[..last];
      assert (a + b)[..|a + b| - 1] == a + b[..last];
      UniqueAppend(a, b[..last]);
    }
  }

  /** A list without repetition is left as it is. */
  lemma {:induction false} UniqueFixesDistinct<T(!new)>(xs: seq<T>)
    requires Distinct(xs)
    ensures Unique(xs) == xs
  {
    if xs != [] {
      UniqueFixesDistinct(xs[..|xs| - 1]);
      assert xs == xs[..|xs| - 1] + [xs[|xs| - 1]];
    }
  }

  lemma UniqueIdempotent<T(!new)>(xs: seq<T>)
    ensures Unique(Unique(xs)) == Unique(xs)
  {
    UniqueFixesDistinct(Unique(xs));
  }

  lemma {:induction false} UniqueAppendRight<T(!new)>(a: seq<T>, b: seq<T>)
    ensures Unique(a + Unique(b)) == Unique(a + b)
  {
    if b == [] {
    } else {
      var last := |b| - 1;
      var x := b[last];
      assert b == b[..last] + [x];
      assert (a + b)[..|a + b| - 1] == a + b[..last];
      UniqueAppendRight(a, b[..last]);
      if x in Unique(b[..last]) {
        assert x in Unique(a + b[..last]) by { assert x in a + b[..last]; }
      } else {
        assert (a + Unique(b))[..|a + Unique(b)| - 1] == a + Unique(b[..last]);
      }
    }
  }

  lemma ConcatAssociates<T>(a: seq<T>, b: seq<T>, c: seq<T>)
    ensures a + b + c == a + (b + c)
  {
  }

  /** De-duplicating early or late, on either side, gives the same first occurrences. */
  lemma UniqueAssociates<T(!new)>(a: seq<T>, b: seq<T>, c: seq<T>)
    ensures Unique(Unique(a + b) + c) == Unique(a + Unique(b + c))
  {
    UniqueAppend(a + b, c);
    ConcatAssociates(a, b, c);
    UniqueAppendRight(a, b + c);
  }

  /** So does sorting early or late. */
  lemma SortedSetAssociates<T(!new)>(less: (T, T) -> bool, a: seq<T>, b: seq<T>, c: seq<T>)
    requires StrictTotal(less)
    ensures SortedSet(less, SortedSet(less, a + b) + c) == SortedSet(less, a + SortedSet(less, b + c))
  {
    var x, y := SortedSet(less, a + b), SortedSet(less, b + c);
    forall s ensures s in x + c <==> s in a + y {
      assert s in x <==> s in a + b;
      assert s in y <==> s in b + c;
    }
    IncreasingUnique(less, SortedSet(less, x + c), SortedSet(less, a + y));
  }

  function NonEmpty(xs: seq<string>): (r: seq<string>)
    ensures forall x :: x in r <==> x in xs && x != ""
  {
    if xs == [] then []
    else
      var last := xs[|xs| - 1];
      assert xs == xs[..|xs| - 1] + [last];
      NonEmpty(xs[..|xs| - 1]) + (if last == "" then [] else [last])
  }

  /** What is not empty stays, in order. */
  lemma {:induction false} NonEmptyInOrder(xs: seq<string>) returns (at: seq<int>)
    ensures Picks(xs, at, NonEmpty(xs)) && forall i :: 0 <= i < |xs| ==> (i in at <==> xs[i] != "")
  {
    at := [];
    if xs != [] {
      var front, last := xs[..|xs| - 1], xs[|xs| - 1];
      assert xs == front + [last];
      var kept := NonEmptyInOrder(front);
      PicksPush(front, kept, NonEmpty(front), last);
      at := if last == "" then kept else kept + [|front|];
    }
  }

  /** `_stable_unique`: the non-empty strings, first occurrences in order. */
  method StableUnique(values: seq<string>) returns (result: seq<string>)
    ensures result == Unique(NonEmpty(values))
  {
    result := [];
    var seen := {};
    for i := 0 to |values|
      invariant result == Unique(NonEmpty(values[..i]))
      invariant forall x :: x in seen <==> x in result
    {
      var value := values[i];
      assert values[..i + 1][..i] == values[..i];
      assert NonEmpty(values[..i + 1]) == if value == "" then NonEmpty(values[..i]) else NonEmpty(values[..i]) + [value];
      if value != "" {
        UniquePush(NonEmpty(values[..i]), value);
      }
      if value == "" || value in seen {
        continue;
      }
      seen := seen + {value};
      result := result + [value];
    }
    assert values[..|values|] == values;
  }
}

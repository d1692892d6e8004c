/** What the reader of vendor statements makes of product names, old and new. */
module CpeReaders {
  import opened CpeNames
  import opened Ordering
  import opened PercentCoding
  import opened Texts

  ghost predicate AllSpace(space: char -> bool, s: string) { forall c :: c in s ==> space(c) }

  /** The text is `r` between two runs of space. */
  ghost predicate Padded(space: char -> bool, s: string, before: string, r: string, after: string) {
    s == before + r + after && AllSpace(space, before) && AllSpace(space, after)
  }

  lemma PadLeft(space: char -> bool, c: char, s: string, before: string, r: string, after: string)
    requires space(c) && Padded(space, s, before, r, after)
    ensures Padded(space, [c] + s, [c] + before, r, after)
  {
  }

  lemma PadRight(space: char -> bool, c: char, s: string, before: string, r: string, after: string)
    requires space(c) && Padded(space, s, before, r, after)
    ensures Padded(space, s + [c], before, r, after + [c])
  {
  }

  /** Stripping takes off space at both ends, all of it and nothing else. */
  lemma {:induction false} StripExact(space: char -> bool, s: string) returns (before: string, after: string)
    ensures Padded(space, s, before, Strip(space, s), after)
    ensures var r := Strip(space, s); r != "" ==> !space(r[0]) && !space(r[|r| - 1])
    decreases |s|
  {
    before, after := "", "";
    if s != "" && space(s[0]) {
      before, after := StripExact(space, s[1..]);
      PadLeft(space, s[0], s[1..], before, Strip(space, s[1..]), after);
      before := [s[0]] + before;
      assert s == [s[0]] + s[1..];
    } else if s != "" && space(s[|s| - 1]) {
      var front, last := s[..|s| - 1], s[|s| - 1];
      before, after := StripExact(space, front);
      PadRight(space, last, front, before, Strip(space, front), after);
      after := after + [last];
      assert s == front + [last];
    }
  }

  ghost predicate IsWildcard(s: string) { s == "" || s == "*" || s == "-" }

  /** Each field decoded, then stripped, then in lower case, and none of them a wildcard. */
  ghost predicate Reads(lower: char -> char, space: char -> bool, id: Identity, part: string, vendor: string,
                        product: string) {
    && id.part == MapChars(lower, Strip(space, Unquote(part)))
    && id.vendor == MapChars(lower, Strip(space, Unquote(vendor)))
    && id.product == MapChars(lower, Strip(space, Unquote(product)))
    && !IsWildcard(id.part) && !IsWildcard(id.vendor) && !IsWildcard(id.product)
  }

  lemma ReadsExact(lower: char -> char, space: char -> bool, id: Identity, part: string, vendor: string, product: string)
    ensures Reads(lower, space, id, part, vendor, product) <==>
      && id == Identity(Normal(lower, space, part), Normal(lower, space, vendor), Normal(lower, space, product))
      && id.part !in WILDCARDS && id.vendor !in WILDCARDS && id.product !in WILDCARDS
  {
  }

  /** Of a name in the old form the first three fields are read. */
  lemma OldNames(lower: char -> char, space: char -> bool, x: string, id: Identity)
    ensures NaiveIdentity(lower, space, "cpe:/" + x) == Some(id) <==>
      |SplitColon(x)| >= 3 && Reads(lower, space, id, SplitColon(x)[0], SplitColon(x)[1], SplitColon(x)[2])
  {
    var parts := SplitColon(x);
    assert ("cpe:/" + x)[5..] == x && "cpe:/" <= "cpe:/" + x;
    if |parts| >= 3 {
      assert parts[..3] == [parts[0], parts[1], parts[2]];
      ReadsExact(lower, space, id, parts[0], parts[1], parts[2]);
    }
  }

  /** Of a name in the new form the third to the fifth, escapes or not. */
  lemma NewNames(lower: char -> char, space: char -> bool, value: string, id: Identity)
    requires "cpe:2.3:" <= value
    ensures NaiveIdentity(lower, space, value) == Some(id) <==>
      |SplitColon(value)| >= 5 && Reads(lower, space, id, SplitColon(value)[2], SplitColon(value)[3], SplitColon(value)[4])
  {
    var parts := SplitColon(value);
    assert value[4] == '2' && "cpe:/"[4] == '/';
    if |parts| >= 5 {
      assert parts[2..5] == [parts[2], parts[3], parts[4]];
      ReadsExact(lower, space, id, parts[2], parts[3], parts[4]);
    }
  }

  /** And of anything else none. */
  lemma OtherTexts(lower: char -> char, space: char -> bool, value: string)
    requires !("cpe:/" <= value) && !("cpe:2.3:" <= value)
    ensures NaiveIdentity(lower, space, value) == None && AwareIdentity(lower, value) == None
  {
  }

  lemma SplitColonHead(a: string, rest: string)
    requires ':' !in a && (rest == "" || rest[0] == ':')
    ensures SplitColon(a + rest)[0] == a
  {
    if rest == "" {
      assert a + rest == a;
      SplitColonWhole(a);
    } else {
      assert a + rest == a + ":" + rest[1..];
      SplitColonFirst(a, rest[1..]);
    }
  }

  lemma {:induction false} SplitColonWhole(a: string)
    requires ':' !in a
    ensures SplitColon(a) == [a]
  {
    if a != "" {
      assert a[0] in a;
      SplitColonWhole(a[1..]);
      assert [a[0]] + a[1..] == a;
    }
  }

  /** A name in the old form is read by this reader only. */
  lemma LegacyNames(lower: char -> char, space: char -> bool, part: string, vendor: string, product: string, rest: string,
                    id: Identity)
    requires ':' !in part && ':' !in vendor && ':' !in product && (rest == "" || rest[0] == ':')
    ensures var value := "cpe:/" + (part + ":" + (vendor + ":" + (product + rest)));
      && (NaiveIdentity(lower, space, value) == Some(id) <==> Reads(lower, space, id, part, vendor, product))
      && AwareIdentity(lower, value) == None
  {
    var x := part + ":" + (vendor + ":" + (product + rest));
    var value := "cpe:/" + x;
    SplitColonFirst(part, vendor + ":" + (product + rest));
    SplitColonFirst(vendor, product + rest);
    SplitColonHead(product, rest);
    var last := SplitColon(product + rest);
    assert SplitColon(x) == [part] + ([vendor] + last) && last[0] == product;
    assert value[4] == '/' && CPE23[4] == '2';
    OldNames(lower, space, x, id);
  }
}

/** Two readers of CPE 2.3 formatted strings (section 6.2 of NISTIR 7695): one knows escapes, one does not. */
module CpeNames {
  import opened Ordering
  import opened Texts
  import opened PercentCoding

  // ---------------------------------------------------------------- escape-aware splitting

  datatype Scan = Scan(parts: seq<string>, current: string, escaped: bool)

  function Step(s: Scan, c: char): Scan {
    if s.escaped then Scan(s.parts, s.current + [c], false)
    else if c == '\\' then s.(escaped := true)
    else if c == ':' then Scan(s.parts + [s.current], "", false)
    else s.(current := s.current + [c])
  }

  function ScanFrom(s: Scan, value: string): Scan
    decreases |value|
  {
    if value == "" then s else ScanFrom(Step(s, value[0]), value[1..])
  }

  function Finish(s: Scan): seq<string> {
    s.parts + [if s.escaped then s.current + "\\" else s.current]
  }

  function Split(value: string): seq<string> {
    Finish(ScanFrom(Scan([], "", false), value))
  }

  /** `_split_cpe23`. */
  method SplitCpe23(value: string) returns (parts: seq<string>)
    ensures parts == Split(value)
  {
    parts := [];
    var current := "";
    var escaped := false;
    for i := 0 to |value|
      invariant ScanFrom(Scan([], "", false), value) == ScanFrom(Scan(parts, current, escaped), value[i..])
    {
      var c := value[i];
      assert value[i..][0] == c && value[i..][1..] == value[i + 1..];
      if escaped {
        current := current + [c];
        escaped := false;
        continue;
      }
      if c == '\\' {
        escaped := true;
        continue;
      }
      if c == ':' {
        parts := parts + [current];
        current := "";
        continue;
      }
      current := current + [c];
    }
    if escaped {
      current := current + "\\";
    }
    parts := parts + [current];
  }

  function Escape(s: string): string {
    if s == "" then ""
    else (if s[0] in ":\\" then ['\\', s[0]] else [s[0]]) + Escape(s[1..])
  }

  /** The fields escaped and joined by colons. */
  function Print(fields: seq<string>): string
    requires fields != []
  {
    if |fields| == 1 then Escape(fields[0]) else Escape(fields[0]) + ":" + Print(fields[1..])
  }

  lemma {:induction false} ScanAppend(s: Scan, a: string, b: string)
    ensures ScanFrom(s, a + b) == ScanFrom(ScanFrom(s, a), b)
    decreases |a|
  {
    if a == "" {
      assert a + b == b;
    } else {
      assert (a + b)[0] == a[0] && (a + b)[1..] == a[1..] + b;
      ScanAppend(Step(s, a[0]), a[1..], b);
    }
  }

  /** Reading an escaped field adds the field itself. */
  lemma {:induction false} ScanEscape(s: Scan, field: string)
    requires !s.escaped
    ensures ScanFrom(s, Escape(field)) == s.(current := s.current + field)
    decreases |field|
  {
    if field == "" {
      assert s.current + field == s.current;
    } else {
      var head := if field[0] in ":\\" then ['\\', field[0]] else [field[0]];
      var next := s.(current := s.current + [field[0]]);
      ScanAppend(s, head, Escape(field[1..]));
      assert head[1..] == if field[0] in ":\\" then [field[0]] else "";
      if field[0] in ":\\" {
        assert ScanFrom(s.(escaped := true), [field[0]]) == ScanFrom(next, "") by { assert [field[0]][1..] == ""; }
      }
      assert ScanFrom(s, head) == next;
      ScanEscape(next, field[1..]);
      assert s.current + [field[0]] + field[1..] == s.current + field;
    }
  }

  lemma {:induction false} ScanPrint(parts: seq<string>, fields: seq<string>)
    requires fields != []
    ensures Finish(ScanFrom(Scan(parts, "", false), Print(fields))) == parts + fields
    decreases |fields|
  {
    var s := Scan(parts, "", false);
    var field := fields[0];
    ScanEscape(s, field);
    assert "" + field == field;
    if |fields| == 1 {
      assert fields == [field];
    } else {
      var between := Scan(parts, field, false);
      ScanAppend(s, Escape(field), ":" + Print(fields[1..]));
      assert Print(fields) == Escape(field) + (":" + Print(fields[1..]));
      assert (":" + Print(fields[1..]))[1..] == Print(fields[1..]);
      ScanPrint(parts + [field], fields[1..]);
      assert parts + [field] + fields[1..] == parts + fields by { assert fields == [field] + fields[1..]; }
    }
  }

  /** Splitting undoes escaping, for every non-empty list of strings. */
  lemma SplitPrint(fields: seq<string>)
    requires fields != []
    ensures Split(Print(fields)) == fields
  {
    ScanPrint([], fields);
  }

  // ---------------------------------------------------------------- plain splitting

  /** `value.split(":")`. */
  function SplitColon(value: string): (r: seq<string>)
    ensures |r| > 0
  {
    if value == "" then [""]
    else
      var rest := SplitColon(value[1..]);
      if value[0] == ':' then [""] + rest else [[value[0]] + rest[0]] + rest[1..]
  }

  lemma {:induction false} ScanPlain(parts: seq<string>, current: string, value: string)
    requires '\\' !in value
    ensures var rest := SplitColon(value);
      Finish(ScanFrom(Scan(parts, current, false), value)) == parts + [current + rest[0]] + rest[1..]
    decreases |value|
  {
    if value == "" {
      assert current + SplitColon(value)[0] == current;
    } else {
      assert value[0] in value;
      var tail := SplitColon(value[1..]);
      if value[0] == ':' {
        ScanPlain(parts + [current], "", value[1..]);
        NewPart(parts, current, tail);
      } else {
        ScanPlain(parts, current + [value[0]], value[1..]);
        assert current + [value[0]] + tail[0] == current + ([value[0]] + tail[0]);
      }
    }
  }

  lemma NewPart(parts: seq<string>, current: string, tail: seq<string>)
    requires tail != []
    ensures (parts + [current]) + ["" + tail[0]] + tail[1..] == parts + [current + ""] + tail
  {
    assert "" + tail[0] == tail[0] && current + "" == current;
  }

  /** Without a backslash both ways of splitting agree. */
  lemma SplitsAgree(value: string)
    requires '\\' !in value
    ensures Split(value) == SplitColon(value)
  {
    ScanPlain([], "", value);
    var rest := SplitColon(value);
    assert "" + rest[0] == rest[0] && [rest[0]] + rest[1..] == rest;
  }

  // ---------------------------------------------------------------- product identity

  datatype Identity = Identity(part: string, vendor: string, product: string)

  const CPE23 := "cpe:2.3:"
  const WILDCARDS := {"", "*", "-"}

  function Strip(space: char -> bool, s: string): (r: string)
    ensures |r| <= |s| && (forall c :: c in r ==> c in s)
    decreases |s|
  {
    if s != "" && space(s[0]) then Strip(space, s[1..])
    else if s != "" && space(s[|s| - 1]) then Strip(space, s[..|s| - 1])
    else s
  }

  /** `_cpe23_product_identity`. */
  function AwareIdentity(lower: char -> char, criteria: string): Option<Identity> {
    if !(CPE23 <= criteria) then None
    else
      var parts := Split(criteria);
      if |parts| < 5 then None
      else if parts[2] in WILDCARDS || parts[3] in WILDCARDS || parts[4] in WILDCARDS then None
      else Some(Identity(MapChars(lower, parts[2]), MapChars(lower, parts[3]), MapChars(lower, parts[4])))
  }

  function Normal(lower: char -> char, space: char -> bool, field: string): string {
    MapChars(lower, Strip(space, Unquote(field)))
  }

  /** `_parse_cpe_product`. */
  function NaiveIdentity(lower: char -> char, space: char -> bool, value: string): Option<Identity> {
    var fields :=
      if "cpe:/" <= value then
        (var parts := SplitColon(value[5..]);
         if |parts| < 3 then [] else parts[..3])
      else if CPE23 <= value then
        (var parts := SplitColon(value);
         if |parts| < 5 then [] else parts[2..5])
      else [];
    if fields == [] then None
    else
      var r := Identity(Normal(lower, space, fields[0]), Normal(lower, space, fields[1]), Normal(lower, space, fields[2]));
      if r.part in WILDCARDS || r.vendor in WILDCARDS || r.product in WILDCARDS then None else Some(r)
  }

  /** Lower-casing neither makes nor unmakes a wildcard. */
  ghost predicate KeepsWildcards(lower: char -> char) {
    forall c :: (lower(c) == '*' <==> c == '*') && (lower(c) == '-' <==> c == '-')
  }

  lemma LowerWildcards(lower: char -> char, s: string)
    requires KeepsWildcards(lower)
    ensures MapChars(lower, s) in WILDCARDS <==> s in WILDCARDS
  {
    var r := MapChars(lower, s);
    if |s| == 1 {
      assert r == [lower(s[0])] && s == [s[0]];
    }
  }

  predicate Trimmed(space: char -> bool, s: string) { Strip(space, s) == s }

  /** The three fields either reader looks at. */
  function Fields(value: string): seq<string> {
    var parts := SplitColon(value);
    if |parts| < 5 then [] else parts[2..5]
  }

  lemma {:induction false} SplitColonChars(value: string, i: nat, c: char)
    requires i < |SplitColon(value)| && c in SplitColon(value)[i]
    ensures c in value
    decreases |value|
  {
    var rest := SplitColon(value[1..]);
    if value[0] == ':' {
      SplitColonChars(value[1..], i - 1, c);
    } else if i > 0 {
      SplitColonChars(value[1..], i, c);
    } else if c != value[0] {
      SplitColonChars(value[1..], 0, c);
    }
  }

  lemma SameFieldSameResult(lower: char -> char, space: char -> bool, f: string)
    requires KeepsWildcards(lower) && '%' !in f
    ensures Trimmed(space, f) ==> Normal(lower, space, f) == MapChars(lower, f)
    ensures !Trimmed(space, f) ==> |Normal(lower, space, f)| < |f|
    ensures f in WILDCARDS && (forall c :: c in "*-" ==> !space(c)) ==> Normal(lower, space, f) in WILDCARDS
    ensures Trimmed(space, f) ==> (Normal(lower, space, f) in WILDCARDS <==> f in WILDCARDS)
  {
    UnquotePlain(f);
    LowerWildcards(lower, f);
    StripShorter(space, f);
    assert f == "*" || f == "-" ==> f[0] in "*-" && f[|f| - 1] == f[0];
  }

  lemma {:induction false} StripShorter(space: char -> bool, s: string)
    ensures Strip(space, s) == s || |Strip(space, s)| < |s|
    decreases |s|
  {
  }

  /** On backslash- and percent-free CPE 2.3 strings the two readers give the same result exactly when no
      field has surrounding whitespace, or a field is missing or a wildcard so that both reject. */
  lemma ReadersAgreeExact(lower: char -> char, space: char -> bool, value: string)
    requires KeepsWildcards(lower) && (forall c :: c in "*-" ==> !space(c))
    requires CPE23 <= value && '\\' !in value && '%' !in value
    ensures NaiveIdentity(lower, space, value) == AwareIdentity(lower, value)
       <==> (|| Fields(value) == [] || (exists f :: f in Fields(value) && f in WILDCARDS)
             || (forall f :: f in Fields(value) ==> Trimmed(space, f)))
  {
    SplitsAgree(value);
    assert value[4] == '2' && "cpe:/"[4] == '/';
    var parts := SplitColon(value);
    if |parts| >= 5 {
      var fields := Fields(value);
      assert fields == [parts[2], parts[3], parts[4]];
      forall f | f in fields ensures '%' !in f {
        var i :| 2 <= i < 5 && parts[i] == f;
        if '%' in f { SplitColonChars(value, i, '%'); }
      }
      SameFieldSameResult(lower, space, parts[2]);
      SameFieldSameResult(lower, space, parts[3]);
      SameFieldSameResult(lower, space, parts[4]);
    }
  }

  lemma {:induction false} EscapePlain(s: string)
    requires ':' !in s && '\\' !in s
    ensures Escape(s) == s
  {
    if s != "" {
      assert s[0] in s;
      EscapePlain(s[1..]);
    }
  }

  lemma PrintCons(field: string, fields: seq<string>)
    requires fields != []
    ensures Print([field] + fields) == Escape(field) + ":" + Print(fields)
  {
    assert ([field] + fields)[1..] == fields;
  }

  lemma CpePrefix(x: string)
    ensures CPE23 + x == "cpe" + ":" + ("2.3" + ":" + x)
  {
    var r := "cpe" + ":" + ("2.3" + ":" + x);
    assert r[..8] == CPE23 && r[8..] == x;
    assert r == r[..8] + r[8..];
  }

  lemma PrintedCpe(fields: seq<string>)
    requires fields != []
    ensures Print(["cpe"] + (["2.3"] + fields)) == "cpe" + ":" + ("2.3" + ":" + Print(fields))
    ensures Print(["cpe"] + (["2.3"] + fields)) == CPE23 + Print(fields)
  {
    EscapePlain("cpe");
    EscapePlain("2.3");
    PrintCons("2.3", fields);
    PrintCons("cpe", ["2.3"] + fields);
    CpePrefix(Print(fields));
  }

  /** The aware reader recovers any printed part, vendor and product that is not a wildcard. */
  lemma AwareReadsPrinted(lower: char -> char, part: string, vendor: string, product: string, rest: seq<string>)
    ensures AwareIdentity(lower, CPE23 + Print([part, vendor, product] + rest))
         == if part in WILDCARDS || vendor in WILDCARDS || product in WILDCARDS then None
            else Some(Identity(MapChars(lower, part), MapChars(lower, vendor), MapChars(lower, product)))
  {
    var fields := [part, vendor, product] + rest;
    PrintedCpe(fields);
    SplitPrint(["cpe"] + (["2.3"] + fields));
  }

  lemma {:induction false} SplitColonFirst(a: string, b: string)
    requires ':' !in a
    ensures SplitColon(a + ":" + b) == [a] + SplitColon(b)
  {
    var s := a + ":" + b;
    if a == "" {
      assert s[1..] == b;
    } else {
      assert a[0] in a && s[0] == a[0] && s[1..] == a[1..] + ":" + b;
      SplitColonFirst(a[1..], b);
      assert [a[0]] + a[1..] == a && ([a[1..]] + SplitColon(b))[1..] == SplitColon(b);
    }
  }

  /** An escaped colon ends a field for the naive reader, which keeps the backslash. */
  lemma EscapedColonCutsNaive(part: string, u: string, v: string, rest: seq<string>)
    requires ':' !in part && '\\' !in part && ':' !in u && '\\' !in u && rest != []
    ensures var value := CPE23 + Print([part] + ([u + ":" + v] + rest));
      && |SplitColon(value)| >= 4 && SplitColon(value)[2] == part && SplitColon(value)[3] == u + "\\"
      && |Split(value)| >= 4 && Split(value)[2] == part && Split(value)[3] == u + ":" + v
  {
    var fields := [part] + ([u + ":" + v] + rest);
    PrintedCpe(fields);
    SplitPrint(["cpe"] + (["2.3"] + fields));
    PrintedPair(part, u, v, rest);
    SplitColonFirst("cpe", "2.3" + ":" + Print(fields));
    SplitColonFirst("2.3", Print(fields));
    var tail := Escape(v) + ":" + Print(rest);
    SplitColonFirst(part, u + "\\" + ":" + tail);
    SplitColonFirst(u + "\\", tail);
  }

  lemma EscapedPairSplits(u: string, e: string, r: string)
    ensures u + ("\\:" + e) + ":" + r == u + "\\" + ":" + (e + ":" + r)
  {
  }

  lemma PrintedPair(part: string, u: string, v: string, rest: seq<string>)
    requires ':' !in part && '\\' !in part && ':' !in u && '\\' !in u && rest != []
    ensures Print([part] + ([u + ":" + v] + rest)) == part + ":" + (u + "\\" + ":" + (Escape(v) + ":" + Print(rest)))
  {
    EscapePlain(part);
    PrintCons(part, [u + ":" + v] + rest);
    PrintCons(u + ":" + v, rest);
    EscapedField(u, v);
    EscapedPairSplits(u, Escape(v), Print(rest));
  }

  lemma EscapedField(u: string, v: string)
    requires ':' !in u && '\\' !in u
    ensures Escape(u + ":" + v) == u + ("\\:" + Escape(v))
  {
    EscapePlain(u);
    EscapeAppend(u, ":" + v);
    assert u + (":" + v) == u + ":" + v && (":" + v)[1..] == v;
  }

  lemma {:induction false} EscapeAppend(a: string, b: string)
    ensures Escape(a + b) == Escape(a) + Escape(b)
  {
    if a == "" {
      assert a + b == b;
    } else {
      assert (a + b)[0] == a[0] && (a + b)[1..] == a[1..] + b;
      EscapeAppend(a[1..], b);
    }
  }
}

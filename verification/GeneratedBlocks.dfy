/** Splicing generated text between markers, and checking that nothing is stale. */
module GeneratedBlocks {
  import opened Ordering

  // ---------------------------------------------------------------- occurrences

  predicate At(text: string, m: string, i: int) {
    0 <= i && i + |m| <= |text| && forall k :: 0 <= k < |m| ==> text[i + k] == m[k]
  }

  /** An occurrence carries over to another text that agrees with the first over its length. */
  lemma Carry(a: string, i: int, b: string, j: int, m: string)
    requires At(a, m, i) && 0 <= j && j + |m| <= |b| && a[i..i + |m|] == b[j..j + |m|]
    ensures At(b, m, j)
  {
    forall k | 0 <= k < |m| ensures b[j + k] == m[k] {
      assert a[i..i + |m|][k] == a[i + k] && b[j..j + |m|][k] == b[j + k];
    }
  }

  /** The leftmost occurrence. */
  predicate IsLeast(text: string, m: string, i: int) {
    At(text, m, i) && forall j :: 0 <= j < i ==> !At(text, m, j)
  }

  lemma {:induction false} LeastExists(text: string, m: string, i: int) returns (least: int)
    requires At(text, m, i)
    ensures 0 <= least <= i && IsLeast(text, m, least)
    decreases i
  {
    if j :| 0 <= j < i && At(text, m, j) {
      least := LeastExists(text, m, j);
    } else {
      least := i;
    }
  }

  /** `text.index(m)`, or -1. */
  function Find(text: string, m: string): (r: int)
    ensures r >= 0 ==> At(text, m, r)
    ensures forall i :: At(text, m, i) ==> 0 <= r <= i
  {
    if exists i :: 0 <= i <= |text| && At(text, m, i) then
      assert exists i :: 0 <= i <= |text| && IsLeast(text, m, i) by {
        var i :| 0 <= i <= |text| && At(text, m, i);
        var least := LeastExists(text, m, i);
      }
      var i :| 0 <= i <= |text| && IsLeast(text, m, i);
      i
    else -1
  }

  /** `text.count(m)`: occurrences from the left that do not overlap. */
  function Count(text: string, m: string): nat
    requires m != ""
    decreases |text|
  {
    var i := Find(text, m);
    if i < 0 then 0 else 1 + Count(text[i + |m|..], m)
  }

  /** `m` stands at `i`, and any other occurrence overlaps that one from the right. */
  ghost predicate Once(text: string, m: string, i: int) {
    At(text, m, i) && forall j :: At(text, m, j) ==> i <= j < i + |m|
  }

  /** Occurrences right of a position are those of the rest of the text. */
  lemma RestOccurrence(text: string, m: string, from: int, i: int)
    requires 0 <= from <= |text| && from <= i
    ensures At(text, m, i) <==> At(text[from..], m, i - from)
  {
    var rest := text[from..];
    assert i + |m| <= |text| ==> rest[i - from..i - from + |m|] == text[i..i + |m|];
    if At(text, m, i) { Carry(text, i, rest, i - from, m); }
    if At(rest, m, i - from) { Carry(rest, i - from, text, i, m); }
  }

  lemma CountOne(text: string, m: string)
    requires m != ""
    ensures Count(text, m) == 1 <==> Once(text, m, Find(text, m))
    ensures forall i :: Once(text, m, i) ==> i == Find(text, m)
  {
    var i := Find(text, m);
    if i >= 0 {
      var from := i + |m|;
      var next := Find(text[from..], m);
      if next >= 0 { RestOccurrence(text, m, from, from + next); }
      forall j | At(text, m, j) && j >= from ensures next >= 0 { RestOccurrence(text, m, from, j); }
    }
  }

  ghost predicate Free(text: string, m: string) {
    forall i :: !At(text, m, i)
  }

  // ---------------------------------------------------------------- splicing

  predicate Marker(m: string) { m != "" && '\n' !in m }

  /** `r` is `s` without its trailing space: what is cut off is all space, and what remains does not end in any. */
  predicate IsStripped(space: char -> bool, s: string, r: string) {
    && r <= s && (forall i :: |r| <= i < |s| ==> space(s[i]))
    && (r == "" || !space(r[|r| - 1]))
  }

  function RStrip(space: char -> bool, s: string): (r: string)
    ensures IsStripped(space, s, r)
  {
    if s != "" && space(s[|s| - 1]) then RStrip(space, s[..|s| - 1]) else s
  }

  function Middle(body: string): string { "\n" + body + "\n" }

  /** The text with what lies between two positions replaced. */
  function Splice(text: string, start: int, stop: int, body: string): string
    requires 0 <= start <= |text| && 0 <= stop <= |text|
  {
    text[..start] + Middle(body) + text[stop..]
  }

  /** No occurrence of a marker covers a newline. */
  lemma MissesNewline(text: string, m: string, i: int, p: int)
    requires Marker(m) && At(text, m, i) && 0 <= p < |text| && text[p] == '\n'
    ensures p < i || i + |m| <= p
  {
    forall q | i <= q < i + |m| ensures text[q] != '\n' {
      assert m[q - i] in m && text[i + (q - i)] == m[q - i];
    }
  }

  /** The parts of a spliced text, each at its place, and the newlines at the seams. */
  lemma SpliceParts(text: string, start: int, stop: int, body: string)
    requires 0 <= start <= |text| && 0 <= stop <= |text|
    ensures var r, after := Splice(text, start, stop, body), start + |body| + 2;
      && |r| == after + |text| - stop
      && r[..start] == text[..start] && r[start] == '\n' && r[start + 1..after - 1] == body && r[after - 1] == '\n'
      && r[after..] == text[stop..]
  {
  }

  /** A marker cannot straddle the newlines at a seam: an occurrence in the spliced text lies left of the
      block or right of it, where it was before. */
  lemma SeamOccurrence(text: string, start: int, stop: int, body: string, m: string, i: int)
    requires 0 <= start <= |text| && 0 <= stop <= |text| && Marker(m) && Free(body, m)
    requires At(Splice(text, start, stop, body), m, i)
    ensures (i + |m| <= start && At(text, m, i))
         || (start + |body| + 2 <= i && At(text, m, i - (start + |body| + 2) + stop))
  {
    var r := Splice(text, start, stop, body);
    var after := start + |body| + 2;
    SpliceParts(text, start, stop, body);
    MissesNewline(r, m, i, start);
    MissesNewline(r, m, i, after - 1);
    if i + |m| <= start {
      assert r[i..i + |m|] == r[..start][i..i + |m|] == text[i..i + |m|];
      Carry(r, i, text, i, m);
    } else if i < after {
      assert r[i..i + |m|] == r[start + 1..after - 1][i - start - 1..i - start - 1 + |m|];
      Carry(r, i, body, i - start - 1, m);
    } else {
      assert r[i..i + |m|] == r[after..][i - after..i - after + |m|] == text[stop..][i - after..i - after + |m|];
      Carry(r, i, text, i - after + stop, m);
    }
  }

  /** A marker that occurs once, left or right of the block, still occurs once after a splice. */
  lemma SpliceKeepsOnce(text: string, start: int, stop: int, body: string, m: string, k: int)
    requires 0 <= start <= stop <= |text| && Marker(m) && Free(body, m) && Once(text, m, k)
    ensures k + |m| <= start ==> Once(Splice(text, start, stop, body), m, k)
    ensures stop <= k ==> Once(Splice(text, start, stop, body), m, k - stop + start + |body| + 2)
  {
    var r := Splice(text, start, stop, body);
    var after := start + |body| + 2;
    if k + |m| <= start {
      assert r[k..k + |m|] == text[k..k + |m|];
      Carry(text, k, r, k, m);
      forall i | At(r, m, i) ensures k <= i < k + |m| {
        SeamOccurrence(text, start, stop, body, m, i);
      }
    }
    if stop <= k {
      var k' := k - stop + after;
      assert r[k'..k' + |m|] == text[k..k + |m|];
      Carry(text, k, r, k', m);
      forall i | At(r, m, i) ensures k' <= i < k' + |m| {
        SeamOccurrence(text, start, stop, body, m, i);
      }
    }
  }

  // ---------------------------------------------------------------- one block

  datatype Spec = Spec(path: string, begin: string, end: string, body: string)

  datatype Outcome = Unchanged | Written(text: string) | Raised

  /** `_replace` on the text of one file. */
  function Replace(text: string, s: Spec, body: string, check: bool): Outcome
    requires s.begin != "" && s.end != ""
  {
    if Count(text, s.begin) != 1 || Count(text, s.end) != 1 then Raised
    else
      var expected := Splice(text, Find(text, s.begin) + |s.begin|, Find(text, s.end), body);
      if expected == text then Unchanged
      else if check then Raised
      else Written(expected)
  }

  /** Both markers occur once, begin at `p` before end at `q`. */
  ghost predicate BlockAt(text: string, s: Spec, p: int, q: int) {
    Marker(s.begin) && Marker(s.end) && Once(text, s.begin, p) && Once(text, s.end, q) && p + |s.begin| <= q
  }

  ghost predicate Block(text: string, s: Spec) {
    BlockAt(text, s, Find(text, s.begin), Find(text, s.end))
  }

  lemma BlockFound(text: string, s: Spec, p: int, q: int)
    requires BlockAt(text, s, p, q)
    ensures Find(text, s.begin) == p && Find(text, s.end) == q
  {
    CountOne(text, s.begin);
    CountOne(text, s.end);
  }

  ghost predicate IsParted(text: string, s: Spec, before: string, inner: string, after: string) {
    text == before + (s.begin + (inner + (s.end + after)))
  }

  /** A block is the begin marker, then what it holds, then the end marker, and both markers count once. */
  lemma BlockParts(text: string, s: Spec) returns (before: string, inner: string, after: string)
    requires Block(text, s)
    ensures IsParted(text, s, before, inner, after) && Count(text, s.begin) == 1 && Count(text, s.end) == 1
    ensures inner == text[Start(text, s)..Stop(text, s)]
  {
    CountOne(text, s.begin);
    CountOne(text, s.end);
    var p, q := Find(text, s.begin), Find(text, s.end);
    assert text[p..p + |s.begin|] == s.begin && text[q..q + |s.end|] == s.end;
    before, inner, after := text[..p], text[p + |s.begin|..q], text[q + |s.end|..];
    assert text[q..] == s.end + after && text[p..] == s.begin + text[p + |s.begin|..];
    assert text[p + |s.begin|..] == inner + text[q..] && text == before + text[p..];
  }

  /** Two markers that stand nowhere else, in order, make a block. */
  lemma PartsAreBlock(text: string, s: Spec, before: string, inner: string, after: string)
    requires IsParted(text, s, before, inner, after) && Marker(s.begin) && Marker(s.end)
    requires forall i :: At(text, s.begin, i) ==> i == |before|
    requires forall i :: At(text, s.end, i) ==> i == |before| + |s.begin| + |inner|
    ensures Block(text, s) && text[Start(text, s)..Stop(text, s)] == inner
  {
    PartsAt(text, s, before, inner, after);
    BlockFound(text, s, |before|, |before| + |s.begin| + |inner|);
    assert text[|before| + |s.begin|..|before| + |s.begin| + |inner|] == inner;
  }

  lemma PartsAt(text: string, s: Spec, before: string, inner: string, after: string)
    requires IsParted(text, s, before, inner, after)
    ensures At(text, s.begin, |before|) && At(text, s.end, |before| + |s.begin| + |inner|)
  {
    var q := |before| + |s.begin| + |inner|;
    assert text[|before|..|before| + |s.begin|] == s.begin && text[q..q + |s.end|] == s.end;
    forall k | 0 <= k < |s.begin| ensures text[|before| + k] == s.begin[k] {
      assert text[|before|..|before| + |s.begin|][k] == text[|before| + k];
    }
    forall k | 0 <= k < |s.end| ensures text[q + k] == s.end[k] {
      assert text[q..q + |s.end|][k] == text[q + k];
    }
  }

  function Start(text: string, s: Spec): int { Find(text, s.begin) + |s.begin| }

  function Stop(text: string, s: Spec): int { Find(text, s.end) }

  ghost predicate BodyFree(body: string, s: Spec) { Free(body, s.begin) && Free(body, s.end) }

  /** The block already holds this body. */
  ghost predicate Current(text: string, s: Spec, body: string) {
    Block(text, s) && text[Start(text, s)..Stop(text, s)] == Middle(body)
  }

  function Updated(text: string, s: Spec, body: string): string
    requires 0 <= Start(text, s) <= |text| && 0 <= Stop(text, s) <= |text|
  {
    Splice(text, Start(text, s), Stop(text, s), body)
  }

  /** On a block, `_replace` writes exactly when the block is not current, and check mode raises exactly then. */
  lemma ReplaceOnBlock(text: string, s: Spec, body: string, check: bool)
    requires Block(text, s)
    ensures Replace(text, s, body, check)
         == if Current(text, s, body) then Unchanged else if check then Raised else Written(Updated(text, s, body))
    ensures Updated(text, s, body) == text <==> Current(text, s, body)
  {
    CountOne(text, s.begin);
    CountOne(text, s.end);
    var a, b := Start(text, s), Stop(text, s);
    var r := Updated(text, s, body);
    assert text == text[..a] + text[a..b] + text[b..];
    if r == text {
      assert r[a..a + |body| + 2] == Middle(body);
      assert |r| == a + |body| + 2 + |text| - b;
    }
  }

  /** Writing a block makes it current and keeps it a block: a second render changes nothing. */
  lemma UpdatedIsCurrent(text: string, s: Spec, body: string)
    requires Block(text, s) && BodyFree(body, s)
    ensures Current(Updated(text, s, body), s, body)
    ensures Start(Updated(text, s, body), s) == Start(text, s)
    ensures Stop(Updated(text, s, body), s) == Start(text, s) + |body| + 2
  {
    var a, b := Start(text, s), Stop(text, s);
    SpliceKeepsOnce(text, a, b, body, s.begin, Find(text, s.begin));
    SpliceKeepsOnce(text, a, b, body, s.end, b);
    var r := Updated(text, s, body);
    CountOne(r, s.begin);
    CountOne(r, s.end);
    assert r[a..a + |body| + 2] == Middle(body);
  }

  /** Text up to `start` and from `stop` on is still there after a splice. */
  lemma SpliceKeepsOutside(text: string, start: int, stop: int, body: string, m: string, k: int)
    requires 0 <= start <= |text| && 0 <= stop <= |text| && At(text, m, k)
    ensures k + |m| <= start ==> At(Splice(text, start, stop, body), m, k)
    ensures stop <= k ==> At(Splice(text, start, stop, body), m, k - stop + start + |body| + 2)
  {
    var r := Splice(text, start, stop, body);
    if k + |m| <= start {
      assert r[k..k + |m|] == text[k..k + |m|];
      Carry(text, k, r, k, m);
    }
    if stop <= k {
      var k' := k - stop + start + |body| + 2;
      assert r[k'..k' + |m|] == text[k..k + |m|];
      Carry(text, k, r, k', m);
    }
  }

  lemma TwiceIsNotOnce(text: string, m: string, i: int, j: int)
    requires m != "" && At(text, m, i) && At(text, m, j) && i + |m| <= j
    ensures Count(text, m) != 1
  {
    CountOne(text, m);
  }

  /** The end marker does not occur before the write, nor the begin marker after it: what a caller can
      check in the two pieces of text that stay. */
  ghost predicate Parted(text: string, s: Spec) {
    && 0 <= Start(text, s) <= |text| && 0 <= Stop(text, s) <= |text|
    && Free(text[..Start(text, s)], s.end) && Free(text[Stop(text, s)..], s.begin)
  }

  predicate MarkedOnce(text: string, s: Spec)
    requires s.begin != "" && s.end != ""
  {
    Count(text, s.begin) == 1 && Count(text, s.end) == 1
  }

  lemma PrefixOccurrence(text: string, m: string, a: int, i: int)
    requires 0 <= a <= |text|
    ensures At(text[..a], m, i) <==> At(text, m, i) && i + |m| <= a
  {
    if At(text[..a], m, i) { Carry(text[..a], i, text, i, m); }
    if At(text, m, i) && i + |m| <= a {
      assert text[..a][i..i + |m|] == text[i..i + |m|];
      Carry(text, i, text[..a], i, m);
    }
  }

  /** Where the markers are parted, they still stand once after the write, around the body. */
  lemma PartedStaysOnce(text: string, s: Spec, body: string)
    requires Marker(s.begin) && Marker(s.end) && BodyFree(body, s) && MarkedOnce(text, s) && Parted(text, s)
    ensures Once(Updated(text, s, body), s.begin, Find(text, s.begin))
    ensures Once(Updated(text, s, body), s.end, Start(text, s) + |body| + 2)
  {
    CountOne(text, s.begin);
    CountOne(text, s.end);
    var a, b := Start(text, s), Stop(text, s);
    var r, after := Updated(text, s, body), a + |body| + 2;
    SpliceKeepsOutside(text, a, b, body, s.begin, Find(text, s.begin));
    SpliceKeepsOutside(text, a, b, body, s.end, b);
    forall i | At(r, s.begin, i) ensures Find(text, s.begin) <= i < a {
      SeamOccurrence(text, a, b, body, s.begin, i);
      if !(i + |s.begin| <= a && At(text, s.begin, i)) { RestOccurrence(text, s.begin, b, i - after + b); }
    }
    forall i | At(r, s.end, i) ensures after <= i < after + |s.end| {
      SeamOccurrence(text, a, b, body, s.end, i);
      if i + |s.end| <= a && At(text, s.end, i) { PrefixOccurrence(text, s.end, a, i); }
    }
  }

  /** Where they are not, the write leaves one of them twice. */
  lemma UnpartedTwice(text: string, s: Spec, body: string)
    requires Marker(s.begin) && Marker(s.end) && MarkedOnce(text, s) && !Parted(text, s)
    ensures 0 <= Start(text, s) <= |text| && 0 <= Stop(text, s) <= |text|
    ensures !MarkedOnce(Updated(text, s, body), s)
  {
    CountOne(text, s.begin);
    CountOne(text, s.end);
    if i :| At(text[..Start(text, s)], s.end, i) {
      EndTwice(text, s, body, i);
    } else {
      var i :| At(text[Stop(text, s)..], s.begin, i);
      BeginTwice(text, s, body, i);
    }
  }

  lemma EndTwice(text: string, s: Spec, body: string, i: int)
    requires 0 <= Start(text, s) <= |text| && 0 <= Stop(text, s) <= |text| && s.end != ""
    requires At(text[..Start(text, s)], s.end, i)
    ensures Count(Updated(text, s, body), s.end) != 1
  {
    var a, b := Start(text, s), Stop(text, s);
    PrefixOccurrence(text, s.end, a, i);
    SpliceKeepsOutside(text, a, b, body, s.end, i);
    SpliceKeepsOutside(text, a, b, body, s.end, b);
    TwiceIsNotOnce(Updated(text, s, body), s.end, i, a + |body| + 2);
  }

  lemma BeginTwice(text: string, s: Spec, body: string, i: int)
    requires 0 <= Find(text, s.begin) && Start(text, s) <= |text| && 0 <= Stop(text, s) <= |text| && s.begin != ""
    requires At(text[Stop(text, s)..], s.begin, i)
    ensures Count(Updated(text, s, body), s.begin) != 1
  {
    var a, b := Start(text, s), Stop(text, s);
    RestOccurrence(text, s.begin, b, i + b);
    SpliceKeepsOutside(text, a, b, body, s.begin, Find(text, s.begin));
    SpliceKeepsOutside(text, a, b, body, s.begin, i + b);
    TwiceIsNotOnce(Updated(text, s, body), s.begin, Find(text, s.begin), i + a + |body| + 2);
  }

  /** With markers that are not parted the first write doubles one, and every later call raises. */
  lemma MisorderedWriteBreaks(text: string, s: Spec, body: string, later: string, check: bool)
    requires Marker(s.begin) && Marker(s.end) && MarkedOnce(text, s) && !Parted(text, s)
    ensures 0 <= Start(text, s) <= |text| && 0 <= Stop(text, s) <= |text|
    ensures Replace(text, s, body, false) == Written(Updated(text, s, body))
    ensures Replace(Updated(text, s, body), s, later, check) == Raised
  {
    UnpartedTwice(text, s, body);
  }

  lemma PartedIsCurrent(text: string, s: Spec, body: string)
    requires Marker(s.begin) && Marker(s.end) && BodyFree(body, s) && MarkedOnce(text, s) && Parted(text, s)
    ensures Replace(Updated(text, s, body), s, body, true) == Unchanged
  {
    var r := Updated(text, s, body);
    PartedStaysOnce(text, s, body);
    CountOne(r, s.begin);
    CountOne(r, s.end);
    var a, after := Start(text, s), Start(text, s) + |body| + 2;
    assert r[..a] + Middle(body) + r[after..] == r;
  }

  lemma FirstWrite(text: string, s: Spec, body: string)
    requires Marker(s.begin) && Marker(s.end) && MarkedOnce(text, s)
    ensures 0 <= Start(text, s) <= |text| && 0 <= Stop(text, s) <= |text|
    ensures var r := Updated(text, s, body); Replace(text, s, body, false) == if r == text then Unchanged else Written(r)
  {
    CountOne(text, s.begin);
    CountOne(text, s.end);
  }

  /** Rendering and then checking works exactly when both markers occur once and are parted. */
  lemma RenderThenCheckExact(text: string, s: Spec, body: string)
    requires Marker(s.begin) && Marker(s.end) && BodyFree(body, s)
    ensures var first := Replace(text, s, body, false);
      var rendered := if first.Written? then first.text else text;
      Replace(rendered, s, body, true) == Unchanged <==> MarkedOnce(text, s) && Parted(text, s)
  {
    if MarkedOnce(text, s) {
      FirstWrite(text, s, body);
      if Parted(text, s) {
        PartedIsCurrent(text, s, body);
      } else {
        MisorderedWriteBreaks(text, s, body, body, true);
      }
    }
  }

  /** Markers in order are parted, so this covers every block. */
  lemma BlockIsParted(text: string, s: Spec)
    requires Block(text, s)
    ensures MarkedOnce(text, s) && Parted(text, s)
  {
    CountOne(text, s.begin);
    CountOne(text, s.end);
    forall i ensures !At(text[..Start(text, s)], s.end, i) { PrefixOccurrence(text, s.end, Start(text, s), i); }
    forall i ensures !At(text[Stop(text, s)..], s.begin, i) {
      if i >= 0 { RestOccurrence(text, s.begin, Stop(text, s), i + Stop(text, s)); }
    }
  }

  // ---------------------------------------------------------------- several blocks in one file

  /** Block `s` ends before block `t` begins. */
  predicate Before(text: string, s: Spec, t: Spec) {
    Stop(text, s) + |s.end| <= Find(text, t.begin)
  }

  predicate Apart(text: string, s: Spec, t: Spec) { Before(text, s, t) || Before(text, t, s) }

  /** Where another block is after block `s` was written. */
  lemma UpdateKeepsOther(text: string, s: Spec, body: string, t: Spec)
    requires Block(text, s) && Block(text, t) && Apart(text, s, t) && BodyFree(body, t)
    ensures var d := if Before(text, s, t) then |body| + 2 - (Stop(text, s) - Start(text, s)) else 0;
      var r := Updated(text, s, body);
      && Block(r, t) && Find(r, t.begin) == Find(text, t.begin) + d && Stop(r, t) == Stop(text, t) + d
      && r[Start(r, t)..Stop(r, t)] == text[Start(text, t)..Stop(text, t)]
  {
    SpliceMovesBlock(text, Start(text, s), Stop(text, s), body, t);
  }

  lemma SpliceMovesBlock(text: string, a: int, b: int, body: string, t: Spec)
    requires 0 <= a <= b <= |text| && Block(text, t) && BodyFree(body, t)
    requires b <= Find(text, t.begin) || Stop(text, t) + |t.end| <= a
    ensures var d := if b <= Find(text, t.begin) then |body| + 2 - (b - a) else 0;
      var r := Splice(text, a, b, body);
      && Block(r, t) && Find(r, t.begin) == Find(text, t.begin) + d && Stop(r, t) == Stop(text, t) + d
      && r[Start(r, t)..Stop(r, t)] == text[Start(text, t)..Stop(text, t)]
  {
    var p, q := Find(text, t.begin), Find(text, t.end);
    var d := if b <= p then |body| + 2 - (b - a) else 0;
    SpliceKeepsBlock(text, a, b, body, t, p, q);
    BlockFound(Splice(text, a, b, body), t, p + d, q + d);
  }

  /** A splice outside a block moves the block as a whole, or not at all. */
  lemma SpliceKeepsBlock(text: string, a: int, b: int, body: string, t: Spec, p: int, q: int)
    requires 0 <= a <= b <= |text| && BlockAt(text, t, p, q) && BodyFree(body, t) && (b <= p || q + |t.end| <= a)
    ensures var d := if b <= p then |body| + 2 - (b - a) else 0;
      var r := Splice(text, a, b, body);
      && BlockAt(r, t, p + d, q + d)
      && r[p + d + |t.begin|..q + d] == text[p + |t.begin|..q]
  {
    SpliceKeepsOnce(text, a, b, body, t.begin, p);
    SpliceKeepsOnce(text, a, b, body, t.end, q);
    SpliceKeepsSlice(text, a, b, body, p + |t.begin|, q);
  }

  lemma SpliceKeepsSlice(text: string, start: int, stop: int, body: string, x: int, y: int)
    requires 0 <= start <= stop <= |text| && 0 <= x <= y <= |text|
    ensures y <= start ==> Splice(text, start, stop, body)[x..y] == text[x..y]
    ensures stop <= x ==> var d := start + |body| + 2 - stop; Splice(text, start, stop, body)[x + d..y + d] == text[x..y]
  {
  }

  /** Blocks of one file that are apart stay apart when one of them is written. */
  lemma UpdateKeepsApart(text: string, s: Spec, body: string, t: Spec, u: Spec)
    requires Block(text, s) && Block(text, t) && Block(text, u) && BodyFree(body, s) && BodyFree(body, t) && BodyFree(body, u)
    requires Apart(text, s, t) && (u == s || (Apart(text, s, u) && Apart(text, t, u)))
    ensures Apart(Updated(text, s, body), t, u)
  {
    UpdateKeepsOther(text, s, body, t);
    if u == s { UpdatedIsCurrent(text, s, body); } else { UpdateKeepsOther(text, s, body, u); }
  }

  /** Two blocks of one file can be written in either order. */
  lemma UpdatesCommute(text: string, s: Spec, sBody: string, t: Spec, tBody: string)
    requires Block(text, s) && Block(text, t) && Before(text, s, t)
    requires BodyFree(sBody, s) && BodyFree(sBody, t) && BodyFree(tBody, s) && BodyFree(tBody, t)
    ensures Block(Updated(text, s, sBody), t) && Block(Updated(text, t, tBody), s)
    ensures Updated(Updated(text, s, sBody), t, tBody) == Updated(Updated(text, t, tBody), s, sBody)
  {
    UpdateKeepsOther(text, s, sBody, t);
    UpdateKeepsOther(text, t, tBody, s);
    var a, b, c, d := Start(text, s), Stop(text, s), Start(text, t), Stop(text, t);
    var shift := a + |sBody| + 2 - b;
    assert Start(Updated(text, s, sBody), t) == c + shift && Stop(Updated(text, s, sBody), t) == d + shift;
    assert Start(Updated(text, t, tBody), s) == a && Stop(Updated(text, t, tBody), s) == b;
    SplicesCommute(text, a, b, sBody, c, d, tBody);
  }

  lemma SplicesCommute(text: string, a: int, b: int, x: string, c: int, d: int, y: string)
    requires 0 <= a <= b <= c <= d <= |text|
    ensures var shift := a + |x| + 2 - b;
      Splice(Splice(text, a, b, x), c + shift, d + shift, y) == Splice(Splice(text, c, d, y), a, b, x)
  {
    var both := text[..a] + Middle(x) + text[b..c] + Middle(y) + text[d..];
    var shift := a + |x| + 2 - b;
    var r, q := Splice(text, a, b, x), Splice(text, c, d, y);
    assert r[..c + shift] == text[..a] + Middle(x) + text[b..c] && r[d + shift..] == text[d..];
    assert q[..a] == text[..a] && q[b..] == text[b..c] + Middle(y) + text[d..];
    assert Splice(r, c + shift, d + shift, y) == both;
    assert Splice(q, a, b, x) == both;
  }

  // ---------------------------------------------------------------- all files

  type Files = map<string, string>

  function Stripped(space: char -> bool, s: Spec): string { RStrip(space, s.body) }

  /** The files after `_replace`, and whether one was written; none when it raised. */
  function Replaced(space: char -> bool, files: Files, s: Spec, check: bool): (Files, Option<bool>)
    requires s.begin != "" && s.end != ""
  {
    if s.path !in files then (files, None)
    else
      match Replace(files[s.path], s, Stripped(space, s), check)
      case Unchanged => (files, Some(false))
      case Raised => (files, None)
      case Written(text) => (files[s.path := text], Some(true))
  }

  predicate Marked(specs: seq<Spec>) {
    forall i :: 0 <= i < |specs| ==> specs[i].begin != "" && specs[i].end != ""
  }

  /** The files after the first `n` blocks of a render or check, and the paths written; none once something raised. */
  function Rendered(space: char -> bool, files: Files, specs: seq<Spec>, n: nat,
                    check: bool): (Files, Option<seq<string>>)
    requires n <= |specs| && Marked(specs)
  {
    if n == 0 then (files, Some([]))
    else
      var (before, changed) := Rendered(space, files, specs, n - 1, check);
      var s := specs[n - 1];
      if changed.None? then (before, None)
      else
        var (after, written) := Replaced(space, before, s, check);
        (after, if written.None? then None else Some(if written.value then changed.value + [s.path] else changed.value))
  }

  lemma OneMore(space: char -> bool, files: Files, specs: seq<Spec>, n: nat, check: bool,
                before: Files, changed: seq<string>, after: Files, written: Option<bool>)
    requires 0 < n <= |specs| && Marked(specs)
    requires Rendered(space, files, specs, n - 1, check) == (before, Some(changed))
    requires Replaced(space, before, specs[n - 1], check) == (after, written)
    ensures Rendered(space, files, specs, n, check)
      == (after, if written.None? then None else Some(if written.value then changed + [specs[n - 1].path] else changed))
  {
  }

  function RenderAll(space: char -> bool, files: Files, specs: seq<Spec>, check: bool): (Files, Option<seq<string>>)
    requires Marked(specs)
  {
    Rendered(space, files, specs, |specs|, check)
  }

  lemma {:induction false} RaisedStays(space: char -> bool, files: Files, specs: seq<Spec>, n: nat, m: nat, check: bool)
    requires n <= m <= |specs| && Marked(specs) && Rendered(space, files, specs, n, check).1.None?
    ensures Rendered(space, files, specs, m, check) == Rendered(space, files, specs, n, check)
    decreases m
  {
    if n < m { RaisedStays(space, files, specs, n, m - 1, check); }
  }

  /** The files of the repository, overwritten in place. */
  class Repository {
    var files: Files
    const space: char -> bool

    constructor (files: Files, space: char -> bool)
      ensures this.files == files && this.space == space
    {
      this.files, this.space := files, space;
    }

    /** `_replace`: whether the file was written; none for a raise. */
    method ReplaceBlock(s: Spec, check: bool) returns (written: Option<bool>)
      requires s.begin != "" && s.end != ""
      modifies this
      ensures (files, written) == Replaced(space, old(files), s, check)
    {
      if s.path !in files {
        return None;
      }
      var text := files[s.path];
      if Count(text, s.begin) != 1 || Count(text, s.end) != 1 {
        return None;
      }
      var start := Find(text, s.begin) + |s.begin|;
      var stop := Find(text, s.end);
      CountOne(text, s.begin);
      CountOne(text, s.end);
      var expected := Splice(text, start, stop, RStrip(space, s.body));
      if expected == text {
        return Some(false);
      }
      if check {
        return None;
      }
      files := files[s.path := expected];
      return Some(true);
    }

    method Render(specs: seq<Spec>, check: bool) returns (changed: Option<seq<string>>)
      requires Marked(specs)
      modifies this
      ensures (files, changed) == RenderAll(space, old(files), specs, check)
    {
      var paths := [];
      for i := 0 to |specs|
        invariant (files, Some(paths)) == Rendered(space, old(files), specs, i, check)
      {
        ghost var before := files;
        var written := ReplaceBlock(specs[i], check);
        OneMore(space, old(files), specs, i + 1, check, before, paths, files, written);
        if written.None? {
          RaisedStays(space, old(files), specs, i + 1, |specs|, check);
          return None;
        }
        if written.value {
          paths := paths + [specs[i].path];
        }
      }
      return Some(paths);
    }
  }
}

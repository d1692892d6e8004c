/** Rendering all blocks of a repository: what it writes, and what it leaves alone. */
module RenderedFiles {
  import opened GeneratedBlocks
  import opened Ordering

  /** Block `k` is there, and its own body holds none of its markers. */
  ghost predicate Placed(space: char -> bool, files: Files, specs: seq<Spec>, k: int)
    requires 0 <= k < |specs|
  {
    var s := specs[k];
    s.path in files && Block(files[s.path], s) && BodyFree(Stripped(space, s), s)
  }

  /** Blocks `k` and `l`, if they are in one file, lie apart, and no body holds a marker of the other. */
  ghost predicate Compatible(space: char -> bool, files: Files, specs: seq<Spec>, k: int, l: int)
    requires 0 <= k < |specs| && 0 <= l < |specs|
  {
    var s, t := specs[k], specs[l];
    s.path in files && s.path == t.path ==> Apart(files[s.path], s, t) && BodyFree(Stripped(space, s), t)
  }

  /** Every block is there, blocks of one file lie apart, and no body holds a marker of its file. */
  ghost predicate WellFormed(space: char -> bool, files: Files, specs: seq<Spec>) {
    && (forall k :: 0 <= k < |specs| ==> Placed(space, files, specs, k))
    && forall k, l :: 0 <= k < |specs| && 0 <= l < |specs| && k != l ==> Compatible(space, files, specs, k, l)
  }

  /** Position `i` lies inside a block of the file. */
  ghost predicate Inside(text: string, specs: seq<Spec>, path: string, i: int) {
    exists k :: 0 <= k < |specs| && specs[k].path == path && Start(text, specs[k]) <= i < Stop(text, specs[k])
  }

  /** What stands between two positions outside all blocks of the file. */
  ghost function OutsideIn(text: string, specs: seq<Spec>, path: string, lo: nat, hi: nat): string
    requires lo <= hi <= |text|
    decreases hi
  {
    if lo == hi then ""
    else OutsideIn(text, specs, path, lo, hi - 1) + if Inside(text, specs, path, hi - 1) then "" else [text[hi - 1]]
  }

  ghost function Outside(text: string, specs: seq<Spec>, path: string): string {
    OutsideIn(text, specs, path, 0, |text|)
  }

  lemma {:induction false} OutsideSplit(text: string, specs: seq<Spec>, path: string, lo: nat, mid: nat, hi: nat)
    requires lo <= mid <= hi <= |text|
    ensures OutsideIn(text, specs, path, lo, hi)
      == OutsideIn(text, specs, path, lo, mid) + OutsideIn(text, specs, path, mid, hi)
    decreases hi
  {
    if mid < hi { OutsideSplit(text, specs, path, lo, mid, hi - 1); }
  }

  lemma {:induction false} NothingOutside(text: string, specs: seq<Spec>, path: string, lo: nat, hi: nat)
    requires lo <= hi <= |text| && forall i :: lo <= i < hi ==> Inside(text, specs, path, i)
    ensures OutsideIn(text, specs, path, lo, hi) == ""
    decreases hi
  {
    if lo < hi { NothingOutside(text, specs, path, lo, hi - 1); }
  }

  /** What stands outside moves along with the text and its blocks. */
  lemma {:induction false} OutsideShifts(text: string, other: string, specs: seq<Spec>, path: string, lo: nat,
                                         hi: nat, d: int)
    requires lo <= hi <= |text| && 0 <= lo + d && hi + d <= |other|
    requires forall i :: lo <= i < hi ==>
      other[i + d] == text[i] && (Inside(other, specs, path, i + d) <==> Inside(text, specs, path, i))
    ensures OutsideIn(other, specs, path, lo + d, hi + d) == OutsideIn(text, specs, path, lo, hi)
    decreases hi
  {
    if lo < hi { OutsideShifts(text, other, specs, path, lo, hi - 1, d); }
  }

  lemma InteriorMoves(text: string, s: Spec, body: string, t: Spec, i: int)
    requires Block(text, s) && Block(text, t) && BodyFree(body, s) && BodyFree(body, t) && (s == t || Apart(text, s, t))
    ensures var r, d := Updated(text, s, body), |body| + 2 - (Stop(text, s) - Start(text, s));
      && (0 <= i < Start(text, s) ==> (Start(r, t) <= i < Stop(r, t) <==> Start(text, t) <= i < Stop(text, t)))
      && (Stop(text, s) <= i < |text| ==> (Start(r, t) <= i + d < Stop(r, t) <==> Start(text, t) <= i < Stop(text, t)))
  {
    if s == t {
      UpdatedIsCurrent(text, s, body);
    } else {
      UpdateKeepsOther(text, s, body, t);
    }
  }

  lemma InsideMoves(space: char -> bool, files: Files, specs: seq<Spec>, k: int, i: int)
    requires WellFormed(space, files, specs) && 0 <= k < |specs|
    ensures Placed(space, files, specs, k)
    ensures var s := specs[k]; var text, body := files[s.path], Stripped(space, s);
      var r, d := Updated(text, s, body), |body| + 2 - (Stop(text, s) - Start(text, s));
      && (0 <= i < Start(text, s) ==> (Inside(r, specs, s.path, i) <==> Inside(text, specs, s.path, i)))
      && (Stop(text, s) <= i < |text| ==> (Inside(r, specs, s.path, i + d) <==> Inside(text, specs, s.path, i)))
  {
    var s := specs[k];
    assert Placed(space, files, specs, k);
    forall l | 0 <= l < |specs| && specs[l].path == s.path
      ensures var text, body := files[s.path], Stripped(space, s);
        var r, d := Updated(text, s, body), |body| + 2 - (Stop(text, s) - Start(text, s));
        && (0 <= i < Start(text, s) ==>
              (Start(r, specs[l]) <= i < Stop(r, specs[l]) <==> Start(text, specs[l]) <= i < Stop(text, specs[l])))
        && (Stop(text, s) <= i < |text| ==>
              (Start(r, specs[l]) <= i + d < Stop(r, specs[l]) <==> Start(text, specs[l]) <= i < Stop(text, specs[l])))
    {
      assert Placed(space, files, specs, l) && (l != k ==> Compatible(space, files, specs, k, l));
      InteriorMoves(files[s.path], s, Stripped(space, s), specs[l], i);
    }
  }

  lemma UpdateKeepsOutside(space: char -> bool, files: Files, specs: seq<Spec>, k: int)
    requires WellFormed(space, files, specs) && 0 <= k < |specs|
    ensures Placed(space, files, specs, k)
    ensures var s := specs[k]; var text := files[s.path];
      Outside(Updated(text, s, Stripped(space, s)), specs, s.path) == Outside(text, specs, s.path)
  {
    var s := specs[k];
    assert Placed(space, files, specs, k);
    var text, body := files[s.path], Stripped(space, s);
    UpdatedIsCurrent(text, s, body);
    OutsideBeside(text, specs, k);
    OutsideBeside(Updated(text, s, body), specs, k);
    var r, b := Updated(text, s, body), Stop(text, s);
    LeftStays(space, files, specs, k, r, Start(text, s));
    RightMoves(space, files, specs, k, r, b, |body| + 2 - (b - Start(text, s)));
  }

  lemma InsideOf(text: string, specs: seq<Spec>, k: int, i: int)
    requires 0 <= k < |specs| && Start(text, specs[k]) <= i < Stop(text, specs[k])
    ensures Inside(text, specs, specs[k].path, i)
  {
  }

  lemma OutsideCut(text: string, specs: seq<Spec>, path: string, a: nat, b: nat)
    requires a <= b <= |text| && forall i :: a <= i < b ==> Inside(text, specs, path, i)
    ensures OutsideIn(text, specs, path, 0, |text|)
      == OutsideIn(text, specs, path, 0, a) + OutsideIn(text, specs, path, b, |text|)
  {
    OutsideSplit(text, specs, path, 0, a, |text|);
    OutsideSplit(text, specs, path, a, b, |text|);
    NothingOutside(text, specs, path, a, b);
  }

  /** What stands outside all blocks stands left or right of any of them. */
  lemma OutsideBeside(text: string, specs: seq<Spec>, k: int)
    requires 0 <= k < |specs| && 0 <= Start(text, specs[k]) <= Stop(text, specs[k]) <= |text|
    ensures var s := specs[k];
      Outside(text, specs, s.path)
        == OutsideIn(text, specs, s.path, 0, Start(text, s)) + OutsideIn(text, specs, s.path, Stop(text, s), |text|)
  {
    var s := specs[k];
    forall i | Start(text, s) <= i < Stop(text, s) ensures Inside(text, specs, s.path, i) { InsideOf(text, specs, k, i); }
    OutsideCut(text, specs, s.path, Start(text, s), Stop(text, s));
  }

  /** The text left of a written block, and what is inside blocks there, is as before. */
  lemma LeftOf(space: char -> bool, files: Files, specs: seq<Spec>, k: int, i: int)
    requires WellFormed(space, files, specs) && 0 <= k < |specs| && Placed(space, files, specs, k)
    requires 0 <= i < Start(files[specs[k].path], specs[k])
    ensures var s := specs[k]; var text := files[s.path]; var r := Updated(text, s, Stripped(space, s));
      r[i] == text[i] && (Inside(r, specs, s.path, i) <==> Inside(text, specs, s.path, i))
  {
    var s := specs[k];
    var text := files[s.path];
    SpliceParts(text, Start(text, s), Stop(text, s), Stripped(space, s));
    assert text[..Start(text, s)][i] == text[i];
    InsideMoves(space, files, specs, k, i);
  }

  lemma LeftStays(space: char -> bool, files: Files, specs: seq<Spec>, k: int, r: string, a: nat)
    requires WellFormed(space, files, specs) && 0 <= k < |specs| && Placed(space, files, specs, k)
    requires a == Start(files[specs[k].path], specs[k])
    requires r == Updated(files[specs[k].path], specs[k], Stripped(space, specs[k])) && a <= |r| && a <= |files[specs[k].path]|
    ensures OutsideIn(r, specs, specs[k].path, 0, a) == OutsideIn(files[specs[k].path], specs, specs[k].path, 0, a)
  {
    forall i | 0 <= i < a
      ensures r[i] == files[specs[k].path][i]
        && (Inside(r, specs, specs[k].path, i) <==> Inside(files[specs[k].path], specs, specs[k].path, i))
    {
      LeftOf(space, files, specs, k, i);
    }
    OutsideShifts(files[specs[k].path], r, specs, specs[k].path, 0, a, 0);
  }

  /** And the text right of it has moved along with its blocks. */
  lemma RightOf(space: char -> bool, files: Files, specs: seq<Spec>, k: int, i: int)
    requires WellFormed(space, files, specs) && 0 <= k < |specs| && Placed(space, files, specs, k)
    requires Stop(files[specs[k].path], specs[k]) <= i < |files[specs[k].path]|
    ensures var s := specs[k]; var text, body := files[s.path], Stripped(space, s);
      var r, d := Updated(text, s, body), |body| + 2 - (Stop(text, s) - Start(text, s));
      0 <= i + d < |r| && r[i + d] == text[i] && (Inside(r, specs, s.path, i + d) <==> Inside(text, specs, s.path, i))
  {
    var s := specs[k];
    var text, body := files[s.path], Stripped(space, s);
    var a, b := Start(text, s), Stop(text, s);
    SpliceParts(text, a, b, body);
    assert Splice(text, a, b, body)[a + |body| + 2..][i - b] == text[b..][i - b];
    InsideMoves(space, files, specs, k, i);
  }

  lemma RightMoves(space: char -> bool, files: Files, specs: seq<Spec>, k: int, r: string, b: nat, d: int)
    requires WellFormed(space, files, specs) && 0 <= k < |specs| && Placed(space, files, specs, k)
    requires b == Stop(files[specs[k].path], specs[k])
    requires r == Updated(files[specs[k].path], specs[k], Stripped(space, specs[k]))
    requires d == |Stripped(space, specs[k])| + 2 - (b - Start(files[specs[k].path], specs[k]))
    requires b <= |files[specs[k].path]| && 0 <= b + d && |files[specs[k].path]| + d == |r|
    ensures OutsideIn(r, specs, specs[k].path, b + d, |r|)
      == OutsideIn(files[specs[k].path], specs, specs[k].path, b, |files[specs[k].path]|)
  {
    forall i | b <= i < |files[specs[k].path]|
      ensures r[i + d] == files[specs[k].path][i]
        && (Inside(r, specs, specs[k].path, i + d) <==> Inside(files[specs[k].path], specs, specs[k].path, i))
    {
      RightOf(space, files, specs, k, i);
    }
    OutsideShifts(files[specs[k].path], r, specs, specs[k].path, b, |files[specs[k].path]|, d);
  }

  ghost predicate CurrentIn(space: char -> bool, files: Files, s: Spec) {
    s.path in files && Current(files[s.path], s, Stripped(space, s))
  }

  /** The files once block `k` is written. */
  ghost function Write(space: char -> bool, files: Files, specs: seq<Spec>, k: int): Files
    requires 0 <= k < |specs| && Placed(space, files, specs, k)
  {
    var s := specs[k];
    files[s.path := Updated(files[s.path], s, Stripped(space, s))]
  }

  /** Writing one block makes it current and keeps every other one in its place, current or stale. */
  lemma WriteKeeps(space: char -> bool, files: Files, specs: seq<Spec>, k: int, l: int)
    requires WellFormed(space, files, specs) && 0 <= k < |specs| && 0 <= l < |specs|
    ensures Placed(space, files, specs, k) && Placed(space, Write(space, files, specs, k), specs, l)
    ensures CurrentIn(space, Write(space, files, specs, k), specs[l]) <==> l == k || CurrentIn(space, files, specs[l])
  {
    assert Placed(space, files, specs, k) && Placed(space, files, specs, l);
    var s := specs[k];
    if l == k {
      UpdatedIsCurrent(files[s.path], s, Stripped(space, s));
    } else if specs[l].path == s.path {
      assert Compatible(space, files, specs, k, l);
      UpdateKeepsOther(files[s.path], s, Stripped(space, s), specs[l]);
    }
  }

  /** And keeps any two apart. */
  lemma WriteKeepsApart(space: char -> bool, files: Files, specs: seq<Spec>, k: int, l: int, m: int)
    requires WellFormed(space, files, specs) && 0 <= k < |specs| && 0 <= l < |specs| && 0 <= m < |specs| && l != m
    ensures Placed(space, files, specs, k) && Compatible(space, Write(space, files, specs, k), specs, l, m)
  {
    assert Placed(space, files, specs, k) && Placed(space, files, specs, l) && Placed(space, files, specs, m);
    assert Compatible(space, files, specs, l, m) && Compatible(space, files, specs, m, l);
    assert k != l ==> Compatible(space, files, specs, k, l);
    assert k != m ==> Compatible(space, files, specs, k, m);
    var s := specs[k];
    if specs[l].path == s.path && specs[m].path == s.path {
      var text, body := files[s.path], Stripped(space, s);
      if l == k {
        UpdateKeepsApart(text, s, body, specs[m], s);
      } else if m == k {
        UpdateKeepsApart(text, s, body, specs[l], s);
      } else {
        UpdateKeepsApart(text, s, body, specs[l], specs[m]);
      }
    }
  }

  /** So the files stay well formed. */
  lemma WriteStep(space: char -> bool, files: Files, specs: seq<Spec>, k: int)
    requires WellFormed(space, files, specs) && 0 <= k < |specs|
    ensures Placed(space, files, specs, k) && WellFormed(space, Write(space, files, specs, k), specs)
  {
    forall l | 0 <= l < |specs| ensures Placed(space, files, specs, k) && Placed(space, Write(space, files, specs, k), specs, l) {
      WriteKeeps(space, files, specs, k, l);
    }
    forall l, m | 0 <= l < |specs| && 0 <= m < |specs| && l != m
      ensures Placed(space, files, specs, k) && Compatible(space, Write(space, files, specs, k), specs, l, m)
    {
      WriteKeepsApart(space, files, specs, k, l, m);
    }
  }

  // ---------------------------------------------------------------- a render, state by state

  /** Block `k` is left alone when it is current, and written otherwise. */
  ghost function Next(space: char -> bool, files: Files, specs: seq<Spec>, k: int): Files
    requires 0 <= k < |specs| && Placed(space, files, specs, k)
  {
    if CurrentIn(space, files, specs[k]) then files else Write(space, files, specs, k)
  }

  /** The files before a render and after each of its first blocks. */
  ghost predicate IsRun(space: char -> bool, files: Files, specs: seq<Spec>, run: seq<Files>) {
    && 1 <= |run| <= |specs| + 1 && run[0] == files
    && forall k :: 0 <= k < |run| - 1 ==> Follows(space, specs, run, k)
  }

  ghost predicate Follows(space: char -> bool, specs: seq<Spec>, run: seq<Files>, k: int)
    requires 0 <= k < |run| - 1 && k < |specs|
  {
    Placed(space, run[k], specs, k) && run[k + 1] == Next(space, run[k], specs, k)
  }

  lemma {:induction false} RunWellFormed(space: char -> bool, files: Files, specs: seq<Spec>, run: seq<Files>, k: nat)
    requires WellFormed(space, files, specs) && IsRun(space, files, specs, run) && k < |run|
    ensures WellFormed(space, run[k], specs)
  {
    if k > 0 {
      RunWellFormed(space, files, specs, run, k - 1);
      assert Follows(space, specs, run, k - 1);
      WriteStep(space, run[k - 1], specs, k - 1);
    }
  }

  /** The blocks reached are current, and the others are when they were. */
  lemma {:induction false} CurrentAfter(space: char -> bool, files: Files, specs: seq<Spec>, run: seq<Files>, k: nat,
                                        l: int)
    requires WellFormed(space, files, specs) && IsRun(space, files, specs, run) && k < |run| && 0 <= l < |specs|
    ensures CurrentIn(space, run[k], specs[l]) <==> l < k || CurrentIn(space, files, specs[l])
  {
    if k > 0 {
      CurrentAfter(space, files, specs, run, k - 1, l);
      RunWellFormed(space, files, specs, run, k - 1);
      assert Follows(space, specs, run, k - 1);
      NextCurrent(space, run[k - 1], specs, k - 1, l);
    }
  }

  lemma NextCurrent(space: char -> bool, files: Files, specs: seq<Spec>, k: int, l: int)
    requires WellFormed(space, files, specs) && 0 <= k < |specs| && 0 <= l < |specs|
    ensures Placed(space, files, specs, k)
    ensures CurrentIn(space, Next(space, files, specs, k), specs[l]) <==> l == k || CurrentIn(space, files, specs[l])
  {
    WriteKeeps(space, files, specs, k, l);
  }

  /** Nothing outside blocks changes, and no file comes or goes. */
  lemma {:induction false} OutsideKept(space: char -> bool, files: Files, specs: seq<Spec>, run: seq<Files>, k: nat,
                                       path: string)
    requires WellFormed(space, files, specs) && IsRun(space, files, specs, run) && k < |run|
    ensures path in run[k] <==> path in files
    ensures path in files ==> Outside(run[k][path], specs, path) == Outside(files[path], specs, path)
  {
    if k > 0 {
      OutsideKept(space, files, specs, run, k - 1, path);
      RunWellFormed(space, files, specs, run, k - 1);
      assert Follows(space, specs, run, k - 1);
      UpdateKeepsOutside(space, run[k - 1], specs, k - 1);
    }
  }

  lemma {:induction false} OtherFiles(space: char -> bool, files: Files, specs: seq<Spec>, run: seq<Files>, k: nat,
                                      path: string)
    requires IsRun(space, files, specs, run) && k < |run| && path in files && forall i :: 0 <= i < |specs| ==> specs[i].path != path
    ensures path in run[k] && run[k][path] == files[path]
  {
    if k > 0 {
      OtherFiles(space, files, specs, run, k - 1, path);
      assert Follows(space, specs, run, k - 1);
    }
  }

  /** Which blocks are stale. */
  ghost function Stale(space: char -> bool, files: Files, specs: seq<Spec>): (r: seq<bool>)
    ensures |r| == |specs| && forall k :: 0 <= k < |specs| ==> r[k] == !CurrentIn(space, files, specs[k])
  {
    seq(|specs|, k requires 0 <= k < |specs| => !CurrentIn(space, files, specs[k]))
  }

  /** The paths of the chosen ones among the first `n` blocks, in order. */
  ghost function PathsOf(specs: seq<Spec>, chosen: seq<bool>, n: nat): seq<string>
    requires n <= |specs| == |chosen|
  {
    if n == 0 then []
    else if chosen[n - 1] then PathsOf(specs, chosen, n - 1) + [specs[n - 1].path]
    else PathsOf(specs, chosen, n - 1)
  }

  /** Block `n` of the first `n` is left alone, checked or written. */
  lemma RenderedLast(space: char -> bool, files: Files, specs: seq<Spec>, n: nat, check: bool, before: Files,
                     changed: seq<string>)
    requires 0 < n <= |specs| && Marked(specs) && Placed(space, before, specs, n - 1)
    requires Rendered(space, files, specs, n - 1, check) == (before, Some(changed))
    ensures Rendered(space, files, specs, n, check)
      == if CurrentIn(space, before, specs[n - 1]) then (before, Some(changed))
         else if check then (before, None)
         else (Write(space, before, specs, n - 1), Some(changed + [specs[n - 1].path]))
  {
    var s := specs[n - 1];
    ReplaceOnBlock(before[s.path], s, Stripped(space, s), check);
  }

  /** A render of well-formed files never raises, and goes from state to state. */
  lemma {:induction false} RenderIsRun(space: char -> bool, files: Files, specs: seq<Spec>,
                                       n: nat) returns (run: seq<Files>)
    requires WellFormed(space, files, specs) && n <= |specs| && Marked(specs)
    ensures IsRun(space, files, specs, run) && |run| == n + 1
    ensures Rendered(space, files, specs, n, false) == (run[n], Some(PathsOf(specs, Stale(space, files, specs), n)))
  {
    if n == 0 {
      run := [files];
    } else {
      var front := RenderIsRun(space, files, specs, n - 1);
      run := RunNext(space, files, specs, n, front);
    }
  }

  lemma RunNext(space: char -> bool, files: Files, specs: seq<Spec>, n: nat, front: seq<Files>) returns (run: seq<Files>)
    requires WellFormed(space, files, specs) && 0 < n <= |specs| && Marked(specs)
    requires IsRun(space, files, specs, front) && |front| == n
    requires Rendered(space, files, specs, n - 1, false) == (front[n - 1], Some(PathsOf(specs, Stale(space, files, specs), n - 1)))
    ensures IsRun(space, files, specs, run) && |run| == n + 1
    ensures Rendered(space, files, specs, n, false) == (run[n], Some(PathsOf(specs, Stale(space, files, specs), n)))
  {
    run := RunGrows(space, files, specs, n, front);
    RenderedLast(space, files, specs, n, false, front[n - 1], PathsOf(specs, Stale(space, files, specs), n - 1));
  }

  lemma RunGrows(space: char -> bool, files: Files, specs: seq<Spec>, n: nat, front: seq<Files>) returns (run: seq<Files>)
    requires WellFormed(space, files, specs) && 0 < n <= |specs|
    requires IsRun(space, files, specs, front) && |front| == n
    ensures IsRun(space, files, specs, run) && |run| == n + 1
    ensures Placed(space, front[n - 1], specs, n - 1) && run[n] == Next(space, front[n - 1], specs, n - 1)
    ensures CurrentIn(space, front[n - 1], specs[n - 1]) <==> CurrentIn(space, files, specs[n - 1])
  {
    RunWellFormed(space, files, specs, front, n - 1);
    CurrentAfter(space, files, specs, front, n - 1, n - 1);
    assert Placed(space, front[n - 1], specs, n - 1);
    run := front + [Next(space, front[n - 1], specs, n - 1)];
    forall l | 0 <= l < n ensures Follows(space, specs, run, l) {
      if l < n - 1 { assert Follows(space, specs, front, l); }
    }
  }

  /** The markers stand once each, and between them a newline, the body without its trailing space, and a newline. */
  ghost predicate Holds(space: char -> bool, text: string, s: Spec) {
    exists p, q, body :: HoldsAt(space, text, s, p, q, body)
  }

  ghost predicate HoldsAt(space: char -> bool, text: string, s: Spec, p: int, q: int, body: string) {
    && Once(text, s.begin, p) && Once(text, s.end, q) && p + |s.begin| <= q
    && IsStripped(space, s.body, body) && text[p + |s.begin|..q] == "\n" + body + "\n"
  }

  lemma StrippedIs(space: char -> bool, s: string, r: string)
    requires IsStripped(space, s, r)
    ensures r == RStrip(space, s)
  {
    var t := RStrip(space, s);
    assert t != "" ==> t[|t| - 1] == s[|t| - 1];
    assert r != "" ==> r[|r| - 1] == s[|r| - 1];
  }

  lemma HoldsExact(space: char -> bool, text: string, s: Spec)
    requires Block(text, s)
    ensures Holds(space, text, s) <==> Current(text, s, Stripped(space, s))
  {
    if p, q, body :| HoldsAt(space, text, s, p, q, body) {
      StrippedIs(space, s.body, body);
      BlockFound(text, s, p, q);
    }
    if Current(text, s, Stripped(space, s)) {
      assert HoldsAt(space, text, s, Find(text, s.begin), Find(text, s.end), RStrip(space, s.body));
    }
  }

  /** `paths` lists, in order, the files of the blocks that did not hold their body. */
  ghost predicate ListsStale(space: char -> bool, files: Files, specs: seq<Spec>, paths: seq<string>) {
    exists at: seq<int> :: ListsPaths(specs, at, paths) && forall k :: 0 <= k < |specs| ==>
      (k in at <==> !(specs[k].path in files && Holds(space, files[specs[k].path], specs[k])))
  }

  ghost predicate ListsPaths(specs: seq<Spec>, at: seq<int>, paths: seq<string>) {
    && |paths| == |at| && (forall j :: 0 <= j < |at| ==> 0 <= at[j] < |specs| && paths[j] == specs[at[j]].path)
    && forall j, l :: 0 <= j < l < |at| ==> at[j] < at[l]
  }

  lemma {:induction false} PathsPicked(specs: seq<Spec>, chosen: seq<bool>, n: nat) returns (at: seq<int>)
    requires n <= |specs| == |chosen|
    ensures ListsPaths(specs, at, PathsOf(specs, chosen, n)) && forall j :: 0 <= j < |at| ==> at[j] < n
    ensures forall k :: 0 <= k < n ==> (k in at <==> chosen[k])
  {
    at := [];
    if n > 0 {
      at := PathsPicked(specs, chosen, n - 1);
      if chosen[n - 1] { at := PickNext(specs, at, PathsOf(specs, chosen, n - 1), n - 1); }
    }
  }

  lemma PickNext(specs: seq<Spec>, at: seq<int>, paths: seq<string>, k: nat) returns (next: seq<int>)
    requires k < |specs| && ListsPaths(specs, at, paths) && forall j :: 0 <= j < |at| ==> at[j] < k
    ensures ListsPaths(specs, next, paths + [specs[k].path]) && forall j :: 0 <= j < |next| ==> next[j] < k + 1
    ensures forall l :: l in next <==> l in at || l == k
  {
    next := at + [k];
  }

  /** What a render of well-formed files does: every block holds its body, nothing outside blocks and no other
      file has changed, and the paths returned are those of the blocks that did not hold theirs, in order. */
  lemma RenderExact(space: char -> bool, files: Files, specs: seq<Spec>)
    requires WellFormed(space, files, specs)
    ensures Marked(specs)
    ensures var (after, changed) := RenderAll(space, files, specs, false);
      && after.Keys == files.Keys
      && AllHold(space, after, specs)
      && (forall path :: path in files ==> Outside(after[path], specs, path) == Outside(files[path], specs, path))
      && (forall path :: path in files && (forall k :: 0 <= k < |specs| ==> specs[k].path != path) ==> after[path] == files[path])
      && changed.Some? && ListsStale(space, files, specs, changed.value)
  {
    BlocksMarked(space, files, specs);
    var run := RenderIsRun(space, files, specs, |specs|);
    var after := run[|specs|];
    RunWellFormed(space, files, specs, run, |specs|);
    forall k | 0 <= k < |specs| ensures specs[k].path in after && Holds(space, after[specs[k].path], specs[k]) {
      assert Placed(space, after, specs, k);
      CurrentAfter(space, files, specs, run, |specs|, k);
      HoldsExact(space, after[specs[k].path], specs[k]);
    }
    forall path { OutsideKept(space, files, specs, run, |specs|, path); }
    forall path | path in files && forall k :: 0 <= k < |specs| ==> specs[k].path != path
      ensures after[path] == files[path] {
      OtherFiles(space, files, specs, run, |specs|, path);
    }
    StaleListed(space, files, specs);
  }

  lemma StaleListed(space: char -> bool, files: Files, specs: seq<Spec>)
    requires WellFormed(space, files, specs)
    ensures ListsStale(space, files, specs, PathsOf(specs, Stale(space, files, specs), |specs|))
  {
    var at := PathsPicked(specs, Stale(space, files, specs), |specs|);
    forall k | 0 <= k < |specs|
      ensures k in at <==> !(specs[k].path in files && Holds(space, files[specs[k].path], specs[k]))
    {
      assert Placed(space, files, specs, k);
      HoldsExact(space, files[specs[k].path], specs[k]);
    }
  }

  /** A check of well-formed files raises exactly when some block does not hold its body, and never writes. */
  lemma CheckExact(space: char -> bool, files: Files, specs: seq<Spec>)
    requires WellFormed(space, files, specs)
    ensures Marked(specs)
    ensures RenderAll(space, files, specs, true).0 == files
    ensures RenderAll(space, files, specs, true).1 == if AllHold(space, files, specs) then Some([]) else None
  {
    BlocksMarked(space, files, specs);
    CheckUpTo(space, files, specs, |specs|);
  }

  ghost predicate AllHold(space: char -> bool, files: Files, specs: seq<Spec>) {
    HoldUpTo(space, files, specs, |specs|)
  }

  /** The first blocks hold their bodies. */
  ghost predicate HoldUpTo(space: char -> bool, files: Files, specs: seq<Spec>, n: nat) {
    forall k :: 0 <= k < n && k < |specs| ==> specs[k].path in files && Holds(space, files[specs[k].path], specs[k])
  }

  lemma {:induction false} CheckUpTo(space: char -> bool, files: Files, specs: seq<Spec>, n: nat)
    requires WellFormed(space, files, specs) && n <= |specs| && Marked(specs)
    ensures Rendered(space, files, specs, n, true) == (files, if HoldUpTo(space, files, specs, n) then Some([]) else None)
    decreases n
  {
    if n > 0 {
      CheckUpTo(space, files, specs, n - 1);
      assert Placed(space, files, specs, n - 1);
      HoldsExact(space, files[specs[n - 1].path], specs[n - 1]);
      if HoldUpTo(space, files, specs, n - 1) { RenderedLast(space, files, specs, n, true, files, []); }
    }
  }

  lemma BlocksMarked(space: char -> bool, files: Files, specs: seq<Spec>)
    requires WellFormed(space, files, specs)
    ensures Marked(specs)
  {
    forall i | 0 <= i < |specs| ensures specs[i].begin != "" && specs[i].end != "" {
      assert Placed(space, files, specs, i);
    }
  }

  lemma {:induction false} NoneChosen(specs: seq<Spec>, chosen: seq<bool>, n: nat)
    requires n <= |specs| == |chosen| && forall k :: 0 <= k < n ==> !chosen[k]
    ensures PathsOf(specs, chosen, n) == []
  {
    if n > 0 { NoneChosen(specs, chosen, n - 1); }
  }

  lemma {:induction false} NothingMoves(space: char -> bool, files: Files, specs: seq<Spec>, run: seq<Files>, k: nat)
    requires IsRun(space, files, specs, run) && k < |run| && forall l :: 0 <= l < |specs| ==> CurrentIn(space, files, specs[l])
    ensures run[k] == files
  {
    if k > 0 {
      NothingMoves(space, files, specs, run, k - 1);
      assert Follows(space, specs, run, k - 1);
    }
  }

  /** Rendering or checking current blocks changes nothing and raises nothing. */
  lemma CurrentIsStable(space: char -> bool, files: Files, specs: seq<Spec>)
    requires WellFormed(space, files, specs) && Marked(specs) && forall k :: 0 <= k < |specs| ==> CurrentIn(space, files, specs[k])
    ensures RenderAll(space, files, specs, false) == (files, Some([]))
    ensures RenderAll(space, files, specs, true) == (files, Some([]))
  {
    var run := RenderIsRun(space, files, specs, |specs|);
    NothingMoves(space, files, specs, run, |specs|);
    NoneChosen(specs, Stale(space, files, specs), |specs|);
    CheckExact(space, files, specs);
    forall k | 0 <= k < |specs| ensures specs[k].path in files && Holds(space, files[specs[k].path], specs[k]) {
      assert Placed(space, files, specs, k);
      HoldsExact(space, files[specs[k].path], specs[k]);
    }
  }

  /** After a render, a check never raises and a second render changes nothing. */
  lemma RenderThenCheck(space: char -> bool, files: Files, specs: seq<Spec>)
    requires WellFormed(space, files, specs)
    ensures Marked(specs)
    ensures var (after, changed) := RenderAll(space, files, specs, false);
      && changed.Some?
      && RenderAll(space, after, specs, true) == (after, Some([]))
      && RenderAll(space, after, specs, false) == (after, Some([]))
  {
    BlocksMarked(space, files, specs);
    var run := RenderIsRun(space, files, specs, |specs|);
    var after := run[|specs|];
    RunWellFormed(space, files, specs, run, |specs|);
    forall k | 0 <= k < |specs| ensures CurrentIn(space, after, specs[k]) { CurrentAfter(space, files, specs, run, |specs|, k); }
    CurrentIsStable(space, after, specs);
  }
}

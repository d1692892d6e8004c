/** What a query selects and why it is refused, record by record, and which parts of a URL count. */
module GithubSelections {
  import opened GithubRecords
  import opened Ordering
  import opened PercentCoding
  import opened Texts

  // ---------------------------------------------------------------- the segments of a page

  ghost predicate HexText(s: string) {
    7 <= |s| <= 40 && forall i :: 0 <= i < |s| ==> s[i] in "0123456789abcdefABCDEF"
  }

  /** A tag of at most a hundred characters, none of them a control character, and no two dots in a row. */
  ghost predicate SafeTag(t: string) {
    && 1 <= |t| <= 100 && (forall i :: 0 <= i < |t| ==> t[i] as int >= 32)
    && forall i :: 0 <= i < |t| - 1 ==> !(t[i] == '.' && t[i + 1] == '.')
  }

  ghost predicate Digits(s: string) { s != "" && forall i :: 0 <= i < |s| ==> s[i] in "0123456789" }

  /** Two segments of the repository, then those of the record's page; of a pull request also its files. */
  ghost predicate IsPage(segments: seq<string>, s: Selection)
    requires |segments| >= 4
  {
    match s
    case Repository => false
    case Releases => false
    case PullRequest(n) =>
      && segments[2] == "pull" && Digits(segments[3]) && ParseNat(segments[3]) == n
      && (|segments| == 4 || (|segments| == 5 && segments[4] == "files"))
    case Issue(n) => |segments| == 4 && segments[2] == "issues" && Digits(segments[3]) && ParseNat(segments[3]) == n
    case Commit(sha) => |segments| == 4 && segments[2] == "commit" && segments[3] == sha && HexText(sha)
    case Release(tag) =>
      |segments| == 5 && segments[2] == "releases" && segments[3] == "tag" && segments[4] == tag && SafeTag(tag)
    case Compare(sha, tag) =>
      |segments| == 4 && segments[2] == "compare" && segments[3] == sha + "..." + tag && HexText(sha) && SafeTag(tag)
  }

  lemma DigitsExact(s: string)
    ensures Digits(s) <==> Decimal(s)
  {
    forall i | 0 <= i < |s| ensures s[i] in "0123456789" <==> '0' <= s[i] <= '9' { DigitChar(s[i]); }
  }

  lemma DigitChar(c: char)
    ensures c in "0123456789" <==> '0' <= c <= '9'
  {
    if '0' <= c <= '9' { assert "0123456789"[c as int - '0' as int] == c; }
  }

  lemma HexChar(c: char)
    ensures c in "0123456789abcdefABCDEF" <==> Hex(c)
  {
    var all := "0123456789abcdefABCDEF";
    if '0' <= c <= '9' { assert all[c as int - '0' as int] == c; }
    if 'a' <= c <= 'f' { assert all[c as int - 'a' as int + 10] == c; }
    if 'A' <= c <= 'F' { assert all[c as int - 'A' as int + 16] == c; }
  }

  lemma HexTextExact(s: string)
    ensures HexText(s) <==> IsSha(s)
  {
    forall i | 0 <= i < |s| ensures s[i] in "0123456789abcdefABCDEF" <==> Hex(s[i]) { HexChar(s[i]); }
  }

  lemma SafeTagExact(t: string)
    ensures SafeTag(t) <==> CheckedTag(t)
  {
  }

  /** A page selects its record and no other, and whatever is no page selects none. */
  lemma SegmentsExact(segments: seq<string>, s: Selection)
    requires |segments| >= 4
    ensures SelectSegments(segments) == Ok(s) <==> IsPage(segments, s)
  {
    var value := segments[3];
    DigitsExact(value);
    HexTextExact(value);
    if |segments| == 5 { SafeTagExact(segments[4]); }
    if s.Compare? { CompareExact(segments, s.sha, s.tag); }
    if SelectSegments(segments).Ok? && SelectSegments(segments).value.Compare? {
      CompareExact(segments, SelectSegments(segments).value.sha, SelectSegments(segments).value.tag);
    }
  }

  lemma CompareExact(segments: seq<string>, sha: string, tag: string)
    requires |segments| >= 4
    ensures SelectSegments(segments) == Ok(Compare(sha, tag)) <==> IsPage(segments, Compare(sha, tag))
  {
    var value := segments[3];
    HexTextExact(sha);
    SafeTagExact(tag);
    if IsSha(sha) { DotsExact(value, sha, tag); }
    if BeforeDots(value).Some? { BeforeDotsBound(value); }
  }

  /** Text with three dots after hexadecimal digits is cut there. */
  lemma DotsExact(value: string, sha: string, tag: string)
    requires forall i :: 0 <= i < |sha| ==> Hex(sha[i])
    ensures value == sha + "..." + tag <==> BeforeDots(value) == Some(sha) && |sha| + 3 <= |value| && value[|sha| + 3..] == tag
  {
    if value == sha + "..." + tag {
      BeforeDotsOfSha(sha, tag);
      assert value[|sha| + 3..] == tag;
    }
    if BeforeDots(value) == Some(sha) {
      BeforeDotsBound(value);
      assert value == sha + "..." + value[|sha| + 3..];
    }
  }

  /** Leading zeros of a number do not count. */
  lemma {:induction false} LeadingZero(s: string)
    requires Decimal(s)
    ensures Decimal("0" + s) && ParseNat("0" + s) == ParseNat(s)
  {
    var t := "0" + s;
    assert t[..|t| - 1] == "0" + s[..|s| - 1];
    if |s| == 1 {
      assert s[..0] == "" && "0" + "" == "0";
    } else {
      LeadingZero(s[..|s| - 1]);
    }
  }

  /** The page is of the site, and its first two segments name the bound repository, whatever the case of letters. */
  ghost predicate OfRepository(repo: string, query: string, segments: seq<string>) {
    && segments == UnquoteAll(SplitSlash(StripSlashes(ParseUrl(query).path)))
    && |segments| >= 4 && Lower(segments[0] + "/" + segments[1]) == Lower(repo)
  }

  ghost predicate OnSite(query: string) {
    ParseUrl(query).scheme == "https" && ParseUrl(query).host == Some("github.com")
  }

  /** What a query selects, and which refusal a query meets that selects nothing. */
  lemma SelectExact(repo: string, query: string, s: Selection)
    ensures SelectQuery(repo, query) == Ok(s) <==>
      if query == "releases" then s == Releases
      else OnSite(query) && exists segments :: OfRepository(repo, query, segments) && IsPage(segments, s)
    ensures SelectQuery(repo, query) == PermissionError <==>
      query != "releases" && OnSite(query) && forall segments :: !OfRepository(repo, query, segments)
  {
    var segments := UnquoteAll(SplitSlash(StripSlashes(ParseUrl(query).path)));
    if OfRepository(repo, query, segments) { SegmentsExact(segments, s); }
  }

  // ---------------------------------------------------------------- the parts of a URL

  /** Letters A to Z have become a to z, and nothing else has changed. */
  ghost predicate InLower(l: string, s: string) {
    && |l| == |s|
    && forall i :: 0 <= i < |s| ==>
         if 'A' <= s[i] <= 'Z' then l[i] as int - 'a' as int == s[i] as int - 'A' as int else l[i] == s[i]
  }

  lemma LowerIs(s: string)
    ensures InLower(Lower(s), s)
  {
    forall i | 0 <= i < |s|
      ensures if 'A' <= s[i] <= 'Z' then Lower(s)[i] as int - 'a' as int == s[i] as int - 'A' as int else Lower(s)[i] == s[i]
    {
      assert Lower(s)[i] == LowerChar(s[i]);
    }
  }

  /** User information does not count towards the host, however many at signs it holds. */
  lemma {:induction false} UserInfoIgnored(info: string, rest: string)
    ensures HostOf(info + ("@" + rest)) == HostOf(rest)
    decreases |info|
  {
    var netloc := info + ("@" + rest);
    if i :| 0 <= i < |info| && info[i] == '@' && forall j :: 0 <= j < i ==> info[j] != '@' {
      assert netloc == info[..i] + ("@" + (info[i + 1..] + ("@" + rest)));
      BeforeDelimiter(info[..i], "@" + (info[i + 1..] + ("@" + rest)), {'@'});
      assert netloc[i + 1..] == info[i + 1..] + ("@" + rest);
      UserInfoIgnored(info[i + 1..], rest);
    } else {
      NoneBefore(info, '@');
      BeforeDelimiter(info, "@" + rest, {'@'});
      assert netloc[|info| + 1..] == rest;
    }
  }

  /** Without a first occurrence there is none. */
  lemma {:induction false} NoneBefore(s: string, c: char)
    requires forall i :: 0 <= i < |s| && s[i] == c ==> exists j :: 0 <= j < i && s[j] == c
    ensures forall i :: 0 <= i < |s| ==> s[i] != c
  {
    var n := 0;
    while n < |s|
      invariant n <= |s| && forall i :: 0 <= i < n ==> s[i] != c
    {
      n := n + 1;
    }
  }

  /** Nor does a port, and case does not matter. */
  lemma PortIgnored(host: string, port: string)
    requires host != "" && forall i :: 0 <= i < |host| ==> host[i] !in "@:[]"
    requires forall i :: 0 <= i < |port| ==> port[i] !in "@[]"
    ensures HostOf(host + (":" + port)) == Some(Lower(host))
  {
    var netloc := host + (":" + port);
    assert forall i :: 0 <= i < |netloc| ==> netloc[i] !in "@[]";
    BeforeDelimiter(netloc, "", {'@'});
    assert netloc + "" == netloc;
    BeforeDelimiter(host, ":" + port, {':'});
  }

  ghost predicate Visible(s: string) { forall i :: 0 <= i < |s| ==> s[i] > ' ' }

  lemma VisibleParts(a: string, b: string, c: string)
    requires Visible(a) && Visible(b) && Visible(c)
    ensures Visible(a + (b + c))
  {
  }

  lemma VisibleTail(path: string, query: string, fragment: string)
    requires path != "" && forall i :: 0 <= i < |path| ==> PathChar(path[i])
    requires Visible(query) && Visible(fragment)
    ensures var tail := path + ("?" + query) + ("#" + fragment); Visible(tail) && tail != "" && tail[0] == path[0]
  {
    assert Visible("?" + query) && Visible("#" + fragment) && Visible(path);
  }

  lemma VisibleUrl(scheme: string, netloc: string, tail: string)
    requires (forall i :: 0 <= i < |scheme| ==> Alpha(scheme[i])) && Visible(netloc) && Visible(tail)
    ensures Visible(scheme + (":" + ("//" + (netloc + tail))))
  {
    VisibleParts("//", netloc, tail);
    VisibleParts(scheme, ":", "//" + (netloc + tail));
  }

  /** The parts of a URL: a scheme of letters, what stands up to the first delimiter, and the rest. */
  lemma PartsOf(scheme: string, netloc: string, tail: string)
    requires scheme != "" && forall i :: 0 <= i < |scheme| ==> Alpha(scheme[i])
    requires forall i :: 0 <= i < |netloc| ==> netloc[i] !in {'/', '?', '#'}
    requires tail != "" && tail[0] == '/' && Visible(netloc) && Visible(tail)
    ensures ParseUrl(scheme + (":" + ("//" + (netloc + tail)))) == Url(Lower(scheme), HostOf(netloc), PathOf(tail))
  {
    VisibleUrl(scheme, netloc, tail);
    PlainText(scheme + (":" + ("//" + (netloc + tail))));
    PlainScheme(scheme, "//" + (netloc + tail));
    HostPart(netloc, tail);
  }

  /** A host needs two slashes after the scheme, and a scheme its colon. */
  lemma PartsMissing(scheme: string, rest: string)
    requires scheme != "" && forall i :: 0 <= i < |scheme| ==> Alpha(scheme[i])
    requires Visible(rest)
    ensures !("//" <= rest) ==> ParseUrl(scheme + (":" + rest)) == Url(Lower(scheme), None, PathOf(rest))
    ensures ':' !in rest && rest != "" && !("//" <= rest) ==> ParseUrl(rest) == Url("", None, PathOf(rest))
  {
    VisibleParts(scheme, ":", rest);
    PlainText(scheme + (":" + rest));
    PlainScheme(scheme, rest);
    if ':' !in rest && rest != "" {
      PlainText(rest);
      assert rest + "" == rest;
      BeforeDelimiter(rest, "", {':'});
    }
  }

  lemma HostPart(netloc: string, tail: string)
    requires forall i :: 0 <= i < |netloc| ==> netloc[i] !in {'/', '?', '#'}
    requires tail != "" && tail[0] == '/'
    ensures SplitHost("//" + (netloc + tail)) == (netloc, tail)
  {
    assert ("//" + (netloc + tail))[2..] == netloc + tail;
    BeforeDelimiter(netloc, tail, {'/', '?', '#'});
  }

  /** Leading spaces and control characters do not count, nor does a tab or line end anywhere. */
  lemma BlanksIgnored(before: string, c: char, after: string)
    ensures c <= ' ' ==> ParseUrl([c] + after) == ParseUrl(after)
    ensures c in "\t\r\n" ==> ParseUrl(before + [c] + after) == ParseUrl(before + after)
  {
    assert ([c] + after)[1..] == after;
    if c in "\t\r\n" {
      assert c == '\t' || c == '\r' || c == '\n';
      BlankDropped(before, c, after);
    }
  }

  lemma {:induction false} BlankDropped(before: string, c: char, after: string)
    requires Blank(c)
    ensures DropTabsAndNewlines(LStripControl(before + [c] + after)) == DropTabsAndNewlines(LStripControl(before + after))
    decreases |before|
  {
    if before == "" {
      assert before + [c] + after == [c] + after && ([c] + after)[1..] == after && before + after == after;
    } else if before[0] <= ' ' {
      BlankDropped(before[1..], c, after);
      assert (before + [c] + after)[1..] == before[1..] + [c] + after && (before + after)[1..] == before[1..] + after;
    } else {
      BlankInside(before, c, after);
    }
  }

  lemma {:induction false} BlankInside(before: string, c: char, after: string)
    requires Blank(c)
    ensures DropTabsAndNewlines(before + [c] + after) == DropTabsAndNewlines(before + after)
    decreases |before|
  {
    if before == "" {
      assert before + [c] + after == [c] + after && ([c] + after)[1..] == after && before + after == after;
    } else {
      BlankInside(before[1..], c, after);
      assert (before + [c] + after)[1..] == before[1..] + [c] + after && (before + after)[1..] == before[1..] + after;
    }
  }

  /** Query and fragment of a URL do not count. */
  lemma QueryIgnored(scheme: string, netloc: string, path: string, query: string, fragment: string, url: string)
    requires scheme != "" && forall i :: 0 <= i < |scheme| ==> Alpha(scheme[i])
    requires forall i :: 0 <= i < |netloc| ==> netloc[i] !in {'/', '?', '#'}
    requires path != "" && path[0] == '/' && forall i :: 0 <= i < |path| ==> PathChar(path[i])
    requires forall i :: 0 <= i < |query| ==> query[i] != '#'
    requires Visible(netloc) && Visible(query) && Visible(fragment)
    requires url == scheme + (":" + ("//" + (netloc + (path + ("?" + query) + ("#" + fragment)))))
    ensures ParseUrl(url) == Url(Lower(scheme), HostOf(netloc), path)
  {
    var tail := path + ("?" + query) + ("#" + fragment);
    VisibleTail(path, query, fragment);
    PartsOf(scheme, netloc, tail);
    TailPath(path, query, fragment);
  }

  lemma TailPath(path: string, query: string, fragment: string)
    requires forall i :: 0 <= i < |path| ==> PathChar(path[i])
    requires forall i :: 0 <= i < |query| ==> query[i] != '#'
    ensures PathOf(path + ("?" + query) + ("#" + fragment)) == path
  {
    var front := path + ("?" + query);
    assert forall i :: 0 <= i < |front| ==> front[i] != '#';
    BeforeDelimiter(front, "#" + fragment, {'#'});
    BeforeDelimiter(path, "?" + query, {'?'});
    DropParamsPlain(path);
  }
}

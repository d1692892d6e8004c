/** Which GitHub development record a URL names, for the repository an object is bound to. */
module GithubRecords {
  import opened Ordering
  import opened Texts
  import opened PercentCoding

  // ---------------------------------------------------------------- text helpers

  /** `i` is the position of the first delimiter, or the end of the text. */
  predicate IsCut(s: string, delimiters: set<char>, i: int) {
    0 <= i <= |s| && (forall j :: 0 <= j < i ==> s[j] !in delimiters) && (i < |s| ==> s[i] in delimiters)
  }

  lemma {:induction false} CutExists(s: string, delimiters: set<char>, from: nat) returns (i: int)
    requires from <= |s| && forall j :: 0 <= j < from ==> s[j] !in delimiters
    ensures IsCut(s, delimiters, i)
    decreases |s| - from
  {
    if from == |s| || s[from] in delimiters {
      i := from;
    } else {
      i := CutExists(s, delimiters, from + 1);
    }
  }

  function Cut(s: string, delimiters: set<char>): (i: int)
    ensures IsCut(s, delimiters, i)
  {
    assert exists i :: 0 <= i <= |s| && IsCut(s, delimiters, i) by {
      var i := CutExists(s, delimiters, 0);
    }
    var i :| 0 <= i <= |s| && IsCut(s, delimiters, i);
    i
  }

  /** The text before the first delimiter, and the rest from it on. */
  function Before(s: string, delimiters: set<char>): string { s[..Cut(s, delimiters)] }

  function From(s: string, delimiters: set<char>): string { s[Cut(s, delimiters)..] }

  lemma BeforeDelimiter(a: string, rest: string, delimiters: set<char>)
    requires forall i :: 0 <= i < |a| ==> a[i] !in delimiters
    requires rest == "" || rest[0] in delimiters
    ensures Before(a + rest, delimiters) == a && From(a + rest, delimiters) == rest
  {
    var s := a + rest;
    assert forall i :: 0 <= i < |a| ==> s[i] == a[i];
    assert rest != "" ==> s[|a|] == rest[0];
    assert Cut(s, delimiters) == |a|;
  }

  function LowerChar(c: char): char {
    if 'A' <= c <= 'Z' then (c as int + 32) as char else c
  }

  function Lower(s: string): string {
    MapChars(LowerChar, s)
  }

  /** `path.strip("/")`. */
  function StripSlashes(s: string): string
    decreases |s|
  {
    if s != "" && s[0] == '/' then StripSlashes(s[1..])
    else if s != "" && s[|s| - 1] == '/' then StripSlashes(s[..|s| - 1])
    else s
  }

  /** `path.split("/")`. */
  function SplitSlash(s: string): (r: seq<string>)
    ensures |r| > 0
    decreases |s|
  {
    var head := Before(s, {'/'});
    if |head| == |s| then [s] else [head] + SplitSlash(s[|head| + 1..])
  }

  function UnquoteAll(parts: seq<string>): (r: seq<string>)
    ensures |r| == |parts| && forall i :: 0 <= i < |parts| ==> r[i] == Unquote(parts[i])
  {
    seq(|parts|, i requires 0 <= i < |parts| => Unquote(parts[i]))
  }

  // ---------------------------------------------------------------- urlparse

  datatype Url = Url(scheme: string, host: Option<string>, path: string)

  predicate Alpha(c: char) { 'A' <= c <= 'Z' || 'a' <= c <= 'z' }

  predicate SchemeChar(c: char) { Alpha(c) || '0' <= c <= '9' || c == '+' || c == '-' || c == '.' }

  function LStripControl(s: string): string {
    if s != "" && s[0] <= ' ' then LStripControl(s[1..]) else s
  }

  predicate Blank(c: char) { c == '\t' || c == '\r' || c == '\n' }

  function DropTabsAndNewlines(s: string): string {
    if s == "" then ""
    else (if Blank(s[0]) then "" else [s[0]]) + DropTabsAndNewlines(s[1..])
  }

  /** The host of a network location: no user info, no port; a bracketed address is never the one asked for. */
  function HostOf(netloc: string): Option<string>
    decreases |netloc|
  {
    var info := Before(netloc, {'@'});
    if |info| < |netloc| then HostOf(netloc[|info| + 1..])
    else if '[' in netloc || ']' in netloc then None
    else
      var name := Lower(Before(netloc, {':'}));
      if name == "" then None else Some(name)
  }

  /** The path without the parameters of its last segment. */
  function DropParams(path: string): string
    decreases |path|
  {
    var head := Before(path, {'/'});
    if |head| < |path| then head + "/" + DropParams(path[|head| + 1..]) else Before(path, {';'})
  }

  /** Scheme and remainder; the scheme is empty unless letters and the like stand before a colon. */
  function SplitScheme(url: string): (string, string) {
    var name := Before(url, {':'});
    if 0 < |name| < |url| && Alpha(name[0]) && forall i :: 0 <= i < |name| ==> SchemeChar(name[i])
    then (Lower(name), url[|name| + 1..])
    else ("", url)
  }

  /** Network location and what follows it. */
  function SplitHost(rest: string): (string, string) {
    if "//" <= rest then (Before(rest[2..], {'/', '?', '#'}), From(rest[2..], {'/', '?', '#'})) else ("", rest)
  }

  function PathOf(tail: string): string { DropParams(Before(Before(tail, {'#'}), {'?'})) }

  function ParseUrl(raw: string): Url {
    var (scheme, rest) := SplitScheme(DropTabsAndNewlines(LStripControl(raw)));
    var (netloc, tail) := SplitHost(rest);
    Url(scheme, HostOf(netloc), PathOf(tail))
  }

  // ---------------------------------------------------------------- selections

  datatype Selection =
    | Repository
    | Releases
    | PullRequest(number: nat)
    | Issue(number: nat)
    | Commit(sha: string)
    | Release(tag: string)
    | Compare(sha: string, tag: string)

  datatype Result<+T> = Ok(value: T) | ValueError | PermissionError

  predicate Hex(c: char) { HexValue(c) >= 0 }

  /** `_SHA`. */
  predicate IsSha(s: string) { 7 <= |s| <= 40 && forall i :: 0 <= i < |s| ==> Hex(s[i]) }

  predicate HasDots(s: string) { exists i :: 0 <= i < |s| - 1 && s[i] == '.' && s[i + 1] == '.' }

  /** `_checked_tag`. */
  predicate CheckedTag(tag: string) {
    tag != "" && |tag| <= 100 && !HasDots(tag) && forall i :: 0 <= i < |tag| ==> tag[i] >= ' '
  }

  predicate RepoChar(c: char) { Alpha(c) || '0' <= c <= '9' || c == '_' || c == '.' || c == '-' }

  predicate RepoName(s: string) { s != "" && forall i :: 0 <= i < |s| ==> RepoChar(s[i]) }

  predicate Decimal(s: string) { s != "" && forall i :: 0 <= i < |s| ==> '0' <= s[i] <= '9' }

  function ParseNat(s: string): nat
    requires Decimal(s)
  {
    var last := s[|s| - 1] as int - '0' as int;
    if |s| == 1 then last else ParseNat(s[..|s| - 1]) * 10 + last
  }

  function PrintNat(n: nat): string {
    var last := ('0' as int + n % 10) as char;
    if n < 10 then [last] else PrintNat(n / 10) + [last]
  }

  lemma {:induction false} ParsePrintNat(n: nat)
    ensures Decimal(PrintNat(n)) && ParseNat(PrintNat(n)) == n
  {
    if n >= 10 {
      ParsePrintNat(n / 10);
      assert PrintNat(n)[..|PrintNat(n)| - 1] == PrintNat(n / 10);
    }
  }

  function TagSelection(tag: string, s: Selection): Result<Selection> {
    if CheckedTag(tag) then Ok(s) else ValueError
  }

  /** `value.split("...", 1)`: the text before the first three dots. */
  function BeforeDots(s: string): Option<string> {
    if s == "" then None
    else if "..." <= s then Some("")
    else
      var rest := BeforeDots(s[1..]);
      if rest.None? then None else Some([s[0]] + rest.value)
  }

  lemma {:induction false} BeforeDotsBound(s: string)
    ensures BeforeDots(s).Some? ==> |BeforeDots(s).value| + 3 <= |s| && BeforeDots(s).value + "..." <= s
  {
    if s != "" && !("..." <= s) {
      BeforeDotsBound(s[1..]);
      assert s == [s[0]] + s[1..];
    }
  }

  /** The branches of `_selection` over the decoded segments of a URL path. */
  function SelectSegments(segments: seq<string>): Result<Selection>
    requires |segments| >= 4
  {
    var kind, value := segments[2], segments[3];
    if kind == "pull" && Decimal(value) && (|segments| == 4 || (|segments| == 5 && segments[4] == "files")) then
      Ok(PullRequest(ParseNat(value)))
    else if kind == "issues" && Decimal(value) && |segments| == 4 then Ok(Issue(ParseNat(value)))
    else if kind == "commit" && IsSha(value) && |segments| == 4 then Ok(Commit(value))
    else if kind == "releases" && value == "tag" && |segments| == 5 then TagSelection(segments[4], Release(segments[4]))
    else if kind == "compare" && |segments| == 4 && BeforeDots(value).Some? then
      var sha := BeforeDots(value).value;
      BeforeDotsBound(value);
      var tag := value[|sha| + 3..];
      if IsSha(sha) then TagSelection(tag, Compare(sha, tag)) else ValueError
    else ValueError
  }

  /** `_selection` with a query. */
  function SelectQuery(repo: string, query: string): Result<Selection> {
    if query == "releases" then Ok(Releases)
    else
      var parsed := ParseUrl(query);
      if parsed.scheme != HTTPS || parsed.host != Some(HOST) then ValueError
      else
        var segments := UnquoteAll(SplitSlash(StripSlashes(parsed.path)));
        if |segments| < 4 || Lower(segments[0] + "/" + segments[1]) != Lower(repo) then PermissionError
        else SelectSegments(segments)
  }

  /** What every selection made from a URL satisfies. */
  predicate ValidSelection(s: Selection) {
    match s
    case Commit(sha) => IsSha(sha)
    case Release(tag) => CheckedTag(tag)
    case Compare(sha, tag) => IsSha(sha) && CheckedTag(tag)
    case _ => true
  }

  lemma SelectedSegmentsValid(segments: seq<string>)
    requires |segments| >= 4 && SelectSegments(segments).Ok?
    ensures ValidSelection(SelectSegments(segments).value)
    ensures !SelectSegments(segments).value.Releases? && !SelectSegments(segments).value.Repository?
  {
  }

  /** A URL selects only valid records, and only of the bound repository on the site itself. */
  lemma SelectedIsBound(repo: string, query: string)
    requires SelectQuery(repo, query).Ok? && query != "releases"
    ensures ValidSelection(SelectQuery(repo, query).value)
    ensures ParseUrl(query).scheme == HTTPS && ParseUrl(query).host == Some(HOST)
    ensures var segments := UnquoteAll(SplitSlash(StripSlashes(ParseUrl(query).path)));
      |segments| >= 4 && Lower(segments[0] + "/" + segments[1]) == Lower(repo)
  {
    var segments := UnquoteAll(SplitSlash(StripSlashes(ParseUrl(query).path)));
    if |segments| >= 4 && SelectSegments(segments).Ok? { SelectedSegmentsValid(segments); }
  }

  // ---------------------------------------------------------------- canonical URLs

  /** The segments of the record's page. */
  function SegmentsOf(owner: string, name: string, s: Selection): seq<string>
    requires !s.Repository? && !s.Releases?
  {
    [owner, name] +
    match s
    case PullRequest(n) => ["pull", PrintNat(n)]
    case Issue(n) => ["issues", PrintNat(n)]
    case Commit(sha) => ["commit", sha]
    case Release(tag) => ["releases", "tag", tag]
    case Compare(sha, tag) => ["compare", sha + "..." + tag]
  }

  function QuoteAll(segments: seq<string>): (r: seq<string>)
    ensures |r| == |segments| && forall i :: 0 <= i < |segments| ==> r[i] == Quote(segments[i])
  {
    seq(|segments|, i requires 0 <= i < |segments| => Quote(segments[i]))
  }

  function Join(parts: seq<string>): string
    requires parts != []
  {
    if |parts| == 1 then parts[0] else parts[0] + ("/" + Join(parts[1..]))
  }

  function JoinQuoted(segments: seq<string>): string
    requires segments != []
  {
    Join(QuoteAll(segments))
  }

  const HTTPS := "https"
  const HOST := "github.com"
  const SITE := HTTPS + ("://" + HOST)

  function CanonicalUrl(owner: string, name: string, s: Selection): string
    requires !s.Repository? && !s.Releases?
  {
    SITE + ("/" + JoinQuoted(SegmentsOf(owner, name, s)))
  }

  predicate PathChar(c: char) { QuotedChar(c) || c == '/' }

  /** A segment as it stands in a path: not empty, no slash, nothing a URL gives meaning to. */
  predicate PathSegment(s: string) { s != "" && forall i :: 0 <= i < |s| ==> QuotedChar(s[i]) }

  lemma {:induction false} JoinChars(parts: seq<string>)
    requires parts != [] && forall i :: 0 <= i < |parts| ==> PathSegment(parts[i])
    ensures var j := Join(parts);
      j != "" && j[0] != '/' && j[|j| - 1] != '/' && forall i :: 0 <= i < |j| ==> PathChar(j[i])
  {
    if |parts| > 1 { JoinChars(parts[1..]); }
  }

  lemma SplitCons(head: string, rest: string)
    requires forall i :: 0 <= i < |head| ==> head[i] != '/'
    ensures SplitSlash(head + ("/" + rest)) == [head] + SplitSlash(rest)
  {
    var s := head + ("/" + rest);
    BeforeDelimiter(head, "/" + rest, {'/'});
    assert s[|head| + 1..] == rest;
  }

  lemma SplitSingle(head: string)
    requires forall i :: 0 <= i < |head| ==> head[i] != '/'
    ensures SplitSlash(head) == [head]
  {
    BeforeDelimiter(head, "", {'/'});
    assert head + "" == head;
  }

  lemma QuoteIsSegment(s: string)
    requires s != ""
    ensures PathSegment(Quote(s))
  {
    QuoteChars(s);
    var q := Quote(s);
    assert forall i :: 0 <= i < |q| ==> q[i] in q;
  }

  lemma {:induction false} SplitJoin(parts: seq<string>)
    requires parts != [] && forall i :: 0 <= i < |parts| ==> PathSegment(parts[i])
    ensures SplitSlash(Join(parts)) == parts
    decreases |parts|
  {
    if |parts| == 1 {
      SplitSingle(parts[0]);
    } else {
      SplitCons(parts[0], Join(parts[1..]));
      SplitJoin(parts[1..]);
      assert [parts[0]] + parts[1..] == parts;
    }
  }

  /** Splitting happens before decoding, so encoded slashes stay inside their segment. */
  lemma SegmentsRecovered(segments: seq<string>)
    requires segments != [] && forall i :: 0 <= i < |segments| ==> segments[i] != ""
    ensures UnquoteAll(SplitSlash(JoinQuoted(segments))) == segments
    ensures forall i :: 0 <= i < |segments| ==> PathSegment(QuoteAll(segments)[i])
  {
    forall i | 0 <= i < |segments| ensures Unquote(Quote(segments[i])) == segments[i] && PathSegment(Quote(segments[i])) {
      UnquoteQuote(segments[i]);
      QuoteIsSegment(segments[i]);
    }
    SplitJoin(QuoteAll(segments));
  }

  lemma StripLeadingSlash(j: string)
    requires j != "" && j[0] != '/' && j[|j| - 1] != '/'
    ensures StripSlashes("/" + j) == j
  {
    assert ("/" + j)[1..] == j;
  }

  lemma {:induction false} DropTabsPlain(s: string)
    requires forall i :: 0 <= i < |s| ==> !Blank(s[i])
    ensures DropTabsAndNewlines(s) == s
  {
    if s != "" { DropTabsPlain(s[1..]); }
  }

  lemma {:induction false} DropParamsPlain(path: string)
    requires forall i :: 0 <= i < |path| ==> path[i] != ';'
    ensures DropParams(path) == path
    decreases |path|
  {
    var head := Before(path, {'/'});
    if |head| < |path| {
      DropParamsPlain(path[|head| + 1..]);
      assert path == head + "/" + path[|head| + 1..];
    } else {
      BeforeDelimiter(path, "", {';'});
      assert path + "" == path;
    }
  }

  predicate AllRepoChars(s: string) { forall i :: 0 <= i < |s| ==> RepoChar(s[i]) }

  lemma PlainScheme(scheme: string, rest: string)
    requires scheme != "" && forall i :: 0 <= i < |scheme| ==> Alpha(scheme[i])
    ensures SplitScheme(scheme + (":" + rest)) == (Lower(scheme), rest)
  {
    BeforeDelimiter(scheme, ":" + rest, {':'});
    assert (scheme + (":" + rest))[|scheme| + 1..] == rest;
  }

  lemma PlainHost(host: string, path: string)
    requires host != "" && AllRepoChars(host) && path != "" && path[0] == '/'
    ensures SplitHost("//" + (host + path)) == (host, path) && HostOf(host) == Some(Lower(host))
  {
    assert ("//" + (host + path))[2..] == host + path;
    BeforeDelimiter(host, path, {'/', '?', '#'});
    BeforeDelimiter(host, "", {'@'});
    BeforeDelimiter(host, "", {':'});
    assert host + "" == host;
  }

  lemma PlainPath(path: string)
    requires forall i :: 0 <= i < |path| ==> PathChar(path[i])
    ensures PathOf(path) == path
  {
    BeforeDelimiter(path, "", {'#'});
    BeforeDelimiter(path, "", {'?'});
    assert path + "" == path;
    DropParamsPlain(path);
  }

  lemma PlainText(url: string)
    requires url != "" && forall i :: 0 <= i < |url| ==> url[i] > ' '
    ensures DropTabsAndNewlines(LStripControl(url)) == url
  {
    DropTabsPlain(url);
  }

  /** The parts of a plain URL: a scheme of letters, a bare host, and a path without delimiters. */
  lemma ParsePlain(scheme: string, host: string, path: string)
    requires scheme != "" && forall i :: 0 <= i < |scheme| ==> Alpha(scheme[i])
    requires host != "" && AllRepoChars(host)
    requires path != "" && path[0] == '/' && forall i :: 0 <= i < |path| ==> PathChar(path[i])
    ensures ParseUrl(scheme + ("://" + (host + path))) == Url(Lower(scheme), Some(Lower(host)), path)
  {
    var rest := "//" + (host + path);
    assert ":" + rest == "://" + (host + path);
    PlainText(scheme + (":" + rest));
    PlainScheme(scheme, rest);
    PlainHost(host, path);
    PlainPath(path);
  }

  /** The parts of a canonical URL. */
  lemma ParseCanonical(path: string)
    requires path != "" && path[0] == '/' && forall i :: 0 <= i < |path| ==> PathChar(path[i])
    ensures ParseUrl(SITE + path) == Url(HTTPS, Some(HOST), path)
  {
    SiteIsPlain();
    ParsePlain(HTTPS, HOST, path);
    UrlParts(HTTPS, "://", HOST, path);
  }

  lemma SiteIsPlain()
    ensures HTTPS != "" && (forall i :: 0 <= i < |HTTPS| ==> Alpha(HTTPS[i])) && Lower(HTTPS) == HTTPS
    ensures HOST != "" && AllRepoChars(HOST) && Lower(HOST) == HOST
  {
  }

  lemma UrlParts(a: string, b: string, c: string, d: string)
    ensures a + (b + c) + d == a + (b + (c + d))
  {
  }

  lemma {:induction false} BeforeDotsOfSha(sha: string, tag: string)
    requires forall i :: 0 <= i < |sha| ==> Hex(sha[i])
    ensures BeforeDots(sha + "..." + tag) == Some(sha)
  {
    var s := sha + "..." + tag;
    if sha != "" {
      assert s[0] == sha[0] && s[0] != '.' && s[1..] == sha[1..] + "..." + tag;
      assert [sha[0]] + sha[1..] == sha;
      BeforeDotsOfSha(sha[1..], tag);
    } else {
      assert s == "..." + tag;
    }
  }

  lemma SelectSegmentsOf(owner: string, name: string, s: Selection)
    requires !s.Repository? && !s.Releases? && ValidSelection(s)
    ensures SelectSegments(SegmentsOf(owner, name, s)) == Ok(s)
  {
    match s
    case PullRequest(n) => ParsePrintNat(n);
    case Issue(n) => ParsePrintNat(n);
    case Commit(sha) =>
    case Release(tag) =>
    case Compare(sha, tag) =>
      BeforeDotsOfSha(sha, tag);
      assert (sha + "..." + tag)[|sha| + 3..] == tag;
  }

  lemma SegmentsNonEmpty(owner: string, name: string, s: Selection)
    requires !s.Repository? && !s.Releases? && ValidSelection(s) && owner != "" && name != ""
    ensures forall i :: 0 <= i < |SegmentsOf(owner, name, s)| ==> SegmentsOf(owner, name, s)[i] != ""
  {
    match s
    case PullRequest(n) => ParsePrintNat(n);
    case Issue(n) => ParsePrintNat(n);
    case Commit(sha) =>
    case Release(tag) =>
    case Compare(sha, tag) =>
  }

  lemma CanonicalSegments(segments: seq<string>)
    requires segments != [] && forall i :: 0 <= i < |segments| ==> segments[i] != ""
    ensures UnquoteAll(SplitSlash(StripSlashes("/" + JoinQuoted(segments)))) == segments
    ensures var path := "/" + JoinQuoted(segments); forall i :: 0 <= i < |path| ==> PathChar(path[i])
  {
    SegmentsRecovered(segments);
    JoinChars(QuoteAll(segments));
    StripLeadingSlash(JoinQuoted(segments));
  }

  /** A query that parses to a page of the site with these segments is decided by them alone. */
  lemma SelectParsed(repo: string, query: string, path: string, segments: seq<string>)
    requires query != "releases" && ParseUrl(query) == Url(HTTPS, Some(HOST), path)
    requires UnquoteAll(SplitSlash(StripSlashes(path))) == segments
    requires |segments| >= 4 && segments[0] + "/" + segments[1] == repo
    ensures SelectQuery(repo, query) == SelectSegments(segments)
  {
  }

  /** Parsing inverts printing: the canonical percent-encoded URL of every valid record of the bound
      repository, its tag with slashes, spaces or any other character, selects that record. */
  lemma ParseInvertsPrint(owner: string, name: string, s: Selection)
    requires RepoName(owner) && RepoName(name)
    requires !s.Repository? && !s.Releases? && ValidSelection(s)
    ensures SelectQuery(owner + "/" + name, CanonicalUrl(owner, name, s)) == Ok(s)
  {
    var segments := SegmentsOf(owner, name, s);
    var path := "/" + JoinQuoted(segments);
    SegmentsNonEmpty(owner, name, s);
    CanonicalSegments(segments);
    ParseCanonical(path);
    assert CanonicalUrl(owner, name, s)[0] == HTTPS[0] && HTTPS[0] == 'h';
    SelectParsed(owner + "/" + name, CanonicalUrl(owner, name, s), path, segments);
    SelectSegmentsOf(owner, name, s);
  }
}

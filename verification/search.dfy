/**
  The advanced-search client of the journal site (resources/js/search.js): a
  single mutable search state, the query it sends to the OpenSearch proxy, the
  `isLoading` guard around the request, the resolution of the 10,000-hit cap,
  the pagination window and the shaping of one result entry.

  Browser objects are replaced by values: a URLSearchParams or FormData object
  is a map from key to its values in order, a fetch is split into the part
  that runs before the request (BeginFetch), the part that runs when its reply
  is in (CompleteFetch) and, for a capped total, the part that runs when the
  count reply is in (CompleteCount); what the page shows is returned as data.
*/
module Search {
  import opened Wrappers
  import opened Text
  import opened TextFacts

  // ---------------------------------------------------------------------------
  // URLSearchParams / FormData and JavaScript value coercions

  /** A URLSearchParams or FormData object: each key with its values in order. */
  type Params = map<string, seq<string>>

  /** `params.get(key)`: the first value of `key`, or null. */
  function Get(p: Params, key: string): Option<string> {
    if key in p && |p[key]| > 0 then Some(p[key][0]) else None
  }

  /** `params.getAll(key)`. */
  function GetAll(p: Params, key: string): seq<string> {
    if key in p then p[key] else []
  }

  /** JavaScript's `v || fallback` for a string that may be null. */
  function Or(v: Option<string>, fallback: string): string {
    if v.Some? && v.value != "" then v.value else fallback
  }

  predicate IsDigit(c: char) { '0' <= c <= '9' }

  predicate AllDigits(s: string) {
    forall i | 0 <= i < |s| :: IsDigit(s[i])
  }

  /** The value of a string of decimal digits. */
  function DigitsValue(s: string): nat
    requires AllDigits(s)
  {
    if s == [] then 0
    else DigitsValue(s[..|s| - 1]) * 10 + (s[|s| - 1] as int - '0' as int)
  }

  /** The decimal digits of `n`, most significant first, without leading zeros. */
  function Digits(n: nat): (s: string)
    ensures |s| >= 1 && AllDigits(s)
  {
    var d := ((n % 10) + '0' as int) as char;
    if n < 10 then [d] else Digits(n / 10) + [d]
  }

  /** `String(n)` for an integer. */
  function NumberText(n: int): (s: string)
    ensures s != ""
  {
    if n < 0 then "-" + Digits(-n) else Digits(n)
  }

  /** `Number(s)` for the integer forms: blank text is 0, and an optional sign
      followed by decimal digits, with whitespace around it, is that integer.
      None stands for NaN. */
  function ParseNumber(s: string): Option<int> {
    ParseInteger(Strip(s))
  }

  /** The value of stripped text: empty is 0, a signed or unsigned run of
      digits is that integer, anything else is NaN. */
  function ParseInteger(t: string): Option<int> {
    if t == [] then Some(0)
    else if t[0] == '-' && |t| > 1 && AllDigits(t[1..]) then Some(-(DigitsValue(t[1..]) as int))
    else if t[0] == '+' && |t| > 1 && AllDigits(t[1..]) then Some(DigitsValue(t[1..]))
    else if AllDigits(t) then Some(DigitsValue(t))
    else None
  }

  /** `Number(v) || fallback`: null, NaN and 0 all give the fallback. */
  function NumberOr(v: Option<string>, fallback: int): (r: int)
    ensures fallback != 0 ==> r != 0
  {
    match v
    case None => fallback
    case Some(s) =>
      match ParseNumber(s)
      case Some(n) => if n != 0 then n else fallback
      case None => fallback
  }

  /** The fallback is taken exactly when the value is missing, not a number,
      or 0; otherwise the number is the result. */
  lemma NumberOrCases(v: Option<string>, fallback: int)
    ensures v.None? ==> NumberOr(v, fallback) == fallback
    ensures v.Some? && ParseNumber(v.value) in {None, Some(0)} ==> NumberOr(v, fallback) == fallback
    ensures v.Some? && ParseNumber(v.value).Some? && ParseNumber(v.value).value != 0 ==>
      NumberOr(v, fallback) == ParseNumber(v.value).value
  {
  }

  lemma {:induction false} DigitsRoundTrip(n: nat)
    ensures DigitsValue(Digits(n)) == n
    decreases n
  {
    if n >= 10 {
      var s := Digits(n);
      DigitsRoundTrip(n / 10);
      assert s[..|s| - 1] == Digits(n / 10);
    }
  }

  /** A number written into a query string is read back unchanged. */
  lemma NumberTextRoundTrip(n: int)
    ensures ParseNumber(NumberText(n)) == Some(n)
  {
    var m: nat := if n < 0 then -n else n;
    var ds := Digits(m);
    DigitsRoundTrip(m);
    assert IsDigit(ds[|ds| - 1]);
    if n < 0 {
      ParseNegative(ds);
      assert ("-" + ds)[|"-" + ds| - 1] == ds[|ds| - 1];
    } else {
      assert IsDigit(ds[0]);
    }
    ParseUnpadded(NumberText(n));
  }

  /** Text without whitespace at its ends is parsed as it is. */
  lemma ParseUnpadded(s: string)
    requires s == [] || (!IsSpace(s[0]) && !IsSpace(s[|s| - 1]))
    ensures ParseNumber(s) == ParseInteger(s)
  {
    StripUnchanged(s);
  }

  lemma ParseNegative(ds: string)
    requires |ds| >= 1 && AllDigits(ds)
    ensures ParseInteger("-" + ds) == Some(-(DigitsValue(ds) as int))
  {
    var s := "-" + ds;
    assert s[1..] == ds;
    ParseSigned(s);
  }

  lemma ParseSigned(t: string)
    requires |t| > 1 && t[0] == '-' && AllDigits(t[1..])
    ensures ParseInteger(t) == Some(-(DigitsValue(t[1..]) as int))
  {
  }

  // ---------------------------------------------------------------------------
  // Pagination

  function Min(a: int, b: int): int { if a <= b then a else b }
  function Max(a: int, b: int): int { if a >= b then a else b }

  /** `Math.ceil(totalResults / resultsPerPage)`. */
  function TotalPages(totalResults: nat, resultsPerPage: int): (n: int)
    requires resultsPerPage != 0
    ensures resultsPerPage > 0 ==> 0 <= n && (n - 1) * resultsPerPage < totalResults <= n * resultsPerPage
    ensures resultsPerPage < 0 ==> n <= 0
  {
    if resultsPerPage > 0 then
      var n := (totalResults + resultsPerPage - 1) / resultsPerPage;
      var m := (totalResults + resultsPerPage - 1) % resultsPerPage;
      assert n * resultsPerPage == totalResults + resultsPerPage - 1 - m;
      n
    else -(totalResults / -resultsPerPage)
  }

  /** The first and last page number shown: at most five pages, centred on the
      current page where the ends allow it. */
  function PageWindow(totalPages: int, currentPage: int): (w: (int, int))
    ensures 1 <= w.0 && w.1 <= totalPages
    ensures totalPages >= 1 ==> w.0 <= w.1 && w.1 - w.0 + 1 == Min(5, totalPages)
    ensures 1 <= currentPage <= totalPages ==> w.0 <= currentPage <= w.1
    ensures 3 <= currentPage <= totalPages - 2 ==> w == (currentPage - 2, currentPage + 2)
  {
    var start := Max(1, currentPage - 2);
    var end := Min(totalPages, start + 4);
    if end - start + 1 < 5 then (Max(1, end - 4), end) else (start, end)
  }

  /** The windows of a ten-page result list at its first, middle and last page. */
  lemma TenPageWindows()
    ensures PageWindow(10, 1) == (1, 5)
    ensures PageWindow(10, 5) == (3, 7)
    ensures PageWindow(10, 10) == (6, 10)
  {
  }

  datatype PageButton = PageButton(page: int, active: bool)

  /** The buttons `renderPagination` puts in each pagination container. */
  method RenderPagination(totalResults: nat, resultsPerPage: int, currentPage: int)
    returns (buttons: seq<PageButton>)
    requires resultsPerPage != 0
    ensures var (lo, hi) := PageWindow(TotalPages(totalResults, resultsPerPage), currentPage);
      |buttons| == Max(0, hi - lo + 1) &&
      forall i | 0 <= i < |buttons| :: buttons[i].page == lo + i
    ensures forall i | 0 <= i < |buttons| :: buttons[i].active <==> buttons[i].page == currentPage
  {
    var totalPages := TotalPages(totalResults, resultsPerPage);
    var maxPageNumbers := 5;
    var startPage := Max(1, currentPage - maxPageNumbers / 2);
    var endPage := Min(totalPages, startPage + maxPageNumbers - 1);
    if endPage - startPage + 1 < maxPageNumbers {
      startPage := Max(1, endPage - maxPageNumbers + 1);
    }
    buttons := [];
    var page := startPage;
    while page <= endPage
      invariant startPage <= page <= Max(startPage, endPage + 1)
      invariant |buttons| == page - startPage
      invariant forall i | 0 <= i < |buttons| ::
        buttons[i] == PageButton(startPage + i, startPage + i == currentPage)
    {
      buttons := buttons + [PageButton(page, page == currentPage)];
      page := page + 1;
    }
  }

  /** The pagination shown for `totalResults`: no buttons when one page holds
      every result, otherwise one per page of the window, in order, with only
      the current page active. */
  ghost predicate ShowsPages(buttons: seq<PageButton>, totalResults: nat, size: int, currentPage: int)
    requires size != 0
  {
    (totalResults <= size ==> buttons == [])
    && (totalResults > size ==>
      var (lo, hi) := PageWindow(TotalPages(totalResults, size), currentPage);
      |buttons| == Max(0, hi - lo + 1)
      && (forall i | 0 <= i < |buttons| :: buttons[i].page == lo + i)
      && (forall i | 0 <= i < |buttons| :: buttons[i].active <==> buttons[i].page == currentPage))
  }

  // ---------------------------------------------------------------------------
  // Replies and result entries

  /** `hit._source.author`: absent, a string, or a list of names. */
  datatype Author = NoAuthor | AuthorText(text: string) | AuthorList(names: seq<string>)

  /** The fields of `hit._source` that a result entry shows. */
  datatype Hit = Hit(displayTitleEnglish: Option<string>, kind: Option<string>,
                     author: Author, idno: Option<string>)

  /** The parts of a search reply the page reads: `hits.total.value` (`total`
      is None when the reply has no `hits` or no `hits.total`) and `hits.hits`. */
  datatype SearchReply = SearchReply(total: Option<Option<nat>>, hits: seq<Hit>)

  /** The outcome of a request: the parsed body, or a network or JSON failure. */
  datatype Reply<T> = Received(body: T) | Failed

  /** One entry of the result list. */
  datatype ResultItem = ResultItem(href: string, title: string, kind: Option<string>, byline: Option<string>)

  /** What the result container holds; `Cleared` is the container emptied
      while the count request is outstanding. */
  datatype ResultsPane = Entries(items: seq<ResultItem>) | NoResults | ErrorMessage | Cleared

  /** What a completed search leaves on the page: the "Total Results" line and
      the pagination buttons (None where the page was left as it was), and the
      result container. */
  datatype Shown = Shown(info: Option<nat>, pages: Option<seq<PageButton>>, results: ResultsPane)

  const CanonicalOrigin: string := "https://hugoye.bethmardutho.org"
  const NoTitle: string := "No title available"

  /** `data.hits?.total?.value || 0`. */
  function ReportedTotal(data: SearchReply): nat {
    match data.total
    case Some(Some(v)) => v
    case _ => 0
  }

  /** The total shown for a reported hit count: a count of exactly 10,000 is
      the engine's cap, so the total comes from the count request instead,
      falling back to 10,000 when that request fails or reports 0 or nothing. */
  function ResolveTotal(reported: nat, count: Reply<Option<nat>>): (total: nat)
    ensures reported != 10000 ==> total == reported
    ensures reported == 10000 && count.Received? && count.body.Some? && count.body.value != 0 ==>
      total == count.body.value
    ensures reported == 10000 && !(count.Received? && count.body.Some? && count.body.value != 0) ==>
      total == 10000
  {
    if reported == 10000 then
      match count
      case Received(Some(c)) => if c != 0 then c else 10000
      case _ => 10000
    else reported
  }

  /** `entryValue.replace(/^«+/, '')`. */
  function DropLeadingGuillemets(s: string): (r: string)
    ensures |r| <= |s| && r == s[|s| - |r|..]
    ensures forall i | 0 <= i < |s| - |r| :: s[i] == '«'
    ensures r == [] || r[0] != '«'
  {
    if s != [] && s[0] == '«' then DropLeadingGuillemets(s[1..]) else s
  }

  /** The text without its final run of `c`: `.replace(/»+$/, '')` for
      `c == '»'`, and the comma run inside `/,+\s*$/` for `c == ','`. */
  function DropTrailing(s: string, c: char): (r: string)
    ensures |r| <= |s| && r == s[..|r|]
    ensures forall i | |r| <= i < |s| :: s[i] == c
    ensures r == [] || r[|r| - 1] != c
  {
    if s != [] && s[|s| - 1] == c then DropTrailing(s[..|s| - 1], c) else s
  }

  /** `.replace(/,+\s*$/, '')`: the first place where one or more commas are
      followed by nothing but whitespace is the start of the final comma run
      before the trailing whitespace; that run and the whitespace go. Text that
      does not end in commas and whitespace is left alone. */
  function DropTrailingCommaRun(s: string): (r: string)
    ensures |r| <= |s| && r == s[..|r|]
    ensures forall i | |r| <= i < |s| :: s[i] == ',' || IsSpace(s[i])
    ensures var t := |s| - TrailingSpaces(s);
      (r != s <==> t > 0 && s[t - 1] == ',')
      && (r != s ==> |r| < t && (forall i | |r| <= i < t :: s[i] == ',') && (r == [] || r[|r| - 1] != ','))
  {
    var t := s[..|s| - TrailingSpaces(s)];
    var u := DropTrailing(t, ',');
    if |u| < |t| then u else s
  }

  /** `r` is `s[i..i + |r|]`, only « and whitespace come before it, and only
      », commas and whitespace after it. */
  ghost predicate IsCleanedAt(s: string, r: string, i: nat)
    requires i + |r| <= |s|
  {
    r == s[i..i + |r|]
    && (forall j | 0 <= j < i :: s[j] == '«' || IsSpace(s[j]))
    && (forall j | i + |r| <= j < |s| :: s[j] == '»' || s[j] == ',' || IsSpace(s[j]))
  }

  /** `cleanDisplayData`: strip a leading run of «, then a trailing run of »,
      then trailing commas with the whitespace after them, then surrounding
      whitespace, in that order. */
  function CleanDisplayData(entryValue: string): (r: string)
    ensures Contains(entryValue, r)
    ensures exists i | 0 <= i <= |entryValue| - |r| :: IsCleanedAt(entryValue, r, i)
    ensures r == [] || (!IsSpace(r[0]) && !IsSpace(r[|r| - 1]))
  {
    var a := DropLeadingGuillemets(entryValue);
    var b := DropTrailing(a, '»');
    var c := DropTrailingCommaRun(b);
    var r := Strip(c);
    assert exists i | 0 <= i <= |entryValue| - |r| :: IsCleanedAt(entryValue, r, i) by {
      var k :| 0 <= k <= |c| - |r| && IsTrimmedAt(c, r, k);
      CleanedEnds(entryValue, a, b, c, r, k);
    }
    assert Contains(entryValue, r) by {
      var w :| 0 <= w <= |entryValue| - |r| && IsCleanedAt(entryValue, r, w);
      assert OccursAt(entryValue, r, w);
    }
    r
  }

  /** The ends the four stages of `cleanDisplayData` cut off: a run of «
      in front, then whitespace; whitespace, commas and » at the back. */
  lemma CleanedEnds(s: string, a: string, b: string, c: string, r: string, k: nat)
    requires |a| <= |s| && a == s[|s| - |a|..] && forall i | 0 <= i < |s| - |a| :: s[i] == '«'
    requires |b| <= |a| && b == a[..|b|] && forall i | |b| <= i < |a| :: a[i] == '»'
    requires |c| <= |b| && c == b[..|c|] && forall i | |c| <= i < |b| :: b[i] == ',' || IsSpace(b[i])
    requires k + |r| <= |c| && IsTrimmedAt(c, r, k)
    ensures IsCleanedAt(s, r, |s| - |a| + k)
  {
    var p := |s| - |a|;
    var w := p + k;
    assert r == s[w..w + |r|] by {
      assert forall j | 0 <= j < |r| :: r[j] == c[k + j] == a[k + j] == s[w + j];
    }
    forall j | 0 <= j < w ensures s[j] == '«' || IsSpace(s[j]) {
      if j >= p {
        assert s[j] == a[j - p] == c[j - p] == c[..k][j - p];
      }
    }
    forall j | w + |r| <= j < |s| ensures s[j] == '»' || s[j] == ',' || IsSpace(s[j]) {
      var q := j - p;
      assert s[j] == a[q];
      if q < |c| {
        assert a[q] == c[q] == c[k + |r|..][q - k - |r|];
      } else if q < |b| {
        assert a[q] == b[q];
      }
    }
  }

  /** Titles without guillemets, commas or surrounding whitespace are shown as
      they are. */
  lemma CleanDisplayDataKeepsPlainTitles(s: string)
    requires forall i | 0 <= i < |s| :: s[i] != '«' && s[i] != '»' && s[i] != ','
    requires s == [] || (!IsSpace(s[0]) && !IsSpace(s[|s| - 1]))
    ensures CleanDisplayData(s) == s
  {
    assert DropLeadingGuillemets(s) == s;
    assert DropTrailing(s, '»') == s;
    assert TrailingSpaces(s) == 0;
    assert s[..|s|] == s;
    assert DropTrailing(s, ',') == s;
    assert DropTrailingCommaRun(s) == s;
    StripUnchanged(s);
  }

  /** The stages run in a fixed order, so a » before a trailing comma stays. */
  lemma CleanDisplayDataExample()
    ensures CleanDisplayData("«Title,»,") == "Title,»"
  {
    var a := DropLeadingGuillemets("«Title,»,");
    assert a == DropLeadingGuillemets("Title,»,");
    assert a == "Title,»,";
    assert DropTrailing(a, '»') == a;
    assert TrailingSpaces(a) == 0;
    assert DropTrailing(a, ',') == DropTrailing("Title,»", ',');
    assert DropTrailing(a, ',') == "Title,»";
    StripUnchanged("Title,»");
  }

  /** The link of a result: the first occurrence of the canonical origin in
      the identifier becomes the page's own origin, and ".html" is appended. */
  function DetailUrl(idno: string, origin: string): (url: string)
    ensures |url| >= 5 && url[|url| - 5..] == ".html"
  {
    ReplaceFirst(idno, CanonicalOrigin, origin) + ".html"
  }

  lemma DetailUrlOfCanonicalIdno(path: string, origin: string)
    ensures DetailUrl(CanonicalOrigin + path, origin) == origin + path + ".html"
  {
    var s := CanonicalOrigin + path;
    assert s[|CanonicalOrigin|..] == path;
    assert OccursAt(s, CanonicalOrigin, 0);
    ReplaceFirstAt(s, CanonicalOrigin, origin, 0);
  }

  lemma DetailUrlOfOtherIdno(idno: string, origin: string)
    requires !Contains(idno, CanonicalOrigin)
    ensures DetailUrl(idno, origin) == idno + ".html"
  {
    ReplaceFirstWithoutPattern(idno, CanonicalOrigin, origin);
  }

  /** `Array.isArray(a) ? a.join(", ") : a || ''`. */
  function AuthorLine(a: Author): string {
    match a
    case NoAuthor => ""
    case AuthorText(t) => t
    case AuthorList(names) => JoinWith(", ", names)
  }

  /** The entry `displayResults` builds for one hit. */
  function ResultItemFor(hit: Hit, origin: string): (item: ResultItem)
    ensures item.title != ""
    ensures item.title == NoTitle || Contains(hit.displayTitleEnglish.GetOr(""), item.title)
    ensures var cleaned := CleanDisplayData(hit.displayTitleEnglish.GetOr(""));
      (cleaned != "" ==> item.title == cleaned) && (cleaned == "" ==> item.title == NoTitle)
    ensures item.kind.Some? <==> !AllSpace(hit.kind.GetOr(""))
    ensures item.kind.Some? ==> item.kind.value == hit.kind.value
    ensures item.byline.Some? <==> !AllSpace(AuthorLine(hit.author))
    ensures item.byline.Some? ==> item.byline.value == AuthorLine(hit.author)
    ensures item.href == DetailUrl(hit.idno.GetOr(""), origin)
  {
    ResultItem(DetailUrl(hit.idno.GetOr(""), origin), TitleFor(hit.displayTitleEnglish.GetOr("")),
               UnlessBlank(hit.kind.GetOr("")), UnlessBlank(AuthorLine(hit.author)))
  }

  /** `cleanDisplayData(...) || "No title available"`. */
  function TitleFor(displayTitle: string): (title: string)
    ensures title != ""
    ensures title == NoTitle || Contains(displayTitle, title)
    ensures var cleaned := CleanDisplayData(displayTitle);
      (cleaned != "" ==> title == cleaned) && (cleaned == "" ==> title == NoTitle)
  {
    var cleaned := CleanDisplayData(displayTitle);
    if cleaned != "" then cleaned else NoTitle
  }

  /** A line that is shown only when `text.trim()` is not empty. */
  function UnlessBlank(text: string): (line: Option<string>)
    ensures line.Some? <==> !AllSpace(text)
    ensures line.Some? ==> line.value == text
  {
    if Strip(text) != "" then Some(text) else None
  }

  /** The result list of a reply that has a `hits.total`. */
  function ResultsFor(hits: seq<Hit>, origin: string): (pane: ResultsPane)
    ensures hits == [] <==> pane == NoResults
    ensures pane.Entries? ==> |pane.items| == |hits|
    ensures pane.Entries? ==> forall i | 0 <= i < |hits| :: pane.items[i] == ResultItemFor(hits[i], origin)
  {
    if |hits| > 0 then Entries(seq(|hits|, i requires 0 <= i < |hits| => ResultItemFor(hits[i], origin)))
    else NoResults
  }

  /** `countQueryParams`: the request with `searchType` set to "count". */
  function CountRequest(request: Params): (count: Params)
    ensures GetAll(count, "searchType") == ["count"]
    ensures forall k | k != "searchType" :: GetAll(count, k) == GetAll(request, k)
  {
    request["searchType" := ["count"]]
  }

  // ---------------------------------------------------------------------------
  // Reading the page URL

  /** What `initializeStateFromURL` reads from the page URL. */
  datatype UrlState = UrlState(lang: string, query: string, searchType: string, from: int, size: int,
                               title: string, author: string, keyword: string, sortFactor: string,
                               fullText: string, types: seq<string>)

  function ReadUrl(url: Params): (u: UrlState)
    ensures u.size != 0 && u.lang != "" && u.sortFactor != ""
    ensures Or(Get(url, "lang"), "") == "" ==> u.lang == "en"
    ensures Or(Get(url, "lang"), "") != "" ==> u.lang == Get(url, "lang").value
    ensures Or(Get(url, "sortFactor"), "") == "" ==> u.sortFactor == "author"
    ensures Or(Get(url, "sortFactor"), "") != "" ==> u.sortFactor == Get(url, "sortFactor").value
    ensures u.query == Or(Get(url, "q"), Or(Get(url, "keyword"), ""))
    ensures u.keyword == Or(Get(url, "keyword"), "")
  {
    UrlState(
      lang := Or(Get(url, "lang"), "en"),
      query := Or(Get(url, "q"), Or(Get(url, "keyword"), "")),
      searchType := Or(Get(url, "searchType"), ""),
      from := NumberOr(Get(url, "from"), 0),
      size := NumberOr(Get(url, "size"), 25),
      title := Or(Get(url, "title"), ""),
      author := Or(Get(url, "author"), ""),
      keyword := Or(Get(url, "keyword"), ""),
      sortFactor := Or(Get(url, "sortFactor"), "author"),
      fullText := Or(Get(url, "fullText"), ""),
      types := GetAll(url, "type"))
  }

  /** A URL without parameters gives the defaults. */
  lemma ReadEmptyUrl()
    ensures ReadUrl(map[]) == UrlState("en", "", "", 0, 25, "", "", "", "author", "", [])
  {
  }

  /** `from` and `size` fall back to 0 and 25 when missing, not a number, or 0. */
  lemma ReadUrlNumberDefaults(url: Params)
    requires Get(url, "from").None? || ParseNumber(Get(url, "from").value) in {None, Some(0)}
    requires Get(url, "size").None? || ParseNumber(Get(url, "size").value) in {None, Some(0)}
    ensures ReadUrl(url).from == 0 && ReadUrl(url).size == 25
  {
    NumberOrCases(Get(url, "from"), 0);
    NumberOrCases(Get(url, "size"), 25);
  }

  /** The state fields that go into the search query. */
  datatype QueryFields = QueryFields(from: int, size: int, sortFactor: string, query: string,
                                     author: string, fullText: string, idno: string, title: string,
                                     types: seq<string>, keyword: string)

  /** The ten keys `buildQueryParams` writes; KeyName gives each one's name in
      the query string. */
  datatype QueryKey = From | Size | Sort | Q | Author | FullText | Idno | Title | Type | Keyword

  const AllQueryKeys: set<QueryKey> := {From, Size, Sort, Q, Author, FullText, Idno, Title, Type, Keyword}

  function KeyName(k: QueryKey): string {
    match k
    case From => "from"
    case Size => "size"
    case Sort => "sort"
    case Q => "q"
    case Author => "author"
    case FullText => "fullText"
    case Idno => "idno"
    case Title => "title"
    case Type => "type"
    case Keyword => "keyword"
  }

  /** The value `buildQueryParams` puts under each key before filtering. */
  function QueryValue(f: QueryFields, k: QueryKey): string {
    match k
    case From => NumberText(f.from)
    case Size => NumberText(f.size)
    case Sort => f.sortFactor
    case Q => if f.query != "" then f.query else f.keyword
    case Author => f.author
    case FullText => f.fullText
    case Idno => f.idno
    case Title => f.title
    case Type => JoinWith(",", f.types)
    case Keyword => f.keyword
  }

  /** `key` is sent with `value` when `value` is non-empty, and not sent otherwise. */
  ghost predicate Carries(params: map<QueryKey, string>, key: QueryKey, value: string) {
    (key in params <==> value != "") && (key in params ==> params[key] == value)
  }

  /** `buildQueryParams`: the query sent to the search API, with empty values
      left out. The sort order goes out under `sort`. */
  function BuildQueryParams(f: QueryFields): (params: map<QueryKey, string>)
    ensures forall k | k in params :: params[k] != ""
    ensures From in params && params[From] == NumberText(f.from)
    ensures Size in params && params[Size] == NumberText(f.size)
    ensures Carries(params, Q, if f.query != "" then f.query else f.keyword)
    ensures Type in params <==> f.types != [] && f.types != [""]
    ensures Carries(params, Type, JoinWith(",", f.types))
    ensures Carries(params, Sort, f.sortFactor) && Carries(params, Author, f.author)
    ensures Carries(params, FullText, f.fullText) && Carries(params, Idno, f.idno)
    ensures Carries(params, Title, f.title) && Carries(params, Keyword, f.keyword)
  {
    JoinEmptyIff(f.types);
    map k | k in AllQueryKeys && QueryValue(f, k) != "" :: QueryValue(f, k)
  }

  lemma JoinEmptyIff(types: seq<string>)
    ensures JoinWith(",", types) == "" <==> types == [] || types == [""]
  {
  }

  /** Different keys have different names. */
  lemma KeyNamesDistinct()
    ensures forall k1: QueryKey, k2: QueryKey | KeyName(k1) == KeyName(k2) :: k1 == k2
  {
  }

  /** `new URLSearchParams(buildQueryParams())`: one value per key, under its name. */
  function ToParams(q: map<QueryKey, string>): Params {
    KeyNamesDistinct();
    map k | k in q :: KeyName(k) := [q[k]]
  }

  /** The value sent under a key is what `params.get` finds under its name. */
  lemma GetSent(q: map<QueryKey, string>, k: QueryKey)
    ensures Get(ToParams(q), KeyName(k)) == if k in q then Some(q[k]) else None
  {
    KeyNamesDistinct();
  }

  /** A value sent under `key` is read back with `params.get(key) || ''`. */
  lemma ReadCarried(q: map<QueryKey, string>, key: QueryKey, value: string)
    requires Carries(q, key, value)
    ensures Or(Get(ToParams(q), KeyName(key)), "") == value
  {
    GetSent(q, key);
  }

  /** Reading a sent query back as a URL: each text filter comes back as sent,
      and the query text is `q` when that was sent and `keyword` otherwise. */
  lemma ReadSentText(q: map<QueryKey, string>, title: string, author: string, fullText: string,
                     keyword: string, query: string)
    requires Carries(q, Title, title) && Carries(q, Author, author)
    requires Carries(q, FullText, fullText) && Carries(q, Keyword, keyword) && Carries(q, Q, query)
    ensures var u := ReadUrl(ToParams(q));
      u.title == title && u.author == author && u.fullText == fullText && u.keyword == keyword
      && u.query == if query != "" then query else keyword
  {
    ReadCarried(q, Title, title);
    ReadCarried(q, Author, author);
    ReadCarried(q, FullText, fullText);
    ReadCarried(q, Keyword, keyword);
    ReadCarried(q, Q, query);
  }

  /** Reading a sent query back as a URL: there is never a `sortFactor`, and
      the types come back as the one value sent under `type`. */
  lemma ReadSentSortAndTypes(q: map<QueryKey, string>)
    ensures var u := ReadUrl(ToParams(q));
      u.sortFactor == "author" && u.types == if Type in q then [q[Type]] else []
  {
    GetSent(q, Type);
    assert forall k | k in q :: |KeyName(k)| != |"sortFactor"|;
    assert "sortFactor" !in ToParams(q);
  }

  /** Reading back the URL that a search pushes onto the history restores
      the text filters and the query text (the identifier filter is never
      read back). */
  lemma PushedUrlRestoresFilters(f: QueryFields)
    ensures var u := ReadUrl(ToParams(BuildQueryParams(f)));
      u.title == f.title && u.author == f.author && u.fullText == f.fullText
      && u.keyword == f.keyword
      && u.query == (if f.query != "" then f.query else f.keyword)
  {
    ReadSentText(BuildQueryParams(f), f.title, f.author, f.fullText, f.keyword,
                 if f.query != "" then f.query else f.keyword);
  }

  /** The sort order does not survive the pushed URL, because it goes out as
      `sort` and is read back from `sortFactor`; several types come back as
      one comma-joined value. */
  lemma PushedUrlLosesSortAndSplitsTypes(f: QueryFields)
    ensures var u := ReadUrl(ToParams(BuildQueryParams(f)));
      u.sortFactor == "author"
      && u.types == (if f.types == [] || f.types == [""] then [] else [JoinWith(",", f.types)])
  {
    ReadSentSortAndTypes(BuildQueryParams(f));
  }

  /** Reading back the pushed URL restores the offset and the page size. */
  lemma PushedUrlRestoresPaging(f: QueryFields)
    requires f.size != 0
    ensures var u := ReadUrl(ToParams(BuildQueryParams(f)));
      u.from == f.from && u.size == f.size
  {
    var q := BuildQueryParams(f);
    NumberTextRoundTrip(f.from);
    NumberTextRoundTrip(f.size);
    GetSent(q, From);
    GetSent(q, Size);
    NumberOrCases(Get(ToParams(q), "from"), 0);
    NumberOrCases(Get(ToParams(q), "size"), 25);
  }

  // ---------------------------------------------------------------------------
  // The search state

  class SearchState {
    var totalResults: nat
    var currentPage: int
    var from: int
    var size: int
    var lang: string
    var searchType: string
    var sortFactor: string
    var isLoading: bool
    var author: string
    var fullText: string
    var query: string
    var keyword: string
    var idno: string
    var title: string
    var types: seq<string>

    /** The page size is never 0, so the page count is always defined. */
    ghost predicate Valid()
      reads this
    {
      size != 0
    }

    /** The state when the script loads. */
    constructor ()
      ensures Valid()
      ensures totalResults == 0 && currentPage == 1 && from == 0 && size == 25
      ensures lang == "" && searchType == "" && sortFactor == "" && !isLoading
      ensures author == "" && fullText == "" && query == "" && keyword == ""
      ensures idno == "" && title == "" && types == []
    {
      totalResults, currentPage, from, size := 0, 1, 0, 25;
      lang, searchType, sortFactor, isLoading := "", "", "", false;
      author, fullText, query, keyword := "", "", "", "";
      idno, title, types := "", "", [];
    }

    /** The fields `buildQueryParams` reads. */
    function Filters(): QueryFields
      reads this`from, this`size, this`sortFactor, this`query, this`author
      reads this`fullText, this`idno, this`title, this`types, this`keyword
    {
      QueryFields(from, size, sortFactor, query, author, fullText, idno, title, types, keyword)
    }

    /** `buildQueryParams()` on the current state. */
    function QueryParams(): map<QueryKey, string>
      reads this`from, this`size, this`sortFactor, this`query, this`author
      reads this`fullText, this`idno, this`title, this`types, this`keyword
    {
      BuildQueryParams(Filters())
    }

    /** The fetch guard: while a request is outstanding nothing happens;
        otherwise the state is marked loading and the request is returned. */
    method BeginFetch() returns (request: Option<Params>)
      modifies this`isLoading
      ensures isLoading
      ensures old(isLoading) ==> request == None
      ensures !old(isLoading) ==> request == Some(ToParams(QueryParams()))
    {
      if isLoading {
        return None;
      }
      isLoading := true;
      request := Some(ToParams(QueryParams()));
    }

    /** The buttons `displayResultsInfo` leaves in the pagination
        containers: none when one page holds every result, otherwise those of
        `renderPagination`. */
    method PaginationFor(total: nat) returns (buttons: seq<PageButton>)
      requires Valid()
      ensures ShowsPages(buttons, total, size, currentPage)
    {
      buttons := [];
      if total > size {
        buttons := RenderPagination(total, size, currentPage);
      }
    }

    /** The primary reply's handlers of `fetchAndRenderAdvancedSearchResults`
        and its `finally`: `reply` answers `request`. The loading flag is
        cleared and `pushed` is the query the browser history records. When
        the reported total is the 10,000 cap, the count request
        `countRequest` is sent and nothing waits for it: its reply is handled
        later by CompleteCount, after the flag is already cleared. Until then the
        results are cleared and pagination is drawn from the total of the
        previous search. */
    method CompleteFetch(request: Params, reply: Reply<SearchReply>, origin: string)
      returns (shown: Shown, pushed: Params, countRequest: Option<Params>)
      requires Valid()
      modifies this`totalResults, this`isLoading
      ensures !isLoading
      ensures pushed == request
      ensures countRequest.Some? <==> reply.Received? && ReportedTotal(reply.body) == 10000
      ensures countRequest.Some? ==> countRequest.value == CountRequest(request)
      ensures reply.Failed? ==>
        totalResults == old(totalResults) && shown == Shown(None, None, ErrorMessage)
      ensures countRequest.Some? ==>
        totalResults == old(totalResults) && shown.info == None && shown.results == Cleared
        && (totalResults <= size ==> shown.pages == None)
        && (totalResults > size ==> shown.pages.Some? && ShowsPages(shown.pages.value, totalResults, size, currentPage))
      ensures reply.Received? && countRequest.None? ==>
        totalResults == ReportedTotal(reply.body)
        && shown.info == Some(totalResults)
        && shown.pages.Some? && ShowsPages(shown.pages.value, totalResults, size, currentPage)
        && (reply.body.total.None? ==> shown.results == ErrorMessage)
        && (reply.body.total.Some? ==> shown.results == ResultsFor(reply.body.hits, origin))
    {
      countRequest := None;
      match reply {
        case Failed =>
          shown := Shown(None, None, ErrorMessage);
        case Received(data) =>
          var defaultHitCount := ReportedTotal(data);
          if defaultHitCount == 10000 {
            countRequest := Some(CountRequest(request));
            var pages := None;
            if totalResults > size {
              var buttons := RenderPagination(totalResults, size, currentPage);
              pages := Some(buttons);
            }
            shown := Shown(None, pages, Cleared);
          } else {
            totalResults := defaultHitCount;
            var buttons := PaginationFor(totalResults);
            var results := if data.total.None? then ErrorMessage else ResultsFor(data.hits, origin);
            shown := Shown(Some(totalResults), Some(buttons), results);
          }
      }
      isLoading := false;
      pushed := request;
    }

    /** The handlers of the count request sent for a capped reply `data`:
        `countReply` is its answer. They run whenever that answer arrives,
        without consulting the loading flag, so they may overwrite the total
        and the page of a newer search. */
    method CompleteCount(data: SearchReply, countReply: Reply<Option<nat>>, origin: string)
      returns (shown: Shown)
      requires Valid()
      requires ReportedTotal(data) == 10000
      modifies this`totalResults
      ensures totalResults == ResolveTotal(10000, countReply)
      ensures shown.info == Some(totalResults)
      ensures shown.pages.Some? && ShowsPages(shown.pages.value, totalResults, size, currentPage)
      ensures shown.results == ResultsFor(data.hits, origin)
    {
      totalResults := ResolveTotal(10000, countReply);
      var buttons := PaginationFor(totalResults);
      shown := Shown(Some(totalResults), Some(buttons), ResultsFor(data.hits, origin));
    }

    /** `changePage`: move to `page` and request it. */
    method ChangePage(page: int) returns (request: Option<Params>)
      modifies this`currentPage, this`from, this`isLoading
      ensures currentPage == page && from == (page - 1) * size
      ensures isLoading
      ensures old(isLoading) ==> request == None
      ensures !old(isLoading) ==> request == Some(ToParams(QueryParams()))
    {
      currentPage := page;
      from := (page - 1) * size;
      request := BeginFetch();
    }

    /** `resetState`: every field but `searchType` goes back to its default. */
    method ResetState()
      modifies this
      ensures Valid()
      ensures from == 0 && size == 25 && query == "" && sortFactor == "" && !isLoading
      ensures totalResults == 0 && currentPage == 1 && lang == "en" && keyword == ""
      ensures fullText == "" && types == [] && title == "" && author == "" && idno == ""
      ensures searchType == old(searchType)
    {
      ResetPaging();
      ResetFilters();
    }

    /** The first half of `resetState`: offset, size, query, sort order,
        loading flag, total and page. */
    method ResetPaging()
      modifies this`from, this`size, this`query, this`sortFactor, this`isLoading,
        this`totalResults, this`currentPage
      ensures from == 0 && size == 25 && query == "" && sortFactor == "" && !isLoading
      ensures totalResults == 0 && currentPage == 1
    {
      from, size, query, sortFactor, isLoading := 0, 25, "", "", false;
      totalResults, currentPage := 0, 1;
    }

    /** The second half of `resetState`: language and filters. */
    method ResetFilters()
      modifies this`lang, this`keyword, this`fullText, this`types, this`title, this`author, this`idno
      ensures lang == "en" && keyword == ""
      ensures fullText == "" && types == [] && title == "" && author == "" && idno == ""
    {
      lang, keyword := "en", "";
      fullText, types, title, author, idno := "", [], "", "", "";
    }

    /** `updateStateFromForm`: copy the form fields into the state and go
        back to the first result. The current page number and the query
        taken from the URL are left as they were. */
    method UpdateStateFromForm(form: Params)
      modifies this`fullText, this`types, this`from, this`keyword, this`title, this`author, this`idno
      ensures fullText == Or(Get(form, "fullText"), "")
      ensures types == GetAll(form, "type")
      ensures from == 0
      ensures keyword == Or(Get(form, "keyword"), "")
      ensures title == Or(Get(form, "title"), "")
      ensures author == Or(Get(form, "author"), "")
      ensures idno == Or(Get(form, "idnoText"), "")
    {
      fullText := Or(Get(form, "fullText"), "");
      types := GetAll(form, "type");
      from := 0;
      keyword := Or(Get(form, "keyword"), "");
      title := Or(Get(form, "title"), "");
      author := Or(Get(form, "author"), "");
      idno := Or(Get(form, "idnoText"), "");
    }

    /** `initializeStateFromURL`: read the page URL into the state and, when
        it carries a keyword, start a search. */
    method InitializeStateFromUrl(url: Params) returns (request: Option<Params>)
      modifies this
      ensures Valid()
      ensures var u := ReadUrl(url);
        lang == u.lang && query == u.query && searchType == u.searchType && from == u.from
        && size == u.size && title == u.title && author == u.author && keyword == u.keyword
        && sortFactor == u.sortFactor && fullText == u.fullText && types == u.types
      ensures totalResults == old(totalResults) && currentPage == old(currentPage) && idno == old(idno)
      ensures keyword == "" ==> request == None && isLoading == old(isLoading)
      ensures keyword != "" ==>
        isLoading && request == if old(isLoading) then None else Some(ToParams(QueryParams()))
    {
      request := ApplyUrl(ReadUrl(url));
    }

    /** The body of `initializeStateFromURL` once the URL has been read into
        `u`. */
    method ApplyUrl(u: UrlState) returns (request: Option<Params>)
      requires u.size != 0
      modifies this
      ensures Valid()
      ensures lang == u.lang && query == u.query && searchType == u.searchType && from == u.from
        && size == u.size && title == u.title && author == u.author && keyword == u.keyword
        && sortFactor == u.sortFactor && fullText == u.fullText && types == u.types
      ensures totalResults == old(totalResults) && currentPage == old(currentPage) && idno == old(idno)
      ensures keyword == "" ==> request == None && isLoading == old(isLoading)
      ensures keyword != "" ==>
        isLoading && request == if old(isLoading) then None else Some(ToParams(QueryParams()))
    {
      ReadPaging(u);
      ReadFilters(u);
      request := None;
      if keyword != "" {
        request := BeginFetch();
      }
    }

    /** The language, query, search type, offset and size read from the URL. */
    method ReadPaging(u: UrlState)
      requires u.size != 0
      modifies this`lang, this`query, this`searchType, this`from, this`size
      ensures Valid()
      ensures lang == u.lang && query == u.query && searchType == u.searchType
      ensures from == u.from && size == u.size
    {
      lang := u.lang;
      query := u.query;
      searchType := u.searchType;
      from := u.from;
      size := u.size;
    }

    /** The filters read from the URL. */
    method ReadFilters(u: UrlState)
      modifies this`title, this`author, this`keyword, this`sortFactor, this`fullText, this`types
      ensures title == u.title && author == u.author && keyword == u.keyword
      ensures sortFactor == u.sortFactor && fullText == u.fullText && types == u.types
    {
      title := u.title;
      author := u.author;
      keyword := u.keyword;
      sortFactor := u.sortFactor;
      fullText := u.fullText;
      types := u.types;
    }
  }

}

# Hugoye search client and article build scripts, in Dafny

This project models the deterministic core of the Hugoye journal site: Beth
Mardutho's open-access journal of Syriac studies, published as static HTML
with an OpenSearch-backed search page. It also proves properties of that core.
The model has three parts:

- **The search page** (`resources/js/search.js`, module `Search` in
  `search.dfy`):
  - The page-wide `state` record is a class, `SearchState`. Its methods model
    `changePage`, `resetState`, `updateStateFromForm` and
    `initializeStateFromURL`.
  - The fetch pipeline has three steps. `BeginFetch` is the re-entrancy guard
    and sets `isLoading`. `CompleteFetch` is the primary reply's handlers and
    the `finally`. `CompleteCount` is the handlers of the count request that a
    capped total sends. Replies come in as parameters.
  - Also modelled: the query builder `buildQueryParams`, the total-count
    resolution around the 10,000 cap, and the pagination window with its
    button loop.
  - Also modelled: the title clean-up `cleanDisplayData`, the rewrite of an
    `idno` into a detail-page URL, and the URL read-back that makes
    back/forward navigation work.
- **The bulk-index builder** (`json_for_opensearch.py`, module `BulkIndex` in
  `bulk_index.dfy`):
  - JSON values are a datatype.
  - Modelled functions: `coerce_list`, `normalize_record` (a field whitelist
    plus empty-value stripping), `last_segment_from_idno`, `pick_doc_id` and
    `make_action`.
- **The TEI-to-HTML builder** (`xml_to_html.py`, module `TeiHtml` in
  `tei_html.dfy`):
  - PDF text is dehyphenated, whitespace-collapsed and split into paragraphs
    by a loop over its lines.
  - Also modelled: the PDF transcript block, placeholder detection, the
    body-paragraph filter loop of `main`, and `${key}` template substitution.
  - Also modelled: the table-of-contents links, the choice of PDF embed, and
    the field escaper `t`.

The string primitives the three sources lean on are in module `Text`
(`text.dfy`). These are Python's `strip`, `split`, `splitlines`, `join`,
`lower`, `replace` and `html.escape`, and JavaScript's `trim`, `join` and
`replace`. Their general facts are in `TextFacts` (`text_facts.dfy`). `Option`
is in `wrappers.dfy`.

Browser I/O is not modelled: fetch, the DOM, `history.pushState`. Replies come
in as parameters. What the page would show comes out as values (`Shown`, page
buttons, result items), and the URL pushed comes out as a parameter map.
`URLSearchParams` and `FormData` are a map from key to the list of its values.

Behaviour of the code that the model keeps:

- `cleanDisplayData("«Title,»,")` is `"Title,»"`. The trailing
  guillemets are removed before the trailing commas, so a `»` in front of a
  comma survives (`CleanDisplayDataExample`).
- `from == (currentPage - 1) * size` is not an invariant of the state.
  `updateStateFromForm` resets `from` to 0 but leaves `currentPage`
  (`UpdateStateFromForm`), and a URL can set `from` and `size` freely.
- The count request of a capped search is not awaited. The `finally` clears
  `isLoading` and pushes the URL while the count request is still pending;
  meanwhile the results are empty and the pagination is that of the previous
  total (`CompleteFetch`). The count reply's handlers do not check
  `isLoading`, so a late count reply overwrites the total of any search
  started since (`CompleteCount`).
- The URL pushed after a search writes the sort order under `sort`. The URL
  reader looks for `sortFactor`, so the sort order does not survive a reload
  (`PushedUrlLosesSortAndSplitsTypes`). The types come back as one
  comma-joined value, and `idno` is never read back.

## Model

| member | source | states |
|---|---|---|
| Search.Digits | resources/js/search.js:32 | the decimal text of a natural number is non-empty and all digits |
| Search.NumberText | resources/js/search.js:366-368 | the text a number becomes in the query string is never empty |
| Search.NumberOr | resources/js/search.js:200-201 | `Number(x) \|\| fallback` is never 0 when the fallback is not 0 |
| Search.NumberOrCases | resources/js/search.js:200-201 | a missing value, a non-number and 0 all give the fallback; any other number is taken as it is |
| Search.DigitsRoundTrip | resources/js/search.js:200-201 | reading back the digits written for n gives n |
| Search.NumberTextRoundTrip | resources/js/search.js:200-201 | `Number(String(n)) == n` for every integer n |
| Search.ParseUnpadded | resources/js/search.js:200-201 | on text without surrounding whitespace, `Number` is the plain integer parse |
| Search.ParseNegative | resources/js/search.js:200-201 | `-` followed by digits parses to the negated value |
| Search.ParseSigned | resources/js/search.js:200-201 | a text starting with `-` followed by digits parses to minus the digits' value |
| Search.TotalPages | resources/js/search.js:457 | with a positive page size the page count is the ceiling of total / size; a negative size gives no pages |
| Search.PageWindow | resources/js/search.js:460-467 | the window lies in [1, totalPages]; it is min(5, totalPages) wide, holds the current page and is centred on it away from the ends |
| Search.TenPageWindows | resources/js/search.js:460-467 | with 10 pages: page 1 shows 1-5, page 5 shows 3-7, page 10 shows 6-10 |
| Search.RenderPagination | resources/js/search.js:456-480 | one button per page of the window, in order; only the current page's button is active |
| Search.ResolveTotal | resources/js/search.js:41-63 | a reported total other than 10000 is used as it is; at exactly 10000 the count reply's non-zero count is used, and a missing or zero count or a failed count request keeps 10000 |
| Search.DropLeadingGuillemets | resources/js/search.js:162 | the result is a suffix of the input, does not start with `«`, and every character removed is `«` |
| Search.DropTrailing | resources/js/search.js:163-164 | the result is a prefix of the input, does not end with the given character (`»`, or `,`), and every character removed is that character |
| Search.DropTrailingCommaRun | resources/js/search.js:164 | the result is a prefix of the input and every character removed is a comma or whitespace; the input changes exactly when its last non-whitespace character is a comma, and then every comma of that run and the whitespace after it go |
| Search.CleanDisplayData | resources/js/search.js:160-166 | the cleaned title is a contiguous substring of the input with no whitespace at either end; everything before it is `«` or whitespace and everything after it is `»`, `,` or whitespace |
| Search.CleanedEnds | resources/js/search.js:160-166 | what the four clean-up steps remove from the front is `«` or whitespace, and from the back `»`, `,` or whitespace |
| Search.CleanDisplayDataKeepsPlainTitles | resources/js/search.js:160-166 | a trimmed title without `«`, `»` or `,` comes back unchanged |
| Search.CleanDisplayDataExample | resources/js/search.js:160-166 | `"«Title,»,"` becomes `"Title,»"` |
| Search.DetailUrl | resources/js/search.js:122-125 | the detail link always ends in `.html` |
| Search.DetailUrlOfCanonicalIdno | resources/js/search.js:124-125 | an idno under the canonical origin is moved to the page's own origin, with `.html` appended |
| Search.DetailUrlOfOtherIdno | resources/js/search.js:124-125 | an idno that does not mention the canonical origin is only given `.html` |
| Search.ResultItemFor | resources/js/search.js:107-135 | the title is the cleaned display title, or "No title available" when that is empty; the type and the byline are shown exactly when they are not blank; the link is the detail URL of the idno |
| Search.TitleFor | resources/js/search.js:107-110 | the title is the cleaned display title when that is not empty, else "No title available"; it is never empty |
| Search.UnlessBlank | resources/js/search.js:126-127 | a type or byline is shown exactly when it is not blank, and then as it is |
| Search.ResultsFor | resources/js/search.js:102-158 | no hits give the "No results found." message; otherwise entry i is the entry of hit i |
| Search.CountRequest | resources/js/search.js:33-34 | the count request is the search request with `searchType` set to `count` and every other key unchanged |
| Search.ReadUrl | resources/js/search.js:193-210 | the size read from a URL is never 0, language is `lang`, else `en`, sort order is `sortFactor`, else `author`, the query is `q`, else `keyword`, else empty, and the keyword is `keyword` |
| Search.ReadEmptyUrl | resources/js/search.js:197-210 | an empty URL gives language `en`, from 0, size 25, sort order `author` and empty filters |
| Search.ReadUrlNumberDefaults | resources/js/search.js:200-201 | a missing, non-numeric or zero `from`/`size` reads as 0/25 |
| Search.BuildQueryParams | resources/js/search.js:365-383 | no key carries an empty value; `from` and `size` are always present; `q` is the query, else the keyword; `type` is the comma-join of the types and is present exactly when that is non-empty; every other key carries its field |
| Search.JoinEmptyIff | resources/js/search.js:376 | the comma-join of the types is empty exactly for no types or one empty type |
| Search.KeyNamesDistinct | resources/js/search.js:366-379 | the ten query keys have distinct names |
| Search.GetSent | resources/js/search.js:32 | the sent query string holds exactly the built keys, with their values |
| Search.ReadCarried | resources/js/search.js:205-209 | a value carried by the built parameters is read back by the URL reader's `get(...) \|\| ''` |
| Search.ReadSentText | resources/js/search.js:198-209 | title, author, full text, keyword and query carried in a URL are restored by the reader |
| Search.ReadSentSortAndTypes | resources/js/search.js:208-210 | a pushed URL always reads back sort order `author`, and at most one type value |
| Search.PushedUrlRestoresFilters | resources/js/search.js:193-214 | reloading the URL pushed after a search restores title, author, full text and keyword; the query comes back as the query, else the keyword |
| Search.PushedUrlLosesSortAndSplitsTypes | resources/js/search.js:208-210 | reloading the pushed URL resets the sort order to `author` and gives the types back as one comma-joined value |
| Search.PushedUrlRestoresPaging | resources/js/search.js:200-201 | reloading the pushed URL restores `from` and a non-zero `size` |
| Search.SearchState.constructor | resources/js/search.js:1-23 | the initial state: page 1, from 0, size 25, nothing loading, every text field empty, no types |
| Search.SearchState.BeginFetch | resources/js/search.js:28-34 | a call while loading sends nothing; otherwise it sets `isLoading` and sends the built query parameters |
| Search.SearchState.PaginationFor | resources/js/search.js:184-190 | no buttons when the total fits one page, else the window of pages in order with only the current page active |
| Search.SearchState.CompleteFetch | resources/js/search.js:36-76 | every outcome clears `isLoading` and pushes the request URL; a failed request shows only the error message and keeps the total; a capped reply sends the count request, which is the search's own parameters with `searchType` set to `count`, keeps the total, empties the results and draws the old total's pagination; any other reply sets its total, shows it and its pagination window, and shows the results, or the error message when the reply has no total |
| Search.SearchState.CompleteCount | resources/js/search.js:45-57 | the count reply sets the total to the count, else 10,000, without consulting `isLoading`, and shows that total, its pagination window and the capped reply's results |
| Search.SearchState.ChangePage | resources/js/search.js:448-452 | sets the page and `from = (page - 1) * size`, changes no filter, then starts a fetch under the loading guard |
| Search.SearchState.ResetState | resources/js/search.js:405-424 | every field gets its reset value (size 25, page 1, language `en`, empty texts, no types, not loading); only `searchType` keeps its value |
| Search.SearchState.ResetPaging | resources/js/search.js:406-412 | the paging half of the reset |
| Search.SearchState.ResetFilters | resources/js/search.js:414-421 | the filter half of the reset |
| Search.SearchState.UpdateStateFromForm | resources/js/search.js:349-362 | each filter takes its form value or `''`, the types take all `type` values, the idno comes from `idnoText`; `from` becomes 0 and `currentPage` is left alone |
| Search.SearchState.InitializeStateFromUrl | resources/js/search.js:193-214 | the state takes the URL's values with their defaults; totals, page and idno are kept; a search is started exactly when a keyword is present |
| Search.SearchState.ApplyUrl | resources/js/search.js:196-214 | the state takes every value read from the URL; totals, page and idno are kept; a search is started exactly when the keyword is not empty, under the loading guard |
| Search.SearchState.ReadPaging | resources/js/search.js:197-201 | language, query, search type, from and size are taken from the URL |
| Search.SearchState.ReadFilters | resources/js/search.js:205-210 | title, author, keyword, sort order, full text and types are taken from the URL |
| BulkIndex.CoerceList | json_for_opensearch.py:25-30 | null gives [], a list is kept as it is, any other value becomes a one-element list |
| BulkIndex.CoerceListIdempotent | json_for_opensearch.py:25-30 | applying `coerce_list` twice equals applying it once |
| BulkIndex.NormalizeRecord | json_for_opensearch.py:32-57 | only the six whitelisted fields appear and none holds null, `[]` or `""`; title and author are non-empty lists of the coerced values; the other four fields are copied when not empty |
| BulkIndex.ToObject | json_for_opensearch.py:41-57 | the normalised document as a JSON object holds exactly its fields under their names |
| BulkIndex.FieldOfObject | json_for_opensearch.py:41-57 | reading a field from that object gives the field's value, or null |
| BulkIndex.NormalizeFieldAgain | json_for_opensearch.py:41-57 | on a normalised document, each field is read back unchanged and each missing one reads back empty |
| BulkIndex.NormalizedFieldAgain | json_for_opensearch.py:32-57 | normalising a normalised document keeps each field and its value |
| BulkIndex.NormalizeNormalRecord | json_for_opensearch.py:32-57 | a document with no empty values and list-valued title/author is a fixed point of `normalize_record` |
| BulkIndex.NormalizeIdempotent | json_for_opensearch.py:32-57 | `normalize_record` applied to its own output changes nothing |
| BulkIndex.Sanitize | json_for_opensearch.py:72 | the length is kept, each character outside `[A-Za-z0-9._-]` becomes exactly one `-`, and the others are kept |
| BulkIndex.LastPathSegment | json_for_opensearch.py:89-93 | the segment taken from a path never holds a `/`, and it is empty exactly when the path is nothing but slashes (the case that sends `last_segment_from_idno` to its fallback) |
| BulkIndex.LastSegmentIgnoresTrailingSlash | json_for_opensearch.py:89-93 | a trailing `/` does not change the last segment |
| BulkIndex.LastSegmentAfterSlash | json_for_opensearch.py:89-93 | the segment after the last `/` is the one taken |
| BulkIndex.BareSegment | json_for_opensearch.py:89-93 | a non-empty path without slashes is its own segment |
| BulkIndex.BareArticleId | json_for_opensearch.py:80 | `hv10n2prkitchen1` gives itself |
| BulkIndex.ArticlePaths | json_for_opensearch.py:78-79 | `/article/<id>` gives `<id>` for every slash-free identifier, with or without a trailing slash |
| BulkIndex.LastSegmentFromIdno | json_for_opensearch.py:74-103 | a missing, non-string or empty idno gives none; a result is never empty and uses only safe characters; it is the sanitised last path segment, else the sanitised stripped idno, and none when both are empty |
| BulkIndex.IdnoOfArticleUrl | json_for_opensearch.py:74-103 | an article URL with or without a trailing slash gives its last segment as the id |
| BulkIndex.PickDocId | json_for_opensearch.py:106-115 | the id is the idno segment when there is one, else the SHA-1 of the fallback; a segment id is non-empty and safe |
| BulkIndex.MakeAction | json_for_opensearch.py:59-60 | the action targets the given index and document id |
| BulkIndex.MakeActionShape | json_for_opensearch.py:59-60 | the action is `{"index": {"_index", "_id"}}` and has no other keys |
| TeiHtml.DehyphenateDeletesBreaks | xml_to_html.py:63 | dehyphenation deletes the non-overlapping `-\n` found left to right and keeps everything between them |
| TeiHtml.DehyphenateWithoutBreaks | xml_to_html.py:63 | text without `-\n` is unchanged |
| TeiHtml.DehyphenateOnePass | xml_to_html.py:63 | one pass can form a new break: `--\n\n` becomes `-\n` |
| TeiHtml.CollapseLineNormal | xml_to_html.py:65 | a collapsed line has the same words, single spaces, nothing at either end, and collapsing again changes nothing |
| TeiHtml.CollapseAll | xml_to_html.py:65 | one collapsed line per input line |
| TeiHtml.NormalizedLinesSingleSpaced | xml_to_html.py:65 | every normalised line is single-spaced with no whitespace at its ends |
| TeiHtml.StripAll | xml_to_html.py:75 | each buffered line is the stripped input line: it has no whitespace at either end, and it is empty exactly when the input line is blank |
| TeiHtml.StripAllSnoc | xml_to_html.py:75 | stripping one more buffered line appends its strip |
| TeiHtml.ParasOf | xml_to_html.py:72 | one paragraph per run, in order |
| TeiHtml.ParasOfAppend | xml_to_html.py:68-77 | the paragraphs of two groups of runs are those of the first, then those of the second |
| TeiHtml.ParagraphsAreClosedAndFlushed | xml_to_html.py:68-77 | the paragraphs are those closed by a blank line plus the flushed final buffer |
| TeiHtml.ParagraphStepLine | xml_to_html.py:74-75 | a non-blank line closes no paragraph and adds its stripped text to the buffer |
| TeiHtml.ParagraphStepBlank | xml_to_html.py:70-73 | a blank line closes the buffered paragraph, if any, and empties the buffer |
| TeiHtml.ParagraphStep | xml_to_html.py:69-75 | line i either extends the open paragraph with its strip or, when blank, closes it and empties the buffer |
| TeiHtml.Paragraphize | xml_to_html.py:68-77 | the loop yields exactly the maximal runs of non-blank lines, each joined by single spaces and stripped, in order |
| TeiHtml.ParaShape | xml_to_html.py:72 | a paragraph built from newline-free lines that start non-blank is non-empty and newline-free |
| TeiHtml.ParagraphsShape | xml_to_html.py:68-77 | every paragraph is non-empty and holds no line break |
| TeiHtml.ParagraphsExample | xml_to_html.py:68-77 | lines `a`, `b`, ``, `c` give paragraphs `a b` and `c` |
| TeiHtml.ExampleRuns | xml_to_html.py:68-77 | those lines form the runs [`a`, `b`] and [`c`] |
| TeiHtml.ExampleParas | xml_to_html.py:72 | those runs give `a b` and `c` |
| TeiHtml.PdfParagraphs | xml_to_html.py:83-84 | one escaped `<p>` per paragraph, in order |
| TeiHtml.PdfBlock | xml_to_html.py:79-86 | the block is empty exactly when there are no paragraphs |
| TeiHtml.PdfBlockShape | xml_to_html.py:82-86 | a non-empty block opens with the transcript div and its heading and closes with `</div>` |
| TeiHtml.ExtractPdfHtml | xml_to_html.py:58-86 | no PDF or blank text gives `""`; otherwise the block of the paragraphs of the dehyphenated, normalised text |
| TeiHtml.LooksLikePlaceholder | xml_to_html.py:398-404 | a missing or empty text is no placeholder |
| TeiHtml.PlaceholderDependsOnlyOnWords | xml_to_html.py:400-404 | texts with the same lower-cased words are judged alike |
| TeiHtml.PlaceholderIgnoresCase | xml_to_html.py:400 | lower-casing the text does not change the verdict |
| TeiHtml.PlaceholderIgnoresSpacing | xml_to_html.py:400 | collapsing whitespace runs does not change the verdict |
| TeiHtml.PlaceholderFromWords | xml_to_html.py:398-404 | any spacing and casing of "PDF coming soon" is a placeholder |
| TeiHtml.PdfComingSoonWords | xml_to_html.py:402 | the words "pdf", "coming", "soon" joined by spaces are the phrase the placeholder test looks for |
| TeiHtml.BodyParagraph | xml_to_html.py:454-457 | the two branches agree: an empty text gives the same element as escaping it |
| TeiHtml.KeptOne | xml_to_html.py:451-457 | a placeholder contributes nothing, any other text exactly one element |
| TeiHtml.KeptLength | xml_to_html.py:449-457 | the body has as many elements as texts minus placeholders |
| TeiHtml.PlaceholderCountZero | xml_to_html.py:451-452 | no placeholder is counted exactly when no text is a placeholder |
| TeiHtml.BodyStep | xml_to_html.py:449-457 | one more text appends its element, and sets the flag exactly when it is a placeholder |
| TeiHtml.BodyParagraphs | xml_to_html.py:447-457 | the loop keeps the elements of the non-placeholders in order, and `placeholder_hit` is set exactly when some text is a placeholder |
| TeiHtml.Slot | xml_to_html.py:395 | a slot starts with `$` and ends with `}` |
| TeiHtml.RenderHtml | xml_to_html.py:392-396 | the loop substitutes the keys one after another, in the data's order |
| TeiHtml.RenderOneKey | xml_to_html.py:395 | one key replaces every non-overlapping `${key}` of the template by its value and nothing else |
| TeiHtml.RenderFollowsOrder | xml_to_html.py:394-395 | a value that holds `${b}` is filled by a later key `b` |
| TeiHtml.SlotsDisjoint | xml_to_html.py:395 | slots of two different plain keys never overlap |
| TeiHtml.SlotChars | xml_to_html.py:395 | a plain key's slot has `$` only first and `}` only last |
| TeiHtml.AbsentKeySurvives | xml_to_html.py:392-396 | the slot of a key missing from the data stays in the output |
| TeiHtml.Slug | xml_to_html.py:131 | an anchor never holds whitespace |
| TeiHtml.SlugIgnoresCaseAndSpacing | xml_to_html.py:131 | headings with the same lower-cased words get the same anchor |
| TeiHtml.TocItem | xml_to_html.py:131-132 | a heading link opens with `<a` |
| TeiHtml.HeadItem | xml_to_html.py:124-132 | a blank heading gives no link; any other heading gives one anchor |
| TeiHtml.TocItems | xml_to_html.py:121-137 | the heading links come first in order, and the bibliography link is last when there is one |
| TeiHtml.HeadItemsEmpty | xml_to_html.py:124-128 | no heading link is made exactly when every heading is blank |
| TeiHtml.HeadItemFirst | xml_to_html.py:132 | the first heading link is an anchor |
| TeiHtml.TocFallback | xml_to_html.py:139-143 | the "No sections" note appears exactly when there is no bibliography and every heading is blank |
| TeiHtml.AnchorsAreNotTheNote | xml_to_html.py:140-143 | links starting with an anchor never join into the "No sections" note |
| TeiHtml.BuildTocLinks | xml_to_html.py:114-143 | the loop builds the heading links, the bibliography link and the fallback note as `TocLinks` describes |
| TeiHtml.HeadLinks | xml_to_html.py:121-132 | the heading loop yields exactly the links `HeadItems` gives, one per heading whose stripped label is not empty, in order |
| TeiHtml.HeadItemsStep | xml_to_html.py:125-132 | heading i adds its link exactly when its stripped label is not empty |
| TeiHtml.PdfEmbed | xml_to_html.py:88-112 | the embed is empty exactly when there is no local file and the URL is not http(s); a remote embed carries the viewer URL with `&` encoded |
| TeiHtml.LocalPdfWins | xml_to_html.py:94-101 | with a local file, the URL makes no difference |
| TeiHtml.ViewerUrlEncoded | xml_to_html.py:105 | after the rewrite every `&` of the URL starts `&amp;` |
| TeiHtml.EscapeField | xml_to_html.py:382 | a missing or empty value gives `""`; a value gives `""` exactly when blank; the result has no markup character |
| Text.Strip | xml_to_html.py:70 | the stripped text is a substring surrounded by whitespace, has no whitespace at either end, and is empty exactly for blank text |
| Text.Words | xml_to_html.py:65 | the words are non-empty and hold no whitespace |
| Text.SplitLines | xml_to_html.py:69 | no line holds a line break |
| Text.Lower | xml_to_html.py:131 | lower-casing keeps the length, leaves no upper-case ASCII letter, and changes no other character |
| Text.HtmlEscape | xml_to_html.py:84 | the escaped text holds none of `< > " '`, is empty exactly for empty text, and is the text itself when nothing needs escaping |
| TextFacts.SplitAllSeparators | json_for_opensearch.py:91 | cutting at separators leaves no non-empty piece exactly when every element is a separator |
| TextFacts.JoinSingleSpaced | xml_to_html.py:65 | words joined by single spaces form a single-spaced line |
| TextFacts.ReplaceAllIsJoinOfPieces | xml_to_html.py:63 | replacing a pattern is joining the pieces between its occurrences with the replacement |
| TextFacts.ReplaceAmpersands | xml_to_html.py:105 | after replacing `&` by `&amp;` every ampersand starts an `&amp;` |

## Left out

- Browser I/O in `resources/js/search.js` is not modelled:
  - `fetch` and the JSON parsing of replies; a reply is a parameter, and a network or parse failure is `Failed`.
  - DOM building: the model gives what would be shown as values.
  - `history.pushState`/`replaceState`, `setTimeout`, `scrollIntoView`, `console`, the event listeners, `clearUrl`, `runSearch` and the navbar redirect.
- The sort helpers `createSortDocumentResultButton` and `sortDocumentResultRequest` (resources/js/search.js:222-278) are not modelled. They depend on `localeCompare` and `Date` parsing and call a function this code does not define.
- The branch guarded by `author !== author` (resources/js/search.js:119) is dead code and is not modelled. The commented-out template is not modelled either.
- Search.SearchState.CompleteFetch: the primary reply and the count reply are separate steps (`CompleteFetch`, `CompleteCount`), but which of several pending replies arrives first is the caller's choice; no scheduler of the interleavings is modelled. Each step gives the page as it is once its handlers have run, so the second pagination drawing of an uncapped reply, identical to the first, is not shown separately.
- Search.Hit: the shown fields of a hit are strings or absent, and a reply with `hits.total` always has `hits.hits`. The model leaves out these throwing paths of `displayResults`:
  - a truthy non-string `type` or `author`, whose `.trim()` throws at resources/js/search.js:116 or 119, before the `typeof` tests of lines 126-127;
  - a truthy non-string `displayTitleEnglish`, whose `.replace` throws in `cleanDisplayData` (line 162);
  - a truthy non-string `idno`, whose `.replace` throws at line 124;
  - a reply with `hits.total` but no `hits.hits`, which throws at line 101.
  In the primary reply's handlers each of these replaces the results with the error message. In the count reply's handlers the throw reaches the count request's `catch`, which runs `displayResults` again and leaves the entries built before the failing hit.
- Search.NumberText: integers are unbounded, while JavaScript numbers are doubles, exact only up to 2^53; `NumberTextRoundTrip` holds for the model's integers and in JavaScript only for integers of magnitude at most 2^53.
- Search.NumberOr: models `Number(...)` only for blank text and for decimal digits with an optional sign and surrounding whitespace. Other forms (fractions, exponents, `0x`, `Infinity`) read as not-a-number and so as the default.
- Search.BuildQueryParams: the map has no key order. The order of the keys in the query string is not modelled.
- Search.RenderPagination: the page buttons carry their page number and active flag. The click handler is left out.
- The `$` patterns of JavaScript's `String.prototype.replace` are not modelled. The idno rewrite uses an origin with no `$` in it.
- Whitespace is the six ASCII whitespace characters, and case folding is ASCII only. Python's and JavaScript's full Unicode behaviour is not modelled.
- `splitlines` splits on `\n` only.
- JSON numbers are integers only; floating point is not modelled. A JSON object is a map, so key order is not modelled.
- SHA-1 (`sha1_id`) and `urlparse(...).path` are function parameters. Their workings are not modelled.
- The file loop of `json_for_opensearch.py`'s `main`, and its reading, gzip and writing, are I/O and are left out.
- In `xml_to_html.py` the model leaves out:
  - PDF text extraction (pdfminer/PyPDF2) and the download; the extracted text is a parameter;
  - XML parsing; heads and body paragraphs are lists of their already-joined texts;
  - `find_text`, `find_attr` and `parse_bibliography`; these are element-tree look-ups and are not part of this model;
  - `Path.exists`; a local file is an optional name;
  - the contents of `HTML_TEMPLATE`, the argument parsing and the file writes.
- TeiHtml.RenderHtml: keys are not restricted. A value or neighbouring text can form a new `${...}` slot that a later key fills; the model computes this but states it only through an example (`RenderFollowsOrder`).
- TeiHtml.LooksLikePlaceholder: its contract states only the empty cases. The phrase match itself is the definition, and the properties are proved as the lemmas beside it.

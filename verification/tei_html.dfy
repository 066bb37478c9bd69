/**
  The text shaping of the TEI-to-HTML converter: cleaning the text extracted
  from a PDF into paragraphs, detecting placeholder paragraphs, filtering the
  body paragraphs, filling the page template, building the table of contents
  and choosing how the PDF is embedded.

  The XML tree is replaced by the strings already read from it (the text of
  each paragraph, of each head), file existence by booleans and optional
  names, and PDF extraction by its resulting text.
*/
module TeiHtml {
  import opened Wrappers
  import opened Text
  import opened TextFacts

  // ---------------------------------------------------------------------------
  // Text extracted from a PDF

  /** `text.replace("-\n", "")`: a hyphen at the end of a line joins the
      word with the next line. */
  function Dehyphenate(text: string): string {
    ReplaceAll(text, "-\n", "")
  }

  /** Dehyphenation deletes the occurrences of "-\n" found left to right and
      keeps the text between them as it is. */
  lemma DehyphenateDeletesBreaks(text: string)
    ensures var pieces := Pieces(text, "-\n");
      text == JoinWith("-\n", pieces) && Dehyphenate(text) == Concat(pieces)
  {
    JoinPieces(text, "-\n");
    ReplaceAllIsJoinOfPieces(text, "-\n", "");
  }

  /** Text without a hyphen at a line end is kept. */
  lemma DehyphenateWithoutBreaks(text: string)
    requires !Contains(text, "-\n")
    ensures Dehyphenate(text) == text
  {
    ReplaceAllWithoutPattern(text, "-\n", "");
  }

  /** One pass only: deleting a break can bring a new one together. */
  lemma DehyphenateOnePass()
    ensures Dehyphenate("--\n\n") == "-\n"
  {
    assert ReplaceAll("\n", "-\n", "") == "\n";
    assert "-\n\n"[..2] == "-\n" && "-\n\n"[2..] == "\n";
    assert ReplaceAll("-\n\n", "-\n", "") == "\n";
    assert "--\n\n"[..2] == "--" && "--\n\n"[1..] == "-\n\n";
  }

  /** `" ".join(line.split())`: the words of a line separated by single spaces. */
  function CollapseLine(line: string): string {
    JoinWith(" ", Words(line))
  }

  /** A collapsed line keeps the words, is single-spaced, and collapsing it
      again changes nothing. */
  lemma CollapseLineNormal(line: string)
    ensures Words(CollapseLine(line)) == Words(line)
    ensures SingleSpaced(CollapseLine(line))
    ensures CollapseLine(CollapseLine(line)) == CollapseLine(line)
  {
    WordsOfJoin(Words(line));
    JoinSingleSpaced(Words(line));
  }

  function CollapseAll(lines: seq<string>): (r: seq<string>)
    ensures |r| == |lines|
  {
    seq(|lines|, i requires 0 <= i < |lines| => CollapseLine(lines[i]))
  }

  /** `"\n".join(" ".join(line.split()) for line in text.splitlines())`. */
  function NormalizeText(text: string): string {
    JoinWith("\n", CollapseAll(SplitLines(text)))
  }

  /** Every line of normalised text is single-spaced. */
  lemma NormalizedLinesSingleSpaced(text: string)
    ensures forall i | 0 <= i < |CollapseAll(SplitLines(text))| ::
      SingleSpaced(CollapseAll(SplitLines(text))[i])
  {
    var lines := SplitLines(text);
    forall i | 0 <= i < |lines| ensures SingleSpaced(CollapseAll(lines)[i]) {
      CollapseLineNormal(lines[i]);
    }
  }

  // ---------------------------------------------------------------------------
  // Paragraphs

  /** `ln.strip() == ""`. */
  predicate IsBlank(line: string) {
    AllSpace(line)
  }

  function StripAll(lines: seq<string>): (r: seq<string>)
    ensures |r| == |lines|
    ensures forall i | 0 <= i < |lines| :: r[i] == Strip(lines[i])
    ensures forall i | 0 <= i < |r| :: r[i] == [] || (!IsSpace(r[i][0]) && !IsSpace(r[i][|r[i]| - 1]))
    ensures forall i | 0 <= i < |lines| :: r[i] == [] <==> AllSpace(lines[i])
  {
    seq(|lines|, i requires 0 <= i < |lines| => Strip(lines[i]))
  }

  /** A run of lines as one paragraph: the stripped lines joined by spaces. */
  function Para(run: seq<string>): string {
    Strip(JoinWith(" ", StripAll(run)))
  }

  function ParasOf(runs: seq<seq<string>>): (r: seq<string>)
    ensures |r| == |runs|
    ensures forall i | 0 <= i < |runs| :: r[i] == Para(runs[i])
  {
    seq(|runs|, i requires 0 <= i < |runs| => Para(runs[i]))
  }

  /** The paragraphs of a text: one per maximal run of non-blank lines, in
      order. The runs are the non-empty pieces left when the lines are cut at
      every blank line. */
  function Paragraphs(lines: seq<string>): seq<string> {
    ParasOf(NonEmpty(Split(lines, IsBlank)))
  }

  lemma ParasOfAppend(a: seq<seq<string>>, b: seq<seq<string>>)
    ensures ParasOf(a + b) == ParasOf(a) + ParasOf(b)
  {
    assert forall i | 0 <= i < |a + b| :: (a + b)[i] == if i < |a| then a[i] else b[i - |a|];
  }

  /** The paragraphs closed by the blank lines seen so far. */
  ghost function Closed(lines: seq<string>): seq<string> {
    var parts := Split(lines, IsBlank);
    ParasOf(NonEmpty(parts[..|parts| - 1]))
  }

  /** The stripped lines after the last blank line, not yet a paragraph. */
  ghost function Open(lines: seq<string>): seq<string> {
    var parts := Split(lines, IsBlank);
    StripAll(parts[|parts| - 1])
  }

  /** What the end of the text adds to the closed paragraphs. */
  function Flush(buf: seq<string>): seq<string> {
    if buf == [] then [] else [Strip(JoinWith(" ", buf))]
  }

  lemma ParagraphsAreClosedAndFlushed(lines: seq<string>)
    ensures Paragraphs(lines) == Closed(lines) + Flush(Open(lines))
  {
    var parts := Split(lines, IsBlank);
    var n := |parts|;
    var last := parts[n - 1];
    assert parts == parts[..n - 1] + [last];
    NonEmptyAppend(parts[..n - 1], [last]);
    assert NonEmpty([last]) == (if |last| == 0 then [] else [last]) + NonEmpty([last][1..]);
    ParasOfAppend(NonEmpty(parts[..n - 1]), NonEmpty([last]));
  }

  lemma ParagraphStepLine(lines: seq<string>, ln: string)
    requires !IsBlank(ln)
    ensures Closed(lines + [ln]) == Closed(lines)
    ensures Open(lines + [ln]) == Open(lines) + [Strip(ln)]
  {
    var p := Split(lines, IsBlank);
    var n := |p|;
    SplitSnoc(lines, ln, IsBlank);
    var q := Split(lines + [ln], IsBlank);
    assert q == p[..n - 1] + [p[n - 1] + [ln]];
    assert q[..n - 1] == p[..n - 1];
    assert q[n - 1] == p[n - 1] + [ln];
    StripAllSnoc(p[n - 1], ln);
  }

  /** Stripping one more line appends its strip. */
  lemma StripAllSnoc(run: seq<string>, ln: string)
    ensures StripAll(run + [ln]) == StripAll(run) + [Strip(ln)]
  {
    var a := StripAll(run + [ln]);
    var b := StripAll(run) + [Strip(ln)];
    assert |a| == |b|;
    forall i | 0 <= i < |a| ensures a[i] == b[i] {
      assert (run + [ln])[i] == if i < |run| then run[i] else ln;
    }
  }

  lemma ParagraphStepBlank(lines: seq<string>, ln: string)
    requires IsBlank(ln)
    ensures Closed(lines + [ln]) == Closed(lines) + Flush(Open(lines))
    ensures Open(lines + [ln]) == []
  {
    var p := Split(lines, IsBlank);
    SplitSnocSeparator(lines, ln, IsBlank);
    var q := Split(lines + [ln], IsBlank);
    assert q[..|q| - 1] == p;
    ParagraphsAreClosedAndFlushed(lines);
  }

  /** Line `i` of the text, after the lines before it. */
  lemma ParagraphStep(lines: seq<string>, i: nat)
    requires i < |lines|
    ensures IsBlank(lines[i]) ==>
      Closed(lines[..i + 1]) == Closed(lines[..i]) + Flush(Open(lines[..i])) && Open(lines[..i + 1]) == []
    ensures !IsBlank(lines[i]) ==>
      Closed(lines[..i + 1]) == Closed(lines[..i]) && Open(lines[..i + 1]) == Open(lines[..i]) + [Strip(lines[i])]
  {
    assert lines[..i + 1] == lines[..i] + [lines[i]];
    if IsBlank(lines[i]) {
      ParagraphStepBlank(lines[..i], lines[i]);
    } else {
      ParagraphStepLine(lines[..i], lines[i]);
    }
  }

  /** The paragraphisation loop of `extract_pdf_html`: non-blank lines are
      collected, stripped, in a buffer that a blank line or the end of the
      text turns into a paragraph. */
  method Paragraphize(lines: seq<string>) returns (paras: seq<string>)
    ensures paras == Paragraphs(lines)
  {
    paras := [];
    var buf: seq<string> := [];
    var i := 0;
    assert Split(lines[..0], IsBlank) == [[]];
    while i < |lines|
      invariant 0 <= i <= |lines|
      invariant paras == Closed(lines[..i]) && buf == Open(lines[..i])
    {
      ParagraphStep(lines, i);
      var ln := lines[i];
      if Strip(ln) == "" {
        if buf != [] {
          paras := paras + [Strip(JoinWith(" ", buf))];
          buf := [];
        }
      } else {
        buf := buf + [Strip(ln)];
      }
      i := i + 1;
    }
    assert lines[..i] == lines;
    ParagraphsAreClosedAndFlushed(lines);
    if buf != [] {
      paras := paras + [Strip(JoinWith(" ", buf))];
    }
  }

  predicate IsNewlineFree(s: string) {
    forall i | 0 <= i < |s| :: s[i] != '\n'
  }

  /** A line that is not blank makes a paragraph that is not empty; lines
      without line breaks make a paragraph without one. */
  lemma ParaShape(run: seq<string>)
    requires |run| >= 1 && !IsBlank(run[0])
    requires forall i | 0 <= i < |run| :: IsNewlineFree(run[i])
    ensures Para(run) != "" && IsNewlineFree(Para(run))
  {
    var stripped := StripAll(run);
    var joined := JoinWith(" ", stripped);
    JoinStartsWithFirst(" ", stripped);
    assert stripped[0] != [] && !IsSpace(stripped[0][0]);
    assert joined[0] == stripped[0][0];
    forall i | 0 <= i < |stripped| ensures IsNewlineFree(stripped[i]) {
      StripKeepsAbsent(run[i], IsNewline);
    }
    JoinWithFree(" ", stripped, IsNewline);
    StripKeepsAbsent(joined, IsNewline);
  }

  /** Every paragraph is non-empty and, for lines without line breaks, holds
      no line break. */
  lemma ParagraphsShape(lines: seq<string>)
    requires forall i | 0 <= i < |lines| :: IsNewlineFree(lines[i])
    ensures forall i | 0 <= i < |Paragraphs(lines)| ::
      Paragraphs(lines)[i] != "" && IsNewlineFree(Paragraphs(lines)[i])
  {
    var parts := Split(lines, IsBlank);
    var runs := NonEmpty(parts);
    SplitPiecesFree(lines, IsBlank);
    NonEmptyFrom(parts);
    forall i | 0 <= i < |runs| ensures Para(runs[i]) != "" && IsNewlineFree(Para(runs[i])) {
      assert runs[i] in parts;
      var k :| 0 <= k < |parts| && parts[k] == runs[i];
      assert !IsBlank(parts[k][0]);
      forall j | 0 <= j < |runs[i]| ensures IsNewlineFree(runs[i][j]) {
        assert runs[i][j] in lines by {
          assert parts[k][j] in parts[k];
          SplitPiecesFromInput(lines, IsBlank, k, j);
        }
      }
      ParaShape(runs[i]);
    }
  }

  /** Every element of a piece comes from the input. */
  lemma {:induction false} SplitPiecesFromInput<T>(s: seq<T>, isSep: T -> bool, k: nat, j: nat)
    requires k < |Split(s, isSep)| && j < |Split(s, isSep)[k]|
    ensures Split(s, isSep)[k][j] in s
    decreases |s|
  {
    if s != [] {
      var rest := Split(s[1..], isSep);
      if isSep(s[0]) {
        SplitPiecesFromInput(s[1..], isSep, k - 1, j);
      } else if k == 0 && j == 0 {
      } else if k == 0 {
        SplitPiecesFromInput(s[1..], isSep, 0, j - 1);
      } else {
        SplitPiecesFromInput(s[1..], isSep, k, j);
      }
    }
  }

  /** Two paragraphs separated by a blank line. */
  lemma ParagraphsExample()
    ensures Paragraphs(["a", "b", "", "c"]) == ["a b", "c"]
  {
    ExampleRuns();
    ExampleParas();
  }

  lemma ExampleRuns()
    ensures NonEmpty(Split(["a", "b", "", "c"], IsBlank)) == [["a", "b"], ["c"]]
  {
    var lines := ["a", "b", "", "c"];
    assert "a"[0] == 'a' && "b"[0] == 'b' && "c"[0] == 'c';
    assert !IsBlank("a") && !IsBlank("b") && IsBlank("") && !IsBlank("c");
    assert lines == ["a", "b"] + [""] + ["c"];
    SplitAround(["a", "b"], "", ["c"], IsBlank);
    SplitNoSeparator(["a", "b"], IsBlank);
    SplitNoSeparator(["c"], IsBlank);
    NonEmptyKeepsNonEmpty([["a", "b"], ["c"]]);
  }

  lemma ExampleParas()
    ensures ParasOf([["a", "b"], ["c"]]) == ["a b", "c"]
  {
    StripUnchanged("a");
    StripUnchanged("b");
    StripUnchanged("c");
    assert StripAll(["a", "b"]) == ["a", "b"];
    assert StripAll(["c"]) == ["c"];
    assert JoinWith(" ", ["a", "b"]) == "a b";
    StripUnchanged("a b");
  }

  const PdfDivOpen := "<div class=\"pdf-transcript\">"
  const PdfHeading := "<h3 class=\"h4\">Full text (from PDF)</h3>"

  /** `f"<p>{html.escape(p)}</p>"`. */
  function PdfParagraph(p: string): string {
    "<p>" + HtmlEscape(p) + "</p>"
  }

  function PdfParagraphs(paras: seq<string>): (r: seq<string>)
    ensures |r| == |paras|
    ensures forall i | 0 <= i < |paras| :: r[i] == PdfParagraph(paras[i])
  {
    seq(|paras|, i requires 0 <= i < |paras| => PdfParagraph(paras[i]))
  }

  /** The block `extract_pdf_html` returns for its paragraphs: nothing when
      there are none, otherwise the opening div, the heading, one escaped
      paragraph per line and the closing div, joined by line breaks. */
  function PdfBlock(paras: seq<string>): (block: string)
    ensures block == "" <==> paras == []
  {
    if paras == [] then ""
    else
      var lines := [PdfDivOpen, PdfHeading] + PdfParagraphs(paras) + ["</div>"];
      JoinStartsWithFirst("\n", lines);
      JoinWith("\n", lines)
  }

  /** A block opens with the div and the heading and ends with the closing
      div. */
  lemma PdfBlockShape(paras: seq<string>)
    requires paras != []
    ensures StartsWith(PdfBlock(paras), PdfDivOpen + "\n" + PdfHeading + "\n")
    ensures |PdfBlock(paras)| >= 7 && PdfBlock(paras)[|PdfBlock(paras)| - 7..] == "\n</div>"
  {
    JoinFramed("\n", PdfDivOpen, PdfHeading, PdfParagraphs(paras), "</div>");
  }

  /** The join of a list with two fixed first elements and a fixed last one. */
  lemma JoinFramed<T>(sep: seq<T>, a: seq<T>, b: seq<T>, mid: seq<seq<T>>, z: seq<T>)
    ensures var j := JoinWith(sep, [a, b] + mid + [z]);
      |a + sep + b + sep| <= |j| && j[..|a + sep + b + sep|] == a + sep + b + sep
      && |sep + z| <= |j| && j[|j| - |sep + z|..] == sep + z
  {
    var full := [a, b] + mid + [z];
    assert full == ([a, b] + mid) + [z];
    JoinWithSnoc(sep, [a, b] + mid, z);
    var tail := JoinWith(sep, full[2..]);
    calc {
      JoinWith(sep, full);
      a + sep + JoinWith(sep, full[1..]);
      { assert full[1..][0] == b && full[1..][1..] == full[2..]; }
      a + sep + (b + sep + tail);
      (a + sep + b + sep) + tail;
    }
  }

  /** `extract_pdf_html` once the text is extracted: nothing without a PDF or
      without text; otherwise dehyphenate, collapse the lines, cut into
      paragraphs and build the block. */
  method ExtractPdfHtml(pdfFound: bool, text: string) returns (block: string)
    ensures !pdfFound || AllSpace(text) ==> block == ""
    ensures pdfFound && !AllSpace(text) ==>
      block == PdfBlock(Paragraphs(SplitLines(NormalizeText(Dehyphenate(text)))))
  {
    if !pdfFound {
      return "";
    }
    if Strip(text) == "" {
      return "";
    }
    var cleaned := Dehyphenate(text);
    cleaned := NormalizeText(cleaned);
    var paras := Paragraphize(SplitLines(cleaned));
    if paras == [] {
      return "";
    }
    block := PdfBlock(paras);
  }

  // ---------------------------------------------------------------------------
  // Filtering loops

  /** What a loop that appends `f(x)` for each `x` in turn builds; `f` gives
      [] to skip an element. */
  function FlatMap<T, U>(xs: seq<T>, f: T -> seq<U>): seq<U>
    decreases |xs|
  {
    if xs == [] then [] else f(xs[0]) + FlatMap(xs[1..], f)
  }

  lemma {:induction false} FlatMapAppend<T, U>(a: seq<T>, b: seq<T>, f: T -> seq<U>)
    ensures FlatMap(a + b, f) == FlatMap(a, f) + FlatMap(b, f)
    decreases |a|
  {
    if a == [] {
      assert a + b == b;
    } else {
      assert (a + b)[1..] == a[1..] + b;
      FlatMapAppend(a[1..], b, f);
    }
  }

  /** Some element satisfies `p`. */
  ghost predicate AnyOf<T>(xs: seq<T>, p: T -> bool) {
    exists i | 0 <= i < |xs| :: p(xs[i])
  }

  lemma AnyOfSnoc<T>(xs: seq<T>, x: T, p: T -> bool)
    ensures AnyOf(xs + [x], p) <==> AnyOf(xs, p) || p(x)
  {
    var ys := xs + [x];
    if AnyOf(xs, p) {
      var i :| 0 <= i < |xs| && p(xs[i]);
      assert ys[i] == xs[i];
    }
    if AnyOf(ys, p) && !p(x) {
      var i :| 0 <= i < |ys| && p(ys[i]);
      assert i < |xs| && ys[i] == xs[i];
    }
    assert p(x) ==> ys[|xs|] == x;
  }

  lemma FlatMapOne<T, U>(x: T, f: T -> seq<U>)
    ensures FlatMap([x], f) == f(x)
  {
    assert [x][1..] == [];
  }

  // ---------------------------------------------------------------------------
  // Placeholder paragraphs

  const PdfComingSoon := "pdf coming soon"
  const HtmlComingSoon := "html version of this article coming soon"

  /** The text lower-cased with its whitespace runs collapsed to one space. */
  function MatchForm(s: string): string {
    JoinWith(" ", Words(Lower(s)))
  }

  /** `looks_like_placeholder`: whether the text announces a PDF or an HTML
      version still to come; `None` stands for a missing text. */
  function LooksLikePlaceholder(s: Option<string>): (r: bool)
    ensures s == None || s == Some("") ==> !r
  {
    var norm := MatchForm(s.GetOr(""));
    assert s == None || s == Some("") ==> Words(Lower(s.GetOr(""))) == [];
    Contains(norm, PdfComingSoon) || Contains(norm, HtmlComingSoon)
  }

  /** Only the words matter, up to case. */
  lemma PlaceholderDependsOnlyOnWords(s1: string, s2: string)
    requires LowerAll(Words(s1)) == LowerAll(Words(s2))
    ensures LooksLikePlaceholder(Some(s1)) == LooksLikePlaceholder(Some(s2))
  {
    WordsLower(s1);
    WordsLower(s2);
  }

  /** Changing the case changes nothing. */
  lemma PlaceholderIgnoresCase(s: string)
    ensures LooksLikePlaceholder(Some(Lower(s))) == LooksLikePlaceholder(Some(s))
  {
    LowerIdempotent(s);
  }

  /** Changing the whitespace between words changes nothing. */
  lemma PlaceholderIgnoresSpacing(s: string)
    ensures LooksLikePlaceholder(Some(CollapseLine(s))) == LooksLikePlaceholder(Some(s))
  {
    CollapseLineNormal(s);
    PlaceholderDependsOnlyOnWords(CollapseLine(s), s);
  }

  /** Text whose words are "pdf coming soon", in any case, is a placeholder. */
  lemma PlaceholderFromWords(s: string)
    requires LowerAll(Words(s)) == ["pdf", "coming", "soon"]
    ensures LooksLikePlaceholder(Some(s))
  {
    WordsLower(s);
    PdfComingSoonWords();
    assert OccursAt(MatchForm(s), PdfComingSoon, 0);
  }

  lemma PdfComingSoonWords()
    ensures JoinWith(" ", ["pdf", "coming", "soon"]) == PdfComingSoon
  {
    var ws := ["pdf", "coming", "soon"];
    assert ws[1..] == ["coming", "soon"] && ws[1..][1..] == ["soon"];
    assert JoinWith(" ", ws[1..][1..]) == "soon";
    assert JoinWith(" ", ws[1..]) == "coming" + " " + "soon";
  }

  // ---------------------------------------------------------------------------
  // Body paragraphs

  const BodyParagraphOpen := "<p class=\"tei-p text-display\" dir=\"ltr\">"

  /** The element a body paragraph becomes: the escaped text when there is
      some, an empty element otherwise. */
  function BodyParagraph(text: string): (r: string)
    ensures r == BodyParagraphOpen + HtmlEscape(text) + "</p>"
  {
    if text != "" then BodyParagraphOpen + HtmlEscape(text) + "</p>"
    else BodyParagraphOpen + "</p>"
  }

  /** The paragraph text counts as a placeholder once stripped. */
  predicate IsPlaceholderText(text: string) {
    LooksLikePlaceholder(Some(Strip(text)))
  }

  /** What one paragraph text contributes to the body: nothing for a
      placeholder, its element otherwise. */
  function KeptOne(text: string): (r: seq<string>)
    ensures |r| == if IsPlaceholderText(text) then 0 else 1
  {
    if IsPlaceholderText(text) then [] else [BodyParagraph(Strip(text))]
  }

  /** The body elements for the paragraph texts: placeholders dropped, the
      others in order. */
  function KeptParagraphs(texts: seq<string>): seq<string> {
    FlatMap(texts, KeptOne)
  }

  function PlaceholderCount(texts: seq<string>): nat {
    if texts == [] then 0
    else (if IsPlaceholderText(texts[0]) then 1 else 0) + PlaceholderCount(texts[1..])
  }

  /** One element per paragraph that is not a placeholder. */
  lemma {:induction false} KeptLength(texts: seq<string>)
    ensures |KeptParagraphs(texts)| == |texts| - PlaceholderCount(texts)
    ensures PlaceholderCount(texts) <= |texts|
    decreases |texts|
  {
    if texts != [] {
      KeptLength(texts[1..]);
      assert |KeptOne(texts[0])| == if IsPlaceholderText(texts[0]) then 1 - 1 else 1;
    }
  }

  /** No placeholder is counted exactly when none of the texts is one. */
  lemma {:induction false} PlaceholderCountZero(texts: seq<string>)
    ensures PlaceholderCount(texts) == 0 <==> forall i | 0 <= i < |texts| :: !IsPlaceholderText(texts[i])
    decreases |texts|
  {
    if texts != [] {
      var rest := texts[1..];
      PlaceholderCountZero(rest);
      assert PlaceholderCount(texts) == (if IsPlaceholderText(texts[0]) then 1 else 0) + PlaceholderCount(rest);
      if !IsPlaceholderText(texts[0]) {
        assert forall i | 1 <= i < |texts| :: texts[i] == rest[i - 1];
      }
    }
  }

  lemma BodyStep(texts: seq<string>, i: nat)
    requires i < |texts|
    ensures KeptParagraphs(texts[..i + 1]) == KeptParagraphs(texts[..i]) + KeptOne(texts[i])
    ensures AnyOf(texts[..i + 1], IsPlaceholderText) <==> AnyOf(texts[..i], IsPlaceholderText) || IsPlaceholderText(texts[i])
  {
    assert texts[..i + 1] == texts[..i] + [texts[i]];
    FlatMapAppend(texts[..i], [texts[i]], KeptOne);
    FlatMapOne(texts[i], KeptOne);
    AnyOfSnoc(texts[..i], texts[i], IsPlaceholderText);
  }

  /** The body loop of `main`: each paragraph text is stripped; a placeholder
      raises the flag and is skipped, any other text becomes a body element. */
  method BodyParagraphs(texts: seq<string>) returns (bodyList: seq<string>, placeholderHit: bool)
    ensures bodyList == KeptParagraphs(texts)
    ensures placeholderHit <==> exists i | 0 <= i < |texts| :: IsPlaceholderText(texts[i])
  {
    bodyList := [];
    placeholderHit := false;
    var i := 0;
    while i < |texts|
      invariant 0 <= i <= |texts|
      invariant bodyList == KeptParagraphs(texts[..i])
      invariant placeholderHit <==> AnyOf(texts[..i], IsPlaceholderText)
    {
      var text := Strip(texts[i]);
      BodyStep(texts, i);
      if LooksLikePlaceholder(Some(text)) {
        placeholderHit := true;
        i := i + 1;
        continue;
      }
      if text != "" {
        bodyList := bodyList + [BodyParagraphOpen + HtmlEscape(text) + "</p>"];
      } else {
        bodyList := bodyList + [BodyParagraphOpen + "</p>"];
      }
      i := i + 1;
    }
    assert texts[..i] == texts;
    assert AnyOf(texts, IsPlaceholderText) <==> exists j | 0 <= j < |texts| :: IsPlaceholderText(texts[j]);
  }

  // ---------------------------------------------------------------------------
  // Template substitution

  /** The placeholder a key fills: `${key}`. */
  function Slot(key: string): (r: string)
    ensures r != [] && r[0] == '$' && r[|r| - 1] == '}'
  {
    "${" + key + "}"
  }

  /** The template after substituting each key's value in turn, in the order of
      the data. */
  function RenderFold(out: string, data: seq<(string, string)>): string
    decreases |data|
  {
    if data == [] then out
    else RenderFold(ReplaceAll(out, Slot(data[0].0), data[0].1), data[1..])
  }

  /** `render_html`. */
  method RenderHtml(template: string, data: seq<(string, string)>) returns (out: string)
    ensures out == RenderFold(template, data)
  {
    out := template;
    var i := 0;
    while i < |data|
      invariant 0 <= i <= |data|
      invariant RenderFold(out, data[i..]) == RenderFold(template, data)
    {
      assert data[i..][1..] == data[i + 1..];
      out := ReplaceAll(out, Slot(data[i].0), data[i].1);
      i := i + 1;
    }
  }

  /** One key replaces each of the occurrences of its slot that a left-to-right
      scan finds, and keeps the text between them. */
  lemma RenderOneKey(template: string, key: string, value: string)
    ensures var pieces := Pieces(template, Slot(key));
      template == JoinWith(Slot(key), pieces)
      && RenderFold(template, [(key, value)]) == JoinWith(value, pieces)
  {
    JoinPieces(template, Slot(key));
    ReplaceAllIsJoinOfPieces(template, Slot(key), value);
  }

  /** Values are substituted in order, so a value holding another key's slot
      is filled in by that later key. */
  lemma RenderFollowsOrder()
    ensures RenderFold("${a}", [("a", "${b}"), ("b", "x")]) == "x"
  {
    assert Slot("a") == "${a}" && Slot("b") == "${b}";
    assert "${a}"[..4] == "${a}" && "${a}"[4..] == "";
    assert ReplaceAll("${a}", "${a}", "${b}") == "${b}";
    assert "${b}"[..4] == "${b}" && "${b}"[4..] == "";
    assert ReplaceAll("${b}", "${b}", "x") == "x";
    assert [("a", "${b}"), ("b", "x")][1..] == [("b", "x")];
  }

  /** A key usable in a slot: no '$' and no '}'. */
  predicate PlainKey(key: string) {
    forall i | 0 <= i < |key| :: key[i] != '$' && key[i] != '}'
  }

  /** The slots of two different plain keys never overlap. */
  lemma SlotsDisjoint(s: string, k1: string, k2: string, i: nat, j: nat)
    requires PlainKey(k1) && PlainKey(k2) && k1 != k2
    requires OccursAt(s, Slot(k1), i) && OccursAt(s, Slot(k2), j)
    ensures j + |Slot(k2)| <= i || i + |Slot(k1)| <= j
  {
    var n1, n2 := |Slot(k1)|, |Slot(k2)|;
    SlotChars(k1);
    SlotChars(k2);
    assert s[i..i + n1] == Slot(k1) && s[j..j + n2] == Slot(k2);
    assert forall p | i <= p < i + n1 :: s[p] == Slot(k1)[p - i];
    assert forall p | j <= p < j + n2 :: s[p] == Slot(k2)[p - j];
    if i == j && n1 == n2 {
      assert forall t | 0 <= t < |k1| :: k1[t] == Slot(k1)[2 + t] == s[i + 2 + t] == Slot(k2)[2 + t] == k2[t];
    }
  }

  /** In the slot of a plain key, '$' comes first only and '}' last only. */
  lemma SlotChars(key: string)
    requires PlainKey(key)
    ensures forall t | 0 < t < |Slot(key)| :: Slot(key)[t] != '$'
    ensures forall t | 0 <= t < |Slot(key)| - 1 :: Slot(key)[t] != '}'
  {
    assert forall t | 2 <= t < |Slot(key)| - 1 :: Slot(key)[t] == key[t - 2];
  }

  /** The slot of a key absent from the data stays in the page. */
  lemma {:induction false} AbsentKeySurvives(template: string, data: seq<(string, string)>, key: string)
    requires PlainKey(key) && Contains(template, Slot(key))
    requires forall e | e in data :: PlainKey(e.0) && e.0 != key
    ensures Contains(RenderFold(template, data), Slot(key))
    decreases |data|
  {
    if data != [] {
      var k2 := data[0].0;
      assert data[0] in data;
      var i :| 0 <= i <= |template| && OccursAt(template, Slot(key), i);
      forall j: nat | OccursAt(template, Slot(k2), j)
        ensures j + |Slot(k2)| <= i || i + |Slot(key)| <= j
      {
        SlotsDisjoint(template, key, k2, i, j);
      }
      OccurrenceSurvivesReplace(template, Slot(key), i, Slot(k2), data[0].1);
      forall e | e in data[1..] ensures PlainKey(e.0) && e.0 != key {
        assert e in data;
      }
      AbsentKeySurvives(ReplaceAll(template, Slot(k2), data[0].1), data[1..], key);
    }
  }

  // ---------------------------------------------------------------------------
  // Table of contents

  /** The anchor of a heading: its lower-cased words joined by '-'. */
  function Slug(heading: string): (r: string)
    ensures NoSpace(r)
  {
    var ws := Words(Lower(heading));
    JoinWithFree("-", ws, IsSpace);
    JoinWith("-", ws)
  }

  /** Headings that differ only in case or spacing share their anchor. */
  lemma SlugIgnoresCaseAndSpacing(a: string, b: string)
    requires LowerAll(Words(a)) == LowerAll(Words(b))
    ensures Slug(a) == Slug(b)
  {
    WordsLower(a);
    WordsLower(b);
  }

  /** The anchor link of one heading. */
  function TocItem(heading: string): (item: string)
    ensures |item| >= 2 && item[..2] == "<a"
  {
    var open := "<a href=\"#";
    var rest := HtmlEscape(Slug(heading)) + "\" class=\"toc-item\">" + HtmlEscape(heading) + "</a>";
    assert (open + rest)[..2] == open[..2];
    open + rest
  }

  const BibliographyItem := "<a href=\"#" + "Head-id.bibliography\" class=\"toc-item\">Bibliography</a>"
  const NoSectionsItem := "<span class=\"toc-item text-muted\">" + "No sections" + "</span>"

  /** The link of one heading; none for a blank one. */
  function HeadItem(heading: string): (r: seq<string>)
    ensures r == [] <==> AllSpace(heading)
    ensures r != [] ==> |r[0]| >= 2 && r[0][..2] == "<a"
  {
    if AllSpace(heading) then [] else [TocItem(Strip(heading))]
  }

  /** One link per heading whose text is not blank, in order. */
  function HeadItems(heads: seq<string>): seq<string> {
    FlatMap(heads, HeadItem)
  }

  /** The heading links, then the bibliography link when there is a
      bibliography. */
  function TocItems(heads: seq<string>, hasBibliography: bool): (r: seq<string>)
    ensures hasBibliography ==> r != [] && r[|r| - 1] == BibliographyItem
    ensures |HeadItems(heads)| <= |r| && r[..|HeadItems(heads)|] == HeadItems(heads)
  {
    var h := HeadItems(heads);
    var r := h + (if hasBibliography then [BibliographyItem] else []);
    assert r[..|h|] == h;
    r
  }

  /** No link is made exactly when every heading is blank. */
  lemma {:induction false} HeadItemsEmpty(heads: seq<string>)
    ensures HeadItems(heads) == [] <==> forall i | 0 <= i < |heads| :: AllSpace(heads[i])
    decreases |heads|
  {
    if heads != [] {
      HeadItemsEmpty(heads[1..]);
      assert forall i | 1 <= i < |heads| :: heads[i] == heads[1..][i - 1];
    }
  }

  /** Every link opens an anchor element. */
  lemma {:induction false} HeadItemFirst(heads: seq<string>)
    requires HeadItems(heads) != []
    ensures |HeadItems(heads)[0]| >= 2 && HeadItems(heads)[0][..2] == "<a"
    decreases |heads|
  {
    if HeadItem(heads[0]) == [] {
      HeadItemFirst(heads[1..]);
    }
  }

  /** The links of the table of contents, or the "No sections" note. */
  function TocLinks(heads: seq<string>, hasBibliography: bool): string {
    var items := TocItems(heads, hasBibliography);
    if items == [] then NoSectionsItem else Concat(items)
  }

  /** The note appears exactly when there is no non-blank heading and no
      bibliography. */
  lemma TocFallback(heads: seq<string>, hasBibliography: bool)
    ensures TocLinks(heads, hasBibliography) == NoSectionsItem
      <==> !hasBibliography && forall i | 0 <= i < |heads| :: AllSpace(heads[i])
  {
    HeadItemsEmpty(heads);
    var items := TocItems(heads, hasBibliography);
    if items != [] {
      if HeadItems(heads) != [] {
        HeadItemFirst(heads);
        assert items[0] == HeadItems(heads)[0];
      }
      AnchorsAreNotTheNote(items);
    }
  }

  /** Links that open with an anchor never spell the "No sections" note. */
  lemma AnchorsAreNotTheNote(items: seq<string>)
    requires items != [] && |items[0]| >= 2 && items[0][..2] == "<a"
    ensures Concat(items) != NoSectionsItem
  {
    JoinStartsWithFirst([], items);
    assert NoSectionsItem[1] == 's';
    assert Concat(items)[1] == items[0][1] == 'a';
  }

  /** One more heading adds its link, unless its stripped text is empty. */
  lemma HeadItemsStep(heads: seq<string>, i: nat)
    requires i < |heads|
    ensures var t := Strip(heads[i]);
      HeadItems(heads[..i + 1]) == HeadItems(heads[..i]) + (if t != "" then [TocItem(t)] else [])
  {
    assert heads[..i + 1] == heads[..i] + [heads[i]];
    FlatMapAppend(heads[..i], [heads[i]], HeadItem);
    FlatMapOne(heads[i], HeadItem);
  }

  /** `build_toc_links` over the texts of the headings. */
  method BuildTocLinks(heads: seq<string>, hasBibliography: bool) returns (links: string)
    ensures links == TocLinks(heads, hasBibliography)
  {
    var items := HeadLinks(heads);
    if hasBibliography {
      items := items + [BibliographyItem];
    }
    assert items == TocItems(heads, hasBibliography);
    if items == [] {
      items := items + [NoSectionsItem];
      assert Concat(items) == NoSectionsItem;
    }
    links := Concat(items);
  }

  /** The loop of `build_toc_links` over the headings: one link per heading
      whose stripped text is not empty. */
  method HeadLinks(heads: seq<string>) returns (items: seq<string>)
    ensures items == HeadItems(heads)
  {
    items := [];
    var i := 0;
    while i < |heads|
      invariant 0 <= i <= |heads|
      invariant items == HeadItems(heads[..i])
    {
      HeadItemsStep(heads, i);
      var heading := Strip(heads[i]);
      if heading != "" {
        items := items + [TocItem(heading)];
      }
      i := i + 1;
    }
    assert heads[..i] == heads;
  }

  // ---------------------------------------------------------------------------
  // Embedding the PDF

  const ViewerPrefix := "https://drive.google.com/viewerng/viewer?embedded=true&amp;url="

  const ViewerDiv := "\n<div class=\"PDFviewer text-center\" style=\"width:100%; margin-top:1rem;\">\n  "

  function ObjectBlock(src: string): string {
    ViewerDiv + "<object data=\"" + src + "\" type=\"application/pdf\" width=\"100%\" height=\"800\">\n    <a href=\""
    + src + "\">Open the PDF</a>\n  </object>\n</div>"
  }

  function EmbedBlock(viewer: string): string {
    (ViewerDiv + "<embed src=\"") + viewer + "\" width=\"100%\" height=\"800\" />\n</div>"
  }

  lemma ContainsMiddle(a: string, m: string, b: string)
    ensures Contains(a + m + b, m)
  {
    assert (a + m + b)[|a|..|a| + |m|] == m;
    assert OccursAt(a + m + b, m, |a|);
  }

  predicate IsWebUrl(url: string) {
    StartsWith(url, "http://") || StartsWith(url, "https://")
  }

  /** `build_pdf_embed`: `localPdf` is the name of the local file when one
      exists. */
  function PdfEmbed(pdfUrl: string, localPdf: Option<string>): (r: string)
    ensures r == "" <==> localPdf == None && !IsWebUrl(pdfUrl)
    ensures localPdf == None && IsWebUrl(pdfUrl) ==>
      Contains(r, ViewerPrefix + ReplaceAll(pdfUrl, "&", "&amp;"))
  {
    match localPdf
    case Some(name) => ObjectBlock(HtmlEscape(name))
    case None =>
      if IsWebUrl(pdfUrl) then
        var viewer := ViewerPrefix + ReplaceAll(pdfUrl, "&", "&amp;");
        ContainsMiddle(ViewerDiv + "<embed src=\"", viewer, "\" width=\"100%\" height=\"800\" />\n</div>");
        EmbedBlock(viewer)
      else ""
  }

  /** An existing local file wins whatever the URL. */
  lemma LocalPdfWins(url1: string, url2: string, name: string)
    ensures PdfEmbed(url1, Some(name)) == PdfEmbed(url2, Some(name))
  {
  }

  /** The URL given to the viewer carries no bare ampersand. */
  lemma ViewerUrlEncoded(pdfUrl: string)
    ensures AmpersandsEncoded(ReplaceAll(pdfUrl, "&", "&amp;"))
  {
    ReplaceAmpersands(pdfUrl);
  }

  // ---------------------------------------------------------------------------
  // Field escaping

  /** `t`: a missing or empty field gives "", any other is stripped and
      escaped. */
  function EscapeField(x: Option<string>): (r: string)
    ensures x == None || x == Some("") ==> r == ""
    ensures x.Some? ==> (r == "" <==> AllSpace(x.value))
    ensures forall i | 0 <= i < |r| :: !IsMarkup(r[i])
  {
    if x.Some? && x.value != "" then HtmlEscape(Strip(x.value)) else ""
  }
}

/**
  String helpers shared by the search client and the two build scripts: the
  strip / split / join family of Python and JavaScript strings, ASCII case
  folding, substring search and replacement, and HTML escaping.

  Whitespace is the ASCII whitespace that Python's str.split()/str.strip() and
  JavaScript's trim() and `\s` agree on; case folding is ASCII only.
*/
module Text {

  predicate IsSpace(c: char) {
    c == ' ' || c == '\t' || c == '\n' || c == '\r' || c == '\U{0B}' || c == '\U{0C}'
  }

  predicate IsNewline(c: char) { c == '\n' }

  predicate AllSpace(s: string) {
    forall i | 0 <= i < |s| :: IsSpace(s[i])
  }

  predicate NoSpace(s: string) {
    forall i | 0 <= i < |s| :: !IsSpace(s[i])
  }

  /** The number of whitespace characters at the start of `s`. */
  function LeadingSpaces(s: string): (k: nat)
    ensures k <= |s|
    ensures forall i | 0 <= i < k :: IsSpace(s[i])
    ensures k < |s| ==> !IsSpace(s[k])
  {
    if s != [] && IsSpace(s[0]) then
      var k := LeadingSpaces(s[1..]);
      assert forall i | 1 <= i < k + 1 :: s[i] == s[1..][i - 1];
      k + 1
    else 0
  }

  /** The number of whitespace characters at the end of `s`. */
  function TrailingSpaces(s: string): (k: nat)
    ensures k <= |s|
    ensures forall i | |s| - k <= i < |s| :: IsSpace(s[i])
    ensures k < |s| ==> !IsSpace(s[|s| - 1 - k])
  {
    if s != [] && IsSpace(s[|s| - 1]) then
      var k := TrailingSpaces(s[..|s| - 1]);
      assert forall i | |s| - 1 - k <= i < |s| - 1 :: s[i] == s[..|s| - 1][i];
      k + 1
    else 0
  }

  /** Python's str.strip() and JavaScript's String.prototype.trim(): the
      substring left after removing whitespace at both ends. */
  function Strip(s: string): (r: string)
    ensures |r| <= |s|
    ensures exists i | 0 <= i <= |s| - |r| :: IsTrimmedAt(s, r, i)
    ensures r == [] || (!IsSpace(r[0]) && !IsSpace(r[|r| - 1]))
    ensures r == [] <==> AllSpace(s)
  {
    var a := LeadingSpaces(s);
    if a == |s| then
      assert IsTrimmedAt(s, [], 0);
      []
    else
      var b := |s| - TrailingSpaces(s);
      assert IsTrimmedAt(s, s[a..b], a);
      s[a..b]
  }

  /** `r` is `s[i..i + |r|]` and everything around it is whitespace. */
  ghost predicate IsTrimmedAt(s: string, r: string, i: nat)
    requires i + |r| <= |s|
  {
    r == s[i..i + |r|] && AllSpace(s[..i]) && AllSpace(s[i + |r|..])
  }

  /** Cuts `s` at every element that satisfies `isSep`, dropping the separators:
      Python's str.split(sep) for a one-character separator. k separators give
      k + 1 pieces, empty ones included. */
  function Split<T>(s: seq<T>, isSep: T -> bool): (parts: seq<seq<T>>)
    ensures |parts| >= 1
    decreases |s|
  {
    if s == [] then [[]]
    else
      var rest := Split(s[1..], isSep);
      if isSep(s[0]) then [[]] + rest else [[s[0]] + rest[0]] + rest[1..]
  }

  /** No piece holds a separator. */
  predicate PiecesFree<T>(parts: seq<seq<T>>, isSep: T -> bool) {
    forall i, j | 0 <= i < |parts| && 0 <= j < |parts[i]| :: !isSep(parts[i][j])
  }

  lemma {:induction false} SplitPiecesFree<T>(s: seq<T>, isSep: T -> bool)
    ensures PiecesFree(Split(s, isSep), isSep)
    decreases |s|
  {
    if s != [] {
      SplitPiecesFree(s[1..], isSep);
      var rest := Split(s[1..], isSep);
      var parts := Split(s, isSep);
      assert PiecesFree(rest, isSep);
      forall i, j | 0 <= i < |parts| && 0 <= j < |parts[i]| ensures !isSep(parts[i][j]) {
        if isSep(s[0]) {
          assert parts[i] == rest[i - 1];
          assert !isSep(rest[i - 1][j]);
        } else if i == 0 {
          if j > 0 {
            assert parts[0][j] == rest[0][j - 1];
            assert !isSep(rest[0][j - 1]);
          }
        } else {
          assert parts[i] == rest[i];
        }
      }
    }
  }

  /** The pieces that are not empty, in order. */
  function NonEmpty<T>(parts: seq<seq<T>>): (r: seq<seq<T>>)
    ensures |r| <= |parts|
    ensures forall i | 0 <= i < |r| :: |r[i]| > 0
  {
    if parts == [] then []
    else (if |parts[0]| == 0 then [] else [parts[0]]) + NonEmpty(parts[1..])
  }

  /** Every piece that NonEmpty keeps comes from its input. */
  lemma {:induction false} NonEmptyFrom<T>(parts: seq<seq<T>>)
    ensures forall x | x in NonEmpty(parts) :: x in parts
    decreases |parts|
  {
    if parts != [] {
      NonEmptyFrom(parts[1..]);
    }
  }

  /** Python's str.split() without arguments: the maximal runs of
      non-whitespace characters. */
  function Words(s: string): (ws: seq<string>)
    ensures forall i | 0 <= i < |ws| :: |ws[i]| > 0 && NoSpace(ws[i])
  {
    var parts := Split(s, IsSpace);
    var ws := NonEmpty(parts);
    SplitPiecesFree(s, IsSpace);
    NonEmptyFrom(parts);
    forall i | 0 <= i < |ws| ensures NoSpace(ws[i]) {
      assert ws[i] in parts;
      var k :| 0 <= k < |parts| && parts[k] == ws[i];
      forall j | 0 <= j < |ws[i]| ensures !IsSpace(ws[i][j]) {
        assert ws[i][j] == parts[k][j];
        assert !IsSpace(parts[k][j]);
      }
    }
    ws
  }

  /** Python's str.splitlines() for text whose only line break is '\n': like
      split('\n'), but a final line break does not open an empty last line. */
  function SplitLines(s: string): (lines: seq<string>)
    ensures forall i, j | 0 <= i < |lines| && 0 <= j < |lines[i]| :: lines[i][j] != '\n'
  {
    var parts := Split(s, IsNewline);
    SplitPiecesFree(s, IsNewline);
    if |parts[|parts| - 1]| == 0 then
      var lines := parts[..|parts| - 1];
      forall i, j | 0 <= i < |lines| && 0 <= j < |lines[i]| ensures lines[i][j] != '\n' {
        assert lines[i][j] == parts[i][j];
        assert !IsNewline(parts[i][j]);
      }
      lines
    else parts
  }

  /** `sep.join(parts)` (Python) and `parts.join(sep)` (JavaScript). */
  function JoinWith<T>(sep: seq<T>, parts: seq<seq<T>>): seq<T>
  {
    if parts == [] then []
    else if |parts| == 1 then parts[0]
    else parts[0] + sep + JoinWith(sep, parts[1..])
  }

  /** `"".join(parts)`. */
  function Concat<T>(parts: seq<seq<T>>): seq<T> {
    JoinWith([], parts)
  }

  /** Python's str.lower() on ASCII letters. */
  function LowerChar(c: char): char {
    if 'A' <= c <= 'Z' then (c as int + 32) as char else c
  }

  function Lower(s: string): (r: string)
    ensures |r| == |s|
    ensures forall i | 0 <= i < |s| :: r[i] == LowerChar(s[i])
    ensures forall i | 0 <= i < |r| :: !('A' <= r[i] <= 'Z')
    ensures forall i | 0 <= i < |s| && !('A' <= s[i] <= 'Z') :: r[i] == s[i]
  {
    seq(|s|, i requires 0 <= i < |s| => LowerChar(s[i]))
  }

  /** `pat in s` (Python) and `s.includes(pat)` (JavaScript). */
  predicate Contains(s: string, pat: string) {
    exists i | 0 <= i <= |s| :: OccursAt(s, pat, i)
  }

  predicate OccursAt(s: string, pat: string, i: nat) {
    i + |pat| <= |s| && s[i..i + |pat|] == pat
  }

  /** `s.startswith(p)` / `s.startsWith(p)`. */
  predicate StartsWith(s: string, p: string) {
    |p| <= |s| && s[..|p|] == p
  }

  /** `s.split(pat)` for a non-empty pattern: the text between the occurrences
      of `pat` found by a left-to-right scan that never lets two occurrences
      overlap. */
  function Pieces(s: string, pat: string): (r: seq<string>)
    requires pat != []
    ensures |r| >= 1
    ensures r[0] <= s
    decreases |s|
  {
    if |s| < |pat| then [s]
    else if s[..|pat|] == pat then [""] + Pieces(s[|pat|..], pat)
    else
      var rest := Pieces(s[1..], pat);
      [[s[0]] + rest[0]] + rest[1..]
  }

  /** Python's `s.replace(pat, rep)`: a left-to-right scan that emits `rep`
      at each occurrence of `pat` and skips past it, and copies every other
      character. */
  function ReplaceAll(s: string, pat: string, rep: string): string
    requires pat != []
    decreases |s|
  {
    if |s| < |pat| then s
    else if s[..|pat|] == pat then rep + ReplaceAll(s[|pat|..], pat, rep)
    else [s[0]] + ReplaceAll(s[1..], pat, rep)
  }

  /** JavaScript's `s.replace(pat, rep)` with a string pattern: only the first
      occurrence is replaced. */
  function ReplaceFirst(s: string, pat: string, rep: string): string
    requires pat != []
    decreases |s|
  {
    if |s| < |pat| then s
    else if s[..|pat|] == pat then rep + s[|pat|..]
    else [s[0]] + ReplaceFirst(s[1..], pat, rep)
  }

  /** Python's html.escape(s) (quote=True): each of & < > " ' becomes an entity. */
  function EscapeChar(c: char): string {
    if c == '&' then "&amp;"
    else if c == '<' then "&lt;"
    else if c == '>' then "&gt;"
    else if c == '"' then "&quot;"
    else if c == '\'' then "&#x27;"
    else [c]
  }

  predicate IsMarkup(c: char) {
    c == '<' || c == '>' || c == '"' || c == '\''
  }

  function HtmlEscape(s: string): (r: string)
    ensures forall i | 0 <= i < |r| :: !IsMarkup(r[i])
    ensures |r| >= |s|
    ensures r == [] <==> s == []
    ensures (forall i | 0 <= i < |s| :: !IsMarkup(s[i]) && s[i] != '&') ==> r == s
  {
    if s == [] then []
    else
      var rest := HtmlEscape(s[1..]);
      assert forall i | 0 <= i < |s[1..]| :: s[1..][i] == s[i + 1];
      EscapeChar(s[0]) + rest
  }
}

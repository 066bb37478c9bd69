/**
  Facts about the helpers of module Text: splitting and joining are inverse to
  each other, whitespace normalisation is idempotent, replacement keeps the text
  between the occurrences it replaces.
*/
module TextFacts {
  import opened Text

  // ---------------------------------------------------------------------------
  // Split and JoinWith

  /** Cutting at a separator splits the pieces on both sides independently. */
  lemma {:induction false} SplitAround<T>(a: seq<T>, x: T, b: seq<T>, isSep: T -> bool)
    requires isSep(x)
    ensures Split(a + [x] + b, isSep) == Split(a, isSep) + Split(b, isSep)
    decreases |a|
  {
    var s := a + [x] + b;
    var q := Split(b, isSep);
    if a == [] {
      assert s[0] == x && s[1..] == b;
      assert Split(s, isSep) == [[]] + q;
    } else {
      SplitAround(a[1..], x, b, isSep);
      var p := Split(a[1..], isSep);
      assert s[0] == a[0] && s[1..] == a[1..] + [x] + b;
      assert Split(s[1..], isSep) == p + q;
      if isSep(a[0]) {
        assert Split(s, isSep) == [[]] + (p + q);
        assert Split(a, isSep) == [[]] + p;
      } else {
        assert Split(s, isSep) == [[a[0]] + (p + q)[0]] + (p + q)[1..];
        assert Split(a, isSep) == [[a[0]] + p[0]] + p[1..];
        ConsFirstAppend(a[0], p, q);
      }
    }
  }

  /** Extending the first piece commutes with appending more pieces. */
  lemma ConsFirstAppend<T>(x: T, p: seq<seq<T>>, q: seq<seq<T>>)
    requires |p| >= 1
    ensures [[x] + (p + q)[0]] + (p + q)[1..] == ([[x] + p[0]] + p[1..]) + q
  {
    assert (p + q)[0] == p[0];
    assert (p + q)[1..] == p[1..] + q;
  }

  /** A piece without separators is not cut. */
  lemma {:induction false} SplitNoSeparator<T>(a: seq<T>, isSep: T -> bool)
    requires forall i | 0 <= i < |a| :: !isSep(a[i])
    ensures Split(a, isSep) == [a]
    decreases |a|
  {
    if a != [] {
      SplitNoSeparator(a[1..], isSep);
      assert [a[0]] + a[1..] == a;
    }
  }

  /** A non-separator added at the end extends the last piece. */
  lemma {:induction false} SplitSnoc<T>(s: seq<T>, x: T, isSep: T -> bool)
    requires !isSep(x)
    ensures var p := Split(s, isSep);
      Split(s + [x], isSep) == p[..|p| - 1] + [p[|p| - 1] + [x]]
    decreases |s|
  {
    if s == [] {
      assert s + [x] == [x] && [x][0] == x && [x][1..] == [];
      var e: seq<seq<T>> := Split([], isSep);
      assert e == [[]];
      assert [x] + e[0] == [x] && e[1..] == [];
      assert Split([x], isSep) == [[x] + e[0]] + e[1..];
    } else {
      var t := s + [x];
      assert t[0] == s[0] && t[1..] == s[1..] + [x];
      SplitSnoc(s[1..], x, isSep);
      var p' := Split(s[1..], isSep);
      var n := |p'|;
      var r := Split(t[1..], isSep);
      assert r == p'[..n - 1] + [p'[n - 1] + [x]];
      if isSep(s[0]) {
        assert Split(t, isSep) == [[]] + r;
        assert Split(s, isSep) == [[]] + p';
        ExtendLastAfterHead([], p', x);
      } else {
        assert Split(t, isSep) == [[s[0]] + r[0]] + r[1..];
        assert Split(s, isSep) == [[s[0]] + p'[0]] + p'[1..];
        ExtendLastAfterFirst(s[0], p', x);
      }
    }
  }

  /** Extending the last piece commutes with adding a piece in front. */
  lemma ExtendLastAfterHead<T>(h: seq<T>, p: seq<seq<T>>, x: T)
    requires |p| >= 1
    ensures var q := [h] + p;
      [h] + (p[..|p| - 1] + [p[|p| - 1] + [x]]) == q[..|q| - 1] + [q[|q| - 1] + [x]]
  {
    var q := [h] + p;
    assert q[..|q| - 1] == [h] + p[..|p| - 1];
  }

  /** Extending the last piece commutes with extending the first piece. */
  lemma ExtendLastAfterFirst<T>(c: T, p: seq<seq<T>>, x: T)
    requires |p| >= 1
    ensures var q := [[c] + p[0]] + p[1..];
      var r := p[..|p| - 1] + [p[|p| - 1] + [x]];
      [[c] + r[0]] + r[1..] == q[..|q| - 1] + [q[|q| - 1] + [x]]
  {
    var n := |p|;
    var r := p[..n - 1] + [p[n - 1] + [x]];
    if n == 1 {
      assert r == [p[0] + [x]];
      assert [c] + (p[0] + [x]) == ([c] + p[0]) + [x];
    } else {
      assert r[0] == p[0];
      assert r[1..] == p[1..n - 1] + [p[n - 1] + [x]];
    }
  }

  /** Splitting leaves no non-empty piece exactly when every element is a
      separator. */
  lemma {:induction false} SplitAllSeparators<T>(s: seq<T>, isSep: T -> bool)
    ensures NonEmpty(Split(s, isSep)) == [] <==> forall i | 0 <= i < |s| :: isSep(s[i])
    decreases |s|
  {
    if s == [] {
      var empty: seq<seq<T>> := [[]];
      assert NonEmpty(empty) == [] + NonEmpty(empty[1..]);
    } else {
      SplitAllSeparators(s[1..], isSep);
      var rest := Split(s[1..], isSep);
      if isSep(s[0]) {
        var parts := [[]] + rest;
        assert parts[1..] == rest;
        assert NonEmpty(parts) == NonEmpty(rest);
        assert (forall i | 0 <= i < |s| :: isSep(s[i])) <==> (forall i | 0 <= i < |s[1..]| :: isSep(s[1..][i]));
      } else {
        var parts := [[s[0]] + rest[0]] + rest[1..];
        assert NonEmpty(parts)[0] == parts[0];
      }
    }
  }

  /** A separator added at the end opens an empty last piece. */
  lemma SplitSnocSeparator<T>(s: seq<T>, x: T, isSep: T -> bool)
    requires isSep(x)
    ensures Split(s + [x], isSep) == Split(s, isSep) + [[]]
  {
    SplitAround(s, x, [], isSep);
    assert s + [x] + [] == s + [x];
  }

  /** Joining with one more piece at the end adds the separator and the piece. */
  lemma {:induction false} JoinWithSnoc<T>(sep: seq<T>, parts: seq<seq<T>>, x: seq<T>)
    requires |parts| >= 1
    ensures JoinWith(sep, parts + [x]) == JoinWith(sep, parts) + sep + x
    decreases |parts|
  {
    var ps := parts + [x];
    assert ps[0] == parts[0] && ps[1..] == parts[1..] + [x];
    if |parts| > 1 {
      JoinWithSnoc(sep, parts[1..], x);
    }
  }

  /** A joined text holds no character that neither the separator nor any
      piece holds. */
  lemma {:induction false} JoinWithFree<T>(sep: seq<T>, parts: seq<seq<T>>, bad: T -> bool)
    requires forall j | 0 <= j < |sep| :: !bad(sep[j])
    requires PiecesFree(parts, bad)
    ensures forall j | 0 <= j < |JoinWith(sep, parts)| :: !bad(JoinWith(sep, parts)[j])
    decreases |parts|
  {
    if |parts| > 1 {
      assert PiecesFree(parts[1..], bad) by {
        forall i, j | 0 <= i < |parts[1..]| && 0 <= j < |parts[1..][i]| ensures !bad(parts[1..][i][j]) {
          assert parts[1..][i] == parts[i + 1];
        }
      }
      JoinWithFree(sep, parts[1..], bad);
      var rest := JoinWith(sep, parts[1..]);
      var r := parts[0] + sep + rest;
      forall j | 0 <= j < |r| ensures !bad(r[j]) {
        if j < |parts[0]| {
          assert r[j] == parts[0][j];
        } else if j < |parts[0]| + |sep| {
          assert r[j] == sep[j - |parts[0]|];
        } else {
          assert r[j] == rest[j - |parts[0]| - |sep|];
        }
      }
    } else if |parts| == 1 {
      assert forall j | 0 <= j < |parts[0]| :: !bad(parts[0][j]);
    }
  }

  /** Splitting undoes joining with a separator, when no piece holds one. */
  lemma {:induction false} SplitJoin<T>(parts: seq<seq<T>>, x: T, isSep: T -> bool)
    requires |parts| >= 1 && isSep(x)
    requires forall i, j | 0 <= i < |parts| && 0 <= j < |parts[i]| :: !isSep(parts[i][j])
    ensures Split(JoinWith([x], parts), isSep) == parts
    decreases |parts|
  {
    SplitNoSeparator(parts[0], isSep);
    if |parts| > 1 {
      SplitJoin(parts[1..], x, isSep);
      SplitAround(parts[0], x, JoinWith([x], parts[1..]), isSep);
      assert [parts[0]] + parts[1..] == parts;
    }
  }

  /** Joining undoes splitting at a single separator value. */
  lemma {:induction false} JoinSplit<T>(s: seq<T>, x: T, isSep: T -> bool)
    requires forall y :: isSep(y) <==> y == x
    ensures JoinWith([x], Split(s, isSep)) == s
    decreases |s|
  {
    if s != [] {
      var rest := Split(s[1..], isSep);
      JoinSplit(s[1..], x, isSep);
      if isSep(s[0]) {
        JoinWithEmptyHead([x], rest);
        assert s == [x] + s[1..];
      } else {
        JoinWithConsHead([x], s[0], rest);
        assert s == [s[0]] + s[1..];
      }
    }
  }

  // ---------------------------------------------------------------------------
  // NonEmpty and Words

  lemma {:induction false} NonEmptyAppend<T>(a: seq<seq<T>>, b: seq<seq<T>>)
    ensures NonEmpty(a + b) == NonEmpty(a) + NonEmpty(b)
    decreases |a|
  {
    if a == [] {
      assert a + b == b;
    } else {
      var h := if |a[0]| == 0 then [] else [a[0]];
      calc {
        NonEmpty(a + b);
      == { assert (a + b)[0] == a[0] && (a + b)[1..] == a[1..] + b; }
        h + NonEmpty(a[1..] + b);
      == { NonEmptyAppend(a[1..], b); }
        h + (NonEmpty(a[1..]) + NonEmpty(b));
      ==
        (h + NonEmpty(a[1..])) + NonEmpty(b);
      }
    }
  }


  lemma {:induction false} NonEmptyKeepsNonEmpty<T>(parts: seq<seq<T>>)
    requires forall i | 0 <= i < |parts| :: |parts[i]| > 0
    ensures NonEmpty(parts) == parts
    decreases |parts|
  {
    if parts != [] {
      NonEmptyKeepsNonEmpty(parts[1..]);
      assert [parts[0]] + parts[1..] == parts;
    }
  }

  /** The words of words joined by single spaces are those words. */
  lemma WordsOfJoin(ws: seq<string>)
    requires forall i | 0 <= i < |ws| :: |ws[i]| > 0 && NoSpace(ws[i])
    ensures Words(JoinWith(" ", ws)) == ws
  {
    if ws == [] {
      assert Split("", IsSpace) == [""];
    } else {
      SplitJoin(ws, ' ', IsSpace);
      NonEmptyKeepsNonEmpty(ws);
    }
  }

  // ---------------------------------------------------------------------------
  // Single spacing

  /** Whitespace normal form: nothing at either end, and every whitespace
      character is one space between two non-whitespace characters. */
  ghost predicate SingleSpaced(r: string) {
    forall i | 0 <= i < |r| && IsSpace(r[i]) ::
      0 < i < |r| - 1 && r[i] == ' ' && !IsSpace(r[i - 1]) && !IsSpace(r[i + 1])
  }

  lemma JoinStartsWithFirst<T>(sep: seq<T>, parts: seq<seq<T>>)
    requires |parts| >= 1
    ensures parts[0] <= JoinWith(sep, parts)
  {
  }

  /** Words joined by single spaces are single-spaced. */
  lemma {:induction false} JoinSingleSpaced(ws: seq<string>)
    requires forall i | 0 <= i < |ws| :: |ws[i]| > 0 && NoSpace(ws[i])
    ensures SingleSpaced(JoinWith(" ", ws))
    decreases |ws|
  {
    if |ws| > 1 {
      var w := ws[0];
      var rest := JoinWith(" ", ws[1..]);
      JoinSingleSpaced(ws[1..]);
      JoinStartsWithFirst(" ", ws[1..]);
      var r := JoinWith(" ", ws);
      assert r == w + " " + rest;
      assert rest[0] == ws[1][0];
      forall i | 0 <= i < |r| && IsSpace(r[i])
        ensures 0 < i < |r| - 1 && r[i] == ' ' && !IsSpace(r[i - 1]) && !IsSpace(r[i + 1])
      {
        if i > |w| {
          var j := i - |w| - 1;
          assert r[i] == rest[j];
          assert r[i - 1] == rest[j - 1] && r[i + 1] == rest[j + 1];
        }
      }
    }
  }

  // ---------------------------------------------------------------------------
  // Case folding

  function LowerAll(ws: seq<string>): (r: seq<string>)
    ensures |r| == |ws|
  {
    seq(|ws|, i requires 0 <= i < |ws| => Lower(ws[i]))
  }

  lemma LowerIdempotent(s: string)
    ensures Lower(Lower(s)) == Lower(s)
  {
  }

  lemma {:induction false} SplitLower(s: string)
    ensures Split(Lower(s), IsSpace) == LowerAll(Split(s, IsSpace))
    decreases |s|
  {
    if s != [] {
      var rest := Split(s[1..], IsSpace);
      SplitLower(s[1..]);
      assert Lower(s)[1..] == Lower(s[1..]);
      assert IsSpace(Lower(s)[0]) == IsSpace(s[0]);
      if !IsSpace(s[0]) {
        assert Lower([s[0]] + rest[0]) == [Lower(s)[0]] + Lower(rest[0]);
      }
    }
  }

  lemma {:induction false} NonEmptyLower(parts: seq<string>)
    ensures NonEmpty(LowerAll(parts)) == LowerAll(NonEmpty(parts))
    decreases |parts|
  {
    if parts != [] {
      NonEmptyLower(parts[1..]);
      assert LowerAll(parts)[1..] == LowerAll(parts[1..]);
    }
  }

  /** Case folding and splitting into words commute. */
  lemma WordsLower(s: string)
    ensures Words(Lower(s)) == LowerAll(Words(s))
  {
    SplitLower(s);
    NonEmptyLower(Split(s, IsSpace));
  }

  // ---------------------------------------------------------------------------
  // Replacement

  /** Adding a first element to the first piece adds it to the front of the join. */
  lemma JoinWithConsHead<T>(sep: seq<T>, x: T, parts: seq<seq<T>>)
    requires |parts| >= 1
    ensures JoinWith(sep, [[x] + parts[0]] + parts[1..]) == [x] + JoinWith(sep, parts)
  {
    var ps := [[x] + parts[0]] + parts[1..];
    assert ps[0] == [x] + parts[0] && ps[1..] == parts[1..];
  }

  /** A first piece that is empty contributes only the separator after it. */
  lemma JoinWithEmptyHead<T>(sep: seq<T>, parts: seq<seq<T>>)
    requires |parts| >= 1
    ensures JoinWith(sep, [[]] + parts) == sep + JoinWith(sep, parts)
  {
    var ps := [[]] + parts;
    assert ps[0] == [] && ps[1..] == parts;
  }

  /** Python documents `s.replace(pat, rep)` as `rep.join(s.split(pat))`:
      the scan and the split-and-join agree on every text. */
  lemma {:induction false} ReplaceAllIsJoinOfPieces(s: string, pat: string, rep: string)
    requires pat != []
    ensures ReplaceAll(s, pat, rep) == JoinWith(rep, Pieces(s, pat))
    decreases |s|
  {
    if |pat| <= |s| {
      if s[..|pat|] == pat {
        ReplaceAllIsJoinOfPieces(s[|pat|..], pat, rep);
        JoinWithEmptyHead(rep, Pieces(s[|pat|..], pat));
      } else {
        ReplaceAllIsJoinOfPieces(s[1..], pat, rep);
        JoinWithConsHead(rep, s[0], Pieces(s[1..], pat));
      }
    }
  }

  /** Replacing a pattern by itself changes nothing. */
  lemma {:induction false} ReplaceBySelf(s: string, pat: string)
    requires pat != []
    ensures ReplaceAll(s, pat, pat) == s
    decreases |s|
  {
    if |pat| <= |s| {
      if s[..|pat|] == pat {
        ReplaceBySelf(s[|pat|..], pat);
        assert s == pat + s[|pat|..];
      } else {
        ReplaceBySelf(s[1..], pat);
        assert s == [s[0]] + s[1..];
      }
    }
  }

  /** Pieces and the occurrences between them make up the text again. */
  lemma JoinPieces(s: string, pat: string)
    requires pat != []
    ensures JoinWith(pat, Pieces(s, pat)) == s
  {
    ReplaceAllIsJoinOfPieces(s, pat, pat);
    ReplaceBySelf(s, pat);
  }

  /** Text without the pattern is one piece, so replacement leaves it alone. */
  lemma {:induction false} PiecesWithoutPattern(s: string, pat: string)
    requires pat != [] && !Contains(s, pat)
    ensures Pieces(s, pat) == [s]
    decreases |s|
  {
    if |pat| <= |s| {
      assert !OccursAt(s, pat, 0);
      assert !Contains(s[1..], pat) by {
        forall i | 0 <= i <= |s[1..]| ensures !OccursAt(s[1..], pat, i) {
          if OccursAt(s[1..], pat, i) {
            assert s[i + 1..i + 1 + |pat|] == s[1..][i..i + |pat|];
            assert OccursAt(s, pat, i + 1);
          }
        }
      }
      PiecesWithoutPattern(s[1..], pat);
      assert [s[0]] + s[1..] == s;
    }
  }

  /** Only the leftmost occurrence of the pattern is replaced. */
  lemma {:induction false} ReplaceFirstAt(s: string, pat: string, rep: string, i: nat)
    requires pat != [] && OccursAt(s, pat, i)
    requires forall j | 0 <= j < i :: !OccursAt(s, pat, j)
    ensures ReplaceFirst(s, pat, rep) == s[..i] + rep + s[i + |pat|..]
    decreases i
  {
    if i > 0 {
      assert !OccursAt(s, pat, 0);
      forall j | 0 <= j < i - 1 ensures !OccursAt(s[1..], pat, j) {
        OccursInSuffix(s, pat, 1, j);
      }
      OccursInSuffix(s, pat, 1, i - 1);
      var t := s[1..];
      calc {
        ReplaceFirst(s, pat, rep);
      == { assert s[..|pat|] != pat; }
        [s[0]] + ReplaceFirst(t, pat, rep);
      == { ReplaceFirstAt(t, pat, rep, i - 1); }
        [s[0]] + (t[..i - 1] + rep + t[i - 1 + |pat|..]);
      == { assert s[..i] == [s[0]] + t[..i - 1]; assert s[i + |pat|..] == t[i - 1 + |pat|..]; }
        s[..i] + rep + s[i + |pat|..];
      }
    }
  }

  /** Text without the pattern is left alone. */
  lemma {:induction false} ReplaceFirstWithoutPattern(s: string, pat: string, rep: string)
    requires pat != [] && !Contains(s, pat)
    ensures ReplaceFirst(s, pat, rep) == s
    decreases |s|
  {
    if |pat| <= |s| {
      assert !OccursAt(s, pat, 0);
      assert !Contains(s[1..], pat) by {
        forall i | 0 <= i <= |s[1..]| ensures !OccursAt(s[1..], pat, i) {
          OccursInSuffix(s, pat, 1, i);
        }
      }
      ReplaceFirstWithoutPattern(s[1..], pat, rep);
      assert [s[0]] + s[1..] == s;
    }
  }

  /** Text without the pattern is left alone by ReplaceAll. */
  lemma {:induction false} ReplaceAllWithoutPattern(s: string, pat: string, rep: string)
    requires pat != [] && !Contains(s, pat)
    ensures ReplaceAll(s, pat, rep) == s
    decreases |s|
  {
    if |pat| <= |s| {
      assert !OccursAt(s, pat, 0);
      assert !Contains(s[1..], pat) by {
        forall i | 0 <= i <= |s[1..]| ensures !OccursAt(s[1..], pat, i) {
          OccursInSuffix(s, pat, 1, i);
        }
      }
      ReplaceAllWithoutPattern(s[1..], pat, rep);
      assert [s[0]] + s[1..] == s;
    }
  }

  /** A prefix that no occurrence of `pat` starts inside survives replacement. */
  lemma {:induction false} PrefixSurvivesReplace(t: string, u: string, pat: string, rep: string)
    requires pat != [] && u <= t
    requires forall j | 0 <= j < |u| :: !OccursAt(t, pat, j)
    ensures u <= ReplaceAll(t, pat, rep)
    decreases |t|
  {
    if u != [] && |pat| <= |t| {
      assert !OccursAt(t, pat, 0);
      forall j | 0 <= j < |u| - 1 ensures !OccursAt(t[1..], pat, j) {
        if OccursAt(t[1..], pat, j) {
          assert t[j + 1..j + 1 + |pat|] == t[1..][j..j + |pat|];
          assert OccursAt(t, pat, j + 1);
        }
      }
      PrefixSurvivesReplace(t[1..], u[1..], pat, rep);
      assert u == [t[0]] + u[1..];
    }
  }

  /** Occurrences in a suffix are occurrences in the whole text, shifted. */
  lemma OccursInSuffix(s: string, q: string, d: nat, j: nat)
    requires d <= |s|
    ensures OccursAt(s[d..], q, j) <==> OccursAt(s, q, d + j)
  {
    if d + j + |q| <= |s| {
      assert s[d..][j..j + |q|] == s[d + j..d + j + |q|];
    }
  }

  lemma ContainsAfterPrefix(a: string, b: string, q: string)
    requires Contains(b, q)
    ensures Contains(a + b, q)
  {
    var k :| 0 <= k <= |b| && OccursAt(b, q, k);
    OccursInSuffix(a + b, q, |a|, k);
    assert (a + b)[|a|..] == b;
  }

  /** An occurrence of `q` that no occurrence of `pat` overlaps is still found
      after replacing `pat`. */
  lemma {:induction false} OccurrenceSurvivesReplace(s: string, q: string, i: nat, pat: string, rep: string)
    requires pat != [] && q != [] && OccursAt(s, q, i)
    requires forall j: nat | OccursAt(s, pat, j) :: j + |pat| <= i || i + |q| <= j
    ensures Contains(ReplaceAll(s, pat, rep), q)
    decreases |s|
  {
    if |s| < |pat| {
      assert OccursAt(ReplaceAll(s, pat, rep), q, i);
    } else if s[..|pat|] == pat {
      var d := |pat|;
      assert OccursAt(s, pat, 0);
      OccursInSuffix(s, q, d, i - d);
      forall j: nat | OccursAt(s[d..], pat, j) ensures j + |pat| <= i - d || i - d + |q| <= j {
        OccursInSuffix(s, pat, d, j);
      }
      OccurrenceSurvivesReplace(s[d..], q, i - d, pat, rep);
      ContainsAfterPrefix(rep, ReplaceAll(s[d..], pat, rep), q);
    } else if i == 0 {
      forall j | 0 <= j < |q| ensures !OccursAt(s, pat, j) {
      }
      PrefixSurvivesReplace(s, q, pat, rep);
      assert OccursAt(ReplaceAll(s, pat, rep), q, 0);
    } else {
      OccursInSuffix(s, q, 1, i - 1);
      forall j: nat | OccursAt(s[1..], pat, j) ensures j + |pat| <= i - 1 || i - 1 + |q| <= j {
        OccursInSuffix(s, pat, 1, j);
      }
      OccurrenceSurvivesReplace(s[1..], q, i - 1, pat, rep);
      ContainsAfterPrefix([s[0]], ReplaceAll(s[1..], pat, rep), q);
    }
  }

  /** Every '&' of the text is the start of the entity "&amp;". */
  ghost predicate AmpersandsEncoded(r: string) {
    forall i | 0 <= i < |r| && r[i] == '&' :: OccursAt(r, "&amp;", i)
  }

  /** Replacing '&' by "&amp;" leaves no bare ampersand. */
  lemma {:induction false} ReplaceAmpersands(s: string)
    ensures AmpersandsEncoded(ReplaceAll(s, "&", "&amp;"))
    decreases |s|
  {
    if s != [] {
      ReplaceAmpersands(s[1..]);
      var h := if s[0] == '&' then "&amp;" else [s[0]];
      assert ReplaceAll(s, "&", "&amp;") == h + ReplaceAll(s[1..], "&", "&amp;");
      EncodedCons(h, ReplaceAll(s[1..], "&", "&amp;"));
    }
  }

  lemma EncodedCons(h: string, rt: string)
    requires h == "&amp;" || (|h| == 1 && h[0] != '&')
    requires AmpersandsEncoded(rt)
    ensures AmpersandsEncoded(h + rt)
  {
    var r := h + rt;
    forall i | 0 <= i < |r| && r[i] == '&' ensures OccursAt(r, "&amp;", i) {
      if i >= |h| {
        assert rt[i - |h|] == r[i];
        OccursAfter(h, rt, "&amp;", i - |h|);
      } else {
        assert h == "&amp;" && i == 0;
        assert r[..5] == h;
      }
    }
  }

  /** An occurrence in `t` is an occurrence in `h + t`, shifted by `|h|`. */
  lemma OccursAfter(h: string, t: string, pat: string, j: nat)
    requires OccursAt(t, pat, j)
    ensures OccursAt(h + t, pat, |h| + j)
  {
    assert (h + t)[|h| + j..|h| + j + |pat|] == t[j..j + |pat|];
  }

  // ---------------------------------------------------------------------------
  // Substrings

  /** Text with no whitespace at either end is its own strip. */
  lemma StripUnchanged(s: string)
    requires s == [] || (!IsSpace(s[0]) && !IsSpace(s[|s| - 1]))
    ensures Strip(s) == s
  {
    if s != [] {
      assert LeadingSpaces(s) == 0 && TrailingSpaces(s) == 0;
      assert s[0..|s|] == s;
    }
  }

  /** Stripping only removes characters: a character absent from the text is
      absent from its strip. */
  lemma StripKeepsAbsent(s: string, bad: char -> bool)
    requires forall i | 0 <= i < |s| :: !bad(s[i])
    ensures forall j | 0 <= j < |Strip(s)| :: !bad(Strip(s)[j])
  {
    var r := Strip(s);
    var k :| 0 <= k <= |s| - |r| && IsTrimmedAt(s, r, k);
    forall j | 0 <= j < |r| ensures !bad(r[j]) {
      assert r[j] == s[k + j];
    }
  }

  lemma ContainsTransitive(a: string, b: string, c: string)
    requires Contains(a, b) && Contains(b, c)
    ensures Contains(a, c)
  {
    var i :| 0 <= i <= |a| && OccursAt(a, b, i);
    var j :| 0 <= j <= |b| && OccursAt(b, c, j);
    forall k | 0 <= k < |c| ensures a[i + j + k] == c[k] {
      assert c[k] == b[j..j + |c|][k] == b[j + k];
      assert b[j + k] == a[i..i + |b|][j + k];
    }
    assert a[i + j..i + j + |c|] == c;
    assert OccursAt(a, c, i + j);
  }
}

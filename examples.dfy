/**
 * Concrete cases: the producer strings and catalog situations that the
 * repository's own tests describe, worked out on the model.
 */
module Examples {
  import opened Wrappers
  import opened JavaText
  import opened Shows
  import opened ShowTitles
  import opened CSVRows
  import opened MatchResults
  import opened Catalog
  import opened MatcherProperties
  import opened ProducerParser

  // ------------------------------------------------- one-character searches

  /** A string without the first character of p does not contain p. */
  lemma NoOccurrence(s: string, p: string)
    requires p != [] && p[0] !in s
    ensures !Contains(s, p)
  {
    forall i: nat
      ensures !OccursAt(s, p, i)
    {
      if i + |p| <= |s| {
        assert s[i..i + |p|][0] == s[i];
      }
    }
    ContainsIff(s, p);
  }

  /** The first c in s is at index i. */
  lemma FirstOccurrence(s: string, c: char, i: nat)
    requires i < |s| && s[i] == c
    requires forall k :: 0 <= k < i ==> s[k] != c
    ensures IndexOf(s, [c], 0) == Some(i)
  {
    assert s[i..i + 1] == [c];
    assert OccursAt(s, [c], i);
  }

  /** Splitting at the first c: the text before it, then the split of the rest. */
  lemma SplitAt(s: string, c: char, i: nat)
    requires i < |s| && s[i] == c
    requires forall k :: 0 <= k < i ==> s[k] != c
    ensures Split(s, [c]) == [s[..i]] + Split(s[i + 1..], [c])
  {
    FirstOccurrence(s, c, i);
  }

  /** A string without c splits into itself. */
  lemma SplitNone(s: string, c: char)
    requires c !in s
    ensures Split(s, [c]) == [s]
  {
    NoOccurrence(s, [c]);
  }

  // ------------------------------------------------------- producer strings

  /** In "A, B; C" the comma is the first separator of the list that occurs. */
  lemma DetectCommaFirst()
    ensures DetectSeparator("A, B; C") == ","
  {
    FirstOccurrence("A, B; C", ',', 1);
    assert DetectFrom("A, B; C", 0) == CommonSeparators[0];
  }

  /** The text around the first comma of "A, B; C". */
  lemma AroundComma()
    ensures "A, B; C"[..1] == "A" && "A, B; C"[2..] == " B; C"
  {
  }

  /** Splitting "A, B; C" on the comma leaves the semicolon inside a piece. */
  lemma SplitOnComma()
    ensures SplitLiteral("A, B; C", ",") == ["A", " B; C"]
  {
    SplitAt("A, B; C", ',', 1);
    AroundComma();
    SplitNone(" B; C", ',');
  }

  /** "".split(",") is [""]: with no occurrence, Pattern.split returns its input. */
  lemma SplitEmptyIsOneEmptyPiece()
    ensures SplitLiteral("", ",") == [""]
  {
  }

  /** ",".split(",") is []: both pieces are empty and trailing empties are dropped. */
  lemma SplitLoneSeparatorIsNothing()
    ensures SplitLiteral(",", ",") == []
  {
    SplitAt(",", ',', 0);
    SplitNone("", ',');
    assert ","[1..] == "";
  }

  /** Trimming the pieces removes the space after the comma. */
  lemma TrimPieces()
    ensures TrimAll(["A", " B; C"]) == ["A", "B; C"]
  {
    TrimPadded("", "A", "");
    assert "" + "A" + "" == "A";
    TrimPadded(" ", "B; C", "");
    assert " " + "B; C" + "" == " B; C";
    var r := TrimAll(["A", " B; C"]);
    assert r[0] == "A" && r[1] == "B; C";
  }

  /** "A, B; C" splits on "," only, the first separator that occurs. */
  lemma ParseCommaBeforeSemicolon()
    ensures Parse(Some("A, B; C")) == ["A", "B; C"]
  {
    assert !IsJavaWhitespace("A, B; C"[0]);
    DetectCommaFirst();
    SplitOnComma();
    TrimPieces();
    assert NonEmptyOnly(["A", "B; C"]) == ["A", "B; C"];
  }

  /** A string with none of the characters ",;|/\\" holds none of the
      separators parse looks for. */
  lemma NoSeparator(s: string)
    requires ',' !in s && ';' !in s && '|' !in s && '/' !in s && '\\' !in s
    ensures forall j :: 0 <= j < |CommonSeparators| ==> !Contains(s, CommonSeparators[j])
    ensures !Contains(s, WhitespaceFallback)
  {
    NoOccurrence(s, ",");
    NoOccurrence(s, ";");
    NoOccurrence(s, "|");
    NoOccurrence(s, "/");
    NoOccurrence(s, WhitespaceFallback);
  }

  /** A name without any of those characters, not blank and not emptied by
      trimming, is one producer: the name trimmed (as for "Netflix" or
      "BBC Worldwide"). */
  lemma PlainNameIsOneProducer(s: string)
    requires !IsBlank(s) && Trim(s) != []
    requires ',' !in s && ';' !in s && '|' !in s && '/' !in s && '\\' !in s
    ensures Parse(Some(s)) == [Trim(s)]
  {
    NoSeparator(s);
    ParseWithoutSeparator(s);
  }

  /** Dropping empty pieces from pieces that are all non-empty keeps them all. */
  lemma {:induction false} NonEmptyOnlyKeepsAll(pieces: seq<string>)
    requires forall k :: 0 <= k < |pieces| ==> pieces[k] != []
    ensures NonEmptyOnly(pieces) == pieces
  {
    if pieces != [] {
      NonEmptyOnlyKeepsAll(pieces[1..]);
    }
  }

  /** The parts of a + [c] + b around the c. */
  lemma AroundChar(a: string, c: char, b: string)
    ensures (a + [c] + b)[|a|] == c
    ensures (a + [c] + b)[..|a|] == a && (a + [c] + b)[|a| + 1..] == b
  {
    var s := a + [c] + b;
    assert s[..|a|] == a;
    assert s[|a| + 1..] == b;
  }

  /** Splitting x c y c z on c, with no c in the names, gives x, y and z. */
  lemma SplitThree(x: string, y: string, z: string, c: char)
    requires c !in x && c !in y && c !in z
    ensures Split(x + [c] + (y + [c] + z), [c]) == [x, y, z]
  {
    var rest := y + [c] + z;
    AroundChar(x, c, rest);
    SplitAt(x + [c] + rest, c, |x|);
    AroundChar(y, c, z);
    SplitAt(rest, c, |y|);
    SplitNone(z, c);
  }

  /** The j-th separator is detected in a string that holds it but none of
      the separators before it. */
  lemma DetectsJth(s: string, c: char, j: nat, at: nat)
    requires j < |CommonSeparators| && CommonSeparators[j] == [c]
    requires forall i :: 0 <= i < j ==> CommonSeparators[i][0] !in s
    requires at < |s| && s[at] == c && forall k :: 0 <= k < at ==> s[k] != c
    ensures DetectSeparator(s) == [c]
  {
    FirstOccurrence(s, c, at);
    forall i | 0 <= i < j
      ensures !Contains(s, CommonSeparators[i])
    {
      NoOccurrence(s, CommonSeparators[i]);
    }
  }

  /** Parse of a non-blank string whose split on its detected separator is
      known and does not end with an empty piece. */
  lemma ParseVia(s: string, sep: string, pieces: seq<string>)
    requires sep != [] && !IsBlank(s) && DetectSeparator(s) == sep
    requires Split(s, sep) == pieces && pieces != [] && pieces[|pieces| - 1] != []
    ensures Parse(Some(s)) == NonEmptyOnly(TrimAll(pieces))
  {
  }

  /** x c y c z is not blank and splits on c, under the conditions of ThreePieces. */
  lemma ThreeDetected(x: string, rest: string, c: char, j: nat)
    requires j < |CommonSeparators| && CommonSeparators[j] == [c]
    requires forall i :: 0 <= i < j ==> CommonSeparators[i][0] !in x + rest
    requires c !in x && !IsBlank(x)
    ensures !IsBlank(x + [c] + rest) && DetectSeparator(x + [c] + rest) == [c]
  {
    var s := x + [c] + rest;
    AroundChar(x, c, rest);
    assert forall k :: 0 <= k < |x| ==> s[k] == x[k];
    IsBlankIff(x);
    var k :| 0 <= k < |x| && !IsJavaWhitespace(x[k]);
    assert !IsJavaWhitespace(s[k]);
    IsBlankIff(s);
    forall i | 0 <= i < j
      ensures CommonSeparators[i][0] !in s
    {
      assert CommonSeparators[i][0] !in x + rest;
    }
    DetectsJth(s, c, j, |x|);
  }

  /** Trimming three pieces that trimming does not empty, and dropping empty
      ones, keeps all three. */
  lemma CleanThree(x: string, y: string, z: string)
    requires Trim(x) != [] && Trim(y) != [] && Trim(z) != []
    ensures NonEmptyOnly(TrimAll([x, y, z])) == [Trim(x), Trim(y), Trim(z)]
  {
    var trimmed := TrimAll([x, y, z]);
    assert trimmed == [Trim(x), Trim(y), Trim(z)];
    NonEmptyOnlyKeepsAll(trimmed);
  }

  /** Three names joined by the j-th separator, where no earlier separator
      occurs, give the three names trimmed: the first is not blank, and
      trimming empties none of them. */
  lemma ThreePieces(x: string, y: string, z: string, c: char, j: nat)
    requires j < |CommonSeparators| && CommonSeparators[j] == [c]
    requires forall i :: 0 <= i < j ==> CommonSeparators[i][0] !in x + y + z
    requires c !in x && c !in y && c !in z
    requires !IsBlank(x) && Trim(x) != [] && Trim(y) != [] && Trim(z) != []
    ensures Parse(Some(x + [c] + y + [c] + z)) == [Trim(x), Trim(y), Trim(z)]
  {
    var rest := y + [c] + z;
    assert x + [c] + y + [c] + z == x + [c] + rest;
    forall i | 0 <= i < j
      ensures CommonSeparators[i][0] !in x + rest
    {
      var d := CommonSeparators[i][0];
      assert d !in x && d !in y && d !in z && d != c;
    }
    ThreeDetected(x, rest, c, j);
    SplitThree(x, y, z, c);
    assert z != [];
    ParseVia(x + [c] + rest, [c], [x, y, z]);
    CleanThree(x, y, z);
  }

  /** "P1, P2, P3" gives three producers. */
  lemma ThreeByComma()
    ensures |Parse(Some("P1, P2, P3"))| == 3
  {
    assert !IsJavaWhitespace("P1"[0]) && !IsTrimmable("P1"[0]) && !IsTrimmable(" P2"[1]) && !IsTrimmable(" P3"[1]);
    assert "P1" + [','] + " P2" + [','] + " P3" == "P1, P2, P3";
    ThreePieces("P1", " P2", " P3", ',', 0);
  }

  /** "P1; P2; P3" gives three producers. */
  lemma ThreeBySemicolon()
    ensures |Parse(Some("P1; P2; P3"))| == 3
  {
    assert !IsJavaWhitespace("P1"[0]) && !IsTrimmable("P1"[0]) && !IsTrimmable(" P2"[1]) && !IsTrimmable(" P3"[1]);
    assert "P1" + [';'] + " P2" + [';'] + " P3" == "P1; P2; P3";
    ThreePieces("P1", " P2", " P3", ';', 1);
  }

  /** "P1 | P2 | P3" gives three producers. */
  lemma ThreeByPipe()
    ensures |Parse(Some("P1 | P2 | P3"))| == 3
  {
    assert !IsJavaWhitespace("P1 "[0]) && !IsTrimmable("P1 "[0]) && !IsTrimmable(" P2 "[1]) && !IsTrimmable(" P3"[1]);
    assert "P1 " + ['|'] + " P2 " + ['|'] + " P3" == "P1 | P2 | P3";
    ThreePieces("P1 ", " P2 ", " P3", '|', 2);
  }

  // ----------------------------------------------------- producer names

  /** Trimmed, single-spaced names that differ only in case are a common producer. */
  lemma CaseOnlyDifferenceShared(a: string, b: string)
    requires IsTrimmed(a) && SingleSpaced(a) && IsTrimmed(b) && SingleSpaced(b)
    requires EqualsIgnoreCase(a, b)
    ensures HasCommonProducer(Some([a]), Some([b]))
  {
    TrimOfTrimmed(a);
    CollapseOfSingleSpaced(a);
    TrimOfTrimmed(b);
    CollapseOfSingleSpaced(b);
    assert NormalizeProducerName(Some([a][0])) == NormalizeProducerName(Some([b][0]));
  }

  /** "Warner Bros." is already trimmed and single-spaced. */
  lemma WarnerBrosSpacing()
    ensures IsTrimmed("Warner Bros.") && SingleSpaced("Warner Bros.")
    ensures IsTrimmed("warner bros.") && SingleSpaced("warner bros.")
  {
  }

  /** The two spellings agree ignoring case. */
  lemma WarnerBrosCase()
    ensures EqualsIgnoreCase("Warner Bros.", "warner bros.")
  {
    var la, lb := ToLower("Warner Bros."), ToLower("warner bros.");
    assert la[0] == lb[0] && la[1] == lb[1] && la[2] == lb[2] && la[3] == lb[3];
    assert la[4] == lb[4] && la[5] == lb[5] && la[6] == lb[6] && la[7] == lb[7];
    assert la[8] == lb[8] && la[9] == lb[9] && la[10] == lb[10] && la[11] == lb[11];
    assert la == lb;
  }

  /** "Warner Bros." and "warner bros." share a producer. */
  lemma WarnerBrosShared()
    ensures HasCommonProducer(Some(["Warner Bros."]), Some(["warner bros."]))
  {
    WarnerBrosSpacing();
    WarnerBrosCase();
    CaseOnlyDifferenceShared("Warner Bros.", "warner bros.");
  }

  // ------------------------------------------------ the three character classes

  /** U+001C counts as whitespace for isBlank, so it names no producer. */
  lemma FileSeparatorIsBlank()
    ensures Parse(Some("\U{1C}")) == []
  {
    assert IsJavaWhitespace("\U{1C}"[0]);
  }

  /** U+00A0 is neither whitespace for isBlank nor removed by trim: it is a producer. */
  lemma NoBreakSpaceIsAProducer()
    ensures Parse(Some("\U{A0}")) == ["\U{A0}"]
  {
    var s := "\U{A0}";
    assert !IsJavaWhitespace(s[0]) && !IsTrimmable(s[0]);
    NoSeparator(s);
    ParseWithoutSeparator(s);
    TrimPadded("", s, "");
    assert "" + s + "" == s;
  }

  /** U+0001 is not whitespace for isBlank, but trim removes it: nothing is left. */
  lemma StartOfHeadingTrimsAway()
    ensures Parse(Some("\U{1}")) == []
  {
    var s := "\U{1}";
    assert !IsJavaWhitespace(s[0]) && IsTrimmable(s[0]);
    NoSeparator(s);
    ParseWithoutSeparator(s);
  }

  /** trim removes the leading U+0001 of a producer name. */
  lemma ControlCharacterTrimmedFromName()
    ensures NormalizeProducerName(Some("\U{1}abc")) == "abc"
  {
    var abc := "abc";
    assert "\U{1}" + abc + "" == "\U{1}abc";
    TrimPadded("\U{1}", abc, "");
    assert forall i :: 0 <= i < |abc| ==> !IsRegexSpace(abc[i]) && !IsUpper(abc[i]);
    CollapseOfSingleSpaced(abc);
    ToLowerOfLower(abc);
  }

  /** A row whose only title is U+001F has no usable title and no candidates. */
  lemma UnitSeparatorTitleFindsNothing(shows: seq<Show>, titles: seq<ShowTitle>)
    ensures PotentialShows(shows, titles, CSVRow(Some("\U{1F}"), None, None, None, None)) == []
  {
    assert IsJavaWhitespace("\U{1F}"[0]);
  }

  // ------------------------------------------------------ a one-show catalog

  const MatrixId := Uuid(1, 1)
  const Matrix := Show(Some(MatrixId), Some([]), Some(1999), Some("movie"), Some("Matrix"))
  const MatrixEnglish := ShowTitle(Some(MatrixId), Some("en"), Some("The Matrix"), None, None, None)

  /** The type check ignores case: "Movie" and "movie" agree. */
  lemma MovieTypeMatches()
    ensures IsTypeMatch(Some("Movie"), Some("movie"))
  {
    var a := ToLower("Movie");
    var b := ToLower("movie");
    assert a[0] == b[0] && a[1] == b[1] && a[2] == b[2] && a[3] == b[3] && a[4] == b[4];
    assert a == b;
  }

  /** A row with the show's title, year and type (in another case) matches
      the show's one title, and nothing else. */
  lemma MatchingRowFindsTheTitle()
    ensures MatchesForRow([Matrix], [MatrixEnglish], CSVRow(Some("Matrix"), None, None, Some(1999), Some("Movie")))
         == [Match(CSVRow(Some("Matrix"), None, None, Some(1999), Some("Movie")), MatrixEnglish)]
  {
    var row := CSVRow(Some("Matrix"), None, None, Some(1999), Some("Movie"));
    var shows, titles := [Matrix], [MatrixEnglish];
    assert WellFormedCatalog(shows, titles);
    assert !IsJavaWhitespace("Matrix"[0]);
    assert IsCandidate(shows, titles, row, Matrix);
    MovieTypeMatches();
    assert Accepts(row, Matrix);
    AcceptedShowYieldsItsTitles(shows, titles, row, Matrix);
    var r := MatchesForRow(shows, titles, row);
    MatchesForRowShape(shows, titles, row);
    ResultsForAll(r, Matrix.id);
    assert TitlesOf(titles, Matrix.id) == [MatrixEnglish];
    assert MatchAll(row, [MatrixEnglish]) == [Match(row, MatrixEnglish)];
  }

  /** A row from another year matches nothing, whatever its title. */
  lemma OtherYearFindsNothing(title: Option<string>)
    ensures MatchesForRow([Matrix], [MatrixEnglish], CSVRow(title, None, None, Some(2003), None)) == []
  {
    var row := CSVRow(title, None, None, Some(2003), None);
    var shows, titles := [Matrix], [MatrixEnglish];
    assert WellFormedCatalog(shows, titles);
    RejectedShowYieldsNothing(shows, titles, row, Matrix);
    MatchesForRowShape(shows, titles, row);
    var r := MatchesForRow(shows, titles, row);
    ResultsForNone(r, Matrix.id);
    ResultsForAll(r, Matrix.id);
  }
}

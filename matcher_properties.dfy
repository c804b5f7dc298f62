/**
 * What the matching rules promise: which shows become candidates for a row,
 * which (row, title) pairs are reported, that rejected candidates leave no
 * trace, and how a batch of rows decomposes. The matcher's methods compute
 * the Catalog functions, so every property here holds of them too.
 */
module MatcherProperties {
  import opened Wrappers
  import opened JavaText
  import opened Shows
  import opened ShowTitles
  import opened CSVRows
  import opened MatchResults
  import opened Catalog
  import opened SeqLemmas
  import ProducerParser

  // ------------------------------------------------------ normalization

  /** Normalizing a normalized title changes nothing. */
  lemma NormalizeTitleIdempotent(title: Option<string>)
    ensures NormalizeTitle(Some(NormalizeTitle(title))) == NormalizeTitle(title)
  {
    var key := NormalizeTitle(title);
    assert IsTrimmed(key);
    TrimOfTrimmed(key);
    ToLowerOfLower(key);
  }

  // --------------------------------------------------------- candidates

  /** s is found for a key: either s's own normalized original title equals
      the key, or s owns a catalog title whose normalized form contains the
      key or is contained in it. */
  predicate FoundByKey(titles: seq<ShowTitle>, key: string, s: Show) {
    || NormalizeTitle(s.originalTitle) == key
    || exists t :: t in titles && t.showId == s.id && TitlesOverlap(NormalizeTitle(t.title), key)
  }

  /** s is found for one row title: the title is non-null and not blank, and s is found for its key. */
  predicate FoundBy(titles: seq<ShowTitle>, title: Option<string>, s: Show) {
    NonBlank(title) && FoundByKey(titles, NormalizeTitle(title), s)
  }

  /** s is a catalog show found by the row's original or translated title. */
  predicate IsCandidate(shows: seq<Show>, titles: seq<ShowTitle>, row: CSVRow, s: Show) {
    s in shows && (FoundBy(titles, row.originalTitle, s) || FoundBy(titles, row.translatedTitle, s))
  }

  /** A title that overlaps the key brings in the show that owns it. */
  lemma {:induction false} OverlapOwnersComplete(shows: seq<Show>, titles: seq<ShowTitle>, key: string, t: ShowTitle)
    requires t in titles && TitlesOverlap(NormalizeTitle(t.title), key)
    requires LookupById(shows, t.showId).Some?
    ensures LookupById(shows, t.showId).value in OverlapOwners(shows, titles, key)
  {
    var n := |titles| - 1;
    assert titles == titles[..n] + [titles[n]];
    if t != titles[n] {
      assert t in titles[..n];
      OverlapOwnersComplete(shows, titles[..n], key, t);
    }
  }

  /** Distinct drops no show of a catalog with distinct ids. */
  lemma DistinctKeeps(shows: seq<Show>, xs: seq<Show>, s: Show)
    requires UniqueIds(shows)
    requires forall x :: x in xs ==> x in shows
    requires s in xs
    ensures s in Distinct(xs)
  {
    var r := Distinct(xs);
    assert ContainsShow(r, s);
    var k :| 0 <= k < |r| && ShowEquals(r[k], s);
    SameIdSameShow(shows, r[k], s);
  }

  /** Every show found for a title is a catalog show that the title finds. */
  lemma ShowsByTitleSound(shows: seq<Show>, titles: seq<ShowTitle>, title: string, s: Show)
    requires s in ShowsByTitle(shows, titles, title)
    ensures s in shows && FoundByKey(titles, NormalizeTitle(Some(title)), s)
  {
    var key := NormalizeTitle(Some(title));
    DirectMatchesMembers(shows, key);
    OverlapOwnersSound(shows, titles, key);
    assert s in DirectMatches(shows, key) + OverlapOwners(shows, titles, key);
  }

  /** Every catalog show that a title finds is found for it. */
  lemma ShowsByTitleComplete(shows: seq<Show>, titles: seq<ShowTitle>, title: string, s: Show)
    requires UniqueIds(shows)
    requires s in shows && FoundByKey(titles, NormalizeTitle(Some(title)), s)
    ensures s in ShowsByTitle(shows, titles, title)
  {
    var key := NormalizeTitle(Some(title));
    var found := DirectMatches(shows, key) + OverlapOwners(shows, titles, key);
    DirectMatchesMembers(shows, key);
    OverlapOwnersSound(shows, titles, key);
    assert forall x :: x in found ==> x in shows;
    if NormalizeTitle(s.originalTitle) == key {
      assert s in DirectMatches(shows, key);
    } else {
      var t :| t in titles && t.showId == s.id && TitlesOverlap(NormalizeTitle(t.title), key);
      OverlapOwnersComplete(shows, titles, key, t);
      SameIdSameShow(shows, LookupById(shows, t.showId).value, s);
      assert s in OverlapOwners(shows, titles, key);
    }
    DistinctKeeps(shows, found, s);
  }

  /** The candidates of a row are exactly the catalog shows that one of its titles finds. */
  lemma PotentialShowsIff(shows: seq<Show>, titles: seq<ShowTitle>, row: CSVRow, s: Show)
    requires UniqueIds(shows)
    ensures s in PotentialShows(shows, titles, row) <==> IsCandidate(shows, titles, row, s)
  {
    var byOriginal := TitleCandidates(shows, titles, row.originalTitle);
    var byTranslated := TitleCandidates(shows, titles, row.translatedTitle);
    assert forall x :: x in byOriginal + byTranslated ==> x in shows;
    if s in PotentialShows(shows, titles, row) {
      assert s in byOriginal + byTranslated;
      if s in byOriginal {
        ShowsByTitleSound(shows, titles, row.originalTitle.value, s);
      } else {
        ShowsByTitleSound(shows, titles, row.translatedTitle.value, s);
      }
    }
    if IsCandidate(shows, titles, row, s) {
      if FoundBy(titles, row.originalTitle, s) {
        ShowsByTitleComplete(shows, titles, row.originalTitle.value, s);
      } else {
        ShowsByTitleComplete(shows, titles, row.translatedTitle.value, s);
      }
      DistinctKeeps(shows, byOriginal + byTranslated, s);
    }
  }

  /** A row title that normalizes to the empty key (such as "!!!") makes every
      show that owns at least one title a candidate, since every string
      contains the empty string. */
  lemma EmptyKeyFindsEveryTitledShow(shows: seq<Show>, titles: seq<ShowTitle>, row: CSVRow, s: Show, t: ShowTitle)
    requires UniqueIds(shows)
    requires NonBlank(row.originalTitle) && NormalizeTitle(row.originalTitle) == []
    requires s in shows && t in titles && t.showId == s.id
    ensures s in PotentialShows(shows, titles, row)
  {
    ContainsEmpty(NormalizeTitle(t.title));
    assert TitlesOverlap(NormalizeTitle(t.title), NormalizeTitle(row.originalTitle));
    PotentialShowsIff(shows, titles, row, s);
  }

  // ------------------------------------------------------------ results

  /** An accepted candidate yields a match for each of its show's titles. */
  lemma {:induction false} EmitAcceptedComplete(row: CSVRow, titles: seq<ShowTitle>, candidates: seq<Show>, s: Show, t: ShowTitle)
    requires forall c :: c in candidates ==> HasProducerList(c)
    requires s in candidates && Accepts(row, s)
    requires t in titles && t.showId == s.id
    ensures Match(row, t) in EmitAccepted(row, titles, candidates)
  {
    var n := |candidates| - 1;
    assert candidates == candidates[..n] + [candidates[n]];
    if s == candidates[n] {
      var group := TitlesOf(titles, s.id);
      var k :| 0 <= k < |group| && group[k] == t;
      assert MatchAll(row, group)[k] == Match(row, t);
    } else {
      assert s in candidates[..n];
      EmitAcceptedComplete(row, titles, candidates[..n], s, t);
    }
  }

  /** Every result for a row is an accepted match of that row with a catalog
      title; a rejection is never reported. */
  lemma MatchesForRowShape(shows: seq<Show>, titles: seq<ShowTitle>, row: CSVRow)
    requires WellFormedCatalog(shows, titles)
    ensures forall m :: m in MatchesForRow(shows, titles, row) ==>
              && m.isMatch && m.reason == MatchFound && m.csvRow == row
              && m == Match(row, m.showTitle) && m.showTitle in titles
  {
    EmitAcceptedSound(row, titles, PotentialShows(shows, titles, row));
  }

  /** The row is matched with title t exactly when t belongs to a candidate
      show that passes the year, type and producer checks. */
  lemma MatchesForRowIff(shows: seq<Show>, titles: seq<ShowTitle>, row: CSVRow, t: ShowTitle)
    requires WellFormedCatalog(shows, titles)
    ensures Match(row, t) in MatchesForRow(shows, titles, row)
            <==> t in titles && exists s :: IsCandidate(shows, titles, row, s) && HasProducerList(s)
                                               && Accepts(row, s) && s.id == t.showId
  {
    var candidates := PotentialShows(shows, titles, row);
    if Match(row, t) in MatchesForRow(shows, titles, row) {
      EmitAcceptedSound(row, titles, candidates);
      var s :| s in candidates && HasProducerList(s) && Accepts(row, s) && t.showId == s.id;
      PotentialShowsIff(shows, titles, row, s);
    }
    if t in titles && exists s :: IsCandidate(shows, titles, row, s) && HasProducerList(s)
                                  && Accepts(row, s) && s.id == t.showId {
      var s :| IsCandidate(shows, titles, row, s) && HasProducerList(s) && Accepts(row, s) && s.id == t.showId;
      PotentialShowsIff(shows, titles, row, s);
      EmitAcceptedComplete(row, titles, candidates, s, t);
    }
  }

  /** A catalog show that fails the year, type or producer check contributes
      no result, whatever its titles. */
  lemma RejectedShowYieldsNothing(shows: seq<Show>, titles: seq<ShowTitle>, row: CSVRow, s: Show)
    requires WellFormedCatalog(shows, titles)
    requires s in shows && !Accepts(row, s)
    ensures forall m :: m in MatchesForRow(shows, titles, row) ==> m.showTitle.showId != s.id
  {
    var candidates := PotentialShows(shows, titles, row);
    EmitAcceptedSound(row, titles, candidates);
    forall m | m in MatchesForRow(shows, titles, row)
      ensures m.showTitle.showId != s.id
    {
      var c :| c in candidates && HasProducerList(c) && Accepts(row, c) && m.showTitle.showId == c.id;
      if c.id == s.id {
        SameIdSameShow(shows, c, s);
      }
    }
  }

  /** The three ways a candidate is rejected: both years known and different,
      both types known and different ignoring case, or both producer lists
      non-empty with no normalized name in common. */
  lemma RejectionCases(row: CSVRow, s: Show)
    requires HasProducerList(s)
    ensures !Accepts(row, s) <==>
              || (row.productionYear.Some? && s.productionYear.Some? && row.productionYear.value != s.productionYear.value)
              || (row.kind.Some? && s.kind.Some? && ToLower(row.kind.value) != ToLower(s.kind.value))
              || (var csvProducers := ProducerParser.Parse(row.producers);
                  && csvProducers != [] && s.producers.value != []
                  && !exists i, j :: 0 <= i < |csvProducers| && 0 <= j < |s.producers.value|
                       && ProducerParser.NormalizeProducerName(Some(csvProducers[i]))
                          == ProducerParser.NormalizeProducerName(Some(s.producers.value[j])))
  {
  }

  /** The results that belong to the show with the given id, in order. */
  function ResultsFor(results: seq<MatchResult>, id: Option<Uuid>): seq<MatchResult> {
    if results == [] then []
    else
      var n := |results| - 1;
      ResultsFor(results[..n], id) + (if results[n].showTitle.showId == id then [results[n]] else [])
  }

  lemma {:induction false} ResultsForAppend(a: seq<MatchResult>, b: seq<MatchResult>, id: Option<Uuid>)
    ensures ResultsFor(a + b, id) == ResultsFor(a, id) + ResultsFor(b, id)
  {
    if b != [] {
      var n := |b| - 1;
      assert (a + b)[..|a + b| - 1] == a + b[..n];
      assert (a + b)[|a + b| - 1] == b[n];
      ResultsForAppend(a, b[..n], id);
      AppendAssociative(ResultsFor(a, id), ResultsFor(b[..n], id),
                        if b[n].showTitle.showId == id then [b[n]] else []);
    } else {
      assert a + b == a;
    }
  }

  lemma {:induction false} ResultsForNone(a: seq<MatchResult>, id: Option<Uuid>)
    requires forall m :: m in a ==> m.showTitle.showId != id
    ensures ResultsFor(a, id) == []
  {
    if a != [] {
      var n := |a| - 1;
      assert a[n] in a;
      assert forall m :: m in a[..n] ==> m in a;
      ResultsForNone(a[..n], id);
    }
  }

  lemma {:induction false} ResultsForAll(a: seq<MatchResult>, id: Option<Uuid>)
    requires forall m :: m in a ==> m.showTitle.showId == id
    ensures ResultsFor(a, id) == a
  {
    if a != [] {
      var n := |a| - 1;
      var front := a[..n];
      assert a == front + [a[n]];
      assert a[n].showTitle.showId == id;
      ResultsForAll(front, id);
      assert ResultsFor(a, id) == ResultsFor(front, id) + [a[n]];
    }
  }

  /** Every match for a title group belongs to the group's show. */
  lemma MatchAllOwners(row: CSVRow, titles: seq<ShowTitle>, id: Option<Uuid>)
    ensures forall m :: m in MatchAll(row, TitlesOf(titles, id)) ==> m.showTitle.showId == id
  {
    var group := TitlesOf(titles, id);
    forall m | m in MatchAll(row, group)
      ensures m.showTitle.showId == id
    {
      var k :| 0 <= k < |MatchAll(row, group)| && MatchAll(row, group)[k] == m;
      assert group[k] in group;
    }
  }

  /** Dropping the last candidate keeps the rest distinct, and the last
      candidate's id is not among them. */
  lemma CandidatesFront(candidates: seq<Show>)
    requires candidates != [] && UniqueIds(candidates)
    ensures UniqueIds(candidates[..|candidates| - 1])
    ensures forall c :: c in candidates[..|candidates| - 1] ==> c in candidates && c.id != candidates[|candidates| - 1].id
  {
    var n := |candidates| - 1;
    assert forall i :: 0 <= i < n ==> candidates[..n][i] == candidates[i];
  }

  /** Among candidates with distinct ids, an accepted candidate's results are
      exactly one match per title of its show, in catalog order. */
  lemma {:induction false} EmitAcceptedGroup(row: CSVRow, titles: seq<ShowTitle>, candidates: seq<Show>, s: Show)
    requires forall c :: c in candidates ==> HasProducerList(c)
    requires UniqueIds(candidates)
    requires s in candidates && Accepts(row, s)
    ensures ResultsFor(EmitAccepted(row, titles, candidates), s.id) == MatchAll(row, TitlesOf(titles, s.id))
  {
    var n := |candidates| - 1;
    var front := candidates[..n];
    var last := candidates[n];
    assert candidates == front + [last];
    var tail := if Accepts(row, last) then MatchAll(row, TitlesOf(titles, last.id)) else [];
    assert EmitAccepted(row, titles, candidates) == EmitAccepted(row, titles, front) + tail;
    ResultsForAppend(EmitAccepted(row, titles, front), tail, s.id);
    MatchAllOwners(row, titles, last.id);
    CandidatesFront(candidates);
    if last == s {
      EmitAcceptedSound(row, titles, front);
      ResultsForNone(EmitAccepted(row, titles, front), s.id);
      ResultsForAll(tail, s.id);
    } else {
      assert s in front;
      EmitAcceptedGroup(row, titles, front, s);
      ResultsForNone(tail, s.id);
    }
  }

  /** For an accepted candidate of the row, the results that belong to it are
      one match per title of the show, in catalog order; a show with no titles
      therefore yields nothing. */
  lemma AcceptedShowYieldsItsTitles(shows: seq<Show>, titles: seq<ShowTitle>, row: CSVRow, s: Show)
    requires WellFormedCatalog(shows, titles)
    requires IsCandidate(shows, titles, row, s) && Accepts(row, s)
    ensures ResultsFor(MatchesForRow(shows, titles, row), s.id) == MatchAll(row, TitlesOf(titles, s.id))
    ensures TitlesOf(titles, s.id) == [] ==> ResultsFor(MatchesForRow(shows, titles, row), s.id) == []
  {
    PotentialShowsIff(shows, titles, row, s);
    EmitAcceptedGroup(row, titles, PotentialShows(shows, titles, row), s);
  }

  // -------------------------------------------------------------- batches

  lemma MatchesForRowsSnoc(shows: seq<Show>, titles: seq<ShowTitle>, rows: seq<CSVRow>, row: CSVRow)
    requires forall s :: s in shows ==> HasProducerList(s)
    ensures MatchesForRows(shows, titles, rows + [row])
         == MatchesForRows(shows, titles, rows) + MatchesForRow(shows, titles, row)
  {
    assert (rows + [row])[..|rows|] == rows;
  }

  /** Matching a batch of rows is matching its parts one after the other. */
  lemma {:induction false} MatchesForRowsAppend(shows: seq<Show>, titles: seq<ShowTitle>, rows1: seq<CSVRow>, rows2: seq<CSVRow>)
    requires forall s :: s in shows ==> HasProducerList(s)
    ensures MatchesForRows(shows, titles, rows1 + rows2)
         == MatchesForRows(shows, titles, rows1) + MatchesForRows(shows, titles, rows2)
  {
    if rows2 == [] {
      assert rows1 + rows2 == rows1;
    } else {
      var n := |rows2| - 1;
      var front := rows2[..n];
      assert rows2 == front + [rows2[n]];
      assert rows1 + rows2 == (rows1 + front) + [rows2[n]];
      MatchesForRowsSnoc(shows, titles, rows1 + front, rows2[n]);
      MatchesForRowsSnoc(shows, titles, front, rows2[n]);
      MatchesForRowsAppend(shows, titles, rows1, front);
      AppendAssociative(MatchesForRows(shows, titles, rows1), MatchesForRows(shows, titles, front),
                        MatchesForRow(shows, titles, rows2[n]));
    }
  }

  /** A result of a batch is a result of its first rows or of its last row. */
  lemma InBatchSnoc(shows: seq<Show>, titles: seq<ShowTitle>, rows: seq<CSVRow>, m: MatchResult)
    requires forall s :: s in shows ==> HasProducerList(s)
    requires rows != [] && m in MatchesForRows(shows, titles, rows)
    ensures m in MatchesForRows(shows, titles, rows[..|rows| - 1]) || m in MatchesForRow(shows, titles, rows[|rows| - 1])
  {
  }

  /** A result of the first rows is a result of the batch. */
  lemma InBatchFromFront(shows: seq<Show>, titles: seq<ShowTitle>, rows: seq<CSVRow>, n: nat, m: MatchResult)
    requires forall s :: s in shows ==> HasProducerList(s)
    requires n + 1 == |rows| && m in MatchesForRows(shows, titles, rows[..n])
    ensures m in MatchesForRows(shows, titles, rows)
  {
  }

  /** A result of the last row is a result of the batch. */
  lemma InBatchFromLast(shows: seq<Show>, titles: seq<ShowTitle>, rows: seq<CSVRow>, n: nat, m: MatchResult)
    requires forall s :: s in shows ==> HasProducerList(s)
    requires n + 1 == |rows| && m in MatchesForRow(shows, titles, rows[n])
    ensures m in MatchesForRows(shows, titles, rows)
  {
  }

  /** A result of a batch comes from one of its rows. */
  lemma {:induction false} BatchResultHasRow(shows: seq<Show>, titles: seq<ShowTitle>, rows: seq<CSVRow>, m: MatchResult)
    returns (i: nat)
    requires forall s :: s in shows ==> HasProducerList(s)
    requires m in MatchesForRows(shows, titles, rows)
    ensures i < |rows| && m in MatchesForRow(shows, titles, rows[i])
  {
    var n := |rows| - 1;
    InBatchSnoc(shows, titles, rows, m);
    if m in MatchesForRow(shows, titles, rows[n]) {
      i := n;
    } else {
      i := BatchResultHasRow(shows, titles, rows[..n], m);
      assert rows[..n][i] == rows[i];
    }
  }

  /** Every result of a row of a batch is a result of the batch. */
  lemma {:induction false} BatchKeepsRowResult(shows: seq<Show>, titles: seq<ShowTitle>, rows: seq<CSVRow>, i: nat, m: MatchResult)
    requires forall s :: s in shows ==> HasProducerList(s)
    requires i < |rows| && m in MatchesForRow(shows, titles, rows[i])
    ensures m in MatchesForRows(shows, titles, rows)
  {
    var n := |rows| - 1;
    if i < n {
      assert rows[..n][i] == rows[i];
      BatchKeepsRowResult(shows, titles, rows[..n], i, m);
      InBatchFromFront(shows, titles, rows, n, m);
    } else {
      InBatchFromLast(shows, titles, rows, i, m);
    }
  }

  /** A result of a batch is a result of one of its rows, and every result of a row is kept. */
  lemma MatchesForRowsIff(shows: seq<Show>, titles: seq<ShowTitle>, rows: seq<CSVRow>, m: MatchResult)
    requires forall s :: s in shows ==> HasProducerList(s)
    ensures m in MatchesForRows(shows, titles, rows)
            <==> exists i :: 0 <= i < |rows| && m in MatchesForRow(shows, titles, rows[i])
  {
    if m in MatchesForRows(shows, titles, rows) {
      var i := BatchResultHasRow(shows, titles, rows, m);
    }
    forall i | 0 <= i < |rows| && m in MatchesForRow(shows, titles, rows[i])
      ensures m in MatchesForRows(shows, titles, rows)
    {
      BatchKeepsRowResult(shows, titles, rows, i, m);
    }
  }
}

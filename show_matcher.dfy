/**
 * ShowMatcher.java: the catalog index and the per-row matching procedure.
 * The matcher keeps the catalog lists and three lookups built from them;
 * its methods are proved to compute the reference definitions of Catalog.
 */
module Matching {
  import opened Wrappers
  import opened JavaText
  import opened Shows
  import opened ShowTitles
  import opened CSVRows
  import opened MatchResults
  import opened Catalog
  import opened SeqLemmas

  // ------------------------------------------------------------ collectors

  /** computeIfAbsent(key, k -> new ArrayList<>()).add(v): appends v to the bucket of key. */
  function AddToBucket<K(!new), V>(m: map<K, seq<V>>, key: K, v: V): (m': map<K, seq<V>>)
    ensures key in m' && m'[key] == (if key in m then m[key] else []) + [v]
    ensures forall k :: k != key ==> (k in m' <==> k in m) && (k in m ==> m'[k] == m[k])
  {
    m[key := (if key in m then m[key] else []) + [v]]
  }

  /** shows.stream().collect(Collectors.toMap(Show::getId, Function.identity())) */
  function IndexById(shows: seq<Show>): map<Option<Uuid>, Show>
    requires UniqueIds(shows)
  {
    if shows == [] then map[]
    else
      var n := |shows| - 1;
      assert shows[..n + 1] == shows;
      IndexById(shows[..n])[shows[n].id := shows[n]]
  }

  /** showTitles.stream().collect(Collectors.groupingBy(ShowTitle::getShowId)) */
  function GroupByShowId(titles: seq<ShowTitle>): map<Option<Uuid>, seq<ShowTitle>>
    requires forall t :: t in titles ==> t.showId.Some?
  {
    if titles == [] then map[]
    else
      var n := |titles| - 1;
      assert titles[..n + 1] == titles;
      AddToBucket(GroupByShowId(titles[..n]), titles[n].showId, titles[n])
  }

  /** The map the constructor's loop builds: shows grouped by normalized original title. */
  function IndexByNormalizedTitle(shows: seq<Show>): map<string, seq<Show>> {
    if shows == [] then map[]
    else
      var n := |shows| - 1;
      AddToBucket(IndexByNormalizedTitle(shows[..n]), NormalizeTitle(shows[n].originalTitle), shows[n])
  }

  // ------------------------------------------------- what the lookups mean

  /** m maps the id of every show to the show, and has no other keys. */
  predicate IndexesById(m: map<Option<Uuid>, Show>, shows: seq<Show>) {
    && (forall s :: s in shows ==> s.id in m && m[s.id] == s)
    && (forall id :: id in m ==> exists s :: s in shows && s.id == id)
  }

  /** m maps every show id that occurs among the titles to that show's titles in order, and has no other keys. */
  predicate GroupsByShowId(m: map<Option<Uuid>, seq<ShowTitle>>, titles: seq<ShowTitle>) {
    && (forall t :: t in titles ==> t.showId in m)
    && (forall id :: id in m ==> m[id] == TitlesOf(titles, id) && m[id] != [])
  }

  /** m maps every normalized original title to the shows that have it in order, and has no other keys. */
  predicate IndexesByNormalizedTitle(m: map<string, seq<Show>>, shows: seq<Show>) {
    && (forall s :: s in shows ==> NormalizeTitle(s.originalTitle) in m)
    && (forall key :: key in m ==> m[key] == DirectMatches(shows, key) && m[key] != [])
  }

  lemma {:induction false} IndexByIdIndexes(shows: seq<Show>)
    requires UniqueIds(shows)
    ensures IndexesById(IndexById(shows), shows)
  {
    if shows != [] {
      var n := |shows| - 1;
      assert shows == shows[..n] + [shows[n]];
      IndexByIdIndexes(shows[..n]);
      assert forall s :: s in shows[..n] ==> s.id != shows[n].id;
    }
  }

  lemma TitlesOfStep(titles: seq<ShowTitle>, i: nat, id: Option<Uuid>)
    requires i < |titles|
    ensures TitlesOf(titles[..i + 1], id)
         == TitlesOf(titles[..i], id) + (if titles[i].showId == id then [titles[i]] else [])
  {
    assert titles[..i + 1][..i] == titles[..i];
  }

  /** In a grouping, a missing key stands for an empty group. */
  lemma GroupLookupAgrees(m: map<Option<Uuid>, seq<ShowTitle>>, titles: seq<ShowTitle>, id: Option<Uuid>)
    requires GroupsByShowId(m, titles)
    ensures (if id in m then m[id] else []) == TitlesOf(titles, id)
  {
    var group := TitlesOf(titles, id);
    if group != [] {
      assert group[0] in titles && group[0].showId == id;
    }
  }

  lemma {:induction false} GroupByShowIdGroups(titles: seq<ShowTitle>)
    requires forall t :: t in titles ==> t.showId.Some?
    ensures GroupsByShowId(GroupByShowId(titles), titles)
  {
    if titles != [] {
      var n := |titles| - 1;
      assert titles[..n + 1] == titles;
      var m := GroupByShowId(titles[..n]);
      GroupByShowIdGroups(titles[..n]);
      var id := titles[n].showId;
      var m' := AddToBucket(m, id, titles[n]);
      assert titles == titles[..n] + [titles[n]];
      forall t | t in titles
        ensures t.showId in m'
      {
        if t != titles[n] {
          assert t in titles[..n];
        }
      }
      forall k | k in m'
        ensures m'[k] == TitlesOf(titles, k) && m'[k] != []
      {
        TitlesOfStep(titles, n, k);
        if k == id {
          GroupLookupAgrees(m, titles[..n], id);
        }
      }
    }
  }

  lemma DirectMatchesStep(shows: seq<Show>, i: nat, key: string)
    requires i < |shows|
    ensures DirectMatches(shows[..i + 1], key)
         == DirectMatches(shows[..i], key) + (if NormalizeTitle(shows[i].originalTitle) == key then [shows[i]] else [])
  {
    assert shows[..i + 1][..i] == shows[..i];
  }

  /** In the title index, a missing key stands for no direct match. */
  lemma DirectLookupAgrees(m: map<string, seq<Show>>, shows: seq<Show>, key: string)
    requires IndexesByNormalizedTitle(m, shows)
    ensures (if key in m then m[key] else []) == DirectMatches(shows, key)
  {
    var direct := DirectMatches(shows, key);
    DirectMatchesMembers(shows, key);
    if direct != [] {
      assert direct[0] in shows && NormalizeTitle(direct[0].originalTitle) == key;
    }
  }

  lemma {:induction false} IndexByNormalizedTitleIndexes(shows: seq<Show>)
    ensures IndexesByNormalizedTitle(IndexByNormalizedTitle(shows), shows)
  {
    if shows != [] {
      var n := |shows| - 1;
      assert shows[..n + 1] == shows;
      var m := IndexByNormalizedTitle(shows[..n]);
      IndexByNormalizedTitleIndexes(shows[..n]);
      var key := NormalizeTitle(shows[n].originalTitle);
      var m' := AddToBucket(m, key, shows[n]);
      forall s | s in shows
        ensures NormalizeTitle(s.originalTitle) in m'
      {
        var i :| 0 <= i < |shows| && shows[i] == s;
        if i < n {
          assert shows[..n][i] == s;
        }
      }
      forall k | k in m'
        ensures m'[k] == DirectMatches(shows, k) && m'[k] != []
      {
        TitleBucketStep(shows, n, m, k);
      }
    }
  }

  /** Adding the last show to the index of the others leaves every bucket the direct matches of its key. */
  lemma TitleBucketStep(shows: seq<Show>, n: nat, m: map<string, seq<Show>>, k: string)
    requires n + 1 == |shows| && IndexesByNormalizedTitle(m, shows[..n])
    requires k in AddToBucket(m, NormalizeTitle(shows[n].originalTitle), shows[n])
    ensures AddToBucket(m, NormalizeTitle(shows[n].originalTitle), shows[n])[k] == DirectMatches(shows, k)
  {
    var key := NormalizeTitle(shows[n].originalTitle);
    DirectMatchesStep(shows, n, k);
    assert shows[..n + 1] == shows;
    if k == key {
      DirectLookupAgrees(m, shows[..n], k);
    } else {
      assert AddToBucket(m, key, shows[n])[k] == m[k];
    }
  }

  // ----------------------------------------------- single-key lookup facts

  /** showsById.get(id) agrees with a search of the show list. */
  lemma ShowLookup(shows: seq<Show>, id: Option<Uuid>)
    requires UniqueIds(shows)
    ensures (id in IndexById(shows)) == LookupById(shows, id).Some?
    ensures id in IndexById(shows) ==> IndexById(shows)[id] == LookupById(shows, id).value
  {
    IndexByIdIndexes(shows);
  }

  /** titlesByShowId.getOrDefault(id, List.of()) is the show's title group. */
  lemma TitleGroupLookup(titles: seq<ShowTitle>, id: Option<Uuid>)
    requires forall t :: t in titles ==> t.showId.Some?
    ensures var m := GroupByShowId(titles); (if id in m then m[id] else []) == TitlesOf(titles, id)
  {
    GroupByShowIdGroups(titles);
    GroupLookupAgrees(GroupByShowId(titles), titles, id);
  }

  /** showsByNormalizedTitle.getOrDefault(key, List.of()) is the list of direct matches. */
  lemma DirectLookup(shows: seq<Show>, key: string)
    ensures var m := IndexByNormalizedTitle(shows); (if key in m then m[key] else []) == DirectMatches(shows, key)
  {
    IndexByNormalizedTitleIndexes(shows);
    DirectLookupAgrees(IndexByNormalizedTitle(shows), shows, key);
  }

  // ------------------------------------------------------- loop-step facts

  /** One more title either adds the show that owns it or nothing. */
  lemma OverlapOwnersStep(shows: seq<Show>, titles: seq<ShowTitle>, i: nat, key: string)
    requires UniqueIds(shows)
    requires i < |titles|
    ensures TitlesOverlap(NormalizeTitle(titles[i].title), key) && titles[i].showId in IndexById(shows) ==>
              OverlapOwners(shows, titles[..i + 1], key)
              == OverlapOwners(shows, titles[..i], key) + [IndexById(shows)[titles[i].showId]]
    ensures !(TitlesOverlap(NormalizeTitle(titles[i].title), key) && titles[i].showId in IndexById(shows)) ==>
              OverlapOwners(shows, titles[..i + 1], key) == OverlapOwners(shows, titles[..i], key)
  {
    assert titles[..i + 1][..i] == titles[..i];
    ShowLookup(shows, titles[i].showId);
  }

  /** One more candidate emits its title group when it is accepted, and nothing otherwise. */
  lemma EmitAcceptedStep(row: CSVRow, titles: seq<ShowTitle>, candidates: seq<Show>, i: nat)
    requires forall s :: s in candidates ==> HasProducerList(s)
    requires i < |candidates|
    ensures Accepts(row, candidates[i]) ==>
              EmitAccepted(row, titles, candidates[..i + 1])
              == EmitAccepted(row, titles, candidates[..i]) + MatchAll(row, TitlesOf(titles, candidates[i].id))
    ensures !Accepts(row, candidates[i]) ==>
              EmitAccepted(row, titles, candidates[..i + 1]) == EmitAccepted(row, titles, candidates[..i])
  {
    assert candidates[..i + 1][..i] == candidates[..i];
  }

  lemma MatchAllStep(row: CSVRow, group: seq<ShowTitle>, j: nat)
    requires j < |group|
    ensures MatchAll(row, group[..j + 1]) == MatchAll(row, group[..j]) + [Match(row, group[j])]
  {
    assert group[..j + 1][..j] == group[..j];
  }

  // ----------------------------------------------------------- the matcher

  class ShowMatcher {
    const shows: seq<Show>
    const showTitles: seq<ShowTitle>
    const showsById: map<Option<Uuid>, Show>
    const titlesByShowId: map<Option<Uuid>, seq<ShowTitle>>
    const showsByNormalizedTitle: map<string, seq<Show>>

    /** The three lookups are built from the two catalog lists. */
    ghost predicate Valid() {
      && WellFormedCatalog(shows, showTitles)
      && showsById == IndexById(shows)
      && titlesByShowId == GroupByShowId(showTitles)
      && showsByNormalizedTitle == IndexByNormalizedTitle(shows)
    }

    constructor (shows: seq<Show>, showTitles: seq<ShowTitle>)
      requires WellFormedCatalog(shows, showTitles)
      ensures Valid()
      ensures this.shows == shows && this.showTitles == showTitles
    {
      this.shows := shows;
      this.showTitles := showTitles;
      this.showsById := IndexById(shows);
      this.titlesByShowId := GroupByShowId(showTitles);
      var byTitle: map<string, seq<Show>> := map[];
      for i := 0 to |shows|
        invariant byTitle == IndexByNormalizedTitle(shows[..i])
      {
        assert shows[..i + 1][..i] == shows[..i];
        byTitle := AddToBucket(byTitle, NormalizeTitle(shows[i].originalTitle), shows[i]);
      }
      FullSlice(shows);
      this.showsByNormalizedTitle := byTitle;
    }

    /** findShowsByTitle */
    method FindShowsByTitle(title: string) returns (result: seq<Show>)
      requires Valid()
      ensures result == ShowsByTitle(shows, showTitles, title)
    {
      var normalizedTitle := NormalizeTitle(Some(title));
      DirectLookup(shows, normalizedTitle);
      var found := if normalizedTitle in showsByNormalizedTitle then showsByNormalizedTitle[normalizedTitle] else [];
      for i := 0 to |showTitles|
        invariant found == DirectMatches(shows, normalizedTitle) + OverlapOwners(shows, showTitles[..i], normalizedTitle)
      {
        var showTitle := showTitles[i];
        OverlapOwnersStep(shows, showTitles, i, normalizedTitle);
        var normalizedShowTitle := NormalizeTitle(showTitle.title);
        if Contains(normalizedShowTitle, normalizedTitle) || Contains(normalizedTitle, normalizedShowTitle) {
          if showTitle.showId in showsById {
            AppendAssociative(DirectMatches(shows, normalizedTitle), OverlapOwners(shows, showTitles[..i], normalizedTitle),
                              [showsById[showTitle.showId]]);
            found := found + [showsById[showTitle.showId]];
          }
        }
      }
      FullSlice(showTitles);
      result := Distinct(found);
    }

    /** findPotentialShowsByTitle */
    method FindPotentialShowsByTitle(row: CSVRow) returns (potentialShows: seq<Show>)
      requires Valid()
      ensures potentialShows == PotentialShows(shows, showTitles, row)
    {
      var found: seq<Show> := [];
      if row.originalTitle.Some? && !IsBlank(row.originalTitle.value) {
        var byOriginal := FindShowsByTitle(row.originalTitle.value);
        found := found + byOriginal;
      }
      assert found == TitleCandidates(shows, showTitles, row.originalTitle);
      if row.translatedTitle.Some? && !IsBlank(row.translatedTitle.value) {
        var byTranslated := FindShowsByTitle(row.translatedTitle.value);
        found := found + byTranslated;
      }
      assert found == TitleCandidates(shows, showTitles, row.originalTitle)
                      + TitleCandidates(shows, showTitles, row.translatedTitle);
      potentialShows := Distinct(found);
    }

    /** findMatchesForRow */
    method FindMatchesForRow(csvRow: CSVRow) returns (results: seq<MatchResult>)
      requires Valid()
      ensures results == MatchesForRow(shows, showTitles, csvRow)
    {
      var potentialShows := FindPotentialShowsByTitle(csvRow);
      results := MatchCandidates(csvRow, potentialShows);
    }

    /** The loop of findMatchesForRow over the candidate shows: a candidate
        that fails the year, type or producer check is skipped, and every
        other candidate yields one match per title of its show. */
    method MatchCandidates(csvRow: CSVRow, potentialShows: seq<Show>) returns (results: seq<MatchResult>)
      requires Valid()
      requires forall s :: s in potentialShows ==> s in shows
      ensures results == EmitAccepted(csvRow, showTitles, potentialShows)
    {
      results := [];
      for i := 0 to |potentialShows|
        invariant results == EmitAccepted(csvRow, showTitles, potentialShows[..i])
      {
        var show := potentialShows[i];
        EmitAcceptedStep(csvRow, showTitles, potentialShows, i);
        if !IsYearMatch(csvRow.productionYear, show.productionYear) {
          continue;
        }
        if !IsTypeMatch(csvRow.kind, show.kind) {
          continue;
        }
        if !ProducersAgree(csvRow, show) {
          continue;
        }
        TitleGroupLookup(showTitles, show.id);
        var matchingTitles := if show.id in titlesByShowId then titlesByShowId[show.id] else [];
        ghost var before := results;
        assert MatchAll(csvRow, matchingTitles[..0]) == [];
        for j := 0 to |matchingTitles|
          invariant results == before + MatchAll(csvRow, matchingTitles[..j])
        {
          MatchAllStep(csvRow, matchingTitles, j);
          AppendAssociative(before, MatchAll(csvRow, matchingTitles[..j]), [Match(csvRow, matchingTitles[j])]);
          results := results + [Match(csvRow, matchingTitles[j])];
        }
        FullSlice(matchingTitles);
      }
      FullSlice(potentialShows);
    }

    /** findMatches: every row's decisions in row order, keeping the accepted
        ones; since every decision is accepted, nothing is dropped. */
    function FindMatches(csvRows: seq<CSVRow>): (results: seq<MatchResult>)
      requires Valid()
      ensures results == MatchesForRows(shows, showTitles, csvRows)
    {
      KeepMatches(MatchesForRows(shows, showTitles, csvRows))
    }
  }
}

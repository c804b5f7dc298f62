/**
 * The matching rules of ShowMatcher.java stated directly over the catalog
 * lists (the shows and their titles), without the lookup maps the matcher
 * builds. The matcher's methods are proved to compute exactly these.
 */
module Catalog {
  import opened Wrappers
  import opened JavaText
  import SeqLemmas
  import opened Shows
  import opened ShowTitles
  import opened CSVRows
  import opened MatchResults
  import ProducerParser

  // ------------------------------------------------------ title normalization

  function KeepChar(c: char): string {
    if IsLowerAlnum(c) then [c] else []
  }

  /** replaceAll("[^a-z0-9]", "") */
  function KeepLowerAlnum(s: string): (r: string)
    ensures forall i :: 0 <= i < |r| ==> IsLowerAlnum(r[i])
    ensures (forall i :: 0 <= i < |s| ==> IsLowerAlnum(s[i])) ==> r == s
  {
    if s == [] then [] else KeepChar(s[0]) + KeepLowerAlnum(s[1..])
  }

  /** The filter keeps the surviving characters in their original order. */
  lemma {:induction false} KeepLowerAlnumAppend(a: string, b: string)
    ensures KeepLowerAlnum(a + b) == KeepLowerAlnum(a) + KeepLowerAlnum(b)
  {
    if a == [] {
      assert a + b == b;
    } else {
      assert (a + b)[1..] == a[1..] + b;
      KeepLowerAlnumAppend(a[1..], b);
      SeqLemmas.AppendAssociative(KeepChar(a[0]), KeepLowerAlnum(a[1..]), KeepLowerAlnum(b));
    }
  }

  /** One character survives exactly when it is in a-z or 0-9. */
  lemma KeepLowerAlnumSingleton(c: char)
    ensures KeepLowerAlnum([c]) == if IsLowerAlnum(c) then [c] else []
  {
    assert [c][1..] == [];
  }

  /**
   * ShowMatcher.normalizeTitle: null gives "", otherwise the title trimmed,
   * lower-cased and stripped of everything but a-z and 0-9.
   */
  function NormalizeTitle(title: Option<string>): (key: string)
    ensures title.None? ==> key == []
    ensures forall i :: 0 <= i < |key| ==> IsLowerAlnum(key[i])
  {
    if title.None? then [] else KeepLowerAlnum(ToLower(Trim(title.value)))
  }

  /** A title worth looking up: non-null and not blank. */
  predicate NonBlank(title: Option<string>) {
    title.Some? && !IsBlank(title.value)
  }

  // ----------------------------------------------------- acceptance checks

  /** ShowMatcher.isYearMatch: a null year matches any year. */
  predicate IsYearMatch(csvYear: Option<int>, showYear: Option<int>) {
    csvYear.None? || showYear.None? || csvYear.value == showYear.value
  }

  /** ShowMatcher.isTypeMatch: a null type matches any type; otherwise equalsIgnoreCase. */
  function IsTypeMatch(csvType: Option<string>, showType: Option<string>): (r: bool)
    ensures r <==> csvType.None? || showType.None? || ToLower(csvType.value) == ToLower(showType.value)
  {
    csvType.None? || showType.None? || EqualsIgnoreCase(csvType.value, showType.value)
  }

  /** A show whose producer list is not null (the matcher dereferences it). */
  predicate HasProducerList(s: Show) {
    s.producers.Some?
  }

  /** The producer check: it fails only when both lists are non-empty and share no name. */
  predicate ProducersAgree(row: CSVRow, s: Show)
    requires HasProducerList(s)
  {
    var csvProducers := ProducerParser.Parse(row.producers);
    !(csvProducers != [] && s.producers.value != []
      && !ProducerParser.HasCommonProducer(Some(csvProducers), s.producers))
  }

  /** The three checks findMatchesForRow applies to a candidate, in order. */
  predicate Accepts(row: CSVRow, s: Show)
    requires HasProducerList(s)
  {
    IsYearMatch(row.productionYear, s.productionYear)
    && IsTypeMatch(row.kind, s.kind)
    && ProducersAgree(row, s)
  }

  // --------------------------------------------------------------- catalog

  predicate UniqueIds(shows: seq<Show>) {
    forall i, j :: 0 <= i < j < |shows| ==> shows[i].id != shows[j].id
  }

  /**
   * What the matcher's constructor and its per-row code need of the catalog:
   * distinct show ids (Collectors.toMap throws on a duplicate), a producer
   * list on every show, and a show id on every title (groupingBy throws on
   * a null key).
   */
  predicate WellFormedCatalog(shows: seq<Show>, titles: seq<ShowTitle>) {
    && UniqueIds(shows)
    && (forall s :: s in shows ==> HasProducerList(s))
    && (forall t :: t in titles ==> t.showId.Some?)
  }

  lemma SameIdSameShow(shows: seq<Show>, a: Show, b: Show)
    requires UniqueIds(shows) && a in shows && b in shows && a.id == b.id
    ensures a == b
  {
    var i :| 0 <= i < |shows| && shows[i] == a;
    var j :| 0 <= j < |shows| && shows[j] == b;
    if i < j || j < i {
      assert false;
    }
  }

  /** The show with the given id, if the catalog has one. */
  function LookupById(shows: seq<Show>, id: Option<Uuid>): (r: Option<Show>)
    ensures r.Some? ==> r.value in shows && r.value.id == id
    ensures r.None? ==> forall s :: s in shows ==> s.id != id
  {
    if shows == [] then None
    else if shows[0].id == id then Some(shows[0])
    else LookupById(shows[1..], id)
  }

  /** The titles of one show, in catalog order. */
  function TitlesOf(titles: seq<ShowTitle>, id: Option<Uuid>): (group: seq<ShowTitle>)
    ensures forall t :: t in group <==> t in titles && t.showId == id
  {
    if titles == [] then []
    else
      var n := |titles| - 1;
      assert titles == titles[..n] + [titles[n]];
      TitlesOf(titles[..n], id) + (if titles[n].showId == id then [titles[n]] else [])
  }

  /** The titles of a show keep their catalog order. */
  lemma {:induction false} TitlesOfAppend(a: seq<ShowTitle>, b: seq<ShowTitle>, id: Option<Uuid>)
    ensures TitlesOf(a + b, id) == TitlesOf(a, id) + TitlesOf(b, id)
    decreases |b|
  {
    if b == [] {
      assert a + b == a;
    } else {
      var n := |b| - 1;
      var last := if b[n].showId == id then [b[n]] else [];
      assert (a + b)[..|a + b| - 1] == a + b[..n];
      assert (a + b)[|a + b| - 1] == b[n];
      TitlesOfAppend(a, b[..n], id);
      SeqLemmas.AppendAssociative(TitlesOf(a, id), TitlesOf(b[..n], id), last);
    }
  }

  /** One title belongs to the group exactly when it carries the show's id. */
  lemma TitlesOfSingleton(t: ShowTitle, id: Option<Uuid>)
    ensures TitlesOf([t], id) == if t.showId == id then [t] else []
  {
    assert [t][..0] == [];
  }

  /** The shows whose normalized original title is exactly key, in catalog order. */
  function DirectMatches(shows: seq<Show>, key: string): (r: seq<Show>)
    ensures |r| <= |shows|
    ensures forall s :: s in r ==> s in shows && NormalizeTitle(s.originalTitle) == key
  {
    if shows == [] then []
    else
      var n := |shows| - 1;
      assert shows == shows[..n] + [shows[n]];
      DirectMatches(shows[..n], key) + (if NormalizeTitle(shows[n].originalTitle) == key then [shows[n]] else [])
  }
  /** The direct matches are exactly the shows whose normalized original title is the key. */
  lemma {:induction false} DirectMatchesMembers(shows: seq<Show>, key: string)
    ensures forall s :: s in DirectMatches(shows, key) <==> s in shows && NormalizeTitle(s.originalTitle) == key
  {
    if shows != [] {
      var n := |shows| - 1;
      assert shows == shows[..n] + [shows[n]];
      DirectMatchesMembers(shows[..n], key);
    }
  }


  // --------------------------------------------------- candidate discovery

  /** The symmetric containment test of findShowsByTitle. */
  predicate TitlesOverlap(a: string, b: string) {
    Contains(a, b) || Contains(b, a)
  }

  /** The owners of the titles whose normalized text overlaps key, one per
      such title, in title order; a title whose show is unknown adds none. */
  function OverlapOwners(shows: seq<Show>, titles: seq<ShowTitle>, key: string): (r: seq<Show>)
    ensures |r| <= |titles|
    ensures forall s :: s in r ==> s in shows
  {
    if titles == [] then []
    else
      var n := |titles| - 1;
      assert titles == titles[..n] + [titles[n]];
      var t := titles[n];
      OverlapOwners(shows, titles[..n], key)
        + (if TitlesOverlap(NormalizeTitle(t.title), key) && LookupById(shows, t.showId).Some?
           then [LookupById(shows, t.showId).value] else [])
  }

  /** Some element of xs is equal (by Show.equals) to s. */
  predicate ContainsShow(xs: seq<Show>, s: Show) {
    exists k :: 0 <= k < |xs| && ShowEquals(xs[k], s)
  }

  /** Stream.distinct under Show.equals: the first show of each id, in order. */
  function Distinct(xs: seq<Show>): (r: seq<Show>)
    ensures forall s :: s in r ==> s in xs
    ensures UniqueIds(r)
    ensures forall s :: s in xs ==> ContainsShow(r, s)
  {
    if xs == [] then []
    else
      var n := |xs| - 1;
      assert xs == xs[..n] + [xs[n]];
      var seen := Distinct(xs[..n]);
      assert forall s :: s in xs[..n] ==> ContainsShow(seen + [xs[n]], s) by {
        forall s | s in xs[..n] ensures ContainsShow(seen + [xs[n]], s) {
          var k :| 0 <= k < |seen| && ShowEquals(seen[k], s);
          assert (seen + [xs[n]])[k] == seen[k];
        }
      }
      assert ShowEquals((seen + [xs[n]])[|seen|], xs[n]);
      if ContainsShow(seen, xs[n]) then seen else seen + [xs[n]]
  }

  /** No show before position i shares the id of xs[i]. */
  predicate FirstOfItsId(xs: seq<Show>, i: nat)
    requires i < |xs|
  {
    forall j :: 0 <= j < i ==> xs[j].id != xs[i].id
  }

  /**
   * r is the subsequence of xs at the increasing positions idx, and those
   * positions are exactly the first occurrences of each id.
   */
  predicate FirstOccurrences(xs: seq<Show>, r: seq<Show>, idx: seq<nat>) {
    && |idx| == |r|
    && (forall k :: 0 <= k < |idx| ==> idx[k] < |xs| && r[k] == xs[idx[k]])
    && (forall k, l :: 0 <= k < l < |idx| ==> idx[k] < idx[l])
    && (forall k :: 0 <= k < |idx| ==> idx[k] < |xs| && FirstOfItsId(xs, idx[k]))
    && (forall i :: 0 <= i < |xs| && FirstOfItsId(xs, i) ==> i in idx)
  }

  /** A show whose id was already seen adds no first occurrence. */
  lemma FirstOccurrencesSkip(xs: seq<Show>, r: seq<Show>, idx: seq<nat>)
    requires xs != [] && FirstOccurrences(xs[..|xs| - 1], r, idx)
    requires !FirstOfItsId(xs, |xs| - 1)
    ensures FirstOccurrences(xs, r, idx)
  {
    var n := |xs| - 1;
    assert forall i :: 0 <= i < n ==> xs[..n][i] == xs[i];
    assert forall i :: 0 <= i < n ==> (FirstOfItsId(xs[..n], i) <==> FirstOfItsId(xs, i));
  }

  /** A show with a new id is the next first occurrence. */
  lemma FirstOccurrencesAdd(xs: seq<Show>, r: seq<Show>, idx: seq<nat>)
    requires xs != [] && FirstOccurrences(xs[..|xs| - 1], r, idx)
    requires FirstOfItsId(xs, |xs| - 1)
    ensures FirstOccurrences(xs, r + [xs[|xs| - 1]], idx + [|xs| - 1])
  {
    var n := |xs| - 1;
    assert forall i :: 0 <= i < n ==> xs[..n][i] == xs[i];
    assert forall i :: 0 <= i < n ==> (FirstOfItsId(xs[..n], i) <==> FirstOfItsId(xs, i));
  }

  /**
   * Distinct is the subsequence of xs made of the first show of each id, in
   * order: idx lists the positions it keeps.
   */
  lemma {:induction false} DistinctKeepsFirstOccurrences(xs: seq<Show>) returns (idx: seq<nat>)
    ensures FirstOccurrences(xs, Distinct(xs), idx)
  {
    if xs == [] {
      idx := [];
    } else {
      var n := |xs| - 1;
      var prefix := xs[..n];
      var seen := Distinct(prefix);
      var pidx := DistinctKeepsFirstOccurrences(prefix);
      if ContainsShow(seen, xs[n]) {
        var k :| 0 <= k < |seen| && ShowEquals(seen[k], xs[n]);
        assert seen[k] in prefix;
        var j :| 0 <= j < n && prefix[j] == seen[k];
        assert xs[j].id == xs[n].id;
        FirstOccurrencesSkip(xs, seen, pidx);
        idx := pidx;
      } else {
        forall j | 0 <= j < n ensures xs[j].id != xs[n].id {
          assert prefix[j] == xs[j] && prefix[j] in prefix;
          var k :| 0 <= k < |seen| && ShowEquals(seen[k], prefix[j]);
          assert !ShowEquals(seen[k], xs[n]);
        }
        FirstOccurrencesAdd(xs, seen, pidx);
        idx := pidx + [n];
      }
    }
  }

  /** Every owner found is a catalog show that owns a title overlapping the key. */
  lemma {:induction false} OverlapOwnersSound(shows: seq<Show>, titles: seq<ShowTitle>, key: string)
    ensures forall s :: s in OverlapOwners(shows, titles, key) ==>
      s in shows && exists t :: t in titles && t.showId == s.id && TitlesOverlap(NormalizeTitle(t.title), key)
  {
    if titles != [] {
      var n := |titles| - 1;
      assert titles == titles[..n] + [titles[n]];
      OverlapOwnersSound(shows, titles[..n], key);
    }
  }

  /** findShowsByTitle: direct hits on the normalized title, then the owners
      of overlapping titles, without repeats. */
  function ShowsByTitle(shows: seq<Show>, titles: seq<ShowTitle>, title: string): (r: seq<Show>)
    ensures forall s :: s in r ==> s in shows
    ensures UniqueIds(r)
  {
    var key := NormalizeTitle(Some(title));
    DirectMatchesMembers(shows, key);
    OverlapOwnersSound(shows, titles, key);
    Distinct(DirectMatches(shows, key) + OverlapOwners(shows, titles, key))
  }

  /** The shows found for one of the row's titles; none for a null or blank title. */
  function TitleCandidates(shows: seq<Show>, titles: seq<ShowTitle>, title: Option<string>): (r: seq<Show>)
    ensures forall s :: s in r ==> s in shows
    ensures UniqueIds(r)
    ensures !NonBlank(title) ==> r == []
  {
    if NonBlank(title) then ShowsByTitle(shows, titles, title.value) else []
  }

  /** findPotentialShowsByTitle: the candidates of the original title, then
      of the translated title, without repeats. */
  function PotentialShows(shows: seq<Show>, titles: seq<ShowTitle>, row: CSVRow): (r: seq<Show>)
    ensures forall s :: s in r ==> s in shows
    ensures UniqueIds(r)
    ensures !NonBlank(row.originalTitle) && !NonBlank(row.translatedTitle) ==> r == []
  {
    Distinct(TitleCandidates(shows, titles, row.originalTitle) + TitleCandidates(shows, titles, row.translatedTitle))
  }

  // -------------------------------------------------------------- emission

  /** One accepted decision per title of the group, in group order. */
  function MatchAll(row: CSVRow, group: seq<ShowTitle>): (r: seq<MatchResult>)
    ensures |r| == |group|
    ensures forall i :: 0 <= i < |r| ==> r[i] == Match(row, group[i])
  {
    if group == [] then [] else MatchAll(row, group[..|group| - 1]) + [Match(row, group[|group| - 1])]
  }

  /** The decisions for the candidates in order: each accepted candidate
      contributes the decisions for all of its titles. */
  function EmitAccepted(row: CSVRow, titles: seq<ShowTitle>, candidates: seq<Show>): seq<MatchResult>
    requires forall s :: s in candidates ==> HasProducerList(s)
  {
    if candidates == [] then []
    else
      var n := |candidates| - 1;
      assert candidates == candidates[..n] + [candidates[n]];
      var s := candidates[n];
      EmitAccepted(row, titles, candidates[..n])
        + (if Accepts(row, s) then MatchAll(row, TitlesOf(titles, s.id)) else [])
  }

  /** Every emitted result is a match of the row with a title of an accepted candidate. */
  lemma {:induction false} EmitAcceptedSound(row: CSVRow, titles: seq<ShowTitle>, candidates: seq<Show>)
    requires forall s :: s in candidates ==> HasProducerList(s)
    ensures forall m :: m in EmitAccepted(row, titles, candidates) ==>
              && m == Match(row, m.showTitle) && m.showTitle in titles
              && exists s :: s in candidates && HasProducerList(s) && Accepts(row, s) && m.showTitle.showId == s.id
  {
    if candidates != [] {
      var n := |candidates| - 1;
      assert candidates == candidates[..n] + [candidates[n]];
      EmitAcceptedSound(row, titles, candidates[..n]);
    }
  }

  /** findMatchesForRow: the decisions for the row's candidates; all of them are matches. */
  function MatchesForRow(shows: seq<Show>, titles: seq<ShowTitle>, row: CSVRow): (r: seq<MatchResult>)
    requires forall s :: s in shows ==> HasProducerList(s)
    ensures forall m :: m in r ==> m.isMatch
  {
    EmitAcceptedSound(row, titles, PotentialShows(shows, titles, row));
    EmitAccepted(row, titles, PotentialShows(shows, titles, row))
  }

  /** The decisions for a batch of rows, row after row. */
  function MatchesForRows(shows: seq<Show>, titles: seq<ShowTitle>, rows: seq<CSVRow>): (r: seq<MatchResult>)
    requires forall s :: s in shows ==> HasProducerList(s)
    ensures forall m :: m in r ==> m.isMatch
  {
    if rows == [] then []
    else MatchesForRows(shows, titles, rows[..|rows| - 1]) + MatchesForRow(shows, titles, rows[|rows| - 1])
  }

  /** filter(MatchResult::isMatch) */
  function KeepMatches(results: seq<MatchResult>): (r: seq<MatchResult>)
    ensures forall m :: m in r ==> m in results && m.isMatch
    ensures (forall m :: m in results ==> m.isMatch) ==> r == results
  {
    if results == [] then []
    else (if results[0].isMatch then [results[0]] else []) + KeepMatches(results[1..])
  }
}

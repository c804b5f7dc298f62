# svod-matcher — a Dafny model of the show matcher

svod-matcher reconciles rows of an external CSV file (a title, maybe a
translated title, a producer string, a year and a type) against a
reference catalog of shows and show titles. For each row, `ShowMatcher`
first finds candidate shows by normalized title and by title overlap.
It then rejects candidates whose year, type or producers disagree. It
emits one "Match found" result per title of every remaining candidate.
`ProducerParser` splits a free-form producer string on the first
separator it detects and compares producer names after normalization.

The project models these parts:

- The value types `Show`, `ShowTitle`, `CSVRow` and `MatchResult`.
  - They are datatypes whose nullable fields are `Option`s.
  - Their `equals`/`hashCode` pairs are predicates.
  - Their builders are classes whose setters update fields in place.
- The text operations the matcher relies on, in module `JavaText`:
  - `String.trim`, `isBlank`, `toLowerCase`, `equalsIgnoreCase`, `contains`;
  - `split` on a quoted pattern;
  - collapsing whitespace runs.
- `ProducerParser`: separator detection, parsing, name normalization and
  the common-producer test.
- The matching rules as reference functions over the catalog lists, in
  module `Catalog`.
  - Title normalization, the year, type and producer checks, and the
    direct and overlap title lookups.
  - Candidate de-duplication under `Show.equals`, and per-row and batch
    emission.
- `ShowMatcher` itself, in module `Matching`:
  - a class holding the catalog and the three lookup maps the constructor
    builds;
  - methods with the source's loops, each proved to return exactly what
    the matching reference function returns.
- Properties of the rules, in module `MatcherProperties`:
  - both directions of "which shows are candidates";
  - both directions of "which results a row yields";
  - per-show grouping of the results;
  - rejection;
  - batch concatenation.
- Worked cases, in module `Examples`:
  - producer strings with one or two kinds of separator;
  - a plain producer name;
  - names that differ only in case;
  - control and no-break characters under `trim` and `isBlank`;
  - a one-show catalog.

Java `null` is `None`. Three character classes are modelled, each as
Java defines it:

- `String.trim` removes every code point up to U+0020 from both ends
  (`JavaText.IsTrimmable`);
- `String.isBlank` tests `Character.isWhitespace` (`JavaText.IsJavaWhitespace`):
  - the controls U+0009–U+000D and U+001C–U+001F;
  - the Unicode space, line and paragraph separators except the no-break
    spaces U+00A0, U+2007 and U+202F;
- the regular expression class `\s` of `normalizeProducerName` matches
  space, tab, line feed, vertical tab, form feed and carriage return
  (`JavaText.IsRegexSpace`).

So a string can be blank and still survive `trim` (U+3000), or be
non-blank and vanish under `trim` (U+0001). Case mapping covers `A`–`Z`
only.

The matcher's invariant `Valid()` says that:

- each lookup map equals a function of the catalog lists
  (`IndexById`, `GroupByShowId`, `IndexByNormalizedTitle`);
- the catalog meets the constructor's preconditions.

Lemmas show that each map answers single-key lookups exactly as the list
functions do.

Two facts about the code shape the model:

- `Collectors.toMap` throws on a duplicate show id (ShowMatcher.java:38-39),
  so the constructor requires distinct ids.
- `findMatchesForRow` only ever builds `MatchResult.match`
  (ShowMatcher.java:101). The `isMatch` filter of `findMatches`
  (ShowMatcher.java:62) therefore removes nothing
  (`Matching.ShowMatcher.FindMatches`).

## Model

| member | source | states |
|---|---|---|
| Shows.EqualsIgnoresAllButId | app/src/main/java/org/example/model/Show.java:46-51 | two shows are equal exactly when their ids are equal; producers, year, type and title are ignored |
| Shows.EqualsIsEquivalence | app/src/main/java/org/example/model/Show.java:46-51 | Show.equals is reflexive, symmetric and transitive |
| Shows.HashConsistentWithEquals | app/src/main/java/org/example/model/Show.java:53-56 | equal shows hash the same fields, whatever hash function combines them, and hash the same fields only when equal |
| Shows.ShowBuilder.constructor | app/src/main/java/org/example/model/Show.java:73-81 | a new builder has every field null |
| Shows.ShowBuilder.SetId | app/src/main/java/org/example/model/Show.java:83-86 | sets the id, returns the same builder, leaves the other fields unchanged |
| Shows.ShowBuilder.SetProducers | app/src/main/java/org/example/model/Show.java:88-91 | sets the producers, returns the same builder, leaves the other fields unchanged |
| Shows.ShowBuilder.SetProductionYear | app/src/main/java/org/example/model/Show.java:93-96 | sets the year, returns the same builder, leaves the other fields unchanged |
| Shows.ShowBuilder.SetKind | app/src/main/java/org/example/model/Show.java:98-101 | sets the type, returns the same builder, leaves the other fields unchanged |
| Shows.ShowBuilder.SetOriginalTitle | app/src/main/java/org/example/model/Show.java:103-106 | sets the original title, returns the same builder, leaves the other fields unchanged |
| Shows.ShowBuilder.Build | app/src/main/java/org/example/model/Show.java:108-110 | the built show carries exactly the builder's five fields |
| Shows.BuildIdAndTitle | app/src/main/java/org/example/model/Show.java:73-110 | a builder given only id and title yields a show with those and every other field null |
| ShowTitles.EqualsIgnoresEpisodeName | app/src/main/java/org/example/model/ShowTitle.java:51-60 | changing only the episode name keeps a title equal to itself |
| ShowTitles.EqualsSeesOtherFields | app/src/main/java/org/example/model/ShowTitle.java:51-60 | with equal episode names, ShowTitle.equals is exactly structural equality |
| ShowTitles.EqualsIsEquivalence | app/src/main/java/org/example/model/ShowTitle.java:51-60 | ShowTitle.equals is reflexive, symmetric and transitive |
| ShowTitles.HashConsistentWithEquals | app/src/main/java/org/example/model/ShowTitle.java:62-65 | equal titles hash the same five fields, and only equal titles do |
| ShowTitles.ShowTitleBuilder.constructor | app/src/main/java/org/example/model/ShowTitle.java:83-92 | a new builder has every field null |
| ShowTitles.ShowTitleBuilder.SetShowId | app/src/main/java/org/example/model/ShowTitle.java:94-97 | only the show id changes; the same builder is returned |
| ShowTitles.ShowTitleBuilder.SetLanguage | app/src/main/java/org/example/model/ShowTitle.java:99-102 | only the language changes; the same builder is returned |
| ShowTitles.ShowTitleBuilder.SetTitle | app/src/main/java/org/example/model/ShowTitle.java:104-107 | only the title changes; the same builder is returned |
| ShowTitles.ShowTitleBuilder.SetEpisodeNumber | app/src/main/java/org/example/model/ShowTitle.java:109-112 | only the episode number changes; the same builder is returned |
| ShowTitles.ShowTitleBuilder.SetEpisodeName | app/src/main/java/org/example/model/ShowTitle.java:114-117 | only the episode name changes; the same builder is returned |
| ShowTitles.ShowTitleBuilder.SetSeasonNumber | app/src/main/java/org/example/model/ShowTitle.java:119-122 | only the season number changes; the same builder is returned |
| ShowTitles.ShowTitleBuilder.Build | app/src/main/java/org/example/model/ShowTitle.java:124-126 | the built title carries exactly the builder's six fields |
| ShowTitles.BuildShowLevelTitle | app/src/main/java/org/example/model/ShowTitle.java:83-126 | a title built without episode data has null episode number, episode name and season |
| CSVRows.EqualsIsValueEquality | app/src/main/java/org/example/model/CSVRow.java:44-53 | CSVRow.equals holds exactly when all five fields are equal |
| CSVRows.HashConsistentWithEquals | app/src/main/java/org/example/model/CSVRow.java:55-58 | equal rows hash the same fields, and only equal rows do |
| CSVRows.CSVRowBuilder.constructor | app/src/main/java/org/example/model/CSVRow.java:75-83 | a new builder has every field null |
| CSVRows.CSVRowBuilder.SetOriginalTitle | app/src/main/java/org/example/model/CSVRow.java:85-88 | only the original title changes; the same builder is returned |
| CSVRows.CSVRowBuilder.SetTranslatedTitle | app/src/main/java/org/example/model/CSVRow.java:90-93 | only the translated title changes; the same builder is returned |
| CSVRows.CSVRowBuilder.SetProducers | app/src/main/java/org/example/model/CSVRow.java:95-98 | only the producer string changes; the same builder is returned |
| CSVRows.CSVRowBuilder.SetProductionYear | app/src/main/java/org/example/model/CSVRow.java:100-103 | only the year changes; the same builder is returned |
| CSVRows.CSVRowBuilder.SetKind | app/src/main/java/org/example/model/CSVRow.java:105-108 | only the type changes; the same builder is returned |
| CSVRows.CSVRowBuilder.Build | app/src/main/java/org/example/model/CSVRow.java:110-112 | the built row carries exactly the builder's five fields |
| CSVRows.BuildTitleOnly | app/src/main/java/org/example/model/CSVRow.java:75-112 | a row built from a title alone has every other field null |
| MatchResults.Match | app/src/main/java/org/example/matcher/MatchResult.java:73-75 | a match carries the row and title, is a match, and gives the reason "Match found" |
| MatchResults.NoMatch | app/src/main/java/org/example/matcher/MatchResult.java:85-87 | a rejection carries the row, title and given reason and is not a match |
| MatchResults.MatchNeverEqualsNoMatch | app/src/main/java/org/example/matcher/MatchResult.java:41-49 | no match result equals a rejection, whatever the rows, titles and reason |
| MatchResults.EqualsIffFieldsEqual | app/src/main/java/org/example/matcher/MatchResult.java:41-49 | equality holds exactly when all fields agree, the title compared by ShowTitle.equals |
| MatchResults.EqualsIsEquivalence | app/src/main/java/org/example/matcher/MatchResult.java:41-49 | MatchResult.equals is reflexive, symmetric and transitive |
| JavaText.LowerChar | app/src/main/java/org/example/matcher/ShowMatcher.java:176 | each of A-Z becomes the letter at the same place in a-z; any other character is left alone; so no upper-case letter remains and the trim and \s classes are unchanged |
| JavaText.ToLower | app/src/main/java/org/example/util/ProducerParser.java:70 | toLowerCase keeps the length and lower-cases each character in place |
| JavaText.ToLowerOfLower | app/src/main/java/org/example/util/ProducerParser.java:70 | a string without upper-case letters is its own lower case |
| JavaText.CharEqualsIgnoreCaseIsLowerEquality | app/src/main/java/org/example/matcher/ShowMatcher.java:211 | two characters are equal ignoring case exactly when their lower cases are equal |
| JavaText.EqualsIgnoreCase | app/src/main/java/org/example/matcher/ShowMatcher.java:211 | equalsIgnoreCase holds exactly when the lower-cased strings are equal |
| JavaText.IsBlankIff | app/src/main/java/org/example/util/ProducerParser.java:29 | a string is blank exactly when every character is whitespace by Character.isWhitespace |
| JavaText.IsBlank | app/src/main/java/org/example/util/ProducerParser.java:29 | defined as: the first character passes Character.isWhitespace and the rest is blank; the empty string is blank |
| JavaText.SkipLeading | app/src/main/java/org/example/matcher/ShowMatcher.java:175 | the first position from i holding a code point above U+0020, or the end, with only code points up to U+0020 skipped |
| JavaText.SkipTrailing | app/src/main/java/org/example/matcher/ShowMatcher.java:175 | the end of the string without its trailing code points up to U+0020, never before lo |
| JavaText.Trim | app/src/main/java/org/example/util/ProducerParser.java:35 | trim is empty exactly when every code point is at most U+0020, and otherwise starts and ends with one above U+0020 |
| JavaText.TrimIsSlice | app/src/main/java/org/example/util/ProducerParser.java:35 | trim returns a contiguous slice of its input |
| JavaText.TrimPadded | app/src/main/java/org/example/util/ProducerParser.java:35 | trim of padding up to U+0020 around a string that starts and ends above U+0020 is that string, so trim drops the padding and nothing more |
| JavaText.TrimOfTrimmed | app/src/main/java/org/example/util/ProducerParser.java:35 | trimming a trimmed string changes nothing |
| JavaText.SkipSpaces | app/src/main/java/org/example/util/ProducerParser.java:70 | the first position from i that \s does not match, or the end, with only \s skipped |
| JavaText.DropLeadingSpaces | app/src/main/java/org/example/util/ProducerParser.java:70 | removes exactly the leading run of \s, leaving a suffix of the input |
| JavaText.CollapseWhitespace | app/src/main/java/org/example/util/ProducerParser.java:70 | in the result every \s character is a space and no two are adjacent; a first or last character \s does not match is kept |
| JavaText.CollapseOfSingleSpaced | app/src/main/java/org/example/util/ProducerParser.java:70 | collapsing a string already spaced by single blanks changes nothing |
| JavaText.CollapseRun | app/src/main/java/org/example/util/ProducerParser.java:70 | a leading run of \s before a character it does not match becomes one space |
| JavaText.CollapseAppend | app/src/main/java/org/example/util/ProducerParser.java:70 | cut after a character \s does not match, a string collapses piece by piece |
| JavaText.CollapseSeparatorRun | app/src/main/java/org/example/util/ProducerParser.java:70 | a run of \s between two characters it does not match becomes exactly one space, and the text on either side is kept, itself collapsed |
| JavaText.IndexOf | app/src/main/java/org/example/util/ProducerParser.java:50 | the first occurrence of p at or after i, or none when p occurs nowhere there |
| JavaText.ContainsIff | app/src/main/java/org/example/matcher/ShowMatcher.java:151 | contains holds exactly when p occurs at some position |
| JavaText.ContainsEmpty | app/src/main/java/org/example/matcher/ShowMatcher.java:151 | every string contains the empty string |
| JavaText.Contains | app/src/main/java/org/example/matcher/ShowMatcher.java:151 | defined as: indexOf from 0 finds an occurrence; ContainsIff restates it as an occurrence at some position |
| JavaText.ContainsInSlice | app/src/main/java/org/example/util/ProducerParser.java:34-35 | what a slice contains, the whole string contains |
| JavaText.BeforeFirstOccurrence | app/src/main/java/org/example/util/ProducerParser.java:34 | the text before the first occurrence of p does not contain p |
| JavaText.Split | app/src/main/java/org/example/util/ProducerParser.java:34 | splitting gives at least one piece; no piece contains the separator; joining the pieces with it rebuilds the string |
| JavaText.DropTrailingEmpty | app/src/main/java/org/example/util/ProducerParser.java:34 | removes exactly the empty pieces at the end, as String.split does once the separator occurs |
| JavaText.SplitLiteral | app/src/main/java/org/example/util/ProducerParser.java:34 | split(Pattern.quote(sep)): the input itself when sep does not occur (so "" gives [""]); otherwise the leftmost split cut back to its last non-empty piece; no piece contains sep |
| ProducerParser.DetectFrom | app/src/main/java/org/example/util/ProducerParser.java:49-53 | the first of the remaining separators the string contains, or the fallback when it contains none |
| ProducerParser.DetectSeparator | app/src/main/java/org/example/util/ProducerParser.java:48-57 | the first of comma, semicolon, pipe and slash (in that order) contained in the string; the fallback exactly when none is |
| ProducerParser.TrimAll | app/src/main/java/org/example/util/ProducerParser.java:35 | each piece trimmed, in order |
| ProducerParser.NonEmptyOnly | app/src/main/java/org/example/util/ProducerParser.java:36 | every piece kept is a non-empty input piece, and every non-empty input piece is kept |
| ProducerParser.NonEmptyOnlyAppend | app/src/main/java/org/example/util/ProducerParser.java:36 | filtering a concatenation filters each part, in order |
| ProducerParser.NonEmptyOnlySingleton | app/src/main/java/org/example/util/ProducerParser.java:36 | one piece is kept exactly when it is not empty |
| ProducerParser.Parse | app/src/main/java/org/example/util/ProducerParser.java:28-38 | null or blank gives no producers; every producer returned is non-empty and trimmed |
| ProducerParser.ParsedProducersLackSeparator | app/src/main/java/org/example/util/ProducerParser.java:33-37 | no producer returned contains the separator the string was split on |
| ProducerParser.ParseWithoutSeparator | app/src/main/java/org/example/util/ProducerParser.java:28-56 | a non-blank string without any separator is one producer, the string trimmed, unless trimming empties it, when there is none |
| ProducerParser.NormalizeProducerName | app/src/main/java/org/example/util/ProducerParser.java:65-71 | null gives ""; the result is trimmed, single-spaced and has no upper-case letter |
| ProducerParser.NormalizeProducerNameIdempotent | app/src/main/java/org/example/util/ProducerParser.java:65-71 | normalizing a normalized name changes nothing |
| ProducerParser.NormalizeAll | app/src/main/java/org/example/util/ProducerParser.java:85-91 | each name normalized, in order |
| ProducerParser.AnyContained | app/src/main/java/org/example/util/ProducerParser.java:93-94 | true exactly when some element of the first list occurs in the second |
| ProducerParser.HasCommonProducer | app/src/main/java/org/example/util/ProducerParser.java:80-95 | true exactly when both lists are non-null and some pair of names normalizes to the same text (so false for an empty list) |
| ProducerParser.HasCommonProducerSymmetric | app/src/main/java/org/example/util/ProducerParser.java:80-95 | the order of the two lists does not matter |
| Catalog.KeepLowerAlnum | app/src/main/java/org/example/matcher/ShowMatcher.java:177 | only a-z and 0-9 remain, and a string of only those is kept as is |
| Catalog.KeepLowerAlnumAppend | app/src/main/java/org/example/matcher/ShowMatcher.java:177 | stripping a concatenation strips each part, in order |
| Catalog.KeepLowerAlnumSingleton | app/src/main/java/org/example/matcher/ShowMatcher.java:177 | one character is kept exactly when it is in a-z or 0-9 |
| Catalog.NormalizeTitle | app/src/main/java/org/example/matcher/ShowMatcher.java:170-178 | null gives ""; the key holds only a-z and 0-9 |
| Catalog.IsTypeMatch | app/src/main/java/org/example/matcher/ShowMatcher.java:204-212 | a null type matches anything; otherwise the types must agree after lower-casing |
| Catalog.IsYearMatch | app/src/main/java/org/example/matcher/ShowMatcher.java:187-195 | defined as: either year is null, or the two years are equal |
| Catalog.ProducersAgree | app/src/main/java/org/example/matcher/ShowMatcher.java:89-94 | defined as: the parsed row producers are empty, or the show has no producers, or the two lists share a normalized name |
| Catalog.Accepts | app/src/main/java/org/example/matcher/ShowMatcher.java:79-94 | defined as: the year check, the type check and the producer check all pass, the three conditions under which the loop does not continue |
| Catalog.SameIdSameShow | app/src/main/java/org/example/matcher/ShowMatcher.java:38-39 | with distinct ids, two catalog shows with the same id are the same show |
| Catalog.LookupById | app/src/main/java/org/example/matcher/ShowMatcher.java:152-153 | the catalog show with the id, or none when no show has it |
| Catalog.TitlesOf | app/src/main/java/org/example/matcher/ShowMatcher.java:42-43 | a title is in the group exactly when it is a catalog title with the given show id |
| Catalog.TitlesOfAppend | app/src/main/java/org/example/matcher/ShowMatcher.java:42-43 | the group of a concatenation is the groups of its parts, in order |
| Catalog.TitlesOfSingleton | app/src/main/java/org/example/matcher/ShowMatcher.java:42-43 | one title is in the group exactly when it carries the show id |
| Catalog.DirectMatches | app/src/main/java/org/example/matcher/ShowMatcher.java:143 | at most one entry per show, each a catalog show whose normalized original title is the key; DirectMatchesMembers gives the converse |
| Catalog.DirectMatchesMembers | app/src/main/java/org/example/matcher/ShowMatcher.java:143 | the direct matches are exactly the shows whose normalized original title is the key |
| Catalog.Distinct | app/src/main/java/org/example/matcher/ShowMatcher.java:159-161 | distinct keeps only input shows, no two with one id, and one equal to every input show |
| Catalog.DistinctKeepsFirstOccurrences | app/src/main/java/org/example/matcher/ShowMatcher.java:159-161 | distinct is the subsequence of its input at increasing positions, and those positions are exactly the first show of each id |
| Catalog.OverlapOwners | app/src/main/java/org/example/matcher/ShowMatcher.java:147-157 | at most one owner per title, each a catalog show; OverlapOwnersSound and OverlapOwnersComplete pin which ones |
| Catalog.OverlapOwnersSound | app/src/main/java/org/example/matcher/ShowMatcher.java:147-157 | every owner found is a catalog show owning a title that overlaps the key |
| Catalog.ShowsByTitle | app/src/main/java/org/example/matcher/ShowMatcher.java:138-162 | the shows found are catalog shows with distinct ids |
| Catalog.TitleCandidates | app/src/main/java/org/example/matcher/ShowMatcher.java:118-125 | a null or blank title gives no shows; otherwise catalog shows with distinct ids, those findShowsByTitle returns |
| Catalog.PotentialShows | app/src/main/java/org/example/matcher/ShowMatcher.java:114-130 | candidates are catalog shows with distinct ids; a row with no usable title has none |
| Catalog.MatchAll | app/src/main/java/org/example/matcher/ShowMatcher.java:100-102 | one match per title of the group, in group order |
| Catalog.EmitAccepted | app/src/main/java/org/example/matcher/ShowMatcher.java:78-103 | defined as: for each candidate in order, the matches for all its titles when it passes the checks, nothing otherwise; EmitAcceptedSound and EmitAcceptedComplete state both directions |
| Catalog.EmitAcceptedSound | app/src/main/java/org/example/matcher/ShowMatcher.java:78-103 | every result is a match of the row with a catalog title of an accepted candidate |
| Catalog.MatchesForRow | app/src/main/java/org/example/matcher/ShowMatcher.java:72-106 | every result for a row is a match |
| Catalog.MatchesForRows | app/src/main/java/org/example/matcher/ShowMatcher.java:60-61 | every result for a batch is a match |
| Catalog.KeepMatches | app/src/main/java/org/example/matcher/ShowMatcher.java:62 | keeps only matches, and keeps a list of matches whole |
| Matching.AddToBucket | app/src/main/java/org/example/matcher/ShowMatcher.java:49 | computeIfAbsent(...).add appends the value to the key's list, new or not, and touches no other key |
| Matching.IndexById | app/src/main/java/org/example/matcher/ShowMatcher.java:38-39 | defined as: each show stored under its id, in catalog order; IndexByIdIndexes proves the map is exactly the id index |
| Matching.GroupByShowId | app/src/main/java/org/example/matcher/ShowMatcher.java:42-43 | defined as: each title appended to the bucket of its show id, in order; GroupByShowIdGroups proves each bucket is TitlesOf |
| Matching.IndexByNormalizedTitle | app/src/main/java/org/example/matcher/ShowMatcher.java:46-50 | defined as: each show appended to the bucket of its normalized original title, in order; IndexByNormalizedTitleIndexes proves each bucket is DirectMatches |
| Matching.IndexByIdIndexes | app/src/main/java/org/example/matcher/ShowMatcher.java:38-39 | the id map holds exactly the catalog's ids, each mapped to its show |
| Matching.GroupByShowIdGroups | app/src/main/java/org/example/matcher/ShowMatcher.java:42-43 | the group map holds exactly the ids of some title, each mapped to its titles in order |
| Matching.IndexByNormalizedTitleIndexes | app/src/main/java/org/example/matcher/ShowMatcher.java:46-50 | the title map sends each key to exactly the shows with that normalized title, in order |
| Matching.GroupLookupAgrees | app/src/main/java/org/example/matcher/ShowMatcher.java:98 | getOrDefault on the group map gives the titles of the show |
| Matching.DirectLookupAgrees | app/src/main/java/org/example/matcher/ShowMatcher.java:143 | getOrDefault on the title map gives the direct matches |
| Matching.ShowLookup | app/src/main/java/org/example/matcher/ShowMatcher.java:152-153 | the id map has a show for an id exactly when the catalog does, and it is that show |
| Matching.TitleGroupLookup | app/src/main/java/org/example/matcher/ShowMatcher.java:98 | the built group map answers every id with the titles of that show |
| Matching.DirectLookup | app/src/main/java/org/example/matcher/ShowMatcher.java:143 | the built title map answers every key with its direct matches |
| Matching.ShowMatcher.constructor | app/src/main/java/org/example/matcher/ShowMatcher.java:33-51 | keeps the catalog lists and builds the three lookup maps from them |
| Matching.ShowMatcher.FindShowsByTitle | app/src/main/java/org/example/matcher/ShowMatcher.java:138-162 | the loop over the titles returns exactly the shows the title finds |
| Matching.ShowMatcher.FindPotentialShowsByTitle | app/src/main/java/org/example/matcher/ShowMatcher.java:114-130 | returns exactly the row's candidates |
| Matching.ShowMatcher.FindMatchesForRow | app/src/main/java/org/example/matcher/ShowMatcher.java:72-106 | returns exactly the results the rules give for the row |
| Matching.ShowMatcher.MatchCandidates | app/src/main/java/org/example/matcher/ShowMatcher.java:78-103 | the checks-and-emit loop over the candidates returns exactly the accepted candidates' matches, in order |
| Matching.ShowMatcher.FindMatches | app/src/main/java/org/example/matcher/ShowMatcher.java:59-64 | the filtered batch equals the unfiltered per-row results, row after row |
| MatcherProperties.NormalizeTitleIdempotent | app/src/main/java/org/example/matcher/ShowMatcher.java:170-178 | normalizing a normalized title changes nothing |
| MatcherProperties.OverlapOwnersComplete | app/src/main/java/org/example/matcher/ShowMatcher.java:147-157 | every title overlapping the key brings in its show, when the catalog has it |
| MatcherProperties.DistinctKeeps | app/src/main/java/org/example/matcher/ShowMatcher.java:159-161 | with distinct catalog ids, distinct keeps every input show itself |
| MatcherProperties.ShowsByTitleSound | app/src/main/java/org/example/matcher/ShowMatcher.java:138-162 | a show found has the normalized title as its own key, or owns a title that overlaps it |
| MatcherProperties.ShowsByTitleComplete | app/src/main/java/org/example/matcher/ShowMatcher.java:138-162 | every catalog show meeting either condition is found |
| MatcherProperties.PotentialShowsIff | app/src/main/java/org/example/matcher/ShowMatcher.java:114-130 | a show is a candidate exactly when a non-blank original or translated title finds it |
| MatcherProperties.EmptyKeyFindsEveryTitledShow | app/src/main/java/org/example/matcher/ShowMatcher.java:151 | a title that normalizes to "" (e.g. "!!!") makes every show with a title a candidate |
| MatcherProperties.EmitAcceptedComplete | app/src/main/java/org/example/matcher/ShowMatcher.java:78-103 | every title of an accepted candidate yields its match |
| MatcherProperties.MatchesForRowShape | app/src/main/java/org/example/matcher/ShowMatcher.java:98-102 | every result is a "Match found" of this row with a catalog title |
| MatcherProperties.MatchesForRowIff | app/src/main/java/org/example/matcher/ShowMatcher.java:72-106 | a row yields the match with a title exactly when the title's show is a candidate passing the year, type and producer checks |
| MatcherProperties.RejectedShowYieldsNothing | app/src/main/java/org/example/matcher/ShowMatcher.java:80-94 | a show failing any check contributes no result |
| MatcherProperties.RejectionCases | app/src/main/java/org/example/matcher/ShowMatcher.java:80-94 | a show is rejected exactly when the years differ, or the types differ ignoring case, or both producer lists are non-empty with no name in common |
| MatcherProperties.ResultsForAppend | app/src/main/java/org/example/matcher/ShowMatcher.java:98-102 | helper of AcceptedShowYieldsItsTitles: the results for one show distribute over concatenation |
| MatcherProperties.ResultsForNone | app/src/main/java/org/example/matcher/ShowMatcher.java:98-102 | helper of AcceptedShowYieldsItsTitles: no result with the id gives no results for it |
| MatcherProperties.ResultsForAll | app/src/main/java/org/example/matcher/ShowMatcher.java:98-102 | helper of AcceptedShowYieldsItsTitles: results that all have the id are all kept |
| MatcherProperties.MatchAllOwners | app/src/main/java/org/example/matcher/ShowMatcher.java:98-102 | the matches for a show's titles all belong to that show |
| MatcherProperties.EmitAcceptedGroup | app/src/main/java/org/example/matcher/ShowMatcher.java:78-103 | the results for an accepted candidate are exactly one match per title of it, in title order |
| MatcherProperties.AcceptedShowYieldsItsTitles | app/src/main/java/org/example/matcher/ShowMatcher.java:72-106 | an accepted candidate yields one match per title, in order; with no titles it yields nothing |
| MatcherProperties.MatchesForRowsSnoc | app/src/main/java/org/example/matcher/ShowMatcher.java:59-64 | one more row appends that row's results |
| MatcherProperties.MatchesForRowsAppend | app/src/main/java/org/example/matcher/ShowMatcher.java:59-64 | the results for two batches together are the results of each, concatenated |
| MatcherProperties.BatchResultHasRow | app/src/main/java/org/example/matcher/ShowMatcher.java:59-64 | every result of a batch is a result of one of its rows |
| MatcherProperties.BatchKeepsRowResult | app/src/main/java/org/example/matcher/ShowMatcher.java:59-64 | every result of a row of a batch is a result of the batch |
| MatcherProperties.MatchesForRowsIff | app/src/main/java/org/example/matcher/ShowMatcher.java:59-64 | a result is in the batch's results exactly when some row yields it |
| Examples.ParseCommaBeforeSemicolon | app/src/main/java/org/example/util/ProducerParser.java:28-56 | "A, B; C" is split on the comma only, giving "A" and "B; C" |
| Examples.DetectCommaFirst | app/src/main/java/org/example/util/ProducerParser.java:48-57 | the comma is detected before the later semicolon |
| Examples.SplitEmptyIsOneEmptyPiece | app/src/main/java/org/example/util/ProducerParser.java:34 | "".split(Pattern.quote(",")) is [""], the input itself |
| Examples.SplitLoneSeparatorIsNothing | app/src/main/java/org/example/util/ProducerParser.java:34 | ",".split(Pattern.quote(",")) is [], both empty pieces being trailing |
| Examples.PlainNameIsOneProducer | app/src/main/java/org/example/util/ProducerParser.java:28-56 | a name without a comma, semicolon, pipe, slash or backslash, neither blank nor emptied by trim, parses to one producer, the name trimmed |
| Examples.NonEmptyOnlyKeepsAll | app/src/main/java/org/example/util/ProducerParser.java:36 | the empty-piece filter keeps a list of non-empty pieces whole, in order |
| Examples.ThreePieces | app/src/main/java/org/example/util/ProducerParser.java:28-56 | three names joined by a separator, with no earlier separator present, the first not blank and none emptied by trim, parse to the three names trimmed |
| Examples.ThreeByComma | app/src/main/java/org/example/util/ProducerParser.java:28-56 | "P1, P2, P3" gives three producers |
| Examples.ThreeBySemicolon | app/src/main/java/org/example/util/ProducerParser.java:28-56 | "P1; P2; P3" gives three producers |
| Examples.ThreeByPipe | app/src/main/java/org/example/util/ProducerParser.java:28-56 | P1, P2 and P3 separated by pipes with spaces around them give three producers |
| Examples.CaseOnlyDifferenceShared | app/src/main/java/org/example/util/ProducerParser.java:80-95 | two trimmed, single-spaced names that differ only in case are a common producer |
| Examples.WarnerBrosShared | app/src/main/java/org/example/util/ProducerParser.java:80-95 | "Warner Bros." and "warner bros." have a producer in common |
| Examples.FileSeparatorIsBlank | app/src/main/java/org/example/util/ProducerParser.java:29 | "\u001C" is blank, so it gives no producers |
| Examples.NoBreakSpaceIsAProducer | app/src/main/java/org/example/util/ProducerParser.java:28-38 | "\u00A0" is neither blank nor trimmed away, so it is one producer |
| Examples.StartOfHeadingTrimsAway | app/src/main/java/org/example/util/ProducerParser.java:28-38 | "\u0001" is not blank, but trim empties it, so it gives no producers |
| Examples.ControlCharacterTrimmedFromName | app/src/main/java/org/example/util/ProducerParser.java:65-71 | normalizing "\u0001abc" drops the leading U+0001 |
| Examples.UnitSeparatorTitleFindsNothing | app/src/main/java/org/example/matcher/ShowMatcher.java:114-130 | a row whose only title is "\u001F" has no candidates |
| Examples.MovieTypeMatches | app/src/main/java/org/example/matcher/ShowMatcher.java:204-212 | types "Movie" and "movie" match |
| Examples.MatchingRowFindsTheTitle | app/src/main/java/org/example/matcher/ShowMatcher.java:72-106 | in a one-show catalog, a row with the show's title, year and type yields exactly the match with its one title |
| Examples.OtherYearFindsNothing | app/src/main/java/org/example/matcher/ShowMatcher.java:80-82 | a row of another year yields nothing, whatever its title |

## Left out

- Unicode case mapping: JavaText.ToLower, JavaText.EqualsIgnoreCase,
  Catalog.NormalizeTitle and ProducerParser.NormalizeProducerName change
  the case of `A`–`Z` only. Java's locale-aware `toLowerCase` and
  `equalsIgnoreCase` also map non-ASCII letters.
- A `char` here is a Unicode scalar value, where Java's is a UTF-16 code
  unit: a supplementary character is one character in the model and two
  in the source. No modelled operation treats such characters specially.
- Character.isWhitespace follows the Unicode tables of a recent Java
  release; which code points are space separators can shift between
  Unicode versions.
- CollapseWhitespace: its own ensures state the shape of the result only.
  CollapseRun, CollapseAppend and CollapseSeparatorRun state what becomes
  of every run of `\s` and of the text between runs.
- NonEmptyOnly: its own ensures state membership only. NonEmptyOnlyAppend
  and NonEmptyOnlySingleton state that it keeps the non-empty pieces in
  order.
- KeepLowerAlnum: its own ensures state the output alphabet only.
  KeepLowerAlnumAppend and KeepLowerAlnumSingleton state that every a-z or
  0-9 character survives, in order.
- TitlesOf: its own ensures state membership only. TitlesOfAppend and
  TitlesOfSingleton state that the group keeps catalog order.
- Distinct: its own ensures state membership and distinctness only.
  DistinctKeepsFirstOccurrences states that it keeps the first show of
  each id in input order.
- Concurrency: `parallelStream` in `findMatches` and the
  `ConcurrentHashMap` of the constructor. The model runs rows in order;
  the source's `Collectors.toList` keeps that order too.
- Regular expressions are not modelled beyond the quoted-separator split
  and the `\s+` collapse. The fallback separator `\s+` goes through
  `Pattern.quote` like the others, so the source splits on that literal
  three-character text, not on whitespace, and the model does the same.
- Null producer names inside a show's producer list, and null lists
  handed to `ProducerParser`, are not modelled beyond `Option` on the
  whole list.
- Matching.ShowMatcher.constructor: it requires every show to have a
  producer list. The source reads the list only for a candidate that passes
  the year and type checks, and only when the row's parsed producers are
  non-empty (ShowMatcher.java:90-92). A null list then throws. The model
  excludes that exception for the whole catalog.
- Matching.ShowMatcher.constructor: it requires distinct ids and a show id
  on every title, where `Collectors.toMap` and `groupingBy` throw. The
  exceptions are not modelled.
- Integers are unbounded. Years in the source are `Integer` values
  compared with `equals`, so width does not matter.
- `toString`, and the concrete numbers `hashCode` returns. Only the fields
  each `hashCode` combines are modelled, with any combining function.
- `UUID` is a pair of integers compared by value; its generation and text
  form are not modelled.
- The getters of the value types are the datatypes' destructors.
- MatchResults.NoMatch: the reason is a non-null string, while
  `MatchResult.noMatch` (MatchResult.java:85-87) also accepts null. The
  matcher never calls `noMatch`.
- `App.java` (printing and timing), `MockData.java` (sample data) and the
  test suite are not part of this model.

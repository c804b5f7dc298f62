/** MatchResult.java: the verdict pairing one row with one catalog title. */
module MatchResults {
  import opened CSVRows
  import opened ShowTitles

  /** An immutable decision; the accessors of the source are the destructors. */
  datatype MatchResult = MatchResult(csvRow: CSVRow, showTitle: ShowTitle, isMatch: bool, reason: string)

  const MatchFound: string := "Match found"

  /** MatchResult.match: an accepted decision. */
  function Match(csvRow: CSVRow, showTitle: ShowTitle): (m: MatchResult)
    ensures m.csvRow == csvRow && m.showTitle == showTitle
    ensures m.isMatch && m.reason == MatchFound
  {
    MatchResult(csvRow, showTitle, true, MatchFound)
  }

  /** MatchResult.noMatch: a rejected decision with its reason. */
  function NoMatch(csvRow: CSVRow, showTitle: ShowTitle, reason: string): (m: MatchResult)
    ensures m.csvRow == csvRow && m.showTitle == showTitle
    ensures !m.isMatch && m.reason == reason
  {
    MatchResult(csvRow, showTitle, false, reason)
  }

  /** MatchResult.equals: the four fields, each compared by its own equals. */
  predicate MatchResultEquals(a: MatchResult, b: MatchResult) {
    && a.isMatch == b.isMatch
    && CSVRowEquals(a.csvRow, b.csvRow)
    && ShowTitleEquals(a.showTitle, b.showTitle)
    && a.reason == b.reason
  }

  /** An accepted decision never equals a rejected one. */
  lemma MatchNeverEqualsNoMatch(r: CSVRow, t: ShowTitle, r': CSVRow, t': ShowTitle, reason: string)
    ensures !MatchResultEquals(Match(r, t), NoMatch(r', t', reason))
  {
  }

  /** Equal decisions are value-equal up to the episode name of their title. */
  lemma EqualsIffFieldsEqual(a: MatchResult, b: MatchResult)
    ensures MatchResultEquals(a, b) <==> a.(showTitle := a.showTitle.(episodeName := b.showTitle.episodeName)) == b
  {
  }

  lemma EqualsIsEquivalence(a: MatchResult, b: MatchResult, c: MatchResult)
    ensures MatchResultEquals(a, a)
    ensures MatchResultEquals(a, b) ==> MatchResultEquals(b, a)
    ensures MatchResultEquals(a, b) && MatchResultEquals(b, c) ==> MatchResultEquals(a, c)
  {
  }
}

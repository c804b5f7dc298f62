/**
 * The java.lang.String operations the matcher relies on. Three character
 * classes are involved, each as the Java API defines it: String.trim drops
 * every code point up to U+0020, String.isBlank tests Character.isWhitespace,
 * and the regular expression class \s matches space, tab, line feed,
 * vertical tab, form feed and carriage return. Case mapping is over the
 * ASCII letters A-Z and a-z.
 */
module JavaText {
  import opened Wrappers
  import SeqLemmas

  /** What String.trim removes from either end: a code point <= U+0020. */
  predicate IsTrimmable(c: char) {
    c <= ' '
  }

  /**
   * Character.isWhitespace: the Unicode space, line and paragraph
   * separators other than the no-break spaces U+00A0, U+2007 and U+202F,
   * and the controls U+0009-U+000D and U+001C-U+001F.
   */
  predicate IsJavaWhitespace(c: char) {
    || '\t' <= c <= '\r'
    || '\U{1C}' <= c <= ' '
    || c == '\U{1680}'
    || ('\U{2000}' <= c <= '\U{200A}' && c != '\U{2007}')
    || c == '\U{2028}' || c == '\U{2029}' || c == '\U{205F}' || c == '\U{3000}'
  }

  /** The regular expression class \s (without UNICODE_CHARACTER_CLASS). */
  predicate IsRegexSpace(c: char) {
    c == ' ' || c == '\t' || c == '\n' || c == '\U{B}' || c == '\U{C}' || c == '\r'
  }

  predicate IsUpper(c: char) {
    'A' <= c <= 'Z'
  }

  predicate IsLowerAlnum(c: char) {
    'a' <= c <= 'z' || '0' <= c <= '9'
  }

  /** Character.toLowerCase on ASCII: A-Z become a-z, letter for letter. */
  function LowerChar(c: char): (d: char)
    ensures !IsUpper(d)
    ensures IsUpper(c) ==> d as int == c as int + ('a' as int - 'A' as int)
    ensures IsRegexSpace(d) == IsRegexSpace(c) && IsTrimmable(d) == IsTrimmable(c)
    ensures !IsUpper(c) ==> d == c
  {
    if IsUpper(c) then (c as int + 32) as char else c
  }

  function UpperChar(c: char): char {
    if 'a' <= c <= 'z' then (c as int - 32) as char else c
  }

  // ---------------------------------------------------------------- case

  /** String.toLowerCase */
  function ToLower(s: string): (r: string)
    ensures |r| == |s|
    ensures forall i :: 0 <= i < |s| ==> r[i] == LowerChar(s[i])
  {
    if s == [] then [] else [LowerChar(s[0])] + ToLower(s[1..])
  }

  predicate NoUpper(s: string) {
    forall i :: 0 <= i < |s| ==> !IsUpper(s[i])
  }

  lemma ToLowerOfLower(s: string)
    requires NoUpper(s)
    ensures ToLower(s) == s
  {
  }

  /** One step of String.regionMatches(true, ...): the chars are equal, or
      their upper cases are, or the lower cases of their upper cases are. */
  predicate CharEqualsIgnoreCase(c: char, d: char) {
    c == d || UpperChar(c) == UpperChar(d) || LowerChar(UpperChar(c)) == LowerChar(UpperChar(d))
  }

  lemma CharEqualsIgnoreCaseIsLowerEquality(c: char, d: char)
    ensures CharEqualsIgnoreCase(c, d) <==> LowerChar(c) == LowerChar(d)
  {
  }

  /** String.equalsIgnoreCase for two non-null strings */
  function EqualsIgnoreCase(a: string, b: string): (r: bool)
    ensures r <==> ToLower(a) == ToLower(b)
  {
    if |a| != |b| then
      assert |ToLower(a)| != |ToLower(b)|;
      false
    else
      forall i | 0 <= i < |a| ensures CharEqualsIgnoreCase(a[i], b[i]) <==> ToLower(a)[i] == ToLower(b)[i] {
        CharEqualsIgnoreCaseIsLowerEquality(a[i], b[i]);
      }
      forall i :: 0 <= i < |a| ==> CharEqualsIgnoreCase(a[i], b[i])
  }

  // ---------------------------------------------------------- whitespace

  /** String.isBlank: every code point is whitespace by Character.isWhitespace. */
  predicate IsBlank(s: string) {
    s == [] || (IsJavaWhitespace(s[0]) && IsBlank(s[1..]))
  }

  lemma {:induction false} IsBlankIff(s: string)
    ensures IsBlank(s) <==> forall i :: 0 <= i < |s| ==> IsJavaWhitespace(s[i])
  {
    if s != [] {
      IsBlankIff(s[1..]);
      assert forall i :: 1 <= i < |s| ==> s[1..][i - 1] == s[i];
    }
  }

  /** The first index at or after i that String.trim keeps (|s| if none). */
  function SkipLeading(s: string, i: nat): (j: nat)
    requires i <= |s|
    ensures i <= j <= |s|
    ensures forall k :: i <= k < j ==> IsTrimmable(s[k])
    ensures j == |s| || !IsTrimmable(s[j])
    decreases |s| - i
  {
    if i == |s| || !IsTrimmable(s[i]) then i else SkipLeading(s, i + 1)
  }

  /** The end of s[lo..hi] once String.trim has dropped its tail. */
  function SkipTrailing(s: string, lo: nat, hi: nat): (j: nat)
    requires lo <= hi <= |s|
    ensures lo <= j <= hi
    ensures forall k :: j <= k < hi ==> IsTrimmable(s[k])
    ensures j == lo || !IsTrimmable(s[j - 1])
    decreases hi
  {
    if hi == lo || !IsTrimmable(s[hi - 1]) then hi else SkipTrailing(s, lo, hi - 1)
  }

  /** Every character of s is one String.trim removes. */
  predicate AllTrimmable(s: string) {
    forall i :: 0 <= i < |s| ==> IsTrimmable(s[i])
  }

  /** String.trim: the slice between the leading and the trailing code points <= U+0020. */
  function Trim(s: string): (r: string)
    ensures r == [] <==> AllTrimmable(s)
    ensures r != [] ==> !IsTrimmable(r[0]) && !IsTrimmable(r[|r| - 1])
  {
    var lo := SkipLeading(s, 0);
    var hi := SkipTrailing(s, lo, |s|);
    assert lo == hi ==> lo == |s|;
    s[lo..hi]
  }

  /** Trimming never reaches outside the string: its result is a slice of it. */
  lemma TrimIsSlice(s: string) returns (lo: nat, hi: nat)
    ensures lo <= hi <= |s| && Trim(s) == s[lo..hi]
  {
    lo := SkipLeading(s, 0);
    hi := SkipTrailing(s, lo, |s|);
  }

  /** Trim removes exactly the padding: code points <= U+0020 around a string
      that starts and ends with one above U+0020. */
  lemma TrimPadded(pre: string, x: string, post: string)
    requires AllTrimmable(pre) && AllTrimmable(post)
    requires x != [] && !IsTrimmable(x[0]) && !IsTrimmable(x[|x| - 1])
    ensures Trim(pre + x + post) == x
  {
    var s := pre + x + post;
    var end := |pre| + |x|;
    assert forall k :: 0 <= k < |pre| ==> s[k] == pre[k];
    assert forall k :: end <= k < |s| ==> s[k] == post[k - end];
    assert s[|pre|] == x[0] && s[end - 1] == x[|x| - 1];
    var lo := SkipLeading(s, 0);
    assert lo == |pre|;
    var hi := SkipTrailing(s, lo, |s|);
    assert hi == end;
    assert s[lo..hi] == x;
  }

  predicate IsTrimmed(s: string) {
    s == [] || (!IsTrimmable(s[0]) && !IsTrimmable(s[|s| - 1]))
  }

  lemma TrimOfTrimmed(s: string)
    requires IsTrimmed(s)
    ensures Trim(s) == s
  {
    var lo := SkipLeading(s, 0);
    if s != [] {
      assert lo == 0;
      assert SkipTrailing(s, lo, |s|) == |s|;
    }
  }

  /** The first index at or after i that \s does not match (|s| if none). */
  function SkipSpaces(s: string, i: nat): (j: nat)
    requires i <= |s|
    ensures i <= j <= |s|
    ensures forall k :: i <= k < j ==> IsRegexSpace(s[k])
    ensures j == |s| || !IsRegexSpace(s[j])
    decreases |s| - i
  {
    if i == |s| || !IsRegexSpace(s[i]) then i else SkipSpaces(s, i + 1)
  }

  /** The run of \s that starts s, dropped. */
  function DropLeadingSpaces(s: string): (r: string)
    ensures |r| <= |s| && r == s[|s| - |r|..]
    ensures forall k :: 0 <= k < |s| - |r| ==> IsRegexSpace(s[k])
    ensures r == [] || !IsRegexSpace(r[0])
  {
    s[SkipSpaces(s, 0)..]
  }

  /** Matcher.replaceAll(" ") for the pattern \s+: every maximal run of
      whitespace becomes one space. */
  function CollapseWhitespace(s: string): (r: string)
    ensures forall i :: 0 <= i < |r| && IsRegexSpace(r[i]) ==> r[i] == ' '
    ensures forall i :: 0 <= i < |r| - 1 ==> !(IsRegexSpace(r[i]) && IsRegexSpace(r[i + 1]))
    ensures s != [] && !IsRegexSpace(s[0]) ==> r != [] && r[0] == s[0]
    ensures s != [] && !IsRegexSpace(s[|s| - 1]) ==> r != [] && r[|r| - 1] == s[|s| - 1]
    decreases |s|
  {
    if s == [] then []
    else if IsRegexSpace(s[0]) then
      var rest := DropLeadingSpaces(s);
      assert !IsRegexSpace(s[|s| - 1]) ==> rest != [] && rest[|rest| - 1] == s[|s| - 1];
      [' '] + CollapseWhitespace(rest)
    else
      [s[0]] + CollapseWhitespace(s[1..])
  }

  predicate SingleSpaced(s: string) {
    && (forall i :: 0 <= i < |s| && IsRegexSpace(s[i]) ==> s[i] == ' ')
    && (forall i :: 0 <= i < |s| - 1 ==> !(IsRegexSpace(s[i]) && IsRegexSpace(s[i + 1])))
  }

  lemma {:induction false} CollapseOfSingleSpaced(s: string)
    requires SingleSpaced(s)
    ensures CollapseWhitespace(s) == s
    decreases |s|
  {
    if s != [] {
      assert SingleSpaced(s[1..]);
      CollapseOfSingleSpaced(s[1..]);
      if IsRegexSpace(s[0]) {
        var rest := DropLeadingSpaces(s);
        assert |s| > 1 ==> !IsRegexSpace(s[1]);
        assert rest == s[1..];
      }
    }
  }

  /** SkipSpaces stops at the first position at or after i that \s does not match. */
  lemma {:induction false} SkipSpacesStopsAt(s: string, i: nat, j: nat)
    requires i <= j <= |s|
    requires forall k :: i <= k < j ==> IsRegexSpace(s[k])
    requires j == |s| || !IsRegexSpace(s[j])
    ensures SkipSpaces(s, i) == j
    decreases j - i
  {
    if i < j {
      SkipSpacesStopsAt(s, i + 1, j);
    }
  }

  /** A leading run of \s becomes a single space. */
  lemma CollapseRun(w: string, b: string)
    requires w != [] && forall k :: 0 <= k < |w| ==> IsRegexSpace(w[k])
    requires b == [] || !IsRegexSpace(b[0])
    ensures CollapseWhitespace(w + b) == " " + CollapseWhitespace(b)
  {
    var s := w + b;
    assert b != [] ==> s[|w|] == b[0];
    SkipSpacesStopsAt(s, 0, |w|);
    assert DropLeadingSpaces(s) == b;
  }

  /**
   * Cutting after a character \s does not match commutes with the
   * collapse: no run of \s crosses the cut.
   */
  lemma {:induction false} CollapseAppend(a: string, b: string)
    requires a == [] || !IsRegexSpace(a[|a| - 1])
    ensures CollapseWhitespace(a + b) == CollapseWhitespace(a) + CollapseWhitespace(b)
    decreases |a|
  {
    if a == [] {
      assert a + b == b;
    } else if IsRegexSpace(a[0]) {
      var j := SkipSpaces(a, 0);
      SkipSpacesStopsAt(a + b, 0, j);
      assert DropLeadingSpaces(a + b) == a[j..] + b;
      CollapseAppend(a[j..], b);
      SeqLemmas.AppendAssociative([' '], CollapseWhitespace(a[j..]), CollapseWhitespace(b));
    } else {
      assert (a + b)[1..] == a[1..] + b;
      CollapseAppend(a[1..], b);
      SeqLemmas.AppendAssociative([a[0]], CollapseWhitespace(a[1..]), CollapseWhitespace(b));
    }
  }

  /**
   * A run of \s between two characters it does not match (or the ends
   * of the string) becomes exactly one space; the rest is collapsed piecewise.
   */
  lemma CollapseSeparatorRun(a: string, w: string, b: string)
    requires a == [] || !IsRegexSpace(a[|a| - 1])
    requires w != [] && forall k :: 0 <= k < |w| ==> IsRegexSpace(w[k])
    requires b == [] || !IsRegexSpace(b[0])
    ensures CollapseWhitespace(a + w + b) == CollapseWhitespace(a) + " " + CollapseWhitespace(b)
  {
    assert a + w + b == a + (w + b);
    CollapseAppend(a, w + b);
    CollapseRun(w, b);
    SeqLemmas.AppendAssociative(CollapseWhitespace(a), " ", CollapseWhitespace(b));
  }

  // -------------------------------------------------------------- search

  /** p occurs in s starting at index i. */
  predicate OccursAt(s: string, p: string, i: nat) {
    i + |p| <= |s| && s[i..i + |p|] == p
  }

  /** String.indexOf(p, i): the first occurrence of p at or after i. */
  function IndexOf(s: string, p: string, i: nat): (r: Option<nat>)
    requires i <= |s|
    ensures r.Some? ==> i <= r.value && OccursAt(s, p, r.value)
    ensures r.Some? ==> forall j :: i <= j < r.value ==> !OccursAt(s, p, j)
    ensures r.None? ==> forall j :: i <= j ==> !OccursAt(s, p, j)
    decreases |s| - i
  {
    if i + |p| > |s| then None
    else if s[i..i + |p|] == p then Some(i)
    else IndexOf(s, p, i + 1)
  }

  /** String.contains */
  predicate Contains(s: string, p: string) {
    IndexOf(s, p, 0).Some?
  }

  lemma ContainsIff(s: string, p: string)
    ensures Contains(s, p) <==> exists i: nat :: OccursAt(s, p, i)
  {
    if !Contains(s, p) {
      assert forall j: nat :: !OccursAt(s, p, j);
    }
  }

  /** Every string contains the empty string. */
  lemma ContainsEmpty(s: string)
    ensures Contains(s, [])
  {
    assert OccursAt(s, [], 0);
  }

  /** A string contained in a slice of s is contained in s. */
  lemma ContainsInSlice(s: string, lo: nat, hi: nat, p: string)
    requires lo <= hi <= |s|
    requires Contains(s[lo..hi], p)
    ensures Contains(s, p)
  {
    var t := s[lo..hi];
    var i := IndexOf(t, p, 0).value;
    assert OccursAt(t, p, i);
    forall k | 0 <= k < |p|
      ensures s[lo + i..lo + i + |p|][k] == p[k]
    {
      calc {
        s[lo + i..lo + i + |p|][k];
        s[lo + i + k];
        t[i + k];
        t[i..i + |p|][k];
        p[k];
      }
    }
    assert OccursAt(s, p, lo + i);
  }

  // ------------------------------------------------------------ splitting

  /** The pieces joined back with sep between them. */
  function Join(pieces: seq<string>, sep: string): string {
    if |pieces| == 0 then []
    else if |pieces| == 1 then pieces[0]
    else pieces[0] + sep + Join(pieces[1..], sep)
  }

  /** The text before the first occurrence of p does not contain p. */
  lemma BeforeFirstOccurrence(s: string, p: string, i: nat)
    requires p != []
    requires OccursAt(s, p, i)
    requires forall j :: 0 <= j < i ==> !OccursAt(s, p, j)
    ensures !Contains(s[..i], p)
  {
    var t := s[..i];
    forall j: nat
      ensures !OccursAt(t, p, j)
    {
      if j + |p| <= |t| {
        assert t[j..j + |p|] == s[j..j + |p|] && !OccursAt(s, p, j);
      }
    }
    ContainsIff(t, p);
  }

  /** Splitting s on every occurrence of the literal text sep, scanning from
      the left; all pieces are kept, empty ones included. */
  function Split(s: string, sep: string): (pieces: seq<string>)
    requires sep != []
    ensures |pieces| >= 1
    ensures forall k :: 0 <= k < |pieces| ==> !Contains(pieces[k], sep)
    ensures Join(pieces, sep) == s
    decreases |s|
  {
    match IndexOf(s, sep, 0)
    case None => [s]
    case Some(i) =>
      BeforeFirstOccurrence(s, sep, i);
      var rest := Split(s[i + |sep|..], sep);
      assert s == s[..i] + sep + s[i + |sep|..] by {
        assert s[i..i + |sep|] == sep;
        assert s == s[..i] + s[i..i + |sep|] + s[i + |sep|..];
      }
      assert ([s[..i]] + rest)[1..] == rest;
      [s[..i]] + rest
  }

  /** The trailing empty strings dropped, as String.split with limit 0 does once sep occurs. */
  function DropTrailingEmpty(pieces: seq<string>): (r: seq<string>)
    ensures |r| <= |pieces| && r == pieces[..|r|]
    ensures r == [] || r[|r| - 1] != []
    ensures forall k :: |r| <= k < |pieces| ==> pieces[k] == []
  {
    if pieces != [] && pieces[|pieces| - 1] == [] then DropTrailingEmpty(pieces[..|pieces| - 1]) else pieces
  }

  /**
   * String.split(Pattern.quote(sep)): splitting on the literal text sep.
   * Pattern.split returns the input itself when sep never occurs (so "" gives
   * [""]); otherwise the pieces of the split, up to the last non-empty one.
   */
  function SplitLiteral(s: string, sep: string): (pieces: seq<string>)
    requires sep != []
    ensures forall k :: 0 <= k < |pieces| ==> !Contains(pieces[k], sep)
    ensures !Contains(s, sep) ==> pieces == [s]
    ensures Contains(s, sep) ==>
      && |pieces| <= |Split(s, sep)| && pieces == Split(s, sep)[..|pieces|]
      && (pieces == [] || pieces[|pieces| - 1] != [])
      && forall k :: |pieces| <= k < |Split(s, sep)| ==> Split(s, sep)[k] == []
  {
    match IndexOf(s, sep, 0)
    case None => [s]
    case Some(_) => DropTrailingEmpty(Split(s, sep))
  }
}

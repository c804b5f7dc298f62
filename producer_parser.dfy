/** ProducerParser.java: splitting a free-text producer string and comparing producer lists. */
module ProducerParser {
  import opened Wrappers
  import opened JavaText
  import SeqLemmas

  /** The separators tried, highest priority first. */
  const CommonSeparators: seq<string> := [",", ";", "|", "/"]

  /**
   * The fallback "separator". It is the text of the regular expression \s+,
   * but parse quotes it, so a string is split on these three characters
   * literally, never on whitespace.
   */
  const WhitespaceFallback: string := "\\s+"

  /** detectSeparator's loop, from candidate k on: the first candidate that occurs. */
  function DetectFrom(producerString: string, k: nat): (sep: string)
    requires k <= |CommonSeparators|
    ensures sep == WhitespaceFallback ==>
      forall j :: k <= j < |CommonSeparators| ==> !Contains(producerString, CommonSeparators[j])
    ensures sep != WhitespaceFallback ==>
      exists j :: k <= j < |CommonSeparators| && sep == CommonSeparators[j] && Contains(producerString, sep)
        && forall i :: k <= i < j ==> !Contains(producerString, CommonSeparators[i])
    decreases |CommonSeparators| - k
  {
    if k == |CommonSeparators| then WhitespaceFallback
    else if Contains(producerString, CommonSeparators[k]) then CommonSeparators[k]
    else DetectFrom(producerString, k + 1)
  }

  /** ProducerParser.detectSeparator */
  function DetectSeparator(producerString: string): (sep: string)
    ensures sep == WhitespaceFallback <==>
      forall j :: 0 <= j < |CommonSeparators| ==> !Contains(producerString, CommonSeparators[j])
    ensures sep != WhitespaceFallback ==>
      exists j :: 0 <= j < |CommonSeparators| && sep == CommonSeparators[j] && Contains(producerString, sep)
        && forall i :: 0 <= i < j ==> !Contains(producerString, CommonSeparators[i])
  {
    DetectFrom(producerString, 0)
  }

  /** String::trim mapped over the pieces. */
  function TrimAll(pieces: seq<string>): (r: seq<string>)
    ensures |r| == |pieces| && forall k :: 0 <= k < |r| ==> r[k] == Trim(pieces[k])
  {
    if pieces == [] then [] else [Trim(pieces[0])] + TrimAll(pieces[1..])
  }

  /** The filter s -> !s.isEmpty(). */
  function NonEmptyOnly(pieces: seq<string>): (r: seq<string>)
    ensures forall k :: 0 <= k < |r| ==> r[k] != [] && r[k] in pieces
    ensures forall p :: p in pieces && p != [] ==> p in r
  {
    if pieces == [] then []
    else if pieces[0] == [] then NonEmptyOnly(pieces[1..])
    else [pieces[0]] + NonEmptyOnly(pieces[1..])
  }

  /** The filter keeps the surviving pieces in their original order. */
  lemma {:induction false} NonEmptyOnlyAppend(a: seq<string>, b: seq<string>)
    ensures NonEmptyOnly(a + b) == NonEmptyOnly(a) + NonEmptyOnly(b)
  {
    if a == [] {
      assert a + b == b;
    } else {
      assert (a + b)[1..] == a[1..] + b;
      NonEmptyOnlyAppend(a[1..], b);
      SeqLemmas.AppendAssociative([a[0]], NonEmptyOnly(a[1..]), NonEmptyOnly(b));
    }
  }

  /** One piece survives exactly when it is not empty. */
  lemma NonEmptyOnlySingleton(p: string)
    ensures NonEmptyOnly([p]) == if p == [] then [] else [p]
  {
    assert [p][1..] == [];
  }

  /**
   * ProducerParser.parse: null or blank gives no producers; otherwise the
   * string is split on the detected separator, and the pieces are trimmed
   * and the empty ones dropped.
   */
  function Parse(producerString: Option<string>): (producers: seq<string>)
    ensures producerString.None? || IsBlank(producerString.value) ==> producers == []
    ensures forall k :: 0 <= k < |producers| ==> producers[k] != [] && IsTrimmed(producers[k])
  {
    if producerString.None? || IsBlank(producerString.value) then []
    else
      var s := producerString.value;
      NonEmptyOnly(TrimAll(SplitLiteral(s, DetectSeparator(s))))
  }

  /** No producer that parse returns contains the separator it split on. */
  lemma ParsedProducersLackSeparator(s: string)
    requires !IsBlank(s)
    ensures forall k :: 0 <= k < |Parse(Some(s))| ==> !Contains(Parse(Some(s))[k], DetectSeparator(s))
  {
    var sep := DetectSeparator(s);
    var pieces := SplitLiteral(s, sep);
    var trimmed := TrimAll(pieces);
    forall k | 0 <= k < |trimmed| ensures !Contains(trimmed[k], sep) {
      var lo, hi := TrimIsSlice(pieces[k]);
      if Contains(trimmed[k], sep) {
        ContainsInSlice(pieces[k], lo, hi, sep);
      }
    }
  }

  /** Without any of the four separators and without the literal text \s+,
      a non-blank string is at most one producer: the string trimmed, which
      is dropped when trimming empties it (as for "\u0001"). */
  lemma ParseWithoutSeparator(s: string)
    requires !IsBlank(s)
    requires forall j :: 0 <= j < |CommonSeparators| ==> !Contains(s, CommonSeparators[j])
    requires !Contains(s, WhitespaceFallback)
    ensures Parse(Some(s)) == if Trim(s) == [] then [] else [Trim(s)]
  {
    assert DetectSeparator(s) == WhitespaceFallback;
    assert Split(s, WhitespaceFallback) == [s];
    assert s != [];
    assert SplitLiteral(s, WhitespaceFallback) == [s];
    assert TrimAll([s]) == [Trim(s)];
    assert Parse(Some(s)) == NonEmptyOnly([Trim(s)]);
    NonEmptyOnlySingleton(Trim(s));
  }

  /** ProducerParser.normalizeProducerName: null gives "", otherwise the
      name is trimmed, its whitespace runs become single spaces, and it is
      lower-cased. */
  function NormalizeProducerName(producerName: Option<string>): (r: string)
    ensures producerName.None? ==> r == []
    ensures IsTrimmed(r) && SingleSpaced(r) && NoUpper(r)
  {
    if producerName.None? then []
    else
      var trimmed := Trim(producerName.value);
      var collapsed := CollapseWhitespace(trimmed);
      assert IsTrimmed(collapsed);
      ToLower(collapsed)
  }

  /** Normalizing a normalized name changes nothing. */
  lemma NormalizeProducerNameIdempotent(producerName: Option<string>)
    ensures NormalizeProducerName(Some(NormalizeProducerName(producerName))) == NormalizeProducerName(producerName)
  {
    var n := NormalizeProducerName(producerName);
    TrimOfTrimmed(n);
    CollapseOfSingleSpaced(n);
    ToLowerOfLower(n);
  }

  /** normalizeProducerName mapped over a list. */
  function NormalizeAll(names: seq<string>): (r: seq<string>)
    ensures |r| == |names| && forall k :: 0 <= k < |r| ==> r[k] == NormalizeProducerName(Some(names[k]))
  {
    if names == [] then [] else [NormalizeProducerName(Some(names[0]))] + NormalizeAll(names[1..])
  }

  /** xs.stream().anyMatch(ys::contains) */
  function AnyContained(xs: seq<string>, ys: seq<string>): (r: bool)
    ensures r <==> exists i, j :: 0 <= i < |xs| && 0 <= j < |ys| && xs[i] == ys[j]
  {
    if xs == [] then false
    else if xs[0] in ys then true
    else
      var r := AnyContained(xs[1..], ys);
      assert r ==> exists i, j :: 0 <= i < |xs| && 0 <= j < |ys| && xs[i] == ys[j] by {
        if r {
          var i, j :| 0 <= i < |xs[1..]| && 0 <= j < |ys| && xs[1..][i] == ys[j];
          assert xs[i + 1] == ys[j];
        }
      }
      r
  }

  /**
   * ProducerParser.hasCommonProducer: false when either list is null or
   * empty; otherwise whether some name of the first list and some name of
   * the second are equal once both are normalized.
   */
  function HasCommonProducer(producers1: Option<seq<string>>, producers2: Option<seq<string>>): (r: bool)
    ensures r <==> producers1.Some? && producers2.Some?
                   && exists i, j :: 0 <= i < |producers1.value| && 0 <= j < |producers2.value|
                        && NormalizeProducerName(Some(producers1.value[i])) == NormalizeProducerName(Some(producers2.value[j]))
  {
    if producers1.None? || producers2.None? || |producers1.value| == 0 || |producers2.value| == 0 then false
    else AnyContained(NormalizeAll(producers1.value), NormalizeAll(producers2.value))
  }

  /** The shared-producer test does not depend on the order of its arguments. */
  lemma HasCommonProducerSymmetric(producers1: Option<seq<string>>, producers2: Option<seq<string>>)
    ensures HasCommonProducer(producers1, producers2) == HasCommonProducer(producers2, producers1)
  {
  }
}

/**
 * The TF-IDF scoring behind `ExtractTags` of analyse/tag_extracker.go, as
 * specification functions: trimming and filtering of the token stream, term
 * counts, the IDF factor and the weight of each distinct term.
 */
module TfIdf {
  import opened Counting
  import opened Segments

  /** Go's `unicode.IsSpace`: the characters with the Unicode White_Space property. */
  predicate IsSpace(c: char)
  {
    || c == '\U{0009}' || c == '\U{000A}' || c == '\U{000B}' || c == '\U{000C}'
    || c == '\U{000D}' || c == '\U{0020}' || c == '\U{0085}' || c == '\U{00A0}'
    || c == '\U{1680}' || ('\U{2000}' <= c <= '\U{200A}')
    || c == '\U{2028}' || c == '\U{2029}' || c == '\U{202F}' || c == '\U{205F}'
    || c == '\U{3000}'
  }

  /** Drops leading white space. */
  function TrimLeft(s: string): (r: string)
    ensures |r| <= |s|
  {
    if s != [] && IsSpace(s[0]) then TrimLeft(s[1..]) else s
  }

  /** Drops trailing white space. */
  function TrimRight(s: string): (r: string)
    ensures |r| <= |s|
  {
    if s != [] && IsSpace(s[|s| - 1]) then TrimRight(s[..|s| - 1]) else s
  }

  /** `TrimLeft` leaves a suffix, having removed exactly the leading run of white space. */
  lemma {:induction false} TrimLeftStrips(s: string)
    ensures var r := TrimLeft(s);
      && |r| <= |s| && r == s[|s| - |r|..]
      && (forall k :: 0 <= k < |s| - |r| ==> IsSpace(s[k]))
      && (r != [] ==> !IsSpace(r[0]))
  {
    if s != [] && IsSpace(s[0]) {
      TrimLeftStrips(s[1..]);
      var r := TrimLeft(s);
      forall k | 1 <= k < |s| - |r| ensures IsSpace(s[k]) {
        assert s[k] == s[1..][k - 1];
      }
    }
  }

  /** `TrimRight` leaves a prefix, having removed exactly the trailing run of white space. */
  lemma {:induction false} TrimRightStrips(s: string)
    ensures var r := TrimRight(s);
      && |r| <= |s| && r == s[..|r|]
      && (forall k :: |r| <= k < |s| ==> IsSpace(s[k]))
      && (r != [] ==> !IsSpace(r[|r| - 1]))
  {
    if s != [] && IsSpace(s[|s| - 1]) {
      TrimRightStrips(s[..|s| - 1]);
      var r := TrimRight(s);
      forall k | |r| <= k < |s| - 1 ensures IsSpace(s[k]) {
        assert s[k] == s[..|s| - 1][k];
      }
    }
  }

  /** Go's `strings.TrimSpace`: the result neither starts nor ends with white space. */
  function TrimSpace(s: string): (r: string)
    ensures |r| <= |s|
    ensures r != [] ==> !IsSpace(r[0]) && !IsSpace(r[|r| - 1])
  {
    TrimLeftStrips(s);
    TrimRightStrips(TrimLeft(s));
    TrimRight(TrimLeft(s))
  }

  /**
   * `TrimSpace(s)` is the factor of `s` left after removing white space at
   * both ends: what lies before and after it is white space.
   */
  lemma TrimSpaceFactor(s: string)
    ensures var r := TrimSpace(s);
      var i := |s| - |TrimLeft(s)|;
      && i + |r| <= |s|
      && r == s[i..i + |r|]
      && (forall k :: 0 <= k < i ==> IsSpace(s[k]))
      && (forall k :: i + |r| <= k < |s| ==> IsSpace(s[k]))
  {
    var l := TrimLeft(s);
    var r := TrimRight(l);
    var i := |s| - |l|;
    TrimLeftStrips(s);
    TrimRightStrips(l);
    assert r == s[i..][..|r|];
    forall k | i + |r| <= k < |s| ensures IsSpace(s[k]) {
      assert s[k] == l[k - i];
    }
  }

  /** Trimming twice trims nothing more. */
  lemma TrimSpaceIdempotent(s: string)
    ensures TrimSpace(TrimSpace(s)) == TrimSpace(s)
  {
    var r := TrimSpace(s);
    assert TrimLeft(r) == r;
    assert TrimRight(r) == r;
  }

  /**
   * The candidate a token contributes to the frequency table: the trimmed
   * token when it has at least two code points and is not a stop word.
   */
  function Candidate(token: string, stop: set<string>): (r: seq<string>)
    ensures |r| <= 1
    ensures r != [] ==> r[0] == TrimSpace(token) && |r[0]| >= 2 && r[0] !in stop
    ensures r == [] ==> |TrimSpace(token)| < 2 || TrimSpace(token) in stop
  {
    var w := TrimSpace(token);
    if |w| < 2 then [] else if w in stop then [] else [w]
  }

  /** Candidate terms of a token stream, one per surviving token, in order. */
  function Candidates(tokens: seq<string>, stop: set<string>): seq<string>
  {
    if tokens == [] then []
    else Candidates(tokens[..|tokens| - 1], stop) + Candidate(tokens[|tokens| - 1], stop)
  }

  /** The distinct terms that reach the frequency table. */
  function Terms(tokens: seq<string>, stop: set<string>): set<string>
  {
    set t | t in Candidates(tokens, stop)
  }

  /** The indices of the stream whose token trims to `t`. */
  function TokensTrimmingTo(tokens: seq<string>, t: string): set<int>
  {
    IndicesMapping(tokens, TrimSpace, t)
  }

  /** Every candidate is a trimmed token of at least two code points that is no stop word. */
  lemma {:induction false} CandidatesAreFiltered(tokens: seq<string>, stop: set<string>, t: string)
    requires t in Candidates(tokens, stop)
    ensures |t| >= 2 && t !in stop
    ensures exists i :: 0 <= i < |tokens| && TrimSpace(tokens[i]) == t
  {
    var n := |tokens|;
    var init := tokens[..n - 1];
    if t in Candidates(init, stop) {
      CandidatesAreFiltered(init, stop, t);
      var i :| 0 <= i < |init| && TrimSpace(init[i]) == t;
      assert tokens[i] == init[i];
    } else {
      assert TrimSpace(tokens[n - 1]) == t;
    }
  }

  /** A single token contributes one count to `t` exactly when it trims to `t` and `t` passes the filters. */
  lemma CandidateCount(token: string, stop: set<string>, t: string)
    ensures multiset(Candidate(token, stop))[t]
         == if |t| >= 2 && t !in stop && TrimSpace(token) == t then 1 else 0
  {
  }

  /**
   * The raw count of a term is the number of stream tokens that trim to it,
   * when the trimmed term passes the filters, and zero otherwise.
   */
  lemma {:induction false} CountIsMatchingTokens(tokens: seq<string>, stop: set<string>, t: string)
    ensures multiset(Candidates(tokens, stop))[t]
         == if |t| >= 2 && t !in stop then |TokensTrimmingTo(tokens, t)| else 0
  {
    if tokens != [] {
      var n := |tokens|;
      var init := tokens[..n - 1];
      CountIsMatchingTokens(init, stop, t);
      IndicesMappingSnoc(tokens, TrimSpace, t);
      CandidateCount(tokens[n - 1], stop, t);
      var before := TokensTrimmingTo(init, t);
      assert n - 1 !in before;
      assert Candidates(tokens, stop) == Candidates(init, stop) + Candidate(tokens[n - 1], stop);
      if TrimSpace(tokens[n - 1]) == t {
        assert |before + {n - 1}| == |before| + 1;
      }
    }
  }

  /** An IDF table and the median used for terms it does not hold. */
  datatype Idf = Idf(freq: map<string, real>, median: real)

  /** The IDF factor of a term: its table entry, else the median. */
  function IdfFactor(idf: Idf, t: string): (r: real)
    ensures r in idf.freq.Values || r == idf.median
    ensures t in idf.freq ==> r == idf.freq[t]
    ensures t !in idf.freq ==> r == idf.median
  {
    if t in idf.freq then idf.freq[t] else idf.median
  }

  /** Relative frequency `count / total` of `t` among the candidates `cs`. */
  function TermFrequency(cs: seq<string>, t: string): real
  {
    if multiset(cs)[t] == 0 then 0.0 else multiset(cs)[t] as real / |cs| as real
  }

  /** A term's weight: its IDF factor times its relative frequency. */
  function Weigh(factor: real, tf: real): real
  {
    factor * tf
  }

  /** The TF-IDF weight of a term of the token stream. */
  function TfIdfWeight(tokens: seq<string>, stop: set<string>, idf: Idf, t: string): real
  {
    Weigh(IdfFactor(idf, t), TermFrequency(Candidates(tokens, stop), t))
  }

  /** A map of the relative frequencies of terms gives their TF-IDF weights. */
  lemma WeighsByFrequency(tokens: seq<string>, stop: set<string>, idf: Idf, tf: map<string, real>)
    requires forall t :: t in tf ==> tf[t] == TermFrequency(Candidates(tokens, stop), t)
    ensures forall t :: t in tf ==> TfIdfWeight(tokens, stop, idf, t) == Weigh(IdfFactor(idf, t), tf[t])
  {
  }

  /**
   * The weight of a distinct term is its IDF factor (the table's value, else
   * the median) times the share of the surviving tokens that trim to it.
   */
  lemma WeightIsCountShare(tokens: seq<string>, stop: set<string>, idf: Idf, t: string)
    requires t in Terms(tokens, stop)
    ensures |Candidates(tokens, stop)| > 0
    ensures TfIdfWeight(tokens, stop, idf, t)
         == Weigh(IdfFactor(idf, t), |TokensTrimmingTo(tokens, t)| as real / |Candidates(tokens, stop)| as real)
    ensures |TokensTrimmingTo(tokens, t)| > 0
  {
    CandidatesAreFiltered(tokens, stop, t);
    CountIsMatchingTokens(tokens, stop, t);
    assert t in multiset(Candidates(tokens, stop));
  }

  /** `TfIdfWeight` as a function of the term alone. */
  function TfIdfWeights(tokens: seq<string>, stop: set<string>, idf: Idf): string -> real
  {
    t => TfIdfWeight(tokens, stop, idf, t)
  }

  /** Every distinct term of the stream, with its TF-IDF weight. */
  function TfIdfSegments(tokens: seq<string>, stop: set<string>, idf: Idf): set<Segment>
  {
    SegmentsOf(Terms(tokens, stop), TfIdfWeights(tokens, stop, idf))
  }

  lemma {:induction false} AllEqualCount(cs: seq<string>, t: string)
    requires forall x :: x in cs ==> x == t
    ensures multiset(cs)[t] == |cs|
  {
    if cs != [] {
      assert cs == [cs[0]] + cs[1..];
      assert forall x :: x in cs[1..] ==> x in cs;
      AllEqualCount(cs[1..], t);
      assert multiset(cs) == multiset{cs[0]} + multiset(cs[1..]);
      assert cs[0] in cs;
    }
  }

  /** A candidate list holding only `t` gives `t` relative frequency one. */
  lemma SingleTermFrequency(cs: seq<string>, t: string)
    requires cs != [] && forall x :: x in cs ==> x == t
    ensures TermFrequency(cs, t) == 1.0
    ensures (set x | x in cs) == {t}
  {
    AllEqualCount(cs, t);
    assert cs[0] in cs;
    DivideBySelf(multiset(cs)[t], |cs|);
  }

  lemma DivideBySelf(m: nat, n: nat)
    requires m == n && n > 0
    ensures m as real / n as real == 1.0
  {
  }

  /**
   * A stream whose only surviving term is `t` (any number of times) yields
   * the single segment weighted by the IDF factor of `t` alone.
   */
  lemma SingleTermWeighsIdf(tokens: seq<string>, stop: set<string>, idf: Idf, t: string)
    requires Candidates(tokens, stop) != []
    requires forall x :: x in Candidates(tokens, stop) ==> x == t
    ensures TfIdfSegments(tokens, stop, idf) == {Segment(t, IdfFactor(idf, t))}
  {
    var cs := Candidates(tokens, stop);
    SingleTermFrequency(cs, t);
    var weight := TfIdfWeights(tokens, stop, idf);
    assert weight(t) == IdfFactor(idf, t);
    var r := SegmentsOf({t}, weight);
    assert r == TfIdfSegments(tokens, stop, idf);
    forall x ensures x in r <==> x == Segment(t, IdfFactor(idf, t)) {
    }
  }

  /** No candidate at all: no segment at all. */
  lemma NoCandidatesNoSegments(tokens: seq<string>, stop: set<string>, idf: Idf)
    requires Candidates(tokens, stop) == []
    ensures TfIdfSegments(tokens, stop, idf) == {}
  {
  }
}

/**
 * The TF-IDF keyword extractor `TagExtracter` of analyse/tag_extracker.go:
 * the load-once dictionary flags, `ExtractTags` and `GetIdf`.
 */
module TagExtract {
  import opened Wrappers
  import opened Counting
  import opened Sorting
  import opened Segments
  import opened TfIdf

  /** The candidates of one more token are those of the shorter stream plus its own. */
  lemma CandidatesStep(tokens: seq<string>, stop: set<string>, i: int)
    requires 0 <= i < |tokens|
    ensures Candidates(tokens[..i + 1], stop) == Candidates(tokens[..i], stop) + Candidate(tokens[i], stop)
  {
    assert tokens[..i + 1][..i] == tokens[..i];
  }

  /**
   * The counting loop of `ExtractTags`: `freqMap` is the tally, in stream
   * order, of the candidate terms (see `TallyCounts` for what that means).
   */
  method CountTerms(tokens: seq<string>, stop: set<string>) returns (freqMap: map<string, real>)
    ensures freqMap == Tally(Candidates(tokens, stop))
  {
    freqMap := map[];
    for i := 0 to |tokens|
      invariant freqMap == Tally(Candidates(tokens[..i], stop))
    {
      ghost var before := Candidates(tokens[..i], stop);
      CandidatesStep(tokens, stop, i);
      var w := TrimSpace(tokens[i]);
      if |w| < 2 {
        assert before + [] == before;
        continue;
      }
      if w in stop {
        assert before + [] == before;
        continue;
      }
      TallySnoc(before, w);
      if w in freqMap {
        freqMap := freqMap[w := freqMap[w] + 1.0];
      } else {
        freqMap := freqMap[w := 1.0];
      }
    }
    assert tokens[..|tokens|] == tokens;
  }

  /** The summing loop of `ExtractTags`: the total of a tally is the number of tallied items. */
  method SumCounts(freqMap: map<string, real>, ghost cs: seq<string>) returns (total: real)
    requires Tallies(freqMap, cs)
    ensures total == |cs| as real
  {
    total := 0.0;
    var todo := freqMap.Keys;
    CountInEmpty(cs);
    assert freqMap.Keys - todo == {};
    while todo != {}
      invariant todo <= freqMap.Keys
      invariant total == CountIn(cs, freqMap.Keys - todo) as real
    {
      var k :| k in todo;
      CountInAdd(cs, freqMap.Keys - todo, k);
      assert freqMap.Keys - (todo - {k}) == (freqMap.Keys - todo) + {k};
      total := total + freqMap[k];
      todo := todo - {k};
    }
    assert freqMap.Keys - todo == freqMap.Keys;
    CountInAll(cs, freqMap.Keys);
  }

  /**
   * The normalising loop of `ExtractTags`: every count becomes its relative
   * frequency. Dividing happens only for a term present, so `total >= 1` then.
   */
  method Normalise(freqMap: map<string, real>, total: real, ghost cs: seq<string>) returns (tf: map<string, real>)
    requires Tallies(freqMap, cs) && total == |cs| as real
    ensures tf.Keys == freqMap.Keys
    ensures forall t :: t in tf ==> tf[t] == TermFrequency(cs, t)
  {
    tf := freqMap;
    var todo := freqMap.Keys;
    while todo != {}
      invariant todo <= tf.Keys == freqMap.Keys
      invariant forall t :: t in freqMap ==>
        tf[t] == if t in todo then freqMap[t] else freqMap[t] / total
    {
      var k :| k in todo;
      assert k in tf;
      assert k in cs;
      tf := tf[k := tf[k] / total];
      todo := todo - {k};
    }
  }

  /**
   * The weighting loop of `ExtractTags`: one segment per term, weighted by
   * the IDF factor (the median for an unknown term) times its frequency.
   */
  method WeighTerms(tf: map<string, real>, table: Idf, ghost weight: string -> real) returns (ws: seq<Segment>)
    requires forall t :: t in tf ==> weight(t) == Weigh(IdfFactor(table, t), tf[t])
    ensures Enumerates(ws, tf.Keys, weight)
  {
    ws := [];
    var todo := tf.Keys;
    ghost var done: set<string> := {};
    EnumerateStart(tf.Keys, weight);
    while todo != {}
      invariant Enumerating(ws, done, todo, tf.Keys, weight)
    {
      var k :| k in todo;
      var s := Segment(k, Weigh(IdfFactor(table, k), tf[k]));
      EnumerateNext(ws, done, todo, tf.Keys, weight, k);
      ws := ws + [s];
      done := done + {k};
      todo := todo - {k};
    }
    EnumerateEnd(ws, done, tf.Keys, weight);
  }

  /**
   * `TagExtracter`. `Seg` stands for the tokenizer handle; `defaultStopWords`
   * is what a fresh `NewStopWord()` holds.
   */
  class TagExtracter<Seg> {
    var seg: Option<Seg>
    var idf: Option<Idf>
    var stopWord: Option<set<string>>
    var segLoaded: bool
    var idfLoaded: bool
    var stopWordLoaded: bool
    const defaultStopWords: set<string>

    /** A loaded flag is only set once its object exists; a tokenizer brings stop words. */
    ghost predicate Valid()
      reads this
    {
      && (segLoaded ==> seg.Some?)
      && (idfLoaded ==> idf.Some?)
      && (stopWordLoaded ==> stopWord.Some?)
      && (seg.Some? ==> stopWord.Some?)
    }

    /** The zero value `TagExtracter{}`. */
    constructor (defaultStopWords: set<string>)
      ensures Valid()
      ensures seg == None && idf == None && stopWord == None
      ensures !segLoaded && !idfLoaded && !stopWordLoaded
      ensures this.defaultStopWords == defaultStopWords
    {
      seg, idf, stopWord := None, None, None;
      segLoaded, idfLoaded, stopWordLoaded := false, false, false;
      this.defaultStopWords := defaultStopWords;
    }

    /**
     * `LoadDictionary`: a no-op once loaded; otherwise resets the stop words
     * to the default set and installs a fresh tokenizer loaded from
     * `fileName`, setting the flag only when loading succeeded.
     */
    method LoadDictionary(fileName: string, load: string -> LoadResult<Seg>) returns (err: Option<string>)
      requires Valid()
      modifies this
      ensures Valid()
      ensures old(segLoaded) ==> err == None && seg == old(seg) && stopWord == old(stopWord) && segLoaded
      ensures !old(segLoaded) ==>
        && seg == Some(load(fileName).value) && stopWord == Some(defaultStopWords)
        && err == load(fileName).err && segLoaded == err.None?
      ensures idf == old(idf) && idfLoaded == old(idfLoaded) && stopWordLoaded == old(stopWordLoaded)
    {
      if segLoaded {
        return None;
      }
      stopWord := Some(defaultStopWords);
      var r := load(fileName);
      seg := Some(r.value);
      err := r.err;
      if err == None {
        segLoaded := true;
      }
    }

    /**
     * `SetSeg`: installs the given tokenizer and marks it loaded; the stop
     * words are reset to the default set only when no tokenizer was loaded.
     */
    method SetSeg(segobj: Seg)
      requires Valid()
      modifies this
      ensures Valid()
      ensures seg == Some(segobj) && segLoaded
      ensures stopWord == if old(segLoaded) then old(stopWord) else Some(defaultStopWords)
      ensures idf == old(idf) && idfLoaded == old(idfLoaded) && stopWordLoaded == old(stopWordLoaded)
    {
      if !segLoaded {
        stopWord := Some(defaultStopWords);
      }
      seg := Some(segobj);
      segLoaded := true;
    }

    /** `LoadIdf`: a no-op once loaded; otherwise installs the table loaded from `fileName`. */
    method LoadIdf(fileName: string, load: string -> LoadResult<Idf>) returns (err: Option<string>)
      requires Valid()
      modifies this
      ensures Valid()
      ensures old(idfLoaded) ==> err == None && idf == old(idf) && idfLoaded
      ensures !old(idfLoaded) ==>
        idf == Some(load(fileName).value) && err == load(fileName).err && idfLoaded == err.None?
      ensures seg == old(seg) && stopWord == old(stopWord)
      ensures segLoaded == old(segLoaded) && stopWordLoaded == old(stopWordLoaded)
    {
      if idfLoaded {
        return None;
      }
      var r := load(fileName);
      idf := Some(r.value);
      err := r.err;
      if err == None {
        idfLoaded := true;
      }
    }

    /** `LoadStopWords`: a no-op once loaded; otherwise installs the set loaded from `fileName`. */
    method LoadStopWords(fileName: string, load: string -> LoadResult<set<string>>) returns (err: Option<string>)
      requires Valid()
      modifies this
      ensures Valid()
      ensures old(stopWordLoaded) ==> err == None && stopWord == old(stopWord) && stopWordLoaded
      ensures !old(stopWordLoaded) ==>
        stopWord == Some(load(fileName).value) && err == load(fileName).err && stopWordLoaded == err.None?
      ensures seg == old(seg) && idf == old(idf)
      ensures segLoaded == old(segLoaded) && idfLoaded == old(idfLoaded)
    {
      if stopWordLoaded {
        return None;
      }
      var r := load(fileName);
      stopWord := Some(r.value);
      err := r.err;
      if err == None {
        stopWordLoaded := true;
      }
    }

    /**
     * `GetIdf`: the stored IDF value and `true` for a term of the table,
     * `0.0` and `false` otherwise, always with the table's median.
     */
    function GetIdf(k: string): (r: (real, real, bool))
      reads this
      requires idf.Some?
      ensures r.2 <==> k in idf.value.freq
      ensures r.0 == if k in idf.value.freq then idf.value.freq[k] else 0.0
      ensures r.1 == idf.value.median
    {
      var table := idf.value;
      if k in table.freq then (table.freq[k], table.median, true) else (0.0, table.median, false)
    }

    /** The factor `ExtractTags` applies is what `GetIdf` reports: the value when found, else the median. */
    lemma GetIdfGivesFactor(k: string)
      requires idf.Some?
      ensures var (frequency, median, found) := GetIdf(k);
        IdfFactor(idf.value, k) == if found then frequency else median
    {
    }

    /**
     * `ExtractTags` over `tokens`, the output of `Cut(sentence, true)`: the
     * `topK` best distinct terms by TF-IDF weight, best first. A present
     * tokenizer brings stop words with it (`Valid`).
     */
    method ExtractTags(tokens: seq<string>, topK: int) returns (tags: seq<Segment>)
      requires Valid() && seg.Some? && idf.Some?
      requires topK >= 0
      ensures TopRanked(tags, TfIdfSegments(tokens, stopWord.value, idf.value))
      ensures |tags| == Min(topK, |Terms(tokens, stopWord.value)|)
    {
      var stop := stopWord.value;
      var table := idf.value;
      ghost var cs := Candidates(tokens, stop);
      var freqMap := CountTerms(tokens, stop);
      TallyCounts(cs);
      var total := SumCounts(freqMap, cs);
      freqMap := Normalise(freqMap, total, cs);
      ghost var weight := TfIdfWeights(tokens, stop, table);
      WeighsByFrequency(tokens, stop, table, freqMap);
      var ws := WeighTerms(freqMap, table, weight);
      assert freqMap.Keys == Terms(tokens, stop);
      SortEnumeration(ws, Terms(tokens, stop), weight);
      ws := InsertionSort(ws, RanksAbove);
      if |ws| > topK {
        TopRankedPrefix(ws, TfIdfSegments(tokens, stop, table), topK);
        tags := ws[..topK];
      } else {
        TopRankedPrefix(ws, TfIdfSegments(tokens, stop, table), |ws|);
        assert ws[..|ws|] == ws;
        tags := ws;
      }
    }
  }
}

/**
 * The weighted term shared by both keyword pipelines (`Segment` in
 * analyse/tag_extracker.go), the ordering `Segments.Less`, and what a
 * ranked, truncated result is.
 */
module Segments {
  import opened Sorting
  import opened Counting

  /** A term with its weight; float64 weights are modelled as reals. */
  datatype Segment = Segment(text: string, weight: real)

  /**
   * Go's `<` on strings: lexicographic on the UTF-8 bytes. For strings of
   * Unicode scalar values this is the lexicographic order on code points.
   */
  predicate StrLess(a: string, b: string): (r: bool)
    ensures a < b ==> r
    ensures r ==> a != b && !(b < a)
    ensures a != [] && b != [] && a[0] < b[0] ==> r
  {
    if a == [] then b != []
    else if b == [] then false
    else if a[0] != b[0] then a[0] < b[0]
    else StrLess(a[1..], b[1..])
  }

  /** The first position where two strings differ decides their order. */
  lemma {:induction false} StrLessAt(a: string, b: string, k: nat)
    requires k < |a| && k < |b| && a[..k] == b[..k] && a[k] != b[k]
    ensures StrLess(a, b) <==> a[k] < b[k]
    decreases k
  {
    if k > 0 {
      assert a[0] == a[..k][0] && b[0] == b[..k][0];
      assert a[1..][..k - 1] == a[..k][1..] && b[1..][..k - 1] == b[..k][1..];
      StrLessAt(a[1..], b[1..], k - 1);
    }
  }

  lemma {:induction false} StrLessIrreflexive(a: string)
    ensures !StrLess(a, a)
  {
    if a != [] {
      StrLessIrreflexive(a[1..]);
    }
  }

  lemma {:induction false} StrLessTransitive(a: string, b: string, c: string)
    requires StrLess(a, b) && StrLess(b, c)
    ensures StrLess(a, c)
  {
    if a != [] && b != [] && c != [] && a[0] == b[0] && b[0] == c[0] {
      StrLessTransitive(a[1..], b[1..], c[1..]);
    }
  }

  lemma {:induction false} StrLessConnected(a: string, b: string)
    requires a != b
    ensures StrLess(a, b) || StrLess(b, a)
  {
    if a != [] && b != [] && a[0] == b[0] {
      assert a == [a[0]] + a[1..] && b == [b[0]] + b[1..];
      StrLessConnected(a[1..], b[1..]);
    }
  }

  lemma StrLessIsStrictTotalOrder()
    ensures StrictTotalOrder(StrLess)
  {
    forall a: string ensures !StrLess(a, a) {
      StrLessIrreflexive(a);
    }
    forall a: string, b: string, c: string | StrLess(a, b) && StrLess(b, c)
      ensures StrLess(a, c)
    {
      StrLessTransitive(a, b, c);
    }
    forall a: string, b: string | a != b ensures StrLess(a, b) || StrLess(b, a) {
      StrLessConnected(a, b);
    }
  }

  /** `Segments.Less`: by weight, and on equal weights by text. */
  predicate Less(a: Segment, b: Segment): (r: bool)
    ensures a.weight < b.weight ==> r
    ensures r ==> a.weight <= b.weight
  {
    if a.weight == b.weight then StrLess(a.text, b.text) else a.weight < b.weight
  }

  /**
   * `a` is placed before `b` by `sort.Sort(sort.Reverse(...))` over
   * `Segments.Less`.
   */
  predicate RanksAbove(a: Segment, b: Segment): (r: bool)
    ensures a.weight > b.weight ==> r
    ensures r ==> a.weight >= b.weight
  {
    Less(b, a)
  }

  /**
   * `Less` is irreflexive, and of two segments that differ in weight or text
   * exactly one is below the other.
   */
  lemma LessTrichotomy(a: Segment, b: Segment)
    ensures !Less(a, a)
    ensures a != b ==> (Less(a, b) <==> !Less(b, a))
  {
    StrLessIrreflexive(a.text);
    if a != b && a.weight == b.weight {
      StrLessConnected(a.text, b.text);
      if StrLess(a.text, b.text) && StrLess(b.text, a.text) {
        StrLessTransitive(a.text, b.text, a.text);
        StrLessIrreflexive(a.text);
      }
    }
  }

  lemma LessIsStrictTotalOrder()
    ensures StrictTotalOrder(Less)
  {
    forall a: Segment ensures !Less(a, a) {
      LessTrichotomy(a, a);
    }
    forall a: Segment, b: Segment, c: Segment | Less(a, b) && Less(b, c)
      ensures Less(a, c)
    {
      if a.weight == b.weight == c.weight {
        StrLessTransitive(a.text, b.text, c.text);
      }
    }
    forall a: Segment, b: Segment | a != b ensures Less(a, b) || Less(b, a) {
      LessTrichotomy(a, b);
    }
  }

  lemma RanksAboveIsStrictTotalOrder()
    ensures StrictTotalOrder(RanksAbove)
  {
    LessIsStrictTotalOrder();
  }

  /**
   * What the order of a ranked result means: weight descending, and among
   * equal weights text DESCENDING (the reverse of `Less`'s tie-break).
   */
  lemma RankOrderMeaning(s: seq<Segment>, i: nat, j: nat)
    requires StrictlySortedBy(s, RanksAbove)
    requires i < j < |s|
    ensures s[i].weight > s[j].weight
         || (s[i].weight == s[j].weight && StrLess(s[j].text, s[i].text))
  {
    assert Less(s[j], s[i]);
  }

  /**
   * `tags` is sorted by rank and consists of candidates, each ranking above
   * every candidate it leaves out: it is a best prefix of the ranked candidates.
   */
  ghost predicate TopRanked(tags: seq<Segment>, cands: set<Segment>)
  {
    && StrictlySortedBy(tags, RanksAbove)
    && (forall i :: 0 <= i < |tags| ==> tags[i] in cands)
    && (forall c, i :: c in cands && c !in tags && 0 <= i < |tags| ==> Less(c, tags[i]))
  }

  /** One segment per name, weighted by `weight`. */
  function SegmentsOf(names: set<string>, weight: string -> real): (r: set<Segment>)
    ensures forall x :: x in r <==> x.text in names && x.weight == weight(x.text)
  {
    set n | n in names :: Segment(n, weight(n))
  }

  /** Each segment of `ws` is a name of `done` with its weight. */
  ghost predicate ListsWeighted(ws: seq<Segment>, done: set<string>, weight: string -> real)
  {
    forall i :: 0 <= i < |ws| ==> ws[i].text in done && ws[i].weight == weight(ws[i].text)
  }

  /** Each name of `done` has its weighted segment in `ws`. */
  ghost predicate Covers(ws: seq<Segment>, done: set<string>, weight: string -> real)
  {
    forall n :: n in done ==> Segment(n, weight(n)) in ws
  }

  /** No name is listed twice. */
  ghost predicate TextsDistinct(ws: seq<Segment>)
  {
    forall i, j :: 0 <= i < j < |ws| ==> ws[i].text != ws[j].text
  }

  /**
   * `ws` lists one segment per name of `done`, weighted by `weight`, with no
   * name twice: what appending once per key while ranging over a map produces.
   */
  ghost predicate Enumerates(ws: seq<Segment>, done: set<string>, weight: string -> real)
  {
    |ws| == |done| && ListsWeighted(ws, done, weight) && Covers(ws, done, weight) && TextsDistinct(ws)
  }

  /**
   * Midway through ranging over the names `keys`: `done` have been listed,
   * `todo` remain.
   */
  ghost predicate Enumerating(ws: seq<Segment>, done: set<string>, todo: set<string>, keys: set<string>,
                              weight: string -> real)
  {
    done + todo == keys && done !! todo && Enumerates(ws, done, weight)
  }

  lemma EnumerateStart(keys: set<string>, weight: string -> real)
    ensures Enumerating([], {}, keys, keys, weight)
  {
  }

  lemma ListsWeightedStep(ws: seq<Segment>, done: set<string>, weight: string -> real, k: string)
    requires ListsWeighted(ws, done, weight)
    ensures ListsWeighted(ws + [Segment(k, weight(k))], done + {k}, weight)
  {
    var ws' := ws + [Segment(k, weight(k))];
    assert forall i :: 0 <= i < |ws| ==> ws'[i] == ws[i];
  }

  lemma CoversStep(ws: seq<Segment>, done: set<string>, weight: string -> real, k: string)
    requires Covers(ws, done, weight)
    ensures Covers(ws + [Segment(k, weight(k))], done + {k}, weight)
  {
    var ws' := ws + [Segment(k, weight(k))];
    forall n | n in done + {k} ensures Segment(n, weight(n)) in ws' {
      if n != k {
        assert Segment(n, weight(n)) in ws;
      }
    }
  }

  lemma TextsDistinctStep(ws: seq<Segment>, done: set<string>, weight: string -> real, k: string)
    requires TextsDistinct(ws) && ListsWeighted(ws, done, weight) && k !in done
    ensures TextsDistinct(ws + [Segment(k, weight(k))])
  {
    var ws' := ws + [Segment(k, weight(k))];
    forall i, j | 0 <= i < j < |ws'| ensures ws'[i].text != ws'[j].text {
      assert ws'[i] == ws[i];
    }
  }

  /** Listing one more remaining name, with its weight, keeps the enumeration going. */
  lemma EnumerateNext(ws: seq<Segment>, done: set<string>, todo: set<string>, keys: set<string>,
                      weight: string -> real, k: string)
    requires Enumerating(ws, done, todo, keys, weight) && k in todo
    ensures Enumerating(ws + [Segment(k, weight(k))], done + {k}, todo - {k}, keys, weight)
  {
    assert k !in done;
    assert |done + {k}| == |done| + 1;
    ListsWeightedStep(ws, done, weight, k);
    CoversStep(ws, done, weight, k);
    TextsDistinctStep(ws, done, weight, k);
  }

  lemma EnumerateEnd(ws: seq<Segment>, done: set<string>, keys: set<string>, weight: string -> real)
    requires Enumerating(ws, done, {}, keys, weight)
    ensures Enumerates(ws, keys, weight)
  {
    assert done == keys;
  }

  /**
   * Sorting an enumeration with `sort.Reverse` of `Less` gives the
   * strictly rank-sorted list of exactly those segments.
   */
  lemma SortEnumeration(ws: seq<Segment>, done: set<string>, weight: string -> real)
    requires Enumerates(ws, done, weight)
    ensures var s := InsertionSort(ws, RanksAbove);
      && StrictlySortedBy(s, RanksAbove)
      && (forall x :: x in s <==> x in SegmentsOf(done, weight))
      && |s| == |done|
  {
    var s := InsertionSort(ws, RanksAbove);
    RanksAboveIsStrictTotalOrder();
    InsertionSortSorted(ws, RanksAbove);
    forall x ensures x in s <==> x in ws {
      assert x in s <==> x in multiset(s);
      assert x in ws <==> x in multiset(ws);
    }
    DistinctHasSingletons(ws);
    SingletonsAreDistinct(s);
    SortedDistinctIsStrict(s, RanksAbove);
  }

  /** A prefix of a strictly rank-sorted list of all candidates is a top ranking. */
  lemma TopRankedPrefix(s: seq<Segment>, cands: set<Segment>, n: nat)
    requires StrictlySortedBy(s, RanksAbove)
    requires forall x :: x in s <==> x in cands
    requires n <= |s|
    ensures TopRanked(s[..n], cands)
  {
    forall c, i | c in cands && c !in s[..n] && 0 <= i < n ensures Less(c, s[i]) {
      assert forall k :: 0 <= k < n ==> s[..n][k] == s[k];
      var j :| 0 <= j < |s| && s[j] == c;
    }
  }

  /** Truncating a top ranking leaves a top ranking. */
  lemma TopRankedTruncate(s: seq<Segment>, cands: set<Segment>, n: nat)
    requires TopRanked(s, cands) && n <= |s|
    ensures TopRanked(s[..n], cands)
  {
    var t := s[..n];
    assert forall k :: 0 <= k < n ==> t[k] == s[k];
    forall c, i | c in cands && c !in t && 0 <= i < n ensures Less(c, t[i]) {
      if c in s {
        var k :| 0 <= k < |s| && s[k] == c;
        assert i < k;
      }
    }
  }

  /** A ranking of one segment per name lists no name twice. */
  lemma TopRankedTextsDistinct(tags: seq<Segment>, names: set<string>, weight: string -> real)
    requires TopRanked(tags, SegmentsOf(names, weight))
    ensures TextsDistinct(tags)
  {
    StrictlySortedDistinct(tags);
    forall i, j | 0 <= i < j < |tags| ensures tags[i].text != tags[j].text {
      assert tags[i] != tags[j];
    }
  }

  /** Strict rank order leaves no segment twice. */
  lemma StrictlySortedDistinct(s: seq<Segment>)
    requires StrictlySortedBy(s, RanksAbove)
    ensures Distinct(s)
  {
    RanksAboveIsStrictTotalOrder();
  }

  /**
   * A top ranking of a given length is unique: whatever sort algorithm and
   * whatever map iteration order produced it, the result is the same.
   */
  lemma TopRankedUnique(t1: seq<Segment>, t2: seq<Segment>, cands: set<Segment>)
    requires TopRanked(t1, cands) && TopRanked(t2, cands) && |t1| == |t2|
    ensures t1 == t2
  {
    RanksAboveIsStrictTotalOrder();
    StrictlySortedDistinct(t1);
    StrictlySortedDistinct(t2);
    DistinctCard(t1);
    DistinctCard(t2);
    var s1 := set x | x in t1;
    var s2 := set x | x in t2;
    forall x ensures x in t1 <==> x in t2 {
      if x in t1 && x !in t2 {
        SameSizeWitness(s1, s2, x);
        var y :| y in s2 && y !in s1;
        LessTrichotomy(x, y);
      }
      if x in t2 && x !in t1 {
        SameSizeWitness(s2, s1, x);
        var y :| y in s1 && y !in s2;
        LessTrichotomy(x, y);
      }
    }
    StrictlySortedUnique(t1, t2, RanksAbove);
  }

  lemma SameSizeWitness<T>(a: set<T>, b: set<T>, x: T)
    requires |a| == |b| && x in a && x !in b
    ensures exists y :: y in b && y !in a
  {
    assert a == (a - {x}) + {x};
    assert a - {x} == (b * a) + ((a - {x}) - b);
    assert b == (b * a) + (b - a);
    assert |b - a| > 0;
    var y :| y in b - a;
  }
}

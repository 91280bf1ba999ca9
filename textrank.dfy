/**
 * TextRank keyword extraction of analyse/textrank.go: the byte-length filter
 * on the tagged token stream, the co-occurrence counting over a window of
 * `Span` tokens, the graph built from the counts and the truncated ranking.
 */
module TextRank {
  import opened Wrappers
  import opened Counting
  import opened Sorting
  import opened Segments
  import opened WeightedGraph

  /** A token of the part-of-speech tokenizer: its text and its tag. */
  datatype PosToken = PosToken(text: string, pos: string)

  /** The co-occurrence window: a token pairs with the next `Span - 1` tokens. */
  const Span := 5

  /** The tags `TextRank` and `TextRankWords` allow. */
  const DefaultAllowPOS: seq<string> := ["ns", "n", "vn", "v"]

  /** Bytes UTF-8 spends on the code point `c`. */
  function Utf8Width(c: char): nat
  {
    if c as int < 0x80 then 1
    else if c as int < 0x800 then 2
    else if c as int < 0x10000 then 3
    else 4
  }

  /** Go's `len` of a string: its length in UTF-8 bytes. */
  function Utf8Len(s: string): (r: nat)
    ensures |s| <= r <= 4 * |s|
  {
    if s == [] then 0 else Utf8Len(s[..|s| - 1]) + Utf8Width(s[|s| - 1])
  }

  /** A string of characters from U+0800 to U+FFFF (Chinese among them) spends three bytes each. */
  lemma {:induction false} Utf8LenThreeByte(s: string)
    requires forall i :: 0 <= i < |s| ==> 0x800 <= s[i] as int < 0x10000
    ensures Utf8Len(s) == 3 * |s|
  {
    if s != [] {
      Utf8LenThreeByte(s[..|s| - 1]);
    }
  }

  /** A token survives the length filter unless single words are excluded and it is at most three bytes long. */
  predicate Passes(t: PosToken, allowSingleWord: bool): (r: bool)
    ensures |t.text| >= 4 ==> r
    ensures !allowSingleWord && |t.text| <= 1 ==> (r <==> |t.text| == 1 && t.text[0] as int >= 0x10000)
  {
    allowSingleWord || Utf8Len(t.text) > 3
  }

  /** The tokens the length filter lets through, in stream order. */
  function Kept(stream: seq<PosToken>, allowSingleWord: bool): seq<PosToken>
  {
    if stream == [] then []
    else
      var last := stream[|stream| - 1];
      Kept(stream[..|stream| - 1], allowSingleWord) + (if Passes(last, allowSingleWord) then [last] else [])
  }

  /** The filter keeps exactly the stream tokens that pass it. */
  lemma {:induction false} KeptMembers(stream: seq<PosToken>, allowSingleWord: bool)
    ensures forall t :: t in Kept(stream, allowSingleWord) <==> t in stream && Passes(t, allowSingleWord)
  {
    if stream != [] {
      var init := stream[..|stream| - 1];
      KeptMembers(init, allowSingleWord);
      assert stream == init + [stream[|stream| - 1]];
    }
  }

  /** The filter preserves stream order: it distributes over concatenation. */
  lemma {:induction false} KeptAppend(a: seq<PosToken>, b: seq<PosToken>, allowSingleWord: bool)
    ensures Kept(a + b, allowSingleWord) == Kept(a, allowSingleWord) + Kept(b, allowSingleWord)
  {
    if b != [] {
      var init := b[..|b| - 1];
      assert (a + b)[..|a + b| - 1] == a + init;
      KeptAppend(a, init, allowSingleWord);
    } else {
      assert a + b == a;
    }
  }

  /** With single words allowed nothing is dropped. */
  lemma {:induction false} KeptAll(stream: seq<PosToken>)
    ensures Kept(stream, true) == stream
  {
    if stream != [] {
      KeptAll(stream[..|stream| - 1]);
    }
  }

  /**
   * For words of Chinese characters, excluding single words means exactly
   * dropping the one-character words.
   */
  lemma ChineseWordPasses(t: PosToken)
    requires forall i :: 0 <= i < |t.text| ==> 0x800 <= t.text[i] as int < 0x10000
    ensures Passes(t, false) <==> |t.text| >= 2
  {
    Utf8LenThreeByte(t.text);
  }

  /** Tokens `i < j` within one window, both with an allowed tag. */
  predicate InWindow(pairs: seq<PosToken>, allow: set<string>, i: int, j: int)
  {
    0 <= i < j < |pairs| && j < i + Span && pairs[i].pos in allow && pairs[j].pos in allow
  }

  /** The pairs the inner counting loop visits for `i` before reaching `j`. */
  function RowUpTo(pairs: seq<PosToken>, allow: set<string>, i: int, j: int): seq<(string, string)>
    requires 0 <= i < j <= |pairs|
    decreases j
  {
    if j == i + 1 then []
    else
      RowUpTo(pairs, allow, i, j - 1)
        + (if pairs[j - 1].pos in allow then [(pairs[i].text, pairs[j - 1].text)] else [])
  }

  /** The pairs counted for token `i`. */
  function Row(pairs: seq<PosToken>, allow: set<string>, i: int): seq<(string, string)>
    requires 0 <= i < |pairs|
  {
    if pairs[i].pos in allow then RowUpTo(pairs, allow, i, Min(i + Span, |pairs|)) else []
  }

  /** The pairs counted for the tokens before `n`, in counting order. */
  function WindowsUpTo(pairs: seq<PosToken>, allow: set<string>, n: int): seq<(string, string)>
    requires 0 <= n <= |pairs|
  {
    if n == 0 then [] else WindowsUpTo(pairs, allow, n - 1) + Row(pairs, allow, n - 1)
  }

  /** Every pair the co-occurrence count visits, in order. */
  function Windows(pairs: seq<PosToken>, allow: set<string>): seq<(string, string)>
  {
    WindowsUpTo(pairs, allow, |pairs|)
  }

  /** `a` then `b` occur together: at positions `i < j` of one window, both tags allowed. */
  ghost predicate CoOccur(pairs: seq<PosToken>, allow: set<string>, a: string, b: string)
  {
    exists i, j :: InWindow(pairs, allow, i, j) && pairs[i].text == a && pairs[j].text == b
  }

  lemma {:induction false} RowUpToMembers(pairs: seq<PosToken>, allow: set<string>, i: int, j: int, x: (string, string))
    requires 0 <= i < j <= |pairs|
    ensures x in RowUpTo(pairs, allow, i, j)
        <==> exists k :: i < k < j && pairs[k].pos in allow && x == (pairs[i].text, pairs[k].text)
    decreases j
  {
    if j > i + 1 {
      RowUpToMembers(pairs, allow, i, j - 1, x);
    }
  }

  lemma RowMembers(pairs: seq<PosToken>, allow: set<string>, i: int, x: (string, string))
    requires 0 <= i < |pairs|
    ensures x in Row(pairs, allow, i)
        <==> exists k :: InWindow(pairs, allow, i, k) && x == (pairs[i].text, pairs[k].text)
  {
    if pairs[i].pos in allow {
      var end := Min(i + Span, |pairs|);
      RowUpToMembers(pairs, allow, i, end, x);
      if x in Row(pairs, allow, i) {
        var k :| i < k < end && pairs[k].pos in allow && x == (pairs[i].text, pairs[k].text);
        assert InWindow(pairs, allow, i, k);
      }
      if exists k :: InWindow(pairs, allow, i, k) && x == (pairs[i].text, pairs[k].text) {
        var k :| InWindow(pairs, allow, i, k) && x == (pairs[i].text, pairs[k].text);
        assert i < k < end;
      }
    }
  }

  lemma {:induction false} WindowsUpToMembers(pairs: seq<PosToken>, allow: set<string>, n: int, x: (string, string))
    requires 0 <= n <= |pairs|
    ensures x in WindowsUpTo(pairs, allow, n)
        <==> exists i, j :: InWindow(pairs, allow, i, j) && i < n && x == (pairs[i].text, pairs[j].text)
  {
    if n > 0 {
      var i := n - 1;
      WindowsUpToMembers(pairs, allow, i, x);
      RowMembers(pairs, allow, i, x);
      assert x in WindowsUpTo(pairs, allow, n) <==> x in WindowsUpTo(pairs, allow, i) || x in Row(pairs, allow, i);
      if x in Row(pairs, allow, i) {
        var k :| InWindow(pairs, allow, i, k) && x == (pairs[i].text, pairs[k].text);
        assert InWindow(pairs, allow, i, k) && i < n;
      }
      if exists i', j :: InWindow(pairs, allow, i', j) && i' < n && x == (pairs[i'].text, pairs[j].text) {
        var i', j :| InWindow(pairs, allow, i', j) && i' < n && x == (pairs[i'].text, pairs[j].text);
        if i' < i {
          assert InWindow(pairs, allow, i', j) && i' < i;
        } else {
          assert InWindow(pairs, allow, i, j);
        }
      }
    }
  }

  /** A pair is counted at least once exactly when its two words co-occur. */
  lemma WindowsMembers(pairs: seq<PosToken>, allow: set<string>, a: string, b: string)
    ensures (a, b) in Windows(pairs, allow) <==> CoOccur(pairs, allow, a, b)
  {
    WindowsUpToMembers(pairs, allow, |pairs|, (a, b));
  }

  /** The positions `(i, k)`, `i < k < j`, the inner loop for `i` counts towards the pair `x`. */
  ghost function RowHits(pairs: seq<PosToken>, allow: set<string>, i: int, j: int, x: (string, string)): set<(int, int)>
    requires 0 <= i < |pairs|
  {
    set k | i < k < j && 0 <= k < |pairs| && pairs[k].pos in allow && (pairs[i].text, pairs[k].text) == x :: (i, k)
  }

  lemma RowHitsStep(pairs: seq<PosToken>, allow: set<string>, i: int, j: int, x: (string, string))
    requires 0 <= i < j < |pairs|
    ensures var hit := pairs[j].pos in allow && (pairs[i].text, pairs[j].text) == x;
      RowHits(pairs, allow, i, j + 1, x) == RowHits(pairs, allow, i, j, x) + (if hit then {(i, j)} else {})
    ensures (i, j) !in RowHits(pairs, allow, i, j, x)
  {
  }

  lemma RowUpToSplit(pairs: seq<PosToken>, allow: set<string>, i: int, j: int, x: (string, string))
    requires 0 <= i < j < |pairs|
    ensures var hit := pairs[j].pos in allow && (pairs[i].text, pairs[j].text) == x;
      multiset(RowUpTo(pairs, allow, i, j + 1))[x] == multiset(RowUpTo(pairs, allow, i, j))[x] + (if hit then 1 else 0)
  {
  }

  /** Counting step over abstract sets: a set grown by at most one new element. */
  lemma CountsAddOne<T>(total: int, before: int, b: set<T>, c: set<T>, y: T, hit: bool)
    requires before == |b| && y !in b
    requires c == b + (if hit then {y} else {})
    requires total == before + (if hit then 1 else 0)
    ensures total == |c|
  {
  }

  lemma {:induction false} RowUpToCount(pairs: seq<PosToken>, allow: set<string>, i: int, j: int, x: (string, string))
    requires 0 <= i < j <= |pairs|
    ensures multiset(RowUpTo(pairs, allow, i, j))[x] == |RowHits(pairs, allow, i, j, x)|
    decreases j
  {
    if j == i + 1 {
      assert RowHits(pairs, allow, i, j, x) == {};
    } else {
      var k := j - 1;
      RowUpToCount(pairs, allow, i, k, x);
      RowUpToSplit(pairs, allow, i, k, x);
      RowHitsStep(pairs, allow, i, k, x);
      CountsAddOne(multiset(RowUpTo(pairs, allow, i, j))[x], multiset(RowUpTo(pairs, allow, i, k))[x],
                   RowHits(pairs, allow, i, k, x), RowHits(pairs, allow, i, j, x), (i, k),
                   pairs[k].pos in allow && (pairs[i].text, pairs[k].text) == x);
    }
  }

  /** The index pairs `(i, j)`, `i < n`, of one window whose words make the pair `x`. */
  ghost function WindowHits(pairs: seq<PosToken>, allow: set<string>, n: int, x: (string, string)): set<(int, int)>
  {
    set i, j | 0 <= i < n && 0 <= j < |pairs| && InWindow(pairs, allow, i, j) && (pairs[i].text, pairs[j].text) == x :: (i, j)
  }

  lemma RowIsWindowHits(pairs: seq<PosToken>, allow: set<string>, n: int, x: (string, string))
    requires 0 <= n < |pairs|
    ensures multiset(Row(pairs, allow, n))[x]
         == |WindowHits(pairs, allow, n + 1, x) - WindowHits(pairs, allow, n, x)|
  {
    var added := WindowHits(pairs, allow, n + 1, x) - WindowHits(pairs, allow, n, x);
    if pairs[n].pos in allow {
      var end := Min(n + Span, |pairs|);
      RowUpToCount(pairs, allow, n, end, x);
      forall h ensures h in added <==> h in RowHits(pairs, allow, n, end, x) {
        if h in added {
          assert h.0 == n && InWindow(pairs, allow, h.0, h.1);
        }
        if h in RowHits(pairs, allow, n, end, x) {
          assert InWindow(pairs, allow, h.0, h.1);
        }
      }
      assert added == RowHits(pairs, allow, n, end, x);
    } else {
      assert added == {};
    }
  }

  lemma WindowHitsGrow(pairs: seq<PosToken>, allow: set<string>, n: int, x: (string, string))
    ensures WindowHits(pairs, allow, n, x) <= WindowHits(pairs, allow, n + 1, x)
  {
  }

  /** Counting step over abstract sets: a set grown by the elements of `c - b`. */
  lemma CountsAdd<T>(total: int, before: int, added: int, b: set<T>, c: set<T>)
    requires before == |b| && added == |c - b| && b <= c
    requires total == before + added
    ensures total == |c|
  {
    assert c == b + (c - b);
  }

  lemma WindowsUpToSplit(pairs: seq<PosToken>, allow: set<string>, n: int, x: (string, string))
    requires 0 <= n < |pairs|
    ensures multiset(WindowsUpTo(pairs, allow, n + 1))[x]
         == multiset(WindowsUpTo(pairs, allow, n))[x] + multiset(Row(pairs, allow, n))[x]
  {
  }

  lemma {:induction false} WindowsUpToCount(pairs: seq<PosToken>, allow: set<string>, n: int, x: (string, string))
    requires 0 <= n <= |pairs|
    ensures multiset(WindowsUpTo(pairs, allow, n))[x] == |WindowHits(pairs, allow, n, x)|
  {
    if n == 0 {
      assert WindowHits(pairs, allow, n, x) == {};
    } else {
      var k := n - 1;
      WindowsUpToCount(pairs, allow, k, x);
      WindowsUpToSplit(pairs, allow, k, x);
      RowIsWindowHits(pairs, allow, k, x);
      WindowHitsGrow(pairs, allow, k, x);
      CountsAdd(multiset(WindowsUpTo(pairs, allow, n))[x], multiset(WindowsUpTo(pairs, allow, k))[x],
                multiset(Row(pairs, allow, k))[x], WindowHits(pairs, allow, k, x), WindowHits(pairs, allow, n, x));
    }
  }

  /**
   * The co-occurrence count of `(a, b)` is the number of index pairs `i < j`
   * of one window, both tags allowed, with words `a` then `b`; a pair never
   * seen has no entry. `(a, b)` and `(b, a)` are counted apart.
   */
  lemma CooccurrenceCounts(cm: map<(string, string), real>, pairs: seq<PosToken>, allow: set<string>,
                           a: string, b: string)
    requires cm == Tally(Windows(pairs, allow))
    ensures (a, b) in cm <==> |WindowHits(pairs, allow, |pairs|, (a, b))| > 0
    ensures (a, b) in cm ==> cm[(a, b)] == |WindowHits(pairs, allow, |pairs|, (a, b))| as real
  {
    TallyCounts(Windows(pairs, allow));
    WindowsUpToCount(pairs, allow, |pairs|, (a, b));
  }

  /** The words of co-occurring pairs: the vertices the graph ends up with. */
  ghost function Linked(pairs: seq<PosToken>, allow: set<string>): set<string>
  {
    (set i, j | 0 <= i < j < |pairs| && InWindow(pairs, allow, i, j) :: pairs[i].text)
    + (set i, j | 0 <= i < j < |pairs| && InWindow(pairs, allow, i, j) :: pairs[j].text)
  }

  /** The words of the keys of a pair map. */
  ghost function Ends(keys: set<(string, string)>): set<string>
  {
    (set p | p in keys :: p.0) + (set p | p in keys :: p.1)
  }

  /** The words of the counted pairs are exactly the words that co-occur with some word. */
  lemma TalliedEndsAreLinked(cm: map<(string, string), real>, pairs: seq<PosToken>, allow: set<string>)
    requires Tallies(cm, Windows(pairs, allow))
    ensures Ends(cm.Keys) == Linked(pairs, allow)
  {
    forall t ensures t in Ends(cm.Keys) <==> t in Linked(pairs, allow) {
      if t in Ends(cm.Keys) {
        var p :| p in cm.Keys && (p.0 == t || p.1 == t);
        WindowsMembers(pairs, allow, p.0, p.1);
        var i, j :| InWindow(pairs, allow, i, j) && pairs[i].text == p.0 && pairs[j].text == p.1;
      }
      if t in Linked(pairs, allow) {
        var i, j :| 0 <= i < j < |pairs| && InWindow(pairs, allow, i, j)
                    && (pairs[i].text == t || pairs[j].text == t);
        WindowsMembers(pairs, allow, pairs[i].text, pairs[j].text);
        assert (pairs[i].text, pairs[j].text) in cm;
      }
    }
  }

  /**
   * How many times the half-edge `x` sits in the list of `n` once every pair
   * of `done` has been added: once for `(n, x.end)` and once for
   * `(x.end, n)` when the pair is there with the edge's weight.
   */
  ghost function EdgeCount(cm: map<(string, string), real>, done: set<(string, string)>, n: string, x: Edge): nat
  {
    (if x.start == n && (n, x.end) in done && (n, x.end) in cm && cm[(n, x.end)] == x.weight then 1 else 0)
    + (if x.start == n && (x.end, n) in done && (x.end, n) in cm && cm[(x.end, n)] == x.weight then 1 else 0)
  }

  /**
   * Midway through adding the counted pairs to a graph: `done` have been
   * added, `todo` remain, and each list holds exactly the half-edges of the
   * pairs added so far.
   */
  ghost predicate Building(g: Graph, cm: map<(string, string), real>, done: set<(string, string)>,
                           todo: set<(string, string)>)
  {
    && done + todo == cm.Keys && done !! todo
    && forall n, x :: multiset(Adj(g, n))[x] == EdgeCount(cm, done, n, x)
  }

  lemma BuildStart(cm: map<(string, string), real>)
    ensures Building(Graph(map[], []), cm, {}, cm.Keys)
  {
  }

  /** Adding the edge of one more counted pair keeps the edge lists in step with the counts. */
  lemma BuildNext(g: Graph, cm: map<(string, string), real>, done: set<(string, string)>,
                  todo: set<(string, string)>, p: (string, string))
    requires Building(g, cm, done, todo) && p in todo
    ensures Building(WithEdge(g, p.0, p.1, cm[p]), cm, done + {p}, todo - {p})
  {
    forall n, x ensures multiset(Adj(WithEdge(g, p.0, p.1, cm[p]), n))[x] == EdgeCount(cm, done + {p}, n, x) {
      WithEdgeCounts(g, p.0, p.1, cm[p], n, x);
    }
  }

  /** In a well-formed graph whose edges match the counts, the vertices are the words of the counted pairs. */
  lemma VerticesFromCounts(cm: map<(string, string), real>, g: Graph)
    requires ValidGraph(g) && Building(g, cm, cm.Keys, {})
    ensures g.adj.Keys == Ends(cm.Keys)
    ensures forall n, x :: multiset(Adj(g, n))[x] == EdgeCount(cm, cm.Keys, n, x)
  {
    forall v ensures v in g.adj <==> v in Ends(cm.Keys) {
      if v in g.adj {
        var x := g.adj[v][0];
        assert x in multiset(Adj(g, v));
        assert EdgeCount(cm, cm.Keys, v, x) > 0;
      }
      if v in Ends(cm.Keys) {
        var p :| p in cm.Keys && (p.0 == v || p.1 == v);
        if p.0 == v {
          assert EdgeCount(cm, cm.Keys, v, Edge(v, p.1, cm[p])) > 0;
        } else {
          assert EdgeCount(cm, cm.Keys, v, Edge(v, p.0, cm[p])) > 0;
        }
        assert |Adj(g, v)| > 0;
      }
    }
  }

  /** The loop filling `posFilt`: the set of allowed tags, each mapped to 1. */
  method PosFilter(allowPOS: seq<string>) returns (posFilt: map<string, int>)
    ensures posFilt.Keys == set p | p in allowPOS
    ensures forall p :: p in posFilt ==> posFilt[p] == 1
  {
    posFilt := map[];
    for i := 0 to |allowPOS|
      invariant posFilt.Keys == set p | p in allowPOS[..i]
      invariant forall p :: p in posFilt ==> posFilt[p] == 1
    {
      assert allowPOS[..i + 1] == allowPOS[..i] + [allowPOS[i]];
      posFilt := posFilt[allowPOS[i] := 1];
    }
    assert allowPOS[..|allowPOS|] == allowPOS;
  }

  /** The loop collecting `pairs`: the stream less the tokens the length filter drops. */
  method KeepTokens(stream: seq<PosToken>, allowSingleWord: bool) returns (pairs: seq<PosToken>)
    ensures pairs == Kept(stream, allowSingleWord)
  {
    pairs := [];
    for i := 0 to |stream|
      invariant pairs == Kept(stream[..i], allowSingleWord)
    {
      assert stream[..i + 1][..i] == stream[..i];
      if !allowSingleWord && Utf8Len(stream[i].text) <= 3 {
        continue;
      }
      pairs := pairs + [stream[i]];
    }
    assert stream[..|stream|] == stream;
  }

  /**
   * The nested counting loops: `cm` is the tally, in visiting order, of the
   * pairs the window visits (see `TallyCounts` for what that means).
   */
  method CountCooccurrences(pairs: seq<PosToken>, posFilt: map<string, int>) returns (cm: map<(string, string), real>)
    ensures cm == Tally(Windows(pairs, posFilt.Keys))
  {
    ghost var allow := posFilt.Keys;
    cm := map[];
    for i := 0 to |pairs|
      invariant cm == Tally(WindowsUpTo(pairs, allow, i))
    {
      WindowsUpToStep(pairs, allow, i);
      if pairs[i].pos in posFilt {
        cm := CountRow(pairs, posFilt, i, cm, WindowsUpTo(pairs, allow, i));
      }
    }
  }

  lemma WindowsUpToStep(pairs: seq<PosToken>, allow: set<string>, i: int)
    requires 0 <= i < |pairs|
    ensures WindowsUpTo(pairs, allow, i + 1)
         == if pairs[i].pos in allow then WindowsUpTo(pairs, allow, i) + Row(pairs, allow, i)
            else WindowsUpTo(pairs, allow, i)
  {
    if pairs[i].pos !in allow {
      assert WindowsUpTo(pairs, allow, i) + [] == WindowsUpTo(pairs, allow, i);
    }
  }

  /** One visit of the inner counting loop: a pair with an allowed tag is tallied once more. */
  lemma CountStep(pairs: seq<PosToken>, allow: set<string>, i: int, j: int, seen: seq<(string, string)>)
    requires 0 <= i < j < |pairs| && pairs[j].pos in allow
    ensures var key := (pairs[i].text, pairs[j].text);
      var m := Tally(seen + RowUpTo(pairs, allow, i, j));
      Tally(seen + RowUpTo(pairs, allow, i, j + 1)) == m[key := if key in m then m[key] + 1.0 else 1.0]
  {
    var key := (pairs[i].text, pairs[j].text);
    var row := RowUpTo(pairs, allow, i, j);
    assert RowUpTo(pairs, allow, i, j + 1) == row + [key];
    assert seen + (row + [key]) == (seen + row) + [key];
    TallySnoc(seen + row, key);
  }

  /** The inner counting loop for token `i`, whose tag is allowed: the row's pairs are tallied after `seen`. */
  method CountRow(pairs: seq<PosToken>, posFilt: map<string, int>, i: int,
                  cm0: map<(string, string), real>, ghost seen: seq<(string, string)>)
    returns (cm: map<(string, string), real>)
    requires 0 <= i < |pairs| && pairs[i].pos in posFilt
    requires cm0 == Tally(seen)
    ensures cm == Tally(seen + Row(pairs, posFilt.Keys, i))
  {
    ghost var allow := posFilt.Keys;
    cm := cm0;
    assert seen + RowUpTo(pairs, allow, i, i + 1) == seen;
    var j := i + 1;
    while j < i + Span && j < |pairs|
      invariant i + 1 <= j <= Min(i + Span, |pairs|)
      invariant cm == Tally(seen + RowUpTo(pairs, allow, i, j))
    {
      if pairs[j].pos in posFilt {
        var key := (pairs[i].text, pairs[j].text);
        CountStep(pairs, allow, i, j, seen);
        if key !in cm {
          cm := cm[key := 1.0];
        } else {
          cm := cm[key := cm[key] + 1.0];
        }
      } else {
        assert RowUpTo(pairs, allow, i, j + 1) == RowUpTo(pairs, allow, i, j);
      }
      j := j + 1;
    }
    assert j == Min(i + Span, |pairs|);
  }

  /**
   * The loop adding one edge per counted pair to a fresh graph: the
   * vertices are the words of the pairs and each list holds, for every pair
   * through its vertex, the half-edge weighted by that pair's count.
   */
  method BuildGraph(cm: map<(string, string), real>) returns (g: UndirectWeightedGraph)
    ensures fresh(g) && g.Valid()
    ensures g.graph.Keys == Ends(cm.Keys)
    ensures forall n, x :: multiset(Adj(g.State(), n))[x] == EdgeCount(cm, cm.Keys, n, x)
  {
    g := new UndirectWeightedGraph();
    var todo := cm.Keys;
    ghost var done: set<(string, string)> := {};
    ghost var gs := g.State();
    BuildStart(cm);
    while todo != {}
      invariant fresh(g) && g.Valid() && g.State() == gs
      invariant Building(gs, cm, done, todo)
    {
      var p :| p in todo;
      g.AddEdge(p.0, p.1, cm[p]);
      BuildNext(gs, cm, done, todo, p);
      gs := WithEdge(gs, p.0, p.1, cm[p]);
      done := done + {p};
      todo := todo - {p};
    }
    VerticesFromCounts(cm, gs);
  }

  /** The vertices of the graph `TextRankWithPOS` builds. */
  ghost function Vertices(stream: seq<PosToken>, allowPOS: seq<string>, allowSingleWord: bool): set<string>
  {
    Linked(Kept(stream, allowSingleWord), set p | p in allowPOS)
  }

  /**
   * `TextRanker`. `Seg` stands for the part-of-speech tokenizer; its output
   * for a sentence is passed to the extraction methods as a token stream.
   */
  class TextRanker<Seg> {
    var seg: Option<Seg>
    var segLoaded: bool

    /** The zero value of `TextRanker`. */
    constructor ()
      ensures seg == None && !segLoaded
    {
      seg := None;
      segLoaded := false;
    }

    /**
     * `LoadDictionary`: a no-op once loaded; otherwise installs a fresh
     * tokenizer loaded from `fileName` (kept even when loading fails) and
     * sets the flag only when loading succeeded.
     */
    method LoadDictionary(fileName: string, load: string -> LoadResult<Seg>) returns (err: Option<string>)
      modifies this
      ensures old(segLoaded) ==> err == None && seg == old(seg) && segLoaded
      ensures !old(segLoaded) ==>
        seg == Some(load(fileName).value) && err == load(fileName).err && segLoaded == err.None?
    {
      if segLoaded {
        return None;
      }
      var r := load(fileName);
      seg := Some(r.value);
      err := r.err;
      if err == None {
        segLoaded := true;
      }
    }

    /**
     * `TextRankWithPOS` over the tokenizer's output `stream`, with `score`
     * the final TextRank score of each vertex: the vertices best first,
     * truncated to `topK` when `topK` is positive.
     */
    method TextRankWithPOS(stream: seq<PosToken>, topK: int, allowPOS: seq<string>, allowSingleWord: bool,
                           score: string -> real) returns (tags: seq<Segment>)
      requires seg.Some?
      ensures TopRanked(tags, SegmentsOf(Vertices(stream, allowPOS, allowSingleWord), score))
      ensures var v := |Vertices(stream, allowPOS, allowSingleWord)|;
        |tags| == if topK > 0 && v > topK then topK else v
    {
      var posFilt := PosFilter(allowPOS);
      var pairs := KeepTokens(stream, allowSingleWord);
      var cm := CountCooccurrences(pairs, posFilt);
      TallyCounts(Windows(pairs, posFilt.Keys));
      var g := BuildGraph(cm);
      TalliedEndsAreLinked(cm, pairs, posFilt.Keys);
      assert g.graph.Keys == Vertices(stream, allowPOS, allowSingleWord);
      tags := g.Rank(score);
      if topK > 0 && |tags| > topK {
        TopRankedTruncate(tags, SegmentsOf(g.graph.Keys, score), topK);
        tags := tags[..topK];
      }
    }

    /** `TextRank`: the default tags, single words allowed. */
    method TextRank(stream: seq<PosToken>, topK: int, score: string -> real) returns (tags: seq<Segment>)
      requires seg.Some?
      ensures TopRanked(tags, SegmentsOf(Vertices(stream, DefaultAllowPOS, true), score))
      ensures var v := |Vertices(stream, DefaultAllowPOS, true)|;
        |tags| == if topK > 0 && v > topK then topK else v
    {
      tags := TextRankWithPOS(stream, topK, DefaultAllowPOS, true, score);
    }

    /** `TextRankWords`: the default tags, words of at most three bytes dropped. */
    method TextRankWords(stream: seq<PosToken>, topK: int, score: string -> real) returns (tags: seq<Segment>)
      requires seg.Some?
      ensures TopRanked(tags, SegmentsOf(Vertices(stream, DefaultAllowPOS, false), score))
      ensures var v := |Vertices(stream, DefaultAllowPOS, false)|;
        |tags| == if topK > 0 && v > topK then topK else v
    {
      tags := TextRankWithPOS(stream, topK, DefaultAllowPOS, false, score);
    }
  }
}

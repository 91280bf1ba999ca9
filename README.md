# jiebago `analyse` keyword extraction in Dafny

This project models the two keyword-scoring pipelines of the Go package
`analyse` (jiebago), from the point where the tokenizer's output is already
a finite sequence:

- **TextRank** (`analyse/textrank.go`). `TextRankWithPOS` works in five steps:
  1. It drops short tokens when single words are excluded.
  2. It counts ordered pairs of tokens with allowed part-of-speech tags
     within a window of five tokens.
  3. It adds one undirected, weighted edge per counted pair to
     `undirectWeightedGraph`.
  4. It ranks the vertices.
  5. It truncates the ranking to `topK`.

  The graph keeps an adjacency map and an insertion-ordered key list.
  `addEdge` stores each edge as two mirrored half-edges. `rank` sorts the key
  list and lists one segment per vertex, best first. `TextRank` and
  `TextRankWords` call `TextRankWithPOS` with the default tags.
- **TF-IDF** (`analyse/tag_extracker.go`). `ExtractTags` works in four steps:
  1. It trims every token and drops tokens of fewer than two code points
     and stop words.
  2. It counts the survivors and normalises the counts by the total.
  3. It weighs each term by its IDF value, or by the table's median for an
     unknown term.
  4. It sorts the terms best first and truncates to `topK`.

  `GetIdf` is a pure lookup. `LoadDictionary`, `SetSeg`, `LoadIdf` and
  `LoadStopWords` set the load-once flags.

Both pipelines order their results by `Segments.Less` under `sort.Reverse`.
That order is weight descending, and among equal weights text
**descending**. `Less` itself breaks ties by text ascending. Because the
sort is reversed, results list tied terms in text-descending order
(`Segments.RankOrderMeaning`).

Modules:

- `Wrappers`: `Option` and the outcome of a dictionary loader.
- `Counting`: tallies, counting and distinctness.
- `Sorting`: a reference insertion sort standing for Go's `sort.Sort`, and
  the uniqueness of a strictly sorted sequence.
- `Segments`: `Segment`, Go's string `<`, `Less`, and what a truncated
  ranking is.
- `WeightedGraph`: the graph class.
- `TfIdf`: the specification of the TF-IDF weights.
- `TagExtract`: the `TagExtracter` class and the loops of `ExtractTags`.
- `TextRank`: filtering, windows, counting, graph building and the
  `TextRanker` class.

Modelling choices:

- Each loop that ranges over a Go map picks its keys in an unspecified order
  (`var k :| k in todo`). Every proof therefore holds for any iteration
  order.
- Go's `sort.Sort` is not specified to be stable. `Segments.TopRankedUnique`
  shows why that does not matter: any two top rankings of the same length are
  equal. So the reference sort gives the same result as any correct sort.

## Model

| member | source | states |
|---|---|---|
| Segments.StrLess | analyse/tag_extracker.go:37 | Go's string `<`: a proper prefix is smaller, a difference in the first character decides, and no string is below itself or a prefix of it |
| Segments.StrLessAt | analyse/tag_extracker.go:37 | at the first position where two strings differ, the smaller character makes its string the smaller |
| Segments.Less | analyse/tag_extracker.go:35-41 | the lighter segment is below the heavier one; a segment below another never weighs more |
| Segments.RanksAbove | analyse/tag_extracker.go:139 | `sort.Reverse` of `Less`: the heavier segment ranks first; a segment ranking first never weighs less |
| Segments.LessTrichotomy | analyse/tag_extracker.go:35-41 | `Less` is irreflexive, and of two segments differing in weight or text exactly one is below the other |
| Segments.LessIsStrictTotalOrder | analyse/tag_extracker.go:35-41 | `Less` (weight, then text) is a strict total order |
| Segments.StrLessIsStrictTotalOrder | analyse/tag_extracker.go:37 | Go's string `<` is a strict total order on strings |
| Segments.RankOrderMeaning | analyse/tag_extracker.go:139 | in a result sorted by `sort.Reverse` of `Less`, an earlier entry has a larger weight, or an equal weight and a larger text |
| Segments.SortEnumeration | analyse/tag_extracker.go:139 | sorting one segment per name gives a strictly rank-sorted list of exactly those segments, one per name |
| Segments.TopRankedPrefix | analyse/tag_extracker.go:140-144 | any prefix of the rank-sorted candidates is a top ranking: sorted, made of candidates, each above every candidate left out |
| Segments.TopRankedTruncate | analyse/textrank.go:147-149 | cutting a top ranking to its first `n` entries leaves a top ranking |
| Segments.TopRankedUnique | analyse/tag_extracker.go:139 | two top rankings of the same candidates and length are equal, whatever the sort and the map iteration order |
| Segments.TopRankedTextsDistinct | analyse/textrank.go:104-108 | a ranking of one segment per name lists no text twice |
| Segments.SegmentsOf | analyse/textrank.go:105-107 | the segment set holds exactly one segment per name, weighted by the given function |
| Segments.EnumerateNext | analyse/tag_extracker.go:131-138 | appending the segment of one more map key keeps the list one segment per visited key, weighted, with no text twice |
| Sorting.InsertionSort | analyse/tag_extracker.go:139 | the reference sort returns a permutation of its input |
| Sorting.InsertionSortSorted | analyse/tag_extracker.go:139 | under a strict total order, the reference sort returns a sorted sequence |
| Sorting.StrictlySortedUnique | analyse/tag_extracker.go:139 | two strictly sorted sequences with the same elements are equal, so the sort result does not depend on the algorithm |
| Sorting.AdjacentSortedIsSorted | analyse/textrank.go:65 | `sort.IsSorted`'s check of neighbours implies the whole key list is sorted |
| Counting.Tally | analyse/tag_extracker.go:116-120 | no contract of its own; what it holds is stated by `Counting.TallyCounts` |
| Counting.TallyCounts | analyse/tag_extracker.go:116-120 | `Tally`, incrementing a counter per element (also the pair counting of analyse/textrank.go:135-139), leaves for each element met its number of occurrences, and no other key |
| Counting.CountInAll | analyse/tag_extracker.go:122-125 | summing the counters of every key gives the number of elements counted |
| TfIdf.TrimSpaceFactor | analyse/tag_extracker.go:109 | the trimmed token is a factor of the token with only white space before and after it |
| TfIdf.TrimSpace | analyse/tag_extracker.go:109 | `strings.TrimSpace` (white space as `unicode.IsSpace`, modelled by `TfIdf.IsSpace`): the result is no longer than the token and neither starts nor ends with white space |
| TfIdf.TrimSpaceIdempotent | analyse/tag_extracker.go:109 | trimming an already trimmed token changes nothing |
| TfIdf.Candidate | analyse/tag_extracker.go:109-115 | a token contributes at most one term: its trimmed form, present exactly when it has at least two code points and is no stop word |
| TfIdf.IdfFactor | analyse/tag_extracker.go:132-136 | the factor is the table's value for a known term, and otherwise the median; it is always a table value or the median |
| TfIdf.CandidatesAreFiltered | analyse/tag_extracker.go:109-115 | every term reaching the table is some token trimmed, has at least two code points and is no stop word |
| TfIdf.CountIsMatchingTokens | analyse/tag_extracker.go:108-121 | a term's raw count is the number of tokens trimming to it when it passes the filters, and zero otherwise |
| TfIdf.WeightIsCountShare | analyse/tag_extracker.go:126-136 | a term's weight is its IDF factor times (tokens trimming to it) / (surviving tokens), and that total is positive |
| TfIdf.SingleTermWeighsIdf | analyse/tag_extracker.go:122-138 | a stream whose only surviving term is `t` yields exactly the segment `t` weighted by its IDF factor |
| TfIdf.NoCandidatesNoSegments | analyse/tag_extracker.go:122-138 | a stream with no surviving token yields no segment |
| TfIdf.WeighsByFrequency | analyse/tag_extracker.go:131-136 | a map of relative frequencies weighted by the IDF factor gives each term's TF-IDF weight |
| TagExtract.CountTerms | analyse/tag_extracker.go:106-121 | the counting loop leaves the tally of the candidate terms in stream order |
| TagExtract.SumCounts | analyse/tag_extracker.go:122-125 | the summing loop yields the number of candidate tokens |
| TagExtract.Normalise | analyse/tag_extracker.go:126-128 | the normalising loop keeps the keys and turns each count into the term's relative frequency |
| TagExtract.WeighTerms | analyse/tag_extracker.go:129-138 | the weighting loop lists one segment per term, weighted by IDF factor (median when unknown) times frequency, no term twice |
| TagExtract.TagExtracter.constructor | analyse/tag_extracker.go:48-55 | the zero value has nothing loaded |
| TagExtract.TagExtracter.LoadDictionary | analyse/tag_extracker.go:58-69 | no-op once loaded; otherwise resets stop words, installs the loaded tokenizer and sets the flag only on success |
| TagExtract.TagExtracter.SetSeg | analyse/tag_extracker.go:70-76 | installs the tokenizer and sets the flag; resets stop words only when none was loaded |
| TagExtract.TagExtracter.LoadIdf | analyse/tag_extracker.go:79-89 | no-op returning no error once loaded; otherwise installs the loaded table and sets the flag only on success |
| TagExtract.TagExtracter.LoadStopWords | analyse/tag_extracker.go:92-102 | no-op returning no error once loaded; otherwise installs the loaded set and sets the flag only on success |
| TagExtract.TagExtracter.GetIdf | analyse/tag_extracker.go:149-155 | `(idf[k], median, true)` for a term in the table, `(0.0, median, false)` otherwise |
| TagExtract.TagExtracter.GetIdfGivesFactor | analyse/tag_extracker.go:132-136 | the factor `ExtractTags` applies is the found value, else the median, as `GetIdf` reports |
| TagExtract.TagExtracter.ExtractTags | analyse/tag_extracker.go:105-146 | the result is a top ranking of the distinct terms by TF-IDF weight, of length `min(topK, #terms)` |
| WeightedGraph.EmptyGraphValid | analyse/textrank.go:41-46 | the empty graph is well formed and undirected |
| WeightedGraph.WithEdgeAdj | analyse/textrank.go:48-62 | `addEdge(s, e, w)` appends `s->e` to the list of `s` and `e->s` to the list of `e`, and changes no other list |
| WeightedGraph.WithEdgeCounts | analyse/textrank.go:48-62 | counting form: each list gains exactly its own half-edges |
| WeightedGraph.WithEdge | analyse/textrank.go:48-62 | `addEdge` on a graph value: the vertex set gains exactly `s` and `e`, `keys` only grows at its end, and every other vertex's list is unchanged |
| WeightedGraph.WithEdgeKeys | analyse/textrank.go:49-58 | an unseen endpoint is appended to `keys` once, in order `s` then `e` |
| WeightedGraph.SelfLoop | analyse/textrank.go:48-62 | a self-loop gives its vertex two entries and at most one new key |
| WeightedGraph.WithEdgeDistinct | analyse/textrank.go:49-58 | `addEdge` keeps `keys` free of duplicates |
| WeightedGraph.WithEdgeValid | analyse/textrank.go:48-62 | `addEdge` keeps `keys` equal to the vertex set and duplicate-free, every list non-empty, every edge under its start |
| WeightedGraph.WithEdgeUndirected | analyse/textrank.go:48-62 | `addEdge` keeps every half-edge matched by its mirror, with the same multiplicity |
| WeightedGraph.UndirectWeightedGraph.constructor | analyse/textrank.go:41-46 | a new graph has no vertex and no edge |
| WeightedGraph.UndirectWeightedGraph.AddEdge | analyse/textrank.go:48-62 | the new graph is `WithEdge` of the old one, and stays well formed and undirected |
| WeightedGraph.UndirectWeightedGraph.SortKeys | analyse/textrank.go:65-67 | `keys` becomes strictly sorted and a permutation of before, unchanged when already sorted; the map is untouched |
| WeightedGraph.UndirectWeightedGraph.ScoreVertices | analyse/textrank.go:104-107 | the emission loop lists one segment per vertex, weighted by its score, no vertex twice |
| WeightedGraph.UndirectWeightedGraph.Rank | analyse/textrank.go:64-110 | sorted keys, unchanged edges; the result is a top ranking of one segment per vertex, no text twice, one per vertex |
| TextRank.Utf8Len | analyse/textrank.go:124 | Go's `len` of a string: between one and four bytes per code point |
| TextRank.Passes | analyse/textrank.go:124 | a token of four or more code points always passes; with single words excluded, a one-code-point token passes only when it lies outside the BMP (four bytes), and an empty one never |
| TextRank.Utf8LenThreeByte | analyse/textrank.go:124 | Chinese (BMP, U+0800 and up) text spends three bytes per character |
| TextRank.ChineseWordPasses | analyse/textrank.go:124 | for Chinese words, excluding single words drops exactly the one-character words |
| TextRank.KeptMembers | analyse/textrank.go:123-128 | the filter keeps exactly the stream tokens that pass it (none of at most three bytes when single words are excluded) |
| TextRank.KeptAppend | analyse/textrank.go:123-128 | the filter preserves stream order |
| TextRank.KeptAll | analyse/textrank.go:123-128 | with single words allowed, every token is kept |
| TextRank.PosFilter | analyse/textrank.go:115-118 | the tag filter maps exactly the allowed tags, each to 1 |
| TextRank.KeepTokens | analyse/textrank.go:122-128 | the collecting loop yields the filtered stream |
| TextRank.CountRow | analyse/textrank.go:131-140 | the inner loop tallies the pairs of token `i` with the later allowed tokens of its window |
| TextRank.CountCooccurrences | analyse/textrank.go:129-142 | the nested loops leave the tally of the visited pairs, in visiting order |
| TextRank.RowUpToCount | analyse/textrank.go:131-140 | a row visits a pair as many times as there are positions in the window making it |
| TextRank.WindowsUpToCount | analyse/textrank.go:129-142 | the visited pairs count each word pair once per index pair `i < j` of one window making it |
| TextRank.WindowsMembers | analyse/textrank.go:129-142 | a pair is visited exactly when its words co-occur in one window, in that order, both tags allowed |
| TextRank.CooccurrenceCounts | analyse/textrank.go:129-142 | `cm[(a, b)]` is the number of index pairs `i < j < i + 5` with allowed tags and words `a`, `b`; `(a, b)` has an entry iff that number is positive |
| TextRank.TalliedEndsAreLinked | analyse/textrank.go:143-145 | the words of the counted pairs are exactly the words co-occurring with some word |
| TextRank.BuildNext | analyse/textrank.go:143-145 | adding the edge of one more counted pair keeps every list equal to the half-edges of the pairs added |
| TextRank.VerticesFromCounts | analyse/textrank.go:143-145 | once every pair is added, the vertices are exactly the words of the counted pairs |
| TextRank.BuildGraph | analyse/textrank.go:143-145 | the new graph is well formed and undirected; its vertices are the words of the pairs, each list holds one half-edge per pair through it, weighted by its count |
| TextRank.TextRanker.constructor | analyse/textrank.go:167-170 | the zero value has no tokenizer loaded |
| TextRank.TextRanker.LoadDictionary | analyse/textrank.go:173-183 | no-op once loaded; otherwise installs the loaded tokenizer (even on failure) and sets the flag only on success |
| TextRank.TextRanker.TextRankWithPOS | analyse/textrank.go:114-151 | the result is a top ranking of the co-occurring words by score, of length `topK` when `topK > 0` and fewer than the vertices, else all |
| TextRank.TextRanker.TextRank | analyse/textrank.go:155-157 | `TextRankWithPOS` with tags ns, n, vn, v and single words allowed |
| TextRank.TextRanker.TextRankWords | analyse/textrank.go:162-164 | `TextRankWithPOS` with tags ns, n, vn, v and words of at most three bytes dropped |

## Left out

- The numeric part of `rank` is not modelled (analyse/textrank.go:69-103 and
  106). This covers the ten damped iterations, the min/max scan with its
  `else if`, and the rescaling, all float64 arithmetic. `Rank` instead takes
  each vertex's final score as a parameter `score`. Everything structural is
  proved for any score function: the sorted keys, one segment per vertex,
  and the sorted, truncated output.
- The tokenizers `posseg.Segmenter.Cut` and `jiebago.Segmenter.Cut` are
  foreign code delivering tokens over a channel. Their output for the
  sentence is a parameter (`stream`, `tokens`).
- Dictionary files are parsed inside `LoadDictionary`, `loadDictionary`
  and `LoadUserDictionary`, and the median is computed there. That code is
  not part of this model. Each loader is a parameter returning the loaded
  object and an optional error.
- `StopWord.IsStopWord` is modelled as membership in a set of strings, and
  `Idf.Frequency` as lookup in a map.
- The forwarding methods `Frequency`, `Pos`, `AddWord`, `DeleteWord` and
  `LoadUserDictionary` (analyse/textrank.go:186-208) only call the
  tokenizer's dictionary, so they are not modelled.
- `Segment.Text` and `Segment.Weight` are plain field reads, so they have no
  members of their own.
- The `edges` sort interface (analyse/textrank.go:22-34) is never called,
  so it is not modelled.
- The loaded flags are not synchronised; behaviour under concurrent callers
  is not modelled.
- float64 is modelled as `real`, so rounding of `f + 1.0`, `v / total` and
  `freq * v` is not modelled. Counts stay exact integers in float64 for any
  realistic input.
- Go's `sort.Sort` is modelled by a reference insertion sort on a sequence,
  not by the library's in-place algorithm. Because the order is strict and
  total, any correct sort gives the same sequence (`Sorting.StrictlySortedUnique`).
- `TagExtract.Normalise` returns the rewritten map instead of assigning
  entries of the same map during iteration. The resulting map is the same.
- The stream is a sequence of Unicode scalar values. Invalid UTF-8 in the
  sentence is not modelled: Go counts each invalid byte as one rune and as
  one byte.
- TagExtract.TagExtracter.ExtractTags requires the tokenizer and the IDF
  table to be present (stop words then are, by `Valid`), and `topK >= 0`.
  Calling it before the dictionaries are loaded is treated as a caller
  error. Go itself reaches the stop words only for a trimmed token of at
  least two code points, and the IDF table only once a term survives the
  filters, so for a stream with no such token the source returns an empty
  result even without them; the model does not cover that call. With a
  negative `topK` the slice `ws[:topK]` is always out of range, so that
  call panics in the source.
- TagExtract.TagExtracter.GetIdf requires the IDF table to be present: Go
  reads `t.idf.median` on every path, so a call before `LoadIdf` panics in
  the source.
- TextRank.TextRanker.TextRankWithPOS requires a tokenizer to be present,
  because Go calls `Cut` on it. The edge weights of the graph it builds are
  stated by `TextRank.BuildGraph`. Since `score` stands for the numeric
  ranking, the result's contract does not mention them.

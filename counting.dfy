/** Counting facts about sequences, used for the frequency and co-occurrence tables. */
module Counting {

  function Min(a: int, b: int): int
  {
    if a <= b then a else b
  }

  predicate Distinct<T(==)>(s: seq<T>)
  {
    forall i, j :: 0 <= i < j < |s| ==> s[i] != s[j]
  }

  /**
   * The map `m` holds, for every element occurring in `s`, its number of
   * occurrences (as a float64 counter incremented by 1.0), and nothing else.
   */
  ghost predicate Tallies<K>(m: map<K, real>, s: seq<K>)
  {
    && (forall k :: k in s ==> k in m)
    && (forall k :: k in m ==> k in s && m[k] == multiset(s)[k] as real)
  }

  /** Incrementing (or creating with 1.0) the counter of `k` tallies one more occurrence. */
  lemma TallyStep<K>(m: map<K, real>, s: seq<K>, k: K)
    requires Tallies(m, s)
    ensures Tallies(m[k := if k in m then m[k] + 1.0 else 1.0], s + [k])
  {
    assert multiset(s + [k]) == multiset(s) + multiset{k};
  }

  /** The counter map built by incrementing the counter of each element of `s` in turn. */
  function Tally<K>(s: seq<K>): map<K, real>
  {
    if s == [] then map[]
    else
      var m := Tally(s[..|s| - 1]);
      var k := s[|s| - 1];
      m[k := if k in m then m[k] + 1.0 else 1.0]
  }

  lemma TallySnoc<K>(s: seq<K>, k: K)
    ensures Tally(s + [k]) == Tally(s)[k := if k in Tally(s) then Tally(s)[k] + 1.0 else 1.0]
  {
    assert (s + [k])[..|s|] == s;
  }

  /** Counting in turn tallies: each element's counter is its number of occurrences. */
  lemma {:induction false} TallyCounts<K>(s: seq<K>)
    ensures Tallies(Tally(s), s)
  {
    if s != [] {
      var init := s[..|s| - 1];
      TallyCounts(init);
      TallyStep(Tally(init), init, s[|s| - 1]);
      assert s == init + [s[|s| - 1]];
    }
  }

  /** Number of elements of `s` (with repetition) that lie in `S`. */
  function CountIn<T>(s: seq<T>, S: set<T>): (r: nat)
    ensures r <= |s|
  {
    if s == [] then 0 else (if s[0] in S then 1 else 0) + CountIn(s[1..], S)
  }

  lemma {:induction false} CountInEmpty<T>(s: seq<T>)
    ensures CountIn(s, {}) == 0
  {
    if s != [] {
      CountInEmpty(s[1..]);
    }
  }

  lemma {:induction false} CountInAdd<T>(s: seq<T>, S: set<T>, k: T)
    requires k !in S
    ensures CountIn(s, S + {k}) == CountIn(s, S) + multiset(s)[k]
  {
    if s != [] {
      CountInAdd(s[1..], S, k);
      assert s == [s[0]] + s[1..];
      assert multiset(s) == multiset{s[0]} + multiset(s[1..]);
    }
  }

  lemma {:induction false} CountInAll<T>(s: seq<T>, S: set<T>)
    requires forall x :: x in s ==> x in S
    ensures CountIn(s, S) == |s|
  {
    if s != [] {
      assert forall x :: x in s[1..] ==> x in s;
      CountInAll(s[1..], S);
    }
  }

  /** A duplicate-free sequence has as many elements as the set of its elements. */
  lemma {:induction false} DistinctCard<T>(s: seq<T>)
    requires Distinct(s)
    ensures |set x | x in s| == |s|
  {
    if s != [] {
      var t := s[1..];
      DistinctCard(t);
      assert (set x | x in s) == (set x | x in t) + {s[0]};
      assert s[0] !in (set x | x in t);
    }
  }

  lemma {:induction false} DistinctHasSingletons<T>(s: seq<T>)
    requires Distinct(s)
    ensures forall x :: multiset(s)[x] <= 1
  {
    if s != [] {
      var t := s[1..];
      assert Distinct(t);
      DistinctHasSingletons(t);
      assert s == [s[0]] + t;
      assert s[0] !in t;
    }
  }

  lemma SingletonsAreDistinct<T>(s: seq<T>)
    requires forall x :: multiset(s)[x] <= 1
    ensures Distinct(s)
  {
    forall i, j | 0 <= i < j < |s| ensures s[i] != s[j] {
      assert s == s[..i] + [s[i]] + s[i + 1..j] + [s[j]] + s[j + 1..];
      assert multiset(s)[s[i]] >= if s[i] == s[j] then 2 else 1;
    }
  }

  /** The positions of `xs` whose image under `f` is `y`. */
  function IndicesMapping<A, B(==)>(xs: seq<A>, f: A -> B, y: B): set<int>
  {
    set i | 0 <= i < |xs| && f(xs[i]) == y
  }

  lemma IndicesMappingSnoc<A, B>(xs: seq<A>, f: A -> B, y: B)
    requires xs != []
    ensures var n := |xs|;
      IndicesMapping(xs, f, y)
      == IndicesMapping(xs[..n - 1], f, y) + (if f(xs[n - 1]) == y then {n - 1} else {})
  {
    var n := |xs|;
    var init := xs[..n - 1];
    var here: set<int> := if f(xs[n - 1]) == y then {n - 1} else {};
    forall i ensures i in IndicesMapping(xs, f, y) <==> i in IndicesMapping(init, f, y) + here {
      if 0 <= i < n - 1 {
        assert xs[i] == init[i];
      }
    }
  }
}

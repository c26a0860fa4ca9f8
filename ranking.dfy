/**
 * The ranking pieces of DocumentProcessor.search_documents: per-document top-k
 * selection (`np.argsort(similarities)[-top_k:][::-1]`), and the stable
 * descending sort of the merged results (`results.sort(key=..., reverse=True)`).
 */
module Ranking {

  /** One entry of the search result list. */
  datatype ScoredChunk = ScoredChunk(
    documentId: int,
    documentName: string,
    chunkIndex: nat,
    chunkText: string,
    similarity: real)

  /** A chunk is relevant when its similarity is strictly above this. */
  const Threshold: real := 0.3

  predicate Distinct<T(==)>(s: seq<T>) {
    forall p, q :: 0 <= p < q < |s| ==> s[p] != s[q]
  }

  // ---------------------------------------------------------------------
  // Per-document selection
  // ---------------------------------------------------------------------

  /** How many indices `argsort(...)[-k:]` keeps: all of them when k is 0 (`[-0:]`), else at most k. */
  function SelectionSize(k: nat, n: nat): (m: nat)
    ensures m <= n
    ensures k >= 1 ==> m <= k && (m == k || m == n)
    ensures k == 0 ==> m == n
  {
    if k == 0 || k > n then n else k
  }

  /**
   * `idx` lists the selected chunk positions from the highest score down. Tie order
   * is not fixed: numpy's default argsort is not stable.
   */
  ghost predicate IsTopSelection(scores: seq<real>, k: nat, idx: seq<nat>) {
    && |idx| == SelectionSize(k, |scores|)
    && (forall p :: 0 <= p < |idx| ==> idx[p] < |scores|)
    && Distinct(idx)
    && (forall p, q :: 0 <= p < q < |idx| ==> scores[idx[p]] >= scores[idx[q]])
    && (forall j, p :: 0 <= j < |scores| && j !in idx && 0 <= p < |idx| ==> scores[j] <= scores[idx[p]])
    && (|idx| == |scores| ==> forall j :: 0 <= j < |scores| ==> j in idx)
  }

  /**
   * The state of the selection loop: `idx` is chosen best first, `rest` holds every
   * other position, and nothing in `rest` outscores anything chosen.
   */
  ghost predicate Partition(scores: seq<real>, idx: seq<nat>, rest: seq<nat>) {
    && |idx| + |rest| == |scores|
    && (forall p :: 0 <= p < |idx| ==> idx[p] < |scores|)
    && (forall t :: 0 <= t < |rest| ==> rest[t] < |scores|)
    && Distinct(idx) && Distinct(rest)
    && (forall t :: 0 <= t < |rest| ==> rest[t] !in idx)
    && (forall j :: 0 <= j < |scores| ==> j in idx || j in rest)
    && (forall p, q :: 0 <= p < q < |idx| ==> scores[idx[p]] >= scores[idx[q]])
    && (forall t, p :: 0 <= t < |rest| && 0 <= p < |idx| ==> scores[rest[t]] <= scores[idx[p]])
  }

  /** A position of `rest` whose score no other position of `rest` exceeds (the first such). */
  method BestRemaining(scores: seq<real>, rest: seq<nat>) returns (b: nat)
    requires |rest| > 0 && forall t :: 0 <= t < |rest| ==> rest[t] < |scores|
    ensures b < |rest| && forall t :: 0 <= t < |rest| ==> scores[rest[t]] <= scores[rest[b]]
  {
    b := 0;
    var i := 1;
    while i < |rest|
      invariant 0 <= b < |rest| && 1 <= i <= |rest|
      invariant forall t :: 0 <= t < i ==> scores[rest[t]] <= scores[rest[b]]
    {
      if scores[rest[i]] > scores[rest[b]] {
        b := i;
      }
      i := i + 1;
    }
  }

  /** Removing position `b` from `rest` keeps every other element, and no new one. */
  lemma WithoutAt(rest: seq<nat>, b: nat)
    requires b < |rest|
    ensures var left := rest[..b] + rest[b + 1..];
      && |left| == |rest| - 1
      && (forall t :: 0 <= t < |left| ==> left[t] == if t < b then rest[t] else rest[t + 1])
      && (forall t :: 0 <= t < |rest| && t != b ==> rest[t] in left)
  {
    var left := rest[..b] + rest[b + 1..];
    assert forall t :: 0 <= t < |left| ==> left[t] == if t < b then rest[t] else rest[t + 1];
    forall t | 0 <= t < |rest| && t != b
      ensures rest[t] in left
    {
      if t < b { assert left[t] == rest[t]; } else { assert left[t - 1] == rest[t]; }
    }
  }

  /** Where each element of `rest` without position `b` comes from. */
  lemma WithoutAtIndex(rest: seq<nat>, b: nat, t: nat)
    requires b < |rest| && t < |rest| - 1
    ensures (rest[..b] + rest[b + 1..])[t] == rest[if t < b then t else t + 1]
  {
  }

  /** Removing one element from a duplicate-free sequence leaves it duplicate-free. */
  lemma WithoutAtDistinct(rest: seq<nat>, b: nat)
    requires b < |rest| && Distinct(rest)
    ensures Distinct(rest[..b] + rest[b + 1..])
  {
    var left := rest[..b] + rest[b + 1..];
    assert |left| == |rest| - 1;
    forall p, q | 0 <= p < q < |left|
      ensures left[p] != left[q]
    {
      WithoutAtIndex(rest, b, p);
      WithoutAtIndex(rest, b, q);
    }
  }

  /** Moving one element between disjoint duplicate-free sequences keeps them so. */
  lemma MovedApart(idx: seq<nat>, rest: seq<nat>, b: nat)
    requires b < |rest| && Distinct(idx) && Distinct(rest)
    requires forall t :: 0 <= t < |rest| ==> rest[t] !in idx
    ensures Distinct(idx + [rest[b]])
    ensures var left := rest[..b] + rest[b + 1..]; forall t :: 0 <= t < |left| ==> left[t] !in idx + [rest[b]]
  {
    var left := rest[..b] + rest[b + 1..];
    WithoutAt(rest, b);
    assert rest[b] !in idx;
    forall t | 0 <= t < |left|
      ensures left[t] !in idx + [rest[b]]
    {
      var t' := if t < b then t else t + 1;
      assert left[t] == rest[t'] && t' != b;
    }
  }

  /** The moved position leaves both sides duplicate-free and disjoint. */
  lemma StepKeepsApart(scores: seq<real>, idx: seq<nat>, rest: seq<nat>, b: nat)
    requires Partition(scores, idx, rest) && b < |rest|
    ensures var left := rest[..b] + rest[b + 1..];
      && Distinct(left) && Distinct(idx + [rest[b]])
      && forall t :: 0 <= t < |left| ==> left[t] !in idx + [rest[b]]
  {
    WithoutAtDistinct(rest, b);
    MovedApart(idx, rest, b);
  }

  /** Every position is still on one side or the other. */
  lemma StepCovers(scores: seq<real>, idx: seq<nat>, rest: seq<nat>, b: nat)
    requires Partition(scores, idx, rest) && b < |rest|
    ensures forall j :: 0 <= j < |scores| ==> j in idx + [rest[b]] || j in rest[..b] + rest[b + 1..]
  {
    var idx' := idx + [rest[b]];
    WithoutAt(rest, b);
    forall j | 0 <= j < |scores|
      ensures j in idx' || j in rest[..b] + rest[b + 1..]
    {
      if j !in idx {
        var t :| 0 <= t < |rest| && rest[t] == j;
        if t == b { assert idx'[|idx|] == j; }
      }
    }
  }

  /** A best remaining position scores below every chosen one and above every one left. */
  lemma StepKeepsOrder(scores: seq<real>, idx: seq<nat>, rest: seq<nat>, b: nat)
    requires Partition(scores, idx, rest)
    requires b < |rest| && forall t :: 0 <= t < |rest| ==> scores[rest[t]] <= scores[rest[b]]
    ensures var idx' := idx + [rest[b]]; var left := rest[..b] + rest[b + 1..];
      && (forall p, q :: 0 <= p < q < |idx'| ==> scores[idx'[p]] >= scores[idx'[q]])
      && (forall t, p :: 0 <= t < |left| && 0 <= p < |idx'| ==> scores[left[t]] <= scores[idx'[p]])
  {
    var idx' := idx + [rest[b]];
    WithoutAt(rest, b);
    assert forall p :: 0 <= p < |idx| ==> scores[rest[b]] <= scores[idx'[p]];
  }

  /** Moving a best remaining position to the end of the selection keeps the loop state. */
  lemma PartitionStep(scores: seq<real>, idx: seq<nat>, rest: seq<nat>, b: nat)
    requires Partition(scores, idx, rest)
    requires b < |rest| && forall t :: 0 <= t < |rest| ==> scores[rest[t]] <= scores[rest[b]]
    ensures Partition(scores, idx + [rest[b]], rest[..b] + rest[b + 1..])
  {
    WithoutAt(rest, b);
    StepKeepsApart(scores, idx, rest, b);
    StepCovers(scores, idx, rest, b);
    StepKeepsOrder(scores, idx, rest, b);
  }

  /** When the loop stops, the loop state says exactly what a top selection is. */
  lemma PartitionDone(scores: seq<real>, k: nat, idx: seq<nat>, rest: seq<nat>)
    requires Partition(scores, idx, rest) && |idx| == SelectionSize(k, |scores|)
    ensures IsTopSelection(scores, k, idx)
  {
    forall j, p | 0 <= j < |scores| && j !in idx && 0 <= p < |idx|
      ensures scores[j] <= scores[idx[p]]
    {
      var t :| 0 <= t < |rest| && rest[t] == j;
    }
  }

  /** Repeatedly moves a highest-scoring remaining position to the selection. */
  method TopIndices(scores: seq<real>, k: nat) returns (idx: seq<nat>)
    ensures IsTopSelection(scores, k, idx)
  {
    var m := SelectionSize(k, |scores|);
    var rest: seq<nat> := seq(|scores|, i requires 0 <= i < |scores| => i);
    assert forall j :: 0 <= j < |scores| ==> rest[j] == j && j in rest;
    idx := [];
    while |idx| < m
      invariant |idx| <= m
      invariant Partition(scores, idx, rest)
      decreases m - |idx|
    {
      var b := BestRemaining(scores, rest);
      PartitionStep(scores, idx, rest, b);
      idx := idx + [rest[b]];
      rest := rest[..b] + rest[b + 1..];
    }
    PartitionDone(scores, k, idx, rest);
  }

  /** Fewer than `k` chunks of the document score strictly higher than chunk `j`. */
  ghost predicate AmongTop(scores: seq<real>, j: nat, k: nat)
    requires j < |scores|
  {
    |set i | 0 <= i < |scores| && scores[i] > scores[j]| < k
  }

  /** Fewer than `k` other chunks score at least as high as chunk `j`: `j` is selected whatever the tie order. */
  ghost predicate SurelyTop(scores: seq<real>, j: nat, k: nat)
    requires j < |scores|
  {
    |set i | 0 <= i < |scores| && i != j && scores[i] >= scores[j]| < k
  }

  lemma SubsetCard<T>(a: set<T>, b: set<T>)
    requires a <= b
    ensures |a| <= |b|
  {
    assert b == a + (b - a);
  }

  lemma {:induction false} PrefixImageCard(idx: seq<nat>, p: nat)
    requires p <= |idx|
    ensures |set q | 0 <= q < p :: idx[q]| <= p
  {
    if p > 0 {
      PrefixImageCard(idx, p - 1);
      assert (set q | 0 <= q < p :: idx[q]) == (set q | 0 <= q < p - 1 :: idx[q]) + {idx[p - 1]};
    }
  }

  lemma {:induction false} DistinctImageCard<T>(idx: seq<T>)
    requires Distinct(idx)
    ensures |set q | 0 <= q < |idx| :: idx[q]| == |idx|
  {
    if idx != [] {
      var init := idx[..|idx| - 1];
      DistinctImageCard(init);
      assert (set q | 0 <= q < |idx| :: idx[q]) == (set q | 0 <= q < |init| :: init[q]) + {idx[|idx| - 1]};
      assert idx[|idx| - 1] !in (set q | 0 <= q < |init| :: init[q]);
    }
  }

  /** With `k >= 1`, every selected position is among the document's `k` best. */
  lemma SelectedAreAmongTop(scores: seq<real>, k: nat, idx: seq<nat>, p: nat)
    requires IsTopSelection(scores, k, idx) && 1 <= k && p < |idx|
    ensures AmongTop(scores, idx[p], k)
  {
    var above := set i | 0 <= i < |scores| && scores[i] > scores[idx[p]];
    var before := set q | 0 <= q < p :: idx[q];
    forall i | i in above
      ensures i in before
    {
      assert i in idx;
      var q :| 0 <= q < |idx| && idx[q] == i;
      assert q < p;
    }
    SubsetCard(above, before);
    PrefixImageCard(idx, p);
  }

  /** A position left out has at least `|idx|` other positions scoring at least as high. */
  lemma UnselectedIsOutranked(scores: seq<real>, k: nat, idx: seq<nat>, j: nat)
    requires IsTopSelection(scores, k, idx) && j < |scores|
    ensures j !in idx ==> |idx| <= |set i | 0 <= i < |scores| && i != j && scores[i] >= scores[j]|
  {
    if j !in idx {
      var chosen := set q | 0 <= q < |idx| :: idx[q];
      var rivals := set i | 0 <= i < |scores| && i != j && scores[i] >= scores[j];
      assert chosen <= rivals;
      DistinctImageCard(idx);
      SubsetCard(chosen, rivals);
    }
  }

  /** Every position that is surely among the best `k` is selected. */
  lemma SurelyTopIsSelected(scores: seq<real>, k: nat, idx: seq<nat>, j: nat)
    requires IsTopSelection(scores, k, idx) && j < |scores| && SurelyTop(scores, j, k)
    ensures j in idx
  {
    UnselectedIsOutranked(scores, k, idx, j);
  }

  // ---------------------------------------------------------------------
  // Stable descending sort
  // ---------------------------------------------------------------------

  ghost predicate SortedDescending(s: seq<ScoredChunk>) {
    forall p, q :: 0 <= p < q < |s| ==> s[p].similarity >= s[q].similarity
  }

  /** Inserts `x` before the first entry that does not score strictly higher. */
  function InsertBySimilarity(x: ScoredChunk, t: seq<ScoredChunk>): (r: seq<ScoredChunk>)
    ensures multiset(r) == multiset(t) + multiset{x}
  {
    if t == [] || t[0].similarity <= x.similarity then [x] + t
    else
      assert t == [t[0]] + t[1..];
      [t[0]] + InsertBySimilarity(x, t[1..])
  }

  /** Insertion sort, which is what a stable sort on similarity (highest first) computes. */
  function SortBySimilarity(s: seq<ScoredChunk>): (r: seq<ScoredChunk>)
    ensures multiset(r) == multiset(s)
    ensures |r| == |s|
  {
    if s == [] then []
    else
      assert s == [s[0]] + s[1..];
      InsertBySimilarity(s[0], SortBySimilarity(s[1..]))
  }

  lemma {:induction false} InsertKeepsSorted(x: ScoredChunk, t: seq<ScoredChunk>)
    requires SortedDescending(t)
    ensures SortedDescending(InsertBySimilarity(x, t))
  {
    if t != [] && t[0].similarity > x.similarity {
      InsertKeepsSorted(x, t[1..]);
      InsertBelow(x, t[1..], t[0].similarity);
    }
  }

  /** Insertion brings in no entry scoring above a bound that `x` and all of `t` respect. */
  lemma {:induction false} InsertBelow(x: ScoredChunk, t: seq<ScoredChunk>, c: real)
    requires x.similarity <= c && forall q :: 0 <= q < |t| ==> t[q].similarity <= c
    ensures forall q :: 0 <= q < |InsertBySimilarity(x, t)| ==> InsertBySimilarity(x, t)[q].similarity <= c
  {
    if t != [] && t[0].similarity > x.similarity {
      InsertBelow(x, t[1..], c);
    }
  }

  /** The merged results come out ordered from the highest similarity down. */
  lemma {:induction false} SortIsSorted(s: seq<ScoredChunk>)
    ensures SortedDescending(SortBySimilarity(s))
  {
    if s != [] {
      SortIsSorted(s[1..]);
      InsertKeepsSorted(s[0], SortBySimilarity(s[1..]));
    }
  }

  /** The entries of `s` with similarity `v`, in their order in `s`. */
  function WithSimilarity(s: seq<ScoredChunk>, v: real): (r: seq<ScoredChunk>)
    ensures |r| <= |s|
  {
    if s == [] then []
    else (if s[0].similarity == v then [s[0]] else []) + WithSimilarity(s[1..], v)
  }

  lemma WithSimilarityCons(a: ScoredChunk, u: seq<ScoredChunk>, v: real)
    ensures WithSimilarity([a] + u, v) == (if a.similarity == v then [a] else []) + WithSimilarity(u, v)
  {
    assert ([a] + u)[1..] == u;
  }

  lemma {:induction false} InsertWithSimilarity(x: ScoredChunk, t: seq<ScoredChunk>, v: real)
    ensures WithSimilarity(InsertBySimilarity(x, t), v)
      == (if x.similarity == v then [x] else []) + WithSimilarity(t, v)
  {
    if t == [] || t[0].similarity <= x.similarity {
      WithSimilarityCons(x, t, v);
    } else {
      var u := InsertBySimilarity(x, t[1..]);
      var rest := WithSimilarity(t[1..], v);
      InsertWithSimilarity(x, t[1..], v);
      WithSimilarityCons(t[0], u, v);
      assert t == [t[0]] + t[1..];
      WithSimilarityCons(t[0], t[1..], v);
      if x.similarity == v {
        assert t[0].similarity != v;
      }
    }
  }

  /** Stability: entries with equal similarity keep their relative order. */
  lemma {:induction false} SortIsStable(s: seq<ScoredChunk>, v: real)
    ensures WithSimilarity(SortBySimilarity(s), v) == WithSimilarity(s, v)
  {
    if s != [] {
      SortIsStable(s[1..], v);
      InsertWithSimilarity(s[0], SortBySimilarity(s[1..]), v);
    }
  }

  /** How many entries come from document `d`. */
  function DocCount(s: seq<ScoredChunk>, d: int): (n: nat)
    ensures n <= |s|
  {
    if s == [] then 0 else (if s[0].documentId == d then 1 else 0) + DocCount(s[1..], d)
  }

  lemma {:induction false} DocCountAppend(a: seq<ScoredChunk>, b: seq<ScoredChunk>, d: int)
    ensures DocCount(a + b, d) == DocCount(a, d) + DocCount(b, d)
  {
    if a == [] {
      assert a + b == b;
    } else {
      DocCountAppend(a[1..], b, d);
      assert (a + b)[1..] == a[1..] + b;
    }
  }

  lemma {:induction false} InsertDocCount(x: ScoredChunk, t: seq<ScoredChunk>, d: int)
    ensures DocCount(InsertBySimilarity(x, t), d) == DocCount(t, d) + (if x.documentId == d then 1 else 0)
  {
    var r := InsertBySimilarity(x, t);
    if t == [] || t[0].similarity <= x.similarity {
      assert r[1..] == t;
    } else {
      InsertDocCount(x, t[1..], d);
      assert r[1..] == InsertBySimilarity(x, t[1..]);
    }
  }

  /** Sorting does not change how many entries each document contributes. */
  lemma {:induction false} SortKeepsDocCount(s: seq<ScoredChunk>, d: int)
    ensures DocCount(SortBySimilarity(s), d) == DocCount(s, d)
  {
    if s != [] {
      SortKeepsDocCount(s[1..], d);
      InsertDocCount(s[0], SortBySimilarity(s[1..]), d);
    }
  }

  lemma {:induction false} InsertKeepsDistinct(x: ScoredChunk, t: seq<ScoredChunk>)
    requires Distinct(t) && x !in t
    ensures Distinct(InsertBySimilarity(x, t))
  {
    var r := InsertBySimilarity(x, t);
    if t == [] || t[0].similarity <= x.similarity {
      assert r == [x] + t;
      assert forall q :: 1 <= q < |r| ==> r[q] == t[q - 1];
    } else {
      var u := InsertBySimilarity(x, t[1..]);
      assert t[0] !in t[1..];
      assert x !in t[1..];
      InsertKeepsDistinct(x, t[1..]);
      assert t[0] !in multiset(u);
      assert forall q :: 1 <= q < |r| ==> r[q] == u[q - 1];
    }
  }

  /** Sorting reports every entry exactly as often as before: no duplicates appear. */
  lemma {:induction false} SortKeepsDistinct(s: seq<ScoredChunk>)
    requires Distinct(s)
    ensures Distinct(SortBySimilarity(s))
  {
    if s != [] {
      assert Distinct(s[1..]);
      SortKeepsDistinct(s[1..]);
      assert s[0] !in s[1..];
      assert s[0] !in multiset(SortBySimilarity(s[1..]));
      InsertKeepsDistinct(s[0], SortBySimilarity(s[1..]));
    }
  }
}

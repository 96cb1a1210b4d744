/**
 * rerank_topk_filter(docs, scores, k): keeps the k documents with the highest
 * scores, in descending score order, equal scores in their input order, and
 * returns the kept documents together with their scores.
 *
 * Modelled as: pair each position below n = min(|docs|, |scores|) with its
 * score, sort those entries with a stable descending insertion sort, take the
 * first k, and read the documents and scores back through the positions.
 */
module TopKFilter {

  function Min(a: int, b: int): int { if a <= b then a else b }

  /** A score together with the input position it came from. */
  datatype Entry = Entry(index: nat, score: real)

  /** `a` comes before `b` in a stable descending order: a higher score, or an
      equal score and an earlier input position. */
  predicate Precedes(a: Entry, b: Entry) {
    a.score > b.score || (a.score == b.score && a.index < b.index)
  }

  ghost predicate StablyDescending(s: seq<Entry>) {
    forall i, j :: 0 <= i < j < |s| ==> Precedes(s[i], s[j])
  }

  ghost predicate IndicesIncreasing(s: seq<Entry>) {
    forall i, j :: 0 <= i < j < |s| ==> s[i].index < s[j].index
  }

  /** The first n scores, each paired with its position; callers cut to the shorter sequence, as `zip` would. */
  function Entries(scores: seq<real>, n: nat): seq<Entry>
    requires n <= |scores|
  {
    seq(n, i requires 0 <= i < n => Entry(i, scores[i]))
  }

  /** Inserts `x` after every entry whose score is at least its own. */
  function Insert(x: Entry, s: seq<Entry>): (r: seq<Entry>)
    ensures |r| == |s| + 1
    ensures multiset(r) == multiset(s) + multiset{x}
  {
    if s == [] then [x]
    else if x.score > s[0].score then [x] + s
    else
      assert s == [s[0]] + s[1..];
      [s[0]] + Insert(x, s[1..])
  }

  /** Stable descending sort by score: entries are inserted in input order. */
  function SortDescending(s: seq<Entry>): (r: seq<Entry>)
    ensures |r| == |s|
    ensures multiset(r) == multiset(s)
  {
    if s == [] then []
    else
      assert s == s[..|s| - 1] + [s[|s| - 1]];
      Insert(s[|s| - 1], SortDescending(s[..|s| - 1]))
  }

  /** The first k elements, as `s[:k]` gives for k >= 0. */
  function Take<T>(s: seq<T>, k: nat): (r: seq<T>)
    ensures |r| == Min(k, |s|)
    ensures forall i :: 0 <= i < |r| ==> r[i] == s[i]
  {
    if k <= |s| then s[..k] else s
  }

  /** The input positions rerank_topk_filter keeps, in output order. */
  function TopKIndices(scores: seq<real>, n: nat, k: nat): (sel: seq<nat>)
    requires n <= |scores|
    ensures |sel| == Min(k, n)
    ensures forall i :: 0 <= i < |sel| ==> sel[i] < n
  {
    var top := Take(SortDescending(Entries(scores, n)), k);
    SortedEntriesFaithful(scores, n);
    seq(|top|, i requires 0 <= i < |top| => top[i].index)
  }

  function RerankTopKFilter<D>(docs: seq<D>, scores: seq<real>, k: nat): (r: (seq<D>, seq<real>))
    ensures |r.0| == |r.1| == Min(k, Min(|docs|, |scores|))
  {
    var sel := TopKIndices(scores, Min(|docs|, |scores|), k);
    (seq(|sel|, i requires 0 <= i < |sel| => docs[sel[i]]),
     seq(|sel|, i requires 0 <= i < |sel| => scores[sel[i]]))
  }

  // ---------------------------------------------------------------------
  // The reference definition: what a stable top-k selection is.

  /** Position `a` ranks above position `b`: higher score, or equal score and earlier. */
  predicate Outranks(scores: seq<real>, a: nat, b: nat)
    requires a < |scores| && b < |scores|
  {
    scores[a] > scores[b] || (scores[a] == scores[b] && a < b)
  }

  /** `sel` lists min(k, n) positions below n, each ranking above the ones after
      it, and every position below n that is left out ranks below every kept one. */
  ghost predicate IsStableTopK(scores: seq<real>, n: nat, k: nat, sel: seq<nat>)
    requires n <= |scores|
  {
    && |sel| == Min(k, n)
    && (forall i :: 0 <= i < |sel| ==> sel[i] < n)
    && (forall i, j :: 0 <= i < j < |sel| ==> Outranks(scores, sel[i], sel[j]))
    && (forall i, j :: 0 <= i < |sel| && 0 <= j < n && j !in sel ==> Outranks(scores, sel[i], j))
  }

  // ---------------------------------------------------------------------
  // Sorting lemmas.

  lemma {:induction false} InsertKeepsOrder(x: Entry, s: seq<Entry>)
    requires StablyDescending(s)
    requires forall i :: 0 <= i < |s| ==> s[i].index < x.index
    ensures StablyDescending(Insert(x, s))
  {
    if s != [] && x.score <= s[0].score {
      var t := Insert(x, s[1..]);
      InsertKeepsOrder(x, s[1..]);
      forall k | 0 <= k < |t| ensures Precedes(s[0], t[k]) {
        assert t[k] in multiset(t);
        if t[k] != x {
          assert t[k] in multiset(s[1..]);
          var m :| 0 <= m < |s[1..]| && s[1..][m] == t[k];
          assert Precedes(s[0], s[m + 1]);
        }
      }
    }
  }

  lemma {:induction false} SortIsStablyDescending(s: seq<Entry>)
    requires IndicesIncreasing(s)
    ensures StablyDescending(SortDescending(s))
  {
    if s != [] {
      var p, x := s[..|s| - 1], s[|s| - 1];
      SortIsStablyDescending(p);
      var q := SortDescending(p);
      forall i | 0 <= i < |q| ensures q[i].index < x.index {
        assert q[i] in multiset(p);
        var m :| 0 <= m < |p| && p[m] == q[i];
      }
      InsertKeepsOrder(x, q);
    }
  }

  /** Every sorted entry is some position below n carrying that position's score. */
  lemma SortedEntriesFaithful(scores: seq<real>, n: nat)
    requires n <= |scores|
    ensures forall e :: e in SortDescending(Entries(scores, n)) ==> e.index < n && e.score == scores[e.index]
  {
    var es := Entries(scores, n);
    forall e | e in SortDescending(es) ensures e.index < n && e.score == scores[e.index] {
      assert e in multiset(es);
    }
  }

  // ---------------------------------------------------------------------
  // The selection meets the reference definition, and nothing else does.

  lemma TopKIndicesMeetSpec(scores: seq<real>, n: nat, k: nat)
    requires n <= |scores|
    ensures IsStableTopK(scores, n, k, TopKIndices(scores, n, k))
  {
    var es := Entries(scores, n);
    var sorted := SortDescending(es);
    SortIsStablyDescending(es);
    SortedEntriesFaithful(scores, n);
    var sel := TopKIndices(scores, n, k);
    var m := |sel|;
    assert forall i :: 0 <= i < m ==> sel[i] == sorted[i].index;
    forall q | 0 <= q < m ensures sorted[q].index in sel {
      assert sel[q] == sorted[q].index;
    }
    forall i, j | 0 <= i < j < m ensures Outranks(scores, sel[i], sel[j]) {
      assert Precedes(sorted[i], sorted[j]);
      assert sorted[i] in sorted && sorted[j] in sorted;
    }
    forall i, j | 0 <= i < m && 0 <= j < n && j !in sel ensures Outranks(scores, sel[i], j) {
      assert es[j] == Entry(j, scores[j]);
      assert es[j] in multiset(sorted);
      var p :| 0 <= p < |sorted| && sorted[p] == es[j];
      assert Precedes(sorted[i], sorted[p]);
      assert sorted[i] in sorted;
    }
  }

  /** The position kept at place i is new there, and it outranks every position
      below n that is not kept at an earlier place. */
  lemma KeptOutranksTheRest(scores: seq<real>, n: nat, k: nat, sel: seq<nat>, i: nat)
    requires n <= |scores|
    requires IsStableTopK(scores, n, k, sel)
    requires i < |sel|
    ensures sel[i] !in sel[..i]
    ensures forall j :: 0 <= j < n && j !in sel[..i] && j != sel[i] ==> Outranks(scores, sel[i], j)
  {
    forall p | 0 <= p < i ensures sel[..i][p] != sel[i] {
      assert Outranks(scores, sel[p], sel[i]);
    }
    forall q | 0 <= q < i ensures sel[q] in sel[..i] {
      assert sel[..i][q] == sel[q];
    }
    forall j | 0 <= j < n && j !in sel[..i] && j != sel[i] ensures Outranks(scores, sel[i], j) {
      if j in sel {
        var p :| 0 <= p < |sel| && sel[p] == j;
        assert Outranks(scores, sel[i], sel[p]);
      }
    }
  }

  lemma {:induction false} StableTopKAgreeUpTo(scores: seq<real>, n: nat, k: nat, sel: seq<nat>, sel': seq<nat>, i: nat)
    requires n <= |scores|
    requires IsStableTopK(scores, n, k, sel) && IsStableTopK(scores, n, k, sel')
    requires i <= |sel|
    ensures sel[..i] == sel'[..i]
  {
    if i > 0 {
      StableTopKAgreeUpTo(scores, n, k, sel, sel', i - 1);
      var a, b := sel[i - 1], sel'[i - 1];
      KeptOutranksTheRest(scores, n, k, sel, i - 1);
      KeptOutranksTheRest(scores, n, k, sel', i - 1);
      assert a != b ==> Outranks(scores, a, b) && Outranks(scores, b, a);
      assert sel[..i] == sel[..i - 1] + [a];
      assert sel'[..i] == sel'[..i - 1] + [b];
    }
  }

  /** A stable top-k selection is unique: IsStableTopK is a complete reference definition. */
  lemma StableTopKIsUnique(scores: seq<real>, n: nat, k: nat, sel: seq<nat>, sel': seq<nat>)
    requires n <= |scores|
    requires IsStableTopK(scores, n, k, sel) && IsStableTopK(scores, n, k, sel')
    ensures sel == sel'
  {
    StableTopKAgreeUpTo(scores, n, k, sel, sel', |sel|);
    assert sel == sel[..|sel|] && sel' == sel'[..|sel'|];
  }

  // ---------------------------------------------------------------------
  // What rerank_topk_filter returns.

  /** The filter returns, for a stable top-k selection of positions, the document
      and the score found at each selected position (a doc keeps its own score). */
  lemma RerankTopKFilterSelects<D>(docs: seq<D>, scores: seq<real>, k: nat)
    ensures var n := Min(|docs|, |scores|);
            var sel := TopKIndices(scores, n, k);
            var (outDocs, outScores) := RerankTopKFilter(docs, scores, k);
            && IsStableTopK(scores, n, k, sel)
            && (forall i :: 0 <= i < |sel| ==> outDocs[i] == docs[sel[i]] && outScores[i] == scores[sel[i]])
  {
    TopKIndicesMeetSpec(scores, Min(|docs|, |scores|), k);
  }

  /** Output scores never increase, and equal output scores keep input order. */
  lemma RerankTopKFilterOrder<D>(docs: seq<D>, scores: seq<real>, k: nat)
    ensures var sel := TopKIndices(scores, Min(|docs|, |scores|), k);
            var outScores := RerankTopKFilter(docs, scores, k).1;
            && (forall i, j :: 0 <= i < j < |outScores| ==> outScores[i] >= outScores[j])
            && (forall i, j :: 0 <= i < j < |outScores| && outScores[i] == outScores[j] ==> sel[i] < sel[j])
  {
    var n := Min(|docs|, |scores|);
    var sel := TopKIndices(scores, n, k);
    TopKIndicesMeetSpec(scores, n, k);
    var outScores := RerankTopKFilter(docs, scores, k).1;
    forall i, j | 0 <= i < j < |outScores| ensures outScores[i] >= outScores[j] {
      assert Outranks(scores, sel[i], sel[j]);
    }
  }

  /** Every score left out is at most every score kept; a left-out score equal
      to a kept one comes later in the input. */
  lemma RerankTopKFilterKeepsHighest<D>(docs: seq<D>, scores: seq<real>, k: nat)
    ensures var n := Min(|docs|, |scores|);
            var sel := TopKIndices(scores, n, k);
            var outScores := RerankTopKFilter(docs, scores, k).1;
            forall i, j :: 0 <= i < |outScores| && 0 <= j < n && j !in sel ==>
              scores[j] < outScores[i] || (scores[j] == outScores[i] && sel[i] < j)
  {
    var n := Min(|docs|, |scores|);
    TopKIndicesMeetSpec(scores, n, k);
  }
}

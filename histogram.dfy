/**
 * Occurrence histograms: for one keyword (or for the combined count), a map
 * from an occurrence count to the number of articles with that count.
 * Also the three sums the summary prints over a histogram.
 */
module Histogram {

  /** occurrence count -> number of articles */
  type Hist = map<nat, nat>

  /** The bucket for `k`, with a missing bucket read as 0. */
  function Get(h: Hist, k: nat): nat
  {
    if k in h then h[k] else 0
  }

  /**
   * Add `v` articles to bucket `k`, creating the bucket when it is missing
   * (the `if key in h: h[key] += v else: h[key] = v` idiom).
   */
  function AddTo(h: Hist, k: nat, v: nat): (r: Hist)
    ensures r.Keys == h.Keys + {k}
    ensures Get(r, k) == Get(h, k) + v
    ensures forall j :: j != k ==> Get(r, j) == Get(h, j)
  {
    h[k := Get(h, k) + v]
  }

  /** `AddTo` as the source writes it: `if k in h: h[k] += v else: h[k] = v`. */
  method Bump(h: Hist, k: nat, v: nat) returns (r: Hist)
    ensures r == AddTo(h, k, v)
  {
    if k in h {
      r := h[k := h[k] + v];
    } else {
      r := h[k := v];
    }
  }

  /** Every stored bucket holds at least one article. */
  predicate Positive(h: Hist)
  {
    forall k :: k in h ==> h[k] >= 1
  }

  /**
   * The histogram of a sequence of per-article counts, built one article at
   * a time in order: bucket `k` holds how many entries of `cs` equal `k`, and
   * only counts that occur have a bucket.
   */
  function HistOf(cs: seq<nat>): (h: Hist)
    ensures forall k :: Get(h, k) == multiset(cs)[k]
    ensures forall k :: k in h <==> k in cs
    ensures Positive(h)
    decreases |cs|
  {
    if cs == [] then map[]
    else
      var init := cs[..|cs| - 1];
      assert cs == init + [cs[|cs| - 1]];
      AddTo(HistOf(init), cs[|cs| - 1], 1)
  }

  /**
   * Bucket-wise sum of two histograms, a missing bucket read as 0: the merge
   * the reducer performs on one keyword.
   */
  function MergeHist(a: Hist, b: Hist): (r: Hist)
    ensures r.Keys == a.Keys + b.Keys
    ensures forall k :: Get(r, k) == Get(a, k) + Get(b, k)
  {
    map k | k in a.Keys + b.Keys :: Get(a, k) + Get(b, k)
  }

  /** Merging keeps every stored bucket at one article or more. */
  lemma MergeKeepsPositive(a: Hist, b: Hist)
    requires Positive(a) && Positive(b)
    ensures Positive(MergeHist(a, b))
  {
    forall k | k in MergeHist(a, b) ensures MergeHist(a, b)[k] >= 1 {
      assert Get(MergeHist(a, b), k) == Get(a, k) + Get(b, k);
    }
  }

  /** Two histograms with the same buckets, read with missing-as-zero, are equal. */
  lemma HistEq(a: Hist, b: Hist)
    requires a.Keys == b.Keys
    requires forall k :: Get(a, k) == Get(b, k)
    ensures a == b
  {
    forall k | k in a ensures a[k] == b[k] {
      assert Get(a, k) == Get(b, k);
    }
  }

  /** Merging histograms does not depend on the order of its operands. */
  lemma MergeCommutes(a: Hist, b: Hist)
    ensures MergeHist(a, b) == MergeHist(b, a)
  {
    HistEq(MergeHist(a, b), MergeHist(b, a));
  }

  /** Merging histograms does not depend on how the merges are grouped. */
  lemma MergeAssociates(a: Hist, b: Hist, c: Hist)
    ensures MergeHist(MergeHist(a, b), c) == MergeHist(a, MergeHist(b, c))
  {
    HistEq(MergeHist(MergeHist(a, b), c), MergeHist(a, MergeHist(b, c)));
  }

  /** The empty histogram is the identity of the merge. */
  lemma MergeEmpty(a: Hist)
    ensures MergeHist(a, map[]) == a && MergeHist(map[], a) == a
  {
    HistEq(MergeHist(a, map[]), a);
    HistEq(MergeHist(map[], a), a);
  }

  /** Two histograms that store only non-empty buckets and agree on every bucket are equal. */
  lemma PositiveEq(a: Hist, b: Hist)
    requires Positive(a) && Positive(b)
    requires forall k :: Get(a, k) == Get(b, k)
    ensures a == b
  {
    assert a.Keys == b.Keys by {
      forall k ensures k in a <==> k in b {
        assert Get(a, k) == Get(b, k);
      }
    }
    HistEq(a, b);
  }

  /** The histogram of two runs of articles one after the other is the merge of their histograms. */
  lemma HistOfConcat(xs: seq<nat>, ys: seq<nat>)
    ensures HistOf(xs + ys) == MergeHist(HistOf(xs), HistOf(ys))
  {
    assert multiset(xs + ys) == multiset(xs) + multiset(ys);
    MergeKeepsPositive(HistOf(xs), HistOf(ys));
    PositiveEq(HistOf(xs + ys), MergeHist(HistOf(xs), HistOf(ys)));
  }

  /** The three quantities the summary adds up over a histogram's buckets. */
  datatype Stat =
    | Articles     // every bucket's value: the number of articles
    | Matching     // values of buckets with a positive count: articles with at least one match
    | Occurrences  // count times value over positive counts: total number of matches

  /** What bucket `k` holding `v` articles contributes to a statistic. */
  function Term(s: Stat, k: nat, v: nat): (t: nat)
    ensures k == 0 ==> t == (if s.Articles? then v else 0)
    ensures k > 0 ==> v <= t
    ensures !s.Occurrences? ==> t <= v
  {
    match s
    case Articles => v
    case Matching => if k > 0 then v else 0
    case Occurrences => if k > 0 then k * v else 0
  }

  /** A bucket's contribution is additive in the number of articles it holds. */
  lemma TermAdds(s: Stat, k: nat, v: nat, w: nat)
    ensures Term(s, k, v + w) == Term(s, k, v) + Term(s, k, w)
  {
    if s.Occurrences? && k > 0 {
      assert k * (v + w) == k * v + k * w;
    }
  }

  /** Some bucket of a non-empty histogram. */
  ghost function Pick(h: Hist): (k: nat)
    requires h != map[]
    ensures k in h
  {
    var k :| k in h; k
  }

  /** A statistic summed over every bucket of `h`. */
  ghost function Sum(h: Hist, s: Stat): nat
    decreases |h|
  {
    if h == map[] then 0
    else
      var k := Pick(h);
      assert |h - {k}| < |h| by { assert (h - {k}).Keys == h.Keys - {k}; }
      Term(s, k, h[k]) + Sum(h - {k}, s)
  }

  /** The sum may be taken apart at any bucket, not only at the one Pick chooses. */
  lemma {:induction false} SumRemove(h: Hist, s: Stat, k: nat)
    requires k in h
    ensures Sum(h, s) == Term(s, k, h[k]) + Sum(h - {k}, s)
    decreases |h|
  {
    var j := Pick(h);
    if j != k {
      assert (h - {j}).Keys == h.Keys - {j};
      assert (h - {k}).Keys == h.Keys - {k};
      SumRemove(h - {j}, s, k);
      SumRemove(h - {k}, s, j);
      assert h - {j} - {k} == h - {k} - {j};
    }
  }

  /** Adding `v` articles to one bucket adds that bucket's contribution for `v` to the sum. */
  lemma SumAddTo(h: Hist, s: Stat, k: nat, v: nat)
    ensures Sum(AddTo(h, k, v), s) == Sum(h, s) + Term(s, k, v)
  {
    var r := AddTo(h, k, v);
    SumRemove(r, s, k);
    assert r - {k} == h - {k};
    TermAdds(s, k, Get(h, k), v);
    if k in h {
      SumRemove(h, s, k);
    } else {
      assert h - {k} == h;
    }
  }

  /** Merging in all of `b` is merging in `b` without bucket `k`, then adding bucket `k`. */
  lemma MergeOneBucket(a: Hist, b: Hist, k: nat)
    requires k in b
    ensures MergeHist(a, b) == AddTo(MergeHist(a, b - {k}), k, b[k])
  {
    var l, r := MergeHist(a, b), AddTo(MergeHist(a, b - {k}), k, b[k]);
    forall j ensures Get(l, j) == Get(r, j) {
      if j != k {
        assert Get(b - {k}, j) == Get(b, j);
      }
    }
    HistEq(l, r);
  }

  /**
   * Merging `b` bucket by bucket: once the buckets outside `pending` are
   * merged, merging one more bucket `k` is adding its articles at `k`.
   */
  lemma MergeOneMore(a: Hist, b: Hist, pending: set<nat>, k: nat)
    requires k in pending && k in b
    ensures MergeHist(a, b - (pending - {k})) == AddTo(MergeHist(a, b - pending), k, b[k])
  {
    var l, r := MergeHist(a, b - (pending - {k})), AddTo(MergeHist(a, b - pending), k, b[k]);
    forall j ensures Get(l, j) == Get(r, j) {
      if j != k {
        assert Get(b - (pending - {k}), j) == Get(b - pending, j);
      } else {
        assert Get(b - (pending - {k}), j) == b[k];
      }
    }
    HistEq(l, r);
  }

  /** A statistic over merged histograms is the sum of the statistic over each. */
  lemma {:induction false} SumMerge(a: Hist, b: Hist, s: Stat)
    ensures Sum(MergeHist(a, b), s) == Sum(a, s) + Sum(b, s)
    decreases |b|
  {
    if b == map[] {
      MergeEmpty(a);
    } else {
      var k := Pick(b);
      var b' := b - {k};
      assert |b'| < |b| by { assert b'.Keys == b.Keys - {k}; }
      MergeOneBucket(a, b, k);
      SumMerge(a, b', s);
      SumAddTo(MergeHist(a, b'), s, k, b[k]);
      SumRemove(b, s, k);
    }
  }

  /** A statistic summed per article: each entry of `cs` is one article with that count. */
  function TermSum(cs: seq<nat>, s: Stat): nat
  {
    if cs == [] then 0 else TermSum(cs[..|cs| - 1], s) + Term(s, cs[|cs| - 1], 1)
  }

  /** Summing a statistic over a histogram's buckets equals summing it over the articles it was built from. */
  lemma {:induction false} SumHistOf(cs: seq<nat>, s: Stat)
    ensures Sum(HistOf(cs), s) == TermSum(cs, s)
    decreases |cs|
  {
    if cs != [] {
      SumHistOf(cs[..|cs| - 1], s);
      SumAddTo(HistOf(cs[..|cs| - 1]), s, cs[|cs| - 1], 1);
    }
  }

  /** The per-article sum of a statistic over two runs of articles adds up. */
  lemma {:induction false} TermSumConcat(xs: seq<nat>, ys: seq<nat>, s: Stat)
    ensures TermSum(xs + ys, s) == TermSum(xs, s) + TermSum(ys, s)
    decreases |ys|
  {
    if ys != [] {
      var ys' := ys[..|ys| - 1];
      assert (xs + ys)[..|xs + ys| - 1] == xs + ys';
      assert (xs + ys)[|xs + ys| - 1] == ys[|ys| - 1];
      TermSumConcat(xs, ys', s);
    } else {
      assert xs + ys == xs;
    }
  }

  /** Counted per article: every article adds one; a matching article one; occurrences their count. */
  lemma {:induction false} TermSumMeaning(cs: seq<nat>)
    ensures TermSum(cs, Articles) == |cs|
    ensures TermSum(cs, Matching) == |set i | 0 <= i < |cs| && cs[i] > 0|
    ensures TermSum(cs, Occurrences) == SeqSum(cs)
    decreases |cs|
  {
    if cs != [] {
      var n := |cs| - 1;
      TermSumMeaning(cs[..n]);
      var before := set i | 0 <= i < n && cs[..n][i] > 0;
      var after := set i | 0 <= i < |cs| && cs[i] > 0;
      if cs[n] > 0 {
        assert after == before + {n};
      } else {
        assert after == before;
      }
    }
  }

  /** The plain sum of a sequence of counts. */
  function SeqSum(cs: seq<nat>): nat
  {
    if cs == [] then 0 else SeqSum(cs[..|cs| - 1]) + cs[|cs| - 1]
  }
}

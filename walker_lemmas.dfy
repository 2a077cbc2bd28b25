/**
 * What the fold over a whole directory computes: every bucket is the sum of
 * that bucket over all files, the grouping and order of the files do not
 * matter, and the result is the mapper's result on all articles at once.
 */
module WalkerLemmas {
  import opened Histogram
  import opened SearchTypes
  import opened Mapper
  import opened MapperLemmas
  import opened Reducer
  import opened ReducerLemmas
  import opened Walker

  /** Every result of `ms` has a histogram under `kw`. */
  predicate AllHave(ms: seq<Results>, kw: string)
  {
    forall i :: 0 <= i < |ms| ==> kw in ms[i]
  }

  /** Bucket `k` of the `kw` histograms, added up over all results. */
  function BucketTotal(ms: seq<Results>, kw: string, k: nat): nat
    requires AllHave(ms, kw)
  {
    if ms == [] then 0
    else BucketTotal(ms[..|ms| - 1], kw, k) + Get(ms[|ms| - 1][kw], k)
  }

  /** A statistic of the `kw` histograms, added up over all results. */
  ghost function StatTotal(ms: seq<Results>, kw: string, s: Stat): nat
    requires AllHave(ms, kw)
  {
    if ms == [] then 0
    else StatTotal(ms[..|ms| - 1], kw, s) + Sum(ms[|ms| - 1][kw], s)
  }

  /** All articles of all files, in listing order. */
  function Flatten(files: seq<seq<Article>>): (all: seq<Article>)
    ensures |files| == 1 ==> all == files[0]
  {
    if files == [] then []
    else Flatten(files[..|files| - 1]) + files[|files| - 1]
  }

  /**
   * Folding `xs + ys` equals folding `xs`, folding `ys` separately and
   * reducing the second accumulator into the first: files can be grouped freely.
   */
  lemma {:induction false} FoldPartition(keywords: seq<string>, xs: seq<Results>, ys: seq<Results>)
    requires Distinct(MergedNames(keywords))
    requires Shaped(keywords, xs) && Shaped(keywords, ys) && ys != []
    ensures Shaped(keywords, xs + ys)
    ensures Fold(keywords, xs + ys) == Some(Reduce(keywords, Fold(keywords, xs), Fold(keywords, ys).value))
    decreases |ys|
  {
    var init, last := ys[..|ys| - 1], ys[|ys| - 1];
    assert (xs + ys)[..|xs + ys| - 1] == xs + init;
    assert CombinedKey in last;
    if init == [] {
      assert Fold(keywords, ys) == Some(Reduce(keywords, None, last));
    } else {
      FoldPartition(keywords, xs, init);
      var v := Fold(keywords, init).value;
      ReduceAssociates(keywords, Fold(keywords, xs), v, last);
    }
  }

  /** Each bucket of each merged name in the fold is that bucket summed over every file's result. */
  lemma {:induction false} FoldBuckets(keywords: seq<string>, ms: seq<Results>, kw: string, k: nat)
    requires Distinct(MergedNames(keywords)) && Shaped(keywords, ms) && ms != []
    requires kw in MergedNames(keywords)
    ensures AllHave(ms, kw)
    ensures Get(Fold(keywords, ms).value[kw], k) == BucketTotal(ms, kw, k)
    decreases |ms|
  {
    var init, last := ms[..|ms| - 1], ms[|ms| - 1];
    if init != [] {
      FoldBuckets(keywords, init, kw, k);
      ReduceBuckets(keywords, Fold(keywords, init).value, last);
    }
  }

  /**
   * Totals add up across files: the article count, the matching-article
   * count and the occurrence total of every merged name's histogram in the
   * fold are the sums of the per-file ones.
   */
  lemma {:induction false} FoldTotals(keywords: seq<string>, ms: seq<Results>, kw: string, s: Stat)
    requires Distinct(MergedNames(keywords)) && Shaped(keywords, ms) && ms != []
    requires kw in MergedNames(keywords)
    ensures AllHave(ms, kw)
    ensures Sum(Fold(keywords, ms).value[kw], s) == StatTotal(ms, kw, s)
    decreases |ms|
  {
    var init, last := ms[..|ms| - 1], ms[|ms| - 1];
    if init != [] {
      FoldTotals(keywords, init, kw, s);
      ReduceAddsTotals(keywords, Fold(keywords, init).value, last, s);
    }
  }

  /** Listing the two groups of files in either order yields the same histograms. */
  lemma FoldReorder(keywords: seq<string>, xs: seq<Results>, ys: seq<Results>)
    requires Distinct(MergedNames(keywords))
    requires Shaped(keywords, xs) && Shaped(keywords, ys) && xs != [] && ys != []
    ensures Shaped(keywords, xs + ys) && Shaped(keywords, ys + xs)
    ensures forall kw :: kw in MergedNames(keywords) ==>
      Fold(keywords, xs + ys).value[kw] == Fold(keywords, ys + xs).value[kw]
  {
    FoldPartition(keywords, xs, ys);
    FoldPartition(keywords, ys, xs);
    ReduceCommutes(keywords, Fold(keywords, xs).value, Fold(keywords, ys).value);
  }

  /** The keyword counts of two files' articles, one after the other. */
  lemma KeywordCountsConcat(x: seq<Article>, y: seq<Article>, kw: string)
    requires |kw| > 0
    ensures KeywordCounts(x + y, kw) == KeywordCounts(x, kw) + KeywordCounts(y, kw)
  {
  }

  /** The combined counts of two files' articles, one after the other. */
  lemma CombinedCountsConcat(x: seq<Article>, y: seq<Article>, keywords: seq<string>)
    requires NonEmptyKeywords(keywords)
    ensures CombinedCounts(x + y, keywords) == CombinedCounts(x, keywords) + CombinedCounts(y, keywords)
  {
  }

  /** The "combined" histogram of two files' articles is the merge of each file's. */
  lemma CombinedConcat(keywords: seq<string>, x: seq<Article>, y: seq<Article>)
    requires WellConfigured(keywords)
    ensures MapArticles(keywords, x + y)[CombinedKey]
         == MergeHist(MapArticles(keywords, x)[CombinedKey], MapArticles(keywords, y)[CombinedKey])
  {
    CombinedHistogram(keywords, x);
    CombinedHistogram(keywords, y);
    CombinedHistogram(keywords, x + y);
    CombinedCountsConcat(x, y, keywords);
    HistOfConcat(CombinedCounts(x, keywords), CombinedCounts(y, keywords));
  }

  /** A keyword's histogram of two files' articles is the merge of each file's. */
  lemma KeywordConcat(keywords: seq<string>, x: seq<Article>, y: seq<Article>, kw: string)
    requires WellConfigured(keywords) && kw in keywords
    ensures MapArticles(keywords, x + y)[kw]
         == MergeHist(MapArticles(keywords, x)[kw], MapArticles(keywords, y)[kw])
  {
    KeywordHistogram(keywords, x, kw);
    KeywordHistogram(keywords, y, kw);
    KeywordHistogram(keywords, x + y, kw);
    KeywordCountsConcat(x, y, kw);
    HistOfConcat(KeywordCounts(x, kw), KeywordCounts(y, kw));
  }

  /** Two files' results can be reduced one into the other, and the reduce keeps every name. */
  lemma MapArticlesReducible(keywords: seq<string>, x: seq<Article>, y: seq<Article>)
    requires NonEmptyKeywords(keywords)
    ensures CanReduce(keywords, Some(MapArticles(keywords, x)), MapArticles(keywords, y))
    ensures Reduce(keywords, Some(MapArticles(keywords, x)), MapArticles(keywords, y)).Keys == ResultKeys(keywords)
  {
    assert CombinedKey in MapArticles(keywords, x);
  }

  /** One histogram of the reduce of two files' results is the one of their articles mapped together. */
  lemma MapArticlesConcatAt(keywords: seq<string>, x: seq<Article>, y: seq<Article>, kw: string)
    requires WellConfigured(keywords) && kw in ResultKeys(keywords)
    ensures CanReduce(keywords, Some(MapArticles(keywords, x)), MapArticles(keywords, y))
    ensures Reduce(keywords, Some(MapArticles(keywords, x)), MapArticles(keywords, y))[kw]
         == MapArticles(keywords, x + y)[kw]
  {
    var mx, my := MapArticles(keywords, x), MapArticles(keywords, y);
    MapArticlesReducible(keywords, x, y);
    MergeNamesAt(mx, my, MergedNames(keywords), kw);
    if kw == CombinedKey {
      CombinedConcat(keywords, x, y);
    } else {
      KeywordConcat(keywords, x, y, kw);
    }
  }

  /** Mapping two files' articles together equals reducing the second file's result into the first's. */
  lemma MapArticlesConcat(keywords: seq<string>, x: seq<Article>, y: seq<Article>)
    requires WellConfigured(keywords)
    ensures CanReduce(keywords, Some(MapArticles(keywords, x)), MapArticles(keywords, y))
    ensures MapArticles(keywords, x + y) == Reduce(keywords, Some(MapArticles(keywords, x)), MapArticles(keywords, y))
  {
    MapArticlesReducible(keywords, x, y);
    var r, mxy := Reduce(keywords, Some(MapArticles(keywords, x)), MapArticles(keywords, y)), MapArticles(keywords, x + y);
    forall kw | kw in r ensures r[kw] == mxy[kw] {
      MapArticlesConcatAt(keywords, x, y, kw);
    }
    ResultsEq(r, mxy);
  }

  /** Two histogram sets with the same names and the same histogram under each name are equal. */
  lemma ResultsEq(a: Results, b: Results)
    requires a.Keys == b.Keys
    requires forall kw :: kw in a ==> a[kw] == b[kw]
    ensures a == b
  {
  }

  /**
   * The whole run: with the same keywords for mapper and reducer, the
   * fold over a non-empty directory is the mapper's result on all of its
   * articles taken as one file.
   */
  lemma {:induction false} CorpusHistogram(keywords: seq<string>, files: seq<seq<Article>>)
    requires WellConfigured(keywords) && files != []
    ensures Shaped(keywords, MapEach(keywords, files))
    ensures Fold(keywords, MapEach(keywords, files)) == Some(MapArticles(keywords, Flatten(files)))
    decreases |files|
  {
    var init, last := files[..|files| - 1], files[|files| - 1];
    var ms := MapEach(keywords, files);
    MapEachShaped(keywords, keywords, files);
    assert ms[..|ms| - 1] == MapEach(keywords, init);
    if init != [] {
      CorpusHistogram(keywords, init);
      MapArticlesConcat(keywords, Flatten(init), last);
    }
  }

  /**
   * The run's totals: every keyword's histogram, and "combined", holds one
   * entry per article of the directory, and the occurrence total of
   * "combined" is the sum of the keywords' occurrence totals.
   */
  lemma CorpusTotals(keywords: seq<string>, files: seq<seq<Article>>)
    requires WellConfigured(keywords) && files != []
    ensures Shaped(keywords, MapEach(keywords, files))
    ensures forall kw :: kw in MergedNames(keywords) ==>
      Sum(Fold(keywords, MapEach(keywords, files)).value[kw], Articles) == |Flatten(files)|
    ensures HasKeys(Fold(keywords, MapEach(keywords, files)).value, keywords)
    ensures Sum(Fold(keywords, MapEach(keywords, files)).value[CombinedKey], Occurrences)
         == KeywordsSum(Fold(keywords, MapEach(keywords, files)).value, keywords, Occurrences)
  {
    CorpusHistogram(keywords, files);
    FileTotals(keywords, Flatten(files));
    CombinedOccurrences(keywords, Flatten(files));
  }
}

/**
 * What the mapper's histogram set means: each keyword's histogram is the
 * histogram of that keyword's per-article counts, the "combined" histogram
 * that of the per-article sums, and so every histogram accounts for every
 * article once.
 */
module MapperLemmas {
  import opened Substring
  import opened Histogram
  import opened SearchTypes
  import opened Mapper

  /** The count of `kw` in each article of `data`, in order. */
  function KeywordCounts(data: seq<Article>, kw: string): (cs: seq<nat>)
    requires |kw| > 0
    ensures |cs| == |data|
  {
    seq(|data|, i requires 0 <= i < |data| => Count(data[i].text, kw))
  }

  /** The combined count of each article of `data`, in order. */
  function CombinedCounts(data: seq<Article>, keywords: seq<string>): (cs: seq<nat>)
    requires NonEmptyKeywords(keywords)
    ensures |cs| == |data|
  {
    seq(|data|, i requires 0 <= i < |data| => CombinedCount(data[i].text, keywords))
  }

  /** An article's combined count is positive exactly when some keyword occurs in its text. */
  lemma {:induction false} CombinedPositiveIff(text: string, keywords: seq<string>)
    requires NonEmptyKeywords(keywords)
    ensures CombinedCount(text, keywords) > 0 <==> exists kw :: kw in keywords && Count(text, kw) > 0
    decreases |keywords|
  {
    if keywords != [] {
      var init, last := keywords[..|keywords| - 1], keywords[|keywords| - 1];
      assert keywords == init + [last];
      CombinedPositiveIff(text, init);
      if Count(text, last) > 0 {
        assert last in keywords;
      } else if exists kw :: kw in keywords && Count(text, kw) > 0 {
        var kw :| kw in keywords && Count(text, kw) > 0;
        assert kw in init;
      }
    }
  }

  /**
   * With distinct keywords, the keyword loop bumps each keyword's histogram
   * exactly once, at that keyword's count, and leaves every other histogram alone.
   */
  lemma {:induction false} RecordKeywordsAt(r: Results, text: string, keywords: seq<string>, kw: string)
    requires NonEmptyKeywords(keywords) && HasKeys(r, keywords) && Distinct(keywords)
    requires kw in r
    ensures kw in keywords ==> RecordKeywords(r, text, keywords)[kw] == AddTo(r[kw], Count(text, kw), 1)
    ensures kw !in keywords ==> RecordKeywords(r, text, keywords)[kw] == r[kw]
    decreases |keywords|
  {
    if keywords != [] {
      var init, last := keywords[..|keywords| - 1], keywords[|keywords| - 1];
      assert keywords == init + [last];
      DistinctPrefix(keywords, |keywords| - 1);
      assert last !in init by {
        forall i | 0 <= i < |init| ensures init[i] != last {
          assert keywords[i] != keywords[|keywords| - 1];
        }
      }
      RecordKeywordsAt(r, text, init, kw);
    }
  }

  /** Mapping one more article bumps a keyword's histogram at that article's count of it. */
  lemma MapArticlesSnocAt(keywords: seq<string>, data: seq<Article>, kw: string)
    requires WellConfigured(keywords) && kw in keywords && data != []
    ensures MapArticles(keywords, data)[kw]
         == AddTo(MapArticles(keywords, data[..|data| - 1])[kw], Count(data[|data| - 1].text, kw), 1)
  {
    WellConfiguredMeans(keywords);
    RecordKeywordsAt(MapArticles(keywords, data[..|data| - 1]), data[|data| - 1].text, keywords, kw);
  }

  /** One keyword's histogram is the histogram of that keyword's counts over the file's articles. */
  lemma {:induction false} KeywordHistogram(keywords: seq<string>, data: seq<Article>, kw: string)
    requires WellConfigured(keywords) && kw in keywords
    ensures MapArticles(keywords, data)[kw] == HistOf(KeywordCounts(data, kw))
    decreases |data|
  {
    WellConfiguredMeans(keywords);
    if data != [] {
      var init, a := data[..|data| - 1], data[|data| - 1];
      var cs := KeywordCounts(data, kw);
      assert cs[..|data| - 1] == KeywordCounts(init, kw) && cs[|data| - 1] == Count(a.text, kw);
      MapArticlesSnocAt(keywords, data, kw);
      KeywordHistogram(keywords, init, kw);
    }
  }

  /** Mapping one more article bumps the "combined" histogram at that article's combined count. */
  lemma MapArticlesSnocCombined(keywords: seq<string>, data: seq<Article>)
    requires WellConfigured(keywords) && data != []
    ensures MapArticles(keywords, data)[CombinedKey]
         == AddTo(MapArticles(keywords, data[..|data| - 1])[CombinedKey], CombinedCount(data[|data| - 1].text, keywords), 1)
  {
    WellConfiguredMeans(keywords);
    RecordKeywordsAt(MapArticles(keywords, data[..|data| - 1]), data[|data| - 1].text, keywords, CombinedKey);
  }

  /** The "combined" histogram is the histogram of the articles' combined counts. */
  lemma {:induction false} CombinedHistogram(keywords: seq<string>, data: seq<Article>)
    requires WellConfigured(keywords)
    ensures MapArticles(keywords, data)[CombinedKey] == HistOf(CombinedCounts(data, keywords))
    decreases |data|
  {
    if data != [] {
      var init, a := data[..|data| - 1], data[|data| - 1];
      var cs := CombinedCounts(data, keywords);
      assert cs[..|data| - 1] == CombinedCounts(init, keywords) && cs[|data| - 1] == CombinedCount(a.text, keywords);
      MapArticlesSnocCombined(keywords, data);
      CombinedHistogram(keywords, init);
    }
  }

  /**
   * Every article lands in exactly one bucket of each histogram: each
   * keyword's histogram, and the "combined" one, adds up to the number of
   * articles in the file.
   */
  lemma FileTotals(keywords: seq<string>, data: seq<Article>)
    requires WellConfigured(keywords)
    ensures forall kw :: kw in keywords + [CombinedKey] ==> Sum(MapArticles(keywords, data)[kw], Articles) == |data|
  {
    forall kw | kw in keywords + [CombinedKey]
      ensures Sum(MapArticles(keywords, data)[kw], Articles) == |data|
    {
      var cs := if kw == CombinedKey then CombinedCounts(data, keywords) else KeywordCounts(data, kw);
      if kw == CombinedKey {
        CombinedHistogram(keywords, data);
      } else {
        KeywordHistogram(keywords, data, kw);
      }
      SumHistOf(cs, Articles);
      TermSumMeaning(cs);
    }
  }

  /** A statistic of the histograms of `names`, added up over the names. */
  ghost function KeywordsSum(r: Results, names: seq<string>, s: Stat): nat
    requires HasKeys(r, names)
  {
    if names == [] then 0
    else KeywordsSum(r, names[..|names| - 1], s) + Sum(r[names[|names| - 1]], s)
  }

  /** Sums of two sequences of counts, entry by entry, add up. */
  lemma {:induction false} SeqSumPointwise(xs: seq<nat>, ys: seq<nat>, zs: seq<nat>)
    requires |xs| == |ys| == |zs|
    requires forall i :: 0 <= i < |zs| ==> zs[i] == xs[i] + ys[i]
    ensures SeqSum(zs) == SeqSum(xs) + SeqSum(ys)
    decreases |zs|
  {
    if zs != [] {
      var n := |zs| - 1;
      SeqSumPointwise(xs[..n], ys[..n], zs[..n]);
    }
  }

  /** Over a file, the combined counts add up to the keyword counts added up over the keywords. */
  lemma {:induction false} CombinedOccurrencesPrefix(keywords: seq<string>, data: seq<Article>, names: seq<string>)
    requires WellConfigured(keywords)
    requires forall kw :: kw in names ==> kw in keywords
    ensures HasKeys(MapArticles(keywords, data), names)
    ensures NonEmptyKeywords(names)
    ensures SeqSum(CombinedCounts(data, names)) == KeywordsSum(MapArticles(keywords, data), names, Occurrences)
    decreases |names|
  {
    if names == [] {
      var zeros := CombinedCounts(data, names);
      SeqSumPointwise(zeros, zeros, zeros);
    } else {
      var init, last := names[..|names| - 1], names[|names| - 1];
      assert names == init + [last];
      CombinedOccurrencesPrefix(keywords, data, init);
      var kc := KeywordCounts(data, last);
      SeqSumPointwise(CombinedCounts(data, init), kc, CombinedCounts(data, names));
      KeywordHistogram(keywords, data, last);
      SumHistOf(kc, Occurrences);
      TermSumMeaning(kc);
    }
  }

  /**
   * Since an article's combined count is the sum of its keyword counts, the
   * "combined" histogram's weighted sum (count times articles) equals the
   * keyword histograms' weighted sums added up.
   */
  lemma CombinedOccurrences(keywords: seq<string>, data: seq<Article>)
    requires WellConfigured(keywords)
    ensures HasKeys(MapArticles(keywords, data), keywords)
    ensures Sum(MapArticles(keywords, data)[CombinedKey], Occurrences)
         == KeywordsSum(MapArticles(keywords, data), keywords, Occurrences)
  {
    var cc := CombinedCounts(data, keywords);
    CombinedOccurrencesPrefix(keywords, data, keywords);
    CombinedHistogram(keywords, data);
    SumHistOf(cc, Occurrences);
    TermSumMeaning(cc);
  }

  /** Adding one or more articles to a bucket keeps every bucket at one or more. */
  lemma AddToKeepsPositive(h: Hist, k: nat, v: nat)
    requires Positive(h) && v >= 1
    ensures Positive(AddTo(h, k, v))
  {
  }

  /** The keyword loop keeps every stored bucket at one article or more. */
  lemma {:induction false} RecordKeywordsPositive(r: Results, text: string, keywords: seq<string>)
    requires NonEmptyKeywords(keywords) && HasKeys(r, keywords) && AllPositive(r)
    ensures AllPositive(RecordKeywords(r, text, keywords))
    decreases |keywords|
  {
    if keywords != [] {
      var init, last := keywords[..|keywords| - 1], keywords[|keywords| - 1];
      RecordKeywordsPositive(r, text, init);
      var before := RecordKeywords(r, text, init);
      AddToKeepsPositive(before[last], Count(text, last), 1);
    }
  }

  /**
   * Buckets are created at one and only ever incremented: in every histogram
   * the mapper returns, every stored bucket holds at least one article.
   * (Keys are occurrence counts, non-negative by their type.)
   */
  lemma {:induction false} MapArticlesPositive(keywords: seq<string>, data: seq<Article>)
    requires NonEmptyKeywords(keywords)
    ensures AllPositive(MapArticles(keywords, data))
    decreases |data|
  {
    if data != [] {
      var init, a := data[..|data| - 1], data[|data| - 1];
      var r := MapArticles(keywords, init);
      MapArticlesPositive(keywords, init);
      RecordKeywordsPositive(r, a.text, keywords);
      var after := RecordKeywords(r, a.text, keywords);
      AddToKeepsPositive(after[CombinedKey], CombinedCount(a.text, keywords), 1);
    }
  }

  /**
   * An article is selected for saving exactly when it is in the file and its
   * combined count is positive: articles without any keyword never are.
   */
  lemma {:induction false} SelectedMembers(keywords: seq<string>, data: seq<Article>)
    requires NonEmptyKeywords(keywords)
    ensures forall a :: a in Selected(keywords, data) <==> a in data && CombinedCount(a.text, keywords) > 0
    decreases |data|
  {
    if data != [] {
      var init := data[..|data| - 1];
      assert data == init + [data[|data| - 1]];
      SelectedMembers(keywords, init);
    }
  }

  /** Selection keeps input order: the selection of two runs is the two selections, one after the other. */
  lemma {:induction false} SelectedConcat(keywords: seq<string>, xs: seq<Article>, ys: seq<Article>)
    requires NonEmptyKeywords(keywords)
    ensures Selected(keywords, xs + ys) == Selected(keywords, xs) + Selected(keywords, ys)
    decreases |ys|
  {
    if ys == [] {
      assert xs + ys == xs;
    } else {
      var ys' := ys[..|ys| - 1];
      assert (xs + ys)[..|xs + ys| - 1] == xs + ys';
      assert (xs + ys)[|xs + ys| - 1] == ys[|ys| - 1];
      SelectedConcat(keywords, xs, ys');
    }
  }

  /** As many articles are saved as there are articles with a positive combined count. */
  lemma {:induction false} SelectedCount(keywords: seq<string>, data: seq<Article>)
    requires NonEmptyKeywords(keywords)
    ensures |Selected(keywords, data)| == TermSum(CombinedCounts(data, keywords), Matching)
    decreases |data|
  {
    if data != [] {
      var init := data[..|data| - 1];
      SelectedCount(keywords, init);
      assert CombinedCounts(data, keywords)[..|data| - 1] == CombinedCounts(init, keywords);
    }
  }

  /**
   * The number of articles saved for a file equals the "combined"
   * histogram's count of articles with a positive count.
   */
  lemma SavedMatchesCombinedHistogram(keywords: seq<string>, data: seq<Article>)
    requires WellConfigured(keywords)
    ensures |Selected(keywords, data)| == Sum(MapArticles(keywords, data)[CombinedKey], Matching)
  {
    SelectedCount(keywords, data);
    CombinedHistogram(keywords, data);
    SumHistOf(CombinedCounts(data, keywords), Matching);
  }
}

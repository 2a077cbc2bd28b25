/**
 * The integer figures the search script reports after a run: the total
 * number of articles (read off the first keyword's histogram), and, per
 * keyword and for "combined", the number of articles containing a match
 * and the total number of matches (the numerator of the reported average).
 */
module Summary {
  import opened Substring
  import opened Histogram
  import opened SearchTypes
  import opened Mapper
  import opened MapperLemmas
  import opened Reducer
  import opened Walker
  import opened WalkerLemmas

  /** The figures reported for one keyword. */
  datatype KeywordSummary = KeywordSummary(keyword: string, containing: nat, occurrences: nat)

  /** Everything reported after a run, in the order it is reported. */
  datatype RunSummary = RunSummary(
    totalArticles: nat,
    perKeyword: seq<KeywordSummary>,
    combinedContaining: nat,
    combinedOccurrences: nat)

  /** The figures of one keyword, read off its histogram. */
  ghost function KeywordSummaryOf(result: Results, kw: string): KeywordSummary
    requires kw in result
  {
    KeywordSummary(kw, Sum(result[kw], Matching), Sum(result[kw], Occurrences))
  }

  /** The report of a run, read off the reduced histograms. */
  ghost function SummaryOf(result: Results, keywords: seq<string>): (r: RunSummary)
    requires |keywords| > 0 && HasKeys(result, MergedNames(keywords))
    ensures |r.perKeyword| == |keywords|
    ensures forall i :: 0 <= i < |keywords| ==> r.perKeyword[i].keyword == keywords[i]
  {
    RunSummary(
      Sum(result[keywords[0]], Articles),
      seq(|keywords|, i requires 0 <= i < |keywords| => KeywordSummaryOf(result, keywords[i])),
      Sum(result[CombinedKey], Matching),
      Sum(result[CombinedKey], Occurrences))
  }

  /** The occurrence totals of the keyword reports, added up. */
  function OccurrenceTotal(reports: seq<KeywordSummary>): nat
  {
    if reports == [] then 0
    else OccurrenceTotal(reports[..|reports| - 1]) + reports[|reports| - 1].occurrences
  }

  /** The articles of `data` in which `kw` occurs at least once. */
  function Containing(data: seq<Article>, kw: string): nat
    requires |kw| > 0
  {
    |set i | 0 <= i < |data| && Count(data[i].text, kw) > 0|
  }

  /** What a keyword's report should say about the articles `data`: how many contain it, and how often it occurs. */
  function ReportFor(data: seq<Article>, kw: string): KeywordSummary
    requires |kw| > 0
  {
    KeywordSummary(kw, Containing(data, kw), SeqSum(KeywordCounts(data, kw)))
  }

  /**
   * One `sum([...])` over a histogram's items: add up a statistic bucket
   * by bucket, in whatever order the buckets come.
   */
  method Tally(h: Hist, s: Stat) returns (n: nat)
    ensures n == Sum(h, s)
  {
    n := 0;
    var rest := h;
    while rest != map[]
      invariant n + Sum(rest, s) == Sum(h, s)
      decreases |rest|
    {
      var k :| k in rest;
      SumRemove(rest, s, k);
      n := n + Term(s, k, rest[k]);
      assert |rest - {k}| < |rest| by { assert (rest - {k}).Keys == rest.Keys - {k}; }
      rest := rest - {k};
    }
  }

  /**
   * The report: total articles from the first keyword's histogram, then
   * each keyword's figures in list order, then the "combined" figures.
   */
  method Summarize(result: Results, keywords: seq<string>) returns (summary: RunSummary)
    requires |keywords| > 0 && HasKeys(result, MergedNames(keywords))
    ensures summary == SummaryOf(result, keywords)
  {
    var total := Tally(result[keywords[0]], Articles);
    var reports: seq<KeywordSummary> := [];
    for i := 0 to |keywords|
      invariant |reports| == i
      invariant forall j :: 0 <= j < i ==> reports[j] == KeywordSummaryOf(result, keywords[j])
    {
      var containing := Tally(result[keywords[i]], Matching);
      var occurrences := Tally(result[keywords[i]], Occurrences);
      reports := reports + [KeywordSummary(keywords[i], containing, occurrences)];
    }
    var combinedContaining := Tally(result[CombinedKey], Matching);
    var combinedOccurrences := Tally(result[CombinedKey], Occurrences);
    summary := RunSummary(total, reports, combinedContaining, combinedOccurrences);
  }

  /** Summed over the keyword reports, the occurrence totals are the keyword histograms' weighted sums. */
  lemma {:induction false} OccurrenceTotalIsKeywordsSum(result: Results, keywords: seq<string>)
    requires HasKeys(result, keywords)
    ensures OccurrenceTotal(seq(|keywords|, i requires 0 <= i < |keywords| => KeywordSummaryOf(result, keywords[i])))
         == KeywordsSum(result, keywords, Occurrences)
    decreases |keywords|
  {
    if keywords != [] {
      var n := |keywords| - 1;
      var reports := seq(|keywords|, i requires 0 <= i < |keywords| => KeywordSummaryOf(result, keywords[i]));
      OccurrenceTotalIsKeywordsSum(result, keywords[..n]);
      assert reports[..n] == seq(n, i requires 0 <= i < n => KeywordSummaryOf(result, keywords[..n][i]));
    }
  }

  /** The articles containing `kw` are the positive entries of its per-article counts. */
  lemma ContainingCounts(data: seq<Article>, kw: string)
    requires |kw| > 0
    ensures Containing(data, kw) == |set i | 0 <= i < |KeywordCounts(data, kw)| && KeywordCounts(data, kw)[i] > 0|
  {
    var cs := KeywordCounts(data, kw);
    assert (set i | 0 <= i < |cs| && cs[i] > 0) == (set i | 0 <= i < |data| && Count(data[i].text, kw) > 0);
  }

  /** A keyword's figures over a file: articles containing it, and its total number of matches. */
  lemma KeywordFigures(keywords: seq<string>, data: seq<Article>, kw: string)
    requires WellConfigured(keywords) && kw in keywords
    ensures Sum(MapArticles(keywords, data)[kw], Matching) == Containing(data, kw)
    ensures Sum(MapArticles(keywords, data)[kw], Occurrences) == SeqSum(KeywordCounts(data, kw))
  {
    var cs := KeywordCounts(data, kw);
    KeywordHistogram(keywords, data, kw);
    TermSumMeaning(cs);
    assert Sum(HistOf(cs), Matching) == Containing(data, kw) by {
      SumHistOf(cs, Matching);
      ContainingCounts(data, kw);
    }
    SumHistOf(cs, Occurrences);
  }

  /**
   * The report of a whole run over a non-empty directory, with the same
   * keywords for mapper and reducer: the total is the number of articles;
   * each keyword's figures are the articles containing it and its number
   * of matches; "combined" counts the articles that are saved, and its
   * matches are the keywords' matches added up.
   */
  lemma CorpusSummary(keywords: seq<string>, files: seq<seq<Article>>)
    requires WellConfigured(keywords) && |keywords| > 0 && files != []
    ensures Shaped(keywords, MapEach(keywords, files))
    ensures var all := Flatten(files);
      var report := SummaryOf(Fold(keywords, MapEach(keywords, files)).value, keywords);
      && report.totalArticles == |all|
      && |report.perKeyword| == |keywords|
      && (forall i :: 0 <= i < |keywords| ==> report.perKeyword[i] == ReportFor(all, keywords[i]))
      && report.combinedContaining == |Selected(keywords, all)|
      && report.combinedOccurrences == OccurrenceTotal(report.perKeyword)
  {
    var all := Flatten(files);
    CorpusHistogram(keywords, files);
    var result := MapArticles(keywords, all);
    FileTotals(keywords, all);
    assert keywords[0] in keywords + [CombinedKey];
    forall i | 0 <= i < |keywords| ensures KeywordSummaryOf(result, keywords[i]) == ReportFor(all, keywords[i])
    {
      KeywordFigures(keywords, all, keywords[i]);
    }
    SavedMatchesCombinedHistogram(keywords, all);
    CombinedOccurrences(keywords, all);
    OccurrenceTotalIsKeywordsSum(result, keywords);
  }
}

/**
 * A worked run: one file holding "the airplane flew over an airplane" and
 * "no match here", searched for "airplane".
 */
module Scenario {
  import opened Substring
  import opened Histogram
  import opened SearchTypes
  import opened Mapper
  import opened MapperLemmas
  import opened Walker
  import opened WalkerLemmas
  import opened Summary

  const First: Article := Article(FirstArticle, map[])
  const Second: Article := Article(SecondArticle, map[])

  /** A file of two articles in which `kw` occurs twice in the first and not in the second. */
  predicate TwoThenNone(kw: string, a: Article, b: Article)
  {
    WellConfigured([kw]) && Count(a.text, kw) == 2 && Count(b.text, kw) == 0
  }

  /** "airplane" is a well-formed keyword list of one. */
  lemma AirplaneConfigured()
    ensures WellConfigured([Airplane])
  {
    assert Airplane != CombinedKey by { assert Airplane[0] != CombinedKey[0]; }
  }

  /** Two matches in the first article. */
  lemma FirstCount()
    ensures Count(First.text, Airplane) == 2
  {
    AirplaneExample();
  }

  /** None in the second. */
  lemma SecondCount()
    ensures Count(Second.text, Airplane) == 0
  {
    NoMatchExample();
  }

  /** With a single keyword, the combined count is that keyword's count. */
  lemma SingleKeywordCombined(text: string, kw: string)
    requires |kw| > 0
    ensures CombinedCount(text, [kw]) == Count(text, kw)
  {
    assert [kw][..0] == [];
  }

  /** The per-article counts: two matches in the first article, none in the second. */
  lemma TwoThenNoneCounts(kw: string, a: Article, b: Article)
    requires TwoThenNone(kw, a, b)
    ensures KeywordCounts([a, b], kw) == [2, 0]
    ensures CombinedCounts([a, b], [kw]) == [2, 0]
  {
    SingleKeywordCombined(a.text, kw);
    SingleKeywordCombined(b.text, kw);
  }

  /** The histogram `{2: 1, 0: 1}` of the counts `[2, 0]`. */
  lemma HistOfTwoThenNone()
    ensures HistOf([2, 0]) == map[2 := 1, 0 := 1]
  {
    assert [2, 0][..1] == [2] && [2][..0] == [];
  }

  /** The file's histograms are `{kw: {2: 1, 0: 1}, combined: {2: 1, 0: 1}}`. */
  lemma TwoThenNoneHistograms(kw: string, a: Article, b: Article)
    requires TwoThenNone(kw, a, b)
    ensures MapArticles([kw], [a, b])[kw] == map[2 := 1, 0 := 1]
    ensures MapArticles([kw], [a, b])[CombinedKey] == map[2 := 1, 0 := 1]
  {
    TwoThenNoneCounts(kw, a, b);
    HistOfTwoThenNone();
    KeywordHistogram([kw], [a, b], kw);
    CombinedHistogram([kw], [a, b]);
  }

  /** With saving on, exactly the first article is written. */
  lemma TwoThenNoneSaved(kw: string, a: Article, b: Article)
    requires TwoThenNone(kw, a, b)
    ensures Selected([kw], [a, b]) == [a]
  {
    SingleKeywordCombined(a.text, kw);
    SingleKeywordCombined(b.text, kw);
    assert [a, b][..1] == [a] && [a][..0] == [];
    assert Selected([kw], [a]) == [a];
  }

  /** The articles containing `kw`: only the first. */
  lemma TwoThenNoneContaining(kw: string, a: Article, b: Article)
    requires TwoThenNone(kw, a, b)
    ensures Containing([a, b], kw) == 1
  {
    assert (set i | 0 <= i < |[a, b]| && Count([a, b][i].text, kw) > 0) == {0};
  }

  /** The report of a run over that one file: 2 articles, 1 containing `kw`, 2 matches in all. */
  lemma TwoThenNoneReport(kw: string, a: Article, b: Article)
    requires TwoThenNone(kw, a, b)
    ensures Shaped([kw], MapEach([kw], [[a, b]]))
    ensures var report := SummaryOf(Fold([kw], MapEach([kw], [[a, b]])).value, [kw]);
      && report.totalArticles == 2
      && report.perKeyword == [KeywordSummary(kw, 1, 2)]
      && report.combinedContaining == 1
      && report.combinedOccurrences == 2
  {
    TwoThenNoneCounts(kw, a, b);
    TwoThenNoneSaved(kw, a, b);
    TwoThenNoneContaining(kw, a, b);
    CorpusSummary([kw], [[a, b]]);
    assert Flatten([[a, b]]) == [a, b];
    assert SeqSum([2, 0]) == 2 by { assert [2, 0][..1] == [2] && [2][..0] == []; }
    var report := SummaryOf(Fold([kw], MapEach([kw], [[a, b]])).value, [kw]);
    assert report.perKeyword[0] == KeywordSummary(kw, 1, 2);
  }

  /**
   * The scenario itself: histograms `{airplane: {2: 1, 0: 1}, combined:
   * {2: 1, 0: 1}}`, the first article saved, 2 articles of which 1
   * contains "airplane", with 2 matches.
   */
  lemma ScenarioRun()
    ensures MapArticles([Airplane], [First, Second])[Airplane] == map[2 := 1, 0 := 1]
    ensures MapArticles([Airplane], [First, Second])[CombinedKey] == map[2 := 1, 0 := 1]
    ensures Selected([Airplane], [First, Second]) == [First]
    ensures Shaped([Airplane], MapEach([Airplane], [[First, Second]]))
    ensures var report := SummaryOf(Fold([Airplane], MapEach([Airplane], [[First, Second]])).value, [Airplane]);
      && report.totalArticles == 2
      && report.perKeyword == [KeywordSummary(Airplane, 1, 2)]
      && report.combinedContaining == 1
      && report.combinedOccurrences == 2
  {
    AirplaneConfigured();
    FirstCount();
    SecondCount();
    TwoThenNoneHistograms(Airplane, First, Second);
    TwoThenNoneSaved(Airplane, First, Second);
    TwoThenNoneReport(Airplane, First, Second);
  }
}

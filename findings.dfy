/**
 * The mapper's `with` statement as written. Its context expression is
 * `open(...) if save_articles else None`, so when saving is off the
 * statement enters `None`, which is not a context manager: the call raises
 * before any article is counted (a TypeError from Python 3.11 on, an
 * AttributeError before). Saving is off by default, so the default mapper
 * never returns. The corrected mapper (`Mapper.Mapper`) opens no file when
 * saving is off and counts all the same.
 */
module Findings {
  import opened Substring
  import opened SearchTypes
  import opened Mapper
  import opened MapperLemmas
  import opened Scenario

  /** How one call of the mapper ends: it raises, or it returns its histograms and what it wrote. */
  datatype MapperOutcome =
    | Raised
    | Returned(results: Results, saved: Option<seq<Article>>)

  /** The mapper as written: it returns only when saving is on. */
  function MapperAsWritten(cfg: MapperConfig, data: seq<Article>): (o: MapperOutcome)
    requires NonEmptyKeywords(cfg.keywords)
    ensures o.Raised? <==> !cfg.saveArticles
    ensures o.Returned? ==> o.results == MapArticles(cfg.keywords, data)
  {
    if cfg.saveArticles then Returned(MapArticles(cfg.keywords, data), Some(Selected(cfg.keywords, data)))
    else Raised
  }

  /** The default configuration: keywords given, saving off. */
  function DefaultConfig(keywords: seq<string>): (cfg: MapperConfig)
    ensures cfg.keywords == keywords && !cfg.saveArticles
  {
    MapperConfig(keywords, false)
  }

  /** A file of one article: one article in the bucket of its count, under `kw` and under "combined". */
  lemma OneArticle(kw: string, a: Article)
    requires WellConfigured([kw])
    ensures MapArticles([kw], [a])[kw] == map[Count(a.text, kw) := 1]
    ensures MapArticles([kw], [a])[CombinedKey] == map[Count(a.text, kw) := 1]
  {
    assert [a][..0] == [];
    MapArticlesSnocAt([kw], [a], kw);
    MapArticlesSnocCombined([kw], [a]);
    SingleKeywordCombined(a.text, kw);
  }

  /**
   * One file holding "the airplane flew over an airplane", searched for
   * "airplane" with saving left at its default: the mapper as written
   * raises, while the counts it was meant to return record one article
   * with two matches, under the keyword and under "combined".
   */
  lemma DefaultMapperRaises()
    ensures MapperAsWritten(DefaultConfig([Airplane]), [First]).Raised?
    ensures MapArticles([Airplane], [First])[Airplane] == map[2 := 1]
    ensures MapArticles([Airplane], [First])[CombinedKey] == map[2 := 1]
  {
    AirplaneConfigured();
    FirstCount();
    OneArticle(Airplane, First);
  }
}

/**
 * The per-file keyword mapper (`get_search_mapper` and its `mapper`
 * closure): for every article of one file, count each keyword, add the
 * counts into a combined count, bump one bucket per keyword and one bucket
 * of the "combined" histogram, and select the articles with a positive
 * combined count for saving.
 */
module Mapper {
  import opened Substring
  import opened Histogram
  import opened SearchTypes

  /** What `get_search_mapper` captures; the output directory is not modelled. */
  datatype MapperConfig = MapperConfig(keywords: seq<string>, saveArticles: bool)

  /** The sum of the counts of `keywords` in `text`, added up in list order. */
  function CombinedCount(text: string, keywords: seq<string>): (n: nat)
    requires NonEmptyKeywords(keywords)
    ensures forall kw :: kw in keywords ==> Count(text, kw) <= n
  {
    if keywords == [] then 0
    else
      var init := keywords[..|keywords| - 1];
      assert keywords == init + [keywords[|keywords| - 1]];
      CombinedCount(text, init) + Count(text, keywords[|keywords| - 1])
  }

  /** The names that get a histogram: every keyword, and "combined". */
  function ResultKeys(keywords: seq<string>): set<string>
  {
    (set kw | kw in keywords) + {CombinedKey}
  }

  /** The histogram set a file starts from: one empty histogram per keyword, then "combined". */
  function EmptyResults(keywords: seq<string>): (r: Results)
    ensures r.Keys == ResultKeys(keywords)
    ensures forall kw :: kw in r ==> r[kw] == map[]
  {
    (map kw | kw in keywords :: map[])[CombinedKey := map[]]
  }

  /** The keyword loop for one article: bump each keyword's histogram at its count, in list order. */
  function RecordKeywords(r: Results, text: string, keywords: seq<string>): (r': Results)
    requires NonEmptyKeywords(keywords) && HasKeys(r, keywords)
    ensures r'.Keys == r.Keys
  {
    if keywords == [] then r
    else
      var kw := keywords[|keywords| - 1];
      var before := RecordKeywords(r, text, keywords[..|keywords| - 1]);
      before[kw := AddTo(before[kw], Count(text, kw), 1)]
  }

  /** One article: its keyword buckets, then the "combined" bucket at the sum of its counts. */
  function RecordArticle(r: Results, keywords: seq<string>, a: Article): (r': Results)
    requires NonEmptyKeywords(keywords) && HasKeys(r, keywords) && CombinedKey in r
    ensures r'.Keys == r.Keys
  {
    var afterKeywords := RecordKeywords(r, a.text, keywords);
    afterKeywords[CombinedKey := AddTo(afterKeywords[CombinedKey], CombinedCount(a.text, keywords), 1)]
  }

  /** The histogram set the mapper returns for the articles `data` of one file. */
  function MapArticles(keywords: seq<string>, data: seq<Article>): (r: Results)
    requires NonEmptyKeywords(keywords)
    ensures r.Keys == ResultKeys(keywords)
  {
    if data == [] then EmptyResults(keywords)
    else RecordArticle(MapArticles(keywords, data[..|data| - 1]), keywords, data[|data| - 1])
  }

  /** The articles of `data` whose combined count is positive, in input order. */
  function Selected(keywords: seq<string>, data: seq<Article>): (saved: seq<Article>)
    requires NonEmptyKeywords(keywords)
    ensures |saved| <= |data|
  {
    if data == [] then []
    else
      var a := data[|data| - 1];
      Selected(keywords, data[..|data| - 1]) + (if CombinedCount(a.text, keywords) > 0 then [a] else [])
  }

  /** One more keyword of the list: its count joins the sum, and its histogram is bumped at that count. */
  lemma KeywordStep(r: Results, text: string, keywords: seq<string>, j: nat)
    requires NonEmptyKeywords(keywords) && HasKeys(r, keywords) && j < |keywords|
    ensures CombinedCount(text, keywords[..j + 1]) == CombinedCount(text, keywords[..j]) + Count(text, keywords[j])
    ensures var before := RecordKeywords(r, text, keywords[..j]);
      RecordKeywords(r, text, keywords[..j + 1]) == before[keywords[j] := AddTo(before[keywords[j]], Count(text, keywords[j]), 1)]
  {
    assert keywords[..j + 1][..j] == keywords[..j];
  }

  /**
   * The keyword loop of the mapper's article loop: count every keyword in
   * the article's text, in list order, bump its bucket, and add the count
   * to the combined count, which is returned.
   */
  method TallyKeywords(results: Results, keywords: seq<string>, text: string)
    returns (r: Results, combinedCount: nat)
    requires NonEmptyKeywords(keywords) && HasKeys(results, keywords)
    ensures r == RecordKeywords(results, text, keywords)
    ensures combinedCount == CombinedCount(text, keywords)
  {
    r := results;
    combinedCount := 0;
    for j := 0 to |keywords|
      invariant r == RecordKeywords(results, text, keywords[..j])
      invariant combinedCount == CombinedCount(text, keywords[..j])
    {
      var keyword := keywords[j];
      var count := Count(text, keyword);
      KeywordStep(results, text, keywords, j);
      combinedCount := combinedCount + count;
      var bucket := Bump(r[keyword], count, 1);
      r := r[keyword := bucket];
    }
    assert keywords[..|keywords|] == keywords;
  }

  /**
   * The body of the mapper's article loop: the keyword loop, then the
   * "combined" bucket at the sum of the counts, which is also returned.
   */
  method TallyArticle(results: Results, keywords: seq<string>, article: Article)
    returns (r: Results, combinedCount: nat)
    requires NonEmptyKeywords(keywords) && HasKeys(results, keywords) && CombinedKey in results
    ensures r == RecordArticle(results, keywords, article)
    ensures combinedCount == CombinedCount(article.text, keywords)
  {
    r, combinedCount := TallyKeywords(results, keywords, article.text);
    var combined := Bump(r[CombinedKey], combinedCount, 1);
    r := r[CombinedKey := combined];
  }

  /**
   * The mapper on one file's articles. `results` is the histogram set it
   * returns; `saved` is the content of the output file: None when saving is
   * off (no file is opened), otherwise the selected articles in order (the
   * file is created even when that list is empty).
   */
  method Mapper(cfg: MapperConfig, data: seq<Article>) returns (results: Results, saved: Option<seq<Article>>)
    requires NonEmptyKeywords(cfg.keywords)
    ensures results == MapArticles(cfg.keywords, data)
    ensures saved == if cfg.saveArticles then Some(Selected(cfg.keywords, data)) else None
  {
    var keywords := cfg.keywords;
    results := map kw | kw in keywords :: map[];
    results := results[CombinedKey := map[]];
    var written: seq<Article> := [];
    for i := 0 to |data|
      invariant results == MapArticles(keywords, data[..i])
      invariant written == if cfg.saveArticles then Selected(keywords, data[..i]) else []
    {
      var article := data[i];
      assert data[..i + 1][..i] == data[..i];
      var combinedCount: nat;
      results, combinedCount := TallyArticle(results, keywords, article);
      if combinedCount > 0 && cfg.saveArticles {
        written := written + [article];
      }
    }
    assert data[..|data|] == data;
    saved := if cfg.saveArticles then Some(written) else None;
  }
}

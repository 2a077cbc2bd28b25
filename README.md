# Keyword histogram search, modelled in Dafny

`search.py` scans a directory of JSON files, each holding a list of article
records. For every article and every configured keyword it counts the
non-overlapping occurrences of the keyword in the article's text
(`str.count`). It then buckets the articles by that count, producing one
histogram per keyword: count -> number of articles. A further "combined"
histogram buckets articles by the sum of their keyword counts. The mapper can
also write out every article whose combined count is positive. A reducer merges
the per-file histograms bucket by bucket into one accumulator. A walker
(`apply`) maps every file and folds the mapper's results through the reducer.
The script finally reports the total number of articles. For each keyword and
for "combined" it also reports how many articles contain a match and the
average number of matches; only the integer parts are modelled here.

The model has one module per concern:

- `Substring` covers `str.count` (search.py:32). `Count` is the left-to-right
  greedy count. It is proved to equal the largest number of non-overlapping
  occurrences, and to be zero exactly when the keyword does not occur.
- `Histogram` defines a histogram as `map<nat, nat>`. It covers the Python
  "bump or insert" update, the bucket-wise merge and its algebra, and a sum of
  three statistics over a histogram's buckets:
  - `Articles`: each bucket's value;
  - `Matching`: the values of buckets with a positive count;
  - `Occurrences`: count times value over positive counts.
- `Mapper` specifies the mapper with functions and implements it with loops.
  `TallyKeywords` is the loop over keywords for one article, and `TallyArticle` is the body of the article loop: the keyword loop, then the "combined" bump. `Mapper` is the
  loop over articles, and it returns the histogram set and what would be
  written to the output file.
- `MapperLemmas` covers what one file's histograms mean:
  - each keyword's histogram is the histogram of that keyword's per-article
    counts;
  - every histogram totals the number of articles;
  - the combined histogram's weighted sum is the sum of the keywords'
    weighted sums;
  - the saved articles are exactly those with a positive combined count, in
    order.
- `Reducer` specifies the reducer with functions. It implements it as a loop
  over keywords plus "combined" (`Reducer`), and as a loop over the incoming
  buckets (`MergeInto`). Python's `if result:` is `Truthy`, so an absent
  accumulator and an empty one are both treated as a first call.
- `ReducerLemmas` covers:
  - the bucket-wise sum;
  - that totals add up;
  - commutativity on the merged names;
  - associativity on whole results;
  - that buckets stay positive.
- `Walker` defines `apply` as a loop: `Apply` maps each file in listing order
  and, when a reducer is given, folds the results. `Fold` is its
  specification.
- `WalkerLemmas` covers the fold over a directory:
  - grouping and order of files do not matter;
  - each bucket is the sum of that bucket over all files;
  - the fold over a non-empty directory equals the mapper's result on all of
    its articles at once.
- `Summary` covers the integer figures printed at search.py:86-94. Each
  `sum([...])` becomes a loop (`Tally`), and `CorpusSummary` states what the
  figures mean for a whole run.
- `Scenario` works through one run: a file of two articles, one of which
  contains "airplane" twice.
- `Findings` covers the mapper's `with` statement as written (see
  "## Findings").

The model keeps the source's behaviour for duplicate keywords and for a
keyword named "combined": entries collapse as in a Python dict. The algebraic
lemmas state their results for keyword lists without repeats and without
"combined" (`WellConfigured`).

## Model

| member | source | states |
|---|---|---|
| Substring.Count | search.py:32 | `text.count(kw)` for a non-empty keyword: counts matches left to right, skipping past each match; the count times the keyword's length never exceeds the text's length |
| Substring.Matches | search.py:32 | the counted matches form a list of non-overlapping occurrences whose length is the count |
| Substring.CountIsMaximal | search.py:32 | no list of non-overlapping occurrences is longer than the count |
| Substring.CountIsMaximalStep | search.py:32 | the inductive step of the maximality proof, at a match and at a non-match |
| Substring.CountIsMaximumNonOverlapping | search.py:32 | the count is exactly the largest number of non-overlapping occurrences (one such list exists, none is longer) |
| Substring.CountZeroIffAbsent | search.py:32 | the count is 0 if and only if the keyword occurs nowhere in the text |
| Substring.CountSkips | search.py:32 | a prefix holding no occurrence start does not change the count |
| Substring.MatchAt | search.py:32 | a text in which the keyword starts at position `d` counts, from `d` on, that match once plus the count of what follows it |
| Substring.CountExamples | search.py:32 | `"aab".count("a") == 2`, `"aab".count("b") == 1`, `"aaaa".count("aa") == 2`, `"aaa".count("aa") == 1`, and matching is case-sensitive |
| Substring.AirplaneExample | search.py:32 | "the airplane flew over an airplane" contains "airplane" twice |
| Substring.NoMatchExample | search.py:32 | "no match here" contains "airplane" zero times |
| Histogram.AddTo | search.py:34-37 | bumping bucket `k` by `v`: bucket `k` becomes its old value (0 if absent) plus `v`, the key set gains `k`, every other bucket is unchanged |
| Histogram.Bump | search.py:34-37 | the source's two branches (add to an existing bucket, or create it with the value) together give `AddTo` |
| Histogram.HistOf | search.py:29-37 | the histogram of a list of per-article counts: bucket `k` holds how many articles have count `k`, a bucket exists exactly for counts that occur, and every stored bucket is at least 1 |
| Histogram.MergeHist | search.py:59-63 | the merge holds a bucket for every key of either side, and each bucket is the sum of the two sides, a missing bucket read as 0 |
| Histogram.MergeKeepsPositive | search.py:59-63 | merging histograms whose buckets are all at least 1 keeps them so |
| Histogram.HistEq | search.py:59-63 | helper for MergeCommutes, MergeAssociates and MergeEmpty: two histograms with the same key set that agree on every bucket are equal |
| Histogram.MergeCommutes | search.py:59-63 | merging is commutative |
| Histogram.MergeAssociates | search.py:59-63 | merging is associative |
| Histogram.MergeEmpty | search.py:59-63 | merging an empty histogram changes nothing |
| Histogram.PositiveEq | search.py:29-37 | helper for HistOfConcat: two histograms whose buckets are all at least 1 and that agree on every bucket (missing read as 0) are equal |
| Histogram.HistOfConcat | search.py:29-37 | the histogram of two runs of articles is the merge of their histograms |
| Histogram.Term | search.py:86-93 | one item of the report's comprehensions: the bucket of count 0 adds only to the article total; a bucket of positive count adds at least its number of articles; the article total and the matching-article count add at most that number |
| Histogram.TermAdds | search.py:86-93 | helper for SumAddTo: a bucket's contribution to a statistic is additive in its number of articles |
| Histogram.SumRemove | search.py:86-93 | a statistic summed over a histogram may be taken apart at any bucket |
| Histogram.SumAddTo | search.py:34-37 | bumping a bucket adds that bucket's contribution to every statistic |
| Histogram.MergeOneBucket | search.py:59-63 | merging all of `b` is merging `b` without bucket `k`, then adding bucket `k` |
| Histogram.MergeOneMore | search.py:59-63 | merging the incoming buckets one at a time: one more bucket is one more bump |
| Histogram.SumMerge | search.py:59-63 | every statistic of a merge is the sum of the statistics of both sides |
| Histogram.SumHistOf | search.py:29-37 | a statistic summed over a histogram's buckets equals it summed over the articles it was built from |
| Histogram.TermSumConcat | search.py:29-37 | per-article sums of a statistic add up over two runs of articles |
| Histogram.TermSumMeaning | search.py:86-93 | counted per article: `Articles` is the number of articles, `Matching` the number with a positive count, `Occurrences` the sum of the counts |
| SearchTypes.WellConfiguredMeans | search.py:21-22 | a well-configured keyword list repeats no keyword and has none named "combined" |
| SearchTypes.DistinctPrefix | search.py:52-53 | helper for MergeNamesAt: a prefix of a repeat-free name list is repeat-free |
| Mapper.CombinedCount | search.py:30-33 | an article's combined count is at least its count of every keyword in the list |
| Mapper.EmptyResults | search.py:21-22 | the starting histogram set has an empty histogram for every keyword and for "combined", and nothing else |
| Mapper.RecordKeywords | search.py:31-37 | the keyword loop of one article keeps the set of histogram names |
| Mapper.RecordArticle | search.py:29-42 | recording one article keeps the set of histogram names |
| Mapper.MapArticles | search.py:21-42 | the mapper's histogram set has exactly the keywords and "combined" as names |
| Mapper.Selected | search.py:44-45 | the articles written out for a file are never more than its articles (SelectedMembers and SelectedCount state which) |
| Mapper.KeywordStep | search.py:31-37 | helper for TallyKeywords: one more keyword adds its count to the combined count and bumps its own histogram at that count |
| Mapper.TallyKeywords | search.py:30-37 | the keyword loop for one article, run in list order, returns the histograms after that article's keywords and the sum of its keyword counts |
| Mapper.TallyArticle | search.py:30-42 | the loop body for one article returns the histograms after that article and its combined count (sum of its keyword counts) |
| Mapper.Mapper | search.py:17-48 | the mapper returns the histogram set of all the file's articles; with saving off nothing is written; with saving on the file holds exactly the articles with a positive combined count, in order (and is created even when there are none) |
| MapperLemmas.KeywordCounts | search.py:32 | one count per article, in order |
| MapperLemmas.CombinedCounts | search.py:30-33 | one combined count per article, in order |
| MapperLemmas.CombinedPositiveIff | search.py:30-33 | an article's combined count is positive if and only if some keyword occurs in it |
| MapperLemmas.RecordKeywordsAt | search.py:31-37 | with distinct keywords, one article bumps each keyword's histogram once, at that keyword's count, and touches nothing else |
| MapperLemmas.MapArticlesSnocAt | search.py:29-37 | with distinct keywords, mapping one more article bumps each keyword's histogram at that article's count of it |
| MapperLemmas.MapArticlesSnocCombined | search.py:29-42 | with distinct keywords, mapping one more article bumps the "combined" histogram at that article's combined count |
| MapperLemmas.KeywordHistogram | search.py:21-37 | each keyword's histogram is the histogram of that keyword's per-article counts over the file |
| MapperLemmas.CombinedHistogram | search.py:21-42 | the "combined" histogram is the histogram of the per-article combined counts |
| MapperLemmas.FileTotals | search.py:29-42 | every keyword's histogram and "combined" hold one entry per article of the file |
| MapperLemmas.SeqSumPointwise | search.py:33 | helper for CombinedOccurrencesPrefix: sums of two count lists added entry by entry add up |
| MapperLemmas.CombinedOccurrencesPrefix | search.py:30-33 | the combined counts over a sub-list of keywords add up to those keywords' weighted sums |
| MapperLemmas.CombinedOccurrences | search.py:30-42 | the "combined" histogram's weighted sum equals the keyword histograms' weighted sums added up |
| MapperLemmas.AddToKeepsPositive | search.py:34-37 | bumping by at least one keeps every bucket at least 1 |
| MapperLemmas.RecordKeywordsPositive | search.py:31-37 | the keyword loop keeps every bucket at least 1 |
| MapperLemmas.MapArticlesPositive | search.py:21-42 | every bucket of every histogram the mapper returns is at least 1 (and every key is a count, so at least 0) |
| MapperLemmas.SelectedMembers | search.py:44-45 | an article is saved if and only if it is one of the file's articles and its combined count is positive |
| MapperLemmas.SelectedConcat | search.py:29-45 | the saved articles of two runs of articles are those of the first followed by those of the second |
| MapperLemmas.SelectedCount | search.py:44-45 | the number of saved articles is the number of articles with a positive combined count |
| MapperLemmas.SavedMatchesCombinedHistogram | search.py:39-45 | the number of saved articles equals the "combined" histogram's count of articles with a positive count |
| Reducer.Truthy | search.py:57 | `if result:` holds exactly when an accumulator is present and has at least one name |
| Reducer.MergedNames | search.py:52-53 | the reducer's names are the keywords in order followed by "combined", one more than the keywords, and a name is merged exactly when it is a keyword or "combined" |
| Reducer.MergeNames | search.py:58-63 | merging for a list of names keeps the accumulator's set of names |
| Reducer.MergeInto | search.py:59-63 | the loop over the incoming buckets yields the bucket-wise merge |
| Reducer.Reduce | search.py:55-67 | one reducer call: with an absent or empty accumulator the result is the mapped one itself; otherwise it has the accumulator's names |
| Reducer.Reducer | search.py:52-67 | the reducer, called without raising a KeyError (the mapped result has every merged name, and the accumulator every merged name whose incoming histogram is non-empty), returns the incoming result when the accumulator is absent or empty, and otherwise the accumulator with each keyword's and "combined"'s histogram merged with the incoming one |
| ReducerLemmas.MergeNamesAt | search.py:58-63 | with distinct names, each merged name gets the merge of both sides and every other entry is left alone |
| ReducerLemmas.ReduceFirstCall | search.py:64-65 | on the first call the reducer returns the mapped result unchanged |
| ReducerLemmas.ReduceBuckets | search.py:57-63 | each bucket of a merged name is the accumulator's plus the incoming one, missing read as 0; other entries and the set of names are unchanged |
| ReducerLemmas.ReduceAddsTotals | search.py:57-63 | the article count, matching-article count and occurrence total of every merged histogram add up |
| ReducerLemmas.ReduceCommutes | search.py:57-63 | merging `y` into `x` and `x` into `y` give the same histograms for every merged name |
| ReducerLemmas.ReduceKeepsNames | search.py:57-63 | merging into a non-empty accumulator that has every merged name keeps its names, so the next call merges again |
| ReducerLemmas.ReduceAssociatesAt | search.py:55-67 | helper for ReduceAssociates: the two groupings of three results agree on one name |
| ReducerLemmas.ReduceAssociates | search.py:55-67 | folding `y` then `z` equals folding in the merge of `y` and `z`, also when the accumulator is still absent |
| ReducerLemmas.ReduceKeepsPositive | search.py:55-67 | merging keeps every bucket at least 1 |
| Walker.MapEach | search.py:8-10 | one mapped result per file, in listing order |
| Walker.Outputs | search.py:24-45 | one output per file, in listing order: present exactly when saving is on, and then the file's articles with a positive combined count |
| Walker.OutputsSnoc | search.py:8-10 | helper for Apply: mapping one more file appends what the mapper writes for it |
| Walker.Fold | search.py:6-14 | the fold is absent exactly for an empty directory, is the one mapped result for a single file, and otherwise carries every merged name when every result does |
| Walker.MapEachSnoc | search.py:8-10 | helper for Apply: mapping one more file appends its result |
| Walker.FoldStep | search.py:11-12 | one more mapped result is reduced into the fold of the earlier ones, without a KeyError |
| Walker.MapEachShaped | search.py:8-12 | the mapper's results carry every name a reducer merges whose keywords are mapper keywords or "combined" |
| Walker.ShapedIffCompatible | search.py:52-59 | for at least one file, the mapped results carry every name the reducer reads if and only if each reducer keyword is a mapper keyword or "combined" |
| Walker.ApplyStep | search.py:8-12 | helper for Apply: folding the next file's result raises no KeyError when each reducer keyword is a mapper keyword or "combined", or fewer than two files are listed |
| Walker.Apply | search.py:6-14 | without a reducer `apply` returns nothing; with one it returns the fold of the mapped results in listing order, which raises no KeyError for a compatible reducer or a directory of at most one file; each file's output is what the mapper writes for it |
| WalkerLemmas.Flatten | search.py:8-10 | a single file's articles are the corpus's articles |
| WalkerLemmas.FoldPartition | search.py:6-14 | the fold over two groups of files equals reducing the second group's fold into the first's |
| WalkerLemmas.FoldBuckets | search.py:6-14 | each bucket of each merged histogram is that bucket summed over all files |
| WalkerLemmas.FoldTotals | search.py:6-14 | each statistic of each merged histogram is that statistic summed over all files |
| WalkerLemmas.FoldReorder | search.py:8 | listing two groups of files in either order gives the same histograms |
| WalkerLemmas.KeywordCountsConcat | search.py:32 | the keyword counts of two runs of articles concatenate |
| WalkerLemmas.CombinedCountsConcat | search.py:30-33 | the combined counts of two runs of articles concatenate |
| WalkerLemmas.CombinedConcat | search.py:39-42 | the "combined" histogram of two runs of articles is the merge of each run's |
| WalkerLemmas.KeywordConcat | search.py:34-37 | a keyword's histogram of two runs of articles is the merge of each run's |
| WalkerLemmas.MapArticlesReducible | search.py:57-63 | one file's result can be reduced into another's, and the names are the keywords and "combined" |
| WalkerLemmas.MapArticlesConcatAt | search.py:55-63 | one histogram of the reduce of two files' results is that of their articles mapped together |
| WalkerLemmas.MapArticlesConcat | search.py:17-67 | mapping two files' articles together equals reducing the second file's result into the first's |
| WalkerLemmas.CorpusHistogram | search.py:6-67 | the fold over a non-empty directory is the mapper's result on all of its articles at once |
| WalkerLemmas.CorpusTotals | search.py:6-67 | after a run every keyword's histogram and "combined" total the number of articles, and the combined weighted sum is the keywords' weighted sums added up |
| Summary.SummaryOf | search.py:86-93 | the report has one entry per keyword, in the keywords' order, each naming its keyword |
| Summary.Tally | search.py:86 | one `sum` over a histogram's items, in any bucket order, equals the statistic summed over the buckets |
| Summary.Summarize | search.py:86-93 | the report's integer figures: total from the first keyword's histogram, per keyword the articles containing it and its weighted sum, and the same for "combined" |
| Summary.OccurrenceTotalIsKeywordsSum | search.py:90 | the occurrence totals of the keyword reports add up to the keyword histograms' weighted sums |
| Summary.ContainingCounts | search.py:89 | helper for KeywordFigures: the articles containing a keyword are the positions of positive counts |
| Summary.KeywordFigures | search.py:89-90 | a keyword's reported figures are the number of articles containing it and its total number of matches |
| Summary.CorpusSummary | search.py:83-94 | after a run the total is the number of articles, each keyword's figures are the articles containing it and its matches, "combined" counts the saved articles, and its matches are the keywords' matches added up |
| Scenario.AirplaneConfigured | search.py:76 | the one-keyword list "airplane" is well configured |
| Scenario.FirstCount | search.py:32 | the first scenario article contains "airplane" twice |
| Scenario.SecondCount | search.py:32 | the second scenario article does not contain it |
| Scenario.SingleKeywordCombined | search.py:30-33 | with one keyword the combined count is that keyword's count |
| Scenario.TwoThenNoneCounts | search.py:30-33 | the per-article counts of the two articles are `[2, 0]`, for the keyword and combined |
| Scenario.HistOfTwoThenNone | search.py:34-37 | counts `[2, 0]` give the histogram `{2: 1, 0: 1}` |
| Scenario.TwoThenNoneHistograms | search.py:21-42 | the file's histograms are `{kw: {2: 1, 0: 1}, combined: {2: 1, 0: 1}}` |
| Scenario.TwoThenNoneSaved | search.py:44-45 | with saving on exactly the first article is written |
| Scenario.TwoThenNoneContaining | search.py:89 | one article contains the keyword |
| Scenario.TwoThenNoneReport | search.py:86-93 | the run's report: 2 articles, 1 containing the keyword with 2 matches, and the same for "combined" |
| Scenario.ScenarioRun | search.py:17-94 | the airplane file: histograms `{airplane: {2: 1, 0: 1}, combined: {2: 1, 0: 1}}`, the first article saved, 2 articles of which 1 contains "airplane", with 2 matches |
| Findings.MapperAsWritten | search.py:28 | as written, the mapper raises exactly when saving is off, and otherwise returns the intended histograms |
| Findings.DefaultConfig | search.py:17 | `get_search_mapper` with only the keywords given: those keywords, saving off |
| Findings.OneArticle | search.py:21-42 | a file of one article: both its keyword's histogram and "combined" hold one article, in the bucket of its count |
| Findings.DefaultMapperRaises | search.py:17-28 | with the default flag the airplane file makes the mapper raise, while the intended histograms record one article with two matches |

## Left out

- Directory listing, JSON loading and progress output: `os.listdir`, `load_json` and `tqdm` are not modelled. `Walker.Apply` takes the already-loaded files as a sequence in listing order. A file that fails to load is not modelled.
- Output files: the output directory and its creation (`os.makedirs`), file names, and JSON serialisation are not modelled. The mapper's `saved` result stands for the content of the output file, as a list of articles.
- Printing: the `print` calls and the raw dump of the result are not modelled; only the integer figures are (`Summary`).
- Averages: the two averages (search.py:90 and search.py:94) are floating-point divisions, and they divide by zero when no article matches. Only their numerators and denominators are modelled.
- Aliasing: on the first call the reducer adopts the mapped dictionary itself, and later calls update it in place. The model works on values, so this sharing is not captured; no caller in the source reads the first mapped result afterwards.
- Article records: `Article` always has a string `text`, so the KeyError for a record without one is not modelled. The record's other fields are carried unchanged.
- Mapper.Mapper: it requires every keyword to be non-empty. Python's count of the empty string (one more than the text's length) is not modelled.
- Reducer.Reducer: with a non-empty accumulator the source raises KeyError when the mapped result lacks a merged name, or when the accumulator lacks a merged name whose incoming histogram is non-empty (search.py:59-60). `CanReduce` requires that neither happens, so those raising calls are not modelled; an accumulator lacking a name whose incoming histogram is empty is accepted, as in the source.
- Walker.Apply: with two or more files, a reducer keyword that is neither a mapper keyword nor "combined" makes the second reducer call raise KeyError, because the mapped result lacks it. `Apply` requires every reducer keyword to be a mapper keyword or "combined" only when two or more files are listed (`Compatible`), so exactly those raising runs are not modelled; a reducer keyword "combined" is merged a second time, as in the source. A directory of zero or one file is modelled with any reducer keywords: the first call only adopts the mapped result.
- Summary.Summarize: it takes the reduced histograms, not an optional result. An empty directory leaves the result None, and search.py:86 then raises TypeError when it indexes it; that run is not modelled. It also requires at least one keyword (with none, `keywords[0]` raises IndexError) and a histogram for every keyword and "combined" (otherwise KeyError). After a run over a non-empty directory with the same keywords for mapper and reducer, the result has every such histogram (`CorpusSummary`).
- Keyword lists with repeats or containing "combined": the mapper and reducer model them, but the algebraic lemmas (`ReducerLemmas`, `WalkerLemmas`, `MapperLemmas`, `Summary`) require `WellConfigured`.
- Dictionary iteration order: it never affects a result. `Tally` sums in any order, and `MergeInto` merges the incoming buckets in any order.
- Output files for files without matches: when saving is on, the mapper opens, and so creates, the output file for every input file, also one with no matching article. The model follows the code: `saved` is `Some([])` for such a file.

## Findings

| source | as written | input that shows it | evidently intended | confidence | as-written member | corrected member |
|---|---|---|---|---|---|---|
| search.py:28 | the `with` statement's context expression is `None` when saving is off, and `None` is not a context manager, so the mapper raises before counting anything (a TypeError from Python 3.11 on, an AttributeError before) | `save_articles=False` (the default of `get_search_mapper`), keyword `"airplane"`, one file with the article "the airplane flew over an airplane" | with saving off, open no file and return the histograms `{airplane: {2: 1}, combined: {2: 1}}` | high; not executed | Findings.MapperAsWritten, Findings.DefaultMapperRaises | Mapper.Mapper |

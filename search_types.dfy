/**
 * The data the keyword search passes around: articles, the per-keyword
 * histogram set, and the name of the synthetic "combined" histogram.
 */
module SearchTypes {
  import opened Histogram

  datatype Option<T> = None | Some(value: T)

  /**
   * One article record. Only its `text` is read; `fields` stands for the
   * record's other entries, which are written out unchanged when the
   * article is saved.
   */
  datatype Article = Article(text: string, fields: map<string, string>)

  /** Keyword (or "combined") -> occurrence histogram. */
  type Results = map<string, Hist>

  /** The key of the histogram of per-article sums of all keyword counts. */
  const CombinedKey: string := "combined"

  /** No name appears twice. */
  predicate Distinct(names: seq<string>)
  {
    forall i, j :: 0 <= i < j < |names| ==> names[i] != names[j]
  }

  /** Every keyword is a non-empty string, as `str.count` is used here. */
  predicate NonEmptyKeywords(keywords: seq<string>)
  {
    forall kw :: kw in keywords ==> |kw| > 0
  }

  /**
   * A configuration under which every keyword has a histogram of its own:
   * no keyword repeats and none is named "combined".
   */
  predicate WellConfigured(keywords: seq<string>)
  {
    NonEmptyKeywords(keywords) && Distinct(keywords + [CombinedKey])
  }

  /** `r` has a histogram under every name of `names`. */
  predicate HasKeys(r: Results, names: seq<string>)
  {
    forall kw :: kw in names ==> kw in r
  }

  /** Every stored bucket of every histogram holds at least one article. */
  predicate AllPositive(r: Results)
  {
    forall kw :: kw in r ==> Positive(r[kw])
  }

  /** Dropping the last name keeps the rest distinct. */
  lemma DistinctPrefix(names: seq<string>, n: nat)
    requires Distinct(names) && n <= |names|
    ensures Distinct(names[..n])
  {
  }

  /** A well-configured keyword list has no keyword named "combined" and no repeats. */
  lemma WellConfiguredMeans(keywords: seq<string>)
    requires WellConfigured(keywords)
    ensures CombinedKey !in keywords
    ensures Distinct(keywords)
  {
    var all := keywords + [CombinedKey];
    forall i | 0 <= i < |keywords| ensures keywords[i] != CombinedKey {
      assert all[i] == keywords[i] && all[|keywords|] == CombinedKey;
    }
    forall i, j | 0 <= i < j < |keywords| ensures keywords[i] != keywords[j] {
      assert all[i] != all[j];
    }
  }
}

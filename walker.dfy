/**
 * The corpus walker (`apply`): map every file of a directory listing and,
 * when a reducer is given, fold the mapped results into one accumulator.
 * The listing and the JSON loading are abstracted into a sequence of
 * already-loaded files, each a sequence of articles.
 */
module Walker {
  import opened SearchTypes
  import opened Mapper
  import opened Reducer

  /** The mapper's result for each file, in listing order. */
  function MapEach(keywords: seq<string>, files: seq<seq<Article>>): (ms: seq<Results>)
    requires NonEmptyKeywords(keywords)
    ensures |ms| == |files|
    ensures forall i :: 0 <= i < |files| ==> ms[i] == MapArticles(keywords, files[i])
  {
    seq(|files|, i requires 0 <= i < |files| => MapArticles(keywords, files[i]))
  }

  /** What the mapper writes for each file, in listing order: nothing when saving is off. */
  function Outputs(cfg: MapperConfig, files: seq<seq<Article>>): (os: seq<Option<seq<Article>>>)
    requires NonEmptyKeywords(cfg.keywords)
    ensures |os| == |files|
    ensures forall i :: 0 <= i < |files| ==> os[i].Some? == cfg.saveArticles
    ensures forall i :: 0 <= i < |files| && os[i].Some? ==> os[i].value == Selected(cfg.keywords, files[i])
  {
    seq(|files|, i requires 0 <= i < |files| => if cfg.saveArticles then Some(Selected(cfg.keywords, files[i])) else None)
  }

  /** Mapping one more file appends what the mapper writes for it. */
  lemma OutputsSnoc(cfg: MapperConfig, files: seq<seq<Article>>, i: nat)
    requires NonEmptyKeywords(cfg.keywords) && i < |files|
    ensures Outputs(cfg, files[..i + 1])
         == Outputs(cfg, files[..i]) + [if cfg.saveArticles then Some(Selected(cfg.keywords, files[i])) else None]
  {
    var l, m := Outputs(cfg, files[..i + 1]), Outputs(cfg, files[..i]) + [if cfg.saveArticles then Some(Selected(cfg.keywords, files[i])) else None];
    forall j | 0 <= j < i + 1 ensures l[j] == m[j] {
      if j < i {
        assert files[..i + 1][j] == files[..i][j];
      }
    }
  }

  /** Every mapped result carries a histogram for every name the reducer merges. */
  predicate Shaped(reducerKeywords: seq<string>, ms: seq<Results>)
  {
    forall i :: 0 <= i < |ms| ==> HasKeys(ms[i], MergedNames(reducerKeywords))
  }

  /**
   * The fold raises no KeyError: the first call only adopts the mapped
   * result, and every later call reads each merged name of its mapped result.
   */
  predicate Foldable(reducerKeywords: seq<string>, ms: seq<Results>)
  {
    |ms| >= 2 ==> Shaped(reducerKeywords, ms)
  }

  /** The accumulator after the reducer has been applied to every mapped result in turn, starting from none. */
  function Fold(reducerKeywords: seq<string>, ms: seq<Results>): (acc: Option<Results>)
    requires Foldable(reducerKeywords, ms)
    ensures acc.None? <==> ms == []
    ensures |ms| == 1 ==> acc == Some(ms[0])
    ensures acc.Some? && Shaped(reducerKeywords, ms) ==>
      HasKeys(acc.value, MergedNames(reducerKeywords)) && acc.value != map[]
  {
    if ms == [] then None
    else
      var init, mapped := ms[..|ms| - 1], ms[|ms| - 1];
      var before := Fold(reducerKeywords, init);
      assert Truthy(before) ==> Shaped(reducerKeywords, ms) && Shaped(reducerKeywords, init);
      assert Shaped(reducerKeywords, ms) ==> CombinedKey in mapped;
      Some(Reduce(reducerKeywords, before, mapped))
  }

  /** Mapping one more file appends its result. */
  lemma MapEachSnoc(keywords: seq<string>, files: seq<seq<Article>>, i: nat)
    requires NonEmptyKeywords(keywords) && i < |files|
    ensures MapEach(keywords, files[..i + 1]) == MapEach(keywords, files[..i]) + [MapArticles(keywords, files[i])]
  {
    var l, m := MapEach(keywords, files[..i + 1]), MapEach(keywords, files[..i]) + [MapArticles(keywords, files[i])];
    forall j | 0 <= j < i + 1 ensures l[j] == m[j] {
      if j < i {
        assert l[j] == MapArticles(keywords, files[j]) == m[j];
      } else {
        assert l[j] == MapArticles(keywords, files[i]);
      }
    }
  }

  /** One more mapped result: the fold reduces it into the fold of the earlier ones. */
  lemma FoldStep(reducerKeywords: seq<string>, ms: seq<Results>, mapped: Results)
    requires Foldable(reducerKeywords, ms + [mapped])
    ensures Foldable(reducerKeywords, ms)
    ensures CanReduce(reducerKeywords, Fold(reducerKeywords, ms), mapped)
    ensures Fold(reducerKeywords, ms + [mapped]) == Some(Reduce(reducerKeywords, Fold(reducerKeywords, ms), mapped))
  {
    assert (ms + [mapped])[..|ms|] == ms;
    if |ms| >= 1 {
      assert Shaped(reducerKeywords, ms) by {
        forall i | 0 <= i < |ms| ensures HasKeys(ms[i], MergedNames(reducerKeywords)) {
          assert (ms + [mapped])[i] == ms[i];
        }
      }
      assert (ms + [mapped])[|ms|] == mapped;
    }
  }

  /**
   * Every reducer keyword is a mapper keyword or "combined", so every name
   * the reducer merges has a histogram in each mapped result.
   */
  predicate Compatible(mapperKeywords: seq<string>, reducerKeywords: seq<string>)
  {
    forall kw :: kw in reducerKeywords ==> kw in mapperKeywords || kw == CombinedKey
  }

  /** The mapper's results are shaped for a compatible reducer. */
  lemma MapEachShaped(keywords: seq<string>, reducerKeywords: seq<string>, files: seq<seq<Article>>)
    requires NonEmptyKeywords(keywords) && Compatible(keywords, reducerKeywords)
    ensures Shaped(reducerKeywords, MapEach(keywords, files))
  {
  }

  /**
   * For a directory of at least one file, the mapped results carry every
   * merged name exactly when the reducer is compatible: `Compatible` is no
   * stronger than what the reducer's reads need.
   */
  lemma ShapedIffCompatible(keywords: seq<string>, reducerKeywords: seq<string>, files: seq<seq<Article>>)
    requires NonEmptyKeywords(keywords) && files != []
    ensures Shaped(reducerKeywords, MapEach(keywords, files)) <==> Compatible(keywords, reducerKeywords)
  {
    if Shaped(reducerKeywords, MapEach(keywords, files)) {
      var r0 := MapArticles(keywords, files[0]);
      assert HasKeys(r0, MergedNames(reducerKeywords));
      forall kw | kw in reducerKeywords ensures kw in keywords || kw == CombinedKey {
        assert kw in r0.Keys;
      }
    }
  }

  /** Folding the result of file `i` into the fold of the files before it raises no KeyError. */
  lemma ApplyStep(keywords: seq<string>, reducerKeywords: seq<string>, files: seq<seq<Article>>, i: nat, done: seq<Results>)
    requires NonEmptyKeywords(keywords) && i < |files|
    requires |files| >= 2 ==> Compatible(keywords, reducerKeywords)
    requires done == MapEach(keywords, files[..i]) && Foldable(reducerKeywords, done)
    ensures Foldable(reducerKeywords, done + [MapArticles(keywords, files[i])])
    ensures CanReduce(reducerKeywords, Fold(reducerKeywords, done), MapArticles(keywords, files[i]))
    ensures Fold(reducerKeywords, done + [MapArticles(keywords, files[i])])
         == Some(Reduce(reducerKeywords, Fold(reducerKeywords, done), MapArticles(keywords, files[i])))
  {
    MapEachSnoc(keywords, files, i);
    if i >= 1 {
      MapEachShaped(keywords, reducerKeywords, files[..i + 1]);
    }
    FoldStep(reducerKeywords, done, MapArticles(keywords, files[i]));
  }

  /**
   * `apply`: map each file in listing order; with a reducer, fold each
   * mapped result into the accumulator, which starts absent; without one,
   * return nothing. `outputs[i]` is what the mapper wrote for file `i`.
   */
  method Apply(files: seq<seq<Article>>, cfg: MapperConfig, reducerKeywords: Option<seq<string>>)
    returns (result: Option<Results>, outputs: seq<Option<seq<Article>>>)
    requires NonEmptyKeywords(cfg.keywords)
    requires reducerKeywords.Some? && |files| >= 2 ==> Compatible(cfg.keywords, reducerKeywords.value)
    ensures reducerKeywords.None? ==> result == None
    ensures reducerKeywords.Some? ==>
      && Foldable(reducerKeywords.value, MapEach(cfg.keywords, files))
      && result == Fold(reducerKeywords.value, MapEach(cfg.keywords, files))
    ensures outputs == Outputs(cfg, files)
  {
    result := None;
    outputs := [];
    ghost var done: seq<Results> := [];
    for i := 0 to |files|
      invariant outputs == Outputs(cfg, files[..i])
      invariant done == MapEach(cfg.keywords, files[..i])
      invariant reducerKeywords.None? ==> result == None
      invariant reducerKeywords.Some? ==>
        Foldable(reducerKeywords.value, done) && result == Fold(reducerKeywords.value, done)
    {
      var mapped, saved := Mapper.Mapper(cfg, files[i]);
      OutputsSnoc(cfg, files, i);
      outputs := outputs + [saved];
      MapEachSnoc(cfg.keywords, files, i);
      if reducerKeywords.Some? {
        ApplyStep(cfg.keywords, reducerKeywords.value, files, i, done);
        var reduced := Reducer.Reducer(reducerKeywords.value, result, mapped);
        result := Some(reduced);
      }
      done := done + [mapped];
    }
    assert files[..|files|] == files;
  }
}

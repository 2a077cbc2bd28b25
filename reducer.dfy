/**
 * The reducer (`get_search_reducer` and its `reducer` closure): merge one
 * file's histogram set into the running accumulator, bucket by bucket, for
 * every keyword and for "combined".
 */
module Reducer {
  import opened Histogram
  import opened SearchTypes

  /** Python's `if result:`: an absent accumulator and an empty one are both false. */
  predicate Truthy(acc: Option<Results>): (b: bool)
    ensures b <==> acc.Some? && exists kw :: kw in acc.value
  {
    acc.Some? && acc.value != map[]
  }

  /**
   * The names the reducer walks: its own copy of the keyword list with
   * "combined" appended (the caller's list is a value here and cannot change).
   */
  function MergedNames(keywords: seq<string>): (names: seq<string>)
    ensures |names| == |keywords| + 1
    ensures names[..|keywords|] == keywords && names[|keywords|] == CombinedKey
    ensures forall kw :: kw in names <==> kw in keywords || kw == CombinedKey
  {
    keywords + [CombinedKey]
  }

  /**
   * The names whose incoming histogram has a bucket have a histogram in `x`:
   * the inner loop reads `x`'s histogram only when there is a bucket to add.
   */
  predicate ReadableIn(x: Results, y: Results, names: seq<string>)
    requires HasKeys(y, names)
  {
    forall kw :: kw in names && y[kw] != map[] ==> kw in x
  }

  /**
   * Merge `y` into `x` for each of `names`, in list order; a name whose
   * incoming histogram is empty is left untouched (the inner loop does not
   * run), and other entries of `x` stay as they are.
   */
  function MergeNames(x: Results, y: Results, names: seq<string>): (r: Results)
    requires HasKeys(y, names) && ReadableIn(x, y, names)
    ensures r.Keys == x.Keys
  {
    if names == [] then x
    else
      var kw := names[|names| - 1];
      var before := MergeNames(x, y, names[..|names| - 1]);
      if y[kw] == map[] then before else before[kw := MergeHist(before[kw], y[kw])]
  }

  /**
   * What the caller must supply so that no KeyError is raised: when the
   * accumulator is truthy, `mapped` has every merged name, and the
   * accumulator has every merged name whose mapped histogram is non-empty.
   */
  predicate CanReduce(keywords: seq<string>, acc: Option<Results>, mapped: Results)
  {
    Truthy(acc) ==>
      && HasKeys(mapped, MergedNames(keywords))
      && ReadableIn(acc.value, mapped, MergedNames(keywords))
  }

  /** The accumulator after one call of the reducer. */
  function Reduce(keywords: seq<string>, acc: Option<Results>, mapped: Results): (r: Results)
    requires CanReduce(keywords, acc, mapped)
    ensures !Truthy(acc) ==> r == mapped
    ensures Truthy(acc) ==> r.Keys == acc.value.Keys
  {
    if Truthy(acc) then MergeNames(acc.value, mapped, MergedNames(keywords)) else mapped
  }

  /**
   * The reducer's inner loop for one name: add each bucket of `incoming`
   * to the accumulator's histogram `h`, creating missing buckets.
   */
  method MergeInto(h: Hist, incoming: Hist) returns (result: Hist)
    ensures result == MergeHist(h, incoming)
  {
    result := h;
    var pending := incoming.Keys;
    assert incoming - pending == map[];
    MergeEmpty(h);
    while pending != {}
      invariant pending <= incoming.Keys
      invariant result == MergeHist(h, incoming - pending)
      decreases |pending|
    {
      var key :| key in pending;
      var value := incoming[key];
      MergeOneMore(h, incoming, pending, key);
      result := Bump(result, key, value);
      pending := pending - {key};
    }
    assert incoming - {} == incoming;
  }

  /**
   * The reducer: on a falsy accumulator adopt the mapped result; otherwise,
   * for each name, merge the mapped histogram into the accumulator's.
   */
  method Reducer(keywords: seq<string>, acc: Option<Results>, mapped: Results) returns (result: Results)
    requires CanReduce(keywords, acc, mapped)
    ensures result == Reduce(keywords, acc, mapped)
  {
    var names := keywords + [CombinedKey];
    if acc.Some? && acc.value != map[] {
      result := acc.value;
      for i := 0 to |names|
        invariant result == MergeNames(acc.value, mapped, names[..i])
      {
        var kw := names[i];
        assert names[..i + 1][..i] == names[..i];
        // the bucket loop reads the accumulator's histogram only when there is a bucket to add
        if mapped[kw] != map[] {
          var merged := MergeInto(result[kw], mapped[kw]);
          result := result[kw := merged];
        }
      }
      assert names[..|names|] == names;
    } else {
      result := mapped;
    }
  }
}

/**
 * What one reducer call does to the counts, and the algebra that makes the
 * order and grouping of files irrelevant to them.
 */
module ReducerLemmas {
  import opened Histogram
  import opened SearchTypes
  import opened Reducer

  /** With distinct names, each merged name gets the bucket-wise sum; every other entry stays. */
  lemma {:induction false} MergeNamesAt(x: Results, y: Results, names: seq<string>, kw: string)
    requires HasKeys(y, names) && ReadableIn(x, y, names) && Distinct(names)
    requires kw in x
    ensures kw in names ==> MergeNames(x, y, names)[kw] == MergeHist(x[kw], y[kw])
    ensures kw !in names ==> MergeNames(x, y, names)[kw] == x[kw]
    decreases |names|
  {
    MergeEmpty(x[kw]);
    if names != [] {
      var init, last := names[..|names| - 1], names[|names| - 1];
      assert names == init + [last];
      DistinctPrefix(names, |names| - 1);
      assert last !in init by {
        forall i | 0 <= i < |init| ensures init[i] != last {
          assert names[i] != names[|names| - 1];
        }
      }
      MergeNamesAt(x, y, init, kw);
    }
  }

  /** On the first call (no accumulator yet) the reducer returns the mapped result unchanged. */
  lemma ReduceFirstCall(keywords: seq<string>, mapped: Results)
    ensures CanReduce(keywords, None, mapped)
    ensures Reduce(keywords, None, mapped) == mapped
  {
  }

  /**
   * Otherwise, for every keyword and "combined", each bucket of the result
   * is the accumulator's bucket plus the mapped bucket, a missing bucket
   * read as 0 (so accumulator buckets absent from `mapped` are unchanged);
   * every other entry of the accumulator is left as it was.
   */
  lemma ReduceBuckets(keywords: seq<string>, acc: Results, mapped: Results)
    requires acc != map[] && Distinct(MergedNames(keywords))
    requires HasKeys(acc, MergedNames(keywords)) && HasKeys(mapped, MergedNames(keywords))
    ensures CanReduce(keywords, Some(acc), mapped)
    ensures Reduce(keywords, Some(acc), mapped).Keys == acc.Keys
    ensures forall kw, k :: kw in MergedNames(keywords) ==>
      Get(Reduce(keywords, Some(acc), mapped)[kw], k) == Get(acc[kw], k) + Get(mapped[kw], k)
    ensures forall kw :: kw in acc && kw !in MergedNames(keywords) ==>
      Reduce(keywords, Some(acc), mapped)[kw] == acc[kw]
  {
    var names := MergedNames(keywords);
    forall kw | kw in acc {
      MergeNamesAt(acc, mapped, names, kw);
    }
  }

  /** Per histogram, merging adds totals: any of the three statistics of the result is the sum of the two inputs'. */
  lemma ReduceAddsTotals(keywords: seq<string>, acc: Results, mapped: Results, s: Stat)
    requires acc != map[] && Distinct(MergedNames(keywords))
    requires HasKeys(acc, MergedNames(keywords)) && HasKeys(mapped, MergedNames(keywords))
    ensures CanReduce(keywords, Some(acc), mapped)
    ensures forall kw :: kw in MergedNames(keywords) ==>
      Sum(Reduce(keywords, Some(acc), mapped)[kw], s) == Sum(acc[kw], s) + Sum(mapped[kw], s)
  {
    forall kw | kw in MergedNames(keywords)
      ensures Sum(Reduce(keywords, Some(acc), mapped)[kw], s) == Sum(acc[kw], s) + Sum(mapped[kw], s)
    {
      MergeNamesAt(acc, mapped, MergedNames(keywords), kw);
      SumMerge(acc[kw], mapped[kw], s);
    }
  }

  /** Merging `y` into `x` or `x` into `y` gives the same histogram for every merged name. */
  lemma ReduceCommutes(keywords: seq<string>, x: Results, y: Results)
    requires x != map[] && y != map[] && Distinct(MergedNames(keywords))
    requires HasKeys(x, MergedNames(keywords)) && HasKeys(y, MergedNames(keywords))
    ensures CanReduce(keywords, Some(x), y) && CanReduce(keywords, Some(y), x)
    ensures forall kw :: kw in MergedNames(keywords) ==>
      Reduce(keywords, Some(x), y)[kw] == Reduce(keywords, Some(y), x)[kw]
  {
    var names := MergedNames(keywords);
    forall kw | kw in names
      ensures Reduce(keywords, Some(x), y)[kw] == Reduce(keywords, Some(y), x)[kw]
    {
      MergeNamesAt(x, y, names, kw);
      MergeNamesAt(y, x, names, kw);
      MergeCommutes(x[kw], y[kw]);
    }
  }

  /** Reducing into a truthy accumulator that has every merged name keeps its names, so it stays truthy. */
  lemma ReduceKeepsNames(keywords: seq<string>, x: Results, y: Results)
    requires x != map[] && HasKeys(x, MergedNames(keywords)) && HasKeys(y, MergedNames(keywords))
    ensures CanReduce(keywords, Some(x), y)
    ensures Reduce(keywords, Some(x), y).Keys == x.Keys
    ensures Reduce(keywords, Some(x), y) != map[]
    ensures HasKeys(Reduce(keywords, Some(x), y), MergedNames(keywords))
  {
    var k :| k in x;
    assert k in Reduce(keywords, Some(x), y);
  }

  /** One name of the two groupings of three reduces: the same histogram. */
  lemma ReduceAssociatesAt(keywords: seq<string>, x: Results, y: Results, z: Results, kw: string)
    requires Distinct(MergedNames(keywords)) && x != map[] && y != map[]
    requires HasKeys(x, MergedNames(keywords)) && HasKeys(y, MergedNames(keywords)) && HasKeys(z, MergedNames(keywords))
    requires kw in x
    ensures CanReduce(keywords, Some(x), y) && CanReduce(keywords, Some(y), z)
    ensures CanReduce(keywords, Some(Reduce(keywords, Some(x), y)), z)
    ensures CanReduce(keywords, Some(x), Reduce(keywords, Some(y), z))
    ensures Reduce(keywords, Some(Reduce(keywords, Some(x), y)), z)[kw]
         == Reduce(keywords, Some(x), Reduce(keywords, Some(y), z))[kw]
  {
    var names := MergedNames(keywords);
    ReduceKeepsNames(keywords, x, y);
    ReduceKeepsNames(keywords, y, z);
    var xy, yz := Reduce(keywords, Some(x), y), Reduce(keywords, Some(y), z);
    ReduceKeepsNames(keywords, xy, z);
    MergeNamesAt(x, y, names, kw);
    MergeNamesAt(xy, z, names, kw);
    MergeNamesAt(x, yz, names, kw);
    if kw in names {
      MergeNamesAt(y, z, names, kw);
      MergeAssociates(x[kw], y[kw], z[kw]);
    }
  }

  /**
   * Folding `y` then `z` into an accumulator equals folding into it the
   * merge of `y` and `z`: the grouping of files does not matter. This holds
   * on the whole result, also when the accumulator is still absent.
   */
  lemma ReduceAssociates(keywords: seq<string>, acc: Option<Results>, y: Results, z: Results)
    requires Distinct(MergedNames(keywords))
    requires y != map[] && z != map[]
    requires acc.Some? ==> HasKeys(acc.value, MergedNames(keywords))
    requires HasKeys(y, MergedNames(keywords)) && HasKeys(z, MergedNames(keywords))
    ensures CanReduce(keywords, acc, y) && CanReduce(keywords, Some(y), z)
    ensures HasKeys(Reduce(keywords, acc, y), MergedNames(keywords))
    ensures HasKeys(Reduce(keywords, Some(y), z), MergedNames(keywords))
    ensures Reduce(keywords, Some(Reduce(keywords, acc, y)), z)
         == Reduce(keywords, acc, Reduce(keywords, Some(y), z))
  {
    ReduceKeepsNames(keywords, y, z);
    if Truthy(acc) {
      var x := acc.value;
      ReduceKeepsNames(keywords, x, y);
      ReduceKeepsNames(keywords, x, Reduce(keywords, Some(y), z));
      ReduceKeepsNames(keywords, Reduce(keywords, Some(x), y), z);
      var l := Reduce(keywords, Some(Reduce(keywords, Some(x), y)), z);
      var r := Reduce(keywords, Some(x), Reduce(keywords, Some(y), z));
      forall kw | kw in l ensures l[kw] == r[kw] {
        ReduceAssociatesAt(keywords, x, y, z, kw);
      }
    }
  }

  /** Merging keeps every stored bucket at one article or more. */
  lemma ReduceKeepsPositive(keywords: seq<string>, acc: Option<Results>, mapped: Results)
    requires CanReduce(keywords, acc, mapped) && Distinct(MergedNames(keywords))
    requires acc.Some? ==> AllPositive(acc.value)
    requires AllPositive(mapped)
    ensures AllPositive(Reduce(keywords, acc, mapped))
  {
    if Truthy(acc) {
      var names := MergedNames(keywords);
      forall kw | kw in acc.value ensures Positive(Reduce(keywords, acc, mapped)[kw]) {
        MergeNamesAt(acc.value, mapped, names, kw);
        if kw in names {
          MergeKeepsPositive(acc.value[kw], mapped[kw]);
        }
      }
    }
  }
}

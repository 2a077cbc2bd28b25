/**
 * Python's `str.count(sub)` for a non-empty `sub`: the number of
 * non-overlapping, left-to-right, exact (case-sensitive) occurrences of
 * `sub` in a string. The keyword mapper uses it once per keyword per article.
 */
module Substring {

  /** `kw` occurs in `text` starting at index `p`. */
  predicate OccursAt(text: string, kw: string, p: int)
  {
    0 <= p && p + |kw| <= |text| && text[p..p + |kw|] == kw
  }

  /**
   * `ps` lists occurrences of `kw` in `text`, in increasing order, no two of
   * which overlap.
   */
  ghost predicate NonOverlapping(text: string, kw: string, ps: seq<int>)
  {
    && (forall i :: 0 <= i < |ps| ==> OccursAt(text, kw, ps[i]))
    && (forall i, j :: 0 <= i < j < |ps| ==> ps[i] + |kw| <= ps[j])
  }

  /**
   * The scan `str.count` performs: when the keyword starts here, count it and
   * resume after it; otherwise move on by one character.
   */
  function Count(text: string, kw: string): (n: nat)
    requires |kw| > 0
    ensures n * |kw| <= |text|
    decreases |text|
  {
    if |text| < |kw| then 0
    else if text[..|kw|] == kw then 1 + Count(text[|kw|..], kw)
    else Count(text[1..], kw)
  }

  /** Every position of `ps` moved right by `d`. */
  function Shift(ps: seq<int>, d: int): (qs: seq<int>)
    ensures |qs| == |ps|
    ensures forall i :: 0 <= i < |ps| ==> qs[i] == ps[i] + d
  {
    seq(|ps|, i requires 0 <= i < |ps| => ps[i] + d)
  }

  /** An occurrence inside a suffix of `text` is an occurrence in `text`, `d` further right. */
  lemma OccursInSuffix(text: string, kw: string, d: nat, p: int)
    requires d <= |text| && 0 <= p
    ensures OccursAt(text[d..], kw, p) <==> OccursAt(text, kw, p + d)
  {
    if 0 <= p && p + |kw| <= |text| - d {
      assert text[d..][p..p + |kw|] == text[p + d..p + d + |kw|];
    }
  }

  /** Occurrences found in `text[d..]` are occurrences in `text`, `d` further right. */
  lemma ShiftKeepsNonOverlapping(text: string, kw: string, d: nat, ps: seq<int>)
    requires d <= |text|
    requires NonOverlapping(text[d..], kw, ps)
    requires forall i :: 0 <= i < |ps| ==> 0 <= ps[i]
    ensures NonOverlapping(text, kw, Shift(ps, d))
  {
    forall i | 0 <= i < |ps| ensures OccursAt(text, kw, Shift(ps, d)[i]) {
      OccursInSuffix(text, kw, d, ps[i]);
    }
  }

  /**
   * The occurrences `str.count` counts, as positions: a witness that the
   * count is achieved by non-overlapping occurrences.
   */
  ghost function Matches(text: string, kw: string): (ps: seq<int>)
    requires |kw| > 0
    ensures NonOverlapping(text, kw, ps)
    ensures |ps| == Count(text, kw)
    ensures forall i :: 0 <= i < |ps| ==> 0 <= ps[i]
    decreases |text|
  {
    if |text| < |kw| then []
    else if text[..|kw|] == kw then
      var rest := Matches(text[|kw|..], kw);
      ShiftKeepsNonOverlapping(text, kw, |kw|, rest);
      var shifted := Shift(rest, |kw|);
      assert OccursAt(text, kw, 0);
      assert forall i :: 0 <= i < |shifted| ==> |kw| <= shifted[i];
      [0] + shifted
    else
      var rest := Matches(text[1..], kw);
      ShiftKeepsNonOverlapping(text, kw, 1, rest);
      Shift(rest, 1)
  }

  /**
   * A stretch of text in which the keyword starts nowhere adds nothing to
   * the count: the scan steps over it one character at a time.
   */
  lemma {:induction false} CountSkips(text: string, kw: string, j: nat)
    requires |kw| > 0 && j <= |text|
    requires forall p :: 0 <= p < j ==> !OccursAt(text, kw, p)
    ensures Count(text, kw) == Count(text[j..], kw)
    decreases j
  {
    if j > 0 && |text| >= |kw| {
      assert !OccursAt(text, kw, 0);
      forall p | 0 <= p < j - 1 ensures !OccursAt(text[1..], kw, p) {
        OccursInSuffix(text, kw, 1, p);
      }
      CountSkips(text[1..], kw, j - 1);
      assert text[1..][j - 1..] == text[j..];
    }
  }

  /**
   * No list of non-overlapping occurrences is longer than `str.count`'s
   * answer: the greedy left-to-right scan finds as many as can be found.
   */
  lemma {:induction false} CountIsMaximal(text: string, kw: string, ps: seq<int>)
    requires |kw| > 0
    requires NonOverlapping(text, kw, ps)
    ensures |ps| <= Count(text, kw)
    decreases |text|, 1
  {
    if ps == [] {
    } else {
      assert OccursAt(text, kw, ps[0]);
      assert |text| >= |kw|;
      CountIsMaximalStep(text, kw, ps);
    }
  }

  /** The inductive step of CountIsMaximal, for a text at least as long as the keyword. */
  lemma {:induction false} CountIsMaximalStep(text: string, kw: string, ps: seq<int>)
    requires |kw| > 0 && |text| >= |kw| && ps != []
    requires NonOverlapping(text, kw, ps)
    ensures |ps| <= Count(text, kw)
    decreases |text|, 0
  {
    if text[..|kw|] == kw {
      var qs := Shift(ps[1..], -|kw|);
      forall i | 0 <= i < |qs| ensures OccursAt(text[|kw|..], kw, qs[i]) {
        assert ps[0] + |kw| <= ps[i + 1] && OccursAt(text, kw, ps[0]);
        OccursInSuffix(text, kw, |kw|, qs[i]);
      }
      forall i, j | 0 <= i < j < |qs| ensures qs[i] + |kw| <= qs[j] {
        assert ps[i + 1] + |kw| <= ps[j + 1];
      }
      CountIsMaximal(text[|kw|..], kw, qs);
    } else {
      assert ps[0] != 0 by { assert OccursAt(text, kw, ps[0]); }
      var qs := Shift(ps, -1);
      forall i | 0 <= i < |qs| ensures OccursAt(text[1..], kw, qs[i]) {
        assert OccursAt(text, kw, ps[0]) && OccursAt(text, kw, ps[i]);
        assert i > 0 ==> ps[0] + |kw| <= ps[i];
        OccursInSuffix(text, kw, 1, qs[i]);
      }
      forall i, j | 0 <= i < j < |qs| ensures qs[i] + |kw| <= qs[j] {
        assert ps[i] + |kw| <= ps[j];
      }
      CountIsMaximal(text[1..], kw, qs);
    }
  }

  /**
   * `str.count` is the largest number of non-overlapping occurrences: some
   * list of that many exists, and none is longer.
   */
  lemma CountIsMaximumNonOverlapping(text: string, kw: string)
    requires |kw| > 0
    ensures exists ps :: NonOverlapping(text, kw, ps) && |ps| == Count(text, kw)
    ensures forall ps :: NonOverlapping(text, kw, ps) ==> |ps| <= Count(text, kw)
  {
    var ms := Matches(text, kw);
    assert NonOverlapping(text, kw, ms) && |ms| == Count(text, kw);
    forall ps | NonOverlapping(text, kw, ps) ensures |ps| <= Count(text, kw) {
      CountIsMaximal(text, kw, ps);
    }
  }

  /** The count is zero exactly when the keyword does not occur anywhere in the text. */
  lemma CountZeroIffAbsent(text: string, kw: string)
    requires |kw| > 0
    ensures Count(text, kw) == 0 <==> forall p :: !OccursAt(text, kw, p)
  {
    if Count(text, kw) == 0 {
      forall p ensures !OccursAt(text, kw, p) {
        if OccursAt(text, kw, p) {
          CountIsMaximal(text, kw, [p]);
        }
      }
    } else {
      var ms := Matches(text, kw);
      assert OccursAt(text, kw, ms[0]);
    }
  }

  /** Worked cases: matches do not overlap, and matching is case-sensitive. */
  lemma CountExamples()
    ensures Count("aab", "a") == 2
    ensures Count("aab", "b") == 1
    ensures Count("aaaa", "aa") == 2
    ensures Count("aaa", "aa") == 1
    ensures Count("Airplane", "airplane") == 0
  {
    assert "aab"[..1] == "a" && "aab"[1..] == "ab";
    assert "ab"[..1] == "a" && "ab"[1..] == "b";
    assert "b"[..1] != "a" by { assert "b"[..1][0] != "a"[0]; }
    assert "b"[1..] == "";
    assert "aab"[..1] != "b" && "ab"[..1] != "b";
    assert "b"[..1] == "b";
    assert "aaaa"[..2] == "aa" && "aaaa"[2..] == "aa" && "aa"[2..] == "";
    assert "aaa"[..2] == "aa" && "aaa"[2..] == "a";
    assert "Airplane"[..8] != "airplane" by { assert "Airplane"[..8][0] != "airplane"[0]; }
  }

  const Airplane := "airplane"
  const FirstArticle := "the airplane flew over an airplane"
  const SecondArticle := "no match here"

  /** The first article of the scenario: "airplane" occurs twice, apart. */
  lemma AirplaneExample()
    ensures Count(FirstArticle, Airplane) == 2
  {
    SkipToFirstAirplane();
    FirstAirplane();
    SecondAirplane();
  }

  /** "the " holds no match. */
  lemma SkipToFirstAirplane()
    ensures Count(FirstArticle, Airplane) == Count(FirstArticle[4..], Airplane)
  {
    forall p | 0 <= p < 4 ensures !OccursAt(FirstArticle, Airplane, p) {
      assert FirstArticle[p..p + 8][0] == FirstArticle[p];
    }
    CountSkips(FirstArticle, Airplane, 4);
  }

  /** The first match is counted and skipped over. */
  lemma FirstAirplane()
    ensures Count(FirstArticle[4..], Airplane) == 1 + Count(FirstArticle[12..], Airplane)
  {
    MatchAt(FirstArticle, Airplane, 4);
  }

  /** A text in which the keyword starts at `d` counts it once there, then counts what follows it. */
  lemma MatchAt(text: string, kw: string, d: nat)
    requires |kw| > 0 && d + |kw| <= |text|
    requires forall i :: 0 <= i < |kw| ==> text[d + i] == kw[i]
    ensures Count(text[d..], kw) == 1 + Count(text[d + |kw|..], kw)
  {
    var t := text[d..];
    assert t[..|kw|] == kw;
    assert t[|kw|..] == text[d + |kw|..];
  }

  /** " flew over an " holds no match. */
  lemma SkipToSecondAirplane()
    ensures Count(FirstArticle[12..], Airplane) == Count(FirstArticle[26..], Airplane)
  {
    var v := FirstArticle[12..];
    forall p | 0 <= p < 14 ensures !OccursAt(v, Airplane, p) {
      assert v[p..p + 8][0] == v[p] && v[p..p + 8][1] == v[p + 1];
    }
    CountSkips(v, Airplane, 14);
    assert v[14..] == FirstArticle[26..];
  }

  /** The article ends with the second match. */
  lemma LastAirplane()
    ensures Count(FirstArticle[26..], Airplane) == 1
  {
    MatchAt(FirstArticle, Airplane, 26);
    assert |FirstArticle[34..]| == 0;
  }

  /** The rest of the first article after its first match holds exactly one more. */
  lemma SecondAirplane()
    ensures Count(FirstArticle[12..], Airplane) == 1
  {
    SkipToSecondAirplane();
    LastAirplane();
  }

  /** The second article of the scenario: no occurrence at all. */
  lemma NoMatchExample()
    ensures Count(SecondArticle, Airplane) == 0
  {
    forall p | 0 <= p < 6 ensures !OccursAt(SecondArticle, Airplane, p) {
      assert SecondArticle[p..p + 8][0] == SecondArticle[p];
      assert SecondArticle[p..p + 8][1] == SecondArticle[p + 1];
    }
    CountSkips(SecondArticle, Airplane, 6);
  }
}

/** `calculate_recall_at_k`: the share of the expected links that appear
    among the first k predicted links. */
module Evaluation {
  import opened Base

  /** The distinct expected links that the first `k` predictions hit. */
  function Retrieved(predicted: seq<string>, truth: seq<string>, k: int): set<string> {
    Elems(PrefixSlice(predicted, k)) * Elems(truth)
  }

  /** `len(set(predicted[:k]) & set(truth)) / len(truth)`, and 0 for an
      empty ground truth. */
  function Recall(predicted: seq<string>, truth: seq<string>, k: int): (r: real)
    ensures |truth| == 0 ==> r == 0.0
    ensures 0.0 <= r <= 1.0
    ensures r == 0.0 <==> |truth| == 0 || Retrieved(predicted, truth, k) == {}
  {
    var hits := Retrieved(predicted, truth, k);
    ElemsSize(truth);
    SubsetSize(hits, Elems(truth));
    if |truth| == 0 then 0.0 else Share(|hits|, |truth|)
  }

  /** Full recall: every expected link is among the first k predictions and
      the ground truth repeats no link. A repeated expected link counts twice
      in the denominator but once in the intersection, so it caps recall
      below 1. */
  lemma RecallOne(predicted: seq<string>, truth: seq<string>, k: int)
    ensures Recall(predicted, truth, k) == 1.0 <==>
      (|truth| > 0 && Distinct(truth) && Elems(truth) <= Elems(PrefixSlice(predicted, k)))
  {
    var hits := Retrieved(predicted, truth, k);
    ElemsSize(truth);
    SubsetSize(hits, Elems(truth));
    if |truth| > 0 && Distinct(truth) && Elems(truth) <= Elems(PrefixSlice(predicted, k)) {
      assert hits == Elems(truth);
    }
    if |truth| > 0 && Recall(predicted, truth, k) == 1.0 {
      assert |hits| == |truth|;
      assert hits == Elems(truth);
    }
  }

  /** Predictions past position k never matter. */
  lemma RecallPrefixOnly(predicted: seq<string>, later: seq<string>, truth: seq<string>, k: int)
    requires 0 <= k <= |predicted|
    ensures Recall(predicted + later, truth, k) == Recall(predicted, truth, k)
  {
    assert PrefixSlice(predicted + later, k) == PrefixSlice(predicted, k);
  }

  /** A repeated prediction inside the window adds nothing: repeating an
      earlier prediction at position `j` and widening the window by one
      leaves recall as it was. */
  lemma RecallRepeat(predicted: seq<string>, i: nat, j: nat, truth: seq<string>, k: int)
    requires i < j <= k <= |predicted|
    ensures var repeated := predicted[..j] + [predicted[i]] + predicted[j..];
      Recall(repeated, truth, k + 1) == Recall(predicted, truth, k)
  {
    var repeated := predicted[..j] + [predicted[i]] + predicted[j..];
    var a := PrefixSlice(predicted, k);
    var b := PrefixSlice(repeated, k + 1);
    assert b == predicted[..j] + [predicted[i]] + predicted[j..k];
    assert a == predicted[..j] + predicted[j..k];
    assert predicted[i] == predicted[..j][i];
    assert Elems(a) == Elems(b);
  }

  /** Reordering the ground truth leaves recall unchanged. */
  lemma RecallTruthOrder(predicted: seq<string>, t1: seq<string>, t2: seq<string>, k: int)
    requires multiset(t1) == multiset(t2)
    ensures Recall(predicted, t1, k) == Recall(predicted, t2, k)
  {
    assert |t1| == |multiset(t1)| == |multiset(t2)| == |t2|;
    assert Elems(t1) == Elems(t2) by {
      forall x ensures x in Elems(t1) <==> x in Elems(t2) {
        assert x in t1 <==> x in multiset(t1);
        assert x in t2 <==> x in multiset(t2);
      }
    }
  }

  /** Looking at more predictions never lowers recall. */
  lemma RecallMonotone(predicted: seq<string>, truth: seq<string>, k1: int, k2: int)
    requires 0 <= k1 <= k2
    ensures Recall(predicted, truth, k1) <= Recall(predicted, truth, k2)
  {
    var a := PrefixSlice(predicted, k1);
    var b := PrefixSlice(predicted, k2);
    assert a <= b;
    assert Elems(a) <= Elems(b) by {
      forall x | x in a ensures x in b {
        var i :| 0 <= i < |a| && a[i] == x;
        assert b[i] == x;
      }
    }
    var h1 := Retrieved(predicted, truth, k1);
    var h2 := Retrieved(predicted, truth, k2);
    assert h1 <= h2;
    SubsetSize(h1, h2);
    if |truth| > 0 {
      ElemsSize(truth);
      SubsetSize(h2, Elems(truth));
      ShareMonotone(|h1|, |h2|, |truth|);
    }
  }
}

/** Training with missing labels (models/autoencoder.py): target rows join
    the training set with the sentinel label -1, and the classifier half of
    the combined loss ignores sentinel rows and rescales by the labelled
    share, which makes it the mean loss over the labelled rows.  Losses are
    real numbers; a floating-point NaN is `None`. */
module MissingLabels {
  import opened Common

  /** Line 5: the label given to rows without one. */
  const MissingLabelValue: int := -1

  function Sum(s: seq<real>): real {
    if s == [] then 0.0 else s[0] + Sum(s[1..])
  }

  /** `tf.reduce_mean`; the mean of no values is NaN. */
  function Mean(s: seq<real>): (r: Option<real>)
    ensures r.None? <==> |s| == 0
    ensures r.Some? ==> r.value == Sum(s) / |s| as real
  {
    if |s| == 0 then None else Some(Sum(s) / |s| as real)
  }

  /** Line 18: the positions whose label is the sentinel. */
  function Mask(labels: seq<int>): (m: seq<bool>)
    ensures |m| == |labels|
    ensures forall k :: 0 <= k < |labels| ==> (m[k] <==> labels[k] == MissingLabelValue)
  {
    seq(|labels|, k requires 0 <= k < |labels| => labels[k] == MissingLabelValue)
  }

  /** The mask cast to floats, as on line 19. */
  function Indicator(mask: seq<bool>): (r: seq<real>)
    ensures |r| == |mask|
    ensures forall k :: 0 <= k < |mask| ==> (r[k] == 1.0 <==> mask[k]) && (r[k] == 0.0 <==> !mask[k])
  {
    seq(|mask|, k requires 0 <= k < |mask| => if mask[k] then 1.0 else 0.0)
  }

  /** Line 21: sentinel rows lose 0, the others keep their classifier loss. */
  function MaskedLoss(labels: seq<int>, cl: seq<real>): (m: seq<real>)
    requires |cl| == |labels|
    ensures |m| == |labels|
    ensures forall k :: 0 <= k < |labels| ==>
      m[k] == (if labels[k] == MissingLabelValue then 0.0 else cl[k])
  {
    var mask := Mask(labels);
    seq(|labels|, k requires 0 <= k < |labels| => if mask[k] then 0.0 else cl[k])
  }

  /** Lines 19, 21 and 31: the mean masked loss divided by the labelled
      share `1 - masked_proportion`; NaN for an empty batch or one whose
      every row is masked (then the division is 0/0). */
  function ClassifierPart(labels: seq<int>, cl: seq<real>): (r: Option<real>)
    requires |cl| == |labels|
    ensures r == if LabelledCount(labels) == 0 then None
                 else Some(LabelledSum(labels, cl) / LabelledCount(labels) as real)
  {
    if |labels| == 0 then None
    else
      var m := Mean(MaskedLoss(labels, cl)).value;
      var p := Mean(Indicator(Mask(labels))).value;
      ClassifierPartIsLabelledMean(labels, cl);
      if 1.0 - p == 0.0 then None else Some(m / (1.0 - p))
  }

  /** `loss` (lines 13-33) over one batch, given each row's reconstruction
      loss `ae` and classification loss `cl`: the decoder-weighted mean
      reconstruction loss plus the mean classification loss over the
      labelled rows.  `targetWeight` has no effect: its use is commented out
      (lines 23-27). */
  function CombinedLoss(targetWeight: real, decoderWeight: real,
                        labels: seq<int>, ae: seq<real>, cl: seq<real>): (r: Option<real>)
    requires |ae| == |labels| && |cl| == |labels|
    ensures r == if LabelledCount(labels) == 0 then None
                 else Some(decoderWeight * (Sum(ae) / |labels| as real)
                           + LabelledSum(labels, cl) / LabelledCount(labels) as real)
  {
    LabelledCountBound(labels);
    if |labels| == 0 then None
    else
      var a := Mean(ae);
      var c := ClassifierPart(labels, cl);
      assert c.Some? ==> LabelledCount(labels) != 0;
      assert c.Some? ==> decoderWeight * a.value + c.value == decoderWeight * (Sum(ae) / |labels| as real)
                           + LabelledSum(labels, cl) / LabelledCount(labels) as real;
      if c.None? then None else Some(decoderWeight * a.value + c.value)
  }

  /** The number of rows with a label. */
  function LabelledCount(labels: seq<int>): nat {
    if labels == [] then 0
    else (if labels[0] == MissingLabelValue then 0 else 1) + LabelledCount(labels[1..])
  }

  /** The classification loss summed over the rows with a label. */
  function LabelledSum(labels: seq<int>, cl: seq<real>): real
    requires |cl| == |labels|
  {
    if labels == [] then 0.0
    else (if labels[0] == MissingLabelValue then 0.0 else cl[0]) + LabelledSum(labels[1..], cl[1..])
  }

  lemma {:induction false} LabelledCountBound(labels: seq<int>)
    ensures LabelledCount(labels) <= |labels|
  {
    if labels != [] {
      LabelledCountBound(labels[1..]);
    }
  }

  /** Zeroing the sentinel rows leaves the sum over the labelled rows. */
  lemma {:induction false} MaskedSum(labels: seq<int>, cl: seq<real>)
    requires |cl| == |labels|
    ensures Sum(MaskedLoss(labels, cl)) == LabelledSum(labels, cl)
  {
    if labels != [] {
      MaskedSum(labels[1..], cl[1..]);
      assert MaskedLoss(labels, cl)[1..] == MaskedLoss(labels[1..], cl[1..]);
    }
  }

  /** The cast mask sums to the number of sentinel rows. */
  lemma {:induction false} MaskedCount(labels: seq<int>)
    ensures Sum(Indicator(Mask(labels))) == (|labels| - LabelledCount(labels)) as real
  {
    LabelledCountBound(labels);
    if labels != [] {
      MaskedCount(labels[1..]);
      LabelledCountBound(labels[1..]);
      assert Indicator(Mask(labels))[1..] == Indicator(Mask(labels[1..]));
    }
  }

  /** Dividing the mean masked loss by the labelled share gives the mean
      over the labelled rows. */
  lemma ClassifierPartIsLabelledMean(labels: seq<int>, cl: seq<real>)
    requires |cl| == |labels| && |labels| > 0
    ensures var n := |labels| as real;
      var m := Sum(MaskedLoss(labels, cl)) / n;
      var p := Sum(Indicator(Mask(labels))) / n;
      && (1.0 - p == 0.0 <==> LabelledCount(labels) == 0)
      && (1.0 - p != 0.0 ==> m / (1.0 - p) == LabelledSum(labels, cl) / LabelledCount(labels) as real)
  {
    LabelledCountBound(labels);
    MaskedSum(labels, cl);
    MaskedCount(labels);
    ShareAlgebra(|labels| as real, LabelledCount(labels) as real, LabelledSum(labels, cl),
                 Sum(MaskedLoss(labels, cl)), Sum(Indicator(Mask(labels))));
  }

  /** The arithmetic of line 31 once the sums are known: `c` labelled rows
      of `n`, whose losses sum to `s`. */
  lemma ShareAlgebra(n: real, c: real, s: real, maskedSum: real, maskCount: real)
    requires 0.0 <= c <= n && n > 0.0
    requires maskedSum == s && maskCount == n - c
    ensures 1.0 - maskCount / n == 0.0 <==> c == 0.0
    ensures c != 0.0 ==> (maskedSum / n) / (1.0 - maskCount / n) == s / c
  {
    OneMinusShare(n, c);
    if c != 0.0 {
      Rescale(s, c, n);
    }
  }

  /** 1 - (n - c) / n == c / n for positive n. */
  lemma OneMinusShare(n: real, c: real)
    requires n > 0.0
    ensures 1.0 - (n - c) / n == c / n
  {
    assert (n - c) / n == n / n - c / n;
  }

  /** (s / n) / (c / n) == s / c for positive n and non-zero c. */
  lemma Rescale(s: real, c: real, n: real)
    requires n > 0.0 && c != 0.0
    ensures (s / n) / (c / n) == s / c
  {
    var a := s / n;
    var b := c / n;
    assert a * n == s && b * n == c;
    assert b != 0.0;
    assert (a / b) * c == (a / b) * (b * n) == a * n;
  }

  /** Line 80: the training features, source rows then target rows. */
  function TrainingRows<X>(xs: seq<X>, xt: seq<X>): (r: seq<X>)
    ensures |r| == |xs| + |xt| && r[..|xs|] == xs && r[|xs|..] == xt
  {
    xs + xt
  }

  /** Line 81: the training labels, the source labels then one sentinel per
      target row. */
  function TrainingLabels(ys: seq<int>, nTarget: nat): (r: seq<int>)
    ensures |r| == |ys| + nTarget && r[..|ys|] == ys
    ensures forall k :: |ys| <= k < |r| ==> r[k] == MissingLabelValue
  {
    ys + seq(nTarget, _ => MissingLabelValue)
  }

  predicate Binary(ys: seq<int>) {
    forall k :: 0 <= k < |ys| ==> ys[k] == 0 || ys[k] == 1
  }

  /** For 0/1 source labels the mask of the training labels marks exactly
      the target rows. */
  lemma MaskMarksTargetRows(ys: seq<int>, nTarget: nat)
    requires Binary(ys)
    ensures var m := Mask(TrainingLabels(ys, nTarget));
      forall k :: 0 <= k < |m| ==> (m[k] <==> k >= |ys|)
  {
    var r := TrainingLabels(ys, nTarget);
    forall k | 0 <= k < |ys| ensures r[k] == ys[k] {
      assert r[..|ys|][k] == r[k];
    }
  }

  /** Over the assembled training set the rows with a label are the source
      rows, in their order. */
  lemma {:induction false} TrainingLabelled(ys: seq<int>, nTarget: nat, cl: seq<real>)
    requires Binary(ys) && |cl| == |ys| + nTarget
    ensures LabelledCount(TrainingLabels(ys, nTarget)) == |ys|
    ensures LabelledSum(TrainingLabels(ys, nTarget), cl) == Sum(cl[..|ys|])
  {
    var r := TrainingLabels(ys, nTarget);
    if ys == [] {
      SentinelsOnly(nTarget, cl);
      assert r == seq(nTarget, _ => MissingLabelValue);
    } else {
      TrainingLabelled(ys[1..], nTarget, cl[1..]);
      assert r[1..] == TrainingLabels(ys[1..], nTarget);
      assert r[0] == ys[0];
      assert cl[..|ys|][1..] == cl[1..][..|ys| - 1];
    }
  }

  lemma {:induction false} SentinelsOnly(n: nat, cl: seq<real>)
    requires |cl| == n
    ensures LabelledCount(seq(n, _ => MissingLabelValue)) == 0
    ensures LabelledSum(seq(n, _ => MissingLabelValue), cl) == 0.0
  {
    if n > 0 {
      SentinelsOnly(n - 1, cl[1..]);
      assert seq(n, _ => MissingLabelValue)[1..] == seq(n - 1, _ => MissingLabelValue);
    }
  }

  /** The loss over the whole assembled training set: the classifier part is
      the mean classification loss over the source rows alone. */
  lemma TrainingLoss(ys: seq<int>, nTarget: nat, cl: seq<real>)
    requires Binary(ys) && |cl| == |ys| + nTarget
    ensures ClassifierPart(TrainingLabels(ys, nTarget), cl)
            == if |ys| == 0 then None else Some(Sum(cl[..|ys|]) / |ys| as real)
  {
    TrainingLabelled(ys, nTarget, cl);
  }

  /** The training history Keras returns: each metric's value per epoch. */
  type History = map<string, seq<real>>

  /** `Autoencoder` (lines 38-84).  The Keras models are not part of this
      model; training is the function `train` given to `Fit`, from the
      training features and labels to the history it records. */
  class Autoencoder<X> {
    const inputDim: int
    const targetWeight: real
    const decoderWeight: real
    var history: Option<History>

    /** `__init__` (lines 39-49): nothing has been trained yet. */
    constructor(inputDim: int, targetWeight: real, decoderWeight: real)
      ensures this.inputDim == inputDim && this.targetWeight == targetWeight
      ensures this.decoderWeight == decoderWeight
      ensures history == None
    {
      this.inputDim := inputDim;
      this.targetWeight := targetWeight;
      this.decoderWeight := decoderWeight;
      history := None;
    }

    /** The loss compiled into the combined model (line 76). */
    function Loss(labels: seq<int>, ae: seq<real>, cl: seq<real>): (r: Option<real>)
      requires |ae| == |labels| && |cl| == |labels|
      ensures r == CombinedLoss(0.0, decoderWeight, labels, ae, cl)
    {
      CombinedLoss(targetWeight, decoderWeight, labels, ae, cl)
    }

    /** `fit` (lines 79-84): train on the source rows and the unlabelled
        target rows, record the history and return the model itself. */
    method Fit(xs: seq<X>, ys: seq<int>, xt: seq<X>,
               train: (seq<X>, seq<int>) -> History) returns (r: Autoencoder<X>)
      modifies this
      ensures r == this
      ensures history == Some(train(TrainingRows(xs, xt), TrainingLabels(ys, |xt|)))
    {
      var xTrain := TrainingRows(xs, xt);
      var yTrain := TrainingLabels(ys, |xt|);
      history := Some(train(xTrain, yTrain));
      r := this;
    }
  }
}

/** Sigmoid-biased rejection sampling (datagen/datagen.py).  The acceptance
    probabilities (a sigmoid of the standardised first column, scaled by the
    bias) are floating-point work and enter as an abstract function of the
    rows and the bias; the two random numbers of each loop iteration enter
    as one `Draw` of an oracle sequence. */
module BiasSampling {
  import opened Common

  /** One iteration of the rejection loop: the row `randint(0, len(X))` and
      the uniform number `random()` compared against that row's probability. */
  datatype Draw = Draw(index: nat, u: real)

  /** `randint(0, n)` only ever yields a row of the pool. */
  predicate DrawsInRange(draws: seq<Draw>, n: nat) {
    forall t :: 0 <= t < |draws| ==> draws[t].index < n
  }

  /** Draw `t` hits row `i` and its uniform number falls below that row's
      probability, so row `i` is taken. */
  ghost predicate AcceptedAt(prob: seq<real>, draws: seq<Draw>, t: int, i: nat)
    requires DrawsInRange(draws, |prob|)
  {
    0 <= t < |draws| && draws[t].index == i && draws[t].u < prob[i]
  }

  /** The rows taken by the rejection loop from a stream of draws, in the
      order they are taken. */
  function Accepted(prob: seq<real>, draws: seq<Draw>): (r: seq<nat>)
    requires DrawsInRange(draws, |prob|)
    ensures |r| <= |draws|
    ensures InRange(r, |prob|)
  {
    if draws == [] then []
    else
      var init := Accepted(prob, draws[..|draws| - 1]);
      var d := draws[|draws| - 1];
      if d.u < prob[d.index] then init + [d.index] else init
  }

  /** One more iteration: an accepted draw appends its row, a rejected draw
      changes nothing. */
  lemma AcceptedStep(prob: seq<real>, draws: seq<Draw>, d: Draw)
    requires DrawsInRange(draws, |prob|) && d.index < |prob|
    ensures DrawsInRange(draws + [d], |prob|)
    ensures d.u < prob[d.index] ==> Accepted(prob, draws + [d]) == Accepted(prob, draws) + [d.index]
    ensures d.u >= prob[d.index] ==> Accepted(prob, draws + [d]) == Accepted(prob, draws)
  {
    assert (draws + [d])[..|draws|] == draws;
  }

  /** Later draws never undo earlier acceptances: what a prefix of the stream
      takes is a prefix of what the whole stream takes. */
  lemma {:induction false} AcceptedPrefix(prob: seq<real>, draws: seq<Draw>, t: nat)
    requires DrawsInRange(draws, |prob|) && t <= |draws|
    ensures DrawsInRange(draws[..t], |prob|)
    ensures Accepted(prob, draws[..t]) <= Accepted(prob, draws)
    decreases |draws| - t
  {
    if t < |draws| {
      AcceptedPrefix(prob, draws, t + 1);
      AcceptedStep(prob, draws[..t], draws[t]);
      assert draws[..t] + [draws[t]] == draws[..t + 1];
    } else {
      assert draws[..t] == draws;
    }
  }

  /** While a prefix of the stream has taken fewer rows than the whole
      stream, some draws are left. */
  lemma AcceptedNotExhausted(prob: seq<real>, draws: seq<Draw>, t: nat)
    requires DrawsInRange(draws, |prob|) && t <= |draws|
    requires DrawsInRange(draws[..t], |prob|)
    requires |Accepted(prob, draws[..t])| < |Accepted(prob, draws)|
    ensures t < |draws|
  {
    assert draws[..|draws|] == draws;
  }

  /** A stream none of whose draws passes the comparison of line 53 takes
      no row.  This is every stream when all probabilities are NaN, as they
      are when every deviation of the first column from its `np.mean` is
      exactly 0 (a one-row pool, or a constant column whose floating-point
      mean is exact), so that line 44 divides 0 by 0, or when `np.std`
      underflows to 0 and the bias is 0, so that line 45 multiplies an
      infinite norm by 0.  No stream can meet the requirement of
      `SigmBiasSampling` for `n_samples > 0` then: the loop never ends. */
  lemma {:induction false} NothingAccepted(prob: seq<real>, draws: seq<Draw>)
    requires DrawsInRange(draws, |prob|)
    requires forall t :: 0 <= t < |draws| ==> !(draws[t].u < prob[draws[t].index])
    ensures Accepted(prob, draws) == []
  {
    if draws != [] {
      NothingAccepted(prob, draws[..|draws| - 1]);
    }
  }

  /** A row is taken exactly when some draw hits it and is accepted. */
  lemma {:induction false} AcceptedMembers(prob: seq<real>, draws: seq<Draw>, i: nat)
    requires DrawsInRange(draws, |prob|)
    ensures i in Accepted(prob, draws) <==> exists t :: AcceptedAt(prob, draws, t, i)
  {
    if draws != [] {
      var init := draws[..|draws| - 1];
      var d := draws[|draws| - 1];
      AcceptedMembers(prob, init, i);
      assert init + [d] == draws;
      AcceptedStep(prob, init, d);
      if i in Accepted(prob, draws) {
        if i in Accepted(prob, init) {
          var t :| AcceptedAt(prob, init, t, i);
          assert AcceptedAt(prob, draws, t, i);
        } else {
          assert AcceptedAt(prob, draws, |draws| - 1, i);
        }
      }
      if exists t :: AcceptedAt(prob, draws, t, i) {
        var t :| AcceptedAt(prob, draws, t, i);
        if t < |draws| - 1 {
          assert AcceptedAt(prob, init, t, i);
        } else {
          assert Accepted(prob, draws) == Accepted(prob, init) + [i];
        }
      }
    }
  }

  /** The acceptance probabilities give one number per row, whatever the
      bias. */
  predicate PerRow<T>(probability: (seq<T>, real) -> seq<real>, xs: seq<T>, bias: real) {
    |probability(xs, bias)| == |xs|
  }

  /** `sigm_bias_sampling` (lines 36-57): `n_samples` rows drawn with
      replacement and kept with the row's probability, written one by one
      into preallocated buffers.  The loop ends only once enough draws are
      accepted, which the oracle stream is required to contain. */
  method SigmBiasSampling<T(0), L(0)>(x: seq<T>, y: seq<L>, nSamples: nat, bias: real,
                                      probability: (seq<T>, real) -> seq<real>,
                                      draws: seq<Draw>)
    returns (xOut: array<T>, yOut: array<L>)
    requires |y| == |x| && PerRow(probability, x, bias)
    requires DrawsInRange(draws, |x|)
    requires nSamples <= |Accepted(probability(x, bias), draws)|
    ensures fresh(xOut) && fresh(yOut)
    ensures xOut.Length == nSamples && yOut.Length == nSamples
    ensures xOut[..] == Gather(x, Accepted(probability(x, bias), draws)[..nSamples])
    ensures yOut[..] == Gather(y, Accepted(probability(x, bias), draws)[..nSamples])
  {
    var prob := probability(x, bias);
    var n := 0;
    var t := 0;
    xOut := new T[nSamples];
    yOut := new L[nSamples];
    AcceptedPrefix(prob, draws, 0);
    while n < nSamples
      invariant 0 <= n <= nSamples && t <= |draws|
      invariant DrawsInRange(draws[..t], |prob|)
      invariant n == |Accepted(prob, draws[..t])|
      invariant xOut[..n] == Gather(x, Accepted(prob, draws[..t]))
      invariant yOut[..n] == Gather(y, Accepted(prob, draws[..t]))
      decreases |draws| - t
    {
      AcceptedNotExhausted(prob, draws, t);
      var d := draws[t];
      AcceptedStep(prob, draws[..t], d);
      assert draws[..t] + [d] == draws[..t + 1];
      if d.u < prob[d.index] {
        xOut[n] := x[d.index];
        yOut[n] := y[d.index];
        n := n + 1;
      }
      t := t + 1;
    }
    AcceptedPrefix(prob, draws, t);
    assert xOut[..] == xOut[..n];
    assert yOut[..] == yOut[..n];
  }

  /** `make_moons` with the fixed noise and seed: n rows and their labels. */
  predicate MoonsSized<T, L>(makeMoons: nat -> (seq<T>, seq<L>), n: nat) {
    |makeMoons(n).0| == n && |makeMoons(n).1| == n
  }

  /** `make_moons_triplet` (lines 7-33): the global set is generated
      directly; source and target are sampled from candidate pools of
      `m_source` and `m_target` rows, the target with the negated bias.
      `make_moons` with the fixed noise and seed is the function
      `makeMoons`. */
  method MakeMoonsTriplet<T(0), L(0)>(nSource: nat, nGlobal: nat, nTarget: nat,
                                      mSource: nat, mTarget: nat, bias: real,
                                      makeMoons: nat -> (seq<T>, seq<L>),
                                      probability: (seq<T>, real) -> seq<real>,
                                      sourceDraws: seq<Draw>, targetDraws: seq<Draw>)
    returns (r: Triplet<T, L>)
    requires MoonsSized(makeMoons, nGlobal) && MoonsSized(makeMoons, mSource) && MoonsSized(makeMoons, mTarget)
    requires PerRow(probability, makeMoons(mSource).0, bias)
    requires PerRow(probability, makeMoons(mTarget).0, -bias)
    requires DrawsInRange(sourceDraws, mSource) && DrawsInRange(targetDraws, mTarget)
    requires nSource <= |Accepted(probability(makeMoons(mSource).0, bias), sourceDraws)|
    requires nTarget <= |Accepted(probability(makeMoons(mTarget).0, -bias), targetDraws)|
    ensures r.xg == makeMoons(nGlobal).0 && r.yg == makeMoons(nGlobal).1
    ensures |r.xs| == nSource && |r.ys| == nSource && |r.xt| == nTarget && |r.yt| == nTarget
    ensures var (cx, cy) := makeMoons(mSource);
      var taken := Accepted(probability(cx, bias), sourceDraws)[..nSource];
      r.xs == Gather(cx, taken) && r.ys == Gather(cy, taken)
    ensures var (cx, cy) := makeMoons(mTarget);
      var taken := Accepted(probability(cx, -bias), targetDraws)[..nTarget];
      r.xt == Gather(cx, taken) && r.yt == Gather(cy, taken)
  {
    var (gx, gy) := makeMoons(nGlobal);
    var (cx, cy) := makeMoons(mSource);
    var sx, sy := SigmBiasSampling(cx, cy, nSource, bias, probability, sourceDraws);
    var (dx, dy) := makeMoons(mTarget);
    var tx, ty := SigmBiasSampling(dx, dy, nTarget, -bias, probability, targetDraws);
    r := Triplet(sx[..], sy[..], gx, gy, tx[..], ty[..]);
  }
}

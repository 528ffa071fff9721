/** Feature-biased selection (datagen/selector.py): the pool is permuted and
    cut into a global prefix, a source-candidate block and a target-candidate
    remainder; source and target are then sampled with replacement from their
    blocks around centres placed symmetrically about the pool mean. */
module FeatureSelection {
  import opened Common

  /** Line 65: the source share of the `rest` rows left after the global
      prefix, as the exact floor of `n_source * rest / (n_source + n_target)`.
      Python computes `int(n_source / (n_source + n_target) * rest)` in
      floating point, which can come out one lower. */
  function SourceBlockSize(nSource: nat, nTarget: nat, rest: nat): (m: nat)
    requires nSource + nTarget > 0
    ensures m <= rest
    ensures m * (nSource + nTarget) <= nSource * rest < (m + 1) * (nSource + nTarget)
  {
    var total := nSource + nTarget;
    var m := (nSource * rest) / total;
    FloorDiv(nSource * rest, total);
    assert rest * total == nSource * rest + nTarget * rest;
    MulCancel(m, rest, total, nSource * rest);
    m
  }

  /** Euclidean division brackets its dividend. */
  lemma FloorDiv(a: nat, b: nat)
    requires b > 0
    ensures (a / b) * b <= a < (a / b + 1) * b
  {
    assert a == (a / b) * b + a % b;
  }

  /** A multiple of `c` that is at most a share of `b * c` has a factor at
      most `b`. */
  lemma MulCancel(a: nat, b: nat, c: nat, share: nat)
    requires c > 0 && a * c <= share && share <= b * c
    ensures a <= b
  {
    assert a * c <= b * c;
    assert (b - a) * c >= 0;
  }

  /** A Gaussian with independent dimensions, the sampling density of
      `sample_biased`. */
  datatype Gaussian = Gaussian(mean: seq<real>, std: seq<real>)

  /** Every row k of `xs`/`ys` is a row of the candidates `x`/`y` together
      with that row's own label. */
  ghost predicate PairedCopies<T, L>(xs: seq<T>, ys: seq<L>, x: seq<T>, y: seq<L>)
    requires |y| == |x|
  {
    && |ys| == |xs|
    && forall k :: 0 <= k < |xs| ==> (xs[k], ys[k]) in Rows(x, y)
  }

  /** The (feature, label) rows of a dataset. */
  function Rows<T, L>(x: seq<T>, y: seq<L>): (r: seq<(T, L)>)
    requires |y| == |x|
    ensures |r| == |x| && forall i :: 0 <= i < |x| ==> r[i] == (x[i], y[i])
  {
    seq(|x|, i requires 0 <= i < |x| => (x[i], y[i]))
  }

  /** Gathering features and labels through the same indices pairs each
      gathered row with its own label. */
  lemma GatherPaired<T, L>(x: seq<T>, y: seq<L>, idx: seq<nat>)
    requires |y| == |x| && InRange(idx, |x|)
    ensures PairedCopies(Gather(x, idx), Gather(y, idx), x, y)
  {
    var xs, ys := Gather(x, idx), Gather(y, idx);
    forall k | 0 <= k < |xs| ensures (xs[k], ys[k]) in Rows(x, y) {
      assert Rows(x, y)[idx[k]] == (xs[k], ys[k]);
    }
  }

  /** `sample_biased` (lines 8-15): n rows drawn with replacement from the
      candidates.  The density weights of lines 11-13 only shape the
      distribution of the draws, which are given as `draws`, so
      `density` does not enter the result.  An empty candidate block always
      fails: numpy refuses the empty population when rows are asked for,
      and otherwise refuses the empty weights, which sum to 0 instead of 1
      (line 13 divides the empty weights by their sum, 0, leaving them
      empty). */
  function SampleBiased<T, L>(x: seq<T>, y: seq<L>, n: nat, density: Gaussian,
                              draws: seq<nat>): (r: Result<(seq<T>, seq<L>)>)
    requires |y| == |x| && n <= |draws|
    ensures r.Err? <==> |x| == 0
    ensures r.Err? ==> r.error == if n > 0 then EmptyChoice else ProbabilitiesNotNormalised
    ensures r.Ok? ==> |r.value.0| == n && PairedCopies(r.value.0, r.value.1, x, y)
  {
    if |x| == 0 then
      if n > 0 then Err(EmptyChoice) else Err(ProbabilitiesNotNormalised)
    else
      match ChoiceWithReplacement(Range(|x|), n, draws)
      case Err(e) => Err(e)
      case Ok(sample) =>
        assert InRange(sample, |x|) by {
          forall k | 0 <= k < n ensures sample[k] < |x| {
            var j :| 0 <= j < |x| && Range(|x|)[j] == sample[k];
          }
        }
        GatherPaired(x, y, sample);
        var xs, ys := Gather(x, sample), Gather(y, sample);
        Ok((xs, ys))
  }

  /** The configuration of a Selector, set once by its constructor. */
  datatype Selector = Selector(nGlobal: nat, nSource: nat, nTarget: nat,
                               sourceScale: real, targetScale: real, biasDist: real)
  {
    /** `_make_split` (lines 49-70), with numpy's permutation given as `perm`. */
    function MakeSplit<T, L>(x: seq<T>, y: seq<L>, perm: seq<nat>): (r: Result<Triplet<T, L>>)
      requires IsPermutation(perm, |x|)
      ensures r.Err? <==> |x| != |y| || |x| <= nGlobal || nSource + nTarget == 0
      ensures r.Err? && (|x| != |y| || |x| <= nGlobal) ==> r.error.AssertionFailed?
      ensures r.Ok? ==>
        var m := SourceBlockSize(nSource, nTarget, |x| - nGlobal);
        && |r.value.xg| == nGlobal && |r.value.yg| == nGlobal
        && |r.value.xs| == m && |r.value.ys| == m
        && |r.value.xt| == |x| - nGlobal - m && |r.value.yt| == |x| - nGlobal - m
        && r.value.xg == Gather(x, perm)[..nGlobal] && r.value.yg == Gather(y, perm)[..nGlobal]
        && r.value.xs == Gather(x, perm)[nGlobal..nGlobal + m]
        && r.value.ys == Gather(y, perm)[nGlobal..nGlobal + m]
        && r.value.xt == Gather(x, perm)[nGlobal + m..] && r.value.yt == Gather(y, perm)[nGlobal + m..]
    {
      if |x| != |y| then Err(AssertionFailed("features and labels differ in length"))
      else if |x| <= nGlobal then Err(AssertionFailed("not more rows than the global partition"))
      else if nSource + nTarget == 0 then Err(ZeroDivision)
      else
        var xp, yp := Gather(x, perm), Gather(y, perm);
        var m := SourceBlockSize(nSource, nTarget, |x| - nGlobal);
        var g, s := nGlobal, nGlobal + m;
        Ok(Triplet(xp[g..s], yp[g..s], xp[..g], yp[..g], xp[s..], yp[s..]))
    }

    /** Line 38: the bias vector, with the normalised random direction
        `bias_dir / norm(bias_dir)` given as `unitDir`. */
    function Bias(stds: seq<real>, unitDir: seq<real>): (b: seq<real>)
      requires |unitDir| == |stds|
      ensures |b| == |stds|
      ensures forall i :: 0 <= i < |stds| && stds[i] != 0.0 ==> b[i] / stds[i] == biasDist * unitDir[i]
      ensures forall i :: 0 <= i < |stds| && stds[i] == 0.0 ==> b[i] == 0.0
    {
      seq(|stds|, i requires 0 <= i < |stds| => biasDist * stds[i] * unitDir[i])
    }

    /** Lines 40-43: the source and target sampling densities, around centres
        on either side of the pool mean `center`, with standard deviations
        the pool's `stds` scaled by the configured scales. */
    function Densities(center: seq<real>, stds: seq<real>, unitDir: seq<real>): (r: (Gaussian, Gaussian))
      requires |stds| == |center| && |unitDir| == |center|
      ensures var (s, t) := r;
        && |s.mean| == |center| && |t.mean| == |center|
        && |s.std| == |center| && |t.std| == |center|
        && forall i :: 0 <= i < |center| ==>
             && s.mean[i] - t.mean[i] == Bias(stds, unitDir)[i]
             && (s.mean[i] + t.mean[i]) / 2.0 == center[i]
             && s.std[i] == stds[i] * sourceScale
             && t.std[i] == stds[i] * targetScale
    {
      var bias := Bias(stds, unitDir);
      var n := |center|;
      (Gaussian(seq(n, i requires 0 <= i < n => center[i] + 0.5 * bias[i]),
                seq(n, i requires 0 <= i < n => stds[i] * sourceScale)),
       Gaussian(seq(n, i requires 0 <= i < n => center[i] - 0.5 * bias[i]),
                seq(n, i requires 0 <= i < n => stds[i] * targetScale)))
    }

    /** `select` (lines 29-47).  The pool's column means `center` and
        standard deviations `stds` are given, as are numpy's permutation, the
        normalised bias direction and the draws of the two samplings. */
    function Select<T, L>(x: seq<T>, y: seq<L>, perm: seq<nat>,
                          center: seq<real>, stds: seq<real>, unitDir: seq<real>,
                          sourceDraws: seq<nat>, targetDraws: seq<nat>): (r: Result<Triplet<T, L>>)
      requires IsPermutation(perm, |x|)
      requires |stds| == |center| && |unitDir| == |center|
      requires nSource <= |sourceDraws| && nTarget <= |targetDraws|
      ensures r.Err? <==>
        || MakeSplit(x, y, perm).Err?
        || (var m := SourceBlockSize(nSource, nTarget, |x| - nGlobal);
            m == 0 || |x| - nGlobal - m == 0)
      ensures r.Ok? ==>
        var p := MakeSplit(x, y, perm).value;
        && r.value.xg == p.xg && r.value.yg == p.yg
        && |r.value.xs| == nSource && |r.value.ys| == nSource
        && |r.value.xg| == nGlobal && |r.value.yg| == nGlobal
        && |r.value.xt| == nTarget && |r.value.yt| == nTarget
        && PairedCopies(r.value.xs, r.value.ys, p.xs, p.ys)
        && PairedCopies(r.value.xt, r.value.yt, p.xt, p.yt)
    {
      match MakeSplit(x, y, perm)
      case Err(e) => Err(e)
      case Ok(p) =>
        var (sourceDensity, targetDensity) := Densities(center, stds, unitDir);
        match SampleBiased(p.xs, p.ys, nSource, sourceDensity, sourceDraws)
        case Err(e) => Err(e)
        case Ok((xs, ys)) =>
          match SampleBiased(p.xt, p.yt, nTarget, targetDensity, targetDraws)
          case Err(e) => Err(e)
          case Ok((xt, yt)) => Ok(Triplet(xs, ys, p.xg, p.yg, xt, yt))
    }
  }

  /** Asking for no source rows, or for no target rows, always fails once
      the split succeeds: with `n_source == 0` the source block is empty,
      and with `n_target == 0` the source block takes the whole remainder
      and the target block is empty. */
  lemma EmptyPartitionFails<T, L>(sel: Selector, x: seq<T>, y: seq<L>, perm: seq<nat>,
                                  center: seq<real>, stds: seq<real>, unitDir: seq<real>,
                                  sourceDraws: seq<nat>, targetDraws: seq<nat>)
    requires IsPermutation(perm, |x|)
    requires |stds| == |center| && |unitDir| == |center|
    requires sel.nSource <= |sourceDraws| && sel.nTarget <= |targetDraws|
    requires sel.nSource == 0 || sel.nTarget == 0
    ensures sel.Select(x, y, perm, center, stds, unitDir, sourceDraws, targetDraws).Err?
  {
    if sel.nSource + sel.nTarget > 0 && |x| > sel.nGlobal {
      BlockSizeExtremes(sel.nSource, sel.nTarget, |x| - sel.nGlobal);
    }
  }

  /** No source share gives an empty source block; no target share gives
      the whole remainder to the source block. */
  lemma BlockSizeExtremes(nSource: nat, nTarget: nat, rest: nat)
    requires nSource + nTarget > 0
    ensures nSource == 0 ==> SourceBlockSize(nSource, nTarget, rest) == 0
    ensures nTarget == 0 ==> SourceBlockSize(nSource, nTarget, rest) == rest
  {
    var m := SourceBlockSize(nSource, nTarget, rest);
    if nTarget == 0 {
      MulCancel(rest, m, nSource, nSource * rest);
    }
  }

  /** The three blocks of `_make_split` take the original rows perm[0..g),
      perm[g..s) and perm[s..n): no original row is in two blocks and every
      original row is in one. */
  lemma SplitPartitionsRows(perm: seq<nat>, n: nat, g: nat, s: nat)
    requires IsPermutation(perm, n) && g <= s <= n
    ensures forall i, j :: 0 <= i < g <= j < n ==> perm[i] != perm[j]
    ensures forall i, j :: g <= i < s <= j < n ==> perm[i] != perm[j]
    ensures forall v :: 0 <= v < n ==> v in perm[..g] || v in perm[g..s] || v in perm[s..]
  {
    PermutationCovers(perm, n);
    forall v | 0 <= v < n ensures v in perm[..g] || v in perm[g..s] || v in perm[s..] {
      assert v in perm;
      var k :| 0 <= k < n && perm[k] == v;
      if k < g { assert perm[..g][k] == v; }
      else if k < s { assert perm[g..s][k - g] == v; }
      else { assert perm[s..][k - s] == v; }
    }
  }

  /** The three blocks of `_make_split`, in the order global, source,
      target, are the whole permuted pool. */
  lemma SplitCoversPool<T, L>(sel: Selector, x: seq<T>, y: seq<L>, perm: seq<nat>)
    requires IsPermutation(perm, |x|)
    requires sel.MakeSplit(x, y, perm).Ok?
    ensures
      var p := sel.MakeSplit(x, y, perm).value;
      p.xg + p.xs + p.xt == Gather(x, perm) && p.yg + p.ys + p.yt == Gather(y, perm)
  {
    var p := sel.MakeSplit(x, y, perm).value;
    var xp, yp := Gather(x, perm), Gather(y, perm);
    var g := sel.nGlobal;
    var s := g + |p.xs|;
    assert xp == xp[..g] + xp[g..s] + xp[s..];
    assert yp == yp[..g] + yp[g..s] + yp[s..];
  }

  /** Row k of every block of `_make_split` is one original row with its own
      label: features and labels are permuted together. */
  lemma SplitKeepsLabels<T, L>(sel: Selector, x: seq<T>, y: seq<L>, perm: seq<nat>)
    requires IsPermutation(perm, |x|)
    requires sel.MakeSplit(x, y, perm).Ok?
    ensures
      var p := sel.MakeSplit(x, y, perm).value;
      var g := sel.nGlobal;
      var s := g + |p.xs|;
      && (forall k :: 0 <= k < |p.xg| ==> p.xg[k] == x[perm[k]] && p.yg[k] == y[perm[k]])
      && (forall k :: 0 <= k < |p.xs| ==> p.xs[k] == x[perm[g + k]] && p.ys[k] == y[perm[g + k]])
      && (forall k :: 0 <= k < |p.xt| ==> p.xt[k] == x[perm[s + k]] && p.yt[k] == y[perm[s + k]])
  {
  }
}

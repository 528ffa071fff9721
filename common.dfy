/** Shared vocabulary of the model: errors raised by Python and numpy, the
    six-array dataset triplet, numpy's integer-array indexing and the two ways
    numpy.random.choice draws from a population.  Randomness is never
    generated here: every random outcome is an explicit input (a permutation
    or a sequence of raw draws). */
module Common {

  /** The exceptions the modelled code can raise. */
  datatype Error =
    | AssertionFailed(what: string)     // a Python `assert` that does not hold
    | IndexOutOfRange                   // numpy IndexError
    | EmptyChoice                       // numpy.random.choice from an empty population with a non-zero size
    | SampleLargerThanPopulation        // numpy.random.choice(replace=False) asked for more than there is
    | ProbabilitiesNotNormalised        // numpy.random.choice with weights `p` that do not sum to 1
    | ZeroDivision                      // Python ZeroDivisionError

  datatype Result<T> = Ok(value: T) | Err(error: Error)

  /** A value that may be absent: a Python `None`, or a floating-point NaN. */
  datatype Option<T> = None | Some(value: T)

  /** A dataset triplet in the order every selector returns it:
      (xs, ys, xg, yg, xt, yt), s = source, g = global, t = target. */
  datatype Triplet<T, L> = Triplet(xs: seq<T>, ys: seq<L>, xg: seq<T>, yg: seq<L>, xt: seq<T>, yt: seq<L>)

  predicate InRange(idx: seq<nat>, n: nat) {
    forall k :: 0 <= k < |idx| ==> idx[k] < n
  }

  predicate Distinct<T(==)>(s: seq<T>) {
    forall i, j :: 0 <= i < j < |s| ==> s[i] != s[j]
  }

  /** `p` is a permutation of 0 .. n-1, as numpy.random.permutation(n) returns. */
  predicate IsPermutation(p: seq<nat>, n: nat) {
    |p| == n && InRange(p, n) && Distinct(p)
  }

  /** numpy integer-array indexing `xs[idx]`. */
  function Gather<T>(xs: seq<T>, idx: seq<nat>): (r: seq<T>)
    requires InRange(idx, |xs|)
    ensures |r| == |idx|
    ensures forall k :: 0 <= k < |idx| ==> r[k] == xs[idx[k]]
  {
    seq(|idx|, k requires 0 <= k < |idx| => xs[idx[k]])
  }

  /** numpy.random.choice(a, m) with replacement.  The k-th raw draw
      `draws[k]` selects position `draws[k] % |a|`, so every outcome numpy can
      produce is the outcome of some sequence of draws.  numpy refuses an
      empty population unless nothing is asked for. */
  function ChoiceWithReplacement<T(==)>(a: seq<T>, m: nat, draws: seq<nat>): (r: Result<seq<T>>)
    requires m <= |draws|
    ensures r.Err? <==> |a| == 0 && m > 0
    ensures r.Err? ==> r.error == EmptyChoice
    ensures r.Ok? ==> |r.value| == m && forall k :: 0 <= k < m ==> r.value[k] in a
  {
    if |a| == 0 && m > 0 then Err(EmptyChoice)
    else if m == 0 then Ok([])
    else Ok(seq(m, k requires 0 <= k < m => a[draws[k] % |a|]))
  }

  /** numpy.random.choice(a, m, replace=False): numpy takes the first m
      entries of a random permutation of the positions of `a`, which is
      given here as `perm`. */
  function ChoiceWithoutReplacement<T(==)>(a: seq<T>, m: nat, perm: seq<nat>): (r: Result<seq<T>>)
    requires IsPermutation(perm, |a|)
    ensures r.Err? <==> m > |a|
    ensures r.Ok? ==> |r.value| == m && forall k :: 0 <= k < m ==> r.value[k] in a
    ensures r.Ok? && Distinct(a) ==> Distinct(r.value)
  {
    if m > |a| then Err(SampleLargerThanPopulation)
    else
      var picked := Gather(a, perm[..m]);
      assert Distinct(a) ==> Distinct(picked) by {
        if Distinct(a) {
          forall i, j | 0 <= i < j < m ensures picked[i] != picked[j] {
            assert perm[i] != perm[j];
          }
        }
      }
      Ok(picked)
  }

  /** 0, 1, ..., n-1, as numpy.arange(n). */
  function Range(n: nat): (r: seq<nat>)
    ensures |r| == n
    ensures forall k :: 0 <= k < n ==> r[k] == k
  {
    seq(n, k requires 0 <= k < n => k)
  }

  /** The set of the elements of a sequence. */
  ghost function Elements<T>(s: seq<T>): set<T> {
    set v | v in s
  }

  /** A sequence without repetitions has as many elements as its set. */
  lemma {:induction false} DistinctCard<T>(s: seq<T>)
    requires Distinct(s)
    ensures |Elements(s)| == |s|
  {
    if s != [] {
      DistinctCard(s[1..]);
      assert Elements(s) == {s[0]} + Elements(s[1..]);
      assert s[0] !in s[1..];
    }
  }

  lemma SubsetCard<T>(a: set<T>, b: set<T>)
    requires a <= b
    ensures |a| <= |b|
  {
    assert b == a + (b - a);
    assert a * (b - a) == {};
  }

  /** A permutation of 0 .. n-1 contains every one of them. */
  lemma PermutationCovers(p: seq<nat>, n: nat)
    requires IsPermutation(p, n)
    ensures forall i :: 0 <= i < n ==> i in p
  {
    var values: set<nat> := Elements<nat>(p);
    var all: set<nat> := Elements<nat>(Range(n));
    DistinctCard<nat>(p);
    assert |values| == n;
    DistinctCard<nat>(Range(n));
    assert |all| == n;
    forall v | v in values ensures v in all {
      assert Range(n)[v] == v;
    }
    forall i | 0 <= i < n ensures i in p {
      if i !in p {
        assert Range(n)[i] == i;
        assert i in all && i !in values;
        assert values <= all - {i};
        assert |all - {i}| == |all| - 1;
        SubsetCard(values, all - {i});
        assert false;
      }
    }
  }
}

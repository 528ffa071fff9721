/** Domain-biased selection (datagen/conceptshift/selector.py): the global
    partition is a prefix of the pool, the source and target partitions are
    drawn from the rest, each from its own randomly chosen set of domains. */
module DomainSelection {
  import opened Common

  predicate StrictlyIncreasing(s: seq<int>) {
    forall i, j :: 0 <= i < j < |s| ==> s[i] < s[j]
  }

  /** Inserts `v` into a strictly increasing sequence, keeping it so. */
  function InsertSorted(v: int, s: seq<int>): (r: seq<int>)
    requires StrictlyIncreasing(s)
    ensures StrictlyIncreasing(r)
    ensures forall w :: w in r <==> w == v || w in s
  {
    if s == [] then [v]
    else if v < s[0] then [v] + s
    else if v == s[0] then s
    else
      var rest := InsertSorted(v, s[1..]);
      assert forall w :: w in rest ==> s[0] < w;
      var r := [s[0]] + rest;
      assert forall j :: 0 < j < |r| ==> r[j] == rest[j - 1] && r[j] in rest;
      r
  }

  /** numpy.unique: the distinct values of `d` in ascending order. */
  function Unique(d: seq<int>): (u: seq<int>)
    ensures StrictlyIncreasing(u)
    ensures forall v :: v in u <==> v in d
  {
    if d == [] then [] else InsertSorted(d[|d| - 1], Unique(d[..|d| - 1]))
  }

  /** `[v for v in a if v not in b]`, keeping the order of `a`. */
  function Without(a: seq<int>, b: seq<int>): (r: seq<int>)
    ensures forall v :: v in r <==> v in a && v !in b
    ensures Distinct(a) ==> Distinct(r)
  {
    if a == [] then []
    else if a[0] in b then Without(a[1..], b)
    else
      var rest := Without(a[1..], b);
      assert Distinct(a) ==> a[0] !in a[1..];
      [a[0]] + rest
  }

  /** Removing the chosen source domains leaves exactly the others. */
  lemma WithoutLength(a: seq<int>, b: seq<int>)
    requires Distinct(a) && Distinct(b)
    requires forall v :: v in b ==> v in a
    ensures |Without(a, b)| == |a| - |b|
  {
    var r := Without(a, b);
    DistinctCard(a);
    DistinctCard(b);
    DistinctCard(r);
    assert Elements(r) == Elements(a) - Elements(b);
    assert Elements(b) <= Elements(a);
  }

  /** Line 6: the positions i in [0, n) whose domain is requested. */
  function Eligible(domain: seq<int>, wanted: seq<int>, n: nat): (r: seq<nat>)
    requires n <= |domain|
    ensures |r| <= n
    ensures forall k :: 0 <= k < |r| ==> r[k] < n && domain[r[k]] in wanted
    ensures forall i :: 0 <= i < n && domain[i] in wanted ==> i in r
    ensures forall k, l :: 0 <= k < l < |r| ==> r[k] < r[l]
  {
    if n == 0 then []
    else Eligible(domain, wanted, n - 1) + (if domain[n - 1] in wanted then [n - 1] else [])
  }

  /** The index list of `_select_biased` (lines 6-11).  Only the first n
      positions are scanned, so the eligible list never has more than n
      entries and the truncation of lines 7-8 never applies; the model has
      only the top-up branch.  Scanning past the end of `domain` is numpy's
      IndexError; topping up from an empty eligible list is numpy's
      ValueError. */
  function BiasedIndices(domain: seq<int>, n: nat, wanted: seq<int>, draws: seq<nat>): (r: Result<seq<nat>>)
    requires n <= |draws|
    ensures r.Err? <==> n > |domain| || (n > 0 && forall i :: 0 <= i < n ==> domain[i] !in wanted)
    ensures r.Ok? ==> |r.value| == n
    ensures r.Ok? ==> forall k :: 0 <= k < n ==> r.value[k] < n && domain[r.value[k]] in wanted
    ensures r.Ok? ==>
      var e := Eligible(domain, wanted, n);
      r.value[..|e|] == e && forall k :: |e| <= k < n ==> r.value[k] in e
  {
    if n > |domain| then Err(IndexOutOfRange)
    else
      var idx := Eligible(domain, wanted, n);
      EligibleEmpty(domain, wanted, n);
      match ChoiceWithReplacement(idx, n - |idx|, draws)
      case Err(e) => Err(e)
      case Ok(rands) =>
        TopUp(idx, rands);
        Ok(idx + rands)
  }

  /** No position is eligible exactly when the scan finds none. */
  lemma EligibleEmpty(domain: seq<int>, wanted: seq<int>, n: nat)
    requires n <= |domain|
    ensures Eligible(domain, wanted, n) == [] <==> forall i :: 0 <= i < n ==> domain[i] !in wanted
  {
    var e := Eligible(domain, wanted, n);
    if e != [] {
      assert e[0] < n && domain[e[0]] in wanted;
    }
  }

  /** The eligible list followed by the top-ups. */
  lemma TopUp(idx: seq<nat>, rands: seq<nat>)
    ensures (idx + rands)[..|idx|] == idx
    ensures forall k :: |idx| <= k < |idx| + |rands| ==> (idx + rands)[k] == rands[k - |idx|]
  {
  }

  /** Only the first n positions of the remainder are scanned: when they
      hold no eligible row the selection fails, even if the next n
      positions are all eligible. */
  lemma ScanMissesLaterRows(domain: seq<int>, n: nat, wanted: seq<int>, draws: seq<nat>)
    requires 0 < n <= |draws| && 2 * n <= |domain|
    requires forall i :: 0 <= i < n ==> domain[i] !in wanted
    requires forall i :: n <= i < 2 * n ==> domain[i] in wanted
    ensures BiasedIndices(domain, n, wanted, draws).Err?
  {
  }

  /** `_select_biased`: features and labels are indexed by the same list, so
      row k of both comes from the same position. */
  function SelectBiased<T, L>(x: seq<T>, y: seq<L>, domain: seq<int>, n: nat,
                              wanted: seq<int>, draws: seq<nat>): (r: Result<(seq<T>, seq<L>)>)
    requires |x| == |domain| && |y| == |domain| && n <= |draws|
    ensures r.Ok? <==> BiasedIndices(domain, n, wanted, draws).Ok?
    ensures r.Err? ==> r.error == BiasedIndices(domain, n, wanted, draws).error
    ensures r.Ok? ==>
      var idx := BiasedIndices(domain, n, wanted, draws).value;
      |r.value.0| == n && |r.value.1| == n &&
      forall k :: 0 <= k < n ==> r.value.0[k] == x[idx[k]] && r.value.1[k] == y[idx[k]]
  {
    match BiasedIndices(domain, n, wanted, draws)
    case Err(e) => Err(e)
    case Ok(idx) => Ok((Gather(x, idx), Gather(y, idx)))
  }

  /** Lines 49-51: the source domains are drawn without replacement from all
      domains, the target domains without replacement from those left. */
  function ChooseDomains(domains: seq<int>, nSource: nat, nTarget: nat,
                         sourcePerm: seq<nat>, targetPerm: seq<nat>): (r: Result<(seq<int>, seq<int>)>)
    requires Distinct(domains)
    requires IsPermutation(sourcePerm, |domains|)
    requires nSource <= |domains| ==> IsPermutation(targetPerm, |domains| - nSource)
    ensures r.Err? <==> nSource + nTarget > |domains|
    ensures r.Ok? ==>
      var (s, t) := r.value;
      && |s| == nSource && |t| == nTarget
      && Distinct(s) && Distinct(t)
      && (forall v :: v in s ==> v in domains)
      && (forall v :: v in t ==> v in domains)
      && (forall v :: v in s ==> v !in t)
  {
    match ChoiceWithoutReplacement(domains, nSource, sourcePerm)
    case Err(e) => Err(e)
    case Ok(s) =>
      var remaining := Without(domains, s);
      WithoutLength(domains, s);
      match ChoiceWithoutReplacement(remaining, nTarget, targetPerm)
      case Err(e) => Err(e)
      case Ok(t) => Ok((s, t))
  }

  /** Rows `xs`/`ys` are the pool rows at positions `ng + idx[k]`, with
      their own labels. */
  ghost predicate RowsAt<T, L>(x: seq<T>, y: seq<L>, ng: nat, idx: seq<nat>, xs: seq<T>, ys: seq<L>)
    requires |y| == |x|
  {
    && |xs| == |idx| && |ys| == |idx|
    && forall k :: 0 <= k < |idx| ==> ng + idx[k] < |x| && xs[k] == x[ng + idx[k]] && ys[k] == y[ng + idx[k]]
  }

  /** Every position `ng + idx[k]` lies in the pool and holds a row of one
      of the `wanted` domains.  The offset `ng` places all of them past the
      global prefix. */
  predicate PositionsFrom(domain: seq<int>, ng: nat, wanted: seq<int>, idx: seq<nat>) {
    forall k :: 0 <= k < |idx| ==> ng + idx[k] < |domain| && domain[ng + idx[k]] in wanted
  }

  /** Rows taken from disjoint domain sets come from different positions. */
  lemma DisjointDomainsDisjointPositions(domain: seq<int>, ng: nat, s: seq<int>, t: seq<int>,
                                         src: seq<nat>, tgt: seq<nat>)
    requires forall v :: v in s ==> v !in t
    requires PositionsFrom(domain, ng, s, src) && PositionsFrom(domain, ng, t, tgt)
    ensures forall k, l :: 0 <= k < |src| && 0 <= l < |tgt| ==> src[k] != tgt[l]
  {
    forall k, l | 0 <= k < |src| && 0 <= l < |tgt| ensures src[k] != tgt[l] {
      var v := domain[ng + src[k]];
      assert v in s && domain[ng + tgt[l]] in t;
      assert v !in t;
    }
  }

  /** The configuration of a DomainSelector, set once by its constructor. */
  datatype DomainSelector = DomainSelector(nGlobal: nat, nSource: nat, nTarget: nat,
                                           nDomainsSource: nat, nDomainsTarget: nat)
  {
    /** `select` (lines 35-61).  The two permutations are numpy's draws for
        the two domain choices, the two draw sequences those for the top-ups
        of the source and the target partition. */
    function Select<T, L>(x: seq<T>, y: seq<L>, domain: seq<int>,
                          sourcePerm: seq<nat>, targetPerm: seq<nat>,
                          sourceDraws: seq<nat>, targetDraws: seq<nat>): (r: Result<Triplet<T, L>>)
      requires |y| == |x| && |domain| == |x|
      requires IsPermutation(sourcePerm, |Unique(domain)|)
      requires nDomainsSource <= |Unique(domain)| ==>
                 IsPermutation(targetPerm, |Unique(domain)| - nDomainsSource)
      requires nSource <= |sourceDraws| && nTarget <= |targetDraws|
      ensures nDomainsSource + nDomainsTarget > |Unique(domain)| || |x| < nGlobal + 2 ==>
                r.Err? && r.error.AssertionFailed?
      ensures r.Ok? ==> r.value.xg == x[..nGlobal] && r.value.yg == y[..nGlobal]
      ensures r.Ok? ==>
        && |r.value.xs| == nSource && |r.value.ys| == nSource
        && |r.value.xt| == nTarget && |r.value.yt| == nTarget
    {
      var domains := Unique(domain);
      if nDomainsSource + nDomainsTarget > |domains| then Err(AssertionFailed("not enough domains"))
      else if |x| < nGlobal + 2 then Err(AssertionFailed("not enough rows"))
      else
        match ChooseDomains(domains, nDomainsSource, nDomainsTarget, sourcePerm, targetPerm)
        case Err(e) => Err(e)
        case Ok((sourceDomains, targetDomains)) =>
          SelectFromDomains(x, y, domain, sourceDomains, targetDomains, sourceDraws, targetDraws)
    }

    /** Lines 53-61, once the domains are chosen: the global partition is the
        first nGlobal rows; source and target are selected from the rest,
        from the rows of `s` and of `t` respectively. */
    function SelectFromDomains<T, L>(x: seq<T>, y: seq<L>, domain: seq<int>, s: seq<int>, t: seq<int>,
                                     sourceDraws: seq<nat>, targetDraws: seq<nat>): (r: Result<Triplet<T, L>>)
      requires |y| == |x| && |domain| == |x| && nGlobal <= |x|
      requires nSource <= |sourceDraws| && nTarget <= |targetDraws|
      ensures r.Ok? <==> BiasedIndices(domain[nGlobal..], nSource, s, sourceDraws).Ok? &&
                         BiasedIndices(domain[nGlobal..], nTarget, t, targetDraws).Ok?
      ensures r.Ok? ==> r.value.xg == x[..nGlobal] && r.value.yg == y[..nGlobal]
      ensures r.Ok? ==>
        var src := BiasedIndices(domain[nGlobal..], nSource, s, sourceDraws).value;
        var tgt := BiasedIndices(domain[nGlobal..], nTarget, t, targetDraws).value;
        && |src| == nSource && |tgt| == nTarget
        && PositionsFrom(domain, nGlobal, s, src) && RowsAt(x, y, nGlobal, src, r.value.xs, r.value.ys)
        && PositionsFrom(domain, nGlobal, t, tgt) && RowsAt(x, y, nGlobal, tgt, r.value.xt, r.value.yt)
    {
      var xg, yg := x[..nGlobal], y[..nGlobal];
      var x', y', domain' := x[nGlobal..], y[nGlobal..], domain[nGlobal..];
      match SelectBiased(x', y', domain', nSource, s, sourceDraws)
      case Err(e) => Err(e)
      case Ok((xs, ys)) =>
        match SelectBiased(x', y', domain', nTarget, t, targetDraws)
        case Err(e) => Err(e)
        case Ok((xt, yt)) => Ok(Triplet(xs, ys, xg, yg, xt, yt))
    }
  }

  /** A successful `select` puts in source and target only rows past the
      global prefix, from the source domains and from the target domains
      respectively, with their own labels, and no position feeds both
      partitions.  Past its assertions, `select` fails exactly when one of
      the two partitions has no eligible row among its first n, or is larger
      than the remainder. */
  lemma SelectPartitions<T, L>(sel: DomainSelector, x: seq<T>, y: seq<L>, domain: seq<int>,
                               sourcePerm: seq<nat>, targetPerm: seq<nat>,
                               sourceDraws: seq<nat>, targetDraws: seq<nat>)
    requires |y| == |x| && |domain| == |x|
    requires IsPermutation(sourcePerm, |Unique(domain)|)
    requires sel.nDomainsSource <= |Unique(domain)| ==>
               IsPermutation(targetPerm, |Unique(domain)| - sel.nDomainsSource)
    requires sel.nSource <= |sourceDraws| && sel.nTarget <= |targetDraws|
    requires sel.nDomainsSource + sel.nDomainsTarget <= |Unique(domain)| && |x| >= sel.nGlobal + 2
    ensures ChooseDomains(Unique(domain), sel.nDomainsSource, sel.nDomainsTarget, sourcePerm, targetPerm).Ok?
    ensures
      var r := sel.Select(x, y, domain, sourcePerm, targetPerm, sourceDraws, targetDraws);
      var (s, t) := ChooseDomains(Unique(domain), sel.nDomainsSource, sel.nDomainsTarget, sourcePerm, targetPerm).value;
      var src := BiasedIndices(domain[sel.nGlobal..], sel.nSource, s, sourceDraws);
      var tgt := BiasedIndices(domain[sel.nGlobal..], sel.nTarget, t, targetDraws);
      && (r.Ok? <==> src.Ok? && tgt.Ok?)
      && (r.Ok? ==>
            && PositionsFrom(domain, sel.nGlobal, s, src.value)
            && RowsAt(x, y, sel.nGlobal, src.value, r.value.xs, r.value.ys)
            && PositionsFrom(domain, sel.nGlobal, t, tgt.value)
            && RowsAt(x, y, sel.nGlobal, tgt.value, r.value.xt, r.value.yt)
            && (forall k, l :: 0 <= k < |src.value| && 0 <= l < |tgt.value| ==> src.value[k] != tgt.value[l]))
  {
    var (s, t) := ChooseDomains(Unique(domain), sel.nDomainsSource, sel.nDomainsTarget, sourcePerm, targetPerm).value;
    var r := sel.Select(x, y, domain, sourcePerm, targetPerm, sourceDraws, targetDraws);
    assert r == sel.SelectFromDomains(x, y, domain, s, t, sourceDraws, targetDraws);
    if r.Ok? {
      DisjointDomainsDisjointPositions(domain, sel.nGlobal, s, t,
        BiasedIndices(domain[sel.nGlobal..], sel.nSource, s, sourceDraws).value,
        BiasedIndices(domain[sel.nGlobal..], sel.nTarget, t, targetDraws).value);
    }
  }
}

/**
 * The non-stationary multi-armed bandit testbed of 2.5/testbed.py.
 *
 * The environment is a list of arms whose means drift each time they are pulled;
 * an agent keeps one estimate per arm, picks an arm (greedily, or at random with
 * probability epsilon) and folds the reward into that arm's estimate; `RunTest`
 * repeats this for `runs` runs of `steps` steps and averages the records per step.
 *
 * Every random draw of the script is an explicit input: one `Draw` per step of
 * each run.  Floats are modelled as `real`.
 */
module Testbed {
  import opened Wrappers

  /** The ground truth of one arm. Only `mean` ever changes. */
  datatype Arm = Arm(mean: real, variance: real)

  /** The agent's record for one arm: its current estimate and the number of rewards seen. */
  datatype Estimate = Estimate(value: real, rewards: nat)

  /**
   * The update rule of the agent: `SampleAverage` for `SampleAverageArms`,
   * `ConstantStep` for `EpsilonGreedy` (constant step size with exploration).
   */
  datatype Rule = SampleAverage | ConstantStep(stepSize: real, epsilon: real)

  /** The exceptions the script can raise. */
  datatype Error = NotImplemented | IndexError | ZeroDivisionError

  /** A value of `random.random()`. */
  type Uniform = u: real | 0.0 <= u < 1.0

  /** A value of `random.randint(0, 9)`. */
  type Digit = d: int | 0 <= d <= 9

  /**
   * What one step reads from the random source: the exploration draw, the arm
   * drawn when exploring, which of the tied maxima the shuffle puts first, the
   * reward sampled from the pulled arm, and the drift added to its mean.
   */
  datatype Draw = Draw(uniform: Uniform, randomArm: Digit, tieBreak: nat, sample: real, drift: real)

  // ---------------------------------------------------------------------------
  // Tie-aware arg-max (the scans of _get_optimal_action and both pick_action)
  // ---------------------------------------------------------------------------

  /** `i` is an index of `xs` whose value no other entry exceeds. */
  predicate IsMax(xs: seq<real>, i: int)
  {
    0 <= i < |xs| && forall j :: 0 <= j < |xs| ==> xs[j] <= xs[i]
  }

  /** The indices below `n` at which `xs` is maximal, in increasing order. */
  function MaximaBelow(xs: seq<real>, n: nat): seq<nat>
    requires n <= |xs|
  {
    if n == 0 then []
    else MaximaBelow(xs, n - 1) + (if IsMax(xs, n - 1) then [n - 1] else [])
  }

  /** All indices at which `xs` is maximal, in increasing order. */
  function Maxima(xs: seq<real>): seq<nat>
  {
    MaximaBelow(xs, |xs|)
  }

  lemma {:induction false} MaximaBelowMembers(xs: seq<real>, n: nat)
    requires n <= |xs|
    ensures forall k :: k in MaximaBelow(xs, n) <==> 0 <= k < n && IsMax(xs, k)
    ensures forall i, j :: 0 <= i < j < |MaximaBelow(xs, n)| ==> MaximaBelow(xs, n)[i] < MaximaBelow(xs, n)[j]
  {
    if n > 0 {
      MaximaBelowMembers(xs, n - 1);
      var b := MaximaBelow(xs, n - 1);
      var c := MaximaBelow(xs, n);
      assert c == b + (if IsMax(xs, n - 1) then [n - 1] else []);
      forall i | 0 <= i < |b|
        ensures b[i] < n - 1
      {
        assert b[i] in b;
      }
      forall i, j | 0 <= i < j < |c|
        ensures c[i] < c[j]
      {
        if j < |b| {
          assert c[i] == b[i] && c[j] == b[j];
        } else {
          assert c[i] == b[i] && c[j] == n - 1;
        }
      }
    }
  }

  /** A non-empty sequence has a maximal entry. */
  lemma {:induction false} MaxExists(xs: seq<real>) returns (k: nat)
    requires |xs| > 0
    ensures IsMax(xs, k)
  {
    var n := |xs|;
    if n == 1 {
      k := 0;
    } else {
      var p := xs[..n - 1];
      var m := MaxExists(p);
      if xs[n - 1] <= xs[m] {
        k := m;
        assert forall j :: 0 <= j < n - 1 ==> xs[j] == p[j];
      } else {
        k := n - 1;
        assert forall j :: 0 <= j < n - 1 ==> xs[j] == p[j] <= p[m];
      }
    }
  }

  /**
   * The arg-max set: exactly the maximal indices, each once (in increasing
   * order), and non-empty whenever there is at least one entry.
   */
  lemma MaximaSpec(xs: seq<real>)
    ensures forall k :: k in Maxima(xs) <==> IsMax(xs, k)
    ensures forall i, j :: 0 <= i < j < |Maxima(xs)| ==> Maxima(xs)[i] < Maxima(xs)[j]
    ensures |Maxima(xs)| > 0 <==> |xs| > 0
  {
    MaximaBelowMembers(xs, |xs|);
    if |xs| > 0 {
      var k := MaxExists(xs);
      assert k in Maxima(xs);
    }
  }

  /** With a single strictly largest entry `k`, the arg-max set is exactly `[k]`. */
  lemma UniqueMaximum(xs: seq<real>, k: nat)
    requires k < |xs|
    requires forall j :: 0 <= j < |xs| && j != k ==> xs[j] < xs[k]
    ensures Maxima(xs) == [k]
  {
    assert IsMax(xs, k);
    forall i | 0 <= i < |xs| && i != k ensures !IsMax(xs, i) {
      assert xs[i] < xs[k];
    }
    NoMaximaBetween(xs, 0, k);
    NoMaximaBetween(xs, k + 1, |xs|);
  }

  lemma {:induction false} MaximaBelowCongruent(a: seq<real>, b: seq<real>, n: nat)
    requires n <= |a| && n <= |b|
    requires forall k :: 0 <= k < n ==> (IsMax(a, k) <==> IsMax(b, k))
    ensures MaximaBelow(a, n) == MaximaBelow(b, n)
  {
    if n > 0 {
      MaximaBelowCongruent(a, b, n - 1);
    }
  }

  /**
   * How the arg-max set of a prefix grows by one entry, following the scan's
   * three cases against the value of the first index kept so far.
   */
  lemma MaximaAppend(p: seq<real>, y: real)
    requires |p| > 0
    ensures |Maxima(p)| > 0 && Maxima(p)[0] < |p|
    ensures Maxima(p + [y]) ==
      if p[Maxima(p)[0]] < y then [|p|]
      else if p[Maxima(p)[0]] == y then Maxima(p) + [|p|]
      else Maxima(p)
  {
    MaximaSpec(p);
    var b := Maxima(p);
    assert b[0] in b;
    var v := p[b[0]];
    var q := p + [y];
    var n := |p|;
    assert forall k :: 0 <= k < n ==> q[k] == p[k];
    assert q[n] == y;
    if v < y {
      forall k | 0 <= k < n ensures !IsMax(q, k) {
        assert q[k] <= v < q[n];
      }
      NoMaximaBetween(q, 0, n);
      assert IsMax(q, n);
    } else {
      assert forall k :: 0 <= k < n ==> (IsMax(q, k) <==> IsMax(p, k)) by {
        forall k | 0 <= k < n ensures IsMax(q, k) <==> IsMax(p, k) {
          if IsMax(p, k) {
            assert p[k] >= v;
            assert q[n] <= q[k];
          }
          if IsMax(q, k) {
            assert forall j :: 0 <= j < n ==> p[j] == q[j] <= q[k];
          }
        }
      }
      MaximaBelowCongruent(q, p, n);
      if v == y {
        assert IsMax(q, n) by {
          assert forall j :: 0 <= j < n ==> q[j] == p[j] <= v;
        }
      } else {
        assert !IsMax(q, n) by {
          assert q[b[0]] > q[n];
        }
      }
    }
  }

  /** Indices from `lo` up to `n` that are not maximal add nothing to the arg-max set. */
  lemma {:induction false} NoMaximaBetween(xs: seq<real>, lo: nat, n: nat)
    requires lo <= n <= |xs|
    requires forall k :: lo <= k < n ==> !IsMax(xs, k)
    ensures MaximaBelow(xs, n) == MaximaBelow(xs, lo)
  {
    if n > lo {
      NoMaximaBetween(xs, lo, n - 1);
    }
  }

  /** The first entry seen is the only maximum so far. */
  lemma MaximaOfOne(p: seq<real>, y: real)
    requires Maxima(p) == []
    ensures p == [] && Maxima(p + [y]) == [0]
  {
    MaximaSpec(p);
    var one := p + [y];
    assert |one| == 1 && IsMax(one, 0);
    assert MaximaBelow(one, 1) == MaximaBelow(one, 0) + [0];
  }

  /**
   * The scan of `_get_optimal_action` and `pick_action`: keep the list of
   * indices tied at the best value seen so far, restarting it on a strictly
   * larger value.  (The shuffle that follows is not part of the scan.)
   */
  method TiedMaxima(xs: seq<real>) returns (best: seq<nat>)
    ensures best == Maxima(xs)
  {
    best := [];
    for i := 0 to |xs|
      invariant best == Maxima(xs[..i])
    {
      assert xs[..i + 1] == xs[..i] + [xs[i]];
      if best == [] {
        MaximaOfOne(xs[..i], xs[i]);
        best := [i];
      } else {
        MaximaAppend(xs[..i], xs[i]);
        assert xs[..i][best[0]] == xs[best[0]];
        if xs[best[0]] < xs[i] {
          best := [i];
        } else if xs[best[0]] == xs[i] {
          best := best + [i];
        }
      }
    }
    assert xs[..|xs|] == xs;
  }

  // ---------------------------------------------------------------------------
  // Picking an action
  // ---------------------------------------------------------------------------

  /** The estimates of the agent, arm by arm. */
  function Values(est: seq<Estimate>): (vs: seq<real>)
    ensures |vs| == |est| && forall i :: 0 <= i < |est| ==> vs[i] == est[i].value
  {
    seq(|est|, i requires 0 <= i < |est| => est[i].value)
  }

  /**
   * The greedy choice: the tied maximum that the shuffle puts first, selected
   * by `tieBreak`; on an empty list `best_actions[0]` raises IndexError.
   */
  function Greedy(values: seq<real>, tieBreak: nat): (r: Result<nat, Error>)
    ensures r.Err? <==> |values| == 0
    ensures r.Ok? ==> r.value < |values|
  {
    if |values| == 0 then Err(IndexError)
    else
      MaximaSpec(values);
      var best := Maxima(values);
      assert best[tieBreak % |best|] in best;
      Ok(best[tieBreak % |best|])
  }

  /**
   * `pick_action` of both strategies: `SampleAverageArms` is always greedy;
   * `EpsilonGreedy` is greedy when the uniform draw exceeds epsilon and
   * otherwise returns `randint(0, 9)`, whatever the number of arms.
   */
  function Pick(rule: Rule, values: seq<real>, d: Draw): (r: Result<nat, Error>)
    ensures r.Err? <==> |values| == 0 && !(rule.ConstantStep? && d.uniform <= rule.epsilon)
    ensures r.Ok? && r.value >= |values| ==> rule.ConstantStep? && d.uniform <= rule.epsilon && r.value == d.randomArm
  {
    match rule
    case SampleAverage => Greedy(values, d.tieBreak)
    case ConstantStep(_, epsilon) =>
      if d.uniform > epsilon then Greedy(values, d.tieBreak) else Ok(d.randomArm)
  }

  /** A greedy pick is an arm whose estimate is at least every other estimate. */
  lemma GreedyIsMaximal(values: seq<real>, tieBreak: nat)
    ensures Greedy(values, tieBreak).Ok? <==> |values| > 0
    ensures Greedy(values, tieBreak).Ok? ==> IsMax(values, Greedy(values, tieBreak).value)
  {
    MaximaSpec(values);
    if |values| > 0 {
      var best := Maxima(values);
      assert best[tieBreak % |best|] in best;
    }
  }

  /** Every tied maximum is the greedy pick for some outcome of the shuffle. */
  lemma EveryTieReachable(values: seq<real>, k: nat)
    requires IsMax(values, k)
    ensures exists t: nat :: Greedy(values, t) == Ok(k)
  {
    MaximaSpec(values);
    var best := Maxima(values);
    var t :| 0 <= t < |best| && best[t] == k;
    assert t % |best| == t;
    assert Greedy(values, t) == Ok(k);
  }

  /**
   * The exploration branch of `EpsilonGreedy` is taken exactly when the draw is
   * at most epsilon, and then the pick is the drawn digit, in range or not.
   */
  lemma ExploresIffDrawAtMostEpsilon(stepSize: real, epsilon: real, values: seq<real>, d: Draw)
    ensures d.uniform <= epsilon ==> Pick(ConstantStep(stepSize, epsilon), values, d) == Ok(d.randomArm)
    ensures d.uniform > epsilon ==> Pick(ConstantStep(stepSize, epsilon), values, d) == Pick(SampleAverage, values, d)
  {
  }

  /** With fewer than ten arms, exploring can pick an arm that does not exist. */
  lemma ExplorationCanLeaveRange()
    ensures Pick(ConstantStep(0.1, 0.1), [0.0, 0.0, 0.0], Draw(0.05, 7, 0, 0.0, 0.0)) == Ok(7)
  {
  }

  /**
   * With epsilon 0 and one estimate strictly above the others, every pick whose
   * draw is positive returns that arm (a draw of exactly 0.0 still explores).
   */
  lemma GreedyWithUniqueBest(stepSize: real, values: seq<real>, k: nat, d: Draw)
    requires k < |values|
    requires forall j :: 0 <= j < |values| && j != k ==> values[j] < values[k]
    requires d.uniform > 0.0
    ensures Pick(ConstantStep(stepSize, 0.0), values, d) == Ok(k)
    ensures Pick(SampleAverage, values, d) == Ok(k)
  {
    UniqueMaximum(values, k);
  }

  // ---------------------------------------------------------------------------
  // The two value-update rules of process_reward
  // ---------------------------------------------------------------------------

  /**
   * `process_reward` on one arm: the count goes up by one, then the estimate
   * moves towards the reward by 1/count (sample average) or by the step size.
   */
  function Update(rule: Rule, e: Estimate, reward: real): (r: Estimate)
    ensures r.rewards == e.rewards + 1
    ensures rule.SampleAverage? || 0.0 <= rule.stepSize <= 1.0 ==> Between(e.value, reward, r.value)
  {
    var n := e.rewards + 1;
    match rule
    case SampleAverage =>
      TowardsMean(e.value, reward, n as real);
      Estimate(e.value + (reward - e.value) / n as real, n)
    case ConstantStep(alpha, _) =>
      var v := e.value + (reward - e.value) * alpha;
      assert 0.0 <= alpha <= 1.0 ==> Between(e.value, reward, v) by {
        if 0.0 <= alpha <= 1.0 {
          TowardsReward(e.value, reward, alpha);
        }
      }
      Estimate(v, n)
  }

  /** `x` lies between `a` and `b`, inclusive. */
  predicate Between(a: real, b: real, x: real)
  {
    (a <= x <= b) || (b <= x <= a)
  }

  /** Moving from `v` by 1/n of the way to `reward`, n >= 1, stays between the two. */
  lemma TowardsMean(v: real, reward: real, n: real)
    requires n >= 1.0
    ensures Between(v, reward, v + (reward - v) / n)
  {
    var f := 1.0 / n;
    assert (reward - v) / n == (reward - v) * f;
    TowardsReward(v, reward, f);
  }

  /** Moving from `v` a fraction in [0, 1] of the way to `reward` stays between the two. */
  lemma TowardsReward(v: real, reward: real, f: real)
    requires 0.0 <= f <= 1.0
    ensures Between(v, reward, v + (reward - v) * f)
  {
    var d := reward - v;
    assert d * f + d * (1.0 - f) == d;
    if d >= 0.0 {
      assert d * f >= 0.0 && d * (1.0 - f) >= 0.0;
    } else {
      assert d * f <= 0.0 && d * (1.0 - f) <= 0.0;
    }
  }

  /** The estimate after processing `rewards` in order, first reward first, starting from `e`. */
  function Replay(rule: Rule, e: Estimate, rewards: seq<real>): Estimate
    decreases |rewards|
  {
    if rewards == [] then e else Replay(rule, Update(rule, e, rewards[0]), rewards[1..])
  }

  function Sum(xs: seq<real>): real
  {
    if xs == [] then 0.0 else xs[0] + Sum(xs[1..])
  }

  /** Either rule counts the rewards it has processed. */
  lemma {:induction false} ReplayCounts(rule: Rule, e: Estimate, rewards: seq<real>)
    decreases |rewards|
    ensures Replay(rule, e, rewards).rewards == e.rewards + |rewards|
  {
    if rewards != [] {
      ReplayCounts(rule, Update(rule, e, rewards[0]), rewards[1..]);
    }
  }

  /** The sum of the rewards an estimate stands for: its value times its count. */
  function Total(e: Estimate): real
  {
    e.value * e.rewards as real
  }

  /** One sample-average update adds exactly the new reward to the total. */
  lemma TotalStep(e: Estimate, reward: real)
    ensures Update(SampleAverage, e, reward).rewards == e.rewards + 1
    ensures Total(Update(SampleAverage, e, reward)) == Total(e) + reward
  {
    IncrementalMean(e.value, reward, e.rewards as real, (e.rewards + 1) as real);
  }

  lemma IncrementalMean(v: real, reward: real, k: real, n: real)
    requires n == k + 1.0 && k >= 0.0
    ensures (v + (reward - v) / n) * n == v * k + reward
  {
  }

  /**
   * Under the sample-average rule the total grows by the sum of the rewards
   * replayed, whatever the estimate started from.
   */
  lemma {:induction false} SampleAverageTotal(e: Estimate, rewards: seq<real>)
    decreases |rewards|
    ensures Total(Replay(SampleAverage, e, rewards)) == Total(e) + Sum(rewards)
  {
    if rewards != [] {
      SampleAverageTotal(Update(SampleAverage, e, rewards[0]), rewards[1..]);
      TotalStep(e, rewards[0]);
    }
  }

  /** An estimate with a positive count holds its total divided by its count. */
  lemma ValueIsMean(e: Estimate)
    requires e.rewards > 0
    ensures e.value == Total(e) / e.rewards as real
  {
  }

  /**
   * The sample-average rule computes the arithmetic mean: after rewards
   * r1..rk (k > 0) from a fresh arm the estimate is their mean, whatever the
   * starting value.
   */
  lemma SampleAverageIsMean(start: real, rewards: seq<real>)
    requires |rewards| > 0
    ensures Replay(SampleAverage, Estimate(start, 0), rewards).value == Sum(rewards) / |rewards| as real
  {
    var e := Replay(SampleAverage, Estimate(start, 0), rewards);
    ReplayCounts(SampleAverage, Estimate(start, 0), rewards);
    SampleAverageTotal(Estimate(start, 0), rewards);
    ValueIsMean(e);
  }

  /** Removing one entry takes exactly that entry off the sum. */
  lemma {:induction false} SumWithout(xs: seq<real>, i: nat)
    requires i < |xs|
    ensures Sum(xs) == Sum(xs[..i] + xs[i + 1..]) + xs[i]
  {
    if i == 0 {
      assert xs[..0] + xs[1..] == xs[1..];
    } else {
      var tail := xs[1..];
      SumWithout(tail, i - 1);
      var shorter := xs[..i] + xs[i + 1..];
      assert shorter[0] == xs[0];
      assert shorter[1..] == tail[..i - 1] + tail[i..];
    }
  }

  /** Removing one entry takes exactly one copy of it out of the multiset. */
  lemma MultisetWithout(ys: seq<real>, i: nat)
    requires i < |ys|
    ensures multiset(ys[..i] + ys[i + 1..]) == multiset(ys) - multiset{ys[i]}
  {
    assert ys == ys[..i] + [ys[i]] + ys[i + 1..];
    assert multiset(ys) == multiset(ys[..i]) + multiset{ys[i]} + multiset(ys[i + 1..]);
  }

  /** The sum does not depend on the order of its terms. */
  lemma {:induction false} SumPermutation(xs: seq<real>, ys: seq<real>)
    requires multiset(xs) == multiset(ys)
    ensures Sum(xs) == Sum(ys)
  {
    if xs != [] {
      var i := Occurrence(ys, xs[0]);
      var rest := ys[..i] + ys[i + 1..];
      RemoveMatching(xs, ys, i);
      SumPermutation(xs[1..], rest);
      SumWithout(ys, i);
    } else {
      assert |ys| == |multiset(ys)| == |multiset(xs)| == 0;
    }
  }

  /** Taking the first entry of `xs` and a matching entry of `ys` out keeps them permutations. */
  lemma RemoveMatching(xs: seq<real>, ys: seq<real>, i: nat)
    requires multiset(xs) == multiset(ys) && xs != [] && i < |ys| && ys[i] == xs[0]
    ensures multiset(xs[1..]) == multiset(ys[..i] + ys[i + 1..])
  {
    MultisetWithout(xs, 0);
    MultisetWithout(ys, i);
    assert xs[..0] + xs[1..] == xs[1..];
  }

  lemma Occurrence(ys: seq<real>, x: real) returns (i: nat)
    requires x in multiset(ys)
    ensures i < |ys| && ys[i] == x
  {
    assert x in ys;
    i :| 0 <= i < |ys| && ys[i] == x;
  }

  /** Sample averages are independent of the order in which rewards arrive. */
  lemma SampleAverageOrderFree(start: real, rewards: seq<real>, shuffled: seq<real>)
    requires |rewards| > 0 && multiset(rewards) == multiset(shuffled)
    ensures Replay(SampleAverage, Estimate(start, 0), rewards).value
         == Replay(SampleAverage, Estimate(start, 0), shuffled).value
  {
    assert |shuffled| == |multiset(shuffled)| == |rewards|;
    SampleAverageIsMean(start, rewards);
    SampleAverageIsMean(start, shuffled);
    SumPermutation(rewards, shuffled);
  }

  /** A step size of 1 forgets everything but the latest reward. */
  lemma StepSizeOneKeepsLatest(epsilon: real, e: Estimate, reward: real)
    ensures Update(ConstantStep(1.0, epsilon), e, reward).value == reward
  {
  }

  function Pow(x: real, n: nat): real
  {
    if n == 0 then 1.0 else x * Pow(x, n - 1)
  }

  /** The recency-weighted sum: reward i of k weighs alpha * (1 - alpha)^(k - 1 - i). */
  function Recency(alpha: real, rewards: seq<real>): real
  {
    if rewards == [] then 0.0
    else alpha * Pow(1.0 - alpha, |rewards| - 1) * rewards[0] + Recency(alpha, rewards[1..])
  }

  /**
   * The exponential recency-weighted average:
   * (1 - alpha)^k * start plus the sum of alpha * (1 - alpha)^(k - i) * ri
   * over rewards r1..rk.
   */
  function ClosedForm(alpha: real, start: real, rewards: seq<real>): real
  {
    Pow(1.0 - alpha, |rewards|) * start + Recency(alpha, rewards)
  }

  /** The constant-step rule computes the exponential recency-weighted average. */
  lemma {:induction false} ConstantStepClosedForm(alpha: real, epsilon: real, e: Estimate, rewards: seq<real>)
    decreases |rewards|
    ensures Replay(ConstantStep(alpha, epsilon), e, rewards).value == ClosedForm(alpha, e.value, rewards)
  {
    if rewards != [] {
      var e' := Update(ConstantStep(alpha, epsilon), e, rewards[0]);
      ConstantStepClosedForm(alpha, epsilon, e', rewards[1..]);
      ClosedFormCons(alpha, e.value, e'.value, rewards);
    }
  }

  /** Folding the first reward into the start value leaves the closed form unchanged. */
  lemma ClosedFormCons(alpha: real, start: real, start': real, rewards: seq<real>)
    requires rewards != [] && start' == start + (rewards[0] - start) * alpha
    ensures ClosedForm(alpha, start, rewards) == ClosedForm(alpha, start', rewards[1..])
  {
    var rest := rewards[1..];
    ClosedFormStep(alpha, start, start', rewards[0], Pow(1.0 - alpha, |rest|), Recency(alpha, rest),
                   ClosedForm(alpha, start', rest), Pow(1.0 - alpha, |rewards|), Recency(alpha, rewards));
  }

  /** The algebra of `ClosedFormCons`, over plain reals. */
  lemma ClosedFormStep(alpha: real, v: real, v': real, r: real, p: real, rest: real, result: real,
                       power: real, weighted: real)
    requires v' == v + (r - v) * alpha
    requires result == p * v' + rest
    requires power == (1.0 - alpha) * p
    requires weighted == alpha * p * r + rest
    ensures result == power * v + weighted
  {
    assert p * (v + (r - v) * alpha) + rest == ((1.0 - alpha) * p) * v + (alpha * p * r + rest);
  }

  /** Step size 0.1, rewards 10, 10, 10 from 0: the estimates are 1, 1.9 and 2.71. */
  lemma ConstantStepExample(epsilon: real)
    ensures Replay(ConstantStep(0.1, epsilon), Estimate(0.0, 0), [10.0]).value == 1.0
    ensures Replay(ConstantStep(0.1, epsilon), Estimate(0.0, 0), [10.0, 10.0]).value == 1.9
    ensures Replay(ConstantStep(0.1, epsilon), Estimate(0.0, 0), [10.0, 10.0, 10.0]).value == 2.71
  {
    assert [10.0, 10.0][..1] == [10.0];
    assert [10.0, 10.0, 10.0][..2] == [10.0, 10.0];
  }

  // ---------------------------------------------------------------------------
  // The agent: SampleAverageArms and EpsilonGreedy
  // ---------------------------------------------------------------------------

  /** An agent: its update rule and its per-arm estimates, which it updates in place. */
  class Agent {
    const rule: Rule
    var arms: seq<Estimate>

    /** `SampleAverageArms(starting_values, arms=10)`. */
    constructor SampleAverageArms(startingValue: real, armCount: nat := 10)
      ensures rule == SampleAverage
      ensures |arms| == armCount
      ensures forall i :: 0 <= i < armCount ==> arms[i] == Estimate(startingValue, 0)
    {
      rule := SampleAverage;
      var est := FreshEstimates(startingValue, armCount);
      arms := est;
    }

    /** `EpsilonGreedy(starting_values, step_size, epsilon, arms=10)`. */
    constructor EpsilonGreedy(startingValue: real, stepSize: real, epsilon: real, armCount: nat := 10)
      ensures rule == ConstantStep(stepSize, epsilon)
      ensures |arms| == armCount
      ensures forall i :: 0 <= i < armCount ==> arms[i] == Estimate(startingValue, 0)
    {
      rule := ConstantStep(stepSize, epsilon);
      var est := FreshEstimates(startingValue, armCount);
      arms := est;
    }

    /** `pick_action`, with the random draws passed in. */
    method PickAction(d: Draw) returns (r: Result<nat, Error>)
      ensures r == Pick(rule, Values(arms), d)
    {
      if rule.ConstantStep? && d.uniform <= rule.epsilon {
        return Ok(d.randomArm);
      }
      var values := Values(arms);
      var best := TiedMaxima(values);
      MaximaSpec(values);
      if best == [] {
        return Err(IndexError);
      }
      r := Ok(best[d.tieBreak % |best|]);
    }

    /**
     * `process_reward`: only the chosen arm's estimate changes.  The IndexError
     * of an arm out of range is raised before the call, in `TestBed.RunTest`
     * (and `Step`), leaving the estimates as they were.
     */
    method ProcessReward(arm: nat, reward: real)
      requires arm < |arms|
      modifies this
      ensures arms == old(arms)[arm := Update(rule, old(arms)[arm], reward)]
    {
      arms := arms[arm := Update(rule, arms[arm], reward)];
    }
  }

  /** The estimate list both agents build: one fresh estimate per arm. */
  method FreshEstimates(startingValue: real, armCount: nat) returns (est: seq<Estimate>)
    ensures |est| == armCount
    ensures forall i :: 0 <= i < armCount ==> est[i] == Estimate(startingValue, 0)
  {
    est := [];
    for i := 0 to armCount
      invariant |est| == i
      invariant forall k :: 0 <= k < i ==> est[k] == Estimate(startingValue, 0)
    {
      est := est + [Estimate(startingValue, 0)];
    }
  }

  // ---------------------------------------------------------------------------
  // The environment and the experiment
  // ---------------------------------------------------------------------------

  /** The true means of the arms. */
  function Means(env: seq<Arm>): (ms: seq<real>)
    ensures |ms| == |env| && forall i :: 0 <= i < |env| ==> ms[i] == env[i].mean
  {
    seq(|env|, i requires 0 <= i < |env| => env[i].mean)
  }

  /**
   * The environment after `_pull(a)`: arm `a`'s mean moves by the drift, its
   * variance and every other arm stay as they were.
   */
  function Drift(env: seq<Arm>, a: nat, drift: real): (env': seq<Arm>)
    requires a < |env|
    ensures |env'| == |env|
    ensures env'[a].mean == env[a].mean + drift && env'[a].variance == env[a].variance
    ensures forall i :: 0 <= i < |env| && i != a ==> env'[i] == env[i]
  {
    env[a := Arm(env[a].mean + drift, env[a].variance)]
  }

  /** The state `run_test` carries from step to step and from run to run. */
  datatype World = World(env: seq<Arm>, est: seq<Estimate>)

  /** What a step records: the reward and whether the action was then optimal. */
  datatype StepRecord = StepRecord(reward: real, optimal: bool)

  /** One entry of the result of `run_test`. */
  datatype StepSummary = StepSummary(averageReward: real, percentOptimal: real)

  /** A result together with the world left behind (also when an exception escapes). */
  datatype Outcome<T> = Outcome(result: Result<T, Error>, world: World)

  /**
   * One step of `run_test`: pick, pull (which drifts the pulled arm), process
   * the reward, then test the action against the optimal set of the drifted
   * environment.  An out-of-range action raises IndexError in `_pull`, or in
   * `process_reward` after `_pull` has already drifted the arm.
   */
  function Step(rule: Rule, w: World, d: Draw): (o: Outcome<StepRecord>)
    ensures |o.world.env| == |w.env| && |o.world.est| == |w.est|
    ensures o.result.Err? ==> o.world.est == w.est
    ensures o.result.Ok? ==> o.result.value.reward == d.sample
  {
    match Pick(rule, Values(w.est), d)
    case Err(e) => Outcome(Err(e), w)
    case Ok(a) =>
      if a >= |w.env| then Outcome(Err(IndexError), w)
      else
        var env := Drift(w.env, a, d.drift);
        if a >= |w.est| then Outcome(Err(IndexError), World(env, w.est))
        else
          var est := w.est[a := Update(rule, w.est[a], d.sample)];
          Outcome(Ok(StepRecord(d.sample, a in Maxima(Means(env)))), World(env, est))
  }

  /** Steps `t` to `steps - 1` of run `run`, after the records `acc` of steps 0 to `t - 1`. */
  function RunFrom(rule: Rule, w: World, draws: (nat, nat) -> Draw, run: nat, t: nat, steps: nat, acc: seq<StepRecord>)
    : (o: Outcome<seq<StepRecord>>)
    requires t <= steps && |acc| == t
    ensures o.result.Ok? ==> |o.result.value| == steps
    decreases steps - t
  {
    if t == steps then Outcome(Ok(acc), w)
    else
      var s := Step(rule, w, draws(run, t));
      match s.result
      case Err(e) => Outcome(Err(e), s.world)
      case Ok(rec) => RunFrom(rule, s.world, draws, run, t + 1, steps, acc + [rec])
  }

  /**
   * Runs `run` to `runs - 1`, after the records `acc` of the earlier runs.  A run
   * starts from the world the previous run left: nothing is reset in between.
   */
  function RunsFrom(rule: Rule, w: World, draws: (nat, nat) -> Draw, run: nat, runs: nat, steps: nat,
                    acc: seq<seq<StepRecord>>)
    : (o: Outcome<seq<seq<StepRecord>>>)
    requires run <= runs && |acc| == run
    requires forall i :: 0 <= i < run ==> |acc[i]| == steps
    ensures o.result.Ok? ==> |o.result.value| == runs
    ensures o.result.Ok? ==> forall i :: 0 <= i < runs ==> |o.result.value[i]| == steps
    decreases runs - run
  {
    if run == runs then Outcome(Ok(acc), w)
    else
      var o := RunFrom(rule, w, draws, run, 0, steps, []);
      match o.result
      case Err(e) => Outcome(Err(e), o.world)
      case Ok(data) => RunsFrom(rule, o.world, draws, run + 1, runs, steps, acc + [data])
  }

  /** The sum of the rewards at step `t` over runs 0 to `n - 1`. */
  function RewardSum(all: seq<seq<StepRecord>>, t: nat, n: nat): real
    requires n <= |all| && forall i :: 0 <= i < n ==> t < |all[i]|
  {
    if n == 0 then 0.0 else RewardSum(all, t, n - 1) + all[n - 1][t].reward
  }

  /** How many of runs 0 to `n - 1` took an optimal action at step `t`. */
  function OptimalCount(all: seq<seq<StepRecord>>, t: nat, n: nat): nat
    requires n <= |all| && forall i :: 0 <= i < n ==> t < |all[i]|
  {
    if n == 0 then 0 else OptimalCount(all, t, n - 1) + (if all[n - 1][t].optimal then 1 else 0)
  }

  /** The summary of step `t` over all runs. */
  function StepStats(all: seq<seq<StepRecord>>, t: nat): (r: StepSummary)
    requires |all| > 0 && forall i :: 0 <= i < |all| ==> t < |all[i]|
    ensures 0.0 <= r.percentOptimal <= 1.0
  {
    var n := |all| as real;
    OptimalCountBounded(all, t, |all|);
    Fraction(OptimalCount(all, t, |all|) as real, n);
    StepSummary(RewardSum(all, t, |all|) / n, OptimalCount(all, t, |all|) as real / n)
  }

  /** The aggregation pass of `run_test`; with no runs its first division raises. */
  function Summary(all: seq<seq<StepRecord>>, steps: nat): (r: Result<seq<StepSummary>, Error>)
    requires forall i :: 0 <= i < |all| ==> |all[i]| == steps
    ensures r.Ok? <==> |all| > 0 || steps == 0
    ensures r.Ok? ==> |r.value| == steps
  {
    if |all| == 0 then
      if steps == 0 then Ok([]) else Err(ZeroDivisionError)
    else
      Ok(seq(steps, t requires 0 <= t < steps => StepStats(all, t)))
  }

  /** `run_test(steps, runs)` from world `w`. */
  function Experiment(rule: Rule, w: World, draws: (nat, nat) -> Draw, steps: nat, runs: nat): (o: Outcome<seq<StepSummary>>)
    ensures o.result.Ok? ==> |o.result.value| == steps
    ensures runs == 0 ==> o.world == w
  {
    var o := RunsFrom(rule, w, draws, 0, runs, steps, []);
    match o.result
    case Err(e) => Outcome(Err(e), o.world)
    case Ok(all) => Outcome(Summary(all, steps), o.world)
  }

  lemma {:induction false} OptimalCountBounded(all: seq<seq<StepRecord>>, t: nat, n: nat)
    requires n <= |all| && forall i :: 0 <= i < n ==> t < |all[i]|
    ensures OptimalCount(all, t, n) <= n
  {
    if n > 0 {
      OptimalCountBounded(all, t, n - 1);
    }
  }

  /** The optimal count is the number of runs whose step-`t` record is optimal. */
  lemma {:induction false} OptimalCountIsCardinality(all: seq<seq<StepRecord>>, t: nat, n: nat)
    requires n <= |all| && forall i :: 0 <= i < n ==> t < |all[i]|
    ensures OptimalCount(all, t, n) == |set i | 0 <= i < n && all[i][t].optimal|
  {
    if n > 0 {
      OptimalCountIsCardinality(all, t, n - 1);
      OptimalRunsSplit(all, t, n);
    }
  }

  lemma OptimalRunsSplit(all: seq<seq<StepRecord>>, t: nat, n: nat)
    requires 0 < n <= |all| && forall i :: 0 <= i < n ==> t < |all[i]|
    ensures |set i | 0 <= i < n && all[i][t].optimal|
         == |set i | 0 <= i < n - 1 && all[i][t].optimal| + (if all[n - 1][t].optimal then 1 else 0)
  {
    var below := set i | 0 <= i < n - 1 && all[i][t].optimal;
    var upto := set i | 0 <= i < n && all[i][t].optimal;
    if all[n - 1][t].optimal {
      assert upto == below + {n - 1};
      assert n - 1 !in below;
    } else {
      assert upto == below;
    }
  }

  /** The fraction of optimal runs at one step counts the optimal runs and lies in [0, 1]. */
  lemma StepStatsOptimal(all: seq<seq<StepRecord>>, t: nat)
    requires |all| > 0 && forall i :: 0 <= i < |all| ==> t < |all[i]|
    ensures StepStats(all, t).percentOptimal
            == |set i | 0 <= i < |all| && all[i][t].optimal| as real / |all| as real
    ensures 0.0 <= StepStats(all, t).percentOptimal <= 1.0
  {
    OptimalCountIsCardinality(all, t, |all|);
    OptimalCountBounded(all, t, |all|);
    Fraction(OptimalCount(all, t, |all|) as real, |all| as real);
  }

  lemma Fraction(part: real, whole: real)
    requires 0.0 <= part <= whole && whole > 0.0
    ensures 0.0 <= part / whole <= 1.0
  {
  }

  /**
   * What `run_test` returns: exactly `steps` summaries, each `percent_optimal`
   * being the fraction of runs whose action at that step was optimal, hence in
   * [0, 1]; with no runs and at least one step the first division raises.
   */
  lemma ExperimentSummaries(rule: Rule, w: World, draws: (nat, nat) -> Draw, steps: nat, runs: nat)
    ensures runs == 0 ==> Experiment(rule, w, draws, steps, runs).result
                          == (if steps == 0 then Ok([]) else Err(ZeroDivisionError))
    ensures Experiment(rule, w, draws, steps, runs).result.Ok? ==>
      var summary := Experiment(rule, w, draws, steps, runs).result.value;
      var all := RunsFrom(rule, w, draws, 0, runs, steps, []).result.value;
      && |summary| == steps
      && |all| == runs
      && forall t :: 0 <= t < steps ==>
           && summary[t].percentOptimal
              == |set i | 0 <= i < runs && all[i][t].optimal| as real / runs as real
           && 0.0 <= summary[t].percentOptimal <= 1.0
  {
    var o := RunsFrom(rule, w, draws, 0, runs, steps, []);
    if o.result.Ok? && runs > 0 {
      var all := o.result.value;
      forall t | 0 <= t < steps
        ensures Summary(all, steps).value[t].percentOptimal
                == |set i | 0 <= i < runs && all[i][t].optimal| as real / runs as real
        ensures 0.0 <= Summary(all, steps).value[t].percentOptimal <= 1.0
      {
        assert Summary(all, steps).value[t] == StepStats(all, t);
        StepStatsOptimal(all, t);
      }
    }
  }

  /**
   * The optimality recorded by a step is judged on the environment after the
   * pull has drifted the chosen arm; only the chosen arm's estimate changes,
   * and its count goes up by one.
   */
  lemma StepEffect(rule: Rule, w: World, d: Draw)
    requires Step(rule, w, d).result.Ok?
    ensures var a := Pick(rule, Values(w.est), d).value;
            var s := Step(rule, w, d);
      && a < |w.env| && a < |w.est|
      && s.world.env == Drift(w.env, a, d.drift)
      && |s.world.est| == |w.est|
      && s.world.est[a].rewards == w.est[a].rewards + 1
      && (forall i :: 0 <= i < |w.est| && i != a ==> s.world.est[i] == w.est[i])
      && s.result.value.reward == d.sample
      && (s.result.value.optimal <==> IsMax(Means(s.world.env), a))
  {
    MaximaSpec(Means(Step(rule, w, d).world.env));
  }

  /**
   * An arm that was optimal before its pull can be recorded as not optimal:
   * two tied arms, the first picked, and a negative drift.
   */
  lemma OptimalityAfterDrift()
    ensures IsMax(Means([Arm(0.0, 1.0), Arm(0.0, 1.0)]), 0)
    ensures Step(SampleAverage, World([Arm(0.0, 1.0), Arm(0.0, 1.0)], [Estimate(0.0, 0), Estimate(0.0, 0)]),
                 Draw(0.5, 0, 0, 1.0, -0.01))
         == Outcome(Ok(StepRecord(1.0, false)),
                    World([Arm(-0.01, 1.0), Arm(0.0, 1.0)], [Estimate(1.0, 1), Estimate(0.0, 0)]))
  {
    var vs := Values([Estimate(0.0, 0), Estimate(0.0, 0)]);
    assert IsMax(vs, 0) && IsMax(vs, 1);
    assert MaximaBelow(vs, 1) == [0];
    assert Maxima(vs) == [0, 1];
    var env := [Arm(-0.01, 1.0), Arm(0.0, 1.0)];
    assert Drift([Arm(0.0, 1.0), Arm(0.0, 1.0)], 0, -0.01) == env;
    UniqueMaximum(Means(env), 1);
  }

  /**
   * Nothing is reset between runs: two runs of one step on a single arm leave
   * that arm's estimate with two rewards counted.
   */
  lemma NoResetBetweenRuns()
    ensures Experiment(SampleAverage, World([Arm(0.0, 1.0)], [Estimate(0.0, 0)]),
                       (run, t) => Draw(0.5, 0, 0, 1.0, 0.0), 1, 2).world.est == [Estimate(1.0, 2)]
  {
    var draws := (run, t) => Draw(0.5, 0, 0, 1.0, 0.0);
    var w0 := World([Arm(0.0, 1.0)], [Estimate(0.0, 0)]);
    UniqueMaximum(Values(w0.est), 0);
    UniqueMaximum(Means(w0.env), 0);
    var w1 := World([Arm(0.0, 1.0)], [Estimate(1.0, 1)]);
    assert Step(SampleAverage, w0, draws(0, 0)) == Outcome(Ok(StepRecord(1.0, true)), w1);
    UniqueMaximum(Values(w1.est), 0);
    var w2 := World([Arm(0.0, 1.0)], [Estimate(1.0, 2)]);
    assert Step(SampleAverage, w1, draws(1, 0)) == Outcome(Ok(StepRecord(1.0, true)), w2);
    assert RunFrom(SampleAverage, w0, draws, 0, 0, 1, []).world == w1;
    assert RunFrom(SampleAverage, w1, draws, 1, 0, 1, []).world == w2;
  }

  /** The aggregation loop of `run_test`. */
  method Summarize(all: seq<seq<StepRecord>>, steps: nat) returns (r: Result<seq<StepSummary>, Error>)
    requires forall i :: 0 <= i < |all| ==> |all[i]| == steps
    ensures r == Summary(all, steps)
  {
    var summary: seq<StepSummary> := [];
    for t := 0 to steps
      invariant |summary| == t
      invariant t > 0 ==> |all| > 0
      invariant forall k :: 0 <= k < t ==> summary[k] == StepStats(all, k)
    {
      var rewardSum := 0.0;
      var optimalCount := 0;
      for i := 0 to |all|
        invariant rewardSum == RewardSum(all, t, i)
        invariant optimalCount == OptimalCount(all, t, i)
      {
        rewardSum := rewardSum + all[i][t].reward;
        optimalCount := optimalCount + if all[i][t].optimal then 1 else 0;
      }
      if |all| == 0 {
        return Err(ZeroDivisionError);
      }
      var n := |all| as real;
      summary := summary + [StepSummary(rewardSum / n, optimalCount as real / n)];
    }
    if |all| == 0 {
      return Ok([]);
    }
    assert summary == seq(steps, t requires 0 <= t < steps => StepStats(all, t));
    r := Ok(summary);
  }

  /** `TestBed`: the agent it drives and the arms it owns and drifts in place. */
  class TestBed {
    const agent: Agent
    var arms: seq<Arm>

    /** The non-stationary branch of `__init__`: `armCount` arms with mean 0 and variance 1. */
    constructor NonStationary(agent: Agent, armCount: nat)
      ensures this.agent == agent
      ensures |arms| == armCount
      ensures forall i :: 0 <= i < armCount ==> arms[i] == Arm(0.0, 1.0)
    {
      this.agent := agent;
      var initial: seq<Arm> := [];
      for i := 0 to armCount
        invariant |initial| == i
        invariant forall k :: 0 <= k < i ==> initial[k] == Arm(0.0, 1.0)
      {
        initial := initial + [Arm(0.0, 1.0)];
      }
      arms := initial;
    }

    /** `_get_optimal_action`: the arms whose mean is maximal (before the shuffle). */
    method OptimalActions() returns (best: seq<nat>)
      ensures best == Maxima(Means(arms))
    {
      best := TiedMaxima(Means(arms));
    }

    /**
     * `_pull(arm)`: return the sampled reward, then add the drift to the
     * pulled arm's mean.  The IndexError of an arm out of range is raised
     * before the call, in `RunTest` (and `Step`), leaving the arms as they were.
     */
    method Pull(arm: nat, sample: real, drift: real) returns (reward: real)
      requires arm < |arms|
      modifies this
      ensures reward == sample
      ensures arms == Drift(old(arms), arm, drift)
    {
      reward := sample;
      arms := arms[arm := Arm(arms[arm].mean + drift, arms[arm].variance)];
    }

    /**
     * `run_test(steps, runs)`: the run and step loops, then the aggregation.
     * The result and the final arms and estimates are those of `Experiment`.
     */
    method RunTest(steps: nat, runs: nat, draws: (nat, nat) -> Draw) returns (r: Result<seq<StepSummary>, Error>)
      modifies this, agent
      ensures Outcome(r, World(arms, agent.arms))
           == Experiment(agent.rule, World(old(arms), old(agent.arms)), draws, steps, runs)
    {
      ghost var start := World(arms, agent.arms);
      var all: seq<seq<StepRecord>> := [];
      var run := 0;
      while run < runs
        invariant run <= runs && |all| == run
        invariant forall i :: 0 <= i < run ==> |all[i]| == steps
        invariant RunsFrom(agent.rule, start, draws, 0, runs, steps, [])
               == RunsFrom(agent.rule, World(arms, agent.arms), draws, run, runs, steps, all)
      {
        ghost var runStart := World(arms, agent.arms);
        var data: seq<StepRecord> := [];
        var t := 0;
        while t < steps
          invariant t <= steps && |data| == t
          invariant RunFrom(agent.rule, runStart, draws, run, 0, steps, [])
                 == RunFrom(agent.rule, World(arms, agent.arms), draws, run, t, steps, data)
        {
          var d := draws(run, t);
          var picked := agent.PickAction(d);
          if picked.Err? {
            return Err(picked.error);
          }
          var action := picked.value;
          if action >= |arms| {
            return Err(IndexError);
          }
          var reward := Pull(action, d.sample, d.drift);
          if action >= |agent.arms| {
            return Err(IndexError);
          }
          agent.ProcessReward(action, reward);
          var best := OptimalActions();
          data := data + [StepRecord(reward, action in best)];
          t := t + 1;
        }
        all := all + [data];
        run := run + 1;
      }
      r := Summarize(all, steps);
    }
  }

  /**
   * `TestBed(agent, stationary=True, arms=10)`: the stationary mode raises
   * NotImplementedError; otherwise the bed starts with `armCount` fresh arms.
   */
  method NewTestBed(agent: Agent, stationary: bool := true, armCount: nat := 10) returns (r: Result<TestBed, Error>)
    ensures stationary ==> r == Err(NotImplemented)
    ensures !stationary ==> r.Ok? && fresh(r.value) && r.value.agent == agent
    ensures !stationary ==> |r.value.arms| == armCount
    ensures !stationary ==> forall i :: 0 <= i < armCount ==> r.value.arms[i] == Arm(0.0, 1.0)
  {
    if stationary {
      return Err(NotImplemented);
    }
    var bed := new TestBed.NonStationary(agent, armCount);
    r := Ok(bed);
  }

  /** `TestBed(agent)` uses the default, stationary, mode and so raises NotImplementedError. */
  method DefaultTestBed(agent: Agent) returns (r: Result<TestBed, Error>)
    ensures r == Err(NotImplemented)
  {
    r := NewTestBed(agent);
  }

  /** The agents' default of ten arms. */
  method DefaultAgents(startingValue: real, stepSize: real, epsilon: real) returns (sample: Agent, greedy: Agent)
    ensures |sample.arms| == 10 && |greedy.arms| == 10
  {
    sample := new Agent.SampleAverageArms(startingValue);
    greedy := new Agent.EpsilonGreedy(startingValue, stepSize, epsilon);
  }
}

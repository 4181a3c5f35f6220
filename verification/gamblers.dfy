/**
 * Value iteration for the gambler's problem of 4.9/gamblers.py.
 *
 * A gambler with capital `state` (1..99) stakes 1..min(state, 100 - state);
 * a head (probability `p_head`) adds the stake, a tail removes it, and
 * reaching 100 is worth 1.  `action_max` scans the stakes for the first
 * maximum of the expected value; a sweep rewrites the values of states 1..99
 * in increasing order, in place, and tracks the largest change; the policy
 * takes the arg-max stake of every state.
 */
module Gamblers {
  import opened Wrappers

  /**
   * The capital that wins, `initial_value` and `p_head`.  The script fixes the
   * goal at 100; the model keeps it a parameter.
   */
  datatype Game = Game(goal: int, initialValue: real, pHead: real)

  /** The values the script uses. */
  const Script: Game := Game(100, 0.0, 0.4)

  /** `theta`, the convergence threshold of the script. */
  const Theta: real := 0.000000000000000000001

  /** A candidate of `action_max`: its expected value and its stake. */
  datatype Choice = Choice(value: real, action: int)

  function Min(a: int, b: int): int
  {
    if a <= b then a else b
  }

  function Max(a: real, b: real): real
  {
    if a >= b then a else b
  }

  function Abs(x: real): real
  {
    if x < 0.0 then -x else x
  }

  /** The largest stake from `state`: the loop bound of `action_max`. */
  function MaxStake(g: Game, state: int): int
  {
    Min(state, g.goal - state)
  }

  /** `values.get(s, default)`. */
  function Get(values: map<int, real>, s: int, default: real): real
  {
    if s in values then values[s] else default
  }

  /**
   * `new_value` for a stake: a head reaching the goal counts 1 instead of a
   * lookup; otherwise both outcomes read the value map with its default.
   */
  function StakeValue(g: Game, values: map<int, real>, state: int, action: int): (r: real)
    ensures UnitGame(g) && AllUnit(values) ==> Unit(r)
  {
    var head := if state + action >= g.goal then 1.0 else Get(values, state + action, g.initialValue);
    var tail := Get(values, state - action, g.initialValue);
    var v := g.pHead * head + (1.0 - g.pHead) * tail;
    assert UnitGame(g) && AllUnit(values) ==> Unit(v) by {
      if UnitGame(g) && AllUnit(values) {
        GetUnit(g, values, state + action);
        GetUnit(g, values, state - action);
        MixUnit(g.pHead, head, tail);
      }
    }
    v
  }

  /**
   * The scan of `action_max` over the stakes 1..upTo: the first candidate is
   * taken, and a later one replaces it only when its value is strictly larger.
   * None stands for `(None, None)`.
   */
  function FirstBest(g: Game, values: map<int, real>, state: int, upTo: int): (r: Option<Choice>)
    ensures r.None? <==> upTo < 1
    ensures r.Some? ==> 1 <= r.value.action <= upTo && r.value.value == StakeValue(g, values, state, r.value.action)
    decreases upTo
  {
    if upTo < 1 then None
    else
      var candidate := StakeValue(g, values, state, upTo);
      match FirstBest(g, values, state, upTo - 1)
      case None => Some(Choice(candidate, upTo))
      case Some(c) => if c.value < candidate then Some(Choice(candidate, upTo)) else Some(c)
  }

  /**
   * The scan finds the first maximum: its value is at least that of every
   * stake in range, and strictly more than that of every smaller stake.
   */
  lemma {:induction false} FirstBestIsFirstMaximum(g: Game, values: map<int, real>, state: int, upTo: int)
    requires FirstBest(g, values, state, upTo).Some?
    ensures var c := FirstBest(g, values, state, upTo).value;
      && (forall a :: 1 <= a <= upTo ==> StakeValue(g, values, state, a) <= c.value)
      && (forall a :: 1 <= a < c.action ==> StakeValue(g, values, state, a) < c.value)
    decreases upTo
  {
    if upTo > 1 {
      FirstBestIsFirstMaximum(g, values, state, upTo - 1);
    }
  }

  /** `action_max(values, state, initial_value, p_head)`, printing left out. */
  method ActionMax(g: Game, values: map<int, real>, state: int) returns (r: Option<Choice>)
    ensures r == FirstBest(g, values, state, MaxStake(g, state))
  {
    r := None;
    var top := MaxStake(g, state);
    var action := 1;
    while action <= top
      invariant 1 <= action <= if top >= 1 then top + 1 else 1
      invariant r == FirstBest(g, values, state, action - 1)
    {
      var newValue := StakeValue(g, values, state, action);
      if r.None? {
        r := Some(Choice(newValue, action));
      } else if r.value.value < newValue {
        r := Some(Choice(newValue, action));
      }
      action := action + 1;
    }
  }

  /**
   * For a capital of 1..99 the scan finds a stake in 1..min(state, 100 - state);
   * for a capital with no stake (0 or 100) it finds none.
   */
  lemma ActionInRange(g: Game, values: map<int, real>, state: int)
    ensures 1 <= state < g.goal <==> FirstBest(g, values, state, MaxStake(g, state)).Some?
    ensures 1 <= state < g.goal ==> 1 <= FirstBest(g, values, state, MaxStake(g, state)).value.action <= MaxStake(g, state)
    ensures state == 0 || state == g.goal ==> FirstBest(g, values, state, MaxStake(g, state)) == None
  {
  }

  /**
   * For a stake in range, the losing lookup is a capital of at least 0, and
   * the winning outcome reads the map only below the goal.
   */
  lemma Lookups(g: Game, state: int, action: int)
    requires 1 <= action <= MaxStake(g, state)
    ensures 0 <= state - action < state < state + action <= g.goal
    ensures state + action >= g.goal <==> state + action == g.goal
  {
  }

  predicate Unit(x: real)
  {
    0.0 <= x <= 1.0
  }

  predicate AllUnit(values: map<int, real>)
  {
    forall k :: k in values ==> Unit(values[k])
  }

  /** A game whose probability and default value are in [0, 1]. */
  predicate UnitGame(g: Game)
  {
    Unit(g.pHead) && Unit(g.initialValue)
  }

  lemma GetUnit(g: Game, values: map<int, real>, s: int)
    requires UnitGame(g) && AllUnit(values)
    ensures Unit(Get(values, s, g.initialValue))
  {
  }

  /** A mixture of two values in [0, 1] with a weight in [0, 1] is in [0, 1]. */
  lemma MixUnit(p: real, x: real, y: real)
    requires Unit(p) && Unit(x) && Unit(y)
    ensures Unit(p * x + (1.0 - p) * y)
  {
    assert 0.0 <= p * x <= p * 1.0;
    assert 0.0 <= (1.0 - p) * y <= (1.0 - p) * 1.0;
  }

  /** With probability, default and stored values in [0, 1], `action_max`'s value is in [0, 1]. */
  lemma FirstBestUnit(g: Game, values: map<int, real>, state: int)
    requires UnitGame(g) && AllUnit(values) && 1 <= state < g.goal
    ensures Unit(FirstBest(g, values, state, MaxStake(g, state)).value.value)
  {
    var c := FirstBest(g, values, state, MaxStake(g, state)).value;
    assert c.value == StakeValue(g, values, state, c.action);
  }

  // ---------------------------------------------------------------------------
  // One sweep
  // ---------------------------------------------------------------------------

  /** The value `action_max` gives a capital of 1..goal-1. */
  function BestValue(g: Game, values: map<int, real>, state: int): real
    requires 1 <= state < g.goal
  {
    FirstBest(g, values, state, MaxStake(g, state)).value.value
  }

  datatype Sweep = Sweep(values: map<int, real>, delta: real)

  /**
   * A sweep from capital `state` on in which `best(m, s)` is the new value of
   * capital `s` when the map holds `m`: overwrite the value of each capital
   * up to goal-1, in increasing order and in place, and keep the largest
   * absolute change.  How the sweep orders its writes and tracks the change
   * does not depend on `best`, so those properties are proved for any `best`.
   */
  function SweepWith(g: Game, best: (map<int, real>, int) -> real, values: map<int, real>, state: int, delta: real): (r: Sweep)
    ensures forall k :: k in r.values <==> k in values || state <= k < g.goal
    ensures forall k :: k in values && !(state <= k < g.goal) ==> r.values[k] == values[k]
    ensures delta <= r.delta
    decreases g.goal - state
  {
    if state >= g.goal then Sweep(values, delta)
    else
      var before := Get(values, state, g.initialValue);
      var after := values[state := best(values, state)];
      SweepWith(g, best, after, state + 1, Max(delta, Abs(before - Get(after, state, g.initialValue))))
  }

  /** `action_max`'s value as the `best` of a sweep; the sweep never asks for a capital without a stake. */
  function Evaluate(g: Game): (map<int, real>, int) -> real
  {
    (m: map<int, real>, s: int) => if 1 <= s < g.goal then BestValue(g, m, s) else g.initialValue
  }

  lemma EvaluateIs(g: Game, m: map<int, real>, s: int)
    requires 1 <= s < g.goal
    ensures Evaluate(g)(m, s) == BestValue(g, m, s)
  {
  }

  /**
   * The sweep of the script, from capital `state` on: it gives a value to every
   * capital up to goal-1, leaves every other capital as it was, and never
   * lowers `delta`.
   */
  function SweepFrom(g: Game, values: map<int, real>, state: int, delta: real): (r: Sweep)
    requires 1 <= state
    ensures forall k :: state <= k < g.goal ==> k in r.values
    ensures forall k :: k in values && !(state <= k < g.goal) ==> k in r.values && r.values[k] == values[k]
    ensures forall k :: k in r.values ==> k in values || state <= k < g.goal
    ensures delta <= r.delta
  {
    SweepWith(g, Evaluate(g), values, state, delta)
  }

  /** One sweep over the capitals 1..goal-1, updating the map in place. */
  method SweepOnce(g: Game, values: map<int, real>) returns (updated: map<int, real>, delta: real)
    ensures Sweep(updated, delta) == SweepFrom(g, values, 1, 0.0)
  {
    updated := values;
    delta := 0.0;
    var state := 1;
    while state < g.goal
      invariant 1 <= state
      invariant SweepFrom(g, values, 1, 0.0) == SweepFrom(g, updated, state, delta)
      decreases g.goal - state
    {
      var value := Get(updated, state, g.initialValue);
      var best := ActionMax(g, updated, state);
      SweepStep(g, updated, state, delta);
      updated := updated[state := best.value.value];
      delta := Max(delta, Abs(value - Get(updated, state, g.initialValue)));
      state := state + 1;
    }
  }

  /** One step of the sweep: capital `state` takes `action_max`'s value. */
  lemma SweepStep(g: Game, values: map<int, real>, state: int, delta: real)
    requires 1 <= state < g.goal
    ensures FirstBest(g, values, state, MaxStake(g, state)).Some?
    ensures var after := values[state := BestValue(g, values, state)];
      SweepFrom(g, values, state, delta)
      == SweepFrom(g, after, state + 1, Max(delta, Abs(Get(values, state, g.initialValue) - Get(after, state, g.initialValue))))
  {
    assert Evaluate(g)(values, state) == BestValue(g, values, state);
  }

  /** The new value of a capital is not touched by the rest of the sweep. */
  lemma SweepWithWrites(g: Game, best: (map<int, real>, int) -> real, values: map<int, real>, state: int, delta: real)
    requires state < g.goal
    ensures SweepWith(g, best, values, state, delta).values[state] == best(values, state)
  {
  }

  lemma GetOther(values: map<int, real>, s: int, v: real, k: int, default: real)
    requires k != s
    ensures Get(values[s := v], k, default) == Get(values, k, default)
  {
  }

  /**
   * The largest absolute change between `before` and `after` over the
   * capitals state..goal-1, starting from `delta`: the bookkeeping of `delta`
   * on its own.
   */
  function LargestChange(g: Game, before: map<int, real>, after: map<int, real>, state: int, delta: real): real
    requires forall k :: state <= k < g.goal ==> k in after
    decreases g.goal - state
  {
    if state >= g.goal then delta
    else LargestChange(g, before, after, state + 1, Max(delta, Abs(Get(before, state, g.initialValue) - after[state])))
  }

  /**
   * The sweep's `delta` is the largest change of its capitals against the
   * values they had before the sweep: a later capital's old value is still in
   * the map when the sweep reaches it.
   */
  lemma {:induction false} SweepDeltaIsLargestChange(g: Game, best: (map<int, real>, int) -> real,
                                                     values: map<int, real>, m: map<int, real>, state: int, delta: real)
    requires forall k :: state <= k ==> Get(m, k, g.initialValue) == Get(values, k, g.initialValue)
    ensures var r := SweepWith(g, best, m, state, delta);
      r.delta == LargestChange(g, values, r.values, state, delta)
    decreases g.goal - state
  {
    if state < g.goal {
      var v := best(m, state);
      var after := m[state := v];
      var d := Max(delta, Abs(Get(m, state, g.initialValue) - Get(after, state, g.initialValue)));
      SweepWithWrites(g, best, m, state, delta);
      forall k | state + 1 <= k
        ensures Get(after, k, g.initialValue) == Get(values, k, g.initialValue)
      {
        GetOther(m, state, v, k, g.initialValue);
      }
      SweepDeltaIsLargestChange(g, best, values, after, state + 1, d);
    }
  }

  /** The bookkeeping only grows `delta`, and bounds every change it passes. */
  lemma {:induction false} LargestChangeBounds(g: Game, before: map<int, real>, after: map<int, real>, state: int, delta: real)
    requires forall k :: state <= k < g.goal ==> k in after
    ensures delta <= LargestChange(g, before, after, state, delta)
    ensures forall k :: state <= k < g.goal ==>
      Abs(Get(before, k, g.initialValue) - after[k]) <= LargestChange(g, before, after, state, delta)
    decreases g.goal - state
  {
    if state < g.goal {
      LargestChangeBounds(g, before, after, state + 1, Max(delta, Abs(Get(before, state, g.initialValue) - after[state])));
    }
  }

  /** The bookkeeping ends at the starting delta or at one of the changes. */
  lemma {:induction false} LargestChangeAttained(g: Game, before: map<int, real>, after: map<int, real>, state: int, delta: real)
    requires forall k :: state <= k < g.goal ==> k in after
    ensures var r := LargestChange(g, before, after, state, delta);
      r == delta || exists k :: state <= k < g.goal && r == Abs(Get(before, k, g.initialValue) - after[k])
    decreases g.goal - state
  {
    if state < g.goal {
      var d := Max(delta, Abs(Get(before, state, g.initialValue) - after[state]));
      LargestChangeAttained(g, before, after, state + 1, d);
    }
  }

  /**
   * A sweep's `delta` is the largest absolute change it makes: at least the
   * change of every capital 1..goal-1, measured against the value the capital
   * had before the sweep, and equal to one of them (or 0).
   */
  lemma SweepDelta(g: Game, values: map<int, real>)
    ensures var r := SweepFrom(g, values, 1, 0.0);
      && (forall k :: 1 <= k < g.goal ==> Abs(Get(values, k, g.initialValue) - r.values[k]) <= r.delta)
      && (r.delta == 0.0 || exists k :: 1 <= k < g.goal && r.delta == Abs(Get(values, k, g.initialValue) - r.values[k]))
  {
    var r := SweepFrom(g, values, 1, 0.0);
    SweepDeltaIsLargestChange(g, Evaluate(g), values, values, 1, 0.0);
    LargestChangeBounds(g, values, r.values, 1, 0.0);
    LargestChangeAttained(g, values, r.values, 1, 0.0);
  }

  /** The capitals lo..hi-1. */
  function Capitals(lo: int, hi: int): (r: set<int>)
    ensures forall k :: k in r <==> lo <= k < hi
    decreases hi - lo
  {
    if lo >= hi then {} else {lo} + Capitals(lo + 1, hi)
  }

  /**
   * The map a sweep reads when it reaches capital `state`: capitals
   * 1..state-1 already hold their new values, everything else its old one.
   */
  function Seen(values: map<int, real>, updated: map<int, real>, state: int): map<int, real>
    requires forall k :: 1 <= k < state ==> k in updated
  {
    map k | k in values.Keys + Capitals(1, state) :: if 1 <= k < state then updated[k] else values[k]
  }

  lemma {:induction false} SweepInOrderFrom(g: Game, best: (map<int, real>, int) -> real,
                                            values: map<int, real>, m: map<int, real>, state: int, delta: real)
    requires 1 <= state
    requires forall k :: 1 <= k < state ==> k in m
    requires forall k :: !(1 <= k < state) ==> (k in m <==> k in values)
    requires forall k :: k in m && !(1 <= k < state) ==> m[k] == values[k]
    ensures forall t {:trigger Seen(values, SweepWith(g, best, m, state, delta).values, t)} :: state <= t < g.goal ==>
      var r := SweepWith(g, best, m, state, delta).values;
      t in r && r[t] == best(Seen(values, r, t), t)
    decreases g.goal - state
  {
    if state < g.goal {
      SweepWithWrites(g, best, m, state, delta);
      var after := m[state := best(m, state)];
      var d := Max(delta, Abs(Get(m, state, g.initialValue) - Get(after, state, g.initialValue)));
      SweepInOrderFrom(g, best, values, after, state + 1, d);
      var r := SweepWith(g, best, m, state, delta).values;
      assert r == SweepWith(g, best, after, state + 1, d).values;
      SeenIs(values, m, r, state);
    }
  }

  /** `SweepInOrderFrom` for one capital of a whole sweep. */
  lemma SweepInOrderAt(g: Game, best: (map<int, real>, int) -> real, values: map<int, real>, t: int)
    requires 1 <= t < g.goal
    ensures var r := SweepWith(g, best, values, 1, 0.0).values;
      t in r && r[t] == best(Seen(values, r, t), t)
  {
    SweepInOrderFrom(g, best, values, values, 1, 0.0);
  }

  /** The map the sweep holds at capital `state` is the one `Seen` describes. */
  lemma SeenIs(values: map<int, real>, m: map<int, real>, r: map<int, real>, state: int)
    requires forall k :: 1 <= k < state ==> k in m && k in r && r[k] == m[k]
    requires forall k :: !(1 <= k < state) ==> (k in m <==> k in values)
    requires forall k :: k in m && !(1 <= k < state) ==> m[k] == values[k]
    ensures m == Seen(values, r, state)
  {
    var seen := Seen(values, r, state);
    assert forall k :: k in m <==> k in seen;
    assert forall k :: k in m ==> m[k] == seen[k];
  }

  /**
   * The sweep works in place and in increasing order: the new value of each
   * capital 1..goal-1 is `action_max` read from a map in which the smaller
   * capitals already hold their new values and the larger ones their old.
   */
  lemma SweepInOrder(g: Game, values: map<int, real>)
    ensures var r := SweepFrom(g, values, 1, 0.0).values;
      forall t :: 1 <= t < g.goal ==> t in r && r[t] == BestValue(g, Seen(values, r, t), t)
  {
    var r := SweepWith(g, Evaluate(g), values, 1, 0.0).values;
    assert r == SweepFrom(g, values, 1, 0.0).values;
    forall t | 1 <= t < g.goal
      ensures t in r && r[t] == BestValue(g, Seen(values, r, t), t)
    {
      SweepInOrderAt(g, Evaluate(g), values, t);
      EvaluateIs(g, Seen(values, r, t), t);
    }
  }

  /** A sweep whose `best` stays in [0, 1] keeps every value, and the change it reports, in [0, 1]. */
  lemma {:induction false} SweepWithUnit(g: Game, best: (map<int, real>, int) -> real,
                                         values: map<int, real>, state: int, delta: real)
    requires 1 <= state
    requires UnitGame(g) && AllUnit(values) && Unit(delta)
    requires forall m, s :: AllUnit(m) && 1 <= s < g.goal ==> Unit(best(m, s))
    ensures AllUnit(SweepWith(g, best, values, state, delta).values)
    ensures Unit(SweepWith(g, best, values, state, delta).delta)
    decreases g.goal - state
  {
    if state < g.goal {
      var after := values[state := best(values, state)];
      assert Unit(Get(values, state, g.initialValue));
      var d := Max(delta, Abs(Get(values, state, g.initialValue) - Get(after, state, g.initialValue)));
      SweepWithUnit(g, best, after, state + 1, d);
    }
  }

  /** With a game in [0, 1], `action_max`'s value read from values in [0, 1] is in [0, 1]. */
  lemma EvaluateUnit(g: Game)
    requires UnitGame(g)
    ensures forall m, s :: AllUnit(m) && 1 <= s < g.goal ==> Unit(Evaluate(g)(m, s))
  {
    forall m, s | AllUnit(m) && 1 <= s < g.goal
      ensures Unit(Evaluate(g)(m, s))
    {
      FirstBestUnit(g, m, s);
    }
  }

  /** With a game in [0, 1], a sweep keeps every value, and the change it reports, in [0, 1]. */
  lemma SweepUnit(g: Game, values: map<int, real>)
    requires UnitGame(g) && AllUnit(values)
    ensures AllUnit(SweepFrom(g, values, 1, 0.0).values)
    ensures Unit(SweepFrom(g, values, 1, 0.0).delta)
  {
    EvaluateUnit(g);
    SweepWithUnit(g, Evaluate(g), values, 1, 0.0);
  }

  // ---------------------------------------------------------------------------
  // Value iteration and the policy
  // ---------------------------------------------------------------------------

  /** The map the script starts from: capital 0 is worth 0. */
  const Start: map<int, real> := map[0 := 0.0]

  datatype Iteration = Iteration(values: map<int, real>, converged: bool)

  /**
   * The `while True` loop, cut off after `fuel` sweeps: sweep until a sweep's
   * delta falls below `theta`.
   */
  function Iterate(g: Game, theta: real, values: map<int, real>, fuel: nat): (r: Iteration)
    ensures r.converged ==> fuel > 0
    ensures forall k :: k in values ==> k in r.values
    ensures fuel > 0 ==> forall k :: 1 <= k < g.goal ==> k in r.values
    decreases fuel
  {
    if fuel == 0 then Iteration(values, false)
    else
      var s := SweepFrom(g, values, 1, 0.0);
      if s.delta < theta then Iteration(s.values, true) else Iterate(g, theta, s.values, fuel - 1)
  }

  /** The script's value iteration, with at most `fuel` sweeps. */
  method ValueIteration(g: Game, theta: real, fuel: nat) returns (values: map<int, real>, converged: bool)
    ensures Iteration(values, converged) == Iterate(g, theta, Start, fuel)
  {
    values := Start;
    var left := fuel;
    while left > 0
      invariant Iterate(g, theta, Start, fuel) == Iterate(g, theta, values, left)
    {
      var delta;
      values, delta := SweepOnce(g, values);
      if delta < theta {
        return values, true;
      }
      left := left - 1;
    }
    converged := false;
  }

  /**
   * Value iteration from the script's start keeps capital 0 at 0, and with a
   * game in [0, 1] every value in [0, 1]; after at least one sweep every
   * capital 0..99 has a value.
   */
  lemma {:induction false} IterateKeeps(g: Game, theta: real, values: map<int, real>, fuel: nat)
    requires 0 in values && values[0] == 0.0
    ensures var r := Iterate(g, theta, values, fuel).values;
      && 0 in r && r[0] == 0.0
      && (UnitGame(g) && AllUnit(values) ==> AllUnit(r))
      && (fuel > 0 ==> forall k :: 0 <= k < g.goal ==> k in r)
    decreases fuel
  {
    if fuel > 0 {
      var s := SweepFrom(g, values, 1, 0.0);
      if UnitGame(g) && AllUnit(values) {
        SweepUnit(g, values);
      }
      if !(s.delta < theta) {
        IterateKeeps(g, theta, s.values, fuel - 1);
      }
    }
  }

  /** The policy of 4.9/gamblers.py: the stake `action_max` picks for every capital 1..99. */
  function Policy(g: Game, values: map<int, real>): (policy: map<int, int>)
    ensures forall s :: s in policy <==> 1 <= s < g.goal
    ensures forall s :: 1 <= s < g.goal ==> 1 <= policy[s] <= MaxStake(g, s)
  {
    map s | 1 <= s < g.goal :: FirstBest(g, values, s, MaxStake(g, s)).value.action
  }

  /**
   * Each stake of the policy is the smallest stake of greatest expected value
   * under `values`.
   */
  lemma PolicyIsGreedy(g: Game, values: map<int, real>, state: int)
    requires 1 <= state < g.goal
    ensures var a := Policy(g, values)[state];
      && (forall b :: 1 <= b <= MaxStake(g, state) ==> StakeValue(g, values, state, b) <= StakeValue(g, values, state, a))
      && (forall b :: 1 <= b < a ==> StakeValue(g, values, state, b) < StakeValue(g, values, state, a))
  {
    FirstBestIsFirstMaximum(g, values, state, MaxStake(g, state));
  }

  /** The script's game has its probability and default value in [0, 1]. */
  lemma ScriptIsUnit()
    ensures UnitGame(Script) && Script.goal == 100
  {
  }

  /**
   * The script's value iteration, with `theta` and the start `{0: 0}`, keeps
   * capital 0 at 0 and every value in [0, 1], and after one sweep has a value
   * for every capital 0..99.
   */
  lemma ScriptValueIteration(fuel: nat)
    ensures var r := Iterate(Script, Theta, Start, fuel).values;
      && 0 in r && r[0] == 0.0
      && AllUnit(r)
      && (fuel > 0 ==> forall k :: 0 <= k < 100 ==> k in r)
  {
    ScriptIsUnit();
    assert AllUnit(Start);
    IterateKeeps(Script, Theta, Start, fuel);
  }
}

# Bandit testbed, n-step TD random walk and gambler's value iteration in Dafny

This project models three scripts of a reinforcement-learning exercise
repository and proves properties of the models.

- `testbed.dfy` (module `Testbed`) models `2.5/testbed.py`. This is the non-stationary
  ten-armed bandit testbed. Arms start with mean 0 and variance 1, and the mean of an
  arm drifts every time the arm is pulled. There are two agents:
  - `SampleAverageArms` updates an estimate by `1/n`;
  - `EpsilonGreedy` updates by a constant step size and explores with probability epsilon.

  `run_test` drives the agent for `runs` runs of `steps` steps. It then averages the
  reward and the fraction of optimal actions at each step. The arm list and the agent's
  estimate list are updated in place, so `TestBed` and `Agent` are classes whose methods
  update those fields. The tie-aware arg-max scan is a loop proved against the
  specification function `Maxima`. The experiment as a whole is proved against the
  function `Experiment`.
- `random_walk.dfy` (module `RandomWalkTD`) models `7.2/run.py`. This is the seven-state
  random walk `0 A B C D E T` with its in-place `step`. The model also covers the main
  loop that records a `(state, reward)` history and applies the n-step TD update to the
  state `n_step` frames back.
- `gamblers.dfy` (module `Gamblers`) models `4.9/gamblers.py`. `action_max` scans the
  stakes for the first maximum of the expected value. Each sweep rewrites the values of
  capitals 1..99 in place, in increasing order, and tracks the largest change. Sweeps
  repeat until that change falls below `theta`. Finally the policy picks the arg-max
  stake of every capital.
- `wrappers.dfy` (module `Wrappers`) holds `Option` and `Result`.

Every random draw becomes an input:
- the testbed reads one `Draw` per run and step;
- the random walk reads a start pick and a finite sequence of coins per episode.

Floating-point numbers become `real`. Python exceptions become `Err` values.

The model follows the code as written on these points:
- `run_test` resets neither the arms nor the agent between runs. A run starts from the
  drifted means and the estimates that the previous run left behind
  (`Testbed.NoResetBetweenRuns`).
- Whether an action was optimal is judged after `_pull` has drifted the pulled arm, not
  before (`Testbed.StepEffect`, `Testbed.OptimalityAfterDrift`).
- Neither agent has a reset method: both are built once, by their constructors, and their
  estimates carry over from run to run.
- The set of optimal actions is non-empty only when there is at least one arm
  (`Testbed.MaximaSpec`).

## Model

| member | source | states |
|---|---|---|
| Testbed.TiedMaxima | 2.5/testbed.py:54-64 | the tie-keeping scan returns exactly the indices of maximal value, in increasing order |
| Testbed.MaximaSpec | 2.5/testbed.py:99-109 | an index is kept by the scan iff no entry exceeds its value; the list is strictly increasing; it is non-empty iff there is an entry |
| Testbed.MaximaAppend | 2.5/testbed.py:105-108 | one more entry restarts the list on a larger value, appends on a tie compared against the first kept index, and otherwise leaves it unchanged |
| Testbed.MaximaOfOne | 2.5/testbed.py:101-103 | the first entry scanned is the only one kept |
| Testbed.UniqueMaximum | 2.5/testbed.py:54-67 | with one strictly largest entry the optimal set is that single index |
| Testbed.TestBed.OptimalActions | 2.5/testbed.py:54-67 | `_get_optimal_action` returns the arms of maximal mean |
| Testbed.Greedy | 2.5/testbed.py:98-111 | the greedy pick fails with IndexError exactly when there are no arms, and otherwise is an existing arm |
| Testbed.Pick | 2.5/testbed.py:129-145 | `pick_action` fails exactly when there are no arms and it does not explore; a pick outside the arms can only be the explored digit |
| Testbed.GreedyIsMaximal | 2.5/testbed.py:98-111 | a greedy pick exists iff there is an arm, and the picked arm's estimate is at least every other estimate |
| Testbed.EveryTieReachable | 2.5/testbed.py:110-111 | each tied maximum is the first element after some shuffle |
| Testbed.ExploresIffDrawAtMostEpsilon | 2.5/testbed.py:129-145 | epsilon-greedy explores with the drawn digit exactly when the uniform draw is at most epsilon, and otherwise picks greedily |
| Testbed.ExplorationCanLeaveRange | 2.5/testbed.py:144-145 | exploration returns `randint(0, 9)` even when there are fewer arms |
| Testbed.GreedyWithUniqueBest | 2.5/testbed.py:129-143 | with epsilon 0, a positive draw and a unique best estimate, both agents pick that arm |
| Testbed.Agent.PickAction | 2.5/testbed.py:129-145 | `pick_action` of either agent equals the `Pick` specification: exploration, greedy choice, or IndexError with no arms |
| Testbed.Agent.ProcessReward | 2.5/testbed.py:113-116 | only the chosen arm's estimate changes, by the agent's update rule |
| Testbed.Agent.SampleAverageArms | 2.5/testbed.py:89-97 | every one of `arms` (default 10) arms starts at the starting value with no rewards counted |
| Testbed.Agent.EpsilonGreedy | 2.5/testbed.py:118-127 | the step size and epsilon are kept, and every one of `arms` (default 10) arms starts at the starting value with no rewards counted |
| Testbed.FreshEstimates | 2.5/testbed.py:93-97 | builds one fresh estimate per arm |
| Testbed.Update | 2.5/testbed.py:113-116 | `process_reward` counts one more reward, and the sample-average estimate (or a constant step in [0, 1]) moves to a value between the old estimate and the reward |
| Testbed.TowardsMean | 2.5/testbed.py:116 | a 1/n step, n >= 1, from the estimate towards the reward stays between the two |
| Testbed.TowardsReward | 2.5/testbed.py:150 | a step of a fraction in [0, 1] towards the reward stays between the estimate and the reward |
| Testbed.ReplayCounts | 2.5/testbed.py:113-115 | each processed reward adds one to the arm's reward count |
| Testbed.TotalStep | 2.5/testbed.py:113-116 | one sample-average update adds exactly the reward to value times count |
| Testbed.SampleAverageTotal | 2.5/testbed.py:113-116 | after any rewards, value times count has grown by their sum |
| Testbed.SampleAverageIsMean | 2.5/testbed.py:113-116 | after k > 0 rewards from a fresh arm the estimate is their arithmetic mean, whatever the starting value |
| Testbed.SumPermutation | 2.5/testbed.py:113-116 | the sum of the rewards does not depend on their order |
| Testbed.SampleAverageOrderFree | 2.5/testbed.py:113-116 | the sample-average estimate is the same for any reordering of the rewards |
| Testbed.StepSizeOneKeepsLatest | 2.5/testbed.py:147-150 | with step size 1 the estimate becomes the latest reward |
| Testbed.ConstantStepClosedForm | 2.5/testbed.py:147-150 | the constant-step estimate is the exponential recency-weighted average of the start value and the rewards |
| Testbed.ClosedFormCons | 2.5/testbed.py:150 | folding one reward into the start value leaves the recency-weighted average unchanged |
| Testbed.ConstantStepExample | 2.5/testbed.py:147-150 | step size 0.1 and rewards 10, 10, 10 from 0 give the estimates 1, 1.9 and 2.71 |
| Testbed.Drift | 2.5/testbed.py:69-80 | a pull changes only the pulled arm's mean, by the drift, and keeps its variance |
| Testbed.TestBed.Pull | 2.5/testbed.py:69-80 | `_pull` returns the sample and drifts the pulled arm in place |
| Testbed.StepEffect | 2.5/testbed.py:26-34 | a successful step drifts the picked arm, counts one more reward for it only, records the sampled reward, and records optimality against the drifted means |
| Testbed.Step | 2.5/testbed.py:26-34 | one iteration of `run_test` keeps the number of arms and estimates, leaves the estimates untouched when it raises, and records the sampled reward |
| Testbed.OptimalityAfterDrift | 2.5/testbed.py:28-33 | an arm that was tied-optimal before its pull can be recorded as not optimal |
| Testbed.RunFrom | 2.5/testbed.py:24-35 | a completed run has exactly `steps` records |
| Testbed.RunsFrom | 2.5/testbed.py:22-35 | a completed experiment has `runs` runs of `steps` records each |
| Testbed.NoResetBetweenRuns | 2.5/testbed.py:21-35 | the second run continues from the estimates that the first run left |
| Testbed.OptimalCountBounded | 2.5/testbed.py:40-46 | the count of optimal runs at a step is at most the number of runs |
| Testbed.OptimalCountIsCardinality | 2.5/testbed.py:40-46 | the optimal count is the number of runs whose record at that step is optimal |
| Testbed.StepStats | 2.5/testbed.py:38-50 | the summary of one step has its `percent_optimal` in [0, 1] |
| Testbed.Summary | 2.5/testbed.py:37-52 | the aggregation succeeds exactly when there is a run or no step, and then yields one summary per step |
| Testbed.StepStatsOptimal | 2.5/testbed.py:37-50 | `percent_optimal` is the fraction of optimal runs and lies in [0, 1] |
| Testbed.Summarize | 2.5/testbed.py:37-52 | the aggregation loop equals the `Summary` specification, including ZeroDivisionError with no runs |
| Testbed.ExperimentSummaries | 2.5/testbed.py:21-52 | `run_test` yields exactly `steps` summaries, each `percent_optimal` the fraction of optimal runs and in [0, 1]; with no runs and some steps it raises ZeroDivisionError |
| Testbed.Experiment | 2.5/testbed.py:21-52 | a completed `run_test` yields one summary per step, and with no runs the arms and estimates are left as they were |
| Testbed.TestBed.RunTest | 2.5/testbed.py:21-52 | the result and the final arms and estimates are those of the `Experiment` specification, error paths included |
| Testbed.TestBed.NonStationary | 2.5/testbed.py:11-19 | the non-stationary bed starts with `arms` arms of mean 0 and variance 1 |
| Testbed.NewTestBed | 2.5/testbed.py:6-19 | the stationary mode (the default) raises NotImplementedError; otherwise a fresh bed of `arms` (default 10) fresh arms |
| Testbed.DefaultTestBed | 2.5/testbed.py:6-10 | `TestBed(agent)` with its defaults is stationary and raises NotImplementedError |
| Testbed.DefaultAgents | 2.5/testbed.py:90-127 | both agents built with their default `arms=10` have ten estimates |
| RandomWalkTD.IndexOf | 7.2/run.py:18 | `list.index` returns the first position holding the state |
| RandomWalkTD.Position | 7.2/run.py:11 | the position of each state on the chain |
| RandomWalkTD.PositionOfIndex | 7.2/run.py:11 | every index of the chain is the position of the state stored there |
| RandomWalkTD.PositionIsIndex | 7.2/run.py:11-18 | the states are distinct, so `states.index` finds each state's position |
| RandomWalkTD.Next | 7.2/run.py:17-27 | a step that succeeds lands on a state of the chain |
| RandomWalkTD.TerminalAtEnds | 7.2/run.py:14-15 | the terminal states are exactly the two ends of the chain |
| RandomWalkTD.StartsAreInner | 7.2/run.py:12 | no start state is terminal |
| RandomWalkTD.RandomWalk.Terminal | 7.2/run.py:14-15 | `terminal()` holds exactly at the two ends of the chain |
| RandomWalkTD.StepMovesOne | 7.2/run.py:17-27 | from an inner state, coin 1 moves one right and coin 0 one left; the reward is 1 exactly on reaching 'T', and 0 otherwise |
| RandomWalkTD.StepFromTerminal | 7.2/run.py:17-27 | stepping right from 'T' raises IndexError; stepping left from '0' wraps to 'T' |
| RandomWalkTD.RandomWalk.constructor | 7.2/run.py:10-12 | the walk starts at the picked start state, which is not terminal |
| RandomWalkTD.RandomWalk.Step | 7.2/run.py:17-27 | `step` updates the state in place and returns the reward that `Next` specifies, or IndexError |
| RandomWalkTD.Window | 7.2/run.py:47-52 | once `tau >= 0`, the window after `tau` holds exactly `n_step` frames, all with rewards, and ends at `tau + n_step` |
| RandomWalkTD.WindowOf | 7.2/run.py:50-52 | `history[tau + 1:]` has exactly `n_step` frames, each carrying a reward |
| RandomWalkTD.NStepReturn | 7.2/run.py:50-55 | G is the discounted rewards of the window alone when the window reaches a terminal state (or nothing has been learned yet, with initial value 0) |
| RandomWalkTD.TdUpdate | 7.2/run.py:57 | the update adds at most the key of `history[tau]`'s state and keeps every other value |
| RandomWalkTD.UpdateOnlyTarget | 7.2/run.py:57 | the update moves only the value of `history[tau]`'s state, by step_size times (G minus old value) |
| RandomWalkTD.DiscountedLastOnly | 7.2/run.py:50 | when only the last reward is non-zero, the discounted sum is that reward times gamma to its index |
| RandomWalkTD.ReturnOfWalk | 7.2/run.py:50-55 | along a walk, G is gamma^(n-1) on reaching 'T', 0 on reaching '0', and otherwise the discounted value of the state reached |
| RandomWalkTD.ScriptReturn | 7.2/run.py:30-55 | with gamma 1 and n_step 3, G is 1 at 'T', 0 at '0', and otherwise the value of the state reached |
| RandomWalkTD.LearnedSnoc | 7.2/run.py:45-57 | appending a frame applies the update once exactly when `tau >= 0` |
| RandomWalkTD.Walk | 7.2/run.py:42-45 | an episode appends at most one frame per coin, each on the chain and carrying a reward |
| RandomWalkTD.Learned | 7.2/run.py:45-57 | learning along a history never removes a state, and changes nothing while the history holds at most `n_step` frames |
| RandomWalkTD.Episode | 7.2/run.py:37-57 | the loop's history is the start frame followed by the walk, and its values are `Learned` along that history |
| RandomWalkTD.WalkLength | 7.2/run.py:42-45 | an episode uses at most its coins and stops early only at a terminal state |
| RandomWalkTD.WalkFrames | 7.2/run.py:42-45 | walk frames lie on the chain, are rewarded 1 exactly on reaching 'T', and only the last can be terminal |
| RandomWalkTD.WalkAdjacent | 7.2/run.py:17-27 | consecutive states of a walk are neighbours on the chain |
| RandomWalkTD.EpisodeShape | 7.2/run.py:37-45 | every episode history is a walk history, and one that does not end at a terminal state has used all its coins |
| RandomWalkTD.LearnedInnerOnly | 7.2/run.py:47-57 | along a walk, only inner states are written, and the terminal states' values never change |
| RandomWalkTD.Train | 7.2/run.py:33-57 | the episodes share one value map that starts empty; the result is `Trained` |
| RandomWalkTD.Trained | 7.2/run.py:36-57 | a run of episodes never removes a state from the value map |
| RandomWalkTD.TrainedInnerOnly | 7.2/run.py:33-57 | training gives values only to the states A..E |
| Gamblers.FirstBest | 4.9/gamblers.py:3-23 | the scan finds no stake iff the range is empty, and otherwise a stake in range with its expected value |
| Gamblers.FirstBestIsFirstMaximum | 4.9/gamblers.py:14-19 | the chosen stake's value is at least every stake's value and strictly above every smaller stake's value |
| Gamblers.ActionMax | 4.9/gamblers.py:3-23 | `action_max`'s loop returns the `FirstBest` choice |
| Gamblers.ActionInRange | 4.9/gamblers.py:6 | a capital strictly between 0 and the goal has a stake in 1..min(s, 100 - s), and capitals 0 and 100 have none |
| Gamblers.Lookups | 4.9/gamblers.py:6-12 | a stake in range loses to a capital of at least 0 and wins at most to the goal |
| Gamblers.StakeValue | 4.9/gamblers.py:7-12 | with probability, default and stored values in [0, 1], every stake's expected value is in [0, 1] |
| Gamblers.FirstBestUnit | 4.9/gamblers.py:3-23 | `action_max`'s value is in [0, 1] under the same conditions |
| Gamblers.SweepWith | 4.9/gamblers.py:37-42 | a sweep defines every capital from its start to goal-1, keeps every other entry, and never lowers delta |
| Gamblers.SweepFrom | 4.9/gamblers.py:37-42 | the script's sweep gives every capital up to goal-1 a value, keeps every other capital, adds no other key, and never lowers delta |
| Gamblers.SweepOnce | 4.9/gamblers.py:37-42 | the in-place sweep loop computes the `SweepFrom` specification, values and delta |
| Gamblers.SweepStep | 4.9/gamblers.py:39-42 | one iteration writes `action_max`'s value for the capital and folds its change into delta |
| Gamblers.SweepWithWrites | 4.9/gamblers.py:40 | a capital's new value is not overwritten by the rest of the sweep |
| Gamblers.SweepDeltaIsLargestChange | 4.9/gamblers.py:39-42 | the sweep's delta is the running maximum of the changes, measured against values before the sweep |
| Gamblers.LargestChangeBounds | 4.9/gamblers.py:42 | the running maximum bounds every change it passes |
| Gamblers.LargestChangeAttained | 4.9/gamblers.py:42 | the running maximum is its start value or one of the changes |
| Gamblers.SweepDelta | 4.9/gamblers.py:37-42 | a sweep's delta is at least every capital's absolute change and equals one of them, or 0 |
| Gamblers.SweepInOrderFrom | 4.9/gamblers.py:38-40 | from any capital on, each new value is computed from the map with smaller capitals updated and larger ones old |
| Gamblers.SweepInOrderAt | 4.9/gamblers.py:38-40 | the same, for one capital of a whole sweep |
| Gamblers.SweepInOrder | 4.9/gamblers.py:38-40 | the sweep is in place and in increasing order: each capital's new value is `action_max` read from the map holding the new values below it and the old values above it |
| Gamblers.SweepWithUnit | 4.9/gamblers.py:37-42 | a sweep whose evaluation stays in [0, 1] keeps every value and the delta in [0, 1] |
| Gamblers.EvaluateUnit | 4.9/gamblers.py:40 | `action_max`'s value stays in [0, 1] for every map of values in [0, 1] |
| Gamblers.SweepUnit | 4.9/gamblers.py:37-42 | with a game in [0, 1], one sweep keeps every value and the delta in [0, 1] |
| Gamblers.ValueIteration | 4.9/gamblers.py:28-46 | the loop from `{0: 0}` computes `Iterate`, which stops at the first delta below theta |
| Gamblers.Iterate | 4.9/gamblers.py:36-46 | the loop reports convergence only after a sweep, never loses a capital, and after one sweep has every capital 1..goal-1 |
| Gamblers.IterateKeeps | 4.9/gamblers.py:28-46 | capital 0 stays at 0; with a game in [0, 1] every value stays in [0, 1]; after one sweep capitals 0..99 all have values |
| Gamblers.ScriptIsUnit | 4.9/gamblers.py:28-35 | the script's game has goal 100 and its probability and default value in [0, 1] |
| Gamblers.ScriptValueIteration | 4.9/gamblers.py:28-46 | the script's iteration from `{0: 0}` with its `theta` keeps capital 0 at 0 and every value in [0, 1], and after one sweep has every capital 0..99 |
| Gamblers.Policy | 4.9/gamblers.py:48-51 | the policy has an entry for exactly capitals 1..goal-1, each a stake in range |
| Gamblers.PolicyIsGreedy | 4.9/gamblers.py:48-51 | each policy stake is the smallest stake of greatest expected value |

## Left out

- Randomness. `random.random`, `random.randint`, `random.choice`, `random.gauss` and
  `random.shuffle` are not modelled as distributions. Their outcomes are inputs: a
  `Draw` per run and step in the testbed, and a start pick plus coins per episode. The
  seeds are not modelled.
- Testbed.Greedy: the order in which `random.shuffle` leaves the tied maxima is not
  modelled. Only the first element matters, and it is chosen by `tieBreak` among the
  tied set. `_get_optimal_action` is modelled before its shuffle, in scan order, which
  membership does not depend on.
- Testbed.TestBed.Pull: the reward distribution is not modelled. The sample, whose
  standard deviation is `variance ** 2`, and the drift of `gauss(0, 0.01)` are given
  numbers.
- Floating-point rounding is not modelled: all values are exact `real`s. The claims
  about means, closed forms and bounds are exact-arithmetic claims.
- The abstract `Method` base class is not a separate type. The two agents are one
  `Agent` class with a `Rule` tag and one constructor per Python class.
- The stationary branch of `_pull` is not modelled. `NewTestBed` raises
  NotImplementedError for the stationary mode, so no stationary bed exists to pull from.
- The CSV output and the `__main__` driver of the testbed are not modelled, and neither
  are the `print` / `pprint` calls of the random walk and gambler scripts.
- Negative counts are not representable: `arms`, `steps` and `runs` are `nat`s. Python's
  `range` treats a negative count as 0, and the count 0 is modelled.
- The experiment sizes of the drivers are parameters rather than fixed constants:
  10000 steps, 1000 runs, 20000 episodes. The default of 10 arms is kept as a
  default parameter value.
- RandomWalkTD.Episode: an episode is cut off when its finite sequence of coins runs
  out, so an episode whose walk never terminates is not represented.
- Gamblers.ValueIteration: the `while True` loop is bounded by a `fuel` count of sweeps.
  The result reports whether the delta fell below theta within that many sweeps.
  Termination of the unbounded loop is not proved.
- The goal of 100 is the `goal` field of `Game`. `Gamblers.Script` holds the script's
  values.

/**
 * The seven-state random walk and the n-step temporal-difference updates of
 * 7.2/run.py.
 *
 * The walk starts in one of A..E and moves one position left or right per
 * coin until it reaches a terminal state '0' or 'T'; only reaching 'T' from
 * the right move pays 1.  The main loop records a history of (state, reward)
 * frames and, once it holds more than `n_step` frames, updates the value of
 * the state `n_step` frames back towards the n-step return.
 *
 * The start choice and the coins are inputs; numbers are `real`.
 */
module RandomWalkTD {
  import opened Wrappers

  /** The chain: the left terminal, the five inner states, the right terminal. */
  const States: seq<char> := ['0', 'A', 'B', 'C', 'D', 'E', 'T']

  /** The states an episode may start from. */
  const Starts: seq<char> := ['A', 'B', 'C', 'D', 'E']

  /** A value of `random.randint(0, 1)`. */
  type Bit = b: int | 0 <= b <= 1

  /** Which element `random.choice` picks from the starts. */
  type StartPick = i: int | 0 <= i < 5

  datatype Error = IndexError

  /** The new state and the reward of one `step`. */
  datatype Move = Move(state: char, reward: int)

  predicate IsTerminal(s: char)
  {
    s == 'T' || s == '0'
  }

  /** `list.index`: the first position of `x` in `xs`. */
  function IndexOf(xs: seq<char>, x: char): (i: nat)
    requires x in xs
    ensures i < |xs| && xs[i] == x && x !in xs[..i]
  {
    if xs[0] == x then 0 else 1 + IndexOf(xs[1..], x)
  }

  /** The position of a state on the chain, read off the list of states. */
  function Position(s: char): (i: nat)
    requires s in States
    ensures i < |States| && States[i] == s
  {
    if s == '0' then 0
    else if s == 'A' then 1
    else if s == 'B' then 2
    else if s == 'C' then 3
    else if s == 'D' then 4
    else if s == 'E' then 5
    else 6
  }

  /** Each index of the list of states is the position of the state found there. */
  lemma PositionOfIndex(j: int)
    requires 0 <= j < |States|
    ensures Position(States[j]) == j
  {
    if j == 0 {
    } else if j == 1 {
    } else if j == 2 {
    } else if j == 3 {
    } else if j == 4 {
    } else if j == 5 {
    } else {
    }
  }

  /** The states are distinct, so `states.index` finds the position of each. */
  lemma PositionIsIndex(s: char)
    requires s in States
    ensures IndexOf(States, s) == Position(s)
  {
    PositionOfIndex(IndexOf(States, s));
  }

  /**
   * `step` from `s`: the coin 1 moves right (paying 1 on reaching 'T'), the
   * coin 0 moves left.  Moving right from 'T' indexes past the list and raises
   * IndexError; moving left from '0' reads `states[-1]`, which is 'T'.
   */
  function Next(s: char, coin: Bit): (m: Result<Move, Error>)
    requires s in States
    ensures m.Ok? ==> m.value.state in States
  {
    var i := Position(s);
    if coin == 1 then
      if i + 1 < |States| then Ok(Move(States[i + 1], if States[i + 1] == 'T' then 1 else 0))
      else Err(IndexError)
    else
      Ok(Move(if i == 0 then States[|States| - 1] else States[i - 1], 0))
  }

  /** The terminal states are exactly the two ends of the chain. */
  lemma TerminalAtEnds(s: char)
    requires s in States
    ensures IsTerminal(s) <==> Position(s) == 0 || Position(s) == |States| - 1
  {
  }

  /** No start state is terminal. */
  lemma StartsAreInner(pick: StartPick)
    ensures Starts[pick] in States && !IsTerminal(Starts[pick])
  {
  }

  /**
   * From a non-terminal state a step moves exactly one position, right on
   * coin 1 and left on coin 0, stays on the chain, and pays 1 exactly when it
   * lands on 'T'.
   */
  lemma StepMovesOne(s: char, coin: Bit)
    requires s in States && !IsTerminal(s)
    ensures Next(s, coin).Ok?
    ensures var t := Next(s, coin).value.state;
      && Position(t) == Position(s) + (if coin == 1 then 1 else -1)
      && (Next(s, coin).value.reward == 1 <==> t == 'T')
      && Next(s, coin).value.reward in {0, 1}
  {
    var i := Position(s);
    var t := Next(s, coin).value.state;
    assert t == States[if coin == 1 then i + 1 else i - 1];
  }

  /** What a step from a terminal state does, as written. */
  lemma StepFromTerminal()
    ensures Next('T', 1) == Err(IndexError)
    ensures Next('T', 0) == Ok(Move('E', 0))
    ensures Next('0', 0) == Ok(Move('T', 0))
    ensures Next('0', 1) == Ok(Move('A', 0))
  {
  }

  /** `RandomWalk`: the current state of the walk, changed in place by `step`. */
  class RandomWalk {
    var state: char

    ghost predicate Valid()
      reads this
    {
      state in States
    }

    /** `__init__`, with the choice of `random.choice` passed in. */
    constructor (pick: StartPick)
      ensures Valid() && state == Starts[pick] && !Terminal()
    {
      state := Starts[pick];
    }

    /** `terminal()`: the walk is at one of the two ends of the chain. */
    predicate Terminal()
      reads this
      ensures Valid() ==> (Terminal() <==> Position(state) == 0 || Position(state) == |States| - 1)
    {
      IsTerminal(state)
    }

    /** `step()`, with the value of `random.randint(0, 1)` passed in. */
    method Step(coin: Bit) returns (r: Result<int, Error>)
      requires Valid()
      modifies this
      ensures Valid()
      ensures Next(old(state), coin).Err? ==> r == Err(IndexError) && state == old(state)
      ensures Next(old(state), coin).Ok? ==>
        r == Ok(Next(old(state), coin).value.reward) && state == Next(old(state), coin).value.state
    {
      PositionIsIndex(state);
      var i := IndexOf(States, state);
      if coin == 1 {
        if i + 1 >= |States| {
          return Err(IndexError);
        }
        state := States[i + 1];
        if state == 'T' {
          return Ok(1);
        }
      } else {
        state := if i == 0 then States[|States| - 1] else States[i - 1];
      }
      return Ok(0);
    }
  }

  // ---------------------------------------------------------------------------
  // Histories and the n-step return
  // ---------------------------------------------------------------------------

  /** One entry of `history`: a state and the reward that led to it (none for the start). */
  datatype Frame = Frame(state: char, reward: Option<int>)

  /** The learning constants of the main loop. */
  datatype Config = Config(stepSize: real, nStep: nat, gamma: real, initialValue: real)

  /** The values the script uses. */
  const Script: Config := Config(0.15, 3, 1.0, 0.0)

  /** A history as the main loop builds it: the start frame has no reward, every later one has. */
  predicate WellFormed(h: seq<Frame>)
  {
    |h| > 0 && h[0].reward == None && forall i :: 1 <= i < |h| ==> h[i].reward.Some?
  }

  /** `value.get(s, default)`. */
  function Get(value: map<char, real>, s: char, default: real): real
  {
    if s in value then value[s] else default
  }

  function Pow(x: real, n: nat): real
  {
    if n == 0 then 1.0 else x * Pow(x, n - 1)
  }

  /** The sum of gamma^(k + i) * reward_i over the frames. */
  function Discounted(frames: seq<Frame>, gamma: real, k: nat): real
    requires forall i :: 0 <= i < |frames| ==> frames[i].reward.Some?
  {
    if frames == [] then 0.0
    else Pow(gamma, k) * frames[0].reward.value as real + Discounted(frames[1..], gamma, k + 1)
  }

  /** Some frame is in a terminal state. */
  predicate AnyTerminal(frames: seq<Frame>)
  {
    exists i :: 0 <= i < |frames| && IsTerminal(frames[i].state)
  }

  /** `tau`: the index of the frame whose state is updated. */
  function Tau(cfg: Config, h: seq<Frame>): int
  {
    |h| - cfg.nStep - 1
  }

  /**
   * The window `history[tau + 1:]` has exactly `n_step` frames, none of them
   * the start frame, so every one carries a reward; the bootstrap index
   * `tau + n_step` is the last frame.
   */
  lemma Window(cfg: Config, h: seq<Frame>)
    requires WellFormed(h) && Tau(cfg, h) >= 0
    ensures |h[Tau(cfg, h) + 1..]| == cfg.nStep
    ensures 1 <= Tau(cfg, h) + 1 && Tau(cfg, h) + cfg.nStep == |h| - 1
    ensures forall f :: f in h[Tau(cfg, h) + 1..] ==> f.reward.Some?
  {
  }

  /** `history[tau + 1:]`: the last `n_step` frames, each of which carries a reward. */
  function WindowOf(cfg: Config, h: seq<Frame>): (w: seq<Frame>)
    requires WellFormed(h) && Tau(cfg, h) >= 0
    ensures |w| == cfg.nStep && forall i :: 0 <= i < |w| ==> w[i].reward.Some?
  {
    var w := h[Tau(cfg, h) + 1..];
    assert forall i :: 0 <= i < |w| ==> w[i] == h[Tau(cfg, h) + 1 + i];
    w
  }

  /**
   * `G`: the discounted rewards of the window, plus the
   * discounted value of the last frame's state when no frame of the window is
   * terminal.
   */
  function NStepReturn(cfg: Config, h: seq<Frame>, value: map<char, real>): (r: real)
    requires WellFormed(h) && Tau(cfg, h) >= 0
    ensures AnyTerminal(WindowOf(cfg, h)) || (value == map[] && cfg.initialValue == 0.0)
      ==> r == Discounted(WindowOf(cfg, h), cfg.gamma, 0)
  {
    var tau := Tau(cfg, h);
    var window := WindowOf(cfg, h);
    var g := Discounted(window, cfg.gamma, 0);
    if AnyTerminal(window) then g
    else g + Get(value, h[tau + cfg.nStep].state, cfg.initialValue) * Pow(cfg.gamma, cfg.nStep)
  }

  /** The update of the main loop: move the value of the state `tau` frames in towards `G`. */
  function TdUpdate(cfg: Config, h: seq<Frame>, value: map<char, real>): (r: map<char, real>)
    requires WellFormed(h) && Tau(cfg, h) >= 0
    ensures r.Keys == value.Keys + {h[Tau(cfg, h)].state}
    ensures forall t :: t in value && t != h[Tau(cfg, h)].state ==> r[t] == value[t]
  {
    var s := h[Tau(cfg, h)].state;
    var current := Get(value, s, cfg.initialValue);
    value[s := current + cfg.stepSize * (NStepReturn(cfg, h, value) - current)]
  }

  /**
   * The update changes only the entry of `history[tau]`'s state, to
   * old + step_size * (G - old), where a missing entry reads as the initial value.
   */
  lemma UpdateOnlyTarget(cfg: Config, h: seq<Frame>, value: map<char, real>)
    requires WellFormed(h) && Tau(cfg, h) >= 0
    ensures TdUpdate(cfg, h, value).Keys == value.Keys + {h[Tau(cfg, h)].state}
    ensures var s := h[Tau(cfg, h)].state;
      TdUpdate(cfg, h, value)[s] - Get(value, s, cfg.initialValue)
      == cfg.stepSize * (NStepReturn(cfg, h, value) - Get(value, s, cfg.initialValue))
    ensures forall t :: t != h[Tau(cfg, h)].state ==>
      Get(TdUpdate(cfg, h, value), t, cfg.initialValue) == Get(value, t, cfg.initialValue)
  {
  }

  // ---------------------------------------------------------------------------
  // Episodes
  // ---------------------------------------------------------------------------

  /**
   * The frames an episode appends after the start frame when it is in state
   * `s` and the next coin is `coins[k]`: it stops at a terminal state, or when
   * the coins run out.
   */
  function Walk(s: char, coins: seq<Bit>, k: nat): (w: seq<Frame>)
    requires s in States && k <= |coins|
    ensures |w| <= |coins| - k
    ensures forall i :: 0 <= i < |w| ==> w[i].state in States && w[i].reward.Some?
    decreases |coins| - k
  {
    if IsTerminal(s) || k == |coins| then []
    else
      StepMovesOne(s, coins[k]);
      var m := Next(s, coins[k]).value;
      [Frame(m.state, Some(m.reward))] + Walk(m.state, coins, k + 1)
  }

  /** One unfolding of `Walk` from a non-terminal state with a coin left. */
  lemma WalkStep(s: char, coins: seq<Bit>, k: nat)
    requires s in States && !IsTerminal(s) && k < |coins|
    ensures Next(s, coins[k]).Ok?
    ensures Walk(s, coins, k)
      == [Frame(Next(s, coins[k]).value.state, Some(Next(s, coins[k]).value.reward))]
         + Walk(Next(s, coins[k]).value.state, coins, k + 1)
  {
    StepMovesOne(s, coins[k]);
  }

  /** Taking one step moves one frame from the remaining walk to the history. */
  lemma WalkExtend(history: seq<Frame>, s: char, coins: seq<Bit>, k: nat)
    requires s in States && !IsTerminal(s) && k < |coins|
    ensures Next(s, coins[k]).Ok?
    ensures var m := Next(s, coins[k]).value;
      history + Walk(s, coins, k) == (history + [Frame(m.state, Some(m.reward))]) + Walk(m.state, coins, k + 1)
  {
    WalkStep(s, coins, k);
    var m := Next(s, coins[k]).value;
    var f := Frame(m.state, Some(m.reward));
    assert history + ([f] + Walk(m.state, coins, k + 1)) == (history + [f]) + Walk(m.state, coins, k + 1);
  }

  /** The values after the main loop has processed every prefix of `h`. */
  function Learned(cfg: Config, value: map<char, real>, h: seq<Frame>): (r: map<char, real>)
    requires WellFormed(h)
    ensures value.Keys <= r.Keys
    ensures |h| <= cfg.nStep ==> r == value
    decreases |h|
  {
    if |h| == 1 then value
    else
      var before := Learned(cfg, value, h[..|h| - 1]);
      if Tau(cfg, h) >= 0 then TdUpdate(cfg, h, before) else before
  }

  /** Appending one frame adds at most one update to the learned values. */
  lemma LearnedSnoc(cfg: Config, value: map<char, real>, h: seq<Frame>, f: Frame)
    requires WellFormed(h) && f.reward.Some?
    ensures WellFormed(h + [f])
    ensures Learned(cfg, value, h + [f])
      == if Tau(cfg, h + [f]) >= 0 then TdUpdate(cfg, h + [f], Learned(cfg, value, h))
         else Learned(cfg, value, h)
  {
    assert (h + [f])[..|h + [f]| - 1] == h;
  }

  /**
   * One episode of the main loop: walk from the start, append a
   * frame per step, and update the value map once the history is long enough.
   * The loop stops at a terminal state, or when the coins run out.
   */
  method Episode(cfg: Config, value: map<char, real>, pick: StartPick, coins: seq<Bit>)
    returns (learned: map<char, real>, history: seq<Frame>)
    ensures history == [Frame(Starts[pick], None)] + Walk(Starts[pick], coins, 0)
    ensures WellFormed(history) && learned == Learned(cfg, value, history)
  {
    var env := new RandomWalk(pick);
    history := [Frame(env.state, None)];
    learned := value;
    var k := 0;
    while !env.Terminal() && k < |coins|
      invariant env.Valid() && k <= |coins|
      invariant WellFormed(history) && history[|history| - 1].state == env.state
      invariant [Frame(Starts[pick], None)] + Walk(Starts[pick], coins, 0) == history + Walk(env.state, coins, k)
      invariant learned == Learned(cfg, value, history)
      decreases |coins| - k
    {
      var current := env.state;
      StepMovesOne(current, coins[k]);
      var m := Next(current, coins[k]).value;
      var r := env.Step(coins[k]);
      assert r == Ok(m.reward) && env.state == m.state;
      var h := history + [Frame(m.state, Some(m.reward))];
      LearnedSnoc(cfg, value, history, Frame(m.state, Some(m.reward)));
      WalkExtend(history, current, coins, k);
      history := h;
      if |history| - cfg.nStep - 1 >= 0 {
        learned := TdUpdate(cfg, history, learned);
      }
      k := k + 1;
    }
  }

  // ---------------------------------------------------------------------------
  // What an episode looks like, and what it learns
  // ---------------------------------------------------------------------------

  /** `b` is one position left or right of `a` on the chain. */
  predicate Adjacent(a: char, b: char)
    requires a in States && b in States
  {
    Position(b) == Position(a) + 1 || Position(b) == Position(a) - 1
  }

  /** The state a walk from `s` has reached. */
  function LastState(s: char, w: seq<Frame>): char
  {
    if w == [] then s else w[|w| - 1].state
  }

  /**
   * An episode history: every state on the chain, only the last one terminal,
   * each state next to the one before it, and a reward of 1 exactly on
   * arriving at 'T' (0 otherwise).
   */
  predicate WalkHistory(h: seq<Frame>)
  {
    && WellFormed(h)
    && (forall i :: 0 <= i < |h| ==> h[i].state in States)
    && (forall i :: 0 <= i < |h| - 1 ==> !IsTerminal(h[i].state))
    && (forall i :: 1 <= i < |h| ==> h[i].reward == Some(if h[i].state == 'T' then 1 else 0))
    && (forall i :: 1 <= i < |h| ==> Adjacent(h[i - 1].state, h[i].state))
  }

  /** A walk uses at most the coins it is given, and stops early only at a terminal state. */
  lemma {:induction false} WalkLength(s: char, coins: seq<Bit>, k: nat)
    requires s in States && k <= |coins|
    ensures var w := Walk(s, coins, k);
      && |w| <= |coins| - k
      && (!IsTerminal(LastState(s, w)) ==> |w| == |coins| - k)
    decreases |coins| - k
  {
    if !IsTerminal(s) && k < |coins| {
      WalkStep(s, coins, k);
      var m := Next(s, coins[k]).value;
      WalkLength(m.state, coins, k + 1);
      var rest := Walk(m.state, coins, k + 1);
      assert LastState(s, Walk(s, coins, k)) == LastState(m.state, rest);
    }
  }

  /** The frames of a walk from `s`: on the chain, rewarded as a walk history says, terminal only at the end. */
  lemma {:induction false} WalkFrames(s: char, coins: seq<Bit>, k: nat)
    requires s in States && k <= |coins|
    ensures var w := Walk(s, coins, k);
      && (|w| > 0 ==> !IsTerminal(s))
      && (forall i :: 0 <= i < |w| ==> w[i].state in States)
      && (forall i :: 0 <= i < |w| ==> w[i].reward == Some(if w[i].state == 'T' then 1 else 0))
      && (forall i :: 0 <= i < |w| - 1 ==> !IsTerminal(w[i].state))
    decreases |coins| - k
  {
    if !IsTerminal(s) && k < |coins| {
      WalkStep(s, coins, k);
      StepMovesOne(s, coins[k]);
      var m := Next(s, coins[k]).value;
      WalkFrames(m.state, coins, k + 1);
      var rest := Walk(m.state, coins, k + 1);
      var w := Walk(s, coins, k);
      assert w[0] == Frame(m.state, Some(m.reward));
      assert forall i :: 1 <= i < |w| ==> w[i] == rest[i - 1];
    }
  }

  /** Each frame of a walk from `s` is one position away from the one before it. */
  lemma {:induction false} WalkAdjacent(s: char, coins: seq<Bit>, k: nat)
    requires s in States && k <= |coins|
    ensures var w := Walk(s, coins, k);
      && (forall i :: 0 <= i < |w| ==> w[i].state in States)
      && (|w| > 0 ==> Adjacent(s, w[0].state))
      && (forall i :: 1 <= i < |w| ==> Adjacent(w[i - 1].state, w[i].state))
    decreases |coins| - k
  {
    if !IsTerminal(s) && k < |coins| {
      WalkStep(s, coins, k);
      StepMovesOne(s, coins[k]);
      var m := Next(s, coins[k]).value;
      WalkAdjacent(m.state, coins, k + 1);
      var rest := Walk(m.state, coins, k + 1);
      var w := Walk(s, coins, k);
      assert w == [Frame(m.state, Some(m.reward))] + rest;
      assert Adjacent(s, w[0].state);
      forall i | 1 <= i < |w|
        ensures w[i].state in States && Adjacent(w[i - 1].state, w[i].state)
      {
        assert w[i] == rest[i - 1];
        if i > 1 {
          assert w[i - 1] == rest[i - 2];
        }
      }
    }
  }

  /**
   * Every episode history is a walk history, and an episode ends away from a
   * terminal state only when its coins have run out.
   */
  lemma EpisodeShape(pick: StartPick, coins: seq<Bit>)
    ensures var h := [Frame(Starts[pick], None)] + Walk(Starts[pick], coins, 0);
      && WalkHistory(h)
      && |h| <= |coins| + 1
      && (!IsTerminal(h[|h| - 1].state) ==> |h| == |coins| + 1)
  {
    var s := Starts[pick];
    WalkLength(s, coins, 0);
    WalkFrames(s, coins, 0);
    WalkAdjacent(s, coins, 0);
    var w := Walk(s, coins, 0);
    var h := [Frame(s, None)] + w;
    assert forall i :: 1 <= i < |h| ==> h[i] == w[i - 1];
    assert h[|h| - 1].state == LastState(s, w);
  }

  /** All rewards of `frames` are 0 except the last one, `r`. */
  lemma {:induction false} DiscountedLastOnly(frames: seq<Frame>, gamma: real, k: nat, r: int)
    requires |frames| > 0 && frames[|frames| - 1].reward == Some(r)
    requires forall i :: 0 <= i < |frames| - 1 ==> frames[i].reward == Some(0)
    ensures Discounted(frames, gamma, k) == Pow(gamma, k + |frames| - 1) * r as real
    decreases |frames|
  {
    if |frames| > 1 {
      DiscountedLastOnly(frames[1..], gamma, k + 1, r);
    }
  }

  /**
   * The n-step return along a walk: gamma^(n-1) when the walk has just reached
   * 'T', 0 when it has just reached '0', and otherwise the discounted value of
   * the state it is in.
   */
  lemma ReturnOfWalk(cfg: Config, h: seq<Frame>, value: map<char, real>)
    requires WalkHistory(h) && cfg.nStep >= 1 && Tau(cfg, h) >= 0
    ensures var last := h[|h| - 1].state;
      NStepReturn(cfg, h, value)
      == if last == 'T' then Pow(cfg.gamma, cfg.nStep - 1)
         else if last == '0' then 0.0
         else Get(value, last, cfg.initialValue) * Pow(cfg.gamma, cfg.nStep)
  {
    var tau := Tau(cfg, h);
    var window := h[tau + 1..];
    var last := h[|h| - 1].state;
    assert forall i :: 0 <= i < |window| ==> window[i] == h[tau + 1 + i];
    assert window[|window| - 1] == h[|h| - 1];
    DiscountedLastOnly(window, cfg.gamma, 0, if last == 'T' then 1 else 0);
    assert AnyTerminal(window) <==> IsTerminal(last);
  }

  lemma {:induction false} PowOne(n: nat)
    ensures Pow(1.0, n) == 1.0
  {
    if n > 0 {
      PowOne(n - 1);
    }
  }

  /**
   * With the script's undiscounted returns, the return along a walk is 1 on
   * reaching 'T', 0 on reaching '0', and otherwise the value of the state reached.
   */
  lemma ScriptReturn(h: seq<Frame>, value: map<char, real>)
    requires WalkHistory(h) && Tau(Script, h) >= 0
    ensures var last := h[|h| - 1].state;
      NStepReturn(Script, h, value)
      == if last == 'T' then 1.0 else if last == '0' then 0.0 else Get(value, last, 0.0)
  {
    ReturnOfWalk(Script, h, value);
    PowOne(Script.nStep);
    PowOne(Script.nStep - 1);
  }

  lemma WalkHistoryPrefix(h: seq<Frame>)
    requires WalkHistory(h) && |h| > 1
    ensures WalkHistory(h[..|h| - 1])
  {
  }

  /**
   * With n_step at least 1, learning along a walk only ever writes the values
   * of inner states: the entries of the terminal states are never updated.
   */
  lemma {:induction false} LearnedInnerOnly(cfg: Config, value: map<char, real>, h: seq<Frame>)
    requires WalkHistory(h) && cfg.nStep >= 1
    ensures forall s :: s in Learned(cfg, value, h) ==> s in value || s in Starts
    ensures forall s :: IsTerminal(s) ==> Get(Learned(cfg, value, h), s, cfg.initialValue) == Get(value, s, cfg.initialValue)
    decreases |h|
  {
    if |h| > 1 {
      WalkHistoryPrefix(h);
      LearnedInnerOnly(cfg, value, h[..|h| - 1]);
      if Tau(cfg, h) >= 0 {
        var target := h[Tau(cfg, h)].state;
        assert !IsTerminal(target) && target in States;
        assert target in Starts;
        UpdateOnlyTarget(cfg, h, Learned(cfg, value, h[..|h| - 1]));
      }
    }
  }

  /** The values one episode leaves behind. */
  function EpisodeValues(cfg: Config, value: map<char, real>, pick: StartPick, coins: seq<Bit>): map<char, real>
  {
    EpisodeShape(pick, coins);
    Learned(cfg, value, [Frame(Starts[pick], None)] + Walk(Starts[pick], coins, 0))
  }

  /** The values after a run of episodes, each starting from the values the previous one left. */
  function Trained(cfg: Config, value: map<char, real>, episodes: seq<(StartPick, seq<Bit>)>): (r: map<char, real>)
    ensures value.Keys <= r.Keys
    decreases |episodes|
  {
    if episodes == [] then value
    else Trained(cfg, EpisodeValues(cfg, value, episodes[0].0, episodes[0].1), episodes[1..])
  }

  /**
   * The main loop: episodes in turn, all sharing one value map that starts
   * empty; each episode's start pick and coins are given.
   */
  method Train(cfg: Config, episodes: seq<(StartPick, seq<Bit>)>) returns (value: map<char, real>)
    ensures value == Trained(cfg, map[], episodes)
  {
    value := map[];
    for i := 0 to |episodes|
      invariant Trained(cfg, map[], episodes) == Trained(cfg, value, episodes[i..])
    {
      assert episodes[i..][1..] == episodes[i + 1..];
      var history;
      value, history := Episode(cfg, value, episodes[i].0, episodes[i].1);
    }
  }

  /**
   * With n_step at least 1, training from the empty map only ever gives values
   * to the inner states A..E.
   */
  lemma {:induction false} TrainedInnerOnly(cfg: Config, value: map<char, real>, episodes: seq<(StartPick, seq<Bit>)>)
    requires cfg.nStep >= 1 && forall s :: s in value ==> s in Starts
    ensures forall s :: s in Trained(cfg, value, episodes) ==> s in Starts
    decreases |episodes|
  {
    if episodes != [] {
      var (pick, coins) := episodes[0];
      EpisodeShape(pick, coins);
      LearnedInnerOnly(cfg, value, [Frame(Starts[pick], None)] + Walk(Starts[pick], coins, 0));
      TrainedInnerOnly(cfg, EpisodeValues(cfg, value, pick, coins), episodes[1..]);
    }
  }
}

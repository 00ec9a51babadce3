/** Grid path stepping of `DQNPathPredictor`: the clamped one-hot state
    index, the two clamped moves, the goal test and the bounded prediction
    loop. The neural network only picks the next action; it is an oracle
    parameter here. */
module PathPrediction {
  import opened Common

  /** The network's answer: 0 is UP, 1 is RIGHT (argmax over two Q-values). */
  type ActionIndex = a: int | 0 <= a <= 1

  /** `get_next_action`: the action chosen at the given step number for the
      given position. The step number lets the oracle stand for the random
      fallback as well as the deterministic network. */
  type Policy = (nat, Position) -> ActionIndex

  /** One element of the predicted path. */
  datatype Step = Step(x: int, y: int, action: string, step: int)

  /** The `actions` table: 0 -> "UP", 1 -> "RIGHT". */
  function ActionName(a: ActionIndex): (name: string)
    ensures name == "UP" <==> a == 0
    ensures name == "RIGHT" <==> a == 1
  {
    if a == 0 then "UP" else "RIGHT"
  }

  /** `max(0, min(v, grid - 1))`. */
  function Clamp(grid: int, v: int): (c: int)
    requires 1 <= grid
    ensures 0 <= c < grid
    ensures 0 <= v < grid ==> c == v
    ensures v < 0 ==> c == 0
    ensures grid <= v ==> c == grid - 1
  {
    if v < 0 then 0 else if v < grid - 1 then v else grid - 1
  }

  predicate InBounds(grid: int, p: Position) {
    0 <= p.x < grid && 0 <= p.y < grid
  }

  /** The hot index of `position_to_state`: row-major over the clamped cell. */
  function StateIndex(grid: int, p: Position): (idx: int)
    requires 1 <= grid
    ensures 0 <= idx < grid * grid
  {
    var x, y := Clamp(grid, p.x), Clamp(grid, p.y);
    assert y * grid <= (grid - 1) * grid by {
      assert 0 <= grid - 1 - y;
      assert 0 <= (grid - 1 - y) * grid;
    }
    y * grid + x
  }

  /** `position_to_state` without the tensor: a vector of `grid * grid`
      zeros with a single one at the state index. */
  function PositionToState(grid: int, p: Position): (state: seq<int>)
    requires 1 <= grid
    ensures |state| == grid * grid
    ensures forall k :: 0 <= k < |state| ==> state[k] == if k == StateIndex(grid, p) then 1 else 0
  {
    seq(grid * grid, k => if k == StateIndex(grid, p) then 1 else 0)
  }

  /** Euclidean division is unique: `a == q * g + r` with `0 <= r < g`
      determines the quotient and the remainder. */
  lemma DivModUnique(a: int, grid: int, q: int, r: int)
    requires 0 <= r < grid && a == q * grid + r
    ensures a / grid == q && a % grid == r
  {
    var q', r' := a / grid, a % grid;
    assert a == q' * grid + r' && 0 <= r' < grid;
    if q' > q {
      assert q' * grid == q * grid + (q' - q) * grid;
      MulAtLeast(q' - q, grid);
    } else if q' < q {
      assert q * grid == q' * grid + (q - q') * grid;
      MulAtLeast(q - q', grid);
    }
  }

  lemma {:induction false} MulAtLeast(k: int, grid: int)
    requires 1 <= k && 0 <= grid
    ensures grid <= k * grid
  {
    if k > 1 {
      MulAtLeast(k - 1, grid);
      assert k * grid == (k - 1) * grid + grid;
    }
  }

  /** The state index decodes back to the clamped cell, so two positions
      share a state exactly when they clamp to the same cell. */
  lemma StateIndexDecodes(grid: int, p: Position)
    requires 1 <= grid
    ensures StateIndex(grid, p) % grid == Clamp(grid, p.x)
    ensures StateIndex(grid, p) / grid == Clamp(grid, p.y)
  {
    DivModUnique(StateIndex(grid, p), grid, Clamp(grid, p.y), Clamp(grid, p.x));
  }

  /** Distinct in-bounds cells get distinct one-hot states. */
  lemma StateIndexInjective(grid: int, p: Position, q: Position)
    requires 1 <= grid && InBounds(grid, p) && InBounds(grid, q)
    requires StateIndex(grid, p) == StateIndex(grid, q)
    ensures p == q
  {
    StateIndexDecodes(grid, p);
    StateIndexDecodes(grid, q);
  }

  /** `_apply_action`: UP raises y and RIGHT raises x, each capped at the last
      row or column; any other action leaves the position as it is. */
  function ApplyAction(grid: int, p: Position, action: int): (q: Position)
    ensures action == 0 ==> q.x == p.x && q.y == (if p.y + 1 < grid - 1 then p.y + 1 else grid - 1)
    ensures action == 1 ==> q.y == p.y && q.x == (if p.x + 1 < grid - 1 then p.x + 1 else grid - 1)
    ensures action != 0 && action != 1 ==> q == p
  {
    if action == 0 then Position(p.x, if p.y + 1 < grid - 1 then p.y + 1 else grid - 1)
    else if action == 1 then Position(if p.x + 1 < grid - 1 then p.x + 1 else grid - 1, p.y)
    else p
  }

  /** From an in-bounds cell a move stays in bounds, never goes back, and
      either advances one cell or is blocked by the edge. */
  lemma ApplyActionInBounds(grid: int, p: Position, action: int)
    requires InBounds(grid, p)
    ensures InBounds(grid, ApplyAction(grid, p, action))
    ensures p.x <= ApplyAction(grid, p, action).x && p.y <= ApplyAction(grid, p, action).y
    ensures action == 0 ==> ApplyAction(grid, p, action).y == p.y + 1 || p.y == grid - 1
    ensures action == 1 ==> ApplyAction(grid, p, action).x == p.x + 1 || p.x == grid - 1
  {
  }

  /** `_is_goal_reached`: both coordinates match. */
  function IsGoalReached(p: Position, goal: Position): (reached: bool)
    ensures reached <==> p.x == goal.x && p.y == goal.y
  {
    p.x == goal.x && p.y == goal.y
  }

  /** The steps `predict_path` records from `pos`, whose previous step was
      number `done`, with `budget` iterations of the loop left. */
  function Walk(grid: int, policy: Policy, pos: Position, goal: Position, done: nat, budget: nat): (w: seq<Step>)
    ensures |w| <= budget
    ensures 0 < budget <==> 0 < |w|
    decreases budget
  {
    if budget == 0 then []
    else
      var a := policy(done, pos);
      var next := ApplyAction(grid, pos, a);
      [Step(next.x, next.y, ActionName(a), done + 1)] +
      (if IsGoalReached(next, goal) then [] else Walk(grid, policy, next, goal, done + 1, budget - 1))
  }

  /** One iteration of the walk. */
  lemma WalkUnfold(grid: int, policy: Policy, pos: Position, goal: Position, done: nat, budget: nat)
    requires 0 < budget
    ensures var next := ApplyAction(grid, pos, policy(done, pos));
      Walk(grid, policy, pos, goal, done, budget)
      == [Step(next.x, next.y, ActionName(policy(done, pos)), done + 1)] +
         (if IsGoalReached(next, goal) then [] else Walk(grid, policy, next, goal, done + 1, budget - 1))
  {
  }

  function Iterations(maxSteps: int): nat {
    if maxSteps < 0 then 0 else maxSteps
  }

  /** `predict_path`: at most `max_steps` moves from a copy of the start,
      each recorded with its number, stopping once the goal is reached. */
  method PredictPath(grid: int, policy: Policy, start: Position, goal: Position, maxSteps: int)
    returns (path: seq<Step>)
    ensures path == Walk(grid, policy, start, goal, 0, Iterations(maxSteps))
  {
    var budget := Iterations(maxSteps);
    ghost var whole := Walk(grid, policy, start, goal, 0, budget);
    path := [];
    var current := start;
    var step := 0;
    while step < budget
      invariant 0 <= step <= budget
      invariant path + Walk(grid, policy, current, goal, step, budget - step) == whole
    {
      var action := policy(step, current);
      var next := ApplyAction(grid, current, action);
      WalkAdvance(grid, policy, path, current, goal, step, budget, whole);
      path := path + [Step(next.x, next.y, ActionName(action), step + 1)];
      current := next;
      if IsGoalReached(current, goal) {
        break;
      }
      step := step + 1;
    }
  }

  /** One iteration of `predict_path` keeps the recorded steps a prefix of
      the whole walk, and completes it when the goal is reached. */
  lemma WalkAdvance(grid: int, policy: Policy, path: seq<Step>, current: Position, goal: Position,
                    step: nat, budget: nat, whole: seq<Step>)
    requires step < budget
    requires path + Walk(grid, policy, current, goal, step, budget - step) == whole
    ensures var a := policy(step, current);
      var next := ApplyAction(grid, current, a);
      var extended := path + [Step(next.x, next.y, ActionName(a), step + 1)];
      && (IsGoalReached(next, goal) ==> extended == whole)
      && (!IsGoalReached(next, goal) ==>
            extended + Walk(grid, policy, next, goal, step + 1, budget - (step + 1)) == whole)
  {
    var a := policy(step, current);
    var next := ApplyAction(grid, current, a);
    var recorded := Step(next.x, next.y, ActionName(a), step + 1);
    WalkUnfold(grid, policy, current, goal, step, budget - step);
    if IsGoalReached(next, goal) {
      assert path + [recorded] + [] == path + [recorded];
    } else {
      var rest := Walk(grid, policy, next, goal, step + 1, budget - (step + 1));
      assert path + ([recorded] + rest) == path + [recorded] + rest;
    }
  }

  /** The position a step moved to. */
  function At(s: Step): Position {
    Position(s.x, s.y)
  }

  /** The steps are numbered consecutively from `done + 1`. */
  lemma {:induction false} WalkNumbered(grid: int, policy: Policy, pos: Position, goal: Position, done: nat, budget: nat)
    ensures var w := Walk(grid, policy, pos, goal, done, budget);
      forall i :: 0 <= i < |w| ==> w[i].step == done + i + 1
    decreases budget
  {
    if budget > 0 {
      var w := Walk(grid, policy, pos, goal, done, budget);
      var a := policy(done, pos);
      var next := ApplyAction(grid, pos, a);
      WalkUnfold(grid, policy, pos, goal, done, budget);
      if !IsGoalReached(next, goal) {
        var rest := Walk(grid, policy, next, goal, done + 1, budget - 1);
        WalkNumbered(grid, policy, next, goal, done + 1, budget - 1);
        forall i | 1 <= i < |w| ensures w[i].step == done + i + 1 {
          assert w[i] == rest[i - 1];
        }
      }
    }
  }

  /** Step `i` of `w` is the move the policy chose from the previous cell
      (`pos` for the first step), labelled with that action's name. */
  predicate FollowsPolicy(grid: int, policy: Policy, pos: Position, done: nat, w: seq<Step>, i: nat)
    requires i < |w|
  {
    var prev := if i == 0 then pos else At(w[i - 1]);
    var a := policy(done + i, prev);
    At(w[i]) == ApplyAction(grid, prev, a) && w[i].action == ActionName(a)
  }

  /** Every step is the move the policy chose from the previous cell. */
  lemma {:induction false} WalkFollowsPolicy(grid: int, policy: Policy, pos: Position, goal: Position, done: nat, budget: nat)
    ensures var w := Walk(grid, policy, pos, goal, done, budget);
      forall i :: 0 <= i < |w| ==> FollowsPolicy(grid, policy, pos, done, w, i)
    decreases budget
  {
    if budget > 0 {
      var w := Walk(grid, policy, pos, goal, done, budget);
      var a := policy(done, pos);
      var next := ApplyAction(grid, pos, a);
      WalkUnfold(grid, policy, pos, goal, done, budget);
      assert FollowsPolicy(grid, policy, pos, done, w, 0);
      if !IsGoalReached(next, goal) {
        var rest := Walk(grid, policy, next, goal, done + 1, budget - 1);
        WalkFollowsPolicy(grid, policy, next, goal, done + 1, budget - 1);
        forall i | 1 <= i < |w| ensures FollowsPolicy(grid, policy, pos, done, w, i) {
          assert FollowsPolicy(grid, policy, next, done + 1, rest, i - 1);
          assert w[i] == rest[i - 1];
          assert At(w[i - 1]) == if i == 1 then next else At(rest[i - 2]);
        }
      }
    }
  }

  /** No step before the last lands on the goal. */
  lemma {:induction false} WalkStopsAtGoal(grid: int, policy: Policy, pos: Position, goal: Position, done: nat, budget: nat)
    ensures var w := Walk(grid, policy, pos, goal, done, budget);
      forall i :: 0 <= i < |w| - 1 ==> !IsGoalReached(At(w[i]), goal)
    decreases budget
  {
    if budget > 0 {
      var w := Walk(grid, policy, pos, goal, done, budget);
      var a := policy(done, pos);
      var next := ApplyAction(grid, pos, a);
      WalkUnfold(grid, policy, pos, goal, done, budget);
      if !IsGoalReached(next, goal) {
        var rest := Walk(grid, policy, next, goal, done + 1, budget - 1);
        WalkStopsAtGoal(grid, policy, next, goal, done + 1, budget - 1);
        forall i | 1 <= i < |w| - 1 ensures !IsGoalReached(At(w[i]), goal) {
          assert w[i] == rest[i - 1];
        }
      }
    }
  }

  /** A path shorter than the budget is never empty and ends on the goal:
      the loop stops early only by reaching it. */
  lemma {:induction false} WalkEndsOnGoal(grid: int, policy: Policy, pos: Position, goal: Position, done: nat, budget: nat)
    ensures var w := Walk(grid, policy, pos, goal, done, budget);
      && |w| <= budget
      && (|w| < budget ==> 0 < |w| && IsGoalReached(At(w[|w| - 1]), goal))
    decreases budget
  {
    if budget > 0 {
      var w := Walk(grid, policy, pos, goal, done, budget);
      var a := policy(done, pos);
      var next := ApplyAction(grid, pos, a);
      var first := Step(next.x, next.y, ActionName(a), done + 1);
      if IsGoalReached(next, goal) {
        assert w == [first];
      } else {
        var rest := Walk(grid, policy, next, goal, done + 1, budget - 1);
        WalkEndsOnGoal(grid, policy, next, goal, done + 1, budget - 1);
        assert w == [first] + rest;
        if |w| < budget {
          assert w[|w| - 1] == rest[|rest| - 1];
        }
      }
    }
  }

  /** Every cell the path visits stays on the grid when the start does. */
  lemma {:induction false} WalkInBounds(grid: int, policy: Policy, pos: Position, goal: Position, done: nat, budget: nat)
    requires InBounds(grid, pos)
    ensures forall s :: s in Walk(grid, policy, pos, goal, done, budget) ==> InBounds(grid, At(s))
    decreases budget
  {
    if budget > 0 {
      var next := ApplyAction(grid, pos, policy(done, pos));
      ApplyActionInBounds(grid, pos, policy(done, pos));
      if !IsGoalReached(next, goal) {
        WalkInBounds(grid, policy, next, goal, done + 1, budget - 1);
      }
    }
  }

  /** A goal off the grid is never reached from an in-bounds start, so the
      loop always runs its full budget. */
  lemma {:induction false} UnreachableGoalUsesBudget(grid: int, policy: Policy, pos: Position, goal: Position, done: nat, budget: nat)
    requires InBounds(grid, pos) && !InBounds(grid, goal)
    ensures |Walk(grid, policy, pos, goal, done, budget)| == budget
    decreases budget
  {
    if budget > 0 {
      var next := ApplyAction(grid, pos, policy(done, pos));
      ApplyActionInBounds(grid, pos, policy(done, pos));
      assert !IsGoalReached(next, goal);
      UnreachableGoalUsesBudget(grid, policy, next, goal, done + 1, budget - 1);
    }
  }
}

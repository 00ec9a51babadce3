# Adaptive-learning backend core, modelled in Dafny

This project models the three pieces of backend logic of the adaptive
learning system that decide what a learner may do next and what the
learner's record holds. It proves what each piece promises.

- **Prerequisite graph queries** (`prerequisites.dfy`, module
  `Prerequisites`). This covers the prerequisite lookup, the "all
  prerequisites completed" test, the available-resources listing, goal-path
  lookup and capped suggestions.
  - The prerequisite table and the learning-path table are parameters. The
    proofs therefore hold for any catalogue, including one with cycles.
  - `get_available_resources` is an imperative method with its two loops over
    the key set. Its result order is left open, like Python's set order.
  - The suggestion properties hold for every such order.
- **In-memory progress store** (`temp_database.dfy`, module `Progress`).
  - Class `TempDatabase` holds the `users` and `sessions` dictionaries as
    maps. Its methods reassign these maps in place.
  - Each record change (`complete_resource`, `_check_achievements`,
    `reset_user_progress`) is also a function on `User` values. Each method is
    proved to perform exactly that change and to leave every other user and
    session alone.
  - The lemmas cover the +10 score rule, the idempotent completion, the
    achievement thresholds (1, 5, 10, 20, 50, 70) and the reset.
  - A user made by `create_user(user_id)` and changed only by completions and
    resets always has `score == 10 * len(completed_resources)`.
- **Grid path stepping** (`dqn_model.dfy`, module `PathPrediction`). This
  covers the clamped one-hot state index of `DQNPathPredictor`, the clamped
  UP/RIGHT move and the goal test. It also covers the bounded `predict_path`
  loop.
  - The network that picks each action is an oracle parameter of type
    `(step, position) -> {0, 1}`.
  - The method is proved equal to a recursive specification `Walk`. The
    lemmas give the shape of every predicted path.

`common.dfy` (module `Common`) holds the shared `Option`, `Position` and
duplicate-free sequence vocabulary.

Callers supply the clock. Timestamps (`datetime.now().isoformat()`) are a
`Timestamp` parameter `now`. The session clock (`int(time.time())`) is a
`seconds: nat` parameter. Python dictionaries passed to `dict.update` are
`UserUpdate` records of optional fields: a `None` field is a key the
dictionary does not carry. Falsy arguments (`if position:`, `if goal:`,
`details or {}`) are `None` / the empty string / the empty map.

## Model

| member | source | states |
|---|---|---|
| `Prerequisites.GetPrerequisites` | backend/data/prerequisites.py:177-179 | The table entry for a listed name; the empty list for a name the table does not list |
| `Prerequisites.AllCompleted` | backend/data/prerequisites.py:184 | The `all(...)` scan is true exactly when every listed prerequisite is in the completed list |
| `Prerequisites.PrerequisitesMet` | backend/data/prerequisites.py:181-184 | True iff every prerequisite of the resource is completed; a name without an entry is always satisfied |
| `Prerequisites.PrerequisitesMetMonotone` | backend/data/prerequisites.py:181-184 | Completing more resources never makes prerequisites that were met unmet |
| `Common.Enumerate` | backend/data/prerequisites.py:189-201 | `list(set(xs))`: a duplicate-free listing of exactly the set's elements, in an order left open |
| `Prerequisites.GetAvailableResources` | backend/data/prerequisites.py:186-201 | The result has no duplicates. A name is in it iff it is a key of the table and either has no prerequisites, or is not completed and has its prerequisites met. So a name that only appears as a prerequisite is never returned |
| `Prerequisites.NotCompleted` | backend/data/prerequisites.py:211 | The filter keeps exactly the names not completed, is no longer than its input and keeps it duplicate-free |
| `Prerequisites.SliceTo` | backend/data/prerequisites.py:212 | Python's `xs[:k]`: a prefix of `xs`, of length `min(k, len)` for `k >= 0` and `max(0, len + k)` for negative `k` |
| `Prerequisites.SuggestNextResources` | backend/data/prerequisites.py:207-212 | No name twice; each is a key, not completed and has its prerequisites met, for every `max_suggestions` and every order of the available list. For a non-negative `max_suggestions`: at most that many names, and when fewer come back, every available uncompleted resource is among them. A negative value drops names from the end of the pending list, as `SliceTo` states |
| `Prerequisites.GetLearningPath` | backend/data/prerequisites.py:203-205 | The path of a known goal, otherwise the `complete_course` path. It fails (`None`) when the table has no `complete_course`, because the default is evaluated eagerly |
| `PathPrediction.ActionName` | backend/models/dqn_model.py:37-40 | Action 0 is named "UP" and action 1 "RIGHT", and no other way round |
| `PathPrediction.Clamp` | backend/models/dqn_model.py:67-69 | The clamped coordinate lies in `[0, grid_size)`. It equals the input when in range, 0 below and `grid_size - 1` above |
| `PathPrediction.StateIndex` | backend/models/dqn_model.py:67-73 | The hot index `y * grid_size + x` of the clamped cell lies in `[0, grid_size * grid_size)` |
| `PathPrediction.PositionToState` | backend/models/dqn_model.py:63-76 | The state vector has `grid_size * grid_size` entries, with a 1 exactly at the state index and 0 elsewhere |
| `PathPrediction.StateIndexDecodes` | backend/models/dqn_model.py:73 | The index decodes back to the clamped cell: `idx % g` is the clamped x and `idx / g` the clamped y |
| `PathPrediction.StateIndexInjective` | backend/models/dqn_model.py:67-74 | Distinct in-bounds cells get distinct one-hot states |
| `PathPrediction.ApplyAction` | backend/models/dqn_model.py:126-135 | UP sets `y := min(y+1, g-1)` and keeps x. RIGHT sets `x := min(x+1, g-1)` and keeps y. Any other action keeps the position |
| `PathPrediction.ApplyActionInBounds` | backend/models/dqn_model.py:126-135 | From an in-bounds cell a move stays in bounds and neither coordinate decreases. The moved coordinate grows by exactly one unless it is at the edge |
| `PathPrediction.IsGoalReached` | backend/models/dqn_model.py:137-139 | True iff both coordinates equal the goal's |
| `PathPrediction.Walk` | backend/models/dqn_model.py:102-122 | The recursive specification of the loop: one step from the current cell under the oracle's action, then stop at the goal or continue with one iteration fewer. It records at most `max_steps` steps, and at least one whenever `max_steps` is positive |
| `PathPrediction.PredictPath` | backend/models/dqn_model.py:94-124 | The loop's result is the recursive walk `Walk` from the start, with budget `max(0, max_steps)` |
| `PathPrediction.WalkNumbered` | backend/models/dqn_model.py:102-115 | The recorded steps are numbered 1, 2, …, n in order, as `step + 1` of the loop counter |
| `PathPrediction.WalkFollowsPolicy` | backend/models/dqn_model.py:104-118 | Each step is `_apply_action` of the previous cell (the start for step 1) under the oracle's action for that cell, recorded with that action's name |
| `PathPrediction.WalkStopsAtGoal` | backend/models/dqn_model.py:118-122 | No step before the last lands on the goal: the loop breaks on the first step that reaches it |
| `PathPrediction.WalkEndsOnGoal` | backend/models/dqn_model.py:120-122 | A path shorter than `max_steps` is non-empty and its last step is the goal |
| `PathPrediction.WalkInBounds` | backend/models/dqn_model.py:102-118 | From an in-bounds start every predicted cell is in bounds |
| `PathPrediction.UnreachableGoalUsesBudget` | backend/models/dqn_model.py:120-122 | A goal off the grid is never reached from an in-bounds start, so the loop always runs all `max_steps` iterations |
| `Progress.DefaultUser` | backend/data/temp_database.py:22-34 | The default record: empty completed list and path, goal `complete_course`, position (0,0), score 0, no sessions, no time, no achievements |
| `Progress.ApplyUpdate` | backend/data/temp_database.py:36-37 | Merging the empty dictionary changes nothing; otherwise each carried key overwrites the field |
| `Progress.Existing` | backend/data/temp_database.py:48-49 | The stored record, or the default record `create_user(user_id)` makes for a missing id |
| `Progress.Unlocked` | backend/data/temp_database.py:194-198 | The names appended by one pass are exactly the milestones the count reaches that were not held when the pass began. With distinct milestone names, none is appended twice |
| `Progress.AchievementNamesDistinct` | backend/data/temp_database.py:185-192 | The six milestone names are pairwise distinct |
| `Progress.WithAchievements` | backend/data/temp_database.py:178-198 | The record after one pass of the achievement check: the held names followed by `Unlocked` for the completed count |
| `Progress.CheckAchievementsSound` | backend/data/temp_database.py:178-198 | After the check the record holds every milestone with requirement ≤ completed count. Earlier names keep their order as a prefix, and nothing else is added. A duplicate-free list stays duplicate-free, and no other field changes |
| `Progress.CompletedUser` | backend/data/temp_database.py:60-75 | The record after `complete_resource`: unchanged when the resource is listed; otherwise appended, +10, position if given, achievements re-checked, stamped |
| `Progress.ResetUser` | backend/data/temp_database.py:207-214 | The record after `reset_user_progress` on a known user: progress fields cleared, everything else kept |
| `Progress.CompleteResourceFirstTime` | backend/data/temp_database.py:62-73 | A first completion appends the resource once and adds exactly 10. It takes the given position or keeps the old one, and only adds achievements. Goal, path, session count and time spent are unchanged |
| `Progress.CompleteResourceIdempotent` | backend/data/temp_database.py:62 | Completing a completed resource again returns the record unchanged (no second score), and the completed list never gains a duplicate |
| `Progress.CompleteResourceAlreadyDone` | backend/data/temp_database.py:62 | Any record that already lists the resource, however it came to list it, is returned unchanged |
| `Progress.DefaultUserConsistent` | backend/data/temp_database.py:22-34 | A fresh record satisfies the progress invariant: score 10 per completion, no duplicates, exactly the reached milestones |
| `Progress.CompleteResourceKeepsConsistent` | backend/data/temp_database.py:62-71 | `complete_resource` preserves the progress invariant |
| `Progress.ResetUserClears` | backend/data/temp_database.py:204-215 | A reset empties completed list, path and achievements and sets position (0,0) and score 0. Goal, session count, time spent and identity are kept, and the result satisfies the invariant |
| `Progress.ReplayConsistent` | backend/data/temp_database.py:55-75 | Any sequence of completions and resets preserves the progress invariant, so `score == 10 * len(completed_resources)` throughout |
| `Progress.FreshUserStaysConsistent` | backend/data/temp_database.py:20-40 | A user created without initial data and changed only by completions and resets has `score == 10 * len(completed_resources)` |
| `Progress.Decimal` | backend/data/temp_database.py:123 | The decimal rendering of the clock's seconds is a non-empty string of digits |
| `Progress.DecimalInjective` | backend/data/temp_database.py:123 | Different numbers of seconds have different decimal renderings |
| `Progress.SessionId` | backend/data/temp_database.py:123 | A session id starts with the user id followed by `_` |
| `Progress.SessionIdInjective` | backend/data/temp_database.py:123-134 | One user's sessions started at different whole seconds get different ids. Only a second start within the same second reuses the id and so overwrites the session stored at line 134 |
| `Progress.Stats` | backend/data/temp_database.py:102-116 | The dictionary `get_progress_stats` returns for a known user, without the percentage. It reports the queried `user_id` (not the record's own field), total 70 and `completed_count == len(completed_resources)` |
| `Progress.StatsOfConsistent` | backend/data/temp_database.py:92-116 | On a consistent record the reported score is 10 × the reported completed count. "Master" is held exactly when the count reaches the reported total of 70 |
| `Progress.TempDatabase.constructor` | backend/data/temp_database.py:15-18 | The store starts with no users and no sessions |
| `Progress.TempDatabase.CreateUser` | backend/data/temp_database.py:20-40 | The defaults (empty lists, goal `complete_course`, position (0,0), score 0, no sessions) overridden by the given keys. The record replaces any previous one for the id, and nothing else changes |
| `Progress.TempDatabase.GetUser` | backend/data/temp_database.py:42-44 | The stored record, or `None` exactly when the id is unknown |
| `Progress.TempDatabase.UpdateUser` | backend/data/temp_database.py:46-53 | Creates a missing user, merges the updates and stamps `last_updated`. No other user or session changes |
| `Progress.TempDatabase.CompleteResource` | backend/data/temp_database.py:55-75 | The user's record (created first if missing) becomes `CompletedUser` of it. No other user or session changes |
| `Progress.TempDatabase.SetLearningPath` | backend/data/temp_database.py:77-90 | Replaces the path. The goal changes only when a non-empty goal is given. A missing user is created first, and no other user or session changes |
| `Progress.TempDatabase.GetProgressStats` | backend/data/temp_database.py:92-116 | `None` (the empty dictionary) exactly for an unknown id. Otherwise it reports the queried id, total 70 and `completed_count == len(completed_resources)`, and every other field as stored in the record |
| `Progress.TempDatabase.StartSession` | backend/data/temp_database.py:118-139 | Creates a missing user and increments that user's `session_count` by exactly 1. Records a fresh empty session under `user_id + "_" + seconds`. No other user changes |
| `Progress.TempDatabase.LogPathGeneration` | backend/data/temp_database.py:161-167 | Appends exactly one entry to a known session's `paths_generated`. It is a no-op for an unknown session, and users are untouched |
| `Progress.TempDatabase.LogAction` | backend/data/temp_database.py:169-176 | Appends exactly one entry (details defaulting to `{}`) to a known session's `actions_taken`. It is a no-op for an unknown session, and users are untouched |
| `Progress.TempDatabase.CheckAchievements` | backend/data/temp_database.py:178-198 | The loop over the milestone table turns the user's record into `WithAchievements` of it and changes nothing else |
| `Progress.TempDatabase.ResetUserProgress` | backend/data/temp_database.py:204-215 | A known user's record becomes `ResetUser` of it and is returned. An unknown id changes nothing and yields `None` (the empty dictionary) |

## Left out

- `get_confidence_score`, `DQN.forward`, `_load_model` and the body of `get_next_action` are left out. They are floating-point network inference and model-file I/O, so the network's choice is an oracle parameter. Its step-number argument also covers the random fallback.
- `PathPrediction.PositionToState` builds a list of integers instead of a batched float tensor on a device.
- `PathPrediction.StateIndex` and `PathPrediction.PositionToState` require `grid_size >= 1`. The predictor's default is `grid_size=10` (backend/models/dqn_model.py:27), and the tensor indexing fails for `grid_size == 0`. Non-positive grid sizes are not modelled.
- `end_session` is left out: it does wall-clock duration arithmetic on ISO timestamps, and `total_time_spent` becomes a float. Because of this, `total_time_spent` is modelled as an integer that only `initial_data` or updates set.
- `progress_percentage` (a float rounded to two places) is left out of `get_progress_stats`.
- `get_all_users`, `export_data`, `import_data`, the unused `learning_analytics` dictionary and the module-level `temp_db` / `default_user` set-up are left out. They are debugging and backup plumbing.
- Aliasing of the Python dictionaries and lists is not modelled. Records, positions and lists are values here. Where the source hands out or stores the same object (the returned user dict, a caller's list merged by `update`), a later in-place change would be visible through the other reference in Python but not in this model. Likewise, the caller's `start_position` is never changed, because `Position` is a value.
- `Progress.TempDatabase.CheckAchievements` appends to the stored list in place in the source. The model collects the new names during the pass and stores the record once at the end. Nothing reads the record during the pass, so the final state is the same.
- The `path_data` and `details` dictionaries stored by `log_path_generation` and `log_action` are arbitrary in the source. They are modelled as an opaque `Record` (a map from strings to strings), which is only stored and never inspected.
- Dictionary keys other than the eleven record fields, and values of other types than the fields' own, are not modelled in `UserUpdate`.
- `create_user` reads the clock twice (`created_at`, `last_updated`). The model uses one `now` for both.
- Python's set iteration order in `get_available_resources` is left open: the model's result is any duplicate-free listing of the right set.
- The literal catalogue contents of `PREREQUISITES` and `LEARNING_PATHS` are not modelled; the tables are parameters. No acyclicity is assumed.
- The simulation scripts (`backend/src/simulation.py`, `backend/src/grid_simulation.py`) are not part of this model. They are the pygame window, video export and JSON loading. Their UP/RIGHT stepping uses separate X and Y sizes and a different edge guard. It agrees with the modelled `_apply_action` only for in-bounds cells on a square grid.

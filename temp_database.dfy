/** The in-memory progress store `TempDatabase`: user records and session
    logs kept in two dictionaries and changed in place. Each record change
    is also given as a function on `User` values; the methods are proved to
    perform exactly that change and to leave every other record alone, and
    the lemmas state what the changes promise (the +10 score rule, the
    achievement thresholds, the reset). */
module Progress {
  import opened Common
  import Prerequisites

  /** `datetime.now().isoformat()`, supplied by the caller. */
  type Timestamp = string

  /** A free-form dictionary passed through to a log entry. */
  type Record = map<string, string>

  /** One user record, the dictionary built by `create_user`. */
  datatype User = User(
    userId: string,
    completed: seq<string>,
    path: seq<string>,
    goal: string,
    position: Position,
    score: int,
    createdAt: Timestamp,
    lastUpdated: Timestamp,
    sessionCount: int,
    totalTimeSpent: int,
    achievements: seq<string>)

  /** The keys a dictionary passed to `dict.update` may carry; `None` is a
      key it does not carry. */
  datatype UserUpdate = UserUpdate(
    userId: Option<string>,
    completed: Option<seq<string>>,
    path: Option<seq<string>>,
    goal: Option<string>,
    position: Option<Position>,
    score: Option<int>,
    createdAt: Option<Timestamp>,
    lastUpdated: Option<Timestamp>,
    sessionCount: Option<int>,
    totalTimeSpent: Option<int>,
    achievements: Option<seq<string>>)

  /** The empty dictionary (and a missing `initial_data`). */
  const NoUpdate: UserUpdate :=
    UserUpdate(None, None, None, None, None, None, None, None, None, None, None)

  /** Points awarded for a first completion. */
  const CompletionScore: int := 10

  /** The resource count `get_progress_stats` reports. */
  const TotalResources: int := 70

  /** The fields `create_user` starts from. */
  function DefaultUser(userId: string, now: Timestamp): User {
    User(userId, [], [], Prerequisites.DefaultGoal, Origin, 0, now, now, 0, 0, [])
  }

  /** `dict.update`: every key the update carries overwrites the record's. */
  function ApplyUpdate(u: User, upd: UserUpdate): (v: User)
    ensures upd == NoUpdate ==> v == u
  {
    User(
      upd.userId.GetOr(u.userId),
      upd.completed.GetOr(u.completed),
      upd.path.GetOr(u.path),
      upd.goal.GetOr(u.goal),
      upd.position.GetOr(u.position),
      upd.score.GetOr(u.score),
      upd.createdAt.GetOr(u.createdAt),
      upd.lastUpdated.GetOr(u.lastUpdated),
      upd.sessionCount.GetOr(u.sessionCount),
      upd.totalTimeSpent.GetOr(u.totalTimeSpent),
      upd.achievements.GetOr(u.achievements))
  }

  /** The record an operation works on: the stored one, or the one
      `create_user(user_id)` makes first when there is none. */
  function Existing(users: map<string, User>, userId: string, now: Timestamp): (u: User)
    ensures userId in users ==> u == users[userId]
    ensures userId !in users ==> u == DefaultUser(userId, now)
  {
    if userId in users then users[userId] else DefaultUser(userId, now)
  }

  // ---------------------------------------------------------------------
  // Achievements

  datatype Achievement = Achievement(name: string, requirement: int)

  /** The milestones `_check_achievements` awards, in the order it checks them. */
  const Achievements: seq<Achievement> := [
    Achievement("First Steps", 1),
    Achievement("Getting Started", 5),
    Achievement("Making Progress", 10),
    Achievement("Dedicated Learner", 20),
    Achievement("Expert", 50),
    Achievement("Master", 70)
  ]

  predicate DistinctNames(table: seq<Achievement>) {
    forall i, j :: 0 <= i < j < |table| ==> table[i].name != table[j].name
  }

  /** Some milestone of the table named `n` requires no more than `count`. */
  predicate Earned(count: int, table: seq<Achievement>, n: string) {
    exists i :: 0 <= i < |table| && table[i].name == n && table[i].requirement <= count
  }

  /** The names one pass of `_check_achievements` appends, in table order:
      each milestone reached by `count` whose name was not already held
      when the pass began. */
  function Unlocked(count: int, table: seq<Achievement>, held: seq<string>): (names: seq<string>)
    ensures forall n :: n in names <==> n !in held && Earned(count, table, n)
    ensures DistinctNames(table) ==> NoDup(names)
  {
    if table == [] then []
    else
      var front, last := table[..|table| - 1], table[|table| - 1];
      var earlier := Unlocked(count, front, held);
      assert forall n :: Earned(count, table, n) <==>
        Earned(count, front, n) || (last.name == n && last.requirement <= count) by {
        forall n ensures Earned(count, table, n) ==>
          Earned(count, front, n) || (last.name == n && last.requirement <= count) {
          if Earned(count, table, n) {
            var i :| 0 <= i < |table| && table[i].name == n && table[i].requirement <= count;
            if i < |table| - 1 {
              assert front[i] == table[i];
            }
          }
        }
        forall n | Earned(count, front, n) ensures Earned(count, table, n) {
          var i :| 0 <= i < |front| && front[i].name == n && front[i].requirement <= count;
          assert table[i] == front[i];
        }
      }
      if count >= last.requirement && last.name !in held then
        assert DistinctNames(table) ==> !Earned(count, front, last.name) by {
          if DistinctNames(table) {
            forall k | 0 <= k < |front| ensures front[k].name != last.name {
              assert front[k] == table[k];
            }
          }
        }
        assert DistinctNames(table) ==> DistinctNames(front) by {
          if DistinctNames(table) {
            forall i, j | 0 <= i < j < |front| ensures front[i].name != front[j].name {
              assert front[i] == table[i] && front[j] == table[j];
            }
          }
        }
        assert DistinctNames(table) ==> NoDup(earlier + [last.name]) by {
          if DistinctNames(table) {
            NoDupAppend(earlier, last.name);
          }
        }
        earlier + [last.name]
      else
        assert DistinctNames(table) ==> DistinctNames(front) by {
          if DistinctNames(table) {
            forall i, j | 0 <= i < j < |front| ensures front[i].name != front[j].name {
              assert front[i] == table[i] && front[j] == table[j];
            }
          }
        }
        earlier
  }

  /** One more table entry adds its name to the end of the unlocked list,
      when it is earned and not yet held. */
  lemma UnlockedSnoc(count: int, table: seq<Achievement>, i: int, held: seq<string>)
    requires 0 <= i < |table|
    ensures held + Unlocked(count, table[..i + 1], held)
         == held + Unlocked(count, table[..i], held)
            + (if count >= table[i].requirement && table[i].name !in held then [table[i].name] else [])
  {
    assert table[..i + 1][..i] == table[..i];
  }

  /** The record after `_check_achievements`: the held names, then the
      newly reached ones. */
  function WithAchievements(u: User): User {
    u.(achievements := u.achievements + Unlocked(|u.completed|, Achievements, u.achievements))
  }

  lemma AchievementNamesDistinct()
    ensures DistinctNames(Achievements)
  {
  }

  /** After `_check_achievements` the record holds every milestone its
      completion count reaches, keeps the names it held in their order,
      holds nothing that is not a held name or a reached milestone, gains
      no duplicate, and changes no other field. */
  lemma {:induction false} CheckAchievementsSound(u: User)
    ensures var v := WithAchievements(u);
      && u.achievements <= v.achievements
      && (forall i :: 0 <= i < |Achievements| && Achievements[i].requirement <= |u.completed| ==>
            Achievements[i].name in v.achievements)
      && (forall n :: n in v.achievements ==> n in u.achievements || Earned(|u.completed|, Achievements, n))
      && (NoDup(u.achievements) ==> NoDup(v.achievements))
      && v.(achievements := u.achievements) == u
  {
    var held := u.achievements;
    var added := Unlocked(|u.completed|, Achievements, held);
    var v := WithAchievements(u);
    forall i | 0 <= i < |Achievements| && Achievements[i].requirement <= |u.completed|
      ensures Achievements[i].name in v.achievements
    {
      assert Earned(|u.completed|, Achievements, Achievements[i].name);
    }
    if NoDup(held) {
      AchievementNamesDistinct();
      forall i, j | 0 <= i < j < |v.achievements| ensures v.achievements[i] != v.achievements[j] {
        if j >= |held| && i < |held| {
          assert v.achievements[j] == added[j - |held|];
          assert added[j - |held|] in added;
          assert v.achievements[i] == held[i];
        } else if i >= |held| {
          assert v.achievements[i] == added[i - |held|] && v.achievements[j] == added[j - |held|];
        }
      }
    }
  }

  // ---------------------------------------------------------------------
  // Record changes

  /** The record after `complete_resource`: a resource not yet completed is
      appended, scores 10, moves the learner when a position is given and
      re-runs the achievement check; an already-completed one changes
      nothing. */
  function CompletedUser(u: User, resource: string, position: Option<Position>, now: Timestamp): User {
    if resource in u.completed then u
    else
      var v := u.(completed := u.completed + [resource],
                  score := u.score + CompletionScore,
                  position := position.GetOr(u.position));
      WithAchievements(v).(lastUpdated := now)
  }

  /** The record after `reset_user_progress` on a known user. */
  function ResetUser(u: User, now: Timestamp): User {
    u.(completed := [], path := [], position := Origin, score := 0, achievements := [], lastUpdated := now)
  }

  /** A first completion appends the resource once, adds exactly 10 points,
      takes the given position (or keeps the old one), only adds
      achievements, and leaves goal, path, sessions and time alone. */
  lemma CompleteResourceFirstTime(u: User, resource: string, position: Option<Position>, now: Timestamp)
    requires resource !in u.completed
    ensures var v := CompletedUser(u, resource, position, now);
      && v.completed == u.completed + [resource]
      && v.score == u.score + CompletionScore
      && (position.Some? ==> v.position == position.value)
      && (position.None? ==> v.position == u.position)
      && u.achievements <= v.achievements
      && v.path == u.path && v.goal == u.goal && v.userId == u.userId
      && v.sessionCount == u.sessionCount && v.totalTimeSpent == u.totalTimeSpent
      && v.createdAt == u.createdAt && v.lastUpdated == now
  {
  }

  /** Completing a resource again changes nothing, so a resource is never
      listed twice by completion and never scores twice. */
  lemma CompleteResourceIdempotent(u: User, resource: string, p: Option<Position>, q: Option<Position>,
                                   now: Timestamp, later: Timestamp)
    ensures var v := CompletedUser(u, resource, p, now);
      && resource in v.completed
      && CompletedUser(v, resource, q, later) == v
      && (NoDup(u.completed) ==> NoDup(v.completed))
  {
    if resource !in u.completed {
      NoDupAppendOpt(u.completed, resource);
    }
  }

  /** The guard of `complete_resource`: a record that already lists the
      resource, however it came to list it, is returned unchanged. */
  lemma CompleteResourceAlreadyDone(u: User, resource: string, position: Option<Position>, now: Timestamp)
    requires resource in u.completed
    ensures CompletedUser(u, resource, position, now) == u
  {
  }

  lemma NoDupAppendOpt(s: seq<string>, x: string)
    requires x !in s
    ensures NoDup(s) ==> NoDup(s + [x])
  {
    if NoDup(s) {
      NoDupAppend(s, x);
    }
  }

  /** What a record built only by `create_user(user_id)`, `complete_resource`
      and `reset_user_progress` always satisfies: 10 points per completed
      resource, no resource listed twice, and exactly the milestones its
      completion count reaches, each once. */
  predicate ProgressConsistent(u: User) {
    && u.score == CompletionScore * |u.completed|
    && NoDup(u.completed)
    && NoDup(u.achievements)
    && (forall i :: 0 <= i < |Achievements| ==>
          (Achievements[i].name in u.achievements <==> Achievements[i].requirement <= |u.completed|))
    && (forall n :: n in u.achievements ==> Earned(|u.completed|, Achievements, n))
  }

  lemma DefaultUserConsistent(userId: string, now: Timestamp)
    ensures ProgressConsistent(DefaultUser(userId, now))
  {
    forall i | 0 <= i < |Achievements| ensures 1 <= Achievements[i].requirement {
    }
  }

  lemma {:induction false} CompleteResourceKeepsConsistent(u: User, resource: string,
                                                          position: Option<Position>, now: Timestamp)
    requires ProgressConsistent(u)
    ensures ProgressConsistent(CompletedUser(u, resource, position, now))
  {
    if resource !in u.completed {
      var w := u.(completed := u.completed + [resource],
                  score := u.score + CompletionScore,
                  position := position.GetOr(u.position));
      var v := CompletedUser(u, resource, position, now);
      assert v == WithAchievements(w).(lastUpdated := now);
      NoDupAppend(u.completed, resource);
      CheckAchievementsSound(w);
      var c := |v.completed|;
      assert c == |u.completed| + 1;
      forall i | 0 <= i < |Achievements|
        ensures Achievements[i].name in v.achievements <==> Achievements[i].requirement <= c
      {
        var a := Achievements[i];
        if a.name in v.achievements && a.name in u.achievements {
          assert a.requirement <= |u.completed|;
        } else if a.name in v.achievements {
          assert Earned(c, Achievements, a.name);
          var j :| 0 <= j < |Achievements| && Achievements[j].name == a.name && Achievements[j].requirement <= c;
          AchievementNamesDistinct();
          assert j == i;
        }
      }
      forall n | n in v.achievements ensures Earned(c, Achievements, n) {
        if n in u.achievements {
          assert Earned(|u.completed|, Achievements, n);
          var j :| 0 <= j < |Achievements| && Achievements[j].name == n && Achievements[j].requirement <= |u.completed|;
          assert Achievements[j].requirement <= c;
        }
      }
    }
  }

  /** A reset clears completions, path, position, score and achievements,
      keeps goal, session count, time spent and identity, and leaves a
      consistent record whatever the record was before. */
  lemma ResetUserClears(u: User, now: Timestamp)
    ensures var v := ResetUser(u, now);
      && v.completed == [] && v.path == [] && v.position == Origin
      && v.score == 0 && v.achievements == []
      && v.goal == u.goal && v.sessionCount == u.sessionCount
      && v.totalTimeSpent == u.totalTimeSpent && v.userId == u.userId && v.createdAt == u.createdAt
      && ProgressConsistent(v)
  {
    forall i | 0 <= i < |Achievements| ensures 1 <= Achievements[i].requirement {
    }
  }

  /** The record changes that keep a record consistent. */
  datatype ProgressChange =
    | Complete(resource: string, position: Option<Position>, at: Timestamp)
    | Reset(at: Timestamp)

  function Replay(u: User, changes: seq<ProgressChange>): User
    decreases |changes|
  {
    if changes == [] then u
    else
      var v := match changes[0]
        case Complete(r, p, t) => CompletedUser(u, r, p, t)
        case Reset(t) => ResetUser(u, t);
      Replay(v, changes[1..])
  }

  /** A user made by `create_user(user_id)` and changed only by
      `complete_resource` and `reset_user_progress` always has 10 points per
      completed resource, no resource twice, and exactly the milestones its
      count reaches. */
  lemma {:induction false} ReplayConsistent(u: User, changes: seq<ProgressChange>)
    requires ProgressConsistent(u)
    ensures ProgressConsistent(Replay(u, changes))
    ensures Replay(u, changes).score == CompletionScore * |Replay(u, changes).completed|
    decreases |changes|
  {
    if changes != [] {
      var v := match changes[0]
        case Complete(r, p, t) => CompletedUser(u, r, p, t)
        case Reset(t) => ResetUser(u, t);
      match changes[0] {
        case Complete(r, p, t) => CompleteResourceKeepsConsistent(u, r, p, t);
        case Reset(t) => ResetUserClears(u, t);
      }
      ReplayConsistent(v, changes[1..]);
    }
  }

  lemma FreshUserStaysConsistent(userId: string, now: Timestamp, changes: seq<ProgressChange>)
    ensures Replay(DefaultUser(userId, now), changes).score
         == CompletionScore * |Replay(DefaultUser(userId, now), changes).completed|
  {
    DefaultUserConsistent(userId, now);
    ReplayConsistent(DefaultUser(userId, now), changes);
  }

  // ---------------------------------------------------------------------
  // Sessions

  datatype PathLog = PathLog(timestamp: Timestamp, pathData: Record)

  datatype ActionLog = ActionLog(timestamp: Timestamp, action: string, details: Record)

  datatype Session = Session(
    sessionId: string,
    userId: string,
    startTime: Timestamp,
    endTime: Option<Timestamp>,
    resourcesCompleted: seq<string>,
    pathsGenerated: seq<PathLog>,
    actionsTaken: seq<ActionLog>)

  function Digit(d: int): (c: char)
    requires 0 <= d < 10
    ensures '0' <= c <= '9'
  {
    ('0' as int + d) as char
  }

  /** `str(n)` for a natural number. */
  function Decimal(n: nat): (s: string)
    ensures 1 <= |s|
    ensures forall i :: 0 <= i < |s| ==> '0' <= s[i] <= '9'
  {
    if n < 10 then [Digit(n)] else Decimal(n / 10) + [Digit(n % 10)]
  }

  /** Different numbers have different decimal renderings. */
  lemma {:induction false} DecimalInjective(m: nat, n: nat)
    requires Decimal(m) == Decimal(n)
    ensures m == n
  {
    if m < 10 && n < 10 {
      assert Digit(m) == Decimal(m)[0] == Decimal(n)[0] == Digit(n);
    } else if 10 <= m && 10 <= n {
      var dm, dn := Decimal(m), Decimal(n);
      assert dm[..|dm| - 1] == Decimal(m / 10) && dn[..|dn| - 1] == Decimal(n / 10);
      assert Digit(m % 10) == dm[|dm| - 1] == dn[|dn| - 1] == Digit(n % 10);
      DecimalInjective(m / 10, n / 10);
    }
  }

  /** `f"{user_id}_{int(time.time())}"`. */
  function SessionId(userId: string, seconds: nat): (id: string)
    ensures userId + "_" <= id
  {
    userId + "_" + Decimal(seconds)
  }

  /** A user's sessions started at different whole seconds get different
      ids; only a second session within the same second reuses (and so
      overwrites) an id. */
  lemma SessionIdInjective(userId: string, s: nat, t: nat)
    requires SessionId(userId, s) == SessionId(userId, t)
    ensures s == t
  {
    var k := |userId| + 1;
    assert SessionId(userId, s)[k..] == Decimal(s);
    assert SessionId(userId, t)[k..] == Decimal(t);
    DecimalInjective(s, t);
  }

  // ---------------------------------------------------------------------
  // Progress statistics

  /** The integer part of `get_progress_stats` (the percentage is left out). */
  datatype ProgressStats = ProgressStats(
    userId: string,
    completed: seq<string>,
    totalResources: int,
    completedCount: int,
    position: Position,
    score: int,
    path: seq<string>,
    goal: string,
    achievements: seq<string>,
    sessionCount: int,
    totalTimeSpent: int,
    lastUpdated: Timestamp)

  /** The dictionary `get_progress_stats(user_id)` builds from the record
      `u` stored under `user_id`: the id is the queried one, not the
      record's own `user_id` field, which an update may have changed. */
  function Stats(userId: string, u: User): (s: ProgressStats)
    ensures s.userId == userId
    ensures s.completedCount == |s.completed| && s.totalResources == TotalResources
  {
    ProgressStats(userId, u.completed, TotalResources, |u.completed|, u.position, u.score,
                  u.path, u.goal, u.achievements, u.sessionCount, u.totalTimeSpent, u.lastUpdated)
  }

  /** On a consistent record the statistics agree: 10 points per counted
      completion, and the last milestone held exactly when the count reaches
      the reported total. */
  lemma StatsOfConsistent(userId: string, u: User)
    requires ProgressConsistent(u)
    ensures Stats(userId, u).score == CompletionScore * Stats(userId, u).completedCount
    ensures Stats(userId, u).completedCount == |u.completed|
    ensures "Master" in Stats(userId, u).achievements <==>
            Stats(userId, u).completedCount >= Stats(userId, u).totalResources
  {
    assert Achievements[5].name == "Master";
  }

  // ---------------------------------------------------------------------
  // The store

  class TempDatabase {
    var users: map<string, User>
    var sessions: map<string, Session>

    constructor ()
      ensures users == map[] && sessions == map[]
    {
      users := map[];
      sessions := map[];
    }

    /** `create_user`: the defaults overridden by `initial`; any record the
        id had is replaced. */
    method CreateUser(userId: string, initial: UserUpdate, now: Timestamp) returns (u: User)
      modifies this
      ensures u == ApplyUpdate(DefaultUser(userId, now), initial)
      ensures users == old(users)[userId := u] && sessions == old(sessions)
    {
      u := ApplyUpdate(DefaultUser(userId, now), initial);
      users := users[userId := u];
    }

    /** `get_user`. */
    function GetUser(userId: string): (u: Option<User>)
      reads this
      ensures u.Some? <==> userId in users
      ensures u.Some? ==> u.value == users[userId]
    {
      if userId in users then Some(users[userId]) else None
    }

    /** `update_user`: creates a missing user, merges the updates and
        stamps the record. */
    method UpdateUser(userId: string, updates: UserUpdate, now: Timestamp) returns (u: User)
      modifies this
      ensures u == ApplyUpdate(Existing(old(users), userId, now), updates).(lastUpdated := now)
      ensures users == old(users)[userId := u] && sessions == old(sessions)
    {
      if userId !in users {
        var created := CreateUser(userId, NoUpdate, now);
      }
      u := ApplyUpdate(users[userId], updates).(lastUpdated := now);
      users := users[userId := u];
    }

    /** `complete_resource`. */
    method CompleteResource(userId: string, resource: string, position: Option<Position>, now: Timestamp)
      returns (u: User)
      modifies this
      ensures u == CompletedUser(Existing(old(users), userId, now), resource, position, now)
      ensures users == old(users)[userId := u] && sessions == old(sessions)
    {
      if userId !in users {
        var created := CreateUser(userId, NoUpdate, now);
      }
      var user := users[userId];
      if resource !in user.completed {
        user := user.(completed := user.completed + [resource], score := user.score + CompletionScore);
        if position.Some? {
          user := user.(position := position.value);
        }
        users := users[userId := user];
        CheckAchievements(userId);
        users := users[userId := users[userId].(lastUpdated := now)];
      }
      u := users[userId];
    }

    /** `set_learning_path`: replaces the path, and the goal only when a
        non-empty one is given. */
    method SetLearningPath(userId: string, path: seq<string>, goal: Option<string>, now: Timestamp)
      returns (u: User)
      modifies this
      ensures var before := Existing(old(users), userId, now);
        u == before.(path := path,
                     goal := if goal.Some? && goal.value != "" then goal.value else before.goal,
                     lastUpdated := now)
      ensures users == old(users)[userId := u] && sessions == old(sessions)
    {
      if userId !in users {
        var created := CreateUser(userId, NoUpdate, now);
      }
      var updates := NoUpdate.(path := Some(path), lastUpdated := Some(now));
      if goal.Some? && goal.value != "" {
        updates := updates.(goal := Some(goal.value));
      }
      u := UpdateUser(userId, updates, now);
    }

    /** `get_progress_stats`; `None` stands for the empty dictionary. */
    function GetProgressStats(userId: string): (stats: Option<ProgressStats>)
      reads this
      ensures stats.Some? <==> userId in users
      ensures stats.Some? ==>
        var u := users[userId];
        && stats.value.userId == userId
        && stats.value.completed == u.completed
        && stats.value.totalResources == TotalResources
        && stats.value.completedCount == |u.completed|
        && stats.value.position == u.position && stats.value.score == u.score
        && stats.value.path == u.path && stats.value.goal == u.goal
        && stats.value.achievements == u.achievements
        && stats.value.sessionCount == u.sessionCount
        && stats.value.totalTimeSpent == u.totalTimeSpent
        && stats.value.lastUpdated == u.lastUpdated
    {
      if userId in users then Some(Stats(userId, users[userId])) else None
    }

    /** `start_session`: creates a missing user, records a fresh session
        under `user_id` and the clock's whole seconds, and counts it. */
    method StartSession(userId: string, seconds: nat, now: Timestamp) returns (sessionId: string)
      modifies this
      ensures sessionId == SessionId(userId, seconds)
      ensures sessions == old(sessions)[sessionId := Session(sessionId, userId, now, None, [], [], [])]
      ensures var before := Existing(old(users), userId, now);
        users == old(users)[userId := before.(sessionCount := before.sessionCount + 1)]
    {
      if userId !in users {
        var created := CreateUser(userId, NoUpdate, now);
      }
      sessionId := SessionId(userId, seconds);
      sessions := sessions[sessionId := Session(sessionId, userId, now, None, [], [], [])];
      users := users[userId := users[userId].(sessionCount := users[userId].sessionCount + 1)];
    }

    /** `log_path_generation`: one entry appended to a known session. */
    method LogPathGeneration(userId: string, sessionId: string, pathData: Record, now: Timestamp)
      modifies this
      ensures sessionId in old(sessions) ==>
        sessions == old(sessions)[sessionId := old(sessions)[sessionId].(
          pathsGenerated := old(sessions)[sessionId].pathsGenerated + [PathLog(now, pathData)])]
      ensures sessionId !in old(sessions) ==> sessions == old(sessions)
      ensures users == old(users)
    {
      if sessionId in sessions {
        var s := sessions[sessionId];
        sessions := sessions[sessionId := s.(pathsGenerated := s.pathsGenerated + [PathLog(now, pathData)])];
      }
    }

    /** `log_action`: one entry appended to a known session; missing details
        are recorded as the empty dictionary. */
    method LogAction(userId: string, sessionId: string, action: string, details: Option<Record>, now: Timestamp)
      modifies this
      ensures sessionId in old(sessions) ==>
        sessions == old(sessions)[sessionId := old(sessions)[sessionId].(
          actionsTaken := old(sessions)[sessionId].actionsTaken + [ActionLog(now, action, details.GetOr(map[]))])]
      ensures sessionId !in old(sessions) ==> sessions == old(sessions)
      ensures users == old(users)
    {
      if sessionId in sessions {
        var s := sessions[sessionId];
        var entry := ActionLog(now, action, details.GetOr(map[]));
        sessions := sessions[sessionId := s.(actionsTaken := s.actionsTaken + [entry])];
      }
    }

    /** `_check_achievements`: one pass over the milestones, appending each
        one reached that was not held when the pass began. */
    method CheckAchievements(userId: string)
      requires userId in users
      modifies this
      ensures users == old(users)[userId := WithAchievements(old(users)[userId])]
      ensures sessions == old(sessions)
    {
      var user := users[userId];
      var count := |user.completed|;
      var held := user.achievements;
      var achieved := held;
      assert Achievements[..0] == [];
      // The Python list is appended to in place; nothing reads the record
      // during the pass, so the names are collected and stored once.
      for i := 0 to |Achievements|
        invariant achieved == held + Unlocked(count, Achievements[..i], held)
        invariant users == old(users) && sessions == old(sessions)
      {
        var a := Achievements[i];
        UnlockedSnoc(count, Achievements, i, held);
        if count >= a.requirement && a.name !in held {
          achieved := achieved + [a.name];
        }
      }
      assert Achievements[..|Achievements|] == Achievements;
      users := users[userId := user.(achievements := achieved)];
    }

    /** `reset_user_progress`: clears a known user's progress; an unknown id
        changes nothing and yields the empty dictionary (`None`). */
    method ResetUserProgress(userId: string, now: Timestamp) returns (u: Option<User>)
      modifies this
      ensures userId in old(users) ==>
        u == Some(ResetUser(old(users)[userId], now)) && users == old(users)[userId := u.value]
      ensures userId !in old(users) ==> u == None && users == old(users)
      ensures sessions == old(sessions)
    {
      if userId in users {
        users := users[userId := ResetUser(users[userId], now)];
        u := Some(users[userId]);
      } else {
        u := None;
      }
    }
  }
}

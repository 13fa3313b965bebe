/**
 * The current progression store (src/utils/database.py): the `users` table
 * with XP clamped to [0, MAX_XP] and attendance keyed by the game day, which
 * rolls over at 07:00 KST.
 *
 * Each statement the store runs is a pure transition of the table
 * (`Create`, `AdjustXp`, `Attend`, `Reset`, `SetXp`); the `DatabaseManager`
 * class holds the table and performs one transition per call.
 */
module Database {
  import opened Wrappers
  import opened Table
  import Curve

  const SECONDS_PER_DAY: int := 86400
  /** KST is UTC+9. */
  const KST_OFFSET_SECONDS: int := 9 * 3600
  /** The game day starts at 07:00 KST. */
  const ROLLOVER_SECONDS: int := 7 * 3600

  /**
   * The game day of a UTC instant given in seconds since the Unix epoch: the
   * calendar date of (KST time - 7 hours), counted in days since 1970-01-01.
   * Distinct dates have distinct ISO strings, so comparing day numbers is
   * comparing the stored `last_attendance` strings.
   */
  function GameDay(utcSeconds: int): int
  {
    (utcSeconds + KST_OFFSET_SECONDS - ROLLOVER_SECONDS) / SECONDS_PER_DAY
  }

  /** The game day advances by one exactly at 07:00:00 KST and is constant in between. */
  lemma GameDayRollsOverAtSevenKst(t: int)
    ensures (t + 1 + KST_OFFSET_SECONDS) % SECONDS_PER_DAY == ROLLOVER_SECONDS ==> GameDay(t + 1) == GameDay(t) + 1
    ensures (t + 1 + KST_OFFSET_SECONDS) % SECONDS_PER_DAY != ROLLOVER_SECONDS ==> GameDay(t + 1) == GameDay(t)
  {
    var a := t + KST_OFFSET_SECONDS - ROLLOVER_SECONDS;
    var q, r := a / SECONDS_PER_DAY, a % SECONDS_PER_DAY;
    assert a == q * SECONDS_PER_DAY + r && 0 <= r < SECONDS_PER_DAY;
    if r + 1 == SECONDS_PER_DAY {
      assert a + 1 == (q + 1) * SECONDS_PER_DAY;
      assert (t + 1 + KST_OFFSET_SECONDS) % SECONDS_PER_DAY == ROLLOVER_SECONDS;
    } else {
      assert a + 1 == q * SECONDS_PER_DAY + (r + 1);
      assert (t + 1 + KST_OFFSET_SECONDS) % SECONDS_PER_DAY != ROLLOVER_SECONDS;
    }
  }

  /** The game day never goes backwards. */
  lemma GameDayMonotone(s: int, t: int)
    requires s <= t
    ensures GameDay(s) <= GameDay(t)
  {
  }

  /**
   * 2025-01-01 is day 20089. UTC 2025-01-01 22:00 (KST 2025-01-02 07:00) is on
   * game day 2025-01-02; one minute earlier is still game day 2025-01-01.
   */
  lemma GameDayExample()
    ensures GameDay(1735768800) == 20090
    ensures GameDay(1735768800 - 60) == 20089
  {
  }

  /** Every stored xp lies in [0, MAX_XP] and every stored level in [1, MAX_LEVEL]. */
  predicate ValidTable(users: map<Key, Record>)
  {
    forall k :: k in users ==> 0 <= users[k].xp <= Curve.MAX_XP && 1 <= users[k].level <= Curve.MAX_LEVEL
  }

  /** The stored level of `k` is the level its stored xp reaches. */
  predicate Consistent(users: map<Key, Record>, k: Key)
  {
    k in users && users[k].level == Curve.LevelFromXp(users[k].xp)
  }

  /** INSERT OR IGNORE of a fresh row. */
  function Create(users: map<Key, Record>, k: Key): map<Key, Record>
  {
    if k in users then users else users[k := NEW_RECORD]
  }

  /** The outcome of a statement that reports success. */
  datatype Update = Update(ok: bool, users: map<Key, Record>)

  /** update_user_xp: xp := min(max(0, xp + delta), MAX_XP); the level column is not written. */
  function AdjustXp(users: map<Key, Record>, k: Key, delta: int): Update
  {
    if k !in users then Update(false, users)
    else Update(true, users[k := users[k].(xp := Curve.Clamp(users[k].xp + delta))])
  }

  /** update_attendance's result triple together with the resulting table. */
  datatype Attendance = Attendance(ok: bool, oldLevel: int, newLevel: int, users: map<Key, Record>)

  /**
   * update_attendance on game day `today`: a missing row gives (False, 0, 0), an
   * attendance already recorded for `today` gives (False, old, old); otherwise
   * xp := min(xp + gain, MAX_XP), the day is recorded and the level column
   * is recomputed from the new xp.
   */
  function Attend(users: map<Key, Record>, k: Key, gain: int, today: int): Attendance
  {
    if k !in users then Attendance(false, 0, 0, users)
    else
      var r := users[k];
      if r.lastAttendance == Some(today) then Attendance(false, r.level, r.level, users)
      else
        var xp := if r.xp + gain < Curve.MAX_XP then r.xp + gain else Curve.MAX_XP;
        var level := Curve.LevelFromXp(xp);
        Attendance(true, r.level, level, users[k := Record(xp, level, Some(today))])
  }

  /** reset_user_data: an UPDATE, so a missing row stays missing. */
  function Reset(users: map<Key, Record>, k: Key): map<Key, Record>
  {
    if k in users then users[k := NEW_RECORD] else users
  }

  /**
   * set_user_xp: the level is computed from the requested xp, the stored xp is
   * the requested xp clamped to [0, MAX_XP]; the attendance day is kept.
   */
  function SetXp(users: map<Key, Record>, k: Key, newXp: int): map<Key, Record>
  {
    if k in users then users[k := Record(Curve.Clamp(newXp), Curve.LevelFromXp(newXp), users[k].lastAttendance)]
    else users
  }

  /** Creating twice is creating once, and a created row is consistent unless it already existed. */
  lemma CreateIsInsertOrIgnore(users: map<Key, Record>, k: Key)
    ensures Create(Create(users, k), k) == Create(users, k)
    ensures k in Create(users, k)
    ensures k in users ==> Create(users, k)[k] == users[k]
    ensures k !in users ==> Consistent(Create(users, k), k)
    ensures forall j :: j != k ==> (j in Create(users, k) <==> j in users)
    ensures ValidTable(users) ==> ValidTable(Create(users, k))
  {
    assert Curve.LevelFromXp(0) == 1 by {
      assert Curve.Cumulative(2) == Curve.BASE_XP_REQUIREMENT;
    }
  }

  /**
   * update_user_xp succeeds exactly on an existing row and stores the sum
   * clamped to [0, MAX_XP]: 0 below, MAX_XP above, the sum in between. It
   * never touches the level, the day or any other row.
   */
  lemma AdjustXpBounds(users: map<Key, Record>, k: Key, delta: int)
    ensures AdjustXp(users, k, delta).ok <==> k in users
    ensures !AdjustXp(users, k, delta).ok ==> AdjustXp(users, k, delta).users == users
    ensures k in users ==> var r := AdjustXp(users, k, delta).users[k];
      && r.xp == Curve.Clamp(users[k].xp + delta) && 0 <= r.xp <= Curve.MAX_XP
      && (users[k].xp + delta < 0 ==> r.xp == 0)
      && (users[k].xp + delta > Curve.MAX_XP ==> r.xp == Curve.MAX_XP)
      && (0 <= users[k].xp + delta <= Curve.MAX_XP ==> r.xp == users[k].xp + delta)
      && r.level == users[k].level && r.lastAttendance == users[k].lastAttendance
    ensures forall j :: j != k ==> (j in AdjustXp(users, k, delta).users <==> j in users)
    ensures forall j :: j != k && j in users ==> AdjustXp(users, k, delta).users[j] == users[j]
    ensures ValidTable(users) ==> ValidTable(AdjustXp(users, k, delta).users)
  {
  }

  /** Applying the difference to a target in [0, MAX_XP] lands exactly on the target. */
  lemma AdjustXpReachesTarget(users: map<Key, Record>, k: Key, target: int)
    requires k in users && 0 <= target <= Curve.MAX_XP
    ensures AdjustXp(users, k, target - users[k].xp).users[k].xp == target
  {
  }

  /**
   * Because the level column is not rewritten, update_user_xp can leave a row
   * whose stored level disagrees with its xp: a fresh row given 100 xp still
   * says level 1 while 100 xp is level 2.
   */
  lemma AdjustXpLeavesLevelStale()
    ensures var users := map[Key(1, 1) := NEW_RECORD];
      Consistent(users, Key(1, 1)) && !Consistent(AdjustXp(users, Key(1, 1), 100).users, Key(1, 1))
  {
    assert Curve.LevelFromXp(0) == 1 by {
      assert Curve.Cumulative(2) == Curve.BASE_XP_REQUIREMENT;
    }
    assert Curve.LevelFromXp(100) == 2 by {
      Curve.CurveExample();
    }
  }

  /** Once attendance succeeds for a day, every further attempt on that day is rejected and changes nothing. */
  lemma AttendOncePerDay(users: map<Key, Record>, k: Key, gain: int, gain2: int, today: int)
    requires Attend(users, k, gain, today).ok
    ensures var a := Attend(users, k, gain, today);
      Attend(a.users, k, gain2, today) == Attendance(false, a.newLevel, a.newLevel, a.users)
  {
  }

  /** Calling attendance `n` times on the same day. */
  function AttendTimes(users: map<Key, Record>, k: Key, gain: int, today: int, n: nat): (r: (nat, map<Key, Record>))
  {
    if n == 0 then (0, users)
    else
      var a := Attend(users, k, gain, today);
      var rest := AttendTimes(a.users, k, gain, today, n - 1);
      (rest.0 + (if a.ok then 1 else 0), rest.1)
  }

  /** However often a user checks in on one game day, at most one check-in succeeds. */
  lemma {:induction false} AttendTimesAtMostOnce(users: map<Key, Record>, k: Key, gain: int, today: int, n: nat)
    ensures AttendTimes(users, k, gain, today, n).0 <= 1
    ensures k in users && users[k].lastAttendance == Some(today) ==> AttendTimes(users, k, gain, today, n) == (0, users)
  {
    if n > 0 {
      var a := Attend(users, k, gain, today);
      AttendTimesAtMostOnce(a.users, k, gain, today, n - 1);
      if a.ok {
        assert a.users[k].lastAttendance == Some(today);
      }
    }
  }

  /**
   * A successful attendance records the day, adds the gain up to MAX_XP,
   * stores the level that the new xp reaches and reports the previously
   * stored level; no other row changes.
   */
  lemma AttendSucceeds(users: map<Key, Record>, k: Key, gain: int, today: int)
    requires k in users && users[k].lastAttendance != Some(today)
    ensures var a := Attend(users, k, gain, today);
      && a.ok && k in a.users
      && a.users[k].lastAttendance == Some(today)
      && a.users[k].xp == (if users[k].xp + gain < Curve.MAX_XP then users[k].xp + gain else Curve.MAX_XP)
      && Consistent(a.users, k)
      && a.oldLevel == users[k].level && a.newLevel == a.users[k].level
      && (forall j :: j != k ==> (j in a.users <==> j in users))
      && (forall j :: j != k && j in users ==> a.users[j] == users[j])
  {
  }

  /** Attendance keeps the table valid (the gain is never negative in practice). */
  lemma AttendKeepsValid(users: map<Key, Record>, k: Key, gain: int, today: int)
    requires ValidTable(users) && gain >= 0
    ensures ValidTable(Attend(users, k, gain, today).users)
  {
  }

  /**
   * On a consistent row a non-negative gain never lowers the level; on a row
   * left stale by update_user_xp the reported new level can be lower than the
   * reported old one.
   */
  lemma AttendLevelNeverDrops(users: map<Key, Record>, k: Key, gain: int, today: int)
    requires ValidTable(users) && Consistent(users, k) && gain >= 0
    ensures Attend(users, k, gain, today).oldLevel <= Attend(users, k, gain, today).newLevel
  {
    var r := users[k];
    var a := Attend(users, k, gain, today);
    if r.lastAttendance != Some(today) {
      var xp := if r.xp + gain < Curve.MAX_XP then r.xp + gain else Curve.MAX_XP;
      assert a.oldLevel == Curve.LevelFromXp(r.xp) && a.newLevel == Curve.LevelFromXp(xp);
      Curve.LevelFromXpMonotone(r.xp, xp);
    }
  }

  /** Reset is idempotent, leaves a consistent row and never creates one. */
  lemma ResetClearsProgress(users: map<Key, Record>, k: Key)
    ensures Reset(Reset(users, k), k) == Reset(users, k)
    ensures k in Reset(users, k) <==> k in users
    ensures k in users ==> Consistent(Reset(users, k), k) && Reset(users, k)[k].lastAttendance == None
    ensures ValidTable(users) ==> ValidTable(Reset(users, k))
  {
    assert Curve.LevelFromXp(0) == 1 by {
      assert Curve.Cumulative(2) == Curve.BASE_XP_REQUIREMENT;
    }
  }

  /**
   * set_user_xp stores a consistent row: the level computed from the
   * unclamped request equals the level of the clamped xp actually stored.
   */
  lemma SetXpConsistent(users: map<Key, Record>, k: Key, newXp: int)
    ensures k in SetXp(users, k, newXp) <==> k in users
    ensures k in users ==> Consistent(SetXp(users, k, newXp), k)
    ensures k in users ==> SetXp(users, k, newXp)[k].xp == Curve.Clamp(newXp)
    ensures ValidTable(users) ==> ValidTable(SetXp(users, k, newXp))
  {
    Curve.LevelFromXpOfClamped(newXp);
  }

  /** The store: one `users` table, changed by one statement per call. */
  class DatabaseManager {
    var users: map<Key, Record>

    constructor ()
      ensures users == map[]
    {
      users := map[];
    }

    predicate Valid()
      reads this
    {
      ValidTable(users)
    }

    /** get_user_data: the row, or None when there is none. */
    method GetUserData(userId: int, guildId: int) returns (r: Option<Record>)
      ensures r.Some? <==> Key(userId, guildId) in users
      ensures r.Some? ==> r.value == users[Key(userId, guildId)]
    {
      var k := Key(userId, guildId);
      if k in users {
        r := Some(users[k]);
      } else {
        r := None;
      }
    }

    /** create_user: insert-or-ignore; reports success either way. */
    method CreateUser(userId: int, guildId: int) returns (ok: bool)
      modifies this
      ensures ok
      ensures users == Create(old(users), Key(userId, guildId))
      ensures old(Valid()) ==> Valid()
    {
      var k := Key(userId, guildId);
      if k !in users {
        users := users[k := NEW_RECORD];
      }
      ok := true;
      CreateIsInsertOrIgnore(old(users), k);
    }

    /** update_user_xp: read the xp, write back the clamped sum. */
    method UpdateUserXp(userId: int, guildId: int, xpChange: int) returns (ok: bool)
      modifies this
      ensures Update(ok, users) == AdjustXp(old(users), Key(userId, guildId), xpChange)
      ensures old(Valid()) ==> Valid()
    {
      var k := Key(userId, guildId);
      if k !in users {
        return false;
      }
      var current := users[k].xp;
      var newXp := if 0 < current + xpChange then current + xpChange else 0;
      newXp := if newXp < Curve.MAX_XP then newXp else Curve.MAX_XP;
      users := users[k := users[k].(xp := newXp)];
      ok := true;
      AdjustXpBounds(old(users), k, xpChange);
    }

    /**
     * update_attendance at the UTC instant `nowSeconds`: the once-per-game-day
     * gate, then the xp and day write and, when it differs, the level write.
     */
    method UpdateAttendance(userId: int, guildId: int, xpGain: int, nowSeconds: int)
      returns (ok: bool, oldLevel: int, newLevel: int)
      modifies this
      ensures Attendance(ok, oldLevel, newLevel, users) == Attend(old(users), Key(userId, guildId), xpGain, GameDay(nowSeconds))
      ensures old(Valid()) && xpGain >= 0 ==> Valid()
    {
      var today := GameDay(nowSeconds);
      var k := Key(userId, guildId);
      if k !in users {
        return false, 0, 0;
      }
      var row := users[k];
      oldLevel := row.level;
      if row.lastAttendance == Some(today) {
        return false, oldLevel, oldLevel;
      }
      var newXp := if row.xp + xpGain < Curve.MAX_XP then row.xp + xpGain else Curve.MAX_XP;
      users := users[k := row.(xp := newXp, lastAttendance := Some(today))];
      newLevel := Curve.CalculateLevelFromXp(newXp);
      if newLevel != oldLevel {
        users := users[k := users[k].(level := newLevel)];
      }
      assert users[k] == Record(newXp, newLevel, Some(today));
      assert users == old(users)[k := Record(newXp, newLevel, Some(today))];
      ok := true;
      if xpGain >= 0 && old(Valid()) {
        AttendKeepsValid(old(users), k, xpGain, today);
      }
    }

    /** get_leaderboard: the guild's rows, best first, at most `limit` of them (all when negative). */
    method GetLeaderboard(guildId: int, limit: int) returns (rows: seq<Row>)
      ensures IsLeaderboard(users, guildId, limit, rows)
    {
      rows := TopRows(users, guildId, limit);
    }

    /** reset_user_data: zero the progress of an existing row; reports success either way. */
    method ResetUserData(userId: int, guildId: int) returns (ok: bool)
      modifies this
      ensures ok
      ensures users == Reset(old(users), Key(userId, guildId))
      ensures old(Valid()) ==> Valid()
    {
      var k := Key(userId, guildId);
      if k in users {
        users := users[k := NEW_RECORD];
      }
      ok := true;
      ResetClearsProgress(old(users), k);
    }

    /** set_user_xp: the admin override of xp and level together. */
    method SetUserXp(userId: int, guildId: int, newXp: int) returns (ok: bool)
      modifies this
      ensures ok
      ensures users == SetXp(old(users), Key(userId, guildId), newXp)
      ensures old(Valid()) ==> Valid()
    {
      var newLevel := Curve.CalculateLevelFromXp(newXp);
      var safeXp := if newXp < 0 then 0 else if newXp > Curve.MAX_XP then Curve.MAX_XP else newXp;
      var k := Key(userId, guildId);
      if k in users {
        users := users[k := users[k].(xp := safeXp, level := newLevel)];
      }
      ok := true;
      SetXpConsistent(old(users), k, newXp);
    }
  }
}

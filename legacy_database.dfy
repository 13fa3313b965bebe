/**
 * The older progression store (DiscordSiri/src/utils/database.py): the same
 * `users` table and statements as the current store, but with no upper XP
 * cap, no clamping in set_user_xp, the legacy polynomial curve for levels,
 * and the day key taken from the host's local date (a parameter here).
 */
module LegacyDatabase {
  import opened Wrappers
  import opened Table
  import LegacyCurve

  /** The stored level of `k` is the level its stored xp reaches on the legacy curve. */
  predicate Consistent(users: map<Key, Record>, k: Key)
  {
    k in users && users[k].level == LegacyCurve.LevelFromXp(users[k].xp)
  }

  /** What every statement but set_user_xp preserves: xp is never negative and the level is at least 1. */
  predicate NonNegativeTable(users: map<Key, Record>)
  {
    forall k :: k in users ==> 0 <= users[k].xp && 1 <= users[k].level
  }

  /** INSERT OR IGNORE of a fresh row. */
  function Create(users: map<Key, Record>, k: Key): map<Key, Record>
  {
    if k in users then users else users[k := NEW_RECORD]
  }

  /** The outcome of a statement that reports success. */
  datatype Update = Update(ok: bool, users: map<Key, Record>)

  /** update_user_xp: xp := max(0, xp + delta), with no upper bound; the level column is not written. */
  function AdjustXp(users: map<Key, Record>, k: Key, delta: int): Update
  {
    if k !in users then Update(false, users)
    else
      var xp := users[k].xp + delta;
      Update(true, users[k := users[k].(xp := if xp > 0 then xp else 0)])
  }

  /** update_attendance's result triple together with the resulting table. */
  datatype Attendance = Attendance(ok: bool, oldLevel: int, newLevel: int, users: map<Key, Record>)

  /**
   * update_attendance on local date `today`: a missing row gives (False, 0, 0),
   * a second call on the same date gives (False, old, old); otherwise the gain
   * is added without a cap, the date is recorded and the level recomputed.
   */
  function Attend(users: map<Key, Record>, k: Key, gain: int, today: int): Attendance
  {
    if k !in users then Attendance(false, 0, 0, users)
    else
      var r := users[k];
      if r.lastAttendance == Some(today) then Attendance(false, r.level, r.level, users)
      else
        var xp := r.xp + gain;
        var level := LegacyCurve.LevelFromXp(xp);
        Attendance(true, r.level, level, users[k := Record(xp, level, Some(today))])
  }

  /** reset_user_data: an UPDATE, so a missing row stays missing. */
  function Reset(users: map<Key, Record>, k: Key): map<Key, Record>
  {
    if k in users then users[k := NEW_RECORD] else users
  }

  /** set_user_xp: the requested xp is written as given, with its level. */
  function SetXp(users: map<Key, Record>, k: Key, newXp: int): map<Key, Record>
  {
    if k in users then users[k := Record(newXp, LegacyCurve.LevelFromXp(newXp), users[k].lastAttendance)]
    else users
  }

  lemma LevelOfZero()
    ensures LegacyCurve.LevelFromXp(0) == 1
  {
    LegacyCurve.LevelOfLevelTotal(1);
  }

  /** Creating twice is creating once, and a created row is consistent unless it already existed. */
  lemma CreateIsInsertOrIgnore(users: map<Key, Record>, k: Key)
    ensures Create(Create(users, k), k) == Create(users, k)
    ensures k in Create(users, k)
    ensures k in users ==> Create(users, k)[k] == users[k]
    ensures k !in users ==> Consistent(Create(users, k), k)
    ensures forall j :: j != k ==> (j in Create(users, k) <==> j in users)
    ensures NonNegativeTable(users) ==> NonNegativeTable(Create(users, k))
  {
    LevelOfZero();
  }

  /**
   * update_user_xp succeeds exactly on an existing row and stores
   * max(0, xp + delta); the sum is not capped, and neither the level, the date nor
   * any other row changes.
   */
  lemma AdjustXpBounds(users: map<Key, Record>, k: Key, delta: int)
    ensures AdjustXp(users, k, delta).ok <==> k in users
    ensures !AdjustXp(users, k, delta).ok ==> AdjustXp(users, k, delta).users == users
    ensures k in users ==> var r := AdjustXp(users, k, delta).users[k];
      0 <= r.xp && (users[k].xp + delta >= 0 ==> r.xp == users[k].xp + delta)
      && (users[k].xp + delta < 0 ==> r.xp == 0)
      && r.level == users[k].level && r.lastAttendance == users[k].lastAttendance
    ensures forall j :: j != k ==> (j in AdjustXp(users, k, delta).users <==> j in users)
    ensures forall j :: j != k && j in users ==> AdjustXp(users, k, delta).users[j] == users[j]
    ensures NonNegativeTable(users) ==> NonNegativeTable(AdjustXp(users, k, delta).users)
  {
  }

  /** Once attendance succeeds for a date, every further attempt on that date is rejected and changes nothing. */
  lemma AttendOncePerDay(users: map<Key, Record>, k: Key, gain: int, gain2: int, today: int)
    requires Attend(users, k, gain, today).ok
    ensures var a := Attend(users, k, gain, today);
      Attend(a.users, k, gain2, today) == Attendance(false, a.newLevel, a.newLevel, a.users)
  {
  }

  /**
   * A successful attendance records the date, adds the whole gain, stores the
   * level the new xp reaches and reports the previously stored level.
   */
  lemma AttendSucceeds(users: map<Key, Record>, k: Key, gain: int, today: int)
    requires k in users && users[k].lastAttendance != Some(today)
    ensures var a := Attend(users, k, gain, today);
      && a.ok && k in a.users
      && a.users[k].lastAttendance == Some(today)
      && a.users[k].xp == users[k].xp + gain
      && Consistent(a.users, k)
      && a.oldLevel == users[k].level && a.newLevel == a.users[k].level
      && (forall j :: j != k ==> (j in a.users <==> j in users))
      && (forall j :: j != k && j in users ==> a.users[j] == users[j])
  {
  }

  /** With a non-negative gain, attendance keeps xp non-negative and levels at least 1. */
  lemma AttendKeepsNonNegative(users: map<Key, Record>, k: Key, gain: int, today: int)
    requires NonNegativeTable(users) && gain >= 0
    ensures NonNegativeTable(Attend(users, k, gain, today).users)
  {
  }

  /** Reset is idempotent, leaves a consistent row and never creates one. */
  lemma ResetClearsProgress(users: map<Key, Record>, k: Key)
    ensures Reset(Reset(users, k), k) == Reset(users, k)
    ensures k in Reset(users, k) <==> k in users
    ensures k in users ==> Consistent(Reset(users, k), k) && Reset(users, k)[k].lastAttendance == None
    ensures NonNegativeTable(users) ==> NonNegativeTable(Reset(users, k))
  {
    LevelOfZero();
  }

  /** set_user_xp leaves a consistent row holding exactly the requested xp. */
  lemma SetXpConsistent(users: map<Key, Record>, k: Key, newXp: int)
    ensures k in SetXp(users, k, newXp) <==> k in users
    ensures k in users ==> Consistent(SetXp(users, k, newXp), k) && SetXp(users, k, newXp)[k].xp == newXp
  {
  }

  /** Unlike the other statements, set_user_xp can store a negative xp (at level 1). */
  lemma SetXpCanStoreNegative()
    ensures var users := SetXp(map[Key(1, 1) := NEW_RECORD], Key(1, 1), -5);
      !NonNegativeTable(users) && users[Key(1, 1)].level == 1
  {
    LegacyCurve.LevelFromNegativeXp(-5);
    var users := SetXp(map[Key(1, 1) := NEW_RECORD], Key(1, 1), -5);
    assert users[Key(1, 1)].xp == -5;
  }

  /** The older store: one `users` table, changed by one statement per call. */
  class DatabaseManager {
    var users: map<Key, Record>

    constructor ()
      ensures users == map[]
    {
      users := map[];
    }

    /** get_user_data: the row, or None when there is none. */
    method GetUserData(userId: int, guildId: int) returns (r: Option<Record>)
      ensures r.Some? <==> Key(userId, guildId) in users
      ensures r.Some? ==> r.value == users[Key(userId, guildId)]
    {
      var k := Key(userId, guildId);
      if k in users {
        r := Some(users[k]);
      } else {
        r := None;
      }
    }

    /** create_user: insert-or-ignore; reports success either way. */
    method CreateUser(userId: int, guildId: int) returns (ok: bool)
      modifies this
      ensures ok
      ensures users == Create(old(users), Key(userId, guildId))
    {
      var k := Key(userId, guildId);
      if k !in users {
        users := users[k := NEW_RECORD];
      }
      ok := true;
    }

    /** update_user_xp: read the xp, write back the sum floored at 0. */
    method UpdateUserXp(userId: int, guildId: int, xpChange: int) returns (ok: bool)
      modifies this
      ensures Update(ok, users) == AdjustXp(old(users), Key(userId, guildId), xpChange)
    {
      var k := Key(userId, guildId);
      if k !in users {
        return false;
      }
      var newXp := if 0 < users[k].xp + xpChange then users[k].xp + xpChange else 0;
      users := users[k := users[k].(xp := newXp)];
      ok := true;
    }

    /** update_attendance with the day key `today` read from the local calendar. */
    method UpdateAttendance(userId: int, guildId: int, xpGain: int, today: int)
      returns (ok: bool, oldLevel: int, newLevel: int)
      modifies this
      ensures Attendance(ok, oldLevel, newLevel, users) == Attend(old(users), Key(userId, guildId), xpGain, today)
    {
      var k := Key(userId, guildId);
      if k !in users {
        return false, 0, 0;
      }
      var row := users[k];
      oldLevel := row.level;
      if row.lastAttendance == Some(today) {
        return false, oldLevel, oldLevel;
      }
      var newXp := row.xp + xpGain;
      users := users[k := row.(xp := newXp, lastAttendance := Some(today))];
      newLevel := LegacyCurve.CalculateLevelFromXp(newXp);
      if newLevel != oldLevel {
        users := users[k := users[k].(level := newLevel)];
      }
      assert users[k] == Record(newXp, newLevel, Some(today));
      assert users == old(users)[k := Record(newXp, newLevel, Some(today))];
      assert Attend(old(users), k, xpGain, today) == Attendance(true, oldLevel, newLevel, users);
      ok := true;
    }

    /** get_leaderboard: the guild's rows, best first, at most `limit` of them (all when negative). */
    method GetLeaderboard(guildId: int, limit: int) returns (rows: seq<Row>)
      ensures IsLeaderboard(users, guildId, limit, rows)
    {
      rows := TopRows(users, guildId, limit);
    }

    /** reset_user_data: zero the progress of an existing row; reports success either way. */
    method ResetUserData(userId: int, guildId: int) returns (ok: bool)
      modifies this
      ensures ok
      ensures users == Reset(old(users), Key(userId, guildId))
    {
      var k := Key(userId, guildId);
      if k in users {
        users := users[k := NEW_RECORD];
      }
      ok := true;
    }

    /** set_user_xp: write the requested xp and its level as given. */
    method SetUserXp(userId: int, guildId: int, newXp: int) returns (ok: bool)
      modifies this
      ensures ok
      ensures users == SetXp(old(users), Key(userId, guildId), newXp)
    {
      var newLevel := LegacyCurve.CalculateLevelFromXp(newXp);
      var k := Key(userId, guildId);
      if k in users {
        users := users[k := users[k].(xp := newXp, level := newLevel)];
      }
      ok := true;
    }
  }
}

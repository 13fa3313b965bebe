/**
 * The chat check-in flow of the current attendance cog
 * (src/cogs/attendance.py): the message trigger and the decisions of
 * `_process_attendance`. Embeds and reactions become the `Reply` value.
 */
module AttendanceCog {
  import opened Wrappers
  import opened Table
  import Curve
  import Database
  import Roles
  import Tiers

  /** The check-in keyword. */
  const TRIGGER: string := "ㅊㅊ"

  /** The characters Python's str.strip() removes by default. */
  predicate IsSpace(c: char)
  {
    c == ' ' || '\t' <= c <= '\r' || '\U{1c}' <= c <= '\U{1f}' || c == '\U{85}' || c == '\U{a0}'
    || c == '\U{1680}' || '\U{2000}' <= c <= '\U{200a}' || c == '\U{2028}' || c == '\U{2029}'
    || c == '\U{202f}' || c == '\U{205f}' || c == '\U{3000}'
  }

  /** `s` without its leading whitespace. */
  function TrimStart(s: string): (r: string)
    ensures |r| <= |s| && r == s[|s| - |r|..]
    ensures forall i :: 0 <= i < |s| - |r| ==> IsSpace(s[i])
    ensures r == [] || !IsSpace(r[0])
  {
    if s != [] && IsSpace(s[0]) then TrimStart(s[1..]) else s
  }

  /** `s` without its trailing whitespace. */
  function TrimEnd(s: string): (r: string)
    ensures |r| <= |s| && r == s[..|r|]
    ensures forall i :: |r| <= i < |s| ==> IsSpace(s[i])
    ensures r == [] || !IsSpace(r[|r| - 1])
  {
    if s != [] && IsSpace(s[|s| - 1]) then TrimEnd(s[..|s| - 1]) else s
  }

  /** str.strip(): drop whitespace at both ends. */
  function Strip(s: string): string
  {
    TrimEnd(TrimStart(s))
  }

  /** A string with no whitespace at either end is its own strip, and padding it with whitespace does not change its strip. */
  lemma StripRemovesPadding(pre: string, core: string, post: string)
    requires forall i :: 0 <= i < |pre| ==> IsSpace(pre[i])
    requires forall i :: 0 <= i < |post| ==> IsSpace(post[i])
    requires core != [] && !IsSpace(core[0]) && !IsSpace(core[|core| - 1])
    ensures Strip(pre + core + post) == core
  {
    TrimStartSkipsSpaces(pre, core + post);
    assert pre + core + post == pre + (core + post);
    TrimEndSkipsSpaces(core, post);
  }

  lemma {:induction false} TrimStartSkipsSpaces(pre: string, rest: string)
    requires forall i :: 0 <= i < |pre| ==> IsSpace(pre[i])
    requires rest != [] && !IsSpace(rest[0])
    ensures TrimStart(pre + rest) == rest
  {
    if pre != [] {
      assert (pre + rest)[1..] == pre[1..] + rest;
      TrimStartSkipsSpaces(pre[1..], rest);
    } else {
      assert pre + rest == rest;
    }
  }

  lemma {:induction false} TrimEndSkipsSpaces(rest: string, post: string)
    requires forall i :: 0 <= i < |post| ==> IsSpace(post[i])
    requires rest != [] && !IsSpace(rest[|rest| - 1])
    ensures TrimEnd(rest + post) == rest
  {
    if post != [] {
      assert (rest + post)[..|rest + post| - 1] == rest + post[..|post| - 1];
      TrimEndSkipsSpaces(rest, post[..|post| - 1]);
    } else {
      assert rest + post == rest;
    }
  }

  /**
   * on_message starts a check-in only for a message from a human guild member
   * in a guild whose content, stripped, is exactly the keyword.
   */
  predicate IsCheckInMessage(authorIsBot: bool, inGuild: bool, authorIsMember: bool, content: string)
  {
    !authorIsBot && inGuild && Strip(content) == TRIGGER && authorIsMember
  }

  /** The keyword, bare or padded with spaces and a newline, triggers a check-in from a member. */
  lemma CheckInMessageAccepts()
    ensures IsCheckInMessage(false, true, true, "ㅊㅊ")
    ensures IsCheckInMessage(false, true, true, "  ㅊㅊ\n")
  {
    var padded := "  " + TRIGGER + "\n";
    StripRemovesPadding("  ", TRIGGER, "\n");
    assert padded == "  ㅊㅊ\n";
    StripRemovesPadding("", TRIGGER, "");
    assert "" + TRIGGER + "" == TRIGGER;
  }

  /** Bots, messages outside a guild, and other text inside the padding do not trigger. */
  lemma CheckInMessageRejects()
    ensures !IsCheckInMessage(true, true, true, "ㅊㅊ")
    ensures !IsCheckInMessage(false, false, true, "ㅊㅊ")
    ensures !IsCheckInMessage(false, true, true, "ㅊ ㅊ")
    ensures !IsCheckInMessage(false, true, true, "ㅊㅊㅊ")
  {
    StripRemovesPadding("", "ㅊ ㅊ", "");
    assert "" + "ㅊ ㅊ" + "" == "ㅊ ㅊ";
    StripRemovesPadding("", "ㅊㅊㅊ", "");
    assert "" + "ㅊㅊㅊ" + "" == "ㅊㅊㅊ";
  }

  /** A level-up: the levels before and after, and whether the tier role was reconciled. */
  datatype LevelUp = LevelUp(oldLevel: int, newLevel: int, roleAssigned: bool)

  /** What the check-in shows in the channel. */
  datatype Reply =
    | AlreadyCheckedIn
    | AtMaxLevel
    | CheckedIn(progress: Curve.Progress, levelUp: Option<LevelUp>)

  /** The table after a check-in of `k` on game day `today`: create if absent, then the attendance gate. */
  function CheckInTable(users: map<Key, Record>, k: Key, today: int): Database.Attendance
  {
    Database.Attend(Database.Create(users, k), k, Curve.XP_PER_ATTENDANCE, today)
  }

  /** A user's first check-in always succeeds, and only on a new game day can a known user check in. */
  lemma CheckInSucceedsOnNewDay(users: map<Key, Record>, k: Key, today: int)
    ensures CheckInTable(users, k, today).ok <==> k !in users || users[k].lastAttendance != Some(today)
    ensures CheckInTable(users, k, today).ok ==> k in CheckInTable(users, k, today).users
  {
  }

  /**
   * A new member checking in on two consecutive game days goes from 0 to 50
   * xp (level 1) and then to 100 xp, which is level 2: the second check-in
   * is a level-up.
   */
  lemma TwoDaysMakeLevelTwo(k: Key, day: int)
    ensures var first := CheckInTable(map[], k, day);
      var second := CheckInTable(first.users, k, day + 1);
      && first.ok && first.users[k].xp == 50 && Curve.LevelFromXp(50) == 1
      && second.ok && second.users[k].xp == 100 && Curve.LevelFromXp(100) == 2
  {
    Curve.CurveExample();
    Curve.LevelFromXpGalois(50, 2);
    assert Curve.LevelFromXp(50) == 1;
  }

  /**
   * What a successful check-in leaves behind, given the stored xp after it:
   * at MAX_LEVEL a plain notice; below it the progress, and a level-up (with
   * its role reconciliation) exactly when the level of xp - 50 is lower. The
   * level-up's role is assigned exactly when the role exists, the bot
   * outranks it and Discord accepts the edit or none is needed.
   */
  ghost predicate RespondsTo(xp: int, reply: Reply, rolesBefore: seq<Tiers.RoleId>, rolesAfter: seq<Tiers.RoleId>,
                             roleExists: bool, botOutranks: bool, permitted: bool)
  {
    var newLevel := Curve.LevelFromXp(xp);
    var oldLevel := Curve.LevelFromXp(xp - Curve.XP_PER_ATTENDANCE);
    && (newLevel == Curve.MAX_LEVEL ==> reply == AtMaxLevel && rolesAfter == rolesBefore)
    && (newLevel < Curve.MAX_LEVEL ==>
          && reply.CheckedIn? && reply.progress == Curve.GetLevelProgress(xp)
          && (reply.levelUp.Some? <==> oldLevel < newLevel)
          && (reply.levelUp.None? ==> rolesAfter == rolesBefore)
          && (reply.levelUp.Some? ==>
                && reply.levelUp.value.oldLevel == oldLevel && reply.levelUp.value.newLevel == newLevel
                && reply.levelUp.value.roleAssigned
                     == Roles.AssignSucceeds(rolesBefore, newLevel, roleExists, botOutranks, permitted)
                && (reply.levelUp.value.roleAssigned ==>
                      Tiers.RoleForLevel(newLevel).Some?
                      && rolesAfter == Roles.Reconciled(rolesBefore, Tiers.RoleForLevel(newLevel).value))
                && (!reply.levelUp.value.roleAssigned ==> rolesAfter == rolesBefore)))
  }

  /** The part of _process_attendance after the gate: recompute the levels from xp and respond. */
  method Respond(member: Roles.Member, currentXp: int, roleExists: bool, botOutranks: bool, permitted: bool) returns (reply: Reply)
    modifies member
    ensures RespondsTo(currentXp, reply, old(member.roles), member.roles, roleExists, botOutranks, permitted)
  {
    var oldLevel := Curve.CalculateLevelFromXp(currentXp - Curve.XP_PER_ATTENDANCE);
    var newLevel := Curve.CalculateLevelFromXp(currentXp);
    if newLevel >= Curve.MAX_LEVEL {
      return AtMaxLevel;
    }
    var progress := Curve.GetLevelProgress(currentXp);
    var levelUp: Option<LevelUp> := None;
    if newLevel > oldLevel {
      Tiers.EveryLevelHasTier(newLevel);
      var roleAssigned := Roles.AssignLevelRole(member, newLevel, roleExists, botOutranks, permitted);
      levelUp := Some(LevelUp(oldLevel, newLevel, roleAssigned));
    }
    return CheckedIn(progress, levelUp);
  }

  /**
   * _process_attendance: make sure the row exists, pass the once-per-day
   * gate, then respond from the stored xp (never from the level column).
   * `roleExists` and `botOutranks` stand for the guild's role lookup and the
   * bot's rank check used when a level-up reconciles roles, `permitted`
   * whether Discord accepts that role edit.
   */
  method ProcessAttendance(db: Database.DatabaseManager, member: Roles.Member, userId: int, guildId: int,
                           nowSeconds: int, roleExists: bool, botOutranks: bool, permitted: bool)
    returns (ok: bool, reply: Reply)
    modifies db, member
    ensures var a := CheckInTable(old(db.users), Key(userId, guildId), Database.GameDay(nowSeconds));
      db.users == a.users && ok == a.ok
    ensures !ok ==> reply == AlreadyCheckedIn && member.roles == old(member.roles)
    ensures ok ==> Key(userId, guildId) in db.users
    ensures ok ==> RespondsTo(db.users[Key(userId, guildId)].xp, reply, old(member.roles), member.roles,
                              roleExists, botOutranks, permitted)
  {
    var data := db.GetUserData(userId, guildId);
    if data.None? {
      var _ := db.CreateUser(userId, guildId);
    }
    assert db.users == Database.Create(old(db.users), Key(userId, guildId));
    var success, _, _ := db.UpdateAttendance(userId, guildId, Curve.XP_PER_ATTENDANCE, nowSeconds);
    if !success {
      return false, AlreadyCheckedIn;
    }
    var updated := db.GetUserData(userId, guildId);
    reply := Respond(member, updated.value.xp, roleExists, botOutranks, permitted);
    ok := true;
  }
}

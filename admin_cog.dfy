/**
 * The admin commands of DiscordSiri/src/cogs/attendance.py: set_level with
 * the MAX_XP cap flag, and the reset confirmation. This revision of the cog
 * refers to MAX_XP, which only the current configuration defines, so it is
 * modelled against the current curve and the current store.
 */
module AdminCog {
  import opened Table
  import Curve
  import Tiers
  import Database
  import Roles

  /** The highest level an admin may set. */
  const MAX_SETTABLE_LEVEL: int := 100

  /** What set_level reports. */
  datatype SetLevelReply =
    | NotAllowed
    | InvalidLevel
    | LevelSet(targetXp: int, capped: bool, roleAssigned: bool)
    | Failed

  /**
   * The table after set_level for a valid level: create the row if absent,
   * read its xp, and apply (target - current) through update_user_xp.
   */
  function SetLevelTable(users: map<Key, Record>, k: Key, level: int): map<Key, Record>
  {
    TargetTable(users, k, Curve.XpForLevel(level))
  }

  /** Create the row if absent, then move its xp to `target` through update_user_xp. */
  function TargetTable(users: map<Key, Record>, k: Key, target: int): map<Key, Record>
  {
    var created := Database.Create(users, k);
    Database.AdjustXp(created, k, target - created[k].xp).users
  }

  /** The xp update issued on the created row succeeds and yields TargetTable. */
  lemma TargetUpdate(users: map<Key, Record>, created: map<Key, Record>, k: Key, target: int, delta: int)
    requires created == Database.Create(users, k)
    requires delta == target - created[k].xp
    ensures Database.AdjustXp(created, k, delta) == Database.Update(true, TargetTable(users, k, target))
  {
  }

  /** Moving a row to a target within [0, MAX_XP] lands on it and leaves the level column and other rows alone. */
  lemma TargetTableReaches(users: map<Key, Record>, k: Key, target: int)
    requires 0 <= target <= Curve.MAX_XP
    ensures k in TargetTable(users, k, target)
    ensures TargetTable(users, k, target)[k].xp == target
    ensures TargetTable(users, k, target)[k].level == Database.Create(users, k)[k].level
    ensures forall j :: j != k && j in users ==> j in TargetTable(users, k, target) && TargetTable(users, k, target)[j] == users[j]
  {
    Database.CreateIsInsertOrIgnore(users, k);
    Database.AdjustXpReachesTarget(Database.Create(users, k), k, target);
    Database.AdjustXpBounds(Database.Create(users, k), k, target - Database.Create(users, k)[k].xp);
  }

  /**
   * set_level lands exactly on the level's total xp, which decodes back to the
   * requested level unless that total had to be capped; the level column and
   * every other row are left as they were.
   */
  lemma SetLevelReachesTarget(users: map<Key, Record>, k: Key, level: int)
    requires 1 <= level <= MAX_SETTABLE_LEVEL
    ensures k in SetLevelTable(users, k, level)
    ensures SetLevelTable(users, k, level)[k].xp == Curve.XpForLevel(level)
    ensures SetLevelTable(users, k, level)[k].level == Database.Create(users, k)[k].level
    ensures Curve.XpForLevel(level) < Curve.MAX_XP || level == Curve.MAX_LEVEL ==>
              Curve.LevelFromXp(SetLevelTable(users, k, level)[k].xp) == level
    ensures forall j :: j != k && j in users ==> j in SetLevelTable(users, k, level) && SetLevelTable(users, k, level)[j] == users[j]
  {
    TargetTableReaches(users, k, Curve.XpForLevel(level));
    if Curve.XpForLevel(level) < Curve.MAX_XP || level == Curve.MAX_LEVEL {
      Curve.LevelOfLevelTotal(level);
    }
  }

  /**
   * Because the xp goes through update_user_xp, the level column is not
   * rewritten: setting a new member to level 2 stores 100 xp (level 2) next to
   * the level column's 1, and the leaderboard sorts by that column.
   */
  lemma SetLevelKeepsLevelColumn(k: Key)
    ensures SetLevelTable(map[], k, 2)[k] == Record(100, 1, Wrappers.None)
    ensures Curve.LevelFromXp(100) == 2
  {
    Curve.CurveExample();
  }

  /** The cap flag is raised exactly when the level's total reaches MAX_XP, as it does at level 100. */
  lemma CapRaisedAtTop()
    ensures Curve.XpForLevel(MAX_SETTABLE_LEVEL) == Curve.MAX_XP
    ensures Curve.XpForLevel(2) < Curve.MAX_XP
  {
    Curve.MaxLevelTotalIsCapped();
    Curve.CurveExample();
  }

  /**
   * set_level. `authorized` stands for the guild context and administrator
   * checks; `roleExists` and `botOutranks` for the role lookup and rank check
   * of the role reconciliation, `permitted` for whether Discord accepts the
   * role edit.
   */
  method SetLevel(db: Database.DatabaseManager, member: Roles.Member, userId: int, guildId: int, level: int,
                  authorized: bool, roleExists: bool, botOutranks: bool, permitted: bool)
    returns (reply: SetLevelReply)
    modifies db, member
    ensures !authorized ==> reply == NotAllowed && db.users == old(db.users) && member.roles == old(member.roles)
    ensures authorized && !(1 <= level <= MAX_SETTABLE_LEVEL) ==>
              reply == InvalidLevel && db.users == old(db.users) && member.roles == old(member.roles)
    ensures authorized && 1 <= level <= MAX_SETTABLE_LEVEL ==>
              && db.users == SetLevelTable(old(db.users), Key(userId, guildId), level)
              && reply == LevelSet(Curve.XpForLevel(level), Curve.XpForLevel(level) == Curve.MAX_XP,
                                   Roles.AssignSucceeds(old(member.roles), level, roleExists, botOutranks, permitted))
              && Tiers.RoleForLevel(level).Some?
              && member.roles == if Roles.AssignSucceeds(old(member.roles), level, roleExists, botOutranks, permitted)
                                 then Roles.Reconciled(old(member.roles), Tiers.RoleForLevel(level).value)
                                 else old(member.roles)
  {
    if !authorized {
      return NotAllowed;
    }
    if !(1 <= level <= MAX_SETTABLE_LEVEL) {
      return InvalidLevel;
    }
    Tiers.EveryLevelHasTier(level);
    var targetXp := Curve.CalculateXpForLevel(level);
    var capped := false;
    if targetXp >= Curve.MAX_XP {
      targetXp := Curve.MAX_XP;
      capped := true;
    }
    assert targetXp == Curve.XpForLevel(level) && capped == (targetXp == Curve.MAX_XP);
    var success := MoveXpTo(db, userId, guildId, targetXp);
    if success {
      var roleAssigned := Roles.AssignLevelRole(member, level, roleExists, botOutranks, permitted);
      return LevelSet(targetXp, capped, roleAssigned);
    }
    return Failed;
  }

  /**
   * The database half of set_level: make sure the row exists, read its xp
   * and apply the difference to `target` through update_user_xp.
   */
  method MoveXpTo(db: Database.DatabaseManager, userId: int, guildId: int, target: int) returns (success: bool)
    modifies db
    ensures success
    ensures db.users == TargetTable(old(db.users), Key(userId, guildId), target)
  {
    ghost var k := Key(userId, guildId);
    var data := db.GetUserData(userId, guildId);
    if data.None? {
      var _ := db.CreateUser(userId, guildId);
    }
    ghost var created := db.users;
    assert created == Database.Create(old(db.users), k);
    assert k in created;
    var current := db.GetUserData(userId, guildId);
    var currentXp := if current.Some? then current.value.xp else 0;
    assert currentXp == created[k].xp;
    TargetUpdate(old(db.users), created, k, target, target - currentXp);
    success := db.UpdateUserXp(userId, guildId, target - currentXp);
  }

  /** What the reset confirmation reports. */
  datatype ResetReply = NotInGuild | ResetDone(rolesRemoved: int) | ResetFailed

  /**
   * confirm_reset: reset the row, then strip the tier roles whatever the
   * reset reported. `permitted` says whether Discord lets the bot remove them.
   */
  method ConfirmReset(db: Database.DatabaseManager, member: Roles.Member, userId: int, guildId: int,
                      inGuild: bool, permitted: bool)
    returns (reply: ResetReply)
    modifies db, member
    ensures !inGuild ==> reply == NotInGuild && db.users == old(db.users) && member.roles == old(member.roles)
    ensures inGuild ==> db.users == Database.Reset(old(db.users), Key(userId, guildId))
    ensures inGuild && permitted ==>
              && reply == ResetDone(|Roles.TierRolesOf(old(member.roles))|)
              && member.roles == Roles.Without(old(member.roles), Roles.TierRolesOf(old(member.roles)))
    ensures inGuild && !permitted ==> reply == ResetDone(0) && member.roles == old(member.roles)
  {
    if !inGuild {
      return NotInGuild;
    }
    var success := db.ResetUserData(userId, guildId);
    var removed := Roles.RemoveLevelRoles(member, permitted);
    if success {
      reply := ResetDone(removed);
    } else {
      reply := ResetFailed;
    }
  }
}

/**
 * The older admin commands (DiscordSiri/src/cogs/admin.py): set_level with no
 * XP cap over the legacy curve and the legacy store, and the reset
 * confirmation.
 */
module LegacyAdminCog {
  import opened Table
  import LegacyCurve
  import Tiers
  import LegacyDatabase
  import Roles

  /** The highest level an admin may set. */
  const MAX_SETTABLE_LEVEL: int := 100

  /** What set_level reports. */
  datatype SetLevelReply =
    | NotAllowed
    | InvalidLevel
    | LevelSet(targetXp: int, roleAssigned: bool)
    | Failed

  /** The table after set_level for a valid level: create if absent, then apply (target - current). */
  function SetLevelTable(users: map<Key, Record>, k: Key, level: int): map<Key, Record>
  {
    var created := LegacyDatabase.Create(users, k);
    LegacyDatabase.AdjustXp(created, k, LegacyCurve.XpForLevel(level) - created[k].xp).users
  }

  /**
   * With no cap, set_level always lands exactly on the level's total xp, and
   * that xp decodes back to the requested level; the level column and every
   * other row are left as they were.
   */
  lemma SetLevelReachesTarget(users: map<Key, Record>, k: Key, level: int)
    requires 1 <= level <= MAX_SETTABLE_LEVEL
    ensures k in SetLevelTable(users, k, level)
    ensures SetLevelTable(users, k, level)[k].xp == LegacyCurve.XpForLevel(level)
    ensures LegacyCurve.LevelFromXp(SetLevelTable(users, k, level)[k].xp) == level
    ensures SetLevelTable(users, k, level)[k].level == LegacyDatabase.Create(users, k)[k].level
    ensures forall j :: j != k && j in users ==> j in SetLevelTable(users, k, level) && SetLevelTable(users, k, level)[j] == users[j]
  {
    var created := LegacyDatabase.Create(users, k);
    LegacyDatabase.CreateIsInsertOrIgnore(users, k);
    LegacyDatabase.AdjustXpBounds(created, k, LegacyCurve.XpForLevel(level) - created[k].xp);
    LegacyCurve.LevelOfLevelTotal(level);
  }

  /**
   * set_level. `authorized` stands for the administrator check; `roleExists`
   * and `botOutranks` for the role lookup and rank check of the role
   * reconciliation, `permitted` for whether Discord accepts the role edit.
   */
  method SetLevel(db: LegacyDatabase.DatabaseManager, member: Roles.Member, userId: int, guildId: int, level: int,
                  authorized: bool, roleExists: bool, botOutranks: bool, permitted: bool)
    returns (reply: SetLevelReply)
    modifies db, member
    ensures !authorized ==> reply == NotAllowed && db.users == old(db.users) && member.roles == old(member.roles)
    ensures authorized && !(1 <= level <= MAX_SETTABLE_LEVEL) ==>
              reply == InvalidLevel && db.users == old(db.users) && member.roles == old(member.roles)
    ensures authorized && 1 <= level <= MAX_SETTABLE_LEVEL ==>
              && db.users == SetLevelTable(old(db.users), Key(userId, guildId), level)
              && reply == LevelSet(LegacyCurve.XpForLevel(level),
                                   Roles.AssignSucceeds(old(member.roles), level, roleExists, botOutranks, permitted))
              && Tiers.RoleForLevel(level).Some?
              && member.roles == if Roles.AssignSucceeds(old(member.roles), level, roleExists, botOutranks, permitted)
                                 then Roles.Reconciled(old(member.roles), Tiers.RoleForLevel(level).value)
                                 else old(member.roles)
  {
    if !authorized {
      return NotAllowed;
    }
    if !(1 <= level <= MAX_SETTABLE_LEVEL) {
      return InvalidLevel;
    }
    Tiers.RoleForLevelDefinedOn(level);
    var data := db.GetUserData(userId, guildId);
    if data.None? {
      var _ := db.CreateUser(userId, guildId);
    }
    var targetXp := LegacyCurve.CalculateXpForLevel(level);
    var current := db.GetUserData(userId, guildId);
    var currentXp := if current.Some? then current.value.xp else 0;
    var success := db.UpdateUserXp(userId, guildId, targetXp - currentXp);
    if success {
      var roleAssigned := Roles.AssignLevelRole(member, level, roleExists, botOutranks, permitted);
      return LevelSet(targetXp, roleAssigned);
    }
    return Failed;
  }

  /** What the reset confirmation reports. */
  datatype ResetReply = ResetDone(rolesRemoved: int) | ResetFailed

  /**
   * confirm_reset: reset the row, then strip the tier roles whatever the
   * reset reported. `permitted` says whether Discord lets the bot remove them.
   */
  method ConfirmReset(db: LegacyDatabase.DatabaseManager, member: Roles.Member, userId: int, guildId: int, permitted: bool)
    returns (reply: ResetReply)
    modifies db, member
    ensures db.users == LegacyDatabase.Reset(old(db.users), Key(userId, guildId))
    ensures permitted ==>
              && reply == ResetDone(|Roles.TierRolesOf(old(member.roles))|)
              && member.roles == Roles.Without(old(member.roles), Roles.TierRolesOf(old(member.roles)))
    ensures !permitted ==> reply == ResetDone(0) && member.roles == old(member.roles)
  {
    var success := db.ResetUserData(userId, guildId);
    var removed := Roles.RemoveLevelRoles(member, permitted);
    if success {
      reply := ResetDone(removed);
    } else {
      reply := ResetFailed;
    }
  }
}

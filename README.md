# XP and level progression of the Siri Discord bot, in Dafny

This project models the XP/level progression engine of a Discord bot. Members
check in once per game day by writing "ㅊㅊ". Each check-in earns 50 XP. The XP
total determines a level, and the level determines one of seven tier roles.
Administrators can set a member's level or reset a member's progress.

The engine exists in two revisions, and both are modelled:

- **Current** (`src/`):
  - module `Curve`: a geometric per-level cost, capped at `MAX_LEVEL` = 100 and `MAX_XP` = 9·10^18.
  - module `Database`: a store that clamps XP to [0, MAX_XP] and keys the game day to 07:00 KST.
  - module `AttendanceCog`: the check-in flow and its trigger.
- **Legacy** (`DiscordSiri/src/`):
  - module `LegacyCurve`: per-level cost `int(100·i^1.5)`, with no caps.
  - module `LegacyDatabase`: a store without clamping.
  - module `LegacyAdminCog`: the admin cog in `DiscordSiri/src/cogs/admin.py`.
  - module `AdminCog`: the later admin cog in `DiscordSiri/src/cogs/attendance.py`. It refers to `MAX_XP`, which only the current configuration defines, so it is modelled over `Curve` and `Database`.

Parts shared by both revisions:

- `Tiers`: the band table `ROLE_LEVELS` and `get_role_for_level`. The table is identical in both configurations, so it is defined once.
- `Roles`: tier-role reconciliation (`assign_level_role`, `get_user_level_roles`, `remove_level_roles`).
  - The three copies of `assign_level_role` are identical: `src/cogs/attendance.py`, `DiscordSiri/src/cogs/attendance.py` and `DiscordSiri/src/cogs/admin.py`. One method models all three.
  - The two copies of `remove_level_roles` are identical, and one method models both.
- `Table`: the record type and the leaderboard specification.
- `Helpers`: from `DiscordSiri/src/utils/helpers.py`:
  - `format_number` and `calculate_percentage`;
  - the progress bar's counts;
  - the sliding-window `RateLimiter`;
  - the id-set bookkeeping of `MessageCleanupManager`.

How the model is built:

- Each loop in the source becomes a method with loop invariants, proved equal to a recursive specification function. The specification function's properties are proved as lemmas.
- The SQL table becomes a `map<Key, Record>` field of a `DatabaseManager` class.
  - Each store method is one atomic step.
  - Each method's new state is given by a pure transition function such as `Create`, `AdjustXp`, `Attend`, `Reset` or `SetXp`.
  - The lemmas about the store are stated over those transition functions.
- A member's roles become a sequence field of a `Member` class.

Two behaviours of the code shape the model:

- **The level column is not recomputed by `update_user_xp`** (`src/utils/database.py:123-130`, `DiscordSiri/src/utils/database.py:101-105`). That method writes only `xp`; it never rewrites `level`.
  - So "stored level = level of stored XP" is not a table invariant. It is proved only for create, attendance, reset and set-XP.
  - `Database.AdjustXpLeavesLevelStale` and `AdminCog.SetLevelKeepsLevelColumn` show the stale column. The set-level command goes through `update_user_xp`.
- **The check-in reply ignores the level column.** It recomputes the old level as `level_from_xp(xp − 50)` and the new level as `level_from_xp(xp)` (`src/cogs/attendance.py:84-91`). The model does the same.

Notes on the arithmetic:

- **Current curve.** The per-level cost `int(100·1.5^(i−1))` is modelled as the exact integer `100·3^(i−1) div 2^(i−1)`. For small levels it agrees with the floating-point value (see "Left out").
- **Legacy curve.** The cost `int(100·i^1.5)` is modelled as `ISqrt(10000·i³)`, the integer square root, which is `floor(100·i·√i)` exactly.
- **Game day.** The current store's day key is the day number of UTC + 9 h − 7 h, so the day rolls over at 07:00 KST. It is computed from a seconds timestamp passed in as a parameter.

## Model

| member | source | states |
|---|---|---|
| Curve.XpForLevel | src/utils/config.py:94-109 | The total XP for a level lies in [0, MAX_XP] and is 0 for every level ≤ 1 |
| Curve.XpForLevelMonotone | src/utils/config.py:100-109 | The total XP needed is non-decreasing in the level |
| Curve.XpForLevelSaturates | src/utils/config.py:100-101 | Levels above MAX_LEVEL need exactly what MAX_LEVEL needs |
| Curve.LevelFromXp | src/utils/config.py:111-138 | The level lies in [1, MAX_LEVEL]; negative XP gives 1; XP ≥ MAX_XP gives MAX_LEVEL |
| Curve.LevelFromXpInverse | src/utils/config.py:94-138 | For xp ≥ 0 with L its level: xp_for_level(L) ≤ xp, and xp < xp_for_level(L+1) when L < MAX_LEVEL |
| Curve.LevelFromXpGalois | src/utils/config.py:94-138 | For xp ≥ 0 and a level in 1..MAX_LEVEL: xp_for_level(level) ≤ xp iff level ≤ level_from_xp(xp) |
| Curve.LevelFromXpMonotone | src/utils/config.py:111-138 | The level is non-decreasing in XP |
| Curve.LevelOfLevelTotal | src/utils/config.py:94-138 | The level of a level's own total is that level, unless the total is already capped at MAX_XP below MAX_LEVEL |
| Curve.LevelFromXpOfClamped | src/utils/config.py:113-118 | Clamping XP into [0, MAX_XP] does not change its level |
| Curve.MaxLevelTotalIsCapped | src/utils/config.py:104-109 | The total for MAX_LEVEL reaches the MAX_XP cap |
| Curve.GetLevelProgress | src/utils/config.py:140-158 | At MAX_LEVEL progress and need are 0; below it, level total + progress = xp, level total + need = next total, and 0 ≤ progress < need for xp ≥ 0 |
| Curve.CalculateXpForLevel | src/utils/config.py:94-109 | The summing loop with its early exit at MAX_XP returns the total of XpForLevel |
| Curve.CalculateLevelFromXp | src/utils/config.py:111-138 | The upward walk returns exactly LevelFromXp |
| Curve.CurveExample | src/utils/config.py:104-106 | Totals 0, 100, 250, 475 for levels 1-4; 300 XP is level 3 with progress (3, 50, 225) |
| LegacyCurve.LevelCostIsRoot | DiscordSiri/src/utils/config.py:121 | Every per-level cost is at least 100, so the level walk terminates |
| LegacyCurve.XpForLevel | DiscordSiri/src/utils/config.py:116-122 | The legacy total: 0 up to level 1, then the sum of the per-level costs, uncapped; its properties are the lemmas below |
| LegacyCurve.XpForLevelMonotone | DiscordSiri/src/utils/config.py:116-122 | The uncapped total is non-decreasing in the level |
| LegacyCurve.LevelFromXp | DiscordSiri/src/utils/config.py:124-137 | The level is at least 1 for every XP |
| LegacyCurve.LevelFromNegativeXp | DiscordSiri/src/utils/config.py:124-137 | Negative XP is level 1 |
| LegacyCurve.LevelFromXpInverse | DiscordSiri/src/utils/config.py:116-137 | For xp ≥ 0: xp_for_level(L) ≤ xp < xp_for_level(L+1), with no upper cap |
| LegacyCurve.LevelFromXpGalois | DiscordSiri/src/utils/config.py:116-137 | For xp ≥ 0 and level ≥ 1: xp_for_level(level) ≤ xp iff level ≤ level_from_xp(xp) |
| LegacyCurve.LevelFromXpMonotone | DiscordSiri/src/utils/config.py:124-137 | The level is non-decreasing in XP |
| LegacyCurve.LevelOfLevelTotal | DiscordSiri/src/utils/config.py:116-137 | The level of a level's own total is that level |
| LegacyCurve.GetLevelProgress | DiscordSiri/src/utils/config.py:139-154 | Level total + progress = xp, need = the level's cost ≥ 100, progress < need, and progress ≥ 0 for xp ≥ 0 |
| LegacyCurve.CalculateXpForLevel | DiscordSiri/src/utils/config.py:116-122 | The summing loop returns exactly XpForLevel |
| LegacyCurve.CalculateLevelFromXp | DiscordSiri/src/utils/config.py:124-137 | The `while True` walk returns exactly LevelFromXp |
| LegacyCurve.LegacyCurveExample | DiscordSiri/src/utils/config.py:121 | Totals 100 and 382 for levels 2 and 3; 300 XP is level 2 with progress (2, 200, 282) |
| Tiers.FirstMatch | src/utils/config.py:86-92 | None iff no band holds the level; otherwise the id of a band that holds it |
| Tiers.RoleForLevel | src/utils/config.py:86-92 | get_role_for_level over the configured bands; characterised by RoleForLevelDefinedOn and RoleForLevelIsItsBand |
| Tiers.GetRoleForLevel | src/utils/config.py:86-92 | The loop with early return gives the first-match band lookup |
| Tiers.RoleForLevelDefinedOn | src/utils/config.py:60-68 | A role exists exactly for levels 1..999 |
| Tiers.RoleForLevelIsItsBand | DiscordSiri/src/utils/config.py:98-114 | A level inside a band gets that band's role, so bands never compete |
| Tiers.EveryLevelHasTier | src/utils/config.py:60-84 | Every level 1..MAX_LEVEL has a tier role among the seven tier ids |
| Tiers.LevelRoleIdsAreBandIds | src/utils/config.py:60-68 | The seven tier ids are the bands' ids, in order, and are distinct |
| Table.GuildRows | src/utils/database.py:217-241 | A row is a guild row iff the guild's table holds that user with that level and XP |
| Table.IsLeaderboard | src/utils/database.py:217-241 | The leaderboard contract: guild rows only, each user once, sorted by level then XP descending, min(limit, count) rows, and no omitted row above a returned one |
| Table.TopRows | src/utils/database.py:217-241 | The result holds only the guild's rows, each user at most once, sorted by level then XP descending, min(limit, count) of them (all for a negative limit), and no omitted row ranks above a returned one |
| Database.GameDay | src/utils/database.py:150-158 | The game day of a UTC second: the KST date shifted back by seven hours, as a day number; its behaviour is stated by GameDayRollsOverAtSevenKst and GameDayExample |
| Database.GameDayRollsOverAtSevenKst | src/utils/database.py:150-158 | The day key advances by one exactly at the second that is 07:00 KST, and at no other second |
| Database.GameDayExample | src/utils/database.py:150-158 | 2025-01-01 22:00 UTC (07:00 KST) starts day 20090; one minute earlier is day 20089 |
| Database.CreateIsInsertOrIgnore | src/utils/database.py:82-99 | Create is idempotent, keeps an existing row, inserts xp 0 / level 1 / no check-in for a new key, and touches no other key |
| Database.AdjustXpBounds | src/utils/database.py:101-137 | Fails without change on a missing key; otherwise stores 0 when xp + delta < 0, MAX_XP when it exceeds MAX_XP and the sum in between; keeps level and last check-in, touches no other key, and keeps the table valid |
| Curve.Clamp | src/utils/database.py:120-121 | The result is in [0, MAX_XP]: 0 below the range, MAX_XP above it, the value itself inside |
| Database.AdjustXpReachesTarget | src/utils/database.py:120-121 | A delta of target − current lands exactly on any target in [0, MAX_XP] |
| Database.AdjustXpLeavesLevelStale | src/utils/database.py:123-130 | 100 XP added to a fresh row leaves its level column at 1 though 100 XP is level 2 |
| Database.AttendOncePerDay | src/utils/database.py:176-178 | After a successful check-in, a second one on the same day fails with (False, L, L) and changes nothing |
| Database.AttendTimesAtMostOnce | src/utils/database.py:139-215 | Any number of check-ins on one day succeed at most once in total |
| Database.AttendSucceeds | src/utils/database.py:183-211 | On a new day: xp = min(xp + gain, MAX_XP), level = level of the new XP, last check-in = today, result (True, old column, new level) |
| Database.AttendKeepsValid | src/utils/database.py:183-211 | A check-in with a non-negative gain keeps every XP in [0, MAX_XP] and every level in [1, MAX_LEVEL] |
| Database.AttendLevelNeverDrops | src/utils/database.py:183-211 | For a row whose level column is consistent, a check-in never reports a lower new level |
| Database.ResetClearsProgress | src/utils/database.py:243-262 | Reset is idempotent, keeps the key set, and leaves xp 0, level 1, no check-in |
| Database.SetXpConsistent | src/utils/database.py:264-288 | Set-XP stores the clamped XP with its own level and keeps the table valid |
| Database.DatabaseManager.GetUserData | src/utils/database.py:59-80 | Returns the row iff the key exists |
| Database.DatabaseManager.CreateUser | src/utils/database.py:82-99 | Returns True; the new table is Create of the old; validity is kept |
| Database.DatabaseManager.UpdateUserXp | src/utils/database.py:101-137 | Result and new table are AdjustXp of the old table; validity is kept |
| Database.DatabaseManager.UpdateAttendance | src/utils/database.py:139-215 | Result and new table are Attend on the game day of the timestamp; validity is kept for non-negative gains |
| Database.DatabaseManager.GetLeaderboard | src/utils/database.py:217-241 | Returns a leaderboard of the table in the sense of Table.TopRows |
| Database.DatabaseManager.ResetUserData | src/utils/database.py:243-262 | Returns True even for a missing key; the new table is Reset of the old |
| Database.DatabaseManager.SetUserXp | src/utils/database.py:264-288 | Returns True; the new table is SetXp of the old |
| LegacyDatabase.CreateIsInsertOrIgnore | DiscordSiri/src/utils/database.py:69-83 | Insert-or-ignore: existing row kept, new row xp 0 / level 1, other keys untouched |
| LegacyDatabase.AdjustXpBounds | DiscordSiri/src/utils/database.py:85-112 | Missing key fails without change; otherwise xp = xp + delta when that is ≥ 0 and exactly 0 when it is negative, with no upper cap; level untouched |
| LegacyDatabase.AttendOncePerDay | DiscordSiri/src/utils/database.py:131-139 | A second check-in on the same day fails with (False, L, L) and changes nothing |
| LegacyDatabase.AttendSucceeds | DiscordSiri/src/utils/database.py:142-163 | On a new day: xp = xp + gain uncapped, level = legacy level of the new XP, last = today |
| LegacyDatabase.AttendKeepsNonNegative | DiscordSiri/src/utils/database.py:142-163 | A non-negative gain keeps all XP non-negative |
| LegacyDatabase.DatabaseManager.GetUserData | DiscordSiri/src/utils/database.py:51-67 | Returns the row iff the key exists |
| LegacyDatabase.DatabaseManager.CreateUser | DiscordSiri/src/utils/database.py:69-83 | Returns True; the new table is the legacy Create of the old one |
| LegacyDatabase.DatabaseManager.ResetUserData | DiscordSiri/src/utils/database.py:190-206 | Returns True; the new table is the legacy Reset of the old one |
| LegacyDatabase.DatabaseManager.SetUserXp | DiscordSiri/src/utils/database.py:208-226 | Returns True; the new table is the legacy SetXp of the old one |
| LegacyDatabase.ResetClearsProgress | DiscordSiri/src/utils/database.py:190-206 | Reset is idempotent and leaves xp 0, level 1, no check-in |
| LegacyDatabase.SetXpConsistent | DiscordSiri/src/utils/database.py:208-226 | Set-XP stores the raw XP with its own level |
| LegacyDatabase.SetXpCanStoreNegative | DiscordSiri/src/utils/database.py:208-226 | Set-XP of −5 stores −5, because nothing clamps it |
| LegacyDatabase.DatabaseManager.UpdateAttendance | DiscordSiri/src/utils/database.py:114-167 | Result and new table are the legacy Attend for the given day |
| LegacyDatabase.DatabaseManager.UpdateUserXp | DiscordSiri/src/utils/database.py:85-112 | Result and new table are the legacy AdjustXp |
| LegacyDatabase.DatabaseManager.GetLeaderboard | DiscordSiri/src/utils/database.py:169-188 | Returns a leaderboard of the table in the sense of Table.TopRows |
| Roles.TierRolesOf | src/cogs/attendance.py:287-304 | A role is kept iff the member holds it and it is a tier role; order preserved |
| Roles.GetUserLevelRoles | src/cogs/attendance.py:287-304 | The appending loop returns exactly the member's tier roles in order |
| Roles.CollectStaleRoles | src/cogs/attendance.py:326-336 | The nested loops collect exactly the held tier roles other than the target |
| Roles.AssignLevelRole | src/cogs/attendance.py:306-349 | Succeeds iff a tier exists for the level, the role exists, the bot outranks it, and Discord accepts the edit or no edit is needed (target held, no stale tier role); roles unchanged on failure (including the Forbidden/error path), reconciled on success |
| Roles.NoEditKeepsRoles | src/cogs/attendance.py:332-339 | When the member already holds the target and no other tier role, reconciliation changes nothing and assignment succeeds even without edit permission |
| Roles.Reconciled | src/cogs/attendance.py:326-342 | The roles after a completed reconciliation: the stale tier roles removed, the target added if missing; characterised by ReconciledHasOnlyTarget |
| Roles.ReconciledHasOnlyTarget | src/cogs/attendance.py:326-342 | After reconciliation the target is held, no other tier role is, non-tier roles are unchanged, and without duplicates the tier roles are exactly [target] |
| Roles.ReconciledIdempotentOnMembership | DiscordSiri/src/cogs/admin.py:28-69 | Reconciling twice holds the same roles as reconciling once |
| Roles.RemoveLevelRoles | DiscordSiri/src/cogs/attendance.py:403-435 | When permitted, removes exactly the held tier roles and returns their count; otherwise returns 0 and changes nothing |
| Roles.StrippedHasNoTier | DiscordSiri/src/cogs/admin.py:216-248 | After stripping, a role is held iff it was held and is not a tier role |
| AttendanceCog.TrimStart | src/cogs/attendance.py:159-167 | Drops exactly the leading whitespace (Python's `str.strip` set) |
| AttendanceCog.TrimEnd | src/cogs/attendance.py:159-167 | Drops exactly the trailing whitespace |
| AttendanceCog.StripRemovesPadding | src/cogs/attendance.py:159-167 | Stripping whitespace padding around a non-blank core gives back the core |
| AttendanceCog.IsCheckInMessage | src/cogs/attendance.py:157-167 | A check-in is triggered iff the author is not a bot, the message is in a guild, its stripped content is "ㅊㅊ" and the author is a member; the examples are CheckInMessageAccepts and CheckInMessageRejects |
| AttendanceCog.CheckInMessageAccepts | src/cogs/attendance.py:159-167 | A member's in-guild "ㅊㅊ", with or without padding, triggers a check-in |
| AttendanceCog.CheckInMessageRejects | src/cogs/attendance.py:159-167 | A bot's message, a DM, "ㅊ ㅊ" and "ㅊㅊㅊ" do not |
| AttendanceCog.CheckInSucceedsOnNewDay | src/cogs/attendance.py:62-82 | With create-then-gate, a check-in succeeds iff the member is new or has not checked in that game day |
| AttendanceCog.TwoDaysMakeLevelTwo | src/cogs/attendance.py:46-154 | A new member's check-ins on two consecutive days give 50 XP (level 1), then 100 XP (level 2) |
| AttendanceCog.Respond | src/cogs/attendance.py:84-154 | At MAX_LEVEL a plain notice and no role change; below it the progress, and a level-up exactly when level(xp − 50) < level(xp); on a level-up the role is reported assigned, and the roles reconciled to the new tier, exactly when assign_level_role succeeds (role exists, bot outranks it, and Discord accepts the edit or none is needed); otherwise the roles are unchanged |
| AttendanceCog.ProcessAttendance | src/cogs/attendance.py:46-154 | The table becomes create-then-attend on the game day; a failed gate changes no roles and replies "already checked in"; a success responds from the stored XP as Respond does, with the same role-assignment condition |
| AdminCog.SetLevelReachesTarget | DiscordSiri/src/cogs/attendance.py:110-127 | For levels 1..100 the row exists with xp = xp_for_level(level), its level column is what it was, and no other row changes |
| AdminCog.MoveXpTo | DiscordSiri/src/cogs/attendance.py:108-127 | Creating the row when absent, reading its xp and applying target − current through update_user_xp always succeeds and leaves exactly TargetTable |
| AdminCog.TargetTableReaches | DiscordSiri/src/cogs/attendance.py:120-127 | For any target in [0, MAX_XP] the row ends at that xp with its level column unchanged, and every other row is untouched |
| AdminCog.SetLevelKeepsLevelColumn | DiscordSiri/src/cogs/attendance.py:122-127 | Setting a new member to level 2 stores 100 XP with level column 1 |
| AdminCog.CapRaisedAtTop | DiscordSiri/src/cogs/attendance.py:115-119 | The cap flag is raised for level 100 and not for level 2 |
| AdminCog.SetLevel | DiscordSiri/src/cogs/attendance.py:76-157 | Unauthorized or out-of-range requests change nothing; otherwise the table is SetLevelTable, the reply carries the target XP and the cap flag, and the reported role flag, and whether the roles are reconciled, is exactly the success condition of assign_level_role (role exists, bot outranks it, Discord accepts the edit or none is needed) |
| AdminCog.ConfirmReset | DiscordSiri/src/cogs/attendance.py:371-401 | Outside a guild nothing changes; otherwise the row is reset, then the tier roles are stripped and counted whatever the reset reported |
| LegacyAdminCog.SetLevelReachesTarget | DiscordSiri/src/cogs/admin.py:104-117 | For levels 1..100 the row gets xp = legacy xp_for_level(level), whose level is that level; the column is unchanged and other rows are untouched |
| LegacyAdminCog.SetLevel | DiscordSiri/src/cogs/admin.py:76-140 | Same decisions as the later command, including the role-assignment condition, over the legacy curve and store and with no cap |
| LegacyAdminCog.ConfirmReset | DiscordSiri/src/cogs/admin.py:185-214 | The row is reset, then the tier roles are stripped and counted |
| Helpers.Digits | DiscordSiri/src/utils/helpers.py:62-64 | The decimal digits of a natural number are non-empty and all digits |
| Helpers.FormatNumberRoundTrip | DiscordSiri/src/utils/helpers.py:62-64 | Removing the thousands separators from the formatted number and parsing gives back the number |
| Helpers.FormatNumberExample | DiscordSiri/src/utils/helpers.py:62-64 | 1234567 formats as "1,234,567" |
| Helpers.FormatNumber | DiscordSiri/src/utils/helpers.py:62-64 | f"{n:,}"; its meaning is stated by FormatNumberGrouped and FormatNumberRoundTrip |
| Helpers.FormatNumberGrouped | DiscordSiri/src/utils/helpers.py:62-64 | A minus sign exactly for negatives, then digits with a comma exactly every three digits from the right: the leading group has 1 to 3 digits and each comma is followed by exactly three digits |
| Helpers.GroupIsCommaGrouped | DiscordSiri/src/utils/helpers.py:62-64 | Grouping any non-empty digit string gives that thousands layout |
| Helpers.FormatNumberSmallExamples | DiscordSiri/src/utils/helpers.py:62-64 | −1000 formats as "-1,000" and 999 as "999" |
| Helpers.CalculatePercentage | DiscordSiri/src/utils/helpers.py:74-78 | 0 when the total is 0, never above 100, non-negative for non-negative inputs |
| Helpers.PercentageBrackets | DiscordSiri/src/utils/helpers.py:74-78 | For 0 ≤ current ≤ total the value is in [0, 100], and 100 exactly when current = total |
| Helpers.ProgressBarCounts | DiscordSiri/src/utils/helpers.py:45-60 | At most 10 filled cells and 100 %; full bar and 100 % once current ≥ total > 0 |
| Helpers.ProgressBarNotFull | DiscordSiri/src/utils/helpers.py:45-60 | Below the total the bar is never full and the percentage is below 100 |
| Helpers.FormatProgressBar | DiscordSiri/src/utils/helpers.py:45-60 | The bar text: filled squares, empty squares, a space, the percent via str() and "%"; its layout is stated by ProgressBarLayout |
| Helpers.ProgressBarLayout | DiscordSiri/src/utils/helpers.py:45-60 | For a non-negative share of a positive total: ten squares, the filled ones first, then a space, the percent as a plain integer (no separators) that reads back as the computed percent, and "%" |
| Helpers.ShowInt | DiscordSiri/src/utils/helpers.py:60 | Python's str() of an integer: no commas, and it reads back as the integer, sign included |
| Helpers.Recent | DiscordSiri/src/utils/helpers.py:92-97 | Keeps exactly the timestamps newer than the cutoff, each as many times as it occurs (multiset equality) |
| Helpers.RecentAppend | DiscordSiri/src/utils/helpers.py:92-97 | Filtering a concatenation is the concatenation of the filtered parts, so the kept calls stay in their order |
| Helpers.RecentSingle | DiscordSiri/src/utils/helpers.py:92-97 | A single call is kept iff it is newer than the cutoff |
| Helpers.RateLimiter.constructor | DiscordSiri/src/utils/helpers.py:83-86 | Stores the limit and the period with an empty history |
| Helpers.Prune | DiscordSiri/src/utils/helpers.py:93-97 | The pruning loop returns exactly Recent(history, cutoff): the calls after the cutoff, in their order |
| Helpers.RateLimiter.IsAllowed | DiscordSiri/src/utils/helpers.py:88-105 | Prunes the caller's history to the window, allows iff fewer than max_calls remain, appends `now` only when allowed, changes no other user, and keeps every history within max_calls |
| Helpers.Max0 | DiscordSiri/src/utils/helpers.py:117-118 | Clamps a duration to at least 0 |
| Helpers.MessageCleanupManager.constructor | DiscordSiri/src/utils/helpers.py:111-125 | Jitter and minimum interval clamped to ≥ 0, empty queue, the pinned message persistent, and skip ids equal to persistent ids |
| Helpers.MessageCleanupManager.Start | DiscordSiri/src/utils/helpers.py:127-131 | Starts the worker once and clears the stop flag only when starting it |
| Helpers.MessageCleanupManager.Schedule | DiscordSiri/src/utils/helpers.py:133-152 | No-op when stopped or the message is skipped; otherwise queues it at now + delay (an explicit delay clamped to ≥ 0) plus jitter |
| Helpers.MessageCleanupManager.MarkPersistent | DiscordSiri/src/utils/helpers.py:173-183 | The id joins both sets and the message is skipped from then on |
| Helpers.MessageCleanupManager.Shutdown | DiscordSiri/src/utils/helpers.py:154-171 | Stops the worker, drains the queue, and resets the skip ids to the persistent ids |
| Helpers.MessageCleanupManager.ReleaseMessage | DiscordSiri/src/utils/helpers.py:214-216 | After a deletion attempt the id leaves the skip set unless it is persistent, so persistent ids stay skipped |
| Helpers.PersistentStaysExempt | DiscordSiri/src/utils/helpers.py:173-183 | For any valid manager, the default jitter included, a message marked persistent, then a shutdown and a restart, is not queued when scheduled |
| Helpers.MessageCleanupManager.ShouldSkip | DiscordSiri/src/utils/helpers.py:178-183 | A message is skipped iff it carries the skip flag or its id is in the skip or the persistent ids |

## Left out

- Floating-point curve costs:
  - Current curve: the cost is modelled as the exact integer `100·3^(i−1) div 2^(i−1)`. Python's `int(100 * 1.5 ** (i - 1))` rounds `1.5 ** (i − 1)` to a double. From about level 77 the two can differ in the last digits. They agree for the small levels of the worked examples.
  - Legacy curve: the cost is modelled as the integer square root of `10000·i³`. The float `i ** 1.5` can differ from it by one where `100·i^1.5` lies within rounding of an integer.
- Helpers.CalculatePercentage: uses truncating integer division of `100·current` by `total`, in place of the float `int(current / total * 100)`. For some pairs the float result is one lower; for example, `29/100*100` is `28.999…`. The proved bounds hold for both.
- Helpers.ProgressBarCounts: uses the same integer form for `int(10 * min(current/total, 1.0))`, with the same caveat.
- Wall clock and randomness are parameters:
  - the timestamp for the current day key;
  - the day number for the legacy store, which uses the local date;
  - the `now` of `RateLimiter`, an integer in the same unit as its `period`. The source compares `datetime.now()` values, which have microsecond resolution, against `timedelta(seconds=period)`. So the model matches the source when both are counted in microseconds, with a period of `period`·10^6. With whole seconds, calls less than a second apart can be judged differently.
  - the time and the jitter draw of `MessageCleanupManager.schedule`.
- The day key is an integer day number, not an ISO date string; equal strings are equal day numbers.
- Concurrency: each store method is one atomic step. The read-then-delta sequence of set-level is modelled sequentially, so racing writers are not captured. The asynchronous cleanup worker loop is not modelled. That covers its sleeping, the queue's priority order, deletion, and the 429 retry that re-schedules after 5 seconds. Only its release of a non-persistent id (`ReleaseMessage`) is modelled, and the queue is a sequence.
- SQLite and filesystem I/O: `init_database`, migrations, backups and `close` are left out. So are the exception handlers that log and return False, None or an empty list; the model covers the paths without a database error.
- Leaderboard ties: SQL leaves the order among rows with equal level and XP unspecified. The model allows any order among ties.
- Discord presentation and permissions:
  - Embeds, reactions, random messages and `my_info` are left out.
  - Administrator and guild checks are the boolean `authorized`.
  - The role lookup and the bot's rank check are `roleExists` and `botOutranks`.
  - Whether Discord accepts a role edit (no `Forbidden` or other error from `remove_roles`/`add_roles`) is `permitted`.
- Partial failures: a Discord error in the middle of a role reconciliation, after some roles were already removed (`remove_roles` succeeded, then `add_roles` raised), is not modelled. When Discord refuses the edit (`permitted` false) and a role has to be removed or added, assignment and stripping report failure and change nothing; when no edit is needed they succeed without any Discord call.
- Database.AttendLevelNeverDrops: requires a valid table and a consistent row. A row whose level column is stale (after `update_user_xp`) can report a lower new level, because the old level comes from the column.
- Curve.LevelOfLevelTotal: excludes levels whose total is already capped at MAX_XP below MAX_LEVEL. Those totals all map to MAX_LEVEL.

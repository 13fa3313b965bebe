/**
 * Role-tier reconciliation: listing a member's tier roles, replacing them
 * with the tier of a level, and stripping them all. The member's roles are
 * a sequence of role ids; Discord's remove_roles / add_roles are the two
 * methods of `Member`.
 */
module Roles {
  import opened Wrappers
  import opened Tiers

  predicate IsTierRole(r: RoleId)
  {
    r in LEVEL_ROLE_IDS
  }

  /** No role is held twice. */
  predicate NoDuplicates(s: seq<RoleId>)
  {
    forall i, j :: 0 <= i < j < |s| ==> s[i] != s[j]
  }

  /** The tier roles among `roles`, in the member's order. */
  function TierRolesOf(roles: seq<RoleId>): (t: seq<RoleId>)
    ensures forall r :: r in t <==> r in roles && IsTierRole(r)
    ensures |t| <= |roles|
  {
    if roles == [] then []
    else
      var last := roles[|roles| - 1];
      assert forall r :: r in roles <==> r in roles[..|roles| - 1] || r == last;
      TierRolesOf(roles[..|roles| - 1]) + (if IsTierRole(last) then [last] else [])
  }

  /** The tier roles among `roles` other than `target`: the roles a reconciliation removes. */
  function StaleTierRoles(roles: seq<RoleId>, target: RoleId): (t: seq<RoleId>)
    ensures forall r :: r in t <==> r in roles && IsTierRole(r) && r != target
  {
    if roles == [] then []
    else
      var last := roles[|roles| - 1];
      assert forall r :: r in roles <==> r in roles[..|roles| - 1] || r == last;
      StaleTierRoles(roles[..|roles| - 1], target) + (if IsTierRole(last) && last != target then [last] else [])
  }

  /** `roles` without any role listed in `gone`, order kept. */
  function Without(roles: seq<RoleId>, gone: seq<RoleId>): (t: seq<RoleId>)
    ensures forall r :: r in t <==> r in roles && r !in gone
    ensures |t| <= |roles|
    ensures NoDuplicates(roles) ==> NoDuplicates(t)
  {
    if roles == [] then []
    else
      var last := roles[|roles| - 1];
      assert forall r :: r in roles <==> r in roles[..|roles| - 1] || r == last;
      var front := Without(roles[..|roles| - 1], gone);
      assert NoDuplicates(roles) ==> NoDuplicates(roles[..|roles| - 1]) && last !in roles[..|roles| - 1];
      front + (if last in gone then [] else [last])
  }

  /** The roles a member ends with after assign_level_role succeeds with `target`. */
  function Reconciled(roles: seq<RoleId>, target: RoleId): seq<RoleId>
  {
    Without(roles, StaleTierRoles(roles, target)) + (if target in roles then [] else [target])
  }

  lemma {:induction false} TierRolesOfAppend(a: seq<RoleId>, b: seq<RoleId>)
    ensures TierRolesOf(a + b) == TierRolesOf(a) + TierRolesOf(b)
  {
    if b != [] {
      var ab := a + b;
      assert ab[..|ab| - 1] == a + b[..|b| - 1];
      assert ab[|ab| - 1] == b[|b| - 1];
      TierRolesOfAppend(a, b[..|b| - 1]);
    } else {
      assert a + b == a;
    }
  }

  /** A duplicate-free sequence whose every element is `t` is empty or just [t]. */
  lemma OnlyTarget(s: seq<RoleId>, t: RoleId)
    requires NoDuplicates(s)
    requires forall r :: r in s ==> r == t
    ensures s == [] || s == [t]
  {
    if |s| >= 2 {
      FirstTwoDiffer(s);
      assert false;
    }
    if |s| == 1 {
      assert s[0] in s;
      assert s == [t];
    }
  }

  lemma FirstTwoDiffer(s: seq<RoleId>)
    requires NoDuplicates(s) && |s| >= 2
    ensures s[0] in s && s[1] in s && s[0] != s[1]
  {
  }

  lemma {:induction false} TierRolesOfNoDuplicates(s: seq<RoleId>)
    requires NoDuplicates(s)
    ensures NoDuplicates(TierRolesOf(s))
  {
    if s != [] {
      var front := s[..|s| - 1];
      assert NoDuplicates(front);
      assert s[|s| - 1] !in front;
      TierRolesOfNoDuplicates(front);
    }
  }

  /**
   * After reconciling to a tier role the member holds the target, holds no
   * other tier role, and keeps exactly the non-tier roles it had; when its
   * roles were distinct, the target is its one and only tier role.
   */
  lemma ReconciledHasOnlyTarget(roles: seq<RoleId>, target: RoleId)
    requires IsTierRole(target)
    ensures target in Reconciled(roles, target)
    ensures forall r :: r in Reconciled(roles, target) && IsTierRole(r) ==> r == target
    ensures forall r :: !IsTierRole(r) ==> (r in Reconciled(roles, target) <==> r in roles)
    ensures NoDuplicates(roles) ==> TierRolesOf(Reconciled(roles, target)) == [target]
  {
    var kept := Without(roles, StaleTierRoles(roles, target));
    var added: seq<RoleId> := if target in roles then [] else [target];
    assert Reconciled(roles, target) == kept + added;
    if NoDuplicates(roles) {
      TierRolesOfAppend(kept, added);
      TierRolesOfNoDuplicates(kept);
      OnlyTarget(TierRolesOf(kept), target);
      if target in roles {
        assert target in kept;
        assert TierRolesOf(added) == [];
      } else {
        assert target !in kept;
        assert TierRolesOf(added) == [target] by {
          assert added[..0] == [];
        }
      }
    }
  }

  /** Reconciling twice to the same target is reconciling once. */
  lemma ReconciledIdempotentOnMembership(roles: seq<RoleId>, target: RoleId, r: RoleId)
    requires IsTierRole(target)
    ensures r in Reconciled(Reconciled(roles, target), target) <==> r in Reconciled(roles, target)
  {
    ReconciledHasOnlyTarget(roles, target);
    ReconciledHasOnlyTarget(Reconciled(roles, target), target);
  }

  /** Stripping the tier roles leaves no tier role and every other role. */
  lemma StrippedHasNoTier(roles: seq<RoleId>, r: RoleId)
    ensures r in Without(roles, TierRolesOf(roles)) <==> r in roles && !IsTierRole(r)
  {
  }

  /** A guild member's role list, changed through Discord's role API. */
  class Member {
    var roles: seq<RoleId>

    constructor (roles: seq<RoleId>)
      ensures this.roles == roles
    {
      this.roles := roles;
    }

    /** member.remove_roles(*gone). */
    method RemoveRoles(gone: seq<RoleId>)
      modifies this
      ensures roles == Without(old(roles), gone)
    {
      roles := Without(roles, gone);
    }

    /** member.add_roles(role). */
    method AddRole(role: RoleId)
      modifies this
      ensures roles == old(roles) + [role]
    {
      roles := roles + [role];
    }
  }

  /** get_user_level_roles: walk the member's roles and keep the tier ones. */
  method GetUserLevelRoles(member: Member) returns (held: seq<RoleId>)
    ensures held == TierRolesOf(member.roles)
  {
    held := [];
    var i := 0;
    while i < |member.roles|
      invariant 0 <= i <= |member.roles|
      invariant held == TierRolesOf(member.roles[..i])
    {
      var role := member.roles[i];
      assert member.roles[..i + 1][..i] == member.roles[..i];
      if role in LEVEL_ROLE_IDS {
        held := held + [role];
      }
      i := i + 1;
    }
    assert member.roles[..i] == member.roles;
  }

  /**
   * The roles assign_level_role removes: for each held role, one entry per
   * tier band whose id it is, unless it is the target.
   */
  method CollectStaleRoles(roles: seq<RoleId>, target: RoleId) returns (toRemove: seq<RoleId>)
    ensures toRemove == StaleTierRoles(roles, target)
  {
    LevelRoleIdsAreBandIds();
    toRemove := [];
    var i := 0;
    while i < |roles|
      invariant 0 <= i <= |roles|
      invariant toRemove == StaleTierRoles(roles[..i], target)
    {
      var role := roles[i];
      ghost var before := toRemove;
      var j := 0;
      while j < |ROLE_LEVELS|
        invariant 0 <= j <= |ROLE_LEVELS|
        invariant toRemove == before + (if role != target && role in LEVEL_ROLE_IDS[..j] then [role] else [])
      {
        assert LEVEL_ROLE_IDS[..j + 1] == LEVEL_ROLE_IDS[..j] + [LEVEL_ROLE_IDS[j]];
        if role == ROLE_LEVELS[j].roleId && role != target {
          assert role !in LEVEL_ROLE_IDS[..j];
          toRemove := toRemove + [role];
        }
        j := j + 1;
      }
      assert LEVEL_ROLE_IDS[..j] == LEVEL_ROLE_IDS;
      assert roles[..i + 1][..i] == roles[..i];
      i := i + 1;
    }
    assert roles[..i] == roles;
  }

  /** Reconciling to `target` needs a Discord call: a stale tier role to remove or the target to add. */
  predicate NeedsEdit(roles: seq<RoleId>, target: RoleId)
  {
    StaleTierRoles(roles, target) != [] || target !in roles
  }

  /**
   * When assign_level_role reports success: a tier exists for the level, the
   * role exists, the bot outranks it, and Discord accepts the edit or no
   * edit is needed.
   */
  predicate AssignSucceeds(roles: seq<RoleId>, level: int, roleExists: bool, botOutranks: bool, permitted: bool)
  {
    && RoleForLevel(level).Some? && roleExists && botOutranks
    && (permitted || !NeedsEdit(roles, RoleForLevel(level).value))
  }

  /**
   * assign_level_role: no role for the level, a role missing from the guild
   * (`roleExists` false) or a target at or above the bot's top role
   * (`botOutranks` false) fails without touching the member; otherwise the
   * stale tier roles are removed and the target added if not already held.
   * `permitted` false stands for Discord refusing the role edit (Forbidden or
   * another error), which reports failure with the roles as they were; it
   * matters only when a role has to be removed or added.
   */
  method AssignLevelRole(member: Member, level: int, roleExists: bool, botOutranks: bool, permitted: bool)
    returns (ok: bool)
    modifies member
    ensures ok <==> AssignSucceeds(old(member.roles), level, roleExists, botOutranks, permitted)
    ensures !ok ==> member.roles == old(member.roles)
    ensures ok ==> member.roles == Reconciled(old(member.roles), RoleForLevel(level).value)
  {
    var target := GetRoleForLevel(level);
    if target.None? {
      return false;
    }
    if !roleExists || !botOutranks {
      return false;
    }
    var toRemove := CollectStaleRoles(member.roles, target.value);
    if (|toRemove| > 0 || target.value !in member.roles) && !permitted {
      return false;
    }
    if |toRemove| > 0 {
      member.RemoveRoles(toRemove);
    } else {
      assert Without(member.roles, toRemove) == member.roles by {
        WithoutNothing(member.roles);
      }
    }
    if target.value !in member.roles {
      member.AddRole(target.value);
    }
    ok := true;
  }

  /**
   * A member who already holds the target and no other tier role needs no
   * Discord call: reconciliation leaves the roles as they are, so assignment
   * succeeds even when Discord would refuse an edit.
   */
  lemma NoEditKeepsRoles(roles: seq<RoleId>, level: int)
    requires RoleForLevel(level).Some? && !NeedsEdit(roles, RoleForLevel(level).value)
    ensures Reconciled(roles, RoleForLevel(level).value) == roles
    ensures AssignSucceeds(roles, level, true, true, false)
  {
    WithoutNothing(roles);
  }

  lemma {:induction false} WithoutNothing(roles: seq<RoleId>)
    ensures Without(roles, []) == roles
  {
    if roles != [] {
      var front, last := roles[..|roles| - 1], roles[|roles| - 1];
      WithoutNothing(front);
      assert last !in [];
      assert Without(roles, []) == Without(front, []) + [last];
      assert front + [last] == roles;
    }
  }

  /**
   * remove_level_roles: collect the held tier roles and remove them, returning
   * how many there were; when Discord refuses (`permitted` false) nothing is
   * removed and the count is 0.
   */
  method RemoveLevelRoles(member: Member, permitted: bool) returns (removed: int)
    modifies member
    ensures permitted ==> removed == |TierRolesOf(old(member.roles))|
    ensures permitted ==> member.roles == Without(old(member.roles), TierRolesOf(old(member.roles)))
    ensures !permitted ==> removed == 0 && member.roles == old(member.roles)
  {
    var toRemove := GetUserLevelRoles(member);
    removed := 0;
    if |toRemove| > 0 && permitted {
      member.RemoveRoles(toRemove);
      removed := |toRemove|;
    } else if permitted {
      WithoutNothing(member.roles);
    }
  }
}

/**
 * The level -> role tier table (ROLE_LEVELS in src/utils/config.py; the
 * same table and lookup appear in DiscordSiri/src/utils/config.py).
 */
module Tiers {
  import opened Wrappers
  import Curve

  /** A Discord role id. */
  type RoleId = int

  /** A band of levels [minLevel, maxLevel] granting one role. */
  datatype Band = Band(minLevel: int, maxLevel: int, roleId: RoleId)

  /** The bands in the table's insertion order, which is the order the lookup tries them. */
  const ROLE_LEVELS: seq<Band> := [
    Band(1, 9, 1392422549174091868),
    Band(10, 19, 1392431487697293465),
    Band(20, 29, 1392431532592857182),
    Band(30, 39, 1392431564574687323),
    Band(40, 49, 1392431591304990730),
    Band(50, 69, 1392431665376264192),
    Band(70, 999, 1392431727292448922)
  ]

  /** The tier ids as the role-listing and role-stripping code spells them out. */
  const LEVEL_ROLE_IDS: seq<RoleId> := [
    1392422549174091868,
    1392431487697293465,
    1392431532592857182,
    1392431564574687323,
    1392431591304990730,
    1392431665376264192,
    1392431727292448922
  ]

  predicate InBand(b: Band, level: int)
  {
    b.minLevel <= level <= b.maxLevel
  }

  /** The first band containing `level`; None when no band does. */
  function FirstMatch(bands: seq<Band>, level: int): (r: Option<RoleId>)
    ensures r.None? <==> forall i :: 0 <= i < |bands| ==> !InBand(bands[i], level)
    ensures r.Some? ==> exists i :: 0 <= i < |bands| && InBand(bands[i], level) && bands[i].roleId == r.value
                                    && forall j :: 0 <= j < i ==> !InBand(bands[j], level)
  {
    if bands == [] then None
    else if InBand(bands[0], level) then Some(bands[0].roleId)
    else
      var r := FirstMatch(bands[1..], level);
      assert forall i :: 1 <= i < |bands| ==> bands[i] == bands[1..][i - 1];
      r
  }

  /** The lookup either stops at the first band or moves on to the rest. */
  lemma FirstMatchHead(bands: seq<Band>, level: int)
    requires bands != []
    ensures InBand(bands[0], level) ==> FirstMatch(bands, level) == Some(bands[0].roleId)
    ensures !InBand(bands[0], level) ==> FirstMatch(bands, level) == FirstMatch(bands[1..], level)
  {
  }

  /** get_role_for_level, as a lookup in ROLE_LEVELS. */
  function RoleForLevel(level: int): Option<RoleId>
  {
    FirstMatch(ROLE_LEVELS, level)
  }

  /** get_role_for_level: try the bands in order and return the first whose range holds the level. */
  method GetRoleForLevel(level: int) returns (r: Option<RoleId>)
    ensures r == RoleForLevel(level)
  {
    var i := 0;
    while i < |ROLE_LEVELS|
      invariant 0 <= i <= |ROLE_LEVELS|
      invariant FirstMatch(ROLE_LEVELS[i..], level) == RoleForLevel(level)
    {
      var band := ROLE_LEVELS[i];
      FirstMatchHead(ROLE_LEVELS[i..], level);
      if band.minLevel <= level <= band.maxLevel {
        return Some(band.roleId);
      }
      assert ROLE_LEVELS[i..][1..] == ROLE_LEVELS[i + 1..];
      i := i + 1;
    }
    return None;
  }

  /** The bands are listed in increasing order and do not overlap. */
  lemma BandsDisjoint()
    ensures forall i, j :: 0 <= i < j < |ROLE_LEVELS| ==> ROLE_LEVELS[i].maxLevel < ROLE_LEVELS[j].minLevel
  {
  }

  /** A level has a role exactly when it lies in 1..999. */
  lemma RoleForLevelDefinedOn(level: int)
    ensures RoleForLevel(level).Some? <==> 1 <= level <= 999
  {
    if 1 <= level <= 999 {
      var i := if level <= 9 then 0 else if level <= 19 then 1 else if level <= 29 then 2
               else if level <= 39 then 3 else if level <= 49 then 4 else if level <= 69 then 5 else 6;
      assert InBand(ROLE_LEVELS[i], level);
    } else {
      forall i | 0 <= i < |ROLE_LEVELS|
        ensures !InBand(ROLE_LEVELS[i], level)
      {
      }
    }
  }

  /** Whenever a band holds the level, the lookup returns that band's role: the band is unique. */
  lemma RoleForLevelIsItsBand(level: int, i: int)
    requires 0 <= i < |ROLE_LEVELS| && InBand(ROLE_LEVELS[i], level)
    ensures RoleForLevel(level) == Some(ROLE_LEVELS[i].roleId)
  {
    BandsDisjoint();
    var r := RoleForLevel(level);
    var k :| 0 <= k < |ROLE_LEVELS| && InBand(ROLE_LEVELS[k], level) && ROLE_LEVELS[k].roleId == r.value;
    assert k == i;
  }

  /** The listed tier ids are the table's role ids, each once. */
  lemma LevelRoleIdsAreBandIds()
    ensures |LEVEL_ROLE_IDS| == |ROLE_LEVELS|
    ensures forall i :: 0 <= i < |ROLE_LEVELS| ==> LEVEL_ROLE_IDS[i] == ROLE_LEVELS[i].roleId
    ensures forall i, j :: 0 <= i < j < |LEVEL_ROLE_IDS| ==> LEVEL_ROLE_IDS[i] != LEVEL_ROLE_IDS[j]
  {
  }

  /** Every level the curve can produce has a tier role, and that role is one of the listed tier ids. */
  lemma EveryLevelHasTier(level: int)
    requires 1 <= level <= Curve.MAX_LEVEL
    ensures RoleForLevel(level).Some? && RoleForLevel(level).value in LEVEL_ROLE_IDS
  {
    RoleForLevelDefinedOn(level);
    LevelRoleIdsAreBandIds();
  }
}

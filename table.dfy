/**
 * The `users` table shared by both store revisions: one record per
 * (user_id, guild_id), and the leaderboard query over it
 * (SELECT user_id, level, xp ... WHERE guild_id = ? ORDER BY level DESC, xp DESC LIMIT ?).
 */
module Table {
  import opened Wrappers

  /** The primary key (user_id, guild_id). */
  datatype Key = Key(userId: int, guildId: int)

  /**
   * One row of the table. `lastAttendance` is the day key of the last
   * successful attendance (NULL is None); each revision says how it derives
   * the key from the clock.
   */
  datatype Record = Record(xp: int, level: int, lastAttendance: Option<int>)

  /** A leaderboard entry. */
  datatype Row = Row(userId: int, level: int, xp: int)

  /** The record a freshly inserted row holds (the INSERT's values and column defaults). */
  const NEW_RECORD := Record(0, 1, None)

  /** Leaderboard order: higher level first, then higher xp; ties may come in either order. */
  predicate RanksAbove(a: Row, b: Row)
  {
    a.level > b.level || (a.level == b.level && a.xp >= b.xp)
  }

  function RowOf(k: Key, r: Record): Row
  {
    Row(k.userId, r.level, r.xp)
  }

  /** The rows of one guild, as the query's WHERE clause selects them. */
  function GuildRows(users: map<Key, Record>, guild: int): (s: set<Row>)
    ensures forall r :: r in s <==> Key(r.userId, guild) in users && RowOf(Key(r.userId, guild), users[Key(r.userId, guild)]) == r
  {
    set k | k in users && k.guildId == guild :: RowOf(k, users[k])
  }

  /** A guild holds each user at most once, so a row is determined by its user id. */
  lemma GuildRowsKeyedByUser(users: map<Key, Record>, guild: int, a: Row, b: Row)
    requires a in GuildRows(users, guild) && b in GuildRows(users, guild)
    requires a.userId == b.userId
    ensures a == b
  {
  }

  /** The number of rows SQLite's LIMIT lets through: a negative limit means no limit. */
  function LimitedCount(available: nat, limit: int): (n: nat)
    ensures n <= available
    ensures limit < 0 ==> n == available
    ensures 0 <= limit ==> n == if limit < available then limit else available
  {
    if limit < 0 || available <= limit then available else limit
  }

  /** What the leaderboard query returns for `guild` and `limit`. */
  ghost predicate IsLeaderboard(users: map<Key, Record>, guild: int, limit: int, rows: seq<Row>)
  {
    var all := GuildRows(users, guild);
    (forall i :: 0 <= i < |rows| ==> rows[i] in all)
    && (forall i, j :: 0 <= i < j < |rows| ==> rows[i].userId != rows[j].userId)
    && (forall i, j :: 0 <= i < j < |rows| ==> RanksAbove(rows[i], rows[j]))
    && |rows| == LimitedCount(|all|, limit)
    && (forall r, i :: r in all && r !in rows && 0 <= i < |rows| ==> RanksAbove(rows[i], r))
  }

  /** Every non-empty finite set of rows has a row ranking at or above all the others. */
  lemma {:induction false} HasTopRow(s: set<Row>)
    requires s != {}
    ensures exists t :: t in s && forall v :: v in s ==> RanksAbove(t, v)
  {
    var x :| x in s;
    var rest := s - {x};
    if rest == {} {
      assert s == {x};
    } else {
      HasTopRow(rest);
      var b :| b in rest && forall v :: v in rest ==> RanksAbove(b, v);
      var t := if RanksAbove(x, b) then x else b;
      forall v | v in s
        ensures RanksAbove(t, v)
      {
        if v != x {
          assert v in rest;
        }
      }
    }
  }

  /**
   * The leaderboard query: the guild's rows, of which the selection loop
   * takes as many top-ranked ones as the limit allows.
   */
  method TopRows(users: map<Key, Record>, guild: int, limit: int) returns (rows: seq<Row>)
    ensures IsLeaderboard(users, guild, limit, rows)
  {
    var pool := set k | k in users && k.guildId == guild :: RowOf(k, users[k]);
    assert pool == GuildRows(users, guild);
    rows := SelectTop(pool, LimitedCount(|pool|, limit));
    forall i, j | 0 <= i < j < |rows|
      ensures rows[i].userId != rows[j].userId
    {
      if rows[i].userId == rows[j].userId {
        GuildRowsKeyedByUser(users, guild, rows[i], rows[j]);
      }
    }
  }

  /** Repeatedly take a top-ranked remaining row of `pool` until `want` rows are taken. */
  method SelectTop(pool: set<Row>, want: nat) returns (rows: seq<Row>)
    requires want <= |pool|
    ensures |rows| == want
    ensures forall i :: 0 <= i < |rows| ==> rows[i] in pool
    ensures forall i, j :: 0 <= i < j < |rows| ==> rows[i] != rows[j]
    ensures forall i, j :: 0 <= i < j < |rows| ==> RanksAbove(rows[i], rows[j])
    ensures forall r, i :: r in pool && r !in rows && 0 <= i < |rows| ==> RanksAbove(rows[i], r)
  {
    var remaining := pool;
    rows := [];
    while |rows| < want
      invariant remaining <= pool
      invariant |remaining| + |rows| == |pool|
      invariant |rows| <= want
      invariant forall i :: 0 <= i < |rows| ==> rows[i] in pool && rows[i] !in remaining
      invariant forall r :: r in pool ==> r in remaining || r in rows
      invariant forall i, j :: 0 <= i < j < |rows| ==> rows[i] != rows[j]
      invariant forall i, j :: 0 <= i < j < |rows| ==> RanksAbove(rows[i], rows[j])
      invariant forall r, i :: r in remaining && 0 <= i < |rows| ==> RanksAbove(rows[i], r)
      decreases want - |rows|
    {
      HasTopRow(remaining);
      var top :| top in remaining && forall v :: v in remaining ==> RanksAbove(top, v);
      ghost var before := rows;
      rows := rows + [top];
      remaining := remaining - {top};
      assert forall i :: 0 <= i < |before| ==> rows[i] == before[i];
      assert rows[|before|] == top;
    }
  }
}

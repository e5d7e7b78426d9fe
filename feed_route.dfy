/**
 * Model of src/app/api/feed/route.ts: the `activity_feed` table, GET (the
 * caller's and their friends' activities, newest first, at most 50) and
 * POST (a new activity of one of the five kinds, by the caller).
 *
 * The database query of GET is modelled as a function of the table: the
 * rows of the feed users, ordered by `created_at` (a number here),
 * newest first, cut to 50. The joined `profiles` field of each row, as
 * the query returns it, is the parameter `joins`, keyed by activity id.
 */
module FeedRoute {
  import opened Types
  import opened Http
  import FriendsRoute

  /** The JSON values activity data carries; fractional numbers are left out. */
  datatype Json = JNull | JBool(b: bool) | JNum(n: int) | JStr(s: string)

  /** The user fields the feed joins in. */
  datatype UserInfo = UserInfo(id: string, name: Option<string>)

  /** The shape of the joined `profiles` field: null, an object, or an array of them. */
  datatype Joined = NoProfile | OneProfile(user: UserInfo) | ProfileArray(users: seq<UserInfo>)

  /** A stored `activity_feed` row; `data` is None when the column is null. */
  datatype ActivityRow = ActivityRow(id: string, userId: string, activityType: string,
                                     data: Option<map<string, Json>>, createdAt: int)

  /** An activity as GET returns it. */
  datatype Activity = Activity(id: string, userId: string, activityType: string,
                               data: map<string, Json>, createdAt: int, user: Option<UserInfo>)

  /** The five kinds POST accepts. */
  const ValidTypes: seq<string> :=
    ["quiz_completed", "achievement_unlocked", "level_up", "duel_won", "streak_milestone"]

  // ---------------------------------------------------------------------
  // GET
  // ---------------------------------------------------------------------

  /** The other party of each friendship, in order. */
  function OtherParties(fs: seq<FriendsRoute.Friendship>, caller: string): (r: seq<string>)
    ensures forall u :: u in r <==> exists f :: f in fs && u == FriendsRoute.OtherParty(f, caller)
  {
    if fs == [] then []
    else
      assert fs == [fs[0]] + fs[1..];
      [FriendsRoute.OtherParty(fs[0], caller)] + OtherParties(fs[1..], caller)
  }

  /**
   * `[user.id, ...friendIds]`: the caller, then the other party of each
   * accepted friendship; a failed friendships query counts as none.
   */
  function FeedUsers(friendships: Option<seq<FriendsRoute.Friendship>>, caller: string): (ids: seq<string>)
    ensures |ids| >= 1 && ids[0] == caller
    ensures forall u :: u in ids <==>
      u == caller ||
      (friendships.Some? &&
       exists f :: (f in friendships.value && FriendsRoute.IsAccepted(f) &&
                    FriendsRoute.Involves(f, caller) && u == FriendsRoute.OtherParty(f, caller)))
  {
    var rows := if friendships.Some? then friendships.value else [];
    [caller] + OtherParties(FriendsRoute.AcceptedOf(rows, caller), caller)
  }

  /** The rows of the given users, in table order. */
  function ByUsers(table: seq<ActivityRow>, ids: seq<string>): (r: seq<ActivityRow>)
    ensures forall a :: a in r <==> a in table && a.userId in ids
    ensures multiset(r) <= multiset(table)
  {
    if table == [] then []
    else
      assert table == [table[0]] + table[1..];
      (if table[0].userId in ids then [table[0]] else []) + ByUsers(table[1..], ids)
  }

  predicate NewestFirst(s: seq<ActivityRow>)
  {
    forall i, j :: 0 <= i < j < |s| ==> s[i].createdAt >= s[j].createdAt
  }

  /** Puts `a` before the first row that is older than it. */
  function InsertByTime(a: ActivityRow, s: seq<ActivityRow>): (r: seq<ActivityRow>)
    ensures multiset(r) == multiset(s) + multiset{a}
    ensures |r| == |s| + 1 && (r[0] == a || (s != [] && r[0] == s[0]))
  {
    if s == [] then [a]
    else if a.createdAt >= s[0].createdAt then [a] + s
    else
      assert s == [s[0]] + s[1..];
      [s[0]] + InsertByTime(a, s[1..])
  }

  lemma {:induction false} InsertKeepsOrder(a: ActivityRow, s: seq<ActivityRow>)
    requires NewestFirst(s)
    ensures NewestFirst(InsertByTime(a, s))
  {
    if s != [] && a.createdAt < s[0].createdAt {
      var rest := InsertByTime(a, s[1..]);
      InsertKeepsOrder(a, s[1..]);
      assert rest[0].createdAt <= s[0].createdAt;
      assert forall k :: 0 <= k < |rest| ==> rest[k].createdAt <= rest[0].createdAt;
      assert InsertByTime(a, s) == [s[0]] + rest;
    }
  }

  /** The rows ordered by `created_at`, newest first. */
  function SortNewestFirst(s: seq<ActivityRow>): (r: seq<ActivityRow>)
    ensures multiset(r) == multiset(s) && NewestFirst(r)
  {
    if s == [] then []
    else
      assert s == [s[0]] + s[1..];
      var rest := SortNewestFirst(s[1..]);
      InsertKeepsOrder(s[0], rest);
      InsertByTime(s[0], rest)
  }

  /** The rows the feed query returns: the feed users' rows, newest first, at most 50. */
  function FeedQuery(table: seq<ActivityRow>, ids: seq<string>): seq<ActivityRow>
  {
    var sorted := SortNewestFirst(ByUsers(table, ids));
    sorted[..if |sorted| < 50 then |sorted| else 50]
  }

  /**
   * The feed query returns at most 50 rows, all of the given users,
   * newest first, and no row of theirs that it leaves out is newer than
   * any row it returns.
   */
  lemma FeedQueryIsNewest(table: seq<ActivityRow>, ids: seq<string>)
    ensures var r := FeedQuery(table, ids);
      && |r| <= 50
      && (forall a :: a in r ==> a in table && a.userId in ids)
      && NewestFirst(r)
      && (forall a, k :: a in multiset(ByUsers(table, ids)) - multiset(r) && 0 <= k < |r| ==>
            a.createdAt <= r[k].createdAt)
  {
    var pool := ByUsers(table, ids);
    var sorted := SortNewestFirst(pool);
    var n := if |sorted| < 50 then |sorted| else 50;
    PrefixOfSorted(sorted, n);
    forall a | a in sorted[..n]
      ensures a in table && a.userId in ids
    {
      assert a in multiset(pool);
    }
  }

  /** A prefix of a newest-first list is newest first, and what it leaves out is no newer. */
  lemma PrefixOfSorted(sorted: seq<ActivityRow>, n: nat)
    requires NewestFirst(sorted) && n <= |sorted|
    ensures NewestFirst(sorted[..n])
    ensures forall a, k :: a in multiset(sorted) - multiset(sorted[..n]) && 0 <= k < n ==>
      a.createdAt <= sorted[..n][k].createdAt
  {
    var r := sorted[..n];
    assert sorted == r + sorted[n..];
    assert multiset(sorted) == multiset(r) + multiset(sorted[n..]);
    forall a: ActivityRow, k: int | a in multiset(sorted) - multiset(r) && 0 <= k < n
      ensures a.createdAt <= r[k].createdAt
    {
      assert a in sorted[n..];
      var j :| 0 <= j < |sorted| - n && sorted[n..][j] == a;
      assert sorted[n + j] == a;
    }
  }

  /** `a.data || {}`, and a profiles array reduced to its first element. */
  function Format(a: ActivityRow, joined: Joined): (r: Activity)
    ensures r.id == a.id && r.userId == a.userId && r.activityType == a.activityType && r.createdAt == a.createdAt
    ensures a.data.None? ==> r.data == map[]
    ensures a.data.Some? ==> r.data == a.data.value
    ensures joined.ProfileArray? ==> r.user == (if joined.users == [] then None else Some(joined.users[0]))
    ensures joined.OneProfile? ==> r.user == Some(joined.user)
    ensures joined.NoProfile? ==> r.user.None?
  {
    Activity(a.id, a.userId, a.activityType,
             if a.data.Some? then a.data.value else map[],
             a.createdAt,
             match joined
             case NoProfile => None
             case OneProfile(u) => Some(u)
             case ProfileArray(us) => if us == [] then None else Some(us[0]))
  }

  function JoinOf(joins: map<string, Joined>, id: string): Joined
  {
    if id in joins then joins[id] else NoProfile
  }

  function FormatAll(rows: seq<ActivityRow>, joins: map<string, Joined>): (r: seq<Activity>)
    ensures |r| == |rows|
    ensures forall k :: 0 <= k < |rows| ==> r[k] == Format(rows[k], JoinOf(joins, rows[k].id))
  {
    seq(|rows|, k requires 0 <= k < |rows| => Format(rows[k], JoinOf(joins, rows[k].id)))
  }

  // ---------------------------------------------------------------------
  // POST
  // ---------------------------------------------------------------------

  /** The row POST inserts: by the caller, with `data || {}`. */
  function NewActivity(id: string, caller: string, activityType: string, data: Option<map<string, Json>>, now: int): ActivityRow
  {
    ActivityRow(id, caller, activityType, Some(if data.Some? then data.value else map[]), now)
  }

  /**
   * A new activity newer than every stored row comes first in the
   * caller's next feed.
   */
  lemma PostedShowsFirst(table: seq<ActivityRow>, ids: seq<string>, row: ActivityRow)
    requires row.userId in ids
    requires forall a :: a in table ==> a.createdAt < row.createdAt
    ensures |FeedQuery(table + [row], ids)| > 0 && FeedQuery(table + [row], ids)[0] == row
  {
    var pool := ByUsers(table + [row], ids);
    var sorted := SortNewestFirst(pool);
    assert row in multiset(sorted);
    var head := sorted[0];
    assert head in multiset(pool);
    assert head in table + [row];
    assert head.createdAt >= row.createdAt;
  }

  class FeedStore {
    var activities: seq<ActivityRow>

    constructor ()
      ensures activities == []
    {
      activities := [];
    }

    /**
     * GET: 401 without a user, 500 when the feed query fails, otherwise
     * the feed query's rows for the caller and their friends, formatted.
     */
    function Get(caller: Option<string>, friendships: Option<seq<FriendsRoute.Friendship>>,
                 queryFails: bool, joins: map<string, Joined>): (resp: Response<seq<Activity>>)
      reads this
      ensures caller.None? ==> resp == Error(Unauthorized, "Não autenticado")
      ensures caller.Some? && queryFails ==> resp == Error(ServerError, "Erro ao buscar feed")
      ensures caller.Some? && !queryFails ==>
        resp == Ok(FormatAll(FeedQuery(activities, FeedUsers(friendships, caller.value)), joins))
      ensures resp.Ok? ==> |resp.body| <= 50
      ensures resp.Ok? ==>
        forall k :: 0 <= k < |resp.body| ==> resp.body[k].userId in FeedUsers(friendships, caller.value)
    {
      if caller.None? then Error(Unauthorized, "Não autenticado")
      else if queryFails then Error(ServerError, "Erro ao buscar feed")
      else
        var ids := FeedUsers(friendships, caller.value);
        FeedQueryIsNewest(activities, ids);
        var rows := FeedQuery(activities, ids);
        assert forall k :: 0 <= k < |rows| ==> rows[k] in rows;
        Ok(FormatAll(rows, joins))
    }

    /**
     * POST: 401 without a user, 400 without a type or with a type outside
     * the five kinds, 500 when the insert fails; otherwise one row by the
     * caller is appended.
     */
    method Post(caller: Option<string>, activityType: Option<string>, data: Option<map<string, Json>>,
                newId: string, now: int, insertFails: bool)
      returns (resp: Response<ActivityRow>)
      modifies this
      ensures caller.None? ==> resp == Error(Unauthorized, "Não autenticado")
      ensures caller.Some? && (activityType.None? || activityType.value == "") ==>
        resp == Error(BadRequest, "activity_type obrigatório")
      ensures caller.Some? && activityType.Some? && activityType.value != "" && activityType.value !in ValidTypes ==>
        resp == Error(BadRequest, "Tipo de atividade inválido")
      ensures resp.Error? ==> activities == old(activities)
      ensures resp.Ok? ==>
        caller.Some? && activityType.Some? && activityType.value in ValidTypes &&
        resp.body == NewActivity(newId, caller.value, activityType.value, data, now) &&
        activities == old(activities) + [resp.body]
      ensures caller.Some? && activityType.Some? && activityType.value in ValidTypes && !insertFails ==> resp.Ok?
    {
      if caller.None? {
        return Error(Unauthorized, "Não autenticado");
      }
      if activityType.None? || activityType.value == "" {
        return Error(BadRequest, "activity_type obrigatório");
      }
      if activityType.value !in ValidTypes {
        return Error(BadRequest, "Tipo de atividade inválido");
      }
      if insertFails {
        return Error(ServerError, "Erro ao registrar atividade");
      }
      var row := NewActivity(newId, caller.value, activityType.value, data, now);
      activities := activities + [row];
      resp := Ok(row);
    }
  }
}

/**
 * Model of the ranking: the GET handler of src/app/api/ranking/route.ts
 * (period and limit parameters, per-user aggregation of the period's
 * session scores, the sort by score, the numbering of positions and the
 * cut to the limit, and the all-time ranking by XP) and the ranking page
 * of src/app/ranking/page.tsx (the friends ranking, the user's position,
 * the medals and the add-friend email check).
 *
 * The database queries are parameters: the session rows the period query
 * returns (already filtered by its start date), the profiles of the
 * aggregated users, and the all-time profiles as the database returns
 * them (ordered by XP and limited). A failed query is `None`.
 */
module Ranking {
  import opened Types
  import opened Http
  import Text

  /** A row of the period's `game_sessions` query. */
  datatype SessionScore = SessionScore(userId: Option<string>, score: Option<int>)

  /** A row of the `profiles` table as the ranking reads it. */
  datatype ProfileRow = ProfileRow(id: string, name: Option<string>, level: int, xp: int)

  /** One line of a ranking. */
  datatype RankingUser = RankingUser(userId: string, name: Option<string>, level: int, score: int, position: int)

  /** The handler's reply body. */
  datatype Reply = Reply(rankings: seq<RankingUser>, period: string)

  // ---------------------------------------------------------------------
  // Parameters
  // ---------------------------------------------------------------------

  /** The `period` parameter; absent or empty means "alltime". */
  function PeriodOf(param: Option<string>): (p: string)
    ensures p != ""
    ensures param.Some? && param.value != "" ==> p == param.value
    ensures param.None? || param == Some("") ==> p == "alltime"
  {
    if param.None? || param.value == "" then "alltime" else param.value
  }

  /** Only "weekly" and "monthly" read the session table; every other period is all-time. */
  predicate ReadsSessions(period: string)
  {
    period == "weekly" || period == "monthly"
  }

  /**
   * The `limit` parameter through `parseInt`; an absent or empty parameter
   * falls back to the text "50", which reads as 50. None is NaN.
   */
  function LimitOf(param: Option<string>): (l: Option<int>)
    ensures param.None? || param == Some("") ==> l == Some(50)
  {
    if param.None? || param.value == "" then Some(50) else Text.ParseInt(param.value)
  }

  /** Days since the week's Monday, with `getDay` numbering: 0 is Sunday, 1 Monday. */
  predicate IsMonday(day: int)
  {
    day % 7 == 1
  }

  /** The week starts on the most recent Monday, today included, at most six days back. */
  function DaysToMonday(dayOfWeek: int): (d: int)
    requires 0 <= dayOfWeek <= 6
    ensures 0 <= d <= 6
    ensures IsMonday(dayOfWeek - d)
    ensures forall t :: dayOfWeek - d < t <= dayOfWeek ==> !IsMonday(t)
  {
    if dayOfWeek == 0 then 6 else dayOfWeek - 1
  }

  // ---------------------------------------------------------------------
  // Aggregation
  // ---------------------------------------------------------------------

  /** A session is added when its user id is set and non-empty and its score is set and non-zero. */
  predicate Counts(s: SessionScore)
  {
    s.userId.Some? && s.userId.value != "" && s.score.Some? && s.score.value != 0
  }

  /** `scoresByUser[id] || 0`. */
  function ScoreOf(scores: map<string, int>, id: string): int
  {
    if id in scores then scores[id] else 0
  }

  /** The dictionary after the forEach has seen every session, in order. */
  function Totals(sessions: seq<SessionScore>): map<string, int>
  {
    if sessions == [] then map[]
    else
      var m := Totals(sessions[..|sessions| - 1]);
      var s := sessions[|sessions| - 1];
      if Counts(s) then m[s.userId.value := ScoreOf(m, s.userId.value) + s.score.value] else m
  }

  /** Reference definition: the sum of the scores of the user's counted sessions. */
  function UserTotal(sessions: seq<SessionScore>, user: string): int
  {
    if sessions == [] then 0
    else
      var s := sessions[|sessions| - 1];
      UserTotal(sessions[..|sessions| - 1], user) +
        (if Counts(s) && s.userId.value == user then s.score.value else 0)
  }

  /** The user has at least one counted session. */
  predicate Played(sessions: seq<SessionScore>, user: string)
  {
    exists i :: 0 <= i < |sessions| && Counts(sessions[i]) && sessions[i].userId.value == user
  }

  /**
   * The dictionary holds exactly the users with a counted session, each
   * with the sum of their counted scores.
   */
  lemma {:induction false} TotalsMeaning(sessions: seq<SessionScore>, user: string)
    ensures user in Totals(sessions) <==> Played(sessions, user)
    ensures ScoreOf(Totals(sessions), user) == UserTotal(sessions, user)
  {
    if sessions != [] {
      var init := sessions[..|sessions| - 1];
      TotalsMeaning(init, user);
      if Played(init, user) {
        var i :| 0 <= i < |init| && Counts(init[i]) && init[i].userId.value == user;
        assert sessions[i] == init[i];
      }
    }
  }

  /** No user is aggregated exactly when no session counts: the empty ranking. */
  lemma NoTotalsIffNothingCounts(sessions: seq<SessionScore>)
    ensures |Totals(sessions)| == 0 <==> forall i :: 0 <= i < |sessions| ==> !Counts(sessions[i])
  {
    if |Totals(sessions)| == 0 {
      forall i | 0 <= i < |sessions|
        ensures !Counts(sessions[i])
      {
        if Counts(sessions[i]) {
          TotalsMeaning(sessions, sessions[i].userId.value);
          assert false;
        }
      }
    } else {
      var u :| u in Totals(sessions);
      TotalsMeaning(sessions, u);
    }
  }

  /** The forEach over the sessions. */
  method Aggregate(sessions: seq<SessionScore>) returns (scores: map<string, int>)
    ensures scores == Totals(sessions)
  {
    scores := map[];
    var i := 0;
    while i < |sessions|
      invariant 0 <= i <= |sessions|
      invariant scores == Totals(sessions[..i])
    {
      var s := sessions[i];
      assert sessions[..i + 1][..i] == sessions[..i];
      if s.userId.Some? && s.userId.value != "" && s.score.Some? && s.score.value != 0 {
        var id := s.userId.value;
        var sofar := if id in scores then scores[id] else 0;
        scores := scores[id := sofar + s.score.value];
      }
      i := i + 1;
    }
    assert sessions[..i] == sessions;
  }

  // ---------------------------------------------------------------------
  // Sorting and numbering
  // ---------------------------------------------------------------------

  /** Non-increasing by score. */
  predicate SortedDesc(s: seq<RankingUser>)
  {
    forall i, j :: 0 <= i < j < |s| ==> s[i].score >= s[j].score
  }

  /** Positions 1, 2, ... written over the lines, in order. */
  function Numbered(s: seq<RankingUser>): (r: seq<RankingUser>)
    ensures |r| == |s|
  {
    seq(|s|, i requires 0 <= i < |s| => s[i].(position := i + 1))
  }

  /** The lines with their positions cleared. */
  function Unnumbered(s: seq<RankingUser>): (r: seq<RankingUser>)
    ensures |r| == |s|
  {
    seq(|s|, i requires 0 <= i < |s| => s[i].(position := 0))
  }

  /** The index of the greatest score from `lo` on. */
  method FindTop(a: array<RankingUser>, lo: int) returns (m: int)
    requires 0 <= lo < a.Length
    ensures lo <= m < a.Length
    ensures forall k :: lo <= k < a.Length ==> a[k].score <= a[m].score
  {
    m := lo;
    var k := lo + 1;
    while k < a.Length
      invariant lo <= m < k <= a.Length
      invariant forall p :: lo <= p < k ==> a[p].score <= a[m].score
    {
      if a[k].score > a[m].score {
        m := k;
      }
      k := k + 1;
    }
  }

  /**
   * One step of the sort: the greatest score from `i` on is swapped to
   * `i`; the lines before `i` stay as they are and still outscore the rest.
   */
  method PlaceTop(a: array<RankingUser>, i: int)
    requires 0 <= i < a.Length
    requires forall p, q :: 0 <= p < i <= q < a.Length ==> a[p].score >= a[q].score
    modifies a
    ensures multiset(a[..]) == multiset(old(a[..]))
    ensures a[..i] == old(a[..i])
    ensures forall q :: i <= q < a.Length ==> a[i].score >= a[q].score
    ensures forall p, q :: 0 <= p < i <= q < a.Length ==> a[p].score >= a[q].score
  {
    var m := FindTop(a, i);
    a[i], a[m] := a[m], a[i];
  }

  /** `sort((a, b) => b.score - a.score)`: in place, non-increasing, a permutation. */
  method SortByScore(a: array<RankingUser>)
    modifies a
    ensures SortedDesc(a[..])
    ensures multiset(a[..]) == multiset(old(a[..]))
  {
    var i := 0;
    while i < a.Length
      invariant 0 <= i <= a.Length
      invariant forall p, q :: 0 <= p < q < i ==> a[p].score >= a[q].score
      invariant forall p, q :: 0 <= p < i <= q < a.Length ==> a[p].score >= a[q].score
      invariant multiset(a[..]) == multiset(old(a[..]))
    {
      PlaceTop(a, i);
      i := i + 1;
    }
  }

  /** `forEach((r, i) => r.position = i + 1)`. */
  method NumberPositions(a: array<RankingUser>)
    modifies a
    ensures a[..] == Numbered(old(a[..]))
  {
    var i := 0;
    while i < a.Length
      invariant 0 <= i <= a.Length
      invariant forall k :: 0 <= k < i ==> a[k] == old(a[k]).(position := k + 1)
      invariant forall k :: i <= k < a.Length ==> a[k] == old(a[k])
    {
      a[i] := a[i].(position := i + 1);
      i := i + 1;
    }
  }

  /**
   * `r` is a ranking of the `rows` cut to `k` lines: numbered from 1,
   * non-increasing by score, made of distinct rows, and no row left out
   * scores more than a row shown.
   */
  ghost predicate RankingOf(r: seq<RankingUser>, rows: seq<RankingUser>, k: nat)
  {
    && |r| == (if k < |rows| then k else |rows|)
    && (forall i :: 0 <= i < |r| ==> r[i].position == i + 1)
    && SortedDesc(r)
    && multiset(Unnumbered(r)) <= multiset(rows)
    && (forall x, i :: x in multiset(rows) - multiset(Unnumbered(r)) && 0 <= i < |r| ==>
          x.score <= r[i].score)
  }

  /** Lines whose positions are still 0, as they are built. */
  predicate Unranked(rows: seq<RankingUser>)
  {
    forall i :: 0 <= i < |rows| ==> rows[i].position == 0
  }

  lemma UnnumberedNumberedPrefix(ranked: seq<RankingUser>, k: nat)
    requires Unranked(ranked) && k <= |ranked|
    ensures Unnumbered(Numbered(ranked)[..k]) == ranked[..k]
  {
  }

  /** In a sorted list, nothing after the first `n` lines scores more than any of them. */
  lemma LeftOutScoreBelow(ranked: seq<RankingUser>, n: nat)
    requires SortedDesc(ranked) && n <= |ranked|
    ensures forall x, i :: x in multiset(ranked[n..]) && 0 <= i < n ==> x.score <= ranked[i].score
  {
    forall x, i | x in multiset(ranked[n..]) && 0 <= i < n
      ensures x.score <= ranked[i].score
    {
      assert x in ranked[n..];
      var j :| 0 <= j < |ranked| - n && ranked[n..][j] == x;
      assert ranked[n + j] == x;
    }
  }

  /** The first `n` numbered lines keep the order and carry positions 1..n. */
  lemma NumberedPrefix(ranked: seq<RankingUser>, n: nat)
    requires SortedDesc(ranked) && n <= |ranked|
    ensures var r := Numbered(ranked)[..n];
      (forall i :: 0 <= i < |r| ==> r[i].position == i + 1 && r[i].score == ranked[i].score) &&
      SortedDesc(r)
  {
  }

  /** Taking the first `n` lines of a reordering of `rows` leaves the others. */
  lemma SplitRest(ranked: seq<RankingUser>, rows: seq<RankingUser>, n: nat)
    requires multiset(ranked) == multiset(rows) && n <= |ranked|
    ensures multiset(ranked[..n]) <= multiset(rows)
    ensures multiset(rows) - multiset(ranked[..n]) == multiset(ranked[n..])
  {
    assert ranked == ranked[..n] + ranked[n..];
    assert multiset(ranked) == multiset(ranked[..n]) + multiset(ranked[n..]);
  }

  /** A reordering of rows that have no position has none either. */
  lemma ReorderedUnranked(ranked: seq<RankingUser>, rows: seq<RankingUser>)
    requires Unranked(rows) && multiset(ranked) == multiset(rows)
    ensures Unranked(ranked)
  {
    forall i | 0 <= i < |ranked|
      ensures ranked[i].position == 0
    {
      assert ranked[i] in multiset(rows);
    }
  }

  /**
   * Sorting the rows, numbering them and cutting to `k` lines gives a
   * ranking of the rows: positions are assigned before the cut.
   */
  lemma SortedCutIsRanking(ranked: seq<RankingUser>, rows: seq<RankingUser>, k: nat)
    requires Unranked(rows)
    requires multiset(ranked) == multiset(rows) && SortedDesc(ranked)
    ensures RankingOf(Numbered(ranked)[..(if k < |ranked| then k else |ranked|)], rows, k)
  {
    assert |ranked| == |rows| by {
      assert |multiset(ranked)| == |multiset(rows)|;
    }
    var n := if k < |ranked| then k else |ranked|;
    var r := Numbered(ranked)[..n];
    assert Unnumbered(r) == ranked[..n] by {
      ReorderedUnranked(ranked, rows);
      UnnumberedNumberedPrefix(ranked, n);
    }
    assert (forall i :: 0 <= i < |r| ==> r[i].position == i + 1) && SortedDesc(r) by {
      NumberedPrefix(ranked, n);
    }
    assert multiset(Unnumbered(r)) <= multiset(rows) by {
      SplitRest(ranked, rows, n);
    }
    forall x, i | x in multiset(rows) - multiset(Unnumbered(r)) && 0 <= i < |r|
      ensures x.score <= r[i].score
    {
      SplitRest(ranked, rows, n);
      NumberedPrefix(ranked, n);
      LeftOutScoreBelow(ranked, n);
      assert x in multiset(ranked[n..]);
    }
  }

  /** The lines of the period ranking: each profile with its aggregated score. */
  function PeriodRows(profiles: seq<ProfileRow>, totals: map<string, int>): (r: seq<RankingUser>)
    ensures |r| == |profiles| && Unranked(r)
  {
    seq(|profiles|, i requires 0 <= i < |profiles| =>
      RankingUser(profiles[i].id, profiles[i].name, profiles[i].level, ScoreOf(totals, profiles[i].id), 0))
  }

  /**
   * Every line of the period ranking carries its user's period total: the
   * sum of that user's counted session scores.
   */
  lemma PeriodScoresAreTotals(sessions: seq<SessionScore>, profiles: seq<ProfileRow>, r: seq<RankingUser>, k: nat)
    requires RankingOf(r, PeriodRows(profiles, Totals(sessions)), k)
    ensures forall i :: 0 <= i < |r| ==> r[i].score == UserTotal(sessions, r[i].userId)
  {
    var rows := PeriodRows(profiles, Totals(sessions));
    forall i | 0 <= i < |r|
      ensures r[i].score == UserTotal(sessions, r[i].userId)
    {
      assert Unnumbered(r)[i] in multiset(Unnumbered(r));
      assert Unnumbered(r)[i] in multiset(rows);
      var j :| 0 <= j < |rows| && rows[j] == Unnumbered(r)[i];
      TotalsMeaning(sessions, profiles[j].id);
    }
  }

  /** Lines 1..k of the period ranking: sort in place, number, cut. */
  method PeriodRanking(profiles: seq<ProfileRow>, totals: map<string, int>, limit: Option<int>)
    returns (r: seq<RankingUser>)
    ensures RankingOf(r, PeriodRows(profiles, totals), SliceEnd(|profiles|, limit))
  {
    var rows := PeriodRows(profiles, totals);
    var a := new RankingUser[|rows|](i requires 0 <= i < |rows| => rows[i]);
    assert a[..] == rows;
    SortByScore(a);
    ghost var ranked := a[..];
    NumberPositions(a);
    var k := SliceEnd(a.Length, limit);
    r := a[..k];
    SortedCutIsRanking(ranked, rows, k);
  }

  /** The lines of the all-time ranking, or of a friends ranking: the score is the XP. */
  function XpRows(profiles: seq<ProfileRow>): (r: seq<RankingUser>)
    ensures |r| == |profiles| && Unranked(r)
  {
    seq(|profiles|, i requires 0 <= i < |profiles| =>
      RankingUser(profiles[i].id, profiles[i].name, profiles[i].level, profiles[i].xp, 0))
  }

  /** The profiles as the database orders them, by XP, highest first. */
  predicate ByXpDesc(profiles: seq<ProfileRow>)
  {
    forall i, j :: 0 <= i < j < |profiles| ==> profiles[i].xp >= profiles[j].xp
  }

  /** The all-time ranking: the profiles in the order received, positioned by index. */
  function AllTimeRanking(profiles: seq<ProfileRow>): seq<RankingUser>
  {
    Numbered(XpRows(profiles))
  }

  /** When the rows arrive ordered by XP, the all-time ranking is a ranking of all of them. */
  lemma AllTimeIsRanking(profiles: seq<ProfileRow>)
    requires ByXpDesc(profiles)
    ensures RankingOf(AllTimeRanking(profiles), XpRows(profiles), |profiles|)
    ensures forall i :: 0 <= i < |profiles| ==>
      AllTimeRanking(profiles)[i].userId == profiles[i].id && AllTimeRanking(profiles)[i].score == profiles[i].xp
  {
    var rows := XpRows(profiles);
    SortedCutIsRanking(rows, rows, |profiles|);
    assert Numbered(rows)[..|rows|] == Numbered(rows);
  }

  /** The GET handler. */
  method GetRankings(periodParam: Option<string>, limitParam: Option<string>,
                     sessions: Option<seq<SessionScore>>,
                     periodProfiles: Option<seq<ProfileRow>>,
                     topProfiles: Option<seq<ProfileRow>>)
    returns (resp: Response<Reply>)
    ensures resp.Ok? ==> resp.body.period == PeriodOf(periodParam)
    ensures ReadsSessions(PeriodOf(periodParam)) ==>
      (sessions.None? ==> resp == Error(ServerError, "Failed to fetch rankings")) &&
      (sessions.Some? && |Totals(sessions.value)| == 0 ==> resp.Ok? && resp.body.rankings == []) &&
      (sessions.Some? && |Totals(sessions.value)| > 0 && periodProfiles.None? ==>
         resp == Error(ServerError, "Failed to fetch profiles")) &&
      (sessions.Some? && |Totals(sessions.value)| > 0 && periodProfiles.Some? ==>
         resp.Ok? &&
         RankingOf(resp.body.rankings, PeriodRows(periodProfiles.value, Totals(sessions.value)),
                   SliceEnd(|periodProfiles.value|, LimitOf(limitParam))))
    ensures !ReadsSessions(PeriodOf(periodParam)) ==>
      (topProfiles.None? ==> resp == Error(ServerError, "Failed to fetch rankings")) &&
      (topProfiles.Some? ==> resp.Ok? && resp.body.rankings == AllTimeRanking(topProfiles.value))
  {
    var period := PeriodOf(periodParam);
    var limit := LimitOf(limitParam);
    if period == "weekly" || period == "monthly" {
      if sessions.None? {
        return Error(ServerError, "Failed to fetch rankings");
      }
      var totals := Aggregate(sessions.value);
      if |totals| == 0 {
        return Ok(Reply([], period));
      }
      if periodProfiles.None? {
        return Error(ServerError, "Failed to fetch profiles");
      }
      var r := PeriodRanking(periodProfiles.value, totals, limit);
      return Ok(Reply(r, period));
    }
    if topProfiles.None? {
      return Error(ServerError, "Failed to fetch rankings");
    }
    return Ok(Reply(AllTimeRanking(topProfiles.value), period));
  }

  // ---------------------------------------------------------------------
  // The ranking page
  // ---------------------------------------------------------------------

  /** The index of the first line of `user`, or |rs| when there is none. */
  function FindUser(rs: seq<RankingUser>, user: string): (i: nat)
    ensures i <= |rs|
    ensures i < |rs| ==> rs[i].userId == user
    ensures forall j :: 0 <= j < i ==> rs[j].userId != user
  {
    if rs == [] then 0
    else if rs[0].userId == user then 0
    else 1 + FindUser(rs[1..], user)
  }

  /** `rankings.find(r => r.user_id === id)?.position || null`. */
  function UserPosition(rs: seq<RankingUser>, user: string): Option<int>
  {
    var i := FindUser(rs, user);
    if i == |rs| || rs[i].position == 0 then None else Some(rs[i].position)
  }

  /**
   * In a numbered ranking, the user's position is one more than the
   * index of their first line, and there is none when they are absent.
   */
  lemma UserPositionInRanking(rs: seq<RankingUser>, user: string)
    requires forall i :: 0 <= i < |rs| ==> rs[i].position == i + 1
    ensures (exists i :: 0 <= i < |rs| && rs[i].userId == user) <==> UserPosition(rs, user).Some?
    ensures forall i :: (0 <= i < |rs| && rs[i].userId == user &&
      forall j :: 0 <= j < i ==> rs[j].userId != user) ==> UserPosition(rs, user) == Some(i + 1)
  {
  }

  /** `getMedalEmoji`. */
  function MedalEmoji(position: int): (m: Option<string>)
    ensures m.Some? <==> 1 <= position <= 3
  {
    if position == 1 then Some("🥇")
    else if position == 2 then Some("🥈")
    else if position == 3 then Some("🥉")
    else None
  }

  /** A line is highlighted when its position is at most 3. */
  predicate IsTopThree(position: int)
  {
    position <= 3
  }

  /**
   * On positions from 1 up, a line has a medal exactly when it is in the
   * top three, and the three medals differ.
   */
  lemma MedalsAreTopThree(position: int, other: int)
    requires position >= 1
    ensures MedalEmoji(position).Some? <==> IsTopThree(position)
    ensures MedalEmoji(position).Some? && position != other ==> MedalEmoji(position) != MedalEmoji(other)
  {
  }

  /** The add-friend form: a blank email is refused before any request; otherwise the trimmed one is sent. */
  function EmailToSend(email: string): (r: Option<string>)
    ensures r.None? <==> Text.AllWhitespace(email)
    ensures r.Some? ==> r.value == Text.Trim(email) && r.value != []
  {
    Text.TrimEmptyIffBlank(email);
    if Text.Trim(email) == [] then None else Some(Text.Trim(email))
  }

  /** What the friends request brought back: the friends list, or nothing when it failed. */
  class RankingPage {
    var friendsRankings: seq<RankingUser>

    constructor ()
      ensures friendsRankings == []
    {
      friendsRankings := [];
    }

    /**
     * The friends ranking: without a signed-in user, a failed request or
     * an empty friends list nothing changes; otherwise it becomes the
     * user and the friends sorted by XP and numbered from 1.
     */
    method LoadFriendsRanking(me: Option<ProfileRow>, friends: Option<seq<ProfileRow>>)
      modifies this
      ensures me.None? || friends.None? || friends.value == [] ==> friendsRankings == old(friendsRankings)
      ensures me.Some? && friends.Some? && friends.value != [] ==>
        RankingOf(friendsRankings, XpRows([me.value] + friends.value), 1 + |friends.value|)
    {
      if me.None? || friends.None? || friends.value == [] {
        return;
      }
      var rows := XpRows([me.value] + friends.value);
      var a := new RankingUser[|rows|](i requires 0 <= i < |rows| => rows[i]);
      assert a[..] == rows;
      SortByScore(a);
      ghost var ranked := a[..];
      NumberPositions(a);
      friendsRankings := a[..];
      SortedCutIsRanking(ranked, rows, |rows|);
      assert Numbered(ranked)[..|rows|] == Numbered(ranked);
    }
  }
}

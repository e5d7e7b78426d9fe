/**
 * Model of src/app/api/streak/route.ts: the daily-streak update made after
 * each game (POST) and the streak reported back (GET). Dates are day
 * numbers (`today`, the day of the last play); the profiles table is a
 * map from user id to the two streak columns.
 */
module Streak {
  import opened Types
  import opened Http

  /** The streak columns of a profile row: streak_days and the day of last_played_at. */
  datatype StreakRow = StreakRow(streakDays: Option<int>, lastPlayedDay: Option<int>)

  /** What POST answers: the streak after the update and whether it changed. */
  datatype StreakReply = StreakReply(streakDays: int, streakUpdated: bool, lastPlayedDay: int)

  /**
   * The day comparison of POST: the new streak and whether it is written.
   * The stored streak is read with `|| 0`.
   */
  function StreakDecision(row: StreakRow, today: int): (d: (int, bool))
    ensures row.lastPlayedDay == Some(today) ==> d == (OrElse(row.streakDays, 0), false)
    ensures row.lastPlayedDay == Some(today - 1) ==> d == (OrElse(row.streakDays, 0) + 1, true)
    ensures row.lastPlayedDay.Some? && row.lastPlayedDay.value != today && row.lastPlayedDay.value != today - 1
      ==> d == (1, true)
    ensures row.lastPlayedDay.None? ==> d == (1, true)
  {
    var stored := OrElse(row.streakDays, 0);
    if row.lastPlayedDay == Some(today) then (stored, false)
    else if row.lastPlayedDay.Some? then
      if row.lastPlayedDay.value == today - 1 then (stored + 1, true) else (1, true)
    else (1, true)
  }

  /** A stored streak is never negative. */
  predicate WellFormed(row: StreakRow)
  {
    row.streakDays.None? || row.streakDays.value >= 0
  }

  /** Whenever the streak is written, it is at least 1. */
  lemma UpdatedStreakPositive(row: StreakRow, today: int)
    requires WellFormed(row)
    ensures StreakDecision(row, today).1 ==> StreakDecision(row, today).0 >= 1
  {
  }

  /**
   * GET: the stored streak (or 0) while the last play was today or
   * yesterday or there was none; 0 once a day was missed.
   */
  function CurrentStreak(row: StreakRow, today: int): (s: int)
    ensures row.lastPlayedDay.None? ==> s == OrElse(row.streakDays, 0)
    ensures row.lastPlayedDay.Some? ==>
      s == if row.lastPlayedDay.value == today || row.lastPlayedDay.value == today - 1
           then OrElse(row.streakDays, 0) else 0
  {
    if row.lastPlayedDay.Some? && row.lastPlayedDay.value != today && row.lastPlayedDay.value != today - 1
    then 0 else OrElse(row.streakDays, 0)
  }

  /** The row written by POST after an update. */
  function Written(row: StreakRow, today: int): StreakRow
  {
    StreakRow(Some(StreakDecision(row, today).0), Some(today))
  }

  /** After a POST, a GET on the same day reports the streak POST answered. */
  lemma PostThenGet(row: StreakRow, today: int)
    ensures var (s, updated) := StreakDecision(row, today);
      var after := if updated then Written(row, today) else row;
      CurrentStreak(after, today) == s
  {
  }

  /** A second POST on the same day changes nothing. */
  lemma PostIdempotentWithinDay(row: StreakRow, today: int)
    requires WellFormed(row)
    ensures var after := if StreakDecision(row, today).1 then Written(row, today) else row;
      !StreakDecision(after, today).1 && StreakDecision(after, today).0 == StreakDecision(row, today).0
  {
  }

  /** Playing on consecutive days counts the days: posting on day d and then d + 1 adds one. */
  lemma ConsecutiveDaysAddOne(row: StreakRow, today: int)
    requires WellFormed(row)
    ensures var after := if StreakDecision(row, today).1 then Written(row, today) else row;
      StreakDecision(after, today + 1) == (StreakDecision(row, today).0 + 1, true)
  {
  }

  /** The profiles table, as far as the streak columns go. */
  class Profiles {
    var rows: map<string, StreakRow>

    ghost predicate Valid()
      reads this
    {
      forall u :: u in rows ==> WellFormed(rows[u])
    }

    constructor (rows: map<string, StreakRow>)
      requires forall u :: u in rows ==> WellFormed(rows[u])
      ensures Valid() && this.rows == rows
    {
      this.rows := rows;
    }

    /**
     * POST /api/streak: 401 without a user, 500 when the profile cannot
     * be read or the write fails; otherwise the decision, written back
     * (streak and the day) only when the streak changed.
     */
    method Post(user: Option<string>, today: int, updateFails: bool) returns (r: Response<StreakReply>)
      requires Valid()
      modifies this
      ensures Valid()
      ensures user.None? ==> r == Error(Unauthorized, "Não autenticado") && rows == old(rows)
      ensures user.Some? && user.value !in old(rows) ==> r.Error? && r.status == ServerError && rows == old(rows)
      ensures user.Some? && user.value in old(rows) ==>
        var row := old(rows)[user.value];
        var (s, updated) := StreakDecision(row, today);
        if updated && updateFails then r.Error? && r.status == ServerError && rows == old(rows)
        else
          && r == Ok(StreakReply(s, updated, today))
          && rows == (if updated then old(rows)[user.value := Written(row, today)] else old(rows))
    {
      if user.None? {
        return Error(Unauthorized, "Não autenticado");
      }
      var id := user.value;
      if id !in rows {
        return Error(ServerError, "Erro ao buscar perfil");
      }
      var row := rows[id];
      var stored := OrElse(row.streakDays, 0);
      var newStreakDays := stored;
      var streakUpdated := false;
      if row.lastPlayedDay == Some(today) {
        streakUpdated := false;
      } else if row.lastPlayedDay.Some? {
        if row.lastPlayedDay.value == today - 1 {
          newStreakDays := newStreakDays + 1;
          streakUpdated := true;
        } else {
          newStreakDays := 1;
          streakUpdated := true;
        }
      } else {
        newStreakDays := 1;
        streakUpdated := true;
      }
      if streakUpdated || row.lastPlayedDay.None? {
        if updateFails {
          return Error(ServerError, "Erro ao atualizar streak");
        }
        rows := rows[id := StreakRow(Some(newStreakDays), Some(today))];
      }
      r := Ok(StreakReply(newStreakDays, streakUpdated, today));
    }

    /** GET /api/streak: 401 without a user; a missing profile reads as no streak. */
    function Get(user: Option<string>, today: int): (r: Response<int>)
      reads this
      ensures user.None? ==> r == Error(Unauthorized, "Não autenticado")
      ensures user.Some? && user.value !in rows ==> r == Ok(0)
      ensures user.Some? && user.value in rows ==> r == Ok(CurrentStreak(rows[user.value], today))
    {
      if user.None? then Error(Unauthorized, "Não autenticado")
      else if user.value !in rows then Ok(0)
      else Ok(CurrentStreak(rows[user.value], today))
    }
  }
}

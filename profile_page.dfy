/**
 * Model of the derivations of src/app/perfil/page.tsx: the statistics
 * computed from the user's game sessions (newest first, as the query
 * orders them), the ten recent games, the per-game accuracy, the mode
 * badge of a game and the XP span of the current level.
 */
module ProfilePage {
  import opened Types
  import Scoring
  import Percent

  /** A `game_sessions` row; nullable numeric columns are Options. */
  datatype GameSession = GameSession(id: string, mode: string, score: Option<int>,
                                     correctAnswers: Option<int>, totalQuestions: Option<int>)

  datatype Stats = Stats(totalGames: int, totalCorrect: int, totalQuestions: int, accuracyRate: int,
                         bestStreak: int, averageScore: int, totalXpGained: int)

  /** `g.correct_answers || 0`, `g.total_questions || 0`, `g.score || 0`. */
  function CorrectOf(g: GameSession): int { OrElse(g.correctAnswers, 0) }
  function QuestionsOf(g: GameSession): int { OrElse(g.totalQuestions, 0) }
  function ScoreOf(g: GameSession): int { OrElse(g.score, 0) }

  /** `sessions.reduce((sum, g) => sum + f(g), 0)`. */
  function Sum(s: seq<GameSession>, f: GameSession -> int): int
  {
    if s == [] then 0 else f(s[0]) + Sum(s[1..], f)
  }

  lemma {:induction false} SumAppend(a: seq<GameSession>, b: seq<GameSession>, f: GameSession -> int)
    ensures Sum(a + b, f) == Sum(a, f) + Sum(b, f)
  {
    if a != [] {
      assert (a + b)[0] == a[0];
      assert (a + b)[1..] == a[1..] + b;
      SumAppend(a[1..], b, f);
    } else {
      assert a + b == b;
    }
  }

  lemma SumRemove(t: seq<GameSession>, i: int, f: GameSession -> int)
    requires 0 <= i < |t|
    ensures Sum(t, f) == f(t[i]) + Sum(t[..i] + t[i + 1..], f)
  {
    assert t == t[..i] + ([t[i]] + t[i + 1..]);
    SumAppend(t[..i], [t[i]] + t[i + 1..], f);
    SumAppend(t[..i], t[i + 1..], f);
    assert ([t[i]] + t[i + 1..])[1..] == t[i + 1..];
  }

  /** A sum does not depend on the order of the sessions. */
  lemma {:induction false} SumPermutation(s: seq<GameSession>, t: seq<GameSession>, f: GameSession -> int)
    requires multiset(s) == multiset(t)
    ensures Sum(s, f) == Sum(t, f)
    decreases |s|
  {
    if s == [] {
      assert |multiset(t)| == 0;
    } else {
      var x := s[0];
      assert x in multiset(t);
      var i :| 0 <= i < |t| && t[i] == x;
      var rest := t[..i] + t[i + 1..];
      MultisetRemove(t, i);
      assert s == [x] + s[1..];
      SumPermutation(s[1..], rest, f);
      SumRemove(t, i, f);
    }
  }

  lemma MultisetRemove(t: seq<GameSession>, i: int)
    requires 0 <= i < |t|
    ensures multiset(t[..i] + t[i + 1..]) == multiset(t) - multiset{t[i]}
  {
    assert t == t[..i] + [t[i]] + t[i + 1..];
  }

  /** `Math.min(g.correct_answers || 0, 10)`. */
  function StreakOf(g: GameSession): (r: int)
    ensures r <= 10
  {
    var c := CorrectOf(g);
    if c < 10 then c else 10
  }

  /** `Math.max(...sessions.map(StreakOf))` over a non-empty list. */
  function MaxStreak(s: seq<GameSession>): (r: int)
    requires |s| > 0
    ensures forall g :: g in s ==> StreakOf(g) <= r
    ensures exists g :: g in s && StreakOf(g) == r
  {
    if |s| == 1 then StreakOf(s[0])
    else
      var rest := MaxStreak(s[1..]);
      assert s == [s[0]] + s[1..];
      if StreakOf(s[0]) >= rest then StreakOf(s[0]) else rest
  }

  /** The statistics of the sessions; no sessions (or a failed query) gives zeros. */
  function ComputeStats(sessions: Option<seq<GameSession>>, profileXp: int): (st: Stats)
    ensures sessions.None? || sessions.value == [] ==> st == Stats(0, 0, 0, 0, 0, 0, profileXp)
    ensures st.totalXpGained == profileXp
    ensures st.bestStreak <= 10
    ensures sessions.Some? && sessions.value != [] ==>
      && st.totalGames == |sessions.value|
      && st.totalCorrect == Sum(sessions.value, CorrectOf)
      && st.totalQuestions == Sum(sessions.value, QuestionsOf)
      && (st.totalQuestions <= 0 ==> st.accuracyRate == 0)
      && (st.totalQuestions > 0 ==> st.accuracyRate == Percent.RoundPercent(st.totalCorrect, st.totalQuestions))
      && st.averageScore == Percent.RoundDiv(Sum(sessions.value, ScoreOf), |sessions.value|)
      && (forall g :: g in sessions.value ==> StreakOf(g) <= st.bestStreak)
      && (exists g :: g in sessions.value && StreakOf(g) == st.bestStreak)
  {
    if sessions.None? || sessions.value == [] then Stats(0, 0, 0, 0, 0, 0, profileXp)
    else
      var s := sessions.value;
      var totalCorrect := Sum(s, CorrectOf);
      var totalQuestions := Sum(s, QuestionsOf);
      Stats(|s|, totalCorrect, totalQuestions,
            if totalQuestions > 0 then Percent.RoundPercent(totalCorrect, totalQuestions) else 0,
            MaxStreak(s),
            Percent.RoundDiv(Sum(s, ScoreOf), |s|),
            profileXp)
  }

  /** The statistics do not depend on the order the sessions arrive in. */
  lemma StatsOrderIndependent(s: seq<GameSession>, t: seq<GameSession>, profileXp: int)
    requires multiset(s) == multiset(t)
    ensures ComputeStats(Some(s), profileXp) == ComputeStats(Some(t), profileXp)
  {
    SumPermutation(s, t, CorrectOf);
    SumPermutation(s, t, QuestionsOf);
    SumPermutation(s, t, ScoreOf);
    assert |s| == |multiset(s)| == |t|;
    if s != [] {
      assert forall g :: g in s <==> g in t by {
        forall g ensures g in s <==> g in t {
          assert g in s <==> g in multiset(s);
        }
      }
      var a, b := MaxStreak(s), MaxStreak(t);
      var gs :| gs in s && StreakOf(gs) == a;
      var gt :| gt in t && StreakOf(gt) == b;
      assert a <= b && b <= a;
    }
  }

  /** A row whose counts are sound: no more right answers than questions. */
  predicate SoundRow(g: GameSession)
  {
    0 <= CorrectOf(g) <= QuestionsOf(g)
  }

  lemma {:induction false} SumsOfSoundRows(s: seq<GameSession>)
    requires forall g :: g in s ==> SoundRow(g)
    ensures 0 <= Sum(s, CorrectOf) <= Sum(s, QuestionsOf)
  {
    if s != [] {
      assert s[0] in s;
      assert forall g :: g in s[1..] ==> g in s;
      SumsOfSoundRows(s[1..]);
    }
  }

  /** With sound rows the accuracy is a percentage and the best streak is between 0 and 10. */
  lemma StatsRanges(s: seq<GameSession>, profileXp: int)
    requires forall g :: g in s ==> SoundRow(g)
    ensures var st := ComputeStats(Some(s), profileXp);
      && 0 <= st.totalCorrect <= st.totalQuestions
      && 0 <= st.accuracyRate <= 100
      && 0 <= st.bestStreak <= 10
  {
    SumsOfSoundRows(s);
    var st := ComputeStats(Some(s), profileXp);
    if s != [] {
      if st.totalQuestions > 0 {
        Percent.RoundPercentRange(st.totalCorrect, st.totalQuestions);
      }
      assert s[0] in s;
    }
  }

  /** `sessions.slice(0, 10)`, or nothing without sessions. */
  function RecentGames(sessions: Option<seq<GameSession>>): (r: seq<GameSession>)
    ensures |r| <= 10
    ensures sessions.Some? ==> |r| == if |sessions.value| < 10 then |sessions.value| else 10
    ensures sessions.Some? ==> r == sessions.value[..|r|]
    ensures sessions.None? ==> r == []
  {
    if sessions.None? || sessions.value == [] then []
    else sessions.value[..if |sessions.value| < 10 then |sessions.value| else 10]
  }

  /** The accuracy shown for one game: 0 unless it has questions. */
  function GameAccuracy(g: GameSession): (a: int)
    ensures QuestionsOf(g) <= 0 ==> a == 0
  {
    var t := QuestionsOf(g);
    if t > 0 then Percent.RoundPercent(CorrectOf(g), t) else 0
  }

  /** For a sound row the game's accuracy is a percentage, 100 for a perfect game. */
  lemma GameAccuracyRange(g: GameSession)
    requires SoundRow(g)
    ensures 0 <= GameAccuracy(g) <= 100
    ensures QuestionsOf(g) > 0 && CorrectOf(g) == QuestionsOf(g) ==> GameAccuracy(g) == 100
    ensures CorrectOf(g) == 0 ==> GameAccuracy(g) == 0
  {
    if QuestionsOf(g) > 0 {
      Percent.RoundPercentRange(CorrectOf(g), QuestionsOf(g));
    }
  }

  /** A mode's badge; `caption` is the entry's `label`, a word Dafny reserves. */
  datatype ModeInfo = ModeInfo(caption: string, color: string, icon: string)

  /** The badge of each game mode. */
  function ModeEntry(m: GameMode): ModeInfo
  {
    match m
    case Treino => ModeInfo("Treino", "bg-blue-500/20 text-blue-400", "📚")
    case Desafio => ModeInfo("Desafio", "bg-orange-500/20 text-orange-400", "⏱️")
    case Diario => ModeInfo("Diário", "bg-purple-500/20 text-purple-400", "📅")
    case Duelo => ModeInfo("Duelo", "bg-red-500/20 text-red-400", "⚔️")
  }

  /** `modes[mode] || modes.treino`: an unknown mode shows the treino badge. */
  function GetModeInfo(mode: string): (info: ModeInfo)
    ensures forall m :: mode == ModeKey(m) ==> info == ModeEntry(m)
    ensures (forall m :: mode != ModeKey(m)) ==> info == ModeEntry(Treino)
  {
    if mode == ModeKey(Desafio) then ModeEntry(Desafio)
    else if mode == ModeKey(Diario) then ModeEntry(Diario)
    else if mode == ModeKey(Duelo) then ModeEntry(Duelo)
    else ModeEntry(Treino)
  }

  /** Each game mode has its own badge. */
  lemma ModeEntriesDistinct(m1: GameMode, m2: GameMode)
    requires m1 != m2
    ensures GetModeInfo(ModeKey(m1)).caption != GetModeInfo(ModeKey(m2)).caption
  {
  }

  datatype LevelSpan = LevelSpan(xpInCurrentLevel: int, xpNeededForLevel: int)

  /** The profile fields the level bar reads. */
  datatype ProfileLevel = ProfileLevel(xp: int, level: int)

  /**
   * The level bar's numbers: XP gained inside the current level and the
   * XP between this level's threshold and the next; without a profile,
   * 0 of 100.
   */
  function GetLevelSpan(profile: Option<ProfileLevel>): (r: LevelSpan)
    ensures profile.None? ==> r == LevelSpan(0, 100)
    ensures profile.Some? ==>
      r.xpInCurrentLevel + Scoring.XPForLevel(profile.value.level) == profile.value.xp
    ensures profile.Some? ==>
      r.xpNeededForLevel == Scoring.XPForLevel(profile.value.level + 1) - Scoring.XPForLevel(profile.value.level)
  {
    if profile.None? then LevelSpan(0, 100)
    else
      var current := Scoring.XPForLevel(profile.value.level);
      var next := Scoring.XPForLevel(profile.value.level + 1);
      LevelSpan(OrElse(Some(profile.value.xp), 0) - current, next - current)
  }

  /**
   * For a profile whose level brackets its XP (as the stored level does),
   * the XP inside the level is between 0 and the level's span.
   */
  lemma LevelSpanBounds(xp: int, level: int)
    requires xp >= 0 && Scoring.IsLevelOf(xp, level)
    ensures var r := GetLevelSpan(Some(ProfileLevel(xp, level)));
      0 <= r.xpInCurrentLevel < r.xpNeededForLevel
  {
    Scoring.XPForLevelStep(level);
  }

  /**
   * The span of the bar is the one the level progress percentage is
   * taken over: for any level, and so for the one that brackets the XP
   * (which `Scoring.LevelProgressOf` ties to `Scoring.LevelProgress`),
   * the percentage is the bar's XP over its span.
   */
  lemma LevelSpanIsProgressSpan(xp: int, level: int)
    requires level >= 1
    ensures var r := GetLevelSpan(Some(ProfileLevel(xp, level)));
      r.xpNeededForLevel > 0 &&
      Scoring.ProgressIn(xp, level) == Scoring.FloorPercent(r.xpInCurrentLevel, r.xpNeededForLevel)
  {
    var current: int, next: int := Scoring.XPForLevel(level), Scoring.XPForLevel(level + 1);
    var r := GetLevelSpan(Some(ProfileLevel(xp, level)));
    assert r == LevelSpan(xp - current, next - current);
    Scoring.ProgressInSpan(xp, level);
  }
}

/**
 * Model of src/components/quiz/ResultScreen.tsx: the statistics shown for
 * a finished quiz, the level-up banner, the headline chosen by accuracy,
 * the rules that decide which achievements a game unlocks, and the guard
 * that saves a game only once. Query results (the unlocked set, counts,
 * the profile row) arrive as parameters; the outcome of the database
 * writes is a parameter of the save.
 */
module ResultScreen {
  import opened Types
  import Scoring
  import Percent
  import opened Achievements
  import QuizSession

  /** The accuracy shown: the rounded percentage of right answers. */
  function Accuracy(correctAnswers: int, totalQuestions: int): int
    requires totalQuestions > 0
  {
    Percent.RoundPercent(correctAnswers, totalQuestions)
  }

  function Errors(correctAnswers: int, totalQuestions: int): (e: int)
    ensures e + correctAnswers == totalQuestions
  {
    totalQuestions - correctAnswers
  }

  predicate IsPerfect(correctAnswers: int, totalQuestions: int)
  {
    correctAnswers == totalQuestions
  }

  /**
   * The statistics agree: a perfect round has no errors and 100% accuracy,
   * and with fewer than 200 questions 100% is shown only for a perfect round.
   */
  lemma StatsAgree(correctAnswers: int, totalQuestions: int)
    requires 0 <= correctAnswers <= totalQuestions && totalQuestions > 0
    ensures 0 <= Accuracy(correctAnswers, totalQuestions) <= 100
    ensures IsPerfect(correctAnswers, totalQuestions) <==> Errors(correctAnswers, totalQuestions) == 0
    ensures IsPerfect(correctAnswers, totalQuestions) ==> Accuracy(correctAnswers, totalQuestions) == 100
    ensures totalQuestions < 200 ==>
      (Accuracy(correctAnswers, totalQuestions) == 100 <==> IsPerfect(correctAnswers, totalQuestions))
  {
    Percent.RoundPercentRange(correctAnswers, totalQuestions);
    if totalQuestions < 200 {
      Percent.RoundPercentFullOnlyWhenWhole(correctAnswers, totalQuestions);
    }
  }

  /** The XP before and after the game, the level shown and whether the banner shows. */
  datatype LevelView = LevelView(oldXP: int, newXP: int, oldLevel: int, nextLevelXP: int, leveledUp: bool)

  /**
   * The level section: `profileXP` and `profileLevel` are the profile's
   * columns (None without a profile), read with `||` so 0 falls back.
   * The banner compares the XP before and after the game with the next
   * level's threshold; when the stored level is the level of the XP
   * before the game, it shows exactly when the XP after the game has a
   * higher level.
   */
  function LevelChange(profileXP: Option<int>, profileLevel: Option<int>, xpGained: int): (v: LevelView)
    ensures v.oldXP == OrElse(profileXP, 0) - xpGained
    ensures v.newXP == OrElse(profileXP, xpGained)
    ensures v.oldLevel == OrElse(profileLevel, 1)
    ensures v.nextLevelXP == Scoring.XPForLevel(v.oldLevel + 1)
    ensures v.leveledUp <==> v.oldXP < v.nextLevelXP <= v.newXP
    ensures Scoring.IsLevelOf(v.oldXP, v.oldLevel) ==>
      (v.leveledUp <==> Scoring.Level(v.newXP) > v.oldLevel)
  {
    var oldXP := OrElse(profileXP, 0) - xpGained;
    var newXP := OrElse(profileXP, xpGained);
    var oldLevel := OrElse(profileLevel, 1);
    var nextLevelXP := Scoring.XPForLevel(oldLevel + 1);
    var v := LevelView(oldXP, newXP, oldLevel, nextLevelXP, newXP >= nextLevelXP && oldXP < nextLevelXP);
    if oldLevel >= 1 then Scoring.LevelPasses(newXP, oldLevel); v else v
  }

  /** Whatever the stored level says, the banner never shows without a level gained over it. */
  lemma LeveledUpReachesNextLevel(profileXP: Option<int>, profileLevel: Option<int>, xpGained: int)
    requires OrElse(profileLevel, 1) >= 0
    ensures var v := LevelChange(profileXP, profileLevel, xpGained);
      v.leveledUp ==> Scoring.Level(v.newXP) >= v.oldLevel + 1
  {
    var v := LevelChange(profileXP, profileLevel, xpGained);
    if v.leveledUp {
      Scoring.LevelIsLargestCovered(v.newXP, v.oldLevel + 1);
    }
  }

  /** The headline of the result card. */
  datatype Tier = Perfect | Excellent | VeryGood | GoodJob | KeepPracticing

  /** getResultEmoji and getResultMessage share this priority order. */
  function TierOf(isPerfect: bool, accuracy: int): (t: Tier)
    ensures t == Perfect <==> isPerfect
    ensures t == Excellent <==> !isPerfect && accuracy >= 80
    ensures t == VeryGood <==> !isPerfect && 60 <= accuracy < 80
    ensures t == GoodJob <==> !isPerfect && 40 <= accuracy < 60
    ensures t == KeepPracticing <==> !isPerfect && accuracy < 40
  {
    if isPerfect then Perfect
    else if accuracy >= 80 then Excellent
    else if accuracy >= 60 then VeryGood
    else if accuracy >= 40 then GoodJob
    else KeepPracticing
  }

  function TierRank(t: Tier): nat
  {
    match t
    case KeepPracticing => 0
    case GoodJob => 1
    case VeryGood => 2
    case Excellent => 3
    case Perfect => 4
  }

  /** A better accuracy never gets a lower headline. */
  lemma TierMonotone(isPerfect: bool, a1: int, a2: int)
    requires a1 <= a2
    ensures TierRank(TierOf(isPerfect, a1)) <= TierRank(TierOf(isPerfect, a2))
  {
  }

  function Emoji(t: Tier): string
  {
    match t
    case Perfect => "⭐"
    case Excellent => "🏆"
    case VeryGood => "🎉"
    case GoodJob => "👏"
    case KeepPracticing => "💪"
  }

  function Message(t: Tier): string
  {
    match t
    case Perfect => "Rodada Perfeita!"
    case Excellent => "Excelente!"
    case VeryGood => "Muito bem!"
    case GoodJob => "Bom trabalho!"
    case KeepPracticing => "Continue praticando!"
  }

  /** The facts the unlock rules read from the database and the result. */
  datatype UnlockFacts = UnlockFacts(
    sessionCount: Option<int>,
    correctAnswers: int,
    totalQuestions: int,
    profileLevel: Option<int>,
    mode: GameMode,
    completedDuels: Option<int>)

  /**
   * The unlock rule of each achievement. The streak, category, sharing and
   * early-bird achievements have no rule yet and are never unlocked here;
   * the duel count is of completed duels the user took part in.
   */
  predicate Earned(t: AchievementType, f: UnlockFacts)
  {
    match t
    case FirstQuiz => f.sessionCount.Some? && f.sessionCount.value >= 1
    case PerfectRound => f.correctAnswers == f.totalQuestions && f.totalQuestions >= 10
    case Level10 => f.profileLevel.Some? && f.profileLevel.value >= 10
    case Level50 => f.profileLevel.Some? && f.profileLevel.value >= 50
    case Level100 => f.profileLevel.Some? && f.profileLevel.value >= 100
    case Challenger => f.mode == Duelo && f.completedDuels.Some? && f.completedDuels.value >= 10
    case _ => false
  }

  /** The level achievements come in order: a higher one implies the lower ones. */
  lemma LevelAchievementsNested(f: UnlockFacts)
    ensures Earned(Level100, f) ==> Earned(Level50, f)
    ensures Earned(Level50, f) ==> Earned(Level10, f)
  {
  }

  /**
   * addIfNew: push the type unless it was unlocked before. The stored
   * unlocked names are read as types; a stored name that is no type's
   * name can never block a push, so it is left out of the set. A type
   * unlocked before is never added, and adding a type the list lacks
   * keeps the list free of duplicates.
   */
  function AddIfNew(list: seq<AchievementType>, alreadyUnlocked: set<AchievementType>, t: AchievementType)
    : (r: seq<AchievementType>)
    ensures t in alreadyUnlocked ==> r == list
    ensures t !in alreadyUnlocked ==> r == list + [t]
    ensures NoDuplicates(list) && t !in list ==> NoDuplicates(r)
  {
    if t !in alreadyUnlocked then list + [t] else list
  }

  predicate NoDuplicates(s: seq<AchievementType>)
  {
    forall i, j :: 0 <= i < j < |s| ==> s[i] != s[j]
  }

  /** What one rule contributes: its type, when earned and new. */
  function Pushed(t: AchievementType, alreadyUnlocked: set<AchievementType>, f: UnlockFacts): (r: seq<AchievementType>)
    ensures forall u :: u in r <==> u == t && Earned(t, f) && t !in alreadyUnlocked
  {
    if Earned(t, f) && t !in alreadyUnlocked then [t] else []
  }

  /** The answer, rule by rule in the order the rules are checked. */
  function Expected(alreadyUnlocked: set<AchievementType>, f: UnlockFacts): seq<AchievementType>
  {
    Pushed(FirstQuiz, alreadyUnlocked, f) + Pushed(PerfectRound, alreadyUnlocked, f)
      + Pushed(Level10, alreadyUnlocked, f) + Pushed(Level50, alreadyUnlocked, f)
      + Pushed(Level100, alreadyUnlocked, f) + Pushed(Challenger, alreadyUnlocked, f)
  }

  /** Appending a type not yet present keeps a list free of duplicates. */
  lemma AppendFresh(s: seq<AchievementType>, extra: seq<AchievementType>)
    requires NoDuplicates(s) && NoDuplicates(extra)
    requires forall u :: u in extra ==> u !in s
    ensures NoDuplicates(s + extra)
  {
    forall i, j | 0 <= i < j < |s + extra|
      ensures (s + extra)[i] != (s + extra)[j]
    {
      if i < |s| && j >= |s| {
        assert (s + extra)[j] in extra;
      }
    }
  }

  /**
   * The answer holds exactly the earned types not unlocked before, and
   * each of them once.
   */
  lemma ExpectedIsAnswer(alreadyUnlocked: set<AchievementType>, f: UnlockFacts)
    ensures forall t :: t in Expected(alreadyUnlocked, f) <==> Earned(t, f) && t !in alreadyUnlocked
    ensures NoDuplicates(Expected(alreadyUnlocked, f))
  {
    var p1 := Pushed(FirstQuiz, alreadyUnlocked, f);
    var p2 := p1 + Pushed(PerfectRound, alreadyUnlocked, f);
    var p3 := p2 + Pushed(Level10, alreadyUnlocked, f);
    var p4 := p3 + Pushed(Level50, alreadyUnlocked, f);
    var p5 := p4 + Pushed(Level100, alreadyUnlocked, f);
    AppendFresh(p1, Pushed(PerfectRound, alreadyUnlocked, f));
    AppendFresh(p2, Pushed(Level10, alreadyUnlocked, f));
    AppendFresh(p3, Pushed(Level50, alreadyUnlocked, f));
    AppendFresh(p4, Pushed(Level100, alreadyUnlocked, f));
    AppendFresh(p5, Pushed(Challenger, alreadyUnlocked, f));
  }

  /**
   * checkNewAchievements: the achievements this game earns that were not
   * unlocked before, each once, in the order the rules are checked.
   */
  method CheckNewAchievements(alreadyUnlocked: set<AchievementType>, f: UnlockFacts)
    returns (newUnlocked: seq<AchievementType>)
    ensures forall t :: t in newUnlocked <==> Earned(t, f) && t !in alreadyUnlocked
    ensures NoDuplicates(newUnlocked)
  {
    newUnlocked := [];
    if f.sessionCount.Some? && f.sessionCount.value >= 1 {
      newUnlocked := AddIfNew(newUnlocked, alreadyUnlocked, FirstQuiz);
    }
    assert newUnlocked == Pushed(FirstQuiz, alreadyUnlocked, f);
    if f.correctAnswers == f.totalQuestions && f.totalQuestions >= 10 {
      newUnlocked := AddIfNew(newUnlocked, alreadyUnlocked, PerfectRound);
    }
    ghost var p2 := Pushed(FirstQuiz, alreadyUnlocked, f) + Pushed(PerfectRound, alreadyUnlocked, f);
    assert newUnlocked == p2;
    ghost var p3 := p2 + Pushed(Level10, alreadyUnlocked, f);
    ghost var p4 := p3 + Pushed(Level50, alreadyUnlocked, f);
    ghost var p5 := p4 + Pushed(Level100, alreadyUnlocked, f);
    if f.profileLevel.Some? {
      if f.profileLevel.value >= 10 {
        newUnlocked := AddIfNew(newUnlocked, alreadyUnlocked, Level10);
      }
      assert newUnlocked == p3;
      if f.profileLevel.value >= 50 {
        newUnlocked := AddIfNew(newUnlocked, alreadyUnlocked, Level50);
      }
      assert newUnlocked == p4;
      if f.profileLevel.value >= 100 {
        newUnlocked := AddIfNew(newUnlocked, alreadyUnlocked, Level100);
      }
    } else {
      assert p5 == p2 + [] + [] + [];
    }
    assert newUnlocked == p5;
    if f.mode == Duelo {
      if f.completedDuels.Some? && f.completedDuels.value >= 10 {
        newUnlocked := AddIfNew(newUnlocked, alreadyUnlocked, Challenger);
      }
    }
    assert newUnlocked == Expected(alreadyUnlocked, f);
    ExpectedIsAnswer(alreadyUnlocked, f);
  }

  /** `getAllAchievements().filter(a => newUnlocked.includes(a.id))`: the cards shown. */
  function ShownList(newUnlocked: seq<AchievementType>): seq<Achievement>
  {
    FilterByIds(GetAllAchievements(), TypeKeys(newUnlocked))
  }

  /**
   * The new achievements shown: the list of all achievements filtered by
   * the new ids holds the entry of each new type and nothing else, in
   * table order.
   */
  lemma ShownAchievements(newUnlocked: seq<AchievementType>)
    ensures var shown := ShownList(newUnlocked);
      && (forall t :: GetAchievementInfo(t) in shown <==> t in newUnlocked)
      && (forall a :: a in shown ==> exists t :: a == GetAchievementInfo(t) && t in newUnlocked)
      && InTableOrder(FilterTypes(TableOrder, TypeKeys(newUnlocked)))
      && shown == EntriesOf(FilterTypes(TableOrder, TypeKeys(newUnlocked)))
  {
    var ids := TypeKeys(newUnlocked);
    var shown := FilterByIds(GetAllAchievements(), ids);
    FilterAllKeepsTableOrder(ids);
    forall t
      ensures GetAchievementInfo(t) in shown <==> t in newUnlocked
    {
      AllAchievementsComplete(t);
      TypeKeysMembership(newUnlocked, t);
    }
    forall a | a in shown
      ensures exists t :: a == GetAchievementInfo(t) && t in newUnlocked
    {
      var types := FilterTypes(TableOrder, ids);
      var k :| 0 <= k < |shown| && shown[k] == a;
      var t := types[k];
      assert a == Entry(t);
      TypeKeysMembership(newUnlocked, t);
    }
  }

  /** The game_sessions row written for a finished game. */
  datatype SessionRow = SessionRow(
    userId: string, mode: GameMode, score: int, correctAnswers: int, totalQuestions: int, timeSpent: int)

  /**
   * How one run of the save effect ends: the insert reports an error; an
   * exception escapes after the row was inserted (with or without the XP
   * already added); or the run completes.
   */
  datatype SaveOutcome = InsertFails | ThrowsAfterInsert(xpAddedFirst: bool) | Completes

  /**
   * The save effect and its once-guard (`savedToDbRef`). `sessions` and
   * `xpCredits` are the rows inserted and the XP amounts added by this
   * screen; `shown` is the list of new achievements on screen.
   */
  class SessionSaver {
    var savedToDb: bool
    var sessions: seq<SessionRow>
    var xpCredits: seq<int>
    var shown: seq<Achievement>
    /** The achievement list the new ones are picked from; the screen passes `getAllAchievements()`. */
    const catalogue: seq<Achievement>
    /** No exception has escaped after an insert so far. */
    ghost var clean: bool

    /**
     * Until an exception escapes after an insert, at most one row is
     * inserted, and once it is the guard stays set; only positive XP
     * amounts are added, never more often than rows are inserted.
     */
    ghost predicate Valid()
      reads this
    {
      && (clean ==> |sessions| <= 1)
      && (clean && |sessions| == 1 ==> savedToDb)
      && |xpCredits| <= |sessions|
      && (forall x :: x in xpCredits ==> x > 0)
    }

    constructor (catalogue: seq<Achievement>)
      ensures Valid() && !savedToDb && clean
      ensures sessions == [] && xpCredits == [] && shown == []
      ensures this.catalogue == catalogue
    {
      this.catalogue := catalogue;
      savedToDb := false;
      sessions := [];
      xpCredits := [];
      shown := [];
      clean := true;
    }

    /**
     * One run of the save effect. Nothing happens without a profile or once
     * the guard is set; otherwise the guard is set before any write, is
     * cleared again when the run fails, and stays set when it completes.
     * XP is added only when some was gained.
     */
    method Save(profileId: Option<string>, row: SessionRow, xpGained: int,
                newUnlocked: seq<AchievementType>, outcome: SaveOutcome)
      requires Valid()
      modifies this
      ensures Valid()
      ensures old(savedToDb) || profileId.None? ==> unchanged(this)
      ensures !old(savedToDb) && profileId.Some? ==> savedToDb == outcome.Completes?
      ensures !old(savedToDb) && profileId.Some? ==>
        sessions == old(sessions) + (if outcome.InsertFails? then [] else [row])
      ensures !old(savedToDb) && profileId.Some? ==>
        xpCredits == old(xpCredits) +
          (if xpGained > 0 && (outcome.Completes? || outcome == ThrowsAfterInsert(true)) then [xpGained] else [])
      ensures !old(savedToDb) && profileId.Some? ==>
        shown == (if outcome.Completes? && |newUnlocked| > 0 then FilterByIds(catalogue, TypeKeys(newUnlocked)) else old(shown))
      ensures !old(savedToDb) && profileId.Some? ==> clean == (old(clean) && !outcome.ThrowsAfterInsert?)
    {
      if savedToDb || profileId.None? {
        return;
      }
      savedToDb := true;
      if outcome.InsertFails? {
        savedToDb := false;
        return;
      }
      sessions := sessions + [row];
      if outcome.ThrowsAfterInsert? {
        if outcome.xpAddedFirst && xpGained > 0 {
          xpCredits := xpCredits + [xpGained];
        }
        savedToDb := false;
        clean := false;
        return;
      }
      if xpGained > 0 {
        xpCredits := xpCredits + [xpGained];
      }
      if |newUnlocked| > 0 {
        shown := FilterByIds(catalogue, TypeKeys(newUnlocked));
      }
    }
  }

  /** The effect run twice in a row (as Strict Mode does) saves the game once. */
  method SavedOnceWhenRunTwice(catalogue: seq<Achievement>, row: SessionRow, xpGained: int) returns (saver: SessionSaver)
    ensures |saver.sessions| == 1 && saver.savedToDb
    ensures |saver.xpCredits| == (if xpGained > 0 then 1 else 0)
  {
    saver := new SessionSaver(catalogue);
    saver.Save(Some(row.userId), row, xpGained, [], Completes);
    saver.Save(Some(row.userId), row, xpGained, [], Completes);
  }

  /** A failed insert clears the guard, and the next run saves the game. */
  method RetryAfterInsertError(catalogue: seq<Achievement>, row: SessionRow) returns (saver: SessionSaver)
    ensures |saver.sessions| == 1 && saver.savedToDb
  {
    saver := new SessionSaver(catalogue);
    saver.Save(Some(row.userId), row, 10, [], InsertFails);
    saver.Save(Some(row.userId), row, 10, [], Completes);
  }

  /**
   * An exception after the insert also clears the guard, so a later run
   * inserts the same game a second time.
   */
  method RetryAfterLateFailure(catalogue: seq<Achievement>, row: SessionRow) returns (saver: SessionSaver)
    ensures saver.sessions == [row, row]
  {
    saver := new SessionSaver(catalogue);
    saver.Save(Some(row.userId), row, 10, [], ThrowsAfterInsert(false));
    saver.Save(Some(row.userId), row, 10, [], Completes);
  }
}

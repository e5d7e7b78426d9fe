/**
 * Model of the pure parts of src/app/atividades/page.tsx: the emoji and
 * sentence shown for a feed activity, and the "own activity" highlight.
 *
 * Template strings render a JSON value as JavaScript's `String` does for
 * the values activity data holds; a missing field renders "undefined".
 */
module ActivitiesPage {
  import opened Types
  import Text
  import ResultScreen
  import FeedRoute
  import Achievements

  /** `modeLabels[key]`: the nine labelled mode keys. */
  function ModeLabel(key: string): Option<string>
  {
    if key == "treino" then Some("Treino")
    else if key == "desafio" then Some("Desafio")
    else if key == "diario" then Some("Quiz Diário")
    else if key == "duelo" then Some("Duelo")
    else if key == "tematico-selecoes" then Some("Seleções")
    else if key == "tematico-finais" then Some("Finais")
    else if key == "tematico-artilheiros" then Some("Artilheiros")
    else if key == "tematico-curiosidades" then Some("Curiosidades")
    else if key == "tematico-copa2026" then Some("Copa 2026")
    else None
  }

  /** `modeEmojis[key]`: only the four game modes have one. */
  function ModeEmoji(key: string): Option<string>
  {
    if key == "treino" then Some("📚")
    else if key == "desafio" then Some("🏆")
    else if key == "diario" then Some("📅")
    else if key == "duelo" then Some("⚔️")
    else None
  }

  /** `${value}` for a field of the activity's data; None is `undefined`. */
  function Render(v: Option<Json>): (s: string)
    ensures v.Some? && v.value.JStr? ==> s == v.value.s
    ensures v.Some? && v.value.JNum? ==> s == Text.IntToString(v.value.n)
    ensures v.None? ==> s == "undefined"
  {
    match v
    case None => "undefined"
    case Some(JNull) => "null"
    case Some(JBool(b)) => if b then "true" else "false"
    case Some(JNum(n)) => Text.IntToString(n)
    case Some(JStr(s)) => s
  }

  type Json = FeedRoute.Json

  function Field(data: map<string, Json>, key: string): Option<Json>
  {
    if key in data then Some(data[key]) else None
  }

  /** `user?.name || "Alguém"`: an absent or empty name gives "Alguém". */
  function UserName(user: Option<FeedRoute.UserInfo>): (name: string)
    ensures name != ""
    ensures user.Some? && user.value.name.Some? && user.value.name.value != "" ==> name == user.value.name.value
    ensures user.None? || user.value.name.None? || user.value.name.value == "" ==> name == "Alguém"
  {
    if user.Some? && user.value.name.Some? && user.value.name.value != "" then user.value.name.value
    else "Alguém"
  }

  datatype ActivityMessage = ActivityMessage(emoji: string, text: string)

  /** `modeEmojis[mode] || "🎮"`. */
  function QuizEmoji(mode: Option<Json>): (e: string)
    ensures ModeEmoji(Render(mode)).Some? ==> e == ModeEmoji(Render(mode)).value
    ensures ModeEmoji(Render(mode)).None? ==> e == "🎮"
  {
    var key := Render(mode);
    if ModeEmoji(key).Some? then ModeEmoji(key).value else "🎮"
  }

  /** `modeLabels[mode] || mode`, as the template renders it. */
  function QuizLabel(mode: Option<Json>): (l: string)
    ensures ModeLabel(Render(mode)).Some? ==> l == ModeLabel(Render(mode)).value
    ensures ModeLabel(Render(mode)).None? ==> l == Render(mode)
  {
    var key := Render(mode);
    if ModeLabel(key).Some? then ModeLabel(key).value else key
  }

  /** The sentence of a quiz_completed activity after the user's name. */
  function QuizSentence(modeName: string, accuracy: string): string
  {
    "completou " + modeName + " com " + accuracy + "% de acertos!"
  }

  /** The emoji of an activity and the words that follow the user's name, by type. */
  function Phrase(activityType: string, data: map<string, Json>): (m: ActivityMessage)
    ensures activityType == "quiz_completed" ==>
      m == ActivityMessage(QuizEmoji(Field(data, "mode")),
                           QuizSentence(QuizLabel(Field(data, "mode")), Render(Field(data, "accuracy"))))
    ensures activityType == "achievement_unlocked" ==>
      m == ActivityMessage("🏅", "desbloqueou \"" + Render(Field(data, "achievement_name")) + "\"")
    ensures activityType == "level_up" ==>
      m == ActivityMessage("⬆️", "subiu para nível " + Render(Field(data, "new_level")) + "!")
    ensures activityType == "duel_won" ==> m == ActivityMessage("⚔️", "venceu um duelo!")
    ensures activityType == "streak_milestone" ==>
      m == ActivityMessage("🔥", "alcançou " + Render(Field(data, "streak_days")) + " dias de streak!")
    ensures activityType !in FeedRoute.ValidTypes ==> m == ActivityMessage("📌", "fez algo incrível!")
  {
    if activityType == "quiz_completed" then
      var mode := Field(data, "mode");
      ActivityMessage(QuizEmoji(mode), QuizSentence(QuizLabel(mode), Render(Field(data, "accuracy"))))
    else if activityType == "achievement_unlocked" then
      ActivityMessage("🏅", "desbloqueou \"" + Render(Field(data, "achievement_name")) + "\"")
    else if activityType == "level_up" then
      ActivityMessage("⬆️", "subiu para nível " + Render(Field(data, "new_level")) + "!")
    else if activityType == "duel_won" then
      ActivityMessage("⚔️", "venceu um duelo!")
    else if activityType == "streak_milestone" then
      ActivityMessage("🔥", "alcançou " + Render(Field(data, "streak_days")) + " dias de streak!")
    else
      ActivityMessage("📌", "fez algo incrível!")
  }

  /**
   * getActivityMessage: the type's emoji, and a sentence that opens with
   * the user's name followed by the type's phrase; any other type gets
   * the generic phrase.
   */
  function GetActivityMessage(a: FeedRoute.Activity): (m: ActivityMessage)
    ensures var name := UserName(a.user);
      |m.text| > |name| && m.text[..|name|] == name && m.text[|name|] == ' '
    ensures m.emoji == Phrase(a.activityType, a.data).emoji
    ensures m.text[|UserName(a.user)| + 1..] == Phrase(a.activityType, a.data).text
  {
    var name := UserName(a.user);
    var p := Phrase(a.activityType, a.data);
    var text := name + " " + p.text;
    assert text == name + ([' '] + p.text);
    ActivityMessage(p.emoji, text)
  }

  /** `activity.user_id === profile?.id`. */
  predicate IsOwnActivity(a: FeedRoute.Activity, profileId: Option<string>)
  {
    profileId.Some? && a.userId == profileId.value
  }

  /** An activity posted by a user is highlighted as that user's own. */
  lemma PostedIsOwn(id: string, caller: string, activityType: string, data: Option<map<string, Json>>,
                    now: int, joined: FeedRoute.Joined, other: string)
    requires other != caller
    ensures IsOwnActivity(FeedRoute.Format(FeedRoute.NewActivity(id, caller, activityType, data, now), joined), Some(caller))
    ensures !IsOwnActivity(FeedRoute.Format(FeedRoute.NewActivity(id, caller, activityType, data, now), joined), Some(other))
    ensures !IsOwnActivity(FeedRoute.Format(FeedRoute.NewActivity(id, caller, activityType, data, now), joined), None)
  {
  }

  /** The data of the quiz_completed activity the result screen posts. */
  function CompletionData(mode: GameMode, score: int, correctAnswers: int, totalQuestions: int): map<string, Json>
    requires totalQuestions > 0
  {
    map["mode" := FeedRoute.JStr(ModeKey(mode)),
        "score" := FeedRoute.JNum(score),
        "correct_answers" := FeedRoute.JNum(correctAnswers),
        "total_questions" := FeedRoute.JNum(totalQuestions),
        "accuracy" := FeedRoute.JNum(ResultScreen.Accuracy(correctAnswers, totalQuestions))]
  }

  /** The data of the achievement_unlocked activity the result screen posts. */
  function AchievementData(a: Achievements.Achievement): map<string, Json>
  {
    map["achievement_id" := FeedRoute.JStr(a.id), "achievement_name" := FeedRoute.JStr(a.name)]
  }

  /**
   * For an achievement the result screen posts, the feed shows the medal
   * and the achievement's own name from the table, in quotes.
   */
  lemma PostedAchievementMessage(a: FeedRoute.Activity, t: AchievementType)
    requires a.activityType == "achievement_unlocked"
    requires a.data == AchievementData(Achievements.GetAchievementInfo(t))
    ensures GetActivityMessage(a) ==
      ActivityMessage("🏅", UserName(a.user) + " desbloqueou \"" + Achievements.Name(t) + "\"")
  {
    assert Field(a.data, "achievement_name") == Some(FeedRoute.JStr(Achievements.Name(t)));
    var name := UserName(a.user);
    assert name + " " + ("desbloqueou \"" + Achievements.Name(t) + "\"") ==
      name + " desbloqueou \"" + Achievements.Name(t) + "\"";
  }

  /** Every game mode has a label and an emoji of its own. */
  lemma ModeKeysLabelled(mode: GameMode)
    ensures ModeLabel(ModeKey(mode)).Some? && ModeEmoji(ModeKey(mode)).Some?
  {
  }

  /** The text of a quiz_completed activity, split before the accuracy. */
  lemma QuizTextSplit(name: string, modeName: string, accuracy: string)
    ensures name + " " + QuizSentence(modeName, accuracy) ==
      (name + " completou " + modeName + " com ") + (accuracy + "% de acertos!")
  {
  }

  /**
   * For a game the result screen posts, the feed shows the mode's own
   * emoji and label (never the fallbacks), and the accuracy in the
   * sentence reads back as the result screen's rounded percentage.
   */
  lemma PostedQuizMessage(a: FeedRoute.Activity, mode: GameMode, score: int, correctAnswers: int, totalQuestions: int)
    requires totalQuestions > 0 && 0 <= correctAnswers <= totalQuestions
    requires a.activityType == "quiz_completed" && a.data == CompletionData(mode, score, correctAnswers, totalQuestions)
    ensures ModeEmoji(ModeKey(mode)).Some? && ModeLabel(ModeKey(mode)).Some?
    ensures GetActivityMessage(a).emoji == ModeEmoji(ModeKey(mode)).value
    ensures var prefix := UserName(a.user) + " completou " + ModeLabel(ModeKey(mode)).value + " com ";
      var text := GetActivityMessage(a).text;
      && |text| > |prefix| && text[..|prefix|] == prefix
      && Text.ParseInt(text[|prefix|..]) == Some(ResultScreen.Accuracy(correctAnswers, totalQuestions))
  {
    ModeKeysLabelled(mode);
    var acc := ResultScreen.Accuracy(correctAnswers, totalQuestions);
    var modeField := Field(a.data, "mode");
    var accField := Field(a.data, "accuracy");
    assert modeField == Some(FeedRoute.JStr(ModeKey(mode)));
    assert accField == Some(FeedRoute.JNum(acc));
    var name := UserName(a.user);
    var modeName := ModeLabel(ModeKey(mode)).value;
    assert QuizLabel(modeField) == modeName;
    var prefix := name + " completou " + modeName + " com ";
    var rest := Text.IntToString(acc) + "% de acertos!";
    var text := GetActivityMessage(a).text;
    assert text == name + " " + QuizSentence(modeName, Text.IntToString(acc));
    QuizTextSplit(name, modeName, Text.IntToString(acc));
    assert text == prefix + rest;
    assert text[..|prefix|] == prefix && text[|prefix|..] == rest;
    Text.ParseIntToString(acc, "% de acertos!");
  }
}

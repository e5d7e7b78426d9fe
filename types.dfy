/**
 * Domain values shared by the quiz application: questions, game modes,
 * duels and achievement kinds, plus the optional-value wrapper used for
 * the many nullable fields of the database rows.
 */
module Types {

  datatype Option<T> = None | Some(value: T)

  /** Nullable numeric column read with `x || d`: null and 0 both fall back to d. */
  function OrElse(x: Option<int>, d: int): (r: int)
    ensures x.Some? && x.value != 0 ==> r == x.value
    ensures x.None? || x.value == 0 ==> r == d
  {
    if x.Some? && x.value != 0 then x.value else d
  }

  datatype Category = Selecoes | Finais | Artilheiros | Curiosidades | Copa2026

  datatype Difficulty = Facil | Medio | Dificil

  /** The category names as stored in the `questions` table. */
  function CategoryKey(c: Category): string
  {
    match c
    case Selecoes => "selecoes"
    case Finais => "finais"
    case Artilheiros => "artilheiros"
    case Curiosidades => "curiosidades"
    case Copa2026 => "copa2026"
  }

  /** The difficulty names as stored in the `questions` table. */
  function DifficultyKey(d: Difficulty): string
  {
    match d
    case Facil => "facil"
    case Medio => "medio"
    case Dificil => "dificil"
  }

  /**
   * The end index of `slice(0, end)` on a list of `n` items: a negative
   * end counts from the back, and NaN (None) reads as 0.
   */
  function SliceEnd(n: nat, end: Option<int>): (k: nat)
    ensures k <= n
    ensures end.Some? && 0 <= end.value ==> k == if end.value < n then end.value else n
    ensures end.Some? && end.value < 0 ==> k == if n + end.value < 0 then 0 else n + end.value
    ensures end.None? ==> k == 0
  {
    match end
    case None => 0
    case Some(e) =>
      if e < 0 then (if n + e < 0 then 0 else n + e)
      else if e < n then e else n
  }

  datatype GameMode = Treino | Desafio | Duelo | Diario

  /** A trivia item; `options` normally holds four strings. */
  datatype Question = Question(
    id: string,
    text: string,
    options: seq<string>,
    correctAnswer: int,
    category: Category,
    difficulty: Difficulty,
    explanation: Option<string>)

  datatype DuelStatus = Pending | Active | Completed

  datatype Duel = Duel(
    id: string,
    challengerId: string,
    opponentId: Option<string>,
    questionIds: seq<string>,
    challengerScore: Option<int>,
    opponentScore: Option<int>,
    status: DuelStatus,
    createdAt: int,
    completedAt: Option<int>)

  datatype AchievementType =
    | FirstQuiz | PerfectRound | Streak7 | Streak30 | BrasilExpert | FinalsMaster
    | Challenger | Level10 | Level50 | Level100 | SocialButterfly | EarlyBird

  /** The mode names as they travel in URLs, rows and activity data. */
  function ModeKey(m: GameMode): string
  {
    match m
    case Treino => "treino"
    case Desafio => "desafio"
    case Duelo => "duelo"
    case Diario => "diario"
  }
}

/** HTTP outcome of a route handler: a payload, or a status code with a message. */
module Http {
  datatype Response<T> = Ok(body: T) | Error(status: int, message: string)

  const Unauthorized := 401
  const BadRequest := 400
  const NotFound := 404
  const ServerError := 500
}

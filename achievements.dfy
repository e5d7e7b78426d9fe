/**
 * Model of src/lib/achievements.ts: the table of the twelve achievements,
 * keyed by their type names in insertion order, its lookup and its list of
 * values.
 */
module Achievements {
  import opened Types

  datatype Achievement = Achievement(id: string, name: string, description: string, icon: string)

  /** The type's name as it is spelled in the union type and stored in rows. */
  function TypeKey(t: AchievementType): string
  {
    match t
    case FirstQuiz => "first_quiz"
    case PerfectRound => "perfect_round"
    case Streak7 => "streak_7"
    case Streak30 => "streak_30"
    case BrasilExpert => "brasil_expert"
    case FinalsMaster => "finals_master"
    case Challenger => "challenger"
    case Level10 => "level_10"
    case Level50 => "level_50"
    case Level100 => "level_100"
    case SocialButterfly => "social_butterfly"
    case EarlyBird => "early_bird"
  }

  /** Reads a stored type name back; unknown names have no type. */
  function ParseType(s: string): (t: Option<AchievementType>)
  {
    if s == "first_quiz" then Some(FirstQuiz)
    else if s == "perfect_round" then Some(PerfectRound)
    else if s == "streak_7" then Some(Streak7)
    else if s == "streak_30" then Some(Streak30)
    else if s == "brasil_expert" then Some(BrasilExpert)
    else if s == "finals_master" then Some(FinalsMaster)
    else if s == "challenger" then Some(Challenger)
    else if s == "level_10" then Some(Level10)
    else if s == "level_50" then Some(Level50)
    else if s == "level_100" then Some(Level100)
    else if s == "social_butterfly" then Some(SocialButterfly)
    else if s == "early_bird" then Some(EarlyBird)
    else None
  }

  /** Every type name reads back as its type. */
  lemma ParseTypeKey(t: AchievementType)
    ensures ParseType(TypeKey(t)) == Some(t)
  {
  }

  /** A name that reads as a type is that type's name. */
  lemma TypeKeyParse(s: string)
    requires ParseType(s).Some?
    ensures TypeKey(ParseType(s).value) == s
  {
  }

  /** Distinct types have distinct names. */
  lemma TypeKeyInjective(a: AchievementType, b: AchievementType)
    requires TypeKey(a) == TypeKey(b)
    ensures a == b
  {
    ParseTypeKey(a);
    ParseTypeKey(b);
  }

  /** The `id` written in each entry of the table. */
  function Id(t: AchievementType): string
  {
    match t
    case FirstQuiz => "first_quiz"
    case PerfectRound => "perfect_round"
    case Streak7 => "streak_7"
    case Streak30 => "streak_30"
    case BrasilExpert => "brasil_expert"
    case FinalsMaster => "finals_master"
    case Challenger => "challenger"
    case Level10 => "level_10"
    case Level50 => "level_50"
    case Level100 => "level_100"
    case SocialButterfly => "social_butterfly"
    case EarlyBird => "early_bird"
  }

  /** The display name, description and icon of a type's table entry. */
  function Name(t: AchievementType): string
  {
    match t
    case FirstQuiz => "Estreante"
    case PerfectRound => "Rodada Perfeita"
    case Streak7 => "Dedicado"
    case Streak30 => "Fanático"
    case BrasilExpert => "Especialista Brasil"
    case FinalsMaster => "Mestre das Finais"
    case Challenger => "Desafiante"
    case Level10 => "Titular"
    case Level50 => "Craque"
    case Level100 => "Lenda"
    case SocialButterfly => "Influenciador"
    case EarlyBird => "Madrugador"
  }

  function Description(t: AchievementType): string
  {
    match t
    case FirstQuiz => "Complete seu primeiro quiz"
    case PerfectRound => "Acerte todas no modo Desafio (15/15)"
    case Streak7 => "Jogue 7 dias seguidos"
    case Streak30 => "Jogue 30 dias seguidos"
    case BrasilExpert => "Acerte 50 perguntas sobre Brasil"
    case FinalsMaster => "Acerte 30 perguntas sobre finais"
    case Challenger => "Vença 10 duelos"
    case Level10 => "Alcance nível 10"
    case Level50 => "Alcance nível 50"
    case Level100 => "Alcance nível 100"
    case SocialButterfly => "Compartilhe 10 resultados"
    case EarlyBird => "Jogue o quiz diário antes das 8h"
  }

  function Icon(t: AchievementType): string
  {
    match t
    case FirstQuiz => "🎯"
    case PerfectRound => "⭐"
    case Streak7 => "🔥"
    case Streak30 => "🏆"
    case BrasilExpert => "🇧🇷"
    case FinalsMaster => "🥇"
    case Challenger => "⚔️"
    case Level10 => "🎽"
    case Level50 => "⚽"
    case Level100 => "👑"
    case SocialButterfly => "📱"
    case EarlyBird => "🌅"
  }

  /** The names of some types, in order. */
  function TypeKeys(ts: seq<AchievementType>): (r: seq<string>)
    ensures |r| == |ts| && forall i :: 0 <= i < |ts| ==> r[i] == TypeKey(ts[i])
  {
    if ts == [] then [] else [TypeKey(ts[0])] + TypeKeys(ts[1..])
  }

  /** A type's name is among the names exactly when the type is among the types. */
  lemma TypeKeysMembership(ts: seq<AchievementType>, t: AchievementType)
    ensures TypeKey(t) in TypeKeys(ts) <==> t in ts
  {
    if TypeKey(t) in TypeKeys(ts) {
      var i :| 0 <= i < |ts| && TypeKeys(ts)[i] == TypeKey(t);
      TypeKeyInjective(ts[i], t);
    }
  }

  /** The table's entry under the type's key, with the fields written in it. */
  function Entry(t: AchievementType): Achievement
  {
    Achievement(Id(t), Name(t), Description(t), Icon(t))
  }

  /** The keys of the table in insertion order. */
  const TableOrder: seq<AchievementType> :=
    [FirstQuiz, PerfectRound, Streak7, Streak30, BrasilExpert, FinalsMaster,
     Challenger, Level10, Level50, Level100, SocialButterfly, EarlyBird]

  /**
   * getAchievementInfo: the entry stored under the type. Its id is the
   * key it is stored under, so the id reads back as the type asked for.
   */
  function GetAchievementInfo(t: AchievementType): (a: Achievement)
    ensures a.id == TypeKey(t)
    ensures ParseType(a.id) == Some(t)
  {
    Entry(t)
  }

  function EntriesOf(types: seq<AchievementType>): (r: seq<Achievement>)
    ensures |r| == |types|
    ensures forall i :: 0 <= i < |types| ==> r[i] == Entry(types[i])
  {
    if types == [] then [] else [Entry(types[0])] + EntriesOf(types[1..])
  }

  /** getAllAchievements: the entries in table order. */
  function GetAllAchievements(): seq<Achievement>
  {
    EntriesOf(TableOrder)
  }

  /** The position of a type's entry in the table. */
  function TableIndex(t: AchievementType): (i: nat)
    ensures i < |TableOrder| && TableOrder[i] == t
  {
    match t
    case FirstQuiz => 0
    case PerfectRound => 1
    case Streak7 => 2
    case Streak30 => 3
    case BrasilExpert => 4
    case FinalsMaster => 5
    case Challenger => 6
    case Level10 => 7
    case Level50 => 8
    case Level100 => 9
    case SocialButterfly => 10
    case EarlyBird => 11
  }

  /** Each type sits at exactly one place in the table. */
  lemma TableIndexOfOrder(i: int)
    requires 0 <= i < |TableOrder|
    ensures TableIndex(TableOrder[i]) == i
  {
  }

  /** No type is listed twice in the table. */
  lemma TableOrderDistinct()
    ensures forall i, j :: 0 <= i < j < |TableOrder| ==> TableOrder[i] != TableOrder[j]
  {
    forall i, j | 0 <= i < j < |TableOrder|
      ensures TableOrder[i] != TableOrder[j]
    {
      TableIndexOfOrder(i);
      TableIndexOfOrder(j);
    }
  }

  /** The list has the twelve entries, first_quiz first and early_bird last, with pairwise distinct ids. */
  lemma AllAchievementsDistinct()
    ensures var all := GetAllAchievements();
      && |all| == 12
      && all[0].id == "first_quiz" && all[11].id == "early_bird"
      && (forall i, j :: 0 <= i < j < |all| ==> all[i].id != all[j].id)
  {
    var all := GetAllAchievements();
    TableOrderDistinct();
    forall i, j | 0 <= i < j < |all|
      ensures all[i].id != all[j].id
    {
      if all[i].id == all[j].id {
        TypeKeyInjective(TableOrder[i], TableOrder[j]);
        assert false;
      }
    }
  }

  /** Every achievement type has its entry in the list. */
  lemma AllAchievementsComplete(t: AchievementType)
    ensures GetAchievementInfo(t) in GetAllAchievements()
  {
    assert GetAllAchievements()[TableIndex(t)] == Entry(t);
  }

  /** The types among `types` whose names are in `ids`, order kept. */
  function FilterTypes(types: seq<AchievementType>, ids: seq<string>): (r: seq<AchievementType>)
    ensures forall t :: t in r <==> t in types && TypeKey(t) in ids
  {
    if types == [] then []
    else (if TypeKey(types[0]) in ids then [types[0]] else []) + FilterTypes(types[1..], ids)
  }

  /** The entries of `all` whose ids are in `ids`, in the order of `all`. */
  function FilterByIds(all: seq<Achievement>, ids: seq<string>): (r: seq<Achievement>)
    ensures forall a :: a in r <==> a in all && a.id in ids
  {
    if all == [] then []
    else (if all[0].id in ids then [all[0]] else []) + FilterByIds(all[1..], ids)
  }

  /** Filtering the entries of some types is taking the entries of the filtered types. */
  lemma {:induction false} FilterEntries(types: seq<AchievementType>, ids: seq<string>)
    ensures FilterByIds(EntriesOf(types), ids) == EntriesOf(FilterTypes(types, ids))
  {
    if types != [] {
      FilterEntries(types[1..], ids);
      assert EntriesOf(types)[1..] == EntriesOf(types[1..]);
      var head := if TypeKey(types[0]) in ids then [types[0]] else [];
      EntriesOfAppend(head, FilterTypes(types[1..], ids));
    }
  }

  lemma EntriesOfAppend(a: seq<AchievementType>, b: seq<AchievementType>)
    ensures EntriesOf(a + b) == EntriesOf(a) + EntriesOf(b)
  {
  }

  /** Types listed in table order. */
  predicate InTableOrder(types: seq<AchievementType>)
  {
    forall i, j :: 0 <= i < j < |types| ==> TableIndex(types[i]) < TableIndex(types[j])
  }

  lemma {:induction false} FilterTypesInOrder(types: seq<AchievementType>, ids: seq<string>)
    requires InTableOrder(types)
    ensures InTableOrder(FilterTypes(types, ids))
  {
    if types != [] {
      var tail := types[1..];
      assert InTableOrder(tail);
      FilterTypesInOrder(tail, ids);
      var rest := FilterTypes(tail, ids);
      forall t | t in rest
        ensures TableIndex(types[0]) < TableIndex(t)
      {
        var k :| 0 <= k < |tail| && tail[k] == t;
        assert types[k + 1] == t;
      }
    }
  }

  /**
   * Filtering the list by unlocked ids keeps table order: the result is
   * the entries of some types, listed in table order, and an entry is in
   * it exactly when its id is among the unlocked ones.
   */
  lemma FilterAllKeepsTableOrder(ids: seq<string>)
    ensures var types := FilterTypes(TableOrder, ids);
      && FilterByIds(GetAllAchievements(), ids) == EntriesOf(types)
      && InTableOrder(types)
  {
    FilterEntries(TableOrder, ids);
    forall i, j | 0 <= i < j < |TableOrder|
      ensures TableIndex(TableOrder[i]) < TableIndex(TableOrder[j])
    {
      TableIndexOfOrder(i);
      TableIndexOfOrder(j);
    }
    assert InTableOrder(TableOrder);
    FilterTypesInOrder(TableOrder, ids);
  }
}

/**
 * Model of src/components/quiz/QuestionCard.tsx: the answer lock and the
 * 50/50 hint of one question card, and the style each option is drawn
 * with. The card's props arrive as method parameters; the delayed
 * `onAnswer` call is reported as the result of `HandleAnswer`. The random
 * comparator sort of the hint is an arbitrary reordering of the wrong
 * options, passed in as `shuffled`.
 */
module QuestionCard {
  import opened Types

  /** The option indices 0 .. n-1 other than `correct`, in increasing order. */
  function WrongOptions(n: nat, correct: int): (w: seq<int>)
    ensures forall k :: 0 <= k < |w| ==> 0 <= w[k] < n && w[k] != correct
    ensures forall i :: 0 <= i < n && i != correct ==> i in w
    ensures forall a, b :: 0 <= a < b < |w| ==> w[a] < w[b]
    ensures |w| == if 0 <= correct < n then n - 1 else n
  {
    if n == 0 then []
    else if n - 1 == correct then WrongOptions(n - 1, correct)
    else WrongOptions(n - 1, correct) + [n - 1]
  }

  /** The first `k` elements, or all of them when there are fewer. */
  function Take<T>(s: seq<T>, k: nat): (r: seq<T>)
    ensures |r| == if |s| < k then |s| else k
    ensures r == s[..|r|]
  {
    if |s| <= k then s else s[..k]
  }

  /** Strictly increasing sequences have no repeated element. */
  predicate NoDuplicates(s: seq<int>)
  {
    forall a, b :: 0 <= a < b < |s| ==> s[a] != s[b]
  }

  lemma IncreasingHasNoDuplicates(s: seq<int>)
    requires forall a, b :: 0 <= a < b < |s| ==> s[a] < s[b]
    ensures NoDuplicates(s)
  {
  }

  /** A reordering keeps having no duplicates. */
  lemma PermutationNoDuplicates(s: seq<int>, t: seq<int>)
    requires multiset(s) == multiset(t) && NoDuplicates(s)
    ensures NoDuplicates(t)
  {
    forall a, b | 0 <= a < b < |t|
      ensures t[a] != t[b]
    {
      CountAtMostOne(s, t[a]);
      if t[a] == t[b] {
        TwiceCountsTwice(t, a, b);
        assert false;
      }
    }
  }

  /** An element found at two positions occurs at least twice. */
  lemma TwiceCountsTwice(t: seq<int>, a: int, b: int)
    requires 0 <= a < b < |t| && t[a] == t[b]
    ensures multiset(t)[t[a]] >= 2
  {
    var x := t[a];
    var rest := t[..a] + t[a + 1..];
    assert t == t[..a] + [x] + t[a + 1..];
    assert rest[b - 1] == x;
    assert multiset(t) == multiset(rest) + multiset{x};
  }

  lemma {:induction false} CountAtMostOne(s: seq<int>, x: int)
    requires NoDuplicates(s)
    ensures multiset(s)[x] <= 1
  {
    if s != [] {
      var init := s[..|s| - 1];
      assert s == init + [s[|s| - 1]];
      CountAtMostOne(init, x);
      if s[|s| - 1] == x {
        assert x !in init;
      }
    }
  }

  /** The hint's pick: the first two of the reordered wrong options. */
  function HintPick(shuffled: seq<int>): seq<int>
  {
    Take(shuffled, 2)
  }

  /**
   * What the hint eliminates: at most two options, all of them real
   * options, none the right answer and none twice; with four options and
   * the right answer among them, exactly two.
   */
  lemma HintPickProperties(n: nat, correct: int, shuffled: seq<int>)
    requires multiset(shuffled) == multiset(WrongOptions(n, correct))
    ensures var e := HintPick(shuffled);
      && |e| <= 2
      && (forall k :: 0 <= k < |e| ==> 0 <= e[k] < n && e[k] != correct)
      && NoDuplicates(e)
      && (n == 4 && 0 <= correct < 4 ==> |e| == 2)
  {
    var w := WrongOptions(n, correct);
    var e := HintPick(shuffled);
    assert |shuffled| == |w| by {
      assert |multiset(shuffled)| == |multiset(w)|;
    }
    forall k | 0 <= k < |e|
      ensures 0 <= e[k] < n && e[k] != correct
    {
      assert e[k] == shuffled[k];
      assert shuffled[k] in multiset(w);
    }
    IncreasingHasNoDuplicates(w);
    PermutationNoDuplicates(w, shuffled);
  }

  datatype OptionStyle = Eliminated | Hoverable | RightAnswer | WrongPick | Dimmed

  /**
   * getOptionStyle, in its order of priority: eliminated, hoverable before
   * the result shows, the right answer, the wrong pick, everything else.
   */
  function StyleOf(index: int, eliminated: seq<int>, showResult: bool,
                   correct: int, selected: Option<int>): (st: OptionStyle)
    ensures st == Eliminated <==> index in eliminated
    ensures st == Hoverable <==> index !in eliminated && !showResult
    ensures st == RightAnswer <==> index !in eliminated && showResult && index == correct
    ensures st == WrongPick <==> index !in eliminated && showResult && index != correct && selected == Some(index)
  {
    if index in eliminated then Eliminated
    else if !showResult then Hoverable
    else if index == correct then RightAnswer
    else if selected == Some(index) && index != correct then WrongPick
    else Dimmed
  }

  /** The hint button is offered only before an answer and before any elimination. */
  predicate HintOffered(showHint: bool, showResult: bool, eliminated: seq<int>)
  {
    showHint && !showResult && |eliminated| == 0
  }

  /**
   * The hint button is gone once an answer shows, and once a hint has
   * struck out options of a question that has a wrong option: one hint
   * per question at most.
   */
  lemma HintButtonGone(showHint: bool, showResult: bool, n: nat, correct: int, shuffled: seq<int>)
    requires multiset(shuffled) == multiset(WrongOptions(n, correct))
    requires n >= 2
    ensures !HintOffered(showHint, true, [])
    ensures !HintOffered(showHint, showResult, HintPick(shuffled))
  {
    assert |shuffled| == |WrongOptions(n, correct)| by {
      assert |multiset(shuffled)| == |multiset(WrongOptions(n, correct))|;
    }
  }

  class Card {
    var question: Question
    var selectedAnswer: Option<int>
    var showResult: bool
    var eliminatedOptions: seq<int>
    /** How many answers the card accepted for the current question. */
    ghost var accepted: nat

    /** An answer was accepted exactly when the result shows, and at most one per question. */
    ghost predicate Valid()
      reads this
    {
      && (showResult <==> selectedAnswer.Some?)
      && accepted == (if showResult then 1 else 0)
    }

    constructor (question: Question)
      ensures Valid()
      ensures this.question == question && selectedAnswer.None? && !showResult
      ensures eliminatedOptions == [] && accepted == 0
    {
      this.question := question;
      selectedAnswer := None;
      showResult := false;
      eliminatedOptions := [];
      accepted := 0;
    }

    /** A new question prop; a new question id clears the answer and the eliminations. */
    method SetQuestion(q: Question)
      requires Valid()
      modifies this
      ensures Valid()
      ensures question == q
      ensures q.id != old(question.id) ==>
        selectedAnswer.None? && !showResult && eliminatedOptions == [] && accepted == 0
      ensures q.id == old(question.id) ==>
        selectedAnswer == old(selectedAnswer) && showResult == old(showResult) &&
        eliminatedOptions == old(eliminatedOptions) && accepted == old(accepted)
    {
      if q.id != question.id {
        selectedAnswer := None;
        showResult := false;
        eliminatedOptions := [];
        accepted := 0;
      }
      question := q;
    }

    /**
     * A click on option `index`: ignored while disabled, once the result
     * shows or on an eliminated option; otherwise it is locked in and the
     * same index is passed on to `onAnswer`.
     */
    method HandleAnswer(index: int, disabled: bool) returns (forwarded: Option<int>)
      requires Valid()
      modifies this
      ensures Valid()
      ensures question == old(question) && eliminatedOptions == old(eliminatedOptions)
      ensures disabled || old(showResult) || index in old(eliminatedOptions) ==>
        forwarded.None? && selectedAnswer == old(selectedAnswer) && showResult == old(showResult) &&
        accepted == old(accepted)
      ensures !disabled && !old(showResult) && index !in old(eliminatedOptions) ==>
        forwarded == Some(index) && selectedAnswer == Some(index) && showResult
      ensures forwarded.Some? ==> old(accepted) == 0 && accepted == 1
    {
      if disabled || showResult || index in eliminatedOptions {
        return None;
      }
      selectedAnswer := Some(index);
      showResult := true;
      accepted := accepted + 1;
      forwarded := Some(index);
    }

    /**
     * The 50/50 hint: nothing without a hint handler or with no hints left;
     * otherwise the first two of the reordered wrong options are eliminated
     * and the hint handler is called (reported as `used`).
     */
    method HandleUseHint(hasHintHandler: bool, hintsRemaining: int, shuffled: seq<int>)
      returns (used: bool)
      requires Valid()
      requires multiset(shuffled) == multiset(WrongOptions(|question.options|, question.correctAnswer))
      modifies this
      ensures Valid()
      ensures question == old(question) && selectedAnswer == old(selectedAnswer)
      ensures showResult == old(showResult) && accepted == old(accepted)
      ensures used <==> hasHintHandler && hintsRemaining > 0
      ensures used ==> eliminatedOptions == HintPick(shuffled)
      ensures !used ==> eliminatedOptions == old(eliminatedOptions)
    {
      if !hasHintHandler || hintsRemaining <= 0 {
        return false;
      }
      eliminatedOptions := HintPick(shuffled);
      used := true;
    }

    /** The style of option `index` in the card's current state. */
    function Style(index: int): OptionStyle
      reads this
    {
      StyleOf(index, eliminatedOptions, showResult, question.correctAnswer, selectedAnswer)
    }
  }

  /**
   * Once an answer shows, the pick is drawn as the right answer when it
   * is right and as the wrong pick otherwise (unless a hint struck it out
   * afterwards), and the right answer is always drawn as such unless
   * struck out.
   */
  lemma ShownAnswerStyles(eliminated: seq<int>, correct: int, selected: int)
    ensures selected !in eliminated ==>
      StyleOf(selected, eliminated, true, correct, Some(selected)) ==
        (if selected == correct then RightAnswer else WrongPick)
    ensures correct !in eliminated ==>
      StyleOf(correct, eliminated, true, correct, Some(selected)) == RightAnswer
  {
  }

  /** Two clicks on one card: only the first is taken. */
  method OneAnswerPerQuestion(q: Question) returns (first: Option<int>, second: Option<int>)
    ensures first == Some(2) && second.None?
  {
    var card := new Card(q);
    first := card.HandleAnswer(2, false);
    second := card.HandleAnswer(1, false);
  }
}

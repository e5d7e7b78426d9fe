/**
 * Model of the GET handler of src/app/api/questions/route.ts: the
 * optional category and difficulty filters, the Fisher–Yates shuffle of a
 * copy of the matching rows, and the cut to the requested number.
 *
 * The `questions` table is a parameter and the query's filter is
 * `Select`; a failed query is `queryFails`. Each `Math.random()` call of
 * the shuffle is `draw(i)`, the value drawn at the step for index `i`.
 */
module QuestionsRoute {
  import opened Types
  import opened Http
  import Text

  /** A filter parameter applies when it is present and not empty. */
  predicate Given(filter: Option<string>)
  {
    filter.Some? && filter.value != ""
  }

  /** The row passes every filter that was given. */
  predicate Matches(q: Question, category: Option<string>, difficulty: Option<string>)
  {
    && (!Given(category) || CategoryKey(q.category) == category.value)
    && (!Given(difficulty) || DifficultyKey(q.difficulty) == difficulty.value)
  }

  /** The rows the query returns: the table's matching rows, in table order. */
  function Select(table: seq<Question>, category: Option<string>, difficulty: Option<string>): (r: seq<Question>)
    ensures forall q :: q in r <==> q in table && Matches(q, category, difficulty)
    ensures multiset(r) <= multiset(table)
  {
    if table == [] then []
    else
      var rest := Select(table[1..], category, difficulty);
      assert table == [table[0]] + table[1..];
      if Matches(table[0], category, difficulty) then [table[0]] + rest else rest
  }

  /** Without filters every row is returned. */
  lemma SelectAll(table: seq<Question>)
    ensures Select(table, None, None) == table
  {
  }

  /**
   * The `limit` parameter through `parseInt(…, 10)`; an absent or empty parameter
   * falls back to the text "10", which reads as 10. None is NaN.
   */
  function LimitOf(param: Option<string>): (l: Option<int>)
    ensures param.None? || param == Some("") ==> l == Some(10)
  {
    if param.None? || param.value == "" then Some(10) else Text.ParseInt(param.value)
  }

  /** `Math.random()` returns values in [0, 1). */
  ghost predicate Draws(draw: nat -> real)
  {
    forall i :: 0.0 <= draw(i) < 1.0
  }

  /** A draw scaled by a positive count stays in [0, count). */
  lemma ScaleBelow(r: real, n: real)
    requires 0.0 <= r < 1.0 && n >= 1.0
    ensures 0.0 <= r * n < n
  {
    assert n - r * n == (1.0 - r) * n;
    assert (1.0 - r) * n > 0.0;
  }

  /** `Math.floor(r * (i + 1))` for a draw `r`: an index from 0 to `i`. */
  function Pick(r: real, i: nat): (j: int)
    requires 0.0 <= r < 1.0
    ensures 0 <= j <= i
  {
    var n := (i + 1) as real;
    var x := r * n;
    assert 0.0 <= x < n by {
      ScaleBelow(r, n);
    }
    x.Floor
  }

  /** The sequence with the items at `i` and `j` exchanged. */
  function Swap<T>(s: seq<T>, i: int, j: int): (r: seq<T>)
    requires 0 <= i < |s| && 0 <= j < |s|
    ensures |r| == |s|
  {
    s[i := s[j]][j := s[i]]
  }

  lemma SwapPermutes<T>(s: seq<T>, i: int, j: int)
    requires 0 <= i < |s| && 0 <= j < |s|
    ensures multiset(Swap(s, i, j)) == multiset(s)
  {
    if i != j {
      var t := s[i := s[j]];
      assert multiset(t) == multiset(s) - multiset{s[i]} + multiset{s[j]};
      assert multiset(t[j := s[i]]) == multiset(t) - multiset{t[j]} + multiset{s[i]};
    }
  }

  /** The steps of the shuffle for the indices `i` down to 1. */
  function ShuffleDown<T>(s: seq<T>, draw: nat -> real, i: int): (r: seq<T>)
    requires Draws(draw) && i < |s|
    ensures |r| == |s|
    decreases i
  {
    if i <= 0 then s else ShuffleDown(Swap(s, i, Pick(draw(i), i)), draw, i - 1)
  }

  /** The whole shuffle: index |s| − 1 down to 1. */
  function Shuffled<T>(s: seq<T>, draw: nat -> real): (r: seq<T>)
    requires Draws(draw)
    ensures |r| == |s|
  {
    ShuffleDown(s, draw, |s| - 1)
  }

  lemma {:induction false} ShuffleDownPermutes<T>(s: seq<T>, draw: nat -> real, i: int)
    requires Draws(draw) && i < |s|
    ensures multiset(ShuffleDown(s, draw, i)) == multiset(s)
    decreases i
  {
    if i > 0 {
      var t := Swap(s, i, Pick(draw(i), i));
      SwapPermutes(s, i, Pick(draw(i), i));
      ShuffleDownPermutes(t, draw, i - 1);
    }
  }

  /** Whatever the draws, the shuffle is a reordering of its input. */
  lemma ShuffledPermutes<T>(s: seq<T>, draw: nat -> real)
    requires Draws(draw)
    ensures multiset(Shuffled(s, draw)) == multiset(s)
  {
    ShuffleDownPermutes(s, draw, |s| - 1);
  }

  /** The shuffle loop, in place. */
  method FisherYates(a: array<Question>, draw: nat -> real)
    requires Draws(draw)
    modifies a
    ensures a[..] == Shuffled(old(a[..]), draw)
    ensures multiset(a[..]) == multiset(old(a[..]))
  {
    ghost var original := a[..];
    var i := a.Length - 1;
    while i > 0
      invariant -1 <= i < a.Length
      invariant ShuffleDown(a[..], draw, i) == Shuffled(original, draw)
      decreases i
    {
      var j := Pick(draw(i), i);
      ghost var before := a[..];
      a[i], a[j] := a[j], a[i];
      assert a[..] == Swap(before, i, j);
      i := i - 1;
    }
    ShuffledPermutes(original, draw);
  }

  /** A prefix of a reordering of `s` takes nothing that `s` does not hold. */
  lemma ReorderingPrefix<T>(s: seq<T>, t: seq<T>, k: int)
    requires multiset(t) == multiset(s) && 0 <= k <= |t|
    ensures multiset(t[..k]) <= multiset(s)
    ensures forall x :: x in t[..k] ==> x in s
  {
    assert t == t[..k] + t[k..];
    assert multiset(t) == multiset(t[..k]) + multiset(t[k..]);
    forall x | x in t[..k]
      ensures x in s
    {
      assert x in multiset(t);
    }
  }

  /** A prefix of the shuffled selection holds only matching rows of the table. */
  lemma ShuffledPrefix(table: seq<Question>, category: Option<string>, difficulty: Option<string>,
                       draw: nat -> real, k: int)
    requires Draws(draw) && 0 <= k <= |Select(table, category, difficulty)|
    ensures var data := Select(table, category, difficulty);
      var prefix := Shuffled(data, draw)[..k];
      multiset(prefix) <= multiset(table) && forall q :: q in prefix ==> Matches(q, category, difficulty)
  {
    var data := Select(table, category, difficulty);
    ShuffledPermutes(data, draw);
    ReorderingPrefix(data, Shuffled(data, draw), k);
  }

  /**
   * The GET handler: 500 when the query fails, 404 when nothing matches,
   * otherwise the first min(limit, n) questions of a shuffled copy.
   */
  method GetQuestions(table: seq<Question>, queryFails: bool,
                      category: Option<string>, difficulty: Option<string>,
                      limitParam: Option<string>, draw: nat -> real)
    returns (resp: Response<seq<Question>>)
    requires Draws(draw)
    ensures queryFails ==> resp == Error(ServerError, "Erro ao buscar perguntas")
    ensures !queryFails && Select(table, category, difficulty) == [] ==>
      resp == Error(NotFound, "Nenhuma pergunta encontrada")
    ensures !queryFails && Select(table, category, difficulty) != [] ==>
      var data := Select(table, category, difficulty);
      resp.Ok? && resp.body == Shuffled(data, draw)[..SliceEnd(|data|, LimitOf(limitParam))]
    ensures resp.Ok? ==>
      multiset(resp.body) <= multiset(table) &&
      forall q :: q in resp.body ==> Matches(q, category, difficulty)
  {
    if queryFails {
      return Error(ServerError, "Erro ao buscar perguntas");
    }
    var data := Select(table, category, difficulty);
    if |data| == 0 {
      return Error(NotFound, "Nenhuma pergunta encontrada");
    }
    var shuffled := new Question[|data|](i requires 0 <= i < |data| => data[i]);
    assert shuffled[..] == data;
    FisherYates(shuffled, draw);
    var k := SliceEnd(shuffled.Length, LimitOf(limitParam));
    var questions := shuffled[..k];
    ShuffledPrefix(table, category, difficulty, draw, k);
    return Ok(questions);
  }
}

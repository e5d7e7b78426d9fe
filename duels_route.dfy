/**
 * Model of src/app/api/duels/route.ts: POST creates a pending duel over
 * `questionCount` question ids drawn from the (optionally filtered)
 * `questions` table; GET reads a duel back by id.
 *
 * The id query is `FetchIds`: the matching ids in table order, at most
 * `questionCount` of them. The random-comparator sort that reorders them
 * is an oracle: `shuffled`, any reordering of the fetched ids. The
 * database's new duel id is `newId` and its clock `now`.
 */
module DuelsRoute {
  import opened Types
  import opened Http

  /** `{ questionCount = 10 } = body`: only an absent count takes the default. */
  function CountOf(questionCount: Option<int>): (n: int)
    ensures questionCount.None? ==> n == 10
    ensures questionCount.Some? ==> n == questionCount.value
  {
    if questionCount.None? then 10 else questionCount.value
  }

  /** The category filter applies when the value is truthy and not "all". */
  predicate FiltersCategory(category: Option<string>)
  {
    category.Some? && category.value != "" && category.value != "all"
  }

  /** The ids of the rows passing the category filter, in table order. */
  function Pool(table: seq<Question>, category: Option<string>): (ids: seq<string>)
    ensures |ids| <= |table|
    ensures forall id :: id in ids <==>
      exists q :: q in table && q.id == id && (!FiltersCategory(category) || CategoryKey(q.category) == category.value)
  {
    if table == [] then []
    else
      assert table == [table[0]] + table[1..];
      var q := table[0];
      (if !FiltersCategory(category) || CategoryKey(q.category) == category.value then [q.id] else [])
        + Pool(table[1..], category)
  }

  /**
   * `.select("id").limit(questionCount)`: the first `count` pool ids. A
   * negative limit is treated as a failed query.
   */
  function FetchIds(table: seq<Question>, category: Option<string>, count: int): (r: Option<seq<string>>)
    ensures count < 0 <==> r.None?
    ensures r.Some? ==> r.value == Pool(table, category)[..if |Pool(table, category)| < count then |Pool(table, category)| else count]
  {
    if count < 0 then None
    else
      var pool := Pool(table, category);
      Some(pool[..if |pool| < count then |pool| else count])
  }

  /** No value occurs twice. */
  predicate Distinct(s: seq<string>)
  {
    forall i, j :: 0 <= i < j < |s| ==> s[i] != s[j]
  }

  predicate DistinctQuestionIds(table: seq<Question>)
  {
    forall i, j :: 0 <= i < j < |table| ==> table[i].id != table[j].id
  }

  lemma {:induction false} PoolDistinct(table: seq<Question>, category: Option<string>)
    requires DistinctQuestionIds(table)
    ensures Distinct(Pool(table, category))
  {
    if table != [] {
      var tail := table[1..];
      assert DistinctQuestionIds(tail);
      PoolDistinct(tail, category);
      var rest := Pool(tail, category);
      forall k | 0 <= k < |rest|
        ensures rest[k] != table[0].id
      {
        assert rest[k] in rest;
      }
    }
  }

  lemma {:induction false} DistinctCounts(s: seq<string>)
    requires Distinct(s)
    ensures forall x :: multiset(s)[x] <= 1
  {
    if s != [] {
      assert s == [s[0]] + s[1..];
      assert Distinct(s[1..]);
      DistinctCounts(s[1..]);
      assert s[0] !in multiset(s[1..]);
    }
  }

  lemma RepeatCounts(s: seq<string>, i: int, j: int)
    requires 0 <= i < j < |s| && s[i] == s[j]
    ensures multiset(s)[s[i]] >= 2
  {
    assert s == s[..j] + [s[j]] + s[j + 1..];
    assert s[..j][i] == s[i];
    assert s[i] in multiset(s[..j]);
  }

  /** A reordering of distinct values is distinct. */
  lemma ReorderDistinct(s: seq<string>, t: seq<string>)
    requires Distinct(s) && multiset(t) == multiset(s)
    ensures Distinct(t)
  {
    DistinctCounts(s);
    forall i, j | 0 <= i < j < |t|
      ensures t[i] != t[j]
    {
      if t[i] == t[j] {
        RepeatCounts(t, i, j);
        assert false;
      }
    }
  }

  /**
   * When the pool holds at least `count` ids, a reordering of the fetched
   * ids has exactly `count` ids, all from the pool, and none twice when
   * the table's ids are unique.
   */
  lemma SelectionProperties(table: seq<Question>, category: Option<string>, count: int, shuffled: seq<string>)
    requires FetchIds(table, category, count).Some?
    requires multiset(shuffled) == multiset(FetchIds(table, category, count).value)
    requires |Pool(table, category)| >= count
    ensures |shuffled| == count
    ensures forall id :: id in shuffled ==> id in Pool(table, category)
    ensures DistinctQuestionIds(table) ==> Distinct(shuffled)
  {
    var pool := Pool(table, category);
    var fetched := FetchIds(table, category, count).value;
    assert |shuffled| == |multiset(shuffled)| == |fetched|;
    forall id | id in shuffled
      ensures id in pool
    {
      assert id in multiset(fetched);
      assert fetched == pool[..count];
    }
    if DistinctQuestionIds(table) {
      PoolDistinct(table, category);
      assert Distinct(fetched);
      ReorderDistinct(fetched, shuffled);
    }
  }

  /** The body of a successful POST. */
  datatype Created = Created(id: string, shareUrl: string)

  /** The row POST inserts: pending, no opponent, no scores. */
  function NewDuel(id: string, challenger: string, questionIds: seq<string>, now: int): (d: Duel)
    ensures d.status == Pending && d.opponentId.None?
    ensures d.challengerScore.None? && d.opponentScore.None? && d.completedAt.None?
    ensures d.id == id && d.challengerId == challenger && d.questionIds == questionIds
  {
    Duel(id, challenger, None, questionIds, None, None, Pending, now, None)
  }

  class DuelStore {
    var duels: seq<Duel>

    /** Duel ids are unique. */
    predicate Valid()
      reads this
    {
      forall i, j :: 0 <= i < j < |duels| ==> duels[i].id != duels[j].id
    }

    constructor ()
      ensures duels == [] && Valid()
    {
      duels := [];
    }

    /** The stored duels with that id. */
    static function WithId(ds: seq<Duel>, id: string): (r: seq<Duel>)
      ensures forall d :: d in r <==> d in ds && d.id == id
      ensures (forall d :: d in ds ==> d.id != id) ==> r == []
    {
      if ds == [] then []
      else (if ds[0].id == id then [ds[0]] else []) + WithId(ds[1..], id)
    }

    /**
     * GET: 400 without an id, 404 unless exactly one duel has it
     * (`.single()`), otherwise that duel.
     */
    function Get(id: Option<string>): (resp: Response<Duel>)
      reads this
      ensures id.None? || id == Some("") ==> resp == Error(BadRequest, "ID do duelo não fornecido")
      ensures resp.Ok? ==> id.Some? && resp.body in duels && resp.body.id == id.value
      ensures id.Some? && id.value != "" && (forall d :: d in duels ==> d.id != id.value) ==>
        resp == Error(NotFound, "Duelo não encontrado")
    {
      if id.None? || id.value == "" then Error(BadRequest, "ID do duelo não fornecido")
      else
        var found := WithId(duels, id.value);
        if |found| == 1 then
          assert found[0] in found;
          Ok(found[0])
        else Error(NotFound, "Duelo não encontrado")
    }

    /** With unique ids, GET finds every stored duel. */
    lemma GetFindsStored(k: int)
      requires Valid() && 0 <= k < |duels| && duels[k].id != ""
      ensures Get(Some(duels[k].id)) == Ok(duels[k])
    {
      var found := WithId(duels, duels[k].id);
      WithIdUnique(duels, k);
    }

    static lemma {:induction false} WithIdUnique(ds: seq<Duel>, k: int)
      requires forall i, j :: 0 <= i < j < |ds| ==> ds[i].id != ds[j].id
      requires 0 <= k < |ds|
      ensures WithId(ds, ds[k].id) == [ds[k]]
    {
      var tail := ds[1..];
      if k == 0 {
        var rest := WithId(tail, ds[0].id);
        assert forall d :: d in tail ==> d.id != ds[0].id;
      } else {
        WithIdUnique(tail, k - 1);
        assert tail[k - 1] == ds[k];
      }
    }

    /**
     * POST: 401 without a user; 400 with nothing inserted when the query
     * fails or yields fewer than `questionCount` ids; 500 when the insert
     * fails; otherwise one pending duel over the reordered ids is
     * appended and its id and share path are returned.
     */
    method Create(caller: Option<string>, category: Option<string>, questionCount: Option<int>,
                  table: seq<Question>, queryFails: bool, shuffled: seq<string>,
                  newId: string, now: int, insertFails: bool)
      returns (resp: Response<Created>)
      requires Valid()
      requires newId != "" && forall d :: d in duels ==> d.id != newId
      requires FetchIds(table, category, CountOf(questionCount)).Some? ==>
        multiset(shuffled) == multiset(FetchIds(table, category, CountOf(questionCount)).value)
      modifies this
      ensures Valid()
      ensures caller.None? ==> resp == Error(Unauthorized, "Não autenticado")
      ensures caller.Some? && (queryFails || CountOf(questionCount) < 0 ||
                               |Pool(table, category)| < CountOf(questionCount)) ==>
        resp == Error(BadRequest, "Não foi possível carregar perguntas suficientes")
      ensures resp.Error? ==> duels == old(duels)
      ensures resp.Ok? ==>
        caller.Some? && !insertFails &&
        resp.body == Created(newId, "/duelo/" + newId) &&
        duels == old(duels) + [NewDuel(newId, caller.value, shuffled, now)] &&
        |shuffled| == CountOf(questionCount) &&
        Get(Some(newId)) == Ok(NewDuel(newId, caller.value, shuffled, now))
      ensures caller.Some? && !queryFails && !insertFails && 0 <= CountOf(questionCount) <= |Pool(table, category)| ==>
        resp.Ok?
    {
      if caller.None? {
        return Error(Unauthorized, "Não autenticado");
      }
      var count := CountOf(questionCount);
      var fetched := FetchIds(table, category, count);
      if queryFails || fetched.None? || |fetched.value| < count {
        return Error(BadRequest, "Não foi possível carregar perguntas suficientes");
      }
      assert |shuffled| == |multiset(shuffled)| == |fetched.value| == count;
      var questionIds := shuffled[..count];
      assert questionIds == shuffled;
      if insertFails {
        return Error(ServerError, "Erro ao criar duelo");
      }
      var duel := NewDuel(newId, caller.value, questionIds, now);
      duels := duels + [duel];
      GetFindsStored(|duels| - 1);
      resp := Ok(Created(newId, "/duelo/" + newId));
    }
  }
}

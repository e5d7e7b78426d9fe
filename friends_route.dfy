/**
 * Model of src/app/api/friends/route.ts: the `friendships` table and the
 * three handlers over it. GET lists the other party of each accepted
 * friendship of the caller; POST adds a friend by id or by e-mail,
 * accepting a pending request or inserting an accepted row; DELETE
 * removes a friendship the caller is part of.
 *
 * The signed-in user is `caller` (None when there is none or the auth
 * call fails), the `profiles` rows are the accounts searched by e-mail,
 * the database's fresh row id is `newId`, and a failing write is a flag.
 */
module FriendsRoute {
  import opened Types
  import opened Http
  import Text

  datatype Friendship = Friendship(id: string, userId: string, friendId: string, status: string)

  /** A `profiles` row as the e-mail search sees it. */
  datatype Account = Account(id: string, email: string)

  /** One entry of GET's list: the friendship and the friend's id. */
  datatype FriendEntry = FriendEntry(friendshipId: string, friendId: string)

  datatype PostReply = PostReply(message: string, status: string)

  /** A JSON field that is present and not the empty string. */
  predicate Truthy(v: Option<string>)
  {
    v.Some? && v.value != ""
  }

  predicate Involves(f: Friendship, u: string)
  {
    f.userId == u || f.friendId == u
  }

  /** The row links `a` and `b`, in either direction. */
  predicate Between(f: Friendship, a: string, b: string)
  {
    (f.userId == a && f.friendId == b) || (f.userId == b && f.friendId == a)
  }

  /** `f.user_id === user.id ? f.friend : f.user`. */
  function OtherParty(f: Friendship, u: string): string
  {
    if f.userId == u then f.friendId else f.userId
  }

  predicate IsAccepted(f: Friendship)
  {
    f.status == "accepted"
  }

  // ---------------------------------------------------------------------
  // GET
  // ---------------------------------------------------------------------

  /** The accepted friendships `u` is part of, in table order. */
  function AcceptedOf(rows: seq<Friendship>, u: string): (r: seq<Friendship>)
    ensures forall f :: f in r <==> f in rows && IsAccepted(f) && Involves(f, u)
  {
    if rows == [] then []
    else (if IsAccepted(rows[0]) && Involves(rows[0], u) then [rows[0]] else []) + AcceptedOf(rows[1..], u)
  }

  /** Each friendship as the entry of `u`'s list. */
  function EntriesFor(fs: seq<Friendship>, u: string): (r: seq<FriendEntry>)
    ensures |r| == |fs|
    ensures forall k :: 0 <= k < |fs| ==> r[k] == FriendEntry(fs[k].id, OtherParty(fs[k], u))
    ensures forall f :: f in fs ==> FriendEntry(f.id, OtherParty(f, u)) in r
  {
    if fs == [] then [] else [FriendEntry(fs[0].id, OtherParty(fs[0], u))] + EntriesFor(fs[1..], u)
  }

  /** The accepted friendships of `u`, each as the other party, in table order. */
  function FriendsOf(rows: seq<Friendship>, u: string): (r: seq<FriendEntry>)
    ensures forall f :: f in rows && IsAccepted(f) && Involves(f, u) ==>
      FriendEntry(f.id, OtherParty(f, u)) in r
    ensures forall k :: 0 <= k < |r| ==>
      exists f :: f in rows && IsAccepted(f) && Involves(f, u) && r[k] == FriendEntry(f.id, OtherParty(f, u))
  {
    var acc := AcceptedOf(rows, u);
    assert forall k :: 0 <= k < |acc| ==> acc[k] in acc;
    EntriesFor(acc, u)
  }

  /** The two users are friends: an accepted row links them. */
  predicate AreFriends(rows: seq<Friendship>, a: string, b: string)
  {
    exists f :: f in rows && IsAccepted(f) && Between(f, a, b)
  }

  /** Friends see each other in their GET lists. */
  lemma FriendsListEachOther(rows: seq<Friendship>, a: string, b: string)
    requires AreFriends(rows, a, b)
    ensures exists e :: e in FriendsOf(rows, a) && e.friendId == b
    ensures exists e :: e in FriendsOf(rows, b) && e.friendId == a
  {
    var f :| f in rows && IsAccepted(f) && Between(f, a, b);
    assert FriendEntry(f.id, OtherParty(f, a)) in FriendsOf(rows, a);
    assert FriendEntry(f.id, OtherParty(f, b)) in FriendsOf(rows, b);
  }

  // ---------------------------------------------------------------------
  // POST
  // ---------------------------------------------------------------------

  /** The indices of the rows linking `a` and `b`, in increasing order. */
  function PairRows(rows: seq<Friendship>, a: string, b: string): (r: seq<nat>)
    ensures forall k :: 0 <= k < |r| ==> r[k] < |rows| && Between(rows[r[k]], a, b)
    ensures forall i :: 0 <= i < |rows| && Between(rows[i], a, b) ==> i in r
    ensures forall k, l :: 0 <= k < l < |r| ==> r[k] < r[l]
    decreases |rows|
  {
    if rows == [] then []
    else
      var init := PairRows(rows[..|rows| - 1], a, b);
      if Between(rows[|rows| - 1], a, b) then init + [|rows| - 1] else init
  }

  /** The profiles whose e-mail is exactly `email`. */
  function WithEmail(accounts: seq<Account>, email: string): (r: seq<Account>)
    ensures forall x :: x in r <==> x in accounts && x.email == email
  {
    if accounts == [] then []
    else (if accounts[0].email == email then [accounts[0]] else []) + WithEmail(accounts[1..], email)
  }

  /** The target id: the `friend_id` field, unless only an e-mail is given (None: no such user). */
  function ResolveTarget(accounts: seq<Account>, email: Option<string>, friendId: Option<string>): (t: Option<Option<string>>)
    ensures Truthy(friendId) ==> t == Some(friendId)
    ensures !Truthy(email) ==> t == Some(friendId)
    ensures Truthy(email) && !Truthy(friendId) && t.Some? ==>
      t.value.Some? && exists x :: x in accounts && x.email == Text.Lower(email.value) && x.id == t.value.value
  {
    if Truthy(email) && !Truthy(friendId) then
      var found := WithEmail(accounts, Text.Lower(email.value));
      if |found| == 1 then
        assert found[0] in found;
        Some(Some(found[0].id))
      else None
    else Some(friendId)
  }

  /** What POST does to the table, or the error it replies with. */
  datatype Decision = Reject(status: int, message: string) | AcceptRow(index: nat) | InsertRow(target: string)

  /**
   * The decision of POST once the target is resolved: no such e-mail is
   * 404; no target, oneself or an existing accepted friendship is 400; a
   * single existing row that is not accepted is accepted; anything else
   * (no row, or more than one) inserts a new row.
   */
  function DecideFor(rows: seq<Friendship>, caller: string, target: Option<Option<string>>): (d: Decision)
    ensures d.AcceptRow? ==>
      d.index < |rows| && !IsAccepted(rows[d.index]) &&
      target.Some? && target.value.Some? && PairRows(rows, caller, target.value.value) == [d.index]
    ensures d.InsertRow? ==>
      target == Some(Some(d.target)) && d.target != "" && d.target != caller &&
      |PairRows(rows, caller, d.target)| != 1
    ensures d.Reject? ==> d.status == NotFound || d.status == BadRequest
  {
    match target
    case None => Reject(NotFound, "Usuário não encontrado com esse email")
    case Some(t) =>
      if !Truthy(t) then Reject(BadRequest, "Email ou ID do amigo é obrigatório")
      else if t.value == caller then Reject(BadRequest, "Você não pode adicionar a si mesmo")
      else
        var pair := PairRows(rows, caller, t.value);
        if |pair| == 1 then
          if IsAccepted(rows[pair[0]]) then Reject(BadRequest, "Vocês já são amigos")
          else AcceptRow(pair[0])
        else InsertRow(t.value)
  }

  /** The decision of POST. */
  function Decide(rows: seq<Friendship>, accounts: seq<Account>, caller: string,
                  email: Option<string>, friendId: Option<string>): Decision
  {
    DecideFor(rows, caller, ResolveTarget(accounts, email, friendId))
  }

  /** Two rows for the same pair of users, in either direction. */
  predicate SamePair(f: Friendship, g: Friendship)
  {
    Between(g, f.userId, f.friendId)
  }

  /** The table's invariant: distinct ids, and at most one row per pair of users. */
  predicate WellFormed(rows: seq<Friendship>)
  {
    forall i, j :: 0 <= i < j < |rows| ==> rows[i].id != rows[j].id && !SamePair(rows[i], rows[j])
  }

  /** In a well-formed table a pair of users has at most one row. */
  lemma AtMostOneRowPerPair(rows: seq<Friendship>, a: string, b: string)
    requires WellFormed(rows)
    ensures |PairRows(rows, a, b)| <= 1
  {
    var p := PairRows(rows, a, b);
    if |p| > 1 {
      assert SamePair(rows[p[0]], rows[p[1]]);
    }
  }

  /** The row POST inserts. */
  function NewRow(id: string, caller: string, target: string): Friendship
  {
    Friendship(id, caller, target, "accepted")
  }

  lemma PairRowsSnoc(rows: seq<Friendship>, g: Friendship, a: string, b: string)
    ensures PairRows(rows + [g], a, b) == PairRows(rows, a, b) + (if Between(g, a, b) then [|rows|] else [])
  {
    assert (rows + [g])[..|rows|] == rows;
  }

  lemma AppendWellFormed(rows: seq<Friendship>, g: Friendship)
    requires WellFormed(rows)
    requires forall f :: f in rows ==> f.id != g.id && !SamePair(f, g)
    ensures WellFormed(rows + [g])
  {
    var rows' := rows + [g];
    forall i, j | 0 <= i < j < |rows'|
      ensures rows'[i].id != rows'[j].id && !SamePair(rows'[i], rows'[j])
    {
      if j == |rows| {
        assert rows'[i] in rows;
      }
    }
  }

  /**
   * An insert keeps the table well formed, and adding the same friend
   * again right after is refused as already friends.
   */
  lemma InsertThenAlreadyFriends(rows: seq<Friendship>, caller: string, target: Option<Option<string>>, newId: string)
    requires WellFormed(rows) && forall f :: f in rows ==> f.id != newId
    requires DecideFor(rows, caller, target).InsertRow?
    ensures var t := DecideFor(rows, caller, target).target;
      && WellFormed(rows + [NewRow(newId, caller, t)])
      && DecideFor(rows + [NewRow(newId, caller, t)], caller, target) == Reject(BadRequest, "Vocês já são amigos")
  {
    var t := DecideFor(rows, caller, target).target;
    var g := NewRow(newId, caller, t);
    AtMostOneRowPerPair(rows, caller, t);
    assert PairRows(rows, caller, t) == [];
    forall f | f in rows
      ensures !SamePair(f, g)
    {
      var i :| 0 <= i < |rows| && rows[i] == f;
      assert i !in PairRows(rows, caller, t);
    }
    AppendWellFormed(rows, g);
    PairRowsSnoc(rows, g, caller, t);
  }

  /**
   * Accepting keeps the table well formed, and adding the same friend
   * again right after is refused as already friends.
   */
  lemma AcceptThenAlreadyFriends(rows: seq<Friendship>, caller: string, target: Option<Option<string>>)
    requires WellFormed(rows)
    requires DecideFor(rows, caller, target).AcceptRow?
    ensures var i := DecideFor(rows, caller, target).index;
      && WellFormed(rows[i := rows[i].(status := "accepted")])
      && DecideFor(rows[i := rows[i].(status := "accepted")], caller, target) == Reject(BadRequest, "Vocês já são amigos")
  {
    var i := DecideFor(rows, caller, target).index;
    var rows' := rows[i := rows[i].(status := "accepted")];
    SamePairRowsAgree(rows, rows', caller, target.value.value);
  }

  /** Changing only statuses keeps the rows of every pair. */
  lemma SamePairRowsAgree(rows: seq<Friendship>, rows': seq<Friendship>, a: string, b: string)
    requires |rows| == |rows'|
    requires forall k :: 0 <= k < |rows| ==>
      rows'[k].id == rows[k].id && rows'[k].userId == rows[k].userId && rows'[k].friendId == rows[k].friendId
    ensures PairRows(rows', a, b) == PairRows(rows, a, b)
    decreases |rows|
  {
    if rows != [] {
      SamePairRowsAgree(rows[..|rows| - 1], rows'[..|rows| - 1], a, b);
    }
  }

  // ---------------------------------------------------------------------
  // DELETE
  // ---------------------------------------------------------------------

  /** The rows DELETE keeps: all but those with the id that the caller is part of. */
  function Remaining(rows: seq<Friendship>, id: string, caller: string): (r: seq<Friendship>)
    ensures forall f :: f in r <==> f in rows && !(f.id == id && Involves(f, caller))
    ensures |r| <= |rows|
  {
    if rows == [] then []
    else
      var f := rows[0];
      (if f.id == id && Involves(f, caller) then [] else [f]) + Remaining(rows[1..], id, caller)
  }

  /** Removing rows keeps the table well formed. */
  lemma {:induction false} RemainingWellFormed(rows: seq<Friendship>, id: string, caller: string)
    requires WellFormed(rows)
    ensures WellFormed(Remaining(rows, id, caller))
  {
    if rows != [] {
      var tail := rows[1..];
      assert WellFormed(tail);
      RemainingWellFormed(tail, id, caller);
      var rest := Remaining(tail, id, caller);
      forall g | g in rest
        ensures rows[0].id != g.id && !SamePair(rows[0], g)
      {
        var k :| 0 <= k < |tail| && tail[k] == g;
        assert rows[k + 1] == g;
      }
    }
  }

  // ---------------------------------------------------------------------
  // The table
  // ---------------------------------------------------------------------

  class FriendsStore {
    var friendships: seq<Friendship>
    var accounts: seq<Account>

    ghost predicate Valid()
      reads this
    {
      WellFormed(friendships)
    }

    constructor (accounts: seq<Account>)
      ensures Valid() && friendships == [] && this.accounts == accounts
    {
      friendships := [];
      this.accounts := accounts;
    }

    /** GET: 401 without a user, 500 when the query fails, otherwise the friends list. */
    function Get(caller: Option<string>, queryFails: bool): (resp: Response<seq<FriendEntry>>)
      reads this
      ensures caller.None? ==> resp == Error(Unauthorized, "Não autenticado")
      ensures caller.Some? && queryFails ==> resp == Error(ServerError, "Erro ao buscar amigos")
      ensures caller.Some? && !queryFails ==> resp.Ok?
      ensures caller.Some? && !queryFails ==>
        forall f :: f in friendships && IsAccepted(f) && Involves(f, caller.value) ==>
          FriendEntry(f.id, OtherParty(f, caller.value)) in resp.body
      ensures resp.Ok? ==> caller.Some?
      ensures resp.Ok? ==> forall e :: e in resp.body ==>
        exists f :: f in friendships && IsAccepted(f) && Involves(f, caller.value) &&
          e == FriendEntry(f.id, OtherParty(f, caller.value))
    {
      if caller.None? then Error(Unauthorized, "Não autenticado")
      else if queryFails then Error(ServerError, "Erro ao buscar amigos")
      else Ok(FriendsOf(friendships, caller.value))
    }

    /**
     * POST: applies `Decide`. An accepted row or an inserted one makes the
     * caller and the target friends; a rejection or a failed write leaves
     * the table as it was.
     */
    method Post(caller: Option<string>, email: Option<string>, friendId: Option<string>,
                newId: string, updateFails: bool, insertFails: bool)
      returns (resp: Response<PostReply>)
      requires Valid()
      requires forall f :: f in friendships ==> f.id != newId
      modifies this
      ensures Valid() && accounts == old(accounts)
      ensures caller.None? ==> resp == Error(Unauthorized, "Não autenticado") && friendships == old(friendships)
      ensures caller.Some? ==>
        match Decide(old(friendships), accounts, caller.value, email, friendId)
        case Reject(status, message) =>
          resp == Error(status, message) && friendships == old(friendships)
        case AcceptRow(i) =>
          if updateFails then
            resp == Error(ServerError, "Erro ao aceitar solicitação") && friendships == old(friendships)
          else
            resp == Ok(PostReply("Amizade aceita!", "accepted")) &&
            friendships == old(friendships)[i := old(friendships)[i].(status := "accepted")]
        case InsertRow(t) =>
          if insertFails then
            resp == Error(ServerError, "Erro ao adicionar amigo") && friendships == old(friendships)
          else
            resp == Ok(PostReply("Amigo adicionado!", "accepted")) &&
            friendships == old(friendships) + [NewRow(newId, caller.value, t)]
    {
      if caller.None? {
        return Error(Unauthorized, "Não autenticado");
      }
      var target := ResolveTarget(accounts, email, friendId);
      var d := DecideFor(friendships, caller.value, target);
      match d
      case Reject(status, message) =>
        resp := Error(status, message);
      case AcceptRow(i) =>
        if updateFails {
          return Error(ServerError, "Erro ao aceitar solicitação");
        }
        AcceptThenAlreadyFriends(friendships, caller.value, target);
        friendships := friendships[i := friendships[i].(status := "accepted")];
        resp := Ok(PostReply("Amizade aceita!", "accepted"));
      case InsertRow(t) =>
        if insertFails {
          return Error(ServerError, "Erro ao adicionar amigo");
        }
        InsertThenAlreadyFriends(friendships, caller.value, target, newId);
        friendships := friendships + [NewRow(newId, caller.value, t)];
        resp := Ok(PostReply("Amigo adicionado!", "accepted"));
    }

    /**
     * DELETE: 401 without a user, 400 without an id, 500 when the delete
     * fails; otherwise only the row with that id, and only if the caller
     * is part of it, is removed.
     */
    method Delete(caller: Option<string>, id: Option<string>, deleteFails: bool)
      returns (resp: Response<string>)
      requires Valid()
      modifies this
      ensures Valid() && accounts == old(accounts)
      ensures caller.None? ==> resp == Error(Unauthorized, "Não autenticado")
      ensures caller.Some? && !Truthy(id) ==> resp == Error(BadRequest, "ID da amizade obrigatório")
      ensures caller.Some? && Truthy(id) && deleteFails ==> resp == Error(ServerError, "Erro ao remover amigo")
      ensures resp.Error? ==> friendships == old(friendships)
      ensures resp.Ok? ==>
        (caller.Some? && Truthy(id) && resp.body == "Amigo removido" &&
         friendships == Remaining(old(friendships), id.value, caller.value))
      ensures caller.Some? && Truthy(id) && !deleteFails ==> resp.Ok?
    {
      if caller.None? {
        return Error(Unauthorized, "Não autenticado");
      }
      if !Truthy(id) {
        return Error(BadRequest, "ID da amizade obrigatório");
      }
      if deleteFails {
        return Error(ServerError, "Erro ao remover amigo");
      }
      RemainingWellFormed(friendships, id.value, caller.value);
      friendships := Remaining(friendships, id.value, caller.value);
      resp := Ok("Amigo removido");
    }
  }

  /** A delete by someone who is not part of a row never removes that row. */
  lemma DeleteSparesOthers(rows: seq<Friendship>, id: string, caller: string, f: Friendship)
    requires f in rows && !Involves(f, caller)
    ensures f in Remaining(rows, id, caller)
  {
  }

  /**
   * A successful add leaves the caller and the target friends, each in
   * the other's GET list.
   */
  lemma AddedAreFriends(rows: seq<Friendship>, caller: string, target: Option<Option<string>>, newId: string)
    ensures var d := DecideFor(rows, caller, target);
      && (d.InsertRow? ==> AreFriends(rows + [NewRow(newId, caller, d.target)], caller, d.target))
      && (d.AcceptRow? ==>
            AreFriends(rows[d.index := rows[d.index].(status := "accepted")], caller, target.value.value))
  {
    var d := DecideFor(rows, caller, target);
    if d.InsertRow? {
      var rows' := rows + [NewRow(newId, caller, d.target)];
      assert rows'[|rows|] in rows';
    }
    if d.AcceptRow? {
      var rows' := rows[d.index := rows[d.index].(status := "accepted")];
      assert rows'[d.index] in rows';
    }
  }
}

/**
 * Model of scripts/seed-questions.ts: the JSON questions are normalised
 * (category, difficulty, correct answer, text fallback, UUID filter),
 * split into rows with and without an id, and written in batches of 50,
 * counting the rows of the batches that succeed and of those that fail.
 *
 * The database calls are an oracle: `failure(i)` is the error message of
 * the batch starting at index `i`, or None when that call succeeds.
 */
module Seed {
  import opened Types
  import Text

  // ---------------------------------------------------------------------
  // Normalisers
  // ---------------------------------------------------------------------

  /** `.replace(/\s+/g, "")`: every white-space character removed, order kept. */
  function RemoveWhitespace(s: string): (r: string)
    ensures |r| <= |s|
    ensures forall i :: 0 <= i < |r| ==> !Text.IsWhitespace(r[i])
    ensures forall c :: c in r <==> c in s && !Text.IsWhitespace(c)
  {
    if s == [] then []
    else
      assert s == [s[0]] + s[1..];
      (if Text.IsWhitespace(s[0]) then [] else [s[0]]) + RemoveWhitespace(s[1..])
  }

  /** A string without white space is left as it is. */
  lemma {:induction false} RemoveWhitespaceKeeps(s: string)
    requires forall i :: 0 <= i < |s| ==> !Text.IsWhitespace(s[i])
    ensures RemoveWhitespace(s) == s
  {
    if s != [] {
      RemoveWhitespaceKeeps(s[1..]);
    }
  }

  /** No white space and no upper-case ASCII letter: what the normalisers produce. */
  predicate IsFolded(s: string)
  {
    forall i :: 0 <= i < |s| ==> !Text.IsWhitespace(s[i]) && !('A' <= s[i] <= 'Z')
  }

  /** `categoryMap`: the six keys the table lists, each naming a stored category. */
  function CategoryMap(category: string): Option<Category>
  {
    if category == "artilheiros" then Some(Artilheiros)
    else if category == "finais" then Some(Finais)
    else if category == "selecoes" then Some(Selecoes)
    else if category == "curiosidades" then Some(Curiosidades)
    else if category == "copa2026" then Some(Copa2026)
    else if category == "Copa 2026" then Some(Copa2026)
    else None
  }

  /** The stored category keys are folded. */
  lemma KeyFolded(c: Category)
    ensures IsFolded(CategoryKey(c))
  {
  }

  /** A listed key that is already folded is the stored key it maps to. */
  lemma CategoryMapFixed(category: string)
    requires CategoryMap(category).Some?
    ensures IsFolded(CategoryKey(CategoryMap(category).value))
    ensures IsFolded(category) ==> CategoryKey(CategoryMap(category).value) == category
  {
    KeyFolded(CategoryMap(category).value);
    if category == "Copa 2026" {
      assert !IsFolded(category) by {
        assert category[0] == 'C';
      }
    }
  }

  /** Lower-casing and removing white space yields a folded string. */
  lemma FoldedOfLowerStripped(s: string)
    ensures IsFolded(RemoveWhitespace(Text.Lower(s)))
  {
    var r := RemoveWhitespace(Text.Lower(s));
    forall i | 0 <= i < |r|
      ensures !('A' <= r[i] <= 'Z')
    {
      assert r[i] in Text.Lower(s);
      Text.LowerIdempotent(s);
    }
  }

  /**
   * normalizeCategory: a listed key maps through the table ("Copa 2026"
   * to "copa2026"); anything else is lower-cased with its white space
   * removed. The result is always folded, and a folded input is its own
   * normal form.
   */
  function NormalizeCategory(category: string): (r: string)
    ensures category == "Copa 2026" ==> r == "copa2026"
    ensures CategoryMap(category).None? ==> r == RemoveWhitespace(Text.Lower(category))
    ensures IsFolded(r)
    ensures IsFolded(category) ==> r == category
  {
    if CategoryMap(category).Some? then
      CategoryMapFixed(category);
      CategoryKey(CategoryMap(category).value)
    else
      FoldedOfLowerStripped(category);
      FoldedIsFixed(category);
      RemoveWhitespace(Text.Lower(category))
  }

  /** Lower-casing and removing white space leave a folded string as it is. */
  lemma FoldedIsFixed(s: string)
    ensures IsFolded(s) ==> RemoveWhitespace(Text.Lower(s)) == s
  {
    if IsFolded(s) {
      assert Text.Lower(s) == s;
      RemoveWhitespaceKeeps(s);
    }
  }

  /** Normalising a category twice gives what normalising once gives. */
  lemma NormalizeCategoryIdempotent(category: string)
    ensures NormalizeCategory(NormalizeCategory(category)) == NormalizeCategory(category)
  {
  }

  /** Every stored category key is its own normal form. */
  lemma CategoryKeysNormal(c: Category)
    ensures NormalizeCategory(CategoryKey(c)) == CategoryKey(c)
  {
  }

  /** `difficultyMap`: the nine spellings of the three difficulties. */
  function DifficultySpelling(difficulty: string): Option<Difficulty>
  {
    if difficulty == "facil" || difficulty == "fácil" || difficulty == "easy" then Some(Facil)
    else if difficulty == "medio" || difficulty == "médio" || difficulty == "medium" then Some(Medio)
    else if difficulty == "dificil" || difficulty == "difícil" || difficulty == "hard" then Some(Dificil)
    else None
  }

  /**
   * normalizeDifficulty: a listed spelling maps to its difficulty's stored
   * key; anything else is only lower-cased.
   */
  function NormalizeDifficulty(difficulty: string): (r: string)
    ensures DifficultySpelling(difficulty).Some? ==> r == DifficultyKey(DifficultySpelling(difficulty).value)
    ensures DifficultySpelling(difficulty).None? ==> r == Text.Lower(difficulty)
  {
    if DifficultySpelling(difficulty).Some? then DifficultyKey(DifficultySpelling(difficulty).value)
    else Text.Lower(difficulty)
  }

  /** The three listed spellings of a difficulty: Portuguese, accented and English. */
  function Spellings(d: Difficulty): (s: seq<string>)
    ensures |s| == 3 && s[0] == DifficultyKey(d)
  {
    match d
    case Facil => ["facil", "fácil", "easy"]
    case Medio => ["medio", "médio", "medium"]
    case Dificil => ["dificil", "difícil", "hard"]
  }

  /** Every listed spelling of a difficulty normalises to its stored key. */
  lemma SpellingsNormalize(d: Difficulty, k: int)
    requires 0 <= k < 3
    ensures NormalizeDifficulty(Spellings(d)[k]) == DifficultyKey(d)
  {
    assert DifficultySpelling(Spellings(d)[k]) == Some(d);
  }

  /**
   * The table is consulted before lower-casing, so an upper-case English
   * spelling is stored lower-cased rather than as its difficulty, and the
   * normalisation is not idempotent.
   */
  lemma DifficultyCaseSensitive()
    ensures NormalizeDifficulty("EASY") == "easy"
    ensures NormalizeDifficulty(NormalizeDifficulty("EASY")) == "facil"
  {
    assert DifficultySpelling("EASY").None?;
    assert Text.Lower("EASY") == "easy";
  }

  /** `number | string` in the JSON file. */
  datatype Answer = Number(n: int) | Label(s: string)

  /** `options.findIndex(opt => opt === s)`: the first equal option, or -1. */
  function FindIndex(options: seq<string>, s: string): (i: int)
    ensures -1 <= i < |options|
    ensures i == -1 <==> s !in options
    ensures i >= 0 ==> options[i] == s && forall j :: 0 <= j < i ==> options[j] != s
  {
    if options == [] then -1
    else if options[0] == s then 0
    else
      var k := FindIndex(options[1..], s);
      assert options == [options[0]] + options[1..];
      if k < 0 then -1 else k + 1
  }

  /**
   * normalizeCorrectAnswer: a number passes through unchanged (no range
   * check); a string becomes the index of the first equal option, or 0.
   */
  function NormalizeCorrectAnswer(answer: Answer, options: seq<string>): (r: int)
    ensures answer.Number? ==> r == answer.n
    ensures answer.Label? && answer.s in options ==>
      0 <= r < |options| && options[r] == answer.s && forall j :: 0 <= j < r ==> options[j] != answer.s
    ensures answer.Label? && answer.s !in options ==> r == 0
    ensures answer.Label? && options != [] ==> 0 <= r < |options|
  {
    match answer
    case Number(n) => n
    case Label(s) =>
      var index := FindIndex(options, s);
      if index >= 0 then index else 0
  }

  // ---------------------------------------------------------------------
  // UUIDs
  // ---------------------------------------------------------------------

  /** `[0-9a-f]` under the `i` flag. */
  predicate IsHexDigit(c: char)
  {
    '0' <= c <= '9' || 'a' <= c <= 'f' || 'A' <= c <= 'F'
  }

  predicate AllHex(s: string)
  {
    forall i :: 0 <= i < |s| ==> IsHexDigit(s[i])
  }

  /** The positions of the four hyphens of the 8-4-4-4-12 pattern. */
  predicate IsHyphenAt(i: int)
  {
    i == 8 || i == 13 || i == 18 || i == 23
  }

  /** `uuidRegex.test(s)`: 36 characters, hyphens at the group boundaries, hex digits elsewhere. */
  predicate IsUuid(s: string)
  {
    |s| == 36 && forall i :: 0 <= i < |s| ==> if IsHyphenAt(i) then s[i] == '-' else IsHexDigit(s[i])
  }

  /** Five groups joined by hyphens. */
  function JoinGroups(a: string, b: string, c: string, d: string, e: string): string
  {
    a + "-" + b + "-" + c + "-" + d + "-" + e
  }

  /** Hex groups of 8, 4, 4, 4 and 12 digits joined by hyphens make a UUID. */
  lemma UuidOfGroups(a: string, b: string, c: string, d: string, e: string)
    requires |a| == 8 && |b| == 4 && |c| == 4 && |d| == 4 && |e| == 12
    requires AllHex(a) && AllHex(b) && AllHex(c) && AllHex(d) && AllHex(e)
    ensures IsUuid(JoinGroups(a, b, c, d, e))
  {
    var s := JoinGroups(a, b, c, d, e);
    forall i | 0 <= i < |s|
      ensures if IsHyphenAt(i) then s[i] == '-' else IsHexDigit(s[i])
    {
      if i < 8 { assert s[i] == a[i]; }
      else if 8 < i < 13 { assert s[i] == b[i - 9]; }
      else if 13 < i < 18 { assert s[i] == c[i - 14]; }
      else if 18 < i < 23 { assert s[i] == d[i - 19]; }
      else if 23 < i { assert s[i] == e[i - 24]; }
    }
  }

  /** Every UUID is its five hex groups joined by hyphens. */
  lemma GroupsOfUuid(s: string)
    requires IsUuid(s)
    ensures AllHex(s[..8]) && AllHex(s[9..13]) && AllHex(s[14..18]) && AllHex(s[19..23]) && AllHex(s[24..])
    ensures s == JoinGroups(s[..8], s[9..13], s[14..18], s[19..23], s[24..])
  {
    assert AllHex(s[..8]) by {
      forall i | 0 <= i < 8 ensures IsHexDigit(s[..8][i]) { assert !IsHyphenAt(i); }
    }
    assert AllHex(s[9..13]) by {
      forall i | 0 <= i < 4 ensures IsHexDigit(s[9..13][i]) { assert !IsHyphenAt(i + 9); }
    }
    assert AllHex(s[14..18]) by {
      forall i | 0 <= i < 4 ensures IsHexDigit(s[14..18][i]) { assert !IsHyphenAt(i + 14); }
    }
    assert AllHex(s[19..23]) by {
      forall i | 0 <= i < 4 ensures IsHexDigit(s[19..23][i]) { assert !IsHyphenAt(i + 19); }
    }
    assert AllHex(s[24..]) by {
      forall i | 0 <= i < 12 ensures IsHexDigit(s[24..][i]) { assert !IsHyphenAt(i + 24); }
    }
    assert s[8] == '-' && s[13] == '-' && s[18] == '-' && s[23] == '-';
    var j := JoinGroups(s[..8], s[9..13], s[14..18], s[19..23], s[24..]);
    assert |j| == 36;
    forall i | 0 <= i < 36
      ensures j[i] == s[i]
    {
      if i < 8 { assert j[i] == s[..8][i]; }
      else if i == 8 { assert j[i] == '-'; }
      else if i < 13 { assert j[i] == s[9..13][i - 9]; }
      else if i == 13 { assert j[i] == '-'; }
      else if i < 18 { assert j[i] == s[14..18][i - 14]; }
      else if i == 18 { assert j[i] == '-'; }
      else if i < 23 { assert j[i] == s[19..23][i - 19]; }
      else if i == 23 { assert j[i] == '-'; }
      else { assert j[i] == s[24..][i - 24]; }
    }
  }

  /** The pattern ignores case: a string is a UUID exactly when its lower-case form is. */
  lemma UuidCaseInsensitive(s: string)
    ensures IsUuid(s) <==> IsUuid(Text.Lower(s))
  {
    var l := Text.Lower(s);
    if IsUuid(s) {
      forall i | 0 <= i < |l|
        ensures if IsHyphenAt(i) then l[i] == '-' else IsHexDigit(l[i])
      {
        assert l[i] == Text.LowerChar(s[i]);
      }
    }
    if IsUuid(l) {
      forall i | 0 <= i < |s|
        ensures if IsHyphenAt(i) then s[i] == '-' else IsHexDigit(s[i])
      {
        assert l[i] == Text.LowerChar(s[i]);
      }
    }
  }

  // ---------------------------------------------------------------------
  // Mapping the JSON questions
  // ---------------------------------------------------------------------

  /** A question as read from the JSON file. */
  datatype RawQuestion = RawQuestion(
    id: Option<string>,
    text: Option<string>,
    question: Option<string>,
    options: seq<string>,
    correctAnswer: Answer,
    category: string,
    difficulty: string,
    explanation: Option<string>)

  /** A question in the table's format. */
  datatype Row = Row(
    id: Option<string>,
    text: string,
    options: seq<string>,
    correctAnswer: int,
    category: string,
    difficulty: string,
    explanation: Option<string>)

  /** `q.text || q.question || ""`: the first non-empty of the two fields. */
  function TextOf(q: RawQuestion): (t: string)
    ensures q.text.Some? && q.text.value != "" ==> t == q.text.value
    ensures (q.text.None? || q.text.value == "") && q.question.Some? ==> t == q.question.value
    ensures t == "" <==> (q.text.None? || q.text.value == "") && (q.question.None? || q.question.value == "")
  {
    if q.text.Some? && q.text.value != "" then q.text.value
    else if q.question.Some? && q.question.value != "" then q.question.value
    else ""
  }

  /** The id is copied only when it is present and a UUID. */
  function KeptId(id: Option<string>): (r: Option<string>)
    ensures r.Some? <==> id.Some? && IsUuid(id.value)
    ensures r.Some? ==> r == id
  {
    if id.Some? && id.value != "" && IsUuid(id.value) then id else None
  }

  /** The mapping step for one question: dropped (None) when it has no text. */
  function MapQuestion(q: RawQuestion): (r: Option<Row>)
    ensures r.None? <==> TextOf(q) == ""
    ensures r.Some? ==>
      && r.value.text == TextOf(q) != ""
      && r.value.id == KeptId(q.id)
      && r.value.options == q.options
      && r.value.correctAnswer == NormalizeCorrectAnswer(q.correctAnswer, q.options)
      && r.value.category == NormalizeCategory(q.category)
      && r.value.difficulty == NormalizeDifficulty(q.difficulty)
      && r.value.explanation == q.explanation
  {
    var text := TextOf(q);
    if text == "" then None
    else Some(Row(KeptId(q.id), text, q.options, NormalizeCorrectAnswer(q.correctAnswer, q.options),
                  NormalizeCategory(q.category), NormalizeDifficulty(q.difficulty), q.explanation))
  }

  /**
   * `questions.map(...).filter(q => q !== null)`: the mapped questions with
   * text, in file order.
   */
  function Prepare(raw: seq<RawQuestion>): (rows: seq<Row>)
    ensures |rows| <= |raw|
    ensures forall r :: r in rows ==> exists q :: q in raw && MapQuestion(q) == Some(r)
    ensures forall q :: q in raw && TextOf(q) != "" ==> MapQuestion(q).value in rows
  {
    if raw == [] then []
    else
      assert raw == [raw[0]] + raw[1..];
      var head := MapQuestion(raw[0]);
      (if head.Some? then [head.value] else []) + Prepare(raw[1..])
  }

  /** Every prepared row has text, a folded category, and either no id or a UUID. */
  lemma PreparedRowsWellFormed(raw: seq<RawQuestion>)
    ensures forall r :: r in Prepare(raw) ==>
      r.text != "" && IsFolded(r.category) && (r.id.Some? ==> IsUuid(r.id.value))
  {
    forall r | r in Prepare(raw)
      ensures r.text != "" && IsFolded(r.category) && (r.id.Some? ==> IsUuid(r.id.value))
    {
      var q :| q in raw && MapQuestion(q) == Some(r);
    }
  }

  /** Preparing a concatenation prepares each part. */
  lemma {:induction false} PrepareAppend(a: seq<RawQuestion>, b: seq<RawQuestion>)
    ensures Prepare(a + b) == Prepare(a) + Prepare(b)
  {
    if a == [] {
      assert a + b == b;
    } else {
      assert (a + b)[0] == a[0];
      assert (a + b)[1..] == a[1..] + b;
      PrepareAppend(a[1..], b);
    }
  }

  // ---------------------------------------------------------------------
  // Splitting by id
  // ---------------------------------------------------------------------

  /** `q.id` is truthy. */
  predicate HasId(r: Row)
  {
    r.id.Some? && r.id.value != ""
  }

  /** `questionsForDB.filter(q => q.id)`. */
  function WithId(rows: seq<Row>): (r: seq<Row>)
    ensures forall x :: x in r <==> x in rows && HasId(x)
  {
    if rows == [] then []
    else
      assert rows == [rows[0]] + rows[1..];
      (if HasId(rows[0]) then [rows[0]] else []) + WithId(rows[1..])
  }

  /** `questionsForDB.filter(q => !q.id)`. */
  function WithoutId(rows: seq<Row>): (r: seq<Row>)
    ensures forall x :: x in r <==> x in rows && !HasId(x)
  {
    if rows == [] then []
    else
      assert rows == [rows[0]] + rows[1..];
      (if HasId(rows[0]) then [] else [rows[0]]) + WithoutId(rows[1..])
  }

  /** The two lists share no row and together hold every row as often as the input does. */
  lemma {:induction false} SplitCovers(rows: seq<Row>)
    ensures multiset(WithId(rows)) + multiset(WithoutId(rows)) == multiset(rows)
    ensures |WithId(rows)| + |WithoutId(rows)| == |rows|
    ensures forall x :: !(x in WithId(rows) && x in WithoutId(rows))
  {
    if rows != [] {
      SplitCovers(rows[1..]);
      assert rows == [rows[0]] + rows[1..];
    }
  }

  // ---------------------------------------------------------------------
  // Batches
  // ---------------------------------------------------------------------

  const BatchSize: nat := 50

  /** `Math.ceil(n / BATCH_SIZE)`: the number of batches covering `n` rows. */
  function NumBatches(n: nat): (k: nat)
    ensures BatchSize * k >= n
    ensures k > 0 ==> BatchSize * (k - 1) < n
  {
    (n + BatchSize - 1) / BatchSize
  }

  /** A batch count that reaches `n` rows without passing the last batch is the last batch. */
  lemma BatchesDone(n: nat, k: nat)
    requires k <= NumBatches(n) && BatchSize * k >= n
    ensures k == NumBatches(n)
  {
    if k < NumBatches(n) {
      assert false;
    }
  }

  /** `items.slice(i, i + BATCH_SIZE)` for the `k`-th batch, i = 50k. */
  function Batch(items: seq<Row>, k: nat): (b: seq<Row>)
    requires k < NumBatches(|items|)
    ensures 1 <= |b| <= BatchSize
  {
    var i := BatchSize * k;
    items[i..if i + BatchSize < |items| then i + BatchSize else |items|]
  }

  /** The batches in order. */
  function Concat(bs: seq<seq<Row>>): seq<Row>
  {
    if bs == [] then [] else Concat(bs[..|bs| - 1]) + bs[|bs| - 1]
  }

  function Batches(items: seq<Row>): (bs: seq<seq<Row>>)
    ensures |bs| == NumBatches(|items|)
    ensures forall k :: 0 <= k < |bs| ==> bs[k] == Batch(items, k)
  {
    seq(NumBatches(|items|), k requires 0 <= k < NumBatches(|items|) => Batch(items, k))
  }

  /** The first `k` batches are the first min(50k, n) rows. */
  lemma {:induction false} BatchesPrefix(items: seq<Row>, k: nat)
    requires k <= NumBatches(|items|)
    ensures Concat(Batches(items)[..k]) == items[..if BatchSize * k < |items| then BatchSize * k else |items|]
  {
    var bs := Batches(items);
    if k > 0 {
      BatchesPrefix(items, k - 1);
      assert bs[..k][..k - 1] == bs[..k - 1];
      var i := BatchSize * (k - 1);
      assert items[..i] + bs[k - 1] == items[..if BatchSize * k < |items| then BatchSize * k else |items|];
    }
  }

  /** The batches cover the list in order, each of 1 to 50 rows. */
  lemma BatchesCover(items: seq<Row>)
    ensures Concat(Batches(items)) == items
    ensures forall b :: b in Batches(items) ==> 1 <= |b| <= BatchSize
  {
    var bs := Batches(items);
    BatchesPrefix(items, |bs|);
    assert bs[..|bs|] == bs;
  }

  /** `errors.push({ index: i, error: error.message })`. */
  datatype BatchError = BatchError(index: nat, error: string)

  /** What the first `k` batches add to the counters and the error list. */
  datatype Tally = Tally(success: nat, failed: nat, errors: seq<BatchError>)

  function TallyOf(items: seq<Row>, failure: nat -> Option<string>, k: nat): (t: Tally)
    requires k <= NumBatches(|items|)
    ensures t.success + t.failed == if BatchSize * k < |items| then BatchSize * k else |items|
    ensures |t.errors| <= k
  {
    if k == 0 then Tally(0, 0, [])
    else
      var t := TallyOf(items, failure, k - 1);
      var b := Batch(items, k - 1);
      match failure(BatchSize * (k - 1))
      case Some(message) => Tally(t.success, t.failed + |b|, t.errors + [BatchError(BatchSize * (k - 1), message)])
      case None => Tally(t.success + |b|, t.failed, t.errors)
  }

  /** When no call fails every row counts as a success and no error is logged. */
  lemma {:induction false} TallyNoFailure(items: seq<Row>, failure: nat -> Option<string>, k: nat)
    requires k <= NumBatches(|items|)
    requires forall i: nat :: failure(i).None?
    ensures TallyOf(items, failure, k).failed == 0 && TallyOf(items, failure, k).errors == []
  {
    if k > 0 {
      TallyNoFailure(items, failure, k - 1);
      assert failure(BatchSize * (k - 1)).None?;
    }
  }

  /**
   * One batch loop: the counters grow by the tally of all the list's
   * batches and the errors of the failing batches are appended in order.
   */
  method RunBatches(items: seq<Row>, failure: nat -> Option<string>,
                    successCount: nat, errorCount: nat, errors: seq<BatchError>)
    returns (success: nat, failed: nat, log: seq<BatchError>)
    ensures var t := TallyOf(items, failure, NumBatches(|items|));
      success == successCount + t.success && failed == errorCount + t.failed && log == errors + t.errors
    ensures success + failed == successCount + errorCount + |items|
  {
    success, failed, log := successCount, errorCount, errors;
    var i: nat := 0;
    ghost var k: nat := 0;
    while i < |items|
      invariant k <= NumBatches(|items|) && i == BatchSize * k
      invariant var t := TallyOf(items, failure, k);
        success == successCount + t.success && failed == errorCount + t.failed && log == errors + t.errors
    {
      var end := if i + BatchSize < |items| then i + BatchSize else |items|;
      var batch := items[i..end];
      assert batch == Batch(items, k);
      match failure(i) {
        case Some(message) =>
          log := log + [BatchError(i, message)];
          failed := failed + |batch|;
        case None =>
          success := success + |batch|;
      }
      i := i + BatchSize;
      k := k + 1;
    }
    BatchesDone(|items|, k);
  }

  /**
   * The two batch loops of seedQuestions: the rows without an id are
   * inserted, then the rows with an id are upserted, 50 at a time. Every
   * row is counted once, as a success or as an error. The `length > 0`
   * guards around the loops only decide whether a heading is logged; a
   * loop over an empty list runs no batch.
   */
  method WriteRows(rows: seq<Row>, insertFailure: nat -> Option<string>, upsertFailure: nat -> Option<string>)
    returns (successCount: nat, errorCount: nat, errors: seq<BatchError>)
    ensures var inserted := TallyOf(WithoutId(rows), insertFailure, NumBatches(|WithoutId(rows)|));
      var upserted := TallyOf(WithId(rows), upsertFailure, NumBatches(|WithId(rows)|));
      && successCount == inserted.success + upserted.success
      && errorCount == inserted.failed + upserted.failed
      && errors == inserted.errors + upserted.errors
    ensures successCount + errorCount == |rows|
    ensures (forall i: nat :: insertFailure(i).None?) && (forall i: nat :: upsertFailure(i).None?) ==>
      successCount == |rows| && errorCount == 0 && errors == []
  {
    var withId := WithId(rows);
    var withoutId := WithoutId(rows);
    assert |withId| + |withoutId| == |rows| by {
      SplitCovers(rows);
    }
    ghost var inserted := TallyOf(withoutId, insertFailure, NumBatches(|withoutId|));
    ghost var upserted := TallyOf(withId, upsertFailure, NumBatches(|withId|));
    successCount, errorCount, errors := RunBatches(withoutId, insertFailure, 0, 0, []);
    assert errors == inserted.errors by {
      assert [] + inserted.errors == inserted.errors;
    }
    successCount, errorCount, errors := RunBatches(withId, upsertFailure, successCount, errorCount, errors);
    assert errors == inserted.errors + upserted.errors;
    if (forall i: nat :: insertFailure(i).None?) && (forall i: nat :: upsertFailure(i).None?) {
      TallyNoFailure(withoutId, insertFailure, NumBatches(|withoutId|));
      TallyNoFailure(withId, upsertFailure, NumBatches(|withId|));
    }
  }

  /**
   * seedQuestions after the table is cleared: the file's questions are
   * prepared and written; every prepared question is counted once.
   */
  method SeedQuestions(raw: seq<RawQuestion>, insertFailure: nat -> Option<string>,
                       upsertFailure: nat -> Option<string>)
    returns (successCount: nat, errorCount: nat, errors: seq<BatchError>)
    ensures successCount + errorCount == |Prepare(raw)|
    ensures successCount + errorCount <= |raw|
    ensures (forall i: nat :: insertFailure(i).None?) && (forall i: nat :: upsertFailure(i).None?) ==>
      successCount == |Prepare(raw)| && errorCount == 0 && errors == []
  {
    var questionsForDB := Prepare(raw);
    successCount, errorCount, errors := WriteRows(questionsForDB, insertFailure, upsertFailure);
  }
}

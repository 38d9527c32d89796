/** The administrative script that inserts random activation codes into the code table.

    `Math.random` is an oracle: draw number `n` of a run yields the alphabet index
    `rand(n)`, and a cursor counts the draws made so far. The database is a `CodeStore`
    object holding the table's records. Console output becomes a per-item log. */
module ActivationCodes {
  import opened Common
  import Text
  import Numbers

  /** The script's alphabet: upper-case letters and digits without 0, O, I and 1. */
  const Alphabet: string := "ABCDEFGHJKLMNPQRSTUVWXYZ23456789"
  const CodeLength: nat := 8
  /** `maxAttempts` of `generateUniqueCode`. */
  const MaxAttempts: nat := 100
  /** Above this many codes the script asks for confirmation. */
  const ConfirmAbove: nat := 100

  /** What `Math.floor(Math.random() * chars.length)` can yield. */
  type Index = i: int | 0 <= i < 32

  /** The random oracle: the index produced by each call of `Math.random`, in call order. */
  type Random = nat -> Index

  /** A row of the activation-code table. */
  datatype ActivationCode = ActivationCode(code: string, used: bool)

  /** Eight symbols of the alphabet. */
  predicate IsCode(c: string) {
    |c| == CodeLength && forall i :: 0 <= i < |c| ==> IsSymbol(c[i])
  }

  /** The symbols of the alphabet, described by ranges. */
  predicate IsSymbol(c: char) {
    ('A' <= c <= 'H') || ('J' <= c <= 'N') || ('P' <= c <= 'Z') || ('2' <= c <= '9')
  }

  /** `chars.charAt(k)`, computed from the four ranges the alphabet is made of. */
  function Symbol(k: Index): (c: char)
    ensures IsSymbol(c)
  {
    if k < 8 then ('A' as int + k) as char
    else if k < 13 then ('J' as int + (k - 8)) as char
    else if k < 24 then ('P' as int + (k - 13)) as char
    else ('2' as int + (k - 24)) as char
  }

  /** The four ranges spell out the alphabet: `Symbol(k)` is its character `k`. */
  lemma SymbolIsCharAt()
    ensures |Alphabet| == 32
    ensures forall k: Index :: Symbol(k) == Alphabet[k]
  {
  }

  /** None of the alphabet's symbols is a confusable 0, O, I or 1. */
  lemma AlphabetFacts()
    ensures '0' !in Alphabet && 'O' !in Alphabet && 'I' !in Alphabet && '1' !in Alphabet
  {
    SymbolIsCharAt();
    assert forall i :: 0 <= i < |Alphabet| ==> IsSymbol(Symbol(i));
  }

  /** A generated code never contains a confusable character. */
  lemma CodeAvoidsConfusables(c: string)
    requires IsCode(c)
    ensures forall i :: 0 <= i < |c| ==> c[i] != '0' && c[i] != 'O' && c[i] != 'I' && c[i] != '1'
  {
  }

  /** The code built from the eight draws `cursor`, ..., `cursor + 7`. */
  function DrawnCode(rand: Random, cursor: nat): (c: string)
    ensures |c| == CodeLength
  {
    seq(CodeLength, i requires 0 <= i < CodeLength => Symbol(rand(cursor + i)))
  }

  /** Symbol `i` of a drawn code is the symbol of draw `cursor + i`, so every drawn code is
      a well-formed code. */
  lemma DrawnCodeIsCode(rand: Random, cursor: nat)
    ensures forall i :: 0 <= i < CodeLength ==> DrawnCode(rand, cursor)[i] == Symbol(rand(cursor + i))
    ensures IsCode(DrawnCode(rand, cursor))
  {
  }

  /** `generateActivationCode`: eight draws, each appended as one character. */
  method GenerateActivationCode(rand: Random, cursor: nat) returns (code: string, next: nat)
    ensures code == DrawnCode(rand, cursor)
    ensures next == cursor + CodeLength
  {
    SymbolIsCharAt();
    code := "";
    next := cursor;
    for i := 0 to CodeLength
      invariant next == cursor + i
      invariant |code| == i
      invariant forall k :: 0 <= k < i ==> code[k] == Symbol(rand(cursor + k))
    {
      code := code + [Alphabet[rand(next)]];
      next := next + 1;
    }
    DrawnCodeIsCode(rand, cursor);
  }

  /** The set of codes held by a sequence of table rows. */
  function CodeSet(rows: seq<ActivationCode>): set<string> {
    if rows == [] then {} else CodeSet(rows[..|rows| - 1]) + {rows[|rows| - 1].code}
  }

  /** A code is in the set exactly when some row carries it. */
  lemma {:induction false} CodeSetMembers(rows: seq<ActivationCode>)
    ensures forall i :: 0 <= i < |rows| ==> rows[i].code in CodeSet(rows)
    ensures forall c :: c in CodeSet(rows) ==> exists i :: 0 <= i < |rows| && rows[i].code == c
  {
    if rows != [] {
      var front := rows[..|rows| - 1];
      CodeSetMembers(front);
      assert forall i :: 0 <= i < |front| ==> rows[i] == front[i];
    }
  }

  /** Appending a row adds its code. */
  lemma CodeSetSnoc(rows: seq<ActivationCode>, row: ActivationCode)
    ensures CodeSet(rows + [row]) == CodeSet(rows) + {row.code}
  {
    assert (rows + [row])[..|rows|] == rows;
  }

  /** The codes of two runs of rows together. */
  lemma {:induction false} CodeSetConcat(a: seq<ActivationCode>, b: seq<ActivationCode>)
    ensures CodeSet(a + b) == CodeSet(a) + CodeSet(b)
  {
    if b == [] {
      assert a + b == a;
    } else {
      var front := b[..|b| - 1];
      CodeSetConcat(a, front);
      assert (a + b)[..|a + b| - 1] == a + front;
      assert (a + b)[|a + b| - 1] == b[|b| - 1];
    }
  }

  /** The activation-code table, reached through `prisma.activationCode`. */
  class CodeStore {
    var records: seq<ActivationCode>

    constructor (initial: seq<ActivationCode>)
      ensures records == initial
    {
      records := initial;
    }

    function Codes(): set<string>
      reads this
    {
      CodeSet(records)
    }

    /** `codeExists`: `findUnique` on the code column, read as a boolean. */
    method CodeExists(code: string) returns (found: bool)
      ensures found <==> code in Codes()
    {
      found := code in Codes();
    }

    /** `activationCode.create({ data: { code, used: false } })`. */
    method Create(code: string) returns (row: ActivationCode)
      modifies this
      ensures row == ActivationCode(code, false)
      ensures records == old(records) + [row]
      ensures Codes() == old(Codes()) + {code}
    {
      row := ActivationCode(code, false);
      CodeSetSnoc(records, row);
      records := records + [row];
    }
  }

  datatype GenerationError = Exhausted(attempts: nat)

  /** The outcome of `generateUniqueCode` and the number of loop rounds it ran, which is the
      number of existence checks it made. */
  datatype Generation = Generation(outcome: Result<string, GenerationError>, attempts: nat)

  /** The code the eight draws starting at each cursor position would build: the random
      stream as the codes it yields. */
  function CodesAt(rand: Random): nat -> string {
    (p: nat) => DrawnCode(rand, p)
  }

  /** Every code of a stream is well formed. */
  ghost predicate AllCodes(stream: nat -> string) {
    forall p :: IsCode(stream(p))
  }

  lemma CodesAtAllCodes(rand: Random)
    ensures AllCodes(CodesAt(rand))
  {
    forall p: nat
      ensures IsCode(CodesAt(rand)(p))
    {
      DrawnCodeIsCode(rand, p);
    }
  }

  /** The codes of the attempts of a search that starts at `cursor`: attempt `k` reads the
      eight draws from `cursor + 8 * k` on. */
  function Attempts(stream: nat -> string, cursor: nat): nat -> string {
    (k: nat) => stream(cursor + 8 * k)
  }

  /** The search of `generateUniqueCode` once `tried` attempts, drawing `draws(0)`,
      `draws(1)`, ..., have found only stored codes. */
  function UniqueCodeFrom(stored: set<string>, draws: nat -> string, tried: nat): Generation
    requires tried <= MaxAttempts
    decreases MaxAttempts - tried
  {
    if tried == MaxAttempts then Generation(Err(Exhausted(MaxAttempts)), MaxAttempts)
    else if draws(tried) !in stored then Generation(Ok(draws(tried)), tried + 1)
    else UniqueCodeFrom(stored, draws, tried + 1)
  }

  /** The search from attempt `tried` on: it makes at most 100 checks in all; a code it
      returns is the draw of its last attempt, which the store reported absent after every
      earlier draw was reported present; it fails only after 100 draws all reported present. */
  lemma {:induction false} UniqueCodeFromSpec(stored: set<string>, draws: nat -> string, tried: nat)
    requires tried <= MaxAttempts
    ensures var g := UniqueCodeFrom(stored, draws, tried);
      && g.attempts <= MaxAttempts && (tried < MaxAttempts ==> tried < g.attempts)
      && (g.outcome.Ok? ==>
            && g.attempts >= 1 && g.outcome.value == draws(g.attempts - 1)
            && g.outcome.value !in stored
            && forall j :: tried <= j < g.attempts - 1 ==> draws(j) in stored)
      && (g.outcome.Err? ==>
            && g.outcome.error == Exhausted(MaxAttempts) && g.attempts == MaxAttempts
            && forall j :: tried <= j < MaxAttempts ==> draws(j) in stored)
    decreases MaxAttempts - tried
  {
    if tried < MaxAttempts && draws(tried) in stored {
      UniqueCodeFromSpec(stored, draws, tried + 1);
    }
  }

  /** What `generateUniqueCode` does against a store holding `stored`, the random stream
      read as `stream` and the draws starting at `cursor`. */
  function UniqueCode(stored: set<string>, stream: nat -> string, cursor: nat): Generation {
    UniqueCodeFrom(stored, Attempts(stream, cursor), 0)
  }

  /** The search never makes more than 100 existence checks, and a code it returns is one
      of its draws, absent from the store, and well formed when the stream is. */
  lemma UniqueCodeBounds(stored: set<string>, stream: nat -> string, cursor: nat)
    ensures 1 <= UniqueCode(stored, stream, cursor).attempts <= MaxAttempts
    ensures UniqueCode(stored, stream, cursor).outcome.Ok? ==>
              UniqueCode(stored, stream, cursor).outcome.value !in stored
              && (AllCodes(stream) ==> IsCode(UniqueCode(stored, stream, cursor).outcome.value))
  {
    var draws := Attempts(stream, cursor);
    UniqueCodeFromSpec(stored, draws, 0);
    var g := UniqueCodeFrom(stored, draws, 0);
    if g.outcome.Ok? {
      var last := g.attempts - 1;
      assert g.outcome.value == stream(cursor + 8 * last);
    }
  }

  /** If the first `k` attempts draw taken codes and attempt `k` draws a free one, the
      search makes exactly `k + 1` checks and returns that code. */
  lemma FirstFreeDrawWins(stored: set<string>, stream: nat -> string, cursor: nat, k: nat)
    requires k < MaxAttempts
    requires forall j :: 0 <= j < k ==> stream(cursor + 8 * j) in stored
    requires stream(cursor + 8 * k) !in stored
    ensures UniqueCode(stored, stream, cursor) == Generation(Ok(stream(cursor + 8 * k)), k + 1)
  {
    var draws := Attempts(stream, cursor);
    UniqueCodeFromSpec(stored, draws, 0);
    var g := UniqueCodeFrom(stored, draws, 0);
    assert draws(k) == stream(cursor + 8 * k);
    if g.outcome.Ok? {
      var last := g.attempts - 1;
      assert draws(last) == stream(cursor + 8 * last);
    }
  }

  /** If all 100 attempts draw taken codes, the search fails after exactly 100 checks. */
  lemma AllDrawsTakenExhausts(stored: set<string>, stream: nat -> string, cursor: nat)
    requires forall j :: 0 <= j < MaxAttempts ==> stream(cursor + 8 * j) in stored
    ensures UniqueCode(stored, stream, cursor) == Generation(Err(Exhausted(MaxAttempts)), MaxAttempts)
  {
    var draws := Attempts(stream, cursor);
    forall j | 0 <= j < MaxAttempts
      ensures draws(j) in stored
    {
      assert draws(j) == stream(cursor + 8 * j);
    }
    UniqueCodeFromSpec(stored, draws, 0);
  }

  /** `generateUniqueCode`: draw, check, and retry while the code is taken, at most 100 times. */
  method GenerateUniqueCode(store: CodeStore, rand: Random, cursor: nat)
    returns (outcome: Result<string, GenerationError>, attempts: nat, next: nat)
    ensures Generation(outcome, attempts) == UniqueCode(store.Codes(), CodesAt(rand), cursor)
    ensures next == cursor + 8 * attempts
  {
    ghost var stored := store.Codes();
    ghost var draws := Attempts(CodesAt(rand), cursor);
    ghost var target := UniqueCode(stored, CodesAt(rand), cursor);
    var code := "";
    var isUnique := false;
    attempts := 0;
    next := cursor;
    while !isUnique && attempts < MaxAttempts
      invariant attempts <= MaxAttempts
      invariant next == cursor + 8 * attempts
      invariant !isUnique ==> UniqueCodeFrom(stored, draws, attempts) == target
      invariant isUnique ==> Generation(Ok(code), attempts) == target
      decreases MaxAttempts - attempts
    {
      code, next := GenerateActivationCode(rand, next);
      assert code == draws(attempts);
      var taken := store.CodeExists(code);
      if !taken {
        isUnique := true;
      }
      attempts := attempts + 1;
    }
    if !isUnique {
      outcome := Err(Exhausted(MaxAttempts));
    } else {
      outcome := Ok(code);
    }
  }

  /** One line of the script's console report: a created code or the error of that item. */
  datatype ItemOutcome = Created(code: string) | Failed(error: GenerationError)

  /** The search one item runs, given the rows of the table and the position of the
      random stream: `generateUniqueCode` is the one the script uses. */
  type Searcher = (seq<ActivationCode>, nat) -> Generation

  /** `generateUniqueCode` over the codes drawn from `rand`. */
  function UniqueCodeSearch(rand: Random): Searcher {
    (rows: seq<ActivationCode>, cursor: nat) => UniqueCode(CodeSet(rows), CodesAt(rand), cursor)
  }

  /** A search that makes between 1 and 100 checks and, when it succeeds, returns a
      well-formed code that no row of the table carries. */
  ghost predicate SoundSearch(search: Searcher) {
    forall rows, cursor ::
      && 1 <= search(rows, cursor).attempts <= MaxAttempts
      && (search(rows, cursor).outcome.Ok? ==>
            search(rows, cursor).outcome.value !in CodeSet(rows) && IsCode(search(rows, cursor).outcome.value))
  }

  lemma UniqueCodeSearchSound(rand: Random)
    ensures SoundSearch(UniqueCodeSearch(rand))
  {
    CodesAtAllCodes(rand);
    forall rows, cursor
      ensures var g := UniqueCodeSearch(rand)(rows, cursor);
        1 <= g.attempts <= MaxAttempts && (g.outcome.Ok? ==> g.outcome.value !in CodeSet(rows) && IsCode(g.outcome.value))
    {
      UniqueCodeBounds(CodeSet(rows), CodesAt(rand), cursor);
    }
  }

  datatype BatchRun = BatchRun(created: seq<ActivationCode>, log: seq<ItemOutcome>, cursor: nat)

  /** The row a log line stands for, if any. */
  function LineRows(line: ItemOutcome): seq<ActivationCode> {
    match line
    case Created(c) => [ActivationCode(c, false)]
    case Failed(_) => []
  }

  /** The search of one item of `createActivationCodes`: against the initial rows plus
      those the batch has created so far. */
  function ItemSearch(initial: seq<ActivationCode>, search: Searcher, prev: BatchRun): Generation {
    search(initial + prev.created, prev.cursor)
  }

  /** The report line of an item whose search ended with `g`. */
  function ItemLine(g: Generation): ItemOutcome {
    match g.outcome
    case Ok(code) => Created(code)
    case Err(e) => Failed(e)
  }

  /** One item of `createActivationCodes`: the search, then, when it succeeds, the insert of
      an unused row. */
  function BatchStep(initial: seq<ActivationCode>, search: Searcher, prev: BatchRun): BatchRun {
    var g := ItemSearch(initial, search, prev);
    var line := ItemLine(g);
    BatchRun(prev.created + LineRows(line), prev.log + [line], prev.cursor + 8 * g.attempts)
  }

  /** What `createActivationCodes(count)` does against a table that starts with `initial`. */
  function Batch(initial: seq<ActivationCode>, search: Searcher, cursor: nat, count: nat): BatchRun
    decreases count
  {
    if count == 0 then BatchRun([], [], cursor) else BatchStep(initial, search, Batch(initial, search, cursor, count - 1))
  }

  /** The rows for the `Created` lines of a log, in order. */
  function Successes(log: seq<ItemOutcome>): seq<ActivationCode> {
    if log == [] then [] else Successes(log[..|log| - 1]) + LineRows(log[|log| - 1])
  }

  /** An item adds exactly one log line and keeps the earlier ones; on success it adds one
      unused row whose code is well formed and new to the store and to the batch. */
  lemma BatchStepProperties(initial: seq<ActivationCode>, search: Searcher, prev: BatchRun)
    requires SoundSearch(search)
    ensures var b := BatchStep(initial, search, prev);
      && |b.log| == |prev.log| + 1 && b.log[..|prev.log|] == prev.log
      && match b.log[|prev.log|]
         case Created(c) =>
           && b.created == prev.created + [ActivationCode(c, false)]
           && IsCode(c) && c !in CodeSet(initial + prev.created)
         case Failed(_) => b.created == prev.created
  {
    var b := BatchStep(initial, search, prev);
    assert b.log[..|prev.log|] == prev.log;
  }

  lemma SuccessesSnoc(log: seq<ItemOutcome>, line: ItemOutcome)
    ensures Successes(log + [line]) == Successes(log) + LineRows(line)
  {
    assert (log + [line])[..|log|] == log;
  }

  /** A batch of `count` items logs `count` lines. */
  lemma {:induction false} BatchLength(initial: seq<ActivationCode>, search: Searcher, cursor: nat, count: nat)
    ensures |Batch(initial, search, cursor, count).log| == count
  {
    if count > 0 {
      BatchLength(initial, search, cursor, count - 1);
    }
  }

  /** One item keeps the log and the rows in step: one more line, and the rows still the
      successes of the log. */
  lemma BatchStepLog(initial: seq<ActivationCode>, search: Searcher, prev: BatchRun, k: nat)
    requires |prev.log| == k && prev.created == Successes(prev.log) && |prev.created| <= k
    ensures var b := BatchStep(initial, search, prev);
      |b.log| == k + 1 && b.created == Successes(b.log) && |b.created| <= k + 1
  {
    var line := ItemLine(ItemSearch(initial, search, prev));
    assert |LineRows(line)| <= 1;
    SuccessesSnoc(prev.log, line);
  }

  /** Every item is attempted whatever happened to the items before it: the log has one line
      per item, and the rows created are the successes in log order. */
  lemma {:induction false} BatchLog(initial: seq<ActivationCode>, search: Searcher, cursor: nat, count: nat)
    ensures var b := Batch(initial, search, cursor, count);
      |b.log| == count && b.created == Successes(b.log) && |b.created| <= count
  {
    if count > 0 {
      BatchLog(initial, search, cursor, count - 1);
      BatchStepLog(initial, search, Batch(initial, search, cursor, count - 1), count - 1);
    }
  }

  /** Unused, well-formed rows whose codes are absent from `stored` and pairwise distinct. */
  predicate FreshRows(stored: set<string>, rows: seq<ActivationCode>) {
    && (forall i :: 0 <= i < |rows| ==> !rows[i].used && IsCode(rows[i].code) && rows[i].code !in stored)
    && (forall i, j :: 0 <= i < j < |rows| ==> rows[i].code != rows[j].code)
  }

  /** A fresh row whose code no earlier row carries keeps a run of rows fresh. */
  lemma FreshRowsSnoc(stored: set<string>, rows: seq<ActivationCode>, row: ActivationCode)
    requires FreshRows(stored, rows)
    requires !row.used && IsCode(row.code) && row.code !in stored && row.code !in CodeSet(rows)
    ensures FreshRows(stored, rows + [row])
  {
    CodeSetMembers(rows);
  }

  lemma BatchStepFresh(initial: seq<ActivationCode>, search: Searcher, prev: BatchRun)
    requires SoundSearch(search)
    requires FreshRows(CodeSet(initial), prev.created)
    ensures FreshRows(CodeSet(initial), BatchStep(initial, search, prev).created)
  {
    BatchStepProperties(initial, search, prev);
    var b := BatchStep(initial, search, prev);
    var line := b.log[|prev.log|];
    if line.Created? {
      var row := ActivationCode(line.code, false);
      assert b.created == prev.created + [row];
      CodeSetConcat(initial, prev.created);
      FreshRowsSnoc(CodeSet(initial), prev.created, row);
    }
  }

  /** The codes of one batch are unused, well formed, absent from the initial store and
      pairwise distinct. */
  lemma {:induction false} BatchFresh(initial: seq<ActivationCode>, search: Searcher, cursor: nat, count: nat)
    requires SoundSearch(search)
    ensures FreshRows(CodeSet(initial), Batch(initial, search, cursor, count).created)
  {
    if count > 0 {
      BatchFresh(initial, search, cursor, count - 1);
      BatchStepFresh(initial, search, Batch(initial, search, cursor, count - 1));
    }
  }

  /** An item appends one line to the log and leaves the earlier lines alone. */
  lemma BatchStepKeepsLog(initial: seq<ActivationCode>, search: Searcher, prev: BatchRun)
    ensures var log := BatchStep(initial, search, prev).log;
      |log| == |prev.log| + 1 && log[..|prev.log|] == prev.log
  {
    var log := BatchStep(initial, search, prev).log;
    assert log[..|prev.log|] == prev.log;
  }

  /** The first `n` lines of a longer batch are the lines of the batch of `n` items: later
      items never change what an earlier item reported. */
  lemma {:induction false} BatchPrefix(initial: seq<ActivationCode>, search: Searcher, cursor: nat, n: nat, count: nat)
    requires n <= count
    ensures var log := Batch(initial, search, cursor, count).log;
      |log| == count && log[..n] == Batch(initial, search, cursor, n).log
  {
    if n == count {
      BatchLength(initial, search, cursor, count);
      var log := Batch(initial, search, cursor, count).log;
      assert log[..n] == log;
    } else {
      var prev := Batch(initial, search, cursor, count - 1);
      BatchPrefix(initial, search, cursor, n, count - 1);
      BatchStepKeepsLog(initial, search, prev);
      PrefixOfPrefix(BatchStep(initial, search, prev).log, prev.log, n);
    }
  }

  /** The codes a run of the script creates are unused, well formed, new to the table and
      pairwise distinct, whatever the random draws. */
  lemma ScriptCodesFresh(initial: seq<ActivationCode>, rand: Random, cursor: nat, count: nat)
    ensures FreshRows(CodeSet(initial), Batch(initial, UniqueCodeSearch(rand), cursor, count).created)
  {
    UniqueCodeSearchSound(rand);
    BatchFresh(initial, UniqueCodeSearch(rand), cursor, count);
  }

  /** One round of the loop of `createActivationCodes`: a search against the table, then,
      when it succeeds, the insert of an unused row with the code found. */
  method CreateItem(store: CodeStore, rand: Random, ghost initial: seq<ActivationCode>, prev: BatchRun)
    returns (run: BatchRun)
    requires store.records == initial + prev.created
    modifies store
    ensures run == BatchStep(initial, UniqueCodeSearch(rand), prev)
    ensures store.records == initial + run.created
  {
    var outcome, attempts, next := GenerateUniqueCode(store, rand, prev.cursor);
    if outcome.Ok? {
      var row := store.Create(outcome.value);
      run := BatchRun(prev.created + [row], prev.log + [Created(outcome.value)], next);
    } else {
      run := BatchRun(prev.created, prev.log + [Failed(outcome.error)], next);
    }
  }

  /** `createActivationCodes`: one search and, when it succeeds, one insert per item; an
      item that fails is logged and the loop goes on. */
  method CreateActivationCodes(store: CodeStore, count: nat, rand: Random, cursor: nat)
    returns (codes: seq<ActivationCode>, log: seq<ItemOutcome>, next: nat)
    modifies store
    ensures BatchRun(codes, log, next) == Batch(old(store.records), UniqueCodeSearch(rand), cursor, count)
    ensures store.records == old(store.records) + codes
    ensures FreshRows(CodeSet(old(store.records)), codes)
  {
    ghost var initial := store.records;
    var run := BatchRun([], [], cursor);
    for i := 0 to count
      invariant run == Batch(initial, UniqueCodeSearch(rand), cursor, i)
      invariant store.records == initial + run.created
    {
      run := CreateItem(store, rand, initial, run);
    }
    codes, log, next := run.created, run.log, run.cursor;
    ScriptCodesFresh(initial, rand, cursor, count);
  }

  /** `countArg ? parseInt(countArg, 10) : 1`, with `None` for NaN. An empty argument is
      falsy and also means one code. */
  function RequestedCount(arg: Option<string>): Option<int> {
    if arg.None? || arg.value == "" then Some(1) else Numbers.ParseInt(arg.value)
  }

  /** The answer test of `askConfirmation`. */
  predicate Accepts(answer: string) {
    Text.Lower(answer) == "y" || Text.Lower(answer) == "yes" || answer == ""
  }

  /** The answers `askConfirmation` accepts: the empty answer and "y" or "yes" in any mix of case. */
  lemma AcceptsExactly(answer: string)
    ensures Accepts(answer) <==>
      || answer == ""
      || (|answer| == 1 && (answer[0] == 'y' || answer[0] == 'Y'))
      || (|answer| == 3 && (answer[0] == 'y' || answer[0] == 'Y')
                        && (answer[1] == 'e' || answer[1] == 'E')
                        && (answer[2] == 's' || answer[2] == 'S'))
  {
    var low := Text.Lower(answer);
    if |answer| == 1 {
      assert low == "y" <==> low[0] == 'y';
    } else if |answer| == 3 {
      assert low == "yes" <==> low[0] == 'y' && low[1] == 'e' && low[2] == 's';
    }
  }

  /** What `main` decides before generating anything. */
  datatype Plan = UsageError | Cancelled | Generate(count: nat)

  /** `main`'s checks: a NaN or non-positive count is a usage error (exit 1); more than 100
      codes need a confirmation, and a declined one ends the run (exit 0). */
  function PlanRun(arg: Option<string>, answer: string): Plan {
    match RequestedCount(arg)
    case None => UsageError
    case Some(n) =>
      if n < 1 then UsageError
      else if n > ConfirmAbove && !Accepts(answer) then Cancelled
      else Generate(n)
  }

  lemma PlanRunCases(arg: Option<string>, answer: string)
    ensures arg.None? ==> PlanRun(arg, answer) == Generate(1)
    ensures PlanRun(arg, answer).UsageError? <==>
              RequestedCount(arg).None? || RequestedCount(arg).value < 1
    ensures PlanRun(arg, answer).Cancelled? <==>
              RequestedCount(arg).Some? && RequestedCount(arg).value > ConfirmAbove && !Accepts(answer)
    ensures PlanRun(arg, answer).Generate? ==>
              var n := PlanRun(arg, answer).count;
              && RequestedCount(arg) == Some(n) && n >= 1
              && (n > ConfirmAbove ==> Accepts(answer))
  {
  }

  /** A count typed as a non-positive integer is refused before anything is generated. */
  lemma NonPositiveCountRefused(n: int, answer: string)
    requires n < 1
    ensures PlanRun(Some(Numbers.IntString(n)), answer) == UsageError
  {
    Numbers.ParseIntString(n);
  }

  /** An argument that does not start with a number (after white space and a sign) is NaN
      and is refused. */
  lemma NaNCountRefused(arg: string, answer: string)
    requires arg != [] && !Text.IsSpace(arg[0]) && !Numbers.IsDigit(arg[0]) && arg[0] != '-' && arg[0] != '+'
    ensures PlanRun(Some(arg), answer) == UsageError
  {
    Text.TrimStartKeeps(arg);
  }

  /** Up to 100 codes are generated without asking. */
  lemma SmallCountGenerates(n: int, answer: string)
    requires 1 <= n <= ConfirmAbove
    ensures PlanRun(Some(Numbers.IntString(n)), answer) == Generate(n)
  {
    Numbers.ParseIntString(n);
  }

  /** More than 100 codes need a confirmation: an accepted answer lets the run go on, any
      other answer cancels it. */
  lemma LargeCountAsks(n: int, answer: string)
    requires n > ConfirmAbove
    ensures PlanRun(Some(Numbers.IntString(n)), answer) == if Accepts(answer) then Generate(n) else Cancelled
  {
    Numbers.ParseIntString(n);
  }

  /** `main` with its argument and the typed answer as parameters: the exit status, the codes
      created and the per-item report. The random cursor starts at 0 for the run. */
  method RunScript(store: CodeStore, arg: Option<string>, answer: string, rand: Random)
    returns (exitCode: nat, codes: seq<ActivationCode>, log: seq<ItemOutcome>)
    modifies store
    ensures PlanRun(arg, answer).UsageError? ==>
              exitCode == 1 && codes == [] && log == [] && store.records == old(store.records)
    ensures PlanRun(arg, answer).Cancelled? ==>
              exitCode == 0 && codes == [] && log == [] && store.records == old(store.records)
    ensures PlanRun(arg, answer).Generate? ==>
              var b := Batch(old(store.records), UniqueCodeSearch(rand), 0, PlanRun(arg, answer).count);
              exitCode == 0 && codes == b.created && log == b.log
              && store.records == old(store.records) + codes
              && FreshRows(old(store.Codes()), codes)
  {
    codes, log := [], [];
    var requested := RequestedCount(arg);
    if requested.None? || requested.value < 1 {
      exitCode := 1;
      return;
    }
    var count := requested.value;
    if count > ConfirmAbove {
      var confirmed := Accepts(answer);
      if !confirmed {
        exitCode := 0;
        return;
      }
    }
    var next;
    codes, log, next := CreateActivationCodes(store, count, rand, 0);
    exitCode := 0;
  }
}

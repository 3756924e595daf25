/**
 Usage ingestion (backend/services/usage_ingest.py): the output file's token
 counts, collapsed and upserted a chunk at a time into usage_records, then the
 batch's rollups. A run may be cut short at any commit and started again.
 */
module UsageIngest {
  import opened Options
  import opened KeyedRows

  // ---- One line ----

  /**
   What int() makes of a JSON value: nothing there; a falsy value it rejects ("", [], {});
   a number; a value it rejects with TypeError or ValueError; an infinity, which
   it rejects with OverflowError.
   */
  datatype Raw = Null | Hollow | Number(n: int) | Unusable | Infinite

  datatype Counts = Counts(prompt: int, completion: int, total: int)

  datatype Coerced = Usable(counts: Counts) | Skip | Raise

  datatype Count = Value(n: int) | Rejected | Overflow

  /** int(raw) */
  function ToInt(raw: Raw): Count {
    match raw
    case Number(n) => Value(n)
    case Infinite => Overflow
    case _ => Rejected
  }

  /** int(raw or 0) */
  function OrZero(raw: Raw): Count {
    if raw.Null? || raw.Hollow? then Value(0) else ToInt(raw)
  }

  /** Counts in the order they are read; the first that fails decides. */
  function CoerceUsage(prompt: Raw, completion: Raw, total: Raw): Coerced {
    match OrZero(prompt)
    case Rejected => Skip
    case Overflow => Raise
    case Value(p) =>
      match OrZero(completion)
      case Rejected => Skip
      case Overflow => Raise
      case Value(c) =>
        if total.Null? then Usable(Counts(p, c, p + c))
        else
          match ToInt(total)
          case Rejected => Skip
          case Overflow => Raise
          case Value(t) => Usable(Counts(p, c, t))
  }

  /** A parsed output line; `customId` is "" when the line's id is missing or falsy. */
  datatype Line =
    | Unreadable
    | NotObject
    | Result(customId: string, hasError: bool, usage: Option<(Raw, Raw, Raw)>)

  function ReadLine(line: Line): Coerced {
    if !line.Result? || line.customId == "" || line.hasError || line.usage.None? then Skip
    else CoerceUsage(line.usage.value.0, line.usage.value.1, line.usage.value.2)
  }

  /** int() accepts it, or `or 0` replaces it. */
  predicate IsCount(raw: Raw) {
    raw.Null? || raw.Hollow? || raw.Number?
  }

  /**
   A line escapes the skip and raises exactly when it would be counted and the first of its
   counts that cannot be read, in reading order, is an infinity.
   */
  lemma LinesRaiseExactly(line: Line)
    ensures ReadLine(line).Raise? <==>
            && line.Result? && line.customId != "" && !line.hasError && line.usage.Some?
            && var (p, c, t) := line.usage.value;
               p.Infinite? || (IsCount(p) && (c.Infinite? || (IsCount(c) && t.Infinite?)))
  {
  }

  type Key = (string, string)

  datatype Usage = Usage(model: string, counts: Counts)

  /** The usable records of a file, in file order. */
  function Records(batch: string, model: string, lines: seq<Line>): Rows<Key, Usage> {
    if lines == [] then []
    else
      var before, last := Records(batch, model, lines[..|lines| - 1]), lines[|lines| - 1];
      match ReadLine(last)
      case Usable(counts) => before + [((batch, last.customId), Usage(model, counts))]
      case _ => before
  }

  predicate Explodes(lines: seq<Line>) {
    exists l :: l in lines && ReadLine(l).Raise?
  }

  // ---- What a file states ----

  /** A result with an id, no error and a usage whose counts can all be read. */
  predicate IsCounted(line: Line) {
    && line.Result? && line.customId != "" && !line.hasError && line.usage.Some?
    && IsCount(line.usage.value.0) && IsCount(line.usage.value.1)
    && (line.usage.value.2.Null? || line.usage.value.2.Number?)
  }

  /** Nothing, or an empty value, counts as zero; a total that is not stated is the sum. */
  predicate States(line: Line, c: Counts)
    requires IsCounted(line)
  {
    var (prompt, completion, total) := line.usage.value;
    && c.prompt == (if prompt.Number? then prompt.n else 0)
    && c.completion == (if completion.Number? then completion.n else 0)
    && c.total == (if total.Number? then total.n else c.prompt + c.completion)
  }

  /** Line `i` is the last one counted for this id. */
  ghost predicate IsLastFor(lines: seq<Line>, id: string, i: int) {
    && 0 <= i < |lines| && IsCounted(lines[i]) && lines[i].customId == id
    && forall j | i < j < |lines| && IsCounted(lines[j]) :: lines[j].customId != id
  }

  lemma CountedLinesAreUsable(line: Line)
    ensures IsCounted(line) <==> ReadLine(line).Usable?
    ensures IsCounted(line) ==> States(line, ReadLine(line).counts)
  {
  }

  /** What is written for an id is what the last line counted for it states, and nothing else is written. */
  lemma {:induction false} RecordsAreTheLastStated(batch: string, model: string, lines: seq<Line>, k: Key)
    ensures var last := LastWrite(Records(batch, model, lines), k);
            && (last.Some? <==> k.0 == batch && exists i :: IsLastFor(lines, k.1, i))
            && (last.Some? ==> last.value.model == model)
            && forall i | IsLastFor(lines, k.1, i) && last.Some? :: States(lines[i], last.value.counts)
  {
    if lines != [] {
      var init, n := lines[..|lines| - 1], |lines| - 1;
      RecordsAreTheLastStated(batch, model, init, k);
      CountedLinesAreUsable(lines[n]);
      LastForSnoc(lines, k.1);
      if IsCounted(lines[n]) {
        var row := ((batch, lines[n].customId), Usage(model, ReadLine(lines[n]).counts));
        LastWriteSnoc(Records(batch, model, init), row, k);
        if lines[n].customId == k.1 {
          assert IsLastFor(lines, k.1, n);
        }
      }
    }
  }

  lemma LastWriteSnoc(rows: Rows<Key, Usage>, row: (Key, Usage), k: Key)
    ensures LastWrite(rows + [row], k) == if row.0 == k then Some(row.1) else LastWrite(rows, k)
  {
    assert (rows + [row])[..|rows|] == rows;
  }

  lemma LastForSnoc(lines: seq<Line>, id: string)
    requires lines != []
    ensures var init, n := lines[..|lines| - 1], |lines| - 1;
            if IsCounted(lines[n]) && lines[n].customId == id then forall i :: IsLastFor(lines, id, i) <==> i == n
            else forall i :: IsLastFor(lines, id, i) <==> IsLastFor(init, id, i)
  {
  }

  // ---- Sums ----

  /** One column summed over a batch's rows. */
  function Column(table: Rows<Key, Usage>, batch: string, column: Counts -> int): int {
    if table == [] then 0
    else Column(table[..|table| - 1], batch, column) + if table[|table| - 1].0.0 == batch then column(table[|table| - 1].1.counts) else 0
  }

  lemma {:induction false} SumsAreColumns(table: Rows<Key, Usage>, batch: string)
    ensures var s := Sums(table, batch);
            && s.prompt == Column(table, batch, (c: Counts) => c.prompt)
            && s.completion == Column(table, batch, (c: Counts) => c.completion)
            && s.total == Column(table, batch, (c: Counts) => c.total)
  {
    if table != [] {
      SumsAreColumns(table[..|table| - 1], batch);
    }
  }

  function Add(a: Counts, b: Counts): Counts {
    Counts(a.prompt + b.prompt, a.completion + b.completion, a.total + b.total)
  }

  /** The three column sums over one batch's rows. */
  function Sums(table: Rows<Key, Usage>, batch: string): Counts {
    if table == [] then Counts(0, 0, 0)
    else
      var before := Sums(table[..|table| - 1], batch);
      if table[|table| - 1].0.0 == batch then Add(before, table[|table| - 1].1.counts) else before
  }

  // ---- The store ----

  datatype BatchUsage = BatchUsage(
    model: string, completed: bool, completedAt: int, outputFile: string, pending: bool, attempts: nat, totals: Counts)

  /** A run dies at, or its database refuses, commit number `at`; the rollup commit is the last. */
  datatype Fault = NoFault | Dies(at: nat) | Refuses(at: nat)

  datatype Outcome = NoBatch | Done | Failed | Killed

  /** A batch after a run that reached its end. */
  function Settled(b: BatchUsage, table: Rows<Key, Usage>, batch: string, wrote: bool): BatchUsage {
    b.(pending := false, totals := if wrote then Sums(table, batch) else b.totals)
  }

  class UsageStore {
    var table: Rows<Key, Usage>
    var batches: map<string, BatchUsage>

    /** INSERT .. ON CONFLICT DO UPDATE, which is refused when two of its rows hit the same key. */
    method Upsert(rows: Rows<Key, Usage>)
      requires Unique(table) && Unique(rows)
      modifies this`table
      ensures table == PutAll(old(table), rows) && Unique(table)
    {
      for i := 0 to |rows|
        invariant table == PutAll(old(table), rows[..i]) && Unique(table)
      {
        assert rows[..i + 1][..i] == rows[..i];
        UniquePut(table, rows[i].0, rows[i].1);
        table := Put(table, rows[i].0, rows[i].1);
      }
      assert rows[..|rows|] == rows;
    }

    /** One chunk: collapse its duplicates, then one statement. */
    method UpsertChunk(chunk: Rows<Key, Usage>)
      requires Unique(table)
      modifies this`table
      ensures table == PutAll(old(table), chunk) && Unique(table)
    {
      var collapsed: Rows<Key, Usage> := [];
      for i := 0 to |chunk|
        invariant collapsed == PutAll([], chunk[..i]) && Unique(collapsed) && table == old(table)
      {
        assert chunk[..i + 1][..i] == chunk[..i];
        UniquePut(collapsed, chunk[i].0, chunk[i].1);
        collapsed := Put(collapsed, chunk[i].0, chunk[i].1);
      }
      assert chunk[..|chunk|] == chunk;
      CollapsedPutAll(table, chunk);
      Upsert(collapsed);
    }

    /** Flush one chunk, the last of `records`, unless the run is cut short at this commit. */
    method Flush(chunk: Rows<Key, Usage>, written: nat, commit: nat, fault: Fault,
                 ghost base: Rows<Key, Usage>, ghost records: Rows<Key, Usage>)
      returns (outcome: Outcome, now: nat)
      requires Unique(table) && Split(records, written, chunk) && table == PutAll(base, records[..written])
      modifies this`table
      ensures Unique(table)
      ensures outcome == Cut(fault, commit) && now == if outcome == Done then |records| else written
      ensures table == PutAll(base, records[..now])
    {
      outcome, now := Cut(fault, commit), written;
      if outcome == Done {
        PutAllSplit(base, records, written, chunk);
        UpsertChunk(chunk);
        now := written + |chunk|;
      }
    }

    /** A full chunk is flushed and a new one begun. */
    method FlushWhenFull(chunk: Rows<Key, Usage>, written: nat, commits: nat, chunkSize: nat, fault: Fault,
                         ghost base: Rows<Key, Usage>, ghost records: Rows<Key, Usage>)
      returns (outcome: Outcome, written1: nat, commits1: nat, chunk1: Rows<Key, Usage>)
      requires Unique(table) && Split(records, written, chunk) && table == PutAll(base, records[..written])
      requires 1 <= chunkSize && |chunk| <= chunkSize && written == commits * chunkSize
      modifies this`table
      ensures Unique(table) && Split(records, written1, chunk1) && table == PutAll(base, records[..written1])
      ensures written1 == commits1 * chunkSize
      ensures outcome == Done || (outcome == Cut(fault, commits) && commits1 == commits)
      ensures outcome == Done && commits1 != commits ==> commits1 == commits + 1 && Cut(fault, commits) == Done
      ensures outcome == Done ==> |chunk1| < chunkSize
    {
      outcome, written1, commits1, chunk1 := Done, written, commits, chunk;
      if |chunk| >= chunkSize {
        outcome, written1 := Flush(chunk, written, commits, fault, base, records);
        if outcome == Done {
          assert (commits + 1) * chunkSize == commits * chunkSize + chunkSize;
          commits1, chunk1 := commits + 1, [];
        }
      }
    }

    /** The reading loop; `written` counts the records that reached the table. */
    method WriteRecords(batch: string, model: string, lines: seq<Line>, chunkSize: nat, fault: Fault)
      returns (outcome: Outcome, written: nat, commits: nat)
      requires Unique(table) && chunkSize >= 1
      modifies this`table
      ensures Unique(table)
      ensures written <= |Records(batch, model, lines)|
      ensures table == PutAll(old(table), Records(batch, model, lines)[..written])
      ensures outcome == Done ==> written == |Records(batch, model, lines)| && !Explodes(lines)
      ensures outcome != Done ==> written == commits * chunkSize
      ensures outcome == Done ==> commits * chunkSize < written + chunkSize && written <= commits * chunkSize
      ensures outcome != NoBatch && (fault == NoFault ==> outcome == if Explodes(lines) then Failed else Done)
      ensures fault.Dies? ==> commits <= fault.at
      ensures outcome == Killed ==> fault == Dies(commits)
      ensures outcome == Failed ==> Explodes(lines) || fault == Refuses(commits)
    {
      outcome, written, commits := Done, 0, 0;
      var chunk: Rows<Key, Usage> := [];
      var i := 0;
      while i < |lines| && outcome == Done
        invariant 0 <= i <= |lines| && Unique(table) && outcome != NoBatch
        invariant Split(Records(batch, model, lines[..i]), written, chunk)
        invariant written == commits * chunkSize && (outcome == Done ==> |chunk| < chunkSize)
        invariant table == PutAll(old(table), Records(batch, model, lines[..i])[..written])
        invariant outcome == Done ==> !Explodes(lines[..i])
        invariant fault == NoFault && outcome != Done ==> outcome == Failed && Explodes(lines[..i])
        invariant fault.Dies? ==> commits <= fault.at
        invariant outcome == Killed ==> fault == Dies(commits)
        invariant outcome == Failed ==> Explodes(lines[..i]) || fault == Refuses(commits)
      {
        assert lines[..i + 1][..i] == lines[..i];
        assert lines[..i + 1] == lines[..i] + [lines[i]];
        assert lines[i] in lines[..i + 1];
        var read := ReadLine(lines[i]);
        i := i + 1;
        if read.Raise? {
          outcome := Failed;
        } else if read.Usable? {
          ghost var before := Records(batch, model, lines[..i - 1]);
          chunk := chunk + [((batch, lines[i - 1].customId), Usage(model, read.counts))];
          TakeOfLonger(before, chunk[|chunk| - 1], written);
          outcome, written, commits, chunk :=
            FlushWhenFull(chunk, written, commits, chunkSize, fault, old(table), Records(batch, model, lines[..i]));
        }
      }
      PrefixRecords(batch, model, lines, i);
      assert Records(batch, model, lines)[..written] == Records(batch, model, lines[..i])[..written];
      if outcome == Done && chunk != [] {
        outcome, written := Flush(chunk, written, commits, fault, old(table), Records(batch, model, lines));
        assert (commits + 1) * chunkSize == commits * chunkSize + chunkSize;
        commits := if outcome == Done then commits + 1 else commits;
      }
    }

    /** Sum three columns over the batch's rows. */
    method SumRows(batch: string) returns (sums: Counts)
      ensures sums == Sums(table, batch)
    {
      sums := Counts(0, 0, 0);
      for i := 0 to |table|
        invariant sums == Sums(table[..i], batch)
      {
        assert table[..i + 1][..i] == table[..i];
        if table[i].0.0 == batch {
          sums := Add(sums, table[i].1.counts);
        }
      }
      assert table[..|table|] == table;
    }

    /** The end of a run: the flag is cleared, the totals are recomputed when it wrote anything. */
    method Settle(batch: string, wrote: bool)
      requires batch in batches
      modifies this`batches
      ensures batches == old(batches)[batch := Settled(old(batches)[batch], table, batch, wrote)]
      ensures !batches[batch].pending && (wrote ==> HasTotals(batches[batch].totals, table, batch))
    {
      SumsAreColumns(table, batch);
      var sums := SumRows(batch);
      var b := batches[batch];
      batches := batches[batch := b.(pending := false, totals := if wrote then sums else b.totals)];
    }

    /**
     `ingest_usage_records`: a run that ends clears the flag, whatever it found; one that
     raises leaves it and counts; one that dies leaves everything but the chunks it committed.
     */
    method Ingest(batch: string, file: Option<seq<Line>>, chunkSize: nat, fault: Fault) returns (outcome: Outcome, written: nat, commits: nat)
      requires Unique(table) && chunkSize >= 1
      modifies this
      ensures Unique(table)
      ensures outcome == NoBatch <==> batch !in old(batches)
      ensures outcome == NoBatch || outcome == Killed ==> batches == old(batches)
      ensures batch !in old(batches) || file.None? ==> written == 0 && table == old(table)
      ensures batch in old(batches) && file.Some? ==>
                var records := Records(batch, old(batches)[batch].model, file.value);
                && written <= |records| && table == PutAll(old(table), records[..written])
                && (outcome == Done ==> written == |records| && !Explodes(file.value))
                && (outcome != Done ==> written == commits * chunkSize || written == |records|)
                && written <= commits * chunkSize
                && (outcome == Failed ==> Explodes(file.value) || fault == Refuses(commits))
      ensures outcome == Killed ==> fault == Dies(commits)
      ensures outcome == Done && fault.Dies? ==> commits < fault.at
      ensures outcome == Failed ==>
                batches == old(batches)[batch := old(batches)[batch].(attempts := old(batches)[batch].attempts + 1)]
      ensures outcome == Done ==>
                batches == old(batches)[batch := Settled(old(batches)[batch], table, batch, written > 0)]
      ensures batch in old(batches) && fault == NoFault ==>
                outcome == if file.Some? && Explodes(file.value) then Failed else Done
      // After a run that ended: the last counted line of every id, and the column sums.
      ensures outcome == Done && file.Some? ==> HoldsFile(old(table), table, batch, old(batches)[batch].model, file.value)
      ensures outcome == Done && written > 0 ==> HasTotals(batches[batch].totals, table, batch)
      ensures outcome == Done ==> !batches[batch].pending
    {
      if batch !in batches {
        return NoBatch, 0, 0;
      }
      var b := batches[batch];
      outcome, written, commits := Done, 0, 0;
      if file.Some? {
        outcome, written, commits := WriteRecords(batch, b.model, file.value, chunkSize, fault);
      }
      if outcome == Done {
        outcome := Cut(fault, commits);
      }
      if outcome == Done {
        if file.Some? {
          IngestedFile(old(table), table, batch, b.model, file.value, written);
        }
        Settle(batch, written > 0);
      } else if outcome == Failed {
        batches := batches[batch := b.(attempts := b.attempts + 1)];
      }
    }
  }

  /** Each id of the file has the row its last counted line states; every other row is as it was. */
  ghost predicate HoldsFile(before: Rows<Key, Usage>, after: Rows<Key, Usage>, batch: string, model: string, lines: seq<Line>) {
    forall k: Key ::
      if k.0 == batch && exists i :: IsLastFor(lines, k.1, i) then
        exists i, c :: IsLastFor(lines, k.1, i) && States(lines[i], c) && Find(after, k) == Some(Usage(model, c))
      else Find(after, k) == Find(before, k)
  }

  ghost predicate HasTotals(totals: Counts, table: Rows<Key, Usage>, batch: string) {
    && totals.prompt == Column(table, batch, (c: Counts) => c.prompt)
    && totals.completion == Column(table, batch, (c: Counts) => c.completion)
    && totals.total == Column(table, batch, (c: Counts) => c.total)
  }

  lemma IngestedFile(before: Rows<Key, Usage>, after: Rows<Key, Usage>, batch: string, model: string, lines: seq<Line>, written: nat)
    requires written == |Records(batch, model, lines)| && after == PutAll(before, Records(batch, model, lines)[..written])
    ensures HoldsFile(before, after, batch, model, lines)
  {
    var records := Records(batch, model, lines);
    assert records[..written] == records;
    forall k: Key
      ensures if k.0 == batch && exists i :: IsLastFor(lines, k.1, i) then
                exists i, c :: IsLastFor(lines, k.1, i) && States(lines[i], c) && Find(after, k) == Some(Usage(model, c))
              else Find(after, k) == Find(before, k)
    {
      FindPutAll(before, records, k);
      RecordsAreTheLastStated(batch, model, lines, k);
      if LastWrite(records, k).Some? {
        var i :| IsLastFor(lines, k.1, i);
        var u := LastWrite(records, k).value;
        assert States(lines[i], u.counts) && Usage(model, u.counts) == u;
      }
    }
  }

  /** What cutting short at a commit looks like to the run. */
  function Cut(fault: Fault, commit: nat): Outcome {
    match fault
    case NoFault => Done
    case Dies(at) => if at == commit then Killed else Done
    case Refuses(at) => if at == commit then Failed else Done
  }

  ghost predicate Split(records: Rows<Key, Usage>, written: nat, chunk: Rows<Key, Usage>) {
    written <= |records| && records[written..] == chunk
  }

  lemma TakeOfLonger(before: Rows<Key, Usage>, row: (Key, Usage), written: nat)
    requires written <= |before|
    ensures (before + [row])[..written] == before[..written]
    ensures (before + [row])[written..] == before[written..] + [row]
  {
  }

  lemma PutAllSplit(table: Rows<Key, Usage>, records: Rows<Key, Usage>, written: nat, chunk: Rows<Key, Usage>)
    requires Split(records, written, chunk)
    ensures PutAll(PutAll(table, records[..written]), chunk) == PutAll(table, records)
    ensures written + |chunk| == |records| && records[..written + |chunk|] == records
  {
    Rejoined(records, written, chunk);
    PutAllConcat(table, records[..written], chunk);
  }

  lemma Rejoined(records: Rows<Key, Usage>, written: nat, chunk: Rows<Key, Usage>)
    requires Split(records, written, chunk)
    ensures records[..written] + chunk == records
    ensures written + |chunk| == |records| && records[..written + |chunk|] == records
  {
  }

  /** The records of a prefix of the file are a prefix of its records. */
  lemma {:induction false} PrefixRecords(batch: string, model: string, lines: seq<Line>, i: nat)
    requires i <= |lines|
    ensures Records(batch, model, lines[..i]) <= Records(batch, model, lines)
    ensures Explodes(lines[..i]) ==> Explodes(lines)
    ensures i == |lines| ==> lines[..i] == lines
  {
    if i < |lines| {
      assert lines[..|lines| - 1][..i] == lines[..i];
      PrefixRecords(batch, model, lines[..|lines| - 1], i);
    } else {
      assert lines[..i] == lines;
    }
  }

  // ---- Runs over the same file ----

  /** The rows of one batch. */
  function OfBatch(table: Rows<Key, Usage>, batch: string): Rows<Key, Usage> {
    if table == [] then []
    else
      var before := OfBatch(table[..|table| - 1], batch);
      if table[|table| - 1].0.0 == batch then before + [table[|table| - 1]] else before
  }

  /** What runs wrote that were each cut short after so many records. */
  function Interrupted(records: Rows<Key, Usage>, cuts: seq<nat>): Rows<Key, Usage>
    requires forall i :: 0 <= i < |cuts| ==> cuts[i] <= |records|
  {
    if cuts == [] then [] else Interrupted(records, cuts[..|cuts| - 1]) + records[..cuts[|cuts| - 1]]
  }

  /** However often a file's ingestion was cut short, one run to the end leaves what one clean run would. */
  lemma {:induction false} RestartsConverge(table: Rows<Key, Usage>, records: Rows<Key, Usage>, cuts: seq<nat>)
    requires Unique(table) && forall i :: 0 <= i < |cuts| ==> cuts[i] <= |records|
    ensures PutAll(table, Interrupted(records, cuts) + records) == PutAll(table, records)
  {
    if cuts == [] {
      assert [] + records == records;
    } else {
      var init, k := cuts[..|cuts| - 1], cuts[|cuts| - 1];
      var done := Interrupted(records, init);
      RestartsConverge(table, records, init);
      PutAllConcat(table, done, records);
      PutAllConcat(table, done + records[..k], records);
      PutAllConcat(table, done, records[..k]);
      UniquePutAll(table, done);
      RestartedPutAll(PutAll(table, done), records[..k], records[k..]);
      assert records[..k] + records[k..] == records;
    }
  }

  lemma {:induction false} OfBatchConcat(a: Rows<Key, Usage>, b: Rows<Key, Usage>, batch: string)
    ensures OfBatch(a + b, batch) == OfBatch(a, batch) + OfBatch(b, batch)
  {
    if b == [] {
      assert a + b == a;
    } else {
      OfBatchConcat(a, b[..|b| - 1], batch);
      assert (a + b)[..|a + b| - 1] == a + b[..|b| - 1];
    }
  }

  lemma OfBatchFront(table: Rows<Key, Usage>, batch: string)
    requires table != []
    ensures table[0].0.0 == batch ==> OfBatch(table, batch) == [table[0]] + OfBatch(table[1..], batch)
    ensures table[0].0.0 == batch ==> OfBatch(table, batch)[1..] == OfBatch(table[1..], batch)
    ensures table[0].0.0 != batch ==> OfBatch(table, batch) == OfBatch(table[1..], batch)
  {
    assert table == [table[0]] + table[1..];
    OfBatchConcat([table[0]], table[1..], batch);
    assert [table[0]][..0] == [];
  }

  lemma {:induction false} PutInBatch(table: Rows<Key, Usage>, k: Key, v: Usage, batch: string)
    ensures OfBatch(Put(table, k, v), batch) ==
            if k.0 == batch then Put(OfBatch(table, batch), k, v) else OfBatch(table, batch)
  {
    var after := Put(table, k, v);
    OfBatchFront(after, batch);
    if table != [] {
      OfBatchFront(table, batch);
      assert after[1..] == if table[0].0 == k then table[1..] else Put(table[1..], k, v);
      if table[0].0 != k {
        PutInBatch(table[1..], k, v, batch);
      }
    }
  }

  /** What other batches' runs write in between does not touch a batch's rows. */
  lemma {:induction false} BatchesDoNotMix(table: Rows<Key, Usage>, log: Rows<Key, Usage>, batch: string)
    ensures OfBatch(PutAll(table, log), batch) == PutAll(OfBatch(table, batch), OfBatch(log, batch))
  {
    if log != [] {
      var init, last := log[..|log| - 1], log[|log| - 1];
      BatchesDoNotMix(table, init, batch);
      PutInBatch(PutAll(table, init), last.0, last.1, batch);
      if last.0.0 == batch {
        assert (OfBatch(init, batch) + [last])[..|OfBatch(init, batch)|] == OfBatch(init, batch);
      }
    }
  }

  lemma {:induction false} SumsOfBatch(table: Rows<Key, Usage>, batch: string)
    ensures Sums(table, batch) == Sums(OfBatch(table, batch), batch)
  {
    if table != [] {
      SumsOfBatch(table[..|table| - 1], batch);
      var before := OfBatch(table[..|table| - 1], batch);
      if table[|table| - 1].0.0 == batch {
        assert (before + [table[|table| - 1]])[..|before|] == before;
      }
    }
  }

  /**
   In any interleaving of chunks from any batches' runs, a batch whose interrupted runs were
   followed by a complete one holds exactly its file's last-write-wins table, and the
   rollups are the sums over it.
   */
  lemma IngestedUsageIsLastWriteWins(table: Rows<Key, Usage>, log: Rows<Key, Usage>, batch: string, model: string,
                                     lines: seq<Line>, cuts: seq<nat>)
    requires Unique(table) && OfBatch(table, batch) == []
    requires forall i :: 0 <= i < |cuts| ==> cuts[i] <= |Records(batch, model, lines)|
    requires OfBatch(log, batch) == Interrupted(Records(batch, model, lines), cuts) + Records(batch, model, lines)
    ensures OfBatch(PutAll(table, log), batch) == PutAll([], Records(batch, model, lines))
    ensures forall k: Key | k.0 == batch ::
              Find(PutAll(table, log), k) == LastWrite(Records(batch, model, lines), k)
    ensures Sums(PutAll(table, log), batch) == Sums(PutAll([], Records(batch, model, lines)), batch)
  {
    var records, after := Records(batch, model, lines), PutAll(table, log);
    BatchesDoNotMix(table, log, batch);
    RestartsConverge([], records, cuts);
    SumsOfBatch(after, batch);
    forall k: Key | k.0 == batch ensures Find(after, k) == LastWrite(records, k) {
      FindInBatch(after, k);
      FindPutAll([], records, k);
    }
  }

  lemma {:induction false} FindInBatch(table: Rows<Key, Usage>, k: Key)
    ensures Find(table, k) == Find(OfBatch(table, k.0), k)
  {
    if table != [] {
      OfBatchFront(table, k.0);
      FindInBatch(table[1..], k);
    }
  }
}

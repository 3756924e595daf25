/**
 Two runs over one output file at the same time (backend/services/usage_ingest.py), as when an
 upload is replayed or a sweep retries a batch whose first run is still at work: what the table
 and the batch's totals hold at the end.
 */
module OverlappingRuns {
  import opened Options
  import opened KeyedRows
  import opened UsageIngest

  // ---- The table ----

  /** `log` interleaves two sequences, each in its own order. */
  ghost predicate IsMerge<T>(log: seq<T>, a: seq<T>, b: seq<T>) {
    if log == [] then a == [] && b == []
    else
      var init, last := log[..|log| - 1], log[|log| - 1];
      || (a != [] && a[|a| - 1] == last && IsMerge(init, a[..|a| - 1], b))
      || (b != [] && b[|b| - 1] == last && IsMerge(init, a, b[..|b| - 1]))
  }

  /** The last write of a key is the last one of either run. */
  lemma {:induction false} MergedWrites(log: Rows<Key, Usage>, a: Rows<Key, Usage>, b: Rows<Key, Usage>, k: Key)
    requires IsMerge(log, a, b)
    ensures LastWrite(log, k) == LastWrite(a, k) || LastWrite(log, k) == LastWrite(b, k)
    ensures LastWrite(log, k).None? ==> LastWrite(a, k).None? && LastWrite(b, k).None?
  {
    if log != [] {
      var init, last := log[..|log| - 1], log[|log| - 1];
      if a != [] && a[|a| - 1] == last && IsMerge(init, a[..|a| - 1], b) {
        MergedWrites(init, a[..|a| - 1], b, k);
      } else {
        MergedWrites(init, a, b[..|b| - 1], k);
      }
    }
  }

  /** What one more record does to the keys. */
  function WithKey(ks: seq<Key>, k: Key): seq<Key> {
    if k in ks then ks else ks + [k]
  }

  lemma KeysOfOneMore(ks: seq<Key>, rows: Rows<Key, Usage>)
    requires rows != []
    ensures AppendNew(ks, KeysOf(rows)) == WithKey(AppendNew(ks, KeysOf(rows[..|rows| - 1])), rows[|rows| - 1].0)
  {
    assert KeysOf(rows)[..|rows| - 1] == KeysOf(rows[..|rows| - 1]);
  }

  /** The keys after the first `n` records. */
  function KeysAfter(ks: seq<Key>, records: Rows<Key, Usage>, n: nat): seq<Key>
    requires n <= |records|
  {
    AppendNew(ks, KeysOf(records[..n]))
  }

  lemma OneMoreKey(ks: seq<Key>, records: Rows<Key, Usage>, i: nat, j: nat)
    requires i < |records| && j <= |records|
    ensures i < j ==> WithKey(KeysAfter(ks, records, j), records[i].0) == KeysAfter(ks, records, j)
    ensures i >= j ==> WithKey(KeysAfter(ks, records, i), records[i].0) == KeysAfter(ks, records, i + 1)
  {
    if i < j {
      assert KeysOf(records[..j])[i] == records[i].0;
      AppendNewMembers(ks, KeysOf(records[..j]), records[i].0);
    } else {
      assert records[..i + 1][..i] == records[..i];
      KeysOfOneMore(ks, records[..i + 1]);
    }
  }

  function Max(i: nat, j: nat): nat {
    if i < j then j else i
  }

  /** `records[..i]` and `records[..j]`, interleaved, name new keys in the order of the longer. */
  lemma {:induction false} MergedKeys(ks: seq<Key>, log: Rows<Key, Usage>, records: Rows<Key, Usage>, i: nat, j: nat)
    requires i <= |records| && j <= |records| && IsMerge(log, records[..i], records[..j])
    ensures AppendNew(ks, KeysOf(log)) == KeysAfter(ks, records, Max(i, j))
  {
    if log == [] {
      assert i == 0 && j == 0;
    } else {
      var init, last := log[..|log| - 1], log[|log| - 1];
      KeysOfOneMore(ks, log);
      if i > 0 && records[i - 1] == last && IsMerge(init, records[..i][..i - 1], records[..j]) {
        assert records[..i][..i - 1] == records[..i - 1];
        MergedKeys(ks, init, records, i - 1, j);
        OneMoreKey(ks, records, i - 1, j);
      } else {
        assert records[..j][..j - 1] == records[..j - 1];
        MergedKeys(ks, init, records, i, j - 1);
        OneMoreKey(ks, records, j - 1, i);
      }
    }
  }

  lemma {:induction false} MergeSwaps<T>(log: seq<T>, a: seq<T>, b: seq<T>)
    ensures IsMerge(log, a, b) <==> IsMerge(log, b, a)
  {
    if log != [] {
      var init := log[..|log| - 1];
      if a != [] { MergeSwaps(init, a[..|a| - 1], b); }
      if b != [] { MergeSwaps(init, a, b[..|b| - 1]); }
    }
  }

  /** No key among the first `j` records gets another value later in the file. */
  ghost predicate PrefixIsFinal(records: Rows<Key, Usage>, j: nat)
    requires j <= |records|
  {
    forall i :: 0 <= i < j ==> LastWrite(records[..j], records[i].0) == LastWrite(records, records[i].0)
  }

  lemma FinalPrefixWrites(records: Rows<Key, Usage>, j: nat, k: Key)
    requires j <= |records| && PrefixIsFinal(records, j)
    ensures LastWrite(records[..j], k).Some? ==> LastWrite(records[..j], k) == LastWrite(records, k)
  {
    LastWriteMembers(records[..j], k);
    if LastWrite(records[..j], k).Some? {
      var i :| 0 <= i < j && KeysOf(records[..j])[i] == k;
      assert records[i].0 == k;
    }
  }

  /**
   A complete run interleaved with the first `j` records of another over the same file leaves
   the very table of one run, if no key among those records gets another value later.
   */
  lemma SecondRunKeepsTheTable(table: Rows<Key, Usage>, log: Rows<Key, Usage>, records: Rows<Key, Usage>, j: nat)
    requires Unique(table) && j <= |records| && PrefixIsFinal(records, j) && IsMerge(log, records, records[..j])
    ensures PutAll(table, log) == PutAll(table, records)
  {
    var a, b := PutAll(table, log), PutAll(table, records);
    forall k: Key ensures Find(a, k) == Find(b, k) {
      MergedWrites(log, records, records[..j], k);
      FinalPrefixWrites(records, j, k);
      FindPutAll(table, log, k);
      FindPutAll(table, records, k);
    }
    assert records[..|records|] == records;
    MergedKeys(KeysOf(table), log, records, |records|, j);
    KeysPutAll(table, log);
    KeysPutAll(table, records);
    UniquePutAll(table, log);
    SameTable(a, b);
  }

  /**
   Two complete runs over one file at the same time, as after a replayed upload, leave the very
   table of one run, however their writes interleave.
   */
  lemma OverlappingRunsAgree(table: Rows<Key, Usage>, log: Rows<Key, Usage>, records: Rows<Key, Usage>)
    requires Unique(table) && IsMerge(log, records, records)
    ensures PutAll(table, log) == PutAll(table, records)
  {
    assert records[..|records|] == records;
    SecondRunKeepsTheTable(table, log, records, |records|);
  }

  // ---- A second run that is cut short ----

  lemma {:induction false} OneAfterTheOther<T>(a: seq<T>, b: seq<T>)
    ensures IsMerge(a + b, a, b)
  {
    if b != [] {
      assert (a + b)[..|a + b| - 1] == a + b[..|b| - 1];
      OneAfterTheOther(a, b[..|b| - 1]);
    } else if a != [] {
      assert (a + b)[..|a + b| - 1] == a[..|a| - 1] + [];
      OneAfterTheOther(a[..|a| - 1], []);
    }
  }

  /**
   A second run over the same file that dies after `j` records, started before the first one
   finished, is harmless under every interleaving exactly when no key among those records gets
   another value later in the file.
   */
  lemma SecondRunIsHarmlessExactly(table: Rows<Key, Usage>, records: Rows<Key, Usage>, j: nat)
    requires Unique(table) && j <= |records|
    ensures (forall log :: IsMerge(log, records, records[..j]) ==> PutAll(table, log) == PutAll(table, records))
            <==> PrefixIsFinal(records, j)
  {
    if PrefixIsFinal(records, j) {
      forall log | IsMerge(log, records, records[..j]) ensures PutAll(table, log) == PutAll(table, records) {
        SecondRunKeepsTheTable(table, log, records, j);
      }
    } else {
      var i :| 0 <= i < j && LastWrite(records[..j], records[i].0) != LastWrite(records, records[i].0);
      OneAfterTheOther(records, records[..j]);
      StaleWriteShows(table, records, j, i);
      assert PutAll(table, records + records[..j]) != PutAll(table, records);
    }
  }

  /** What the second run wrote last is what a lookup finds. */
  lemma StaleWriteShows(table: Rows<Key, Usage>, records: Rows<Key, Usage>, j: nat, i: nat)
    requires i < j <= |records|
    ensures var k := records[i].0;
            && Find(PutAll(table, records + records[..j]), k) == LastWrite(records[..j], k)
            && Find(PutAll(table, records), k) == LastWrite(records, k)
  {
    var k := records[i].0;
    FindPutAll(table, records + records[..j], k);
    FindPutAll(table, records, k);
    LastWriteConcat(records, records[..j], k);
    LastWriteMembers(records[..j], k);
    LastWriteMembers(records, k);
    assert KeysOf(records[..j])[i] == k && KeysOf(records)[i] == k;
  }

  function CountedLine(id: string, tokens: int): Line {
    Result(id, false, Some((Number(tokens), Number(0), Null)))
  }

  function Tokens(n: int): Usage {
    Usage("m", Counts(n, 0, n))
  }

  function Repeat<T>(x: T, n: nat): (s: seq<T>)
    ensures |s| == n
  {
    if n == 0 then [] else Repeat(x, n - 1) + [x]
  }

  /** `n` lines of one id with one token, and a last one with two. */
  function RestatedFile(id: string, n: nat): seq<Line> {
    Repeat(CountedLine(id, 1), n) + [CountedLine(id, 2)]
  }

  lemma RecordsOfOneMore(lines: seq<Line>, id: string, tokens: int)
    requires id != ""
    ensures Records("b", "m", lines + [CountedLine(id, tokens)]) == Records("b", "m", lines) + [(("b", id), Tokens(tokens))]
  {
    var more := lines + [CountedLine(id, tokens)];
    assert more[..|more| - 1] == lines;
    assert ReadLine(CountedLine(id, tokens)) == Usable(Counts(tokens, 0, tokens));
  }

  lemma {:induction false} RecordsOfRepeated(id: string, n: nat)
    requires id != ""
    ensures Records("b", "m", Repeat(CountedLine(id, 1), n)) == Repeat((("b", id), Tokens(1)), n)
  {
    if n > 0 {
      RecordsOfRepeated(id, n - 1);
      RecordsOfOneMore(Repeat(CountedLine(id, 1), n - 1), id, 1);
    }
  }

  lemma PutAllOneMore(table: Rows<Key, Usage>, log: Rows<Key, Usage>, k: Key, u: Usage)
    ensures PutAll(table, log + [(k, u)]) == Put(PutAll(table, log), k, u)
  {
    assert (log + [(k, u)])[..|log|] == log;
  }

  lemma {:induction false} RepeatedWrites(table: Rows<Key, Usage>, k: Key, u: Usage, n: nat)
    requires n >= 1 && (table == [] || exists was :: table == [(k, was)])
    ensures PutAll(table, Repeat((k, u), n)) == [(k, u)]
  {
    PutAllOneMore(table, Repeat((k, u), n - 1), k, u);
    if n > 1 {
      RepeatedWrites(table, k, u, n - 1);
    }
  }

  /** One id stated once more than `n` times: what is left depends on who wrote last. */
  lemma RestatedWrites(k: Key, one: Usage, two: Usage, n: nat)
    requires n >= 1 && one != two
    ensures var records := Repeat((k, one), n) + [(k, two)];
            && records[..n] == Repeat((k, one), n)
            && PutAll([], records) == [(k, two)] && PutAll([(k, two)], records[..n]) == [(k, one)]
            && !PrefixIsFinal(records, n)
  {
    var some := Repeat((k, one), n);
    var records := some + [(k, two)];
    assert records[..n] == some;
    RepeatedWrites([], k, one, n);
    PutAllOneMore([], some, k, two);
    RepeatedWrites([(k, two)], k, one, n);
    FirstOfRepeated((k, one), n);
    assert records[0] == some[0];
    FindPutAll([], some, k);
    FindPutAll([], records, k);
  }

  /**
   The input that shows it, whatever the chunk size: a file that states one id once more than a
   chunk holds. The first run ends with two tokens in the table and in the batch's totals; the
   second dies after its first chunk and leaves one token in the table, while the totals say
   two and the flag is clear.
   */
  lemma ADyingSecondRunLeavesAStaleRow(b: BatchUsage, id: string, chunkSize: nat)
    requires id != "" && chunkSize >= 1
    ensures var records := Records("b", "m", RestatedFile(id, chunkSize));
            var first := PutAll([], records);
            var ended := Settled(b, first, "b", true);
            && |records| == chunkSize + 1 && !PrefixIsFinal(records, chunkSize)
            && !ended.pending && ended.totals == Counts(2, 0, 2)
            && Sums(PutAll(first, records[..chunkSize]), "b") == Counts(1, 0, 1)
  {
    RecordsOfRepeated(id, chunkSize);
    RecordsOfOneMore(Repeat(CountedLine(id, 1), chunkSize), id, 2);
    RestatedWrites(("b", id), Tokens(1), Tokens(2), chunkSize);
    OneRowSums(("b", id), Tokens(1));
    OneRowSums(("b", id), Tokens(2));
  }

  lemma {:induction false} FirstOfRepeated<T>(x: T, n: nat)
    requires n >= 1
    ensures Repeat(x, n)[0] == x
  {
    if n > 1 {
      FirstOfRepeated(x, n - 1);
    }
  }

  lemma OneRowSums(k: Key, u: Usage)
    ensures Sums([(k, u)], k.0) == u.counts
  {
    assert [(k, u)][..0] == [];
  }

  /**
   So a fully ingested batch holds its file's last-write-wins map although a second run overlapped
   its runs and was cut short, as long as the prefix that run wrote is final.
   */
  lemma IngestedDespiteASecondRun(table: Rows<Key, Usage>, log: Rows<Key, Usage>, batch: string, records: Rows<Key, Usage>,
                                  cuts: seq<nat>, j: nat, k: Key)
    requires k.0 == batch && OfBatch(table, batch) == []
    requires forall i :: 0 <= i < |cuts| ==> cuts[i] <= |records|
    requires j <= |records| && PrefixIsFinal(records, j)
    requires IsMerge(OfBatch(log, batch), Interrupted(records, cuts) + records, records[..j])
    ensures Find(PutAll(table, log), k) == LastWrite(records, k)
  {
    var own := OfBatch(log, batch);
    BatchesDoNotMix(table, log, batch);
    FindInBatch(PutAll(table, log), k);
    FindPutAll([], own, k);
    MergedWrites(own, Interrupted(records, cuts) + records, records[..j], k);
    LastWriteConcat(Interrupted(records, cuts), records, k);
    InterruptedWritesNothingElse(records, cuts, k);
    FinalPrefixWrites(records, j, k);
  }

  lemma {:induction false} InterruptedWritesNothingElse(records: Rows<Key, Usage>, cuts: seq<nat>, k: Key)
    requires forall i :: 0 <= i < |cuts| ==> cuts[i] <= |records|
    ensures LastWrite(Interrupted(records, cuts), k).Some? ==> LastWrite(records, k).Some?
  {
    if cuts != [] {
      var n := cuts[|cuts| - 1];
      InterruptedWritesNothingElse(records, cuts[..|cuts| - 1], k);
      LastWriteConcat(Interrupted(records, cuts[..|cuts| - 1]), records[..n], k);
      LastWriteConcat(records[..n], records[n..], k);
      assert records[..n] + records[n..] == records;
    }
  }

  // ---- The batch's totals ----

  datatype Run = Former | Latter

  /** A run upserts its records, reads the sums of the batch's rows, and commits them as totals. */
  datatype Op = Write(row: (Key, Usage)) | ReadSums(run: Run) | CommitTotals(run: Run)

  function WriteOps(records: Rows<Key, Usage>): (ops: seq<Op>)
    ensures |ops| == |records|
  {
    if records == [] then [] else WriteOps(records[..|records| - 1]) + [Write(records[|records| - 1])]
  }

  /** A whole run that has a record to write; one without any commits no totals. */
  function OpsOf(records: Rows<Key, Usage>, run: Run): seq<Op> {
    WriteOps(records) + [ReadSums(run)] + [CommitTotals(run)]
  }

  function Written(log: seq<Op>): Rows<Key, Usage> {
    if log == [] then []
    else
      match log[|log| - 1]
      case Write(row) => Written(log[..|log| - 1]) + [row]
      case _ => Written(log[..|log| - 1])
  }

  /** The sums the run read, over the table as it was then. */
  function SumsRead(table: Rows<Key, Usage>, log: seq<Op>, batch: string, run: Run): Option<Counts> {
    if log == [] then None
    else if log[|log| - 1] == ReadSums(run) then Some(Sums(PutAll(table, Written(log[..|log| - 1])), batch))
    else SumsRead(table, log[..|log| - 1], batch, run)
  }

  /** The totals after the log: what the last run to commit had read. */
  function Totals(table: Rows<Key, Usage>, log: seq<Op>, batch: string): Option<Counts> {
    if log == [] then None
    else
      match log[|log| - 1]
      case CommitTotals(run) => SumsRead(table, log[..|log| - 1], batch, run)
      case _ => Totals(table, log[..|log| - 1], batch)
  }

  function LastReader(log: seq<Op>): Option<Run> {
    if log == [] then None
    else if log[|log| - 1].ReadSums? then Some(log[|log| - 1].run)
    else LastReader(log[..|log| - 1])
  }

  function LastCommitter(log: seq<Op>): Option<Run> {
    if log == [] then None
    else if log[|log| - 1].CommitTotals? then Some(log[|log| - 1].run)
    else LastCommitter(log[..|log| - 1])
  }

  /** The ops interleave two whole runs over the same records. */
  ghost predicate TwoRuns(log: seq<Op>, records: Rows<Key, Usage>) {
    IsMerge(log, OpsOf(records, Former), OpsOf(records, Latter))
  }

  /** A run that has read its sums, and may have committed them. */
  ghost predicate HasRead(ops: seq<Op>, records: Rows<Key, Usage>, run: Run) {
    ops == WriteOps(records) + [ReadSums(run)] || ops == OpsOf(records, run)
  }

  lemma BeforeTheCommit(records: Rows<Key, Usage>, run: Run)
    ensures var ops, read := OpsOf(records, run), WriteOps(records) + [ReadSums(run)];
            && ops[..|ops| - 1] == read && ops[|ops| - 1] == CommitTotals(run)
            && read[..|read| - 1] == WriteOps(records) && read[|read| - 1] == ReadSums(run)
  {
  }

  lemma {:induction false} WrittenByWrites(records: Rows<Key, Usage>)
    ensures Written(WriteOps(records)) == records
  {
    if records != [] {
      WrittenByWrites(records[..|records| - 1]);
      var ops := WriteOps(records);
      assert ops[..|ops| - 1] == WriteOps(records[..|records| - 1]);
    }
  }

  lemma {:induction false} WrittenByRuns(log: seq<Op>, a: seq<Op>, b: seq<Op>)
    requires IsMerge(log, a, b)
    ensures IsMerge(Written(log), Written(a), Written(b))
  {
    if log != [] {
      var init, last := log[..|log| - 1], log[|log| - 1];
      if a != [] && a[|a| - 1] == last && IsMerge(init, a[..|a| - 1], b) {
        WrittenByRuns(init, a[..|a| - 1], b);
        if last.Write? { GrowsLeft(Written(init), Written(a[..|a| - 1]), Written(b), last.row); }
      } else {
        WrittenByRuns(init, a, b[..|b| - 1]);
        if last.Write? { GrowsRight(Written(init), Written(a), Written(b[..|b| - 1]), last.row); }
      }
    }
  }

  lemma GrowsLeft<T>(log: seq<T>, a: seq<T>, b: seq<T>, x: T)
    requires IsMerge(log, a, b)
    ensures IsMerge(log + [x], a + [x], b)
  {
    assert (log + [x])[..|log|] == log && (a + [x])[..|a|] == a;
  }

  lemma GrowsRight<T>(log: seq<T>, a: seq<T>, b: seq<T>, x: T)
    requires IsMerge(log, a, b)
    ensures IsMerge(log + [x], a, b + [x])
  {
    assert (log + [x])[..|log|] == log && (b + [x])[..|b|] == b;
  }

  lemma WrittenOnceRead(ops: seq<Op>, records: Rows<Key, Usage>, run: Run)
    requires HasRead(ops, records, run)
    ensures Written(ops) == records && ops != []
  {
    BeforeTheCommit(records, run);
    WrittenByWrites(records);
    assert Written(WriteOps(records) + [ReadSums(run)]) == records;
  }

  /** Whoever read last saw all that was ever written. */
  ghost predicate LastReadIsRight(table: Rows<Key, Usage>, log: seq<Op>, batch: string) {
    && LastReader(log).Some?
    && SumsRead(table, log, batch, LastReader(log).value) == Some(Sums(PutAll(table, Written(log)), batch))
  }

  lemma AfterARead(table: Rows<Key, Usage>, log: seq<Op>, batch: string)
    requires log != [] && log[|log| - 1].ReadSums?
    ensures LastReadIsRight(table, log, batch)
  {
  }

  lemma AfterACommit(table: Rows<Key, Usage>, log: seq<Op>, batch: string)
    requires log != [] && log[|log| - 1].CommitTotals? && LastReadIsRight(table, log[..|log| - 1], batch)
    ensures LastReadIsRight(table, log, batch)
  {
  }

  lemma HasReadEnds(ops: seq<Op>, records: Rows<Key, Usage>, run: Run)
    requires HasRead(ops, records, run)
    ensures ops != [] && !ops[|ops| - 1].Write?
    ensures ops[|ops| - 1].CommitTotals? ==> HasRead(ops[..|ops| - 1], records, run)
  {
    BeforeTheCommit(records, run);
  }

  lemma {:induction false} TheLastReadSeesAll(table: Rows<Key, Usage>, log: seq<Op>, batch: string, records: Rows<Key, Usage>,
                                              a: seq<Op>, b: seq<Op>)
    requires IsMerge(log, a, b) && HasRead(a, records, Former) && HasRead(b, records, Latter)
    ensures LastReadIsRight(table, log, batch)
  {
    HasReadEnds(a, records, Former);
    HasReadEnds(b, records, Latter);
    var init, last := log[..|log| - 1], log[|log| - 1];
    if last.ReadSums? {
      AfterARead(table, log, batch);
    } else if a[|a| - 1] == last && IsMerge(init, a[..|a| - 1], b) {
      TheLastReadSeesAll(table, init, batch, records, a[..|a| - 1], b);
      AfterACommit(table, log, batch);
    } else {
      TheLastReadSeesAll(table, init, batch, records, a, b[..|b| - 1]);
      AfterACommit(table, log, batch);
    }
  }

  lemma TheTotalsAreTheLastCommitters(table: Rows<Key, Usage>, log: seq<Op>, batch: string, records: Rows<Key, Usage>)
    requires TwoRuns(log, records)
    ensures log != [] && log[|log| - 1].CommitTotals? && LastCommitter(log) == Some(log[|log| - 1].run)
    ensures Totals(table, log, batch) == SumsRead(table, log, batch, log[|log| - 1].run)
  {
    BeforeTheCommit(records, Former);
    BeforeTheCommit(records, Latter);
  }

  /**
   Two complete runs over one file leave the table of one run; and if the run that commits last
   also read the sums last, the totals are the sums over that table.
   */
  lemma TotalsInReadingOrder(table: Rows<Key, Usage>, log: seq<Op>, batch: string, records: Rows<Key, Usage>)
    requires Unique(table) && records != [] && TwoRuns(log, records)
    ensures PutAll(table, Written(log)) == PutAll(table, records)
    ensures LastCommitter(log) == LastReader(log) ==> Totals(table, log, batch) == Some(Sums(PutAll(table, records), batch))
  {
    var a, b := OpsOf(records, Former), OpsOf(records, Latter);
    WrittenByRuns(log, a, b);
    WrittenOnceRead(a, records, Former);
    WrittenOnceRead(b, records, Latter);
    OverlappingRunsAgree(table, Written(log), records);
    TheLastReadSeesAll(table, log, batch, records, a, b);
    TheTotalsAreTheLastCommitters(table, log, batch, records);
  }

  // ---- A run that commits what it read too early ----

  lemma {:induction false} WrittenConcat(x: seq<Op>, y: seq<Op>)
    ensures Written(x + y) == Written(x) + Written(y)
  {
    if y == [] {
      assert x + y == x;
    } else {
      WrittenConcat(x, y[..|y| - 1]);
      assert (x + y)[..|x + y| - 1] == x + y[..|y| - 1];
    }
  }

  lemma {:induction false} WriteOpsConcat(x: Rows<Key, Usage>, y: Rows<Key, Usage>)
    ensures WriteOps(x + y) == WriteOps(x) + WriteOps(y)
  {
    if y == [] {
      assert x + y == x;
    } else {
      WriteOpsConcat(x, y[..|y| - 1]);
      assert (x + y)[..|x + y| - 1] == x + y[..|y| - 1];
    }
  }

  lemma {:induction false} WritesReadNothing(records: Rows<Key, Usage>)
    ensures forall op | op in WriteOps(records) :: op.Write?
  {
    if records != [] {
      WritesReadNothing(records[..|records| - 1]);
    }
  }

  lemma {:induction false} OthersDoNotMatter(table: Rows<Key, Usage>, x: seq<Op>, y: seq<Op>, batch: string, run: Run)
    requires ReadSums(run) !in y
    ensures SumsRead(table, x + y, batch, run) == SumsRead(table, x, batch, run)
  {
    if y == [] {
      assert x + y == x;
    } else {
      OthersDoNotMatter(table, x, y[..|y| - 1], batch, run);
      assert (x + y)[..|x + y| - 1] == x + y[..|y| - 1];
      assert y[|y| - 1] in y;
    }
  }

  lemma {:induction false} MergesJoin<T>(l: seq<T>, a: seq<T>, b: seq<T>, l': seq<T>, a': seq<T>, b': seq<T>)
    requires IsMerge(l, a, b) && IsMerge(l', a', b')
    ensures IsMerge(l + l', a + a', b + b')
  {
    if l' == [] {
      assert l + l' == l && a + a' == a && b + b' == b;
    } else {
      var init, last := l'[..|l'| - 1], l'[|l'| - 1];
      assert l + l' == (l + init) + [last];
      if a' != [] && a'[|a'| - 1] == last && IsMerge(init, a'[..|a'| - 1], b') {
        MergesJoin(l, a, b, init, a'[..|a'| - 1], b');
        GrowsLeft(l + init, a + a'[..|a'| - 1], b + b', last);
        assert a + a' == (a + a'[..|a'| - 1]) + [last];
      } else {
        MergesJoin(l, a, b, init, a', b'[..|b'| - 1]);
        GrowsRight(l + init, a + a', b + b'[..|b'| - 1], last);
        assert b + b' == (b + b'[..|b'| - 1]) + [last];
      }
    }
  }

  lemma LatterFirst<T>(x: seq<T>, y: seq<T>)
    ensures IsMerge(y + x, x, y)
  {
    OneAfterTheOther(y, x);
    MergeSwaps(y + x, y, x);
  }

  /** Until the former run reads: the latter wrote `pre`, the former everything, the latter `mid`. */
  function UntilTheRead(pre: Rows<Key, Usage>, mid: Rows<Key, Usage>, records: Rows<Key, Usage>): seq<Op> {
    (WriteOps(pre) + WriteOps(records)) + (WriteOps(mid) + [ReadSums(Former)])
  }

  /** The latter run finishes, and only then the former commits what it had read. */
  function LateCommit(pre: Rows<Key, Usage>, mid: Rows<Key, Usage>, post: Rows<Key, Usage>): seq<Op> {
    UntilTheRead(pre, mid, pre + mid + post) + (OpsOf(post, Latter) + [CommitTotals(Former)])
  }

  lemma LatterOps(pre: Rows<Key, Usage>, mid: Rows<Key, Usage>, post: Rows<Key, Usage>)
    ensures WriteOps(pre) + WriteOps(mid) + OpsOf(post, Latter) == OpsOf(pre + mid + post, Latter)
  {
    WriteOpsConcat(pre, mid);
    WriteOpsConcat(pre + mid, post);
    Associates(WriteOps(pre + mid), WriteOps(post), [ReadSums(Latter)], [CommitTotals(Latter)]);
  }

  lemma Associates<T>(a: seq<T>, b: seq<T>, c: seq<T>, d: seq<T>)
    ensures a + (b + c + d) == a + b + c + d
  {
  }

  lemma LateCommitIsTwoRuns(pre: Rows<Key, Usage>, mid: Rows<Key, Usage>, post: Rows<Key, Usage>)
    ensures TwoRuns(LateCommit(pre, mid, post), pre + mid + post)
  {
    var all, read, commit := WriteOps(pre + mid + post), [ReadSums(Former)], [CommitTotals(Former)];
    var x, y, z := WriteOps(pre), WriteOps(mid), OpsOf(post, Latter);
    LatterFirst(all, x);
    LatterFirst(read, y);
    LatterFirst(commit, z);
    MergesJoin(x + all, all, x, y + read, read, y);
    MergesJoin((x + all) + (y + read), all + read, x + y, z + commit, commit, z);
    LatterOps(pre, mid, post);
  }

  lemma TheEarlyRead(table: Rows<Key, Usage>, pre: Rows<Key, Usage>, mid: Rows<Key, Usage>, records: Rows<Key, Usage>, batch: string)
    ensures SumsRead(table, UntilTheRead(pre, mid, records), batch, Former) == Some(Sums(PutAll(table, pre + records + mid), batch))
  {
    var until, before := UntilTheRead(pre, mid, records), (WriteOps(pre) + WriteOps(records)) + WriteOps(mid);
    assert until == before + [ReadSums(Former)];
    assert until[..|until| - 1] == before;
    WrittenConcat(WriteOps(pre) + WriteOps(records), WriteOps(mid));
    WrittenConcat(WriteOps(pre), WriteOps(records));
    WrittenByWrites(pre);
    WrittenByWrites(mid);
    WrittenByWrites(records);
  }

  lemma TheEarlyReadIsCommitted(table: Rows<Key, Usage>, until: seq<Op>, post: Rows<Key, Usage>, batch: string)
    ensures Totals(table, until + (OpsOf(post, Latter) + [CommitTotals(Former)]), batch) == SumsRead(table, until, batch, Former)
  {
    var rest := OpsOf(post, Latter);
    var log := until + (rest + [CommitTotals(Former)]);
    assert log[..|log| - 1] == until + rest;
    WritesReadNothing(post);
    OthersDoNotMatter(table, until, rest, batch, Former);
  }

  lemma WrittenTwice(table: Rows<Key, Usage>, pre: Rows<Key, Usage>, mid: Rows<Key, Usage>, post: Rows<Key, Usage>)
    requires Unique(table)
    ensures var records := pre + mid + post;
            PutAll(table, pre + records + mid) == PutAll(PutAll(table, records), mid)
  {
    var records := pre + mid + post;
    PutAllConcat(table, pre + records, mid);
    PutAllConcat(table, pre, records);
    assert pre + (mid + post) == records;
    RestartedPutAll(table, pre, mid + post);
  }

  lemma LateCommitTotals(table: Rows<Key, Usage>, pre: Rows<Key, Usage>, mid: Rows<Key, Usage>, post: Rows<Key, Usage>, batch: string)
    requires Unique(table)
    ensures var records := pre + mid + post;
            Totals(table, LateCommit(pre, mid, post), batch) == Some(Sums(PutAll(PutAll(table, records), mid), batch))
  {
    var records := pre + mid + post;
    TheEarlyReadIsCommitted(table, UntilTheRead(pre, mid, records), post, batch);
    TheEarlyRead(table, pre, mid, records, batch);
    WrittenTwice(table, pre, mid, post);
  }

  // ---- When the reading order does not matter ----

  lemma {:induction false} PrefixWritten(ops: seq<Op>, n: nat)
    requires n <= |ops|
    ensures Written(ops[..n]) <= Written(ops)
  {
    if n < |ops| {
      PrefixWritten(ops[..|ops| - 1], n);
      assert ops[..|ops| - 1][..n] == ops[..n];
    } else {
      assert ops[..n] == ops;
    }
  }

  lemma {:induction false} OnlyOwnReads(ops: seq<Op>, records: Rows<Key, Usage>, run: Run, other: Run)
    requires ops <= OpsOf(records, other) && run != other
    ensures ReadSums(run) !in ops
  {
    WritesReadNothing(records);
    assert forall op | op in ops :: op in OpsOf(records, other);
  }

  /** What a run reads: its own records, interleaved with some of the other run's. */
  ghost predicate SeesAPrefix(table: Rows<Key, Usage>, log: seq<Op>, batch: string, records: Rows<Key, Usage>, run: Run,
                              m: Rows<Key, Usage>, j: nat)
  {
    && j <= |records| && IsMerge(m, records, records[..j])
    && SumsRead(table, log, batch, run) == Some(Sums(PutAll(table, m), batch))
  }

  lemma TheReadItself(table: Rows<Key, Usage>, init: seq<Op>, batch: string, records: Rows<Key, Usage>,
                      b: seq<Op>, run: Run, other: Run) returns (m: Rows<Key, Usage>, j: nat)
    requires IsMerge(init, WriteOps(records), b) && b <= OpsOf(records, other)
    ensures SeesAPrefix(table, init + [ReadSums(run)], batch, records, run, m, j)
  {
    var all := OpsOf(records, other);
    assert all[..|b|] == b;
    PrefixWritten(all, |b|);
    WrittenOnceRead(all, records, other);
    WrittenByRuns(init, WriteOps(records), b);
    WrittenByWrites(records);
    m, j := Written(init), |Written(b)|;
    assert Written(b) <= records && Written(b) == records[..j];
    assert (init + [ReadSums(run)])[..|init|] == init;
  }

  lemma {:induction false} AReadSeesAPrefix(table: Rows<Key, Usage>, log: seq<Op>, batch: string, records: Rows<Key, Usage>,
                                            a: seq<Op>, b: seq<Op>, run: Run, other: Run) returns (m: Rows<Key, Usage>, j: nat)
    requires IsMerge(log, a, b) && run != other && HasRead(a, records, run) && b <= OpsOf(records, other)
    ensures SeesAPrefix(table, log, batch, records, run, m, j)
  {
    WrittenOnceRead(a, records, run);
    BeforeTheCommit(records, run);
    var init, last := log[..|log| - 1], log[|log| - 1];
    if a[|a| - 1] == last && IsMerge(init, a[..|a| - 1], b) {
      if last == ReadSums(run) {
        m, j := TheReadItself(table, init, batch, records, b, run, other);
        assert log == init + [last];
      } else {
        m, j := AReadSeesAPrefix(table, init, batch, records, a[..|a| - 1], b, run, other);
      }
    } else {
      OnlyOwnReads(b, records, run, other);
      assert last in b;
      m, j := AReadSeesAPrefix(table, init, batch, records, a, b[..|b| - 1], run, other);
    }
  }

  /** Every record of the file states for its id what the last one does. */
  ghost predicate StatedAlike(records: Rows<Key, Usage>) {
    forall i | 0 <= i < |records| :: LastWrite(records, records[i].0) == Some(records[i].1)
  }

  lemma StatedAlikeIsFinal(records: Rows<Key, Usage>, j: nat)
    requires StatedAlike(records) && j <= |records|
    ensures PrefixIsFinal(records, j)
  {
    var some := records[..j];
    forall i | 0 <= i < j ensures LastWrite(some, records[i].0) == LastWrite(records, records[i].0) {
      LastWriteMembers(some, records[i].0);
      assert KeysOf(some)[i] == records[i].0;
      var n := LastWriteAt(some, records[i].0);
      assert some[n] == records[n];
    }
  }

  lemma {:induction false} LastWriteAt(rows: Rows<Key, Usage>, k: Key) returns (n: nat)
    requires LastWrite(rows, k).Some?
    ensures n < |rows| && rows[n] == (k, LastWrite(rows, k).value)
  {
    n := |rows| - 1;
    if rows[n].0 != k {
      n := LastWriteAt(rows[..n], k);
    }
  }

  lemma AnyReadIsRight(table: Rows<Key, Usage>, log: seq<Op>, batch: string, records: Rows<Key, Usage>, run: Run)
    requires Unique(table) && TwoRuns(log, records) && StatedAlike(records)
    ensures SumsRead(table, log, batch, run) == Some(Sums(PutAll(table, records), batch))
  {
    var a, b := OpsOf(records, Former), OpsOf(records, Latter);
    var m: Rows<Key, Usage>, j: nat;
    if run == Former {
      m, j := AReadSeesAPrefix(table, log, batch, records, a, b, Former, Latter);
    } else {
      MergeSwaps(log, a, b);
      m, j := AReadSeesAPrefix(table, log, batch, records, b, a, Latter, Former);
    }
    StatedAlikeIsFinal(records, j);
    SecondRunKeepsTheTable(table, m, records, j);
  }

  function Share(row: (Key, Usage), batch: string): Counts {
    if row.0.0 == batch then row.1.counts else Counts(0, 0, 0)
  }

  lemma SumsSnoc(table: Rows<Key, Usage>, row: (Key, Usage), batch: string)
    ensures Sums(table + [row], batch) == Add(Sums(table, batch), Share(row, batch))
  {
    assert (table + [row])[..|table|] == table;
  }

  lemma SumsConsSnoc(row: (Key, Usage), init: Rows<Key, Usage>, last: (Key, Usage), batch: string)
    requires Sums([row] + init, batch) == Add(Share(row, batch), Sums(init, batch))
    ensures Sums([row] + init + [last], batch) == Add(Share(row, batch), Sums(init + [last], batch))
  {
    SumsSnoc([row] + init, last, batch);
    SumsSnoc(init, last, batch);
  }

  lemma ConsSnoc<T>(x: T, s: seq<T>, init: seq<T>, last: T)
    requires s != [] && init == s[..|s| - 1] && last == s[|s| - 1]
    ensures init + [last] == s && [x] + init + [last] == [x] + s
  {
  }

  lemma {:induction false} SumsCons(row: (Key, Usage), table: Rows<Key, Usage>, batch: string)
    ensures Sums([row] + table, batch) == Add(Share(row, batch), Sums(table, batch))
  {
    if table == [] {
      SumsSnoc([], row, batch);
      assert [] + [row] == [row] + table;
    } else {
      var init, last := table[..|table| - 1], table[|table| - 1];
      ConsSnoc(row, table, init, last);
      SumsCons(row, init, batch);
      SumsConsSnoc(row, init, last, batch);
    }
  }

  lemma {:induction false} SumsPut(table: Rows<Key, Usage>, k: Key, u: Usage)
    requires Find(table, k).Some?
    ensures Add(Sums(Put(table, k, u), k.0), Find(table, k).value.counts) == Add(Sums(table, k.0), u.counts)
  {
    var row, rest := table[0], table[1..];
    assert table == [row] + rest;
    SumsCons(row, rest, k.0);
    if row.0 == k {
      SumsCons((k, u), rest, k.0);
    } else {
      SumsPut(rest, k, u);
      SumsCons(row, Put(rest, k, u), k.0);
    }
  }

  lemma {:induction false} RecordsAreOwn(batch: string, model: string, lines: seq<Line>, i: nat)
    requires i < |Records(batch, model, lines)|
    ensures var (k, u) := Records(batch, model, lines)[i]; k.0 == batch && u.model == model
  {
    if i < |Records(batch, model, lines[..|lines| - 1])| {
      RecordsAreOwn(batch, model, lines[..|lines| - 1], i);
    }
  }

  lemma StaleSums(table: Rows<Key, Usage>, k: Key, u: Usage)
    requires Find(table, k).Some? && Find(table, k).value.counts != u.counts
    ensures Sums(Put(table, k, u), k.0) != Sums(table, k.0)
  {
    SumsPut(table, k, u);
  }

  /** A restated record differs in its counts from what is left. */
  lemma RestatedCounts(table: Rows<Key, Usage>, batch: string, model: string, lines: seq<Line>, i: nat)
    requires i < |Records(batch, model, lines)|
    requires var records := Records(batch, model, lines); LastWrite(records, records[i].0) != Some(records[i].1)
    ensures var records := Records(batch, model, lines);
            var (k, u) := records[i];
            k.0 == batch && Find(PutAll(table, records), k).Some? && Find(PutAll(table, records), k).value.counts != u.counts
  {
    var records := Records(batch, model, lines);
    var k := records[i].0;
    LastWriteMembers(records, k);
    assert KeysOf(records)[i] == k;
    FindPutAll(table, records, k);
    var n := LastWriteAt(records, k);
    RecordsAreOwn(batch, model, lines, i);
    RecordsAreOwn(batch, model, lines, n);
  }

  /** A record the file later restates with other counts can spoil the totals. */
  lemma ARestatedRecordSpoils(table: Rows<Key, Usage>, batch: string, model: string, lines: seq<Line>, i: nat) returns (log: seq<Op>)
    requires Unique(table) && i < |Records(batch, model, lines)|
    requires var records := Records(batch, model, lines); LastWrite(records, records[i].0) != Some(records[i].1)
    ensures var records := Records(batch, model, lines);
            TwoRuns(log, records) && Totals(table, log, batch) != Some(Sums(PutAll(table, records), batch))
  {
    var records := Records(batch, model, lines);
    var pre, mid, post := records[..i], [records[i]], records[i + 1..];
    assert pre + mid + post == records;
    log := LateCommit(pre, mid, post);
    LateCommitIsTwoRuns(pre, mid, post);
    LateCommitTotals(table, pre, mid, post, batch);
    PutAllOneMore(PutAll(table, records), [], records[i].0, records[i].1);
    assert [] + mid == mid;
    RestatedCounts(table, batch, model, lines, i);
    StaleSums(PutAll(table, records), records[i].0, records[i].1);
  }

  /**
   In whatever order two complete runs over one file interleave, the totals are the sums of the
   final table exactly when no id is stated with two different counts.
   */
  lemma TotalsSurviveAnyOrderExactly(table: Rows<Key, Usage>, batch: string, model: string, lines: seq<Line>)
    requires Unique(table) && Records(batch, model, lines) != []
    ensures var records := Records(batch, model, lines);
            (forall log: seq<Op> | TwoRuns(log, records) :: Totals(table, log, batch) == Some(Sums(PutAll(table, records), batch)))
            <==> StatedAlike(records)
  {
    var records := Records(batch, model, lines);
    if StatedAlike(records) {
      forall log: seq<Op> | TwoRuns(log, records) ensures Totals(table, log, batch) == Some(Sums(PutAll(table, records), batch)) {
        TheTotalsAreTheLastCommitters(table, log, batch, records);
        AnyReadIsRight(table, log, batch, records, log[|log| - 1].run);
      }
    } else {
      var i :| 0 <= i < |records| && LastWrite(records, records[i].0) != Some(records[i].1);
      var log := ARestatedRecordSpoils(table, batch, model, lines, i);
    }
  }

  /**
   With the chunks as they are: the former run writes both of its own, the latter its first, the
   former reads one token, the latter finishes with two, and the former commits. Neither run
   failed, the flag is clear, the table says two and the totals say one.
   */
  lemma TwoCompleteRunsLoseATotal(id: string, chunkSize: nat) returns (log: seq<Op>)
    requires id != "" && chunkSize >= 1
    ensures var records := Records("b", "m", RestatedFile(id, chunkSize));
            && |records| == chunkSize + 1
            && log == LateCommit([], records[..chunkSize], records[chunkSize..]) && TwoRuns(log, records)
            && Sums(PutAll([], Written(log)), "b") == Counts(2, 0, 2)
            && Totals([], log, "b") == Some(Counts(1, 0, 1))
  {
    var records := Records("b", "m", RestatedFile(id, chunkSize));
    ADyingSecondRunLeavesAStaleRow(BatchUsage("m", true, 0, "", true, 0, Counts(0, 0, 0)), id, chunkSize);
    var mid, post := records[..chunkSize], records[chunkSize..];
    assert [] + mid + post == records;
    log := LateCommit([], mid, post);
    LateCommitIsTwoRuns([], mid, post);
    LateCommitTotals([], [], mid, post, "b");
    TotalsInReadingOrder([], log, "b", records);
  }
}

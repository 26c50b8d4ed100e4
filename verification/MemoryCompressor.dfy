/** Long-term memory compaction (app/chat/memory_compressor.py).

  Any number of workers compress one conversation: read the summary row, read the exchanges above its
  pointer, merge the ones that left the window, re-read the row, then insert it or compare-and-set its
  version. The first half of this module is one worker's local work; the second half interleaves the
  workers' database steps and proves what every committed row satisfies. */
module MemoryCompressor {
  import opened Common

  /** A settled exchange. Unsettled ones are never selected, so the table holds settled ones only. */
  datatype Exchange = Exchange(id: nat, completed: bool, blankQuestion: bool)

  predicate Stable(e: Exchange) { e.completed && !e.blankQuestion }

  /** A summary is represented by the batches merged into it, oldest first: every merge function, the
    model's or the rule-based one, factors through this. A NULL summary is the empty one. */
  datatype Payload = Payload(merged: seq<seq<Exchange>>)

  function Merge(p: Payload, batch: seq<Exchange>): Payload { Payload(p.merged + [batch]) }

  /** The summary row. The source reads NULL in a numeric column as 0, so does the model. */
  datatype Row = Row(covered: nat, count: nat, compressions: nat, version: nat, blankText: bool, payload: Payload)

  datatype Config = Config(window: int, batch: int)

  /** What one worker wants to write: it extends the summary at pointer `base` to pointer `last`. */
  datatype Work = Work(base: nat, last: nat, count: nat, payload: Payload, blankText: bool)

  datatype Decision = Skip | Create | Update(expected: nat)

  // ---------------------------------------------------------------- selecting overflow batches

  function Chunks(s: seq<Exchange>, step: nat): seq<seq<Exchange>>
    requires step > 0
  {
    if s == [] then []
    else if |s| <= step then [s]
    else [s[..step]] + Chunks(s[step..], step)
  }

  function SelectOverflowBatches(exchanges: seq<Exchange>, window: int, batch: int): seq<seq<Exchange>> {
    var overflow := Max(0, |exchanges| - Max(0, window));
    if overflow == 0 then [] else Chunks(exchanges[..overflow], Max(1, batch))
  }

  lemma {:induction false} ChunksCover(s: seq<Exchange>, step: nat)
    requires step > 0
    ensures Flatten(Chunks(s, step)) == s
    ensures forall b :: b in Chunks(s, step) ==> 0 < |b| <= step
    ensures forall i :: 0 <= i < |Chunks(s, step)| - 1 ==> |Chunks(s, step)[i]| == step
  {
    if |s| > step {
      var first, rest := s[..step], Chunks(s[step..], step);
      assert s == first + s[step..] && Chunks(s, step) == [first] + rest;
      assert rest != [];
      hide Flatten, Chunks;
      ChunksCover(s[step..], step);
      FlattenConcat([first], rest);
      FlattenOne(first);
    } else if s != [] {
      FlattenOne(s);
    }
  }

  /** The batches are exactly the exchanges that left the window, in order, cut into full steps. */
  lemma BatchesAreTheOverflow(exchanges: seq<Exchange>, window: int, batch: int)
    ensures var bs := SelectOverflowBatches(exchanges, window, batch);
      && |Flatten(bs)| == Max(0, |exchanges| - Max(0, window))
      && Flatten(bs) == exchanges[..|Flatten(bs)|]
      && (forall b :: b in bs ==> 0 < |b| <= Max(1, batch))
      && (forall i :: 0 <= i < |bs| - 1 ==> |bs[i]| == Max(1, batch))
      && (bs == [] <==> |exchanges| <= Max(0, window))
  {
    var overflow := Max(0, |exchanges| - Max(0, window));
    if overflow > 0 {
      ChunksCover(exchanges[..overflow], Max(1, batch));
    }
  }

  // ---------------------------------------------------------------- one worker's local work

  function Covered(mem: Option<Row>): nat { if mem.Some? then mem.value.covered else 0 }

  function Version(mem: Option<Row>): nat { if mem.Some? then mem.value.version else 0 }

  function Base(mem: Option<Row>): Payload { if mem.Some? then mem.value.payload else Payload([]) }

  predicate Selected(e: Exchange, covered: nat, known: Option<nat>) {
    (covered > 0 ==> e.id > covered) && (known.Some? ==> e.id <= known.value) && Stable(e)
  }

  /** The query above the pointer, in id order, and its stable rows. */
  function Incremental(table: seq<Exchange>, covered: nat, known: Option<nat>): (r: seq<Exchange>) {
    if table == [] then []
    else
      var last := table[|table|-1];
      Incremental(table[..|table|-1], covered, known) + if Selected(last, covered, known) then [last] else []
  }

  function Prepare(cfg: Config, mem: Option<Row>, table: seq<Exchange>, known: Option<nat>, blank: bool): Option<Work> {
    var stable := Incremental(table, Covered(mem), known);
    var batches := SelectOverflowBatches(stable, cfg.window, if cfg.batch == 0 then 4 else cfg.batch);
    if batches == [] || batches[|batches|-1] == [] then None
    else
      var lastBatch := batches[|batches|-1];
      Some(Work(Covered(mem), lastBatch[|lastBatch|-1].id, |Flatten(batches)|,
                Payload(Base(mem).merged + batches), blank))
  }

  function Decide(w: Work, latest: Option<Row>): Decision {
    if Covered(latest) > w.last then Skip
    else if latest.Some? && Covered(latest) == w.last && !latest.value.blankText then Skip
    else if latest.None? then Create
    else Update(latest.value.version)
  }

  function DecideRetry(w: Work, retry: Option<Row>): Decision {
    if retry.Some? && retry.value.covered < w.last then Update(retry.value.version) else Skip
  }

  /** The merge loop: fold the batches in, moving the pointer and the count along. */
  method MergeBatches(existing: Payload, covered: nat, batches: seq<seq<Exchange>>)
    returns (merged: Payload, last: nat, count: nat)
    requires batches != [] && forall b :: b in batches ==> b != []
    ensures merged == Payload(existing.merged + batches)
    ensures var b := batches[|batches|-1]; b != [] && last == b[|b|-1].id
    ensures count == |Flatten(batches)|
  {
    merged, last, count := existing, covered, 0;
    for i := 0 to |batches|
      invariant merged == Payload(existing.merged + batches[..i])
      invariant i > 0 ==> batches[i-1] != [] && last == batches[i-1][|batches[i-1]|-1].id
      invariant count == |Flatten(batches[..i])|
    {
      assert batches[..i+1] == batches[..i] + [batches[i]];
      FlattenAppend(batches[..i], batches[i]);
      assert batches[i] in batches;
      merged := Merge(merged, batches[i]);
      last := batches[i][|batches[i]|-1].id;
      count := count + |batches[i]|;
    }
    assert batches[..|batches|] == batches;
  }

  /** From the two reads to the work to be written. */
  method BuildWork(cfg: Config, mem: Option<Row>, table: seq<Exchange>, known: Option<nat>, blank: bool)
    returns (work: Option<Work>)
    ensures work == Prepare(cfg, mem, table, known, blank)
  {
    var stable := Incremental(table, Covered(mem), known);
    var batch := if cfg.batch == 0 then 4 else cfg.batch;
    var batches := SelectOverflowBatches(stable, cfg.window, batch);
    BatchesAreTheOverflow(stable, cfg.window, batch);
    if batches == [] {
      return None;
    }
    var payload, last, count := MergeBatches(Base(mem), Covered(mem), batches);
    return Some(Work(Covered(mem), last, count, payload, blank));
  }

  // ---------------------------------------------------------------- the shared row

  function Created(w: Work): Row { Row(w.last, w.count, 1, 1, w.blankText, w.payload) }

  function Updated(cur: Row, w: Work, expected: nat, retry: bool): Row {
    var count := if retry then Max(cur.count, w.count) else cur.count + w.count;
    Row(w.last, count, cur.compressions + 1, expected + 1, w.blankText, w.payload)
  }

  /** The table with at most one row per conversation (unique index on the conversation). */
  class MemoryTable {
    var row: Option<Row>

    /** INSERT: refused by the unique index when the row exists. */
    method Insert(w: Work) returns (ok: bool)
      modifies this
      ensures ok <==> old(row).None?
      ensures row == if ok then Some(Created(w)) else old(row)
      ensures ok ==> row == Some(Row(w.last, w.count, 1, 1, w.blankText, w.payload))
    {
      ok := row.None?;
      if ok {
        row := Some(Created(w));
      }
    }

    /** The update takes effect only on a row with the expected version. */
    method CompareAndSet(w: Work, expected: nat, retry: bool) returns (rowcount: nat)
      modifies this
      ensures rowcount == if old(row).Some? && old(row).value.version == expected then 1 else 0
      ensures row == if rowcount == 1 then Some(Updated(old(row).value, w, expected, retry)) else old(row)
      ensures rowcount == 1 ==>
        var was := old(row).value;
        var count := if !retry then was.count + w.count else if was.count >= w.count then was.count else w.count;
        row == Some(Row(w.last, count, was.compressions + 1, expected + 1, w.blankText, w.payload))
    {
      rowcount := 0;
      if row.Some? && row.value.version == expected {
        row := Some(Updated(row.value, w, expected, retry));
        rowcount := 1;
      }
    }
  }

  // ---------------------------------------------------------------- interleaved runs

  /** Where one run of compress_history stands. `at` and `basis` are positions in the row's history. */
  datatype Run =
    | Loaded(at: nat, seen: nat, mem: Option<Row>, known: Option<nat>)
    | Merged(at: nat, work: Work)
    | Creating(at: nat, work: Work)
    | Conflicted(at: nat, work: Work)
    | Updating(work: Work, basis: nat, expected: nat, retry: bool)
    | Skipped
    | Committed(index: nat, expected: nat)

  /** history lists every committed state of the row, the current one last. */
  datatype System = System(table: seq<Exchange>, history: seq<Option<Row>>, runs: seq<Run>)

  datatype Event =
    | Settle(e: Exchange)
    | Start(known: Option<nat>)
    | ReadTable(run: nat, upTo: nat, blank: bool)
    | Reread(run: nat, pos: nat)
    | Insert(run: nat)
    | RetryRead(run: nat, pos: nat)
    | CompareAndSet(run: nat)

  function Current(s: System): Option<Row>
    requires |s.history| > 0
  {
    s.history[|s.history|-1]
  }

  function Follow(at: nat, pos: nat, w: Work, d: Decision, retry: bool): Run {
    match d
    case Skip => Skipped
    case Create => Creating(at, w)
    case Update(v) => Updating(w, pos, v, retry)
  }

  /** One atomic database step; an event that is not enabled changes nothing. A re-read may return any
    committed state at or after the run's first read, and the exchange query any table at or after it,
    which covers both fresh and snapshot reads. Exchanges settle in id order. */
  function Step(cfg: Config, s: System, ev: Event): System
    requires |s.history| > 0
  {
    match ev
    case Settle(e) =>
      if e.id > 0 && (s.table != [] ==> s.table[|s.table|-1].id < e.id) then s.(table := s.table + [e]) else s
    case Start(known) =>
      s.(runs := s.runs + [Loaded(|s.history| - 1, |s.table|, Current(s), known)])
    case ReadTable(r, upTo, blank) =>
      if r < |s.runs| && s.runs[r].Loaded? && s.runs[r].seen <= upTo <= |s.table| then
        var run := s.runs[r];
        match Prepare(cfg, run.mem, s.table[..upTo], run.known, blank)
        case None => s.(runs := s.runs[r := Skipped])
        case Some(w) => s.(runs := s.runs[r := Merged(run.at, w)])
      else s
    case Reread(r, pos) =>
      if r < |s.runs| && s.runs[r].Merged? && s.runs[r].at <= pos < |s.history| then
        var run := s.runs[r];
        s.(runs := s.runs[r := Follow(run.at, pos, run.work, Decide(run.work, s.history[pos]), false)])
      else s
    case Insert(r) =>
      if r < |s.runs| && s.runs[r].Creating? then
        var run := s.runs[r];
        if Current(s).None? then
          s.(history := s.history + [Some(Created(run.work))],
             runs := s.runs[r := Committed(|s.history|, 0)])
        else s.(runs := s.runs[r := Conflicted(run.at, run.work)])
      else s
    case RetryRead(r, pos) =>
      if r < |s.runs| && s.runs[r].Conflicted? && s.runs[r].at <= pos < |s.history| then
        var run := s.runs[r];
        s.(runs := s.runs[r := Follow(run.at, pos, run.work, DecideRetry(run.work, s.history[pos]), true)])
      else s
    case CompareAndSet(r) =>
      if r < |s.runs| && s.runs[r].Updating? then
        var run := s.runs[r];
        if Current(s).Some? && Current(s).value.version == run.expected then
          s.(history := s.history + [Some(Updated(Current(s).value, run.work, run.expected, run.retry))],
             runs := s.runs[r := Committed(|s.history|, run.expected)])
        else s.(runs := s.runs[r := Skipped])
      else s
  }

  function Exec(cfg: Config, s: System, evs: seq<Event>): (s': System)
    requires |s.history| > 0
    ensures |s'.history| > 0
  {
    if evs == [] then s else Step(cfg, Exec(cfg, s, evs[..|evs|-1]), evs[|evs|-1])
  }

  // ---------------------------------------------------------------- what holds of every row

  ghost predicate Sorted(table: seq<Exchange>) {
    && (forall i :: 0 <= i < |table| ==> table[i].id > 0)
    && (forall i, j :: 0 <= i < j < |table| ==> table[i].id < table[j].id)
  }

  /** The completed, non-blank exchanges up to the pointer, in id order. */
  function UpTo(table: seq<Exchange>, pointer: nat): seq<Exchange> {
    Incremental(table, 0, Some(pointer))
  }

  /** The summary folds in exactly those, each once and in order. */
  ghost predicate Exact(table: seq<Exchange>, pointer: nat, p: Payload) {
    Flatten(p.merged) == UpTo(table, pointer)
  }

  /** A covered id is that of an exchange in the table, or 0 for none yet. */
  ghost predicate PointsInto(table: seq<Exchange>, pointer: nat) {
    pointer == 0 || exists e :: e in table && e.id == pointer
  }

  ghost function StableAbove(table: seq<Exchange>, pointer: nat): set<Exchange> {
    set e | e in table && Stable(e) && e.id > pointer
  }

  ghost predicate Sound(table: seq<Exchange>, pointer: nat, p: Payload) {
    Exact(table, pointer, p) && PointsInto(table, pointer)
  }

  ghost predicate WorkOk(cfg: Config, table: seq<Exchange>, w: Work) {
    && Sound(table, w.last, w.payload)
    && |StableAbove(table, w.last)| >= cfg.window
    && w.base <= w.last
    && w.count == |UpTo(table, w.last)| - |UpTo(table, w.base)|
  }

  ghost predicate RowOk(table: seq<Exchange>, mem: Option<Row>) {
    mem.Some? ==> Sound(table, mem.value.covered, mem.value.payload)
  }

  /** Successive committed states: the row never disappears, its pointer never goes back, and each
    write raises the version and the compression count by exactly one. */
  ghost predicate Advances(a: Option<Row>, b: Option<Row>) {
    && b.Some?
    && Covered(a) <= b.value.covered
    && b.value.version == Version(a) + 1
    && b.value.compressions == (if a.Some? then a.value.compressions else 0) + 1
  }

  ghost predicate HistoryOk(cfg: Config, table: seq<Exchange>, history: seq<Option<Row>>) {
    && |history| > 0
    && (forall i :: 0 <= i < |history| ==> RowOk(table, history[i]))
    && (forall i :: 0 < i < |history| ==> |StableAbove(table, Covered(history[i]))| >= cfg.window)
    && (forall i :: 0 < i < |history| ==> Advances(history[i-1], history[i]))
  }

  ghost predicate RunOk(cfg: Config, table: seq<Exchange>, history: seq<Option<Row>>, run: Run) {
    match run
    case Loaded(at, seen, mem, known) => at < |history| && mem == history[at] && seen <= |table|
    case Merged(at, w) =>
      at < |history| && WorkOk(cfg, table, w) && w.base == Covered(history[at])
    case Creating(at, w) => at < |history| && WorkOk(cfg, table, w) && w.base == 0
    case Conflicted(at, w) => at < |history| && WorkOk(cfg, table, w) && w.base == 0
    case Updating(w, basis, expected, retry) =>
      && basis < |history| && WorkOk(cfg, table, w) && history[basis].Some?
      && history[basis].value.version == expected && history[basis].value.covered <= w.last
      && w.base <= history[basis].value.covered
      && (retry ==> w.base == 0)
    case Skipped => true
    case Committed(index, expected) => 0 < index < |history| && Version(history[index-1]) == expected
  }

  ghost predicate OneRunPerCommit(runs: seq<Run>) {
    forall i, j :: 0 <= i < j < |runs| && runs[i].Committed? && runs[j].Committed? ==>
      runs[i].index != runs[j].index
  }

  ghost predicate Inv(cfg: Config, s: System) {
    && Sorted(s.table)
    && HistoryOk(cfg, s.table, s.history)
    && (forall r :: 0 <= r < |s.runs| ==> RunOk(cfg, s.table, s.history, s.runs[r]))
    && OneRunPerCommit(s.runs)
  }

  /** Any conversation at rest: no runs, and a row that is absent or sound. */
  ghost predicate Initial(s: System) {
    Sorted(s.table) && s.runs == [] && |s.history| == 1 && RowOk(s.table, s.history[0])
  }

  // ---------------------------------------------------------------- local work is sound

  lemma {:induction false} IncrementalMembers(table: seq<Exchange>, covered: nat, known: Option<nat>)
    ensures forall e :: e in Incremental(table, covered, known) <==> e in table && Selected(e, covered, known)
  {
    if table != [] {
      var init, last := table[..|table|-1], table[|table|-1];
      IncrementalMembers(init, covered, known);
      assert table == init + [last];
    }
  }

  lemma SortedConcat(p: seq<Exchange>, q: seq<Exchange>, pivot: nat)
    requires Sorted(p) && Sorted(q)
    requires (forall e :: e in p ==> e.id <= pivot) && (forall e :: e in q ==> pivot < e.id)
    ensures Sorted(p + q)
  {
    forall i, j | 0 <= i < |p| && 0 <= j < |q| ensures p[i].id < q[j].id {
      assert p[i] in p && q[j] in q;
    }
  }

  lemma {:induction false} IncrementalSorted(table: seq<Exchange>, covered: nat, known: Option<nat>)
    requires Sorted(table)
    ensures Sorted(Incremental(table, covered, known))
  {
    if table != [] {
      hide Selected;
      var init, last := table[..|table|-1], table[|table|-1];
      IncrementalSorted(init, covered, known);
      IncrementalMembers(init, covered, known);
      SortedConcat(Incremental(init, covered, known), [last], last.id - 1);
    }
  }

  lemma IncrementalAppend(table: seq<Exchange>, e: Exchange, covered: nat, known: Option<nat>)
    ensures Incremental(table + [e], covered, known)
         == Incremental(table, covered, known) + if Selected(e, covered, known) then [e] else []
  {
    assert (table + [e])[..|table|] == table;
  }

  lemma {:induction false} IncrementalConcat(a: seq<Exchange>, b: seq<Exchange>, covered: nat, known: Option<nat>)
    ensures Incremental(a + b, covered, known) == Incremental(a, covered, known) + Incremental(b, covered, known)
    decreases |b|
  {
    hide Selected;
    if b == [] {
      assert a + b == a;
    } else {
      var init, last := b[..|b|-1], b[|b|-1];
      IncrementalConcat(a, init, covered, known);
      IncrementalAppend(a + init, last, covered, known);
      assert b == init + [last] && a + b == a + init + [last];
    }
  }

  lemma InTail(p: seq<Exchange>)
    requires Sorted(p) && p != []
    ensures forall e :: e in p[1..] <==> e in p && e != p[0]
  {
    assert p == [p[0]] + p[1..];
    forall e | e in p[1..] ensures e != p[0] {
      var i :| 0 <= i < |p[1..]| && p[1..][i] == e;
      assert p[i+1] == e;
    }
  }

  lemma {:induction false} SortedSame(p: seq<Exchange>, q: seq<Exchange>)
    requires Sorted(p) && Sorted(q) && forall e :: e in p <==> e in q
    ensures p == q
    decreases |p|
  {
    assert p != [] ==> p[0] in q;
    assert q != [] ==> q[0] in p;
    if p != [] {
      assert p[0] == q[0];
      InTail(p);
      InTail(q);
      SortedSame(p[1..], q[1..]);
    }
  }

  lemma {:induction false} FlattenLast(bs: seq<seq<Exchange>>)
    requires bs != [] && bs[|bs|-1] != []
    ensures Flatten(bs) != [] && Flatten(bs)[|Flatten(bs)|-1] == bs[|bs|-1][|bs[|bs|-1]|-1]
  {
    FlattenAppend(bs[..|bs|-1], bs[|bs|-1]);
    assert bs == bs[..|bs|-1] + [bs[|bs|-1]];
  }

  lemma {:induction false} SortedCount(q: seq<Exchange>)
    requires Sorted(q)
    ensures |set e | e in q| == |q|
  {
    if q != [] {
      var rest, last := q[..|q|-1], q[|q|-1];
      SortedCount(rest);
      assert q == rest + [last];
      assert (set e | e in q) == (set e | e in rest) + {last};
    }
  }

  lemma SelectedBatches(stable: seq<Exchange>, window: int, batch: int)
    ensures var bs, n := SelectOverflowBatches(stable, window, batch), |stable| - Max(0, window);
      bs != [] ==>
        && 0 < n <= |stable| && Flatten(bs) == stable[..n]
        && bs[|bs|-1] != [] && bs[|bs|-1][|bs[|bs|-1]|-1] == stable[n-1]
  {
    BatchesAreTheOverflow(stable, window, batch);
    var bs := SelectOverflowBatches(stable, window, batch);
    if bs != [] {
      assert bs[|bs|-1] in bs;
      FlattenLast(bs);
    }
  }

  /** What Prepare picks, in terms of the stable exchanges above the pointer. */
  lemma PrepareIs(cfg: Config, mem: Option<Row>, table: seq<Exchange>, known: Option<nat>, blank: bool)
    returns (n: nat)
    requires Prepare(cfg, mem, table, known, blank).Some?
    ensures var stable, w := Incremental(table, Covered(mem), known), Prepare(cfg, mem, table, known, blank).value;
      && n == |stable| - Max(0, cfg.window) && 0 < n <= |stable|
      && w.base == Covered(mem) && w.last == stable[n-1].id && w.count == n
      && Flatten(w.payload.merged) == Flatten(Base(mem).merged) + stable[..n]
  {
    hide Incremental, SelectOverflowBatches, Flatten;
    var stable := Incremental(table, Covered(mem), known);
    var bs := SelectOverflowBatches(stable, cfg.window, if cfg.batch == 0 then 4 else cfg.batch);
    SelectedBatches(stable, cfg.window, if cfg.batch == 0 then 4 else cfg.batch);
    n := |stable| - Max(0, cfg.window);
    FlattenConcat(Base(mem).merged, bs);
  }

  lemma SpliceSorted(table: seq<Exchange>, upTo: nat, base: nat, known: Option<nat>, n: nat)
    requires Sorted(table) && upTo <= |table|
    requires 0 < n <= |Incremental(table[..upTo], base, known)|
    ensures var stable := Incremental(table[..upTo], base, known);
      && Sorted(UpTo(table, base) + stable[..n])
      && Sorted(UpTo(table, stable[n-1].id))
      && base < stable[n-1].id && PointsInto(table, stable[n-1].id)
  {
    var stable := Incremental(table[..upTo], base, known);
    IncrementalSorted(table[..upTo], base, known);
    IncrementalMembers(table[..upTo], base, known);
    IncrementalSorted(table, 0, Some(base));
    IncrementalMembers(table, 0, Some(base));
    IncrementalSorted(table, 0, Some(stable[n-1].id));
    hide Incremental;
    assert stable[n-1] in stable && forall e :: e in stable[..n] ==> e in stable;
    SortedConcat(UpTo(table, base), stable[..n], base);
    assert stable[n-1] in table[..upTo] && stable[n-1] in table;
  }

  lemma BelowIsInPrefix(table: seq<Exchange>, upTo: nat, e: Exchange, x: Exchange)
    requires Sorted(table) && upTo <= |table| && e in table && x in table[..upTo] && e.id <= x.id
    ensures e in table[..upTo]
  {
    var i :| 0 <= i < |table| && table[i] == e;
    var j :| 0 <= j < upTo && table[j] == x;
    assert i <= j;
    assert table[..upTo][i] == e;
  }

  lemma SpliceMembers(table: seq<Exchange>, upTo: nat, base: nat, known: Option<nat>, n: nat, e: Exchange)
    requires Sorted(table) && upTo <= |table|
    requires 0 < n <= |Incremental(table[..upTo], base, known)|
    ensures var stable := Incremental(table[..upTo], base, known);
      e in UpTo(table, stable[n-1].id) <==> e in UpTo(table, base) || e in stable[..n]
  {
    var stable := Incremental(table[..upTo], base, known);
    var x := stable[n-1];
    IncrementalSorted(table[..upTo], base, known);
    IncrementalMembers(table[..upTo], base, known);
    IncrementalMembers(table, 0, Some(base));
    IncrementalMembers(table, 0, Some(x.id));
    SpliceSorted(table, upTo, base, known, n);
    hide Incremental;
    assert x in stable;
    if e in stable[..n] {
      var i :| 0 <= i < n && stable[i] == e;
      assert e in stable && e.id <= x.id;
      assert e in table[..upTo] && e in table;
    }
    if e in UpTo(table, x.id) && e.id > base {
      BelowIsInPrefix(table, upTo, e, x);
      var k :| 0 <= k < |stable| && stable[k] == e;
      assert stable[..n][k] == e;
    }
  }

  /** The batches continue the summary exactly: nothing skipped, repeated or reordered. */
  lemma Splice(table: seq<Exchange>, upTo: nat, base: nat, known: Option<nat>, n: nat)
    requires Sorted(table) && upTo <= |table|
    requires 0 < n <= |Incremental(table[..upTo], base, known)|
    ensures var stable := Incremental(table[..upTo], base, known);
      && UpTo(table, stable[n-1].id) == UpTo(table, base) + stable[..n]
      && base < stable[n-1].id && PointsInto(table, stable[n-1].id)
  {
    var stable := Incremental(table[..upTo], base, known);
    SpliceSorted(table, upTo, base, known, n);
    forall e ensures e in UpTo(table, stable[n-1].id) <==> e in UpTo(table, base) + stable[..n] {
      SpliceMembers(table, upTo, base, known, n, e);
    }
    hide Incremental;
    SortedSame(UpTo(table, stable[n-1].id), UpTo(table, base) + stable[..n]);
  }

  /** The stable exchanges left out of the batches stay above the new pointer. */
  lemma WindowKept(cfg: Config, table: seq<Exchange>, stable: seq<Exchange>, n: nat)
    requires Sorted(stable) && 0 < n <= |stable| && |stable| - n >= cfg.window
    requires forall e :: e in stable ==> e in table && Stable(e)
    ensures |StableAbove(table, stable[n-1].id)| >= cfg.window
  {
    var kept := set e | e in stable[n..];
    SortedCount(stable[n..]);
    forall e | e in kept ensures e in StableAbove(table, stable[n-1].id) {
      var i :| 0 <= i < |stable[n..]| && stable[n..][i] == e;
      assert stable[n + i] == e;
    }
    SubsetCount(kept, StableAbove(table, stable[n-1].id));
  }

  lemma {:induction false} NothingUpToZero(table: seq<Exchange>)
    requires Sorted(table)
    ensures UpTo(table, 0) == []
  {
    if table != [] {
      NothingUpToZero(table[..|table|-1]);
    }
  }

  /** The exchanges a run may fold in: completed, with a question, above the row's pointer and not above the id
    the run was asked for. */
  ghost function Eligible(table: seq<Exchange>, covered: nat, known: Option<nat>): set<Exchange> {
    set e | e in table && e.completed && !e.blankQuestion && e.id > covered && (known.Some? ==> e.id <= known.value)
  }

  /** Cut into full steps, except the last. */
  ghost predicate Stepped(bs: seq<seq<Exchange>>, step: int) {
    && (forall b :: b in bs ==> 0 < |b| <= step)
    && (forall i :: 0 <= i < |bs| - 1 ==> |bs[i]| == step)
  }

  lemma EligibleIs(table: seq<Exchange>, covered: nat, known: Option<nat>)
    requires Sorted(table)
    ensures var stable := Incremental(table, covered, known);
      && Sorted(stable) && |Eligible(table, covered, known)| == |stable|
      && (forall e :: e in stable <==> e in Eligible(table, covered, known))
  {
    var stable := Incremental(table, covered, known);
    IncrementalSorted(table, covered, known);
    IncrementalMembers(table, covered, known);
    hide Incremental;
    SortedCount(stable);
    assert Eligible(table, covered, known) == set e | e in stable;
  }

  /** In an ascending sequence the first n are those up to the n-th id. */
  lemma PlaceById(stable: seq<Exchange>, n: nat, e: Exchange)
    requires Sorted(stable) && 0 < n <= |stable|
    ensures e in stable[..n] <==> e in stable && e.id <= stable[n-1].id
    ensures e in stable[n..] <==> e in stable && e.id > stable[n-1].id
  {
    if e in stable {
      var i :| 0 <= i < |stable| && stable[i] == e;
      if i < n {
        assert stable[..n][i] == e;
      } else {
        assert stable[n..][i - n] == e;
      }
    }
  }

  ghost function Newer(el: set<Exchange>, id: nat): set<Exchange> { set e | e in el && e.id > id }

  lemma RestIsNewer(stable: seq<Exchange>, el: set<Exchange>, n: nat)
    requires Sorted(stable) && 0 < n <= |stable| && forall e :: e in stable <==> e in el
    ensures |Newer(el, stable[n-1].id)| == |stable| - n
    ensures forall e :: e in stable[..n] <==> e in el && e.id <= stable[n-1].id
  {
    SortedCount(stable[n..]);
    var last := stable[n-1].id;
    forall e ensures e in stable[n..] <==> e in el && e.id > last
             ensures e in stable[..n] <==> e in el && e.id <= last {
      PlaceById(stable, n, e);
    }
    hide Sorted;
    assert Newer(el, last) == set e | e in stable[n..];
  }

  /** The batches are the eligible exchanges up to the last id, in ascending order, and leave as many newer ones
    as the window holds. */
  ghost predicate OldestOverflow(el: set<Exchange>, window: int, bs: seq<seq<Exchange>>, last: nat) {
    && Sorted(Flatten(bs)) && (forall e :: e in Flatten(bs) <==> e in el && e.id <= last)
    && Flatten(bs) != [] && last == Flatten(bs)[|Flatten(bs)|-1].id
    && |Newer(el, last)| == Max(0, window)
  }

  lemma OverflowIsOldest(stable: seq<Exchange>, el: set<Exchange>, window: int, bs: seq<seq<Exchange>>, n: nat)
    requires Sorted(stable) && 0 < n == |stable| - Max(0, window) && forall e :: e in stable <==> e in el
    requires Flatten(bs) == stable[..n]
    ensures OldestOverflow(el, window, bs, stable[n-1].id)
  {
    hide Flatten;
    RestIsNewer(stable, el, n);
  }

  lemma BatchesAreStepped(stable: seq<Exchange>, window: int, batch: int)
    ensures var bs, n := SelectOverflowBatches(stable, window, batch), |stable| - Max(0, window);
      && Stepped(bs, Max(1, batch)) && (bs == [] <==> n <= 0)
      && (bs != [] ==>
           && n <= |stable| && Flatten(bs) == stable[..n]
           && bs[|bs|-1] != [] && bs[|bs|-1][|bs[|bs|-1]|-1] == stable[n-1])
  {
    BatchesAreTheOverflow(stable, window, batch);
    SelectedBatches(stable, window, batch);
  }

  /** The work made of some batches of an ascending sequence. */
  ghost predicate WorkOf(w: Work, mem: Option<Row>, bs: seq<seq<Exchange>>, last: nat, blank: bool) {
    && w.payload.merged == (if mem.Some? then mem.value.payload.merged else []) + bs
    && w.last == last && w.count == |Flatten(bs)| && w.base == Covered(mem) && w.blankText == blank
  }

  lemma PrepareShape(cfg: Config, mem: Option<Row>, table: seq<Exchange>, known: Option<nat>, blank: bool)
    returns (bs: seq<seq<Exchange>>)
    ensures var stable := Incremental(table, Covered(mem), known);
      var n := |stable| - Max(0, cfg.window);
      && Stepped(bs, if cfg.batch == 0 then 4 else Max(1, cfg.batch))
      && (Prepare(cfg, mem, table, known, blank).Some? <==> n > 0)
      && (n > 0 ==>
           && n <= |stable| && Flatten(bs) == stable[..n]
           && WorkOf(Prepare(cfg, mem, table, known, blank).value, mem, bs, stable[n-1].id, blank))
  {
    var stable := Incremental(table, Covered(mem), known);
    var batch := if cfg.batch == 0 then 4 else cfg.batch;
    bs := SelectOverflowBatches(stable, cfg.window, batch);
    BatchesAreStepped(stable, cfg.window, batch);
    hide Incremental, SelectOverflowBatches, Flatten, Stepped;
  }

  /** A run has work exactly when more exchanges are eligible than the window holds. It then folds in, after
    what the row has already, all but the newest window_size of them, in ascending order and in steps. */
  lemma WorkIsOldestOverflow(cfg: Config, mem: Option<Row>, table: seq<Exchange>, known: Option<nat>, blank: bool)
    returns (bs: seq<seq<Exchange>>)
    requires Sorted(table)
    ensures var w, el := Prepare(cfg, mem, table, known, blank), Eligible(table, Covered(mem), known);
      && (w.Some? <==> |el| > Max(0, cfg.window))
      && (w.Some? ==>
           && WorkOf(w.value, mem, bs, w.value.last, blank)
           && Stepped(bs, if cfg.batch == 0 then 4 else Max(1, cfg.batch))
           && OldestOverflow(el, cfg.window, bs, w.value.last))
  {
    hide Prepare, Incremental, Sorted, Flatten, OldestOverflow, Stepped, Eligible;
    EligibleIs(table, Covered(mem), known);
    bs := PrepareShape(cfg, mem, table, known, blank);
    var stable, el := Incremental(table, Covered(mem), known), Eligible(table, Covered(mem), known);
    var n := |stable| - Max(0, cfg.window);
    if n > 0 {
      OverflowIsOldest(stable, el, cfg.window, bs, n);
    }
  }

  lemma PreparedWorkOk(cfg: Config, mem: Option<Row>, table: seq<Exchange>, upTo: nat, known: Option<nat>, blank: bool)
    requires Sorted(table) && upTo <= |table| && RowOk(table, mem)
    requires Prepare(cfg, mem, table[..upTo], known, blank).Some?
    ensures var w := Prepare(cfg, mem, table[..upTo], known, blank).value;
      WorkOk(cfg, table, w) && w.base == Covered(mem)
  {
    hide Prepare, Incremental;
    var stable := Incremental(table[..upTo], Covered(mem), known);
    var n := PrepareIs(cfg, mem, table[..upTo], known, blank);
    NothingUpToZero(table);
    Splice(table, upTo, Covered(mem), known, n);
    IncrementalSorted(table[..upTo], Covered(mem), known);
    IncrementalMembers(table[..upTo], Covered(mem), known);
    assert forall e :: e in table[..upTo] ==> e in table;
    WindowKept(cfg, table, stable, n);
  }

  // ---------------------------------------------------------------- every step keeps the invariant

  lemma SettlesAbove(table: seq<Exchange>, e: Exchange, pointer: nat)
    requires Sorted(table + [e]) && PointsInto(table, pointer)
    ensures pointer < e.id
  {
    assert (table + [e])[|table|] == e;
    if pointer != 0 {
      var x :| x in table && x.id == pointer;
      var i :| 0 <= i < |table| && table[i] == x;
      assert (table + [e])[i] == x;
    }
  }

  lemma SettleKeeps(table: seq<Exchange>, e: Exchange, pointer: nat, p: Payload)
    requires Sorted(table + [e]) && Sound(table, pointer, p)
    ensures Sound(table + [e], pointer, p)
  {
    SettlesAbove(table, e, pointer);
    IncrementalAppend(table, e, 0, Some(pointer));
  }

  lemma AboveGrows(table: seq<Exchange>, e: Exchange, pointer: nat)
    ensures |StableAbove(table + [e], pointer)| >= |StableAbove(table, pointer)|
  {
    SubsetCount(StableAbove(table, pointer), StableAbove(table + [e], pointer));
  }

  lemma SettleKeepsWork(cfg: Config, table: seq<Exchange>, e: Exchange, w: Work)
    requires Sorted(table + [e]) && WorkOk(cfg, table, w)
    ensures WorkOk(cfg, table + [e], w)
  {
    SettlesAbove(table, e, w.last);
    IncrementalAppend(table, e, 0, Some(w.last));
    IncrementalAppend(table, e, 0, Some(w.base));
    AboveGrows(table, e, w.last);
  }

  lemma SettleKeepsHistory(cfg: Config, table: seq<Exchange>, e: Exchange, history: seq<Option<Row>>)
    requires Sorted(table + [e]) && HistoryOk(cfg, table, history)
    ensures HistoryOk(cfg, table + [e], history)
  {
    forall i | 0 <= i < |history|
      ensures RowOk(table + [e], history[i])
      ensures |StableAbove(table + [e], Covered(history[i]))| >= |StableAbove(table, Covered(history[i]))|
    {
      AboveGrows(table, e, Covered(history[i]));
      if history[i].Some? {
        SettleKeeps(table, e, history[i].value.covered, history[i].value.payload);
      }
    }
  }

  lemma SettleStep(cfg: Config, s: System, e: Exchange)
    requires Inv(cfg, s)
    ensures Inv(cfg, Step(cfg, s, Settle(e)))
  {
    var s' := Step(cfg, s, Settle(e));
    if s'.table != s.table {
      assert Sorted(s.table + [e]);
      SettleKeepsHistory(cfg, s.table, e, s.history);
      forall r | 0 <= r < |s.runs| ensures RunOk(cfg, s.table + [e], s.history, s.runs[r]) {
        match s.runs[r]
        case Merged(_, w) => SettleKeepsWork(cfg, s.table, e, w);
        case Creating(_, w) => SettleKeepsWork(cfg, s.table, e, w);
        case Conflicted(_, w) => SettleKeepsWork(cfg, s.table, e, w);
        case Updating(w, _, _, _) => SettleKeepsWork(cfg, s.table, e, w);
        case _ =>
      }
    } else {
      assert s' == s;
    }
  }

  /** Between two positions of the history the row persists, its pointer does not fall and its version
    rises by the number of commits. */
  lemma {:induction false} HistoryClimbs(cfg: Config, table: seq<Exchange>, history: seq<Option<Row>>, i: nat, j: nat)
    requires HistoryOk(cfg, table, history) && i <= j < |history|
    ensures Covered(history[i]) <= Covered(history[j])
    ensures Version(history[j]) == Version(history[i]) + (j - i)
    ensures history[i].Some? || i < j ==> history[j].Some?
    decreases j
  {
    if i < j {
      HistoryClimbs(cfg, table, history, i, j - 1);
      assert Advances(history[j-1], history[j]);
    }
  }

  lemma LocalStep(cfg: Config, s: System, r: nat, run: Run)
    requires Inv(cfg, s) && r < |s.runs| && RunOk(cfg, s.table, s.history, run) && !run.Committed?
    ensures Inv(cfg, s.(runs := s.runs[r := run]))
  {
  }

  lemma ReadTableStep(cfg: Config, s: System, r: nat, upTo: nat, blank: bool)
    requires Inv(cfg, s)
    ensures Inv(cfg, Step(cfg, s, ReadTable(r, upTo, blank)))
  {
    if r < |s.runs| && s.runs[r].Loaded? && s.runs[r].seen <= upTo <= |s.table| {
      var run := s.runs[r];
      match Prepare(cfg, run.mem, s.table[..upTo], run.known, blank) {
        case None => LocalStep(cfg, s, r, Skipped);
        case Some(w) =>
          PreparedWorkOk(cfg, run.mem, s.table, upTo, run.known, blank);
          LocalStep(cfg, s, r, Merged(run.at, w));
      }
    }
  }

  lemma RereadStep(cfg: Config, s: System, r: nat, pos: nat)
    requires Inv(cfg, s)
    ensures Inv(cfg, Step(cfg, s, Reread(r, pos)))
    ensures Inv(cfg, Step(cfg, s, RetryRead(r, pos)))
  {
    hide WorkOk, HistoryOk, OneRunPerCommit;
    if r < |s.runs| {
      var run := s.runs[r];
      assert RunOk(cfg, s.table, s.history, run);
      if run.Merged? && run.at <= pos < |s.history| {
        HistoryClimbs(cfg, s.table, s.history, run.at, pos);
        LocalStep(cfg, s, r, Follow(run.at, pos, run.work, Decide(run.work, s.history[pos]), false));
      } else if run.Conflicted? && run.at <= pos < |s.history| {
        LocalStep(cfg, s, r, Follow(run.at, pos, run.work, DecideRetry(run.work, s.history[pos]), true));
      }
    }
  }

  lemma AppendHistory(cfg: Config, table: seq<Exchange>, history: seq<Option<Row>>, row: Row)
    requires HistoryOk(cfg, table, history) && Advances(history[|history|-1], Some(row))
    requires Sound(table, row.covered, row.payload) && |StableAbove(table, row.covered)| >= cfg.window
    ensures HistoryOk(cfg, table, history + [Some(row)])
  {
    hide Sound, StableAbove, Advances;
  }

  lemma HistoryGrows(cfg: Config, table: seq<Exchange>, history: seq<Option<Row>>, row: Option<Row>, run: Run)
    requires RunOk(cfg, table, history, run)
    ensures RunOk(cfg, table, history + [row], run)
  {
    hide WorkOk;
  }

  /** A sound write that advances the current row keeps everything. */
  lemma CommitStep(cfg: Config, s: System, r: nat, w: Work, row: Row)
    requires Inv(cfg, s) && r < |s.runs| && WorkOk(cfg, s.table, w)
    requires row.covered == w.last && row.payload == w.payload && Advances(Current(s), Some(row))
    ensures Inv(cfg, s.(history := s.history + [Some(row)],
                        runs := s.runs[r := Committed(|s.history|, Version(Current(s)))]))
  {
    var h := s.history + [Some(row)];
    AppendHistory(cfg, s.table, s.history, row);
    forall x | 0 <= x < |s.runs| ensures RunOk(cfg, s.table, h, s.runs[x]) {
      HistoryGrows(cfg, s.table, s.history, Some(row), s.runs[x]);
    }
    var c := Committed(|s.history|, Version(Current(s)));
    assert RunOk(cfg, s.table, h, c);
    hide HistoryOk, WorkOk, Advances;
    forall x | 0 <= x < |s.runs| && s.runs[x].Committed? ensures s.runs[x].index < |s.history| {
      assert RunOk(cfg, s.table, s.history, s.runs[x]);
    }
  }

  lemma InsertStep(cfg: Config, s: System, r: nat)
    requires Inv(cfg, s)
    ensures Inv(cfg, Step(cfg, s, Insert(r)))
  {
    if r < |s.runs| && s.runs[r].Creating? {
      var run := s.runs[r];
      if Current(s).None? {
        CommitStep(cfg, s, r, run.work, Created(run.work));
      } else {
        LocalStep(cfg, s, r, Conflicted(run.at, run.work));
      }
    }
  }

  /** A row with the expected version is the row that was re-read: the pointer cannot fall. */
  lemma CasStep(cfg: Config, s: System, r: nat)
    requires Inv(cfg, s)
    ensures Inv(cfg, Step(cfg, s, CompareAndSet(r)))
  {
    if r < |s.runs| && s.runs[r].Updating? {
      var run := s.runs[r];
      if Current(s).Some? && Current(s).value.version == run.expected {
        HistoryClimbs(cfg, s.table, s.history, run.basis, |s.history| - 1);
        CommitStep(cfg, s, r, run.work, Updated(Current(s).value, run.work, run.expected, run.retry));
      } else {
        LocalStep(cfg, s, r, Skipped);
      }
    }
  }

  lemma StepKeepsInv(cfg: Config, s: System, ev: Event)
    requires Inv(cfg, s)
    ensures Inv(cfg, Step(cfg, s, ev))
    ensures s.history <= Step(cfg, s, ev).history
  {
    match ev
    case Settle(e) => SettleStep(cfg, s, e);
    case Start(_) =>
    case ReadTable(r, upTo, blank) => ReadTableStep(cfg, s, r, upTo, blank);
    case Reread(r, pos) => RereadStep(cfg, s, r, pos);
    case Insert(r) => InsertStep(cfg, s, r);
    case RetryRead(r, pos) => RereadStep(cfg, s, r, pos);
    case CompareAndSet(r) => CasStep(cfg, s, r);
  }

  lemma {:induction false} Reachable(cfg: Config, s: System, evs: seq<Event>)
    requires Initial(s)
    ensures Inv(cfg, Exec(cfg, s, evs))
  {
    if evs != [] {
      Reachable(cfg, s, evs[..|evs|-1]);
      StepKeepsInv(cfg, Exec(cfg, s, evs[..|evs|-1]), evs[|evs|-1]);
    }
  }

  // ---------------------------------------------------------------- theorems over all runs

  /** Whatever the interleaving, every committed summary consists of exactly the completed, non-blank
    exchanges up to its pointer, each folded in once and in order. */
  lemma SummaryIsExact(cfg: Config, s: System, evs: seq<Event>, i: nat)
    requires Initial(s) && i < |Exec(cfg, s, evs).history|
    ensures var s' := Exec(cfg, s, evs);
      s'.history[i].Some? ==>
        var row := s'.history[i].value;
        && Flatten(row.payload.merged) == UpTo(s'.table, row.covered)
        && Sorted(Flatten(row.payload.merged))
        && (forall e :: e in Flatten(row.payload.merged) <==>
             e in s'.table && e.completed && !e.blankQuestion && e.id <= row.covered)
  {
    Reachable(cfg, s, evs);
    var s' := Exec(cfg, s, evs);
    if s'.history[i].Some? {
      IncrementalMembers(s'.table, 0, Some(s'.history[i].value.covered));
      IncrementalSorted(s'.table, 0, Some(s'.history[i].value.covered));
      hide Incremental;
      assert RowOk(s'.table, s'.history[i]);
    }
  }

  /** Between any two committed states the pointer does not fall and the version rises by the number
    of commits between them. */
  lemma PointerAndVersionClimb(cfg: Config, s: System, evs: seq<Event>, i: nat, j: nat)
    requires Initial(s) && i <= j < |Exec(cfg, s, evs).history|
    ensures var h := Exec(cfg, s, evs).history;
      && Covered(h[i]) <= Covered(h[j])
      && Version(h[j]) == Version(h[i]) + (j - i)
  {
    Reachable(cfg, s, evs);
    var s' := Exec(cfg, s, evs);
    HistoryClimbs(cfg, s'.table, s'.history, i, j);
  }

  lemma CommitsDiffer(cfg: Config, s': System, a: nat, b: nat)
    requires Inv(cfg, s') && a < b < |s'.runs| && s'.runs[a].Committed? && s'.runs[b].Committed?
    ensures s'.runs[a].expected != s'.runs[b].expected
  {
    hide WorkOk;
    var i, j := s'.runs[a].index, s'.runs[b].index;
    assert RunOk(cfg, s'.table, s'.history, s'.runs[a]) && RunOk(cfg, s'.table, s'.history, s'.runs[b]);
    if i < j {
      HistoryClimbs(cfg, s'.table, s'.history, i - 1, j - 1);
    } else {
      HistoryClimbs(cfg, s'.table, s'.history, j - 1, i - 1);
    }
  }

  /** Of all runs that expected the same version, at most one committed. */
  lemma OneCommitPerVersion(cfg: Config, s: System, evs: seq<Event>, a: nat, b: nat)
    requires Initial(s) && a < b < |Exec(cfg, s, evs).runs|
    requires var rs := Exec(cfg, s, evs).runs; rs[a].Committed? && rs[b].Committed?
    ensures var rs := Exec(cfg, s, evs).runs; rs[a].expected != rs[b].expected
  {
    Reachable(cfg, s, evs);
    CommitsDiffer(cfg, Exec(cfg, s, evs), a, b);
  }

  /** After every commit at least `window` completed exchanges with a question remain above the covered id. */
  lemma CommitsKeepTheWindow(cfg: Config, s: System, evs: seq<Event>, i: nat)
    requires Initial(s) && 0 < i < |Exec(cfg, s, evs).history|
    ensures var s' := Exec(cfg, s, evs); |Eligible(s'.table, Covered(s'.history[i]), None)| >= cfg.window
  {
    Reachable(cfg, s, evs);
    var s' := Exec(cfg, s, evs);
    assert StableAbove(s'.table, Covered(s'.history[i])) == Eligible(s'.table, Covered(s'.history[i]), None);
  }

  lemma {:induction false} HistoryOnlyGrows(cfg: Config, s: System, evs: seq<Event>, more: seq<Event>)
    requires Initial(s)
    ensures Exec(cfg, s, evs).history <= Exec(cfg, s, evs + more).history
    decreases |more|
  {
    if more == [] {
      assert evs + more == evs;
    } else {
      var init, last := more[..|more|-1], more[|more|-1];
      HistoryOnlyGrows(cfg, s, evs, init);
      Reachable(cfg, s, evs + init);
      StepKeepsInv(cfg, Exec(cfg, s, evs + init), last);
      assert (evs + more)[..|evs + more|-1] == evs + init;
    }
  }

  // ---------------------------------------------------------------- progress

  /** A version update commits exactly when nothing was committed since the state it was decided on: it loses
    only to another commit. */
  lemma UpdateCommitsIff(cfg: Config, s: System, r: nat)
    requires Inv(cfg, s) && r < |s.runs| && s.runs[r].Updating?
    ensures Step(cfg, s, CompareAndSet(r)).runs[r].Committed? <==> |s.history| == s.runs[r].basis + 1
  {
    var run := s.runs[r];
    assert RunOk(cfg, s.table, s.history, run);
    HistoryClimbs(cfg, s.table, s.history, run.basis, |s.history| - 1);
  }

  /** The steps of a run that nobody disturbs. */
  function LoneRun(s: System, known: Option<nat>, blank: bool): seq<Event>
    requires |s.history| > 0
  {
    var r := |s.runs|;
    [Start(known), ReadTable(r, |s.table|, blank), Reread(r, |s.history| - 1),
     if Current(s).None? then Insert(r) else CompareAndSet(r)]
  }

  lemma ExecFour(cfg: Config, s: System, a: Event, b: Event, c: Event, d: Event)
    requires |s.history| > 0
    ensures Exec(cfg, s, [a, b, c, d]) == Step(cfg, Step(cfg, Step(cfg, Step(cfg, s, a), b), c), d)
  {
    hide Step;
    assert [a, b, c, d][..3] == [a, b, c] && [a, b, c][..2] == [a, b] && [a, b][..1] == [a] && [a][..0] == [];
    var s1 := Step(cfg, s, a);
    assert Exec(cfg, s, [a]) == s1 by { assert Exec(cfg, s, []) == s; }
    assert Exec(cfg, s, [a, b]) == Step(cfg, s1, b);
    assert Exec(cfg, s, [a, b, c]) == Step(cfg, Step(cfg, s1, b), c);
  }

  /** A row that leaves a run nothing to do: its covered id is higher, or is the same and its text is there. */
  predicate Outruns(mem: Option<Row>, w: Work) {
    mem.Some? && (mem.value.covered > w.last || (mem.value.covered == w.last && !mem.value.blankText))
  }

  /** What the re-read decides, whichever committed state it returns. */
  lemma RereadDecides(cfg: Config, s: System, r: nat, pos: nat)
    requires r < |s.runs| && s.runs[r].Merged? && s.runs[r].at <= pos < |s.history|
    ensures var w, row, s' := s.runs[r].work, s.history[pos], Step(cfg, s, Reread(r, pos));
      && s' == s.(runs := s'.runs) && |s'.runs| == |s.runs|
      && s'.runs[r] ==
           if Outruns(row, w) then Skipped
           else if row.None? then Creating(s.runs[r].at, w)
           else Updating(w, pos, row.value.version, false)
  {
  }

  /** After a lost insert a run tries again exactly if the row it finds has a lower covered id. */
  lemma RetryDecides(cfg: Config, s: System, r: nat, pos: nat)
    requires r < |s.runs| && s.runs[r].Conflicted? && s.runs[r].at <= pos < |s.history|
    ensures var w, row, s' := s.runs[r].work, s.history[pos], Step(cfg, s, RetryRead(r, pos));
      && s' == s.(runs := s'.runs) && |s'.runs| == |s.runs|
      && s'.runs[r] ==
           if row.Some? && row.value.covered < w.last then Updating(w, pos, row.value.version, true) else Skipped
  {
  }

  /** The row a run writes: its own covered id and summary, the next version, and the counts added up, or the
    larger count after a lost insert. */
  function Written(mem: Option<Row>, w: Work, retry: bool): Row {
    match mem
    case None => Row(w.last, w.count, 1, 1, w.blankText, w.payload)
    case Some(m) =>
      Row(w.last, if retry then (if m.count >= w.count then m.count else w.count) else m.count + w.count,
          m.compressions + 1, m.version + 1, w.blankText, w.payload)
  }

  /** A run that nobody disturbs from its re-read on writes exactly that, unless the row outruns it. */
  lemma UndisturbedRunWrites(cfg: Config, s: System, r: nat, write: Event)
    requires |s.history| > 0 && r < |s.runs| && s.runs[r].Merged? && s.runs[r].at < |s.history|
    requires write == if Current(s).None? then Insert(r) else CompareAndSet(r)
    ensures var w, s' := s.runs[r].work, Step(cfg, Step(cfg, s, Reread(r, |s.history| - 1)), write);
      s'.history == if Outruns(Current(s), w) then s.history else s.history + [Some(Written(Current(s), w, false))]
  {
    RereadDecides(cfg, s, r, |s.history| - 1);
    var s1 := Step(cfg, s, Reread(r, |s.history| - 1));
    assert Current(s1) == Current(s);
    hide Decide, DecideRetry, Prepare, Follow, Outruns;
  }

  /** A run whose insert was lost to another one, if nobody disturbs it from its second re-read on, brings its
    work home by an update exactly if it goes beyond the row. */
  lemma LostInsertIsRetried(cfg: Config, s: System, r: nat)
    requires |s.history| > 0 && r < |s.runs| && s.runs[r].Conflicted? && s.runs[r].at < |s.history|
    ensures var w, s' := s.runs[r].work, Step(cfg, Step(cfg, s, RetryRead(r, |s.history| - 1)), CompareAndSet(r));
      s'.history ==
        if Current(s).Some? && Current(s).value.covered < w.last
        then s.history + [Some(Written(Current(s), w, true))] else s.history
  {
    RetryDecides(cfg, s, r, |s.history| - 1);
    var s1 := Step(cfg, s, RetryRead(r, |s.history| - 1));
    assert Current(s1) == Current(s);
    hide Decide, DecideRetry, Prepare, Follow;
  }

  /** Something overflows exactly when there is work, and the work moves the covered id up. */
  lemma OverflowIsWork(cfg: Config, s: System, known: Option<nat>, blank: bool)
    requires Inv(cfg, s)
    ensures var mem := Current(s);
      var w, el := Prepare(cfg, mem, s.table, known, blank), Eligible(s.table, Covered(mem), known);
      && (w.Some? <==> |el| > Max(0, cfg.window))
      && (w.Some? ==> Covered(mem) < w.value.last && |Newer(el, w.value.last)| == Max(0, cfg.window))
  {
    var mem := Current(s);
    var bs := WorkIsOldestOverflow(cfg, mem, s.table, known, blank);
    hide Prepare, Flatten;
    var el, w := Eligible(s.table, Covered(mem), known), Prepare(cfg, mem, s.table, known, blank);
    if w.Some? {
      assert Flatten(bs)[|Flatten(bs)|-1] in Flatten(bs);
    }
  }

  /** The first half of a lone run: reading and merging. */
  lemma LoneRunReads(cfg: Config, s: System, known: Option<nat>, blank: bool)
    requires |s.history| > 0
    ensures var w := Prepare(cfg, Current(s), s.table, known, blank);
      Step(cfg, Step(cfg, s, Start(known)), ReadTable(|s.runs|, |s.table|, blank))
        == s.(runs := s.runs + [if w.None? then Skipped else Merged(|s.history| - 1, w.value)])
  {
    hide Prepare;
    var s1 := Step(cfg, s, Start(known));
    assert s1.runs[|s.runs|] == Loaded(|s.history| - 1, |s.table|, Current(s), known);
    assert s.table[..|s.table|] == s.table;
  }

  /** A run alone commits exactly when more exchanges are eligible than the window holds. It then moves the
    covered id up so far that the newest window_size of them stay above it. */
  lemma LoneRunCommitsIff(cfg: Config, s: System, known: Option<nat>, blank: bool)
    requires Inv(cfg, s)
    ensures var s', el := Exec(cfg, s, LoneRun(s, known, blank)), Eligible(s.table, Covered(Current(s)), known);
      if |el| > Max(0, cfg.window) then
        && |s'.history| == |s.history| + 1 && s'.history[..|s.history|] == s.history
        && Current(s').Some? && Covered(Current(s')) > Covered(Current(s))
        && |Newer(el, Covered(Current(s')))| == Max(0, cfg.window)
      else s'.history == s.history
  {
    OverflowIsWork(cfg, s, known, blank);
    hide Inv, Eligible, Newer, Prepare, Exec;
    var evs, w := LoneRun(s, known, blank), Prepare(cfg, Current(s), s.table, known, blank);
    ExecFour(cfg, s, evs[0], evs[1], evs[2], evs[3]);
    LoneRunReads(cfg, s, known, blank);
    if w.Some? {
      var s2 := s.(runs := s.runs + [Merged(|s.history| - 1, w.value)]);
      hide Step;
      UndisturbedRunWrites(cfg, s2, |s.runs|, evs[3]);
    }
  }

  // ---------------------------------------------------------------- where the promise has an edge

  ghost predicate CountExact(table: seq<Exchange>, mem: Option<Row>) {
    mem.Some? ==> mem.value.count == |UpTo(table, mem.value.covered)|
  }

  lemma {:induction false} UpToGrows(table: seq<Exchange>, p: nat, q: nat)
    requires p <= q
    ensures |UpTo(table, p)| <= |UpTo(table, q)|
  {
    if table != [] {
      UpToGrows(table[..|table|-1], p, q);
    }
  }

  /** covered_exchange_count stays exact through a version update exactly when no stable exchange lies
    between the pointer the run started from and the pointer it overwrites. */
  lemma UpdateCountExactIff(cfg: Config, s: System, r: nat)
    requires Inv(cfg, s) && r < |s.runs| && s.runs[r].Updating? && !s.runs[r].retry
    requires Current(s).Some? && Current(s).value.version == s.runs[r].expected
    requires CountExact(s.table, Current(s))
    ensures CountExact(s.table, Current(Step(cfg, s, CompareAndSet(r)))) <==>
      |UpTo(s.table, Current(s).value.covered)| == |UpTo(s.table, s.runs[r].work.base)|
  {
    assert RunOk(cfg, s.table, s.history, s.runs[r]);
  }

  /** The insert, and the update after an insert conflict, always leave it exact. */
  lemma CreateCountExact(cfg: Config, s: System, r: nat)
    requires Inv(cfg, s) && r < |s.runs| && CountExact(s.table, Current(s))
    requires s.runs[r].Creating? || (s.runs[r].Updating? && s.runs[r].retry)
    ensures CountExact(s.table, Current(Step(cfg, s, Insert(r))))
    ensures CountExact(s.table, Current(Step(cfg, s, CompareAndSet(r))))
  {
    var run := s.runs[r];
    assert RunOk(cfg, s.table, s.history, run);
    NothingUpToZero(s.table);
    if run.Updating? && Current(s).Some? && Current(s).value.version == run.expected {
      HistoryClimbs(cfg, s.table, s.history, run.basis, |s.history| - 1);
      UpToGrows(s.table, Current(s).value.covered, run.work.last);
    }
  }

  /** The count is not below the number of exchanges folded in. */
  ghost predicate CountCovers(table: seq<Exchange>, mem: Option<Row>) {
    mem.Some? ==> mem.value.count >= |UpTo(table, mem.value.covered)|
  }

  ghost predicate CountsCover(s: System) {
    forall i :: 0 <= i < |s.history| ==> CountCovers(s.table, s.history[i])
  }

  lemma SettleKeepsCounts(cfg: Config, s: System, e: Exchange)
    requires Inv(cfg, s) && CountsCover(s)
    ensures CountsCover(Step(cfg, s, Settle(e)))
  {
    var s' := Step(cfg, s, Settle(e));
    if s'.table != s.table {
      SettleStep(cfg, s, e);
      forall i | 0 <= i < |s.history| && s.history[i].Some? ensures CountCovers(s'.table, s.history[i]) {
        var row := s.history[i].value;
        assert RowOk(s.table, s.history[i]) && CountCovers(s.table, s.history[i]);
        SettlesAbove(s.table, e, row.covered);
        IncrementalAppend(s.table, e, 0, Some(row.covered));
      }
    }
  }

  /** What a run is about to write counts at least what it covers. */
  lemma CommitCovers(cfg: Config, s: System, r: nat)
    requires Inv(cfg, s) && CountsCover(s) && r < |s.runs|
    ensures s.runs[r].Creating? ==> CountCovers(s.table, Some(Created(s.runs[r].work)))
    ensures s.runs[r].Updating? && Current(s).Some? && Current(s).value.version == s.runs[r].expected ==>
      var run := s.runs[r]; CountCovers(s.table, Some(Updated(Current(s).value, run.work, run.expected, run.retry)))
  {
    var run := s.runs[r];
    assert RunOk(cfg, s.table, s.history, run);
    NothingUpToZero(s.table);
    hide Sound, StableAbove, Incremental;
    if run.Updating? && Current(s).Some? && Current(s).value.version == run.expected {
      HistoryClimbs(cfg, s.table, s.history, run.basis, |s.history| - 1);
      UpToGrows(s.table, run.work.base, Current(s).value.covered);
      assert CountCovers(s.table, Current(s));
    }
  }

  lemma StepKeepsCounts(cfg: Config, s: System, ev: Event)
    requires Inv(cfg, s) && CountsCover(s)
    ensures CountsCover(Step(cfg, s, ev))
  {
    hide CountCovers, Created, Updated, Prepare, Decide, DecideRetry, Follow;
    match ev
    case Settle(e) => SettleKeepsCounts(cfg, s, e);
    case Insert(r) => if r < |s.runs| { CommitCovers(cfg, s, r); }
    case CompareAndSet(r) => if r < |s.runs| { CommitCovers(cfg, s, r); }
    case Start(_) =>
    case ReadTable(_, _, _) =>
    case Reread(_, _) =>
    case RetryRead(_, _) =>
  }

  /** Over every run covered_exchange_count never falls below the number of exchanges folded in. */
  lemma {:induction false} CountNeverLow(cfg: Config, s: System, evs: seq<Event>)
    requires Initial(s) && CountCovers(s.table, s.history[0])
    ensures CountsCover(Exec(cfg, s, evs))
  {
    if evs != [] {
      var init := evs[..|evs|-1];
      CountNeverLow(cfg, s, init);
      Reachable(cfg, s, init);
      hide Step, CountsCover, Inv;
      StepKeepsCounts(cfg, Exec(cfg, s, init), evs[|evs|-1]);
    }
  }

  /** Settling in id order matters: a stable exchange that settles late, at any place in the table,
    leaves a summary exact if and only if its id is above the summary's pointer. */
  lemma LateSettle(table: seq<Exchange>, i: nat, e: Exchange, pointer: nat, p: Payload)
    requires i <= |table| && Stable(e) && e.id > 0 && Exact(table, pointer, p)
    ensures Exact(table[..i] + [e] + table[i..], pointer, p) <==> e.id > pointer
  {
    IncrementalAppend(table[..i], e, 0, Some(pointer));
    IncrementalConcat(table[..i] + [e], table[i..], 0, Some(pointer));
    IncrementalConcat(table[..i], table[i..], 0, Some(pointer));
    assert table == table[..i] + table[i..];
  }

  // A concrete run in which the count drifts: two workers start from an empty conversation.

  const E1 := Exchange(1, true, false)
  const E2 := Exchange(2, true, false)
  const CFG := Config(0, 10)

  function DriftEvents(): seq<Event> {
    [Start(None), Start(None), ReadTable(0, 1, false), Reread(0, 0), Insert(0),
     Settle(E2), ReadTable(1, 2, false), Reread(1, 1), CompareAndSet(1)]
  }

  /** The state after k of those events. */
  function DriftState(k: nat): (s: System)
    ensures |s.history| > 0
  {
    var idle := Loaded(0, 1, None, None);
    var w1, w2 := Work(0, 1, 1, Payload([[E1]]), false), Work(0, 2, 2, Payload([[E1, E2]]), false);
    var row1, row2 := Row(1, 1, 1, 1, false, w1.payload), Row(2, 3, 2, 2, false, w2.payload);
    if k == 0 then System([E1], [None], [])
    else if k == 1 then System([E1], [None], [idle])
    else if k == 2 then System([E1], [None], [idle, idle])
    else if k == 3 then System([E1], [None], [Merged(0, w1), idle])
    else if k == 4 then System([E1], [None], [Creating(0, w1), idle])
    else if k == 5 then System([E1], [None, Some(row1)], [Committed(1, 0), idle])
    else if k == 6 then System([E1, E2], [None, Some(row1)], [Committed(1, 0), idle])
    else if k == 7 then System([E1, E2], [None, Some(row1)], [Committed(1, 0), Merged(0, w2)])
    else if k == 8 then System([E1, E2], [None, Some(row1)], [Committed(1, 0), Updating(w2, 1, 1, false)])
    else System([E1, E2], [None, Some(row1), Some(row2)], [Committed(1, 0), Committed(2, 1)])
  }

  lemma TakeAll(table: seq<Exchange>, covered: nat, known: Option<nat>)
    requires table == [E1] || table == [E1, E2]
    requires Selected(E1, covered, known) && Selected(E2, covered, known)
    ensures Incremental(table, covered, known) == table
  {
    assert [E1][..0] == [] && [E1, E2][..1] == [E1];
    assert Incremental([E1], covered, known) == Incremental([], covered, known) + [E1];
  }

  lemma PrepareAll(table: seq<Exchange>)
    requires table == [E1] || table == [E1, E2]
    ensures Prepare(CFG, None, table, None, false)
         == Some(Work(0, table[|table|-1].id, |table|, Payload([table]), false))
  {
    TakeAll(table, 0, None);
    hide Incremental;
    assert SelectOverflowBatches(table, 0, 10) == [table] by { assert table[..|table|] == table; }
    FlattenOne(table);
    assert Base(None).merged + [table] == [table];
  }

  lemma DriftStep(k: nat)
    requires k < 9
    ensures Step(CFG, DriftState(k), DriftEvents()[k]) == DriftState(k + 1)
  {
    if k == 2 {
      PrepareAll([E1]);
      assert [E1][..1] == [E1];
    } else if k == 6 {
      PrepareAll([E1, E2]);
      assert [E1, E2][..2] == [E1, E2];
    }
    hide Prepare, Incremental;
  }

  lemma {:induction false} DriftRun(k: nat)
    requires k <= 9
    ensures Exec(CFG, DriftState(0), DriftEvents()[..k]) == DriftState(k)
  {
    hide Step;
    if k > 0 {
      DriftRun(k - 1);
      DriftStep(k - 1);
      assert DriftEvents()[..k][..k-1] == DriftEvents()[..k-1];
    }
  }

  /** It ends with a count of 3 for the 2 exchanges folded in. */
  lemma CountCanDrift()
    ensures Initial(DriftState(0))
    ensures var s := Exec(CFG, DriftState(0), DriftEvents());
      Current(s).Some? && Current(s).value.count == 3 && |UpTo(s.table, Current(s).value.covered)| == 2
  {
    DriftRun(9);
    TakeAll([E1, E2], 0, Some(2));
    assert DriftEvents()[..9] == DriftEvents();
    hide Exec, Step;
  }
}

/**
 * The whole pass of `getAppearances` over the episode table: rows in order,
 * each row's panellists in order, strictly one mention at a time, with the
 * in-memory cache threaded through. The tables the page holds are taken
 * concatenated into one sequence of rows.
 */
module Pipeline {
  import opened Wrappers
  import opened Text
  import opened Entities
  import opened Appearances

  /** One printed CSV line; `header` says whether the column headings were printed with it. */
  datatype Line = Line(record: Appearance, header: bool)

  /**
   * Where a run ended: the in-memory cache, the lines printed, the keys
   * fetched (in order, only fetches that were answered), and the reason it
   * stopped early, if it did.
   */
  datatype RunResult = RunResult(cache: Cache, lines: seq<Line>, fetched: seq<string>, halt: Option<Halt>)

  predicate NoDuplicates(keys: seq<string>) {
    forall i, j :: 0 <= i < j < |keys| ==> keys[i] != keys[j]
  }

  /** The pieces of a row's panellists cell, or none when the cell is missing. */
  function Pieces(row: Row): seq<string> {
    if row.panellists.Some? then Split(row.panellists.value.text, ',') else []
  }

  /** The links of a row's panellists cell. */
  function Links(row: Row): seq<Anchor> {
    if row.panellists.Some? then row.panellists.value.anchors else []
  }

  /** The cache file is rewritten (with the whole in-memory cache) only when the pass completes. */
  function Flushed(run: RunResult): Option<Cache> {
    if run.halt.None? then Some(run.cache) else None
  }

  /**
   * What reaches the cache file: written exactly when the pass completes,
   * holding the loaded records plus one record per answered fetch.
   */
  lemma FlushedFile(cache0: Cache, src: Sources, run: RunResult)
    requires CacheAgrees(cache0, src, run)
    ensures Flushed(run).Some? <==> run.halt.None?
    ensures Flushed(run).Some? ==>
              && (forall k :: k in Flushed(run).value <==> k in cache0 || k in run.fetched)
              && (forall k :: k in cache0 ==> Flushed(run).value[k] == cache0[k])
              && (forall k :: k in run.fetched ==> Flushed(run).value[k] == RecordOf(src.net(k)))
  {
  }

  /**
   * The cache and the fetch log agree: each key is fetched at most once and
   * only when the starting cache lacked it, and the cache holds exactly the
   * starting records plus one record per answered fetch.
   */
  ghost predicate CacheAgrees(cache0: Cache, src: Sources, run: RunResult) {
    && NoDuplicates(run.fetched)
    && (forall k :: k in run.fetched ==> k !in cache0 && src.net(k).Responded?)
    && (forall k :: k in run.cache <==> k in cache0 || k in run.fetched)
    && (forall k :: k in run.cache ==> run.cache[k] == if k in run.fetched then RecordOf(src.net(k)) else cache0[k])
    && (run.halt.Some? && run.halt.value.Hung? ==>
          run.halt.value.key !in run.cache && src.net(run.halt.value.key).Threw?)
  }

  /** Only the first printed line carries the header, and every printed line has an episode number. */
  ghost predicate Printed(lines: seq<Line>) {
    && (forall i :: 0 <= i < |lines| ==> (lines[i].header <==> i == 0))
    && (forall i :: 0 <= i < |lines| ==> lines[i].record.episode != "")
  }

  /** The lines are well printed, and `isFirstRow` says whether none has been printed yet. */
  ghost predicate LinesAgree(run: RunResult, isFirstRow: bool) {
    (isFirstRow <==> |run.lines| == 0) && Printed(run.lines)
  }

  /** Folds one mention's step into the run; `isFirstRow` is cleared by an emitted line only. */
  function Absorb(run: RunResult, isFirstRow: bool, step: Step): (RunResult, bool) {
    var fetched := run.fetched + (if step.fetched.Some? then [step.fetched.value] else []);
    match step.outcome
    case Emit(record) => (RunResult(step.cache, run.lines + [Line(record, isFirstRow)], fetched, None), false)
    case Skip => (RunResult(step.cache, run.lines, fetched, None), isFirstRow)
    case Stop(reason) => (RunResult(step.cache, run.lines, fetched, Some(reason)), isFirstRow)
  }

  /**
   * One more mention keeps cache and log in agreement. `step` is any step
   * with the cache effects `ProcessMention` guarantees: a fetch happens only
   * on a miss, so its key cannot already be in the log.
   */
  lemma AbsorbKeepsCache(cache0: Cache, src: Sources, run: RunResult, isFirstRow: bool, step: Step)
    requires CacheAgrees(cache0, src, run)
    requires step.fetched.None? ==> step.cache == run.cache
    requires step.fetched.Some? ==>
               && step.fetched.value !in run.cache
               && src.net(step.fetched.value).Responded?
               && step.cache == run.cache[step.fetched.value := RecordOf(src.net(step.fetched.value))]
    requires step.outcome.Stop? && step.outcome.reason.Hung? ==>
               && step.fetched.None?
               && step.outcome.reason.key !in run.cache
               && src.net(step.outcome.reason.key).Threw?
    ensures CacheAgrees(cache0, src, Absorb(run, isFirstRow, step).0)
  {
    var next := Absorb(run, isFirstRow, step).0;
    if step.fetched.Some? {
      LogFetch(cache0, src, run, step.fetched.value, next);
    } else {
      assert next.fetched == run.fetched;
    }
  }

  /** Recording an answered fetch of a key the cache lacked keeps cache and log in agreement. */
  lemma LogFetch(cache0: Cache, src: Sources, run: RunResult, k: string, next: RunResult)
    requires CacheAgrees(cache0, src, run)
    requires k !in run.cache && src.net(k).Responded?
    requires next.cache == run.cache[k := RecordOf(src.net(k))]
    requires next.fetched == run.fetched + [k]
    requires next.halt.Some? && next.halt.value.Hung? ==>
               next.halt.value.key !in next.cache && src.net(next.halt.value.key).Threw?
    ensures CacheAgrees(cache0, src, next)
  {
    assert k !in run.fetched;
    assert forall m :: m in next.fetched <==> m in run.fetched || m == k;
    assert NoDuplicates(next.fetched) by {
      forall i, j | 0 <= i < j < |next.fetched| ensures next.fetched[i] != next.fetched[j] {
        if j == |run.fetched| {
          assert next.fetched[i] == run.fetched[i];
        }
      }
    }
  }

  /** One more mention keeps the header on the first printed line only. */
  lemma AbsorbKeepsLines(run: RunResult, isFirstRow: bool, row: Row, step: Step)
    requires LinesAgree(run, isFirstRow)
    requires row.number != ""
    requires step.outcome.Emit? ==> step.outcome.record.episode == row.number
    ensures var next := Absorb(run, isFirstRow, step);
            LinesAgree(next.0, next.1)
  {
  }

  /** What one mention of `row` does, as a function of the cache before it and of its piece of text. */
  function MentionOf(src: Sources, row: Row): (Cache, string) -> Step {
    (c: Cache, piece: string) => ProcessMention(c, src, row, piece, Links(row))
  }

  /** The run after the mentions `pieces`, one at a time, up to the first halt. */
  function Mentions(state: (RunResult, bool), mention: (Cache, string) -> Step, pieces: seq<string>): (RunResult, bool)
    decreases |pieces|
  {
    if |pieces| == 0 || state.0.halt.Some? then state
    else Mentions(Absorb(state.0, state.1, mention(state.0.cache, pieces[0])), mention, pieces[1..])
  }

  /** The run after one row: its panellists in order, or nothing when the row has no episode number. */
  function RowRun(state: (RunResult, bool), src: Sources, row: Row): (RunResult, bool) {
    if row.number != "" then Mentions(state, MentionOf(src, row), Pieces(row)) else state
  }

  /** The run after `rows`, in order, up to the first halt. */
  function Rows(state: (RunResult, bool), src: Sources, rows: seq<Row>): (RunResult, bool)
    decreases |rows|
  {
    if |rows| == 0 || state.0.halt.Some? then state
    else Rows(RowRun(state, src, rows[0]), src, rows[1..])
  }

  /** The state a run starts from: the loaded cache, nothing printed, nothing fetched. */
  function Start(cache0: Cache): (RunResult, bool) {
    (RunResult(cache0, [], [], None), true)
  }

  /**
   * The page holds several tables, walked one after the other: running over
   * two tables in turn is running over their rows concatenated.
   */
  lemma {:induction false} RowsConcat(state: (RunResult, bool), src: Sources, a: seq<Row>, b: seq<Row>)
    ensures Rows(state, src, a + b) == Rows(Rows(state, src, a), src, b)
    decreases |a|
  {
    if |a| == 0 {
      assert a + b == b;
    } else if state.0.halt.Some? {
      HaltedRows(state, src, b);
    } else {
      assert (a + b)[0] == a[0] && (a + b)[1..] == a[1..] + b;
      RowsConcat(RowRun(state, src, a[0]), src, a[1..], b);
    }
  }

  /** A halted run stays as it is, and so does any run once the rows are exhausted. */
  lemma HaltedRows(state: (RunResult, bool), src: Sources, rows: seq<Row>)
    requires state.0.halt.Some? || |rows| == 0
    ensures Rows(state, src, rows) == state
  {
  }

  /** One mention more, unless the run has halted. */
  lemma MentionsStep(state: (RunResult, bool), mention: (Cache, string) -> Step, pieces: seq<string>, j: nat)
    requires j < |pieces| && state.0.halt.None?
    ensures Mentions(state, mention, pieces[j..]) ==
              Mentions(Absorb(state.0, state.1, mention(state.0.cache, pieces[j])), mention, pieces[j + 1..])
  {
    assert pieces[j..][0] == pieces[j] && pieces[j..][1..] == pieces[j + 1..];
  }

  /** A halted run stays as it is, and so does any run once the mentions are exhausted. */
  lemma HaltedMentions(state: (RunResult, bool), mention: (Cache, string) -> Step, pieces: seq<string>)
    requires state.0.halt.Some? || |pieces| == 0
    ensures Mentions(state, mention, pieces) == state
  {
  }

  /** One row more, unless the run has halted. */
  lemma RowsStep(state: (RunResult, bool), src: Sources, rows: seq<Row>, i: nat)
    requires i < |rows| && state.0.halt.None?
    ensures Rows(state, src, rows[i..]) == Rows(RowRun(state, src, rows[i]), src, rows[i + 1..])
  {
    assert rows[i..][0] == rows[i] && rows[i..][1..] == rows[i + 1..];
  }

  /**
   * The loop over the panellists of one row (lines 121-219), with the cache
   * and the header flag threaded through.
   */
  method ProcessRow(run0: RunResult, isFirstRow0: bool, row: Row, src: Sources, ghost cache0: Cache)
    returns (run: RunResult, isFirstRow: bool)
    requires row.number != "" && run0.halt.None?
    requires CacheAgrees(cache0, src, run0) && LinesAgree(run0, isFirstRow0)
    ensures (run, isFirstRow) == RowRun((run0, isFirstRow0), src, row)
    ensures CacheAgrees(cache0, src, run) && LinesAgree(run, isFirstRow)
  {
    run, isFirstRow := run0, isFirstRow0;
    var pieces := Pieces(row);
    ghost var mention := MentionOf(src, row);
    var j := 0;
    while j < |pieces| && run.halt.None?
      invariant 0 <= j <= |pieces|
      invariant CacheAgrees(cache0, src, run)
      invariant LinesAgree(run, isFirstRow)
      invariant Mentions((run, isFirstRow), mention, pieces[j..]) == Mentions((run0, isFirstRow0), mention, pieces)
    {
      var step := ProcessMention(run.cache, src, row, pieces[j], Links(row));
      AbsorbKeepsCache(cache0, src, run, isFirstRow, step);
      AbsorbKeepsLines(run, isFirstRow, row, step);
      assert mention(run.cache, pieces[j]) == step;
      MentionsStep((run, isFirstRow), mention, pieces, j);
      var next := Absorb(run, isFirstRow, step);
      run, isFirstRow := next.0, next.1;
      j := j + 1;
    }
    HaltedMentions((run, isFirstRow), mention, pieces[j..]);
  }

  /**
   * `getAppearances`: rows without an episode number are skipped; every
   * other row's panellists are processed in order until the table ends or a
   * mention halts the run. The result is the reference run `Rows`; the
   * cache and the fetch log agree as `CacheAgrees` describes, and the lines
   * are printed as `Printed` describes.
   */
  method GetAppearances(rows: seq<Row>, cache0: Cache, src: Sources) returns (run: RunResult)
    ensures run == Rows(Start(cache0), src, rows).0
    ensures CacheAgrees(cache0, src, run)
    ensures Printed(run.lines)
  {
    run := RunResult(cache0, [], [], None);
    var isFirstRow := true;
    var i := 0;
    while i < |rows| && run.halt.None?
      invariant 0 <= i <= |rows|
      invariant CacheAgrees(cache0, src, run)
      invariant LinesAgree(run, isFirstRow)
      invariant Rows((run, isFirstRow), src, rows[i..]) == Rows(Start(cache0), src, rows)
    {
      RowsStep((run, isFirstRow), src, rows, i);
      if rows[i].number != "" {
        run, isFirstRow := ProcessRow(run, isFirstRow, rows[i], src, cache0);
      }
      i := i + 1;
    }
    HaltedRows((run, isFirstRow), src, rows[i..]);
  }
}

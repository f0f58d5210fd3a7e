/**
 The review of one patch: claim a review row, run the review tool, complete the row, and retry a bounded number
 of times; stopping when the review window closes and picking up after a crash. The answers of the tool, the
 window and the crashes are inputs, one `Turn` per pass of the loop.
 */
module ReviewLoop {
  import opened Prelude

  datatype RowStatus = Pending | InReview | Reviewed | Failed | Skipped

  /** A review row of the patch; `interaction` is whether an AI interaction was recorded for it. */
  datatype Row = Row(status: RowStatus, interaction: bool)

  datatype PatchStatus = Unset | PatchFailed | PatchReviewed | PatchSkipped

  /** What the review tool came back with. Everything but the first two means it returned a result. */
  datatype ToolResult =
    | WindowClosed
    | ToolError
    | NotApplied(interaction: bool)
    | AppliedError(interaction: bool)
    | AppliedReview(interaction: bool, queued: bool)   // queued: the notification could be queued
    | AppliedNull(interaction: bool)
    | AppliedMissing(interaction: bool)

  /** Where the process dies in this turn, if it does. */
  datatype Crash = Never | BeforeClaim | AfterClaim | InTool | AfterComplete

  datatype Turn = Turn(openBefore: bool, openAfter: bool, tool: ToolResult, crash: Crash)

  datatype Config = Config(target: nat, maxRetries: nat, noAi: bool, onlyIgnoredFiles: bool)

  datatype PatchResult = Success | PausedBySchedule | ReviewFailed | Crashed

  type Rows = seq<Row>

  // ---------------------------------------------------------------- queries

  predicate IsActive(r: Row) {
    r.status == Pending || r.status == InReview
  }

  function ReviewedIds(rows: Rows): set<nat> {
    set i: nat | i < |rows| && rows[i].status == Reviewed
  }

  /** A failure without an AI interaction keeps the patch from being reviewed again. */
  predicate HasFailed(rows: Rows) {
    exists i :: 0 <= i < |rows| && rows[i].status == Failed && !rows[i].interaction
  }

  /** The first pending row, if any. */
  function PendingRow(rows: Rows): (r: Option<nat>)
    ensures r.Some? ==> r.value < |rows| && rows[r.value].status == Pending
    ensures r.None? ==> forall i :: 0 <= i < |rows| ==> rows[i].status != Pending
  {
    if rows == [] then None else
      var r := PendingRow(rows[..|rows| - 1]);
      if r.Some? then r
      else if rows[|rows| - 1].status == Pending then Some(|rows| - 1) else None
  }

  // ---------------------------------------------------------------- the specification

  datatype Outcome = Outcome(rows: Rows, patch: PatchStatus, result: PatchResult, toolRuns: nat)

  /** The row a turn works on: the pending one it was given, else a new one at the end. */
  function Claim(rows: Rows, pending: Option<nat>): (r: (Rows, nat))
    requires pending.Some? ==> pending.value < |rows|
    ensures r.1 < |r.0|
  {
    if pending.Some? then (rows, pending.value) else (rows + [Row(Pending, false)], |rows|)
  }

  function Put(rows: Rows, id: nat, status: RowStatus, interaction: bool): Rows
    requires id < |rows|
  {
    rows[id := Row(status, interaction)]
  }

  /** What one pass leaves behind; `result` is None when the loop goes round again. */
  datatype Pass = Pass(rows: Rows, patch: PatchStatus, result: Option<PatchResult>, toolRuns: nat)

  /** One pass of the loop; `last` when no retry is left. */
  function OnePass(rows: Rows, pending: Option<nat>, patch: PatchStatus, c: Config, t: Turn, last: bool): Pass
    requires pending.Some? ==> pending.value < |rows|
  {
    if t.crash == BeforeClaim then Pass(rows, patch, Some(Crashed), 0)
    else if !t.openBefore then Pass(rows, patch, Some(PausedBySchedule), 0)
    else
      var (claimed, id) := Claim(rows, pending);
      var interaction := claimed[id].interaction;
      if t.crash == AfterClaim then Pass(claimed, patch, Some(Crashed), 0)
      else if !t.openAfter then Pass(Put(claimed, id, Pending, interaction), patch, Some(PausedBySchedule), 0)
      else if t.crash == InTool then Pass(Put(claimed, id, InReview, interaction), patch, Some(Crashed), 1)
      else if t.tool.WindowClosed? then
        Pass(Put(claimed, id, Pending, interaction), patch, Some(PausedBySchedule), 1)
      else
        var done := Put(claimed, id, Completed(t.tool, c), Recorded(t.tool));
        if t.crash == AfterComplete then Pass(done, patch, Some(Crashed), 1)
        else if t.tool.AppliedReview? then
          Pass(done, if t.tool.queued then PatchReviewed else patch, Some(Success), 1)
        else if t.tool.AppliedNull? && c.noAi then Pass(done, PatchSkipped, Some(Success), 1)
        else if t.tool.AppliedMissing? || last then Pass(done, PatchFailed, Some(ReviewFailed), 1)
        else Pass(done, patch, None, 1)
  }

  /** The loop from the pass numbered `retries` on. */
  function Loop(rows: Rows, pending: Option<nat>, patch: PatchStatus, c: Config, turns: nat -> Turn, retries: nat)
    : Outcome
    requires retries <= c.maxRetries && (pending.Some? ==> pending.value < |rows|)
    decreases c.maxRetries - retries
  {
    var p := OnePass(rows, pending, patch, c, turns(retries), retries == c.maxRetries);
    if p.result.Some? then Outcome(p.rows, p.patch, p.result.value, p.toolRuns)
    else AddRuns(Loop(p.rows, None, p.patch, c, turns, retries + 1), p.toolRuns)
  }

  function AddRuns(o: Outcome, n: nat): Outcome {
    o.(toolRuns := o.toolRuns + n)
  }

  /** The status a row is completed with. */
  function Completed(tool: ToolResult, c: Config): RowStatus {
    if tool.AppliedReview? then Reviewed
    else if tool.AppliedNull? && c.noAi then Skipped
    else Failed
  }

  function Recorded(tool: ToolResult): bool
    requires !tool.WindowClosed?
  {
    if tool.ToolError? then false else tool.interaction
  }

  function Process(rows: Rows, patch: PatchStatus, c: Config, turns: nat -> Turn): Outcome {
    if |ReviewedIds(rows)| >= c.target then Outcome(rows, patch, Success, 0)
    else if HasFailed(rows) then Outcome(rows, PatchFailed, ReviewFailed, 0)
    else if c.onlyIgnoredFiles then
      var (claimed, id) := Claim(rows, PendingRow(rows));
      Outcome(Put(claimed, id, Skipped, false), patch, Success, 0)
    else Loop(rows, PendingRow(rows), patch, c, turns, 0)
  }

  // ---------------------------------------------------------------- the method

  class PatchReviews {
    var rows: Rows
    var patch: PatchStatus

    constructor ()
      ensures rows == [] && patch == Unset
    {
      rows, patch := [], Unset;
    }

    method CreateReview() returns (id: nat)
      modifies this`rows
      ensures rows == old(rows) + [Row(Pending, false)] && id == |old(rows)|
    {
      id := |rows|;
      rows := rows + [Row(Pending, false)];
    }

    method UpdateReviewStatus(id: nat, status: RowStatus)
      requires id < |rows|
      modifies this`rows
      ensures rows == old(rows)[id := old(rows)[id].(status := status)]
    {
      rows := rows[id := rows[id].(status := status)];
    }

    method CompleteReview(id: nat, status: RowStatus, interaction: bool)
      requires id < |rows|
      modifies this`rows
      ensures rows == Put(old(rows), id, status, interaction)
    {
      rows := rows[id := Row(status, interaction)];
    }

    /** One pass of the loop. */
    method ReviewOnce(existing: Option<nat>, c: Config, t: Turn, last: bool)
      returns (r: Option<PatchResult>, toolRuns: nat)
      requires existing.Some? ==> existing.value < |rows|
      modifies this
      ensures Pass(rows, patch, r, toolRuns) == OnePass(old(rows), existing, old(patch), c, t, last)
    {
      if t.crash == BeforeClaim { return Some(Crashed), 0; }
      if !t.openBefore { return Some(PausedBySchedule), 0; }
      var id: nat;
      if existing.Some? { id := existing.value; } else { id := CreateReview(); }
      if t.crash == AfterClaim { return Some(Crashed), 0; }
      UpdateReviewStatus(id, InReview);
      if !t.openAfter {
        UpdateReviewStatus(id, Pending);
        return Some(PausedBySchedule), 0;
      }
      if t.crash == InTool { return Some(Crashed), 1; }
      if t.tool.WindowClosed? {
        UpdateReviewStatus(id, Pending);
        return Some(PausedBySchedule), 1;
      }
      CompleteReview(id, Completed(t.tool, c), Recorded(t.tool));
      if t.crash == AfterComplete { return Some(Crashed), 1; }
      if t.tool.AppliedReview? {
        if t.tool.queued { patch := PatchReviewed; }
        return Some(Success), 1;
      }
      if t.tool.AppliedNull? && c.noAi {
        patch := PatchSkipped;
        return Some(Success), 1;
      }
      if t.tool.AppliedMissing? || last {
        patch := PatchFailed;
        return Some(ReviewFailed), 1;
      }
      return None, 1;
    }

    method ProcessPatchReview(c: Config, turns: nat -> Turn) returns (r: PatchResult, toolRuns: nat)
      modifies this
      ensures Outcome(rows, patch, r, toolRuns) == Process(old(rows), old(patch), c, turns)
    {
      if |ReviewedIds(rows)| >= c.target { return Success, 0; }
      if HasFailed(rows) {
        patch := PatchFailed;
        return ReviewFailed, 0;
      }
      var existing: Option<nat> := PendingRow(rows);
      if c.onlyIgnoredFiles {
        var id: nat;
        if existing.Some? { id := existing.value; } else { id := CreateReview(); }
        CompleteReview(id, Skipped, false);
        return Success, 0;
      }
      ghost var whole := Process(rows, patch, c, turns);
      var retries := 0;
      toolRuns := 0;
      while true
        invariant retries <= c.maxRetries
        invariant existing.Some? ==> existing.value < |rows|
        invariant whole == AddRuns(Loop(rows, existing, patch, c, turns, retries), toolRuns)
        decreases c.maxRetries - retries
      {
        var verdict, runs := ReviewOnce(existing, c, turns(retries), retries == c.maxRetries);
        toolRuns := toolRuns + runs;
        if verdict.Some? { return verdict.value, toolRuns; }
        existing, retries := None, retries + 1;
      }
    }
  }

  // ---------------------------------------------------------------- what one call promises

  ghost predicate OneActive(rows: Rows) {
    forall i, j :: 0 <= i < |rows| && 0 <= j < |rows| && IsActive(rows[i]) && IsActive(rows[j]) ==> i == j
  }

  /** Nobody is reviewing: the service is between calls and was restarted after its last crash. */
  ghost predicate Quiet(rows: Rows) {
    forall i :: 0 <= i < |rows| ==> rows[i].status != InReview
  }

  /** Completed rows are never touched again. */
  ghost predicate History(rows: Rows, rows': Rows) {
    |rows| <= |rows'| && forall i :: 0 <= i < |rows| && !IsActive(rows[i]) ==> rows'[i] == rows[i]
  }

  /** The pending row handed to a pass is the only active one. */
  ghost predicate Handed(rows: Rows, pending: Option<nat>) {
    match pending
    case Some(id) =>
      id < |rows| && rows[id].status == Pending && forall i :: 0 <= i < |rows| && IsActive(rows[i]) ==> i == id
    case None => forall i :: 0 <= i < |rows| ==> !IsActive(rows[i])
  }

  /** The status a pass leaves its row in, by how the pass ended. */
  ghost predicate Leaves(result: Option<PatchResult>, status: RowStatus, c: Config) {
    match result
    case None => status == Failed
    case Some(Success) => status == Reviewed || (c.noAi && status == Skipped)
    case Some(PausedBySchedule) => status == Pending
    case Some(ReviewFailed) => status == Failed
    case Some(Crashed) => true
  }

  /** A pass does not touch the table, or it claims a row and changes that row only. */
  lemma PassTouchesOneRow(rows: Rows, pending: Option<nat>, patch: PatchStatus, c: Config, t: Turn, last: bool)
    requires pending.Some? ==> pending.value < |rows|
    ensures var p := OnePass(rows, pending, patch, c, t, last);
            var (claimed, id) := Claim(rows, pending);
            || (p.rows == rows && p.result in {Some(Crashed), Some(PausedBySchedule)})
            || (|p.rows| == |claimed| && p.rows == claimed[id := p.rows[id]] && Leaves(p.result, p.rows[id].status, c))
  {
  }

  lemma PassOutcome(rows: Rows, pending: Option<nat>, patch: PatchStatus, c: Config, t: Turn, last: bool)
    requires pending.Some? ==> pending.value < |rows|
    ensures var p := OnePass(rows, pending, patch, c, t, last);
            && p.toolRuns <= 1
            && (p.result == Some(ReviewFailed) ==> p.patch == PatchFailed)
            && (p.result == None ==> !last && p.patch == patch && p.toolRuns == 1)
  {
  }

  /** Setting the handed row, or a new one if none was handed, to anything. */
  lemma ClaimedRow(rows: Rows, pending: Option<nat>, row: Row)
    requires Handed(rows, pending)
    ensures var (claimed, id) := Claim(rows, pending);
            var after := claimed[id := row];
            && OneActive(after) && History(rows, after)
            && (row.status != InReview ==> Quiet(after))
            && (!IsActive(row) ==> Handed(after, None))
  {
    var (claimed, id) := Claim(rows, pending);
    var after := claimed[id := row];
    forall i | 0 <= i < |after| && i != id ensures after[i] == rows[i] && !IsActive(after[i]) { }
  }

  lemma ClaimedReviewed(rows: Rows, pending: Option<nat>, row: Row)
    requires Handed(rows, pending)
    ensures var (claimed, id) := Claim(rows, pending);
            |ReviewedIds(claimed[id := row])| == |ReviewedIds(rows)| + (if row.status == Reviewed then 1 else 0)
  {
    var (claimed, id) := Claim(rows, pending);
    assert ReviewedIds(claimed) == ReviewedIds(rows);
    ReviewedPut(claimed, id, row);
  }

  lemma ReviewedPut(rows: Rows, id: nat, row: Row)
    requires id < |rows| && rows[id].status != Reviewed
    ensures |ReviewedIds(rows[id := row])| == |ReviewedIds(rows)| + (if row.status == Reviewed then 1 else 0)
  {
    if row.status == Reviewed {
      assert ReviewedIds(rows[id := row]) == ReviewedIds(rows) + {id};
    } else {
      assert ReviewedIds(rows[id := row]) == ReviewedIds(rows);
    }
  }

  lemma PassPromises(rows: Rows, pending: Option<nat>, patch: PatchStatus, c: Config, t: Turn, last: bool)
    requires Handed(rows, pending)
    ensures var p := OnePass(rows, pending, patch, c, t, last);
            && OneActive(p.rows) && History(rows, p.rows)
            && (p.result != Some(Crashed) ==> Quiet(p.rows))
            && (p.result == None ==> Handed(p.rows, None) && |ReviewedIds(p.rows)| == |ReviewedIds(rows)|)
            && |ReviewedIds(rows)| <= |ReviewedIds(p.rows)| <= |ReviewedIds(rows)| + 1
            && (p.result == Some(Success) && !c.noAi ==> |ReviewedIds(p.rows)| == |ReviewedIds(rows)| + 1)
  {
    PassTouchesOneRow(rows, pending, patch, c, t, last);
    var p := OnePass(rows, pending, patch, c, t, last);
    var (claimed, id) := Claim(rows, pending);
    if p.rows != rows || p.result !in {Some(Crashed), Some(PausedBySchedule)} {
      ClaimedRow(rows, pending, p.rows[id]);
      ClaimedReviewed(rows, pending, p.rows[id]);
    }
  }

  lemma {:induction false} LoopPromises(rows: Rows, pending: Option<nat>, patch: PatchStatus, c: Config,
                                        turns: nat -> Turn, retries: nat)
    requires Handed(rows, pending) && retries <= c.maxRetries
    ensures var o := Loop(rows, pending, patch, c, turns, retries);
            && OneActive(o.rows) && History(rows, o.rows)
            && o.toolRuns <= c.maxRetries + 1 - retries
            && (o.result != Crashed ==> Quiet(o.rows))
            && (o.result == ReviewFailed ==> o.patch == PatchFailed)
            && |ReviewedIds(rows)| <= |ReviewedIds(o.rows)| <= |ReviewedIds(rows)| + 1
            && (o.result == Success && !c.noAi ==> |ReviewedIds(o.rows)| == |ReviewedIds(rows)| + 1)
    decreases c.maxRetries - retries
  {
    var last := retries == c.maxRetries;
    var p := OnePass(rows, pending, patch, c, turns(retries), last);
    PassPromises(rows, pending, patch, c, turns(retries), last);
    PassOutcome(rows, pending, patch, c, turns(retries), last);
    if p.result.None? {
      LoopPromises(p.rows, None, p.patch, c, turns, retries + 1);
      HistoryTrans(rows, p.rows, Loop(p.rows, None, p.patch, c, turns, retries + 1).rows);
    }
  }

  lemma HistoryTrans(rows: Rows, rows': Rows, rows'': Rows)
    requires History(rows, rows') && History(rows', rows'')
    ensures History(rows, rows'')
  {
  }

  lemma PendingRowHanded(rows: Rows)
    requires OneActive(rows) && Quiet(rows)
    ensures Handed(rows, PendingRow(rows))
  {
  }

  /**
   One call, from a table nobody is working on: at most one row stays active, none stays in review unless the
   process died, completed rows are untouched, the tool runs at most max_retries + 1 times, a failed review is
   reported only with the patch marked failed, and at most one review is added, never past the target.
   */
  lemma CallPromises(rows: Rows, patch: PatchStatus, c: Config, turns: nat -> Turn)
    requires OneActive(rows) && Quiet(rows)
    ensures var o := Process(rows, patch, c, turns);
            && OneActive(o.rows) && History(rows, o.rows)
            && o.toolRuns <= c.maxRetries + 1
            && (o.result != Crashed ==> Quiet(o.rows))
            && (o.result == ReviewFailed ==> o.patch == PatchFailed)
            && (|ReviewedIds(o.rows)| == |ReviewedIds(rows)| || |ReviewedIds(rows)| < |ReviewedIds(o.rows)| <= c.target)
  {
    PendingRowHanded(rows);
    if |ReviewedIds(rows)| >= c.target || HasFailed(rows) {
    } else if c.onlyIgnoredFiles {
      var (claimed, id) := Claim(rows, PendingRow(rows));
      assert ReviewedIds(Put(claimed, id, Skipped, false)) == ReviewedIds(rows);
    } else {
      LoopPromises(rows, PendingRow(rows), patch, c, turns, 0);
    }
  }

  /** A successful call that ran the AI brings the patch one review closer to the target. */
  lemma SuccessMeansProgress(rows: Rows, patch: PatchStatus, c: Config, turns: nat -> Turn)
    requires OneActive(rows) && Quiet(rows) && !c.noAi && !c.onlyIgnoredFiles
    requires Process(rows, patch, c, turns).result == Success
    ensures var after := |ReviewedIds(Process(rows, patch, c, turns).rows)|;
            if |ReviewedIds(rows)| >= c.target then after == |ReviewedIds(rows)| else after == |ReviewedIds(rows)| + 1
  {
    PendingRowHanded(rows);
    if |ReviewedIds(rows)| < c.target && !HasFailed(rows) {
      LoopPromises(rows, PendingRow(rows), patch, c, turns, 0);
    }
  }

  // ---------------------------------------------------------------- which call ends how

  /** Nothing interferes: the window stays open and the process lives. */
  predicate Smooth(t: Turn) {
    t.openBefore && t.openAfter && t.crash == Never && !t.tool.WindowClosed?
  }

  /** A result after which another attempt is worth making. */
  predicate Retryable(tool: ToolResult, noAi: bool) {
    match tool
    case ToolError | NotApplied(_) | AppliedError(_) => true
    case AppliedNull(_) => !noAi
    case WindowClosed | AppliedReview(_, _) | AppliedMissing(_) => false
  }

  /** Whether the tool's result came with an AI interaction. */
  function Interaction(tool: ToolResult): bool {
    match tool
    case WindowClosed | ToolError => false
    case NotApplied(i) => i
    case AppliedError(i) => i
    case AppliedReview(i, _) => i
    case AppliedNull(i) => i
    case AppliedMissing(i) => i
  }

  /** Turns from `first` on, n of them, that each fail in a way worth retrying. */
  ghost predicate Failing(turns: nat -> Turn, first: nat, n: nat, noAi: bool) {
    forall k: nat :: first <= k < first + n ==> Smooth(turns(k)) && Retryable(turns(k).tool, noAi)
  }

  /** The failed rows those turns leave. */
  function FailedRows(turns: nat -> Turn, n: nat): Rows {
    seq(n, k requires 0 <= k < n => Row(Failed, Interaction(turns(k).tool)))
  }

  /** The table after rows were written one after the other, the first over the pending row if there is one. */
  function WrittenTo(rows: Rows, pending: Option<nat>, written: Rows): Rows
    requires pending.Some? ==> pending.value < |rows|
  {
    if pending.Some? && written != [] then rows[pending.value := written[0]] + written[1..] else rows + written
  }

  /** What is left of the pending row once it has been written. */
  function StillPending(pending: Option<nat>, n: nat): Option<nat> {
    if n == 0 then pending else None
  }

  lemma OneMoreWritten(rows: Rows, pending: Option<nat>, written: Rows, row: Row)
    requires pending.Some? ==> pending.value < |rows|
    ensures var (claimed, id) := Claim(WrittenTo(rows, pending, written), StillPending(pending, |written|));
            WrittenTo(rows, pending, written + [row]) == claimed[id := row]
  {
    if pending.Some? && written != [] {
      assert (written + [row])[0] == written[0] && (written + [row])[1..] == written[1..] + [row];
    }
  }

  /** A failing turn with a retry left writes one failed row and goes round again; without one it gives up. */
  lemma FailingPass(rows: Rows, pending: Option<nat>, patch: PatchStatus, c: Config, t: Turn, last: bool)
    requires pending.Some? ==> pending.value < |rows|
    requires Smooth(t) && Retryable(t.tool, c.noAi)
    ensures var (claimed, id) := Claim(rows, pending);
            OnePass(rows, pending, patch, c, t, last)
            == Pass(claimed[id := Row(Failed, Interaction(t.tool))], if last then PatchFailed else patch,
                    if last then Some(ReviewFailed) else None, 1)
  {
  }

  lemma FailingTurn(rows: Rows, pending: Option<nat>, patch: PatchStatus, c: Config, turns: nat -> Turn, k: nat)
    requires (pending.Some? ==> pending.value < |rows|) && k < c.maxRetries
    requires Smooth(turns(k)) && Retryable(turns(k).tool, c.noAi)
    ensures var (claimed, id) := Claim(rows, pending);
            Loop(rows, pending, patch, c, turns, k)
            == AddRuns(Loop(claimed[id := Row(Failed, Interaction(turns(k).tool))], None, patch, c, turns, k + 1), 1)
  {
    FailingPass(rows, pending, patch, c, turns(k), false);
  }

  /** The loop is at turn n, with n failed rows written and n runs made. */
  ghost predicate ReachesTurn(rows: Rows, patch: PatchStatus, c: Config, turns: nat -> Turn, n: nat)
    requires n <= c.maxRetries
  {
    var table, pending := WrittenTo(rows, PendingRow(rows), FailedRows(turns, n)), StillPending(PendingRow(rows), n);
    && (pending.Some? ==> pending.value < |table|)
    && Loop(rows, PendingRow(rows), patch, c, turns, 0) == AddRuns(Loop(table, pending, patch, c, turns, n), n)
  }

  lemma NextTurn(rows: Rows, patch: PatchStatus, c: Config, turns: nat -> Turn, n: nat)
    requires n < c.maxRetries && ReachesTurn(rows, patch, c, turns, n)
    requires Smooth(turns(n)) && Retryable(turns(n).tool, c.noAi)
    ensures ReachesTurn(rows, patch, c, turns, n + 1)
  {
    var pending, row := PendingRow(rows), Row(Failed, Interaction(turns(n).tool));
    FailingTurn(WrittenTo(rows, pending, FailedRows(turns, n)), StillPending(pending, n), patch, c, turns, n);
    OneMoreWritten(rows, pending, FailedRows(turns, n), row);
    assert FailedRows(turns, n + 1) == FailedRows(turns, n) + [row];
  }

  lemma {:induction false} FailingTurns(rows: Rows, patch: PatchStatus, c: Config, turns: nat -> Turn, n: nat)
    requires n <= c.maxRetries && Failing(turns, 0, n, c.noAi)
    ensures ReachesTurn(rows, patch, c, turns, n)
  {
    if n == 0 {
      assert WrittenTo(rows, PendingRow(rows), []) == rows;
    } else {
      FailingTurns(rows, patch, c, turns, n - 1);
      NextTurn(rows, patch, c, turns, n - 1);
    }
  }

  /** The patch still wants a review, and nothing forbids one. */
  ghost predicate Wanted(rows: Rows, c: Config) {
    && |ReviewedIds(rows)| < c.target && !c.onlyIgnoredFiles
    && forall i :: 0 <= i < |rows| && rows[i].status == Failed ==> rows[i].interaction
  }

  /** A wanted call, after n failing turns, is decided by turn n. */
  lemma DecidedByTurn(rows: Rows, patch: PatchStatus, c: Config, turns: nat -> Turn, n: nat)
    requires Wanted(rows, c) && n <= c.maxRetries && Failing(turns, 0, n, c.noAi)
    ensures var (table, pending) := (WrittenTo(rows, PendingRow(rows), FailedRows(turns, n)),
                                     StillPending(PendingRow(rows), n));
            && (pending.Some? ==> pending.value < |table|)
            && var p := OnePass(table, pending, patch, c, turns(n), n == c.maxRetries);
               p.result.Some? ==>
                 Process(rows, patch, c, turns) == Outcome(p.rows, p.patch, p.result.value, p.toolRuns + n)
  {
    assert !HasFailed(rows);
    FailingTurns(rows, patch, c, turns, n);
  }

  /**
   However many attempts fail, as long as a retry is left the next one is made: if it brings a review, the call is a
   success after n + 1 runs of the tool, and the table has the n failed rows and the reviewed one.
   */
  lemma ReviewAfterRetries(rows: Rows, patch: PatchStatus, c: Config, turns: nat -> Turn, n: nat)
    requires Wanted(rows, c) && n <= c.maxRetries && Failing(turns, 0, n, c.noAi)
    requires Smooth(turns(n)) && turns(n).tool.AppliedReview?
    ensures Process(rows, patch, c, turns)
         == Outcome(WrittenTo(rows, PendingRow(rows),
                              FailedRows(turns, n) + [Row(Reviewed, turns(n).tool.interaction)]),
                    if turns(n).tool.queued then PatchReviewed else patch, Success, n + 1)
  {
    DecidedByTurn(rows, patch, c, turns, n);
    OneMoreWritten(rows, PendingRow(rows), FailedRows(turns, n), Row(Reviewed, turns(n).tool.interaction));
  }

  /** Without AI an empty review is what was asked for: the row and the patch are skipped. */
  lemma SkippedWithoutAi(rows: Rows, patch: PatchStatus, c: Config, turns: nat -> Turn, n: nat)
    requires Wanted(rows, c) && n <= c.maxRetries && Failing(turns, 0, n, c.noAi) && c.noAi
    requires Smooth(turns(n)) && turns(n).tool.AppliedNull?
    ensures Process(rows, patch, c, turns)
         == Outcome(WrittenTo(rows, PendingRow(rows),
                              FailedRows(turns, n) + [Row(Skipped, turns(n).tool.interaction)]),
                    PatchSkipped, Success, n + 1)
  {
    DecidedByTurn(rows, patch, c, turns, n);
    OneMoreWritten(rows, PendingRow(rows), FailedRows(turns, n), Row(Skipped, turns(n).tool.interaction));
  }

  /** The turn with which a call gives up: the last allowed attempt fails, or a result has no review content. */
  ghost predicate GivesUpAt(c: Config, turns: nat -> Turn, n: nat) {
    && n <= c.maxRetries && Failing(turns, 0, n, c.noAi) && Smooth(turns(n))
    && (turns(n).tool.AppliedMissing? || (n == c.maxRetries && Retryable(turns(n).tool, c.noAi)))
  }

  lemma GivesUp(rows: Rows, patch: PatchStatus, c: Config, turns: nat -> Turn, n: nat)
    requires Wanted(rows, c) && GivesUpAt(c, turns, n)
    ensures Process(rows, patch, c, turns)
         == Outcome(WrittenTo(rows, PendingRow(rows), FailedRows(turns, n + 1)), PatchFailed, ReviewFailed, n + 1)
  {
    DecidedByTurn(rows, patch, c, turns, n);
    OneMoreWritten(rows, PendingRow(rows), FailedRows(turns, n), Row(Failed, Interaction(turns(n).tool)));
    assert FailedRows(turns, n + 1) == FailedRows(turns, n) + [Row(Failed, Interaction(turns(n).tool))];
  }

  /**
   When the window closes, before the claim, after it, or while the tool runs, the call pauses: the failed rows stay,
   a row that was claimed is pending again, and the patch's status is as it was.
   */
  lemma PausedWhenClosed(rows: Rows, patch: PatchStatus, c: Config, turns: nat -> Turn, n: nat)
    requires Wanted(rows, c) && n <= c.maxRetries && Failing(turns, 0, n, c.noAi)
    requires turns(n).crash == Never && (!turns(n).openBefore || !turns(n).openAfter || turns(n).tool.WindowClosed?)
    ensures var (t, failed, pending) := (turns(n), FailedRows(turns, n), PendingRow(rows));
            Process(rows, patch, c, turns)
            == Outcome(if !t.openBefore || StillPending(pending, n).Some? then WrittenTo(rows, pending, failed)
                       else WrittenTo(rows, pending, failed + [Row(Pending, false)]),
                       patch, PausedBySchedule, if t.openBefore && t.openAfter then n + 1 else n)
  {
    DecidedByTurn(rows, patch, c, turns, n);
    OneMoreWritten(rows, PendingRow(rows), FailedRows(turns, n), Row(Pending, false));
    if n == 0 {
      assert WrittenTo(rows, PendingRow(rows), FailedRows(turns, 0)) == rows;
      if PendingRow(rows).Some? {
        var id := PendingRow(rows).value;
        assert rows[id := Row(Pending, rows[id].interaction)] == rows;
      }
    }
  }

  /** Turn by turn from `first` on, the loop passes over failing turns with a retry left and over nothing else. */
  lemma {:induction false} FailureBehind(rows: Rows, pending: Option<nat>, patch: PatchStatus, c: Config,
                                         turns: nat -> Turn, first: nat)
      returns (n: nat)
    requires first <= c.maxRetries && (pending.Some? ==> pending.value < |rows|)
    requires Loop(rows, pending, patch, c, turns, first).result == ReviewFailed
    ensures first <= n <= c.maxRetries && Failing(turns, first, n - first, c.noAi) && Smooth(turns(n))
    ensures turns(n).tool.AppliedMissing? || (n == c.maxRetries && Retryable(turns(n).tool, c.noAi))
    ensures Loop(rows, pending, patch, c, turns, first).toolRuns == n + 1 - first
    decreases c.maxRetries - first
  {
    var p := OnePass(rows, pending, patch, c, turns(first), first == c.maxRetries);
    if p.result.Some? { n := first; } else { n := FailureBehind(p.rows, None, p.patch, c, turns, first + 1); }
  }

  /**
   A wanted call that stays undisturbed gives up exactly when its last allowed attempt fails, or a result has no
   review content; and a call that ran the tool and reports a failed review has done one or the other.
   */
  lemma FailedIffGaveUp(rows: Rows, patch: PatchStatus, c: Config, turns: nat -> Turn)
    requires Wanted(rows, c)
    ensures Process(rows, patch, c, turns).result == ReviewFailed <==> exists n :: GivesUpAt(c, turns, n)
  {
    assert !HasFailed(rows);
    if Process(rows, patch, c, turns).result == ReviewFailed {
      var n := FailureBehind(rows, PendingRow(rows), patch, c, turns, 0);
      assert GivesUpAt(c, turns, n);
    }
    if n :| GivesUpAt(c, turns, n) { GivesUp(rows, patch, c, turns, n); }
  }

  /** A call that is not wanted runs no tool: enough reviews, a failure to keep in view, or ignored files only. */
  lemma NotWanted(rows: Rows, patch: PatchStatus, c: Config, turns: nat -> Turn)
    requires !Wanted(rows, c)
    ensures var o := Process(rows, patch, c, turns);
            && o.toolRuns == 0
            && (|ReviewedIds(rows)| >= c.target ==> o == Outcome(rows, patch, Success, 0))
            && (|ReviewedIds(rows)| < c.target && HasFailed(rows) ==> o == Outcome(rows, PatchFailed, ReviewFailed, 0))
            && (|ReviewedIds(rows)| < c.target && !HasFailed(rows) ==>
                  o.result == Success && o.patch == patch
                  && o.rows == WrittenTo(rows, PendingRow(rows), [Row(Skipped, false)]))
  {
    OneMoreWritten(rows, PendingRow(rows), [], Row(Skipped, false));
    assert [] + [Row(Skipped, false)] == [Row(Skipped, false)];
    assert WrittenTo(rows, PendingRow(rows), []) == rows;
  }

  // ---------------------------------------------------------------- runs of the service

  /** The service's view of one patch. `up` is false between a crash and the restart. */
  datatype Service = Service(rows: Rows, patch: PatchStatus, target: nat, up: bool)

  datatype Event =
    | Called(c: Config, turns: nat -> Turn)   // one worker takes the patch up
    | Killed                                   // the process dies between calls
    | Restarted                                // interrupted reviews go back to Pending
    | Rerun                                    // one more review is wanted

  function Reset(rows: Rows): Rows {
    seq(|rows|, i requires 0 <= i < |rows| =>
      if rows[i].status == InReview then rows[i].(status := Pending) else rows[i])
  }

  /** After a restart the review that was interrupted is the one the next call takes up; no other row changes. */
  lemma RestartResumes(rows: Rows, id: nat)
    requires OneActive(rows) && id < |rows| && rows[id].status == InReview
    ensures PendingRow(rows[id := Row(Pending, rows[id].interaction)]) == Some(id)
    ensures Reset(rows) == rows[id := Row(Pending, rows[id].interaction)]
  {
    var after := rows[id := Row(Pending, rows[id].interaction)];
    forall i | 0 <= i < |rows| && i != id ensures !IsActive(rows[i]) { assert IsActive(rows[id]); }
    forall i | 0 <= i < |rows| ensures Reset(rows)[i] == after[i] { }
    assert after[id].status == Pending && forall i :: 0 <= i < |after| && i != id ==> after[i].status != Pending;
  }

  /** A call was given the target as it stood when its patchset was picked up, so no more than it is now. */
  predicate Allowed(s: Service, e: Event) {
    match e
    case Called(c, _) => s.up && c.target <= s.target
    case _ => true
  }

  function Step(s: Service, e: Event): Service {
    match e
    case Called(c, turns) =>
      var o := Process(s.rows, s.patch, c, turns);
      Service(o.rows, o.patch, s.target, o.result != Crashed)
    case Killed => s.(up := false)
    case Restarted => s.(rows := Reset(s.rows), up := true)
    case Rerun => s.(target := s.target + 1)
  }

  ghost predicate IsRun(run: seq<Service>, events: seq<Event>) {
    && |run| == |events| + 1
    && run[0] == Service([], Unset, 1, true)
    && forall i :: 0 <= i < |events| ==> Allowed(run[i], events[i]) && run[i + 1] == Step(run[i], events[i])
  }

  /**
   In every run with retries, pauses, crashes, restarts and reruns the patch has at most one pending or running
   review, none running while the service is idle, and never more completed reviews than were asked for.
   */
  lemma {:induction false} RunInvariant(run: seq<Service>, events: seq<Event>, i: nat)
    requires IsRun(run, events) && i < |run|
    ensures OneActive(run[i].rows) && (run[i].up ==> Quiet(run[i].rows))
    ensures |ReviewedIds(run[i].rows)| <= run[i].target
  {
    if i == 0 {
      assert ReviewedIds(run[0].rows) == {};
    } else {
      RunInvariant(run, events, i - 1);
      var s, e := run[i - 1], events[i - 1];
      assert Allowed(s, e) && run[i - 1 + 1] == Step(s, e);
      if e.Called? { CallPromises(s.rows, s.patch, e.c, e.turns); }
      if e.Restarted? { assert ReviewedIds(Reset(s.rows)) == ReviewedIds(s.rows); }
    }
  }

  lemma {:induction false} RunHistory(run: seq<Service>, events: seq<Event>, i: nat, j: nat)
    requires IsRun(run, events) && i <= j < |run|
    ensures History(run[i].rows, run[j].rows)
    decreases j
  {
    if i < j {
      RunHistory(run, events, i, j - 1);
      RunInvariant(run, events, j - 1);
      var s, e := run[j - 1], events[j - 1];
      assert Allowed(s, e) && run[j - 1 + 1] == Step(s, e);
      if e.Called? { CallPromises(s.rows, s.patch, e.c, e.turns); }
    }
  }

  /**
   A failure recorded without an AI interaction is final: every later call that still wants a review reports a
   failed review without running the tool, however often a rerun is asked for.
   */
  lemma FailureIsSticky(run: seq<Service>, events: seq<Event>, i: nat, j: nat)
    requires IsRun(run, events) && i <= j < |events| && HasFailed(run[i].rows) && events[j].Called?
    requires |ReviewedIds(run[j].rows)| < events[j].c.target
    ensures var o := Process(run[j].rows, run[j].patch, events[j].c, events[j].turns);
            o.result == ReviewFailed && o.toolRuns == 0 && run[j + 1].rows == run[j].rows
  {
    RunHistory(run, events, i, j);
    var k :| 0 <= k < |run[i].rows| && run[i].rows[k].status == Failed && !run[i].rows[k].interaction;
    assert run[j].rows[k] == run[i].rows[k];
    assert Allowed(run[j], events[j]) && run[j + 1] == Step(run[j], events[j]);
  }
}

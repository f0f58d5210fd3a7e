/**
 The e-mail outbox: a row is leased for sending by setting it to `Sending` with a lock time, and a lease older
 than ten minutes, left by a worker that died, is taken back.
 */
module Outbox {
  import opened Prelude
  import Tables

  datatype MailStatus = Pending | Sending | Sent | Failed | Skipped | Muted | Disabled | DryRun

  datatype Mail = Mail(patch: Tables.PatchId, status: MailStatus, lockedAt: Option<int>, error: Option<string>,
                       body: string, createdAt: int)

  type Rows = map<nat, Mail>

  const LEASE := 600

  // ---------------------------------------------------------------- the operations on the rows

  predicate HasMail(rows: Rows, patch: Tables.PatchId) {
    exists id :: id in rows && rows[id].patch == patch
  }

  ghost function Add(rows: Rows, patch: Tables.PatchId, status: MailStatus, body: string, now: int): Rows {
    rows[NextRowId(rows.Keys) := Mail(patch, status, None, None, body, now)]
  }

  ghost function Insert(rows: Rows, patch: Tables.PatchId, status: MailStatus, body: string, now: int): Rows {
    if HasMail(rows, patch) then rows else Add(rows, patch, status, body, now)
  }

  function PendingIds(rows: Rows): set<nat> {
    set id | id in rows && rows[id].status == Pending
  }

  /** Leases one pending row, whichever the query picks, and returns it as leased. */
  ghost predicate Locks(rows: Rows, now: int, r: Option<(nat, Mail)>, rows': Rows) {
    match r
    case None => PendingIds(rows) == {} && rows' == rows
    case Some((id, mail)) =>
      && id in PendingIds(rows)
      && mail == rows[id].(status := Sending, lockedAt := Some(now))
      && rows' == rows[id := mail]
  }

  function MarkSent(rows: Rows, id: nat): Rows {
    if id in rows then rows[id := rows[id].(status := Sent, lockedAt := None)] else rows
  }

  function MarkFailed(rows: Rows, id: nat, error: string): Rows {
    if id in rows then rows[id := rows[id].(status := Failed, error := Some(error), lockedAt := None)] else rows
  }

  /** The lease has run out. A lock time that is NULL compares as unknown. */
  predicate Expired(mail: Mail, now: int) {
    mail.status == Sending && mail.lockedAt.Some? && mail.lockedAt.value < now - LEASE
  }

  function ExpiredIds(rows: Rows, now: int): set<nat> {
    set id | id in rows && Expired(rows[id], now)
  }

  function Sweep(rows: Rows, now: int): Rows {
    map id | id in rows ::
      if Expired(rows[id], now) then rows[id].(status := Pending, lockedAt := None) else rows[id]
  }

  class EmailOutbox {
    var rows: Rows

    constructor ()
      ensures rows == map[]
    {
      rows := map[];
    }

    /** An insert that nothing comes between. */
    method InsertEmailOutbox(patch: Tables.PatchId, status: MailStatus, body: string, now: int)
      modifies this
      ensures rows == Insert(old(rows), patch, status, body, now)
    {
      if HasMail(rows, patch) { return; }
      var id := ComputeNextRowId(rows.Keys);
      rows := rows[id := Mail(patch, status, None, None, body, now)];
    }

    method LockPendingEmail(now: int) returns (r: Option<(nat, Mail)>)
      modifies this
      ensures Locks(old(rows), now, r, rows)
    {
      var ids := PendingIds(rows);
      if ids == {} { return None; }
      var id :| id in ids;
      rows := rows[id := rows[id].(status := Sending, lockedAt := Some(now))];
      r := Some((id, rows[id]));
    }

    method MarkEmailSent(id: nat)
      modifies this
      ensures rows == MarkSent(old(rows), id)
    {
      if id in rows { rows := rows[id := rows[id].(status := Sent, lockedAt := None)]; }
    }

    method MarkEmailFailed(id: nat, error: string)
      modifies this
      ensures rows == MarkFailed(old(rows), id, error)
    {
      if id in rows { rows := rows[id := rows[id].(status := Failed, error := Some(error), lockedAt := None)]; }
    }

    method SweepGhostEmails(now: int) returns (count: nat)
      modifies this
      ensures rows == Sweep(old(rows), now)
      ensures count == |ExpiredIds(old(rows), now)|
    {
      var expired := ExpiredIds(rows, now);
      count := |expired|;
      var rest := expired;
      ghost var was := rows;
      while rest != {}
        invariant rest <= expired && rows.Keys == was.Keys
        invariant forall id :: id in was ==>
                    rows[id] == if id in expired && id !in rest then was[id].(status := Pending, lockedAt := None)
                                else was[id]
        decreases rest
      {
        var id :| id in rest;
        rest := rest - {id};
        rows := rows[id := rows[id].(status := Pending, lockedAt := None)];
      }
      SweptRows(was, now, rows);
    }

    static lemma SweptRows(was: Rows, now: int, rows: Rows)
      requires rows.Keys == was.Keys
      requires forall id :: id in was ==>
                 rows[id] == if id in ExpiredIds(was, now) then was[id].(status := Pending, lockedAt := None)
                             else was[id]
      ensures rows == Sweep(was, now)
    {
      assert Sweep(was, now).Keys == was.Keys;
      forall id | id in was ensures rows[id] == Sweep(was, now)[id] { }
    }
  }

  // ---------------------------------------------------------------- runs with inserts in flight

  /** The statuses new rows are created with. */
  const NEW_STATUSES := {Pending, Skipped, Muted, Disabled, DryRun}

  /** The table, and the inserts that have looked for a mail of their patch, found none and not yet written theirs. */
  datatype Outbox = Outbox(rows: Rows, inserts: map<nat, Tables.PatchId>)

  /** An insert is two statements, so that others may come between; every other operation is one. */
  datatype Call =
    | Checked(insert: nat, patch: Tables.PatchId)
    | Written(insert: nat, patch: Tables.PatchId, status: MailStatus, body: string)
    | Died
    | Locked(id: nat)
    | LockedNone
    | SentMarked(id: nat)
    | FailedMarked(id: nat, error: string)
    | Swept

  /** One statement on the outbox at a given time. */
  ghost predicate Step(o: Outbox, now: int, c: Call, o': Outbox) {
    match c
    case Checked(insert, patch) =>
      insert !in o.inserts && o' == if HasMail(o.rows, patch) then o else o.(inserts := o.inserts[insert := patch])
    case Written(insert, patch, status, body) =>
      && insert in o.inserts && o.inserts[insert] == patch && status in NEW_STATUSES
      && o' == Outbox(Add(o.rows, patch, status, body, now), o.inserts - {insert})
    case Died => o' == o.(inserts := map[])
    case Locked(id) =>
      id in o'.rows && o' == o.(rows := o'.rows) && Locks(o.rows, now, Some((id, o'.rows[id])), o'.rows)
    case LockedNone => Locks(o.rows, now, None, o'.rows) && o' == o
    case SentMarked(id) => o' == o.(rows := MarkSent(o.rows, id))
    case FailedMarked(id, error) => o' == o.(rows := MarkFailed(o.rows, id, error))
    case Swept => o' == o.(rows := Sweep(o.rows, now))
  }

  /** An insert that nothing comes between does both its statements. */
  lemma InsertAlone(o: Outbox, now: int, c: Call, o1: Outbox, o2: Outbox)
    requires c.Written? && Step(o, now, Checked(c.insert, c.patch), o1)
    requires if c.insert in o1.inserts then Step(o1, now, c, o2) else o2 == o1
    ensures o2 == o.(rows := Insert(o.rows, c.patch, c.status, c.body, now))
  {
    assert o1.inserts - {c.insert} == o.inserts;
  }

  /** A history of statements from an empty outbox: `times[i]` is when call i ran, and time does not go back. */
  ghost predicate IsRun(run: seq<Outbox>, times: seq<int>, calls: seq<Call>) {
    && |run| == |calls| + 1 == |times| + 1 && run[0] == Outbox(map[], map[])
    && (forall i :: 0 <= i < |calls| ==> Step(run[i], times[i], calls[i], run[i + 1]))
    && (forall i, j :: 0 <= i <= j < |times| ==> times[i] <= times[j])
  }

  ghost predicate LockedExactlyWhileSending(rows: Rows) {
    forall id :: id in rows ==> (rows[id].lockedAt.Some? <==> rows[id].status == Sending)
  }

  /** In every history a mail has a lock time exactly while it is being sent. */
  lemma {:induction false} RunInvariant(run: seq<Outbox>, times: seq<int>, calls: seq<Call>, i: nat)
    requires IsRun(run, times, calls) && i < |run|
    ensures LockedExactlyWhileSending(run[i].rows)
  {
    if i > 0 {
      RunInvariant(run, times, calls, i - 1);
      assert Step(run[i - 1], times[i - 1], calls[i - 1], run[i - 1 + 1]);
    }
  }

  // ---------------------------------------------------------------- one mail per patch

  ghost predicate OnePerPatch(rows: Rows) {
    forall a, b :: a in rows && b in rows && rows[a].patch == rows[b].patch ==> a == b
  }

  ghost predicate WritesFor(c: Call, patch: Tables.PatchId) {
    c.Written? && c.patch == patch
  }

  /** The write with number n ends the insert that looked at k. */
  ghost predicate LookedAt(calls: seq<Call>, k: nat, n: nat) {
    && k < n < |calls| && calls[n].Written? && calls[k] == Checked(calls[n].insert, calls[n].patch)
    && forall m :: k < m < n ==> !(calls[m].Checked? && calls[m].insert == calls[n].insert)
  }

  /** Between the two statements of an insert another one writes a mail for the same patch. */
  ghost predicate Raced(calls: seq<Call>, k: nat, m: nat, n: nat) {
    LookedAt(calls, k, n) && k < m < n && WritesFor(calls[m], calls[n].patch)
  }

  /** The write finds a mail of its patch already there. */
  ghost predicate Repeats(run: seq<Outbox>, calls: seq<Call>, n: nat)
    requires n < |calls| <= |run|
  {
    calls[n].Written? && HasMail(run[n].rows, calls[n].patch)
  }

  lemma StepOnePerPatch(o: Outbox, now: int, c: Call, o': Outbox)
    requires Step(o, now, c, o')
    ensures OnePerPatch(o'.rows) <==> OnePerPatch(o.rows) && !(c.Written? && HasMail(o.rows, c.patch))
  {
    forall id | id in o.rows ensures id in o'.rows && o'.rows[id].patch == o.rows[id].patch { }
    if c.Written? {
      var id := NextRowId(o.rows.Keys);
      assert o'.rows[id].patch == c.patch;
      forall a | a in o'.rows && a != id ensures a in o.rows && o'.rows[a] == o.rows[a] { }
    }
  }

  ghost predicate NoneRepeats(run: seq<Outbox>, calls: seq<Call>, i: nat)
    requires i <= |calls| <= |run|
  {
    forall n: nat :: n < i ==> !Repeats(run, calls, n)
  }

  lemma OneMoreCall(run: seq<Outbox>, calls: seq<Call>, i: nat)
    requires i < |calls| <= |run|
    ensures NoneRepeats(run, calls, i + 1) <==> NoneRepeats(run, calls, i) && !Repeats(run, calls, i)
  {
    assert forall n: nat :: n < i + 1 && Repeats(run, calls, n) ==> n < i || n == i;
  }

  lemma {:induction false} OnePerPatchSoFar(run: seq<Outbox>, times: seq<int>, calls: seq<Call>, i: nat)
    requires IsRun(run, times, calls) && i < |run|
    ensures OnePerPatch(run[i].rows) <==> NoneRepeats(run, calls, i)
  {
    if i > 0 {
      OnePerPatchSoFar(run, times, calls, i - 1);
      assert Step(run[i - 1], times[i - 1], calls[i - 1], run[i - 1 + 1]);
      StepOnePerPatch(run[i - 1], times[i - 1], calls[i - 1], run[i]);
      OneMoreCall(run, calls, i - 1);
    }
  }

  /** An insert in flight looked at some earlier point and found no mail of its patch. */
  lemma {:induction false} InsertLooked(run: seq<Outbox>, times: seq<int>, calls: seq<Call>, insert: nat, i: nat)
      returns (k: nat)
    requires IsRun(run, times, calls) && i < |run| && insert in run[i].inserts
    ensures k < i && calls[k] == Checked(insert, run[i].inserts[insert])
    ensures !HasMail(run[k].rows, run[i].inserts[insert])
    ensures forall m :: k < m < i ==> !(calls[m].Checked? && calls[m].insert == insert)
  {
    assert Step(run[i - 1], times[i - 1], calls[i - 1], run[i - 1 + 1]);
    if insert in run[i - 1].inserts {
      k := InsertLooked(run, times, calls, insert, i - 1);
    } else {
      k := i - 1;
    }
  }

  /** A patch without a mail gets one exactly when one is written for it. */
  lemma {:induction false} MailIffWritten(run: seq<Outbox>, times: seq<int>, calls: seq<Call>, patch: Tables.PatchId,
                                          k: nat, n: nat)
    requires IsRun(run, times, calls) && k <= n < |run| && !HasMail(run[k].rows, patch)
    ensures HasMail(run[n].rows, patch) <==> exists m :: k <= m < n && WritesFor(calls[m], patch)
    decreases n
  {
    if k < n {
      MailIffWritten(run, times, calls, patch, k, n - 1);
      assert Step(run[n - 1], times[n - 1], calls[n - 1], run[n - 1 + 1]);
      StepMail(run[n - 1], times[n - 1], calls[n - 1], run[n], patch);
    }
  }

  lemma StepMail(o: Outbox, now: int, c: Call, o': Outbox, patch: Tables.PatchId)
    requires Step(o, now, c, o')
    ensures HasMail(o'.rows, patch) <==> HasMail(o.rows, patch) || WritesFor(c, patch)
  {
    forall id | id in o.rows ensures id in o'.rows && o'.rows[id].patch == o.rows[id].patch { }
    if c.Written? { assert o'.rows[NextRowId(o.rows.Keys)].patch == c.patch; }
  }

  /** A write repeats a mail exactly when another insert wrote one between its two statements. */
  lemma RepeatsIffRaced(run: seq<Outbox>, times: seq<int>, calls: seq<Call>, n: nat)
    requires IsRun(run, times, calls) && n < |calls|
    ensures Repeats(run, calls, n) <==> exists k: nat, m: nat :: Raced(calls, k, m, n)
  {
    assert Step(run[n], times[n], calls[n], run[n + 1]);
    if calls[n].Written? {
      var k := InsertLooked(run, times, calls, calls[n].insert, n);
      MailIffWritten(run, times, calls, calls[n].patch, k, n);
      assert LookedAt(calls, k, n);
      if m :| k <= m < n && WritesFor(calls[m], calls[n].patch) { assert Raced(calls, k, m, n); }
      forall k': nat, m: nat | Raced(calls, k', m, n) ensures k' == k { }
    }
  }

  /**
   In every history each patch has at most one mail exactly as long as no two inserts for one patch overlap so that
   one of them writes between the look-up and the write of the other.
   */
  lemma OnePerPatchIff(run: seq<Outbox>, times: seq<int>, calls: seq<Call>, i: nat)
    requires IsRun(run, times, calls) && i < |run|
    ensures OnePerPatch(run[i].rows) <==> forall k: nat, m: nat, n: nat :: n < i ==> !Raced(calls, k, m, n)
  {
    OnePerPatchSoFar(run, times, calls, i);
    if n: nat :| n < i && Repeats(run, calls, n) {
      RepeatsIffRaced(run, times, calls, n);
      var k: nat, m: nat :| Raced(calls, k, m, n);
      assert !OnePerPatch(run[i].rows);
    } else {
      forall k: nat, m: nat, n: nat | n < i ensures !Raced(calls, k, m, n) { RepeatsIffRaced(run, times, calls, n); }
    }
  }

  /** Two inserts for one patch that both look before either writes leave two mails. */
  lemma TwoInsertsRace(patch: Tables.PatchId, body: string, now: int)
    ensures var calls := [Checked(0, patch), Checked(1, patch), Written(0, patch, Pending, body),
                          Written(1, patch, Pending, body)];
            exists run: seq<Outbox> :: IsRun(run, [now, now, now, now], calls) && !OnePerPatch(run[4].rows)
  {
    var calls := [Checked(0, patch), Checked(1, patch), Written(0, patch, Pending, body),
                  Written(1, patch, Pending, body)];
    var rows := Add(map[], patch, Pending, body, now);
    var run := [Outbox(map[], map[]), Outbox(map[], map[0 := patch]), Outbox(map[], map[0 := patch, 1 := patch]),
                Outbox(rows, map[1 := patch]), Outbox(Add(rows, patch, Pending, body, now), map[])];
    assert map[0 := patch, 1 := patch] - {0} == map[1 := patch] && map[1 := patch] - {1} == map[];
    assert Step(run[0], now, calls[0], run[1]) && Step(run[1], now, calls[1], run[2]);
    assert Step(run[2], now, calls[2], run[3]) && Step(run[3], now, calls[3], run[4]);
    assert IsRun(run, [now, now, now, now], calls);
    assert LookedAt(calls, 1, 3) && Raced(calls, 1, 2, 3);
    OnePerPatchIff(run, [now, now, now, now], calls, 4);
  }

  // ---------------------------------------------------------------- mails and their leases

  /** A write adds one mail, for its patch, with its status and body and not locked, and changes no other. */
  lemma WriteAddsMail(run: seq<Outbox>, times: seq<int>, calls: seq<Call>, n: nat) returns (id: nat)
    requires IsRun(run, times, calls) && n < |calls| && calls[n].Written?
    ensures id !in run[n].rows
    ensures run[n + 1].rows
         == run[n].rows[id := Mail(calls[n].patch, calls[n].status, None, None, calls[n].body, times[n])]
  {
    assert Step(run[n], times[n], calls[n], run[n + 1]);
    id := NextRowId(run[n].rows.Keys);
  }

  /** Rows stay, for the same patch with the same body, and a final status is final but for `Sent` and `Failed`. */
  lemma {:induction false} RowsStay(run: seq<Outbox>, times: seq<int>, calls: seq<Call>, id: nat, i: nat, j: nat)
    requires IsRun(run, times, calls) && i <= j < |run| && id in run[i].rows
    ensures id in run[j].rows
    ensures run[j].rows[id].patch == run[i].rows[id].patch && run[j].rows[id].body == run[i].rows[id].body
    ensures run[i].rows[id].status in {Sent, Failed} ==> run[j].rows[id].status in {Sent, Failed}
    ensures run[i].rows[id].status !in {Pending, Sending} ==> run[j].rows[id].status !in {Pending, Sending}
    decreases j
  {
    if i < j {
      RowsStay(run, times, calls, id, i, j - 1);
      assert Step(run[j - 1], times[j - 1], calls[j - 1], run[j - 1 + 1]);
    }
  }

  /** Since its last lock at `locked`, the row is still leased from then, was taken back late enough, or is over. */
  ghost predicate LeaseState(mail: Mail, locked: int, now: int) {
    match mail.status
    case Sending => mail.lockedAt == Some(locked)
    case Pending => locked < now - LEASE
    case _ => true
  }

  lemma {:induction false} LeaseHolds(run: seq<Outbox>, times: seq<int>, calls: seq<Call>, id: nat, i: nat, j: nat)
    requires IsRun(run, times, calls) && i < j < |run| && calls[i] == Locked(id)
    requires forall n :: i < n < j ==> calls[n] != Locked(id)
    ensures id in run[j].rows && LeaseState(run[j].rows[id], times[i], times[j - 1])
    decreases j
  {
    if i + 1 == j {
      assert Step(run[i], times[i], calls[i], run[i + 1]);
    } else {
      LeaseHolds(run, times, calls, id, i, j - 1);
      assert Step(run[j - 1], times[j - 1], calls[j - 1], run[j - 1 + 1]);
      assert times[j - 2] <= times[j - 1];
    }
  }

  /** Two locks of one row are more than ten minutes apart: no mail is leased twice at a time. */
  lemma {:induction false} LocksAreFarApart(run: seq<Outbox>, times: seq<int>, calls: seq<Call>, id: nat, i: nat,
                                            j: nat)
    requires IsRun(run, times, calls) && i < j < |calls| && calls[i] == Locked(id) && calls[j] == Locked(id)
    ensures times[j] - times[i] > 600
    decreases j - i
  {
    if n :| i < n < j && calls[n] == Locked(id) {
      LocksAreFarApart(run, times, calls, id, i, n);
      LocksAreFarApart(run, times, calls, id, n, j);
    } else {
      LeaseHolds(run, times, calls, id, i, j);
      assert Step(run[j], times[j], calls[j], run[j + 1]);
      assert times[j - 1] <= times[j];
    }
  }

  /** Between two locks of a row some sweep took it back, and no call marked it sent or failed. */
  lemma RelockMeansAbandoned(run: seq<Outbox>, times: seq<int>, calls: seq<Call>, id: nat, i: nat, j: nat)
    requires IsRun(run, times, calls) && i < j < |calls| && calls[i] == Locked(id) && calls[j] == Locked(id)
    ensures forall n :: i < n < j ==> calls[n] != SentMarked(id) && !(calls[n].FailedMarked? && calls[n].id == id)
    ensures exists n :: i < n < j && calls[n] == Swept
  {
    assert Step(run[i], times[i], calls[i], run[i + 1]);
    assert Step(run[j], times[j], calls[j], run[j + 1]);
    forall n | i < n < j ensures calls[n] != SentMarked(id) && !(calls[n].FailedMarked? && calls[n].id == id) {
      RowsStay(run, times, calls, id, i + 1, n);
      RowsStay(run, times, calls, id, n + 1, j);
      assert Step(run[n], times[n], calls[n], run[n + 1]);
    }
    if forall n :: i < n < j ==> calls[n] != Swept {
      StaysLeased(run, times, calls, id, i + 1, j);
    }
  }

  lemma {:induction false} StaysLeased(run: seq<Outbox>, times: seq<int>, calls: seq<Call>, id: nat, i: nat, j: nat)
    requires IsRun(run, times, calls) && i <= j < |run| && id in run[i].rows && run[i].rows[id].status != Pending
    requires forall n :: i <= n < j ==> calls[n] != Swept
    ensures id in run[j].rows && run[j].rows[id].status != Pending
    decreases j
  {
    if i < j {
      StaysLeased(run, times, calls, id, i, j - 1);
      assert Step(run[j - 1], times[j - 1], calls[j - 1], run[j - 1 + 1]);
    }
  }

  /** A mail that was written as skipped, muted, disabled or for a dry run stays, and is never locked for sending. */
  lemma MutedNeverSent(run: seq<Outbox>, times: seq<int>, calls: seq<Call>, n: nat) returns (id: nat)
    requires IsRun(run, times, calls) && n < |calls| && calls[n].Written? && calls[n].status != Pending
    ensures forall j :: n < j < |run| ==>
              id in run[j].rows && run[j].rows[id].patch == calls[n].patch && run[j].rows[id].body == calls[n].body
    ensures forall j :: n < j < |calls| ==> calls[j] != Locked(id)
  {
    assert Step(run[n], times[n], calls[n], run[n + 1]);
    id := WriteAddsMail(run, times, calls, n);
    forall j | n < j < |run|
      ensures id in run[j].rows && run[j].rows[id].patch == calls[n].patch && run[j].rows[id].body == calls[n].body
    {
      RowsStay(run, times, calls, id, n + 1, j);
    }
    forall j | n < j < |calls| ensures calls[j] != Locked(id) {
      RowsStay(run, times, calls, id, n + 1, j);
      assert Step(run[j], times[j], calls[j], run[j + 1]);
    }
  }

  /** A sweep gives back exactly the mails whose lease is more than ten minutes old, and changes no other. */
  lemma SweepGivesBack(rows: Rows, now: int, id: nat)
    requires id in rows
    ensures Sweep(rows, now).Keys == rows.Keys
    ensures Sweep(rows, now)[id] == if rows[id].status == Sending && rows[id].lockedAt.Some?
                                       && now - rows[id].lockedAt.value > 600
                                    then rows[id].(status := Pending, lockedAt := None) else rows[id]
  {
  }

  /** A mark ends the lease of one mail, with the error if there was one, and changes no other. */
  lemma MarksEndLease(rows: Rows, id: nat, error: string)
    requires id in rows
    ensures MarkSent(rows, id) == rows[id := rows[id].(status := Sent, lockedAt := None)]
    ensures MarkFailed(rows, id, error)
         == rows[id := rows[id].(status := Failed, lockedAt := None, error := Some(error))]
  {
  }
}

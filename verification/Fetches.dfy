/**
 A fetch, or a submission over the API: a placeholder is made when it is asked for, and the patches that come for it,
 in any order and with repeats, fill that placeholder until it is ready; a fetch that failed can be asked for again.
 */
module Fetches {
  import opened Prelude
  import opened Tables
  import opened Series
  import Threads
  import P = Patchsets
  import I = Ingestion
  import Conversations

  /** The patches that come for one fetch, by index from 1 on, all of one author and version. */
  datatype Fetch = Fetch(id: string, patches: Articles, parts: nat, author: string, version: nat)

  /** The name under which the placeholder waits. */
  function Root(r: Fetch): MessageId {
    r.id + "@sashiko.local"
  }

  ghost predicate IsPatchOf(ps: P.Parsers, r: Fetch, a: I.Article) {
    && Conversations.IsFetched(a) && a.articleId == r.id && a.content.author == r.author && a.index >= 1
    && a.version.GetOr(1) == r.version && ps.version(a.content.subject).GetOr(1) == r.version
  }

  ghost predicate Valid(ps: P.Parsers, r: Fetch) {
    && IsSeries(r.patches, r.parts) && r.parts < 9999 && '@' !in r.id
    && forall k :: k in r.patches ==> IsPatchOf(ps, r, r.patches[k])
  }

  /** What has come is held in patchset i, and no other patchset waits under the fetch's name. */
  ghost predicate FetchHeld(s: Store, r: Fetch, i: PatchsetId, seen: set<nat>) {
    && Consistent(s) && Held(s, r.patches, r.parts, r.author, i, seen)
    && s.patchsets[i].cover == Some(Root(r)) && s.patchsets[i].targetReviews == 1
    && forall j :: j in s.patchsets && j != i ==> s.patchsets[j].cover != Some(Root(r))
  }

  // ---------------------------------------------------------------- the placeholder

  /** Nothing is known of the fetch. */
  ghost predicate Unknown(s: Store, r: Fetch) {
    && (forall j :: j in s.patchsets ==> s.patchsets[j].cover != Some(Root(r)) && s.patchsets[j].cover != Some(r.id))
    && forall p, k :: p in s.patches && k in r.patches ==> s.patches[p].messageId != r.patches[k].messageId
  }

  /** What asking for an unknown fetch adds, besides the thread it waits in. */
  lemma RequestAdds(s: Store, ps: P.Parsers, r: Fetch, subject: string, now: int)
    requires Valid(ps, r) && Unknown(s, r)
    ensures var (s', i) := P.CreateFetching(s, r.id, subject, now);
            && i == NextRowId(s.patchsets.Keys) && i in s'.patchsets && s'.patches == s.patches
            && s'.patchsets == s.patchsets[i := s'.patchsets[i]]
            && var row := s'.patchsets[i];
               && row.status == Fetching && row.cover == Some(Root(r)) && row.subject == subject
               && row.author.None? && row.total.None? && row.received.None? && row.subjectIndex == 9999
               && row.targetReviews == 1
  {
    assert P.RootId(r.id) == Root(r);
    assert P.WithCoverId(s, r.id) == {} && P.WithCoverId(s, Root(r)) == {};
    Threads.EnsureThreadMessages(s, Root(r), now);
  }

  /** Asking for a fetch makes a patchset that waits for it, and touches no other. */
  lemma RequestWaits(s: Store, ps: P.Parsers, r: Fetch, subject: string, now: int)
    requires Consistent(s) && Valid(ps, r) && Unknown(s, r)
    ensures var (s', i) := P.CreateFetching(s, r.id, subject, now);
            && i == NextRowId(s.patchsets.Keys) && FetchHeld(s', r, i, {}) && OthersKept(s, s', i)
            && s'.patchsets[i].status == Fetching && s'.patchsets[i].subject == subject
  {
    P.CreateFetchingKeeps(s, r.id, subject, now);
    RequestAdds(s, ps, r, subject, now);
    RequestHeld(s, P.CreateFetching(s, r.id, subject, now).0, ps, r, NextRowId(s.patchsets.Keys));
    RowAdded(s, P.CreateFetching(s, r.id, subject, now).0, NextRowId(s.patchsets.Keys));
  }

  lemma RowAdded(s: Store, s': Store, i: PatchsetId)
    requires i in s'.patchsets && s'.patchsets == s.patchsets[i := s'.patchsets[i]]
    ensures OthersKept(s, s', i)
  {
  }

  lemma RequestHeld(s: Store, s': Store, ps: P.Parsers, r: Fetch, i: PatchsetId)
    requires Consistent(s) && Consistent(s') && Unknown(s, r) && i !in s.patchsets && IsSeries(r.patches, r.parts)
    requires i in s'.patchsets && s'.patches == s.patches && s'.patchsets == s.patchsets[i := s'.patchsets[i]]
    requires var row := s'.patchsets[i];
             && row.status == Fetching && row.cover == Some(Root(r))
             && row.total.None? && row.received.None? && row.subjectIndex == 9999 && row.targetReviews == 1
    requires Valid(ps, r)
    ensures FetchHeld(s', r, i, {})
  {
    RowWaits(r, s'.patchsets[i], ps);
    forall p | p in s.patches ensures s.patches[p].patchset != i { assert s.patches[p].patchset in s.patchsets; }
    NothingHeld(s.patches, r.patches, i);
    assert PartsSeen({}) == {};
  }

  lemma RowWaits(r: Fetch, row: Patchset, ps: P.Parsers)
    requires Valid(ps, r) && row.status == Fetching && row.total.None? && row.received.None? && row.subjectIndex == 9999
    ensures RowHeld(row, r.patches, r.parts, r.author, {})
  {
    forall k | k in r.patches ensures k < row.subjectIndex { assert IsMember(r.patches[k], r.parts, k); }
  }

  // ---------------------------------------------------------------- one patch

  lemma PatchTaken(s: Store, ps: P.Parsers, r: Fetch, i: PatchsetId, seen: set<nat>, k: nat, t: ThreadId)
    requires Valid(ps, r) && FetchHeld(s, r, i, seen) && k in r.patches
    ensures Takes(s, ps, I.SubmissionOf(r.patches[k], t), i)
  {
    var sub := I.SubmissionOf(r.patches[k], t);
    assert IsMember(r.patches[k], r.parts, k) && IsPatchOf(ps, r, r.patches[k]);
    MemberSubmission(r.patches[k], r.parts, k, t);
    IndexFree(s.patches, r.patches, i, PartsSeen(seen), k);
    if seen != {} { assert IsPatchOf(ps, r, r.patches[s.patchsets[i].subjectIndex]); }
    assert P.ByCover(s, ps, sub, Root(r)) == {i};
    assert Lowest({i}) == i;
  }

  lemma FetchDespiteThreads(s: Store, s1: Store, r: Fetch, i: PatchsetId, seen: set<nat>)
    requires SameButThreads(s, s1) && Consistent(s1) && FetchHeld(s, r, i, seen)
    ensures FetchHeld(s1, r, i, seen)
  {
    HeldDespiteThreads(s, s1, r.patches, r.parts, r.author, i, seen);
  }

  lemma NextPatch(s: Store, ps: P.Parsers, r: Fetch, i: PatchsetId, seen: set<nat>, k: nat)
    requires Valid(ps, r) && FetchHeld(s, r, i, seen) && k in r.patches
    ensures FetchHeld(I.Process(s, ps, r.patches[k]), r, i, seen + {k})
    ensures OthersKept(s, I.Process(s, ps, r.patches[k]), i)
  {
    var s1 := Processed(s, ps, r.patches, r.parts, k);
    FetchDespiteThreads(s, s1, r, i, seen);
    PatchTaken(s1, ps, r, i, seen, k, s1.messages[r.patches[k].messageId].thread);
    assert IsPatchOf(ps, r, r.patches[k]);
    TakenIsHeld(s1, ps, r.patches, r.parts, r.author, i, seen, k);
    StillFetched(s1, I.Process(s, ps, r.patches[k]), r, i, seen, k);
  }

  lemma StillFetched(s1: Store, s': Store, r: Fetch, i: PatchsetId, seen: set<nat>, k: nat)
    requires Consistent(s') && OnlyTouches(s1, s', i) && k in r.patches && i in s1.patchsets
    requires s1.patchsets[i].cover == Some(Root(r)) && s1.patchsets[i].targetReviews == 1
    requires forall j :: j in s1.patchsets && j != i ==> s1.patchsets[j].cover != Some(Root(r))
    requires Held(s', r.patches, r.parts, r.author, i, seen + {k})
    requires FollowsOrigin(s1.patchsets[i], s'.patchsets[i], r.patches[k])
    requires Conversations.IsFetched(r.patches[k]) && r.patches[k].articleId == r.id
    ensures FetchHeld(s', r, i, seen + {k})
  {
    forall j | j in s'.patchsets && j != i ensures s'.patchsets[j].cover != Some(Root(r)) {
      assert j in s1.patchsets && s'.patchsets[j] == s1.patchsets[j];
    }
  }

  // ---------------------------------------------------------------- any order of arrival

  /** The request and then the patches. */
  function Fetched(r: Fetch, subject: string, now: int, order: seq<nat>): seq<I.Event>
    requires forall j :: 0 <= j < |order| ==> order[j] in r.patches
  {
    [I.FetchRequested(r.id, subject, now)] + Arrivals(r.patches, order)
  }

  /**
   After any history that knows nothing of the fetch: once it is asked for, its patches, in any order and with
   repeats, go to the patchset made then, and the other patchsets are as they were.
   */
  lemma FetchGathers(ps: P.Parsers, before: seq<I.Event>, r: Fetch, subject: string, now: int, order: seq<nat>)
    requires Valid(ps, r) && Unknown(I.Run(ps, before), r)
    requires forall j :: 0 <= j < |order| ==> order[j] in r.patches
    ensures var (s, s') := (I.Run(ps, before), I.Run(ps, before + Fetched(r, subject, now, order)));
            var i := NextRowId(s.patchsets.Keys);
            FetchHeld(s', r, i, Seen(order)) && OthersKept(s, s', i)
  {
    var s, request := I.Run(ps, before), before + [I.FetchRequested(r.id, subject, now)];
    var i := NextRowId(s.patchsets.Keys);
    assert before + Fetched(r, subject, now, order) == request + Arrivals(r.patches, order);
    Requested(ps, before, r, subject, now);
    GathersFrom(ps, request, r, i, order);
    OthersKeptTrans(s, I.Run(ps, request), I.Run(ps, request + Arrivals(r.patches, order)), i);
  }

  lemma Requested(ps: P.Parsers, before: seq<I.Event>, r: Fetch, subject: string, now: int)
    requires Valid(ps, r) && Unknown(I.Run(ps, before), r)
    ensures var (s, s') := (I.Run(ps, before), I.Run(ps, before + [I.FetchRequested(r.id, subject, now)]));
            FetchHeld(s', r, NextRowId(s.patchsets.Keys), {}) && OthersKept(s, s', NextRowId(s.patchsets.Keys))
  {
    var request := before + [I.FetchRequested(r.id, subject, now)];
    assert request[..|request| - 1] == before;
    I.RunConsistent(ps, before);
    RequestWaits(I.Run(ps, before), ps, r, subject, now);
  }

  lemma {:induction false} GathersFrom(ps: P.Parsers, request: seq<I.Event>, r: Fetch, i: PatchsetId, order: seq<nat>)
    requires Valid(ps, r) && FetchHeld(I.Run(ps, request), r, i, {})
    requires forall j :: 0 <= j < |order| ==> order[j] in r.patches
    ensures FetchHeld(I.Run(ps, request + Arrivals(r.patches, order)), r, i, Seen(order))
    ensures OthersKept(I.Run(ps, request), I.Run(ps, request + Arrivals(r.patches, order)), i)
    decreases |order|
  {
    if order == [] {
      assert request + Arrivals(r.patches, order) == request && Seen(order) == {};
    } else {
      var init, k := order[..|order| - 1], order[|order| - 1];
      GathersFrom(ps, request, r, i, init);
      LastArrival(request, r.patches, order);
      OneMore(ps, request + Arrivals(r.patches, init), r.patches[k]);
      var s1 := I.Run(ps, request + Arrivals(r.patches, init));
      NextPatch(s1, ps, r, i, Seen(init), k);
      OthersKeptTrans(I.Run(ps, request), s1, I.Process(s1, ps, r.patches[k]), i);
    }
  }

  /** With every patch there the patchset that was made for the fetch is ready, under the subject of the first patch. */
  lemma FetchIsReady(ps: P.Parsers, before: seq<I.Event>, r: Fetch, subject: string, now: int, order: seq<nat>)
    requires Valid(ps, r) && Unknown(I.Run(ps, before), r)
    requires forall j :: 0 <= j < |order| ==> order[j] in r.patches
    requires forall k :: 1 <= k <= r.parts ==> k in order
    ensures var (s, s') := (I.Run(ps, before), I.Run(ps, before + Fetched(r, subject, now, order)));
            var i := NextRowId(s.patchsets.Keys);
            OthersKept(s, s', i) && Ready(s', r.patches, r.parts, r.author, Root(r), 1, i)
  {
    FetchGathers(ps, before, r, subject, now, order);
    HeldIsReady(I.Run(ps, before + Fetched(r, subject, now, order)), ps, r,
                NextRowId(I.Run(ps, before).patchsets.Keys), Seen(order));
  }

  lemma HeldIsReady(s: Store, ps: P.Parsers, r: Fetch, i: PatchsetId, seen: set<nat>)
    requires Valid(ps, r) && FetchHeld(s, r, i, seen) && forall k :: 1 <= k <= r.parts ==> k in seen
    ensures Ready(s, r.patches, r.parts, r.author, Root(r), 1, i)
  {
    forall k | k in seen ensures 1 <= k { assert IsPatchOf(ps, r, r.patches[k]) && IsMember(r.patches[k], r.parts, k); }
    AllSeenReady(s, r.patches, r.parts, r.author, Root(r), 1, i, seen);
  }

  // ---------------------------------------------------------------- failing and asking again

  /** A fetch that fails is marked so, and nothing else changes. */
  lemma FailureMarks(s: Store, ps: P.Parsers, r: Fetch, i: PatchsetId, seen: set<nat>)
    requires Valid(ps, r) && FetchHeld(s, r, i, seen)
    ensures I.Step(s, ps, I.IngestFailed(r.id))
         == s.(patchsets := s.patchsets[i := s.patchsets[i].(status := Failed)])
  {
    assert P.RootId(r.id) == Root(r) && P.WithCoverId(s, Root(r)) == {i};
    assert P.SetStatuses(s, {i}, Failed).patchsets == s.patchsets[i := s.patchsets[i].(status := Failed)];
  }

  /** Asked for again, a failed fetch waits as before, in the same patchset, and nothing else changes. */
  lemma FailedFetchWaitsAgain(s: Store, ps: P.Parsers, r: Fetch, i: PatchsetId, subject: string, now: int)
    requires Valid(ps, r) && FetchHeld(s, r, i, {})
    requires forall j :: j in s.patchsets ==> s.patchsets[j].cover != Some(r.id)
    ensures P.CreateFetching(I.Step(s, ps, I.IngestFailed(r.id)), r.id, subject, now) == (s, i)
  {
    FailureMarks(s, ps, r, i, {});
    AskedAgain(s, s.patchsets[i := s.patchsets[i].(status := Failed)], ps, r, i, subject, now);
  }

  lemma AskedAgain(s: Store, rows: map<PatchsetId, Patchset>, ps: P.Parsers, r: Fetch, i: PatchsetId, subject: string,
                   now: int)
    requires Valid(ps, r) && i in s.patchsets && s.patchsets[i].cover == Some(Root(r))
    requires s.patchsets[i].status == Fetching && rows == s.patchsets[i := s.patchsets[i].(status := Failed)]
    requires forall j :: j in s.patchsets ==> s.patchsets[j].cover != Some(r.id)
    requires forall j :: j in s.patchsets && j != i ==> s.patchsets[j].cover != Some(Root(r))
    ensures P.CreateFetching(s.(patchsets := rows), r.id, subject, now) == (s, i)
  {
    var failed := s.(patchsets := rows);
    assert P.RootId(r.id) == Root(r);
    assert P.WithCoverId(failed, r.id) == {} && P.WithCoverId(failed, Root(r)) == {i};
    assert Lowest({i}) == i;
    assert rows[i := rows[i].(status := Fetching)] == s.patchsets;
  }

  // ---------------------------------------------------------------- what a request finds

  /** The message a fetch waits for: its id if that is a message id, else a name of its own. */
  function WaitsFor(article: string): MessageId {
    if exists k :: 0 <= k < |article| && article[k] == '@' then article else article + "@sashiko.local"
  }

  ghost predicate IsKnown(s: Store, name: MessageId) {
    exists j :: j in s.patchsets && s.patchsets[j].cover == Some(name)
  }

  /** A request for something not known makes a patchset that waits in the thread of the message it waits for. */
  lemma NewRequest(s: Store, article: string, subject: string, now: int)
    requires !IsKnown(s, article) && !IsKnown(s, WaitsFor(article))
    ensures var (s', i) := P.CreateFetching(s, article, subject, now);
            && i !in s.patchsets && WaitsFor(article) in s'.messages && i in s'.patchsets
            && s'.patchsets == s.patchsets[i :=
                 Patchset(s'.messages[WaitsFor(article)].thread, Some(WaitsFor(article)), subject, 9999, None, now,
                          None, None, Fetching, 1)]
  {
    assert P.RootId(article) == WaitsFor(article);
    assert P.WithCoverId(s, article) == {} && P.WithCoverId(s, WaitsFor(article)) == {};
    Threads.EnsureThreadMessages(s, WaitsFor(article), now);
  }

  /**
   A request for something known gives a patchset that is known by the id, or if there is none by the name it waits
   under. Only a failed fetch, or one still going on, is set to be fetched again; nothing else changes.
   */
  lemma KnownRequest(s: Store, article: string, subject: string, now: int)
    requires IsKnown(s, article) || IsKnown(s, WaitsFor(article))
    ensures var (s', i) := P.CreateFetching(s, article, subject, now);
            && i in s.patchsets
            && s.patchsets[i].cover == Some(if IsKnown(s, article) then article else WaitsFor(article))
            && (if s.patchsets[i].status == Failed
                then s' == s.(patchsets := s.patchsets[i := s.patchsets[i].(status := Fetching)]) else s' == s)
  {
    assert P.RootId(article) == WaitsFor(article);
    if IsKnown(s, article) {
      var j :| j in s.patchsets && s.patchsets[j].cover == Some(article);
      assert j in P.WithCoverId(s, article);
    } else {
      assert P.WithCoverId(s, article) == {};
      var j :| j in s.patchsets && s.patchsets[j].cover == Some(WaitsFor(article));
      assert j in P.WithCoverId(s, WaitsFor(article));
    }
    var i := P.FetchingHit(s, article).value;
    if s.patchsets[i].status == Fetching {
      assert s.patchsets[i := s.patchsets[i].(status := Fetching)] == s.patchsets;
    }
  }

  /** A failed ingestion marks the patchsets that wait under its name, and nothing else changes. */
  lemma FailureMarksWaiting(s: Store, ps: P.Parsers, article: string, i: PatchsetId)
    requires i in s.patchsets
    ensures var s' := I.Step(s, ps, I.IngestFailed(article));
            && s' == s.(patchsets := s'.patchsets) && s'.patchsets.Keys == s.patchsets.Keys
            && s'.patchsets[i] == if s.patchsets[i].cover == Some(WaitsFor(article))
                                  then s.patchsets[i].(status := Failed) else s.patchsets[i]
  {
    assert P.RootId(article) == WaitsFor(article);
  }
}

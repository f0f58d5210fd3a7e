/**
 Whole runs of the ingestion database: articles arriving in any order, interleaved with fetch requests,
 ingestion failures, cancellations, reruns, restarts and the review service's own updates.
 */
module Ingestion {
  import opened Prelude
  import opened Tables
  import Threads
  import P = Patchsets

  // ---------------------------------------------------------------- articles

  /** Where an article came from. A git import carries its announced length, if any, and its range. */
  datatype Group = GitImport(count: Option<nat>, range: string) | GitFetch | ApiSubmit | MailingList

  datatype PatchBody = PatchBody(messageId: MessageId, partIndex: nat, diff: string)

  datatype Article = Article(
    group: Group,
    articleId: string,
    messageId: MessageId,
    content: Content,
    index: nat,
    total: nat,
    version: Option<nat>,
    isPatchOrCover: bool,
    ignoredAuthor: bool,
    patch: Option<PatchBody>,
    subsystems: set<SubsystemId>)

  /** A range with the characters that cannot stand in a message id replaced. */
  function Sanitize(range: string): string {
    seq(|range|, i requires 0 <= i < |range| => if range[i] in {'/', ':', ' ', '.'} then '_' else range[i])
  }

  /** The message whose thread the article joins. */
  function Anchor(a: Article): MessageId {
    match a.group
    case GitImport(_, range) => "git-import-" + Sanitize(range) + P.LOCAL_SUFFIX
    case GitFetch | ApiSubmit => a.articleId + P.LOCAL_SUFFIX
    case MailingList => a.content.inReplyTo.GetOr(a.messageId)
  }

  function Cover(a: Article): Option<MessageId> {
    if a.group.GitFetch? || a.group.ApiSubmit? then Some(a.articleId + P.LOCAL_SUFFIX)
    else if a.index == 0 || a.total == 1 then Some(a.messageId)
    else a.content.inReplyTo
  }

  /** The length the article announces for its series: a git import's own count wins over the subject's. */
  function Parts(a: Article): nat {
    if a.group.GitImport? && a.group.count.GetOr(0) > 0 then a.group.count.GetOr(0) else a.total
  }

  function SubmissionOf(a: Article, thread: ThreadId): P.Submission {
    match a.group
    case GitImport(count, range) =>
      P.Submission(thread, Cover(a), a.messageId, "Git Import: " + (if count.Some? then range else "unknown"),
                   "Sashiko Git Import", a.content.date, Parts(a), a.version, a.index, false)
    case _ =>
      P.Submission(thread, Cover(a), a.messageId, a.content.subject, a.content.author, a.content.date, Parts(a),
                   a.version, a.index, true)
  }

  function LinkPatchset(s: Store, id: PatchsetId, subsystems: set<SubsystemId>): Store {
    s.(patchsetSubsystems := s.patchsetSubsystems + set x | x in subsystems :: (id, x))
  }

  /** The patch an article brings, if it brings one, goes to its patchset; a failure is only logged. */
  ghost function StorePart(s: Store, id: PatchsetId, p: Option<PatchBody>): Store {
    if p.None? then s else P.CreatePatch(s, id, p.value.messageId, p.value.partIndex, p.value.diff).0
  }

  /** The patchset and patch part of an article whose message is already stored. */
  ghost function Assemble(s: Store, ps: P.Parsers, a: Article): Store
    requires a.messageId in s.messages
  {
    var (s1, r) := P.CreatePatchset(s, ps, SubmissionOf(a, s.messages[a.messageId].thread));
    if r.Err? then s1 else
      StorePart(LinkPatchset(s1, r.value, a.subsystems), r.value, a.patch)
  }

  ghost function Process(s: Store, ps: P.Parsers, a: Article): Store {
    var s1 := Threads.Resolve(s, a.messageId, Anchor(a), a.content, a.subsystems);
    if a.isPatchOrCover && !a.ignoredAuthor && a.messageId in s1.messages then Assemble(s1, ps, a) else s1
  }

  // ---------------------------------------------------------------- events

  datatype Event =
    | Ingested(article: Article)
    | IngestFailed(articleId: string)
    | FetchRequested(articleId: string, subject: string, now: int)
    | CancelRequested(id: PatchsetId, force: bool)
    | RerunRequested(id: PatchsetId)
    | FailedRestarted
    | StatusSet(id: PatchsetId, status: Status)
    | Restarted
    | ReviewCreated(id: PatchsetId, patch: Option<PatchId>)
    | ReviewSet(review: ReviewId, reviewStatus: ReviewStatus)

  function Cancellable(force: bool): set<Status> {
    if force then {Pending, Incomplete, InReview} else {Pending, Incomplete}
  }

  function WithStatus(s: Store, statuses: set<Status>): set<PatchsetId> {
    set id | id in s.patchsets && s.patchsets[id].status in statuses
  }

  function CancelPatchset(s: Store, id: PatchsetId, force: bool): Store {
    P.SetStatuses(s, {id} * WithStatus(s, Cancellable(force)), Cancelled)
  }

  function RerunPatchset(s: Store, id: PatchsetId): Store {
    RaiseTarget(P.SetStatuses(s, {id}, Pending), id)
  }

  function RaiseTarget(s: Store, id: PatchsetId): Store {
    if id in s.patchsets
    then s.(patchsets := s.patchsets[id := s.patchsets[id].(targetReviews := s.patchsets[id].targetReviews + 1)])
    else s
  }

  /** At start-up whatever was being reviewed goes back to `Pending`. */
  function ResetReviewing(s: Store): Store {
    P.SetStatuses(s, WithStatus(s, {InReview}), Pending)
    .(reviews := map r | r in s.reviews ::
        if s.reviews[r].status == RInReview then s.reviews[r].(status := RPending) else s.reviews[r])
  }

  /** Creating a review of a patchset that does not exist violates its foreign key and changes nothing. */
  ghost function CreateReview(s: Store, id: PatchsetId, patch: Option<PatchId>): Store {
    if id in s.patchsets
    then s.(reviews := s.reviews[NextRowId(s.reviews.Keys) := Review(id, patch, RPending)])
    else s
  }

  function SetReview(s: Store, r: ReviewId, status: ReviewStatus): Store {
    if r in s.reviews then s.(reviews := s.reviews[r := s.reviews[r].(status := status)]) else s
  }

  /** The statuses the review service writes. */
  const REVIEW_STATUSES := {InReview, Pending, Reviewed, Failed, FailedToApply}

  ghost function Step(s: Store, ps: P.Parsers, e: Event): Store {
    match e
    case Ingested(a) => Process(s, ps, a)
    case IngestFailed(id) => P.SetStatuses(s, P.WithCoverId(s, P.RootId(id)), Failed)
    case FetchRequested(id, subject, now) => P.CreateFetching(s, id, subject, now).0
    case CancelRequested(id, force) => CancelPatchset(s, id, force)
    case RerunRequested(id) => RerunPatchset(s, id)
    case FailedRestarted => P.SetStatuses(s, WithStatus(s, {Failed, FailedToApply}), Pending)
    case StatusSet(id, status) => if status in REVIEW_STATUSES then P.SetStatuses(s, {id}, status) else s
    case Restarted => ResetReviewing(s)
    case ReviewCreated(id, patch) => CreateReview(s, id, patch)
    case ReviewSet(r, status) => SetReview(s, r, status)
  }

  /** The store after a history of events, starting empty. */
  ghost function Run(ps: P.Parsers, events: seq<Event>): Store {
    if events == [] then EMPTY else Step(Run(ps, events[..|events| - 1]), ps, events[|events| - 1])
  }

  /** The reply graph of a history: each stored message points at the message whose thread it joined. */
  function Replies(events: seq<Event>): Threads.Edges {
    set e | e in events && e.Ingested? :: (e.article.messageId, Anchor(e.article))
  }

  /** Which message brought which subsystem. */
  function Credits(events: seq<Event>): Threads.Credits {
    set e, x | e in events && e.Ingested? && x in e.article.subsystems :: (e.article.messageId, x)
  }

  /** The subsystem credits one event adds. */
  function NewCredits(e: Event): Threads.Credits {
    if e.Ingested? then set x | x in e.article.subsystems :: (e.article.messageId, x) else {}
  }

  /** Every series announced in the history has at least one part. */
  ghost predicate NoEmptySeries(events: seq<Event>) {
    forall e :: e in events && e.Ingested? && e.article.isPatchOrCover ==> Parts(e.article) >= 1
  }

  // ---------------------------------------------------------------- one step

  /** The tables that thread resolution reads are the same in both snapshots. */
  ghost predicate SameThreading(s: Store, s': Store) {
    s'.messages == s.messages && s'.threads == s.threads && s'.threadSubsystems == s.threadSubsystems
  }

  lemma LinkPatchsetKeeps(s: Store, id: PatchsetId, subsystems: set<SubsystemId>)
    requires Consistent(s) && id in s.patchsets
    ensures Consistent(LinkPatchset(s, id, subsystems))
    ensures NoneStuck(s) ==> NoneStuck(LinkPatchset(s, id, subsystems))
  {
  }

  lemma StorePartKeeps(s: Store, id: PatchsetId, p: Option<PatchBody>)
    requires Consistent(s)
    ensures Consistent(StorePart(s, id, p)) && SameThreading(s, StorePart(s, id, p))
    ensures NoneStuck(s) ==> NoneStuck(StorePart(s, id, p))
  {
    if p.Some? {
      P.CreatePatchKeeps(s, id, p.value.messageId, p.value.partIndex, p.value.diff);
      if NoneStuck(s) { P.CreatePatchNeverStuck(s, id, p.value.messageId, p.value.partIndex, p.value.diff); }
    }
  }

  lemma AssembleKeeps(s: Store, ps: P.Parsers, a: Article)
    requires Consistent(s) && a.messageId in s.messages
    ensures Consistent(Assemble(s, ps, a)) && SameThreading(s, Assemble(s, ps, a))
    ensures NoneStuck(s) && Parts(a) >= 1 ==> NoneStuck(Assemble(s, ps, a))
  {
    var sub := SubmissionOf(a, s.messages[a.messageId].thread);
    P.CreatePatchsetKeeps(s, ps, sub);
    if NoneStuck(s) && Parts(a) >= 1 { P.CreatePatchsetStuckOnlyIfEmptySeries(s, ps, sub); }
    var (s1, r) := P.CreatePatchset(s, ps, sub);
    if r.Ok? {
      LinkPatchsetKeeps(s1, r.value, a.subsystems);
      StorePartKeeps(LinkPatchset(s1, r.value, a.subsystems), r.value, a.patch);
    }
  }

  lemma ProcessKeeps(s: Store, ps: P.Parsers, a: Article)
    requires Consistent(s)
    ensures Consistent(Process(s, ps, a))
    ensures SameThreading(Threads.Resolve(s, a.messageId, Anchor(a), a.content, a.subsystems), Process(s, ps, a))
    ensures NoneStuck(s) && (a.isPatchOrCover ==> Parts(a) >= 1) ==> NoneStuck(Process(s, ps, a))
  {
    Threads.ResolveKeeps(s, a.messageId, Anchor(a), a.content, a.subsystems);
    var s1 := Threads.Resolve(s, a.messageId, Anchor(a), a.content, a.subsystems);
    if a.isPatchOrCover && !a.ignoredAuthor && a.messageId in s1.messages { AssembleKeeps(s1, ps, a); }
  }

  lemma RerunKeeps(s: Store, id: PatchsetId)
    requires Consistent(s)
    ensures Consistent(RerunPatchset(s, id))
    ensures NoneStuck(s) ==> NoneStuck(RerunPatchset(s, id))
  {
    P.SetStatusesKeeps(s, {id}, Pending);
    RaiseTargetKeeps(P.SetStatuses(s, {id}, Pending), id);
  }

  lemma RaiseTargetKeeps(s: Store, id: PatchsetId)
    requires Consistent(s)
    ensures Consistent(RaiseTarget(s, id))
    ensures NoneStuck(s) ==> NoneStuck(RaiseTarget(s, id))
  {
    if id in s.patchsets {
      P.RowKeeps(s, id, s.patchsets[id].(targetReviews := s.patchsets[id].targetReviews + 1));
    }
  }

  lemma ReviewRowsKeep(s: Store, reviews: map<ReviewId, Review>)
    requires Consistent(s) && forall r :: r in reviews ==> reviews[r].patchset in s.patchsets
    ensures Consistent(s.(reviews := reviews))
    ensures NoneStuck(s) ==> NoneStuck(s.(reviews := reviews))
  {
  }

  lemma ResetKeeps(s: Store)
    requires Consistent(s)
    ensures Consistent(ResetReviewing(s))
    ensures NoneStuck(s) ==> NoneStuck(ResetReviewing(s))
  {
    P.SetStatusesKeeps(s, WithStatus(s, {InReview}), Pending);
    ReviewRowsKeep(P.SetStatuses(s, WithStatus(s, {InReview}), Pending), ResetReviewing(s).reviews);
  }

  lemma CreateReviewKeeps(s: Store, id: PatchsetId, patch: Option<PatchId>)
    requires Consistent(s)
    ensures Consistent(CreateReview(s, id, patch))
    ensures NoneStuck(s) ==> NoneStuck(CreateReview(s, id, patch))
  {
    ReviewRowsKeep(s, CreateReview(s, id, patch).reviews);
    assert CreateReview(s, id, patch) == s.(reviews := CreateReview(s, id, patch).reviews);
  }

  lemma SetReviewKeeps(s: Store, r: ReviewId, status: ReviewStatus)
    requires Consistent(s)
    ensures Consistent(SetReview(s, r, status))
    ensures NoneStuck(s) ==> NoneStuck(SetReview(s, r, status))
  {
    ReviewRowsKeep(s, SetReview(s, r, status).reviews);
    assert SetReview(s, r, status) == s.(reviews := SetReview(s, r, status).reviews);
  }

  lemma FailureStepKeeps(s: Store, ps: P.Parsers, e: Event)
    requires Consistent(s) && (e.IngestFailed? || e.FailedRestarted?)
    ensures Consistent(Step(s, ps, e))
    ensures NoneStuck(s) ==> NoneStuck(Step(s, ps, e))
  {
    match e
    case IngestFailed(id) => P.SetStatusesKeeps(s, P.WithCoverId(s, P.RootId(id)), Failed);
    case FailedRestarted => P.SetStatusesKeeps(s, WithStatus(s, {Failed, FailedToApply}), Pending);
  }

  lemma CancelKeeps(s: Store, id: PatchsetId, force: bool)
    requires Consistent(s)
    ensures Consistent(CancelPatchset(s, id, force))
    ensures NoneStuck(s) ==> NoneStuck(CancelPatchset(s, id, force))
  {
    P.SetStatusesKeeps(s, {id} * WithStatus(s, Cancellable(force)), Cancelled);
  }

  lemma StatusStepKeeps(s: Store, ps: P.Parsers, e: Event)
    requires Consistent(s) && e.StatusSet?
    ensures Consistent(Step(s, ps, e))
    ensures NoneStuck(s) ==> NoneStuck(Step(s, ps, e))
  {
    if e.status in REVIEW_STATUSES { P.SetStatusesKeeps(s, {e.id}, e.status); }
  }

  lemma StepKeeps(s: Store, ps: P.Parsers, e: Event)
    requires Consistent(s)
    ensures Consistent(Step(s, ps, e))
    ensures NoneStuck(s) && (e.Ingested? && e.article.isPatchOrCover ==> Parts(e.article) >= 1)
            ==> NoneStuck(Step(s, ps, e))
  {
    match e
    case Ingested(a) => ProcessKeeps(s, ps, a);
    case FetchRequested(id, subject, now) => P.CreateFetchingKeeps(s, id, subject, now);
    case RerunRequested(id) => RerunKeeps(s, id);
    case Restarted => ResetKeeps(s);
    case ReviewCreated(id, patch) => CreateReviewKeeps(s, id, patch);
    case ReviewSet(r, status) => SetReviewKeeps(s, r, status);
    case IngestFailed(_) => FailureStepKeeps(s, ps, e);
    case FailedRestarted => FailureStepKeeps(s, ps, e);
    case CancelRequested(id, force) => CancelKeeps(s, id, force);
    case StatusSet(_, _) => StatusStepKeeps(s, ps, e);
  }

  /** Only articles and fetch requests touch the threads. */
  lemma StepSameThreading(s: Store, ps: P.Parsers, e: Event)
    requires !e.Ingested? && !e.FetchRequested?
    ensures SameThreading(s, Step(s, ps, e))
  {
  }

  lemma StepThreads(s: Store, ps: P.Parsers, e: Event, edges: Threads.Edges)
    requires Consistent(s) && Threads.ThreadsAreComponents(s, edges)
    ensures Threads.ThreadsAreComponents(Step(s, ps, e),
              if e.Ingested? then edges + {(e.article.messageId, Anchor(e.article))} else edges)
  {
    if e.Ingested? {
      var a := e.article;
      ProcessKeeps(s, ps, a);
      Threads.ResolveAddsEdge(s, edges, a.messageId, Anchor(a), a.content, a.subsystems);
      SameComponents(Threads.Resolve(s, a.messageId, Anchor(a), a.content, a.subsystems), Step(s, ps, e),
                     edges + {(a.messageId, Anchor(a))});
    } else if e.FetchRequested? {
      Threads.EnsureThreadAddsVertex(s, edges, P.RootId(e.articleId), e.now);
      if P.FetchingHit(s, e.articleId).None? {
        SameComponents(Threads.EnsureThread(s, P.RootId(e.articleId), e.now).0, Step(s, ps, e), edges);
      } else {
        SameComponents(s, Step(s, ps, e), edges);
      }
    } else {
      StepSameThreading(s, ps, e);
      SameComponents(s, Step(s, ps, e), edges);
    }
  }

  lemma SameComponents(s: Store, s': Store, edges: Threads.Edges)
    requires Threads.ThreadsAreComponents(s, edges) && s'.messages == s.messages
    ensures Threads.ThreadsAreComponents(s', edges)
  {
    forall x, y | x in s'.messages && y in s'.messages
      ensures Threads.SameThread(s', x, y) <==> Threads.Connected(edges, x, y)
    {
      assert Threads.SameThread(s, x, y) <==> Threads.Connected(edges, x, y);
    }
  }

  // ---------------------------------------------------------------- whole runs

  lemma RepliesGrow(events: seq<Event>)
    requires events != []
    ensures var (init, e) := (events[..|events| - 1], events[|events| - 1]);
            && Replies(events) == (if e.Ingested? then Replies(init) + {(e.article.messageId, Anchor(e.article))}
                                   else Replies(init))
            && Credits(events) == Credits(init) + NewCredits(e)
  {
    var (init, e) := (events[..|events| - 1], events[|events| - 1]);
    assert events == init + [e];
    forall k | k in Credits(events)
      ensures k in Credits(init) + NewCredits(e)
    {
      var f, x :| f in events && f.Ingested? && x in f.article.subsystems && k == (f.article.messageId, x);
      assert f in init || f == e;
    }
  }

  /** In every reachable store the references are live, the counts are exact and a message carries one patch. */
  lemma {:induction false} RunConsistent(ps: P.Parsers, events: seq<Event>)
    ensures Consistent(Run(ps, events))
    decreases |events|
  {
    if events != [] {
      RunConsistent(ps, events[..|events| - 1]);
      StepKeeps(Run(ps, events[..|events| - 1]), ps, events[|events| - 1]);
    }
  }

  /** No history without empty series leaves a patchset `Incomplete` that has all its parts. */
  lemma {:induction false} RunNeverStuck(ps: P.Parsers, events: seq<Event>)
    requires NoEmptySeries(events)
    ensures NoneStuck(Run(ps, events))
    decreases |events|
  {
    if events != [] {
      var init := events[..|events| - 1];
      assert forall e :: e in init ==> e in events;
      RunConsistent(ps, init);
      RunNeverStuck(ps, init);
      StepKeeps(Run(ps, init), ps, events[|events| - 1]);
    }
  }

  // ---------------------------------------------------------------- exactly when something gets stuck

  /** The article opens a series of no parts and brings no patch that would get it going. */
  ghost predicate OpensEmptySeries(s: Store, ps: P.Parsers, a: Article) {
    var s1 := Threads.Resolve(s, a.messageId, Anchor(a), a.content, a.subsystems);
    && a.isPatchOrCover && !a.ignoredAuthor && Parts(a) == 0 && a.patch.None?
    && a.messageId in s1.messages
    && P.OpensNew(s1, ps, SubmissionOf(a, s1.messages[a.messageId].thread))
  }

  lemma AssembleStuckIff(s: Store, ps: P.Parsers, a: Article)
    requires Consistent(s) && NoneStuck(s) && a.messageId in s.messages
    ensures NoneStuck(Assemble(s, ps, a)) <==>
              !(P.OpensNew(s, ps, SubmissionOf(a, s.messages[a.messageId].thread)) && Parts(a) == 0 && a.patch.None?)
  {
    var sub := SubmissionOf(a, s.messages[a.messageId].thread);
    P.CreatePatchsetKeeps(s, ps, sub);
    P.CreatePatchsetStuckOnlyIfEmptySeries(s, ps, sub);
    var (s1, r) := P.CreatePatchset(s, ps, sub);
    if r.Ok? {
      LinkPatchsetKeeps(s1, r.value, a.subsystems);
      if P.OpensNew(s, ps, sub) {
        NewRowTakesPatch(s, ps, sub);
        NewRowUnsticks(LinkPatchset(s1, r.value, a.subsystems), r.value, a.patch);
      } else {
        StorePartKeeps(LinkPatchset(s1, r.value, a.subsystems), r.value, a.patch);
      }
    }
  }

  /** Any patch gets a patchset without patches going, if it was stuck. */
  lemma NewRowUnsticks(s: Store, id: PatchsetId, p: Option<PatchBody>)
    requires Consistent(s) && id in s.patchsets && P.NoneStuckBut(s, id) && PatchesOf(s.patches, id) == {}
    ensures p.Some? ==> NoneStuck(StorePart(s, id, p))
  {
    if p.Some? {
      if P.IndexTaken(s.patches, id, p.value.partIndex, p.value.messageId) {
        P.TakenMeansHeld(s.patches, id, p.value.partIndex, p.value.messageId);
      }
      P.CreatePatchUnsticks(s, id, p.value.messageId, p.value.partIndex, p.value.diff);
    }
  }

  /** A patchset just opened has no patches, so that any patch can be stored in it. */
  lemma NewRowTakesPatch(s: Store, ps: P.Parsers, sub: P.Submission)
    requires Consistent(s) && P.OpensNew(s, ps, sub)
    ensures var (s1, r) := P.CreatePatchset(s, ps, sub);
            && r == Ok(NextRowId(s.patchsets.Keys)) && s1 == s.(patchsets := s.patchsets[r.value := P.Inserted(sub)])
            && PatchesOf(s.patches, r.value) == {}
            && (NoneStuck(s) ==> P.NoneStuckBut(s1, r.value))
            && forall m, k :: !P.IndexTaken(s.patches, r.value, k, m)
  {
    P.SearchOutcome(s, ps, sub);
  }

  /** An article leaves a full patchset waiting exactly when it opens an empty series and stores no patch in it. */
  lemma ProcessStuckIff(s: Store, ps: P.Parsers, a: Article)
    requires Consistent(s) && NoneStuck(s)
    ensures NoneStuck(Process(s, ps, a)) <==> !OpensEmptySeries(s, ps, a)
  {
    Threads.ResolveKeeps(s, a.messageId, Anchor(a), a.content, a.subsystems);
    var s1 := Threads.Resolve(s, a.messageId, Anchor(a), a.content, a.subsystems);
    if a.isPatchOrCover && !a.ignoredAuthor && a.messageId in s1.messages { AssembleStuckIff(s1, ps, a); }
  }

  ghost predicate LeavesStuck(s: Store, ps: P.Parsers, e: Event) {
    e.Ingested? && OpensEmptySeries(s, ps, e.article)
  }

  lemma StepStuckIff(s: Store, ps: P.Parsers, e: Event)
    requires Consistent(s) && NoneStuck(s)
    ensures NoneStuck(Step(s, ps, e)) <==> !LeavesStuck(s, ps, e)
  {
    if e.Ingested? { ProcessStuckIff(s, ps, e.article); } else { StepKeeps(s, ps, e); }
  }

  /** Along a history nothing is ever stuck exactly when no article of it opens an empty series without a patch. */
  lemma RunNeverStuckIff(ps: P.Parsers, events: seq<Event>, stores: seq<Store>)
    requires PassesThrough(ps, events, stores)
    ensures (forall k :: 0 <= k <= |events| ==> NoneStuck(stores[k]))
       <==> (forall k :: 0 <= k < |events| ==> !LeavesStuck(stores[k], ps, events[k]))
  {
    if forall k :: 0 <= k <= |events| ==> NoneStuck(stores[k]) {
      forall k | 0 <= k < |events| ensures !LeavesStuck(stores[k], ps, events[k]) {
        assert NoneStuck(stores[k]) && NoneStuck(stores[k + 1]);
        NextStuckIff(ps, events, stores, k);
      }
    } else {
      var n :| 0 <= n <= |events| && !NoneStuck(stores[n]);
      FirstStuck(ps, events, stores, n);
    }
  }

  lemma NextStuckIff(ps: P.Parsers, events: seq<Event>, stores: seq<Store>, k: nat)
    requires PassesThrough(ps, events, stores) && k < |events| && NoneStuck(stores[k])
    ensures NoneStuck(stores[k + 1]) <==> !LeavesStuck(stores[k], ps, events[k])
  {
    RunConsistent(ps, events[..k]);
    NextStore(ps, events, stores, k);
    StepStuckIff(stores[k], ps, events[k]);
  }

  lemma StartNotStuck(ps: P.Parsers, events: seq<Event>, stores: seq<Store>)
    requires PassesThrough(ps, events, stores)
    ensures NoneStuck(stores[0])
  {
    assert events[..0] == [];
  }

  /** Behind every stuck store there is an article that left the first patchset stuck. */
  lemma {:induction false} FirstStuck(ps: P.Parsers, events: seq<Event>, stores: seq<Store>, n: nat)
    requires PassesThrough(ps, events, stores) && n <= |events| && !NoneStuck(stores[n])
    ensures exists k :: 0 <= k < |events| && LeavesStuck(stores[k], ps, events[k])
    decreases n
  {
    StartNotStuck(ps, events, stores);
    if n > 0 {
      if NoneStuck(stores[n - 1]) {
        NextStuckIff(ps, events, stores, n - 1);
        assert LeavesStuck(stores[n - 1], ps, events[n - 1]);
      } else {
        FirstStuck(ps, events, stores, n - 1);
      }
    }
  }

  /** After every history two known messages share a thread exactly when the reply graph connects them. */
  lemma {:induction false} RunThreads(ps: P.Parsers, events: seq<Event>)
    ensures Threads.ThreadsAreComponents(Run(ps, events), Replies(events))
    decreases |events|
  {
    if events != [] {
      var init := events[..|events| - 1];
      RunConsistent(ps, init);
      RunThreads(ps, init);
      RepliesGrow(events);
      StepThreads(Run(ps, init), ps, events[|events| - 1], Replies(init));
    }
  }

  /** The thread partition does not depend on the order of arrival, nor on repeats. */
  lemma ArrivalOrderIrrelevant(ps: P.Parsers, events: seq<Event>, events': seq<Event>, x: MessageId, y: MessageId)
    requires Replies(events) == Replies(events')
    requires x in Run(ps, events).messages && x in Run(ps, events').messages
    requires y in Run(ps, events).messages && y in Run(ps, events').messages
    ensures Threads.SameThread(Run(ps, events), x, y) <==> Threads.SameThread(Run(ps, events'), x, y)
  {
    RunThreads(ps, events);
    RunThreads(ps, events');
  }

  lemma ProcessLinks(s: Store, ps: P.Parsers, a: Article, credits: Threads.Credits)
    requires Consistent(s) && Threads.LinksFollowMessages(s, credits)
    ensures Threads.LinksFollowMessages(Process(s, ps, a), credits + NewCredits(Ingested(a)))
  {
    ProcessKeeps(s, ps, a);
    Threads.ResolveFollowsMessages(s, credits, a.messageId, Anchor(a), a.content, a.subsystems);
    SameLinks(Threads.Resolve(s, a.messageId, Anchor(a), a.content, a.subsystems), Process(s, ps, a),
              credits + NewCredits(Ingested(a)));
  }

  lemma FetchLinks(s: Store, article: string, subject: string, now: int, credits: Threads.Credits)
    requires Consistent(s) && Threads.LinksFollowMessages(s, credits)
    ensures Threads.LinksFollowMessages(P.CreateFetching(s, article, subject, now).0, credits)
  {
    Threads.EnsureThreadFollowsMessages(s, credits, P.RootId(article), now);
    if P.FetchingHit(s, article).None? {
      var s1 := Threads.EnsureThread(s, P.RootId(article), now).0;
      SameLinks(s1, P.CreateFetching(s, article, subject, now).0, credits);
    } else {
      SameLinks(s, P.CreateFetching(s, article, subject, now).0, credits);
    }
  }

  lemma StepLinks(s: Store, ps: P.Parsers, e: Event, credits: Threads.Credits)
    requires Consistent(s) && Threads.LinksFollowMessages(s, credits)
    ensures Threads.LinksFollowMessages(Step(s, ps, e), credits + NewCredits(e))
  {
    if e.Ingested? {
      ProcessLinks(s, ps, e.article, credits);
    } else {
      assert credits + {} == credits;
      if e.FetchRequested? {
        FetchLinks(s, e.articleId, e.subject, e.now, credits);
      } else {
        StepSameThreading(s, ps, e);
        SameLinks(s, Step(s, ps, e), credits);
      }
    }
  }

  lemma SameLinks(s: Store, s': Store, credits: Threads.Credits)
    requires Threads.LinksFollowMessages(s, credits)
    requires s'.messages == s.messages && s'.threadSubsystems == s.threadSubsystems
    ensures Threads.LinksFollowMessages(s', credits)
  {
  }

  /** After every history a thread is linked to exactly the subsystems brought by the messages now in it. */
  lemma {:induction false} RunLinks(ps: P.Parsers, events: seq<Event>)
    ensures Threads.LinksFollowMessages(Run(ps, events), Credits(events))
    decreases |events|
  {
    if events != [] {
      var init := events[..|events| - 1];
      RunConsistent(ps, init);
      RunLinks(ps, init);
      RepliesGrow(events);
      StepLinks(Run(ps, init), ps, events[|events| - 1], Credits(init));
    }
  }

  // ---------------------------------------------------------------- nothing is lost

  /** What later events never take away: messages, patches with their message, reviews with their patch. */
  ghost predicate RowsGrow(s: Store, s': Store) {
    && s.messages.Keys <= s'.messages.Keys
    && (forall p :: p in s.patches ==> p in s'.patches && s'.patches[p].messageId == s.patches[p].messageId)
    && (forall r :: r in s.reviews ==> r in s'.reviews && s'.reviews[r].patch == s.reviews[r].patch)
  }

  lemma AbsorbGrows(s: Store, sub: P.Submission, m: set<PatchsetId>)
    requires m != {} && m <= s.patchsets.Keys
    ensures RowsGrow(s, P.Absorb(s, sub, m))
  {
    forall p | p in s.patches
      ensures p in P.Absorb(s, sub, m).patches && P.Absorb(s, sub, m).patches[p].messageId == s.patches[p].messageId
    {
      P.AbsorbKeepsPatches(s, sub, m, p);
    }
    forall r | r in s.reviews
      ensures r in P.Absorb(s, sub, m).reviews && P.Absorb(s, sub, m).reviews[r].patch == s.reviews[r].patch
    {
      P.AbsorbKeepsReviews(s, sub, m, r);
    }
  }

  lemma CreatePatchsetGrows(s: Store, ps: P.Parsers, sub: P.Submission)
    ensures RowsGrow(s, P.CreatePatchset(s, ps, sub).0)
  {
    P.RefusedIff(s, ps, sub);
    if P.Searches(s, ps, sub) {
      P.SearchOutcome(s, ps, sub);
      if P.TiesTogether(s, ps, sub) { AbsorbGrows(s, sub, P.MatchSet(s, ps, sub)); }
    }
  }

  lemma CreatePatchGrows(s: Store, id: PatchsetId, m: MessageId, index: nat, diff: string)
    ensures RowsGrow(s, P.CreatePatch(s, id, m, index, diff).0)
  {
    if P.CreatePatch(s, id, m, index, diff).1.Ok? { P.CreatePatchWrites(s, id, m, index, diff); }
  }

  lemma AssembleGrows(s: Store, ps: P.Parsers, a: Article)
    requires Consistent(s) && a.messageId in s.messages
    ensures RowsGrow(s, Assemble(s, ps, a))
  {
    var sub := SubmissionOf(a, s.messages[a.messageId].thread);
    CreatePatchsetGrows(s, ps, sub);
    var (s1, r) := P.CreatePatchset(s, ps, sub);
    if r.Ok? && a.patch.Some? {
      CreatePatchGrows(LinkPatchset(s1, r.value, a.subsystems), r.value, a.patch.value.messageId,
                       a.patch.value.partIndex, a.patch.value.diff);
    }
  }

  lemma ResolveGrows(s: Store, a: Article)
    requires Consistent(s)
    ensures RowsGrow(s, Threads.Resolve(s, a.messageId, Anchor(a), a.content, a.subsystems))
    ensures a.messageId in Threads.Resolve(s, a.messageId, Anchor(a), a.content, a.subsystems).messages
  {
    Threads.ResolveMessages(s, a.messageId, Anchor(a), a.content, a.subsystems);
    Threads.ResolveKeepsRows(s, a.messageId, Anchor(a), a.content, a.subsystems);
  }

  lemma RowsGrowTrans(s: Store, s1: Store, s2: Store)
    requires RowsGrow(s, s1) && RowsGrow(s1, s2)
    ensures RowsGrow(s, s2)
  {
  }

  lemma ProcessGrows(s: Store, ps: P.Parsers, a: Article)
    requires Consistent(s)
    ensures RowsGrow(s, Process(s, ps, a))
  {
    Threads.ResolveKeeps(s, a.messageId, Anchor(a), a.content, a.subsystems);
    ResolveGrows(s, a);
    var s1 := Threads.Resolve(s, a.messageId, Anchor(a), a.content, a.subsystems);
    if a.isPatchOrCover && !a.ignoredAuthor {
      AssembleGrows(s1, ps, a);
      RowsGrowTrans(s, s1, Assemble(s1, ps, a));
    }
  }

  lemma FetchGrows(s: Store, article: string, subject: string, now: int)
    ensures RowsGrow(s, P.CreateFetching(s, article, subject, now).0)
  {
    var s1 := Threads.EnsureThread(s, P.RootId(article), now).0;
    assert s1.patches == s.patches && s1.reviews == s.reviews && s.messages.Keys <= s1.messages.Keys;
  }

  lemma QuietStepGrows(s: Store, ps: P.Parsers, e: Event)
    requires !e.Ingested? && !e.FetchRequested?
    ensures RowsGrow(s, Step(s, ps, e))
  {
    StepSameThreading(s, ps, e);
  }

  lemma StepGrows(s: Store, ps: P.Parsers, e: Event)
    requires Consistent(s)
    ensures RowsGrow(s, Step(s, ps, e))
  {
    match e
    case Ingested(a) => ProcessGrows(s, ps, a);
    case FetchRequested(id, subject, now) => FetchGrows(s, id, subject, now);
    case _ => QuietStepGrows(s, ps, e);
  }

  /** Along every history no message, patch or review disappears and no two messages are ever separated. */
  lemma {:induction false} RunLosesNothing(ps: P.Parsers, events: seq<Event>, k: nat)
    requires k <= |events|
    ensures RowsGrow(Run(ps, events[..k]), Run(ps, events))
    ensures forall x, y :: Threads.SameThread(Run(ps, events[..k]), x, y) ==> Threads.SameThread(Run(ps, events), x, y)
    decreases |events|
  {
    if k == |events| {
      assert events[..k] == events;
    } else {
      var init := events[..|events| - 1];
      assert init[..k] == events[..k];
      RunLosesNothing(ps, init, k);
      RunConsistent(ps, init);
      StepGrows(Run(ps, init), ps, events[|events| - 1]);
    }
    forall x, y | Threads.SameThread(Run(ps, events[..k]), x, y) ensures Threads.SameThread(Run(ps, events), x, y) {
      RunThreads(ps, events[..k]);
      RunThreads(ps, events);
      assert Threads.Connected(Replies(events[..k]), x, y);
      assert forall e :: e in events[..k] ==> e in events;
      Threads.ConnectedMono(Replies(events[..k]), Replies(events), x, y);
    }
  }

  // ---------------------------------------------------------------- every part is stored

  /** The article carries the patch it announces in its subject. */
  predicate CarriesItsPart(a: Article) {
    a.patch.Some? && a.patch.value.messageId == a.messageId && a.patch.value.partIndex == a.index && a.index != 0
  }

  /**
   An article's patch is stored in the patchset it was given, with its index and diff, unless its thread holds a
   patchset announced for a fetch and not filled in, and the cover letter does not lead to a patchset; then the
   patch is dropped. The collision that storing a patch may report cannot happen to a part with its own index.
   */
  lemma AssembleStoresThePart(s: Store, ps: P.Parsers, a: Article)
    requires Consistent(s) && a.messageId in s.messages && CarriesItsPart(a)
    ensures var sub := SubmissionOf(a, s.messages[a.messageId].thread);
            var s' := Assemble(s, ps, a);
            if P.Blocked(s, ps, sub) then s' == s
            else exists i :: i in s'.patchsets &&
                             P.PatchFor(s'.patches, a.messageId)
                             == Some(Patch(i, a.messageId, a.index, a.patch.value.diff))
  {
    var sub := SubmissionOf(a, s.messages[a.messageId].thread);
    P.RefusedIff(s, ps, sub);
    P.CreatePatchsetKeeps(s, ps, sub);
    P.PlacedWithoutCollision(s, ps, sub);
    var (s1, r) := P.CreatePatchset(s, ps, sub);
    if r.Ok? {
      var s2 := LinkPatchset(s1, r.value, a.subsystems);
      var d := a.patch.value.diff;
      LinkPatchsetKeeps(s1, r.value, a.subsystems);
      assert P.CreatePatch(s2, r.value, a.messageId, a.index, d).1.Ok?;
      P.CreatePatchKeeps(s2, r.value, a.messageId, a.index, d);
      P.CreatePatchUpserts(s2, r.value, a.messageId, a.index, d, a.messageId);
      assert r.value in Assemble(s, ps, a).patchsets;
    }
  }

  // ---------------------------------------------------------------- cancellation

  /** The events that may take a patchset out of `Cancelled`: a rerun, the review service's writes, a failed fetch. */
  ghost predicate MayRevive(s: Store, e: Event, i: PatchsetId) {
    || e == RerunRequested(i)
    || (e.StatusSet? && e.id == i)
    || (e.IngestFailed? && i in P.WithCoverId(s, P.RootId(e.articleId)))
  }

  /** The article merges patchset i into an earlier one. */
  ghost predicate MergesAway(s: Store, ps: P.Parsers, a: Article, i: PatchsetId) {
    var s1 := Threads.Resolve(s, a.messageId, Anchor(a), a.content, a.subsystems);
    && a.isPatchOrCover && !a.ignoredAuthor && a.messageId in s1.messages
    && P.MergedAway(s1, ps, SubmissionOf(a, s1.messages[a.messageId].thread), i)
  }

  lemma AssembleRemovesIff(s: Store, ps: P.Parsers, a: Article, i: PatchsetId)
    requires a.messageId in s.messages && i in s.patchsets
    ensures i !in Assemble(s, ps, a).patchsets
       <==> P.MergedAway(s, ps, SubmissionOf(a, s.messages[a.messageId].thread), i)
  {
    var sub := SubmissionOf(a, s.messages[a.messageId].thread);
    P.RemovedIff(s, ps, sub, i);
    var (s1, r) := P.CreatePatchset(s, ps, sub);
    if r.Ok? && a.patch.Some? {
      var p := a.patch.value;
      P.CreatePatchKeepsKeys(LinkPatchset(s1, r.value, a.subsystems), r.value, p.messageId, p.partIndex, p.diff);
    }
  }

  lemma ProcessRemovesIff(s: Store, ps: P.Parsers, a: Article, i: PatchsetId)
    requires i in s.patchsets
    ensures i !in Process(s, ps, a).patchsets <==> MergesAway(s, ps, a, i)
  {
    Threads.ResolveKeepsRows(s, a.messageId, Anchor(a), a.content, a.subsystems);
    var s1 := Threads.Resolve(s, a.messageId, Anchor(a), a.content, a.subsystems);
    if a.isPatchOrCover && !a.ignoredAuthor && a.messageId in s1.messages { AssembleRemovesIff(s1, ps, a, i); }
  }

  lemma ProcessKeepsCancelled(s: Store, ps: P.Parsers, a: Article, i: PatchsetId)
    requires i in s.patchsets && s.patchsets[i].status == Cancelled
    ensures P.StaysCancelled(Process(s, ps, a), i)
  {
    Threads.ResolveKeepsRows(s, a.messageId, Anchor(a), a.content, a.subsystems);
    var s1 := Threads.Resolve(s, a.messageId, Anchor(a), a.content, a.subsystems);
    if a.isPatchOrCover && !a.ignoredAuthor && a.messageId in s1.messages {
      var sub := SubmissionOf(a, s1.messages[a.messageId].thread);
      P.CreatePatchsetKeepsCancelled(s1, ps, sub, i);
      var (s2, r) := P.CreatePatchset(s1, ps, sub);
      if r.Ok? && a.patch.Some? {
        var p := a.patch.value;
        var s3 := LinkPatchset(s2, r.value, a.subsystems);
        P.CreatePatchKeepsCancelled(s3, r.value, p.messageId, p.partIndex, p.diff, i);
      }
    }
  }

  /**
   No article, fetch request or restart revives a cancelled patchset. It is gone afterwards exactly when an article
   merged it into an earlier patchset, whose own status decides what becomes of its patches.
   */
  lemma StepKeepsCancelled(s: Store, ps: P.Parsers, e: Event, i: PatchsetId)
    requires i in s.patchsets && s.patchsets[i].status == Cancelled && !MayRevive(s, e, i)
    ensures P.StaysCancelled(Step(s, ps, e), i)
    ensures i !in Step(s, ps, e).patchsets <==> e.Ingested? && MergesAway(s, ps, e.article, i)
  {
    match e
    case Ingested(a) =>
      ProcessKeepsCancelled(s, ps, a, i);
      ProcessRemovesIff(s, ps, a, i);
    case _ =>
  }

  /** The stores a history passes through. */
  ghost predicate PassesThrough(ps: P.Parsers, events: seq<Event>, stores: seq<Store>) {
    && |stores| == |events| + 1
    && forall j :: 0 <= j <= |events| ==> stores[j] == Run(ps, events[..j])
  }

  lemma NextStore(ps: P.Parsers, events: seq<Event>, stores: seq<Store>, n: nat)
    requires PassesThrough(ps, events, stores) && n < |events|
    ensures stores[n + 1] == Step(stores[n], ps, events[n])
  {
    assert events[..n + 1][..n] == events[..n];
  }

  /** Between the points k and n of a history the patchset is not merged away and no event may revive it. */
  ghost predicate LeftAlone(events: seq<Event>, stores: seq<Store>, k: nat, n: nat, i: PatchsetId)
    requires k <= n <= |events| < |stores|
  {
    && (forall j :: k <= j <= n ==> i in stores[j].patchsets)
    && (forall j :: k <= j < n ==> !MayRevive(stores[j], events[j], i))
  }

  lemma NextStoreCancelled(ps: P.Parsers, events: seq<Event>, stores: seq<Store>, n: nat, i: PatchsetId)
    requires PassesThrough(ps, events, stores) && n < |events|
    requires i in stores[n].patchsets && i in stores[n + 1].patchsets && stores[n].patchsets[i].status == Cancelled
    requires !MayRevive(stores[n], events[n], i)
    ensures stores[n + 1].patchsets[i].status == Cancelled
  {
    NextStore(ps, events, stores, n);
    StepKeepsCancelled(stores[n], ps, events[n], i);
  }

  /** Cancelled at point j means cancelled at the next. */
  ghost predicate Onward(stores: seq<Store>, j: nat, i: PatchsetId)
    requires j + 1 < |stores| && i in stores[j].patchsets && i in stores[j + 1].patchsets
  {
    stores[j].patchsets[i].status == Cancelled ==> stores[j + 1].patchsets[i].status == Cancelled
  }

  lemma {:induction false} CancelledAlong(stores: seq<Store>, k: nat, n: nat, i: PatchsetId)
    requires k <= n < |stores| && forall j :: k <= j <= n ==> i in stores[j].patchsets
    requires forall j :: k <= j < n ==> Onward(stores, j, i)
    requires stores[k].patchsets[i].status == Cancelled
    ensures stores[n].patchsets[i].status == Cancelled
    decreases n
  {
    if k < n {
      CancelledAlong(stores, k, n - 1, i);
      assert Onward(stores, n - 1, i);
    }
  }

  /** Along every history a cancelled patchset stays cancelled as long as it is left alone. */
  lemma RunKeepsCancelled(ps: P.Parsers, events: seq<Event>, stores: seq<Store>, k: nat, n: nat, i: PatchsetId)
    requires PassesThrough(ps, events, stores) && k <= n <= |events| && LeftAlone(events, stores, k, n, i)
    requires stores[k].patchsets[i].status == Cancelled
    ensures stores[n].patchsets[i].status == Cancelled
  {
    forall j | k <= j < n ensures Onward(stores, j, i) {
      if stores[j].patchsets[i].status == Cancelled { NextStoreCancelled(ps, events, stores, j, i); }
    }
    CancelledAlong(stores, k, n, i);
  }

  // ---------------------------------------------------------------- promotion

  /** An article makes a patchset `Pending` only if the patchset is full when the article has been processed. */
  lemma ProcessPromotesFull(s: Store, ps: P.Parsers, a: Article, i: PatchsetId)
    requires Consistent(s) && (i in s.patchsets ==> s.patchsets[i].status != Pending)
    requires i in Process(s, ps, a).patchsets && Process(s, ps, a).patchsets[i].status == Pending
    ensures Full(Process(s, ps, a).patchsets[i])
  {
    var s1 := Threads.Resolve(s, a.messageId, Anchor(a), a.content, a.subsystems);
    Threads.ResolveKeeps(s, a.messageId, Anchor(a), a.content, a.subsystems);
    Threads.ResolveKeepsRows(s, a.messageId, Anchor(a), a.content, a.subsystems);
    if a.isPatchOrCover && !a.ignoredAuthor && a.messageId in s1.messages { AssemblePromotesFull(s1, ps, a, i); }
  }

  lemma AssemblePromotesFull(s: Store, ps: P.Parsers, a: Article, i: PatchsetId)
    requires Consistent(s) && a.messageId in s.messages
    requires i in s.patchsets ==> s.patchsets[i].status != Pending
    requires i in Assemble(s, ps, a).patchsets && Assemble(s, ps, a).patchsets[i].status == Pending
    ensures Full(Assemble(s, ps, a).patchsets[i])
  {
    var sub := SubmissionOf(a, s.messages[a.messageId].thread);
    P.CreatePatchsetKeeps(s, ps, sub);
    P.CreatePatchsetPromotesFull(s, ps, sub, i);
    var (s1, r) := P.CreatePatchset(s, ps, sub);
    if r.Ok? && a.patch.Some? {
      var s2 := LinkPatchset(s1, r.value, a.subsystems);
      LinkPatchsetKeeps(s1, r.value, a.subsystems);
      var p := a.patch.value;
      P.CreatePatchKeeps(s2, r.value, p.messageId, p.partIndex, p.diff);
      if s2.patchsets[i].status != Pending {
        P.CreatePatchPromotesFull(s2, r.value, p.messageId, p.partIndex, p.diff, i);
      } else {
        assert i == r.value;
        if P.CreatePatch(s2, r.value, p.messageId, p.partIndex, p.diff).1.Ok? {
          P.CreatePatchMovesOnePart(s2, r.value, p.messageId, p.partIndex, p.diff, i);
          P.CreatePatchKeepsTotal(s2, r.value, p.messageId, p.partIndex, p.diff, i);
        }
      }
    }
  }

  /**
   The moment an article completes a series: the patchset that went to `Pending` holds every announced part
   exactly once and nothing else exactly when the indices of its patches are distinct and in range.
   */
  lemma PromotedHoldsEveryPart(s: Store, ps: P.Parsers, a: Article, i: PatchsetId)
    requires Consistent(s) && (i in s.patchsets ==> s.patchsets[i].status != Pending)
    requires i in Process(s, ps, a).patchsets && Process(s, ps, a).patchsets[i].status == Pending
    ensures var s' := Process(s, ps, a);
            var row := s'.patchsets[i];
            row.total.Some? &&
            (row.received == row.total && P.HoldsEachPartOnce(s'.patches, i, row.total.value)
             <==> P.IndicesProper(s'.patches, i, row.total.value))
  {
    ProcessKeeps(s, ps, a);
    ProcessPromotesFull(s, ps, a, i);
    P.FullIsCompleteIff(Process(s, ps, a), i);
  }

  /**
   A lone patch by mail that belongs to no patchset so far, whatever else the store holds, is ready for review as
   soon as it has arrived.
   */
  lemma LonePatchIsReady(s: Store, ps: P.Parsers, a: Article)
    requires Consistent(s)
    requires a.group.MailingList? && a.isPatchOrCover && !a.ignoredAuthor && a.total == 1
    requires a.patch.Some? && a.patch.value.partIndex == 1
    requires var s1 := Threads.Resolve(s, a.messageId, Anchor(a), a.content, a.subsystems);
             a.messageId in s1.messages && P.OpensNew(s1, ps, SubmissionOf(a, s1.messages[a.messageId].thread))
    ensures var (s', id) := (Process(s, ps, a), NextRowId(s.patchsets.Keys));
            id in s'.patchsets && s'.patchsets[id].status == Pending && P.HoldsEachPartOnce(s'.patches, id, 1)
  {
    Threads.ResolveKeeps(s, a.messageId, Anchor(a), a.content, a.subsystems);
    Threads.ResolveKeepsRows(s, a.messageId, Anchor(a), a.content, a.subsystems);
    LoneAssembly(Threads.Resolve(s, a.messageId, Anchor(a), a.content, a.subsystems), ps, a);
  }

  lemma LoneAssembly(s: Store, ps: P.Parsers, a: Article)
    requires Consistent(s) && a.messageId in s.messages
    requires !a.group.GitImport? && a.total == 1 && a.patch.Some? && a.patch.value.partIndex == 1
    requires P.OpensNew(s, ps, SubmissionOf(a, s.messages[a.messageId].thread))
    ensures var (s', id) := (Assemble(s, ps, a), NextRowId(s.patchsets.Keys));
            id in s'.patchsets && s'.patchsets[id].status == Pending && P.HoldsEachPartOnce(s'.patches, id, 1)
  {
    var sub := SubmissionOf(a, s.messages[a.messageId].thread);
    NewRowTakesPatch(s, ps, sub);
    P.CreatePatchsetKeeps(s, ps, sub);
    var (s1, r) := P.CreatePatchset(s, ps, sub);
    LinkPatchsetKeeps(s1, r.value, a.subsystems);
    FirstPatch(LinkPatchset(s1, r.value, a.subsystems), r.value, a.patch.value);
  }

  lemma FirstPatch(s: Store, id: PatchsetId, p: PatchBody)
    requires Consistent(s) && id in s.patchsets && s.patchsets[id].total == Some(1)
    requires s.patchsets[id].status == Incomplete && PatchesOf(s.patches, id) == {} && p.partIndex == 1
    ensures var s' := P.CreatePatch(s, id, p.messageId, p.partIndex, p.diff).0;
            id in s'.patchsets && s'.patchsets[id].status == Pending && P.HoldsEachPartOnce(s'.patches, id, 1)
  {
    var (s', r) := P.CreatePatch(s, id, p.messageId, p.partIndex, p.diff);
    if P.IndexTaken(s.patches, id, p.partIndex, p.messageId) {
      P.TakenMeansHeld(s.patches, id, p.partIndex, p.messageId);
    }
    assert r.Ok?;
    P.CreatePatchWrites(s, id, p.messageId, p.partIndex, p.diff);
    P.CreatePatchKeeps(s, id, p.messageId, p.partIndex, p.diff);
    P.CreatePatchKeepsTotal(s, id, p.messageId, p.partIndex, p.diff, id);
    OnlyPatch(s.patches, r.value, Patch(id, p.messageId, p.partIndex, p.diff));
    P.CreatePatchCountsHere(s, id, p.messageId, p.partIndex, p.diff);
    P.CreatePatchPromotes(s, id, p.messageId, p.partIndex, p.diff);
    P.FullMeansComplete(s', id);
  }

  lemma OnlyPatch(patches: map<PatchId, Patch>, id: PatchId, row: Patch)
    requires PatchesOf(patches, row.patchset) == {} && row.partIndex == 1
    ensures var after := patches[id := row];
            PatchesOf(after, row.patchset) == {id} && P.IndicesProper(after, row.patchset, 1)
  {
    assert PatchesOf(patches[id := row], row.patchset) == {id};
  }
}

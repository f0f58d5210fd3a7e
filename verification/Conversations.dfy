/**
 Which messages end up in one thread, told from what the articles say: the message they answer, the fetch or the
 submission they belong to, the git range they were imported with; and where a patchset waits that is being fetched.
 */
module Conversations {
  import opened Prelude
  import opened Tables
  import Threads
  import P = Patchsets
  import I = Ingestion

  // ---------------------------------------------------------------- what brings messages together

  /** The message stored for a fetch, a submission or a git range, which nobody sent. */
  function Synthetic(name: string): MessageId {
    name + "@sashiko.local"
  }

  ghost predicate WasIngested(events: seq<I.Event>, a: I.Article) {
    I.Ingested(a) in events
  }

  /** A patch fetched from a repository, or submitted over the API. */
  predicate IsFetched(a: I.Article) {
    a.group == I.GitFetch || a.group == I.ApiSubmit
  }

  lemma EdgeShares(ps: P.Parsers, events: seq<I.Event>, a: I.Article)
    requires WasIngested(events, a)
    ensures Threads.SameThread(I.Run(ps, events), a.messageId, I.Anchor(a))
  {
    I.RunThreads(ps, events);
    var (edges, e) := (I.Replies(events), (a.messageId, I.Anchor(a)));
    assert e in edges by { assert I.Ingested(a).Ingested? && I.Ingested(a).article == a; }
    assert e.0 in I.Run(ps, events).messages && e.1 in I.Run(ps, events).messages;
    Threads.ConnectedEdge(edges, e.0, e.1);
  }

  /** After every history a mail is in the thread of the message it answers, whether that has arrived or not. */
  lemma AnswerJoinsThread(ps: P.Parsers, events: seq<I.Event>, a: I.Article)
    requires WasIngested(events, a) && a.group == I.MailingList && a.content.inReplyTo.Some?
    ensures Threads.SameThread(I.Run(ps, events), a.messageId, a.content.inReplyTo.value)
  {
    EdgeShares(ps, events, a);
  }

  /** After every history the messages of one fetch or submission share a thread with each other and with its root. */
  lemma FetchSharesThread(ps: P.Parsers, events: seq<I.Event>, a: I.Article, b: I.Article)
    requires WasIngested(events, a) && WasIngested(events, b) && IsFetched(a) && IsFetched(b)
    requires a.articleId == b.articleId
    ensures Threads.SameThread(I.Run(ps, events), a.messageId, b.messageId)
    ensures Threads.SameThread(I.Run(ps, events), a.messageId, Synthetic(a.articleId))
  {
    EdgeShares(ps, events, a);
    EdgeShares(ps, events, b);
  }

  /** After every history the messages of one imported range share a thread, whatever length each announces. */
  lemma ImportSharesThread(ps: P.Parsers, events: seq<I.Event>, a: I.Article, b: I.Article)
    requires WasIngested(events, a) && WasIngested(events, b) && a.group.GitImport? && b.group.GitImport?
    requires a.group.range == b.group.range
    ensures Threads.SameThread(I.Run(ps, events), a.messageId, b.messageId)
  {
    EdgeShares(ps, events, a);
    EdgeShares(ps, events, b);
  }

  /** The root of a range has none of the characters that cannot stand in it, and keeps a range that has none. */
  lemma SanitizeCleans(range: string)
    ensures forall c :: c in I.Sanitize(range) ==> c !in {'/', ':', ' ', '.'}
    ensures I.Sanitize(range) == range <==> forall c :: c in range ==> c !in {'/', ':', ' ', '.'}
  {
    var s := I.Sanitize(range);
    if s == range {
      forall c | c in range ensures c !in {'/', ':', ' ', '.'} { assert c in s; }
    }
    if forall c :: c in range ==> c !in {'/', ':', ' ', '.'} {
      forall k | 0 <= k < |range| ensures s[k] == range[k] { assert range[k] in range; }
    }
  }

  // ---------------------------------------------------------------- what keeps them apart

  /** The article names the message as the one it answers or belongs to. */
  ghost predicate Names(a: I.Article, m: MessageId) {
    match a.group
    case MailingList => a.content.inReplyTo == Some(m)
    case GitFetch | ApiSubmit => Synthetic(a.articleId) == m
    case GitImport(_, range) => Synthetic("git-import-" + I.Sanitize(range)) == m
  }

  /** Every article with this id is a mail that answers nothing, and no article names it. */
  ghost predicate StandsAlone(events: seq<I.Event>, m: MessageId) {
    forall a :: WasIngested(events, a) ==>
      && !Names(a, m)
      && (a.messageId == m ==> a.group == I.MailingList && a.content.inReplyTo.None?)
  }

  /** The only edge of such a message leads back to it. */
  lemma AloneEdge(events: seq<I.Event>, m: MessageId, x: MessageId)
    requires StandsAlone(events, m) && Threads.Edge(I.Replies(events), m, x)
    ensures x == m
  {
    var e :| e in events && e.Ingested? && ((e.article.messageId == m && I.Anchor(e.article) == x)
                                            || (e.article.messageId == x && I.Anchor(e.article) == m));
    assert e == I.Ingested(e.article);
    assert WasIngested(events, e.article);
  }

  lemma {:induction false} AlonePath(events: seq<I.Event>, p: seq<MessageId>, m: MessageId, x: MessageId)
    requires StandsAlone(events, m) && Threads.IsPath(I.Replies(events), p, m, x)
    ensures x == m
    decreases |p|
  {
    if |p| > 1 {
      assert Threads.Edge(I.Replies(events), p[0], p[0 + 1]);
      AloneEdge(events, m, p[1]);
      var q := p[1..];
      forall i | 0 <= i < |q| - 1 ensures Threads.Edge(I.Replies(events), q[i], q[i + 1]) {
        assert Threads.Edge(I.Replies(events), p[i + 1], p[i + 1 + 1]);
      }
      AlonePath(events, q, m, x);
    }
  }

  /** After every history a message that answers nothing and that nothing answers is alone in its thread. */
  lemma LoneMessageAlone(ps: P.Parsers, events: seq<I.Event>, m: MessageId, x: MessageId)
    requires StandsAlone(events, m) && Threads.SameThread(I.Run(ps, events), m, x)
    ensures x == m
  {
    I.RunThreads(ps, events);
    assert Threads.Connected(I.Replies(events), m, x);
    var p :| Threads.IsPath(I.Replies(events), p, m, x);
    AlonePath(events, p, m, x);
  }

  // ---------------------------------------------------------------- where a fetch waits

  /** A patchset that nothing has come for yet is in the thread of the message it waits for. */
  ghost predicate WaitsWithRoot(s: Store) {
    forall i :: i in s.patchsets && s.patchsets[i].author.None? ==>
      && s.patchsets[i].cover.Some? && s.patchsets[i].cover.value in s.messages
      && s.patchsets[i].thread == s.messages[s.patchsets[i].cover.value].thread
  }

  /** Patchsets still waiting are as they were. */
  ghost predicate SameWaiting(before: map<PatchsetId, Patchset>, after: map<PatchsetId, Patchset>) {
    forall i :: i in after && after[i].author.None? ==>
      i in before && before[i].author.None? && after[i].cover == before[i].cover && after[i].thread == before[i].thread
  }

  lemma ResolveKeepsWaiting(s: Store, m: MessageId, anchor: MessageId, c: Content, subsystems: set<SubsystemId>)
    requires WaitsWithRoot(s)
    ensures WaitsWithRoot(Threads.Resolve(s, m, anchor, c, subsystems))
  {
    var (s1, t) := Threads.EnsureThread(s, anchor, c.date);
    assert WaitsWithRoot(s1);
    MoveKeepsWaiting(s1, m, t, c);
  }

  lemma MoveKeepsWaiting(s: Store, m: MessageId, t: ThreadId, c: Content)
    requires WaitsWithRoot(s)
    ensures WaitsWithRoot(Threads.CreateMessage(s, m, t, c))
  {
    if m in s.messages && s.messages[m].thread != t {
      assert WaitsWithRoot(Threads.MergeThreads(s, s.messages[m].thread, t));
    }
  }

  lemma CreatePatchsetSameWaiting(s: Store, ps: P.Parsers, a: P.Submission)
    ensures SameWaiting(s.patchsets, P.CreatePatchset(s, ps, a).0.patchsets)
  {
    P.RefusedIff(s, ps, a);
    if P.Searches(s, ps, a) {
      P.SearchOutcome(s, ps, a);
      if P.TiesTogether(s, ps, a) { AbsorbSameWaiting(s, a, P.MatchSet(s, ps, a)); }
    }
  }

  lemma AbsorbSameWaiting(s: Store, a: P.Submission, matches: set<PatchsetId>)
    requires matches != {} && matches <= s.patchsets.Keys
    ensures SameWaiting(s.patchsets, P.Absorb(s, a, matches).patchsets)
  {
  }

  lemma CreatePatchSameWaiting(s: Store, id: PatchsetId, m: MessageId, index: nat, diff: string)
    ensures SameWaiting(s.patchsets, P.CreatePatch(s, id, m, index, diff).0.patchsets)
  {
    if P.CreatePatch(s, id, m, index, diff).1.Ok? {
      var p := P.PatchRow(s, m);
      var patches := s.patches[p := Patch(id, m, index, diff)];
      RecountSameWaiting(s.patchsets, patches, id);
      var counted := P.Recount(s.patchsets, patches, id);
      if p in s.patches && s.patches[p].patchset != id {
        RecountSameWaiting(counted, patches, s.patches[p].patchset);
      }
    }
  }

  lemma RecountSameWaiting(patchsets: map<PatchsetId, Patchset>, patches: map<PatchId, Patch>, id: PatchsetId)
    ensures SameWaiting(patchsets, P.Recount(patchsets, patches, id))
  {
  }

  lemma AssembleKeepsWaiting(s: Store, ps: P.Parsers, a: I.Article)
    requires Consistent(s) && WaitsWithRoot(s) && a.messageId in s.messages
    ensures WaitsWithRoot(I.Assemble(s, ps, a))
  {
    var sub := I.SubmissionOf(a, s.messages[a.messageId].thread);
    CreatePatchsetSameWaiting(s, ps, sub);
    P.CreatePatchsetKeeps(s, ps, sub);
    var (s1, r) := P.CreatePatchset(s, ps, sub);
    if r.Ok? { StorePartKeepsWaiting(I.LinkPatchset(s1, r.value, a.subsystems), r.value, a.patch); }
  }

  lemma StorePartKeepsWaiting(s: Store, id: PatchsetId, p: Option<I.PatchBody>)
    requires WaitsWithRoot(s)
    ensures WaitsWithRoot(I.StorePart(s, id, p))
  {
    if p.Some? {
      CreatePatchSameWaiting(s, id, p.value.messageId, p.value.partIndex, p.value.diff);
      P.CreatePatchTouches(s, id, p.value.messageId, p.value.partIndex, p.value.diff);
    }
  }

  lemma ProcessKeepsWaiting(s: Store, ps: P.Parsers, a: I.Article)
    requires Consistent(s) && WaitsWithRoot(s)
    ensures WaitsWithRoot(I.Process(s, ps, a))
  {
    var s1 := Threads.Resolve(s, a.messageId, I.Anchor(a), a.content, a.subsystems);
    ResolveKeepsWaiting(s, a.messageId, I.Anchor(a), a.content, a.subsystems);
    Threads.ResolveKeeps(s, a.messageId, I.Anchor(a), a.content, a.subsystems);
    if a.isPatchOrCover && !a.ignoredAuthor && a.messageId in s1.messages { AssembleKeepsWaiting(s1, ps, a); }
  }

  lemma FetchKeepsWaiting(s: Store, article: string, subject: string, now: int)
    requires Consistent(s) && WaitsWithRoot(s)
    ensures WaitsWithRoot(P.CreateFetching(s, article, subject, now).0)
  {
    if P.FetchingHit(s, article).None? {
      FetchAnewKeepsWaiting(s, article, subject, now);
    } else {
      FetchAgainKeepsWaiting(s, article, subject, now);
    }
  }

  lemma FetchAnewKeepsWaiting(s: Store, article: string, subject: string, now: int)
    requires Consistent(s) && WaitsWithRoot(s) && P.FetchingHit(s, article).None?
    ensures WaitsWithRoot(P.CreateFetching(s, article, subject, now).0)
  {
    Threads.EnsureThreadMessages(s, P.RootId(article), now);
    var (s1, t) := Threads.EnsureThread(s, P.RootId(article), now);
    assert WaitsWithRoot(s1) && s1.messages[P.RootId(article)].thread == t;
  }

  lemma FetchAgainKeepsWaiting(s: Store, article: string, subject: string, now: int)
    requires WaitsWithRoot(s) && P.FetchingHit(s, article).Some?
    ensures WaitsWithRoot(P.CreateFetching(s, article, subject, now).0)
  {
  }

  lemma SetStatusesKeepsWaiting(s: Store, selected: set<PatchsetId>, status: Status)
    requires WaitsWithRoot(s)
    ensures WaitsWithRoot(P.SetStatuses(s, selected, status))
  {
  }

  lemma RerunKeepsWaiting(s: Store, id: PatchsetId)
    requires WaitsWithRoot(s)
    ensures WaitsWithRoot(I.RerunPatchset(s, id))
  {
    SetStatusesKeepsWaiting(s, {id}, Pending);
  }

  lemma StatusStepKeepsWaiting(s: Store, ps: P.Parsers, e: I.Event)
    requires WaitsWithRoot(s) && (e.IngestFailed? || e.CancelRequested? || e.FailedRestarted? || e.StatusSet?)
    ensures WaitsWithRoot(I.Step(s, ps, e))
  {
    match e
    case IngestFailed(id) => SetStatusesKeepsWaiting(s, P.WithCoverId(s, P.RootId(id)), Failed);
    case CancelRequested(id, force) =>
      SetStatusesKeepsWaiting(s, {id} * I.WithStatus(s, I.Cancellable(force)), Cancelled);
    case FailedRestarted => SetStatusesKeepsWaiting(s, I.WithStatus(s, {Failed, FailedToApply}), Pending);
    case StatusSet(id, status) => SetStatusesKeepsWaiting(s, {id}, status);
  }

  lemma ReviewStepKeepsWaiting(s: Store, ps: P.Parsers, e: I.Event)
    requires WaitsWithRoot(s) && (e.Restarted? || e.ReviewCreated? || e.ReviewSet?)
    ensures WaitsWithRoot(I.Step(s, ps, e))
  {
    if e.Restarted? { SetStatusesKeepsWaiting(s, I.WithStatus(s, {InReview}), Pending); }
  }

  lemma {:induction false} RunWaitsWithRoot(ps: P.Parsers, events: seq<I.Event>)
    ensures WaitsWithRoot(I.Run(ps, events))
    decreases |events|
  {
    if events != [] {
      var s, e := I.Run(ps, events[..|events| - 1]), events[|events| - 1];
      RunWaitsWithRoot(ps, events[..|events| - 1]);
      I.RunConsistent(ps, events[..|events| - 1]);
      match e
      case Ingested(a) => ProcessKeepsWaiting(s, ps, a);
      case FetchRequested(id, subject, now) => FetchKeepsWaiting(s, id, subject, now);
      case RerunRequested(id) => RerunKeepsWaiting(s, id);
      case Restarted | ReviewCreated(_, _) | ReviewSet(_, _) => ReviewStepKeepsWaiting(s, ps, e);
      case _ => StatusStepKeepsWaiting(s, ps, e);
    }
  }

  /** After every history what was fetched or submitted is in the thread of the patchset still waiting for it. */
  lemma FetchMeetsPlaceholder(ps: P.Parsers, events: seq<I.Event>, a: I.Article, i: PatchsetId)
    requires WasIngested(events, a) && IsFetched(a) && i in I.Run(ps, events).patchsets
    requires I.Run(ps, events).patchsets[i].author.None?
    requires I.Run(ps, events).patchsets[i].cover == Some(Synthetic(a.articleId))
    ensures a.messageId in I.Run(ps, events).messages
    ensures I.Run(ps, events).patchsets[i].thread == I.Run(ps, events).messages[a.messageId].thread
  {
    RunWaitsWithRoot(ps, events);
    FetchSharesThread(ps, events, a, a);
  }
}

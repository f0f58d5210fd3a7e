/**
 The rows of the ingestion database and the consistency of its tables. A nullable column is an
 `Option`; a link table with a two-column primary key is a set of pairs.
 */
module Tables {
  import opened Prelude

  type MessageId = string
  type ThreadId = nat
  type PatchsetId = nat
  type PatchId = nat
  type ReviewId = nat
  type SubsystemId = nat

  /** The columns of a message row other than its key and its thread. */
  datatype Content = Content(inReplyTo: Option<MessageId>, author: string, subject: string, date: int)

  datatype Message = Message(thread: ThreadId, content: Content)

  const PLACEHOLDER := "(placeholder)"

  /** What is stored for a message that has been referred to but not yet received. */
  function PlaceholderContent(date: int): Content {
    Content(None, "unknown", PLACEHOLDER, date)
  }

  datatype Status =
    | Fetching | Incomplete | Pending | InReview | Reviewed | Failed | FailedToApply | Cancelled

  /** A patchset created before its patches were fetched has no author and no part counts yet. */
  datatype Patchset = Patchset(
    thread: ThreadId,
    cover: Option<MessageId>,
    subject: string,
    subjectIndex: nat,
    author: Option<string>,
    date: int,
    total: Option<nat>,
    received: Option<nat>,
    status: Status,
    targetReviews: nat)

  datatype Patch = Patch(patchset: PatchsetId, messageId: MessageId, partIndex: nat, diff: string)

  datatype ReviewStatus = RPending | RInReview | RReviewed | RFailed | RSkipped

  datatype Review = Review(patchset: PatchsetId, patch: Option<PatchId>, status: ReviewStatus)

  /** A snapshot of all tables. `threads` maps a thread to the message it was opened for. */
  datatype Store = Store(
    messages: map<MessageId, Message>,
    threads: map<ThreadId, MessageId>,
    threadSubsystems: set<(ThreadId, SubsystemId)>,
    patchsets: map<PatchsetId, Patchset>,
    patches: map<PatchId, Patch>,
    reviews: map<ReviewId, Review>,
    patchsetSubsystems: set<(PatchsetId, SubsystemId)>)

  const EMPTY := Store(map[], map[], {}, map[], map[], map[], {})

  /** The rows of `patches` that belong to a patchset: what COUNT(*) ranges over. */
  function PatchesOf(patches: map<PatchId, Patch>, id: PatchsetId): set<PatchId> {
    set p | p in patches && patches[p].patchset == id
  }

  /** Every reference to a thread names a live thread, and a live thread holds the message it was opened for. */
  ghost predicate ThreadsConsistent(s: Store) {
    && (forall m :: m in s.messages ==> s.messages[m].thread in s.threads)
    && (forall p :: p in s.patchsets ==> s.patchsets[p].thread in s.threads)
    && (forall l :: l in s.threadSubsystems ==> l.0 in s.threads)
    && (forall t :: t in s.threads ==>
                      s.threads[t] in s.messages && s.messages[s.threads[t]].thread == t)
  }

  /** Every patch, review and subsystem link names a live patchset, and a message carries one patch. */
  ghost predicate PatchsetsConsistent(s: Store) {
    && (forall p :: p in s.patches ==> s.patches[p].patchset in s.patchsets)
    && (forall r :: r in s.reviews ==> s.reviews[r].patchset in s.patchsets)
    && (forall l :: l in s.patchsetSubsystems ==> l.0 in s.patchsets)
    && (forall p, q :: p in s.patches && q in s.patches && s.patches[p].messageId == s.patches[q].messageId
                       ==> p == q)
  }

  /** `received_parts` (NULL read as 0) is the number of patch rows of the patchset. */
  ghost predicate CountsExact(s: Store) {
    forall id :: id in s.patchsets ==> s.patchsets[id].received.GetOr(0) == |PatchesOf(s.patches, id)|
  }

  /** SQL's `received_parts >= total_parts`, which is not true when either side is NULL. */
  predicate Full(p: Patchset) {
    p.received.Some? && p.total.Some? && p.received.value >= p.total.value
  }

  /** A full patchset is never left waiting for parts. */
  ghost predicate NoneStuck(s: Store) {
    forall id :: id in s.patchsets && s.patchsets[id].status == Incomplete ==> !Full(s.patchsets[id])
  }

  ghost predicate Consistent(s: Store) {
    ThreadsConsistent(s) && PatchsetsConsistent(s) && CountsExact(s)
  }
}

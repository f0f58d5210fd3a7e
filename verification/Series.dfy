/**
 A whole series, mail by mail: whatever the order of arrival, and with repeats, the mails of one git send-email run
 end in one patchset, and so do the patches of one fetch; when all are there it is complete and ready for review.
 */
module Series {
  import opened Prelude
  import opened Tables
  import opened Matching
  import Threads
  import P = Patchsets
  import I = Ingestion

  /** The articles of a series by their index; a cover letter has index 0. */
  type Articles = map<nat, I.Article>

  // ---------------------------------------------------------------- a series in one patchset

  /** A patch or a cover letter, by mail or fetched, with its place in a series of n. */
  ghost predicate IsMember(a: I.Article, n: nat, k: nat) {
    && k <= n && a.index == k && a.total == n && !a.group.GitImport? && a.isPatchOrCover && !a.ignoredAuthor
    && (if k == 0 then a.patch.None?
        else a.patch.Some? && a.patch.value.messageId == a.messageId && a.patch.value.partIndex == k)
  }

  ghost predicate OwnMessages(arts: Articles) {
    forall j, k {:trigger arts[j].messageId, arts[k].messageId} ::
      j in arts && k in arts && arts[j].messageId == arts[k].messageId ==> j == k
  }

  /** The articles are patches and perhaps a cover letter of a series of n parts, each with a message of its own. */
  ghost predicate IsSeries(arts: Articles, n: nat) {
    n >= 1 && (forall k :: k in arts ==> IsMember(arts[k], n, k)) && OwnMessages(arts)
  }

  /** The indices of the patches among those seen. */
  function PartsSeen(seen: set<nat>): set<nat> {
    seen - {0}
  }

  /** The patch row of the part with index k. */
  function RowOf(arts: Articles, i: PatchsetId, k: nat): Patch {
    if k in arts && arts[k].patch.Some?
    then Patch(i, arts[k].messageId, k, arts[k].patch.value.diff)
    else Patch(i, "", k, "")
  }

  ghost predicate HasPart(patches: map<PatchId, Patch>, arts: Articles, i: PatchsetId, k: nat) {
    exists p :: p in patches && patches[p] == RowOf(arts, i, k)
  }

  /** The patches of the patchset are parts that were seen. */
  ghost predicate OnlyParts(patches: map<PatchId, Patch>, arts: Articles, i: PatchsetId, parts: set<nat>) {
    forall p :: p in patches && patches[p].patchset == i ==>
      patches[p].partIndex in parts && patches[p] == RowOf(arts, i, patches[p].partIndex)
  }

  ghost predicate AllHeld(patches: map<PatchId, Patch>, arts: Articles, i: PatchsetId, parts: set<nat>) {
    forall k :: k in parts ==> HasPart(patches, arts, i, k)
  }

  /** No other patchset has a patch of the series. */
  ghost predicate NoneElsewhere(patches: map<PatchId, Patch>, arts: Articles, i: PatchsetId) {
    forall p, k :: p in patches && k in arts && patches[p].messageId == arts[k].messageId ==> patches[p].patchset == i
  }

  /** The patches of the series are the ones seen, each once, and all are in patchset i, which has no others. */
  ghost predicate PatchesHeld(patches: map<PatchId, Patch>, arts: Articles, i: PatchsetId, parts: set<nat>) {
    && |PatchesOf(patches, i)| == |parts|
    && OnlyParts(patches, arts, i, parts) && AllHeld(patches, arts, i, parts) && NoneElsewhere(patches, arts, i)
  }

  /** The patchset's own columns: the length, the subject of the lowest index seen, ready when it is full. */
  ghost predicate RowHeld(row: Patchset, arts: Articles, n: nat, author: string, seen: set<nat>) {
    && (forall k :: k in seen ==> row.subjectIndex <= k)
    && (if seen == {} then
          && row.status == Fetching && row.total.None? && row.received.GetOr(0) < n
          && forall k :: k in arts ==> k < row.subjectIndex
        else
          && row.author == Some(author) && row.total == Some(n)
          && row.subjectIndex in seen && row.subjectIndex in arts
          && row.subject == arts[row.subjectIndex].content.subject
          && row.status == if row.received.GetOr(0) >= n then Pending else Incomplete)
  }

  ghost predicate Held(s: Store, arts: Articles, n: nat, author: string, i: PatchsetId, seen: set<nat>) {
    && IsSeries(arts, n) && seen <= arts.Keys && i in s.patchsets
    && PatchesHeld(s.patches, arts, i, PartsSeen(seen)) && RowHeld(s.patchsets[i], arts, n, author, seen)
  }

  // ---------------------------------------------------------------- one article more

  /** The article is put in patchset i, by either search, and nothing else changes. */
  ghost predicate Takes(s: Store, ps: P.Parsers, a: P.Submission, i: PatchsetId) {
    && i in s.patchsets
    && (P.CoverHit(s, ps, a) == Some(i)
        || (P.Searches(s, ps, a) && P.MatchSet(s, ps, a) == {i}))
  }

  /** What taking a submission of a series does to the row: the lower index gives the subject, the thread aside. */
  ghost predicate TakenRow(row: Patchset, row': Patchset, a: P.Submission) {
    && row'.author == Some(a.author) && row'.total == Some(a.total) && row'.date == row.date
    && row'.targetReviews == row.targetReviews
    && row'.received.GetOr(0) == row.received.GetOr(0)
    && row'.cover == (if a.cover.Some? then a.cover else row.cover)
    && (if a.partIndex < row.subjectIndex then row'.subject == a.subject && row'.subjectIndex == a.partIndex
        else row'.subject == row.subject && row'.subjectIndex == row.subjectIndex)
    && row'.status == (if row.received.GetOr(0) >= a.total && row.status in {Incomplete, Fetching} then Pending
                       else if row.status == Fetching then Incomplete else row.status)
  }

  lemma TakesRow(s: Store, ps: P.Parsers, a: P.Submission, i: PatchsetId)
    requires CountsExact(s) && Takes(s, ps, a, i) && a.total >= 1
    requires a.total >= 2 || s.patchsets[i].total.GetOr(1) == 1
    ensures var (s', r) := P.CreatePatchset(s, ps, a);
            && r == Ok(i) && i in s'.patchsets && s' == s.(patchsets := s.patchsets[i := s'.patchsets[i]])
            && TakenRow(s.patchsets[i], s'.patchsets[i], a)
  {
    if P.CoverHit(s, ps, a) == Some(i) {
      AdoptedIsTaken(s.patchsets[i], a);
    } else {
      P.SearchOutcome(s, ps, a);
      P.AbsorbOne(s, a, i);
      assert Lowest({i}) == i;
      AbsorbedIsTaken(s.patchsets[i], a, |PatchesOf(s.patches, i)|);
    }
  }

  lemma AdoptedIsTaken(row: Patchset, a: P.Submission)
    requires a.total >= 2 || (a.total == 1 && row.total.GetOr(1) == 1)
    ensures TakenRow(row, P.Adopted(row, a), a)
  {
  }

  lemma AbsorbedIsTaken(row: Patchset, a: P.Submission, received: nat)
    requires row.received.GetOr(0) == received && a.total >= 1
    ensures TakenRow(row, P.Absorbed(row, a, a.partIndex < row.subjectIndex, received), a)
  {
  }

  /** The indices of all parts of a series of n. */
  function AllParts(n: nat): (parts: set<nat>)
    ensures forall k :: k in parts <==> 1 <= k <= n
    ensures |parts| == n
  {
    if n == 0 then {} else AllParts(n - 1) + {n}
  }

  lemma PartsBounded(n: nat, parts: set<nat>)
    requires forall k :: k in parts ==> 1 <= k <= n
    ensures |parts| <= n
    ensures |parts| == n ==> parts == AllParts(n)
  {
    var all := AllParts(n);
    assert all == parts + (all - parts);
    if |parts| == n { SubsetOfSameSize(parts, all); }
  }

  /** The row between the two operations: taken for one more article, its patch not yet counted. */
  ghost predicate RowTaken(row: Patchset, arts: Articles, n: nat, author: string, seen: set<nat>, k: nat) {
    && row.author == Some(author) && row.total == Some(n)
    && row.subjectIndex <= k && (forall j :: j in seen ==> row.subjectIndex <= j)
    && (row.subjectIndex == k || row.subjectIndex in seen)
    && row.subjectIndex in arts && row.subject == arts[row.subjectIndex].content.subject
    && row.status == if row.received.GetOr(0) >= n then Pending else Incomplete
  }

  lemma RowIsTaken(row: Patchset, row': Patchset, a: P.Submission, arts: Articles, n: nat, author: string,
                   seen: set<nat>, k: nat)
    requires k in arts && RowHeld(row, arts, n, author, seen)
    requires a.total == n && a.author == author && a.subject == arts[k].content.subject && a.partIndex == k
    requires TakenRow(row, row', a)
    ensures RowTaken(row', arts, n, author, seen, k)
  {
  }

  /** A part's own patch is the only one its message can have. */
  lemma OwnPatch(patches: map<PatchId, Patch>, arts: Articles, n: nat, i: PatchsetId, parts: set<nat>, k: nat,
                 p: PatchId)
    requires IsSeries(arts, n) && parts <= arts.Keys && PatchesHeld(patches, arts, i, parts) && 0 !in parts
    requires k in arts && p in patches && patches[p].messageId == arts[k].messageId
    ensures k in parts && patches[p] == RowOf(arts, i, k)
  {
    var j := patches[p].partIndex;
    assert patches[p].patchset == i && patches[p] == RowOf(arts, i, j) && j in parts;
    assert arts[j].messageId == arts[k].messageId;
  }

  lemma NewPart(patches: map<PatchId, Patch>, arts: Articles, i: PatchsetId, parts: set<nat>, k: nat, p: PatchId)
    requires PatchesHeld(patches, arts, i, parts) && k !in parts && p !in patches
    ensures PatchesHeld(patches[p := RowOf(arts, i, k)], arts, i, parts + {k})
  {
    NewPartCounts(patches, i, p, RowOf(arts, i, k));
    NewPartOnly(patches, arts, i, parts, k, p);
    NewPartHeld(patches, arts, i, parts, k, p);
    assert NoneElsewhere(patches[p := RowOf(arts, i, k)], arts, i);
  }

  lemma NewPartCounts(patches: map<PatchId, Patch>, i: PatchsetId, p: PatchId, row: Patch)
    requires p !in patches && row.patchset == i
    ensures |PatchesOf(patches[p := row], i)| == |PatchesOf(patches, i)| + 1
  {
    assert PatchesOf(patches[p := row], i) == PatchesOf(patches, i) + {p};
  }

  lemma NewPartOnly(patches: map<PatchId, Patch>, arts: Articles, i: PatchsetId, parts: set<nat>, k: nat, p: PatchId)
    requires OnlyParts(patches, arts, i, parts)
    ensures OnlyParts(patches[p := RowOf(arts, i, k)], arts, i, parts + {k})
  {
  }

  lemma NewPartHeld(patches: map<PatchId, Patch>, arts: Articles, i: PatchsetId, parts: set<nat>, k: nat, p: PatchId)
    requires AllHeld(patches, arts, i, parts) && p !in patches
    ensures AllHeld(patches[p := RowOf(arts, i, k)], arts, i, parts + {k})
  {
    var after := patches[p := RowOf(arts, i, k)];
    forall j | j in parts + {k} ensures HasPart(after, arts, i, j) {
      if j == k {
        assert after[p] == RowOf(arts, i, k);
      } else {
        assert HasPart(patches, arts, i, j);
        var q :| q in patches && patches[q] == RowOf(arts, i, j);
        assert after[q] == RowOf(arts, i, j);
      }
    }
  }

  /** Other patchsets and their patches are as they were. */
  ghost predicate OnlyTouches(s: Store, s': Store, i: PatchsetId) {
    && s'.messages == s.messages && s'.patchsets.Keys == s.patchsets.Keys + {i}
    && (forall j :: j in s.patchsets && j != i ==> s'.patchsets[j] == s.patchsets[j])
    && (forall p :: p in s.patches && s.patches[p].patchset != i ==> p in s'.patches && s'.patches[p] == s.patches[p])
  }

  ghost predicate SameOrigin(row: Patchset, row': Patchset) {
    row'.cover == row.cover && row'.date == row.date && row'.targetReviews == row.targetReviews
  }

  /** The date stays, and the cover letter is the one the article names, if it names one. */
  ghost predicate FollowsOrigin(row: Patchset, row': Patchset, a: I.Article) {
    && row'.cover == (if I.Cover(a).Some? then I.Cover(a) else row.cover)
    && row'.date == row.date && row'.targetReviews == row.targetReviews
  }

  /** Storing a patch whose message has none elsewhere, at an index that is free. */
  lemma StoredPatch(s: Store, i: PatchsetId, m: MessageId, k: nat, diff: string)
    requires i in s.patchsets && !P.IndexTaken(s.patches, i, k, m)
    requires forall p :: p in s.patches && s.patches[p].messageId == m ==> s.patches[p].patchset == i
    ensures var (s', p) := (P.CreatePatch(s, i, m, k, diff).0, P.PatchRow(s, m));
            && s'.patches == s.patches[p := Patch(i, m, k, diff)]
            && s' == s.(patches := s'.patches, patchsets := s.patchsets[i :=
                       P.PromoteIfFull(s.patchsets[i].(received := Some(|PatchesOf(s'.patches, i)|)))])
            && OnlyTouches(s, s', i)
  {
  }

  lemma IndexFree(patches: map<PatchId, Patch>, arts: Articles, i: PatchsetId, parts: set<nat>, k: nat)
    requires OnlyParts(patches, arts, i, parts) && parts <= arts.Keys && k in arts && arts[k].patch.Some?
    ensures !P.IndexTaken(patches, i, k, arts[k].messageId)
  {
  }

  /** The patches after a part was stored in the row given to its message. */
  lemma PartAdded(patches: map<PatchId, Patch>, arts: Articles, n: nat, i: PatchsetId, parts: set<nat>, k: nat,
                  p: PatchId)
    requires IsSeries(arts, n) && parts <= arts.Keys && 0 !in parts && k in arts && k > 0
    requires PatchesHeld(patches, arts, i, parts)
    requires if p in patches then patches[p].messageId == arts[k].messageId
             else forall q :: q in patches ==> patches[q].messageId != arts[k].messageId
    ensures PatchesHeld(patches[p := RowOf(arts, i, k)], arts, i, parts + {k})
  {
    if p in patches {
      OwnPatch(patches, arts, n, i, parts, k, p);
      assert patches[p := RowOf(arts, i, k)] == patches && parts + {k} == parts;
    } else {
      assert k in parts ==> HasPart(patches, arts, i, k);
      NewPart(patches, arts, i, parts, k, p);
    }
  }

  lemma RowCounted(row: Patchset, arts: Articles, n: nat, author: string, seen: set<nat>, k: nat, count: nat)
    requires RowTaken(row, arts, n, author, seen, k) && row.received.GetOr(0) <= count
    ensures RowHeld(P.PromoteIfFull(row.(received := Some(count))), arts, n, author, seen + {k})
  {
    assert k in seen + {k};
  }

  /** Storing the patch of an article just taken completes the step, whether the part is new or comes again. */
  lemma PartStored(s: Store, arts: Articles, n: nat, author: string, i: PatchsetId, seen: set<nat>, k: nat)
    requires IsSeries(arts, n) && seen <= arts.Keys && k in arts && i in s.patchsets
    requires PatchesHeld(s.patches, arts, i, PartsSeen(seen)) && RowTaken(s.patchsets[i], arts, n, author, seen, k)
    requires s.patchsets[i].received.GetOr(0) <= |PartsSeen(seen)|
    ensures Held(I.StorePart(s, i, arts[k].patch), arts, n, author, i, seen + {k})
    ensures OnlyTouches(s, I.StorePart(s, i, arts[k].patch), i)
    ensures SameOrigin(s.patchsets[i], I.StorePart(s, i, arts[k].patch).patchsets[i])
  {
    if k == 0 {
      assert IsMember(arts[k], n, k);
      CoverStored(s, arts, n, author, i, seen);
    } else {
      PartsGrow(seen, k);
      PatchStored(s, arts, n, i, seen, k);
      RowCounted(s.patchsets[i], arts, n, author, seen, k, |PartsSeen(seen + {k})|);
      assert seen + {k} <= arts.Keys;
    }
  }

  lemma CoverStored(s: Store, arts: Articles, n: nat, author: string, i: PatchsetId, seen: set<nat>)
    requires IsSeries(arts, n) && seen <= arts.Keys && 0 in arts && i in s.patchsets
    requires PatchesHeld(s.patches, arts, i, PartsSeen(seen)) && RowTaken(s.patchsets[i], arts, n, author, seen, 0)
    ensures Held(s, arts, n, author, i, seen + {0}) && OnlyTouches(s, s, i)
  {
    assert PartsSeen(seen + {0}) == PartsSeen(seen);
  }

  lemma PartsGrow(seen: set<nat>, k: nat)
    requires k > 0
    ensures PartsSeen(seen + {k}) == PartsSeen(seen) + {k}
    ensures |PartsSeen(seen)| <= |PartsSeen(seen + {k})|
  {
    assert PartsSeen(seen + {k}) == PartsSeen(seen) + {k};
    if k in seen { assert PartsSeen(seen) + {k} == PartsSeen(seen); }
  }

  lemma PatchStored(s: Store, arts: Articles, n: nat, i: PatchsetId, seen: set<nat>, k: nat)
    requires IsSeries(arts, n) && seen <= arts.Keys && k in arts && k > 0 && i in s.patchsets
    requires PatchesHeld(s.patches, arts, i, PartsSeen(seen))
    ensures var s' := I.StorePart(s, i, arts[k].patch);
            && PatchesHeld(s'.patches, arts, i, PartsSeen(seen + {k}))
            && i in s'.patchsets
            && s'.patchsets[i] == P.PromoteIfFull(s.patchsets[i].(received := Some(|PartsSeen(seen + {k})|)))
            && OnlyTouches(s, s', i)
  {
    var m, diff := arts[k].messageId, arts[k].patch.value.diff;
    IndexFree(s.patches, arts, i, PartsSeen(seen), k);
    StoredPatch(s, i, m, k, diff);
    PartsGrow(seen, k);
    PartAdded(s.patches, arts, n, i, PartsSeen(seen), k, P.PatchRow(s, m));
  }

  lemma MemberSubmission(a: I.Article, n: nat, k: nat, t: ThreadId)
    requires IsMember(a, n, k)
    ensures var sub := I.SubmissionOf(a, t);
            && sub.total == n && sub.partIndex == k && sub.strictAuthor && sub.thread == t
            && sub.author == a.content.author && sub.subject == a.content.subject && sub.date == a.content.date
            && sub.messageId == a.messageId && sub.version == a.version && sub.cover == I.Cover(a)
  {
  }

  /** Storing the article once its patchset is found. */
  lemma AssembledIsHeld(s: Store, ps: P.Parsers, s1: Store, arts: Articles, n: nat, author: string, i: PatchsetId,
                        seen: set<nat>, k: nat)
    requires IsSeries(arts, n) && seen <= arts.Keys && k in arts && arts[k].messageId in s.messages
    requires P.CreatePatchset(s, ps, I.SubmissionOf(arts[k], s.messages[arts[k].messageId].thread)) == (s1, Ok(i))
    requires i in s1.patchsets && s1 == s.(patchsets := s.patchsets[i := s1.patchsets[i]])
    requires PatchesHeld(s.patches, arts, i, PartsSeen(seen)) && RowTaken(s1.patchsets[i], arts, n, author, seen, k)
    requires s1.patchsets[i].received.GetOr(0) <= |PartsSeen(seen)|
    ensures Held(I.Assemble(s, ps, arts[k]), arts, n, author, i, seen + {k})
    ensures OnlyTouches(s, I.Assemble(s, ps, arts[k]), i)
    ensures SameOrigin(s1.patchsets[i], I.Assemble(s, ps, arts[k]).patchsets[i])
  {
    var s2 := I.LinkPatchset(s1, i, arts[k].subsystems);
    PartStored(s2, arts, n, author, i, seen, k);
    TouchesToo(s, s2, I.StorePart(s2, i, arts[k].patch), i);
  }

  lemma TouchesToo(s: Store, s2: Store, s': Store, i: PatchsetId)
    requires OnlyTouches(s2, s', i) && s2.messages == s.messages && s2.patches == s.patches
    requires i in s2.patchsets && s2.patchsets == s.patchsets[i := s2.patchsets[i]]
    ensures OnlyTouches(s, s', i)
  {
  }

  /** An article of the series that patchset i takes is held there afterwards, with all that was held before. */
  lemma TakenIsHeld(s: Store, ps: P.Parsers, arts: Articles, n: nat, author: string, i: PatchsetId, seen: set<nat>,
                    k: nat)
    requires CountsExact(s) && Held(s, arts, n, author, i, seen) && k in arts && arts[k].content.author == author
    requires arts[k].messageId in s.messages
    requires Takes(s, ps, I.SubmissionOf(arts[k], s.messages[arts[k].messageId].thread), i)
    ensures Held(I.Assemble(s, ps, arts[k]), arts, n, author, i, seen + {k})
    ensures OnlyTouches(s, I.Assemble(s, ps, arts[k]), i)
    ensures FollowsOrigin(s.patchsets[i], I.Assemble(s, ps, arts[k]).patchsets[i], arts[k])
  {
    var t := s.messages[arts[k].messageId].thread;
    var sub := I.SubmissionOf(arts[k], t);
    MemberSubmission(arts[k], n, k, t);
    TakesRow(s, ps, sub, i);
    var s1 := P.CreatePatchset(s, ps, sub).0;
    RowIsTaken(s.patchsets[i], s1.patchsets[i], sub, arts, n, author, seen, k);
    AssembledIsHeld(s, ps, s1, arts, n, author, i, seen, k);
  }

  /** An article of the series that opens a patchset is held there afterwards. */
  lemma OpenedIsHeld(s: Store, ps: P.Parsers, arts: Articles, n: nat, author: string, k: nat)
    requires Consistent(s) && IsSeries(arts, n) && k in arts && arts[k].content.author == author
    requires forall p, j :: p in s.patches && j in arts ==> s.patches[p].messageId != arts[j].messageId
    requires arts[k].messageId in s.messages
    requires P.OpensNew(s, ps, I.SubmissionOf(arts[k], s.messages[arts[k].messageId].thread))
    ensures var i := NextRowId(s.patchsets.Keys);
            && Held(I.Assemble(s, ps, arts[k]), arts, n, author, i, {k})
            && OnlyTouches(s, I.Assemble(s, ps, arts[k]), i)
            && I.Assemble(s, ps, arts[k]).patchsets[i].cover == I.Cover(arts[k])
            && I.Assemble(s, ps, arts[k]).patchsets[i].date == arts[k].content.date
            && I.Assemble(s, ps, arts[k]).patchsets[i].targetReviews == 1
  {
    var t, i := s.messages[arts[k].messageId].thread, NextRowId(s.patchsets.Keys);
    var sub := I.SubmissionOf(arts[k], t);
    MemberSubmission(arts[k], n, k, t);
    I.NewRowTakesPatch(s, ps, sub);
    NothingHeld(s.patches, arts, i);
    FirstRow(sub, arts, n, author, k);
    assert PartsSeen({}) == {} && {} + {k} == {k};
    AssembledIsHeld(s, ps, P.CreatePatchset(s, ps, sub).0, arts, n, author, i, {}, k);
  }

  lemma NothingHeld(patches: map<PatchId, Patch>, arts: Articles, i: PatchsetId)
    requires PatchesOf(patches, i) == {}
    requires forall p, j :: p in patches && j in arts ==> patches[p].messageId != arts[j].messageId
    ensures PatchesHeld(patches, arts, i, {})
  {
    forall p | p in patches ensures patches[p].patchset != i { assert p !in PatchesOf(patches, i); }
  }

  lemma FirstRow(a: P.Submission, arts: Articles, n: nat, author: string, k: nat)
    requires k in arts && a.author == author && a.total == n && a.partIndex == k && n > 0
    requires a.subject == arts[k].content.subject
    ensures RowTaken(P.Inserted(a), arts, n, author, {}, k)
  {
  }

  // ---------------------------------------------------------------- the threads do not matter

  /** The same rows but for the thread they are in. */
  ghost predicate SameButThreads(s: Store, s1: Store) {
    && s1.patches == s.patches && s1.patchsets.Keys == s.patchsets.Keys
    && forall i :: i in s.patchsets ==> s1.patchsets[i] == s.patchsets[i].(thread := s1.patchsets[i].thread)
  }

  lemma HeldDespiteThreads(s: Store, s1: Store, arts: Articles, n: nat, author: string, i: PatchsetId, seen: set<nat>)
    requires SameButThreads(s, s1) && Held(s, arts, n, author, i, seen)
    ensures Held(s1, arts, n, author, i, seen)
  {
  }

  /** The patchsets there were before are as they were, but for the thread they are in; i may be new. */
  ghost predicate OthersKept(s: Store, s': Store, i: PatchsetId) {
    && s'.patchsets.Keys == s.patchsets.Keys + {i}
    && forall j :: j in s.patchsets && j != i ==> s'.patchsets[j] == s.patchsets[j].(thread := s'.patchsets[j].thread)
  }

  lemma OthersKeptTrans(s: Store, s1: Store, s': Store, i: PatchsetId)
    requires OthersKept(s, s1, i) && OthersKept(s1, s', i)
    ensures OthersKept(s, s', i)
  {
  }

  // ---------------------------------------------------------------- articles arriving

  /** What one article does: its thread is resolved, and then its patchset and part are dealt with. */
  lemma Processed(s: Store, ps: P.Parsers, arts: Articles, n: nat, k: nat) returns (s1: Store)
    requires Consistent(s) && IsSeries(arts, n) && k in arts
    ensures Consistent(s1) && SameButThreads(s, s1) && arts[k].messageId in s1.messages
    ensures I.Process(s, ps, arts[k]) == I.Assemble(s1, ps, arts[k])
    ensures Consistent(I.Process(s, ps, arts[k]))
  {
    var a := arts[k];
    assert IsMember(a, n, k);
    s1 := Threads.Resolve(s, a.messageId, I.Anchor(a), a.content, a.subsystems);
    Threads.ResolveKeeps(s, a.messageId, I.Anchor(a), a.content, a.subsystems);
    Threads.ResolveKeepsRows(s, a.messageId, I.Anchor(a), a.content, a.subsystems);
    Threads.ResolveMessages(s, a.messageId, I.Anchor(a), a.content, a.subsystems);
    I.ProcessKeeps(s, ps, a);
  }

  /** The mails arriving in a given order, which may name one more than once. */
  function Arrivals(arts: Articles, order: seq<nat>): seq<I.Event>
    requires forall j :: 0 <= j < |order| ==> order[j] in arts
  {
    seq(|order|, j requires 0 <= j < |order| => I.Ingested(arts[order[j]]))
  }

  function Seen(order: seq<nat>): set<nat> {
    set k | k in order
  }

  lemma LastArrival(before: seq<I.Event>, arts: Articles, order: seq<nat>)
    requires (forall j :: 0 <= j < |order| ==> order[j] in arts) && order != []
    ensures var init, k := order[..|order| - 1], order[|order| - 1];
            && before + Arrivals(arts, order) == before + Arrivals(arts, init) + [I.Ingested(arts[k])]
            && Seen(order) == Seen(init) + {k}
  {
    assert order == order[..|order| - 1] + [order[|order| - 1]];
  }

  lemma OneMore(ps: P.Parsers, events: seq<I.Event>, a: I.Article)
    ensures I.Run(ps, events + [I.Ingested(a)]) == I.Process(I.Run(ps, events), ps, a)
  {
    var all := events + [I.Ingested(a)];
    assert all[..|all| - 1] == events;
  }

  // ---------------------------------------------------------------- when all have come

  lemma AllPartsSeen(arts: Articles, n: nat, seen: set<nat>)
    requires IsSeries(arts, n) && seen <= arts.Keys && forall k :: 1 <= k <= n ==> k in seen
    ensures |PartsSeen(seen)| == n
  {
    forall k | k in PartsSeen(seen) ensures k in AllParts(n) { assert IsMember(arts[k], n, k); }
    assert PartsSeen(seen) == AllParts(n);
  }

  lemma PartOnce(s: Store, arts: Articles, n: nat, author: string, i: PatchsetId, seen: set<nat>, k: nat)
    requires PatchsetsConsistent(s) && Held(s, arts, n, author, i, seen) && k in PartsSeen(seen)
    ensures P.HoldsPartOnce(s.patches, i, k) && HasPart(s.patches, arts, i, k)
  {
    assert HasPart(s.patches, arts, i, k);
    var p :| p in s.patches && s.patches[p] == RowOf(arts, i, k);
    assert P.IsPart(s.patches, i, k, p);
    forall q | P.IsPart(s.patches, i, k, q) ensures q == p {
      assert s.patches[q] == RowOf(arts, i, k);
    }
  }

  lemma PartsOnce(s: Store, arts: Articles, n: nat, author: string, i: PatchsetId, seen: set<nat>)
    requires PatchsetsConsistent(s) && Held(s, arts, n, author, i, seen) && forall k :: 1 <= k <= n ==> k in seen
    ensures forall k :: 1 <= k <= n ==> P.HoldsPartOnce(s.patches, i, k) && HasPart(s.patches, arts, i, k)
  {
    forall k | 1 <= k <= n ensures P.HoldsPartOnce(s.patches, i, k) && HasPart(s.patches, arts, i, k) {
      PartOnce(s, arts, n, author, i, seen, k);
    }
  }

  /** The patchset is ready for review: the announced length, each part once, and the subject of the first article. */
  ghost predicate Ready(s: Store, arts: Articles, n: nat, author: string, cover: MessageId, first: nat,
                        i: PatchsetId)
  {
    && i in s.patchsets && first in arts
    && var row := s.patchsets[i];
       && row.status == Pending && row.total == Some(n) && row.received == Some(n)
       && row.cover == Some(cover) && row.author == Some(author) && row.targetReviews == 1
       && row.subject == arts[first].content.subject && row.subjectIndex == first
       && forall k :: 1 <= k <= n ==> P.HoldsPartOnce(s.patches, i, k) && HasPart(s.patches, arts, i, k)
  }

  lemma AllSeenReady(s: Store, arts: Articles, n: nat, author: string, cover: MessageId, first: nat, i: PatchsetId,
                     seen: set<nat>)
    requires PatchsetsConsistent(s) && CountsExact(s) && Held(s, arts, n, author, i, seen)
    requires s.patchsets[i].cover == Some(cover) && s.patchsets[i].targetReviews == 1
    requires (forall k :: 1 <= k <= n ==> k in seen) && first in seen && forall k :: k in seen ==> first <= k
    ensures Ready(s, arts, n, author, cover, first, i)
  {
    AllPartsSeen(arts, n, seen);
    PartsOnce(s, arts, n, author, i, seen);
  }
}

/**
 The mails of one git send-email run, whatever their order of arrival and however often each comes: they end in one
 patchset, threaded under their cover letter or not, and with all parts there it is ready under the right subject.
 */
module MailRuns {
  import opened Prelude
  import opened Tables
  import opened Matching
  import opened Series
  import Threads
  import P = Patchsets
  import I = Ingestion

  /**
   One run: its mails by index, their number of parts, the prefix of their message ids, the message the parts answer
   if they answer one, and what all of them share: author, version, the tags of the subject, and one day.
   */
  datatype SendRun = SendRun(mails: Articles, parts: nat, prefix: string, cover: MessageId,
                             author: string, version: nat, tags: seq<string>, start: int)

  ghost predicate IsMailOf(ps: P.Parsers, r: SendRun, a: I.Article) {
    && a.group == I.MailingList && SentBy(a.messageId, r.prefix) && a.content.author == r.author
    && a.version.GetOr(1) == r.version && ps.version(a.content.subject).GetOr(1) == r.version
    && ps.prefixes(a.content.subject) == r.tags
    && r.start <= a.content.date < r.start + P.DAY
    && (if a.index == 0 then a.messageId == r.cover
        else a.content.inReplyTo.None? || a.content.inReplyTo == Some(r.cover))
  }

  ghost predicate Valid(ps: P.Parsers, r: SendRun) {
    && r.parts >= 2 && IsSeries(r.mails, r.parts) && IsRunPrefix(r.prefix) && SentBy(r.cover, r.prefix)
    && forall k :: k in r.mails ==> IsMailOf(ps, r, r.mails[k])
  }

  // ---------------------------------------------------------------- what the run does not concern

  /** A patchset that has its cover letter and all its parts. */
  predicate IsComplete(row: Patchset) {
    row.cover.Some? && row.subjectIndex == 0 && row.received.GetOr(0) >= row.total.GetOr(1)
  }

  /**
   A patchset of another sender, of another day, of another length, or already complete; and not one that was
   announced under the name of one of the run's mails.
   */
  ghost predicate Foreign(ps: P.Parsers, r: SendRun, row: Patchset) {
    && row.author.Some?
    && (|| ps.email(row.author.value) != ps.email(r.author)
        || row.date <= r.start - P.DAY || row.date >= r.start + 2 * P.DAY
        || !LengthsAgree(r.parts, row.total.GetOr(1))
        || IsComplete(row))
    && row.cover != Some(r.cover)
    && forall k :: k in r.mails ==>
         row.cover != Some(r.mails[k].messageId) && row.cover != Some(r.mails[k].messageId + "@sashiko.local")
  }

  ghost predicate OthersForeign(s: Store, ps: P.Parsers, r: SendRun, own: set<PatchsetId>) {
    forall j :: j in s.patchsets && j !in own ==> Foreign(ps, r, s.patchsets[j])
  }

  /** Nothing of the run has been seen, and no patchset of the store concerns it. */
  ghost predicate Apart(s: Store, ps: P.Parsers, r: SendRun) {
    && OthersForeign(s, ps, r, {})
    && forall p, k :: p in s.patches && k in r.mails ==> s.patches[p].messageId != r.mails[k].messageId
  }

  /** The mails seen are held in patchset i, under the run's cover letter if one of them names it. */
  ghost predicate RunHeld(s: Store, ps: P.Parsers, r: SendRun, i: PatchsetId, seen: set<nat>) {
    && Consistent(s) && seen != {} && Held(s, r.mails, r.parts, r.author, i, seen)
    && s.patchsets[i].cover in {None, Some(r.cover)} && (0 in seen ==> s.patchsets[i].cover == Some(r.cover))
    && r.start <= s.patchsets[i].date < r.start + P.DAY && s.patchsets[i].targetReviews == 1
    && OthersForeign(s, ps, r, {i})
  }

  // ---------------------------------------------------------------- one mail

  lemma ForeignNoMatch(s: Store, ps: P.Parsers, r: SendRun, k: nat, t: ThreadId, j: PatchsetId)
    requires Valid(ps, r) && k in r.mails && j in s.patchsets && Foreign(ps, r, s.patchsets[j])
    requires P.Searches(s, ps, I.SubmissionOf(r.mails[k], t))
    requires forall p :: p in s.patches && s.patches[p].messageId == r.mails[k].messageId ==> s.patches[p].patchset != j
    ensures j !in P.MatchSet(s, ps, I.SubmissionOf(r.mails[k], t))
  {
    MemberSubmission(r.mails[k], r.parts, k, t);
    var sub := I.SubmissionOf(r.mails[k], t);
    if j in P.MatchSet(s, ps, sub) {
      JoinedMeetsRules(s, ps, sub, j);
      assert IsMailOf(ps, r, r.mails[k]);
    }
  }

  /** A mail of the run is found under its cover letter only where it belongs. */
  lemma HitIsOwn(s: Store, ps: P.Parsers, r: SendRun, k: nat, t: ThreadId, own: set<PatchsetId>)
    requires Valid(ps, r) && k in r.mails && OthersForeign(s, ps, r, own)
    ensures var hit := P.CoverHit(s, ps, I.SubmissionOf(r.mails[k], t));
            hit.Some? ==> hit.value in own
  {
    MemberSubmission(r.mails[k], r.parts, k, t);
    var sub := I.SubmissionOf(r.mails[k], t);
    assert IsMailOf(ps, r, r.mails[k]);
    assert sub.cover.Some? ==> sub.cover == Some(r.cover);
    forall c | c == r.cover || c == sub.messageId + P.LOCAL_SUFFIX
      ensures P.ByCover(s, ps, sub, c) <= own
    {
      forall j | j in P.ByCover(s, ps, sub, c) ensures j in own { }
    }
  }

  lemma RunHasRoom(s: Store, ps: P.Parsers, r: SendRun, i: PatchsetId, seen: set<nat>, k: nat, t: ThreadId)
    requires Valid(ps, r) && RunHeld(s, ps, r, i, seen) && k in r.mails
    ensures HasRoom(s, I.SubmissionOf(r.mails[k], t), i)
  {
    MemberSubmission(r.mails[k], r.parts, k, t);
    assert IsMailOf(ps, r, r.mails[k]);
    if k > 0 {
      var parts := PartsSeen(seen);
      forall p | p in PatchesOf(s.patches, i) && s.patches[p].partIndex == k
        ensures s.patches[p].messageId == r.mails[k].messageId
      { }
      if k in parts {
        assert HasPart(s.patches, r.mails, i, k);
        var p :| p in s.patches && s.patches[p] == RowOf(r.mails, i, k);
        assert p in PatchesOf(s.patches, i);
      } else {
        forall j | j in parts ensures 1 <= j <= r.parts { assert IsMember(r.mails[j], r.parts, j); }
        PartsBounded(r.parts, parts);
        assert IsMember(r.mails[k], r.parts, k) && k in AllParts(r.parts);
      }
    }
  }

  lemma RunCameFrom(s: Store, ps: P.Parsers, r: SendRun, i: PatchsetId, seen: set<nat>)
    requires Valid(ps, r) && RunHeld(s, ps, r, i, seen)
    ensures CameFrom(s, i, r.prefix)
  {
    if s.patchsets[i].cover.None? {
      var k :| k in seen;
      assert k in PartsSeen(seen) && HasPart(s.patches, r.mails, i, k);
      var q :| q in s.patches && s.patches[q] == RowOf(r.mails, i, k);
      assert q in PatchesOf(s.patches, i);
      forall p | p in PatchesOf(s.patches, i) ensures SentBy(s.patches[p].messageId, r.prefix) {
        assert s.patches[p].partIndex in PartsSeen(seen);
        assert IsMailOf(ps, r, r.mails[s.patches[p].partIndex]);
      }
    }
  }

  lemma MailRelated(s: Store, ps: P.Parsers, r: SendRun, i: PatchsetId, a: I.Article, t: ThreadId)
    requires i in s.patchsets && CameFrom(s, i, r.prefix) && IsRunPrefix(r.prefix) && IsMailOf(ps, r, a)
    requires s.patchsets[i].author == Some(r.author) && r.start <= s.patchsets[i].date < r.start + P.DAY
    requires ps.version(s.patchsets[i].subject).GetOr(1) == r.version && ps.prefixes(s.patchsets[i].subject) == r.tags
    ensures Related(s, ps, I.SubmissionOf(a, t), i)
  {
    assert IsRunPrefix(r.prefix) && SentBy(I.SubmissionOf(a, t).messageId, r.prefix) && CameFrom(s, i, r.prefix);
  }

  lemma MailBelongs(s: Store, ps: P.Parsers, r: SendRun, i: PatchsetId, seen: set<nat>, k: nat, t: ThreadId)
    requires Valid(ps, r) && RunHeld(s, ps, r, i, seen) && k in r.mails
    ensures Belongs(s, ps, I.SubmissionOf(r.mails[k], t), i)
  {
    MemberSubmission(r.mails[k], r.parts, k, t);
    RunHasRoom(s, ps, r, i, seen, k, t);
    RunCameFrom(s, ps, r, i, seen);
    assert IsMailOf(ps, r, r.mails[k]) && IsMailOf(ps, r, r.mails[s.patchsets[i].subjectIndex]);
    MailRelated(s, ps, r, i, r.mails[k], t);
  }

  /** Every further mail of the run is taken by the patchset that holds the others, and by no other. */
  lemma MailTaken(s: Store, ps: P.Parsers, r: SendRun, i: PatchsetId, seen: set<nat>, k: nat, t: ThreadId)
    requires Valid(ps, r) && RunHeld(s, ps, r, i, seen) && k in r.mails
    ensures Takes(s, ps, I.SubmissionOf(r.mails[k], t), i)
  {
    var sub := I.SubmissionOf(r.mails[k], t);
    HitIsOwn(s, ps, r, k, t, {i});
    if P.CoverHit(s, ps, sub).None? { MailMatched(s, ps, r, i, seen, k, t); }
  }

  lemma MailMatched(s: Store, ps: P.Parsers, r: SendRun, i: PatchsetId, seen: set<nat>, k: nat, t: ThreadId)
    requires Valid(ps, r) && RunHeld(s, ps, r, i, seen) && k in r.mails
    requires P.CoverHit(s, ps, I.SubmissionOf(r.mails[k], t)).None?
    ensures P.Searches(s, ps, I.SubmissionOf(r.mails[k], t))
    ensures P.MatchSet(s, ps, I.SubmissionOf(r.mails[k], t)) == {i}
  {
    var sub := I.SubmissionOf(r.mails[k], t);
    MailBelongs(s, ps, r, i, seen, k, t);
    BelongsMatches(s, ps, sub, i);
    RunSearches(s, ps, r, i, seen, sub);
    OnlyOwnMatches(s, ps, r, i, seen, k, t);
    JustOne(P.MatchSet(s, ps, sub), i);
  }

  lemma OnlyOwnMatches(s: Store, ps: P.Parsers, r: SendRun, i: PatchsetId, seen: set<nat>, k: nat, t: ThreadId)
    requires Valid(ps, r) && RunHeld(s, ps, r, i, seen) && k in r.mails
    requires P.Searches(s, ps, I.SubmissionOf(r.mails[k], t))
    ensures forall j :: j in P.MatchSet(s, ps, I.SubmissionOf(r.mails[k], t)) ==> j == i
  {
    forall j | j in P.MatchSet(s, ps, I.SubmissionOf(r.mails[k], t)) ensures j == i {
      if j != i { OtherNoMatch(s, ps, r, i, seen, k, t, j); }
    }
  }

  lemma JustOne(ids: set<nat>, i: nat)
    requires i in ids && forall j :: j in ids ==> j == i
    ensures ids == {i}
  {
  }

  lemma RunSearches(s: Store, ps: P.Parsers, r: SendRun, i: PatchsetId, seen: set<nat>, sub: P.Submission)
    requires RunHeld(s, ps, r, i, seen) && P.CoverHit(s, ps, sub).None?
    ensures P.Searches(s, ps, sub)
  {
    forall j | j in s.patchsets ensures s.patchsets[j].author.Some? {
      if j != i { assert Foreign(ps, r, s.patchsets[j]); }
    }
  }

  lemma OtherNoMatch(s: Store, ps: P.Parsers, r: SendRun, i: PatchsetId, seen: set<nat>, k: nat, t: ThreadId,
                     j: PatchsetId)
    requires Valid(ps, r) && RunHeld(s, ps, r, i, seen) && k in r.mails && j in s.patchsets && j != i
    requires P.Searches(s, ps, I.SubmissionOf(r.mails[k], t))
    ensures j !in P.MatchSet(s, ps, I.SubmissionOf(r.mails[k], t))
  {
    ForeignNoMatch(s, ps, r, k, t, j);
  }

  lemma MailOpens(s: Store, ps: P.Parsers, r: SendRun, k: nat, t: ThreadId)
    requires Valid(ps, r) && Apart(s, ps, r) && k in r.mails
    ensures P.OpensNew(s, ps, I.SubmissionOf(r.mails[k], t))
  {
    var sub := I.SubmissionOf(r.mails[k], t);
    HitIsOwn(s, ps, r, k, t, {});
    assert P.Searches(s, ps, sub);
    forall j | j in P.MatchSet(s, ps, sub) ensures false { ForeignNoMatch(s, ps, r, k, t, j); }
    assert P.MatchSet(s, ps, sub) == {};
  }

  // ---------------------------------------------------------------- the threads do not matter

  lemma ForeignDespiteThreads(s: Store, s1: Store, ps: P.Parsers, r: SendRun, own: set<PatchsetId>)
    requires SameButThreads(s, s1) && OthersForeign(s, ps, r, own)
    ensures OthersForeign(s1, ps, r, own)
  {
    forall j | j in s1.patchsets && j !in own ensures Foreign(ps, r, s1.patchsets[j]) {
      assert Foreign(ps, r, s.patchsets[j]);
    }
  }

  lemma ThreadsDontMatter(s: Store, s1: Store, ps: P.Parsers, r: SendRun, i: PatchsetId, seen: set<nat>)
    requires SameButThreads(s, s1) && Consistent(s1) && RunHeld(s, ps, r, i, seen)
    ensures RunHeld(s1, ps, r, i, seen)
  {
    ForeignDespiteThreads(s, s1, ps, r, {i});
    HeldDespiteThreads(s, s1, r.mails, r.parts, r.author, i, seen);
  }

  lemma NextMail(s: Store, ps: P.Parsers, r: SendRun, i: PatchsetId, seen: set<nat>, k: nat)
    requires Valid(ps, r) && RunHeld(s, ps, r, i, seen) && k in r.mails
    ensures RunHeld(I.Process(s, ps, r.mails[k]), ps, r, i, seen + {k})
    ensures OthersKept(s, I.Process(s, ps, r.mails[k]), i)
  {
    var s1 := Processed(s, ps, r.mails, r.parts, k);
    ThreadsDontMatter(s, s1, ps, r, i, seen);
    MailTaken(s1, ps, r, i, seen, k, s1.messages[r.mails[k].messageId].thread);
    assert IsMailOf(ps, r, r.mails[k]);
    TakenIsHeld(s1, ps, r.mails, r.parts, r.author, i, seen, k);
    StillHeld(s1, I.Process(s, ps, r.mails[k]), ps, r, i, seen, k);
  }

  lemma StillHeld(s1: Store, s': Store, ps: P.Parsers, r: SendRun, i: PatchsetId, seen: set<nat>, k: nat)
    requires Valid(ps, r) && k in r.mails && Consistent(s') && i in s1.patchsets && OthersForeign(s1, ps, r, {i})
    requires s1.patchsets[i].cover in {None, Some(r.cover)} && (0 in seen ==> s1.patchsets[i].cover == Some(r.cover))
    requires r.start <= s1.patchsets[i].date < r.start + P.DAY && s1.patchsets[i].targetReviews == 1
    requires Held(s', r.mails, r.parts, r.author, i, seen + {k}) && OnlyTouches(s1, s', i)
    requires FollowsOrigin(s1.patchsets[i], s'.patchsets[i], r.mails[k])
    ensures RunHeld(s', ps, r, i, seen + {k})
  {
    assert IsMailOf(ps, r, r.mails[k]) && IsMember(r.mails[k], r.parts, k);
    assert k in seen + {k};
    CoverFollows(r, r.mails[k], s1.patchsets[i], s'.patchsets[i]);
    StillForeign(s1, s', ps, r, i);
  }

  lemma CoverFollows(r: SendRun, a: I.Article, row: Patchset, row': Patchset)
    requires FollowsOrigin(row, row', a) && row.cover in {None, Some(r.cover)}
    requires a.group == I.MailingList && a.total > 1
    requires if a.index == 0 then a.messageId == r.cover
             else a.content.inReplyTo.None? || a.content.inReplyTo == Some(r.cover)
    ensures row'.cover in {None, Some(r.cover)} && row'.date == row.date
    ensures a.index == 0 || row.cover == Some(r.cover) ==> row'.cover == Some(r.cover)
  {
  }

  lemma StillForeign(s1: Store, s': Store, ps: P.Parsers, r: SendRun, i: PatchsetId)
    requires OthersForeign(s1, ps, r, {i}) && OnlyTouches(s1, s', i)
    ensures OthersForeign(s', ps, r, {i})
  {
    forall j | j in s'.patchsets && j !in {i} ensures Foreign(ps, r, s'.patchsets[j]) {
      assert j in s1.patchsets && s'.patchsets[j] == s1.patchsets[j];
    }
  }

  lemma FirstMail(s: Store, ps: P.Parsers, r: SendRun, k: nat)
    requires Consistent(s) && Valid(ps, r) && Apart(s, ps, r) && k in r.mails
    ensures var i := NextRowId(s.patchsets.Keys);
            RunHeld(I.Process(s, ps, r.mails[k]), ps, r, i, {k}) && OthersKept(s, I.Process(s, ps, r.mails[k]), i)
  {
    var i := NextRowId(s.patchsets.Keys);
    var s1 := Processed(s, ps, r.mails, r.parts, k);
    ForeignDespiteThreads(s, s1, ps, r, {});
    MailOpens(s1, ps, r, k, s1.messages[r.mails[k].messageId].thread);
    assert IsMailOf(ps, r, r.mails[k]) && IsMember(r.mails[k], r.parts, k);
    OpenedIsHeld(s1, ps, r.mails, r.parts, r.author, k);
    FirstHeld(s1, I.Process(s, ps, r.mails[k]), ps, r, i, k);
  }

  lemma FirstHeld(s1: Store, s': Store, ps: P.Parsers, r: SendRun, i: PatchsetId, k: nat)
    requires OthersForeign(s1, ps, r, {}) && OnlyTouches(s1, s', i) && Consistent(s') && k in r.mails
    requires Held(s', r.mails, r.parts, r.author, i, {k}) && IsMailOf(ps, r, r.mails[k])
    requires r.mails[k].index == k && r.mails[k].total > 1
    requires s'.patchsets[i].cover == I.Cover(r.mails[k]) && s'.patchsets[i].date == r.mails[k].content.date
    requires s'.patchsets[i].targetReviews == 1
    ensures RunHeld(s', ps, r, i, {k})
  {
    assert OthersForeign(s1, ps, r, {i});
    StillForeign(s1, s', ps, r, i);
  }

  // ---------------------------------------------------------------- any order of arrival

  /**
   After any history whose patchsets the run does not concern, its mails, in any order and with repeats, are held in
   one new patchset, and the other patchsets are as they were.
   */
  lemma {:induction false} RunGathers(ps: P.Parsers, before: seq<I.Event>, r: SendRun, order: seq<nat>)
    requires Valid(ps, r) && Apart(I.Run(ps, before), ps, r) && order != []
    requires forall j :: 0 <= j < |order| ==> order[j] in r.mails
    ensures var (s, s') := (I.Run(ps, before), I.Run(ps, before + Arrivals(r.mails, order)));
            var i := NextRowId(s.patchsets.Keys);
            RunHeld(s', ps, r, i, Seen(order)) && OthersKept(s, s', i)
    decreases |order|
  {
    var init, k := order[..|order| - 1], order[|order| - 1];
    var s := I.Run(ps, before);
    LastArrival(before, r.mails, order);
    OneMore(ps, before + Arrivals(r.mails, init), r.mails[k]);
    if init == [] {
      assert before + Arrivals(r.mails, init) == before && Seen(order) == {k};
      I.RunConsistent(ps, before);
      FirstMail(s, ps, r, k);
    } else {
      RunGathers(ps, before, r, init);
      var i, s1 := NextRowId(s.patchsets.Keys), I.Run(ps, before + Arrivals(r.mails, init));
      NextMail(s1, ps, r, i, Seen(init), k);
      OthersKeptTrans(s, s1, I.Process(s1, ps, r.mails[k]), i);
    }
  }

  /**
   With the cover letter and every part there, whatever the order was, the new patchset is ready for review: it has
   each part once, the announced length, the cover letter and its subject.
   */
  lemma RunIsReady(ps: P.Parsers, before: seq<I.Event>, r: SendRun, order: seq<nat>)
    requires Valid(ps, r) && Apart(I.Run(ps, before), ps, r)
    requires forall j :: 0 <= j < |order| ==> order[j] in r.mails
    requires forall k :: 0 <= k <= r.parts ==> k in order && k in r.mails
    ensures var (s, s') := (I.Run(ps, before), I.Run(ps, before + Arrivals(r.mails, order)));
            var i := NextRowId(s.patchsets.Keys);
            OthersKept(s, s', i) && Ready(s', r.mails, r.parts, r.author, r.cover, 0, i)
  {
    assert 0 in order;
    AllInOrder(r, order);
    RunGathers(ps, before, r, order);
    HeldIsReady(I.Run(ps, before + Arrivals(r.mails, order)), ps, r,
                NextRowId(I.Run(ps, before).patchsets.Keys), Seen(order));
  }

  lemma AllInOrder(r: SendRun, order: seq<nat>)
    requires forall k :: 0 <= k <= r.parts ==> k in order
    ensures forall k :: 0 <= k <= r.parts ==> k in Seen(order)
  {
  }

  lemma HeldIsReady(s: Store, ps: P.Parsers, r: SendRun, i: PatchsetId, seen: set<nat>)
    requires RunHeld(s, ps, r, i, seen) && forall k :: 0 <= k <= r.parts ==> k in seen
    ensures Ready(s, r.mails, r.parts, r.author, r.cover, 0, i)
  {
    assert 0 in seen;
    AllSeenReady(s, r.mails, r.parts, r.author, r.cover, 0, i, seen);
  }

  // ---------------------------------------------------------------- parts that answer one another

  /**
   Why the parts are to answer the cover letter, or nothing: a part that answers another part joins the run as well,
   but the patchset then goes by the answered part for its cover letter.
   */
  lemma DeepAnswerMovesCover(s: Store, ps: P.Parsers, r: SendRun, i: PatchsetId, seen: set<nat>, j: nat, k: nat,
                             t: ThreadId)
    requires Valid(ps, r) && RunHeld(s, ps, r, i, seen) && 0 in seen
    requires j in r.mails && k in r.mails && j > 0 && k > 0 && r.cover != r.mails[j].messageId + "@sashiko.local"
    ensures var a := r.mails[j].(content := r.mails[j].content.(inReplyTo := Some(r.mails[k].messageId)));
            var (s', found) := P.CreatePatchset(s, ps, I.SubmissionOf(a, t));
            && found.Ok? && WentTo(s, s', i, found.value)
            && s'.patchsets[found.value].cover == Some(r.mails[k].messageId) && r.mails[k].messageId != r.cover
  {
    var a := r.mails[j].(content := r.mails[j].content.(inReplyTo := Some(r.mails[k].messageId)));
    var sub := I.SubmissionOf(a, t);
    assert IsMailOf(ps, r, r.mails[j]) && IsMember(r.mails[j], r.parts, j);
    MemberSubmission(a, r.parts, j, t);
    MemberSubmission(r.mails[j], r.parts, j, t);
    MailBelongs(s, ps, r, i, seen, j, t);
    assert Belongs(s, ps, sub, i);
    assert sub.cover == Some(r.mails[k].messageId);
    CoverIsNoPart(ps, r, k);
    DeepNotAnnounced(s, ps, r, i, seen, sub, j, k);
    BelongsIsJoined(s, ps, sub, i);
  }

  lemma CoverIsNoPart(ps: P.Parsers, r: SendRun, k: nat)
    requires Valid(ps, r) && k in r.mails && k > 0
    ensures 0 in r.mails ==> r.mails[k].messageId != r.cover
  {
    if 0 in r.mails { assert IsMailOf(ps, r, r.mails[0]) && IsMember(r.mails[0], r.parts, 0); }
  }

  lemma DeepNotAnnounced(s: Store, ps: P.Parsers, r: SendRun, i: PatchsetId, seen: set<nat>, sub: P.Submission, j: nat,
                         k: nat)
    requires Valid(ps, r) && RunHeld(s, ps, r, i, seen) && 0 in seen && j in r.mails && k in r.mails && j > 0 && k > 0
    requires sub.cover == Some(r.mails[k].messageId) && sub.messageId == r.mails[j].messageId
    requires r.cover != sub.messageId + "@sashiko.local"
    ensures NotAnnounced(s, ps, sub) && AuthorsKnown(s, sub)
  {
    CoverIsNoPart(ps, r, k);
    forall l | l in s.patchsets
      ensures s.patchsets[l].cover != sub.cover && s.patchsets[l].cover != Some(sub.messageId + "@sashiko.local")
              && s.patchsets[l].author.Some?
    {
      if l != i { assert Foreign(ps, r, s.patchsets[l]); }
    }
  }

  // ---------------------------------------------------------------- an example

  const RUN := "20240102030405.1234"
  const SUBJECTS := ["[PATCH 0/2] net: fix", "[PATCH 1/2] net: first", "[PATCH 2/2] net: second"]
  const IDS := [RUN + "-1-a@example.org", RUN + "-2-a@example.org", RUN + "-3-a@example.org"]
  const SENDER := "A. Author <author@example.org>"

  function MailAt(ps: P.Parsers, k: nat): I.Article
    requires k <= 2
  {
    I.Article(I.MailingList, IDS[k], IDS[k], Content(None, SENDER, SUBJECTS[k], 0), k, 2, ps.version(SUBJECTS[0]),
              true, false, if k == 0 then None else Some(I.PatchBody(IDS[k], k, "diff")), {})
  }

  /** Two patches and their cover letter, none in reply to another. */
  function TwoPatches(ps: P.Parsers): SendRun {
    SendRun(map[0 := MailAt(ps, 0), 1 := MailAt(ps, 1), 2 := MailAt(ps, 2)], 2, RUN, IDS[0], SENDER,
            ps.version(SUBJECTS[0]).GetOr(1), ps.prefixes(SUBJECTS[0]), 0)
  }

  /** The readers see one version and one kind of tags in the three subjects. */
  ghost predicate ReadAlike(ps: P.Parsers) {
    forall k :: 0 <= k < 3 ==>
      ps.version(SUBJECTS[k]) == ps.version(SUBJECTS[0]) && ps.prefixes(SUBJECTS[k]) == ps.prefixes(SUBJECTS[0])
  }

  lemma IdSent(k: nat)
    requires k <= 2
    ensures SentBy(IDS[k], RUN) && IDS[k][20] == (if k == 0 then '1' else if k == 1 then '2' else '3')
    ensures IsRunPrefix(RUN)
  {
    assert |RUN| == 19 && IDS[k][..19] == RUN && IDS[k][19] == '-';
  }

  lemma MailAtFits(ps: P.Parsers, k: nat)
    requires k <= 2 && ReadAlike(ps)
    ensures IsMailOf(ps, TwoPatches(ps), MailAt(ps, k)) && IsMember(MailAt(ps, k), 2, k)
  {
    IdSent(k);
  }

  lemma TwoPatchesValid(ps: P.Parsers)
    requires ReadAlike(ps)
    ensures Valid(ps, TwoPatches(ps))
  {
    var r := TwoPatches(ps);
    forall k | k in r.mails ensures IsMailOf(ps, r, r.mails[k]) && IsMember(r.mails[k], 2, k) {
      assert r.mails[k] == MailAt(ps, k);
      MailAtFits(ps, k);
    }
    forall j, k | j in r.mails && k in r.mails && r.mails[j].messageId == r.mails[k].messageId ensures j == k {
      assert r.mails[j] == MailAt(ps, j) && r.mails[k] == MailAt(ps, k);
      IdSent(j);
      IdSent(k);
    }
    IdSent(0);
  }

  /** From an empty store: both parts, and the cover letter last, when the patchset already waits for review. */
  lemma CoverComesLast(ps: P.Parsers)
    requires ReadAlike(ps)
    ensures var r := TwoPatches(ps);
            Ready(I.Run(ps, Arrivals(r.mails, [1, 2, 0])), r.mails, 2, SENDER, IDS[0], 0, 1)
  {
    var r := TwoPatches(ps);
    TwoPatchesValid(ps);
    assert Apart(I.Run(ps, []), ps, r);
    RunIsReady(ps, [], r, [1, 2, 0]);
    assert [] + Arrivals(r.mails, [1, 2, 0]) == Arrivals(r.mails, [1, 2, 0]);
    assert NextRowId({}) == 1;
  }
}

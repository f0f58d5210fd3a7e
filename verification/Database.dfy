/**
 The ingestion database as an object whose tables are updated statement by statement. Every operation is
 proved to have the effect on the snapshot that `Threads`, `Patchsets` and `Ingestion` reason about.
 */
module Database {
  import opened Prelude
  import opened Tables
  import T = Threads
  import P = Patchsets
  import I = Ingestion

  class Database {
    var messages: map<MessageId, Message>
    var threads: map<ThreadId, MessageId>
    var threadSubsystems: set<(ThreadId, SubsystemId)>
    var patchsets: map<PatchsetId, Patchset>
    var patches: map<PatchId, Patch>
    var reviews: map<ReviewId, Review>
    var patchsetSubsystems: set<(PatchsetId, SubsystemId)>

    ghost function View(): Store
      reads this
    {
      Store(messages, threads, threadSubsystems, patchsets, patches, reviews, patchsetSubsystems)
    }

    constructor ()
      ensures View() == EMPTY
    {
      messages, threads, threadSubsystems := map[], map[], {};
      patchsets, patches, reviews, patchsetSubsystems := map[], map[], map[], {};
    }

    // -------------------------------------------------------------- threads

    method EnsureThreadForMessage(m: MessageId, date: int) returns (t: ThreadId)
      modifies this
      ensures (View(), t) == T.EnsureThread(old(View()), m, date)
    {
      if m in messages { return messages[m].thread; }
      t := ComputeNextRowId(threads.Keys);
      threads := threads[t := m];
      CreateMessage(m, t, PlaceholderContent(date));
    }

    /** Stores a message in a thread, first merging the thread it was in so far into that one. */
    method CreateMessage(m: MessageId, t: ThreadId, c: Content)
      modifies this
      ensures View() == T.CreateMessage(old(View()), m, t, c)
    {
      if m in messages && messages[m].thread != t {
        var from := messages[m].thread;
        messages := map x | x in messages ::
          if messages[x].thread == from then messages[x].(thread := t) else messages[x];
        patchsets := map p | p in patchsets ::
          if patchsets[p].thread == from then patchsets[p].(thread := t) else patchsets[p];
        // UPDATE OR IGNORE leaves the rows whose new key is taken; the DELETE removes them.
        threadSubsystems :=
          (set l | l in threadSubsystems && (l.0 != from || (t, l.1) in threadSubsystems))
          + (set l | l in threadSubsystems && l.0 == from && (t, l.1) !in threadSubsystems :: (t, l.1));
        threadSubsystems := set l | l in threadSubsystems && l.0 != from;
        threads := threads - {from};
        MovedLinks(old(threadSubsystems), threadSubsystems, from, t);
      }
      messages := messages[m := Message(t, c)];
    }

    static lemma MovedLinks(was: set<(ThreadId, SubsystemId)>, now: set<(ThreadId, SubsystemId)>, from: ThreadId,
                            t: ThreadId)
      requires from != t
      requires now == set l | l in
                 (set l | l in was && (l.0 != from || (t, l.1) in was))
                 + (set l | l in was && l.0 == from && (t, l.1) !in was :: (t, l.1)) && l.0 != from
      ensures now == (set l | l in was && l.0 != from) + (set l | l in was && l.0 == from :: (t, l.1))
    {
      var moved := set l | l in was && l.0 == from && (t, l.1) !in was :: (t, l.1);
      forall l | l in was && l.0 == from ensures (t, l.1) in now {
        if (t, l.1) !in was { assert (t, l.1) in moved; }
      }
      forall l | l in now
        ensures l in (set l | l in was && l.0 != from) + (set l | l in was && l.0 == from :: (t, l.1))
      {
        if l in moved {
          var k :| k in was && k.0 == from && (t, k.1) !in was && l == (t, k.1);
        }
      }
    }

    // -------------------------------------------------------------- patchsets

    /** The lowest acceptable patchset with the given cover letter. */
    method FindByCover(ps: P.Parsers, a: P.Submission, cover: MessageId) returns (r: Option<PatchsetId>)
      ensures var found := P.ByCover(View(), ps, a, cover);
              r == if found == {} then None else Some(Lowest(found))
    {
      var rows := P.WithCoverId(Store(map[], map[], {}, patchsets, map[], map[], {}), cover);
      ghost var found := P.ByCover(View(), ps, a, cover);
      while rows != {}
        invariant found <= rows
        invariant rows <= patchsets.Keys
        invariant forall i :: i in rows ==> patchsets[i].cover == Some(cover)
        decreases rows
      {
        var id := ComputeLowest(rows);
        if P.Accepts(patches, ps, a, id, patchsets[id]) {
          assert id in found;
          return Some(id);
        }
        rows := rows - {id};
      }
      r := None;
    }

    /** What the sub-query for the send-email prefix answers. */
    method QueryPrefix(id: PatchsetId) returns (r: Option<string>)
      requires id in patchsets
      ensures r == P.KnownPrefix(patches, id, patchsets[id])
    {
      var row := patchsets[id];
      if row.cover.Some? { return Some(P.BeforeDash(row.cover.value)); }
      var own := PatchesOf(patches, id);
      if own == {} { return None; }
      var first := ComputeLowest(own);
      r := Some(P.BeforeDash(patches[first].messageId));
    }

    /** The candidates that belong to the submission's series; a candidate without an author is an error. */
    method CollectMatches(ps: P.Parsers, a: P.Submission) returns (r: Result<set<PatchsetId>, P.Error>)
      ensures r.Err? <==> exists id :: id in P.Candidates(View(), a) && patchsets[id].author.None?
      ensures r.Err? ==> r.error == P.NullAuthor
      ensures r.Ok? ==> r.value == P.MatchSet(View(), ps, a)
    {
      var rows := set id | id in patchsets && P.InWindow(a, patchsets[id]);
      ghost var all := rows;
      assert all == P.Candidates(View(), a);
      var matches := {};
      while rows != {}
        invariant rows <= all
        invariant forall i :: i in all - rows ==> patchsets[i].author.Some?
        invariant forall i :: i in matches <==> (i in all - rows &&
                    P.Matches(ps, a, patchsets[i], P.HasMessage(patches, i, a.messageId),
                              P.IndexTaken(patches, i, a.partIndex, a.messageId),
                              P.KnownPrefix(patches, i, patchsets[i])))
        decreases rows
      {
        var id := ComputeLowest(rows);
        ghost var seen := all - rows;
        rows := rows - {id};
        assert all - rows == seen + {id};
        var row := patchsets[id];
        if row.author.None? { return Err(P.NullAuthor); }
        var known := QueryPrefix(id);
        if P.Matches(ps, a, row, P.HasMessage(patches, id, a.messageId),
                     P.IndexTaken(patches, id, a.partIndex, a.messageId), known) {
          matches := matches + {id};
        }
      }
      r := Ok(matches);
      assert matches == P.MatchSet(View(), ps, a);
    }

    /** Moves everything of one patchset to another and deletes it. */
    method MergeInto(target: PatchsetId, from: PatchsetId)
      requires target != from
      modifies this`patches, this`reviews, this`patchsetSubsystems, this`patchsets
      ensures View() == P.MergePatchsets(old(View()), target, {from})
    {
      MergedTables(View(), target, from);
      MergeLinks(target, from);
      patches := PatchesMoved(patches, from, target);
      reviews := ReviewsMoved(reviews, from, target);
      patchsets := patchsets - {from};
    }

    /** UPDATE OR IGNORE patches SET patchset_id; no key can collide, so that no row is ignored. */
    static function PatchesMoved(patches: map<PatchId, Patch>, from: PatchsetId, to: PatchsetId): map<PatchId, Patch> {
      map p | p in patches :: if patches[p].patchset == from then patches[p].(patchset := to) else patches[p]
    }

    static function ReviewsMoved(reviews: map<ReviewId, Review>, from: PatchsetId, to: PatchsetId)
      : map<ReviewId, Review>
    {
      map r | r in reviews :: if reviews[r].patchset == from then reviews[r].(patchset := to) else reviews[r]
    }

    /** INSERT OR IGNORE copies the links, the DELETE removes the old ones. */
    method MergeLinks(target: PatchsetId, from: PatchsetId)
      requires target != from
      modifies this`patchsetSubsystems
      ensures patchsetSubsystems == P.MergePatchsets(old(View()), target, {from}).patchsetSubsystems
    {
      var was := patchsetSubsystems;
      var copied := was + (set l | l in was && l.0 == from :: (target, l.1));
      patchsetSubsystems := set l | l in copied && l.0 != from;
      CopiedLinks(was, patchsetSubsystems, from, target);
    }

    static lemma MergedTables(s: Store, target: PatchsetId, from: PatchsetId)
      ensures PatchesMoved(s.patches, from, target) == P.MergePatchsets(s, target, {from}).patches
      ensures ReviewsMoved(s.reviews, from, target) == P.MergePatchsets(s, target, {from}).reviews
    {
    }

    static lemma CopiedLinks(was: set<(PatchsetId, SubsystemId)>, now: set<(PatchsetId, SubsystemId)>,
                             from: PatchsetId, target: PatchsetId)
      requires from != target
      requires now == set l | l in was + (set l | l in was && l.0 == from :: (target, l.1)) && l.0 != from
      ensures now == (set l | l in was && l.0 !in {from}) + (set l | l in was && l.0 in {from} :: (target, l.1))
    {
      var copied := set l | l in was && l.0 == from :: (target, l.1);
      forall l | l in was && l.0 == from ensures (target, l.1) in now { assert (target, l.1) in copied; }
    }

    /** Merges all matches into the lowest one and returns the best subject index among them. */
    method MergeMatches(target: PatchsetId, matches: set<PatchsetId>) returns (best: nat)
      requires target in matches && matches <= patchsets.Keys
      modifies this`patches, this`reviews, this`patchsetSubsystems, this`patchsets
      ensures View() == P.MergePatchsets(old(View()), target, matches - {target})
      ensures forall i :: i in matches ==> best <= old(patchsets)[i].subjectIndex
      ensures exists i :: i in matches && best == old(patchsets)[i].subjectIndex
    {
      ghost var s0 := View();
      best := patchsets[target].subjectIndex;
      var rest := matches - {target};
      ghost var done := {};
      P.MergeNone(s0, target);
      while rest != {}
        invariant target !in rest && target !in done && done !! rest && matches == done + rest + {target}
        invariant View() == P.MergePatchsets(s0, target, done)
        invariant forall i :: i in done + {target} ==> best <= s0.patchsets[i].subjectIndex
        invariant exists i :: i in done + {target} && best == s0.patchsets[i].subjectIndex
        decreases rest
      {
        var from := ComputeLowest(rest);
        rest := rest - {from};
        if patchsets[from].subjectIndex < best { best := patchsets[from].subjectIndex; }
        MergeInto(target, from);
        P.MergeOneMore(s0, target, done, from);
        done := done + {from};
      }
      assert done == matches - {target};
    }

    /** UPDATE patchsets SET status = 'Incomplete' WHERE it is 'Fetching', then 'Pending' WHERE it is full. */
    method SettleStatus(id: PatchsetId)
      requires id in patchsets
      modifies this`patchsets
      ensures patchsets == old(patchsets)[id := P.Settle(old(patchsets)[id])]
    {
      if patchsets[id].status == Fetching { patchsets := patchsets[id := patchsets[id].(status := Incomplete)]; }
      PromoteStatus(id);
    }

    method PromoteStatus(id: PatchsetId)
      requires id in patchsets
      modifies this`patchsets
      ensures patchsets == old(patchsets)[id := P.PromoteIfFull(old(patchsets)[id])]
    {
      if Full(patchsets[id]) && patchsets[id].status in {Incomplete, Fetching} {
        patchsets := patchsets[id := patchsets[id].(status := Pending)];
      }
    }

    /** Recomputes `received_parts` from the patch rows. */
    method RecountParts(id: PatchsetId)
      modifies this`patchsets
      ensures patchsets == P.Recount(old(patchsets), patches, id)
    {
      if id in patchsets {
        patchsets := patchsets[id := patchsets[id].(received := Some(|PatchesOf(patches, id)|))];
      }
    }

    method AdoptRow(id: PatchsetId, a: P.Submission)
      requires id in patchsets
      modifies this`patchsets
      ensures patchsets == old(patchsets)[id := P.Adopted(old(patchsets)[id], a)]
    {
      var row := patchsets[id];
      var total := if a.total == 1 && row.total.GetOr(1) > 1 then row.total.GetOr(1) else a.total;
      patchsets := patchsets[id := patchsets[id].(thread := a.thread, author := Some(a.author), total := Some(total))];
      if a.cover.Some? { patchsets := patchsets[id := patchsets[id].(cover := a.cover)]; }
      if a.partIndex < row.subjectIndex {
        patchsets := patchsets[id := patchsets[id].(subject := a.subject, subjectIndex := a.partIndex)];
      }
      SettleStatus(id);
    }

    method CreatePatchset(ps: P.Parsers, a: P.Submission) returns (r: Result<PatchsetId, P.Error>)
      modifies this
      ensures (View(), r) == P.CreatePatchset(old(View()), ps, a)
    {
      // 1. By cover letter, then by the name a single-commit import was announced under.
      var hit := None;
      if a.cover.Some? { hit := FindByCover(ps, a, a.cover.value); }
      if hit.None? { hit := FindByCover(ps, a, a.messageId + P.LOCAL_SUFFIX); }
      assert hit == P.CoverHit(View(), ps, a);
      if hit.Some? {
        AdoptRow(hit.value, a);
        return Ok(hit.value);
      }
      // 2. By thread, author and time.
      var found := CollectMatches(ps, a);
      if found.Err? { return Err(found.error); }
      var matches := found.value;
      if matches != {} {
        var target := ComputeLowest(matches);
        AbsorbMatches(a, target, matches);
        return Ok(target);
      }
      var id := ComputeNextRowId(patchsets.Keys);
      patchsets := patchsets[id := P.Inserted(a)];
      r := Ok(id);
    }

    method AbsorbMatches(a: P.Submission, target: PatchsetId, matches: set<PatchsetId>)
      requires matches != {} && matches <= patchsets.Keys && target == Lowest(matches)
      modifies this
      ensures View() == P.Absorb(old(View()), a, matches)
    {
      ghost var s0 := View();
      var best := MergeMatches(target, matches);
      assert a.partIndex < best <==> P.Better(s0, matches, a);
      DescribeTarget(target, a, a.partIndex < best);
      RecountParts(target);
      SettleStatus(target);
    }

    /** The target of a merge takes the submission's metadata, and its subject if that is the better one. */
    method DescribeTarget(target: PatchsetId, a: P.Submission, better: bool)
      requires target in patchsets
      modifies this`patchsets
      ensures patchsets == old(patchsets)[target := P.WithCover(P.WithSubject(
                old(patchsets)[target].(author := Some(a.author), total := Some(a.total)), better, a), a.cover)]
    {
      patchsets := patchsets[target := patchsets[target].(author := Some(a.author), total := Some(a.total))];
      if better {
        patchsets := patchsets[target := patchsets[target].(subject := a.subject, subjectIndex := a.partIndex)];
      }
      if a.cover.Some? { patchsets := patchsets[target := patchsets[target].(cover := a.cover)]; }
    }

    /** The row a message's patch is in, if it has one. */
    method FindPatch(m: MessageId) returns (r: Option<PatchId>)
      ensures r.Some? ==> r.value in patches && patches[r.value].messageId == m
      ensures r.None? ==> forall q :: q in patches ==> patches[q].messageId != m
    {
      if p :| p in patches && patches[p].messageId == m { r := Some(p); } else { r := None; }
    }

    method CreatePatch(id: PatchsetId, m: MessageId, index: nat, diff: string) returns (r: Result<PatchId, P.Error>)
      requires PatchsetsConsistent(View())
      modifies this
      ensures (View(), r) == P.CreatePatch(old(View()), id, m, index, diff)
    {
      if P.IndexTaken(patches, id, index, m) { return Err(P.IndexCollision); }
      if id !in patchsets { return Err(P.NoSuchPatchset); }
      var existing := FindPatch(m);
      var p: PatchId;
      if existing.Some? { p := existing.value; } else { p := ComputeNextRowId(patches.Keys); }
      assert p == P.PatchRow(View(), m);
      var from := if existing.Some? then Some(patches[p].patchset) else None;
      patches := patches[p := Patch(id, m, index, diff)];
      RecountParts(id);
      if from.Some? && from.value != id { RecountParts(from.value); }
      PromoteStatus(id);
      r := Ok(p);
    }

    method CreateFetchingPatchset(article: string, subject: string, now: int) returns (id: PatchsetId)
      modifies this
      ensures (View(), id) == P.CreateFetching(old(View()), article, subject, now)
    {
      var candidates := [article, P.RootId(article)];
      for i := 0 to 2
        invariant View() == old(View())
        invariant i >= 1 ==> P.WithCoverId(View(), article) == {}
        invariant i >= 2 ==> P.WithCoverId(View(), P.RootId(article)) == {}
      {
        var rows := set id | id in patchsets && patchsets[id].cover == Some(candidates[i]);
        assert rows == P.WithCoverId(View(), candidates[i]);
        if rows != {} {
          id := ComputeLowest(rows);
          assert P.FetchingHit(View(), article) == Some(id);
          if patchsets[id].status in {Failed, Fetching} {
            patchsets := patchsets[id := patchsets[id].(status := Fetching)];
          }
          return;
        }
      }
      var t := EnsureThreadForMessage(P.RootId(article), now);
      id := ComputeNextRowId(patchsets.Keys);
      patchsets := patchsets[id :=
        Patchset(t, Some(P.RootId(article)), subject, 9999, None, now, None, None, Fetching, 1)];
    }

    // -------------------------------------------------------------- status changes

    /** True when a row was cancelled. */
    method CancelPatchset(id: PatchsetId, force: bool) returns (changed: bool)
      modifies this`patchsets
      ensures View() == I.CancelPatchset(old(View()), id, force)
      ensures changed <==> View() != old(View())
    {
      changed := id in patchsets && (patchsets[id].status in {Pending, Incomplete}
                                     || (force && patchsets[id].status == InReview));
      assert changed <==> {id} * I.WithStatus(View(), I.Cancellable(force)) == {id};
      if changed { patchsets := patchsets[id := patchsets[id].(status := Cancelled)]; }
      assert patchsets == I.CancelPatchset(old(View()), id, force).patchsets;
    }

    method RerunPatchset(id: PatchsetId)
      modifies this`patchsets
      ensures View() == I.RerunPatchset(old(View()), id)
    {
      if id in patchsets {
        patchsets := patchsets[id := patchsets[id].(status := Pending)];
        patchsets := patchsets[id := patchsets[id].(targetReviews := patchsets[id].targetReviews + 1)];
      }
      assert patchsets == I.RerunPatchset(old(View()), id).patchsets;
    }

    method ResetReviewingStatus()
      modifies this`patchsets, this`reviews
      ensures View() == I.ResetReviewing(old(View()))
    {
      patchsets := map id | id in patchsets ::
        if patchsets[id].status == InReview then patchsets[id].(status := Pending) else patchsets[id];
      reviews := map r | r in reviews ::
        if reviews[r].status == RInReview then reviews[r].(status := RPending) else reviews[r];
      assert patchsets == I.ResetReviewing(old(View())).patchsets;
    }

    // -------------------------------------------------------------- one article

    method ResolveArticle(a: I.Article) returns (t: ThreadId)
      requires Consistent(View())
      modifies this
      ensures View() == T.Resolve(old(View()), a.messageId, I.Anchor(a), a.content, a.subsystems)
      ensures Consistent(View()) && a.messageId in messages && messages[a.messageId].thread == t
    {
      T.ResolveMessages(View(), a.messageId, I.Anchor(a), a.content, a.subsystems);
      T.ResolveKeeps(View(), a.messageId, I.Anchor(a), a.content, a.subsystems);
      t := EnsureThreadForMessage(I.Anchor(a), a.content.date);
      CreateMessage(a.messageId, t, a.content);
      threadSubsystems := threadSubsystems + set x | x in a.subsystems :: (t, x);
    }

    method AssemblePatchset(ps: P.Parsers, a: I.Article)
      requires Consistent(View()) && a.messageId in messages
      modifies this
      ensures View() == I.Assemble(old(View()), ps, a)
    {
      var sub := I.SubmissionOf(a, messages[a.messageId].thread);
      P.CreatePatchsetKeeps(View(), ps, sub);
      var r := CreatePatchset(ps, sub);
      if r.Ok? {
        I.LinkPatchsetKeeps(View(), r.value, a.subsystems);
        patchsetSubsystems := patchsetSubsystems + set x | x in a.subsystems :: (r.value, x);
        if a.patch.Some? {
          var saved := CreatePatch(r.value, a.patch.value.messageId, a.patch.value.partIndex, a.patch.value.diff);
        }
      }
    }

    method ProcessParsedArticle(ps: P.Parsers, a: I.Article)
      requires Consistent(View())
      modifies this
      ensures View() == I.Process(old(View()), ps, a)
      ensures Consistent(View())
    {
      I.ProcessKeeps(View(), ps, a);
      var t := ResolveArticle(a);
      if a.isPatchOrCover && !a.ignoredAuthor { AssemblePatchset(ps, a); }
    }
  }
}

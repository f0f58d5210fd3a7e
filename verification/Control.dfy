/**
 What is asked for from outside and at start-up: cancelling, asking for another review, restarting what failed or was
 interrupted, and the review service's own rows. Each is told by what becomes of every row.
 */
module Control {
  import opened Prelude
  import opened Tables
  import P = Patchsets
  import I = Ingestion

  /** Only patchset rows changed, and none came or went. */
  ghost predicate SamePatchsets(s: Store, s': Store) {
    s'.patchsets.Keys == s.patchsets.Keys && s' == s.(patchsets := s'.patchsets)
  }

  /** A patchset that waits, or with force one under review, is cancelled; any other keeps its status. */
  lemma CancelStops(s: Store, ps: P.Parsers, id: PatchsetId, force: bool, i: PatchsetId)
    requires i in s.patchsets
    ensures var (row, s') := (s.patchsets[i], I.Step(s, ps, I.CancelRequested(id, force)));
            && SamePatchsets(s, s')
            && s'.patchsets[i] == if i == id && (row.status == Pending || row.status == Incomplete
                                                 || (force && row.status == InReview))
                                  then row.(status := Cancelled) else row
  {
  }

  /** Asking for another review makes the patchset wait for one more, whatever its status was. */
  lemma RerunAsksAgain(s: Store, ps: P.Parsers, id: PatchsetId, i: PatchsetId)
    requires i in s.patchsets
    ensures var (row, s') := (s.patchsets[i], I.Step(s, ps, I.RerunRequested(id)));
            && SamePatchsets(s, s')
            && s'.patchsets[i] == if i == id then row.(status := Pending, targetReviews := row.targetReviews + 1)
                                  else row
  {
  }

  /** Restarting the failed ones makes exactly those wait that failed or could not be applied. */
  lemma FailedWaitAgain(s: Store, ps: P.Parsers, i: PatchsetId)
    requires i in s.patchsets
    ensures var (row, s') := (s.patchsets[i], I.Step(s, ps, I.FailedRestarted));
            && SamePatchsets(s, s')
            && s'.patchsets[i] == if row.status == Failed || row.status == FailedToApply
                                  then row.(status := Pending) else row
  {
  }

  /** At start-up nothing is under review any more: what was, waits again, and the rest is as it was. */
  lemma StartUpResets(s: Store, ps: P.Parsers)
    ensures var s' := I.Step(s, ps, I.Restarted);
            && s' == s.(patchsets := s'.patchsets, reviews := s'.reviews)
            && s'.patchsets.Keys == s.patchsets.Keys && s'.reviews.Keys == s.reviews.Keys
            && (forall i :: i in s.patchsets ==>
                  s'.patchsets[i] == if s.patchsets[i].status == InReview then s.patchsets[i].(status := Pending)
                                     else s.patchsets[i])
            && (forall r :: r in s.reviews ==>
                  s'.reviews[r] == if s.reviews[r].status == RInReview then s.reviews[r].(status := RPending)
                                   else s.reviews[r])
  {
  }

  /** A second start-up changes nothing. */
  lemma StartUpIdempotent(s: Store, ps: P.Parsers)
    ensures var s' := I.Step(s, ps, I.Restarted); I.Step(s', ps, I.Restarted) == s'
  {
    var s' := I.Step(s, ps, I.Restarted);
    StartUpResets(s, ps);
    StartUpResets(s', ps);
    assert I.Step(s', ps, I.Restarted).patchsets == s'.patchsets;
    assert I.Step(s', ps, I.Restarted).reviews == s'.reviews;
  }

  /** A review is opened for a live patchset, in a row of its own, and waits. */
  lemma ReviewOpens(s: Store, ps: P.Parsers, id: PatchsetId, patch: Option<PatchId>)
    ensures var s' := I.Step(s, ps, I.ReviewCreated(id, patch));
            if id in s.patchsets then
              exists r: ReviewId :: r !in s.reviews && s' == s.(reviews := s.reviews[r := Review(id, patch, RPending)])
            else s' == s
  {
    assert NextRowId(s.reviews.Keys) !in s.reviews;
  }

  /** The service sets the status of one review, and of one patchset, to what it found. */
  lemma ServiceSets(s: Store, ps: P.Parsers, r: ReviewId, status: ReviewStatus, id: PatchsetId, verdict: Status)
    requires r in s.reviews && id in s.patchsets
    ensures I.Step(s, ps, I.ReviewSet(r, status)) == s.(reviews := s.reviews[r := s.reviews[r].(status := status)])
    ensures verdict in {InReview, Pending, Reviewed, Failed, FailedToApply} ==>
              I.Step(s, ps, I.StatusSet(id, verdict))
              == s.(patchsets := s.patchsets[id := s.patchsets[id].(status := verdict)])
  {
    if verdict in {InReview, Pending, Reviewed, Failed, FailedToApply} {
      assert I.Step(s, ps, I.StatusSet(id, verdict)).patchsets
          == s.patchsets[id := s.patchsets[id].(status := verdict)];
    }
  }
}

/**
 When a mail joins a patchset. The rules are told from the rows and the mail, without the query that applies them:
 who sent it and when, which series it is of, and whether the patchset has room for it.
 */
module Matching {
  import opened Prelude
  import opened Tables
  import P = Patchsets

  // ---------------------------------------------------------------- the rules

  /** The message id was given out by the git send-email run: it begins with the run's prefix and a dash. */
  predicate SentBy(m: MessageId, run: string) {
    |m| > |run| && m[..|run|] == run && m[|run|] == '-'
  }

  /** A run's prefix: free of dashes, and long enough not to be met by chance. */
  predicate IsRunPrefix(run: string) {
    |run| > 10 && '-' !in run
  }

  /** All that is known of the patchset was sent by the run: its cover letter, or else its patches. */
  ghost predicate CameFrom(s: Store, i: PatchsetId, run: string)
    requires i in s.patchsets
  {
    match s.patchsets[i].cover
    case Some(c) => SentBy(c, run)
    case None => PatchesOf(s.patches, i) != {}
                 && forall p :: p in PatchesOf(s.patches, i) ==> SentBy(s.patches[p].messageId, run)
  }

  /** The two lengths are the same, or one of them says that it stands alone. */
  predicate LengthsAgree(announced: nat, known: nat) {
    announced == known || announced == 1 || known == 1
  }

  /** From the same address, and for mail within a day; a series imported from git may be from several people. */
  predicate FromThem(ps: P.Parsers, a: P.Submission, row: Patchset) {
    && row.author.Some?
    && (ps.email(row.author.value) == ps.email(a.author)
        || (!a.strictAuthor && (a.total > 0 || row.total.GetOr(1) == 1)))
    && (a.strictAuthor ==> -P.DAY < a.date - row.date < P.DAY)
  }

  /** Mails of one thread belong together; else they must be sent by the same author, for the same list and version. */
  ghost predicate Related(s: Store, ps: P.Parsers, a: P.Submission, i: PatchsetId)
    requires i in s.patchsets
  {
    var row := s.patchsets[i];
    || row.thread == a.thread
    || (&& row.author == Some(a.author) && -P.DAY < a.date - row.date < P.DAY
        && ps.version(row.subject).GetOr(1) == a.version.GetOr(1)
        && ps.prefixes(row.subject) == ps.prefixes(a.subject)
        && (a.total == 1 || exists run :: IsRunPrefix(run) && SentBy(a.messageId, run) && CameFrom(s, i, run)))
  }

  /** Two mails that claim one place in a series say the same; those that stand alone say the same, cover apart. */
  predicate SubjectsAgree(ps: P.Parsers, a: P.Submission, row: Patchset) {
    || ps.clean(a.subject) == ps.clean(row.subject)
    || (a.total == 1 && a.subject == row.subject)
    || (a.total != 1 && a.partIndex != row.subjectIndex)
    || (a.total == 1 && {a.partIndex, row.subjectIndex} == {0, 1})
  }

  ghost predicate HoldsMessage(s: Store, i: PatchsetId, m: MessageId) {
    exists p :: p in PatchesOf(s.patches, i) && s.patches[p].messageId == m
  }

  /**
   There is room for the mail: for a cover letter, however many parts are there, if no other cover letter is; for a
   part if the patchset still waits for parts or has this very mail, and no other mail has its index.
   */
  ghost predicate HasRoom(s: Store, a: P.Submission, i: PatchsetId)
    requires i in s.patchsets
  {
    var row := s.patchsets[i];
    if a.partIndex == 0 then
      row.cover.None? || row.cover.value == a.messageId || row.subjectIndex > 0
    else
      && (row.received.GetOr(0) < row.total.GetOr(1) || row.cover == Some(a.messageId)
          || HoldsMessage(s, i, a.messageId))
      && forall p :: p in PatchesOf(s.patches, i) && s.patches[p].partIndex == a.partIndex ==>
           s.patches[p].messageId == a.messageId
  }

  ghost predicate Belongs(s: Store, ps: P.Parsers, a: P.Submission, i: PatchsetId) {
    && i in s.patchsets
    && FromThem(ps, a, s.patchsets[i])
    && Related(s, ps, a, i)
    && LengthsAgree(a.total, s.patchsets[i].total.GetOr(1))
    && SubjectsAgree(ps, a, s.patchsets[i])
    && HasRoom(s, a, i)
  }

  /** No patchset open to the mail is known by its cover letter, nor by the name its fetch was given. */
  ghost predicate NotAnnounced(s: Store, ps: P.Parsers, a: P.Submission) {
    && (a.cover.Some? ==> !SomeAnnounces(s, ps, a, a.cover.value))
    && !SomeAnnounces(s, ps, a, a.messageId + "@sashiko.local")
  }

  /** Every patchset of the mail's thread has its author. */
  ghost predicate AuthorsKnown(s: Store, a: P.Submission) {
    forall i :: i in s.patchsets && s.patchsets[i].thread == a.thread ==> s.patchsets[i].author.Some?
  }

  // ---------------------------------------------------------------- what the code does with them

  lemma RunPrefixOf(m: MessageId, run: string)
    requires SentBy(m, run) && '-' !in run
    ensures P.BeforeDash(m) == run
  {
    var rest := m[|run| + 1..];
    assert m == run + "-" + rest;
    P.BeforeDashOf(run, rest);
  }

  lemma KnownRun(s: Store, i: PatchsetId, run: string)
    requires i in s.patchsets && CameFrom(s, i, run) && '-' !in run
    ensures P.KnownPrefix(s.patches, i, s.patchsets[i]) == Some(run)
  {
    match s.patchsets[i].cover
    case Some(c) => RunPrefixOf(c, run);
    case None =>
      var p := Lowest(PatchesOf(s.patches, i));
      assert SentBy(s.patches[p].messageId, run);
      RunPrefixOf(s.patches[p].messageId, run);
  }

  lemma BelongsMatches(s: Store, ps: P.Parsers, a: P.Submission, i: PatchsetId)
    requires Belongs(s, ps, a, i)
    ensures i in P.Candidates(s, a)
    ensures P.Matches(ps, a, s.patchsets[i], P.HasMessage(s.patches, i, a.messageId),
                      P.IndexTaken(s.patches, i, a.partIndex, a.messageId), P.KnownPrefix(s.patches, i, s.patchsets[i]))
  {
    var row := s.patchsets[i];
    if HoldsMessage(s, i, a.messageId) {
      var p :| p in PatchesOf(s.patches, i) && s.patches[p].messageId == a.messageId;
      assert P.HasMessage(s.patches, i, a.messageId);
    }
    if row.thread != a.thread && a.total != 1 { RelatedRun(s, ps, a, i); }
    if a.partIndex != 0 { RoomMeansFree(s, a, i); }
    SubjectsMatch(ps, a, row);
  }

  lemma RelatedRun(s: Store, ps: P.Parsers, a: P.Submission, i: PatchsetId)
    requires i in s.patchsets && Related(s, ps, a, i) && s.patchsets[i].thread != a.thread && a.total != 1
    ensures P.KnownPrefix(s.patches, i, s.patchsets[i]) == Some(P.BeforeDash(a.messageId))
    ensures |P.BeforeDash(a.messageId)| > 10
  {
    var run :| IsRunPrefix(run) && SentBy(a.messageId, run) && CameFrom(s, i, run);
    RunPrefixOf(a.messageId, run);
    KnownRun(s, i, run);
  }

  lemma SubjectsMatch(ps: P.Parsers, a: P.Submission, row: Patchset)
    requires SubjectsAgree(ps, a, row)
    ensures P.SubjectMatch(ps, a, row)
  {
    if {a.partIndex, row.subjectIndex} == {0, 1} {
      assert 0 in {a.partIndex, row.subjectIndex} && 1 in {a.partIndex, row.subjectIndex};
    }
  }

  lemma RoomMeansFree(s: Store, a: P.Submission, i: PatchsetId)
    requires i in s.patchsets && a.partIndex != 0 && HasRoom(s, a, i)
    ensures !P.IndexTaken(s.patches, i, a.partIndex, a.messageId)
  {
    forall p | p in s.patches && s.patches[p].patchset == i && s.patches[p].partIndex == a.partIndex
      ensures s.patches[p].messageId == a.messageId
    {
      assert p in PatchesOf(s.patches, i);
    }
  }

  /** The patchset is the one the mail went to, or was merged into it, an earlier one; its patches are there. */
  ghost predicate WentTo(s: Store, s': Store, i: PatchsetId, t: PatchsetId) {
    && t in s'.patchsets && t <= i && (t == i || i !in s'.patchsets)
    && forall p :: p in PatchesOf(s.patches, i) ==> p in s'.patches && s'.patches[p] == s.patches[p].(patchset := t)
  }

  /**
   For every store and every mail that no patchset was announced for: the mail joins every patchset it belongs to.
   All of them are one patchset then, which has the mail's length, author and cover letter.
   */
  lemma BelongsIsJoined(s: Store, ps: P.Parsers, a: P.Submission, i: PatchsetId)
    requires NotAnnounced(s, ps, a) && AuthorsKnown(s, a) && Belongs(s, ps, a, i)
    ensures var (s', r) := P.CreatePatchset(s, ps, a);
            && r.Ok? && WentTo(s, s', i, r.value)
            && s'.patchsets[r.value].total == Some(a.total) && s'.patchsets[r.value].author == Some(a.author)
            && (a.cover.Some? ==> s'.patchsets[r.value].cover == a.cover)
  {
    UnannouncedIsSearched(s, ps, a);
    P.RefusedIff(s, ps, a);
    BelongsMatches(s, ps, a, i);
    P.SearchOutcome(s, ps, a);
    AbsorbTakes(s, a, P.MatchSet(s, ps, a), i);
  }

  lemma AbsorbTakes(s: Store, a: P.Submission, m: set<PatchsetId>, i: PatchsetId)
    requires i in m && m <= s.patchsets.Keys
    ensures var (s', t) := (P.Absorb(s, a, m), Lowest(m));
            && WentTo(s, s', i, t)
            && s'.patchsets[t].total == Some(a.total) && s'.patchsets[t].author == Some(a.author)
            && (a.cover.Some? ==> s'.patchsets[t].cover == a.cover)
  {
    forall p | p in PatchesOf(s.patches, i)
      ensures p in P.Absorb(s, a, m).patches
              && P.Absorb(s, a, m).patches[p] == s.patches[p].(patchset := Lowest(m))
    {
      P.AbsorbKeepsPatches(s, a, m, p);
    }
  }

  /**
   A cover letter that comes last joins its series although that is full and may already wait for review: it was sent
   by the same author in the same run for the same list, version and length, and the patchset has no cover letter yet.
   */
  lemma LateCoverJoins(s: Store, ps: P.Parsers, a: P.Submission, i: PatchsetId, run: string)
    requires NotAnnounced(s, ps, a) && AuthorsKnown(s, a) && i in s.patchsets
    requires a.partIndex == 0 && a.cover == Some(a.messageId)
    requires var row := s.patchsets[i];
             && row.author == Some(a.author) && -P.DAY < a.date - row.date < P.DAY
             && row.total == Some(a.total) && row.subjectIndex > 0 && row.cover.None? && a.total != 1
             && ps.version(row.subject).GetOr(1) == a.version.GetOr(1)
             && ps.prefixes(row.subject) == ps.prefixes(a.subject)
    requires IsRunPrefix(run) && SentBy(a.messageId, run) && CameFrom(s, i, run)
    ensures var (s', r) := P.CreatePatchset(s, ps, a);
            && r.Ok? && WentTo(s, s', i, r.value) && s'.patchsets[r.value].cover == Some(a.messageId)
            && s'.patchsets[r.value].total == Some(a.total)
  {
    assert Belongs(s, ps, a, i);
    BelongsIsJoined(s, ps, a, i);
  }

  /** And nothing else is joined: what the second search matches meets every rule, the run told by its first patch. */
  lemma JoinedMeetsRules(s: Store, ps: P.Parsers, a: P.Submission, i: PatchsetId)
    requires P.Searches(s, ps, a) && i in P.MatchSet(s, ps, a)
    ensures var row := s.patchsets[i];
            && FromThem(ps, a, row) && LengthsAgree(a.total, row.total.GetOr(1)) && SubjectsAgree(ps, a, row)
            && HasRoom(s, a, i)
            && (row.thread == a.thread
                || (row.author == Some(a.author) && -P.DAY <= a.date - row.date <= P.DAY
                    && ps.version(row.subject).GetOr(1) == a.version.GetOr(1)
                    && ps.prefixes(row.subject) == ps.prefixes(a.subject)
                    && (a.total == 1 || (|P.BeforeDash(a.messageId)| > 10
                          && P.KnownPrefix(s.patches, i, row) == Some(P.BeforeDash(a.messageId))))))
  {
    if P.HasMessage(s.patches, i, a.messageId) {
      var p :| p in s.patches && s.patches[p].patchset == i && s.patches[p].messageId == a.messageId;
      assert p in PatchesOf(s.patches, i);
    }
  }

  // ---------------------------------------------------------------- patchsets that were announced

  /**
   The patchset is known by the name, and open to the mail: no other mail has its index, and the version is the same,
   unless the patchset's subject is not known yet.
   */
  ghost predicate Announces(s: Store, ps: P.Parsers, a: P.Submission, i: PatchsetId, name: MessageId) {
    && i in s.patchsets && s.patchsets[i].cover == Some(name)
    && (a.partIndex == 0 || forall p :: p in PatchesOf(s.patches, i) && s.patches[p].partIndex == a.partIndex ==>
                              s.patches[p].messageId == a.messageId)
    && (|| s.patchsets[i].subject == "(placeholder)" || s.patchsets[i].status == Fetching
        || ps.version(s.patchsets[i].subject).GetOr(1) == a.version.GetOr(1))
  }

  lemma AnnouncesIsByCover(s: Store, ps: P.Parsers, a: P.Submission, i: PatchsetId, name: MessageId)
    ensures Announces(s, ps, a, i, name) <==> i in P.ByCover(s, ps, a, name)
  {
    if i in s.patchsets && a.partIndex != 0 {
      var open := forall p :: p in PatchesOf(s.patches, i) && s.patches[p].partIndex == a.partIndex ==>
                    s.patches[p].messageId == a.messageId;
      if open { IndexOpen(s.patches, i, a.partIndex, a.messageId); }
      if P.IndexTaken(s.patches, i, a.partIndex, a.messageId) {
        var p :| p in s.patches && s.patches[p].patchset == i && s.patches[p].partIndex == a.partIndex
                 && s.patches[p].messageId != a.messageId;
        assert p in PatchesOf(s.patches, i);
      }
    }
  }

  lemma IndexOpen(patches: map<PatchId, Patch>, i: PatchsetId, index: nat, m: MessageId)
    requires forall p :: p in PatchesOf(patches, i) && patches[p].partIndex == index ==> patches[p].messageId == m
    ensures !P.IndexTaken(patches, i, index, m)
  {
    forall p | p in patches && patches[p].patchset == i && patches[p].partIndex == index
      ensures patches[p].messageId == m
    {
      assert p in PatchesOf(patches, i);
    }
  }

  ghost predicate SomeAnnounces(s: Store, ps: P.Parsers, a: P.Submission, name: MessageId) {
    exists i :: Announces(s, ps, a, i, name)
  }

  /** The first patchset that the name announces. */
  ghost predicate FirstAnnounced(s: Store, ps: P.Parsers, a: P.Submission, i: PatchsetId, name: MessageId) {
    Announces(s, ps, a, i, name) && forall j :: Announces(s, ps, a, j, name) ==> i <= j
  }

  /** How a patchset is filled in by a mail it was announced for. */
  ghost predicate FilledIn(row: Patchset, row': Patchset, a: P.Submission) {
    && row'.thread == a.thread && row'.author == Some(a.author) && row'.date == row.date
    && row'.received == row.received && row'.targetReviews == row.targetReviews
    && row'.cover == (if a.cover.Some? then a.cover else row.cover)
    && row'.total == Some(if a.total == 1 && row.total.Some? && row.total.value > 1 then row.total.value else a.total)
    && (if a.partIndex < row.subjectIndex then row'.subject == a.subject && row'.subjectIndex == a.partIndex
        else row'.subject == row.subject && row'.subjectIndex == row.subjectIndex)
  }

  /**
   For every store and every mail: if its cover letter announces a patchset, it goes to the first of these, and else
   to the first one known by the name its fetch was given, if there is one; that row is filled in, and no other is
   touched.
   */
  lemma AnnouncedIsJoined(s: Store, ps: P.Parsers, a: P.Submission, i: PatchsetId)
    requires var own := a.messageId + "@sashiko.local";
             || (a.cover.Some? && FirstAnnounced(s, ps, a, i, a.cover.value))
             || ((a.cover.Some? ==> !SomeAnnounces(s, ps, a, a.cover.value)) && FirstAnnounced(s, ps, a, i, own))
    ensures var (s', r) := P.CreatePatchset(s, ps, a);
            && r == Ok(i) && i in s'.patchsets && s' == s.(patchsets := s.patchsets[i := s'.patchsets[i]])
            && FilledIn(s.patchsets[i], s'.patchsets[i], a)
  {
    var own := a.messageId + P.LOCAL_SUFFIX;
    if a.cover.Some? { HitIsFirst(s, ps, a, a.cover.value); }
    HitIsFirst(s, ps, a, own);
    assert P.CoverHit(s, ps, a) == Some(i);
  }

  lemma HitIsFirst(s: Store, ps: P.Parsers, a: P.Submission, name: MessageId)
    ensures SomeAnnounces(s, ps, a, name) <==> P.ByCover(s, ps, a, name) != {}
    ensures forall i :: FirstAnnounced(s, ps, a, i, name) ==>
              P.ByCover(s, ps, a, name) != {} && Lowest(P.ByCover(s, ps, a, name)) == i
  {
    forall i ensures Announces(s, ps, a, i, name) <==> i in P.ByCover(s, ps, a, name) {
      AnnouncesIsByCover(s, ps, a, i, name);
    }
    if P.ByCover(s, ps, a, name) != {} {
      assert Announces(s, ps, a, Lowest(P.ByCover(s, ps, a, name)), name);
    }
  }

  /** A mail that nothing was announced for does not find a patchset by name. */
  lemma UnannouncedIsSearched(s: Store, ps: P.Parsers, a: P.Submission)
    requires NotAnnounced(s, ps, a)
    ensures P.CoverHit(s, ps, a).None?
  {
    if a.cover.Some? { HitIsFirst(s, ps, a, a.cover.value); }
    HitIsFirst(s, ps, a, a.messageId + P.LOCAL_SUFFIX);
  }
}

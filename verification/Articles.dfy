/**
 What becomes of one article, told from what it says: the patchset it opens if it belongs to none, the patchset of the
 cover letter it answers, the range it was imported with, and the subsystems its patchset is linked to.
 */
module Articles {
  import opened Prelude
  import opened Tables
  import opened Matching
  import Threads
  import P = Patchsets
  import I = Ingestion

  /** The article as it is handed to the search for its patchset, once its message is stored. */
  ghost function Submitted(s: Store, a: I.Article): P.Submission
    requires a.messageId in s.messages
  {
    I.SubmissionOf(a, s.messages[a.messageId].thread)
  }

  // ---------------------------------------------------------------- a patchset of its own

  /** What a new patchset knows of its series from a mail. */
  predicate OpenedByMail(row: Patchset, a: I.Article) {
    && row.subject == a.content.subject && row.author == Some(a.content.author) && row.total == Some(a.total)
    && (a.index == 0 || a.total == 1 ==> row.cover == Some(a.messageId))   // it leads its series, or is all of it
    && (a.index != 0 && a.total != 1 ==> row.cover == a.content.inReplyTo)
  }

  /** A fetched patch goes under the name of its fetch, whatever else it says. */
  predicate OpenedByFetch(row: Patchset, a: I.Article) {
    && row.subject == a.content.subject && row.author == Some(a.content.author) && row.total == Some(a.total)
    && row.cover == Some(a.articleId + "@sashiko.local")
  }

  /** An imported patch goes under its range, whose length, if it gives one, counts; its own author does not. */
  predicate OpenedByImport(row: Patchset, a: I.Article, count: Option<nat>, range: string) {
    && row.author == Some("Sashiko Git Import")
    && (count.Some? ==> row.subject == "Git Import: " + range)
    && (count.None? ==> row.subject == "Git Import: unknown")
    && (count.Some? && count.value > 0 ==> row.total == count)
    && (count.None? || count == Some(0) ==> row.total == Some(a.total))
    && (a.index == 0 || a.total == 1 ==> row.cover == Some(a.messageId))
    && (a.index != 0 && a.total != 1 ==> row.cover == a.content.inReplyTo)
  }

  /** An article that belongs to no patchset opens one in its thread, which has no parts yet and asks for one review. */
  lemma ArticleOpens(s: Store, ps: P.Parsers, a: I.Article)
    requires Consistent(s) && a.messageId in s.messages && P.OpensNew(s, ps, Submitted(s, a))
    ensures var (s', r) := P.CreatePatchset(s, ps, Submitted(s, a));
            && r.Ok? && r.value !in s.patchsets && r.value in s'.patchsets
            && s' == s.(patchsets := s.patchsets[r.value := s'.patchsets[r.value]])
            && var row := s'.patchsets[r.value];
               && row.thread == s.messages[a.messageId].thread && row.date == a.content.date
               && row.subjectIndex == a.index && row.received == Some(0) && row.status == Incomplete
               && row.targetReviews == 1
               && match a.group
                  case MailingList => OpenedByMail(row, a)
                  case GitFetch | ApiSubmit => OpenedByFetch(row, a)
                  case GitImport(count, range) => OpenedByImport(row, a, count, range)
  {
    I.NewRowTakesPatch(s, ps, Submitted(s, a));
  }

  // ---------------------------------------------------------------- the patchset of the cover letter

  /** A part that answers a cover letter goes to the first patchset open to it that is known by that letter. */
  lemma AnswerJoinsCover(s: Store, ps: P.Parsers, a: I.Article, i: PatchsetId)
    requires a.messageId in s.messages && a.group == I.MailingList && a.index != 0 && a.total != 1
    requires a.content.inReplyTo.Some? && FirstAnnounced(s, ps, Submitted(s, a), i, a.content.inReplyTo.value)
    ensures var (s', r) := P.CreatePatchset(s, ps, Submitted(s, a));
            && r == Ok(i) && i in s'.patchsets && s' == s.(patchsets := s.patchsets[i := s'.patchsets[i]])
            && FilledIn(s.patchsets[i], s'.patchsets[i], Submitted(s, a))
            && s'.patchsets[i].cover == a.content.inReplyTo && s'.patchsets[i].author == Some(a.content.author)
  {
    AnnouncedIsJoined(s, ps, Submitted(s, a), i);
  }

  // ---------------------------------------------------------------- imported ranges

  /** The patchset holds other patches of the range, waits for more, and has none with the article's index. */
  ghost predicate WaitsForImport(s: Store, a: I.Article, i: PatchsetId, count: nat, range: string)
    requires a.messageId in s.messages
  {
    && i in s.patchsets
    && var row := s.patchsets[i];
       && row.author == Some("Sashiko Git Import") && row.subject == "Git Import: " + range
       && row.total == Some(count) && row.received.GetOr(0) < count && row.thread == s.messages[a.messageId].thread
       && forall p :: p in PatchesOf(s.patches, i) && s.patches[p].partIndex == a.index ==>
            s.patches[p].messageId == a.messageId
  }

  /** A further patch of an imported range joins the others, whoever wrote it and whenever. */
  lemma ImportJoinsRange(s: Store, ps: P.Parsers, a: I.Article, i: PatchsetId, count: nat, range: string)
    requires a.messageId in s.messages && a.group == I.GitImport(Some(count), range) && count > 0 && a.index != 0
    requires WaitsForImport(s, a, i, count, range)
    requires NotAnnounced(s, ps, Submitted(s, a)) && AuthorsKnown(s, Submitted(s, a))
    ensures var (s', r) := P.CreatePatchset(s, ps, Submitted(s, a));
            && r.Ok? && WentTo(s, s', i, r.value) && s'.patchsets[r.value].total == Some(count)
            && s'.patchsets[r.value].author == Some("Sashiko Git Import")
  {
    assert Belongs(s, ps, Submitted(s, a), i);
    BelongsIsJoined(s, ps, Submitted(s, a), i);
  }

  // ---------------------------------------------------------------- links and parts

  /** The patchset an article was put in is linked to the article's subsystems, and no other link is made or lost. */
  lemma ArticleLinks(s: Store, ps: P.Parsers, a: I.Article)
    requires a.messageId in s.messages
    ensures var (s1, r) := P.CreatePatchset(s, ps, Submitted(s, a));
            r.Ok? ==> forall i, x :: (i, x) in I.Assemble(s, ps, a).patchsetSubsystems <==>
                        (i, x) in s1.patchsetSubsystems || (i == r.value && x in a.subsystems)
  {
    var (s1, r) := P.CreatePatchset(s, ps, Submitted(s, a));
    if r.Ok? {
      var s2 := I.LinkPatchset(s1, r.value, a.subsystems);
      if a.patch.Some? {
        P.CreatePatchTouches(s2, r.value, a.patch.value.messageId, a.patch.value.partIndex, a.patch.value.diff);
      }
    }
  }

  /** What is no patch, or comes from an author who is to be ignored, leaves all patchsets and patches alone. */
  lemma OthersMakeNothing(s: Store, ps: P.Parsers, a: I.Article)
    requires !a.isPatchOrCover || a.ignoredAuthor
    ensures var s' := I.Process(s, ps, a);
            && s'.patches == s.patches && s'.reviews == s.reviews && s'.patchsetSubsystems == s.patchsetSubsystems
            && s'.patchsets.Keys == s.patchsets.Keys
            && forall i :: i in s.patchsets ==> s'.patchsets[i] == s.patchsets[i].(thread := s'.patchsets[i].thread)
  {
    Threads.ResolveKeepsRows(s, a.messageId, I.Anchor(a), a.content, a.subsystems);
  }

  /** The message of an article is stored with what the article says, in place of a placeholder if there was one. */
  lemma ArticleIsStored(s: Store, ps: P.Parsers, a: I.Article)
    requires Consistent(s)
    ensures var s' := I.Process(s, ps, a);
            && a.messageId in s'.messages && s'.messages[a.messageId].content == a.content
            && forall m :: m in s.messages && m != a.messageId ==>
                 m in s'.messages && s'.messages[m].content == s.messages[m].content
  {
    I.ProcessKeeps(s, ps, a);
    Threads.EnsureThreadMessages(s, I.Anchor(a), a.content.date);
    var (s1, t) := Threads.EnsureThread(s, I.Anchor(a), a.content.date);
    OthersKeepContent(s1, a.messageId, t, a.content);
  }

  lemma OthersKeepContent(s: Store, m: MessageId, t: ThreadId, c: Content)
    ensures var s' := Threads.CreateMessage(s, m, t, c);
            && m in s'.messages && s'.messages[m].content == c
            && forall x :: x in s.messages && x != m ==>
                 x in s'.messages && s'.messages[x].content == s.messages[x].content
  {
    forall x | x in s.messages && x != m
      ensures x in Threads.CreateMessage(s, m, t, c).messages
              && Threads.CreateMessage(s, m, t, c).messages[x].content == s.messages[x].content
    {
      Threads.CreateMessageRenames(s, m, t, c, x);
    }
  }
}

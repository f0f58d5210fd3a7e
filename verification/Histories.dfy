/**
 Short histories, from an empty store, in which ingestion does not do what its rules are for: a series made ready
 with one part in three, a series made ready with one part twice, a patchset that waits although nothing is missing,
 a patch that is dropped, and a subject that is lost. The parsers are free, apart from what is said of them.
 */
module Histories {
  import opened Prelude
  import opened Tables
  import Threads
  import P = Patchsets
  import I = Ingestion

  const AUTHOR := "A. Author <author@example.org>"
  const DIFF := "diff"

  /** A patch or cover letter by mail, sent by one author at one time. */
  function Mail(m: MessageId, replyTo: Option<MessageId>, subject: string, index: nat, total: nat,
                version: Option<nat>, withPatch: bool): I.Article
  {
    I.Article(I.MailingList, m, m, Content(replyTo, AUTHOR, subject, 0), index, total, version, true, false,
              if withPatch then Some(I.PatchBody(m, index, DIFF)) else None, {})
  }

  predicate IsMail(a: I.Article) {
    a.group.MailingList? && a.isPatchOrCover && !a.ignoredAuthor && a.subsystems == {}
  }

  // ---------------------------------------------------------------- one mail

  lemma NextRowIdIs(ids: set<nat>, n: nat)
    requires IsNextRowId(n, ids)
    ensures NextRowId(ids) == n
  {
    var k := NextRowId(ids);
    assert k > n ==> k - 1 in ids;
    assert n > k ==> n - 1 in ids;
  }

  lemma LowestIs(ids: set<nat>, m: nat)
    requires IsLowest(m, ids)
    ensures Lowest(ids) == m
  {
  }

  /** A mail not seen before, not a reply or a reply to a known message, joins one thread and moves nothing. */
  lemma MailArrives(s: Store, ps: P.Parsers, a: I.Article) returns (s1: Store, t: ThreadId)
    requires Consistent(s) && IsMail(a) && a.messageId !in s.messages
    requires a.content.inReplyTo.Some? ==> a.content.inReplyTo.value in s.messages
    ensures Consistent(s1) && s1.patchsets == s.patchsets && s1.patches == s.patches
    ensures s1.messages == s.messages[a.messageId := Message(t, a.content)]
    ensures if a.content.inReplyTo.Some? then t == s.messages[a.content.inReplyTo.value].thread else t !in s.threads
    ensures I.Process(s, ps, a) == I.Assemble(s1, ps, a)
  {
    var anchor := I.Anchor(a);
    s1, t := Threads.Resolve(s, a.messageId, anchor, a.content, a.subsystems), Threads.TargetThread(s, anchor);
    Threads.ResolveKeeps(s, a.messageId, anchor, a.content, a.subsystems);
    Threads.NewMessage(s, a.messageId, anchor, a.content);
  }

  /** The tables after a mail that was given patchset i and brings no patch. */
  lemma Placed(s: Store, ps: P.Parsers, a: I.Article, s1: Store, i: PatchsetId)
    requires Consistent(s) && IsMail(a) && a.messageId in s.messages && a.patch.None?
    requires P.CreatePatchset(s, ps, I.SubmissionOf(a, s.messages[a.messageId].thread)) == (s1, Ok(i))
    ensures var s' := I.Assemble(s, ps, a);
            s'.patchsets == s1.patchsets && s'.patches == s1.patches && s'.messages == s.messages && Consistent(s')
  {
    I.AssembleKeeps(s, ps, a);
  }

  /** The tables after a mail that was given patchset i and brings a patch not seen before, with a free index. */
  lemma Stored(s: Store, ps: P.Parsers, a: I.Article, s1: Store, i: PatchsetId, n: PatchId)
    requires Consistent(s) && IsMail(a) && a.messageId in s.messages && a.patch.Some?
    requires P.CreatePatchset(s, ps, I.SubmissionOf(a, s.messages[a.messageId].thread)) == (s1, Ok(i))
    requires i in s1.patchsets && IsNextRowId(n, s1.patches.Keys)
    requires forall q :: q in s1.patches ==> s1.patches[q].messageId != a.patch.value.messageId
    requires !P.IndexTaken(s1.patches, i, a.patch.value.partIndex, a.patch.value.messageId)
    ensures var (s', p) := (I.Assemble(s, ps, a), a.patch.value);
            && s'.patches == s1.patches[n := Patch(i, p.messageId, p.partIndex, p.diff)]
            && s'.patchsets == s1.patchsets[i :=
                 P.PromoteIfFull(s1.patchsets[i].(received := Some(|PatchesOf(s'.patches, i)|)))]
            && s'.messages == s.messages && Consistent(s')
  {
    I.AssembleKeeps(s, ps, a);
    NextRowIdIs(s1.patches.Keys, n);
    var p := a.patch.value;
    var s2 := I.LinkPatchset(s1, i, a.subsystems);
    P.StoreNew(s2, i, p.messageId, p.partIndex, p.diff, n);
    assert I.Assemble(s, ps, a) == P.CreatePatch(s2, i, p.messageId, p.partIndex, p.diff).0;
  }

  lemma RunAppend(ps: P.Parsers, events: seq<I.Event>, e: I.Event)
    ensures I.Run(ps, events + [e]) == I.Step(I.Run(ps, events), ps, e)
  {
    assert (events + [e])[..|events|] == events;
  }

  /** A message whose thread was just opened shares it with nothing in the tables. */
  lemma FreshThread(s: Store, t: ThreadId)
    requires Consistent(s) && t !in s.threads
    ensures forall i :: i in s.patchsets ==> s.patchsets[i].thread != t
  {
  }

  // ---------------------------------------------------------------- one part in three

  const COVER_OF_THREE := "[PATCH 0/3] net: fix"
  const SECOND_OF_THREE := "[PATCH 2/3] net: b"
  const LONE := "[PATCH] net: c"

  /** A cover letter for three parts, the second part, and a patch without a number, both in reply to it. */
  function ThreeParts(v: Option<nat>): seq<I.Event> {
    [I.Ingested(Mail("c", None, COVER_OF_THREE, 0, 3, v, false)),
     I.Ingested(Mail("p", Some("c"), SECOND_OF_THREE, 2, 3, v, true)),
     I.Ingested(Mail("m", Some("c"), LONE, 1, 1, None, true))]
  }

  function SeriesOfThree(thread: ThreadId, received: nat): Patchset {
    Patchset(thread, Some("c"), COVER_OF_THREE, 0, Some(AUTHOR), 0, Some(3), Some(received), Incomplete, 1)
  }

  ghost predicate Announced(s: Store) {
    && Consistent(s) && s.messages.Keys == {"c"} && s.patches == map[]
    && s.patchsets == map[1 := SeriesOfThree(s.messages["c"].thread, 0)]
  }

  ghost predicate OneOfThree(s: Store) {
    && Consistent(s) && s.messages.Keys == {"c", "p"} && s.patches == map[1 := Patch(1, "p", 2, DIFF)]
    && s.patchsets == map[1 := SeriesOfThree(s.messages["c"].thread, 1)]
  }

  lemma CoverAnnounces(ps: P.Parsers, v: Option<nat>)
    ensures Announced(I.Process(EMPTY, ps, Mail("c", None, COVER_OF_THREE, 0, 3, v, false)))
  {
    FirstMail(ps, Mail("c", None, COVER_OF_THREE, 0, 3, v, false));
  }

  lemma NothingMatches(s: Store, ps: P.Parsers, sub: P.Submission)
    requires s.patchsets == map[]
    ensures P.OpensNew(s, ps, sub)
  {
    assert P.CoverHit(s, ps, sub).None? && P.Candidates(s, sub) == {};
    assert P.MatchSet(s, ps, sub) == {};
  }

  function SecondPart(ps: P.Parsers): I.Article {
    Mail("p", Some("c"), SECOND_OF_THREE, 2, 3, ps.version(COVER_OF_THREE), true)
  }

  /** The second part is found by its cover letter and changes nothing of the patchset's row. */
  lemma SecondPartAdopted(s: Store, ps: P.Parsers)
    requires "c" in s.messages && s.patches == map[]
    requires s.patchsets == map[1 := SeriesOfThree(s.messages["c"].thread, 0)]
    ensures P.CreatePatchset(s, ps, I.SubmissionOf(SecondPart(ps), s.messages["c"].thread)) == (s, Ok(1))
  {
    var sub := I.SubmissionOf(SecondPart(ps), s.messages["c"].thread);
    assert P.ByCover(s, ps, sub, "c") == {1};
    LowestIs({1}, 1);
    assert P.CoverHit(s, ps, sub) == Some(1);
    assert P.Adopted(s.patchsets[1], sub) == s.patchsets[1];
    assert s.patchsets[1 := s.patchsets[1]] == s.patchsets;
  }

  lemma SecondPartStored(s: Store, ps: P.Parsers, a: I.Article, t: ThreadId)
    requires Consistent(s) && IsMail(a) && a.messageId == "p" && a.patch == Some(I.PatchBody("p", 2, DIFF))
    requires s.messages.Keys == {"c", "p"} && s.messages["p"].thread == t && s.messages["c"].thread == t
    requires s.patches == map[] && s.patchsets == map[1 := SeriesOfThree(t, 0)]
    requires P.CreatePatchset(s, ps, I.SubmissionOf(a, t)) == (s, Ok(1))
    ensures OneOfThree(I.Assemble(s, ps, a))
  {
    Stored(s, ps, a, s, 1, 1);
    SecondPartTables(I.Assemble(s, ps, a), s, t);
  }

  lemma SecondPartTables(s': Store, s: Store, t: ThreadId)
    requires Consistent(s') && s'.messages == s.messages && s.messages.Keys == {"c", "p"} && s.messages["c"].thread == t
    requires s'.patches == map[][1 := Patch(1, "p", 2, DIFF)]
    requires s'.patchsets == map[1 := SeriesOfThree(t, 0)][1 :=
               P.PromoteIfFull(SeriesOfThree(t, 0).(received := Some(|PatchesOf(s'.patches, 1)|)))]
    ensures OneOfThree(s')
  {
    assert PatchesOf(s'.patches, 1) == {1};
  }

  lemma SecondPartJoins(s: Store, ps: P.Parsers)
    requires Announced(s)
    ensures OneOfThree(I.Process(s, ps, SecondPart(ps)))
  {
    assert "p"[0] != "c"[0];
    var s1, t := MailArrives(s, ps, SecondPart(ps));
    SecondPartAdopted(s1, ps);
    SecondPartStored(s1, ps, SecondPart(ps), t);
  }

  function LonePatch(): I.Article {
    Mail("m", Some("c"), LONE, 1, 1, None, true)
  }

  lemma LoneMatches(s: Store, ps: P.Parsers, t: ThreadId)
    requires s.patches == map[1 := Patch(1, "p", 2, DIFF)]
    requires s.patchsets == map[1 := SeriesOfThree(t, 1)]
    ensures var sub := I.SubmissionOf(LonePatch(), t);
            P.TiesTogether(s, ps, sub) && P.MatchSet(s, ps, sub) == {1}
  {
    var sub := I.SubmissionOf(LonePatch(), t);
    assert "m"[0] != "c"[0] && "p"[0] != "m"[0] && |"m" + P.LOCAL_SUFFIX| != |"c"|;
    assert P.ByCover(s, ps, sub, "m") == {} && P.ByCover(s, ps, sub, "m" + P.LOCAL_SUFFIX) == {};
    assert P.CoverHit(s, ps, sub).None?;
    assert P.Candidates(s, sub) == {1};
    assert !P.HasMessage(s.patches, 1, "m") && !P.IndexTaken(s.patches, 1, 1, "m");
    assert P.Matches(ps, sub, s.patchsets[1], false, false, P.KnownPrefix(s.patches, 1, s.patchsets[1]));
    assert 1 in P.MatchSet(s, ps, sub);
  }

  /** The lone patch is taken for the whole series: the announced length drops to one and the patchset is ready. */
  lemma LoneLowers(s: Store, ps: P.Parsers, t: ThreadId)
    requires s.patches == map[1 := Patch(1, "p", 2, DIFF)]
    requires s.patchsets == map[1 := SeriesOfThree(t, 1)]
    ensures var row := SeriesOfThree(t, 1).(cover := Some("m"), total := Some(1), status := Pending);
            P.CreatePatchset(s, ps, I.SubmissionOf(LonePatch(), t))
            == (s.(patchsets := map[1 := row]), Ok(1))
  {
    var sub := I.SubmissionOf(LonePatch(), t);
    LoneMatches(s, ps, t);
    P.SearchOutcome(s, ps, sub);
    LowestIs({1}, 1);
    LoneAbsorbed(s, t);
  }

  lemma LoneAbsorbed(s: Store, t: ThreadId)
    requires s.patches == map[1 := Patch(1, "p", 2, DIFF)]
    requires s.patchsets == map[1 := SeriesOfThree(t, 1)]
    ensures P.Absorb(s, I.SubmissionOf(LonePatch(), t), {1}) == s.(patchsets := map[1 :=
              SeriesOfThree(t, 1).(cover := Some("m"), total := Some(1), status := Pending)])
  {
    var sub := I.SubmissionOf(LonePatch(), t);
    LowestIs({1}, 1);
    P.AbsorbOne(s, sub, 1);
    assert PatchesOf(s.patches, 1) == {1};
    LoneRow(t);
    OneRow(s.patchsets, P.Absorbed(s.patchsets[1], sub, false, 1));
  }

  lemma LoneRow(t: ThreadId)
    ensures P.Absorbed(SeriesOfThree(t, 1), I.SubmissionOf(LonePatch(), t), false, 1)
         == SeriesOfThree(t, 1).(cover := Some("m"), total := Some(1), status := Pending)
  {
  }

  lemma OneRow(patchsets: map<PatchsetId, Patchset>, row: Patchset)
    requires patchsets.Keys == {1}
    ensures patchsets[1 := row] == map[1 := row]
  {
  }

  ghost predicate CutShort(s: Store) {
    && s.patchsets.Keys == {1} && s.patchsets[1].status == Pending && s.patchsets[1].total == Some(1)
    && s.patches == map[1 := Patch(1, "p", 2, DIFF), 2 := Patch(1, "m", 1, DIFF)]
  }

  lemma CutAfter(s: Store, ps: P.Parsers, a: I.Article, row: Patchset)
    requires Consistent(s) && IsMail(a) && a.messageId == "m" && a.messageId in s.messages
    requires a.patch == Some(I.PatchBody("m", 1, DIFF)) && s.patches == map[1 := Patch(1, "p", 2, DIFF)]
    requires row.total == Some(1) && row.status == Pending
    requires P.CreatePatchset(s, ps, I.SubmissionOf(a, s.messages[a.messageId].thread))
          == (s.(patchsets := map[1 := row]), Ok(1))
    ensures CutShort(I.Assemble(s, ps, a))
  {
    var s2 := s.(patchsets := map[1 := row]);
    LoneIsFree(s.patches);
    Stored(s, ps, a, s2, 1, 2);
    var s' := I.Assemble(s, ps, a);
    CutTables(s', s.patches, row, |PatchesOf(s'.patches, 1)|);
  }

  lemma CutTables(s: Store, patches: map<PatchId, Patch>, row: Patchset, n: nat)
    requires patches == map[1 := Patch(1, "p", 2, DIFF)] && s.patches == patches[2 := Patch(1, "m", 1, DIFF)]
    requires row.total == Some(1) && row.status == Pending
    requires s.patchsets == map[1 := row][1 := P.PromoteIfFull(row.(received := Some(n)))]
    ensures CutShort(s)
  {
  }

  lemma LoneTables(s: Store, ps: P.Parsers, s1: Store, t: ThreadId)
    requires s1.messages == s.messages["m" := Message(t, LonePatch().content)] && Consistent(s1)
    requires s1.patches == map[1 := Patch(1, "p", 2, DIFF)] && s1.patchsets == map[1 := SeriesOfThree(t, 1)]
    ensures CutShort(I.Assemble(s1, ps, LonePatch()))
  {
    LoneLowers(s1, ps, t);
    CutAfter(s1, ps, LonePatch(), SeriesOfThree(t, 1).(cover := Some("m"), total := Some(1), status := Pending));
  }

  lemma LoneIsFree(patches: map<PatchId, Patch>)
    requires patches == map[1 := Patch(1, "p", 2, DIFF)]
    ensures IsNextRowId(2, patches.Keys) && !P.IndexTaken(patches, 1, 1, "m")
    ensures forall q :: q in patches ==> patches[q].messageId != "m"
  {
    assert "m"[0] != "p"[0];
  }

  lemma LoneLosesTwo(s: Store, ps: P.Parsers)
    requires OneOfThree(s)
    ensures CutShort(I.Process(s, ps, LonePatch()))
  {
    assert "m"[0] != "c"[0] && "m"[0] != "p"[0];
    var s1, t := MailArrives(s, ps, LonePatch());
    LoneTables(s, ps, s1, t);
  }

  /**
   A series announced with three parts is made ready for review after one of them and a lone patch sent in reply to
   its cover letter: its length has dropped from three to one, and parts 1 and 3 never came.
   */
  lemma SeriesCutShort(ps: P.Parsers)
    ensures var events := ThreeParts(ps.version(COVER_OF_THREE));
            var (before, after) := (I.Run(ps, events[..2]), I.Run(ps, events));
            && 1 in before.patchsets && before.patchsets[1].total == Some(3) && before.patchsets[1].status == Incomplete
            && CutShort(after)
  {
    var v := ps.version(COVER_OF_THREE);
    var events := ThreeParts(v);
    assert events == [events[0], events[1], events[2]] && events[..2] == [events[0], events[1]];
    RunThree(ps, events[0], events[1], events[2]);
    CoverThenSecond(ps, v);
    LoneLosesTwo(I.Run(ps, events[..2]), ps);
  }

  lemma CoverThenSecond(ps: P.Parsers, v: Option<nat>)
    requires v == ps.version(COVER_OF_THREE)
    ensures OneOfThree(I.Run(ps, [ThreeParts(v)[0], ThreeParts(v)[1]]))
  {
    var events := ThreeParts(v);
    CoverAnnounces(ps, v);
    RunThree(ps, events[0], events[1], events[2]);
    SecondPartJoins(I.Run(ps, [events[0]]), ps);
  }

  // ---------------------------------------------------------------- two parts in three

  const FIRST_OF_OTHER := "[PATCH 1/2] net: c"

  /** The same cover letter and second part, and a first part of two in reply to the cover letter. */
  function OtherLength(v: Option<nat>): seq<I.Event> {
    [ThreeParts(v)[0], ThreeParts(v)[1], I.Ingested(OtherFirst(v))]
  }

  function OtherFirst(v: Option<nat>): I.Article {
    Mail("m", Some("c"), FIRST_OF_OTHER, 1, 2, v, true)
  }

  /** It is found by its cover letter, and what was announced as three parts is now two. */
  lemma OtherAdopted(s: Store, ps: P.Parsers, t: ThreadId)
    requires s.patches == map[1 := Patch(1, "p", 2, DIFF)] && s.patchsets == map[1 := SeriesOfThree(t, 1)]
    ensures P.CreatePatchset(s, ps, I.SubmissionOf(OtherFirst(ps.version(COVER_OF_THREE)), t))
         == (s.(patchsets := map[1 := SeriesOfThree(t, 1).(total := Some(2))]), Ok(1))
  {
    var sub := I.SubmissionOf(OtherFirst(ps.version(COVER_OF_THREE)), t);
    LoneIsFree(s.patches);
    assert P.ByCover(s, ps, sub, "c") == {1};
    LowestIs({1}, 1);
    assert P.CoverHit(s, ps, sub) == Some(1);
    var row := SeriesOfThree(t, 1).(total := Some(2));
    assert P.Adopted(s.patchsets[1], sub) == row;
    assert s.patchsets[1 := row] == map[1 := row];
  }

  ghost predicate CutToTwo(s: Store) {
    && s.patchsets.Keys == {1} && s.patchsets[1].status == Pending && s.patchsets[1].total == Some(2)
    && s.patches == map[1 := Patch(1, "p", 2, DIFF), 2 := Patch(1, "m", 1, DIFF)]
  }

  lemma CutToTwoTables(s: Store, patches: map<PatchId, Patch>, row: Patchset)
    requires patches == map[1 := Patch(1, "p", 2, DIFF)] && s.patches == patches[2 := Patch(1, "m", 1, DIFF)]
    requires row.total == Some(2) && row.status == Incomplete
    requires s.patchsets == map[1 := row][1 := P.PromoteIfFull(row.(received := Some(|PatchesOf(s.patches, 1)|)))]
    ensures CutToTwo(s)
  {
    assert PatchesOf(s.patches, 1) == {1, 2};
  }

  lemma OtherStored(s: Store, ps: P.Parsers, a: I.Article, row: Patchset)
    requires Consistent(s) && IsMail(a) && a.messageId == "m" && a.messageId in s.messages
    requires a.patch == Some(I.PatchBody("m", 1, DIFF)) && s.patches == map[1 := Patch(1, "p", 2, DIFF)]
    requires row.total == Some(2) && row.status == Incomplete
    requires P.CreatePatchset(s, ps, I.SubmissionOf(a, s.messages[a.messageId].thread))
          == (s.(patchsets := map[1 := row]), Ok(1))
    ensures CutToTwo(I.Assemble(s, ps, a))
  {
    LoneIsFree(s.patches);
    Stored(s, ps, a, s.(patchsets := map[1 := row]), 1, 2);
    CutToTwoTables(I.Assemble(s, ps, a), s.patches, row);
  }

  lemma OtherCuts(s: Store, ps: P.Parsers)
    requires OneOfThree(s)
    ensures CutToTwo(I.Process(s, ps, OtherFirst(ps.version(COVER_OF_THREE))))
  {
    var a := OtherFirst(ps.version(COVER_OF_THREE));
    assert "m"[0] != "c"[0] && "m"[0] != "p"[0];
    var s1, t := MailArrives(s, ps, a);
    OtherAdopted(s1, ps, t);
    OtherStored(s1, ps, a, SeriesOfThree(t, 1).(total := Some(2)));
  }

  /**
   A series announced with three parts is made ready for review without part 3: a part that says "1/2" and answers
   the cover letter is adopted by the first search, which takes over its length.
   */
  lemma SeriesCutToTwo(ps: P.Parsers)
    ensures var events := OtherLength(ps.version(COVER_OF_THREE));
            var (before, after) := (I.Run(ps, events[..2]), I.Run(ps, events));
            && 1 in before.patchsets && before.patchsets[1].total == Some(3) && before.patchsets[1].status == Incomplete
            && CutToTwo(after)
  {
    var v := ps.version(COVER_OF_THREE);
    var events := OtherLength(v);
    assert events == [events[0], events[1], events[2]] && events[..2] == [events[0], events[1]];
    RunThree(ps, events[0], events[1], events[2]);
    CoverThenSecond(ps, v);
    OtherCuts(I.Run(ps, events[..2]), ps);
  }

  // ---------------------------------------------------------------- a patchset that waits for nothing

  /** The first mail of all, without a patch. */
  lemma FirstMail(ps: P.Parsers, a: I.Article)
    requires IsMail(a) && a.content.inReplyTo.None? && a.patch.None?
    ensures var s := I.Process(EMPTY, ps, a);
            && Consistent(s) && s.messages.Keys == {a.messageId} && s.patches == map[]
            && s.patchsets == map[1 := P.Inserted(I.SubmissionOf(a, s.messages[a.messageId].thread))]
  {
    var s1, t := MailArrives(EMPTY, ps, a);
    var sub := I.SubmissionOf(a, t);
    NothingMatches(s1, ps, sub);
    P.SearchOutcome(s1, ps, sub);
    NextRowIdIs({}, 1);
    Placed(s1, ps, a, s1.(patchsets := map[1 := P.Inserted(sub)]), 1);
  }

  const COVER_OF_NONE := "[PATCH 0/0] net: fix"

  /** A cover letter announced with no parts leaves a patchset `Incomplete` that has all its parts. */
  lemma EmptySeriesWaits(ps: P.Parsers)
    ensures var s := I.Run(ps, [I.Ingested(Mail("c", None, COVER_OF_NONE, 0, 0, None, false))]);
            && s.patchsets.Keys == {1} && s.patchsets[1].status == Incomplete && Full(s.patchsets[1])
            && !NoneStuck(s)
  {
    var a := Mail("c", None, COVER_OF_NONE, 0, 0, None, false);
    FirstMail(ps, a);
    RunAppend(ps, [], I.Ingested(a));
    assert [] + [I.Ingested(a)] == [I.Ingested(a)];
  }

  // ---------------------------------------------------------------- a patch that is dropped

  /** The message id a fetch is requested by. */
  const ROOT: MessageId := "root@example.org"

  function Placeholder(thread: ThreadId, subject: string, now: int): Patchset {
    Patchset(thread, Some(ROOT), subject, 9999, None, now, None, None, Fetching, 1)
  }

  lemma FetchAnnounced(subject: string, now: int)
    ensures var s := P.CreateFetching(EMPTY, ROOT, subject, now).0;
            && s.messages.Keys == {ROOT} && s.patches == map[]
            && s.patchsets == map[1 := Placeholder(s.messages[ROOT].thread, subject, now)]
  {
    assert ROOT[4] == '@' && P.RootId(ROOT) == ROOT;
    assert P.FetchingHit(EMPTY, ROOT).None?;
    NextRowIdIs({}, 1);
  }

  function AnswerToRoot(): I.Article {
    Mail("m", Some(ROOT), LONE, 1, 1, None, true)
  }

  lemma AnswerIsBlocked(s: Store, ps: P.Parsers, t: ThreadId, subject: string, now: int)
    requires s.patchsets == map[1 := Placeholder(t, subject, now)]
    ensures P.Blocked(s, ps, I.SubmissionOf(AnswerToRoot(), t))
  {
    var sub := I.SubmissionOf(AnswerToRoot(), t);
    assert |ROOT| != |"m"| && |ROOT| != |"m" + P.LOCAL_SUFFIX|;
    assert P.ByCover(s, ps, sub, "m") == {} && P.ByCover(s, ps, sub, "m" + P.LOCAL_SUFFIX) == {};
    assert P.AuthorlessIn(s.patchsets[1], t);
  }

  /** A fetch is announced, and before it is carried out a patch arrives in reply to its root: the patch is dropped. */
  lemma AnswerIsDropped(ps: P.Parsers, subject: string, now: int)
    ensures var s := I.Run(ps, [I.FetchRequested(ROOT, subject, now), I.Ingested(AnswerToRoot())]);
            && "m" in s.messages && s.patches == map[] && s.patchsets.Keys == {1} && s.patchsets[1].author.None?
  {
    var e := I.FetchRequested(ROOT, subject, now);
    RunAppend(ps, [], e);
    RunAppend(ps, [e], I.Ingested(AnswerToRoot()));
    assert [] + [e] == [e] && [e] + [I.Ingested(AnswerToRoot())] == [e, I.Ingested(AnswerToRoot())];
    FetchAnnounced(subject, now);
    I.RunConsistent(ps, [e]);
    AnswerChangesNothing(I.Run(ps, [e]), ps, subject, now);
  }

  lemma AnswerChangesNothing(s: Store, ps: P.Parsers, subject: string, now: int)
    requires Consistent(s) && s.messages.Keys == {ROOT} && s.patches == map[]
    requires s.patchsets == map[1 := Placeholder(s.messages[ROOT].thread, subject, now)]
    ensures var s' := I.Process(s, ps, AnswerToRoot());
            "m" in s'.messages && s'.patches == map[] && s'.patchsets == s.patchsets
  {
    assert |ROOT| != |"m"|;
    var s1, t := MailArrives(s, ps, AnswerToRoot());
    AnswerRefused(s1, ps, t, subject, now);
  }

  lemma AnswerRefused(s: Store, ps: P.Parsers, t: ThreadId, subject: string, now: int)
    requires Consistent(s) && "m" in s.messages && s.messages["m"].thread == t
    requires s.patchsets == map[1 := Placeholder(t, subject, now)]
    ensures I.Assemble(s, ps, AnswerToRoot()) == s
  {
    AnswerIsBlocked(s, ps, t, subject, now);
    I.AssembleStoresThePart(s, ps, AnswerToRoot());
  }

  // ---------------------------------------------------------------- one part twice

  /** The part before the dash of the message ids of one git send-email run. */
  const SENT := "20240102030405.1234"

  /** A mail that opens a patchset and brings the first patch of it. */
  lemma OpenedAndStored(s: Store, ps: P.Parsers, a: I.Article, i: PatchsetId, n: PatchId)
    requires Consistent(s) && IsMail(a) && a.messageId in s.messages && a.patch.Some?
    requires P.OpensNew(s, ps, I.SubmissionOf(a, s.messages[a.messageId].thread))
    requires IsNextRowId(i, s.patchsets.Keys) && IsNextRowId(n, s.patches.Keys)
    requires forall q :: q in s.patches ==> s.patches[q].messageId != a.patch.value.messageId
    ensures var (s', p) := (I.Assemble(s, ps, a), a.patch.value);
            var sub := I.SubmissionOf(a, s.messages[a.messageId].thread);
            && s'.patches == s.patches[n := Patch(i, p.messageId, p.partIndex, p.diff)]
            && s'.patchsets == s.patchsets[i := P.PromoteIfFull(P.Inserted(sub).(received := Some(1)))]
            && s'.messages == s.messages && Consistent(s')
  {
    var sub := I.SubmissionOf(a, s.messages[a.messageId].thread);
    var s1 := OpenedRow(s, ps, sub, i, a.patch.value);
    Stored(s, ps, a, s1, i, n);
    OnePatch(s.patches, n, Patch(i, a.patch.value.messageId, a.patch.value.partIndex, a.patch.value.diff));
    OnceMore(s.patchsets, i, P.Inserted(sub), P.PromoteIfFull(P.Inserted(sub).(received := Some(1))));
  }

  lemma OpenedRow(s: Store, ps: P.Parsers, sub: P.Submission, i: PatchsetId, p: I.PatchBody) returns (s1: Store)
    requires Consistent(s) && P.OpensNew(s, ps, sub) && IsNextRowId(i, s.patchsets.Keys)
    ensures s1 == s.(patchsets := s.patchsets[i := P.Inserted(sub)])
    ensures P.CreatePatchset(s, ps, sub) == (s1, Ok(i))
    ensures PatchesOf(s.patches, i) == {} && !P.IndexTaken(s1.patches, i, p.partIndex, p.messageId)
  {
    I.NewRowTakesPatch(s, ps, sub);
    NextRowIdIs(s.patchsets.Keys, i);
    s1 := s.(patchsets := s.patchsets[i := P.Inserted(sub)]);
  }

  lemma OnePatch(patches: map<PatchId, Patch>, n: PatchId, row: Patch)
    requires PatchesOf(patches, row.patchset) == {} && n !in patches
    ensures |PatchesOf(patches[n := row], row.patchset)| == 1
  {
    assert PatchesOf(patches[n := row], row.patchset) == {n};
  }

  lemma OnceMore<K, V>(m: map<K, V>, k: K, v: V, w: V)
    ensures m[k := v][k := w] == m[k := w]
  {
  }

  /** The first mail of all, with a patch. */
  lemma FirstPatchMail(ps: P.Parsers, a: I.Article)
    requires IsMail(a) && a.content.inReplyTo.None? && a.patch.Some?
    ensures var (s, p) := (I.Process(EMPTY, ps, a), a.patch.value);
            && s.messages.Keys == {a.messageId} && s.patches == map[1 := Patch(1, p.messageId, p.partIndex, p.diff)]
            && s.patchsets == map[1 := P.PromoteIfFull(
                 P.Inserted(I.SubmissionOf(a, s.messages[a.messageId].thread)).(received := Some(1)))]
  {
    var s1, t := MailArrives(EMPTY, ps, a);
    NothingMatches(s1, ps, I.SubmissionOf(a, t));
    OpenedAndStored(s1, ps, a, 1, 1);
  }

  const FIRST_OF_TWO := "[PATCH 1/2] net: fix"
  const COVER_OF_TWO := "[PATCH 0/2] net: fix"

  /** A message id of that run. */
  function Id(number: string): MessageId {
    SENT + "-" + number
  }

  /** Two message ids of one git send-email run. */
  ghost predicate SentTogether(x: MessageId, y: MessageId) {
    x != y && P.BeforeDash(x) == P.BeforeDash(y) && |P.BeforeDash(x)| > 10
  }

  lemma IdsSentTogether(a: string, b: string)
    requires |a| == 1 && |b| == 1 && a != b
    ensures SentTogether(Id(a), Id(b))
  {
    var n := |SENT + "-"|;
    assert Id(a)[n] == a[0] && Id(b)[n] == b[0];
    assert a == [a[0]] && b == [b[0]];
    P.BeforeDashOf(SENT, a);
    P.BeforeDashOf(SENT, b);
  }

  /** The first part of two, the same part sent again on its own, and then the cover letter, none of them a reply. */
  function ResentPart(v: Option<nat>): seq<I.Event> {
    [I.Ingested(PartMail(Id("1"), v)), I.Ingested(PartMail(Id("2"), v)), I.Ingested(LateCover(Id("3"), v))]
  }

  function PartMail(m: MessageId, v: Option<nat>): I.Article {
    Mail(m, None, FIRST_OF_TWO, 1, 2, v, true)
  }

  function LateCover(m: MessageId, v: Option<nat>): I.Article {
    Mail(m, None, COVER_OF_TWO, 0, 2, v, false)
  }

  function HalfOfTwo(thread: ThreadId): Patchset {
    Patchset(thread, None, FIRST_OF_TWO, 1, Some(AUTHOR), 0, Some(2), Some(1), Incomplete, 1)
  }

  ghost predicate OneHalf(s: Store, x: MessageId) {
    && s.patches == map[1 := Patch(1, x, 1, DIFF)]
    && s.patchsets.Keys == {1} && s.patchsets[1] == HalfOfTwo(s.patchsets[1].thread)
  }

  ghost predicate TwoHalves(s: Store, x: MessageId, y: MessageId) {
    && s.patches == map[1 := Patch(1, x, 1, DIFF), 2 := Patch(2, y, 1, DIFF)]
    && s.patchsets.Keys == {1, 2} && s.patchsets[1] == HalfOfTwo(s.patchsets[1].thread)
    && s.patchsets[2] == HalfOfTwo(s.patchsets[2].thread)
  }

  lemma FirstHalf(ps: P.Parsers, x: MessageId, v: Option<nat>)
    ensures OneHalf(I.Process(EMPTY, ps, PartMail(x, v)), x)
    ensures I.Process(EMPTY, ps, PartMail(x, v)).messages.Keys == {x}
  {
    FirstPatchMail(ps, PartMail(x, v));
  }

  /** A part with an index the only candidate already has opens a patchset of its own. */
  lemma ResentOpensNew(s: Store, ps: P.Parsers, t: ThreadId, x: MessageId, m: MessageId, v: Option<nat>)
    requires OneHalf(s, x) && x != m
    ensures P.OpensNew(s, ps, I.SubmissionOf(PartMail(m, v), t))
  {
    var sub := I.SubmissionOf(PartMail(m, v), t);
    assert P.ByCover(s, ps, sub, m + P.LOCAL_SUFFIX) == {};
    assert P.CoverHit(s, ps, sub).None?;
    assert 1 in s.patches && s.patches[1].partIndex == 1;
    assert P.IndexTaken(s.patches, 1, 1, m);
    assert P.MatchSet(s, ps, sub) == {};
  }

  lemma SecondHalfStored(s: Store, ps: P.Parsers, a: I.Article, t: ThreadId, x: MessageId, y: MessageId, row: Patchset)
    requires Consistent(s) && OneHalf(s, x) && NextRowsAreTwo(s) && SeenByNone(s, y)
    requires IsMail(a) && a.messageId == y && a.patch == Some(I.PatchBody(y, 1, DIFF))
    requires y in s.messages && s.messages[y].thread == t && P.OpensNew(s, ps, I.SubmissionOf(a, t))
    requires row == P.Inserted(I.SubmissionOf(a, t)) && row == HalfOfTwo(t).(received := Some(0))
    ensures TwoHalves(I.Assemble(s, ps, a), x, y) && I.Assemble(s, ps, a).messages == s.messages
  {
    OpenedAndStored(s, ps, a, 2, 2);
    HalvesTables(I.Assemble(s, ps, a), s, x, y, t, row);
  }

  ghost predicate NextRowsAreTwo(s: Store) {
    IsNextRowId(2, s.patches.Keys) && IsNextRowId(2, s.patchsets.Keys)
  }

  lemma OnlyRowOne(s: Store, x: MessageId, y: MessageId, index: nat)
    requires s.patches == map[1 := Patch(1, x, index, DIFF)] && s.patchsets.Keys == {1} && x != y
    ensures NextRowsAreTwo(s) && SeenByNone(s, y)
  {
  }

  ghost predicate SeenByNone(s: Store, m: MessageId) {
    forall q :: q in s.patches ==> s.patches[q].messageId != m
  }

  lemma HalvesTables(s': Store, s: Store, x: MessageId, y: MessageId, t: ThreadId, row: Patchset)
    requires OneHalf(s, x) && row == HalfOfTwo(t).(received := Some(0))
    requires s'.patches == s.patches[2 := Patch(2, y, 1, DIFF)]
    requires s'.patchsets == s.patchsets[2 := P.PromoteIfFull(row.(received := Some(1)))]
    ensures TwoHalves(s', x, y)
  {
  }

  lemma SecondHalf(s: Store, ps: P.Parsers, x: MessageId, y: MessageId, v: Option<nat>)
    requires Consistent(s) && OneHalf(s, x) && s.messages.Keys == {x} && x != y
    ensures var s' := I.Process(s, ps, PartMail(y, v));
            TwoHalves(s', x, y) && s'.messages.Keys == {x, y}
  {
    var s1, t := MailArrives(s, ps, PartMail(y, v));
    SecondHalfTables(s1, ps, t, x, y, v);
  }

  lemma SecondHalfTables(s: Store, ps: P.Parsers, t: ThreadId, x: MessageId, y: MessageId, v: Option<nat>)
    requires Consistent(s) && OneHalf(s, x) && x != y && y in s.messages && s.messages[y].thread == t
    ensures TwoHalves(I.Assemble(s, ps, PartMail(y, v)), x, y)
    ensures I.Assemble(s, ps, PartMail(y, v)).messages == s.messages
  {
    ResentOpensNew(s, ps, t, x, y, v);
    OnlyRowOne(s, x, y, 1);
    SecondHalfStored(s, ps, PartMail(y, v), t, x, y, HalfOfTwo(t).(received := Some(0)));
  }

  /** What is asked of the parsers: the two subjects carry the same prefixes. */
  predicate SamePrefixes(ps: P.Parsers, x: string, y: string) {
    ps.prefixes(x) == ps.prefixes(y)
  }

  /** The cover letter belongs with a half whose patch was sent in the same run. */
  lemma HalfMatches(ps: P.Parsers, row: Patchset, t: ThreadId, x: MessageId, m: MessageId)
    requires row == HalfOfTwo(row.thread) && SentTogether(x, m) && SamePrefixes(ps, COVER_OF_TWO, FIRST_OF_TWO)
    ensures P.Matches(ps, I.SubmissionOf(LateCover(m, ps.version(FIRST_OF_TWO)), t), row, false, false,
                      Some(P.BeforeDash(x)))
  {
  }

  lemma KnownFromPatch(s: Store, i: PatchsetId, p: PatchId)
    requires i in s.patchsets && s.patchsets[i].cover.None? && p in s.patches && PatchesOf(s.patches, i) == {p}
    ensures P.KnownPrefix(s.patches, i, s.patchsets[i]) == Some(P.BeforeDash(s.patches[p].messageId))
  {
    LowestIs({p}, p);
  }

  lemma HalvesApart(patches: map<PatchId, Patch>, x: MessageId, y: MessageId)
    requires patches == map[1 := Patch(1, x, 1, DIFF), 2 := Patch(2, y, 1, DIFF)]
    ensures PatchesOf(patches, 1) == {1} && PatchesOf(patches, 2) == {2}
    ensures forall i, m :: m != x && m != y ==> !P.HasMessage(patches, i, m) && !P.IndexTaken(patches, i, 0, m)
  {
  }

  lemma CoverTiesHalves(s: Store, ps: P.Parsers, t: ThreadId, x: MessageId, y: MessageId, m: MessageId)
    requires TwoHalves(s, x, y) && SentTogether(x, m) && SentTogether(y, m)
    requires SamePrefixes(ps, COVER_OF_TWO, FIRST_OF_TWO)
    ensures var sub := I.SubmissionOf(LateCover(m, ps.version(FIRST_OF_TWO)), t);
            P.TiesTogether(s, ps, sub) && P.MatchSet(s, ps, sub) == {1, 2}
  {
    var sub := I.SubmissionOf(LateCover(m, ps.version(FIRST_OF_TWO)), t);
    assert P.CoverHit(s, ps, sub).None? by {
      assert P.ByCover(s, ps, sub, m) == {} && P.ByCover(s, ps, sub, m + P.LOCAL_SUFFIX) == {};
    }
    assert P.Candidates(s, sub) == {1, 2};
    HalvesApart(s.patches, x, y);
    KnownFromPatch(s, 1, 1);
    KnownFromPatch(s, 2, 2);
    HalfMatches(ps, s.patchsets[1], t, x, m);
    HalfMatches(ps, s.patchsets[2], t, y, m);
  }

  ghost predicate PartTwice(s: Store, x: MessageId, y: MessageId) {
    && s.patchsets.Keys == {1} && s.patchsets[1].status == Pending && s.patchsets[1].total == Some(2)
    && s.patches == map[1 := Patch(1, x, 1, DIFF), 2 := Patch(1, y, 1, DIFF)]
  }

  lemma MergedPatches(patches: map<PatchId, Patch>, x: MessageId, y: MessageId)
    requires patches == map[1 := Patch(1, x, 1, DIFF), 2 := Patch(2, y, 1, DIFF)]
    ensures var merged := map p | p in patches ::
              if patches[p].patchset == 2 then patches[p].(patchset := 1) else patches[p];
            merged == map[1 := Patch(1, x, 1, DIFF), 2 := Patch(1, y, 1, DIFF)] && PatchesOf(merged, 1) == {1, 2}
  {
  }

  lemma CoverMerges(s: Store, ps: P.Parsers, t: ThreadId, x: MessageId, y: MessageId, m: MessageId)
    requires TwoHalves(s, x, y) && SentTogether(x, m) && SentTogether(y, m)
    requires SamePrefixes(ps, COVER_OF_TWO, FIRST_OF_TWO)
    ensures var (s', r) := P.CreatePatchset(s, ps, I.SubmissionOf(LateCover(m, ps.version(FIRST_OF_TWO)), t));
            r.Ok? && PartTwice(s', x, y)
  {
    var sub := I.SubmissionOf(LateCover(m, ps.version(FIRST_OF_TWO)), t);
    CoverTiesHalves(s, ps, t, x, y, m);
    P.SearchOutcome(s, ps, sub);
    HalvesMerged(s, sub, x, y);
  }

  lemma HalvesMerged(s: Store, sub: P.Submission, x: MessageId, y: MessageId)
    requires TwoHalves(s, x, y) && sub.total == 2
    ensures PartTwice(P.Absorb(s, sub, {1, 2}), x, y)
  {
    P.AbsorbTwo(s, sub, 1, 2);
    MergedPatches(s.patches, x, y);
  }

  lemma CoverMergesHalves(s: Store, ps: P.Parsers, x: MessageId, y: MessageId, m: MessageId)
    requires Consistent(s) && TwoHalves(s, x, y) && s.messages.Keys == {x, y}
    requires SentTogether(x, m) && SentTogether(y, m)
    requires SamePrefixes(ps, COVER_OF_TWO, FIRST_OF_TWO)
    ensures PartTwice(I.Process(s, ps, LateCover(m, ps.version(FIRST_OF_TWO))), x, y)
  {
    var a := LateCover(m, ps.version(FIRST_OF_TWO));
    var s1, t := MailArrives(s, ps, a);
    CoverMerges(s1, ps, t, x, y, m);
    var (s2, r) := P.CreatePatchset(s1, ps, I.SubmissionOf(a, t));
    Placed(s1, ps, a, s2, r.value);
  }

  /**
   Part 1 of 2 comes twice, and then the cover letter ties the two patchsets together: the patchset is made ready
   for review with part 1 twice and no part 2.
   */
  lemma PartComesTwice(ps: P.Parsers)
    requires SamePrefixes(ps, COVER_OF_TWO, FIRST_OF_TWO)
    ensures var s := I.Run(ps, ResentPart(ps.version(FIRST_OF_TWO)));
            PartTwice(s, Id("1"), Id("2")) && !P.DistinctIndices(s.patches, 1) && !P.HoldsEachPartOnce(s.patches, 1, 2)
  {
    var v, x, y, m := ps.version(FIRST_OF_TWO), Id("1"), Id("2"), Id("3");
    var events := ResentPart(v);
    IdsSentTogether("1", "2");
    IdsSentTogether("1", "3");
    IdsSentTogether("2", "3");
    RunThree(ps, events[0], events[1], events[2]);
    FirstHalf(ps, x, v);
    I.RunConsistent(ps, [events[0]]);
    SecondHalf(I.Run(ps, [events[0]]), ps, x, y, v);
    I.RunConsistent(ps, [events[0], events[1]]);
    CoverMergesHalves(I.Run(ps, [events[0], events[1]]), ps, x, y, m);
    assert events == [events[0], events[1], events[2]];
    TwiceMeansIncomplete(I.Run(ps, events), x, y);
  }

  lemma RunThree(ps: P.Parsers, a: I.Event, b: I.Event, c: I.Event)
    ensures I.Run(ps, [a]) == I.Step(EMPTY, ps, a)
    ensures I.Run(ps, [a, b]) == I.Step(I.Run(ps, [a]), ps, b)
    ensures I.Run(ps, [a, b, c]) == I.Step(I.Run(ps, [a, b]), ps, c)
  {
    assert [] + [a] == [a] && [a] + [b] == [a, b] && [a, b] + [c] == [a, b, c];
    RunAppend(ps, [], a);
    RunAppend(ps, [a], b);
    RunAppend(ps, [a, b], c);
  }

  lemma TwiceMeansIncomplete(s: Store, x: MessageId, y: MessageId)
    requires PartTwice(s, x, y)
    ensures !P.DistinctIndices(s.patches, 1) && !P.HoldsEachPartOnce(s.patches, 1, 2)
  {
    assert 1 in PatchesOf(s.patches, 1) && 2 in PatchesOf(s.patches, 1);
    assert forall p :: !P.IsPart(s.patches, 1, 2, p);
    assert !P.HoldsPartOnce(s.patches, 1, 2);
  }

  // ---------------------------------------------------------------- a subject that is lost

  const PART_ONE := "[PATCH 1/3] net: a"
  const PART_TWO := "[PATCH 2/3] net: b"
  const PART_THREE := "[PATCH 3/3] net: c"

  function PartOfThree(m: MessageId, replyTo: Option<MessageId>, subject: string, index: nat, v: Option<nat>)
    : I.Article
  {
    Mail(m, replyTo, subject, index, 3, v, true)
  }

  /** Part 2 and then part 1 on their own, sent in different runs, and part 3, sent with part 2, in reply to part 1. */
  function LateFirst(v: Option<nat>): seq<I.Event> {
    [I.Ingested(Second(Id("2"), v)), I.Ingested(First("b", v)), I.Ingested(Third(Id("3"), "b", v))]
  }

  function Second(m: MessageId, v: Option<nat>): I.Article {
    PartOfThree(m, None, PART_TWO, 2, v)
  }

  function First(m: MessageId, v: Option<nat>): I.Article {
    PartOfThree(m, None, PART_ONE, 1, v)
  }

  function Third(m: MessageId, first: MessageId, v: Option<nat>): I.Article {
    PartOfThree(m, Some(first), PART_THREE, 3, v)
  }

  function ThirdOf(thread: ThreadId, subject: string, index: nat): Patchset {
    Patchset(thread, None, subject, index, Some(AUTHOR), 0, Some(3), Some(1), Incomplete, 1)
  }

  ghost predicate HasSecond(s: Store, x: MessageId) {
    && s.patches == map[1 := Patch(1, x, 2, DIFF)]
    && s.patchsets.Keys == {1} && s.patchsets[1] == ThirdOf(s.patchsets[1].thread, PART_TWO, 2)
  }

  /** Part 2 as x and part 1 as b in patchsets of their own, part 1 in thread t. */
  ghost predicate TablesApart(s: Store, x: MessageId, b: MessageId, t: ThreadId) {
    && s.patches == map[1 := Patch(1, x, 2, DIFF), 2 := Patch(2, b, 1, DIFF)]
    && s.patchsets.Keys == {1, 2} && s.patchsets[1] == ThirdOf(s.patchsets[1].thread, PART_TWO, 2)
    && s.patchsets[1].thread != t && s.patchsets[2] == ThirdOf(t, PART_ONE, 1)
  }

  lemma SecondAlone(ps: P.Parsers, x: MessageId, v: Option<nat>)
    ensures var s := I.Process(EMPTY, ps, Second(x, v));
            HasSecond(s, x) && s.messages.Keys == {x}
  {
    FirstPatchMail(ps, Second(x, v));
  }

  /** A part of a series in a thread of its own, sent in another run, opens a patchset of its own. */
  lemma FirstOpensNew(s: Store, ps: P.Parsers, t: ThreadId, x: MessageId, b: MessageId, v: Option<nat>)
    requires HasSecond(s, x) && s.patchsets[1].thread != t && P.BeforeDash(b) != P.BeforeDash(x)
    ensures P.OpensNew(s, ps, I.SubmissionOf(First(b, v), t))
  {
    var sub := I.SubmissionOf(First(b, v), t);
    assert P.CoverHit(s, ps, sub).None? by { assert P.ByCover(s, ps, sub, b + P.LOCAL_SUFFIX) == {}; }
    assert PatchesOf(s.patches, 1) == {1};
    KnownFromPatch(s, 1, 1);
    assert P.MatchSet(s, ps, sub) == {};
  }

  lemma FirstStored(s: Store, ps: P.Parsers, a: I.Article, t: ThreadId, x: MessageId, b: MessageId, row: Patchset)
    requires Consistent(s) && HasSecond(s, x) && s.patchsets[1].thread != t && NextRowsAreTwo(s) && SeenByNone(s, b)
    requires b in s.messages && s.messages[b].thread == t
    requires IsMail(a) && a.messageId == b && a.patch == Some(I.PatchBody(b, 1, DIFF))
    requires P.OpensNew(s, ps, I.SubmissionOf(a, t))
    requires row == P.Inserted(I.SubmissionOf(a, t)) && row == ThirdOf(t, PART_ONE, 1).(received := Some(0))
    ensures TablesApart(I.Assemble(s, ps, a), x, b, t) && I.Assemble(s, ps, a).messages == s.messages
  {
    OpenedAndStored(s, ps, a, 2, 2);
    FirstTables(I.Assemble(s, ps, a), s, x, b, t, row);
  }

  lemma FirstTables(s': Store, s: Store, x: MessageId, b: MessageId, t: ThreadId, row: Patchset)
    requires HasSecond(s, x) && s.patchsets[1].thread != t && row == ThirdOf(t, PART_ONE, 1).(received := Some(0))
    requires s'.patches == s.patches[2 := Patch(2, b, 1, DIFF)]
    requires s'.patchsets == s.patchsets[2 := P.PromoteIfFull(row.(received := Some(1)))]
    ensures TablesApart(s', x, b, t)
  {
  }

  lemma FirstApart(s: Store, ps: P.Parsers, x: MessageId, b: MessageId, v: Option<nat>)
    requires Consistent(s) && HasSecond(s, x) && s.messages.Keys == {x} && P.BeforeDash(b) != P.BeforeDash(x)
    ensures var s' := I.Process(s, ps, First(b, v));
            s'.messages.Keys == {x, b} && TablesApart(s', x, b, s'.messages[b].thread)
  {
    var s1, t := MailArrives(s, ps, First(b, v));
    FreshThread(s, t);
    FirstApartTables(s1, ps, t, x, b, v);
  }

  lemma FirstApartTables(s: Store, ps: P.Parsers, t: ThreadId, x: MessageId, b: MessageId, v: Option<nat>)
    requires Consistent(s) && HasSecond(s, x) && s.patchsets[1].thread != t && P.BeforeDash(b) != P.BeforeDash(x)
    requires b in s.messages && s.messages[b].thread == t
    ensures TablesApart(I.Assemble(s, ps, First(b, v)), x, b, t)
    ensures I.Assemble(s, ps, First(b, v)).messages == s.messages
  {
    FirstOpensNew(s, ps, t, x, b, v);
    OnlyRowOne(s, x, b, 2);
    FirstStored(s, ps, First(b, v), t, x, b, ThirdOf(t, PART_ONE, 1).(received := Some(0)));
  }

  lemma ThirdMatchesSecond(ps: P.Parsers, row: Patchset, t: ThreadId, x: MessageId, b: MessageId, m: MessageId)
    requires row == ThirdOf(row.thread, PART_TWO, 2) && SamePrefixes(ps, PART_THREE, PART_TWO) && SentTogether(x, m)
    ensures P.Matches(ps, I.SubmissionOf(Third(m, b, ps.version(PART_TWO)), t), row, false, false,
                      Some(P.BeforeDash(x)))
  {
  }

  lemma ThirdMatchesFirst(ps: P.Parsers, t: ThreadId, b: MessageId, m: MessageId, known: Option<string>)
    ensures P.Matches(ps, I.SubmissionOf(Third(m, b, ps.version(PART_TWO)), t), ThirdOf(t, PART_ONE, 1), false, false,
                      known)
  {
  }

  lemma PartsApart(patches: map<PatchId, Patch>, x: MessageId, b: MessageId)
    requires patches == map[1 := Patch(1, x, 2, DIFF), 2 := Patch(2, b, 1, DIFF)]
    ensures PatchesOf(patches, 1) == {1}
    ensures forall i, m :: m != x && m != b ==> !P.HasMessage(patches, i, m) && !P.IndexTaken(patches, i, 3, m)
  {
  }

  lemma ThirdTies(s: Store, ps: P.Parsers, t: ThreadId, x: MessageId, b: MessageId, m: MessageId)
    requires TablesApart(s, x, b, t) && SentTogether(x, m) && b != m && SamePrefixes(ps, PART_THREE, PART_TWO)
    ensures var sub := I.SubmissionOf(Third(m, b, ps.version(PART_TWO)), t);
            P.TiesTogether(s, ps, sub) && P.MatchSet(s, ps, sub) == {1, 2}
  {
    var sub := I.SubmissionOf(Third(m, b, ps.version(PART_TWO)), t);
    assert P.CoverHit(s, ps, sub).None? by {
      assert P.ByCover(s, ps, sub, b) == {} && P.ByCover(s, ps, sub, m + P.LOCAL_SUFFIX) == {};
    }
    assert P.Candidates(s, sub) == {1, 2};
    PartsApart(s.patches, x, b);
    KnownFromPatch(s, 1, 1);
    ThirdMatchesSecond(ps, s.patchsets[1], t, x, b, m);
    ThirdMatchesFirst(ps, t, b, m, P.KnownPrefix(s.patches, 2, s.patchsets[2]));
  }

  ghost predicate UnderSecond(s: Store) {
    s.patchsets.Keys == {1} && s.patchsets[1].subject == PART_TWO && s.patchsets[1].subjectIndex == 2
  }

  ghost predicate Gathered(s: Store, x: MessageId, b: MessageId) {
    UnderSecond(s) && s.patches == map[1 := Patch(1, x, 2, DIFF), 2 := Patch(1, b, 1, DIFF)]
  }

  /** One patchset with all three parts, under the subject of part 2 although part 1 is among them. */
  ghost predicate Misnamed(s: Store, x: MessageId, b: MessageId, m: MessageId) {
    && UnderSecond(s)
    && s.patches == map[1 := Patch(1, x, 2, DIFF), 2 := Patch(1, b, 1, DIFF), 3 := Patch(1, m, 3, DIFF)]
  }

  lemma PartsGathered(s: Store, sub: P.Submission, x: MessageId, b: MessageId, t: ThreadId)
    requires TablesApart(s, x, b, t) && sub.partIndex == 3
    ensures Gathered(P.Absorb(s, sub, {1, 2}), x, b)
  {
    P.AbsorbTwo(s, sub, 1, 2);
    MovedParts(s.patches, x, b);
  }

  lemma MovedParts(patches: map<PatchId, Patch>, x: MessageId, b: MessageId)
    requires patches == map[1 := Patch(1, x, 2, DIFF), 2 := Patch(2, b, 1, DIFF)]
    ensures (map p | p in patches :: if patches[p].patchset == 2 then patches[p].(patchset := 1) else patches[p])
         == map[1 := Patch(1, x, 2, DIFF), 2 := Patch(1, b, 1, DIFF)]
  {
  }

  lemma ThirdGathers(s: Store, ps: P.Parsers, t: ThreadId, x: MessageId, b: MessageId, m: MessageId)
    requires TablesApart(s, x, b, t) && SentTogether(x, m) && b != m && SamePrefixes(ps, PART_THREE, PART_TWO)
    ensures var (s', r) := P.CreatePatchset(s, ps, I.SubmissionOf(Third(m, b, ps.version(PART_TWO)), t));
            r == Ok(1) && Gathered(s', x, b)
  {
    var sub := I.SubmissionOf(Third(m, b, ps.version(PART_TWO)), t);
    ThirdTies(s, ps, t, x, b, m);
    P.SearchOutcome(s, ps, sub);
    LowestIs({1, 2}, 1);
    PartsGathered(s, sub, x, b, t);
  }

  lemma ThirdStored(s: Store, ps: P.Parsers, a: I.Article, s1: Store, x: MessageId, b: MessageId, m: MessageId)
    requires Consistent(s) && IsMail(a) && m in s.messages && a.messageId == m && x != m && b != m
    requires a.patch == Some(I.PatchBody(m, 3, DIFF))
    requires P.CreatePatchset(s, ps, I.SubmissionOf(a, s.messages[m].thread)) == (s1, Ok(1)) && Gathered(s1, x, b)
    ensures Misnamed(I.Assemble(s, ps, a), x, b, m)
  {
    ThirdIsFree(s1.patches, x, b, m);
    Stored(s, ps, a, s1, 1, 3);
    var s' := I.Assemble(s, ps, a);
    MisnamedTables(s', s1, |PatchesOf(s'.patches, 1)|, x, b, m);
  }

  lemma ThirdIsFree(patches: map<PatchId, Patch>, x: MessageId, b: MessageId, m: MessageId)
    requires patches == map[1 := Patch(1, x, 2, DIFF), 2 := Patch(1, b, 1, DIFF)] && x != m && b != m
    ensures IsNextRowId(3, patches.Keys) && !P.IndexTaken(patches, 1, 3, m)
    ensures forall q :: q in patches ==> patches[q].messageId != m
  {
  }

  lemma MisnamedTables(s: Store, s1: Store, n: nat, x: MessageId, b: MessageId, m: MessageId)
    requires Gathered(s1, x, b) && s.patches == s1.patches[3 := Patch(1, m, 3, DIFF)]
    requires s.patchsets == s1.patchsets[1 := P.PromoteIfFull(s1.patchsets[1].(received := Some(n)))]
    ensures Misnamed(s, x, b, m)
  {
  }

  lemma ThirdMisnames(s: Store, ps: P.Parsers, x: MessageId, b: MessageId, m: MessageId)
    requires Consistent(s) && s.messages.Keys == {x, b} && TablesApart(s, x, b, s.messages[b].thread)
    requires SentTogether(x, m) && b != m && SamePrefixes(ps, PART_THREE, PART_TWO)
    ensures Misnamed(I.Process(s, ps, Third(m, b, ps.version(PART_TWO))), x, b, m)
  {
    var a := Third(m, b, ps.version(PART_TWO));
    var s1, t := MailArrives(s, ps, a);
    ThirdGathers(s1, ps, t, x, b, m);
    ThirdStored(s1, ps, a, P.CreatePatchset(s1, ps, I.SubmissionOf(a, t)).0, x, b, m);
  }

  lemma OtherRun(number: string)
    requires |number| == 1
    ensures P.BeforeDash("b") != P.BeforeDash(Id(number)) && Id(number) != "b"
  {
    P.BeforeDashOf(SENT, number);
    assert |P.BeforeDash("b")| <= |"b"|;
  }

  /** Part 3 ties together the patchset that part 2 opened and the one that part 1 opened: part 1's subject is lost. */
  lemma FirstSubjectIsLost(ps: P.Parsers)
    requires SamePrefixes(ps, PART_THREE, PART_TWO)
    ensures Misnamed(I.Run(ps, LateFirst(ps.version(PART_TWO))), Id("2"), "b", Id("3"))
  {
    var v, x, b, m := ps.version(PART_TWO), Id("2"), "b", Id("3");
    var events := LateFirst(v);
    IdsSentTogether("2", "3");
    OtherRun("2");
    OtherRun("3");
    RunThree(ps, events[0], events[1], events[2]);
    SecondAlone(ps, x, v);
    I.RunConsistent(ps, [events[0]]);
    FirstApart(I.Run(ps, [events[0]]), ps, x, b, v);
    I.RunConsistent(ps, [events[0], events[1]]);
    ThirdMisnames(I.Run(ps, [events[0], events[1]]), ps, x, b, m);
    assert events == [events[0], events[1], events[2]];
  }
}

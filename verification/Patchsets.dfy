/**
 Patchset assembly: matching a message to a patchset, merging the patchsets it ties together, inserting or
 moving its patch, and promoting a complete patchset to `Pending`.
 */
module Patchsets {
  import opened Prelude
  import opened Tables
  import Threads

  /** The regular-expression readers of a subject or an author line; every result holds for all of them. */
  datatype Parsers = Parsers(
    version: string -> Option<nat>,
    clean: string -> string,
    prefixes: string -> seq<string>,
    email: string -> string)

  datatype Submission = Submission(
    thread: ThreadId,
    cover: Option<MessageId>,
    messageId: MessageId,
    subject: string,
    author: string,
    date: int,
    total: nat,
    version: Option<nat>,
    partIndex: nat,
    strictAuthor: bool)

  datatype Error = IndexCollision | NullAuthor | NoSuchPatchset

  const DAY := 86400
  const LOCAL_SUFFIX := "@sashiko.local"

  // ---------------------------------------------------------------- queries

  predicate IndexTaken(patches: map<PatchId, Patch>, id: PatchsetId, index: nat, messageId: MessageId) {
    exists p :: p in patches && patches[p].patchset == id && patches[p].partIndex == index
                && patches[p].messageId != messageId
  }

  predicate HasMessage(patches: map<PatchId, Patch>, id: PatchsetId, messageId: MessageId) {
    exists p :: p in patches && patches[p].patchset == id && patches[p].messageId == messageId
  }

  /** The part of a message id before its first dash, shared by the mails of one git send-email run. */
  function BeforeDash(m: string): (r: string)
    ensures r <= m && '-' !in r
  {
    if m == "" || m[0] == '-' then "" else [m[0]] + BeforeDash(m[1..])
  }

  lemma {:induction false} BeforeDashOf(p: string, rest: string)
    requires '-' !in p
    ensures BeforeDash(p + "-" + rest) == p
    decreases |p|
  {
    if p != "" {
      assert p[0] in p && (p + "-" + rest)[1..] == p[1..] + "-" + rest;
      BeforeDashOf(p[1..], rest);
    }
  }

  /** The send-email prefix of a patchset: of its cover letter, else of its first patch. */
  ghost function KnownPrefix(patches: map<PatchId, Patch>, id: PatchsetId, row: Patchset): Option<string> {
    if row.cover.Some? then Some(BeforeDash(row.cover.value))
    else if PatchesOf(patches, id) == {} then None
    else Some(BeforeDash(patches[Lowest(PatchesOf(patches, id))].messageId))
  }

  predicate VersionsCompatible(ps: Parsers, a: Submission, row: Patchset) {
    a.version.GetOr(1) == ps.version(row.subject).GetOr(1)
  }

  // ---------------------------------------------------------------- matching

  /** A patchset found by its cover letter is taken unless the index is taken or the version differs. */
  predicate Accepts(patches: map<PatchId, Patch>, ps: Parsers, a: Submission, id: PatchsetId, row: Patchset) {
    && (a.partIndex == 0 || !IndexTaken(patches, id, a.partIndex, a.messageId))
    && (row.subject == PLACEHOLDER || row.status == Fetching || VersionsCompatible(ps, a, row))
  }

  function ByCover(s: Store, ps: Parsers, a: Submission, cover: MessageId): set<PatchsetId> {
    set id | id in s.patchsets && s.patchsets[id].cover == Some(cover)
             && Accepts(s.patches, ps, a, id, s.patchsets[id])
  }

  ghost function CoverHit(s: Store, ps: Parsers, a: Submission): (r: Option<PatchsetId>)
    ensures r.Some? ==> r.value in s.patchsets
  {
    if a.cover.Some? && ByCover(s, ps, a, a.cover.value) != {}
    then Some(Lowest(ByCover(s, ps, a, a.cover.value)))
    else if ByCover(s, ps, a, a.messageId + LOCAL_SUFFIX) != {}
    then Some(Lowest(ByCover(s, ps, a, a.messageId + LOCAL_SUFFIX)))
    else None
  }

  /** The rows the second search looks at: same thread, or same author within a day. */
  function Candidates(s: Store, a: Submission): set<PatchsetId> {
    set id | id in s.patchsets && InWindow(a, s.patchsets[id])
  }

  predicate InWindow(a: Submission, row: Patchset) {
    || row.thread == a.thread
    || (row.author == Some(a.author) && a.date - DAY <= row.date <= a.date + DAY)
  }

  predicate SubjectMatch(ps: Parsers, a: Submission, row: Patchset) {
    if a.total == 1 then
      || a.subject == row.subject
      || (a.partIndex == 0 && row.subjectIndex == 1)
      || (a.partIndex == 1 && row.subjectIndex == 0)
      || ps.clean(a.subject) == ps.clean(row.subject)
    else
      a.partIndex == row.subjectIndex ==> ps.clean(a.subject) == ps.clean(row.subject)
  }

  /** Whether a candidate row belongs to the submission's series, given what the sub-queries answered. */
  predicate Matches(ps: Parsers, a: Submission, row: Patchset, hasMessage: bool, indexTaken: bool,
                    known: Option<string>)
    requires row.author.Some?
  {
    var existingTotal := row.total.GetOr(1);
    var duplicate := row.cover == Some(a.messageId) || hasMessage;
    var closed := row.received.GetOr(0) >= existingTotal && !duplicate && a.partIndex != 0;
    var collision := if a.partIndex == 0
                     then row.cover.Some? && row.cover != Some(a.messageId) && row.subjectIndex == 0
                     else indexTaken;
    var prefix := BeforeDash(a.messageId);
    var sentTogether := known == Some(prefix) && |prefix| > 10;
    var authorMatch := ps.email(row.author.value) == ps.email(a.author);
    var seriesMatch := (a.total > 1 && a.total == existingTotal) || existingTotal == 1 || a.total == 1;
    var sameThread := row.thread == a.thread;
    && !closed
    && (authorMatch || (!a.strictAuthor && seriesMatch))
    && (a.strictAuthor ==> -DAY < a.date - row.date < DAY)
    && (VersionsCompatible(ps, a, row) || sameThread)
    && (a.total == existingTotal || existingTotal == 1 || a.total == 1)
    && SubjectMatch(ps, a, row)
    && (sameThread || ps.prefixes(a.subject) == ps.prefixes(row.subject))
    && (sameThread || a.total == 1 || sentTogether)
    && !collision
  }

  ghost function MatchSet(s: Store, ps: Parsers, a: Submission): set<PatchsetId>
    requires forall id :: id in Candidates(s, a) ==> s.patchsets[id].author.Some?
  {
    set id | id in Candidates(s, a) &&
             Matches(ps, a, s.patchsets[id], HasMessage(s.patches, id, a.messageId),
                     IndexTaken(s.patches, id, a.partIndex, a.messageId),
                     KnownPrefix(s.patches, id, s.patchsets[id]))
  }

  // ---------------------------------------------------------------- row updates

  function PromoteIfFull(row: Patchset): Patchset {
    if Full(row) && row.status in {Incomplete, Fetching} then row.(status := Pending) else row
  }

  /** A row that has its metadata is no longer being fetched, and is ready once all parts are there. */
  function Settle(row: Patchset): Patchset {
    PromoteIfFull(if row.status == Fetching then row.(status := Incomplete) else row)
  }

  function WithCover(row: Patchset, cover: Option<MessageId>): Patchset {
    if cover.Some? then row.(cover := cover) else row
  }

  function WithSubject(row: Patchset, better: bool, a: Submission): Patchset {
    if better then row.(subject := a.subject, subjectIndex := a.partIndex) else row
  }

  /** The first path keeps a known series length when a singleton arrives for it. */
  function Adopted(row: Patchset, a: Submission): Patchset {
    var total := if a.total == 1 && row.total.GetOr(1) > 1 then row.total.GetOr(1) else a.total;
    Settle(WithSubject(WithCover(row.(thread := a.thread, author := Some(a.author), total := Some(total)), a.cover),
                       a.partIndex < row.subjectIndex, a))
  }

  /** The target of a match takes the submission's length as it is. */
  function Absorbed(row: Patchset, a: Submission, better: bool, received: nat): Patchset {
    Settle(WithCover(WithSubject(row.(author := Some(a.author), total := Some(a.total)), better, a), a.cover)
           .(received := Some(received)))
  }

  function Inserted(a: Submission): Patchset {
    Patchset(a.thread, a.cover, a.subject, a.partIndex, Some(a.author), a.date, Some(a.total), Some(0), Incomplete, 1)
  }

  // ---------------------------------------------------------------- operations on a snapshot

  /** All patches, reviews and subsystem links of `others` go to `target`, and `others` are deleted. */
  ghost function MergePatchsets(s: Store, target: PatchsetId, others: set<PatchsetId>): Store {
    s.(patches := map p | p in s.patches ::
         if s.patches[p].patchset in others then s.patches[p].(patchset := target) else s.patches[p],
       reviews := map r | r in s.reviews ::
         if s.reviews[r].patchset in others then s.reviews[r].(patchset := target) else s.reviews[r],
       patchsetSubsystems := (set l | l in s.patchsetSubsystems && l.0 !in others)
                           + (set l | l in s.patchsetSubsystems && l.0 in others :: (target, l.1)),
       patchsets := s.patchsets - others)
  }

  /** The submission's index is lower than that of every matched patchset. */
  ghost predicate Better(s: Store, matches: set<PatchsetId>, a: Submission)
    requires matches <= s.patchsets.Keys
  {
    forall i :: i in matches ==> a.partIndex < s.patchsets[i].subjectIndex
  }

  ghost function Absorb(s: Store, a: Submission, matches: set<PatchsetId>): Store
    requires matches != {} && matches <= s.patchsets.Keys
  {
    var target := Lowest(matches);
    var m := MergePatchsets(s, target, matches - {target});
    m.(patchsets := m.patchsets[target :=
         Absorbed(s.patchsets[target], a, Better(s, matches, a), |PatchesOf(m.patches, target)|)])
  }

  ghost function CreatePatchset(s: Store, ps: Parsers, a: Submission): (Store, Result<PatchsetId, Error>) {
    var hit := CoverHit(s, ps, a);
    if hit.Some? then
      (s.(patchsets := s.patchsets[hit.value := Adopted(s.patchsets[hit.value], a)]), Ok(hit.value))
    else if exists id :: id in Candidates(s, a) && s.patchsets[id].author.None? then
      (s, Err(NullAuthor))
    else
      var matches := MatchSet(s, ps, a);
      if matches != {} then
        (Absorb(s, a, matches), Ok(Lowest(matches)))
      else
        var id := NextRowId(s.patchsets.Keys);
        (s.(patchsets := s.patchsets[id := Inserted(a)]), Ok(id))
  }

  function Recount(patchsets: map<PatchsetId, Patchset>, patches: map<PatchId, Patch>, id: PatchsetId)
    : map<PatchsetId, Patchset>
  {
    if id in patchsets then patchsets[id := patchsets[id].(received := Some(|PatchesOf(patches, id)|))] else patchsets
  }

  /** The row the upsert writes to: the message's patch if it has one, else a new row. */
  ghost function PatchRow(s: Store, messageId: MessageId): (p: PatchId)
    ensures p in s.patches ==> s.patches[p].messageId == messageId
    ensures p !in s.patches ==> forall q :: q in s.patches ==> s.patches[q].messageId != messageId
  {
    if p :| p in s.patches && s.patches[p].messageId == messageId then p else NextRowId(s.patches.Keys)
  }

  ghost function CreatePatch(s: Store, id: PatchsetId, messageId: MessageId, index: nat, diff: string)
    : (Store, Result<PatchId, Error>)
  {
    if IndexTaken(s.patches, id, index, messageId) then (s, Err(IndexCollision))
    else if id !in s.patchsets then (s, Err(NoSuchPatchset))
    else
      var p := PatchRow(s, messageId);
      var patches := s.patches[p := Patch(id, messageId, index, diff)];
      var counted := Recount(s.patchsets, patches, id);
      var recounted := if p in s.patches && s.patches[p].patchset != id
                       then Recount(counted, patches, s.patches[p].patchset) else counted;
      (s.(patches := patches, patchsets := recounted[id := PromoteIfFull(recounted[id])]), Ok(p))
  }

  function RootId(article: string): MessageId {
    if '@' in article then article else article + LOCAL_SUFFIX
  }

  function WithCoverId(s: Store, cover: MessageId): set<PatchsetId> {
    set id | id in s.patchsets && s.patchsets[id].cover == Some(cover)
  }

  ghost function FetchingHit(s: Store, article: string): (r: Option<PatchsetId>)
    ensures r.Some? ==> r.value in s.patchsets
  {
    if WithCoverId(s, article) != {} then Some(Lowest(WithCoverId(s, article)))
    else if WithCoverId(s, RootId(article)) != {} then Some(Lowest(WithCoverId(s, RootId(article))))
    else None
  }

  ghost function CreateFetching(s: Store, article: string, subject: string, now: int): (Store, PatchsetId) {
    var hit := FetchingHit(s, article);
    if hit.Some? then
      var row := s.patchsets[hit.value];
      (if row.status in {Failed, Fetching}
       then s.(patchsets := s.patchsets[hit.value := row.(status := Fetching)]) else s,
       hit.value)
    else
      var (s1, t) := Threads.EnsureThread(s, RootId(article), now);
      var id := NextRowId(s1.patchsets.Keys);
      (s1.(patchsets := s1.patchsets[id :=
         Patchset(t, Some(RootId(article)), subject, 9999, None, now, None, None, Fetching, 1)]), id)
  }

  /** Sets the status of the selected rows; the other columns and rows stay as they are. */
  function SetStatuses(s: Store, selected: set<PatchsetId>, status: Status): Store {
    s.(patchsets := map id | id in s.patchsets ::
         if id in selected then s.patchsets[id].(status := status) else s.patchsets[id])
  }

  // ---------------------------------------------------------------- merging loses nothing

  lemma MergePatchsetsKeeps(s: Store, target: PatchsetId, others: set<PatchsetId>)
    requires PatchsetsConsistent(s) && target in s.patchsets && target !in others && others <= s.patchsets.Keys
    ensures PatchsetsConsistent(MergePatchsets(s, target, others))
  {
  }

  lemma MergeNone(s: Store, target: PatchsetId)
    ensures MergePatchsets(s, target, {}) == s
  {
    var m := MergePatchsets(s, target, {});
    assert m.patches == s.patches && m.reviews == s.reviews && m.patchsets == s.patchsets;
    assert m.patchsetSubsystems == s.patchsetSubsystems;
  }

  /** Merging patchsets one after the other is merging them at once. */
  lemma MergeOneMore(s: Store, target: PatchsetId, done: set<PatchsetId>, o: PatchsetId)
    requires target !in done && o != target && o !in done
    ensures MergePatchsets(MergePatchsets(s, target, done), target, {o}) == MergePatchsets(s, target, done + {o})
  {
    var one := MergePatchsets(s, target, done);
    var two, both := MergePatchsets(one, target, {o}), MergePatchsets(s, target, done + {o});
    assert two.patches == both.patches;
    assert two.reviews == both.reviews;
    assert two.patchsets == both.patchsets;
    forall l | l in both.patchsetSubsystems ensures l in two.patchsetSubsystems {
      if l !in s.patchsetSubsystems || l.0 in done + {o} {
        var k :| k in s.patchsetSubsystems && k.0 in done + {o} && l == (target, k.1);
        if k.0 in done { assert l in one.patchsetSubsystems; } else { assert k in one.patchsetSubsystems; }
      } else {
        assert l in one.patchsetSubsystems;
      }
    }
    assert two.patchsetSubsystems == both.patchsetSubsystems;
  }

  lemma MergedCount(s: Store, target: PatchsetId, others: set<PatchsetId>, id: PatchsetId)
    requires id != target && id !in others
    ensures PatchesOf(MergePatchsets(s, target, others).patches, id) == PatchesOf(s.patches, id)
  {
  }

  /** A match with one patchset merges nothing. */
  lemma AbsorbOne(s: Store, a: Submission, id: PatchsetId)
    requires id in s.patchsets
    ensures Absorb(s, a, {id}) == s.(patchsets := s.patchsets[id :=
              Absorbed(s.patchsets[id], a, a.partIndex < s.patchsets[id].subjectIndex, |PatchesOf(s.patches, id)|)])
  {
    assert Lowest({id}) == id && {id} - {id} == {};
    MergeNone(s, id);
    assert Better(s, {id}, a) <==> a.partIndex < s.patchsets[id].subjectIndex;
  }

  /** A match with two patchsets empties the later one into the earlier one. */
  lemma AbsorbTwo(s: Store, a: Submission, i: PatchsetId, j: PatchsetId)
    requires i in s.patchsets && j in s.patchsets && i < j
    ensures var patches := map p | p in s.patches ::
                             if s.patches[p].patchset == j then s.patches[p].(patchset := i) else s.patches[p];
            var better := a.partIndex < s.patchsets[i].subjectIndex && a.partIndex < s.patchsets[j].subjectIndex;
            && Absorb(s, a, {i, j}).patches == patches
            && Absorb(s, a, {i, j}).patchsets
               == (s.patchsets - {j})[i := Absorbed(s.patchsets[i], a, better, |PatchesOf(patches, i)|)]
  {
    assert IsLowest(i, {i, j});
    assert Lowest({i, j}) == i && {i, j} - {i} == {j};
    assert Better(s, {i, j}, a)
      <==> a.partIndex < s.patchsets[i].subjectIndex && a.partIndex < s.patchsets[j].subjectIndex;
  }

  /** Every patch row survives with its message, index and diff, and is the target's exactly if a match had it. */
  lemma AbsorbKeepsPatches(s: Store, a: Submission, matches: set<PatchsetId>, p: PatchId)
    requires matches != {} && matches <= s.patchsets.Keys && p in s.patches
    ensures var s' := Absorb(s, a, matches);
            && s'.patches.Keys == s.patches.Keys
            && s'.patches[p] == s.patches[p].(patchset := s'.patches[p].patchset)
            && s'.patches[p].patchset == if s.patches[p].patchset in matches then Lowest(matches)
                                         else s.patches[p].patchset
  {
  }

  lemma AbsorbKeepsReviews(s: Store, a: Submission, matches: set<PatchsetId>, r: ReviewId)
    requires matches != {} && matches <= s.patchsets.Keys && r in s.reviews
    ensures var s' := Absorb(s, a, matches);
            && s'.reviews.Keys == s.reviews.Keys
            && s'.reviews[r] == s.reviews[r].(patchset := s'.reviews[r].patchset)
            && s'.reviews[r].patchset == if s.reviews[r].patchset in matches then Lowest(matches)
                                         else s.reviews[r].patchset
  {
  }

  /** The target's subsystems are the union over the matches; the other rows keep theirs. */
  lemma AbsorbKeepsSubsystems(s: Store, a: Submission, matches: set<PatchsetId>, id: PatchsetId, x: SubsystemId)
    requires matches != {} && matches <= s.patchsets.Keys
    ensures (id, x) in Absorb(s, a, matches).patchsetSubsystems <==>
            if id == Lowest(matches) then exists o :: o in matches && (o, x) in s.patchsetSubsystems
            else id !in matches && (id, x) in s.patchsetSubsystems
  {
    var target := Lowest(matches);
    var moved := set l | l in s.patchsetSubsystems && l.0 in matches - {target} :: (target, l.1);
    if o :| o in matches && (o, x) in s.patchsetSubsystems && o != target {
      assert (target, x) in moved by { assert (o, x) in s.patchsetSubsystems; }
    }
  }

  /** The patches of several patchsets taken together. */
  function PatchesIn(patches: map<PatchId, Patch>, ids: set<PatchsetId>): set<PatchId> {
    set p | p in patches && patches[p].patchset in ids
  }

  lemma PatchesInSplit(patches: map<PatchId, Patch>, ids: set<PatchsetId>, id: PatchsetId)
    requires id in ids
    ensures |PatchesIn(patches, ids)| == |PatchesOf(patches, id)| + |PatchesIn(patches, ids - {id})|
  {
    var one, rest := PatchesOf(patches, id), PatchesIn(patches, ids - {id});
    assert PatchesIn(patches, ids) == one + rest;
    assert one !! rest;
  }

  /** What the received counters of a set of patchsets add up to. */
  ghost function ReceivedSum(s: Store, ids: set<PatchsetId>): nat
    requires ids <= s.patchsets.Keys
  {
    if ids == {} then 0 else
      var id := Lowest(ids);
      s.patchsets[id].received.GetOr(0) + ReceivedSum(s, ids - {id})
  }

  lemma {:induction false} ReceivedSumCounts(s: Store, ids: set<PatchsetId>)
    requires CountsExact(s) && ids <= s.patchsets.Keys
    ensures ReceivedSum(s, ids) == |PatchesIn(s.patches, ids)|
    decreases ids
  {
    if ids != {} {
      var id := Lowest(ids);
      PatchesInSplit(s.patches, ids, id);
      ReceivedSumCounts(s, ids - {id});
    } else {
      assert PatchesIn(s.patches, ids) == {};
    }
  }

  /** After a merge the target has received exactly what the matched patchsets had received together. */
  lemma AbsorbAddsUp(s: Store, a: Submission, matches: set<PatchsetId>)
    requires CountsExact(s) && matches != {} && matches <= s.patchsets.Keys
    ensures Absorb(s, a, matches).patchsets[Lowest(matches)].received == Some(ReceivedSum(s, matches))
  {
    var target := Lowest(matches);
    ReceivedSumCounts(s, matches);
    assert PatchesOf(Absorb(s, a, matches).patches, target) == PatchesIn(s.patches, matches);
  }

  // ---------------------------------------------------------------- the outcomes of create_patchset

  /** The second search meets a patchset of the submission's thread that has no author yet. */
  ghost predicate Blocked(s: Store, ps: Parsers, a: Submission) {
    CoverHit(s, ps, a).None? && exists id :: id in s.patchsets && AuthorlessIn(s.patchsets[id], a.thread)
  }

  predicate AuthorlessIn(row: Patchset, thread: ThreadId) {
    row.thread == thread && row.author.None?
  }

  /** The second search runs to its end. */
  ghost predicate Searches(s: Store, ps: Parsers, a: Submission) {
    CoverHit(s, ps, a).None? && forall id :: id in Candidates(s, a) ==> s.patchsets[id].author.Some?
  }

  ghost predicate TiesTogether(s: Store, ps: Parsers, a: Submission) {
    Searches(s, ps, a) && MatchSet(s, ps, a) != {}
  }

  ghost predicate OpensNew(s: Store, ps: Parsers, a: Submission) {
    Searches(s, ps, a) && MatchSet(s, ps, a) == {}
  }

  /**
   A submission is refused exactly when it is not found by its cover letter and its thread holds a patchset that
   was announced for a fetch and has not been filled in; then nothing changes.
   */
  lemma RefusedIff(s: Store, ps: Parsers, a: Submission)
    ensures CreatePatchset(s, ps, a).1.Err? <==> Blocked(s, ps, a)
    ensures Blocked(s, ps, a) ==> CreatePatchset(s, ps, a) == (s, Err(NullAuthor))
    ensures CoverHit(s, ps, a).None? ==> (Blocked(s, ps, a) <==> !Searches(s, ps, a))
  {
    forall id | id in s.patchsets ensures AuthorlessIn(s.patchsets[id], a.thread)
                                     <==> id in Candidates(s, a) && s.patchsets[id].author.None?
    { }
    if Blocked(s, ps, a) {
      var id :| id in s.patchsets && AuthorlessIn(s.patchsets[id], a.thread);
      assert id in Candidates(s, a) && s.patchsets[id].author.None?;
    }
  }

  /** What the operation does in the two outcomes of a completed second search. */
  lemma SearchOutcome(s: Store, ps: Parsers, a: Submission)
    requires Searches(s, ps, a)
    ensures TiesTogether(s, ps, a) ==>
              CreatePatchset(s, ps, a) == (Absorb(s, a, MatchSet(s, ps, a)), Ok(Lowest(MatchSet(s, ps, a))))
    ensures OpensNew(s, ps, a) ==>
              var id := NextRowId(s.patchsets.Keys);
              CreatePatchset(s, ps, a) == (s.(patchsets := s.patchsets[id := Inserted(a)]), Ok(id))
  {
  }

  // ---------------------------------------------------------------- create_patchset

  lemma AbsorbKeeps(s: Store, a: Submission, matches: set<PatchsetId>)
    requires Consistent(s) && matches != {} && matches <= s.patchsets.Keys
    ensures Consistent(Absorb(s, a, matches))
    ensures NoneStuck(s) ==> NoneStuck(Absorb(s, a, matches))
  {
    var target := Lowest(matches);
    var others := matches - {target};
    var s' := Absorb(s, a, matches);
    MergePatchsetsKeeps(s, target, others);
    forall id | id in s'.patchsets ensures s'.patchsets[id].received.GetOr(0) == |PatchesOf(s'.patches, id)| {
      if id != target { MergedCount(s, target, others, id); }
    }
  }

  lemma AdoptKeeps(s: Store, id: PatchsetId, a: Submission)
    requires Consistent(s) && id in s.patchsets && a.thread in s.threads
    ensures Consistent(s.(patchsets := s.patchsets[id := Adopted(s.patchsets[id], a)]))
  {
  }

  lemma AddRowKeeps(s: Store, id: PatchsetId, row: Patchset)
    requires Consistent(s) && id !in s.patchsets && row.thread in s.threads && row.received.GetOr(0) == 0
    ensures Consistent(s.(patchsets := s.patchsets[id := row]))
  {
    assert PatchesOf(s.patches, id) == {};
  }

  lemma CreatePatchsetKeeps(s: Store, ps: Parsers, a: Submission)
    requires Consistent(s) && a.thread in s.threads
    ensures var (s', r) := CreatePatchset(s, ps, a);
            && Consistent(s')
            && (r.Ok? ==> r.value in s'.patchsets)
            && (r.Err? ==> s' == s)
            && s'.messages == s.messages && s'.threads == s.threads && s'.threadSubsystems == s.threadSubsystems
  {
    var (s', r) := CreatePatchset(s, ps, a);
    var hit := CoverHit(s, ps, a);
    if hit.Some? {
      AdoptKeeps(s, hit.value, a);
    } else if exists id :: id in Candidates(s, a) && s.patchsets[id].author.None? {
    } else if MatchSet(s, ps, a) != {} {
      AbsorbKeeps(s, a, MatchSet(s, ps, a));
    } else {
      AddRowKeeps(s, NextRowId(s.patchsets.Keys), Inserted(a));
    }
  }

  /** From a store with no stuck patchset, a submission leaves one exactly when it opens an empty series. */
  lemma CreatePatchsetStuckOnlyIfEmptySeries(s: Store, ps: Parsers, a: Submission)
    requires Consistent(s) && a.thread in s.threads && NoneStuck(s)
    ensures NoneStuck(CreatePatchset(s, ps, a).0) <==> !(OpensNew(s, ps, a) && a.total == 0)
  {
    RefusedIff(s, ps, a);
    if Searches(s, ps, a) {
      SearchOutcome(s, ps, a);
      if TiesTogether(s, ps, a) {
        AbsorbKeeps(s, a, MatchSet(s, ps, a));
      } else {
        assert CreatePatchset(s, ps, a).0.patchsets[NextRowId(s.patchsets.Keys)] == Inserted(a);
      }
    }
  }

  // ---------------------------------------------------------------- what a merge does to the target

  /**
   A known length is lowered exactly when the submission announces fewer parts and either finds the patchset by its
   cover letter and is not a singleton, which is all the first search guards against, or is matched by the second
   search and this is the patchset that absorbs the others. It is lowered to the length the submission announces.
   */
  lemma SeriesShortenedIff(s: Store, ps: Parsers, a: Submission, i: PatchsetId)
    requires i in s.patchsets && s.patchsets[i].total.Some?
    ensures var s' := CreatePatchset(s, ps, a).0;
            var n := s.patchsets[i].total.value;
            var shorter := i in s'.patchsets && s'.patchsets[i].total.Some? && s'.patchsets[i].total.value < n;
            && (shorter ==> s'.patchsets[i].total == Some(a.total))
            && (shorter <==>
                  && a.total < n
                  && ((CoverHit(s, ps, a) == Some(i) && a.total != 1)
                      || (TiesTogether(s, ps, a) && i == Lowest(MatchSet(s, ps, a)))))
  {
    RefusedIff(s, ps, a);
    if Searches(s, ps, a) {
      SearchOutcome(s, ps, a);
      if TiesTogether(s, ps, a) {
        var m := MatchSet(s, ps, a);
        assert Absorb(s, a, m).patchsets[Lowest(m)].total == Some(a.total);
      }
    }
  }

  /**
   A patchset comes to be known by another cover letter exactly when a submission that names one is led to it, or ties
   matches together of which it is the lowest; whether what is named is a cover letter does not matter.
   */
  lemma CoverChangedIff(s: Store, ps: Parsers, a: Submission, i: PatchsetId)
    requires i in s.patchsets
    ensures var s' := CreatePatchset(s, ps, a).0;
            i in s'.patchsets ==>
              (s'.patchsets[i].cover != s.patchsets[i].cover
               <==> a.cover.Some? && a.cover != s.patchsets[i].cover
                    && (CoverHit(s, ps, a) == Some(i)
                        || (TiesTogether(s, ps, a) && i == Lowest(MatchSet(s, ps, a)))))
  {
    RefusedIff(s, ps, a);
    if Searches(s, ps, a) { SearchOutcome(s, ps, a); }
  }

  /** The patchset is merged into an earlier one. */
  ghost predicate MergedAway(s: Store, ps: Parsers, a: Submission, i: PatchsetId) {
    TiesTogether(s, ps, a) && i in MatchSet(s, ps, a) && i != Lowest(MatchSet(s, ps, a))
  }

  /** A submission removes a patchset exactly when it merges it into an earlier one. */
  lemma RemovedIff(s: Store, ps: Parsers, a: Submission, i: PatchsetId)
    requires i in s.patchsets
    ensures i !in CreatePatchset(s, ps, a).0.patchsets <==> MergedAway(s, ps, a, i)
  {
    RefusedIff(s, ps, a);
    if Searches(s, ps, a) { SearchOutcome(s, ps, a); }
  }

  /** id has the lowest subject index of the given patchsets. */
  ghost predicate LeadsSeries(s: Store, ids: set<PatchsetId>, id: PatchsetId)
    requires ids <= s.patchsets.Keys && id in ids
  {
    forall i :: i in ids ==> s.patchsets[id].subjectIndex <= s.patchsets[i].subjectIndex
  }

  /** k is the lowest of the given patchsets' subject indices and the submission's own. */
  ghost predicate IsBestIndex(s: Store, ids: set<PatchsetId>, a: Submission, k: nat)
    requires ids <= s.patchsets.Keys
  {
    && k <= a.partIndex && (forall i :: i in ids ==> k <= s.patchsets[i].subjectIndex)
    && (k == a.partIndex || exists i :: i in ids && k == s.patchsets[i].subjectIndex)
  }

  /**
   After a merge the subject belongs to the best part seen exactly when that part is the one now arriving, or
   already led the patchset with the lowest id; the subject of any other matched patchset is lost.
   */
  lemma MergedSubjectIsBestIff(s: Store, a: Submission, matches: set<PatchsetId>)
    requires matches != {} && matches <= s.patchsets.Keys
    ensures var target := Lowest(matches);
            IsBestIndex(s, matches, a, Absorb(s, a, matches).patchsets[target].subjectIndex)
            <==> Better(s, matches, a) || LeadsSeries(s, matches, target)
  {
    var target := Lowest(matches);
    var k := Absorb(s, a, matches).patchsets[target].subjectIndex;
    assert k == if Better(s, matches, a) then a.partIndex else s.patchsets[target].subjectIndex;
    if !Better(s, matches, a) {
      var i :| i in matches && !(a.partIndex < s.patchsets[i].subjectIndex);
      assert LeadsSeries(s, matches, target) ==> k <= s.patchsets[i].subjectIndex;
    }
  }

  /** The patchsets whose subject a submission can keep: the cover letter's, or those it ties together. */
  ghost function Involved(s: Store, ps: Parsers, a: Submission): (ids: set<PatchsetId>)
    ensures ids <= s.patchsets.Keys
  {
    if CoverHit(s, ps, a).Some? then {CoverHit(s, ps, a).value}
    else if TiesTogether(s, ps, a) then MatchSet(s, ps, a)
    else {}
  }

  /**
   A submission leaves the subject index of its patchset at the best of those involved and its own exactly when it
   merges nothing, is itself better than all, or the patchset with the lowest id was already the best.
   */
  lemma SubjectIsBestIff(s: Store, ps: Parsers, a: Submission)
    requires CreatePatchset(s, ps, a).1.Ok?
    ensures var (s', r) := CreatePatchset(s, ps, a);
            r.value in s'.patchsets &&
            (IsBestIndex(s, Involved(s, ps, a), a, s'.patchsets[r.value].subjectIndex)
             <==> (TiesTogether(s, ps, a) ==>
                     Better(s, MatchSet(s, ps, a), a)
                     || LeadsSeries(s, MatchSet(s, ps, a), Lowest(MatchSet(s, ps, a)))))
  {
    RefusedIff(s, ps, a);
    if CoverHit(s, ps, a).Some? {
      AdoptedIndex(s, a, CoverHit(s, ps, a).value);
    } else {
      SearchOutcome(s, ps, a);
      if TiesTogether(s, ps, a) { MergedSubjectIsBestIff(s, a, MatchSet(s, ps, a)); }
    }
  }

  lemma AdoptedIndex(s: Store, a: Submission, i: PatchsetId)
    requires i in s.patchsets
    ensures IsBestIndex(s, {i}, a, Adopted(s.patchsets[i], a).subjectIndex)
  {
    assert i in {i};
  }

  /** All patchsets keep distinct indices. */
  ghost predicate AllDistinct(s: Store) {
    forall i :: i in s.patchsets ==> DistinctIndices(s.patches, i)
  }

  /**
   A submission keeps the indices of every patchset distinct exactly when it merges nothing, or no two patches of
   the patchsets it ties together carry one index.
   */
  lemma IndicesKeptIff(s: Store, ps: Parsers, a: Submission)
    requires PatchsetsConsistent(s) && AllDistinct(s)
    ensures AllDistinct(CreatePatchset(s, ps, a).0)
       <==> (TiesTogether(s, ps, a) ==> DistinctAcross(s.patches, MatchSet(s, ps, a)))
  {
    RefusedIff(s, ps, a);
    if Searches(s, ps, a) {
      SearchOutcome(s, ps, a);
      if TiesTogether(s, ps, a) {
        MergedIndices(s, a, MatchSet(s, ps, a));
      } else {
        var id := NextRowId(s.patchsets.Keys);
        assert PatchesOf(s.patches, id) == {};
      }
    }
  }

  lemma MergedIndices(s: Store, a: Submission, matches: set<PatchsetId>)
    requires AllDistinct(s) && matches != {} && matches <= s.patchsets.Keys
    ensures AllDistinct(Absorb(s, a, matches)) <==> DistinctAcross(s.patches, matches)
  {
    AbsorbIndices(s, a, matches);
    var s' := Absorb(s, a, matches);
    var target := Lowest(matches);
    forall i | i in s'.patchsets && i != target ensures DistinctIndices(s'.patches, i) {
      MergedCount(s, target, matches - {target}, i);
      assert DistinctIndices(s.patches, i);
      forall p | p in PatchesOf(s'.patches, i) ensures p in PatchesOf(s.patches, i)
                                                       && s'.patches[p].partIndex == s.patches[p].partIndex
      { }
    }
  }

  /**
   What a match guarantees: the send-email discipline of strict submissions, no crossing of threads or versions
   without a shared origin, no growth of a patchset that is full, and no index taken twice.
   */
  lemma MatchIsSafe(s: Store, ps: Parsers, a: Submission, id: PatchsetId)
    requires (forall i :: i in Candidates(s, a) ==> s.patchsets[i].author.Some?) && id in MatchSet(s, ps, a)
    ensures var row := s.patchsets[id];
            var total := row.total.GetOr(1);
            && (a.strictAuthor ==> ps.email(row.author.value) == ps.email(a.author) && -DAY < a.date - row.date < DAY)
            && (row.thread != a.thread ==>
                  && row.author == Some(a.author) && VersionsCompatible(ps, a, row)
                  && ps.prefixes(a.subject) == ps.prefixes(row.subject)
                  && (a.total == 1 || KnownPrefix(s.patches, id, row) == Some(BeforeDash(a.messageId))))
            && (a.total != 1 && total != 1 ==> a.total == total)
            && (row.received.GetOr(0) >= total && a.partIndex != 0 ==>
                  row.cover == Some(a.messageId) || HasMessage(s.patches, id, a.messageId))
            && (a.partIndex != 0 ==> !IndexTaken(s.patches, id, a.partIndex, a.messageId))
  {
  }

  lemma AbsorbLeavesIndexFree(s: Store, a: Submission, matches: set<PatchsetId>)
    requires matches != {} && matches <= s.patchsets.Keys
    requires forall i :: i in matches ==> !IndexTaken(s.patches, i, a.partIndex, a.messageId)
    ensures !IndexTaken(Absorb(s, a, matches).patches, Lowest(matches), a.partIndex, a.messageId)
  {
    var after, target := Absorb(s, a, matches).patches, Lowest(matches);
    forall p | p in after && after[p].patchset == target && after[p].partIndex == a.partIndex
      ensures after[p].messageId == a.messageId
    {
      AbsorbKeepsPatches(s, a, matches, p);
      var from := s.patches[p].patchset;
      assert from in matches && !IndexTaken(s.patches, from, a.partIndex, a.messageId);
    }
  }

  /**
   The patchset chosen for a part has its index free, whichever search found it and whatever was merged, so that
   storing the part there cannot collide.
   */
  lemma PlacedWithoutCollision(s: Store, ps: Parsers, a: Submission)
    requires Consistent(s) && a.partIndex != 0
    ensures var (s', r) := CreatePatchset(s, ps, a);
            r.Ok? ==> !IndexTaken(s'.patches, r.value, a.partIndex, a.messageId)
  {
    if CoverHit(s, ps, a).Some? {
    } else if exists id :: id in Candidates(s, a) && s.patchsets[id].author.None? {
    } else if MatchSet(s, ps, a) != {} {
      forall i | i in MatchSet(s, ps, a) ensures !IndexTaken(s.patches, i, a.partIndex, a.messageId) {
        MatchIsSafe(s, ps, a, i);
      }
      AbsorbLeavesIndexFree(s, a, MatchSet(s, ps, a));
    }
  }

  // ---------------------------------------------------------------- create_patch

  lemma RecountOthers(patches: map<PatchId, Patch>, p: PatchId, row: Patch, id: PatchsetId)
    requires id != row.patchset && (p in patches ==> patches[p].patchset != id)
    ensures PatchesOf(patches[p := row], id) == PatchesOf(patches, id)
  {
  }

  lemma CreatePatchCounts(s: Store, id: PatchsetId, m: MessageId, index: nat, diff: string, i: PatchsetId)
    requires CountsExact(s) && CreatePatch(s, id, m, index, diff).1.Ok? && i in s.patchsets
    ensures var s' := CreatePatch(s, id, m, index, diff).0;
            i in s'.patchsets && s'.patchsets[i].received.GetOr(0) == |PatchesOf(s'.patches, i)|
  {
    var p := PatchRow(s, m);
    if i != id && !(p in s.patches && s.patches[p].patchset == i) {
      RecountOthers(s.patches, p, Patch(id, m, index, diff), i);
    }
  }

  lemma CreatePatchCountsHere(s: Store, id: PatchsetId, m: MessageId, index: nat, diff: string)
    requires CreatePatch(s, id, m, index, diff).1.Ok?
    ensures var s' := CreatePatch(s, id, m, index, diff).0;
            id in s'.patchsets && s'.patchsets[id].received == Some(|PatchesOf(s'.patches, id)|)
  {
  }

  lemma TakenMeansHeld(patches: map<PatchId, Patch>, id: PatchsetId, index: nat, m: MessageId)
    requires IndexTaken(patches, id, index, m)
    ensures PatchesOf(patches, id) != {}
  {
    var p :| p in patches && patches[p].patchset == id && patches[p].partIndex == index && patches[p].messageId != m;
    assert p in PatchesOf(patches, id);
  }

  lemma CreatePatchKeepsKeys(s: Store, id: PatchsetId, m: MessageId, index: nat, diff: string)
    ensures CreatePatch(s, id, m, index, diff).0.patchsets.Keys == s.patchsets.Keys
  {
  }

  lemma CreatePatchKeepsThreads(s: Store, id: PatchsetId, m: MessageId, index: nat, diff: string)
    requires ThreadsConsistent(s)
    ensures ThreadsConsistent(CreatePatch(s, id, m, index, diff).0)
  {
    CreatePatchTouches(s, id, m, index, diff);
  }

  /** Storing a patch touches patch rows, part counts and statuses only, and nothing when it fails. */
  lemma CreatePatchTouches(s: Store, id: PatchsetId, m: MessageId, index: nat, diff: string)
    ensures var (s', r) := CreatePatch(s, id, m, index, diff);
            && s' == s.(patches := s'.patches, patchsets := s'.patchsets)
            && s'.patchsets.Keys == s.patchsets.Keys
            && (r.Err? ==> s' == s)
            && (forall i :: i in s.patchsets ==> s'.patchsets[i].thread == s.patchsets[i].thread)
  {
  }

  lemma CreatePatchKeepsRows(s: Store, id: PatchsetId, m: MessageId, index: nat, diff: string)
    requires PatchsetsConsistent(s)
    ensures PatchsetsConsistent(CreatePatch(s, id, m, index, diff).0)
  {
    CreatePatchTouches(s, id, m, index, diff);
    if CreatePatch(s, id, m, index, diff).1.Ok? { CreatePatchWrites(s, id, m, index, diff); }
  }

  lemma CreatePatchKeeps(s: Store, id: PatchsetId, m: MessageId, index: nat, diff: string)
    requires Consistent(s)
    ensures var (s', r) := CreatePatch(s, id, m, index, diff);
            && Consistent(s')
            && (r.Err? ==> s' == s)
            && s'.messages == s.messages && s'.threads == s.threads && s'.threadSubsystems == s.threadSubsystems
            && s'.patchsets.Keys == s.patchsets.Keys
  {
    var (s', r) := CreatePatch(s, id, m, index, diff);
    CreatePatchTouches(s, id, m, index, diff);
    CreatePatchKeepsThreads(s, id, m, index, diff);
    CreatePatchKeepsRows(s, id, m, index, diff);
    if r.Ok? {
      forall i | i in s'.patchsets ensures s'.patchsets[i].received.GetOr(0) == |PatchesOf(s'.patches, i)| {
        CreatePatchCounts(s, id, m, index, diff, i);
      }
    }
  }

  /** No patchset but perhaps one is left waiting although it is full. */
  ghost predicate NoneStuckBut(s: Store, id: PatchsetId) {
    forall i :: i in s.patchsets && i != id && s.patchsets[i].status == Incomplete ==> !Full(s.patchsets[i])
  }

  /** Storing a patch leaves nothing stuck, and gets its own patchset going if that was. */
  lemma CreatePatchUnsticks(s: Store, id: PatchsetId, m: MessageId, index: nat, diff: string)
    requires Consistent(s) && NoneStuckBut(s, id) && CreatePatch(s, id, m, index, diff).1.Ok?
    ensures NoneStuck(CreatePatch(s, id, m, index, diff).0)
  {
    var s' := CreatePatch(s, id, m, index, diff).0;
    var p := PatchRow(s, m);
    if p in s.patches && s.patches[p].patchset != id {
      var from := s.patches[p].patchset;
      assert PatchesOf(s'.patches, from) == PatchesOf(s.patches, from) - {p};
    }
  }

  lemma CreatePatchNeverStuck(s: Store, id: PatchsetId, m: MessageId, index: nat, diff: string)
    requires Consistent(s) && NoneStuck(s)
    ensures NoneStuck(CreatePatch(s, id, m, index, diff).0)
  {
    if CreatePatch(s, id, m, index, diff).1.Ok? { CreatePatchUnsticks(s, id, m, index, diff); }
  }

  /** Storing the patch of a message that has none. */
  lemma StoreNew(s: Store, id: PatchsetId, m: MessageId, index: nat, diff: string, n: PatchId)
    requires id in s.patchsets && n == NextRowId(s.patches.Keys) && !IndexTaken(s.patches, id, index, m)
    requires forall q :: q in s.patches ==> s.patches[q].messageId != m
    ensures var patches := s.patches[n := Patch(id, m, index, diff)];
            var row := s.patchsets[id].(received := Some(|PatchesOf(patches, id)|));
            CreatePatch(s, id, m, index, diff)
            == (s.(patches := patches, patchsets := s.patchsets[id := PromoteIfFull(row)]), Ok(n))
  {
    assert PatchRow(s, m) == n;
    var patches := s.patches[n := Patch(id, m, index, diff)];
    var row := s.patchsets[id].(received := Some(|PatchesOf(patches, id)|));
    assert s.patchsets[id := row][id := PromoteIfFull(row)] == s.patchsets[id := PromoteIfFull(row)];
  }

  /** Inserting or moving a patch writes its row and no other patch. */
  lemma CreatePatchWrites(s: Store, id: PatchsetId, m: MessageId, index: nat, diff: string)
    requires CreatePatch(s, id, m, index, diff).1.Ok?
    ensures var (s', r) := CreatePatch(s, id, m, index, diff);
            && r.value == PatchRow(s, m)
            && s'.patches == s.patches[r.value := Patch(id, m, index, diff)]
  {
  }

  /** The patch a message carries, if it has been stored. */
  ghost function PatchFor(patches: map<PatchId, Patch>, m: MessageId): (r: Option<Patch>)
    ensures r.Some? ==> exists p :: p in patches && patches[p] == r.value && r.value.messageId == m
    ensures r.None? ==> forall p :: p in patches ==> patches[p].messageId != m
  {
    if p :| p in patches && patches[p].messageId == m then Some(patches[p]) else None
  }

  /** Seen by message: the message now carries this patch here, and every other message what it carried before. */
  lemma CreatePatchUpserts(s: Store, id: PatchsetId, m: MessageId, index: nat, diff: string, x: MessageId)
    requires PatchsetsConsistent(s) && CreatePatch(s, id, m, index, diff).1.Ok?
    ensures PatchFor(CreatePatch(s, id, m, index, diff).0.patches, x)
         == if x == m then Some(Patch(id, m, index, diff)) else PatchFor(s.patches, x)
  {
    CreatePatchWrites(s, id, m, index, diff);
    var before, after := s.patches, CreatePatch(s, id, m, index, diff).0.patches;
    var p := PatchRow(s, m);
    forall q | q in after && q != p ensures q in before && after[q] == before[q] && after[q].messageId != m { }
    var now := PatchFor(after, x);
    if x == m {
      assert after[p].messageId == m;
      var q :| q in after && after[q] == now.value && now.value.messageId == m;
      assert q == p;
    } else if was :| was in before && before[was].messageId == x {
      assert after[was] == before[was];
    }
  }

  /** Storing a patch again changes nothing more. */
  lemma CreatePatchIdempotent(s: Store, id: PatchsetId, m: MessageId, index: nat, diff: string)
    requires Consistent(s) && CreatePatch(s, id, m, index, diff).1.Ok?
    ensures var (s', r) := CreatePatch(s, id, m, index, diff);
            CreatePatch(s', id, m, index, diff) == (s', r)
  {
    var (s', r) := CreatePatch(s, id, m, index, diff);
    CreatePatchWrites(s, id, m, index, diff);
    CreatePatchKeepsRows(s, id, m, index, diff);
    assert PatchRow(s', m) == r.value by { assert s'.patches[r.value].messageId == m; }
    IndexStaysFree(s.patches, r.value, id, m, index, diff);
    SettledRow(s, id, m, index, diff);
    StoreAgain(s', id, m, index, diff, r.value);
  }

  /** Storing a patch that is there, in a patchset whose count and status are up to date. */
  lemma StoreAgain(s: Store, id: PatchsetId, m: MessageId, index: nat, diff: string, p: PatchId)
    requires id in s.patchsets && PatchRow(s, m) == p && p in s.patches && s.patches[p] == Patch(id, m, index, diff)
    requires !IndexTaken(s.patches, id, index, m)
    requires s.patchsets[id].received == Some(|PatchesOf(s.patches, id)|)
    requires PromoteIfFull(s.patchsets[id]) == s.patchsets[id]
    ensures CreatePatch(s, id, m, index, diff) == (s, Ok(p))
  {
    assert s.patches[p := s.patches[p]] == s.patches;
    assert s.patchsets[id := s.patchsets[id]] == s.patchsets;
    assert Recount(s.patchsets, s.patches, id) == s.patchsets;
  }

  lemma IndexStaysFree(patches: map<PatchId, Patch>, p: PatchId, id: PatchsetId, m: MessageId, index: nat, diff: string)
    requires !IndexTaken(patches, id, index, m)
    ensures !IndexTaken(patches[p := Patch(id, m, index, diff)], id, index, m)
  {
  }

  /** After the promotion a recount and another promotion leave the row alone. */
  lemma SettledRow(s: Store, id: PatchsetId, m: MessageId, index: nat, diff: string)
    requires CreatePatch(s, id, m, index, diff).1.Ok?
    ensures var s' := CreatePatch(s, id, m, index, diff).0;
            id in s'.patchsets && s'.patchsets[id].received == Some(|PatchesOf(s'.patches, id)|)
            && PromoteIfFull(s'.patchsets[id]) == s'.patchsets[id]
  {
  }

  lemma MovedPatches(patches: map<PatchId, Patch>, p: PatchId, row: Patch, i: PatchsetId)
    requires p in patches ==> patches[p].messageId == row.messageId
    requires forall q :: q in patches && q != p ==> patches[q].messageId != row.messageId
    ensures |PatchesOf(patches[p := row], i)| == |PatchesOf(patches, i)|
              + (if i == row.patchset && !HasMessage(patches, i, row.messageId) then 1 else 0)
              - (if i != row.patchset && HasMessage(patches, i, row.messageId) then 1 else 0)
  {
    var before, after := PatchesOf(patches, i), PatchesOf(patches[p := row], i);
    assert HasMessage(patches, i, row.messageId) <==> p in before;
    if i == row.patchset {
      assert after == before + {p};
      assert |after| == |before| + (if p in before then 0 else 1);
    } else {
      assert after == before - {p};
      assert |after| == |before| - (if p in before then 1 else 0);
    }
  }

  /** Moving a patch to another patchset takes exactly one part from the old one and adds one to the new one. */
  lemma CreatePatchMovesOnePart(s: Store, id: PatchsetId, m: MessageId, index: nat, diff: string, i: PatchsetId)
    requires Consistent(s) && CreatePatch(s, id, m, index, diff).1.Ok? && i in s.patchsets
    ensures var s' := CreatePatch(s, id, m, index, diff).0;
            && i in s'.patchsets
            && s'.patchsets[i].received.GetOr(0) == s.patchsets[i].received.GetOr(0)
                 + (if i == id && !HasMessage(s.patches, i, m) then 1 else 0)
                 - (if i != id && HasMessage(s.patches, i, m) then 1 else 0)
  {
    var (s', r) := CreatePatch(s, id, m, index, diff);
    CreatePatchKeeps(s, id, m, index, diff);
    CreatePatchWrites(s, id, m, index, diff);
    MovedPatches(s.patches, PatchRow(s, m), Patch(id, m, index, diff), i);
    assert s'.patchsets[i].received.GetOr(0) == |PatchesOf(s'.patches, i)|;
  }

  /** No two patches of one patchset carry the same index. */
  ghost predicate DistinctIndices(patches: map<PatchId, Patch>, id: PatchsetId) {
    forall p, q | p in PatchesOf(patches, id) && q in PatchesOf(patches, id) ::
      patches[p].partIndex == patches[q].partIndex ==> p == q
  }

  /** Inserting or moving a patch never introduces an index twice. */
  lemma CreatePatchKeepsIndices(s: Store, id: PatchsetId, m: MessageId, index: nat, diff: string, i: PatchsetId)
    requires Consistent(s) && DistinctIndices(s.patches, i)
    ensures DistinctIndices(CreatePatch(s, id, m, index, diff).0.patches, i)
  {
    var (s', r) := CreatePatch(s, id, m, index, diff);
    if r.Ok? {
      var p := PatchRow(s, m);
      forall q | q in PatchesOf(s'.patches, i) && q != p
        ensures q in PatchesOf(s.patches, i) && s.patches[q] == s'.patches[q]
                && (i == id ==> s'.patches[q].partIndex != index)
      { }
    }
  }

  /** No two patches of the matched patchsets, taken together, carry the same index. */
  ghost predicate DistinctAcross(patches: map<PatchId, Patch>, ids: set<PatchsetId>) {
    forall p, q | p in PatchesIn(patches, ids) && q in PatchesIn(patches, ids) ::
      patches[p].partIndex == patches[q].partIndex ==> p == q
  }

  /** A merge keeps indices distinct exactly when no index is carried by two of the patchsets it ties together. */
  lemma AbsorbIndices(s: Store, a: Submission, matches: set<PatchsetId>)
    requires matches != {} && matches <= s.patchsets.Keys
    ensures DistinctIndices(Absorb(s, a, matches).patches, Lowest(matches)) <==> DistinctAcross(s.patches, matches)
  {
    var after := Absorb(s, a, matches).patches;
    var target := Lowest(matches);
    forall p ensures p in PatchesOf(after, target) <==> p in s.patches && s.patches[p].patchset in matches {
      if p in s.patches { AbsorbKeepsPatches(s, a, matches, p); }
    }
    forall p | p in s.patches ensures after[p].partIndex == s.patches[p].partIndex {
      AbsorbKeepsPatches(s, a, matches, p);
    }
    SameIndices(s.patches, after, matches, target);
  }

  lemma SameIndices(before: map<PatchId, Patch>, after: map<PatchId, Patch>, ids: set<PatchsetId>, target: PatchsetId)
    requires before.Keys == after.Keys
    requires forall p :: p in PatchesOf(after, target) <==> p in before && before[p].patchset in ids
    requires forall p :: p in before ==> after[p].partIndex == before[p].partIndex
    ensures DistinctIndices(after, target) <==> DistinctAcross(before, ids)
  {
    if DistinctIndices(after, target) {
      forall p, q | p in PatchesIn(before, ids) && q in PatchesIn(before, ids)
                    && before[p].partIndex == before[q].partIndex
        ensures p == q
      {
        assert p in PatchesOf(after, target) && q in PatchesOf(after, target);
      }
    }
  }

  // ---------------------------------------------------------------- promotion means complete

  ghost predicate IsPart(patches: map<PatchId, Patch>, id: PatchsetId, k: nat, p: PatchId) {
    p in PatchesOf(patches, id) && patches[p].partIndex == k
  }

  ghost predicate HoldsPartOnce(patches: map<PatchId, Patch>, id: PatchsetId, k: nat) {
    exists p :: IsPart(patches, id, k, p) && forall q :: IsPart(patches, id, k, q) ==> q == p
  }

  ghost predicate HoldsEachPartOnce(patches: map<PatchId, Patch>, id: PatchsetId, total: nat) {
    forall k: nat :: 1 <= k <= total ==> HoldsPartOnce(patches, id, k)
  }

  ghost predicate Hit(index: map<PatchId, nat>, k: nat) {
    exists p :: p in index && index[p] == k
  }

  /** An injective map into 1..total with at least total entries hits every number, and has no more. */
  lemma {:induction false} Pigeonhole(index: map<PatchId, nat>, total: nat)
    requires forall p :: p in index ==> 1 <= index[p] <= total
    requires forall p, q :: p in index && q in index && index[p] == index[q] ==> p == q
    ensures |index.Keys| <= total
    ensures |index.Keys| == total ==> forall k: nat :: 1 <= k <= total ==> Hit(index, k)
    decreases total
  {
    if total == 0 {
      assert index.Keys == {} by { if p :| p in index { assert false; } }
    } else if p :| p in index && index[p] == total {
      var rest := index - {p};
      assert rest.Keys == index.Keys - {p};
      Pigeonhole(rest, total - 1);
      if |index.Keys| == total {
        forall k: nat | 1 <= k <= total ensures Hit(index, k) {
          if k < total {
            assert Hit(rest, k);
            var q :| q in rest && rest[q] == k;
            assert q in index && index[q] == k;
          }
        }
      }
    } else {
      Pigeonhole(index, total - 1);
    }
  }

  /** The indices of a patchset's patches are distinct and lie in 1..total. */
  ghost predicate IndicesProper(patches: map<PatchId, Patch>, id: PatchsetId, total: nat) {
    && DistinctIndices(patches, id)
    && forall p :: p in PatchesOf(patches, id) ==> 1 <= patches[p].partIndex <= total
  }

  /** A full patchset with distinct indices in 1..total holds each part exactly once, and nothing else. */
  lemma FullMeansComplete(s: Store, id: PatchsetId)
    requires CountsExact(s) && id in s.patchsets && Full(s.patchsets[id])
    requires IndicesProper(s.patches, id, s.patchsets[id].total.value)
    ensures HoldsEachPartOnce(s.patches, id, s.patchsets[id].total.value)
    ensures s.patchsets[id].received == s.patchsets[id].total
  {
    var total := s.patchsets[id].total.value;
    var index := map p | p in PatchesOf(s.patches, id) :: s.patches[p].partIndex;
    assert index.Keys == PatchesOf(s.patches, id);
    Pigeonhole(index, total);
    forall k: nat | 1 <= k <= total ensures HoldsPartOnce(s.patches, id, k) {
      assert Hit(index, k);
      var p :| p in index && index[p] == k;
      assert IsPart(s.patches, id, k, p);
    }
  }

  /** Which patch holds each of the parts 1..n, and that nothing else does the rest. */
  lemma {:induction false} Holders(patches: map<PatchId, Patch>, id: PatchsetId, n: nat) returns (held: set<PatchId>)
    requires HoldsEachPartOnce(patches, id, n)
    ensures held == set p | p in PatchesOf(patches, id) && 1 <= patches[p].partIndex <= n
    ensures |held| == n
    decreases n
  {
    if n == 0 {
      held := {};
    } else {
      var rest := Holders(patches, id, n - 1);
      assert HoldsPartOnce(patches, id, n);
      var p :| IsPart(patches, id, n, p) && forall q :: IsPart(patches, id, n, q) ==> q == p;
      held := rest + {p};
      forall q | q in PatchesOf(patches, id) && patches[q].partIndex == n ensures q == p {
        assert IsPart(patches, id, n, q);
      }
    }
  }

  /** Conversely, a patchset that holds each part once and has as many as announced has proper indices. */
  lemma CompleteMeansProper(s: Store, id: PatchsetId)
    requires CountsExact(s) && id in s.patchsets && s.patchsets[id].total.Some?
    requires s.patchsets[id].received == s.patchsets[id].total
    requires HoldsEachPartOnce(s.patches, id, s.patchsets[id].total.value)
    ensures IndicesProper(s.patches, id, s.patchsets[id].total.value)
  {
    var total := s.patchsets[id].total.value;
    var held := Holders(s.patches, id, total);
    SubsetOfSameSize(held, PatchesOf(s.patches, id));
    forall p, q | p in PatchesOf(s.patches, id) && q in PatchesOf(s.patches, id)
                  && s.patches[p].partIndex == s.patches[q].partIndex
      ensures p == q
    {
      assert p in held && q in held;
      var k := s.patches[p].partIndex;
      assert HoldsPartOnce(s.patches, id, k) && IsPart(s.patches, id, k, p) && IsPart(s.patches, id, k, q);
    }
  }

  /** A full patchset holds exactly the announced parts, each once, exactly when its indices are proper. */
  lemma FullIsCompleteIff(s: Store, id: PatchsetId)
    requires CountsExact(s) && id in s.patchsets && Full(s.patchsets[id])
    ensures var (row, total) := (s.patchsets[id], s.patchsets[id].total.value);
            (HoldsEachPartOnce(s.patches, id, total) && row.received == row.total)
            <==> IndicesProper(s.patches, id, total)
  {
    var (row, total) := (s.patchsets[id], s.patchsets[id].total.value);
    if IndicesProper(s.patches, id, total) { FullMeansComplete(s, id); }
    if HoldsEachPartOnce(s.patches, id, total) && row.received == row.total { CompleteMeansProper(s, id); }
  }

  /** A submission makes a patchset `Pending` only if the patchset is full by then. */
  lemma CreatePatchsetPromotesFull(s: Store, ps: Parsers, a: Submission, i: PatchsetId)
    requires i in s.patchsets ==> s.patchsets[i].status != Pending
    ensures var (s', r) := CreatePatchset(s, ps, a);
            i in s'.patchsets && s'.patchsets[i].status == Pending ==> r == Ok(i) && Full(s'.patchsets[i])
  {
    var hit := CoverHit(s, ps, a);
    if hit.Some? {
    } else if exists id :: id in Candidates(s, a) && s.patchsets[id].author.None? {
    } else if MatchSet(s, ps, a) != {} {
      AbsorbPromotesFull(s, a, MatchSet(s, ps, a), i);
    }
  }

  lemma AbsorbPromotesFull(s: Store, a: Submission, matches: set<PatchsetId>, i: PatchsetId)
    requires matches != {} && matches <= s.patchsets.Keys
    requires i in s.patchsets ==> s.patchsets[i].status != Pending
    ensures var s' := Absorb(s, a, matches);
            i in s'.patchsets && s'.patchsets[i].status == Pending ==> i == Lowest(matches) && Full(s'.patchsets[i])
  {
  }

  /** The same for a patch. */
  lemma CreatePatchPromotesFull(s: Store, id: PatchsetId, m: MessageId, index: nat, diff: string, i: PatchsetId)
    requires i in s.patchsets && s.patchsets[i].status != Pending
    ensures var s' := CreatePatch(s, id, m, index, diff).0;
            i in s'.patchsets && (s'.patchsets[i].status == Pending ==> Full(s'.patchsets[i]))
  {
  }

  /** A waiting patchset that is full once the patch is stored has become `Pending`. */
  lemma CreatePatchPromotes(s: Store, id: PatchsetId, m: MessageId, index: nat, diff: string)
    requires CreatePatch(s, id, m, index, diff).1.Ok? && s.patchsets[id].status in {Incomplete, Fetching}
    ensures var s' := CreatePatch(s, id, m, index, diff).0;
            id in s'.patchsets && (Full(s'.patchsets[id]) ==> s'.patchsets[id].status == Pending)
  {
  }

  lemma CreatePatchKeepsTotal(s: Store, id: PatchsetId, m: MessageId, index: nat, diff: string, i: PatchsetId)
    requires Consistent(s) && i in s.patchsets
    ensures var s' := CreatePatch(s, id, m, index, diff).0;
            && i in s'.patchsets && s'.patchsets[i].total == s.patchsets[i].total
            && (s.patchsets[i].received.Some? ==> s'.patchsets[i].received.Some?)
  {
  }

  // ---------------------------------------------------------------- cancelled patchsets

  /** A cancelled patchset stays cancelled unless it is merged away. */
  ghost predicate StaysCancelled(s': Store, i: PatchsetId) {
    i in s'.patchsets ==> s'.patchsets[i].status == Cancelled
  }

  lemma AbsorbKeepsCancelled(s: Store, a: Submission, matches: set<PatchsetId>, i: PatchsetId)
    requires matches != {} && matches <= s.patchsets.Keys
    requires i in s.patchsets && s.patchsets[i].status == Cancelled
    ensures StaysCancelled(Absorb(s, a, matches), i)
  {
  }

  lemma CreatePatchsetKeepsCancelled(s: Store, ps: Parsers, a: Submission, i: PatchsetId)
    requires i in s.patchsets && s.patchsets[i].status == Cancelled
    ensures StaysCancelled(CreatePatchset(s, ps, a).0, i)
  {
    var hit := CoverHit(s, ps, a);
    if hit.Some? {
    } else if exists id :: id in Candidates(s, a) && s.patchsets[id].author.None? {
    } else if MatchSet(s, ps, a) != {} {
      AbsorbKeepsCancelled(s, a, MatchSet(s, ps, a), i);
    }
  }

  lemma CreatePatchKeepsCancelled(s: Store, id: PatchsetId, m: MessageId, index: nat, diff: string, i: PatchsetId)
    requires StaysCancelled(s, i)
    ensures StaysCancelled(CreatePatch(s, id, m, index, diff).0, i)
  {
  }

  // ---------------------------------------------------------------- the other operations

  lemma InsertKeeps(s: Store, id: PatchsetId, row: Patchset)
    requires Consistent(s) && id !in s.patchsets && row.thread in s.threads
    requires row.received.GetOr(0) == 0 && row.status != Incomplete
    ensures Consistent(s.(patchsets := s.patchsets[id := row]))
    ensures NoneStuck(s) ==> NoneStuck(s.(patchsets := s.patchsets[id := row]))
  {
    AddRowKeeps(s, id, row);
  }

  lemma FetchAgainKeeps(s: Store, article: string, subject: string, now: int)
    requires Consistent(s) && FetchingHit(s, article).Some?
    ensures var (s', id) := CreateFetching(s, article, subject, now);
            Consistent(s') && id in s'.patchsets && (NoneStuck(s) ==> NoneStuck(s'))
  {
    var i := FetchingHit(s, article).value;
    RowKeeps(s, i, s.patchsets[i].(status := Fetching));
  }

  lemma FetchAnewKeeps(s: Store, article: string, subject: string, now: int)
    requires Consistent(s) && FetchingHit(s, article).None?
    ensures var (s', id) := CreateFetching(s, article, subject, now);
            Consistent(s') && id in s'.patchsets && (NoneStuck(s) ==> NoneStuck(s'))
  {
    Threads.EnsureThreadKeeps(s, RootId(article), now);
    var (s1, t) := Threads.EnsureThread(s, RootId(article), now);
    var id := NextRowId(s1.patchsets.Keys);
    InsertKeeps(s1, id, Patchset(t, Some(RootId(article)), subject, 9999, None, now, None, None, Fetching, 1));
  }

  lemma CreateFetchingKeeps(s: Store, article: string, subject: string, now: int)
    requires Consistent(s)
    ensures var (s', id) := CreateFetching(s, article, subject, now);
            && Consistent(s') && id in s'.patchsets
            && (NoneStuck(s) ==> NoneStuck(s'))
  {
    if FetchingHit(s, article).Some? {
      FetchAgainKeeps(s, article, subject, now);
    } else {
      FetchAnewKeeps(s, article, subject, now);
    }
  }

  /** The same rows with the same thread and count. */
  ghost predicate Alike(before: map<PatchsetId, Patchset>, after: map<PatchsetId, Patchset>) {
    && after.Keys == before.Keys
    && forall i :: i in before ==> after[i].thread == before[i].thread && after[i].received == before[i].received
  }

  /** The same announced lengths, and nothing newly waiting. */
  ghost predicate NoneWaitsAnew(before: map<PatchsetId, Patchset>, after: map<PatchsetId, Patchset>) {
    forall i :: i in before && i in after ==>
      after[i].total == before[i].total && (after[i].status == Incomplete ==> before[i].status == Incomplete)
  }

  /** Changing neither threads nor counts keeps the store consistent. */
  lemma AlikeKeeps(s: Store, after: map<PatchsetId, Patchset>)
    requires Consistent(s) && Alike(s.patchsets, after)
    ensures Consistent(s.(patchsets := after))
    ensures NoneStuck(s) && NoneWaitsAnew(s.patchsets, after) ==> NoneStuck(s.(patchsets := after))
  {
  }

  lemma RowKeeps(s: Store, i: PatchsetId, row: Patchset)
    requires Consistent(s) && i in s.patchsets && row.thread == s.patchsets[i].thread
    requires row.received == s.patchsets[i].received && row.total == s.patchsets[i].total
    requires row.status == Incomplete ==> s.patchsets[i].status == Incomplete
    ensures Consistent(s.(patchsets := s.patchsets[i := row]))
    ensures NoneStuck(s) ==> NoneStuck(s.(patchsets := s.patchsets[i := row]))
  {
    AlikeKeeps(s, s.patchsets[i := row]);
  }

  lemma SetStatusesKeeps(s: Store, selected: set<PatchsetId>, status: Status)
    requires Consistent(s)
    ensures Consistent(SetStatuses(s, selected, status))
    ensures NoneStuck(s) && status != Incomplete ==> NoneStuck(SetStatuses(s, selected, status))
  {
    SetStatusesAlike(s, selected, status);
    AlikeKeeps(s, SetStatuses(s, selected, status).patchsets);
  }

  lemma SetStatusesAlike(s: Store, selected: set<PatchsetId>, status: Status)
    ensures var after := SetStatuses(s, selected, status).patchsets;
            && SetStatuses(s, selected, status) == s.(patchsets := after)
            && Alike(s.patchsets, after)
            && (status != Incomplete ==> NoneWaitsAnew(s.patchsets, after))
  {
  }
}

/**
 The NNTP ingestor's high-water marks. A cycle visits the tracked groups over one connection; in each it fetches
 the articles above the stored mark, hands them to the rest of the system and moves the mark up. Any step may fail
 and the process may stop between handing over an article and storing the mark.
 */
module Nntp {
  import opened Prelude
  import opened Text

  // ---------------------------------------------------------------- answers to ARTICLE

  /** The server sends the article, refuses with a response line, or the connection breaks with some error text. */
  datatype Reply = Article | Refused(response: string) | Broken(text: string)

  /** A fetch, whether handing the article over succeeds, and whether the new mark is stored afterwards. */
  datatype Attempt = Attempt(reply: Reply, handedOver: bool, stored: bool)

  const PREFIX := "Failed to retrieve article "
  const SEPARATOR := ": "
  const NO_SUCH_ARTICLE := "423"

  function Decimal(n: nat): (s: string)
    ensures s != [] && forall c :: c in s ==> '0' <= c <= '9'
  {
    if n < 10 then ["0123456789"[n]] else Decimal(n / 10) + ["0123456789"[n % 10]]
  }

  function ErrorText(id: nat, reply: Reply): string
    requires !reply.Article?
  {
    match reply
    case Refused(response) => PREFIX + Decimal(id) + SEPARATOR + response
    case Broken(text) => text
  }

  /** The search the ingestor makes in the error text. */
  method Search(s: string, t: string) returns (found: bool)
    requires t != []
    ensures found <==> Contains(s, t)
  {
    for i := 0 to |s|
      invariant forall k :: 0 <= k < i ==> !OccursAt(t, s, k)
    {
      if i + |t| <= |s| && s[i..i + |t|] == t {
        assert OccursAt(t, s, i);
        return true;
      }
    }
    found := false;
  }

  /** The failure is taken to mean that the group has no such article. */
  ghost predicate Skips(id: nat, reply: Reply) {
    !reply.Article? && Contains(ErrorText(id, reply), NO_SUCH_ARTICLE)
  }

  ghost predicate NoDigits(s: string) {
    forall c :: c in s ==> !('0' <= c <= '9')
  }

  /** A text of digits found in a + gap + b, where the gap has no digit, is found in a or in b. */
  lemma FoundAround(a: string, gap: string, b: string, t: string)
    requires gap != [] && NoDigits(gap) && t != [] && forall c :: c in t ==> '0' <= c <= '9'
    ensures Contains(a + gap + b, t) <==> Contains(a, t) || Contains(b, t)
  {
    var s := a + gap + b;
    if i :| OccursAt(t, s, i) {
      if i + |t| <= |a| {
        assert a[i..i + |t|] == s[i..i + |t|];
        assert OccursAt(t, a, i);
      } else if i >= |a| + |gap| {
        var j := i - |a| - |gap|;
        assert b[j..j + |t|] == s[i..i + |t|];
        assert OccursAt(t, b, j);
      } else {
        var p := if i < |a| then |a| else i;
        assert s[p] == gap[p - |a|] && gap[p - |a|] in gap;
        assert s[p] == t[p - i] && t[p - i] in t;
      }
    }
    if i :| OccursAt(t, a, i) {
      assert s[i..i + |t|] == a[i..i + |t|];
      assert OccursAt(t, s, i);
    }
    if i :| OccursAt(t, b, i) {
      var j := |a| + |gap| + i;
      assert s[|a| + |gap|..] == b;
      assert s[j..j + |t|] == s[|a| + |gap|..][i..i + |t|];
      assert OccursAt(t, s, j);
    }
  }

  /**
   A refused article is passed over exactly when 423 occurs in the response line or in the article's own number,
   which the error text repeats.
   */
  lemma RefusalSkippedIff(id: nat, response: string)
    ensures Skips(id, Refused(response))
            <==> Contains(response, NO_SUCH_ARTICLE) || Contains(Decimal(id), NO_SUCH_ARTICLE)
  {
    var t := NO_SUCH_ARTICLE;
    forall c | c in t ensures '0' <= c <= '9' { assert t == ['4', '2', '3']; }
    assert PREFIX + Decimal(id) + SEPARATOR + response == [] + PREFIX + (Decimal(id) + SEPARATOR + response);
    FoundAround([], PREFIX, Decimal(id) + SEPARATOR + response, t);
    FoundAround(Decimal(id), SEPARATOR, response, t);
    assert !Contains([], t) by { forall i ensures !OccursAt(t, [], i) { } }
  }

  /** The status code at the head of a response line. */
  predicate SaysNoSuchArticle(response: string) {
    |response| >= 3 && response[..3] == NO_SUCH_ARTICLE
  }

  /**
   The ingestor treats a refusal as its status code asks exactly when the code is 423 or when 423 is nowhere in
   the response or the article's number.
   */
  lemma SkippedRightlyIff(id: nat, response: string)
    ensures (Skips(id, Refused(response)) <==> SaysNoSuchArticle(response))
       <==> SaysNoSuchArticle(response)
            || !(Contains(response, NO_SUCH_ARTICLE) || Contains(Decimal(id), NO_SUCH_ARTICLE))
  {
    RefusalSkippedIff(id, response);
    if SaysNoSuchArticle(response) { assert OccursAt(NO_SUCH_ARTICLE, response, 0); }
  }

  // ---------------------------------------------------------------- one group

  /**
   A group's stored mark, the articles handed over so far in order, those passed over as missing, and the mark the
   ingestor started from.
   */
  datatype Group = Group(mark: nat, sent: seq<nat>, skipped: set<nat>, start: nat)

  /** The fetch succeeds or counts as missing, and the mark moves past the article. */
  ghost predicate Passes(id: nat, a: Attempt) {
    (if a.reply.Article? then a.handedOver else Skips(id, a.reply)) && a.stored
  }

  /** The group after a fetch, before the mark is stored. */
  ghost function Fetched(g: Group, id: nat, a: Attempt): Group {
    if a.reply.Article? then (if a.handedOver then g.(sent := g.sent + [id]) else g)
    else if Skips(id, a.reply) then g.(skipped := g.skipped + {id})
    else g
  }

  /** Fetching up to high; false when a failed hand-over or write ends the cycle. */
  ghost function Drain(g: Group, high: nat, fetch: nat -> Attempt): (Group, bool)
    decreases high - g.mark
  {
    var next := g.mark + 1;
    if g.mark >= high then (g, true)
    else if Passes(next, fetch(next)) then Drain(Fetched(g, next, fetch(next)).(mark := next), high, fetch)
    else (Fetched(g, next, fetch(next)), !fetch(next).reply.Article? && !Skips(next, fetch(next).reply))
  }

  /** How far below the server's highest number a group without a mark starts. */
  function Overlap(bootstrapped: bool): nat {
    if bootstrapped then 100 else 4000
  }

  function StartMark(high: nat, bootstrapped: bool): nat {
    if high > Overlap(bootstrapped) then high - Overlap(bootstrapped) else 0
  }

  /** One visit; false when it ends the whole cycle. */
  ghost function VisitGroup(g: Group, high: nat, bootstrapped: bool, startStored: bool, fetch: nat -> Attempt)
    : (Group, bool)
  {
    if g.mark == 0 && high > 0 then
      if !startStored then (g, false)
      else
        var start := StartMark(high, bootstrapped);
        Drain(g.(mark := start, start := start), high, fetch)
    else Drain(g, high, fetch)
  }

  /** The articles the server delivers with a number in (low, high], in order. */
  function Delivered(low: nat, high: nat, fetch: nat -> Attempt): seq<nat> {
    if high <= low then []
    else Delivered(low, high - 1, fetch) + (if fetch(high).reply.Article? then [high] else [])
  }

  lemma {:induction false} DeliveredCons(low: nat, high: nat, fetch: nat -> Attempt)
    requires low < high
    ensures Delivered(low, high, fetch)
         == (if fetch(low + 1).reply.Article? then [low + 1] else []) + Delivered(low + 1, high, fetch)
    decreases high
  {
    if low + 1 == high {
      assert Delivered(low, low, fetch) == [] && Delivered(high, high, fetch) == [];
    } else {
      DeliveredCons(low, high - 1, fetch);
    }
  }

  /** The last fetch of a visit handed the article over, but the mark was not stored. */
  ghost predicate MarkLost(id: nat, a: Attempt) {
    a.reply.Article? && a.handedOver && !a.stored
  }

  /**
   What a visit does, without following its loop: it moves the mark to just before the first article that does not
   pass (or to the server's highest number), and hands over, in order, the articles delivered up to there, and the
   next one as well when only the storing of its mark failed.
   */
  ghost predicate StopsAt(g: Group, r: Group, high: nat, fetch: nat -> Attempt) {
    && g.mark <= r.mark && (g.mark <= high ==> r.mark <= high) && (g.mark > high ==> r.mark == g.mark)
    && (forall a :: g.mark < a <= r.mark ==> Passes(a, fetch(a)))
    && (r.mark < high ==> !Passes(r.mark + 1, fetch(r.mark + 1)))
    && r.start == g.start
    && r.sent == g.sent + Delivered(g.mark, r.mark, fetch)
               + (if r.mark < high && MarkLost(r.mark + 1, fetch(r.mark + 1)) then [r.mark + 1] else [])
  }

  lemma StopsAtStep(g: Group, r: Group, high: nat, fetch: nat -> Attempt)
    requires g.mark < high && Passes(g.mark + 1, fetch(g.mark + 1))
    requires StopsAt(Fetched(g, g.mark + 1, fetch(g.mark + 1)).(mark := g.mark + 1), r, high, fetch)
    ensures StopsAt(g, r, high, fetch)
  {
    SentThroughStep(g.sent, g.mark, r.mark, fetch);
    forall a | g.mark < a <= r.mark ensures Passes(a, fetch(a)) { assert a == g.mark + 1 || g.mark + 1 < a; }
  }

  /** What goes out first and what goes out later make up what goes out. */
  lemma SentThroughStep(sent: seq<nat>, low: nat, high: nat, fetch: nat -> Attempt)
    requires low < high
    ensures sent + Delivered(low, high, fetch)
         == (if fetch(low + 1).reply.Article? then sent + [low + 1] else sent) + Delivered(low + 1, high, fetch)
  {
    DeliveredCons(low, high, fetch);
    assert sent + ([low + 1] + Delivered(low + 1, high, fetch)) == sent + [low + 1] + Delivered(low + 1, high, fetch);
  }

  lemma {:induction false} DrainStops(g: Group, high: nat, fetch: nat -> Attempt)
    ensures StopsAt(g, Drain(g, high, fetch).0, high, fetch)
    decreases high - g.mark
  {
    var next := g.mark + 1;
    if g.mark < high && Passes(next, fetch(next)) {
      var h := Fetched(g, next, fetch(next)).(mark := next);
      DrainStops(h, high, fetch);
      StopsAtStep(g, Drain(h, high, fetch).0, high, fetch);
    }
  }

  /** A visit in which every article up to the server's highest passes leaves the mark there. */
  lemma CaughtUp(g: Group, high: nat, bootstrapped: bool, fetch: nat -> Attempt)
    requires g.mark <= high && forall a :: Passes(a, fetch(a))
    ensures VisitGroup(g, high, bootstrapped, true, fetch).0.mark == high
  {
    var s := if g.mark == 0 && high > 0
             then g.(mark := StartMark(high, bootstrapped), start := StartMark(high, bootstrapped)) else g;
    DrainStops(s, high, fetch);
  }

  /**
   The first visit to a group starts a window below the server's highest number, 100 articles after a bootstrap from
   archives and 4000 without, or at the first article if there are no more; a later visit goes on from the mark.
   */
  lemma VisitStarts(g: Group, high: nat, bootstrapped: bool, fetch: nat -> Attempt) returns (from: nat)
    ensures if g.mark == 0 && high > 0 then from + (if bootstrapped then 100 else 4000) == high
                                            || (from == 0 && high <= if bootstrapped then 100 else 4000)
            else from == g.mark
    ensures var first := g.mark == 0 && high > 0;
            StopsAt(if first then g.(mark := from, start := from) else g,
                    VisitGroup(g, high, bootstrapped, true, fetch).0, high, fetch)
  {
    var first := g.mark == 0 && high > 0;
    from := if first then StartMark(high, bootstrapped) else g.mark;
    DrainStops(if first then g.(mark := from, start := from) else g, high, fetch);
  }

  ghost predicate InOrder(s: seq<nat>) {
    forall i, j :: 0 <= i < j < |s| ==> s[i] <= s[j]
  }

  ghost predicate Covered(g: Group) {
    forall a :: g.start < a <= g.mark ==> a in g.sent || a in g.skipped
  }

  ghost predicate NotAhead(g: Group) {
    && (forall a :: a in g.sent ==> a <= g.mark + 1)
    && (forall a :: a in g.skipped ==> a <= g.mark + 1)
  }

  /**
   Everything between the start and the mark was handed over or passed over, nothing beyond the next article was,
   and articles went out in order.
   */
  ghost predicate Sound(g: Group) {
    g.start <= g.mark && Covered(g) && NotAhead(g) && InOrder(g.sent)
  }

  /** The group after a later point of a run: the mark did not go back and nothing handed over was forgotten. */
  ghost predicate Later(g: Group, h: Group) {
    && g.mark <= h.mark
    && g.sent <= h.sent
    && g.skipped <= h.skipped
    && (g.mark > 0 ==> h.start == g.start)
  }

  lemma FetchKeeps(g: Group, a: Attempt)
    requires Sound(g)
    ensures Sound(Fetched(g, g.mark + 1, a)) && Later(g, Fetched(g, g.mark + 1, a))
    ensures Passes(g.mark + 1, a) ==>
              && Sound(Fetched(g, g.mark + 1, a).(mark := g.mark + 1))
              && Later(g, Fetched(g, g.mark + 1, a).(mark := g.mark + 1))
  {
    var s := g.sent + [g.mark + 1];
    forall i, j | 0 <= i < j < |s| ensures s[i] <= s[j] { assert g.sent[i] in g.sent; }
    assert s[|g.sent|] == g.mark + 1;
  }

  lemma {:induction false} DrainKeeps(g: Group, high: nat, fetch: nat -> Attempt)
    requires Sound(g)
    ensures Sound(Drain(g, high, fetch).0) && Later(g, Drain(g, high, fetch).0)
    ensures Drain(g, high, fetch).0.start == g.start
    ensures forall a :: a in Drain(g, high, fetch).0.skipped - g.skipped ==> Skips(a, fetch(a).reply)
    decreases high - g.mark
  {
    var next := g.mark + 1;
    if g.mark < high {
      FetchKeeps(g, fetch(next));
      if Passes(next, fetch(next)) {
        DrainKeeps(Fetched(g, next, fetch(next)).(mark := next), high, fetch);
      }
    }
  }

  lemma VisitKeeps(g: Group, high: nat, bootstrapped: bool, startStored: bool, fetch: nat -> Attempt)
    requires Sound(g)
    ensures Sound(VisitGroup(g, high, bootstrapped, startStored, fetch).0)
    ensures Later(g, VisitGroup(g, high, bootstrapped, startStored, fetch).0)
  {
    if g.mark == 0 && high > 0 {
      var start := StartMark(high, bootstrapped);
      DrainKeeps(g.(mark := start, start := start), high, fetch);
    } else {
      DrainKeeps(g, high, fetch);
    }
  }

  // ---------------------------------------------------------------- cycles

  /** A group in a cycle: whether the database could be read, what GROUP answered, and what the fetches bring. */
  datatype Visit = Visit(name: string, readable: bool, high: Option<nat>, startStored: bool, fetch: nat -> Attempt)

  function GroupOf(groups: map<string, Group>, name: string): Group {
    if name in groups then groups[name] else Group(0, [], {}, 0)
  }

  ghost function VisitOne(groups: map<string, Group>, v: Visit, bootstrapped: bool): (map<string, Group>, bool) {
    if !v.readable then (groups, false)
    else if v.high.None? then (groups[v.name := GroupOf(groups, v.name)], true)
    else
      var r := VisitGroup(GroupOf(groups, v.name), v.high.value, bootstrapped, v.startStored, v.fetch);
      (groups[v.name := r.0], r.1)
  }

  /** The visits in turn, up to one that ends the cycle. */
  ghost function Cycle(groups: map<string, Group>, visits: seq<Visit>, bootstrapped: bool): map<string, Group>
    decreases |visits|
  {
    if visits == [] then groups
    else
      var r := VisitOne(groups, visits[0], bootstrapped);
      if r.1 then Cycle(r.0, visits[1..], bootstrapped) else r.0
  }

  /** A visit's fetching lets the cycle go on exactly when it reached the end, or met an error that may pass by. */
  lemma {:induction false} DrainGoesOn(g: Group, high: nat, fetch: nat -> Attempt)
    ensures var (r, goOn) := Drain(g, high, fetch);
            goOn <==> r.mark >= high
                      || (!fetch(r.mark + 1).reply.Article? && !Skips(r.mark + 1, fetch(r.mark + 1).reply))
    decreases high - g.mark
  {
    var next := g.mark + 1;
    if g.mark < high && Passes(next, fetch(next)) {
      DrainGoesOn(Fetched(g, next, fetch(next)).(mark := next), high, fetch);
    }
  }

  /**
   The cycle goes on to the next group unless the database could not be read or the first mark not be stored, or the
   hand-over of an article or the storing of its mark failed; a group that cannot be selected is left for next time.
   */
  lemma VisitGoesOnIff(groups: map<string, Group>, v: Visit, bootstrapped: bool)
    ensures var (after, goOn) := VisitOne(groups, v, bootstrapped);
            var g := GroupOf(groups, v.name);
            var r := GroupOf(after, v.name);
            && (forall n :: n != v.name ==> GroupOf(after, n) == GroupOf(groups, n))
            && (!v.readable ==> !goOn && after == groups)
            && (v.readable && v.high.None? ==> goOn && r == g)
            && (v.readable && v.high.Some? && g.mark == 0 && v.high.value > 0 && !v.startStored ==> !goOn && r == g)
            && (v.readable && v.high.Some? && (g.mark != 0 || v.high.value == 0 || v.startStored) ==>
                  (goOn <==> r.mark >= v.high.value
                             || (!v.fetch(r.mark + 1).reply.Article?
                                 && !Skips(r.mark + 1, v.fetch(r.mark + 1).reply))))
  {
    if v.readable && v.high.Some? {
      var g, high := GroupOf(groups, v.name), v.high.value;
      if g.mark != 0 || high == 0 {
        DrainGoesOn(g, high, v.fetch);
      } else if v.startStored {
        var start := StartMark(high, bootstrapped);
        DrainGoesOn(g.(mark := start, start := start), high, v.fetch);
      }
    }
  }

  class Ingestor {
    var groups: map<string, Group>
    const bootstrapped: bool

    constructor (groups: map<string, Group>, bootstrapped: bool)
      ensures this.groups == groups && this.bootstrapped == bootstrapped
    {
      this.groups := groups;
      this.bootstrapped := bootstrapped;
    }

    method UpdateLastArticleNum(name: string, num: nat)
      requires name in groups
      modifies this
      ensures groups == old(groups)[name := old(groups[name]).(mark := num)]
    {
      groups := groups[name := groups[name].(mark := num)];
    }

    /** Returns false when the cycle must end. */
    method FetchPending(name: string, high: nat, fetch: nat -> Attempt) returns (goOn: bool)
      requires name in groups
      modifies this
      ensures groups == old(groups)[name := Drain(old(groups[name]), high, fetch).0]
      ensures goOn == Drain(old(groups[name]), high, fetch).1
    {
      var current := groups[name].mark;
      while current < high
        invariant name in groups && current == groups[name].mark
        invariant groups == old(groups)[name := groups[name]]
        invariant Drain(groups[name], high, fetch) == Drain(old(groups[name]), high, fetch)
      {
        var nextId := current + 1;
        var a := fetch(nextId);
        match a.reply {
          case Article =>
            if !a.handedOver { return false; }
            groups := groups[name := groups[name].(sent := groups[name].sent + [nextId])];
          case _ =>
            var missing := Search(ErrorText(nextId, a.reply), NO_SUCH_ARTICLE);
            if !missing { return true; }
            groups := groups[name := groups[name].(skipped := groups[name].skipped + {nextId})];
        }
        if !a.stored { return false; }
        UpdateLastArticleNum(name, nextId);
        current := nextId;
      }
      goOn := true;
    }

    method ProcessGroup(v: Visit) returns (goOn: bool)
      modifies this
      ensures groups == VisitOne(old(groups), v, bootstrapped).0
      ensures goOn == VisitOne(old(groups), v, bootstrapped).1
    {
      if !v.readable { return false; }
      if v.name !in groups { groups := groups[v.name := Group(0, [], {}, 0)]; }
      assert groups == old(groups)[v.name := GroupOf(old(groups), v.name)];
      if v.high.None? { return true; }
      var high := v.high.value;
      if groups[v.name].mark == 0 && high > 0 {
        if !v.startStored { return false; }
        var overlap := if bootstrapped then 100 else 4000;
        var current := if high > overlap then high - overlap else 0;
        groups := groups[v.name := groups[v.name].(start := current)];
        UpdateLastArticleNum(v.name, current);
      }
      goOn := FetchPending(v.name, high, v.fetch);
    }

    method ProcessNntpCycle(visits: seq<Visit>)
      modifies this
      ensures groups == Cycle(old(groups), visits, bootstrapped)
    {
      var i := 0;
      while i < |visits|
        invariant 0 <= i <= |visits|
        invariant Cycle(groups, visits[i..], bootstrapped) == Cycle(old(groups), visits, bootstrapped)
      {
        assert visits[i..][0] == visits[i] && visits[i..][1..] == visits[i + 1..];
        var goOn := ProcessGroup(visits[i]);
        if !goOn { return; }
        i := i + 1;
      }
    }
  }

  ghost predicate AllSound(groups: map<string, Group>) {
    forall n :: n in groups ==> Sound(groups[n])
  }

  ghost predicate AllLater(before: map<string, Group>, after: map<string, Group>) {
    forall n :: n in before ==> n in after && Later(before[n], after[n])
  }

  lemma VisitOneKeeps(groups: map<string, Group>, v: Visit, bootstrapped: bool)
    requires AllSound(groups)
    ensures AllSound(VisitOne(groups, v, bootstrapped).0)
    ensures AllLater(groups, VisitOne(groups, v, bootstrapped).0)
  {
    if v.readable && v.high.Some? {
      VisitKeeps(GroupOf(groups, v.name), v.high.value, bootstrapped, v.startStored, v.fetch);
    }
  }

  lemma {:induction false} CycleKeeps(groups: map<string, Group>, visits: seq<Visit>, bootstrapped: bool)
    requires AllSound(groups)
    ensures AllSound(Cycle(groups, visits, bootstrapped))
    ensures AllLater(groups, Cycle(groups, visits, bootstrapped))
    decreases |visits|
  {
    if visits != [] {
      VisitOneKeeps(groups, visits[0], bootstrapped);
      var r := VisitOne(groups, visits[0], bootstrapped);
      if r.1 {
        CycleKeeps(r.0, visits[1..], bootstrapped);
        LaterTransitive(groups, r.0, Cycle(r.0, visits[1..], bootstrapped));
      }
    }
  }

  lemma LaterTransitive(a: map<string, Group>, b: map<string, Group>, c: map<string, Group>)
    requires AllLater(a, b) && AllLater(b, c)
    ensures AllLater(a, c)
  {
    forall n | n in a ensures n in c && Later(a[n], c[n]) { assert Later(a[n], b[n]) && Later(b[n], c[n]); }
  }

  /** The ingestor's endless loop, cycle after cycle; a restart of the process begins a new cycle. */
  ghost function Run(groups: map<string, Group>, cycles: seq<seq<Visit>>, bootstrapped: bool): map<string, Group>
    decreases |cycles|
  {
    if cycles == [] then groups
    else Run(Cycle(groups, cycles[0], bootstrapped), cycles[1..], bootstrapped)
  }

  /**
   Over every run with errors and crashes: in every group, every article between the start and the mark was handed
   over or passed over as missing, nothing beyond mark + 1 went out, articles went out in order, the mark never
   went back and a positive mark keeps its start.
   */
  lemma {:induction false} RunInvariant(groups: map<string, Group>, cycles: seq<seq<Visit>>, bootstrapped: bool)
    requires AllSound(groups)
    ensures AllSound(Run(groups, cycles, bootstrapped))
    ensures AllLater(groups, Run(groups, cycles, bootstrapped))
    decreases |cycles|
  {
    if cycles != [] {
      CycleKeeps(groups, cycles[0], bootstrapped);
      var next := Cycle(groups, cycles[0], bootstrapped);
      RunInvariant(next, cycles[1..], bootstrapped);
      LaterTransitive(groups, next, Run(next, cycles[1..], bootstrapped));
    }
  }

  // ---------------------------------------------------------------- why an article was handed or passed over

  /** The article has been handed over, or (if not `sent`) passed over. */
  ghost predicate Settled(g: Group, a: nat, sent: bool) {
    if sent then a in g.sent else a in g.skipped
  }

  /** The server's reply that settles an article so. */
  ghost predicate Settles(a: nat, reply: Reply, sent: bool) {
    if sent then reply.Article? else Skips(a, reply)
  }

  lemma {:induction false} DrainSettles(g: Group, high: nat, fetch: nat -> Attempt, a: nat, sent: bool)
    requires Settled(Drain(g, high, fetch).0, a, sent) && !Settled(g, a, sent)
    ensures Settles(a, fetch(a).reply, sent)
    decreases high - g.mark
  {
    var next := g.mark + 1;
    if g.mark < high && Passes(next, fetch(next)) && !Settled(Fetched(g, next, fetch(next)), a, sent) {
      DrainSettles(Fetched(g, next, fetch(next)).(mark := next), high, fetch, a, sent);
    }
  }

  /** This visit to the named group got the reply that settles the article. */
  ghost predicate Explains(v: Visit, name: string, a: nat, sent: bool) {
    v.name == name && Settles(a, v.fetch(a).reply, sent)
  }

  lemma VisitSettles(groups: map<string, Group>, v: Visit, bootstrapped: bool, name: string, a: nat, sent: bool)
    requires Settled(GroupOf(VisitOne(groups, v, bootstrapped).0, name), a, sent)
    requires !Settled(GroupOf(groups, name), a, sent)
    ensures Explains(v, name, a, sent)
  {
    var g := GroupOf(groups, v.name);
    if v.readable && v.high.Some? && v.name == name {
      var start := StartMark(v.high.value, bootstrapped);
      var s := if g.mark == 0 && v.high.value > 0 then g.(mark := start, start := start) else g;
      if Settled(Drain(s, v.high.value, v.fetch).0, a, sent) { DrainSettles(s, v.high.value, v.fetch, a, sent); }
    }
  }

  ghost predicate ExplainedIn(visits: seq<Visit>, name: string, a: nat, sent: bool) {
    exists i :: 0 <= i < |visits| && Explains(visits[i], name, a, sent)
  }

  lemma {:induction false} CycleSettles(groups: map<string, Group>, visits: seq<Visit>, bootstrapped: bool,
                                        name: string, a: nat, sent: bool)
    requires Settled(GroupOf(Cycle(groups, visits, bootstrapped), name), a, sent)
    requires !Settled(GroupOf(groups, name), a, sent)
    ensures ExplainedIn(visits, name, a, sent)
    decreases |visits|
  {
    if visits != [] {
      var r := VisitOne(groups, visits[0], bootstrapped);
      if Settled(GroupOf(r.0, name), a, sent) {
        VisitSettles(groups, visits[0], bootstrapped, name, a, sent);
      } else {
        CycleSettles(r.0, visits[1..], bootstrapped, name, a, sent);
        var i :| 0 <= i < |visits[1..]| && Explains(visits[1..][i], name, a, sent);
        assert Explains(visits[i + 1], name, a, sent);
      }
    }
  }

  /**
   Over every run, an article handed over was delivered by the server on some visit to its group, and an article
   passed over was answered on some visit with an error that the ingestor takes to mean that it does not exist.
   */
  lemma {:induction false} RunSettles(groups: map<string, Group>, cycles: seq<seq<Visit>>, bootstrapped: bool,
                                      name: string, a: nat, sent: bool)
    requires Settled(GroupOf(Run(groups, cycles, bootstrapped), name), a, sent)
    requires !Settled(GroupOf(groups, name), a, sent)
    ensures exists c :: 0 <= c < |cycles| && ExplainedIn(cycles[c], name, a, sent)
    decreases |cycles|
  {
    if cycles != [] {
      var next := Cycle(groups, cycles[0], bootstrapped);
      if Settled(GroupOf(next, name), a, sent) {
        CycleSettles(groups, cycles[0], bootstrapped, name, a, sent);
      } else {
        RunSettles(next, cycles[1..], bootstrapped, name, a, sent);
        var c :| 0 <= c < |cycles[1..]| && ExplainedIn(cycles[1..][c], name, a, sent);
        assert ExplainedIn(cycles[c + 1], name, a, sent);
      }
    }
  }

  // ---------------------------------------------------------------- duplicates

  /** Every mark that should be stored is. */
  ghost predicate KeepsMarks(v: Visit) {
    forall a :: v.fetch(a).stored
  }

  /** Nothing was handed over twice, and nothing is ahead of the mark. */
  ghost predicate OnceEach(g: Group) {
    && (forall i, j :: 0 <= i < j < |g.sent| ==> g.sent[i] < g.sent[j])
    && (forall a :: a in g.sent ==> a <= g.mark)
  }

  lemma {:induction false} DrainOnce(g: Group, high: nat, fetch: nat -> Attempt)
    requires OnceEach(g) && forall a :: fetch(a).stored
    ensures OnceEach(Drain(g, high, fetch).0)
    decreases high - g.mark
  {
    if g.mark < high {
      var next := g.mark + 1;
      if Passes(next, fetch(next)) {
        var s := g.sent + [next];
        forall i, j | 0 <= i < j < |s| ensures s[i] < s[j] { assert g.sent[i] in g.sent; }
        DrainOnce(Fetched(g, next, fetch(next)).(mark := next), high, fetch);
      }
    }
  }

  ghost predicate AllOnce(groups: map<string, Group>) {
    forall n :: n in groups ==> OnceEach(groups[n])
  }

  lemma {:induction false} CycleOnce(groups: map<string, Group>, visits: seq<Visit>, bootstrapped: bool)
    requires AllOnce(groups) && forall i :: 0 <= i < |visits| ==> KeepsMarks(visits[i])
    ensures AllOnce(Cycle(groups, visits, bootstrapped))
    decreases |visits|
  {
    if visits != [] {
      var v := visits[0];
      assert KeepsMarks(v);
      if v.readable && v.high.Some? {
        var g := GroupOf(groups, v.name);
        var start := StartMark(v.high.value, bootstrapped);
        DrainOnce(g, v.high.value, v.fetch);
        if g.mark == 0 { DrainOnce(g.(mark := start, start := start), v.high.value, v.fetch); }
      }
      var r := VisitOne(groups, v, bootstrapped);
      forall i | 0 <= i < |visits[1..]| ensures KeepsMarks(visits[1..][i]) { assert KeepsMarks(visits[i + 1]); }
      if r.1 { CycleOnce(r.0, visits[1..], bootstrapped); }
    }
  }

  ghost predicate CycleKeepsMarks(visits: seq<Visit>) {
    forall i :: 0 <= i < |visits| ==> KeepsMarks(visits[i])
  }

  /** An article is handed over twice only if the mark of its first delivery was lost. */
  lemma {:induction false} RunOnce(groups: map<string, Group>, cycles: seq<seq<Visit>>, bootstrapped: bool)
    requires AllOnce(groups) && forall i :: 0 <= i < |cycles| ==> CycleKeepsMarks(cycles[i])
    ensures AllOnce(Run(groups, cycles, bootstrapped))
    decreases |cycles|
  {
    if cycles != [] {
      assert CycleKeepsMarks(cycles[0]);
      CycleOnce(groups, cycles[0], bootstrapped);
      forall i | 0 <= i < |cycles[1..]| ensures CycleKeepsMarks(cycles[1..][i]) {
        assert CycleKeepsMarks(cycles[i + 1]);
      }
      RunOnce(Cycle(groups, cycles[0], bootstrapped), cycles[1..], bootstrapped);
    }
  }

  /** A server that refuses everything with a response that has nothing to do with 423. */
  function Closing(): nat -> Attempt {
    _ => Attempt(Refused("400 closing"), true, true)
  }

  /** From such a server article 4231 is passed over for good, because of its number. */
  lemma NumberTakenForStatus(g: Group)
    requires g.mark == 4230
    ensures Drain(g, 4231, Closing()).0 == g.(mark := 4231, skipped := g.skipped + {4231})
  {
    assert Decimal(4231) == "4231" by {
      assert Decimal(4) == "4" && Decimal(42) == "42" && Decimal(423) == "423";
    }
    assert OccursAt(NO_SUCH_ARTICLE, "4231", 0);
    RefusalSkippedIff(4231, "400 closing");
    assert Passes(4231, Closing()(4231));
  }
}

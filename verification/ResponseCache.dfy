/**
 The caching provider: answers are stored under the request without its context tag and thought signatures, and a
 stored answer is returned with its whole prompt counted as cached. Calls overlap: between its look-up and the end of
 a call that missed, other calls may look up, store and end. The review service's ledger charges each answer that
 reaches the review tool and stops a review that goes over budget.
 */
module ResponseCache {
  import opened Prelude
  import opened JsonValues

  // ---------------------------------------------------------------- cache keys

  const CONTEXT_TAG := "context_tag"
  const SIGNATURES: set<string> := {"thought_signature", "thoughtSignature"}

  /** The value without thought signatures, at any depth. */
  function Scrub(v: Json): Json {
    match v
    case Arr(items) => Arr(seq(|items|, i requires 0 <= i < |items| => Scrub(items[i])))
    case Obj(fields) => Obj(map k | k in fields && k !in SIGNATURES :: Scrub(fields[k]))
    case _ => v
  }

  function WithoutTag(request: Json): Json {
    match request
    case Obj(fields) => Obj(fields - {CONTEXT_TAG})
    case _ => request
  }

  /** The key a request is stored under, before hashing. */
  function Key(request: Json): Json {
    Scrub(WithoutTag(request))
  }

  /** Two values that differ in thought signatures only. */
  ghost predicate SameButSignatures(v: Json, w: Json) {
    match (v, w)
    case (Arr(xs), Arr(ys)) => |xs| == |ys| && forall i :: 0 <= i < |xs| ==> SameButSignatures(xs[i], ys[i])
    case (Obj(f), Obj(g)) =>
      && f.Keys - SIGNATURES == g.Keys - SIGNATURES
      && forall k :: k in f && k in g && k !in SIGNATURES ==> SameButSignatures(f[k], g[k])
    case _ => v == w && !v.Arr? && !v.Obj?
  }

  lemma ScrubKeys(f: map<string, Json>)
    ensures Scrub(Obj(f)).fields.Keys == f.Keys - SIGNATURES
  { }

  lemma {:induction false} ScrubEqualIff(v: Json, w: Json)
    ensures Scrub(v) == Scrub(w) <==> SameButSignatures(v, w)
  {
    match (v, w)
    case (Arr(xs), Arr(ys)) =>
      var a, b := Scrub(v).items, Scrub(w).items;
      if |xs| == |ys| {
        forall i | 0 <= i < |xs| ensures a[i] == b[i] <==> SameButSignatures(xs[i], ys[i]) {
          ScrubEqualIff(xs[i], ys[i]);
        }
        if SameButSignatures(v, w) { assert a == b; }
      }
    case (Obj(f), Obj(g)) =>
      var a, b := Scrub(v).fields, Scrub(w).fields;
      ScrubKeys(f);
      ScrubKeys(g);
      forall k | k in f && k in g && k !in SIGNATURES ensures a[k] == b[k] <==> SameButSignatures(f[k], g[k]) {
        ScrubEqualIff(f[k], g[k]);
      }
      if SameButSignatures(v, w) {
        forall k | k in a ensures k in b && a[k] == b[k] { assert k in f.Keys - SIGNATURES; }
        assert a == b;
      }
      if Scrub(v) == Scrub(w) {
        forall k | k in f && k in g && k !in SIGNATURES ensures SameButSignatures(f[k], g[k]) { assert a[k] == b[k]; }
      }
    case _ =>
  }

  /** Two requests share a cache entry exactly when they differ in the context tag and thought signatures only. */
  lemma SameKeyIff(f: map<string, Json>, g: map<string, Json>)
    ensures Key(Obj(f)) == Key(Obj(g))
       <==> SameButSignatures(Obj(f - {CONTEXT_TAG}), Obj(g - {CONTEXT_TAG}))
  {
    ScrubEqualIff(Obj(f - {CONTEXT_TAG}), Obj(g - {CONTEXT_TAG}));
  }

  /** Scrubbing twice changes nothing more. */
  lemma {:induction false} ScrubIdempotent(v: Json)
    ensures Scrub(Scrub(v)) == Scrub(v)
  {
    match v
    case Arr(items) =>
      forall i | 0 <= i < |items| ensures Scrub(Scrub(items[i])) == Scrub(items[i]) { ScrubIdempotent(items[i]); }
      assert Scrub(Scrub(v)).items == Scrub(v).items;
    case Obj(fields) =>
      forall k | k in fields ensures Scrub(Scrub(fields[k])) == Scrub(fields[k]) { ScrubIdempotent(fields[k]); }
      assert Scrub(Scrub(v)).fields == Scrub(v).fields;
    case _ =>
  }

  // ---------------------------------------------------------------- answers

  datatype Usage = Usage(promptTokens: nat, completionTokens: nat, totalTokens: nat, cachedTokens: Option<nat>)

  /** A provider's answer: its content and its usage figures. */
  datatype Response = Response(content: Json, usage: Option<Usage>)

  /** What the caller of a hit receives: the whole prompt counts as cached. */
  function Credited(r: Response): Response {
    match r.usage
    case None => r
    case Some(u) => r.(usage := Some(u.(cachedTokens := Some(u.cachedTokens.GetOr(0) + u.promptTokens))))
  }

  /** The answer without its `cached_tokens` figure. */
  function Plain(r: Response): Response {
    match r.usage
    case None => r
    case Some(u) => r.(usage := Some(u.(cachedTokens := None)))
  }

  function TokensOf(r: Response): nat {
    match r.usage
    case None => 0
    case Some(u) => u.promptTokens + u.completionTokens
  }

  // ---------------------------------------------------------------- the provider

  datatype Entry = Entry(response: Response, tokensSaved: nat, createdAt: int)

  datatype Cache = Cache(table: map<Json, Entry>, sessionStart: int,
                         hitsThis: nat, hitsPrev: nat, savedThis: nat, savedPrev: nat)

  const SECONDS_A_DAY := 86400

  /** Opening the cache: entries older than the time to live are dropped and the counters start at zero. */
  function Open(table: map<Json, Entry>, reapAt: int, ttlDays: nat, startAt: int): Cache {
    Cache(map k | k in table && table[k].createdAt >= reapAt - ttlDays * SECONDS_A_DAY :: table[k], startAt, 0, 0, 0, 0)
  }

  /** One answer: which call gets it, what it says, and whether it came from the table. */
  datatype Reply<E> = Reply(call: nat, key: Json, hit: bool, tokensSaved: nat, result: Result<Response, E>)

  function CountHit(c: Cache, e: Entry): Cache {
    if e.createdAt >= c.sessionStart then c.(hitsThis := c.hitsThis + 1, savedThis := c.savedThis + e.tokensSaved)
    else c.(hitsPrev := c.hitsPrev + 1, savedPrev := c.savedPrev + e.tokensSaved)
  }

  /** The look-up at the start of a call: on a hit the counters move and the stored answer is returned, credited. */
  function LookUp(c: Cache, key: Json): (Cache, Option<Response>) {
    if key in c.table then (CountHit(c, c.table[key]), Some(Credited(c.table[key].response))) else (c, None)
  }

  /**
   The end of a call that missed, at time now. `inner` is what the wrapped provider said, and `written` whether the
   insert succeeds, whose failure the code ignores. INSERT OR REPLACE overwrites what another call has stored since.
   */
  function Store<E>(c: Cache, key: Json, inner: Result<Response, E>, written: bool, now: int): Cache {
    if inner.Ok? && written
    then c.(table := c.table[key := Entry(inner.value, TokensOf(inner.value), now)])
    else c
  }

  class CachingProvider {
    var table: map<Json, Entry>
    var sessionStart: int
    var hitsThis: nat
    var hitsPrev: nat
    var savedThis: nat
    var savedPrev: nat

    ghost function View(): Cache
      reads this
    {
      Cache(table, sessionStart, hitsThis, hitsPrev, savedThis, savedPrev)
    }

    constructor (stored: map<Json, Entry>, reapAt: int, ttlDays: nat, startAt: int)
      ensures View() == Open(stored, reapAt, ttlDays, startAt)
    {
      var cutoff := reapAt - ttlDays * SECONDS_A_DAY;
      table := map k | k in stored && !(stored[k].createdAt < cutoff) :: stored[k];
      sessionStart := startAt;
      hitsThis, hitsPrev, savedThis, savedPrev := 0, 0, 0, 0;
    }

    method FindResponse(hash: Json) returns (r: Option<Response>)
      modifies this
      ensures (View(), r) == LookUp(old(View()), hash)
    {
      if hash !in table { return None; }
      var row := table[hash];
      if row.createdAt >= sessionStart {
        hitsThis := hitsThis + 1;
        savedThis := savedThis + row.tokensSaved;
      } else {
        hitsPrev := hitsPrev + 1;
        savedPrev := savedPrev + row.tokensSaved;
      }
      var resp := row.response;
      if resp.usage.Some? {
        var usage := resp.usage.value;
        resp := resp.(usage := Some(usage.(cachedTokens := Some(usage.cachedTokens.GetOr(0) + usage.promptTokens))));
      }
      r := Some(resp);
    }

    method KeepResponse<E>(hash: Json, inner: Result<Response, E>, written: bool, now: int)
      modifies this
      ensures View() == Store(old(View()), hash, inner, written, now)
    {
      if inner.Err? { return; }
      var saved := if inner.value.usage.Some?
                   then inner.value.usage.value.promptTokens + inner.value.usage.value.completionTokens else 0;
      if written { table := table[hash := Entry(inner.value, saved, now)]; }
    }

    /** A call that nothing comes between. */
    method GenerateContent<E>(request: Json, inner: Result<Response, E>, written: bool, now: int)
        returns (resp: Result<Response, E>)
      modifies this
      ensures var (c, hit) := LookUp(old(View()), Key(request));
              if hit.Some? then View() == c && resp == Ok(hit.value)
              else View() == Store(c, Key(request), inner, written, now) && resp == inner
    {
      var hash := Key(request);
      var hit := FindResponse(hash);
      if hit.Some? { return Ok(hit.value); }
      KeepResponse(hash, inner, written, now);
      resp := inner;
    }
  }

  // ---------------------------------------------------------------- runs with calls in flight

  /**
   The steps of concurrent calls: a call looks its request up, and if it missed it ends later, when the wrapped
   provider has answered. A restart loses the calls in flight.
   */
  datatype Event<E> =
    | LookedUp(request: Json)
    | Answered(call: nat, request: Json, inner: Result<Response, E>, written: bool, now: int)
    | Restart(reapAt: int, ttlDays: nat, startAt: int)

  /** `calls` are the calls that missed and wait for the wrapped provider, with their keys; numbers are not reused. */
  datatype History<E> = History(cache: Cache, next: nat, calls: map<nat, Json>, replies: seq<Reply<E>>)

  function Idle<E>(c: Cache): History<E> {
    History(c, 0, map[], [])
  }

  function After<E>(h: History<E>, e: Event<E>): History<E> {
    match e
    case LookedUp(request) =>
      var key := Key(request);
      var (c, hit) := LookUp(h.cache, key);
      if hit.Some?
      then h.(cache := c, next := h.next + 1,
              replies := h.replies + [Reply(h.next, key, true, h.cache.table[key].tokensSaved, Ok(hit.value))])
      else h.(next := h.next + 1, calls := h.calls[h.next := key])
    case Answered(call, request, inner, written, now) =>
      if call in h.calls && h.calls[call] == Key(request) then
        h.(cache := Store(h.cache, Key(request), inner, written, now), calls := h.calls - {call},
           replies := h.replies + [Reply(call, Key(request), false, 0, inner)])
      else h   // not a step: no such call is waiting
    case Restart(reapAt, ttlDays, startAt) =>
      h.(cache := Open(h.cache.table, reapAt, ttlDays, startAt), calls := map[])
  }

  function Run<E>(h: History<E>, events: seq<Event<E>>): History<E> {
    if events == [] then h
    else After(Run(h, events[..|events| - 1]), events[|events| - 1])
  }

  /** The wrapped provider's answers depend on the key alone; it may still fail at any time. */
  ghost predicate FaithfulEvent<E>(e: Event<E>, answer: Json -> Response) {
    e.Answered? && e.inner.Ok? ==> e.inner.value == answer(Key(e.request))
  }

  ghost predicate Faithful<E>(events: seq<Event<E>>, answer: Json -> Response) {
    forall i :: 0 <= i < |events| ==> FaithfulEvent(events[i], answer)
  }

  /** Everything stored is what the wrapped provider would say. */
  ghost predicate Honest(table: map<Json, Entry>, answer: Json -> Response) {
    forall k :: k in table ==> table[k].response == answer(k) && table[k].tokensSaved == TokensOf(answer(k))
  }

  ghost predicate RightReply<E>(r: Reply<E>, answer: Json -> Response) {
    && (r.hit ==> r.result == Ok(Credited(answer(r.key))) && r.tokensSaved == TokensOf(answer(r.key)))
    && (!r.hit && r.result.Ok? ==> r.result == Ok(answer(r.key)))
    && (!r.hit ==> r.tokensSaved == 0)
  }

  /**
   In every interleaving of calls, failures, lost writes and restarts, a hit gives the wrapped provider's answer with
   the prompt credited as cached, a successful miss gives that answer itself, and only a miss can fail.
   */
  lemma {:induction false} RunAnswers<E>(c: Cache, events: seq<Event<E>>, answer: Json -> Response)
    requires Honest(c.table, answer) && Faithful(events, answer)
    ensures Honest(Run(Idle<E>(c), events).cache.table, answer)
    ensures forall i :: 0 <= i < |Run(Idle<E>(c), events).replies| ==>
              RightReply(Run(Idle<E>(c), events).replies[i], answer)
    decreases |events|
  {
    if events != [] {
      var front, e := events[..|events| - 1], events[|events| - 1];
      assert Faithful(front, answer) by {
        forall i | 0 <= i < |front| ensures FaithfulEvent(front[i], answer) { assert FaithfulEvent(events[i], answer); }
      }
      RunAnswers(c, front, answer);
      assert FaithfulEvent(e, answer);
    }
  }

  /** The caller sees the wrapped provider's answer, up to `cached_tokens`. */
  lemma AnswersAsInner<E>(c: Cache, events: seq<Event<E>>, answer: Json -> Response, i: nat)
    requires Honest(c.table, answer) && Faithful(events, answer)
    requires i < |Run(Idle<E>(c), events).replies|
    ensures var r := Run(Idle<E>(c), events).replies[i];
            r.result.Ok? ==> Plain(r.result.value) == Plain(answer(r.key))
  {
    RunAnswers(c, events, answer);
    assert RightReply(Run(Idle<E>(c), events).replies[i], answer);
  }

  // ---------------------------------------------------------------- how often a question is sent

  /** From time t on: answers arrive no earlier, and a restart would not reap an entry of that age. */
  ghost predicate SparesFrom<E>(e: Event<E>, t: int) {
    && (e.Answered? ==> e.now >= t)
    && (e.Restart? ==> t >= e.reapAt - e.ttlDays * SECONDS_A_DAY)
  }

  /** The key is stored, and the calls waiting for it are among the given ones. */
  ghost predicate KeptSince<E>(h: History<E>, key: Json, t: int, waiting: map<nat, Json>) {
    && key in h.cache.table && h.cache.table[key].createdAt >= t
    && forall id :: id in h.calls && h.calls[id] == key ==> id in waiting && waiting[id] == key
  }

  /** The replies from number n on that are for the key are hits, or were waited for by one of the given calls. */
  ghost predicate HitsBut<E>(replies: seq<Reply<E>>, n: nat, key: Json, waiting: map<nat, Json>) {
    forall i :: n <= i < |replies| && replies[i].key == key ==>
      replies[i].hit || (replies[i].call in waiting && waiting[replies[i].call] == key)
  }

  lemma AfterKeeps<E>(h: History<E>, e: Event<E>, n: nat, key: Json, t: int, waiting: map<nat, Json>)
    requires SparesFrom(e, t) && KeptSince(h, key, t, waiting) && HitsBut(h.replies, n, key, waiting)
    ensures KeptSince(After(h, e), key, t, waiting) && HitsBut(After(h, e).replies, n, key, waiting)
  {
  }

  /**
   In every interleaving, once a key is stored it stays stored until it is reaped, and the only calls for it that
   still go to the wrapped provider are those that were already waiting.
   */
  lemma {:induction false} OnlyWaitingCallsAreSent<E>(h: History<E>, events: seq<Event<E>>, key: Json)
    requires key in h.cache.table
    requires forall i :: 0 <= i < |events| ==> SparesFrom(events[i], h.cache.table[key].createdAt)
    ensures KeptSince(Run(h, events), key, h.cache.table[key].createdAt, h.calls)
    ensures HitsBut(Run(h, events).replies, |h.replies|, key, h.calls)
    decreases |events|
  {
    if events != [] {
      var front, e, t := events[..|events| - 1], events[|events| - 1], h.cache.table[key].createdAt;
      forall i | 0 <= i < |front| ensures SparesFrom(front[i], t) { assert SparesFrom(events[i], t); }
      OnlyWaitingCallsAreSent(h, front, key);
      assert SparesFrom(e, t);
      AfterKeeps(Run(h, front), e, |h.replies|, key, t, h.calls);
    }
  }

  /** No call for the key is waiting. */
  ghost predicate NoneWaiting<E>(h: History<E>, key: Json) {
    forall id :: id in h.calls ==> h.calls[id] != key
  }

  /**
   An entry stays as it is until it is reaped, and every later request for it is a hit, provided that no other call
   for it was waiting.
   */
  lemma {:induction false} EntryStays<E>(h: History<E>, events: seq<Event<E>>, key: Json)
    requires key in h.cache.table && NoneWaiting(h, key)
    requires forall i :: 0 <= i < |events| ==> SparesFrom(events[i], h.cache.table[key].createdAt)
    ensures var h' := Run(h, events);
            && key in h'.cache.table && h'.cache.table[key] == h.cache.table[key] && NoneWaiting(h', key)
            && HitsBut(h'.replies, |h.replies|, key, map[])
    decreases |events|
  {
    if events != [] {
      var front, t := events[..|events| - 1], h.cache.table[key].createdAt;
      forall i | 0 <= i < |front| ensures SparesFrom(front[i], t) { assert SparesFrom(events[i], t); }
      EntryStays(h, front, key);
      assert SparesFrom(events[|events| - 1], t);
    }
  }

  ghost predicate SparedBy<E>(events: seq<Event<E>>, t: int) {
    forall i :: 0 <= i < |events| ==> SparesFrom(events[i], t)
  }

  /** Whatever happens, short of reaping, the entry stays as it is: exactly when no call for its key is waiting. */
  lemma EntryStaysIff<E>(h: History<E>, request: Json)
    requires Key(request) in h.cache.table
    ensures var (key, entry) := (Key(request), h.cache.table[Key(request)]);
            NoneWaiting(h, key)
            <==> forall events: seq<Event<E>> :: SparedBy(events, entry.createdAt) ==>
                   key in Run(h, events).cache.table && Run(h, events).cache.table[key] == entry
  {
    var (key, entry) := (Key(request), h.cache.table[Key(request)]);
    if NoneWaiting(h, key) {
      forall events: seq<Event<E>> | SparedBy(events, entry.createdAt)
        ensures key in Run(h, events).cache.table && Run(h, events).cache.table[key] == entry
      {
        EntryStays(h, events, key);
      }
    } else {
      var id :| id in h.calls && h.calls[id] == key;
      var other := Response(if entry.response.content == Null then Bool(true) else Null, None);
      var e: Event<E> := Answered(id, request, Ok(other), true, entry.createdAt);
      OneStep(h, e);
      assert SparesFrom(e, entry.createdAt) && SparedBy([e], entry.createdAt);
      assert Run(h, [e]).cache.table[key] != entry;
    }
  }

  lemma OneStep<E>(h: History<E>, e: Event<E>)
    ensures Run(h, [e]) == After(h, e)
  {
    assert [e][..0] == [] && Run(h, []) == h;
  }

  /**
   A question answered once and written is not sent to the wrapped provider again until it is reaped, except by the
   calls that had missed before the answer was written and were still waiting.
   */
  lemma AskedOnce<E>(h: History<E>, done: Event<E>, later: seq<Event<E>>)
    requires done.Answered? && done.inner.Ok? && done.written
    requires done.call in h.calls && h.calls[done.call] == Key(done.request)
    requires forall i :: 0 <= i < |later| ==> SparesFrom(later[i], done.now)
    ensures var after := After(h, done);
            HitsBut(Run(after, later).replies, |after.replies|, Key(done.request), h.calls - {done.call})
  {
    OnlyWaitingCallsAreSent(After(h, done), later, Key(done.request));
  }

  /** Two calls for one key that both look it up before either is answered: both are sent, the second overwrites. */
  lemma TwoMissesRace<E>(c: Cache, request: Json, first: Response, second: Response, t: int, u: int)
    requires Key(request) !in c.table
    ensures var inner: (Result<Response, E>, Result<Response, E>) := (Ok(first), Ok(second));
            var h := Run(Idle<E>(c), [LookedUp(request), LookedUp(request), Answered(0, request, inner.0, true, t),
                                      Answered(1, request, inner.1, true, u)]);
            && |h.replies| == 2 && !h.replies[0].hit && !h.replies[1].hit
            && Key(request) in h.cache.table
            && h.cache.table[Key(request)] == Entry(second, TokensOf(second), u)
  {
    var e0: Event<E> := LookedUp(request);
    var e2: Event<E> := Answered(0, request, Ok(first), true, t);
    var e3: Event<E> := Answered(1, request, Ok(second), true, u);
    var h1 := After(Idle<E>(c), e0);
    var h2 := After(h1, e0);
    assert h2.calls == map[0 := Key(request), 1 := Key(request)];
    var h3 := After(h2, e2);
    assert h3.calls == map[1 := Key(request)];
    RunFour(Idle<E>(c), e0, e0, e2, e3);
  }

  lemma RunFour<E>(h: History<E>, e0: Event<E>, e1: Event<E>, e2: Event<E>, e3: Event<E>)
    ensures Run(h, [e0, e1, e2, e3]) == After(After(After(After(h, e0), e1), e2), e3)
  {
    RunTwo(h, [], e0, e1);
    assert [] + [e0, e1] == [e0, e1] && Run(h, []) == h;
    RunTwo(h, [e0, e1], e2, e3);
    assert [e0, e1] + [e2, e3] == [e0, e1, e2, e3];
  }

  lemma RunTwo<E>(h: History<E>, events: seq<Event<E>>, e: Event<E>, e': Event<E>)
    ensures Run(h, events + [e, e']) == After(After(Run(h, events), e), e')
  {
    RunAppend(h, events, e);
    RunAppend(h, events + [e], e');
    assert events + [e] + [e'] == events + [e, e'];
  }

  lemma RunAppend<E>(h: History<E>, events: seq<Event<E>>, e: Event<E>)
    ensures Run(h, events + [e]) == After(Run(h, events), e)
  {
    assert (events + [e])[..|events|] == events;
  }

  // ---------------------------------------------------------------- statistics

  function Hits<E>(replies: seq<Reply<E>>): nat {
    if replies == [] then 0
    else Hits(replies[..|replies| - 1]) + (if replies[|replies| - 1].hit then 1 else 0)
  }

  function Saved<E>(replies: seq<Reply<E>>): nat {
    if replies == [] then 0
    else
      var last := replies[|replies| - 1];
      Saved(replies[..|replies| - 1]) + (if last.hit then last.tokensSaved else 0)
  }

  function LookUps<E>(events: seq<Event<E>>): nat {
    if events == [] then 0
    else LookUps(events[..|events| - 1]) + (if events[|events| - 1].LookedUp? then 1 else 0)
  }

  ghost predicate CountsAddUp<E>(c: Cache, h: History<E>) {
    && h.cache.hitsThis + h.cache.hitsPrev == c.hitsThis + c.hitsPrev + Hits(h.replies)
    && h.cache.savedThis + h.cache.savedPrev == c.savedThis + c.savedPrev + Saved(h.replies)
  }

  /** The waiting calls are numbered below the next one. */
  ghost predicate Numbered<E>(h: History<E>) {
    forall id :: id in h.calls ==> id < h.next
  }

  lemma OneMoreReply<E>(replies: seq<Reply<E>>, r: Reply<E>)
    ensures Hits(replies + [r]) == Hits(replies) + (if r.hit then 1 else 0)
    ensures Saved(replies + [r]) == Saved(replies) + (if r.hit then r.tokensSaved else 0)
  {
    assert (replies + [r])[..|replies|] == replies;
  }

  lemma AfterCounts<E>(c: Cache, h: History<E>, e: Event<E>)
    requires CountsAddUp(c, h) && !e.Restart?
    ensures CountsAddUp(c, After(h, e))
  {
    match e
    case LookedUp(request) =>
      if Key(request) in h.cache.table {
        var entry := h.cache.table[Key(request)];
        OneMoreReply(h.replies, Reply(h.next, Key(request), true, entry.tokensSaved, Ok(Credited(entry.response))));
      }
    case Answered(call, request, inner, _, _) =>
      OneMoreReply(h.replies, Reply(call, Key(request), false, 0, inner));
  }

  lemma AfterBalances<E>(h: History<E>, e: Event<E>)
    requires Numbered(h) && !e.Restart?
    ensures Numbered(After(h, e))
    ensures |After(h, e).replies| + |After(h, e).calls| == |h.replies| + |h.calls| + (if e.LookedUp? then 1 else 0)
  {
    if e.Answered? && e.call in h.calls { assert (h.calls - {e.call}).Keys == h.calls.Keys - {e.call}; }
  }

  /**
   Within a session, in every interleaving, each look-up has its one reply or is still waiting, and every hit is
   counted once, by this session's or the previous sessions' counters, with its saved tokens.
   */
  lemma {:induction false} StatisticsAddUp<E>(c: Cache, events: seq<Event<E>>)
    requires forall i :: 0 <= i < |events| ==> !events[i].Restart?
    ensures CountsAddUp(c, Run(Idle<E>(c), events)) && Numbered(Run(Idle<E>(c), events))
    ensures |Run(Idle<E>(c), events).replies| + |Run(Idle<E>(c), events).calls| == LookUps(events)
    decreases |events|
  {
    if events != [] {
      var front, e := events[..|events| - 1], events[|events| - 1];
      StatisticsAddUp(c, front);
      AfterCounts(c, Run(Idle<E>(c), front), e);
      AfterBalances(Run(Idle<E>(c), front), e);
    }
  }

  // ---------------------------------------------------------------- the ledger

  /** What one answer is charged: uncached input (never below zero) and output. */
  function Charge(r: Response): nat {
    match r.usage
    case None => 0
    case Some(u) =>
      var cached := u.cachedTokens.GetOr(0);
      (if u.promptTokens > cached then u.promptTokens - cached else 0) + u.completionTokens
  }

  function Completion(r: Response): nat {
    match r.usage
    case None => 0
    case Some(u) => u.completionTokens
  }

  function ChargeOf<E>(r: Result<Response, E>): nat {
    if r.Ok? then Charge(r.value) else 0
  }

  function OutputOf<E>(r: Result<Response, E>): nat {
    if r.Ok? then Completion(r.value) else 0
  }

  function Spent<E>(results: seq<Result<Response, E>>): nat {
    if results == [] then 0 else Spent(results[..|results| - 1]) + ChargeOf(results[|results| - 1])
  }

  function Output<E>(results: seq<Result<Response, E>>): nat {
    if results == [] then 0 else Output(results[..|results| - 1]) + OutputOf(results[|results| - 1])
  }

  /** A budget of zero is no limit. */
  predicate Within(spent: nat, budget: nat) {
    budget == 0 || spent <= budget
  }

  ghost predicate InBudget<E>(results: seq<Result<Response, E>>, tokenBudget: nat, outputBudget: nat) {
    Within(Spent(results), tokenBudget) && Within(Output(results), outputBudget)
  }

  datatype Overrun = TokenBudget(used: nat) | OutputBudget(used: nat)

  lemma PrefixStep<T>(s: seq<T>, n: nat)
    requires n < |s|
    ensures s[..n + 1][..|s[..n + 1]| - 1] == s[..n] && s[..n + 1][|s[..n + 1]| - 1] == s[n]
  { }

  /**
   The conversation loop of the review service: each result is charged before it is delivered. Everything delivered
   stays in both budgets, delivery stops only at the first result that leaves one, and the error names the token
   budget first and carries the amount used.
   */
  method Deliver<E>(results: seq<Result<Response, E>>, tokenBudget: nat, outputBudget: nat)
      returns (delivered: nat, overrun: Option<Overrun>)
    ensures delivered <= |results|
    ensures forall n :: 0 <= n <= delivered ==> InBudget(results[..n], tokenBudget, outputBudget)
    ensures tokenBudget > 0 ==> Spent(results[..delivered]) <= tokenBudget
    ensures outputBudget > 0 ==> Output(results[..delivered]) <= outputBudget
    ensures overrun.Some? ==>
              match overrun.value
              case TokenBudget(used) => 0 < tokenBudget < used
              case OutputBudget(used) => 0 < outputBudget < used
    ensures overrun.None? <==> delivered == |results|
    ensures overrun.Some? ==> !InBudget(results[..delivered + 1], tokenBudget, outputBudget)
    ensures overrun.Some? ==>
              overrun.value == if !Within(Spent(results[..delivered + 1]), tokenBudget)
                               then TokenBudget(Spent(results[..delivered + 1]))
                               else OutputBudget(Output(results[..delivered + 1]))
  {
    var totalTokensUsed, totalOutputTokensUsed := 0, 0;
    delivered := 0;
    while delivered < |results|
      invariant delivered <= |results|
      invariant totalTokensUsed == Spent(results[..delivered]) && totalOutputTokensUsed == Output(results[..delivered])
      invariant forall n :: 0 <= n <= delivered ==> InBudget(results[..n], tokenBudget, outputBudget)
    {
      PrefixStep(results, delivered);
      if results[delivered].Ok? && results[delivered].value.usage.Some? {
        var usage := results[delivered].value.usage.value;
        var cached := usage.cachedTokens.GetOr(0);
        var uncachedInput := if usage.promptTokens > cached then usage.promptTokens - cached else 0;
        totalTokensUsed := totalTokensUsed + uncachedInput + usage.completionTokens;
        totalOutputTokensUsed := totalOutputTokensUsed + usage.completionTokens;
        if tokenBudget > 0 && totalTokensUsed > tokenBudget {
          return delivered, Some(TokenBudget(totalTokensUsed));
        }
        if outputBudget > 0 && totalOutputTokensUsed > outputBudget {
          return delivered, Some(OutputBudget(totalOutputTokensUsed));
        }
      }
      delivered := delivered + 1;
    }
    overrun := None;
  }

  // ---------------------------------------------------------------- what a hit costs

  function ResultsOf<E>(replies: seq<Reply<E>>): (r: seq<Result<Response, E>>)
    ensures |r| == |replies| && forall i :: 0 <= i < |r| ==> r[i] == replies[i].result
  {
    seq(|replies|, i requires 0 <= i < |replies| => replies[i].result)
  }

  /** What the ledger should come to: full price for an answered miss, completion for a hit, nothing for a failure. */
  function Price<E>(replies: seq<Reply<E>>, answer: Json -> Response): nat {
    if replies == [] then 0
    else
      var r := replies[|replies| - 1];
      Price(replies[..|replies| - 1], answer)
      + (if r.hit then Completion(answer(r.key)) else if r.result.Ok? then Charge(answer(r.key)) else 0)
  }

  /** What is charged and what came from the provider's own cache are together all tokens of the answer. */
  lemma ChargeLeavesCached(r: Response)
    ensures r.usage.Some? ==>
              var u := r.usage.value;
              var cached := u.cachedTokens.GetOr(0);
              Charge(r) + (if cached < u.promptTokens then cached else u.promptTokens)
              == u.promptTokens + u.completionTokens
    ensures r.usage.None? ==> Charge(r) == 0
  { }

  /**
   Result by result: a failure and an answer without usage cost nothing, and with the part of the prompt that was
   cached the bill of any results is the sum of all their tokens.
   */
  lemma {:induction false} SpentLeavesCached<E>(results: seq<Result<Response, E>>)
    ensures Spent(results) + CachedPrompts(results) == AllTokens(results)
    decreases |results|
  {
    if results != [] {
      SpentLeavesCached(results[..|results| - 1]);
      var last := results[|results| - 1];
      if last.Ok? { ChargeLeavesCached(last.value); }
    }
  }

  /** What counts as output is all tokens but the prompts. */
  lemma {:induction false} OutputLeavesPrompts<E>(results: seq<Result<Response, E>>)
    ensures Output(results) + AllPrompts(results) == AllTokens(results)
    decreases |results|
  {
    if results != [] { OutputLeavesPrompts(results[..|results| - 1]); }
  }

  /** The prompt tokens of the results. */
  function AllPrompts<E>(results: seq<Result<Response, E>>): nat {
    if results == [] then 0
    else
      var last := results[|results| - 1];
      AllPrompts(results[..|results| - 1])
      + (if last.Ok? && last.value.usage.Some? then last.value.usage.value.promptTokens else 0)
  }

  /** The prompt and completion tokens of the results. */
  function AllTokens<E>(results: seq<Result<Response, E>>): nat {
    if results == [] then 0
    else
      var last := results[|results| - 1];
      AllTokens(results[..|results| - 1])
      + (if last.Ok? && last.value.usage.Some?
         then last.value.usage.value.promptTokens + last.value.usage.value.completionTokens else 0)
  }

  /** The prompt tokens among them that were cached; more than the prompt cannot be. */
  function CachedPrompts<E>(results: seq<Result<Response, E>>): nat {
    if results == [] then 0
    else
      var last := results[|results| - 1];
      CachedPrompts(results[..|results| - 1])
      + (if last.Ok? && last.value.usage.Some? then CachedOf(last.value.usage.value) else 0)
  }

  function CachedOf(u: Usage): nat {
    if u.cachedTokens.GetOr(0) < u.promptTokens then u.cachedTokens.GetOr(0) else u.promptTokens
  }

  lemma HitCostsCompletion(r: Response)
    ensures Charge(Credited(r)) == Completion(r)
  { }

  lemma {:induction false} PriceOfReplies<E>(replies: seq<Reply<E>>, answer: Json -> Response)
    requires forall i :: 0 <= i < |replies| ==> RightReply(replies[i], answer)
    ensures Spent(ResultsOf(replies)) == Price(replies, answer)
    decreases |replies|
  {
    if replies != [] {
      var front, last := replies[..|replies| - 1], replies[|replies| - 1];
      PriceOfReplies(front, answer);
      assert ResultsOf(replies)[..|replies| - 1] == ResultsOf(front);
      assert RightReply(last, answer);
      HitCostsCompletion(answer(last.key));
    }
  }

  /**
   In every interleaving, the ledger of a review that receives any of the replies comes to the completion tokens of
   its hits and the full price of its answered misses.
   */
  lemma RunPrice<E>(c: Cache, events: seq<Event<E>>, answer: Json -> Response, mine: seq<Reply<E>>)
    requires Honest(c.table, answer) && Faithful(events, answer)
    requires forall r :: r in mine ==> r in Run(Idle<E>(c), events).replies
    ensures Spent(ResultsOf(mine)) == Price(mine, answer)
  {
    RunAnswers(c, events, answer);
    forall i | 0 <= i < |mine| ensures RightReply(mine[i], answer) { assert mine[i] in mine; }
    PriceOfReplies(mine, answer);
  }

  // ---------------------------------------------------------------- what a hit is credited with

  /** The caller of a hit is told that the prompt was cached, on top of what the provider had cached, and no more. */
  lemma HitCreditsPrompt(r: Response)
    ensures Credited(r).content == r.content && (r.usage.None? <==> Credited(r).usage.None?)
    ensures r.usage.Some? ==>
              var (was, now) := (r.usage.value, Credited(r).usage.value);
              && now.promptTokens == was.promptTokens && now.completionTokens == was.completionTokens
              && now.totalTokens == was.totalTokens && now.cachedTokens.Some?
              && now.cachedTokens.value - was.cachedTokens.GetOr(0) == was.promptTokens
  { }

  /** What the hits of a run would have cost the provider, prompts and completions together. */
  function TokensOfHits<E>(replies: seq<Reply<E>>): nat {
    if replies == [] then 0
    else
      var last := replies[|replies| - 1];
      TokensOfHits(replies[..|replies| - 1])
      + (if last.hit && last.result.Ok? && last.result.value.usage.Some?
         then last.result.value.usage.value.promptTokens + last.result.value.usage.value.completionTokens else 0)
  }

  lemma {:induction false} SavedByHits<E>(replies: seq<Reply<E>>, answer: Json -> Response)
    requires forall i :: 0 <= i < |replies| ==> RightReply(replies[i], answer)
    ensures Saved(replies) == TokensOfHits(replies)
    decreases |replies|
  {
    if replies != [] {
      var last := replies[|replies| - 1];
      assert RightReply(last, answer);
      SavedByHits(replies[..|replies| - 1], answer);
      HitCreditsPrompt(answer(last.key));
    }
  }

  /**
   Within a session, in every interleaving, the two counters of saved tokens come to the prompt and completion tokens
   of the answers given from the cache, as the callers see them.
   */
  lemma SavedTokensAddUp<E>(c: Cache, events: seq<Event<E>>, answer: Json -> Response)
    requires Honest(c.table, answer) && Faithful(events, answer)
    requires forall i :: 0 <= i < |events| ==> !events[i].Restart?
    ensures var h := Run(Idle<E>(c), events);
            h.cache.savedThis + h.cache.savedPrev == c.savedThis + c.savedPrev + TokensOfHits(h.replies)
  {
    RunAnswers(c, events, answer);
    StatisticsAddUp(c, events);
    SavedByHits(Run(Idle<E>(c), events).replies, answer);
  }

  /** The names of what makes no difference to the key: the tag of the context, and the two spellings of signatures. */
  lemma IgnoredNames(f: map<string, Json>, k: string, v: Json)
    requires k == "context_tag" || k == "thought_signature" || k == "thoughtSignature"
    ensures Key(Obj(f[k := v])) == Key(Obj(f - {k}))
  {
    assert Scrub(WithoutTag(Obj(f[k := v]))).fields == Scrub(WithoutTag(Obj(f - {k}))).fields;
  }

  // ---------------------------------------------------------------- opening the cache, and counting

  /** Opening drops exactly the entries that are older than the time to live, in days, and counts from zero. */
  lemma OpenReaps(table: map<Json, Entry>, reapAt: int, ttlDays: nat, startAt: int, k: Json)
    ensures var c := Open(table, reapAt, ttlDays, startAt);
            && (k in c.table <==> k in table && reapAt - table[k].createdAt <= ttlDays * 24 * 60 * 60)
            && (k in c.table ==> c.table[k] == table[k])
            && c.sessionStart == startAt && c.hitsThis == 0 && c.hitsPrev == 0 && c.savedThis == 0 && c.savedPrev == 0
  {
  }

  /** A hit counts for this session if its entry was written since the session began, and else for earlier ones. */
  lemma HitCounts(c: Cache, key: Json)
    requires key in c.table
    ensures var (c', hit) := LookUp(c, key);
            var (e, before) := (c.table[key], c.table[key].createdAt < c.sessionStart);
            && hit.Some? && c'.table == c.table && c'.sessionStart == c.sessionStart
            && c'.hitsThis == c.hitsThis + (if before then 0 else 1)
            && c'.hitsPrev == c.hitsPrev + (if before then 1 else 0)
            && c'.savedThis == c.savedThis + (if before then 0 else e.tokensSaved)
            && c'.savedPrev == c.savedPrev + (if before then e.tokensSaved else 0)
  {
  }
}

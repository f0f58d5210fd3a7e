/**
 The time-limited cache behind an async read-write lock: a read check, a second check under the write lock, and
 a fetch that keeps the write lock until its value is stored. `AsyncCache<T>` is the case of a single key.
 Steps of concurrent gets and invalidations interleave in any order; the clock never goes back.
 */
module AsyncCache {
  import opened Prelude

  /** A fetched value with the key it was fetched for and the number of the event at which its fetch began. */
  datatype Fetched<K, V> = Fetched(key: K, began: nat, value: V)

  datatype Entry<K, V> = Entry(fetched: Fetched<K, V>, timestamp: nat)

  /**
   A call of `get_or_fetch`: before its read check, waiting for the write lock, fetching under it, or over.
   `floor` is the last invalidation that had finished when the call started; `age` is how old the entry was when
   it was handed out, 0 for a value just fetched.
   */
  datatype Call<K, V> =
    | Reading(key: K, floor: nat)
    | Waiting(key: K, floor: nat)
    | Fetching(key: K, floor: nat, began: nat)
    | Returned(key: K, floor: nat, got: Fetched<K, V>, age: nat)
    | GaveError(key: K, floor: nat)

  datatype State<K, V> = State(
    ttl: nat,
    now: nat,
    events: nat,                     // events so far, at least 1: numbers order events finer than the clock
    writer: Option<nat>,             // the call that holds the write lock across a fetch
    cell: map<K, Entry<K, V>>,
    calls: map<nat, Call<K, V>>,
    invalidated: nat)                // the event of the last finished invalidation, 0 if none

  datatype Action<K, V> =
    | Tick(seconds: nat)
    | Begin(id: nat, key: K)
    | ReadCheck(id: nat)             // under the read lock
    | WriteCheck(id: nat)            // under the write lock, starting the fetch if the entry is still missing
    | FetchDone(id: nat, value: V)
    | FetchFailed(id: nat)
    | Invalidate

  function Start<K, V>(ttl: nat): State<K, V> {
    State(ttl, 0, 1, None, map[], map[], 0)
  }

  predicate Enabled<K(==), V>(s: State<K, V>, a: Action<K, V>) {
    match a
    case Tick(_) => true
    case Begin(id, _) => id !in s.calls
    case ReadCheck(id) => s.writer.None? && id in s.calls && s.calls[id].Reading?
    case WriteCheck(id) => s.writer.None? && id in s.calls && s.calls[id].Waiting?
    case FetchDone(id, _) => id in s.calls && s.calls[id].Fetching?
    case FetchFailed(id) => id in s.calls && s.calls[id].Fetching?
    case Invalidate => s.writer.None?
  }

  /** The entry for a key is present and younger than the time to live. */
  predicate Live<K(==), V>(s: State<K, V>, key: K) {
    key in s.cell && s.now - s.cell[key].timestamp < s.ttl
  }

  function Hand<K(==), V>(s: State<K, V>, key: K, floor: nat): Call<K, V>
    requires Live(s, key)
  {
    var age := s.now - s.cell[key].timestamp;
    Returned(key, floor, s.cell[key].fetched, if age < 0 then 0 else age)
  }

  function Apply<K(==), V>(s: State<K, V>, a: Action<K, V>): State<K, V>
    requires Enabled(s, a)
  {
    var s1 := s.(events := s.events + 1);
    match a
    case Tick(d) => s1.(now := s.now + d)
    case Begin(id, key) => s1.(calls := s.calls[id := Reading(key, s.invalidated)])
    case ReadCheck(id) =>
      var c := s.calls[id];
      s1.(calls := s.calls[id := if Live(s, c.key) then Hand(s, c.key, c.floor) else Waiting(c.key, c.floor)])
    case WriteCheck(id) =>
      var c := s.calls[id];
      if Live(s, c.key) then s1.(calls := s.calls[id := Hand(s, c.key, c.floor)])
      else s1.(writer := Some(id), calls := s.calls[id := Fetching(c.key, c.floor, s.events)])
    case FetchDone(id, v) =>
      var c := s.calls[id];
      var f := Fetched(c.key, c.began, v);
      s1.(writer := None, cell := s.cell[c.key := Entry(f, s.now)],
          calls := s.calls[id := Returned(c.key, c.floor, f, 0)])
    case FetchFailed(id) =>
      s1.(writer := None, calls := s.calls[id := GaveError(s.calls[id].key, s.calls[id].floor)])
    case Invalidate => s1.(cell := map[], invalidated := s.events)
  }

  ghost predicate IsRun<K, V>(ttl: nat, run: seq<State<K, V>>, actions: seq<Action<K, V>>) {
    && |run| == |actions| + 1 && run[0] == Start(ttl)
    && forall i :: 0 <= i < |actions| ==> Enabled(run[i], actions[i]) && run[i + 1] == Apply(run[i], actions[i])
  }

  // ---------------------------------------------------------------- the invariant

  /** What is known of one call. */
  ghost predicate CallOk<K, V>(s: State<K, V>, id: nat)
    requires id in s.calls
  {
    var c := s.calls[id];
    && c.floor <= s.invalidated
    && (c.Fetching? <==> s.writer == Some(id))
    && (c.Fetching? ==> s.invalidated < c.began < s.events)
    && (c.Returned? ==> c.got.key == c.key && c.floor < c.got.began && (c.age == 0 || c.age < s.ttl))
  }

  ghost predicate Inv<K, V>(s: State<K, V>) {
    && s.invalidated < s.events
    && (s.writer.Some? ==> s.writer.value in s.calls)
    && (forall id :: id in s.calls ==> CallOk(s, id))
    && (forall k :: k in s.cell ==>
          s.cell[k].fetched.key == k && s.invalidated < s.cell[k].fetched.began && s.cell[k].timestamp <= s.now)
  }

  lemma StepKeeps<K, V>(s: State<K, V>, a: Action<K, V>)
    requires Inv(s) && Enabled(s, a)
    ensures Inv(Apply(s, a))
  {
    var s' := Apply(s, a);
    forall id | id in s'.calls ensures CallOk(s', id) {
      if id in s.calls { assert CallOk(s, id); }
    }
  }

  lemma {:induction false} RunInvariant<K, V>(ttl: nat, run: seq<State<K, V>>, actions: seq<Action<K, V>>, i: nat)
    requires IsRun(ttl, run, actions) && i < |run|
    ensures Inv(run[i]) && run[i].ttl == ttl
  {
    if i > 0 {
      RunInvariant(ttl, run, actions, i - 1);
      StepKeeps(run[i - 1], actions[i - 1]);
      assert run[i - 1 + 1] == Apply(run[i - 1], actions[i - 1]);
    }
  }

  // ---------------------------------------------------------------- what a get promises

  lemma {:induction false} Monotone<K, V>(ttl: nat, run: seq<State<K, V>>, actions: seq<Action<K, V>>, i: nat, j: nat)
    requires IsRun(ttl, run, actions) && i <= j < |run|
    ensures run[i].now <= run[j].now && run[i].events + (j - i) == run[j].events
    ensures run[i].invalidated <= run[j].invalidated
    decreases j
  {
    RunInvariant(ttl, run, actions, j);
    if i < j {
      Monotone(ttl, run, actions, i, j - 1);
      RunInvariant(ttl, run, actions, j - 1);
      assert Enabled(run[j - 1], actions[j - 1]) && run[j - 1 + 1] == Apply(run[j - 1], actions[j - 1]);
    }
  }

  lemma {:induction false} CallKeepsFloor<K, V>(ttl: nat, run: seq<State<K, V>>, actions: seq<Action<K, V>>,
                                                id: nat, i: nat, j: nat)
    requires IsRun(ttl, run, actions) && i <= j < |run| && id in run[i].calls
    ensures id in run[j].calls && run[j].calls[id].floor == run[i].calls[id].floor
    ensures run[j].calls[id].key == run[i].calls[id].key
    decreases j
  {
    if i < j {
      CallKeepsFloor(ttl, run, actions, id, i, j - 1);
      assert Enabled(run[j - 1], actions[j - 1]) && run[j - 1 + 1] == Apply(run[j - 1], actions[j - 1]);
    }
  }

  // ---------------------------------------------------------------- where values come from

  /** A fetch for the key ran: the write check of step b began it, and step n brought the value. */
  ghost predicate FetchRan<K, V>(run: seq<State<K, V>>, actions: seq<Action<K, V>>, b: nat, n: nat, key: K, value: V) {
    && b < n < |actions| < |run|
    && actions[n] == FetchDone(FetchOf(actions[n]), value) && actions[b] == WriteCheck(FetchOf(actions[n]))
    && FetchOf(actions[n]) in run[n].calls && run[n].calls[FetchOf(actions[n])].Fetching?
    && run[n].calls[FetchOf(actions[n])].key == key
    && run[n].calls[FetchOf(actions[n])].began == run[b].events
  }

  function FetchOf<K, V>(a: Action<K, V>): nat {
    if a.FetchDone? then a.id else 0
  }

  /** A call that is fetching began to with its own write check. */
  lemma {:induction false} FetchingBegan<K, V>(ttl: nat, run: seq<State<K, V>>, actions: seq<Action<K, V>>,
                                               id: nat, i: nat)
      returns (b: nat)
    requires IsRun(ttl, run, actions) && i < |run| && id in run[i].calls && run[i].calls[id].Fetching?
    ensures b < i && actions[b] == WriteCheck(id) && run[i].calls[id].began == run[b].events
  {
    assert Enabled(run[i - 1], actions[i - 1]) && run[i - 1 + 1] == Apply(run[i - 1], actions[i - 1]);
    if id in run[i - 1].calls && run[i - 1].calls[id].Fetching? {
      b := FetchingBegan(ttl, run, actions, id, i - 1);
    } else {
      b := i - 1;
    }
  }

  /** In every run an entry holds what the last of its fetches brought, since the moment that fetch ended. */
  lemma {:induction false} EntryWasFetched<K, V>(ttl: nat, run: seq<State<K, V>>, actions: seq<Action<K, V>>,
                                                 k: K, i: nat)
      returns (b: nat, n: nat)
    requires IsRun(ttl, run, actions) && i < |run| && k in run[i].cell
    ensures n < i && FetchRan(run, actions, b, n, k, run[i].cell[k].fetched.value)
    ensures run[i].cell[k].timestamp == run[n].now && run[i].cell[k].fetched.began == run[b].events
  {
    assert Enabled(run[i - 1], actions[i - 1]) && run[i - 1 + 1] == Apply(run[i - 1], actions[i - 1]);
    if actions[i - 1].FetchDone? && run[i - 1].calls[actions[i - 1].id].key == k {
      n := i - 1;
      b := FetchingBegan(ttl, run, actions, actions[n].id, n);
    } else {
      b, n := EntryWasFetched(ttl, run, actions, k, i - 1);
    }
  }

  /**
   In every interleaving a get that has returned holds the value that some fetch for its key brought: its own, or
   one that ended less than the time to live before the get looked. The fetch is the one the value is labelled with.
   */
  lemma {:induction false} ReturnedWasFetched<K, V>(ttl: nat, run: seq<State<K, V>>, actions: seq<Action<K, V>>,
                                                    id: nat, i: nat)
      returns (b: nat, n: nat, m: nat)
    requires IsRun(ttl, run, actions) && i < |run| && id in run[i].calls && run[i].calls[id].Returned?
    ensures var c := run[i].calls[id];
            && n <= m < i && FetchRan(run, actions, b, n, c.key, c.got.value) && c.got.began == run[b].events
            && (actions[m] == ReadCheck(id) || actions[m] == WriteCheck(id) || actions[m] == FetchDone(id, c.got.value))
            && (n == m || run[m].now - run[n].now < ttl)
            && (n == m <==> actions[m].FetchDone?)
  {
    if id in run[i - 1].calls && run[i - 1].calls[id].Returned? {
      assert Enabled(run[i - 1], actions[i - 1]) && run[i - 1 + 1] == Apply(run[i - 1], actions[i - 1]);
      b, n, m := ReturnedWasFetched(ttl, run, actions, id, i - 1);
    } else {
      m := i - 1;
      HandedOut(ttl, run, actions, id, m);
      if actions[m].FetchDone? {
        n := m;
        b := FetchingBegan(ttl, run, actions, id, n);
      } else {
        b, n := EntryWasFetched(ttl, run, actions, run[m].calls[id].key, m);
      }
    }
  }

  /** A call returns in a step of its own: with what it fetched, or with a live entry for its key. */
  lemma HandedOut<K, V>(ttl: nat, run: seq<State<K, V>>, actions: seq<Action<K, V>>, id: nat, m: nat)
    requires IsRun(ttl, run, actions) && m < |actions| && id in run[m + 1].calls && run[m + 1].calls[id].Returned?
    requires id in run[m].calls ==> !run[m].calls[id].Returned?
    ensures id in run[m].calls && run[m + 1].calls[id].key == run[m].calls[id].key
    ensures var (a, c) := (actions[m], run[m + 1].calls[id]);
            if a.FetchDone? then
              a == FetchDone(id, c.got.value) && run[m].calls[id].Fetching? && c.got.began == run[m].calls[id].began
            else
              && (a == ReadCheck(id) || a == WriteCheck(id)) && c.key in run[m].cell
              && c.got == run[m].cell[c.key].fetched && run[m].now - run[m].cell[c.key].timestamp < ttl
  {
    RunInvariant(ttl, run, actions, m);
    assert Enabled(run[m], actions[m]) && run[m + 1] == Apply(run[m], actions[m]);
  }

  /**
   In every interleaving a get that started at step g, after an invalidation finished at step v, and has returned
   holds the value brought by a fetch for its own key that began after that invalidation; it is the get's own fetch
   or ended less than the time to live before the get looked.
   */
  lemma FreshAfterInvalidation<K, V>(ttl: nat, run: seq<State<K, V>>, actions: seq<Action<K, V>>,
                                     v: nat, g: nat, j: nat)
      returns (b: nat, n: nat, m: nat)
    requires IsRun(ttl, run, actions) && v < g < |actions| && g < j < |run|
    requires actions[v].Invalidate? && actions[g].Begin?
    requires actions[g].id in run[j].calls && run[j].calls[actions[g].id].Returned?
    ensures var c := run[j].calls[actions[g].id];
            && c.key == actions[g].key && c.got.key == actions[g].key && (c.age == 0 || c.age < ttl)
            && v < b < n <= m < j && FetchRan(run, actions, b, n, actions[g].key, c.got.value)
            && (actions[m] == ReadCheck(actions[g].id) || actions[m] == WriteCheck(actions[g].id)
                || actions[m] == FetchDone(actions[g].id, c.got.value))
            && (if actions[m].FetchDone? then n == m else run[m].now - run[n].now < ttl)
  {
    var id := actions[g].id;
    assert Enabled(run[v], actions[v]) && run[v + 1] == Apply(run[v], actions[v]);
    assert Enabled(run[g], actions[g]) && run[g + 1] == Apply(run[g], actions[g]);
    Monotone(ttl, run, actions, v + 1, g);
    CallKeepsFloor(ttl, run, actions, id, g + 1, j);
    RunInvariant(ttl, run, actions, j);
    assert CallOk(run[j], id);
    b, n, m := ReturnedWasFetched(ttl, run, actions, id, j);
    if b <= v { Monotone(ttl, run, actions, b, v); }
  }

  /** At most one fetch runs at a time, whatever the keys. */
  lemma OneFetchAtATime<K, V>(ttl: nat, run: seq<State<K, V>>, actions: seq<Action<K, V>>, i: nat, c: nat, d: nat)
    requires IsRun(ttl, run, actions) && i < |run|
    requires c in run[i].calls && d in run[i].calls && run[i].calls[c].Fetching? && run[i].calls[d].Fetching?
    ensures c == d
  {
    RunInvariant(ttl, run, actions, i);
    assert CallOk(run[i], c) && CallOk(run[i], d);
  }

  /** Between a stored value and the next invalidation the key keeps an entry at least that recent. */
  lemma {:induction false} EntryStays<K, V>(ttl: nat, run: seq<State<K, V>>, actions: seq<Action<K, V>>,
                                            k: K, i: nat, j: nat)
    requires IsRun(ttl, run, actions) && i <= j < |run|
    requires k in run[i].cell
    requires forall n :: i <= n < j ==> !actions[n].Invalidate?
    ensures k in run[j].cell && run[i].cell[k].timestamp <= run[j].cell[k].timestamp
    decreases j
  {
    if i < j {
      EntryStays(ttl, run, actions, k, i, j - 1);
      RunInvariant(ttl, run, actions, j - 1);
      assert Enabled(run[j - 1], actions[j - 1]) && run[j - 1 + 1] == Apply(run[j - 1], actions[j - 1]);
    }
  }

  /** A value is fetched again only after it was invalidated or its time to live has passed since it was stored. */
  lemma NoNeedlessFetch<K, V>(ttl: nat, run: seq<State<K, V>>, actions: seq<Action<K, V>>, i: nat, j: nat)
    requires IsRun(ttl, run, actions) && i < j < |actions|
    requires actions[i].FetchDone? && run[i].calls[actions[i].id].Fetching?
    requires actions[j].WriteCheck? && run[j + 1].calls[actions[j].id].Fetching?
    requires run[j].calls[actions[j].id].key == run[i].calls[actions[i].id].key
    requires forall n :: i < n < j ==> !actions[n].Invalidate?
    ensures run[j].now - run[i].now >= ttl
  {
    var k := run[i].calls[actions[i].id].key;
    assert Enabled(run[i], actions[i]) && run[i + 1] == Apply(run[i], actions[i]);
    assert Enabled(run[j], actions[j]) && run[j + 1] == Apply(run[j], actions[j]);
    EntryStays(ttl, run, actions, k, i + 1, j);
    RunInvariant(ttl, run, actions, j);
  }
}

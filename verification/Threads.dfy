/**
 Thread resolution: a reply to a message not yet received opens a thread around a placeholder, and a
 message that turns out to belong to two threads merges them. The result is the same as computing the
 connected components of the reply graph once everything has arrived.
 */
module Threads {
  import opened Prelude
  import opened Tables

  // ---------------------------------------------------------------- the operations on a snapshot

  ghost function EnsureThread(s: Store, m: MessageId, date: int): (r: (Store, ThreadId)) {
    if m in s.messages then (s, s.messages[m].thread) else
      var t := NextRowId(s.threads.Keys);
      (s.(threads := s.threads[t := m],
          messages := s.messages[m := Message(t, PlaceholderContent(date))]), t)
  }

  /** Everything that refers to thread `from` refers to `into` instead, and `from` is gone. */
  ghost function MergeThreads(s: Store, from: ThreadId, into: ThreadId): Store {
    s.(messages := map m | m in s.messages ::
         if s.messages[m].thread == from then s.messages[m].(thread := into) else s.messages[m],
       patchsets := map p | p in s.patchsets ::
         if s.patchsets[p].thread == from then s.patchsets[p].(thread := into) else s.patchsets[p],
       threadSubsystems := (set l | l in s.threadSubsystems && l.0 != from)
                         + (set l | l in s.threadSubsystems && l.0 == from :: (into, l.1)),
       threads := s.threads - {from})
  }

  ghost function CreateMessage(s: Store, m: MessageId, t: ThreadId, c: Content): Store {
    var s1 := if m in s.messages && s.messages[m].thread != t
              then MergeThreads(s, s.messages[m].thread, t) else s;
    s1.(messages := s1.messages[m := Message(t, c)])
  }

  ghost function LinkThread(s: Store, t: ThreadId, subsystems: set<SubsystemId>): Store {
    s.(threadSubsystems := s.threadSubsystems + set x | x in subsystems :: (t, x))
  }

  /** What one article does to the threads: resolve the anchor's thread, store the message in it, link it. */
  ghost function Resolve(s: Store, m: MessageId, anchor: MessageId, c: Content, subsystems: set<SubsystemId>): Store {
    var (s1, t) := EnsureThread(s, anchor, c.date);
    LinkThread(CreateMessage(s1, m, t, c), t, subsystems)
  }

  // ---------------------------------------------------------------- what each operation keeps

  lemma EnsureThreadKeeps(s: Store, m: MessageId, date: int)
    requires Consistent(s)
    ensures var (s', t) := EnsureThread(s, m, date);
            && Consistent(s')
            && t in s'.threads && m in s'.messages && s'.messages[m].thread == t
            && s'.messages.Keys == s.messages.Keys + {m}
            && (forall x :: x in s.messages ==> s'.messages[x] == s.messages[x])
            && s' == s.(threads := s'.threads, messages := s'.messages)
  {
    if m !in s.messages { OpenThreadKeeps(s, NextRowId(s.threads.Keys), m, PlaceholderContent(date)); }
  }

  /** A new thread that starts at a message never seen before. */
  lemma OpenThreadKeeps(s: Store, t: ThreadId, m: MessageId, c: Content)
    requires Consistent(s) && t !in s.threads && m !in s.messages
    ensures Consistent(s.(threads := s.threads[t := m], messages := s.messages[m := Message(t, c)]))
  {
  }

  lemma MergeThreadsKeeps(s: Store, from: ThreadId, into: ThreadId)
    requires ThreadsConsistent(s) && from in s.threads && into in s.threads && from != into
    ensures var s' := MergeThreads(s, from, into);
            && ThreadsConsistent(s')
            && s'.messages.Keys == s.messages.Keys
            && s'.threads.Keys == s.threads.Keys - {from}
  {
    var s' := MergeThreads(s, from, into);
    forall l | l in s'.threadSubsystems ensures l.0 in s'.threads { }
    forall t | t in s'.threads
      ensures s'.threads[t] in s'.messages && s'.messages[s'.threads[t]].thread == t
    { }
  }

  /** The thread of every message after `CreateMessage`: the message's old thread is renamed to t. */
  ghost function Renamed(s: Store, m: MessageId, t: ThreadId, x: MessageId): ThreadId
    requires x in s.messages
  {
    if x == m || (m in s.messages && s.messages[x].thread == s.messages[m].thread) then t
    else s.messages[x].thread
  }

  lemma CreateMessageKeeps(s: Store, m: MessageId, t: ThreadId, c: Content)
    requires ThreadsConsistent(s) && t in s.threads
    ensures var s' := CreateMessage(s, m, t, c);
            && ThreadsConsistent(s')
            && s'.messages.Keys == s.messages.Keys + {m}
            && s'.messages[m] == Message(t, c)
            && t in s'.threads
  {
    if m in s.messages && s.messages[m].thread != t {
      MergeAndStoreKeeps(s, s.messages[m].thread, m, t, c);
    } else {
      StoreMessageKeeps(s, m, t, c);
    }
  }

  lemma MergeAndStoreKeeps(s: Store, from: ThreadId, m: MessageId, t: ThreadId, c: Content)
    requires ThreadsConsistent(s) && t in s.threads && m in s.messages && s.messages[m].thread == from != t
    ensures var merged := MergeThreads(s, from, t);
            ThreadsConsistent(merged.(messages := merged.messages[m := Message(t, c)]))
            && t in merged.threads && merged.messages.Keys == s.messages.Keys
  {
    MergeThreadsKeeps(s, from, t);
    var merged := MergeThreads(s, from, t);
    assert merged.messages[m].thread == t;
    StoreMessageKeeps(merged, m, t, c);
  }

  /** The upsert of a message that is new or already in the thread. */
  lemma StoreMessageKeeps(s: Store, m: MessageId, t: ThreadId, c: Content)
    requires ThreadsConsistent(s) && t in s.threads && (m in s.messages ==> s.messages[m].thread == t)
    ensures ThreadsConsistent(s.(messages := s.messages[m := Message(t, c)]))
  {
  }

  /** Messages other than m keep their content; their threads are renamed. */
  lemma CreateMessageRenames(s: Store, m: MessageId, t: ThreadId, c: Content, x: MessageId)
    requires x in s.messages
    ensures var s' := CreateMessage(s, m, t, c);
            && x in s'.messages
            && s'.messages[x].thread == Renamed(s, m, t, x)
            && (x != m ==> s'.messages[x].content == s.messages[x].content)
  {
  }

  /** Storing a message leaves patches, reviews and subsystem links alone, and of a patchset all but its thread. */
  lemma CreateMessageTouches(s: Store, m: MessageId, t: ThreadId, c: Content)
    ensures var s' := CreateMessage(s, m, t, c);
            && s'.patches == s.patches && s'.reviews == s.reviews && s'.patchsetSubsystems == s.patchsetSubsystems
            && s'.messages.Keys == s.messages.Keys + {m}
            && s'.patchsets.Keys == s.patchsets.Keys
            && (forall p :: p in s.patchsets ==> s'.patchsets[p] == s.patchsets[p].(thread := s'.patchsets[p].thread))
  {
  }

  lemma CreateMessageKeepsPatchsets(s: Store, m: MessageId, t: ThreadId, c: Content)
    requires PatchsetsConsistent(s) && CountsExact(s)
    ensures PatchsetsConsistent(CreateMessage(s, m, t, c)) && CountsExact(CreateMessage(s, m, t, c))
  {
    CreateMessageTouches(s, m, t, c);
  }

  lemma ResolveKeeps(s: Store, m: MessageId, anchor: MessageId, c: Content, subsystems: set<SubsystemId>)
    requires Consistent(s)
    ensures Consistent(Resolve(s, m, anchor, c, subsystems))
    ensures NoneStuck(s) ==> NoneStuck(Resolve(s, m, anchor, c, subsystems))
  {
    EnsureThreadKeeps(s, anchor, c.date);
    var (s1, t) := EnsureThread(s, anchor, c.date);
    CreateMessageKeeps(s1, m, t, c);
    CreateMessageTouches(s1, m, t, c);
    CreateMessageKeepsPatchsets(s1, m, t, c);
  }

  /** Thread resolution changes nothing of a patchset but its thread. */
  lemma ResolveKeepsRows(s: Store, m: MessageId, anchor: MessageId, c: Content, subsystems: set<SubsystemId>)
    ensures var s' := Resolve(s, m, anchor, c, subsystems);
            && s'.patches == s.patches && s'.reviews == s.reviews && s'.patchsetSubsystems == s.patchsetSubsystems
            && s'.patchsets.Keys == s.patchsets.Keys
            && (forall i :: i in s.patchsets ==> s'.patchsets[i] == s.patchsets[i].(thread := s'.patchsets[i].thread))
  {
    var (s1, t) := EnsureThread(s, anchor, c.date);
    assert s1.patchsets == s.patchsets;
    CreateMessageTouches(s1, m, t, c);
  }

  /** A new message that answers nothing or a known message goes to one thread, and that is all. */
  lemma NewMessage(s: Store, m: MessageId, anchor: MessageId, c: Content)
    requires m !in s.messages && (anchor == m || anchor in s.messages)
    ensures var s' := Resolve(s, m, anchor, c, {});
            && s'.messages == s.messages[m := Message(TargetThread(s, anchor), c)]
            && s'.patchsets == s.patchsets && s'.patches == s.patches
  {
    var (s1, t) := EnsureThread(s, anchor, c.date);
    assert t == TargetThread(s, anchor);
    assert CreateMessage(s1, m, t, c) == s1.(messages := s1.messages[m := Message(t, c)]);
    if anchor == m {
      assert s.messages[m := Message(t, PlaceholderContent(c.date))][m := Message(t, c)]
          == s.messages[m := Message(t, c)];
    }
  }

  // ---------------------------------------------------------------- connectivity

  type Edges = set<(MessageId, MessageId)>

  ghost predicate Edge(e: Edges, x: MessageId, y: MessageId) {
    (x, y) in e || (y, x) in e
  }

  ghost predicate IsPath(e: Edges, p: seq<MessageId>, x: MessageId, y: MessageId) {
    && |p| > 0 && p[0] == x && p[|p| - 1] == y
    && forall i :: 0 <= i < |p| - 1 ==> Edge(e, p[i], p[i + 1])
  }

  /** x and y lie in one connected component of the undirected graph with the given edges. */
  ghost predicate Connected(e: Edges, x: MessageId, y: MessageId) {
    exists p :: IsPath(e, p, x, y)
  }

  lemma ConnectedSelf(e: Edges, x: MessageId)
    ensures Connected(e, x, x)
  {
    assert IsPath(e, [x], x, x);
  }

  lemma ConnectedEdge(e: Edges, x: MessageId, y: MessageId)
    requires Edge(e, x, y)
    ensures Connected(e, x, y)
  {
    assert IsPath(e, [x, y], x, y);
  }

  lemma ConnectedTrans(e: Edges, x: MessageId, y: MessageId, z: MessageId)
    requires Connected(e, x, y) && Connected(e, y, z)
    ensures Connected(e, x, z)
  {
    var p :| IsPath(e, p, x, y);
    var q :| IsPath(e, q, y, z);
    var r := p + q[1..];
    forall i | 0 <= i < |r| - 1 ensures Edge(e, r[i], r[i + 1]) {
      if i >= |p| - 1 { assert Edge(e, q[i - (|p| - 1)], q[i - (|p| - 1) + 1]); }
    }
    assert IsPath(e, r, x, z);
  }

  lemma ConnectedSym(e: Edges, x: MessageId, y: MessageId)
    requires Connected(e, x, y)
    ensures Connected(e, y, x)
  {
    var p :| IsPath(e, p, x, y);
    var r := seq(|p|, i requires 0 <= i < |p| => p[|p| - 1 - i]);
    forall i | 0 <= i < |r| - 1 ensures Edge(e, r[i], r[i + 1]) {
      assert Edge(e, p[|p| - 2 - i], p[|p| - 2 - i + 1]);
    }
    assert IsPath(e, r, y, x);
  }

  lemma ConnectedMono(e: Edges, f: Edges, x: MessageId, y: MessageId)
    requires Connected(e, x, y) && e <= f
    ensures Connected(f, x, y)
  {
    var p :| IsPath(e, p, x, y);
    forall i | 0 <= i < |p| - 1 ensures Edge(f, p[i], p[i + 1]) { assert Edge(e, p[i], p[i + 1]); }
    assert IsPath(f, p, x, y);
  }

  // ---------------------------------------------------------------- threads are components

  ghost predicate SameThread(s: Store, x: MessageId, y: MessageId) {
    x in s.messages && y in s.messages && s.messages[x].thread == s.messages[y].thread
  }

  /** The threads of s are exactly the components of e, seen from the messages known to s. */
  ghost predicate ThreadsAreComponents(s: Store, e: Edges) {
    && (forall p :: p in e ==> p.0 in s.messages && p.1 in s.messages)
    && (forall x, y :: x in s.messages && y in s.messages ==> (SameThread(s, x, y) <==> Connected(e, x, y)))
  }

  /** x is m, or already shares its thread. */
  ghost predicate Near(s: Store, x: MessageId, m: MessageId) {
    x == m || SameThread(s, x, m)
  }

  /** The thread an article goes to: its anchor's, or a new one if the anchor is not known. */
  ghost function TargetThread(s: Store, a: MessageId): ThreadId {
    if a in s.messages then s.messages[a].thread else NextRowId(s.threads.Keys)
  }

  /** The thread of every message after `Resolve`. */
  ghost function ResolvedThread(s: Store, m: MessageId, a: MessageId, x: MessageId): ThreadId
    requires x in s.messages.Keys + {m, a}
  {
    if x == m || x == a || (m in s.messages && s.messages[x].thread == s.messages[m].thread)
    then TargetThread(s, a) else s.messages[x].thread
  }

  lemma ResolveMessages(s: Store, m: MessageId, a: MessageId, c: Content, subs: set<SubsystemId>)
    ensures Resolve(s, m, a, c, subs).messages.Keys == s.messages.Keys + {m, a}
  {
    EnsureThreadMessages(s, a, c.date);
    var (s1, t) := EnsureThread(s, a, c.date);
    CreateMessageTouches(s1, m, t, c);
  }

  /** The messages after asking for a message's thread, and the thread. */
  lemma EnsureThreadMessages(s: Store, m: MessageId, date: int)
    ensures var (s', t) := EnsureThread(s, m, date);
            && t == TargetThread(s, m)
            && s'.messages == if m in s.messages then s.messages
                              else s.messages[m := Message(t, PlaceholderContent(date))]
  {
  }

  lemma ResolveRenames(s: Store, m: MessageId, a: MessageId, c: Content, subs: set<SubsystemId>, x: MessageId)
    requires x in s.messages.Keys + {m, a}
    ensures x in Resolve(s, m, a, c, subs).messages
    ensures Resolve(s, m, a, c, subs).messages[x].thread == ResolvedThread(s, m, a, x)
  {
    EnsureThreadMessages(s, a, c.date);
    var (s1, t) := EnsureThread(s, a, c.date);
    if x in s1.messages { CreateMessageRenames(s1, m, t, c, x); }
  }

  lemma ResolvedTogether(s: Store, m: MessageId, a: MessageId, c: Content, subs: set<SubsystemId>,
                         x: MessageId, y: MessageId)
    requires x in s.messages.Keys + {m, a} && y in s.messages.Keys + {m, a}
    ensures SameThread(Resolve(s, m, a, c, subs), x, y) <==> ResolvedThread(s, m, a, x) == ResolvedThread(s, m, a, y)
  {
    ResolveRenames(s, m, a, c, subs, x);
    ResolveRenames(s, m, a, c, subs, y);
  }

  /** Resolving (m, anchor) puts the two in one thread, separates nothing, and joins nothing else. */
  lemma ResolveJoins(s: Store, m: MessageId, a: MessageId, c: Content, subs: set<SubsystemId>,
                     x: MessageId, y: MessageId)
    requires ThreadsConsistent(s) && x in s.messages.Keys + {m, a} && y in s.messages.Keys + {m, a}
    ensures SameThread(Resolve(s, m, a, c, subs), m, a)
    ensures SameThread(s, x, y) ==> SameThread(Resolve(s, m, a, c, subs), x, y)
    ensures SameThread(Resolve(s, m, a, c, subs), x, y) ==>
              || x == y || SameThread(s, x, y)
              || (Near(s, x, m) && Near(s, y, a)) || (Near(s, x, a) && Near(s, y, m))
  {
    ResolvedTogether(s, m, a, c, subs, m, a);
    ResolvedTogether(s, m, a, c, subs, x, y);
  }

  lemma NearConnected(s: Store, e: Edges, f: Edges, x: MessageId, m: MessageId)
    requires ThreadsAreComponents(s, e) && e <= f && Near(s, x, m)
    ensures Connected(f, x, m) && Connected(f, m, x)
  {
    if x == m { ConnectedSelf(f, x); } else {
      assert Connected(e, x, m);
      ConnectedMono(e, f, x, m);
      ConnectedSym(f, x, m);
    }
  }

  /** Along a path all of whose edges lie within threads, the thread does not change. */
  lemma {:induction false} PathStaysInThread(s: Store, e: Edges, p: seq<MessageId>, x: MessageId, y: MessageId)
    requires forall d :: d in e ==> SameThread(s, d.0, d.1)
    requires x in s.messages && IsPath(e, p, x, y)
    ensures SameThread(s, x, y)
    decreases |p|
  {
    if |p| > 1 {
      assert Edge(e, p[0], p[1]);
      var rest := p[1..];
      forall i | 0 <= i < |rest| - 1 ensures Edge(e, rest[i], rest[i + 1]) {
        assert Edge(e, p[i + 1], p[i + 1 + 1]);
      }
      PathStaysInThread(s, e, rest, p[1], y);
    }
  }

  lemma ResolveAddsEdge(s: Store, e: Edges, m: MessageId, a: MessageId, c: Content, subs: set<SubsystemId>)
    requires Consistent(s) && ThreadsAreComponents(s, e)
    ensures ThreadsAreComponents(Resolve(s, m, a, c, subs), e + {(m, a)})
  {
    var s' := Resolve(s, m, a, c, subs);
    var f := e + {(m, a)};
    ResolveMessages(s, m, a, c, subs);
    ResolveJoins(s, m, a, c, subs, m, a);
    forall d | d in f ensures SameThread(s', d.0, d.1) {
      if d in e {
        ConnectedEdge(e, d.0, d.1);
        ResolveJoins(s, m, a, c, subs, d.0, d.1);
      }
    }
    forall x, y | x in s'.messages && y in s'.messages ensures SameThread(s', x, y) <==> Connected(f, x, y) {
      if Connected(f, x, y) {
        var p :| IsPath(f, p, x, y);
        PathStaysInThread(s', f, p, x, y);
      }
      if SameThread(s', x, y) { ResolveConnects(s, e, m, a, c, subs, x, y); }
    }
  }

  lemma ResolveConnects(s: Store, e: Edges, m: MessageId, a: MessageId, c: Content, subs: set<SubsystemId>,
                        x: MessageId, y: MessageId)
    requires Consistent(s) && ThreadsAreComponents(s, e)
    requires SameThread(Resolve(s, m, a, c, subs), x, y)
    ensures Connected(e + {(m, a)}, x, y)
  {
    var f := e + {(m, a)};
    ResolveMessages(s, m, a, c, subs);
    ResolveJoins(s, m, a, c, subs, x, y);
    if x == y {
      ConnectedSelf(f, x);
    } else if SameThread(s, x, y) {
      NearConnected(s, e, f, x, y);
    } else {
      var (u, v) := if Near(s, x, m) && Near(s, y, a) then (m, a) else (a, m);
      NearConnected(s, e, f, x, u);
      NearConnected(s, e, f, y, v);
      ConnectedEdge(f, u, v);
      ConnectedTrans(f, x, u, v);
      ConnectedTrans(f, x, v, y);
    }
  }

  /** A message that is no endpoint of an edge is connected to itself only. */
  lemma Isolated(e: Edges, x: MessageId, y: MessageId)
    requires forall d :: d in e ==> d.0 != x && d.1 != x
    requires Connected(e, x, y) || Connected(e, y, x)
    ensures x == y
  {
    if Connected(e, y, x) { ConnectedSym(e, y, x); }
    var p :| IsPath(e, p, x, y);
    assert |p| > 1 ==> Edge(e, p[0], p[1]);
  }

  /** Opening a thread for a message not yet known joins nothing. */
  lemma EnsureThreadAddsVertex(s: Store, e: Edges, m: MessageId, date: int)
    requires Consistent(s) && ThreadsAreComponents(s, e)
    ensures ThreadsAreComponents(EnsureThread(s, m, date).0, e)
  {
    EnsureThreadKeeps(s, m, date);
    var s' := EnsureThread(s, m, date).0;
    if m !in s.messages {
      forall x, y | x in s'.messages && y in s'.messages ensures SameThread(s', x, y) <==> Connected(e, x, y) {
        if x == y { ConnectedSelf(e, x); }
        else if x == m || y == m {
          if Connected(e, x, y) {
            if x == m { Isolated(e, x, y); } else { Isolated(e, y, x); }
          }
        } else {
          assert SameThread(s, x, y) <==> Connected(e, x, y);
        }
      }
    }
  }

  // ---------------------------------------------------------------- subsystem links follow the messages

  type Credits = set<(MessageId, SubsystemId)>

  /** Some message now in the thread brought the subsystem. */
  ghost predicate Brought(s: Store, credits: Credits, t: ThreadId, x: SubsystemId) {
    exists m :: (m, x) in credits && m in s.messages && s.messages[m].thread == t
  }

  /** A thread is linked to a subsystem exactly when some message now in it brought that subsystem. */
  ghost predicate LinksFollowMessages(s: Store, credits: Credits) {
    && (forall k :: k in credits ==> k.0 in s.messages)
    && (forall t: ThreadId, x: SubsystemId :: (t, x) in s.threadSubsystems <==> Brought(s, credits, t, x))
  }

  lemma ResolveLinks(s: Store, m: MessageId, a: MessageId, c: Content, subs: set<SubsystemId>,
                     t: ThreadId, x: SubsystemId)
    requires Consistent(s)
    ensures (t, x) in Resolve(s, m, a, c, subs).threadSubsystems <==>
            if t == TargetThread(s, a)
            then x in subs || (t, x) in s.threadSubsystems
                 || (m in s.messages && (s.messages[m].thread, x) in s.threadSubsystems)
            else !(m in s.messages && s.messages[m].thread == t) && (t, x) in s.threadSubsystems
  {
    EnsureThreadKeeps(s, a, c.date);
    var (s1, u) := EnsureThread(s, a, c.date);
    var s2 := CreateMessage(s1, m, u, c);
    assert (t, x) in LinkThread(s2, u, subs).threadSubsystems
      <==> (t, x) in s2.threadSubsystems || (t == u && x in subs);
    if m in s1.messages && s1.messages[m].thread != u {
      MergedLinks(s1, s1.messages[m].thread, u, t, x);
    }
  }

  lemma MergedLinks(s: Store, from: ThreadId, into: ThreadId, t: ThreadId, x: SubsystemId)
    requires from != into
    ensures (t, x) in MergeThreads(s, from, into).threadSubsystems <==>
            (t != from && (t, x) in s.threadSubsystems) || (t == into && (from, x) in s.threadSubsystems)
  {
    var moved := set l | l in s.threadSubsystems && l.0 == from :: (into, l.1);
    if t == into && (from, x) in s.threadSubsystems { assert (into, x) in moved; }
  }

  lemma BroughtBefore(s: Store, credits: Credits, m: MessageId, a: MessageId, c: Content, subs: set<SubsystemId>,
                      t: ThreadId, x: SubsystemId)
    requires LinksFollowMessages(s, credits)
    requires Brought(Resolve(s, m, a, c, subs), credits + set x | x in subs :: (m, x), t, x)
    ensures if t == TargetThread(s, a)
            then x in subs || (t, x) in s.threadSubsystems
                 || (m in s.messages && (s.messages[m].thread, x) in s.threadSubsystems)
            else !(m in s.messages && s.messages[m].thread == t) && (t, x) in s.threadSubsystems
  {
    var s' := Resolve(s, m, a, c, subs);
    var n :| (n, x) in credits + (set x | x in subs :: (m, x)) && n in s'.messages && s'.messages[n].thread == t;
    if (n, x) in credits {
      ResolveRenames(s, m, a, c, subs, n);
      assert (s.messages[n].thread, x) in s.threadSubsystems;
    } else {
      ResolveRenames(s, m, a, c, subs, m);
    }
  }

  lemma BroughtAfter(s: Store, credits: Credits, m: MessageId, a: MessageId, c: Content, subs: set<SubsystemId>,
                     t: ThreadId, x: SubsystemId)
    requires LinksFollowMessages(s, credits)
    requires if t == TargetThread(s, a)
             then x in subs || (t, x) in s.threadSubsystems
                  || (m in s.messages && (s.messages[m].thread, x) in s.threadSubsystems)
             else !(m in s.messages && s.messages[m].thread == t) && (t, x) in s.threadSubsystems
    ensures Brought(Resolve(s, m, a, c, subs), credits + set x | x in subs :: (m, x), t, x)
  {
    var credits' := credits + set x | x in subs :: (m, x);
    if t == TargetThread(s, a) && x in subs {
      ResolveRenames(s, m, a, c, subs, m);
      assert (m, x) in credits';
    } else {
      var was := if (t, x) in s.threadSubsystems then t else s.messages[m].thread;
      var n :| (n, x) in credits && n in s.messages && s.messages[n].thread == was;
      ResolveRenames(s, m, a, c, subs, n);
      assert (n, x) in credits';
    }
  }

  lemma ResolveFollowsMessages(s: Store, credits: Credits, m: MessageId, a: MessageId, c: Content,
                               subs: set<SubsystemId>)
    requires Consistent(s) && LinksFollowMessages(s, credits)
    ensures LinksFollowMessages(Resolve(s, m, a, c, subs), credits + set x | x in subs :: (m, x))
  {
    var s' := Resolve(s, m, a, c, subs);
    var credits' := credits + set x | x in subs :: (m, x);
    ResolveMessages(s, m, a, c, subs);
    forall t: ThreadId, x: SubsystemId ensures (t, x) in s'.threadSubsystems <==> Brought(s', credits', t, x) {
      ResolveLinks(s, m, a, c, subs, t, x);
      if Brought(s', credits', t, x) { BroughtBefore(s, credits, m, a, c, subs, t, x); }
      if (t, x) in s'.threadSubsystems { BroughtAfter(s, credits, m, a, c, subs, t, x); }
    }
  }

  lemma EnsureThreadFollowsMessages(s: Store, credits: Credits, m: MessageId, date: int)
    requires Consistent(s) && LinksFollowMessages(s, credits)
    ensures LinksFollowMessages(EnsureThread(s, m, date).0, credits)
  {
    EnsureThreadKeeps(s, m, date);
    var s' := EnsureThread(s, m, date).0;
    forall t: ThreadId, x: SubsystemId
      ensures (t, x) in s'.threadSubsystems <==> Brought(s', credits, t, x)
    {
      if (t, x) in s.threadSubsystems {
        var n :| (n, x) in credits && n in s.messages && s.messages[n].thread == t;
        assert s'.messages[n] == s.messages[n];
      }
      if n :| (n, x) in credits && n in s'.messages && s'.messages[n].thread == t {
        assert s'.messages[n] == s.messages[n];
        assert (t, x) in s.threadSubsystems;
      }
    }
  }
}

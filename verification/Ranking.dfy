/**
 Ranking of baseline trees for a patch: count how often the matched MAINTAINERS entries name each tree, order
 by count and URL, score against the subject, order by score, drop duplicates. The counts sit in a hash map, so
 the question is which results depend on the order a hash map happens to be iterated in.
 */
module Ranking {
  import opened Prelude
  import opened Sorting
  import opened Text

  datatype Tree = Tree(url: string, branch: Option<string>)

  datatype MaintainersEntry = MaintainersEntry(subsystem: string, trees: seq<Tree>, patterns: seq<string>)

  datatype Resolution = RemoteTarget(url: string, name: string, branch: Option<string>)

  /** `suggest` names a remote that is not configured; `lower` and `prefixes` are the Unicode and regex readers. */
  datatype Registry = Registry(
    entries: seq<MaintainersEntry>,
    remotes: map<string, string>,
    suggest: string -> string,
    lower: string -> string,
    prefixes: string -> seq<string>)

  // ---------------------------------------------------------------- text

  function SplitDash(s: string): (r: seq<string>)
    ensures |r| >= 1
  {
    if s == "" then [""]
    else
      var r := SplitDash(s[1..]);
      if s[0] == '-' then [""] + r else [[s[0]] + r[0]] + r[1..]
  }

  /** Byte order of UTF-8 is the order of the code points. */
  predicate StrLe(a: string, b: string) {
    a == "" || (b != "" && (a[0] < b[0] || (a[0] == b[0] && StrLe(a[1..], b[1..]))))
  }

  lemma {:induction false} StrLeTotal(a: string, b: string)
    ensures StrLe(a, b) || StrLe(b, a)
    ensures StrLe(a, b) && StrLe(b, a) ==> a == b
  {
    if a != "" && b != "" && a[0] == b[0] {
      StrLeTotal(a[1..], b[1..]);
      assert a == [a[0]] + a[1..] && b == [b[0]] + b[1..];
    }
  }

  lemma {:induction false} StrLeTrans(a: string, b: string, c: string)
    requires StrLe(a, b) && StrLe(b, c)
    ensures StrLe(a, c)
  {
    if a != "" && a[0] == b[0] && b[0] == c[0] { StrLeTrans(a[1..], b[1..], c[1..]); }
  }

  // ---------------------------------------------------------------- counting

  predicate EntryMatches(e: MaintainersEntry, file: string) {
    exists p :: p in e.patterns && ((EndsWith(p, "/") && p <= file) || p == file)
  }

  /** The pattern is a directory above the file, with its slash. */
  ghost predicate IsAbove(pattern: string, file: string) {
    exists n: nat :: n < |file| && file[n] == '/' && pattern == file[..n + 1]
  }

  lemma AboveIff(pattern: string, file: string)
    ensures EndsWith(pattern, "/") && pattern <= file <==> IsAbove(pattern, file)
  {
    if EndsWith(pattern, "/") && pattern <= file {
      var n := |pattern| - 1;
      assert pattern[n..][0] == '/' && file[..n + 1] == pattern;
    }
    if n: nat :| n < |file| && file[n] == '/' && pattern == file[..n + 1] { assert pattern[n..] == "/"; }
  }

  /** An entry covers a file exactly when it lists the file, or one of the directories above it with its slash. */
  lemma EntryCovers(e: MaintainersEntry, file: string)
    ensures EntryMatches(e, file) <==> file in e.patterns || exists p :: p in e.patterns && IsAbove(p, file)
  {
    forall p | p in e.patterns ensures EndsWith(p, "/") && p <= file <==> IsAbove(p, file) { AboveIff(p, file); }
  }

  /** The trees named by the entries that match a file, entry by entry. */
  function HitsOfFile(entries: seq<MaintainersEntry>, file: string): seq<Tree> {
    if entries == [] then [] else
      HitsOfFile(entries[..|entries| - 1], file)
      + (if EntryMatches(entries[|entries| - 1], file) then entries[|entries| - 1].trees else [])
  }

  function Hits(entries: seq<MaintainersEntry>, files: seq<string>): seq<Tree> {
    if files == [] then [] else
      Hits(entries, files[..|files| - 1]) + HitsOfFile(entries, files[|files| - 1])
  }

  /** The subsystem of the first entry that matches the first file that is matched. */
  function FirstSubsystem(entries: seq<MaintainersEntry>, files: seq<string>): Option<string> {
    if files == [] then None else
      var first := FirstOfFile(entries, files[0]);
      if first.Some? then first else FirstSubsystem(entries, files[1..])
  }

  function FirstOfFile(entries: seq<MaintainersEntry>, file: string): Option<string> {
    if entries == [] then None
    else if EntryMatches(entries[0], file) then Some(entries[0].subsystem)
    else FirstOfFile(entries[1..], file)
  }

  /** The table says how often each tree was hit, and lists no other tree. */
  ghost predicate CountsHits(counts: map<Tree, nat>, hits: seq<Tree>) {
    && (forall t :: t in counts <==> t in hits)
    && (forall t :: t in counts ==> counts[t] == multiset(hits)[t])
  }

  lemma OneMoreHit(counts: map<Tree, nat>, hits: seq<Tree>, tree: Tree)
    requires CountsHits(counts, hits)
    ensures CountsHits(counts[tree := (if tree in counts then counts[tree] else 0) + 1], hits + [tree])
  {
  }

  method AddTrees(counts: map<Tree, nat>, trees: seq<Tree>, ghost hits: seq<Tree>) returns (r: map<Tree, nat>)
    requires CountsHits(counts, hits)
    ensures CountsHits(r, hits + trees)
  {
    r := counts;
    assert hits + trees[..0] == hits;
    for i := 0 to |trees|
      invariant CountsHits(r, hits + trees[..i])
    {
      assert hits + trees[..i + 1] == hits + trees[..i] + [trees[i]];
      OneMoreHit(r, hits + trees[..i], trees[i]);
      r := r[trees[i] := (if trees[i] in r then r[trees[i]] else 0) + 1];
    }
    assert trees[..|trees|] == trees;
  }

  method CountFile(entries: seq<MaintainersEntry>, file: string, counts: map<Tree, nat>, ghost hits: seq<Tree>)
    returns (r: map<Tree, nat>)
    requires CountsHits(counts, hits)
    ensures CountsHits(r, hits + HitsOfFile(entries, file))
  {
    r := counts;
    assert hits + [] == hits;
    for i := 0 to |entries|
      invariant CountsHits(r, hits + HitsOfFile(entries[..i], file))
    {
      assert entries[..i + 1][..i] == entries[..i];
      if EntryMatches(entries[i], file) {
        r := AddTrees(r, entries[i].trees, hits + HitsOfFile(entries[..i], file));
      }
      assert hits + HitsOfFile(entries[..i + 1], file)
          == hits + HitsOfFile(entries[..i], file) + (if EntryMatches(entries[i], file) then entries[i].trees else []);
    }
    assert entries[..|entries|] == entries;
  }

  method CountTrees(entries: seq<MaintainersEntry>, files: seq<string>) returns (counts: map<Tree, nat>)
    ensures CountsHits(counts, Hits(entries, files))
  {
    counts := map[];
    for i := 0 to |files|
      invariant CountsHits(counts, Hits(entries, files[..i]))
    {
      assert files[..i + 1][..i] == files[..i];
      counts := CountFile(entries, files[i], counts, Hits(entries, files[..i]));
    }
    assert files[..|files|] == files;
  }

  ghost predicate Covered(entries: seq<MaintainersEntry>, files: seq<string>, i: nat, j: nat) {
    i < |files| && j < |entries| && EntryMatches(entries[j], files[i])
  }

  /** The subsystem of a patch is that of the first entry that covers its first covered file. */
  lemma {:induction false} FirstSubsystemIs(entries: seq<MaintainersEntry>, files: seq<string>, i: nat, j: nat)
    requires Covered(entries, files, i, j)
    requires forall i': nat, j': nat :: Covered(entries, files, i', j') ==> i < i' || (i == i' && j <= j')
    ensures FirstSubsystem(entries, files) == Some(entries[j].subsystem)
    decreases |files|
  {
    if i == 0 {
      forall j': nat | j' < j ensures !EntryMatches(entries[j'], files[0]) {
        assert !Covered(entries, files, 0, j');
      }
      FirstOfFileIs(entries, files[0], j);
    } else {
      NothingOfFile(entries, files);
      forall i': nat, j': nat | Covered(entries, files[1..], i', j') ensures i - 1 < i' || (i - 1 == i' && j <= j') {
        assert Covered(entries, files, i' + 1, j');
      }
      assert Covered(entries, files[1..], i - 1, j);
      FirstSubsystemIs(entries, files[1..], i - 1, j);
    }
  }

  lemma {:induction false} FirstOfFileIs(entries: seq<MaintainersEntry>, file: string, j: nat)
    requires j < |entries| && EntryMatches(entries[j], file)
    requires forall j' :: 0 <= j' < j ==> !EntryMatches(entries[j'], file)
    ensures FirstOfFile(entries, file) == Some(entries[j].subsystem)
    decreases |entries|
  {
    if j > 0 {
      assert !EntryMatches(entries[0], file);
      FirstOfFileIs(entries[1..], file, j - 1);
    }
  }

  lemma NothingOfFile(entries: seq<MaintainersEntry>, files: seq<string>)
    requires files != [] && forall j: nat :: !Covered(entries, files, 0, j)
    ensures FirstOfFile(entries, files[0]).None?
  {
    forall j: nat | j < |entries| ensures !EntryMatches(entries[j], files[0]) {
      assert !Covered(entries, files, 0, j);
    }
    NoneOfFile(entries, files[0]);
  }

  lemma {:induction false} NoneOfFile(entries: seq<MaintainersEntry>, file: string)
    requires forall j :: 0 <= j < |entries| ==> !EntryMatches(entries[j], file)
    ensures FirstOfFile(entries, file).None?
    decreases |entries|
  {
    if entries != [] {
      assert !EntryMatches(entries[0], file);
      forall j | 0 <= j < |entries[1..]| ensures !EntryMatches(entries[1..][j], file) {
        assert !EntryMatches(entries[j + 1], file);
      }
      NoneOfFile(entries[1..], file);
    }
  }

  // ---------------------------------------------------------------- scoring

  /** What the subject says: its words, the sub-words of its prefixes, and the matched subsystem. */
  datatype Clues = Clues(subject: string, subsystem: string, prefixes: seq<string>, isNext: bool)

  function BasePrefixes(r: Registry, prefixes: seq<string>): seq<string> {
    if prefixes == [] then [] else
      var p := r.lower(prefixes[0]);
      [p] + (if Contains(p, "-") then SubWords(SplitDash(p)) else []) + BasePrefixes(r, prefixes[1..])
  }

  function SubWords(parts: seq<string>): seq<string> {
    if parts == [] then []
    else (if parts[0] != "next" && parts[0] != "net" then [parts[0]] else []) + SubWords(parts[1..])
  }

  function CluesOf(r: Registry, files: seq<string>, subject: string): Clues {
    var subsystem := FirstSubsystem(r.entries, files);
    Clues(r.lower(subject), if subsystem.Some? then r.lower(subsystem.value) else "",
          BasePrefixes(r, r.prefixes(subject)), Contains(r.lower(subject), "next"))
  }

  function PrefixScore(prefixes: seq<string>, url: string, branch: string): int {
    if prefixes == [] then 0 else
      (if EndsWith(url, "/" + prefixes[0] + ".git") || branch == prefixes[0] then 50 else 0)
      + PrefixScore(prefixes[1..], url, branch)
  }

  function NextScore(isNext: bool, url: string, branch: string): int {
    if Contains(url, "mptcp") then
      (if branch == "export" then (if isNext then 50 else -50)
       else if branch == "export-net" then (if isNext then -50 else 50)
       else 0)
    else if isNext == (Contains(url, "next") || Contains(branch, "next")) then 50 else -50
  }

  const KEYWORDS := ["net", "bpf", "drm", "mm", "sched", "x86", "arm", "arm64", "scsi", "usb", "perf"]

  function KeywordScore(keywords: seq<string>, c: Clues, url: string, branch: string): int {
    if keywords == [] then 0 else
      (if (Contains(c.subject, keywords[0]) || Contains(c.subsystem, keywords[0]))
          && (Contains(url, keywords[0]) || Contains(branch, keywords[0])) then 10 else 0)
      + KeywordScore(keywords[1..], c, url, branch)
  }

  function Score(r: Registry, c: Clues, count: nat, t: Tree): int {
    var url, branch := r.lower(t.url), r.lower(t.branch.GetOr(""));
    count * 10
    + PrefixScore(c.prefixes, url, branch)
    + (if exists p :: p in c.prefixes && (Contains(url, p) || Contains(branch, p)) then 100 else 0)
    + NextScore(c.isNext, url, branch)
    + KeywordScore(KEYWORDS, c, url, branch)
  }

  // ---------------------------------------------------------------- ranking

  /** How trees compare: by how often they were hit, by URL, and by score. */
  datatype Weights = Weights(count: Tree -> nat, score: Tree -> int)

  function ByCount(w: Weights): (Tree, Tree) -> bool {
    (a, b) => w.count(a) > w.count(b) || (w.count(a) == w.count(b) && StrLe(a.url, b.url))
  }

  function ByScore(w: Weights): (Tree, Tree) -> bool {
    (a, b) => w.score(a) >= w.score(b)
  }

  /** The two stable sorts, starting from the order the hash map was iterated in. */
  function Ranked(order: seq<Tree>, w: Weights): seq<Tree> {
    Sort(Sort(order, ByCount(w)), ByScore(w))
  }

  /** Score descending, then count descending, then URL ascending. */
  function Ranking(w: Weights): (Tree, Tree) -> bool {
    Then(ByScore(w), ByCount(w))
  }

  function Resolve(r: Registry, t: Tree): Resolution {
    RemoteTarget(t.url, if t.url in r.remotes then r.remotes[t.url] else r.suggest(t.url), t.branch)
  }

  function ResolveAll(r: Registry, ts: seq<Tree>): (rs: seq<Resolution>)
    ensures |rs| == |ts| && forall i :: 0 <= i < |ts| ==> rs[i] == Resolve(r, ts[i])
  {
    seq(|ts|, i requires 0 <= i < |ts| => Resolve(r, ts[i]))
  }

  function MmBranches(r: Registry, url: string): seq<Resolution> {
    [Resolve(r, Tree(url, Some("mm-new"))), Resolve(r, Tree(url, Some("mm-unstable"))),
     Resolve(r, Tree(url, Some("mm-stable")))]
  }

  predicate IsMm(subsystem: Option<string>, topUrl: string) {
    || Contains(topUrl, "akpm/mm") || Contains(topUrl, "linux-mm")
    || (subsystem.Some? && AsciiLower(subsystem.value) == AsciiLower("MEMORY MANAGEMENT"))
  }

  function WeightsOf(r: Registry, counts: map<Tree, nat>, c: Clues): Weights {
    var count := (t: Tree) => if t in counts then counts[t] else 0;
    Weights(count, t => Score(r, c, count(t), t))
  }

  /** The heuristic, for a given iteration order of the counts. */
  function Heuristic(r: Registry, files: seq<string>, subject: string, counts: map<Tree, nat>, order: seq<Tree>)
    : seq<Resolution>
  {
    if order == [] then [] else
      var w := WeightsOf(r, counts, CluesOf(r, files, subject));
      var top := Sort(order, ByCount(w))[0].url;
      if IsMm(FirstSubsystem(r.entries, files), top) then MmBranches(r, top)
      else Unique(ResolveAll(r, Ranked(order, w)))
  }

  /** Any order the hash map may be iterated in. */
  method IterationOrder(counts: map<Tree, nat>) returns (order: seq<Tree>)
    ensures Lists(order, counts.Keys)
  {
    order := [];
    var rest := counts.Keys;
    while rest != {}
      invariant rest <= counts.Keys && Lists(order, counts.Keys - rest)
      decreases rest
    {
      var t :| t in rest;
      assert t !in order;
      order := order + [t];
      rest := rest - {t};
    }
  }

  method ResolveSubsystemHeuristic(r: Registry, files: seq<string>, subject: string)
    returns (candidates: seq<Resolution>)
    ensures exists counts, order :: CountsHits(counts, Hits(r.entries, files)) && Lists(order, counts.Keys)
              && candidates == Heuristic(r, files, subject, counts, order)
  {
    var counts := CountTrees(r.entries, files);
    var order := IterationOrder(counts);
    if order == [] {
      candidates := [];
      assert candidates == Heuristic(r, files, subject, counts, order);
      return;
    }
    var w := WeightsOf(r, counts, CluesOf(r, files, subject));
    var byCount := Sort(order, ByCount(w));
    var top := byCount[0].url;
    if IsMm(FirstSubsystem(r.entries, files), top) {
      candidates := MmBranches(r, top);
    } else {
      candidates := RemoveDuplicates(ResolveAll(r, Sort(byCount, ByScore(w))));
    }
    assert candidates == Heuristic(r, files, subject, counts, order);
  }

  // ---------------------------------------------------------------- what the score promises

  /** A prefix of the subject, or a part of one, occurs in the tree's URL or branch. */
  ghost predicate Named(r: Registry, c: Clues, t: Tree) {
    exists p :: p in c.prefixes && (Contains(r.lower(t.url), p) || Contains(r.lower(t.branch.GetOr("")), p))
  }

  function Nextness(r: Registry, c: Clues, t: Tree): int {
    NextScore(c.isNext, r.lower(t.url), r.lower(t.branch.GetOr("")))
  }

  lemma SuffixContained(s: string, i: nat, t: string)
    requires i <= |s| && t <= s[i..]
    ensures Contains(s, t)
  {
    assert s[i..][..|t|] == s[i..i + |t|];
    assert OccursAt(t, s, i);
  }

  lemma {:induction false} PrefixScoreBounds(prefixes: seq<string>, url: string, branch: string)
    ensures 0 <= PrefixScore(prefixes, url, branch)
    ensures PrefixScore(prefixes, url, branch) > 0 ==>
              exists p :: p in prefixes && (Contains(url, p) || Contains(branch, p))
    decreases |prefixes|
  {
    if prefixes != [] {
      var p := prefixes[0];
      PrefixScoreBounds(prefixes[1..], url, branch);
      if branch == p {
        SuffixContained(branch, 0, p);
        assert p in prefixes;
      } else if EndsWith(url, "/" + p + ".git") {
        var i := |url| - |"/" + p + ".git"|;
        assert url[i + 1..] == url[i..][1..] == p + ".git";
        SuffixContained(url, i + 1, p);
        assert p in prefixes;
      } else if PrefixScore(prefixes[1..], url, branch) > 0 {
        var q :| q in prefixes[1..] && (Contains(url, q) || Contains(branch, q));
        assert q in prefixes;
      }
    }
  }

  lemma {:induction false} KeywordScoreBounds(keywords: seq<string>, c: Clues, url: string, branch: string)
    ensures 0 <= KeywordScore(keywords, c, url, branch) <= 10 * |keywords|
    decreases |keywords|
  {
    if keywords != [] { KeywordScoreBounds(keywords[1..], c, url, branch); }
  }

  /**
   A tree that the subject names outranks a tree it does not name, if it has at least as many hits and agrees
   with the subject on being a next tree where the other does not; with keywords alone no tree can make up for
   that.
   */
  lemma NamedTreeWins(r: Registry, c: Clues, hits: nat, hits': nat, t: Tree, t': Tree)
    requires hits >= hits' && Named(r, c, t) && !Named(r, c, t')
    requires Nextness(r, c, t) == 50 && Nextness(r, c, t') == -50
    ensures Score(r, c, hits, t) > Score(r, c, hits', t')
  {
    var url, branch := r.lower(t.url), r.lower(t.branch.GetOr(""));
    var url', branch' := r.lower(t'.url), r.lower(t'.branch.GetOr(""));
    PrefixScoreBounds(c.prefixes, url, branch);
    PrefixScoreBounds(c.prefixes, url', branch');
    KeywordScoreBounds(KEYWORDS, c, url, branch);
    KeywordScoreBounds(KEYWORDS, c, url', branch');
  }

  /** The prefixes, by position, that the tree is the home of: its repository or its branch has the prefix's name. */
  function HomeOf(prefixes: seq<string>, url: string, branch: string): set<nat> {
    set i: nat | i < |prefixes| && (EndsWith(url, "/" + prefixes[i] + ".git") || branch == prefixes[i])
  }

  /** The keywords that the subject or the subsystem shares with the tree. */
  function Shared(c: Clues, url: string, branch: string): set<string> {
    set k | k in {"net", "bpf", "drm", "mm", "sched", "x86", "arm", "arm64", "scsi", "usb", "perf"}
            && (Contains(c.subject, k) || Contains(c.subsystem, k)) && (Contains(url, k) || Contains(branch, k))
  }

  lemma {:induction false} PrefixScoreCounts(prefixes: seq<string>, url: string, branch: string)
    ensures PrefixScore(prefixes, url, branch) == 50 * |HomeOf(prefixes, url, branch)|
    decreases |prefixes|
  {
    var home := HomeOf(prefixes, url, branch);
    if prefixes == [] {
      assert home == {};
    } else {
      PrefixScoreCounts(prefixes[1..], url, branch);
      var rest := HomeOf(prefixes[1..], url, branch);
      var moved := Up(rest);
      MovedUp(rest);
      assert home - {0} == moved by {
        forall i | i in home - {0} ensures i in moved { assert i - 1 in rest; }
      }
      if 0 in home { assert home == moved + {0}; } else { assert home == moved; }
    }
  }

  /** The numbers one higher. */
  function Up(ids: set<nat>): set<nat> {
    set i: nat | i in ids :: i + 1
  }

  lemma {:induction false} MovedUp(ids: set<nat>)
    ensures |Up(ids)| == |ids|
    decreases ids
  {
    if ids == {} {
      assert Up(ids) == {};
    } else {
      var x :| x in ids;
      MovedUp(ids - {x});
      forall y | y in Up(ids) ensures y in Up(ids - {x}) + {x + 1} {
        assert y - 1 in ids;
        assert y != x + 1 ==> y - 1 in ids - {x};
      }
      assert x + 1 in Up(ids);
      assert Up(ids) == Up(ids - {x}) + {x + 1};
    }
  }

  ghost predicate SharedWord(c: Clues, url: string, branch: string, k: string) {
    (Contains(c.subject, k) || Contains(c.subsystem, k)) && (Contains(url, k) || Contains(branch, k))
  }

  lemma {:induction false} KeywordScoreCounts(keywords: seq<string>, c: Clues, url: string, branch: string)
    requires forall i, j :: 0 <= i < j < |keywords| ==> keywords[i] != keywords[j]
    ensures KeywordScore(keywords, c, url, branch) == 10 * |set k | k in keywords && SharedWord(c, url, branch, k)|
    decreases |keywords|
  {
    var all := set k | k in keywords && SharedWord(c, url, branch, k);
    if keywords == [] {
      assert all == {};
    } else {
      KeywordScoreCounts(keywords[1..], c, url, branch);
      var rest := set k | k in keywords[1..] && SharedWord(c, url, branch, k);
      assert keywords[0] !in keywords[1..];
      if SharedWord(c, url, branch, keywords[0]) { assert all == rest + {keywords[0]}; } else { assert all == rest; }
    }
  }

  lemma KeywordsAre(k: string)
    ensures k in KEYWORDS <==>
              k in {"net", "bpf", "drm", "mm", "sched", "x86", "arm", "arm64", "scsi", "usb", "perf"}
  {
    assert KEYWORDS[0] == "net" && KEYWORDS[1] == "bpf" && KEYWORDS[2] == "drm" && KEYWORDS[3] == "mm";
    assert KEYWORDS[4] == "sched" && KEYWORDS[5] == "x86" && KEYWORDS[6] == "arm" && KEYWORDS[7] == "arm64";
    assert KEYWORDS[8] == "scsi" && KEYWORDS[9] == "usb" && KEYWORDS[10] == "perf";
  }

  /** No keyword is listed twice: they differ in length, or in their first or second letter. */
  lemma KeywordsDiffer(i: nat, j: nat)
    requires i < j < |KEYWORDS|
    ensures KEYWORDS[i] != KEYWORDS[j]
  {
    assert |KEYWORDS[i]| != |KEYWORDS[j]| || KEYWORDS[i][0] != KEYWORDS[j][0] || KEYWORDS[i][1] != KEYWORDS[j][1];
  }

  /**
   A tree's score: ten for each hit, fifty for each prefix it is the home of, a hundred if any prefix occurs in it,
   what its being a next tree or not is worth, and ten for each keyword it shares with the subject or the subsystem.
   */
  lemma ScoreAddsUp(r: Registry, c: Clues, hits: nat, t: Tree)
    ensures var url, branch := r.lower(t.url), r.lower(t.branch.GetOr(""));
            Score(r, c, hits, t) == 10 * hits + 50 * |HomeOf(c.prefixes, url, branch)|
                                    + (if Named(r, c, t) then 100 else 0) + Nextness(r, c, t)
                                    + 10 * |Shared(c, url, branch)|
  {
    var url, branch := r.lower(t.url), r.lower(t.branch.GetOr(""));
    PrefixScoreCounts(c.prefixes, url, branch);
    forall i, j | 0 <= i < j < |KEYWORDS| ensures KEYWORDS[i] != KEYWORDS[j] { KeywordsDiffer(i, j); }
    KeywordScoreCounts(KEYWORDS, c, url, branch);
    SharedAre(c, url, branch);
  }

  lemma SharedAre(c: Clues, url: string, branch: string)
    ensures Shared(c, url, branch) == set k | k in KEYWORDS && SharedWord(c, url, branch, k)
  {
    forall k ensures k in Shared(c, url, branch) <==> k in KEYWORDS && SharedWord(c, url, branch, k) { KeywordsAre(k); }
  }

  /** Branch and branch' of one URL fit the subject's words equally well: no prefix names either, keywords fit both. */
  ghost predicate SameWords(c: Clues, url: string, branch: string, branch': string) {
    && (forall p :: p in c.prefixes ==> !Contains(branch, p) && !Contains(branch', p))
    && (forall k :: k in KEYWORDS ==>
          (Contains(url, k) || Contains(branch, k) <==> Contains(url, k) || Contains(branch', k)))
  }

  lemma {:induction false} AlikePrefixScore(prefixes: seq<string>, url: string, branch: string, branch': string)
    requires forall p :: p in prefixes ==> !Contains(branch, p) && !Contains(branch', p)
    ensures PrefixScore(prefixes, url, branch) == PrefixScore(prefixes, url, branch')
    decreases |prefixes|
  {
    if prefixes != [] {
      var p := prefixes[0];
      assert p in prefixes;
      if branch == p { SuffixContained(branch, 0, p); }
      if branch' == p { SuffixContained(branch', 0, p); }
      AlikePrefixScore(prefixes[1..], url, branch, branch');
    }
  }

  lemma {:induction false} AlikeKeywordScore(keywords: seq<string>, c: Clues, url: string, branch: string,
                                             branch': string)
    requires forall k :: k in keywords ==>
               (Contains(url, k) || Contains(branch, k) <==> Contains(url, k) || Contains(branch', k))
    ensures KeywordScore(keywords, c, url, branch) == KeywordScore(keywords, c, url, branch')
    decreases |keywords|
  {
    if keywords != [] {
      assert keywords[0] in keywords;
      AlikeKeywordScore(keywords[1..], c, url, branch, branch');
    }
  }

  /**
   Between two branches of one URL that the subject's words do not tell apart, "next" in the subject decides, beside
   the hits: it speaks for the next branch, and without it for the other one. An mptcp tree has `export` for next
   and `export-net` for the rest, and where the URL itself says "next" the branches are equal.
   */
  lemma NextDecides(r: Registry, files: seq<string>, subject: string, counts: map<Tree, nat>, t: Tree, t': Tree)
    requires t in counts && t' in counts && t.url == t'.url
    requires SameWords(CluesOf(r, files, subject), r.lower(t.url), r.lower(t.branch.GetOr("")),
                       r.lower(t'.branch.GetOr("")))
    ensures var score := WeightsOf(r, counts, CluesOf(r, files, subject)).score;
            var (url, branch, branch') := (r.lower(t.url), r.lower(t.branch.GetOr("")), r.lower(t'.branch.GetOr("")));
            var ahead := score(t) - score(t') - 10 * (counts[t] as int - counts[t']);
            var wantsNext := Contains(r.lower(subject), "next");
            var decided := if wantsNext then 100 else -100;
            if Contains(url, "mptcp") then
              branch == "export" && branch' == "export-net" ==> ahead == decided
            else if Contains(url, "next") then
              ahead == 0
            else
              Contains(branch, "next") && !Contains(branch', "next") ==> ahead == decided
  {
    var c := CluesOf(r, files, subject);
    var url, branch, branch' := r.lower(t.url), r.lower(t.branch.GetOr("")), r.lower(t'.branch.GetOr(""));
    AlikePrefixScore(c.prefixes, url, branch, branch');
    AlikeKeywordScore(KEYWORDS, c, url, branch, branch');
  }

  // ---------------------------------------------------------------- what the ranking promises

  lemma ByCountTotal(w: Weights)
    ensures TotalPreorder(ByCount(w))
  {
    forall a, b ensures ByCount(w)(a, b) || ByCount(w)(b, a) { StrLeTotal(a.url, b.url); }
    forall a, b, c | ByCount(w)(a, b) && ByCount(w)(b, c) ensures ByCount(w)(a, c) {
      if w.count(a) == w.count(b) == w.count(c) { StrLeTrans(a.url, b.url, c.url); }
    }
  }

  lemma ByScoreTotal(w: Weights)
    ensures TotalPreorder(ByScore(w))
  {
  }

  /** The trees come out ordered by score, count and URL; among full ties in the order they went in. */
  lemma RankedOrdered(order: seq<Tree>, w: Weights, q: (Tree, Tree) -> bool)
    requires Ordered(q, order)
    ensures Ordered(Then(ByScore(w), Then(ByCount(w), q)), Ranked(order, w))
    ensures Ordered(Ranking(w), Ranked(order, w))
  {
    ByCountTotal(w);
    ByScoreTotal(w);
    SortOrdered(order, ByCount(w), q);
    SortOrdered(Sort(order, ByCount(w)), ByScore(w), Then(ByCount(w), q));
    forall i, j | 0 <= i < j < |Ranked(order, w)| ensures Ranking(w)(Ranked(order, w)[i], Ranked(order, w)[j]) {
      assert Then(ByScore(w), Then(ByCount(w), q))(Ranked(order, w)[i], Ranked(order, w)[j]);
    }
  }

  lemma RankedLists(order: seq<Tree>, w: Weights, trees: set<Tree>)
    requires Lists(order, trees)
    ensures Lists(Ranked(order, w), trees)
  {
    SortLists(order, ByCount(w), trees);
    SortLists(Sort(order, ByCount(w)), ByScore(w), trees);
  }

  /** Different trees resolve to different candidates, so the final deduplication removes nothing. */
  lemma ResolveAllDistinct(r: Registry, ts: seq<Tree>)
    requires Distinct(ts)
    ensures Distinct(ResolveAll(r, ts)) && Unique(ResolveAll(r, ts)) == ResolveAll(r, ts)
  {
  }

  /** The special case for trees of the memory-management subsystem. */
  predicate MmCase(r: Registry, files: seq<string>, subject: string, counts: map<Tree, nat>, order: seq<Tree>)
    requires order != []
  {
    IsMm(FirstSubsystem(r.entries, files), TopUrl(order, WeightsOf(r, counts, CluesOf(r, files, subject))))
  }

  function TopUrl(order: seq<Tree>, w: Weights): string
    requires order != []
  {
    assert |multiset(Sort(order, ByCount(w)))| == |multiset(order)|;
    Sort(order, ByCount(w))[0].url
  }

  ghost predicate Any(a: Tree, b: Tree) {
    true
  }

  /**
   Outside the memory-management case the result lists every tree of every matched entry exactly once, as a
   candidate with that URL and branch, ordered by score, then count, then URL.
   */
  lemma HeuristicRanksAllHits(r: Registry, files: seq<string>, subject: string, counts: map<Tree, nat>,
                              order: seq<Tree>)
    requires CountsHits(counts, Hits(r.entries, files)) && Lists(order, counts.Keys) && order != []
    requires !MmCase(r, files, subject, counts, order)
    ensures var w := WeightsOf(r, counts, CluesOf(r, files, subject));
            var ranked := Ranked(order, w);
            && Heuristic(r, files, subject, counts, order) == ResolveAll(r, ranked)
            && Lists(ranked, set t | t in Hits(r.entries, files))
            && Ordered(Ranking(w), ranked)
  {
    var w := WeightsOf(r, counts, CluesOf(r, files, subject));
    RankedLists(order, w, counts.Keys);
    ResolveAllDistinct(r, Ranked(order, w));
    RankedOrdered(order, w, (a, b) => Any(a, b));
  }

  // ---------------------------------------------------------------- which results depend on the hash order

  /** Two different trees that agree on score, count and URL: the same URL with different branches. */
  ghost predicate Tied(w: Weights, a: Tree, b: Tree) {
    a != b && w.score(a) == w.score(b) && w.count(a) == w.count(b) && a.url == b.url
  }

  ghost predicate NoTies(w: Weights, trees: set<Tree>) {
    forall a, b :: a in trees && b in trees ==> !Tied(w, a, b)
  }

  ghost predicate OrderIndependent(w: Weights, trees: set<Tree>) {
    forall o, o' :: Lists(o, trees) && Lists(o', trees) ==> Ranked(o, w) == Ranked(o', w)
  }

  lemma NoTiesMeansStrict(w: Weights, trees: set<Tree>)
    requires NoTies(w, trees)
    ensures Strict(Ranking(w), trees)
  {
    forall a, b | a in trees && b in trees && Ranking(w)(a, b) && Ranking(w)(b, a) ensures a == b {
      StrLeTotal(a.url, b.url);
      assert !Tied(w, a, b);
    }
  }

  lemma SetListing(trees: set<Tree>) returns (s: seq<Tree>)
    ensures Lists(s, trees)
  {
    if trees == {} { s := []; } else {
      var t :| t in trees;
      s := SetListing(trees - {t});
      assert t !in s;
      s := [t] + s;
    }
  }

  lemma ListedFirst(w: Weights, trees: set<Tree>, rest: seq<Tree>, a: Tree, b: Tree)
    requires a in trees && b in trees && a != b && Lists(rest, trees - {a, b})
    ensures Lists([a, b] + rest, trees)
  {
    var o := [a, b] + rest;
    forall i, j | 0 <= i < j < |o| ensures o[i] != o[j] {
      if j >= 2 { assert o[j] in rest; }
      if i >= 2 { assert o[i] == rest[i - 2] && o[j] == rest[j - 2]; }
    }
  }

  lemma TieFirst(w: Weights, trees: set<Tree>, rest: seq<Tree>, a: Tree, b: Tree)
    requires a in trees && b in trees && Tied(w, a, b) && Lists(rest, trees - {a, b})
    ensures Lists([a, b] + rest, trees) && ComesBefore(Ranked([a, b] + rest, w), a, b)
  {
    ListedFirst(w, trees, rest, a, b);
    TieKeepsInputOrder(w, trees, [a, b] + rest, 0, 1);
  }

  lemma TiesShow(w: Weights, trees: set<Tree>, a: Tree, b: Tree)
    requires a in trees && b in trees && Tied(w, a, b)
    ensures !OrderIndependent(w, trees)
  {
    var rest := SetListing(trees - {a, b});
    var o, o' := [a, b] + rest, [b, a] + rest;
    TieFirst(w, trees, rest, a, b);
    assert {a, b} == {b, a};
    TieFirst(w, trees, rest, b, a);
    RankedLists(o, w, trees);
    NotBothWays(Ranked(o, w), a, b);
    OrdersDiffer(w, trees, o, o');
  }

  lemma OrdersDiffer(w: Weights, trees: set<Tree>, o: seq<Tree>, o': seq<Tree>)
    requires Lists(o, trees) && Lists(o', trees) && Ranked(o, w) != Ranked(o', w)
    ensures !OrderIndependent(w, trees)
  {
  }

  /** Of two tied trees the one listed first in the hash map's order comes out first, wherever they are. */
  lemma TieKeepsInputOrder(w: Weights, trees: set<Tree>, o: seq<Tree>, i: nat, j: nat)
    requires Lists(o, trees) && i < j < |o| && Tied(w, o[i], o[j])
    ensures ComesBefore(Ranked(o, w), o[i], o[j])
  {
    var a, b := o[i], o[j];
    var q := (x: Tree, y: Tree) => !(x == b && y == a);
    assert Ordered(q, o);
    RankedOrdered(o, w, q);
    RankedLists(o, w, trees);
    assert a in o && b in o;
    var le := Then(ByScore(w), Then(ByCount(w), q));
    assert !le(b, a) by { StrLeTotal(a.url, b.url); }
    OrderDecides(Ranked(o, w), le, a, b);
  }

  /** The ranking is independent of the hash map's order exactly when no two branches of one URL tie. */
  lemma OrderIndependentIffNoTies(w: Weights, trees: set<Tree>)
    ensures OrderIndependent(w, trees) <==> NoTies(w, trees)
  {
    if NoTies(w, trees) {
      NoTiesMeansStrict(w, trees);
      forall o, o' | Lists(o, trees) && Lists(o', trees) ensures Ranked(o, w) == Ranked(o', w) {
        RankedLists(o, w, trees);
        RankedLists(o', w, trees);
        RankedOrdered(o, w, (a, b) => Any(a, b));
        RankedOrdered(o', w, (a, b) => Any(a, b));
        OneListing(Ranked(o, w), Ranked(o', w), Ranking(w), trees);
      }
    } else {
      var a, b :| a in trees && b in trees && Tied(w, a, b);
      TiesShow(w, trees, a, b);
    }
  }

  /** The URL at the top of the first sort does not depend on the hash map's order. */
  lemma TopUrlIndependent(w: Weights, trees: set<Tree>, o: seq<Tree>, o': seq<Tree>)
    requires Lists(o, trees) && Lists(o', trees) && o != [] && o' != []
    ensures TopUrl(o, w) == TopUrl(o', w)
  {
    var s, s' := Sort(o, ByCount(w)), Sort(o', ByCount(w));
    assert |multiset(s)| == |multiset(o)| && |multiset(s')| == |multiset(o')|;
    SortLists(o, ByCount(w), trees);
    SortLists(o', ByCount(w), trees);
    ByCountTotal(w);
    SortOrdered(o, ByCount(w), (a, b) => Any(a, b));
    SortOrdered(o', ByCount(w), (a, b) => Any(a, b));
    assert s[0] in s && s[0] in s' && s'[0] in s' && s'[0] in s;
    var k :| 0 <= k < |s'| && s'[k] == s[0];
    var l :| 0 <= l < |s| && s[l] == s'[0];
    HeadFirst(s', Then(ByCount(w), (a, b) => Any(a, b)), k);
    HeadFirst(s, Then(ByCount(w), (a, b) => Any(a, b)), l);
    StrLeTotal(s[0].url, s'[0].url);
  }

  /** The candidates are the same for every order the hash map may be iterated in. */
  ghost predicate SameForAllOrders(r: Registry, files: seq<string>, subject: string, counts: map<Tree, nat>) {
    forall o, o' :: Lists(o, counts.Keys) && Lists(o', counts.Keys) ==>
      Heuristic(r, files, subject, counts, o) == Heuristic(r, files, subject, counts, o')
  }

  /** The memory-management result never depends on the hash map's order. */
  lemma MmIndependent(r: Registry, files: seq<string>, subject: string, counts: map<Tree, nat>, o: seq<Tree>)
    requires Lists(o, counts.Keys) && o != [] && MmCase(r, files, subject, counts, o)
    ensures SameForAllOrders(r, files, subject, counts)
  {
    var w := WeightsOf(r, counts, CluesOf(r, files, subject));
    assert o[0] in o;
    forall o1, o2 | Lists(o1, counts.Keys) && Lists(o2, counts.Keys)
      ensures Heuristic(r, files, subject, counts, o1) == Heuristic(r, files, subject, counts, o2)
    {
      assert o[0] in o1 && o[0] in o2;
      TopUrlIndependent(w, counts.Keys, o, o1);
      TopUrlIndependent(w, counts.Keys, o, o2);
    }
  }

  lemma ResolveAllInjective(r: Registry, ts: seq<Tree>, ts': seq<Tree>)
    requires ResolveAll(r, ts) == ResolveAll(r, ts')
    ensures ts == ts'
  {
    assert |ts| == |ts'|;
    forall i | 0 <= i < |ts| ensures ts[i] == ts'[i] {
      assert ResolveAll(r, ts)[i] == ResolveAll(r, ts')[i];
    }
  }

  /**
   Outside the memory-management case the result is independent of the hash map's order exactly when no two
   branches of one URL agree on count and score.
   */
  lemma HeuristicIndependentIffNoTies(r: Registry, files: seq<string>, subject: string, counts: map<Tree, nat>,
                                      o: seq<Tree>)
    requires Lists(o, counts.Keys) && o != [] && !MmCase(r, files, subject, counts, o)
    ensures SameForAllOrders(r, files, subject, counts) <==>
            NoTies(WeightsOf(r, counts, CluesOf(r, files, subject)), counts.Keys)
  {
    var w := WeightsOf(r, counts, CluesOf(r, files, subject));
    assert o[0] in o;
    OrderIndependentIffNoTies(w, counts.Keys);
    forall o1 | Lists(o1, counts.Keys)
      ensures o1 != [] && Heuristic(r, files, subject, counts, o1) == ResolveAll(r, Ranked(o1, w))
    {
      assert o[0] in o1;
      TopUrlIndependent(w, counts.Keys, o, o1);
      RankedLists(o1, w, counts.Keys);
      ResolveAllDistinct(r, Ranked(o1, w));
    }
    if SameForAllOrders(r, files, subject, counts) {
      forall o1, o2 | Lists(o1, counts.Keys) && Lists(o2, counts.Keys) ensures Ranked(o1, w) == Ranked(o2, w) {
        ResolveAllInjective(r, Ranked(o1, w), Ranked(o2, w));
      }
    }
  }

  lemma OneLetterContains(b: string, t: string)
    requires |b| == 1 && |t| > 1
    ensures !Contains(b, t)
  {
  }

  lemma SameKeywordScore(keywords: seq<string>, c: Clues, url: string, a: string, b: string)
    requires |a| == 1 && |b| == 1 && forall k :: k in keywords ==> |k| > 1
    ensures KeywordScore(keywords, c, url, a) == KeywordScore(keywords, c, url, b)
  {
    forall k | k in keywords ensures !Contains(a, k) && !Contains(b, k) {
      OneLetterContains(a, k);
      OneLetterContains(b, k);
    }
    AlikeKeywordScore(keywords, c, url, a, b);
  }

  /** The text readers agree with what Unicode and the regular expressions say of these texts. */
  predicate ReadsPlainly(r: Registry) {
    r.lower("a") == "a" && r.lower("b") == "b" && r.lower("u") == "u" && r.prefixes("fix") == []
  }

  /** One entry with one file and two branches of one URL. */
  function TwoBranches(r: Registry): Registry {
    r.(entries := [MaintainersEntry("X", [Tree("u", Some("a")), Tree("u", Some("b"))], ["f"])])
  }

  lemma LongKeywords()
    ensures forall k :: k in KEYWORDS ==> |k| > 1
  {
  }

  lemma SameNextScore(isNext: bool, url: string)
    ensures NextScore(isNext, url, "a") == NextScore(isNext, url, "b")
  {
    assert |"a"| != |"export"| && |"b"| != |"export"| && |"a"| != |"export-net"| && |"b"| != |"export-net"|;
    OneLetterContains("a", "next");
    OneLetterContains("b", "next");
  }

  lemma SameScore(r: Registry, c: Clues, count: nat)
    requires ReadsPlainly(r) && c.prefixes == []
    ensures Score(r, c, count, Tree("u", Some("a"))) == Score(r, c, count, Tree("u", Some("b")))
  {
    LongKeywords();
    SameNextScore(c.isNext, "u");
    SameKeywordScore(KEYWORDS, c, "u", "a", "b");
  }

  lemma BranchesTied(r: Registry, counts: map<Tree, nat>, c: Clues)
    requires ReadsPlainly(r) && c.prefixes == []
    requires counts == map[Tree("u", Some("a")) := 1, Tree("u", Some("b")) := 1]
    ensures !NoTies(WeightsOf(r, counts, c), counts.Keys)
  {
    var a, b := Tree("u", Some("a")), Tree("u", Some("b"));
    assert "a"[0] != "b"[0];
    SameScore(r, c, 1);
    assert Tied(WeightsOf(r, counts, c), a, b);
  }

  lemma BranchesCounted(r: Registry)
    ensures CountsHits(map[Tree("u", Some("a")) := 1, Tree("u", Some("b")) := 1], Hits(TwoBranches(r).entries, ["f"]))
  {
    assert "a"[0] != "b"[0];
    OneFileHits(TwoBranches(r).entries[0], "f");
  }

  /** Two branches of one URL, each named once for the one file touched: their order is the hash map's. */
  lemma TwoBranchesTie(r: Registry)
    requires ReadsPlainly(r)
    ensures var counts := map[Tree("u", Some("a")) := 1, Tree("u", Some("b")) := 1];
            && CountsHits(counts, Hits(TwoBranches(r).entries, ["f"]))
            && !SameForAllOrders(TwoBranches(r), ["f"], "fix", counts)
  {
    var r', counts := TwoBranches(r), map[Tree("u", Some("a")) := 1, Tree("u", Some("b")) := 1];
    BranchesCounted(r);
    BranchesTied(r', counts, CluesOf(r', ["f"], "fix"));
    var o := SetListing(counts.Keys);
    assert Tree("u", Some("a")) in o;
    NotMm(r', counts, o);
    HeuristicIndependentIffNoTies(r', ["f"], "fix", counts, o);
  }

  lemma OneFileHits(e: MaintainersEntry, file: string)
    requires e.patterns == [file]
    ensures EntryMatches(e, file) && Hits([e], [file]) == e.trees
    ensures forall t :: multiset(e.trees)[t] == multiset(Hits([e], [file]))[t]
  {
    assert file in e.patterns;
    assert [e][..0] == [] && [file][..0] == [] && [] + e.trees == e.trees;
    assert HitsOfFile([e], file) == e.trees;
  }

  lemma NotMm(r: Registry, counts: map<Tree, nat>, o: seq<Tree>)
    requires o != [] && forall t :: t in o ==> t.url == "u"
    requires |r.entries| == 1 && r.entries[0].subsystem == "X"
    ensures !MmCase(r, ["f"], "fix", counts, o)
  {
    var w := WeightsOf(r, counts, CluesOf(r, ["f"], "fix"));
    var sorted := Sort(o, ByCount(w));
    assert |multiset(sorted)| == |multiset(o)|;
    assert sorted[0] in multiset(sorted) && sorted[0] in o;
    assert TopUrl(o, w) == "u";
    assert r.entries == [r.entries[0]];
    FirstOfOne(r.entries[0], "f");
    NotMmNames(FirstSubsystem(r.entries, ["f"]));
  }

  lemma NotMmNames(subsystem: Option<string>)
    requires subsystem.Some? ==> subsystem.value == "X"
    ensures !IsMm(subsystem, "u")
  {
    OneLetterContains("u", "akpm/mm");
    OneLetterContains("u", "linux-mm");
    assert !Contains("u", "akpm/mm") && !Contains("u", "linux-mm");
    var x, mm := "X", "MEMORY MANAGEMENT";
    assert |AsciiLower(x)| == |x| == 1 && |AsciiLower(mm)| == |mm| == 17;
    assert AsciiLower(x) != AsciiLower(mm);
    assert subsystem.Some? ==> AsciiLower(subsystem.value) == AsciiLower(x);
  }

  lemma FirstOfOne(e: MaintainersEntry, file: string)
    ensures FirstSubsystem([e], [file]) == if EntryMatches(e, file) then Some(e.subsystem) else None
  {
    assert [e][1..] == [] && FirstOfFile([], file) == None;
    assert FirstOfFile([e], file) == if EntryMatches(e, file) then Some(e.subsystem) else None;
    assert [file][1..] == [] && FirstSubsystem([e], []) == None;
  }

  /** When the matched URLs are distinct the result is the same for every order of the hash map, in either case. */
  lemma DistinctUrlsIndependent(r: Registry, files: seq<string>, subject: string, counts: map<Tree, nat>)
    requires forall a, b :: a in counts && b in counts && a.url == b.url ==> a == b
    ensures SameForAllOrders(r, files, subject, counts)
  {
    var o := SetListing(counts.Keys);
    if o == [] {
      assert counts.Keys == {} by { assert forall t :: t in counts.Keys <==> t in o; }
      assert forall o' :: Lists(o', counts.Keys) && |o'| > 0 ==> o'[0] in o';
    } else if MmCase(r, files, subject, counts, o) {
      MmIndependent(r, files, subject, counts, o);
    } else {
      HeuristicIndependentIffNoTies(r, files, subject, counts, o);
    }
  }

  // ---------------------------------------------------------------- who the candidates are

  /** Every candidate is a counted tree under the name of its remote, or a suggested one, and every such tree is one. */
  lemma CandidatesAreHits(r: Registry, files: seq<string>, subject: string, counts: map<Tree, nat>, order: seq<Tree>)
    requires CountsHits(counts, Hits(r.entries, files)) && Lists(order, counts.Keys) && order != []
    requires !MmCase(r, files, subject, counts, order)
    ensures var found := Heuristic(r, files, subject, counts, order);
            && (forall c :: c in found ==>
                  && Tree(c.url, c.branch) in Hits(r.entries, files)
                  && c.name == if c.url in r.remotes then r.remotes[c.url] else r.suggest(c.url))
            && (forall t :: t in Hits(r.entries, files) ==>
                  exists c :: c in found && c.url == t.url && c.branch == t.branch)
  {
    HeuristicRanksAllHits(r, files, subject, counts, order);
    var ranked := Ranked(order, WeightsOf(r, counts, CluesOf(r, files, subject)));
    var found := Heuristic(r, files, subject, counts, order);
    assert found == ResolveAll(r, ranked);
    forall t | t in Hits(r.entries, files) ensures exists c :: c in found && c.url == t.url && c.branch == t.branch {
      assert t in ranked;
      var k :| 0 <= k < |ranked| && ranked[k] == t;
      assert found[k] in found && found[k].url == t.url && found[k].branch == t.branch;
    }
    forall c | c in found
      ensures Tree(c.url, c.branch) in Hits(r.entries, files)
              && c.name == if c.url in r.remotes then r.remotes[c.url] else r.suggest(c.url)
    {
      var k :| 0 <= k < |found| && found[k] == c;
      assert ranked[k] in ranked && Tree(c.url, c.branch) == ranked[k];
    }
  }

  /** A patch for memory management gets the three branches of the tree on top, the newest first, and no other tree. */
  lemma MemoryManagement(r: Registry, files: seq<string>, subject: string, counts: map<Tree, nat>, order: seq<Tree>)
    requires order != []
    requires var top := TopUrl(order, WeightsOf(r, counts, CluesOf(r, files, subject)));
             var subsystem := FirstSubsystem(r.entries, files);
             || Contains(top, "akpm/mm") || Contains(top, "linux-mm")
             || (subsystem.Some? && AsciiLower(subsystem.value) == "memory management")
    ensures var top := TopUrl(order, WeightsOf(r, counts, CluesOf(r, files, subject)));
            var found := Heuristic(r, files, subject, counts, order);
            && |found| == 3 && found[0].branch == Some("mm-new") && found[1].branch == Some("mm-unstable")
            && found[2].branch == Some("mm-stable") && forall c :: c in found ==> c.url == top
  {
    LowerOfMm();
    assert IsMm(FirstSubsystem(r.entries, files), TopUrl(order, WeightsOf(r, counts, CluesOf(r, files, subject))));
  }

  lemma LowerOfMm()
    ensures AsciiLower("MEMORY MANAGEMENT") == "memory management"
  {
  }

  // ---------------------------------------------------------------- prefixes of the subject

  function JoinDash(parts: seq<string>): string
    requires parts != []
  {
    if |parts| == 1 then parts[0] else parts[0] + "-" + JoinDash(parts[1..])
  }

  /** The pieces between the dashes, joined again, are the text, and have no dash left. */
  lemma {:induction false} SplitDashJoins(s: string)
    ensures JoinDash(SplitDash(s)) == s
    ensures forall p :: p in SplitDash(s) ==> '-' !in p
    decreases |s|
  {
    if s != "" {
      SplitDashJoins(s[1..]);
      var rest := SplitDash(s[1..]);
      assert s == [s[0]] + s[1..];
      if s[0] == '-' {
        assert ([""] + rest)[1..] == rest;
      } else {
        assert ([[s[0]] + rest[0]] + rest[1..])[1..] == rest[1..];
        forall p | p in SplitDash(s) ensures '-' !in p { assert p == [s[0]] + rest[0] || p in rest[1..]; }
      }
    }
  }

  /** The words a prefix stands for: itself in lower case, and the pieces between its dashes but "next" and "net". */
  ghost predicate StandsFor(r: Registry, prefix: string, word: string) {
    var p := r.lower(prefix);
    word == p || ('-' in p && word in SplitDash(p) && word != "next" && word != "net")
  }

  lemma {:induction false} SubWordsAre(parts: seq<string>, word: string)
    ensures word in SubWords(parts) <==> word in parts && word != "next" && word != "net"
    decreases |parts|
  {
    if parts != [] {
      SubWordsAre(parts[1..], word);
      assert word in parts <==> word == parts[0] || word in parts[1..];
    }
  }

  lemma DashContained(p: string)
    ensures Contains(p, "-") <==> '-' in p
  {
    if '-' in p {
      var k :| 0 <= k < |p| && p[k] == '-';
      assert p[k..k + 1] == "-" && OccursAt("-", p, k);
    }
    if i :| 0 <= i <= |p| && OccursAt("-", p, i) { assert p[i] == '-'; }
  }

  lemma {:induction false} PrefixWords(r: Registry, prefixes: seq<string>, word: string)
    ensures word in BasePrefixes(r, prefixes) <==> exists p :: p in prefixes && StandsFor(r, p, word)
    decreases |prefixes|
  {
    if prefixes != [] {
      PrefixWords(r, prefixes[1..], word);
      var p := r.lower(prefixes[0]);
      DashContained(p);
      SubWordsAre(SplitDash(p), word);
      assert prefixes[0] in prefixes;
      if q :| q in prefixes && StandsFor(r, q, word) { assert q == prefixes[0] || q in prefixes[1..]; }
      if q :| q in prefixes[1..] && StandsFor(r, q, word) { assert q in prefixes; }
    }
  }
}

/** Splitting an mbox archive into its messages. */
module Mbox {

  type Bytes = seq<bv8>

  const NEWLINE: bv8 := 10
  const COLON: bv8 := 58
  const FROM: Bytes := [70, 114, 111, 109, 32]

  function Concat(parts: seq<Bytes>): Bytes {
    if parts == [] then [] else parts[0] + Concat(parts[1..])
  }

  lemma ConcatCons(x: Bytes, rest: seq<Bytes>)
    ensures Concat([x] + rest) == x + Concat(rest)
  {
    assert ([x] + rest)[1..] == rest;
  }

  lemma ConcatAppend(a: seq<Bytes>, b: seq<Bytes>)
    ensures Concat(a + b) == Concat(a) + Concat(b)
  {
    if a == [] {
      assert a + b == b;
    } else {
      ConcatAppend(a[1..], b);
      assert (a + b)[1..] == a[1..] + b;
    }
  }

  // ---------------------------------------------------------------- lines

  /** The length of the first line, its newline included. */
  function FirstLine(raw: Bytes): (n: nat)
    requires raw != []
    ensures 0 < n <= |raw|
    ensures forall i :: 0 <= i < n - 1 ==> raw[i] != NEWLINE
    ensures n < |raw| ==> raw[n - 1] == NEWLINE
  {
    if raw[0] == NEWLINE || |raw| == 1 then 1 else 1 + FirstLine(raw[1..])
  }

  /** What `split_inclusive` yields. */
  function Lines(raw: Bytes): seq<Bytes> {
    if raw == [] then [] else
      var n := FirstLine(raw);
      [raw[..n]] + Lines(raw[n..])
  }

  predicate IsLine(l: Bytes) {
    l != [] && forall i :: 0 <= i < |l| - 1 ==> l[i] != NEWLINE
  }

  predicate Terminated(b: Bytes) {
    b != [] && b[|b| - 1] == NEWLINE
  }

  /** Lines, all of them newline-terminated but perhaps the last. */
  ghost predicate LineList(ls: seq<Bytes>) {
    forall i :: 0 <= i < |ls| ==> IsLine(ls[i]) && (i < |ls| - 1 ==> Terminated(ls[i]))
  }

  lemma {:induction false} LinesConcat(raw: Bytes)
    ensures Concat(Lines(raw)) == raw
    decreases |raw|
  {
    if raw != [] {
      var n := FirstLine(raw);
      LinesConcat(raw[n..]);
      ConcatCons(raw[..n], Lines(raw[n..]));
      TakeDrop(raw, n);
    }
  }

  lemma TakeDrop(raw: Bytes, n: nat)
    requires n <= |raw|
    ensures raw[..n] + raw[n..] == raw
  {
  }

  lemma {:induction false} LinesPartition(raw: Bytes)
    ensures LineList(Lines(raw))
    ensures raw != [] ==> Lines(raw) != [] && (Terminated(raw) <==> Terminated(Lines(raw)[|Lines(raw)| - 1]))
    decreases |raw|
  {
    if raw != [] {
      var n := FirstLine(raw);
      var ls, rest := Lines(raw), Lines(raw[n..]);
      LinesPartition(raw[n..]);
      assert ls == [raw[..n]] + rest;
      forall i | 0 <= i < |ls| ensures IsLine(ls[i]) && (i < |ls| - 1 ==> Terminated(ls[i])) {
        if i > 0 { assert ls[i] == rest[i - 1]; }
      }
      if n < |raw| {
        assert ls[|ls| - 1] == rest[|rest| - 1];
        assert raw[n..][|raw| - n - 1] == raw[|raw| - 1];
      } else {
        assert raw[..n] == raw && rest == [];
      }
    }
  }

  lemma {:induction false} FirstLineOf(l: Bytes, rest: Bytes)
    requires IsLine(l) && (rest == [] || Terminated(l))
    ensures FirstLine(l + rest) == |l|
    decreases |l|
  {
    if |l| > 1 {
      assert (l + rest)[0] == l[0] && (l + rest)[1..] == l[1..] + rest;
      FirstLineOf(l[1..], rest);
    }
  }

  lemma {:induction false} LinesOfConcat(ls: seq<Bytes>)
    requires LineList(ls)
    ensures Lines(Concat(ls)) == ls
    decreases |ls|
  {
    if ls != [] {
      var rest := Concat(ls[1..]);
      LinesOfConcat(ls[1..]);
      assert |ls| == 1 ==> ls[1..] == [];
      FirstLineOf(ls[0], rest);
      assert (ls[0] + rest)[..|ls[0]|] == ls[0] && (ls[0] + rest)[|ls[0]|..] == rest;
    }
  }

  // ---------------------------------------------------------------- splitting

  function Colons(l: Bytes): nat {
    if l == [] then 0 else (if l[0] == COLON then 1 else 0) + Colons(l[1..])
  }

  /** A From_ line with at least the two colons of a time of day. */
  predicate IsMboxSeparator(l: Bytes) {
    FROM <= l && Colons(l) >= 2
  }

  function Flush(current: Bytes): seq<Bytes> {
    if current == [] then [] else [current]
  }

  /** The messages in the given lines, the first one continuing `current`. */
  function SplitLines(ls: seq<Bytes>, current: Bytes): seq<Bytes> {
    if ls == [] then Flush(current)
    else if IsMboxSeparator(ls[0]) then Flush(current) + SplitLines(ls[1..], [])
    else SplitLines(ls[1..], current + ls[0])
  }

  method SplitMbox(raw: Bytes) returns (emails: seq<Bytes>)
    ensures emails == SplitLines(Lines(raw), [])
  {
    emails := [];
    var current: Bytes := [];
    var lines := Lines(raw);
    assert lines[0..] == lines;
    for i := 0 to |lines|
      invariant emails + SplitLines(lines[i..], current) == SplitLines(lines, [])
    {
      assert lines[i..][1..] == lines[i + 1..] && lines[i..][0] == lines[i];
      if IsMboxSeparator(lines[i]) {
        ghost var rest := SplitLines(lines[i + 1..], []);
        assert emails + (Flush(current) + rest) == (emails + Flush(current)) + rest;
        if current != [] {
          emails := emails + [current];
          current := [];
        } else {
          assert emails + [] == emails;
        }
      } else {
        current := current + lines[i];
      }
    }
    if current != [] { emails := emails + [current]; }
  }

  // ---------------------------------------------------------------- nothing but separators is dropped

  function WithoutSeparators(ls: seq<Bytes>): seq<Bytes> {
    if ls == [] then []
    else (if IsMboxSeparator(ls[0]) then [] else [ls[0]]) + WithoutSeparators(ls[1..])
  }

  lemma FlushConcat(current: Bytes)
    ensures Concat(Flush(current)) == current
  {
    if current != [] { assert [current][1..] == [] && current + [] == current; }
  }

  lemma {:induction false} SplitLinesConcat(ls: seq<Bytes>, current: Bytes)
    ensures Concat(SplitLines(ls, current)) == current + Concat(WithoutSeparators(ls))
    decreases |ls|
  {
    if ls == [] {
      FlushConcat(current);
      assert current + Concat([]) == current;
    } else if IsMboxSeparator(ls[0]) {
      SplitLinesConcat(ls[1..], []);
      ConcatAppend(Flush(current), SplitLines(ls[1..], []));
      FlushConcat(current);
      assert WithoutSeparators(ls) == WithoutSeparators(ls[1..]);
    } else {
      SplitLinesConcat(ls[1..], current + ls[0]);
      ConcatAppend([ls[0]], WithoutSeparators(ls[1..]));
      FlushConcat(ls[0]);
      var later := Concat(WithoutSeparators(ls[1..]));
      assert current + ls[0] + later == current + (ls[0] + later);
    }
  }

  lemma {:induction false} PiecesNotEmpty(ls: seq<Bytes>, current: Bytes)
    ensures forall i :: 0 <= i < |SplitLines(ls, current)| ==> SplitLines(ls, current)[i] != []
    decreases |ls|
  {
    if ls != [] {
      if IsMboxSeparator(ls[0]) { PiecesNotEmpty(ls[1..], []); } else { PiecesNotEmpty(ls[1..], current + ls[0]); }
    }
  }

  /**
   For every input the messages, put together, are the input with its separator lines deleted, and none of them
   is empty.
   */
  lemma SplitDropsOnlySeparators(raw: Bytes)
    ensures var pieces := SplitLines(Lines(raw), []);
            && Concat(pieces) == Concat(WithoutSeparators(Lines(raw)))
            && forall i :: 0 <= i < |pieces| ==> pieces[i] != []
  {
    SplitLinesConcat(Lines(raw), []);
    PiecesNotEmpty(Lines(raw), []);
  }

  // ---------------------------------------------------------------- writing and splitting undo each other

  /** A message as an mbox holds it: non-empty, without a line that looks like a separator. */
  ghost predicate IsMessage(body: Bytes) {
    body != [] && forall i :: 0 <= i < |Lines(body)| ==> !IsMboxSeparator(Lines(body)[i])
  }

  /** Messages that can be written one after the other: all newline-terminated but perhaps the last. */
  ghost predicate Writable(bodies: seq<Bytes>) {
    forall i :: 0 <= i < |bodies| ==> IsMessage(bodies[i]) && (i < |bodies| - 1 ==> Terminated(bodies[i]))
  }

  ghost predicate IsSeparatorLine(l: Bytes) {
    IsLine(l) && Terminated(l) && IsMboxSeparator(l)
  }

  /** An mbox with the given messages, each after a separator line. */
  function Write(separators: seq<Bytes>, bodies: seq<Bytes>): Bytes
    requires |separators| == |bodies|
  {
    if bodies == [] then [] else separators[0] + bodies[0] + Write(separators[1..], bodies[1..])
  }

  lemma LinesAppend(a: Bytes, b: Bytes)
    requires a == [] || Terminated(a) || b == []
    ensures Lines(a + b) == Lines(a) + Lines(b)
  {
    LinesConcat(a);
    LinesConcat(b);
    LinesPartition(a);
    LinesPartition(b);
    var ls := Lines(a) + Lines(b);
    forall i | 0 <= i < |ls| ensures IsLine(ls[i]) && (i < |ls| - 1 ==> Terminated(ls[i])) {
      if i >= |Lines(a)| { assert ls[i] == Lines(b)[i - |Lines(a)|]; }
    }
    ConcatAppend(Lines(a), Lines(b));
    LinesOfConcat(ls);
  }

  lemma {:induction false} SkipMessage(ls: seq<Bytes>, rest: seq<Bytes>, current: Bytes)
    requires forall i :: 0 <= i < |ls| ==> !IsMboxSeparator(ls[i])
    ensures SplitLines(ls + rest, current) == SplitLines(rest, current + Concat(ls))
    decreases |ls|
  {
    if ls == [] {
      assert ls + rest == rest && current + Concat(ls) == current;
    } else {
      assert (ls + rest)[1..] == ls[1..] + rest;
      SkipMessage(ls[1..], rest, current + ls[0]);
      assert current + ls[0] + Concat(ls[1..]) == current + Concat(ls);
    }
  }

  lemma WritableTail(bodies: seq<Bytes>)
    requires Writable(bodies) && bodies != []
    ensures Writable(bodies[1..])
  {
    forall i | 0 <= i < |bodies[1..]|
      ensures IsMessage(bodies[1..][i]) && (i < |bodies[1..]| - 1 ==> Terminated(bodies[1..][i]))
    {
      assert bodies[1..][i] == bodies[i + 1];
    }
  }

  lemma SeparatorLines(separator: Bytes, rest: Bytes)
    requires IsSeparatorLine(separator)
    ensures Lines(separator + rest) == [separator] + Lines(rest)
  {
    LinesAppend(separator, rest);
    FlushConcat(separator);
    LinesOfConcat([separator]);
  }

  /** One separator line and one message, followed by what comes after it. */
  lemma SplitOne(separator: Bytes, body: Bytes, rest: Bytes, current: Bytes)
    requires IsSeparatorLine(separator) && IsMessage(body) && (Terminated(body) || rest == [])
    ensures SplitLines(Lines(separator + body + rest), current) == Flush(current) + SplitLines(Lines(rest), body)
  {
    assert separator + body + rest == separator + (body + rest);
    SeparatorLines(separator, body + rest);
    LinesAppend(body, rest);
    var ls := [separator] + (Lines(body) + Lines(rest));
    assert ls[1..] == Lines(body) + Lines(rest);
    SkipMessage(Lines(body), Lines(rest), []);
    LinesConcat(body);
    assert [] + Concat(Lines(body)) == body;
  }

  lemma {:induction false} SplitWritten(separators: seq<Bytes>, bodies: seq<Bytes>, current: Bytes)
    requires |separators| == |bodies| && Writable(bodies)
    requires forall i :: 0 <= i < |separators| ==> IsSeparatorLine(separators[i])
    ensures SplitLines(Lines(Write(separators, bodies)), current) == Flush(current) + bodies
    decreases |bodies|
  {
    if bodies == [] {
      assert Flush(current) + bodies == Flush(current);
    } else {
      var rest := Write(separators[1..], bodies[1..]);
      SplitOne(separators[0], bodies[0], rest, current);
      WritableTail(bodies);
      SplitWritten(separators[1..], bodies[1..], bodies[0]);
      assert Flush(bodies[0]) + bodies[1..] == bodies;
    }
  }

  /** Splitting what was written gives the messages back. */
  lemma SplitUndoesWrite(separators: seq<Bytes>, bodies: seq<Bytes>)
    requires |separators| == |bodies| && Writable(bodies)
    requires forall i :: 0 <= i < |separators| ==> IsSeparatorLine(separators[i])
    ensures SplitLines(Lines(Write(separators, bodies)), []) == bodies
  {
    SplitWritten(separators, bodies, []);
    assert Flush([]) + bodies == bodies;
  }

  // ---------------------------------------------------------------- every split can be written back

  /** Lines of one message gathered so far: no separator among them. */
  ghost predicate Plain(ls: seq<Bytes>) {
    LineList(ls) && forall i :: 0 <= i < |ls| ==> !IsMboxSeparator(ls[i])
  }

  lemma PlainIsMessage(ls: seq<Bytes>)
    requires Plain(ls) && ls != []
    ensures IsMessage(Concat(ls)) && (Terminated(Concat(ls)) <==> Terminated(ls[|ls| - 1]))
  {
    LinesOfConcat(ls);
    assert Concat(ls) != [] by { assert ls[0] != []; }
    LinesPartition(Concat(ls));
  }

  lemma {:induction false} SplitLinesWritable(ls: seq<Bytes>, gathered: seq<Bytes>)
    requires LineList(gathered + ls) && Plain(gathered)
    ensures Writable(SplitLines(ls, Concat(gathered)))
    decreases |ls|
  {
    if gathered != [] { PlainIsMessage(gathered); }
    if ls == [] {
      assert gathered + ls == gathered;
    } else if IsMboxSeparator(ls[0]) {
      assert LineList([] + ls[1..]) by {
        forall i | 0 <= i < |ls[1..]|
          ensures IsLine(ls[1..][i]) && (i < |ls[1..]| - 1 ==> Terminated(ls[1..][i]))
        {
          assert ls[1..][i] == (gathered + ls)[|gathered| + 1 + i];
        }
        assert [] + ls[1..] == ls[1..];
      }
      SplitLinesWritable(ls[1..], []);
      if gathered != [] {
        assert gathered[|gathered| - 1] == (gathered + ls)[|gathered| - 1];
      }
    } else {
      var more := gathered + [ls[0]];
      assert more + ls[1..] == gathered + ls;
      assert Plain(more) by {
        forall i | 0 <= i < |more|
          ensures IsLine(more[i]) && (i < |more| - 1 ==> Terminated(more[i])) && !IsMboxSeparator(more[i])
        {
          assert more[i] == (gathered + ls)[i];
        }
      }
      ConcatAppend(gathered, [ls[0]]);
      FlushConcat(ls[0]);
      SplitLinesWritable(ls[1..], more);
    }
  }

  /** What splitting yields is always writable, so writing it out and splitting again changes nothing. */
  lemma SplitWriteSplit(raw: Bytes, separators: seq<Bytes>)
    requires |separators| == |SplitLines(Lines(raw), [])|
    requires forall i :: 0 <= i < |separators| ==> IsSeparatorLine(separators[i])
    ensures Writable(SplitLines(Lines(raw), []))
    ensures SplitLines(Lines(Write(separators, SplitLines(Lines(raw), []))), []) == SplitLines(Lines(raw), [])
  {
    LinesPartition(raw);
    assert [] + Lines(raw) == Lines(raw);
    SplitLinesWritable(Lines(raw), []);
    SplitUndoesWrite(separators, SplitLines(Lines(raw), []));
  }

  // ---------------------------------------------------------------- separator lines

  lemma {:induction false} ColonsSeen(l: Bytes)
    ensures Colons(l) >= 1 <==> exists i :: 0 <= i < |l| && l[i] == 58
    ensures Colons(l) >= 2 <==> exists i, j :: 0 <= i < j < |l| && l[i] == 58 && l[j] == 58
    decreases |l|
  {
    if l != [] {
      var t := l[1..];
      ColonsSeen(t);
      if i :| 0 <= i < |t| && t[i] == 58 { assert l[i + 1] == 58; }
      if i, j :| 0 <= i < j < |t| && t[i] == 58 && t[j] == 58 { assert l[i + 1] == 58 && l[j + 1] == 58; }
      if i :| 0 <= i < |l| && l[i] == 58 { assert i == 0 || t[i - 1] == 58; }
      if i, j :| 0 <= i < j < |l| && l[i] == 58 && l[j] == 58 {
        assert t[j - 1] == 58;
        assert i > 0 ==> t[i - 1] == 58;
      }
    }
  }

  /** A line separates messages exactly when it begins with "From " and has two colons, as a time of day has. */
  lemma SeparatorIff(l: Bytes)
    ensures IsMboxSeparator(l) <==>
              && |l| >= 5 && l[0] == 70 && l[1] == 114 && l[2] == 111 && l[3] == 109 && l[4] == 32
              && exists i, j :: 0 <= i < j < |l| && l[i] == 58 && l[j] == 58
  {
    ColonsSeen(l);
    if |l| >= 5 && l[0] == 70 && l[1] == 114 && l[2] == 111 && l[3] == 109 && l[4] == 32 { assert l[..5] == FROM; }
    if FROM <= l { assert l[..5] == FROM; }
  }
}

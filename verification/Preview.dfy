/** The bounded preview of a child's stderr: lines are appended and the front is trimmed off again each time. */
module Preview {
  import opened Text

  const LIMIT: nat := 4096

  /** The length of a character in UTF-8. */
  function Width(c: char): (w: nat)
    ensures 1 <= w <= 4
  {
    if c as int < 0x80 then 1 else if c as int < 0x800 then 2 else if c as int < 0x1_0000 then 3 else 4
  }

  function Bytes(s: string): nat {
    if s == "" then 0 else Width(s[0]) + Bytes(s[1..])
  }

  lemma {:induction false} BytesAppend(a: string, b: string)
    ensures Bytes(a + b) == Bytes(a) + Bytes(b)
    decreases |a|
  {
    if a == "" {
      assert a + b == b;
    } else {
      assert (a + b)[1..] == a[1..] + b;
      BytesAppend(a[1..], b);
    }
  }

  // ---------------------------------------------------------------- trimming once

  /** The longest suffix that starts on a character boundary and fits. */
  function LongestFit(s: string): (r: string)
    ensures |r| <= |s| && r == s[|s| - |r|..]
  {
    if Bytes(s) <= LIMIT then s else LongestFit(s[1..])
  }

  /** It fits, and starting anywhere earlier would not. */
  lemma {:induction false} LongestFitIsLongest(s: string, k: nat)
    ensures Bytes(LongestFit(s)) <= LIMIT
    ensures k < |s| - |LongestFit(s)| ==> Bytes(s[k..]) > LIMIT
    decreases |s|
  {
    if Bytes(s) > LIMIT {
      LongestFitIsLongest(s[1..], if k == 0 then 0 else k - 1);
      if k == 0 { assert s[0..] == s; } else if k <= |s| { assert s[k..] == s[1..][k - 1..]; }
    }
  }

  /** Drops characters from the front until at least `excess` bytes are gone. */
  function DropBytes(s: string, excess: nat): string {
    if excess == 0 || s == "" then s
    else DropBytes(s[1..], if Width(s[0]) >= excess then 0 else excess - Width(s[0]))
  }

  lemma {:induction false} DropExcess(s: string)
    requires Bytes(s) > LIMIT
    ensures DropBytes(s, Bytes(s) - LIMIT) == LongestFit(s)
    decreases |s|
  {
    var excess := Bytes(s) - LIMIT;
    assert excess == Width(s[0]) + Bytes(s[1..]) - LIMIT;
    if Bytes(s[1..]) > LIMIT {
      DropExcess(s[1..]);
    } else {
      assert DropBytes(s, excess) == DropBytes(s[1..], 0) == s[1..];
      assert LongestFit(s) == LongestFit(s[1..]);
    }
  }

  /** The empty text, or a single character, always fits. */
  lemma FitNotEmpty(s: string)
    requires s != ""
    ensures LongestFit(s) != ""
  {
    var last := s[|s| - 1..];
    assert Bytes(last) == Width(last[0]) + Bytes(last[1..]);
    assert last[1..] == "";
    LongestFitIsLongest(s, |s| - 1);
  }

  /** Appending to what already fits and trimming again is trimming everything at once. */
  lemma {:induction false} FitAppend(a: string, b: string)
    ensures LongestFit(LongestFit(a) + b) == LongestFit(a + b)
    decreases |a|
  {
    if Bytes(a) > LIMIT {
      BytesAppend(a, b);
      assert (a + b)[1..] == a[1..] + b;
      FitAppend(a[1..], b);
    }
  }

  // ---------------------------------------------------------------- recording lines

  /** A non-blank line added to a text, on a new line of its own. */
  function AddLine(text: string, line: string): string {
    if Blank(line) then text
    else text + ((if text != "" then "\n" else "") + TrimEnd(line))
  }

  lemma AddLineParts(text: string, line: string)
    requires !Blank(line)
    ensures AddLine(text, line) == (if text != "" then text + "\n" else text) + TrimEnd(line)
  {
  }

  /** What recording one line does to the preview; the line has had its secrets removed. */
  function Record(preview: string, line: string): string {
    if Blank(line) then preview else LongestFit(AddLine(preview, line))
  }

  class StderrPreview {
    var preview: string

    constructor ()
      ensures preview == ""
    {
      preview := "";
    }

    method TrimStderrPreview()
      modifies this
      ensures preview == LongestFit(old(preview))
    {
      if Bytes(preview) <= LIMIT { return; }
      var text := preview;
      var excess: nat := Bytes(text) - LIMIT;
      DropExcess(text);
      var drainTo: nat, left: nat := 0, excess;
      assert text[0..] == text;
      while left > 0 && drainTo < |text|
        invariant 0 <= drainTo <= |text|
        invariant DropBytes(text[drainTo..], left) == DropBytes(text, excess)
      {
        assert text[drainTo..][1..] == text[drainTo + 1..];
        left := if Width(text[drainTo]) >= left then 0 else left - Width(text[drainTo]);
        drainTo := drainTo + 1;
      }
      preview := text[drainTo..];
    }

    method RecordStderrLine(redacted: string)
      modifies this
      ensures preview == Record(old(preview), redacted)
    {
      if Blank(redacted) { return; }
      if preview != "" { preview := preview + "\n"; }
      preview := preview + TrimEnd(redacted);
      AddLineParts(old(preview), redacted);
      TrimStderrPreview();
    }
  }

  // ---------------------------------------------------------------- any number of lines

  function RecordAll(lines: seq<string>): string {
    if lines == [] then "" else Record(RecordAll(lines[..|lines| - 1]), lines[|lines| - 1])
  }

  /** The whole log: the non-blank lines without trailing white space, joined by newlines. */
  function FullLog(lines: seq<string>): string {
    if lines == [] then "" else AddLine(FullLog(lines[..|lines| - 1]), lines[|lines| - 1])
  }

  lemma RecordFits(text: string, line: string)
    ensures Record(LongestFit(text), line) == LongestFit(AddLine(text, line))
  {
    if !Blank(line) {
      if text != "" {
        FitNotEmpty(text);
        FitAppend(text, "\n" + TrimEnd(line));
      }
    } else {
      FitAppend(text, "");
      assert LongestFit(text) + "" == LongestFit(text) && text + "" == text;
    }
  }

  /** After any lines the preview is the longest fitting suffix of the whole log. */
  lemma {:induction false} PreviewIsEndOfLog(lines: seq<string>)
    ensures RecordAll(lines) == LongestFit(FullLog(lines))
    decreases |lines|
  {
    if lines != [] {
      PreviewIsEndOfLog(lines[..|lines| - 1]);
      RecordFits(FullLog(lines[..|lines| - 1]), lines[|lines| - 1]);
    }
  }

  /** The lines that say something, without the white space at their ends. */
  function Said(lines: seq<string>): seq<string> {
    if lines == [] then []
    else Said(lines[..|lines| - 1]) + (if Blank(lines[|lines| - 1]) then [] else [TrimEnd(lines[|lines| - 1])])
  }

  function JoinLines(lines: seq<string>): string {
    if lines == [] then "" else if |lines| == 1 then lines[0]
    else JoinLines(lines[..|lines| - 1]) + "\n" + lines[|lines| - 1]
  }

  lemma JoinOneMore(lines: seq<string>, line: string)
    ensures JoinLines(lines + [line]) == if lines == [] then line else JoinLines(lines) + "\n" + line
  {
    var all := lines + [line];
    assert all[..|all| - 1] == lines && all[|all| - 1] == line;
    if lines == [] { assert |all| == 1; }
  }

  lemma AddLineSaid(text: string, line: string)
    requires !Blank(line)
    ensures AddLine(text, line) == if text == "" then TrimEnd(line) else text + "\n" + TrimEnd(line)
  {
    AddLineParts(text, line);
    if text == "" { assert text + TrimEnd(line) == TrimEnd(line); }
  }

  lemma {:induction false} FullLogJoins(lines: seq<string>)
    ensures FullLog(lines) == JoinLines(Said(lines)) && (FullLog(lines) == "" <==> Said(lines) == [])
    decreases |lines|
  {
    if lines != [] {
      var front, line := lines[..|lines| - 1], lines[|lines| - 1];
      FullLogJoins(front);
      if Blank(line) {
        assert Said(front) + [] == Said(front);
      } else {
        AddLineSaid(FullLog(front), line);
        JoinOneMore(Said(front), TrimEnd(line));
        SaysSomething(line);
      }
    }
  }

  lemma {:induction false} SaysSomething(line: string)
    requires !Blank(line)
    ensures TrimEnd(line) != ""
    decreases |line|
  {
    if IsSpace(line[|line| - 1]) {
      assert line == line[..|line| - 1] + [line[|line| - 1]];
      SaysSomething(line[..|line| - 1]);
    }
  }

  /** The preview is an end of the log, has at most 4096 bytes, and with one character more it would have more. */
  ghost predicate EndOf(log: string, preview: string) {
    && |preview| <= |log| && preview == log[|log| - |preview|..] && Bytes(preview) <= 4096
    && (|preview| < |log| ==> Bytes(log[|log| - |preview| - 1..]) > 4096)
  }

  lemma FitIsEnd(log: string)
    ensures EndOf(log, LongestFit(log))
  {
    LongestFitIsLongest(log, if |log| > |LongestFit(log)| then |log| - |LongestFit(log)| - 1 else 0);
  }

  lemma PreviewIsFit(lines: seq<string>, log: string)
    requires log == JoinLines(Said(lines))
    ensures RecordAll(lines) == LongestFit(log)
  {
    PreviewIsEndOfLog(lines);
    FullLogJoins(lines);
  }

  /** After any lines the preview is as long an end as fits of the log of all that was said, line by line. */
  lemma PreviewEndsLog(lines: seq<string>, log: string)
    requires log == JoinLines(Said(lines))
    ensures EndOf(log, RecordAll(lines))
  {
    PreviewIsFit(lines, log);
    FitIsEnd(log);
  }
}

/** White space, trimming, substrings and ASCII case, as Rust's `str` has them. */
module Text {

  /** The Unicode White_Space property. */
  predicate IsSpace(c: char) {
    || '\U{9}' <= c <= '\U{D}' || c == ' ' || c == '\U{85}' || c == '\U{A0}' || c == '\U{1680}'
    || '\U{2000}' <= c <= '\U{200A}' || c == '\U{2028}' || c == '\U{2029}' || c == '\U{202F}'
    || c == '\U{205F}' || c == '\U{3000}'
  }

  predicate Blank(s: string) {
    forall c :: c in s ==> IsSpace(c)
  }

  function TrimStart(s: string): (r: string)
    ensures r == "" || !IsSpace(r[0])
    ensures |r| <= |s| && s[|s| - |r|..] == r
  {
    if s != "" && IsSpace(s[0]) then TrimStart(s[1..]) else s
  }

  function TrimEnd(s: string): (r: string)
    ensures r == "" || !IsSpace(r[|r| - 1])
    ensures r <= s
  {
    if s != "" && IsSpace(s[|s| - 1]) then TrimEnd(s[..|s| - 1]) else s
  }

  function Trim(s: string): (r: string)
    ensures r == "" || (!IsSpace(r[0]) && !IsSpace(r[|r| - 1]))
    ensures |r| <= |s|
  {
    TrimEnd(TrimStart(s))
  }

  /** A text is left alone when it neither starts nor ends with white space. */
  lemma TrimTrimmed(s: string)
    requires s == "" || (!IsSpace(s[0]) && !IsSpace(s[|s| - 1]))
    ensures Trim(s) == s
  {
  }

  lemma {:induction false} TrimEndSuffix(w: string, s: string)
    requires w != "" && !IsSpace(w[|w| - 1])
    ensures TrimEnd(w + s) == w + TrimEnd(s)
    decreases |s|
  {
    if s == "" {
      assert w + s == w;
    } else if IsSpace(s[|s| - 1]) {
      assert (w + s)[..|w + s| - 1] == w + s[..|s| - 1];
      TrimEndSuffix(w, s[..|s| - 1]);
    }
  }

  /** Trimming at both ends is the same in either order. */
  lemma {:induction false} TrimOfTrimEnd(s: string)
    ensures Trim(TrimEnd(s)) == Trim(s)
    decreases |s|
  {
    if s != "" && IsSpace(s[|s| - 1]) {
      TrimOfTrimEnd(s[..|s| - 1]);
      TrimDropsLast(s);
    }
  }

  lemma {:induction false} TrimStartAppend(s: string, c: char)
    requires !Blank(s)
    ensures TrimStart(s + [c]) == TrimStart(s) + [c]
    decreases |s|
  {
    assert (s + [c])[1..] == s[1..] + [c];
    if IsSpace(s[0]) {
      var k :| 0 <= k < |s| && !IsSpace(s[k]);
      assert s[1..][k - 1] in s[1..];
      TrimStartAppend(s[1..], c);
    }
  }

  lemma {:induction false} TrimStartBlank(s: string)
    requires Blank(s)
    ensures TrimStart(s) == ""
    decreases |s|
  {
    if s != "" {
      assert s[0] in s;
      TrimStartBlank(s[1..]);
    }
  }

  lemma TrimDropsLast(s: string)
    requires s != "" && IsSpace(s[|s| - 1])
    ensures Trim(s) == Trim(s[..|s| - 1])
  {
    var init := s[..|s| - 1];
    assert s == init + [s[|s| - 1]];
    if Blank(init) {
      TrimStartBlank(init);
      TrimStartBlank(s);
    } else {
      TrimStartAppend(init, s[|s| - 1]);
      assert (TrimStart(init) + [s[|s| - 1]])[..|TrimStart(init)|] == TrimStart(init);
    }
  }

  // ---------------------------------------------------------------- substrings

  predicate OccursAt(t: string, s: string, i: int) {
    0 <= i && i + |t| <= |s| && s[i..i + |t|] == t
  }

  predicate Contains(s: string, t: string) {
    exists i :: 0 <= i <= |s| && OccursAt(t, s, i)
  }

  predicate EndsWith(s: string, t: string) {
    |t| <= |s| && s[|s| - |t|..] == t
  }

  // ---------------------------------------------------------------- ASCII case

  function AsciiLowerChar(c: char): char {
    if 'A' <= c <= 'Z' then c + 32 as char else c
  }

  function AsciiLower(s: string): (r: string)
    ensures |r| == |s| && forall i :: 0 <= i < |s| ==> r[i] == AsciiLowerChar(s[i])
  {
    seq(|s|, i requires 0 <= i < |s| => AsciiLowerChar(s[i]))
  }
}

/**
 Cleaning a mail subject for comparison: bracketed tags are removed, then reply and forward markers are stripped
 from the front until none is left.
 */
module Subject {
  import opened Prelude
  import opened Text

  // ---------------------------------------------------------------- tags

  /** Where the first closing bracket of the line is. */
  function Close(s: string): (r: Option<nat>)
    ensures r.Some? ==> r.value < |s| && s[r.value] == ']'
  {
    if s == "" || s[0] == '\n' then None
    else if s[0] == ']' then Some(0)
    else
      var r := Close(s[1..]);
      if r.Some? then Some(r.value + 1) else None
  }

  /** Deletes every match of a bracketed tag, leftmost first, each as short as it can be; a tag stays on its line. */
  function RemoveTags(s: string): string {
    if s == "" then ""
    else if s[0] == '[' && Close(s[1..]).Some? then RemoveTags(s[Close(s[1..]).value + 2..])
    else [s[0]] + RemoveTags(s[1..])
  }

  /** Some opening bracket is followed by a closing one on the same line. */
  predicate HasTag(s: string) {
    s != "" && ((s[0] == '[' && Close(s[1..]).Some?) || HasTag(s[1..]))
  }

  lemma {:induction false} NoCloseKept(s: string)
    requires Close(s).None?
    ensures Close(RemoveTags(s)).None?
    decreases |s|
  {
    if s != "" && s[0] != '\n' {
      NoCloseKept(s[1..]);
      assert RemoveTags(s)[1..] == RemoveTags(s[1..]);
    }
  }

  lemma {:induction false} RemoveTagsLeavesNone(s: string)
    ensures !HasTag(RemoveTags(s))
    decreases |s|
  {
    if s != "" {
      if s[0] == '[' && Close(s[1..]).Some? {
        RemoveTagsLeavesNone(s[Close(s[1..]).value + 2..]);
      } else {
        RemoveTagsLeavesNone(s[1..]);
        assert RemoveTags(s)[1..] == RemoveTags(s[1..]);
        if s[0] == '[' { NoCloseKept(s[1..]); }
      }
    }
  }

  lemma {:induction false} NoTagsUntouched(s: string)
    requires !HasTag(s)
    ensures RemoveTags(s) == s
    decreases |s|
  {
    if s != "" {
      NoTagsUntouched(s[1..]);
      assert s == [s[0]] + s[1..];
    }
  }

  lemma {:induction false} CloseAfterCut(s: string, n: nat)
    requires n <= |s| && Close(s[..n]).Some?
    ensures Close(s).Some?
    decreases |s|
  {
    if n > 0 && s[0] != ']' {
      assert s[..n][1..] == s[1..][..n - 1];
      CloseAfterCut(s[1..], n - 1);
    }
  }

  /** A part of a text without tags has no tags. */
  lemma {:induction false} PrefixHasNoTag(s: string, n: nat)
    requires !HasTag(s) && n <= |s|
    ensures !HasTag(s[..n])
    decreases |s|
  {
    if n > 0 {
      assert s[..n][1..] == s[1..][..n - 1];
      PrefixHasNoTag(s[1..], n - 1);
      if Close(s[..n][1..]).Some? { CloseAfterCut(s[1..], n - 1); }
    }
  }

  lemma {:induction false} SuffixHasNoTag(s: string, n: nat)
    requires !HasTag(s) && n <= |s|
    ensures !HasTag(s[n..])
    decreases n
  {
    if n > 0 {
      SuffixHasNoTag(s[1..], n - 1);
      assert s[1..][n - 1..] == s[n..];
    } else {
      assert s[0..] == s;
    }
  }

  // ---------------------------------------------------------------- markers

  /** The markers, in the order they are tried; the last two are Chinese, with an ASCII and a full-width colon. */
  const MARKERS: seq<string> := ["re:", "fwd:", "aw:", "forwarded:", "\U{56DE}\U{590D}:", "\U{56DE}\U{590D}\U{FF1A}"]

  // Only ASCII letters lower to the letters of a marker, so that lowering ASCII finds the same markers.

  /** The first marker from number k on that the text starts with, in any case. */
  function FindMarker(s: string, k: nat): (r: Option<nat>)
    requires k <= |MARKERS|
    ensures r.Some? ==> k <= r.value < |MARKERS| && MARKERS[r.value] <= AsciiLower(s)
    ensures r.None? ==> forall j :: k <= j < |MARKERS| ==> !(MARKERS[j] <= AsciiLower(s))
    decreases |MARKERS| - k
  {
    if k == |MARKERS| then None
    else if MARKERS[k] <= AsciiLower(s) then Some(k)
    else FindMarker(s, k + 1)
  }

  lemma MarkersNotEmpty(k: nat)
    requires k < |MARKERS|
    ensures |MARKERS[k]| > 0 && !IsSpace(MARKERS[k][0]) && !IsSpace(MARKERS[k][|MARKERS[k]| - 1])
    ensures '[' !in MARKERS[k] && ']' !in MARKERS[k]
  {
  }

  /** No two markers fit the front of one text. */
  lemma MarkersExclusive(j: nat, k: nat, s: string)
    requires j < |MARKERS| && k < |MARKERS| && MARKERS[j] <= s && MARKERS[k] <= s
    ensures j == k
  {
    assert s[0] == MARKERS[j][0] == MARKERS[k][0];
    assert s[1] == MARKERS[j][1] == MARKERS[k][1];
    assert s[2] == MARKERS[j][2] == MARKERS[k][2];
  }

  function StripMarkers(s: string): string
    decreases |s|
  {
    var k := FindMarker(s, 0);
    if k.None? then s else
      MarkersNotEmpty(k.value);
      StripMarkers(Trim(s[|MARKERS[k.value]|..]))
  }

  function CleanSubject(s: string): string {
    StripMarkers(Trim(RemoveTags(s)))
  }

  /** One pass over the markers: strips the first that fits. */
  method StripOne(text: string) returns (cleaned: string, changed: bool)
    ensures changed == FindMarker(text, 0).Some?
    ensures cleaned == if changed then Trim(text[|MARKERS[FindMarker(text, 0).value]|..]) else text
  {
    var lower := AsciiLower(text);
    for k := 0 to |MARKERS|
      invariant FindMarker(text, 0) == FindMarker(text, k)
    {
      if MARKERS[k] <= lower {
        return Trim(text[|MARKERS[k]|..]), true;
      }
    }
    return text, false;
  }

  method ComputeCleanSubject(subject: string) returns (cleaned: string)
    ensures cleaned == CleanSubject(subject)
  {
    cleaned := Trim(RemoveTags(subject));
    var changed := true;
    while changed
      invariant StripMarkers(cleaned) == CleanSubject(subject)
      invariant !changed ==> StripMarkers(cleaned) == cleaned
      decreases |cleaned|, changed
    {
      ghost var k := FindMarker(cleaned, 0);
      if k.Some? { MarkersNotEmpty(k.value); }
      cleaned, changed := StripOne(cleaned);
    }
  }

  // ---------------------------------------------------------------- what a cleaned subject looks like

  predicate Trimmed(s: string) {
    s == "" || (!IsSpace(s[0]) && !IsSpace(s[|s| - 1]))
  }

  predicate IsClean(s: string) {
    Trimmed(s) && !HasTag(s) && FindMarker(s, 0).None?
  }

  lemma TrimHasNoTag(s: string)
    requires !HasTag(s)
    ensures !HasTag(Trim(s))
  {
    var t := TrimStart(s);
    SuffixHasNoTag(s, |s| - |t|);
    PrefixHasNoTag(t, |TrimEnd(t)|);
    assert t[..|TrimEnd(t)|] == TrimEnd(t);
  }

  lemma {:induction false} StripMarkersClean(s: string)
    requires Trimmed(s) && !HasTag(s)
    ensures IsClean(StripMarkers(s))
    decreases |s|
  {
    var k := FindMarker(s, 0);
    if k.Some? {
      MarkersNotEmpty(k.value);
      SuffixHasNoTag(s, |MARKERS[k.value]|);
      TrimHasNoTag(s[|MARKERS[k.value]|..]);
      StripMarkersClean(Trim(s[|MARKERS[k.value]|..]));
    }
  }

  /** The result is trimmed, holds no tag and starts with no marker. */
  lemma ResultIsClean(s: string)
    ensures IsClean(CleanSubject(s))
  {
    RemoveTagsLeavesNone(s);
    TrimHasNoTag(RemoveTags(s));
    StripMarkersClean(Trim(RemoveTags(s)));
  }

  /** A subject is left as it is exactly when it is clean already. */
  lemma CleanIsIdentityIff(s: string)
    ensures CleanSubject(s) == s <==> IsClean(s)
  {
    ResultIsClean(s);
    if IsClean(s) {
      NoTagsUntouched(s);
      TrimTrimmed(s);
    }
  }

  /** Cleaning twice is cleaning once. */
  lemma CleanIdempotent(s: string)
    ensures CleanSubject(CleanSubject(s)) == CleanSubject(s)
  {
    ResultIsClean(s);
    CleanIsIdentityIff(CleanSubject(s));
  }

  // ---------------------------------------------------------------- what makes no difference

  lemma {:induction false} TagsAfterPlainText(w: string, s: string)
    requires '[' !in w
    ensures RemoveTags(w + s) == w + RemoveTags(s)
    decreases |w|
  {
    if w == "" {
      assert w + s == s;
    } else {
      assert w[0] in w && (w + s)[1..] == w[1..] + s;
      TagsAfterPlainText(w[1..], s);
    }
  }

  lemma MarkerShape(marker: string, k: nat)
    requires k < |MARKERS| && AsciiLower(marker) == MARKERS[k]
    ensures |marker| == |MARKERS[k]| > 0 && '[' !in marker
    ensures !IsSpace(marker[0]) && !IsSpace(marker[|marker| - 1])
  {
    MarkersNotEmpty(k);
    var m := MARKERS[k];
    forall i | 0 <= i < |marker| ensures marker[i] != '[' { assert m[i] == AsciiLowerChar(marker[i]); }
    assert m[0] == AsciiLowerChar(marker[0]) && m[|marker| - 1] == AsciiLowerChar(marker[|marker| - 1]);
  }

  lemma TrimAfterWord(w: string, s: string)
    requires w != "" && !IsSpace(w[0]) && !IsSpace(w[|w| - 1])
    ensures Trim(w + s) == w + TrimEnd(s)
  {
    assert (w + s)[0] == w[0];
    assert TrimStart(w + s) == w + s;
    TrimEndSuffix(w, s);
  }

  lemma LowerAppend(a: string, b: string)
    ensures AsciiLower(a) <= AsciiLower(a + b)
  {
  }

  lemma StripMarked(marker: string, k: nat, rest: string)
    requires k < |MARKERS| && AsciiLower(marker) == MARKERS[k]
    ensures StripMarkers(marker + rest) == StripMarkers(Trim(rest))
  {
    MarkerShape(marker, k);
    var t := marker + rest;
    LowerAppend(marker, rest);
    var found := FindMarker(t, 0);
    assert found.Some?;
    MarkersExclusive(found.value, k, AsciiLower(t));
    assert t[|marker|..] == rest;
  }

  /** A reply or forward marker in front, in any case, makes no difference. */
  lemma MarkersIgnored(marker: string, s: string)
    requires AsciiLower(marker) in MARKERS
    ensures CleanSubject(marker + s) == CleanSubject(s)
  {
    var k :| 0 <= k < |MARKERS| && MARKERS[k] == AsciiLower(marker);
    MarkerShape(marker, k);
    var plain := RemoveTags(s);
    TagsAfterPlainText(marker, s);
    TrimAfterWord(marker, plain);
    StripMarked(marker, k, TrimEnd(plain));
    TrimOfTrimEnd(plain);
  }

  lemma {:induction false} CloseIsFirst(tag: string, s: string)
    requires ']' !in tag && '\n' !in tag
    ensures Close(tag + "]" + s) == Some(|tag|)
    decreases |tag|
  {
    var t := tag + "]" + s;
    if tag != "" {
      assert tag[0] in tag && t[0] == tag[0] && t[1..] == tag[1..] + "]" + s;
      CloseIsFirst(tag[1..], s);
    }
  }

  /** A tag in front makes no difference. */
  lemma TagsIgnored(tag: string, s: string)
    requires ']' !in tag && '\n' !in tag
    ensures CleanSubject("[" + tag + "]" + s) == CleanSubject(s)
  {
    var t := "[" + tag + "]" + s;
    CloseIsFirst(tag, s);
    assert t[1..] == tag + "]" + s;
    assert t[|tag| + 2..] == s;
    assert RemoveTags(t) == RemoveTags(s);
  }

  /** The reply and forward markers of mail programs, in English, German and Chinese, make no difference. */
  lemma RepliesAndForwards(s: string)
    ensures CleanSubject("Re:" + s) == CleanSubject(s) && CleanSubject("Fwd:" + s) == CleanSubject(s)
    ensures CleanSubject("AW:" + s) == CleanSubject(s) && CleanSubject("Forwarded:" + s) == CleanSubject(s)
    ensures CleanSubject("\U{56DE}\U{590D}:" + s) == CleanSubject(s)
    ensures CleanSubject("\U{56DE}\U{590D}\U{FF1A}" + s) == CleanSubject(s)
  {
    var ms := ["Re:", "Fwd:", "AW:", "Forwarded:", "\U{56DE}\U{590D}:", "\U{56DE}\U{590D}\U{FF1A}"];
    assert AsciiLower(ms[0]) == MARKERS[0] && AsciiLower(ms[1]) == MARKERS[1] && AsciiLower(ms[2]) == MARKERS[2];
    assert AsciiLower(ms[3]) == MARKERS[3] && AsciiLower(ms[4]) == MARKERS[4] && AsciiLower(ms[5]) == MARKERS[5];
    forall k | 0 <= k < 6 ensures CleanSubject(ms[k] + s) == CleanSubject(s) { MarkersIgnored(ms[k], s); }
  }
}

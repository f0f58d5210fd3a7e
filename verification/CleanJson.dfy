/**
 Escaping raw control characters inside the string literals of a JSON text written by a language model. A
 lenient reader, one that takes raw control characters as they are, cannot tell the cleaned text from the
 original; a strict reader no longer trips over them.
 */
module CleanJson {
  import opened Prelude

  function HexDigit(n: nat): (c: char)
    requires n < 16
    ensures IsHex(c) && HexValue(c) == n
  {
    "0123456789abcdef"[n]
  }

  predicate IsHex(c: char) {
    '0' <= c <= '9' || 'a' <= c <= 'f' || 'A' <= c <= 'F'
  }

  function HexValue(c: char): nat
    requires IsHex(c)
  {
    if c <= '9' then c as int - '0' as int
    else if c <= 'F' then c as int - 'A' as int + 10
    else c as int - 'a' as int + 10
  }

  predicate IsControl(c: char) {
    c < ' '
  }

  /** The escape sequence written for a control character. */
  function Escape(c: char): string
    requires IsControl(c)
  {
    if c == '\n' then "\\n" else if c == '\r' then "\\r" else if c == '\t' then "\\t"
    else "\\u00" + [HexDigit(c as int / 16), HexDigit(c as int % 16)]
  }

  /** The cleaned text of s, read from inside or outside a string literal. */
  function Clean(s: string, inString: bool): string {
    if s == "" then ""
    else if !inString then [s[0]] + Clean(s[1..], s[0] == '"')
    else if s[0] == '\\' then (if |s| == 1 then s else s[..2] + Clean(s[2..], true))
    else if s[0] == '"' then [s[0]] + Clean(s[1..], false)
    else (if IsControl(s[0]) then Escape(s[0]) else [s[0]]) + Clean(s[1..], true)
  }

  /** What is still to be written when the loop has a backslash pending. */
  function Rest(s: string, inString: bool, escape: bool): string {
    if !escape then Clean(s, inString)
    else if s == "" then "\\"
    else ['\\', s[0]] + Clean(s[1..], true)
  }

  /** What one character makes the loop write, and the state it leaves. */
  function Emit(c: char, inString: bool, escape: bool): string {
    if !inString then [c]
    else if escape then ['\\', c]
    else if c == '\\' then ""
    else if c != '"' && IsControl(c) then Escape(c)
    else [c]
  }

  lemma RestStep(input: string, i: nat, inString: bool, escape: bool)
    requires i < |input| && (escape ==> inString)
    ensures Rest(input[i..], inString, escape) ==
            Emit(input[i], inString, escape)
            + Rest(input[i + 1..], NextInString(input[i], inString, escape), NextEscape(input[i], inString, escape))
  {
    var s := input[i..];
    assert s[1..] == input[i + 1..];
    if inString && !escape && s[0] == '\\' && |s| > 1 {
      assert s[2..] == s[1..][1..] && s[..2] == ['\\', s[1..][0]];
    }
  }

  predicate NextInString(c: char, inString: bool, escape: bool) {
    if inString then escape || c != '"' else c == '"'
  }

  predicate NextEscape(c: char, inString: bool, escape: bool) {
    inString && !escape && c == '\\'
  }

  /** The body of the loop. */
  method Advance(c: char, inString: bool, escape: bool) returns (piece: string, inString': bool, escape': bool)
    requires escape ==> inString
    ensures piece == Emit(c, inString, escape)
    ensures inString' == NextInString(c, inString, escape)
    ensures escape' == NextEscape(c, inString, escape)
  {
    inString', escape' := inString, false;
    if inString {
      if escape {
        piece := ['\\', c];
      } else if c == '\\' {
        piece, escape' := "", true;
      } else if c == '"' {
        piece, inString' := [c], false;
      } else if c == '\n' {
        piece := "\\n";
      } else if c == '\r' {
        piece := "\\r";
      } else if c == '\t' {
        piece := "\\t";
      } else if c < ' ' {
        piece := "\\u00" + [HexDigit(c as int / 16), HexDigit(c as int % 16)];
      } else {
        piece := [c];
      }
    } else {
      if c == '"' { inString' := true; }
      piece := [c];
    }
  }

  method CleanJsonString(input: string) returns (out: string)
    ensures out == Clean(input, false)
  {
    out := "";
    var inString, escape := false, false;
    ghost var rest := Rest(input, false, false);
    assert input[0..] == input;
    for i := 0 to |input|
      invariant escape ==> inString
      invariant rest == Rest(input[i..], inString, escape)
      invariant out + rest == Clean(input, false)
    {
      RestStep(input, i, inString, escape);
      var piece: string;
      piece, inString, escape := Advance(input[i], inString, escape);
      rest := Rest(input[i + 1..], inString, escape);
      Regroup(out, piece, rest);
      out := out + piece;
    }
    assert input[|input|..] == "";
    if escape { out := out + "\\"; }
  }

  // ---------------------------------------------------------------- a lenient reader

  /** Brackets, digits and the like; the quotes; the characters of a string; and what no escape stands for. */
  datatype Token = Structure(c: char) | Open | Close | Content(code: nat) | BadEscape(c: char) | Dangling

  /** The first n characters are there and are hex digits. */
  predicate HexRun(s: string, n: nat) {
    n == 0 || (s != "" && IsHex(s[0]) && HexRun(s[1..], n - 1))
  }

  function Escaped(c: char): Token {
    match c
    case 'n' => Content(10)
    case 'r' => Content(13)
    case 't' => Content(9)
    case 'b' => Content(8)
    case 'f' => Content(12)
    case '"' => Content('"' as int)
    case '\\' => Content('\\' as int)
    case '/' => Content('/' as int)
    case _ => BadEscape(c)
  }

  function HexCode(s: string): nat
    requires HexRun(s, 4)
  {
    assert HexRun(s[1..], 3) && HexRun(s[1..][1..], 2) && HexRun(s[1..][1..][1..], 1);
    HexValue(s[0]) * 4096 + HexValue(s[1]) * 256 + HexValue(s[2]) * 16 + HexValue(s[3])
  }

  lemma HexRunLength(s: string, n: nat)
    requires HexRun(s, n)
    ensures |s| >= n
  {
  }

  function Read(s: string, inString: bool): seq<Token>
    decreases |s|
  {
    if s == "" then []
    else if !inString then [if s[0] == '"' then Open else Structure(s[0])] + Read(s[1..], s[0] == '"')
    else if s[0] == '\\' then
      if |s| == 1 then [Dangling]
      else if s[1] == 'u' && HexRun(s[2..], 4) then
        HexRunLength(s[2..], 4);
        [Content(HexCode(s[2..]))] + Read(s[6..], true)
      else [Escaped(s[1])] + Read(s[2..], true)
    else if s[0] == '"' then [Close] + Read(s[1..], false)
    else [Content(s[0] as int)] + Read(s[1..], true)
  }

  // ---------------------------------------------------------------- cleaning preserves meaning

  /** A hex digit passes through unchanged, and nothing else turns into one. */
  lemma HexKept(s: string)
    requires s != ""
    ensures Clean(s, true) != "" && (IsHex(Clean(s, true)[0]) <==> IsHex(s[0]))
    ensures IsHex(s[0]) ==> Clean(s, true) == [s[0]] + Clean(s[1..], true)
  {
  }

  lemma {:induction false} HexRunIff(s: string, n: nat)
    ensures HexRun(Clean(s, true), n) <==> HexRun(s, n)
    decreases n
  {
    if n > 0 && s != "" {
      HexKept(s);
      if IsHex(s[0]) {
        HexRunIff(s[1..], n - 1);
        assert Clean(s, true)[1..] == Clean(s[1..], true);
      }
    }
  }

  lemma {:induction false} HexRunPrefix(s: string, n: nat)
    requires HexRun(s, n)
    ensures |s| >= n && Clean(s, true) == s[..n] + Clean(s[n..], true)
    decreases n
  {
    if n == 0 {
      assert s[..0] == "" && s[0..] == s;
    } else {
      HexKept(s);
      HexRunPrefix(s[1..], n - 1);
      PrefixCons(s, n, Clean(s[n..], true));
    }
  }

  lemma PrefixCons(s: string, n: nat, rest: string)
    requires 0 < n <= |s|
    ensures s[1..][n - 1..] == s[n..]
    ensures [s[0]] + (s[1..][..n - 1] + rest) == s[..n] + rest
  {
  }

  /** The escape sequence of a control character reads as that character. */
  lemma ReadEscape(c: char, rest: string)
    requires IsControl(c)
    ensures Read(Escape(c) + rest, true) == [Content(c as int)] + Read(rest, true)
  {
    var s := Escape(c) + rest;
    if c == '\n' || c == '\r' || c == '\t' {
      assert s[2..] == rest;
    } else {
      var h := s[2..];
      assert h[0] == '0' && h[1] == '0' && h[2] == HexDigit(c as int / 16) && h[3] == HexDigit(c as int % 16);
      assert h[1..][0] == h[1] && h[1..][1..][0] == h[2] && h[1..][1..][1..][0] == h[3];
      assert HexRun(h[1..][1..][1..], 1) && HexRun(h[1..][1..], 2) && HexRun(h[1..], 3) && HexRun(h, 4);
      assert HexCode(h) == c as int;
      assert s[6..] == rest;
    }
  }

  /** An escape sequence is copied with the character it escapes. */
  lemma CleanEscaped(s: string)
    requires |s| > 1 && s[0] == '\\'
    ensures var t := Clean(s, true);
            |t| > 1 && t[0] == s[0] && t[1] == s[1] && t[2..] == Clean(s[2..], true)
  {
  }

  lemma ReadUnicode(t: string)
    requires |t| > 1 && t[0] == '\\' && t[1] == 'u' && HexRun(t[2..], 4)
    ensures |t| >= 6 && Read(t, true) == [Content(HexCode(t[2..]))] + Read(t[6..], true)
  {
    HexRunLength(t[2..], 4);
  }

  lemma SameHexCode(h: string, g: string)
    requires HexRun(h, 4) && HexRun(g, 4) && |h| >= 4 && |g| >= 4 && h[..4] == g[..4]
    ensures HexCode(h) == HexCode(g)
  {
    assert forall i :: 0 <= i < 4 ==> h[i] == h[..4][i] == g[..4][i] == g[i];
  }

  /** A unicode escape reads the same after cleaning. */
  lemma ReadCleanedUnicode(s: string)
    requires |s| > 1 && s[0] == '\\' && s[1] == 'u' && HexRun(s[2..], 4)
    ensures |s| >= 6 && Read(Clean(s, true), true) == [Content(HexCode(s[2..]))] + Read(Clean(s[6..], true), true)
  {
    var t, h := Clean(s, true), s[2..];
    CleanEscaped(s);
    HexRunIff(h, 4);
    HexRunPrefix(h, 4);
    assert h[4..] == s[6..];
    assert (h[..4] + Clean(s[6..], true))[..4] == h[..4];
    ReadUnicode(t);
    SameHexCode(t[2..], h);
    assert t[6..] == t[2..][4..] == (h[..4] + Clean(s[6..], true))[4..] == Clean(s[6..], true);
  }

  /** Every other escape sequence reads the same after cleaning. */
  lemma ReadCleanedEscape(s: string)
    requires |s| > 1 && s[0] == '\\' && !(s[1] == 'u' && HexRun(s[2..], 4))
    ensures Read(Clean(s, true), true) == [Escaped(s[1])] + Read(Clean(s[2..], true), true)
  {
    CleanEscaped(s);
    HexRunIff(s[2..], 4);
  }

  /** The lenient reader reads the same structure and the same string contents before and after. */
  lemma {:induction false} CleanPreservesMeaning(s: string, inString: bool)
    ensures Read(Clean(s, inString), inString) == Read(s, inString)
    decreases |s|
  {
    if s == "" {
    } else if !inString {
      assert Clean(s, false)[1..] == Clean(s[1..], s[0] == '"');
      CleanPreservesMeaning(s[1..], s[0] == '"');
    } else if s[0] == '\\' {
      if |s| > 1 {
        if s[1] == 'u' && HexRun(s[2..], 4) {
          ReadCleanedUnicode(s);
          CleanPreservesMeaning(s[6..], true);
        } else {
          ReadCleanedEscape(s);
          CleanPreservesMeaning(s[2..], true);
        }
      }
    } else {
      CleanPreservesMeaning(s[1..], s[0] != '"');
      if s[0] != '"' && IsControl(s[0]) {
        ReadEscape(s[0], Clean(s[1..], true));
      } else {
        assert Clean(s, true)[1..] == Clean(s[1..], s[0] != '"');
      }
    }
  }

  // ---------------------------------------------------------------- what is left

  /** No string contains a raw control character, other than directly after a backslash. */
  predicate NoRawControl(s: string, inString: bool) {
    if s == "" then true
    else if !inString then NoRawControl(s[1..], s[0] == '"')
    else if s[0] == '\\' then |s| == 1 || NoRawControl(s[2..], true)
    else if s[0] == '"' then NoRawControl(s[1..], false)
    else !IsControl(s[0]) && NoRawControl(s[1..], true)
  }

  lemma EscapeHasNoRawControl(c: char, rest: string)
    requires IsControl(c)
    ensures NoRawControl(Escape(c) + rest, true) == NoRawControl(rest, true)
  {
    var s := Escape(c) + rest;
    if c == '\n' || c == '\r' || c == '\t' {
      assert s[2..] == rest;
    } else {
      assert s[2..][1..] == s[3..] && s[3..][1..] == s[4..] && s[4..][1..] == s[5..] && s[5..][1..] == rest;
      assert s[2] == '0' && s[3] == '0' && IsHex(s[4]) && IsHex(s[5]);
      assert NoRawControl(s, true) == NoRawControl(s[2..], true);
      assert NoRawControl(s[2..], true) == NoRawControl(s[3..], true);
      assert NoRawControl(s[3..], true) == NoRawControl(s[4..], true);
      assert NoRawControl(s[4..], true) == NoRawControl(s[5..], true);
      assert NoRawControl(s[5..], true) == NoRawControl(rest, true);
    }
  }

  lemma {:induction false} CleanHasNoRawControl(s: string, inString: bool)
    ensures NoRawControl(Clean(s, inString), inString)
    decreases |s|
  {
    if s == "" {
    } else if !inString {
      assert Clean(s, false)[1..] == Clean(s[1..], s[0] == '"');
      CleanHasNoRawControl(s[1..], s[0] == '"');
    } else if s[0] == '\\' {
      if |s| > 1 {
        assert Clean(s, true)[2..] == Clean(s[2..], true);
        CleanHasNoRawControl(s[2..], true);
      }
    } else {
      CleanHasNoRawControl(s[1..], s[0] != '"');
      if s[0] != '"' && IsControl(s[0]) {
        EscapeHasNoRawControl(s[0], Clean(s[1..], true));
      } else {
        assert Clean(s, true)[1..] == Clean(s[1..], s[0] != '"');
      }
    }
  }

  lemma {:induction false} CleanNeverShrinks(s: string, inString: bool)
    ensures |Clean(s, inString)| >= |s|
    decreases |s|
  {
    if s == "" {
    } else if !inString {
      CleanNeverShrinks(s[1..], s[0] == '"');
    } else if s[0] == '\\' {
      if |s| > 1 { CleanNeverShrinks(s[2..], true); }
    } else {
      CleanNeverShrinks(s[1..], s[0] != '"');
    }
  }

  /** A text is left as it is exactly when it has nothing to clean. */
  lemma {:induction false} CleanIsIdentityIff(s: string, inString: bool)
    ensures Clean(s, inString) == s <==> NoRawControl(s, inString)
    decreases |s|
  {
    if s == "" {
    } else if !inString {
      CleanIsIdentityIff(s[1..], s[0] == '"');
      assert s == [s[0]] + s[1..] && Clean(s, false)[1..] == Clean(s[1..], s[0] == '"');
    } else if s[0] == '\\' {
      if |s| > 1 {
        CleanIsIdentityIff(s[2..], true);
        assert s == s[..2] + s[2..] && Clean(s, true)[2..] == Clean(s[2..], true);
      }
    } else if s[0] != '"' && IsControl(s[0]) {
      CleanNeverShrinks(s[1..], true);
    } else {
      CleanIsIdentityIff(s[1..], s[0] != '"');
      assert s == [s[0]] + s[1..] && Clean(s, true)[1..] == Clean(s[1..], s[0] != '"');
    }
  }

  /** Cleaning twice is cleaning once. */
  lemma CleanIdempotent(s: string, inString: bool)
    ensures Clean(Clean(s, inString), inString) == Clean(s, inString)
  {
    CleanHasNoRawControl(s, inString);
    CleanIsIdentityIff(Clean(s, inString), inString);
  }
}

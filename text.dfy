/** The JavaScript string primitives the editor relies on: `String(n)`, `trim()`, `split(sep)`
    and `replace(/\s+/g, "_")`, over strings of Unicode scalar values. */
module Text {

  /** ECMAScript WhiteSpace and LineTerminator code points: the set `trim()` strips and `\s` matches. */
  predicate IsJsWhitespace(c: char)
  {
    c == '\t' || c == '\n' || c == '\U{B}' || c == '\U{C}' || c == '\r' || c == ' '
    || c == '\U{A0}' || c == '\U{1680}' || ('\U{2000}' <= c <= '\U{200A}')
    || c == '\U{2028}' || c == '\U{2029}' || c == '\U{202F}' || c == '\U{205F}'
    || c == '\U{3000}' || c == '\U{FEFF}'
  }

  predicate AllWhitespace(s: string) { forall i :: 0 <= i < |s| ==> IsJsWhitespace(s[i]) }

  predicate NoWhitespace(s: string) { forall i :: 0 <= i < |s| ==> !IsJsWhitespace(s[i]) }

  /** `s.trimStart()`: the suffix of `s` left once leading whitespace is dropped. */
  function TrimStart(s: string): (r: string)
    ensures |r| <= |s| && r == s[|s| - |r|..]
    ensures AllWhitespace(s[..|s| - |r|])
    ensures r == [] || !IsJsWhitespace(r[0])
  {
    if s == [] || !IsJsWhitespace(s[0]) then s
    else
      var r := TrimStart(s[1..]);
      var k := |s| - |r|;
      assert s[1..][k - 1..] == s[k..];
      forall i | 0 < i < k ensures IsJsWhitespace(s[..k][i]) {
        assert s[..k][i] == s[1..][..k - 1][i - 1];
      }
      r
  }

  /** `s.trimEnd()`: the prefix of `s` left once trailing whitespace is dropped. */
  function TrimEnd(s: string): (r: string)
    ensures |r| <= |s| && r == s[..|r|]
    ensures AllWhitespace(s[|r|..])
    ensures r == [] || !IsJsWhitespace(r[|r| - 1])
  {
    if s == [] || !IsJsWhitespace(s[|s| - 1]) then s
    else
      var r := TrimEnd(s[..|s| - 1]);
      assert s[|r|..] == s[..|s| - 1][|r|..] + [s[|s| - 1]];
      r
  }

  /** `s.trim()`: `s` without its leading and trailing whitespace (characterised by `TrimSlice`). */
  function Trim(s: string): (r: string)
    ensures |r| <= |s|
    ensures r == [] || (!IsJsWhitespace(r[0]) && !IsJsWhitespace(r[|r| - 1]))
  {
    var t := TrimStart(s);
    var r := TrimEnd(t);
    assert r != [] ==> r[0] == t[0];
    r
  }

  /** `Trim(s)` is the slice of `s` between a whitespace prefix and a whitespace suffix, and it
      neither starts nor ends with whitespace. */
  lemma TrimSlice(s: string)
    ensures exists a, b :: 0 <= a <= b <= |s| && Trim(s) == s[a..b]
                           && AllWhitespace(s[..a]) && AllWhitespace(s[b..])
    ensures Trim(s) == [] || (!IsJsWhitespace(Trim(s)[0]) && !IsJsWhitespace(Trim(s)[|Trim(s)| - 1]))
  {
    var t := TrimStart(s);
    var r := TrimEnd(t);
    assert r == Trim(s);
    var a, b := |s| - |t|, |s| - |t| + |r|;
    assert AllWhitespace(s[..a]);
    assert r == s[a..b];
    assert AllWhitespace(s[b..]) by {
      assert s[b..] == t[|r|..];
    }
    assert 0 <= a <= b <= |s| && Trim(s) == s[a..b] && AllWhitespace(s[..a]) && AllWhitespace(s[b..]);
  }

  /** A string trims to empty exactly when it is all whitespace; this is `Boolean(s.trim())`. */
  lemma TrimEmptyIff(s: string)
    ensures Trim(s) == [] <==> AllWhitespace(s)
  {
    TrimSlice(s);
    var a, b :| 0 <= a <= b <= |s| && Trim(s) == s[a..b] && AllWhitespace(s[..a]) && AllWhitespace(s[b..]);
    if Trim(s) == [] {
      forall i | 0 <= i < |s| ensures IsJsWhitespace(s[i]) {
        if i < a { assert s[..a][i] == s[i]; } else { assert s[b..][i - b] == s[i]; }
      }
    } else {
      assert !IsJsWhitespace(s[a]);
    }
  }

  /** Trimming twice trims nothing more. */
  lemma TrimIdempotent(s: string)
    ensures Trim(Trim(s)) == Trim(s)
  {
    TrimSlice(s);
    var t := Trim(s);
    assert TrimStart(t) == t;
    assert TrimEnd(t) == t;
  }

  // ---------------------------------------------------------------------------------------------
  // split

  /** `s.split(sep)`: the pieces between separators, at least one. */
  function Split(s: string, sep: char): (r: seq<string>)
    ensures |r| >= 1
    ensures forall k :: 0 <= k < |r| ==> sep !in r[k]
    ensures Join(r, sep) == s
  {
    if s == [] then [[]]
    else
      var rest := Split(s[1..], sep);
      if s[0] == sep then
        assert Join([[]] + rest, sep) == [sep] + Join(rest, sep);
        [[]] + rest
      else
        var r := [[s[0]] + rest[0]] + rest[1..];
        assert |rest| == 1 ==> Join(r, sep) == [s[0]] + rest[0];
        assert |rest| > 1 ==> Join(r, sep) == [s[0]] + rest[0] + [sep] + Join(rest[1..], sep);
        r
  }

  /** `pieces.join(sep)`, the inverse of `Split`. */
  function Join(pieces: seq<string>, sep: char): string
  {
    if pieces == [] then []
    else if |pieces| == 1 then pieces[0]
    else pieces[0] + [sep] + Join(pieces[1..], sep)
  }

  /** Splitting a separator-free prefix followed by more text extends the first piece. */
  lemma {:induction false} SplitPrefix(a: string, rest: string, sep: char)
    requires sep !in a
    ensures Split(a + rest, sep) == [a + Split(rest, sep)[0]] + Split(rest, sep)[1..]
  {
    var tail := Split(rest, sep);
    if a == [] {
      assert a + rest == rest;
      assert a + tail[0] == tail[0];
      assert [tail[0]] + tail[1..] == tail;
    } else {
      assert (a + rest)[1..] == a[1..] + rest;
      SplitPrefix(a[1..], rest, sep);
      var r := Split(a[1..] + rest, sep);
      assert r[0] == a[1..] + tail[0];
      assert [a[0]] + r[0] == a + tail[0];
      assert r[1..] == tail[1..];
    }
  }

  /** `Split` undoes `Join` when no piece holds the separator. */
  lemma {:induction false} SplitJoin(pieces: seq<string>, sep: char)
    requires |pieces| >= 1
    requires forall k :: 0 <= k < |pieces| ==> sep !in pieces[k]
    ensures Split(Join(pieces, sep), sep) == pieces
  {
    if |pieces| == 1 {
      SplitPrefix(pieces[0], [], sep);
      assert pieces[0] + [] == pieces[0];
    } else {
      var tail := Join(pieces[1..], sep);
      SplitJoin(pieces[1..], sep);
      assert Join(pieces, sep) == pieces[0] + ([sep] + tail);
      SplitPrefix(pieces[0], [sep] + tail, sep);
      assert ([sep] + tail)[1..] == tail;
      assert Split([sep] + tail, sep) == [[]] + pieces[1..];
      assert pieces[0] + [] == pieces[0];
      assert pieces == [pieces[0]] + pieces[1..];
    }
  }

  /** Two strings without whitespace join into one without. */
  lemma NoWhitespaceConcat(a: string, b: string)
    requires NoWhitespace(a) && NoWhitespace(b)
    ensures NoWhitespace(a + b)
  {
    forall i | 0 <= i < |a + b|
      ensures !IsJsWhitespace((a + b)[i])
    {
      if i < |a| { assert (a + b)[i] == a[i]; } else { assert (a + b)[i] == b[i - |a|]; }
    }
  }

  // ---------------------------------------------------------------------------------------------
  // replace(/\s+/g, "_")

  /** `s.replace(/\s+/g, "_")`: every maximal run of whitespace becomes one underscore. */
  function ReplaceWhitespaceRuns(s: string): (r: string)
    ensures NoWhitespace(r)
    ensures |r| <= |s|
  {
    CollapseRuns(s, false)
  }

  /** Words `ws` with the whitespace runs `runs` between them: `ws[0] + runs[0] + ws[1] + ...`. */
  function Interleave(ws: seq<string>, runs: seq<string>): string
    requires |ws| >= 1 && |runs| == |ws| - 1
  {
    if |ws| == 1 then ws[0] else ws[0] + runs[0] + Interleave(ws[1..], runs[1..])
  }

  /** The shape of a name made of words and the whitespace between them: no word holds
      whitespace, every word after the first is non-empty, and every run is whitespace only. */
  predicate WordsAndRuns(ws: seq<string>, runs: seq<string>)
  {
    && |ws| >= 1 && |runs| == |ws| - 1
    && (forall k :: 0 <= k < |ws| ==> NoWhitespace(ws[k]))
    && (forall k :: 1 <= k < |ws| ==> ws[k] != [])
    && (forall k :: 0 <= k < |runs| ==> runs[k] != [] && AllWhitespace(runs[k]))
  }

  /** Words separated by whitespace runs of any length become the words joined by `_`. */
  lemma {:induction false} ReplaceWhitespaceRunsOfWords(ws: seq<string>, runs: seq<string>)
    requires WordsAndRuns(ws, runs)
    ensures ReplaceWhitespaceRuns(Interleave(ws, runs)) == Join(ws, '_')
  {
    if |ws| == 1 {
      ReplaceWhitespaceRunsIdentity(ws[0]);
    } else {
      var rest := Interleave(ws[1..], runs[1..]);
      assert WordsAndRuns(ws[1..], runs[1..]) by {
        forall k | 1 <= k < |ws[1..]| ensures ws[1..][k] != [] { assert ws[1..][k] == ws[k + 1]; }
      }
      assert rest[0] == ws[1][0] by {
        if |ws| == 2 { } else { assert rest == ws[1] + runs[1] + Interleave(ws[2..], runs[2..]); }
      }
      ReplaceWhitespaceRunAfterWord(ws[0], runs[0], rest);
      ReplaceWhitespaceRunsOfWords(ws[1..], runs[1..]);
    }
  }

  /** The replacement from some point on, `inRun` telling whether the character before was
      whitespace (and so already stands as an underscore). */
  function CollapseRuns(s: string, inRun: bool): (r: string)
    ensures NoWhitespace(r)
    ensures |r| <= |s|
  {
    if s == [] then []
    else if !IsJsWhitespace(s[0]) then [s[0]] + CollapseRuns(s[1..], false)
    else if inRun then CollapseRuns(s[1..], true)
    else "_" + CollapseRuns(s[1..], true)
  }

  /** A string without whitespace is left as it is. */
  lemma ReplaceWhitespaceRunsIdentity(s: string)
    requires NoWhitespace(s)
    ensures ReplaceWhitespaceRuns(s) == s
  {
    CollapseKeepsWords(s, false);
  }

  lemma {:induction false} CollapseKeepsWords(s: string, inRun: bool)
    requires NoWhitespace(s)
    ensures CollapseRuns(s, inRun) == s
  {
    if s != [] {
      CollapseKeepsWords(s[1..], false);
    }
  }

  /** Inside a run, further whitespace adds nothing. */
  lemma {:induction false} CollapseSkipsRun(w: string, rest: string)
    requires AllWhitespace(w)
    ensures CollapseRuns(w + rest, true) == CollapseRuns(rest, true)
  {
    if w != [] {
      assert (w + rest)[0] == w[0] && (w + rest)[1..] == w[1..] + rest;
      CollapseSkipsRun(w[1..], rest);
    } else {
      assert w + rest == rest;
    }
  }

  /** A word, a run of whitespace, then text that does not start with whitespace: the word, one
      underscore, then the replacement of the rest. */
  lemma ReplaceWhitespaceRunAfterWord(a: string, w: string, b: string)
    requires NoWhitespace(a) && w != [] && AllWhitespace(w)
    requires b == [] || !IsJsWhitespace(b[0])
    ensures ReplaceWhitespaceRuns(a + w + b) == a + "_" + ReplaceWhitespaceRuns(b)
  {
    CollapseWordThenRun(a, w, b);
  }

  lemma {:induction false} CollapseWordThenRun(a: string, w: string, b: string)
    requires NoWhitespace(a) && w != [] && AllWhitespace(w)
    requires b == [] || !IsJsWhitespace(b[0])
    ensures CollapseRuns(a + w + b, false) == a + "_" + CollapseRuns(b, false)
  {
    if a == [] {
      assert a + w + b == w + b;
      assert (w + b)[1..] == w[1..] + b;
      CollapseSkipsRun(w[1..], b);
    } else {
      assert (a + w + b)[1..] == a[1..] + w + b;
      CollapseWordThenRun(a[1..], w, b);
      assert a + "_" + CollapseRuns(b, false) == [a[0]] + (a[1..] + "_" + CollapseRuns(b, false));
    }
  }

  // ---------------------------------------------------------------------------------------------
  // String(n) for a natural number

  predicate IsDigit(c: char) { '0' <= c <= '9' }

  predicate AllDigits(s: string) { forall i :: 0 <= i < |s| ==> IsDigit(s[i]) }

  function DigitChar(d: nat): char
    requires d < 10
  {
    ['0', '1', '2', '3', '4', '5', '6', '7', '8', '9'][d]
  }

  function DigitValue(c: char): nat
    requires IsDigit(c)
  {
    (c as int - '0' as int) as nat
  }

  /** `s` reads as the integer `n`: the digits of `n`, after a minus sign when `n` is negative.
      A string reads as at most one integer, so this is how a message is read back. */
  predicate ReadsAsInt(s: string, n: int)
  {
    if n >= 0 then s != [] && AllDigits(s) && ParseDecimal(s) == n
    else |s| >= 2 && s[0] == '-' && AllDigits(s[1..]) && ParseDecimal(s[1..]) == -n
  }

  /** The printed integer reads back as the integer. */
  lemma IntToStringReads(n: int)
    ensures ReadsAsInt(IntToString(n), n)
  {
    if n < 0 {
      var d := NatToString(-n);
      ParseNatToString(-n);
      var s := "-" + d;
      assert s == IntToString(n);
      assert s[0] == '-' && s[1..] == d;
    } else {
      var d := NatToString(n);
      ParseNatToString(n);
      assert d == IntToString(n);
    }
  }

  /** `String(n)` for an integer: a minus sign before the digits of a negative number. */
  function IntToString(n: int): string
  {
    if n < 0 then "-" + NatToString(-n) else NatToString(n)
  }

  /** `String(n)`: the shortest decimal numeral of `n`. */
  function NatToString(n: nat): (r: string)
    ensures |r| >= 1 && AllDigits(r)
    ensures n >= 10 ==> r[0] != '0'
    ensures n < 10 <==> |r| == 1
  {
    if n < 10 then [DigitChar(n)]
    else NatToString(n / 10) + [DigitChar(n % 10)]
  }

  /** The value of a decimal numeral. */
  function ParseDecimal(s: string): nat
    requires AllDigits(s)
  {
    if s == [] then 0
    else ParseDecimal(s[..|s| - 1]) * 10 + DigitValue(s[|s| - 1])
  }

  /** Reading the numeral back gives the number. */
  lemma {:induction false} ParseNatToString(n: nat)
    ensures ParseDecimal(NatToString(n)) == n
  {
    var s := NatToString(n);
    if n >= 10 {
      ParseNatToString(n / 10);
      assert s[..|s| - 1] == NatToString(n / 10);
    }
  }

  /** Leading zeros do not change the value of a numeral. */
  lemma {:induction false} ParseLeadingZero(s: string)
    requires AllDigits(s)
    ensures ParseDecimal("0" + s) == ParseDecimal(s)
  {
    if s != [] {
      var t := "0" + s;
      assert t[..|t| - 1] == "0" + s[..|s| - 1];
      ParseLeadingZero(s[..|s| - 1]);
    }
  }
}

/** The `String.prototype` operations and the regular-expression character classes the wizard
    pages rely on, over strings of characters. Case mapping covers ASCII letters only. */
module JsText {

  /** ECMAScript WhiteSpace and LineTerminator code points: what `trim` strips and what the
      regular-expression class `\s` matches. */
  predicate IsSpace(c: char) {
    || c == '\t' || c == '\n' || c == '\U{000B}' || c == '\U{000C}' || c == '\r' || c == ' '
    || c == '\U{00A0}' || c == '\U{1680}' || ('\U{2000}' <= c <= '\U{200A}')
    || c == '\U{2028}' || c == '\U{2029}' || c == '\U{202F}' || c == '\U{205F}'
    || c == '\U{3000}' || c == '\U{FEFF}'
  }

  /** The line terminators: the characters that the regular-expression `.` does not match. */
  predicate IsLineTerminator(c: char) {
    c == '\n' || c == '\r' || c == '\U{2028}' || c == '\U{2029}'
  }

  /** `s` is matched by the regular expression `.*` as a whole. */
  predicate NoLineTerminator(s: string) {
    forall i :: 0 <= i < |s| ==> !IsLineTerminator(s[i])
  }

  predicate AllSpace(s: string) {
    forall i :: 0 <= i < |s| ==> IsSpace(s[i])
  }

  predicate NoSpace(s: string) {
    forall i :: 0 <= i < |s| ==> !IsSpace(s[i])
  }

  /** `trimStart`: `s` without its leading whitespace. */
  function TrimStart(s: string): (r: string)
    ensures |r| <= |s|
    ensures r == [] || !IsSpace(r[0])
    ensures s != [] && IsSpace(s[0]) ==> |r| < |s|
  {
    if s != [] && IsSpace(s[0]) then TrimStart(s[1..]) else s
  }

  /** What `trimStart` drops is a whitespace prefix; what it keeps is the rest. */
  lemma {:induction false} TrimStartShape(s: string)
    ensures var r := TrimStart(s); r == s[|s| - |r|..] && AllSpace(s[..|s| - |r|])
    decreases |s|
  {
    if s != [] && IsSpace(s[0]) {
      TrimStartShape(s[1..]);
      var r := TrimStart(s);
      assert s[1..][..|s| - 1 - |r|] == s[1..|s| - |r|];
    }
  }

  /** `trimEnd`: `s` without its trailing whitespace. */
  function TrimEnd(s: string): (r: string)
    ensures |r| <= |s|
    ensures r == [] || !IsSpace(r[|r| - 1])
  {
    if s != [] && IsSpace(s[|s| - 1]) then TrimEnd(s[..|s| - 1]) else s
  }

  /** What `trimEnd` drops is a whitespace suffix; what it keeps is the rest. */
  lemma {:induction false} TrimEndShape(s: string)
    ensures var r := TrimEnd(s); r == s[..|r|] && AllSpace(s[|r|..])
    decreases |s|
  {
    if s != [] && IsSpace(s[|s| - 1]) {
      TrimEndShape(s[..|s| - 1]);
      var r := TrimEnd(s);
      assert s[..|s| - 1][..|r|] == s[..|r|];
      assert s[..|s| - 1][|r|..] == s[|r|..|s| - 1];
    }
  }

  /** `trim`: `s` without whitespace at either end. */
  function Trim(s: string): (r: string)
    ensures r == [] || (!IsSpace(r[0]) && !IsSpace(r[|r| - 1]))
  {
    var t := TrimStart(s);
    TrimEndShape(t);
    TrimEnd(t)
  }

  /** `trim` gives the empty string exactly for an all-whitespace input. */
  lemma TrimEmpty(s: string)
    ensures Trim(s) == [] <==> AllSpace(s)
  {
    var t := TrimStart(s);
    TrimStartShape(s);
    TrimEndShape(t);
    assert s == s[..|s| - |t|] + t;
    if t != [] {
      assert t[0] == s[|s| - |t|];
    }
  }

  /** `toLowerCase` on one character (ASCII letters only). */
  function LowerChar(c: char): char {
    if 'A' <= c <= 'Z' then (c as int + 32) as char else c
  }

  /** `toUpperCase` on one character (ASCII letters only). */
  function UpperChar(c: char): char {
    if 'a' <= c <= 'z' then (c as int - 32) as char else c
  }

  /** `toLowerCase`. */
  function Lower(s: string): (r: string)
    ensures |r| == |s|
    ensures forall i :: 0 <= i < |s| ==> !('A' <= r[i] <= 'Z')
  {
    seq(|s|, i requires 0 <= i < |s| => LowerChar(s[i]))
  }

  /** `toUpperCase`. */
  function Upper(s: string): (r: string)
    ensures |r| == |s|
    ensures forall i :: 0 <= i < |s| ==> !('a' <= r[i] <= 'z')
  {
    seq(|s|, i requires 0 <= i < |s| => UpperChar(s[i]))
  }

  /** Upper-casing twice is upper-casing once. */
  lemma UpperIdempotent(s: string)
    ensures Upper(Upper(s)) == Upper(s)
  {
    forall i | 0 <= i < |s| ensures Upper(Upper(s))[i] == Upper(s)[i] {
      assert !('a' <= Upper(s)[i] <= 'z');
    }
  }

  /** `startsWith`. */
  predicate StartsWith(s: string, prefix: string) {
    prefix <= s
  }

  /** `endsWith`. */
  predicate EndsWith(s: string, suffix: string) {
    |suffix| <= |s| && s[|s| - |suffix|..] == suffix
  }

  /** `sub` occurs in `s` starting at position `i`. */
  predicate OccursAt(s: string, sub: string, i: nat) {
    i + |sub| <= |s| && s[i..i + |sub|] == sub
  }

  /** `includes`: `sub` occurs in `s`. */
  predicate Includes(s: string, sub: string)
    decreases |s|
  {
    StartsWith(s, sub) || (s != [] && Includes(s[1..], sub))
  }

  /** `includes` holds exactly when `sub` occurs at some position of `s`. */
  lemma {:induction false} IncludesAt(s: string, sub: string)
    ensures Includes(s, sub) <==> exists i: nat :: OccursAt(s, sub, i)
    decreases |s|
  {
    if s != [] {
      IncludesAt(s[1..], sub);
      if Includes(s[1..], sub) {
        var i: nat :| OccursAt(s[1..], sub, i);
        assert s[1..][i..i + |sub|] == s[i + 1..i + 1 + |sub|];
        assert OccursAt(s, sub, i + 1);
      }
      if StartsWith(s, sub) {
        assert OccursAt(s, sub, 0);
      }
      if exists i: nat :: OccursAt(s, sub, i) {
        var i: nat :| OccursAt(s, sub, i);
        if i > 0 {
          assert s[1..][i - 1..i - 1 + |sub|] == s[i..i + |sub|];
          assert OccursAt(s[1..], sub, i - 1);
        }
      }
    } else {
      if exists i: nat :: OccursAt(s, sub, i) {
        var i: nat :| OccursAt(s, sub, i);
        assert i == 0 && sub == [];
      }
      if sub == [] {
        assert OccursAt(s, sub, 0);
      }
    }
  }

  /** `join`. */
  function Join(parts: seq<string>, sep: string): string
    decreases |parts|
  {
    if |parts| == 0 then ""
    else if |parts| == 1 then parts[0]
    else parts[0] + sep + Join(parts[1..], sep)
  }

  // ---------------------------------------------------------------------------
  // `replace(/\s+/g, rep)` and the words it separates.

  /** The longest prefix of `s` without whitespace. */
  function TakeWord(s: string): (r: string)
    ensures |r| <= |s|
    ensures s != [] && !IsSpace(s[0]) ==> |r| >= 1
  {
    if s == [] || IsSpace(s[0]) then [] else [s[0]] + TakeWord(s[1..])
  }

  /** `TakeWord` stops at the first whitespace character. */
  lemma {:induction false} TakeWordShape(s: string)
    ensures var r := TakeWord(s); r <= s && NoSpace(r) && (|r| < |s| ==> IsSpace(s[|r|]))
    decreases |s|
  {
    if s != [] && !IsSpace(s[0]) {
      TakeWordShape(s[1..]);
    }
  }

  /** The maximal runs of non-whitespace characters of `s`, left to right. */
  function Words(s: string): seq<string>
    decreases |s|
  {
    var t := TrimStart(s);
    if t == [] then []
    else
      var w := TakeWord(t);
      [w] + Words(t[|w|..])
  }

  /** Every word is non-empty and holds no whitespace. */
  lemma {:induction false} WordsAreWords(s: string)
    ensures forall i :: 0 <= i < |Words(s)| ==> Words(s)[i] != [] && NoSpace(Words(s)[i])
    decreases |s|
  {
    var t := TrimStart(s);
    if t != [] {
      var w := TakeWord(t);
      TakeWordShape(t);
      WordsAreWords(t[|w|..]);
    }
  }

  /** `s.replace(/\s+/g, rep)`: every maximal run of whitespace becomes one `rep`. */
  function ReplaceSpaceRuns(s: string, rep: string): string
    decreases |s|
  {
    if s == [] then []
    else if IsSpace(s[0]) then rep + ReplaceSpaceRuns(TrimStart(s), rep)
    else [s[0]] + ReplaceSpaceRuns(s[1..], rep)
  }

  lemma {:induction false} ReplaceAfterWord(w: string, u: string, rep: string)
    requires NoSpace(w)
    ensures ReplaceSpaceRuns(w + u, rep) == w + ReplaceSpaceRuns(u, rep)
    decreases |w|
  {
    if w == [] {
      assert w + u == u;
    } else {
      assert (w + u)[0] == w[0];
      assert (w + u)[1..] == w[1..] + u;
      ReplaceAfterWord(w[1..], u, rep);
      assert w == [w[0]] + w[1..];
    }
  }

  /** On a trimmed string, replacing whitespace runs joins its words with `rep`. */
  lemma {:induction false} ReplaceTrimmed(s: string, rep: string)
    requires s == [] || (!IsSpace(s[0]) && !IsSpace(s[|s| - 1]))
    ensures ReplaceSpaceRuns(s, rep) == Join(Words(s), rep)
    decreases |s|
  {
    if s != [] {
      assert TrimStart(s) == s;
      var w := TakeWord(s);
      TakeWordShape(s);
      var u := s[|w|..];
      assert s == w + u;
      assert Words(s) == [w] + Words(u);
      ReplaceAfterWord(w, u, rep);
      if u != [] {
        assert IsSpace(u[0]);
        var v := TrimStart(u);
        assert u[|u| - 1] == s[|s| - 1];
        TrimStartKeepsLast(u);
        assert ReplaceSpaceRuns(u, rep) == rep + ReplaceSpaceRuns(v, rep);
        assert TrimStart(v) == v;
        assert Words(u) == Words(v);
        ReplaceTrimmed(v, rep);
        var ws := Words(v);
        assert ws != [];
        assert ([w] + ws)[1..] == ws;
      }
    }
  }

  /** `trimStart` keeps a non-whitespace last character. */
  lemma {:induction false} TrimStartKeepsLast(u: string)
    requires u != [] && !IsSpace(u[|u| - 1])
    ensures TrimStart(u) != [] && TrimStart(u)[|TrimStart(u)| - 1] == u[|u| - 1]
    decreases |u|
  {
    if IsSpace(u[0]) {
      TrimStartKeepsLast(u[1..]);
    }
  }

  lemma {:induction false} TrimStartOfSpaces(s: string)
    requires AllSpace(s)
    ensures TrimStart(s) == []
    decreases |s|
  {
    if s != [] {
      TrimStartOfSpaces(s[1..]);
    }
  }

  lemma {:induction false} TrimStartAppend(x: string, y: string)
    ensures TrimStart(x + y) == if TrimStart(x) == [] then TrimStart(y) else TrimStart(x) + y
    decreases |x|
  {
    if x == [] {
      assert x + y == y;
    } else {
      assert (x + y)[0] == x[0];
      assert (x + y)[1..] == x[1..] + y;
      TrimStartAppend(x[1..], y);
    }
  }

  lemma {:induction false} TakeWordAppend(t: string, y: string)
    ensures TakeWord(t + y) == if TakeWord(t) == t then t + TakeWord(y) else TakeWord(t)
    decreases |t|
  {
    if t == [] {
      assert t + y == y;
    } else {
      assert (t + y)[0] == t[0];
      assert (t + y)[1..] == t[1..] + y;
      TakeWordAppend(t[1..], y);
      if !IsSpace(t[0]) {
        assert TakeWord(t) == [t[0]] + TakeWord(t[1..]);
        assert t == [t[0]] + t[1..];
      }
    }
  }

  /** Trailing whitespace adds no word. */
  lemma {:induction false} WordsAppendSpaces(x: string, sp: string)
    requires AllSpace(sp)
    ensures Words(x + sp) == Words(x)
    decreases |x|
  {
    var t := TrimStart(x);
    TrimStartAppend(x, sp);
    TrimStartOfSpaces(sp);
    if t != [] {
      assert TrimStart(x + sp) == t + sp;
      var w := TakeWord(t);
      TakeWordAppend(t, sp);
      assert TakeWord(sp) == [] by {
        if sp != [] { assert IsSpace(sp[0]); }
      }
      assert TakeWord(t + sp) == w;
      assert (t + sp)[|w|..] == t[|w|..] + sp;
      assert |t[|w|..]| < |x|;
      WordsAppendSpaces(t[|w|..], sp);
      assert Words(x + sp) == [w] + Words(t[|w|..] + sp);
    }
  }

  /** Whitespace at either end adds no word. */
  lemma {:induction false} WordsOfTrim(s: string)
    ensures Words(Trim(s)) == Words(s)
  {
    var t := TrimStart(s);
    assert TrimStart(t) == t;
    assert Words(t) == Words(s);
    var r := TrimEnd(t);
    TrimEndShape(t);
    assert t == r + t[|r|..];
    WordsAppendSpaces(r, t[|r|..]);
  }

  /** `s.trim().replace(/\s+/g, rep)`: the words of `s` joined by `rep`, so that whitespace at the
      ends contributes nothing and each inner run of whitespace becomes exactly one `rep`. */
  lemma TrimThenReplace(s: string, rep: string)
    ensures ReplaceSpaceRuns(Trim(s), rep) == Join(Words(s), rep)
  {
    ReplaceTrimmed(Trim(s), rep);
    WordsOfTrim(s);
  }

  /** A word is taken whole. */
  lemma {:induction false} TakeWordOfWord(w: string)
    requires NoSpace(w)
    ensures TakeWord(w) == w
  {
    TakeWordShape(w);
  }

  /** A word, then a separating space and more: the word comes first. */
  lemma {:induction false} WordsOfSpaced(w: string, rest: string)
    requires w != [] && NoSpace(w)
    ensures Words(w + " " + rest) == [w] + Words(rest)
  {
    var s := w + (" " + rest);
    assert s == w + " " + rest;
    TrimStartAppend(w, " " + rest);
    assert TrimStart(w) == w;
    assert TrimStart(s) == s;
    TakeWordAppend(w, " " + rest);
    TakeWordOfWord(w);
    assert TakeWord(" " + rest) == [];
    assert TakeWord(s) == w;
    assert s[|w|..] == " " + rest;
    assert (" " + rest)[1..] == rest;
    assert TrimStart(" " + rest) == TrimStart(rest);
    assert Words(" " + rest) == Words(rest);
  }

  /** Each entry is non-empty and holds no whitespace. */
  predicate AreWords(ws: seq<string>) {
    forall i :: 0 <= i < |ws| ==> ws[i] != [] && NoSpace(ws[i])
  }

  /** Words separated by single spaces are read back as those words. */
  lemma {:induction false} WordsOfJoin(ws: seq<string>)
    requires AreWords(ws)
    ensures Words(Join(ws, " ")) == ws
    decreases |ws|
  {
    if |ws| == 1 {
      var w := ws[0];
      TakeWordOfWord(w);
      assert TrimStart(w) == w;
      assert w[|w|..] == [];
      assert Words(w) == [w] + Words([]);
    } else if |ws| >= 2 {
      WordsOfJoin(ws[1..]);
      WordsOfSpaced(ws[0], Join(ws[1..], " "));
      assert ws == [ws[0]] + ws[1..];
    }
  }

  // ---------------------------------------------------------------------------
  // Template literals `${n}` of a non-negative integer.

  function DigitChar(d: nat): char
    requires d < 10
  {
    ('0' as int + d) as char
  }

  predicate IsDigit(c: char) {
    '0' <= c <= '9'
  }

  /** The number a string of decimal digits denotes. */
  function DigitsValue(s: string): int
    requires forall i :: 0 <= i < |s| ==> IsDigit(s[i])
    decreases |s|
  {
    if s == [] then 0 else DigitsValue(s[..|s| - 1]) * 10 + (s[|s| - 1] as int - '0' as int)
  }

  /** The decimal rendering of `n`, as `${n}` writes it. */
  function DecimalString(n: nat): (r: string)
    ensures r != [] && forall i :: 0 <= i < |r| ==> IsDigit(r[i])
    ensures r[0] == '0' ==> n == 0 && r == "0"
  {
    if n < 10 then [DigitChar(n)] else DecimalString(n / 10) + [DigitChar(n % 10)]
  }

  /** Reading the rendering back gives the number. */
  lemma {:induction false} DecimalRoundTrip(n: nat)
    ensures DigitsValue(DecimalString(n)) == n
  {
    var r := DecimalString(n);
    if n >= 10 {
      DecimalRoundTrip(n / 10);
      assert r[..|r| - 1] == DecimalString(n / 10);
    }
  }
}

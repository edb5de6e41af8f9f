/** The string primitives the meal normaliser relies on, written out as JavaScript
    defines them: `String.prototype.trim`, `split(/\r?\n/)` and the decimal
    rendering of a non-negative integer inside a template literal. */
module Text {

  /** JavaScript's WhiteSpace and LineTerminator code points (the set `trim` strips):
      TAB, LF, VT, FF, CR, SPACE, NBSP, the Unicode space separators (Zs),
      LINE SEPARATOR, PARAGRAPH SEPARATOR and the byte order mark. */
  predicate IsWhitespace(c: char) {
    || c == '\t' || c == '\n' || c == '\U{B}' || c == '\U{C}' || c == '\r'
    || c == ' ' || c == '\U{A0}' || c == '\U{1680}'
    || ('\U{2000}' <= c <= '\U{200A}')
    || c == '\U{2028}' || c == '\U{2029}' || c == '\U{202F}' || c == '\U{205F}'
    || c == '\U{3000}' || c == '\U{FEFF}'
  }

  /** A string made of whitespace only (the empty string included). */
  ghost predicate Blank(s: string) {
    forall i :: 0 <= i < |s| ==> IsWhitespace(s[i])
  }

  /** `s` without its leading whitespace: a suffix of `s`. */
  function TrimStart(s: string): (r: string)
    ensures |r| <= |s| && r == s[|s| - |r|..]
    ensures r != [] ==> !IsWhitespace(r[0])
  {
    if s != [] && IsWhitespace(s[0]) then TrimStart(s[1..]) else s
  }

  /** `s` without its trailing whitespace: a prefix of `s`. */
  function TrimEnd(s: string): (r: string)
    ensures |r| <= |s| && r == s[..|r|]
    ensures r != [] ==> !IsWhitespace(r[|r| - 1])
  {
    if s != [] && IsWhitespace(s[|s| - 1]) then TrimEnd(s[..|s| - 1]) else s
  }

  /** What `TrimStart` cuts off is whitespace. */
  lemma {:induction false} TrimStartCutsBlank(s: string)
    ensures forall i :: 0 <= i < |s| - |TrimStart(s)| ==> IsWhitespace(s[i])
  {
    if s != [] && IsWhitespace(s[0]) {
      TrimStartCutsBlank(s[1..]);
      forall i | 1 <= i < |s| - |TrimStart(s)| ensures IsWhitespace(s[i]) {
        assert s[i] == s[1..][i - 1];
      }
    }
  }

  /** What `TrimEnd` cuts off is whitespace. */
  lemma {:induction false} TrimEndCutsBlank(s: string)
    ensures forall i :: |TrimEnd(s)| <= i < |s| ==> IsWhitespace(s[i])
  {
    if s != [] && IsWhitespace(s[|s| - 1]) {
      TrimEndCutsBlank(s[..|s| - 1]);
      forall i | |TrimEnd(s)| <= i < |s| - 1 ensures IsWhitespace(s[i]) {
        assert s[i] == s[..|s| - 1][i];
      }
    }
  }

  /** `String.prototype.trim`: neither end of a non-empty result is whitespace. */
  function Trim(s: string): (r: string)
    ensures |r| <= |s|
    ensures r != [] ==> !IsWhitespace(r[0]) && !IsWhitespace(r[|r| - 1])
  {
    TrimEnd(TrimStart(s))
  }

  /** `s.trim()` is falsy (empty) exactly when `s` is blank. */
  lemma {:induction false} TrimEmptyIffBlank(s: string)
    ensures Trim(s) == [] <==> Blank(s)
  {
    TrimStartCutsBlank(s);
    TrimEndCutsBlank(TrimStart(s));
  }

  /** Text that starts with a visible character does not trim to nothing. */
  lemma {:induction false} TrimKeepsVisibleStart(s: string)
    requires s != [] && !IsWhitespace(s[0])
    ensures Trim(s) != []
  {
    TrimEmptyIffBlank(s);
  }

  /** A string with no whitespace at either end is its own trim. */
  lemma {:induction false} TrimOfTrimmed(s: string)
    requires s != [] ==> !IsWhitespace(s[0]) && !IsWhitespace(s[|s| - 1])
    ensures Trim(s) == s
  {
  }

  /** Trimming is idempotent. */
  lemma {:induction false} TrimIdempotent(s: string)
    ensures Trim(Trim(s)) == Trim(s)
  {
    TrimOfTrimmed(Trim(s));
  }

  /** Two trimmed, non-empty pieces joined by a space are still trimmed. */
  lemma {:induction false} TrimSpaceJoin(a: string, b: string)
    requires a != [] && Trim(a) == a
    requires b != [] && Trim(b) == b
    ensures Trim(a + " " + b) == a + " " + b
  {
    var joined := a + " " + b;
    assert joined[0] == a[0] && joined[|joined| - 1] == b[|b| - 1];
    TrimOfTrimmed(joined);
  }

  /** The segments `s.split(/\r?\n/)` yields. At each position the pattern matches
      CR LF or a lone LF; every other character extends the current segment, so a
      CR not followed by LF is kept. */
  function SplitLines(s: string): (r: seq<string>)
    ensures |r| >= 1
    ensures forall line :: line in r ==> '\n' !in line
  {
    if s == [] then [""]
    else if s[0] == '\n' then [""] + SplitLines(s[1..])
    else if |s| >= 2 && s[0] == '\r' && s[1] == '\n' then [""] + SplitLines(s[2..])
    else
      var rest := SplitLines(s[1..]);
      [[s[0]] + rest[0]] + rest[1..]
  }

  /** One trailing CR removed, if there is one. */
  function DropTrailingCR(s: string): (r: string)
    ensures s == r || s == r + "\r"
  {
    if s != [] && s[|s| - 1] == '\r' then s[..|s| - 1] else s
  }

  /** A line without CR has no trailing CR to drop. */
  lemma {:induction false} NoTrailingCR(s: string)
    requires '\r' !in s
    ensures DropTrailingCR(s) == s
  {
    if s != [] {
      assert s[|s| - 1] in s;
    }
  }

  /** Text without a line feed is one segment. */
  lemma {:induction false} SplitWithoutLineFeed(s: string)
    requires '\n' !in s
    ensures SplitLines(s) == [s]
  {
    if s != [] {
      SplitWithoutLineFeed(s[1..]);
      assert [s[0]] + s[1..] == s;
    }
  }

  /** The first line feed ends the first segment; a CR right before it belongs to
      the separator (`\r\n`), not to the segment. */
  lemma {:induction false} SplitAtFirstLineFeed(a: string, b: string)
    requires '\n' !in a
    ensures SplitLines(a + "\n" + b) == [DropTrailingCR(a)] + SplitLines(b)
  {
    var s := a + "\n" + b;
    if a == [] {
      assert s[1..] == b;
    } else if a == "\r" {
      assert s[2..] == b;
    } else {
      var tail := a[1..];
      assert '\n' !in tail by { assert forall c :: c in tail ==> c in a; }
      SplitAtFirstLineFeed(tail, b);
      SplitFirstCharacter(a, b);
      DropTrailingCRAfterFirst(a);
    }
  }

  /** A first character that starts no separator joins the first segment. */
  lemma {:induction false} SplitFirstCharacter(a: string, b: string)
    requires a != [] && a != "\r" && '\n' !in a
    ensures var rest := SplitLines(a[1..] + "\n" + b);
            SplitLines(a + "\n" + b) == [[a[0]] + rest[0]] + rest[1..]
  {
    var s := a + "\n" + b;
    assert s[0] == a[0] && s[1..] == a[1..] + "\n" + b;
    assert |a| >= 2 ==> s[1] == a[1];
  }

  /** Dropping a trailing CR does not touch the first character of a longer line. */
  lemma {:induction false} DropTrailingCRAfterFirst(a: string)
    requires a != [] && a != "\r"
    ensures [a[0]] + DropTrailingCR(a[1..]) == DropTrailingCR(a)
  {
    if |a| >= 2 {
      assert a[1..][|a| - 2] == a[|a| - 1];
      assert [a[0]] + a[1..][..|a| - 2] == a[..|a| - 1];
    }
  }

  /** Joins segments with LF, the inverse of splitting text that holds no CR. */
  function JoinLines(lines: seq<string>): (r: string)
  {
    if lines == [] then ""
    else if |lines| == 1 then lines[0]
    else lines[0] + "\n" + JoinLines(lines[1..])
  }

  /** Splitting text without CR and joining with LF gives the text back. */
  lemma {:induction false} JoinSplitLines(s: string)
    requires '\r' !in s
    ensures JoinLines(SplitLines(s)) == s
  {
    if s == [] {
    } else if s[0] == '\n' {
      JoinSplitLines(s[1..]);
      assert s == "\n" + s[1..];
    } else {
      var rest := SplitLines(s[1..]);
      JoinSplitLines(s[1..]);
      assert SplitLines(s) == [[s[0]] + rest[0]] + rest[1..];
      JoinLinesCons(s[0], rest);
      assert [s[0]] + s[1..] == s;
    }
  }

  /** A character put in front of the first segment comes out in front of the text. */
  lemma {:induction false} JoinLinesCons(c: char, lines: seq<string>)
    requires |lines| >= 1
    ensures JoinLines([[c] + lines[0]] + lines[1..]) == [c] + JoinLines(lines)
  {
    var consed := [[c] + lines[0]] + lines[1..];
    assert |consed| == |lines| && consed[0] == [c] + lines[0];
    if |lines| > 1 {
      var tail := JoinLines(lines[1..]);
      assert consed[1..] == lines[1..];
      assert JoinLines(consed) == ([c] + lines[0]) + "\n" + tail;
      assert JoinLines(lines) == lines[0] + "\n" + tail;
      assert ([c] + lines[0]) + "\n" + tail == [c] + (lines[0] + "\n" + tail);
    }
  }

  /** The ASCII digit for `d`. */
  function DigitChar(d: nat): (c: char)
    requires d < 10
    ensures '0' <= c <= '9' && c as int - '0' as int == d
  {
    ('0' as int + d) as char
  }

  /** Whether every character is an ASCII digit. */
  predicate IsDigits(s: string) {
    forall i :: 0 <= i < |s| ==> '0' <= s[i] <= '9'
  }

  /** How JavaScript renders a non-negative integer as text: shortest decimal form. */
  function DecimalString(n: nat): (r: string)
    ensures r != [] && IsDigits(r)
    ensures r[0] == '0' ==> n == 0 && r == "0"
  {
    if n < 10 then [DigitChar(n)]
    else DecimalString(n / 10) + [DigitChar(n % 10)]
  }

  /** The number a string of decimal digits denotes. */
  function DecimalValue(s: string): (n: nat)
    requires IsDigits(s)
  {
    if s == [] then 0
    else DecimalValue(s[..|s| - 1]) * 10 + (s[|s| - 1] as int - '0' as int)
  }

  /** Reading back a rendered number gives the number. */
  lemma {:induction false} DecimalRoundTrip(n: nat)
    ensures DecimalValue(DecimalString(n)) == n
  {
    if n >= 10 {
      DecimalRoundTrip(n / 10);
      var r := DecimalString(n);
      assert r[..|r| - 1] == DecimalString(n / 10);
    }
  }

  /** Different numbers render differently (so the numbered field names differ). */
  lemma {:induction false} DecimalStringInjective(m: nat, n: nat)
    requires DecimalString(m) == DecimalString(n)
    ensures m == n
  {
    DecimalRoundTrip(m);
    DecimalRoundTrip(n);
  }
}

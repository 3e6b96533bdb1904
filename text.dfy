/**
 * The string operations of Python that the tool relies on: `str.isspace`, `str.strip`,
 * `str.split()` without a separator, and the decimal `str` of an integer that the
 * f-strings of the table builder write.
 */
module Text {
  import opened Wrappers

  /** Python's `str.isspace()` for one character. */
  predicate IsSpace(c: char) {
    || c == ' '
    || '\t' <= c <= '\r'
    || '\U{1c}' <= c <= '\U{1f}'
    || c == '\U{85}' || c == '\U{a0}' || c == '\U{1680}'
    || '\U{2000}' <= c <= '\U{200a}'
    || c == '\U{2028}' || c == '\U{2029}' || c == '\U{202f}' || c == '\U{205f}' || c == '\U{3000}'
  }

  predicate AllSpace(s: string) {
    forall i :: 0 <= i < |s| ==> IsSpace(s[i])
  }

  predicate NoSpace(s: string) {
    forall i :: 0 <= i < |s| ==> !IsSpace(s[i])
  }

  // ---------------------------------------------------------------------------------
  // str.strip()

  /** `str.lstrip()`. Its properties are in `StripLeftKeepsSuffix`. */
  function StripLeft(s: string): string {
    if s != [] && IsSpace(s[0]) then StripLeft(s[1..]) else s
  }

  /** `str.rstrip()`. Its properties are in `StripRightKeepsPrefix`. */
  function StripRight(s: string): string {
    if s != [] && IsSpace(s[|s| - 1]) then StripRight(s[..|s| - 1]) else s
  }

  /** `str.strip()`: `s` without whitespace at either end. */
  function Strip(s: string): string {
    StripRight(StripLeft(s))
  }

  /** `lstrip` removes a whitespace-only prefix and leaves a non-whitespace first character. */
  lemma {:induction false} StripLeftKeepsSuffix(s: string)
    ensures var r := StripLeft(s);
      && |r| <= |s| && r == s[|s| - |r|..]
      && AllSpace(s[..|s| - |r|])
      && (r == [] || !IsSpace(r[0]))
  {
    if s != [] && IsSpace(s[0]) {
      StripLeftKeepsSuffix(s[1..]);
      var r := StripLeft(s);
      assert s[..|s| - |r|] == [s[0]] + s[1..][..|s| - 1 - |r|];
    }
  }

  /** `rstrip` removes a whitespace-only suffix and leaves a non-whitespace last character. */
  lemma {:induction false} StripRightKeepsPrefix(s: string)
    ensures var r := StripRight(s);
      && |r| <= |s| && r == s[..|r|]
      && AllSpace(s[|r|..])
      && (r == [] || !IsSpace(r[|r| - 1]))
  {
    if s != [] && IsSpace(s[|s| - 1]) {
      var p := s[..|s| - 1];
      StripRightKeepsPrefix(p);
      var r := StripRight(s);
      assert s[|r|..] == p[|r|..] + [s[|s| - 1]];
    }
  }

  /** `strip()` is empty exactly when `s` is whitespace only. */
  lemma StripBlank(s: string)
    ensures Strip(s) == [] <==> AllSpace(s)
  {
    var l := StripLeft(s);
    var r := StripRight(l);
    StripLeftKeepsSuffix(s);
    StripRightKeepsPrefix(l);
    var i := |s| - |l|;
    if r == [] {
      assert l == l[|r|..];
      assert s == s[..i] + l;
    } else {
      assert s[i] == r[0];
    }
  }

  // ---------------------------------------------------------------------------------
  // str.split()

  /** The longest prefix of `s` that holds no whitespace. */
  function Word(s: string): (w: string)
    ensures |w| <= |s| && w == s[..|w|] && NoSpace(w)
    ensures |w| < |s| ==> IsSpace(s[|w|])
  {
    if s == [] || IsSpace(s[0]) then [] else [s[0]] + Word(s[1..])
  }

  /** `str.split()` with no separator: the maximal runs of non-whitespace characters, in order. */
  function Split(s: string): seq<string>
    decreases |s|
  {
    if s == [] then []
    else if IsSpace(s[0]) then Split(s[1..])
    else
      var w := Word(s);
      [w] + Split(s[|w|..])
  }

  /** Every token of `split()` is non-empty and holds no whitespace. */
  lemma {:induction false} SplitTokens(s: string)
    ensures forall t :: t in Split(s) ==> t != [] && NoSpace(t)
    decreases |s|
  {
    if s != [] {
      if IsSpace(s[0]) {
        SplitTokens(s[1..]);
      } else {
        SplitTokens(s[|Word(s)|..]);
      }
    }
  }

  /** Tokens joined by one whitespace character: the partner that `Split` undoes. */
  function Join(ts: seq<string>, sep: char): string {
    if ts == [] then []
    else if |ts| == 1 then ts[0]
    else ts[0] + [sep] + Join(ts[1..], sep)
  }

  lemma {:induction false} SplitSkipsLeadingSpace(p: string, s: string)
    requires AllSpace(p)
    ensures Split(p + s) == Split(s)
    decreases |p|
  {
    if p != [] {
      calc {
        Split(p + s);
        { assert p + s != [] && IsSpace((p + s)[0]); }
        Split((p + s)[1..]);
        { assert (p + s)[1..] == p[1..] + s; }
        Split(p[1..] + s);
        { SplitSkipsLeadingSpace(p[1..], s); }
        Split(s);
      }
    } else {
      assert p + s == s;
    }
  }

  lemma {:induction false} WordBeforeSpace(w: string, rest: string)
    requires NoSpace(w)
    requires rest == [] || IsSpace(rest[0])
    ensures Word(w + rest) == w
    decreases |w|
  {
    if w == [] {
    } else {
      assert (w + rest)[1..] == w[1..] + rest;
      WordBeforeSpace(w[1..], rest);
    }
  }

  /** A word followed by whitespace (or by nothing) is split off as the first token. */
  lemma SplitWordThen(w: string, rest: string)
    requires w != [] && NoSpace(w)
    requires rest == [] || IsSpace(rest[0])
    ensures Split(w + rest) == [w] + Split(rest)
  {
    WordBeforeSpace(w, rest);
    assert (w + rest)[|w|..] == rest;
  }

  lemma {:induction false} SplitIgnoresTrailingSpace(s: string, p: string)
    requires AllSpace(p)
    ensures Split(s + p) == Split(s)
    decreases |s|
  {
    if s == [] {
      assert s + p == p + [];
      SplitSkipsLeadingSpace(p, []);
    } else if IsSpace(s[0]) {
      assert (s + p)[1..] == s[1..] + p;
      SplitIgnoresTrailingSpace(s[1..], p);
    } else {
      var w := Word(s);
      var tail := s[|w|..];
      assert s == w + tail;
      assert s + p == w + (tail + p);
      SplitWordThen(w, tail + p);
      SplitWordThen(w, tail);
      SplitIgnoresTrailingSpace(tail, p);
    }
  }

  /** `line.strip().split()` splits exactly as `line.split()` does. */
  lemma SplitOfStrip(s: string)
    ensures Split(Strip(s)) == Split(s)
  {
    var l := StripLeft(s);
    var r := StripRight(l);
    StripLeftKeepsSuffix(s);
    StripRightKeepsPrefix(l);
    var front := s[..|s| - |l|];
    var back := l[|r|..];
    calc {
      Split(s);
      { assert s == front + l; }
      Split(front + l);
      { SplitSkipsLeadingSpace(front, l); }
      Split(l);
      { assert l == r + back; }
      Split(r + back);
      { SplitIgnoresTrailingSpace(r, back); }
      Split(r);
    }
  }

  /** Round trip: splitting tokens joined by whitespace gives the tokens back. */
  lemma {:induction false} SplitJoin(ts: seq<string>, sep: char)
    requires IsSpace(sep)
    requires forall i :: 0 <= i < |ts| ==> ts[i] != [] && NoSpace(ts[i])
    ensures Split(Join(ts, sep)) == ts
    decreases |ts|
  {
    if |ts| == 1 {
      SplitWordThen(ts[0], []);
      assert ts[0] + [] == ts[0];
    } else if |ts| > 1 {
      SplitWordSep(ts[0], sep, Join(ts[1..], sep));
      SplitJoin(ts[1..], sep);
      assert ts == [ts[0]] + ts[1..];
    }
  }

  /** A word, one whitespace character, then the rest: the word is the first token. */
  lemma SplitWordSep(w: string, sep: char, rest: string)
    requires w != [] && NoSpace(w) && IsSpace(sep)
    ensures Split(w + [sep] + rest) == [w] + Split(rest)
  {
    assert w + [sep] + rest == w + ([sep] + rest);
    SplitWordThen(w, [sep] + rest);
    SplitSkipsLeadingSpace([sep], rest);
  }

  // ---------------------------------------------------------------------------------
  // Decimal integers, as `str(i)` and f-strings write them

  predicate IsDigits(s: string) {
    forall i :: 0 <= i < |s| ==> '0' <= s[i] <= '9'
  }

  function DigitChar(d: nat): (c: char)
    requires d < 10
    ensures '0' <= c <= '9' && c as int - '0' as int == d
  {
    ('0' as int + d) as char
  }

  /** The decimal digits of `n`, most significant first, without leading zeros. */
  function NatToString(n: nat): (s: string)
    ensures s != [] && IsDigits(s)
    ensures |s| > 1 ==> s[0] != '0'
  {
    if n < 10 then [DigitChar(n)] else NatToString(n / 10) + [DigitChar(n % 10)]
  }

  /** `str(i)`: a minus sign for a negative number, then the digits of its magnitude. */
  function IntToString(i: int): (s: string)
    ensures s != []
    ensures s[0] == '-' || '0' <= s[0] <= '9'
  {
    if i < 0 then "-" + NatToString(-i) else NatToString(i)
  }

  /** `str(i)` is a single token: a sign and digits hold no whitespace. */
  lemma IntToStringHasNoSpace(i: int)
    ensures NoSpace(IntToString(i))
  {
    var s := IntToString(i);
    forall k | 0 <= k < |s|
      ensures !IsSpace(s[k])
    {
      if i < 0 && k > 0 {
        assert s[k] == NatToString(-i)[k - 1];
      }
    }
  }

  /** The value of a string of decimal digits. */
  function DigitsValue(s: string): nat
    requires IsDigits(s)
  {
    if s == [] then 0 else DigitsValue(s[..|s| - 1]) * 10 + (s[|s| - 1] as int - '0' as int)
  }

  /** Reads back what `IntToString` writes: an optional minus sign and at least one digit. */
  function ParseInt(s: string): Option<int> {
    if |s| >= 2 && s[0] == '-' && IsDigits(s[1..]) then Some(0 - DigitsValue(s[1..]))
    else if s != [] && IsDigits(s) then Some(DigitsValue(s))
    else None
  }

  lemma {:induction false} NatToStringRoundTrip(n: nat)
    ensures DigitsValue(NatToString(n)) == n
  {
    if n >= 10 {
      var s := NatToString(n / 10) + [DigitChar(n % 10)];
      assert s[..|s| - 1] == NatToString(n / 10);
      NatToStringRoundTrip(n / 10);
    }
  }

  /** Round trip: the decimal form of every integer reads back as that integer. */
  lemma IntToStringRoundTrip(i: int)
    ensures ParseInt(IntToString(i)) == Some(i)
  {
    if i < 0 {
      var s := "-" + NatToString(-i);
      assert s[1..] == NatToString(-i);
      NatToStringRoundTrip(-i);
    } else {
      NatToStringRoundTrip(i);
    }
  }
}

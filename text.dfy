/**
 * The string operations the backend and the UI rely on: Python's `str.strip()`,
 * `str.split()[0]`, `str.lower()`, `str.rstrip(c)`, the substring test `sub in s`,
 * `str(n)` / f-string formatting of an integer and `int(s)` in base 10, and
 * JavaScript's `String.prototype.trim()`. Characters are restricted to ASCII
 * letters and one whitespace set shared by both languages.
 */
module Text {
  import opened Wrappers

  // Small facts about concatenation, kept in lemmas of their own so that the
  // solver meets them one at a time.

  lemma ConcatAssoc(a: string, b: string, c: string)
    ensures a + b + c == a + (b + c)
  {
  }

  lemma ConcatEmpty(a: string)
    ensures [] + a == a && a + [] == a
  {
  }

  lemma SplitAt(s: string, k: nat)
    requires k <= |s|
    ensures s == s[..k] + s[k..]
  {
  }

  /** Space, tab, line feed, vertical tab, form feed and carriage return. */
  predicate IsWhitespace(c: char) {
    c == ' ' || c == '\t' || c == '\n' || c == '\r' || c == '\U{B}' || c == '\U{C}'
  }

  predicate AllWhitespace(s: string) {
    forall i | 0 <= i < |s| :: IsWhitespace(s[i])
  }

  predicate NoWhitespace(s: string) {
    forall i | 0 <= i < |s| :: !IsWhitespace(s[i])
  }

  /** The text with its leading whitespace removed (`str.lstrip()`, `trimStart()`). */
  function TrimStart(s: string): string {
    if s != [] && IsWhitespace(s[0]) then TrimStart(s[1..]) else s
  }

  /** What TrimStart removes is whitespace, and what it keeps does not start with whitespace. */
  lemma {:induction false} TrimStartSpec(s: string)
    ensures var r := TrimStart(s);
      && |r| <= |s| && r == s[|s| - |r|..]
      && AllWhitespace(s[..|s| - |r|])
      && (r == [] || !IsWhitespace(r[0]))
  {
    if s != [] && IsWhitespace(s[0]) {
      TrimStartSpec(s[1..]);
      var r := TrimStart(s);
      assert s[1..][..|s| - 1 - |r|] == s[1..|s| - |r|];
    }
  }

  /** The text with its trailing whitespace removed (`str.rstrip()`, `trimEnd()`). */
  function TrimEnd(s: string): string {
    if s != [] && IsWhitespace(s[|s| - 1]) then TrimEnd(s[..|s| - 1]) else s
  }

  /** What TrimEnd removes is whitespace, and what it keeps does not end with whitespace. */
  lemma {:induction false} TrimEndSpec(s: string)
    ensures var r := TrimEnd(s);
      && |r| <= |s| && r == s[..|r|]
      && AllWhitespace(s[|r|..])
      && (r == [] || !IsWhitespace(r[|r| - 1]))
  {
    if s != [] && IsWhitespace(s[|s| - 1]) {
      TrimEndSpec(s[..|s| - 1]);
      var r := TrimEnd(s);
      assert s[..|s| - 1][|r|..] == s[|r|..|s| - 1];
      assert s[|r|..] == s[|r|..|s| - 1] + [s[|s| - 1]];
    }
  }

  /** Python's `str.strip()` with no argument; JavaScript's `trim()`. */
  function Strip(s: string): string {
    TrimEnd(TrimStart(s))
  }

  /** Neither end of the text is whitespace. */
  predicate Stripped(m: string) {
    m == [] || (!IsWhitespace(m[0]) && !IsWhitespace(m[|m| - 1]))
  }

  lemma {:induction false} TrimStartPadded(a: string, m: string)
    requires AllWhitespace(a)
    requires m == [] || !IsWhitespace(m[0])
    ensures TrimStart(a + m) == m
  {
    if a != [] {
      assert (a + m)[1..] == a[1..] + m;
      TrimStartPadded(a[1..], m);
    } else {
      assert a + m == m;
    }
  }

  lemma {:induction false} TrimEndPadded(m: string, b: string)
    requires AllWhitespace(b)
    requires m == [] || !IsWhitespace(m[|m| - 1])
    ensures TrimEnd(m + b) == m
  {
    if b != [] {
      assert (m + b)[..|m + b| - 1] == m + b[..|b| - 1];
      TrimEndPadded(m, b[..|b| - 1]);
    } else {
      assert m + b == m;
    }
  }

  /**
   * Strip is determined by what it keeps: whatever whitespace surrounds a text whose
   * ends are not whitespace, stripping gives back exactly that text.
   */
  lemma StripPadded(a: string, m: string, b: string)
    requires AllWhitespace(a) && AllWhitespace(b) && Stripped(m)
    ensures Strip(a + m + b) == m
  {
    ConcatAssoc(a, m, b);
    if m == [] {
      ConcatEmpty(b);
      assert AllWhitespace(a + b);
      ConcatEmpty(a + b);
      TrimStartPadded(a + b, []);
    } else {
      TrimStartPadded(a, m + b);
      TrimEndPadded(m, b);
    }
  }

  /** Every text is its stripped form surrounded by whitespace. */
  lemma StripSplit(s: string) returns (a: string, b: string)
    ensures AllWhitespace(a) && AllWhitespace(b) && Stripped(Strip(s))
    ensures s == a + Strip(s) + b
  {
    var t := TrimStart(s);
    var m := TrimEnd(t);
    TrimStartSpec(s);
    TrimEndSpec(t);
    a := s[..|s| - |t|];
    b := t[|m|..];
    SplitAt(s, |s| - |t|);
    SplitAt(t, |m|);
    ConcatAssoc(a, m, b);
  }

  lemma StripIdempotent(s: string)
    ensures Strip(Strip(s)) == Strip(s)
  {
    var _, _ := StripSplit(s);
    ConcatEmpty(Strip(s));
    StripPadded([], Strip(s), []);
  }

  /** Adding whitespace at either end does not change what strip keeps. */
  lemma StripIgnoresPadding(w1: string, s: string, w2: string)
    requires AllWhitespace(w1) && AllWhitespace(w2)
    ensures Strip(w1 + s + w2) == Strip(s)
  {
    var a, b := StripSplit(s);
    var m := Strip(s);
    calc {
      w1 + s + w2;
      w1 + (a + m + b) + w2;
      { ConcatAssoc(a, m, b); ConcatAssoc(w1, a, m + b); ConcatAssoc(w1 + a, m, b); }
      (w1 + a) + m + b + w2;
      { ConcatAssoc((w1 + a) + m, b, w2); ConcatAssoc(w1 + a, m, b + w2); }
      (w1 + a) + m + (b + w2);
    }
    assert AllWhitespace(w1 + a) && AllWhitespace(b + w2);
    StripPadded(w1 + a, m, b + w2);
  }

  /** A text strips to nothing exactly when it is all whitespace. */
  lemma StripEmptyIffBlank(s: string)
    ensures Strip(s) == [] <==> AllWhitespace(s)
  {
    var a, b := StripSplit(s);
    if Strip(s) == [] {
      ConcatEmpty(a);
      assert s == a + b;
    }
    if AllWhitespace(s) {
      ConcatEmpty(s);
      StripPadded(s, [], []);
    }
  }

  /** The longest prefix free of whitespace: the first word of a text with no leading whitespace. */
  function TakeWord(s: string): string {
    if s == [] || IsWhitespace(s[0]) then [] else [s[0]] + TakeWord(s[1..])
  }

  /** TakeWord keeps a prefix without whitespace that ends where the text does or at whitespace. */
  lemma {:induction false} TakeWordSpec(s: string)
    ensures var r := TakeWord(s);
      && |r| <= |s| && r == s[..|r|] && NoWhitespace(r)
      && (|r| == |s| || IsWhitespace(s[|r|]))
  {
    if !(s == [] || IsWhitespace(s[0])) {
      TakeWordSpec(s[1..]);
    }
  }

  /** Python's `s.split()[0]` for a text that is not all whitespace. */
  function FirstWord(s: string): string {
    TakeWord(TrimStart(s))
  }

  lemma {:induction false} TakeWordOf(w: string, rest: string)
    requires NoWhitespace(w)
    requires rest == [] || IsWhitespace(rest[0])
    ensures TakeWord(w + rest) == w
  {
    if w != [] {
      assert (w + rest)[1..] == w[1..] + rest;
      TakeWordOf(w[1..], rest);
    } else {
      assert w + rest == rest;
    }
  }

  /** ASCII lower-casing of one character. */
  function LowerChar(c: char): char {
    if 'A' <= c <= 'Z' then (c as int - 'A' as int + 'a' as int) as char else c
  }

  /** Python's `str.lower()` on ASCII text. */
  function Lower(s: string): string {
    seq(|s|, i requires 0 <= i < |s| => LowerChar(s[i]))
  }

  lemma LowerConcat(a: string, b: string)
    ensures Lower(a + b) == Lower(a) + Lower(b)
  {
  }

  /** Python's `sub in s` on strings: `sub` occurs somewhere in `s` as a contiguous piece. */
  predicate Contains(s: string, sub: string)
    decreases |s|
  {
    |sub| <= |s| && (s[..|sub|] == sub || Contains(s[1..], sub))
  }

  /** A text lacking one of the characters of `sub` does not contain `sub`. */
  lemma {:induction false} NotContainsWithoutChar(s: string, sub: string, j: nat)
    requires j < |sub|
    requires forall i | 0 <= i < |s| :: s[i] != sub[j]
    ensures !Contains(s, sub)
    decreases |s|
  {
    if |sub| <= |s| {
      assert s[..|sub|][j] == s[j];
      NotContainsWithoutChar(s[1..], sub, j);
    }
  }

  /** Where `sub in s` holds, an occurrence of `sub` in `s`. */
  lemma {:induction false} ContainsWitness(s: string, sub: string) returns (i: nat)
    requires Contains(s, sub)
    ensures i + |sub| <= |s| && s[i..i + |sub|] == sub
    decreases |s|
  {
    if s[..|sub|] == sub {
      i := 0;
    } else {
      var k := ContainsWitness(s[1..], sub);
      assert s[1..][k..k + |sub|] == s[k + 1..k + 1 + |sub|];
      i := k + 1;
    }
  }

  /** `sub` occurs in `s` starting at index `i`. */
  predicate OccursAt(s: string, sub: string, i: nat) {
    i + |sub| <= |s| && s[i..i + |sub|] == sub
  }

  /** `sub in s` holds exactly when `sub` occurs at some position of `s`. */
  lemma ContainsIff(s: string, sub: string)
    ensures Contains(s, sub) <==> exists i: nat :: OccursAt(s, sub, i)
  {
    if Contains(s, sub) {
      var i := ContainsWitness(s, sub);
      assert OccursAt(s, sub, i);
    }
    if exists i: nat :: OccursAt(s, sub, i) {
      var i: nat :| OccursAt(s, sub, i);
      ContainsAt(s, sub, i);
    }
  }

  lemma {:induction false} ContainsAt(s: string, sub: string, i: nat)
    requires i + |sub| <= |s| && s[i..i + |sub|] == sub
    ensures Contains(s, sub)
  {
    if i > 0 {
      assert s[1..][i - 1..i - 1 + |sub|] == s[i..i + |sub|];
      ContainsAt(s[1..], sub, i - 1);
    }
  }

  /** Python's `s.rstrip(c)`: every trailing occurrence of `c` removed. */
  function RStrip(s: string, c: char): string {
    if s != [] && s[|s| - 1] == c then RStrip(s[..|s| - 1], c) else s
  }

  /** `rstrip(c)` keeps a prefix that does not end in `c`, and everything it drops is `c`. */
  lemma {:induction false} RStripSpec(s: string, c: char)
    ensures var r := RStrip(s, c);
      && |r| <= |s| && r == s[..|r|]
      && (forall i | |r| <= i < |s| :: s[i] == c)
      && (r == [] || r[|r| - 1] != c)
  {
    if s != [] && s[|s| - 1] == c {
      RStripSpec(s[..|s| - 1], c);
    }
  }

  predicate IsDigit(c: char) {
    '0' <= c <= '9'
  }

  function DigitChar(d: nat): (c: char)
    requires d < 10
    ensures IsDigit(c)
  {
    ('0' as int + d) as char
  }

  function DigitValue(c: char): (d: nat)
    requires IsDigit(c)
    ensures d < 10
  {
    c as int - '0' as int
  }

  /** Decimal digits of a natural number, most significant first, no leading zeros. */
  function NatToString(n: nat): (r: string)
    ensures r != [] && forall i | 0 <= i < |r| :: IsDigit(r[i])
  {
    if n < 10 then [DigitChar(n)] else NatToString(n / 10) + [DigitChar(n % 10)]
  }

  /** Python's `str(n)` and `f"{n}"` for an integer. */
  function IntToString(n: int): string {
    if n < 0 then ['-'] + NatToString(-n) else NatToString(n)
  }

  /** The number a string of decimal digits denotes. */
  function DigitsValue(ds: string): nat
    requires forall i | 0 <= i < |ds| :: IsDigit(ds[i])
  {
    if ds == [] then 0 else DigitsValue(ds[..|ds| - 1]) * 10 + DigitValue(ds[|ds| - 1])
  }

  /**
   * The body of a Python integer literal as `int()` accepts it: decimal digits, with
   * single underscores allowed between two digits.
   */
  predicate IsDigitGroup(s: string) {
    && s != []
    && (forall i | 0 <= i < |s| :: IsDigit(s[i]) || s[i] == '_')
    && (forall i | 0 <= i < |s| && s[i] == '_' :: 0 < i < |s| - 1 && IsDigit(s[i - 1]) && IsDigit(s[i + 1]))
  }

  function RemoveUnderscores(s: string): (r: string)
    ensures (forall i | 0 <= i < |s| :: IsDigit(s[i]) || s[i] == '_') ==> forall i | 0 <= i < |r| :: IsDigit(r[i])
  {
    if s == [] then [] else (if s[0] == '_' then [] else [s[0]]) + RemoveUnderscores(s[1..])
  }

  /** The value of a digit group, if the text is one. */
  function ParseDigits(body: string): Option<int> {
    if IsDigitGroup(body) then Some(DigitsValue(RemoveUnderscores(body))) else None
  }

  /** A stripped, non-empty integer literal: an optional sign, then a digit group. */
  function ParseSigned(t: string): Option<int>
    requires t != []
  {
    if t[0] == '-' then
      match ParseDigits(t[1..])
      case Some(v) => Some(-v)
      case None => None
    else if t[0] == '+' then
      match ParseDigits(t[1..])
      case Some(v) => Some(v)
      case None => None
    else
      match ParseDigits(t)
      case Some(v) => Some(v)
      case None => None
  }

  /**
   * Python's `int(s)` for a string: surrounding whitespace, an optional sign and a digit
   * group; anything else raises ValueError, here `None`.
   */
  function ParseInt(s: string): Option<int> {
    var t := Strip(s);
    if t == [] then None else ParseSigned(t)
  }

  lemma {:induction false} DigitsValueOfNat(n: nat)
    ensures DigitsValue(NatToString(n)) == n
  {
    if n >= 10 {
      var s := NatToString(n);
      assert s[..|s| - 1] == NatToString(n / 10);
      DigitsValueOfNat(n / 10);
    }
  }

  lemma {:induction false} RemoveUnderscoresOfDigits(s: string)
    requires forall i | 0 <= i < |s| :: IsDigit(s[i])
    ensures RemoveUnderscores(s) == s
  {
    if s != [] {
      RemoveUnderscoresOfDigits(s[1..]);
      assert s == [s[0]] + s[1..];
    }
  }

  lemma NatToStringParses(n: nat)
    ensures ParseDigits(NatToString(n)) == Some(n)
  {
    RemoveUnderscoresOfDigits(NatToString(n));
    DigitsValueOfNat(n);
  }

  lemma {:induction false} DigitsStripped(digits: string)
    requires digits != [] && forall i | 0 <= i < |digits| :: IsDigit(digits[i])
    ensures Strip(digits) == digits
  {
    ConcatEmpty(digits);
    StripPadded([], digits, []);
  }

  lemma {:induction false} NegativeDigitsStripped(digits: string)
    requires digits != [] && forall i | 0 <= i < |digits| :: IsDigit(digits[i])
    ensures Strip(['-'] + digits) == ['-'] + digits
  {
    var s := ['-'] + digits;
    assert Stripped(s) by {
      assert s[|s| - 1] == digits[|digits| - 1];
    }
    ConcatEmpty(s);
    StripPadded([], s, []);
  }

  lemma ParseSignedNegative(digits: string)
    ensures ParseSigned(['-'] + digits) == match ParseDigits(digits) case Some(v) => Some(-v) case None => None
  {
    assert (['-'] + digits)[1..] == digits;
  }

  /** `int(str(n)) == n` for every integer. */
  lemma ParseIntOfIntToString(n: int)
    ensures ParseInt(IntToString(n)) == Some(n)
  {
    if n < 0 {
      NatToStringParses(-n);
      NegativeDigitsStripped(NatToString(-n));
      ParseSignedNegative(NatToString(-n));
    } else {
      NatToStringParses(n);
      DigitsStripped(NatToString(n));
    }
  }
}

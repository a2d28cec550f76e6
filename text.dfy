/** String helpers shared by the board: decimal rendering of numbers (JavaScript's
    String(n) and template literals on integers), String.prototype.trim, ASCII case
    folding and substring containment. */
module Text {

  predicate IsDigit(c: char) {
    '0' <= c <= '9'
  }

  /** The decimal digit character for 0..9. */
  function DigitChar(d: nat): (c: char)
    requires d < 10
    ensures IsDigit(c)
  {
    (48 + d) as char
  }

  function DigitValue(c: char): (d: nat)
    requires IsDigit(c)
    ensures d < 10 && DigitChar(d) == c
  {
    c as int - 48
  }

  /** Decimal rendering of a natural number, without leading zeros. */
  function NatToString(n: nat): (s: string)
    ensures |s| >= 1
    ensures forall i :: 0 <= i < |s| ==> IsDigit(s[i])
    ensures s[0] == '0' ==> n == 0
    decreases n
  {
    if n < 10 then [DigitChar(n)] else NatToString(n / 10) + [DigitChar(n % 10)]
  }

  /** Decimal rendering of an integer, with a leading '-' for negatives. */
  function IntToString(n: int): (s: string)
    ensures |s| >= 1
    ensures s[0] == '-' <==> n < 0
    ensures forall i :: 0 < i < |s| ==> IsDigit(s[i])
    ensures n >= 0 ==> s == NatToString(n)
    ensures n < 0 ==> s[1..] == NatToString(-n)
  {
    if n < 0 then "-" + NatToString(-n) else NatToString(n)
  }

  /** Reads a string of decimal digits back as a number. */
  function ParseDigits(s: string): nat
    requires forall i :: 0 <= i < |s| ==> IsDigit(s[i])
    decreases |s|
  {
    if s == [] then 0 else ParseDigits(s[..|s| - 1]) * 10 + DigitValue(s[|s| - 1])
  }

  lemma {:induction false} ParseNatToString(n: nat)
    ensures ParseDigits(NatToString(n)) == n
    decreases n
  {
    var s := NatToString(n);
    if n >= 10 {
      ParseNatToString(n / 10);
      assert s[..|s| - 1] == NatToString(n / 10);
    }
  }

  /** Distinct numbers have distinct renderings. */
  lemma NatToStringInjective(a: nat, b: nat)
    ensures NatToString(a) == NatToString(b) ==> a == b
  {
    ParseNatToString(a);
    ParseNatToString(b);
  }

  /** The characters String.prototype.trim removes: WhiteSpace and LineTerminator
      of ECMAScript (ECMA-262, sections 12.2 and 12.3). */
  predicate IsJsWhitespace(c: char) {
    || c == '\t' || c == '\n' || c == '\U{000B}' || c == '\U{000C}' || c == '\r'
    || c == ' ' || c == '\U{00A0}' || c == '\U{1680}' || ('\U{2000}' <= c <= '\U{200A}')
    || c == '\U{2028}' || c == '\U{2029}' || c == '\U{202F}' || c == '\U{205F}'
    || c == '\U{3000}' || c == '\U{FEFF}'
  }

  function TrimStart(s: string): (r: string)
    ensures |r| <= |s| && r == s[|s| - |r|..]
    ensures r == [] || !IsJsWhitespace(r[0])
    decreases |s|
  {
    if s != [] && IsJsWhitespace(s[0]) then TrimStart(s[1..]) else s
  }

  /** Everything TrimStart removes is whitespace. */
  lemma {:induction false} TrimStartRemovesWhitespace(s: string)
    ensures forall i :: 0 <= i < |s| - |TrimStart(s)| ==> IsJsWhitespace(s[i])
    decreases |s|
  {
    if s != [] && IsJsWhitespace(s[0]) {
      TrimStartRemovesWhitespace(s[1..]);
      assert forall i :: 1 <= i < |s| ==> s[1..][i - 1] == s[i];
    }
  }

  function TrimEnd(s: string): (r: string)
    ensures |r| <= |s| && r == s[..|r|]
    ensures r == [] || !IsJsWhitespace(r[|r| - 1])
    decreases |s|
  {
    if s != [] && IsJsWhitespace(s[|s| - 1]) then TrimEnd(s[..|s| - 1]) else s
  }

  /** Everything TrimEnd removes is whitespace. */
  lemma {:induction false} TrimEndRemovesWhitespace(s: string)
    ensures forall i :: |TrimEnd(s)| <= i < |s| ==> IsJsWhitespace(s[i])
    decreases |s|
  {
    if s != [] && IsJsWhitespace(s[|s| - 1]) {
      TrimEndRemovesWhitespace(s[..|s| - 1]);
    }
  }

  /** String.prototype.trim: TrimStart then TrimEnd. */
  function Trim(s: string): (r: string)
    ensures |r| <= |s|
    ensures r == [] || (!IsJsWhitespace(r[0]) && !IsJsWhitespace(r[|r| - 1]))
  {
    TrimEnd(TrimStart(s))
  }

  /** The trim is an infix of the string, and what lies outside it on either
      side is whitespace. */
  lemma TrimIsInfix(s: string)
    ensures var start := |s| - |TrimStart(s)|;
      var r := Trim(s);
      start + |r| <= |s| && r == s[start..start + |r|]
      && (forall i :: 0 <= i < start ==> IsJsWhitespace(s[i]))
      && (forall i :: start + |r| <= i < |s| ==> IsJsWhitespace(s[i]))
  {
    TrimStartRemovesWhitespace(s);
    TrimPosition(s);
    TrimEndInString(s);
  }

  lemma TrimPosition(s: string)
    ensures var start := |s| - |TrimStart(s)|;
      Trim(s) == s[start..start + |Trim(s)|]
  {
    var t := TrimStart(s);
    var start := |s| - |t|;
    var r := TrimEnd(t);
    PrefixOfSuffix(s, start, |r|);
  }

  lemma PrefixOfSuffix(s: string, a: nat, n: nat)
    requires a + n <= |s|
    ensures s[a..][..n] == s[a..a + n]
  {
  }

  lemma TrimEndInString(s: string)
    ensures forall i :: |s| - |TrimStart(s)| + |Trim(s)| <= i < |s| ==> IsJsWhitespace(s[i])
  {
    var t := TrimStart(s);
    var start := |s| - |t|;
    TrimEndRemovesWhitespace(t);
    forall i | start + |TrimEnd(t)| <= i < |s|
      ensures IsJsWhitespace(s[i])
    {
      assert s[i] == t[i - start];
    }
  }

  /** A string with no whitespace at its ends is its own trim. */
  lemma TrimOfTrimmed(s: string)
    requires s == [] || (!IsJsWhitespace(s[0]) && !IsJsWhitespace(s[|s| - 1]))
    ensures Trim(s) == s
  {
    assert TrimStart(s) == s;
    assert TrimEnd(s) == s;
  }

  lemma TrimIdempotent(s: string)
    ensures Trim(Trim(s)) == Trim(s)
  {
    TrimOfTrimmed(Trim(s));
  }

  /** Trimming yields "" exactly when the string is all whitespace. */
  lemma TrimEmptyIff(s: string)
    ensures Trim(s) == "" <==> forall i :: 0 <= i < |s| ==> IsJsWhitespace(s[i])
  {
    TrimIsInfix(s);
  }

  lemma NatToStringTrimmed(n: nat)
    ensures Trim(NatToString(n)) == NatToString(n)
  {
    TrimOfTrimmed(NatToString(n));
  }

  function ToLowerAsciiChar(c: char): char {
    if 'A' <= c <= 'Z' then (c as int + 32) as char else c
  }

  /** Lower-cases the ASCII letters A..Z and leaves every other character alone. */
  function ToLowerAscii(s: string): (r: string)
    ensures |r| == |s|
    ensures forall i :: 0 <= i < |s| ==> r[i] == ToLowerAsciiChar(s[i])
  {
    seq(|s|, i requires 0 <= i < |s| => ToLowerAsciiChar(s[i]))
  }

  /** `w` occurs in `s` as a contiguous substring. */
  predicate Contains(s: string, w: string)
    decreases |s|
  {
    w <= s || (s != [] && Contains(s[1..], w))
  }

  lemma {:induction false} ContainsAt(s: string, w: string, k: nat)
    requires MatchAt(s, w, k)
    ensures Contains(s, w)
    decreases k
  {
    if k == 0 {
      assert s[..|w|] == w;
    } else {
      assert s[1..][k - 1..k - 1 + |w|] == w;
      ContainsAt(s[1..], w, k - 1);
    }
  }

  /** `w` occurs in `s` starting at position k. */
  predicate MatchAt(s: string, w: string, k: nat) {
    k + |w| <= |s| && s[k..k + |w|] == w
  }

  /** A word that occurs at no position of `s` is not contained in it. */
  lemma {:induction false} NoMatchIn(s: string, w: string)
    requires forall k: nat :: !MatchAt(s, w, k)
    ensures !Contains(s, w)
    decreases |s|
  {
    assert !MatchAt(s, w, 0);
    if s != [] {
      forall k: nat
        ensures !MatchAt(s[1..], w, k)
      {
        assert !MatchAt(s, w, k + 1);
        if k + |w| <= |s[1..]| {
          assert s[1..][k..k + |w|] == s[k + 1..k + 1 + |w|];
        }
      }
      NoMatchIn(s[1..], w);
    }
  }

  /** The first n characters, or all of them when there are fewer
      (JavaScript's s.substring(0, n) for n >= 0). */
  function Prefix(s: string, n: nat): (r: string)
    ensures |r| == if |s| < n then |s| else n
    ensures r <= s
  {
    if |s| < n then s else s[..n]
  }
}

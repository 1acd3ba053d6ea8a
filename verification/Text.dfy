/** String operations and the small datatypes the other modules share. */
module Text {

  datatype Option<+T> = None | Some(value: T)

  predicate StartsWith(s: string, prefix: string) {
    |prefix| <= |s| && s[..|prefix|] == prefix
  }

  predicate EndsWith(s: string, ending: string) {
    |ending| <= |s| && s[|s| - |ending|..] == ending
  }

  // Character classes are those of Latin-1; every other code point counts as
  // printable, caseless and not a space.

  predicate IsSpace(c: char) {
    '\U{9}' <= c <= '\U{D}' || '\U{1C}' <= c <= ' ' || c == '\U{85}' || c == '\U{A0}'
  }

  predicate IsPrintable(c: char) {
    ' ' <= c <= '~' || ('\U{A1}' <= c && c != '\U{AD}')
  }

  predicate IsDigit(c: char) {
    '0' <= c <= '9'
  }

  function LowerChar(c: char): char {
    if 'A' <= c <= 'Z' || ('\U{C0}' <= c <= '\U{DE}' && c != '\U{D7}')
    then (c as int + 32) as char
    else c
  }

  function Lower(s: string): (r: string)
    ensures |r| == |s|
    ensures forall i :: 0 <= i < |s| ==> r[i] == LowerChar(s[i])
  {
    seq(|s|, i requires 0 <= i < |s| => LowerChar(s[i]))
  }

  lemma LowerIdempotent(s: string)
    ensures Lower(Lower(s)) == Lower(s)
  {
  }

  function StripLeft(s: string): (r: string)
    ensures |r| <= |s| && r == s[|s| - |r|..]
    ensures r != "" ==> !IsSpace(r[0])
  {
    if s != "" && IsSpace(s[0]) then StripLeft(s[1..]) else s
  }

  function StripRight(s: string): (r: string)
    ensures |r| <= |s| && r == s[..|r|]
    ensures r != "" ==> !IsSpace(r[|r| - 1])
  {
    if s != "" && IsSpace(s[|s| - 1]) then StripRight(s[..|s| - 1]) else s
  }

  /** Python's `str.strip()`. */
  function Strip(s: string): string {
    StripRight(StripLeft(s))
  }

  predicate AllSpace(s: string) {
    forall c :: c in s ==> IsSpace(c)
  }

  /** Neither end is a space. */
  predicate Trimmed(s: string) {
    s != "" ==> !IsSpace(s[0]) && !IsSpace(s[|s| - 1])
  }

  /** Stripping takes exactly the spaces off both ends: a text has one trimmed core. */
  lemma StripOfCore(before: string, core: string, after: string)
    requires AllSpace(before) && Trimmed(core) && AllSpace(after)
    ensures Strip(before + core + after) == core
  {
    hide IsSpace;
    assert before + core + after == before + (core + after);
    StripLeftOfSpaces(before, core + after);
    if core == "" {
      StripLeftOfSpaces(after, "");
      assert core + after == after == after + "";
    } else {
      StripRightOfSpaces(core, after);
    }
  }

  lemma {:induction false} StripLeftOfSpaces(before: string, rest: string)
    requires AllSpace(before)
    ensures StripLeft(before + rest) == StripLeft(rest)
  {
    hide IsSpace;
    if before == "" {
      assert before + rest == rest;
    } else {
      assert before[0] in before && (before + rest)[1..] == before[1..] + rest;
      StripLeftOfSpaces(before[1..], rest);
    }
  }

  lemma {:induction false} StripRightOfSpaces(rest: string, after: string)
    requires AllSpace(after)
    ensures StripRight(rest + after) == StripRight(rest)
  {
    hide IsSpace;
    if after == "" {
      assert rest + after == rest;
    } else {
      var n := |after| - 1;
      assert after[n] in after && (rest + after)[..|rest + after| - 1] == rest + after[..n];
      StripRightOfSpaces(rest, after[..n]);
    }
  }

  lemma StripParts(s: string) returns (before: string, after: string)
    ensures s == before + Strip(s) + after && AllSpace(before) && AllSpace(after) && Trimmed(Strip(s))
  {
    hide IsSpace, AllSpace, StripLeft, StripRight;
    var left := StripLeft(s);
    before, after := s[..|s| - |left|], left[|StripRight(left)|..];
    SpacesBefore(s);
    SpacesAfter(left);
    assert s == before + left && left == StripRight(left) + after;
    if Strip(s) != "" {
      assert Strip(s)[0] == left[0];
    }
  }

  lemma {:induction false} SpacesBefore(s: string)
    ensures AllSpace(s[..|s| - |StripLeft(s)|])
  {
    hide IsSpace;
    if s != "" && IsSpace(s[0]) {
      SpacesBefore(s[1..]);
      assert s[..|s| - |StripLeft(s)|] == [s[0]] + s[1..][..|s| - 1 - |StripLeft(s)|];
    }
  }

  lemma {:induction false} SpacesAfter(s: string)
    ensures AllSpace(s[|StripRight(s)|..])
  {
    hide IsSpace;
    if s != "" && IsSpace(s[|s| - 1]) {
      var n := |s| - 1;
      SpacesAfter(s[..n]);
      assert s[|StripRight(s)|..] == s[..n][|StripRight(s)|..] + [s[n]];
    }
  }

  lemma StripOfSpaceFree(s: string)
    requires forall c :: c in s ==> !IsSpace(c)
    ensures Strip(s) == s
  {
  }

  /** Decimal digits of a natural number, as `str(n)`. */
  function Decimal(n: nat): (r: string)
    ensures r != "" && forall i :: 0 <= i < |r| ==> IsDigit(r[i])
  {
    if n < 10 then [DigitChar(n)] else Decimal(n / 10) + [DigitChar(n % 10)]
  }

  function DigitChar(d: nat): (c: char)
    requires d < 10
    ensures IsDigit(c) && c as int == '0' as int + d
  {
    ('0' as int + d) as char
  }

  lemma {:induction false} DecimalInjective(m: nat, n: nat)
    requires Decimal(m) == Decimal(n)
    ensures m == n
  {
    var s, t := Decimal(m), Decimal(n);
    assert s[|s| - 1] as int == '0' as int + m % 10;
    assert t[|t| - 1] as int == '0' as int + n % 10;
    if m >= 10 && n >= 10 {
      assert s[..|s| - 1] == Decimal(m / 10) && t[..|t| - 1] == Decimal(n / 10);
      DecimalInjective(m / 10, n / 10);
    }
  }
}

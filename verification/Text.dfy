/** The string vocabulary the text parsers share: trimming, splitting, decimals, letter case. */
module Text {
  import opened Bytes

  /** Unicode White_Space. */
  predicate IsSpace(c: char) {
    var n := c as int;
    9 <= n <= 13 || n == 0x20 || n == 0x85 || n == 0xA0 || n == 0x1680 || 0x2000 <= n <= 0x200A
    || n == 0x2028 || n == 0x2029 || n == 0x202F || n == 0x205F || n == 0x3000
  }

  function TrimStart(s: string): (r: string)
    ensures |r| <= |s|
    ensures r != [] ==> !IsSpace(r[0]) && r[|r| - 1] == s[|s| - 1]
  {
    if s == [] || !IsSpace(s[0]) then s else TrimStart(s[1..])
  }

  function TrimEnd(s: string): (r: string)
    ensures |r| <= |s| && r == s[..|r|]
    ensures r != [] ==> !IsSpace(r[|r| - 1])
  {
    if s == [] || !IsSpace(s[|s| - 1]) then s else TrimEnd(s[..|s| - 1])
  }

  function Trim(s: string): (r: string)
    ensures Tidy(r)
  {
    TrimEnd(TrimStart(s))
  }

  /** Nothing to trim. */
  predicate Tidy(s: string) {
    s == [] || (!IsSpace(s[0]) && !IsSpace(s[|s| - 1]))
  }

  lemma TidyStays(s: string)
    requires Tidy(s)
    ensures Trim(s) == s
  {
  }

  predicate HasPrefix(s: string, w: string) {
    |w| <= |s| && s[..|w|] == w
  }

  lemma PrefixOfConcat(w: string, s: string)
    ensures HasPrefix(w + s, w) && (w + s)[|w|..] == s
  {
  }

  predicate Without(s: string, c: char) {
    forall i :: 0 <= i < |s| ==> s[i] != c
  }

  function IndexOf(s: string, c: char): (p: Option<nat>)
    ensures p.Some? ==> p.value < |s| && s[p.value] == c && Without(s[..p.value], c)
    ensures p.None? ==> Without(s, c)
  {
    if s == [] then None
    else if s[0] == c then Some(0)
    else
      var p := IndexOf(s[1..], c);
      if p.None? then None else Some(p.value + 1)
  }

  /** Splitting at a separator finds the text before it. */
  lemma {:induction false} IndexOfConcat(a: string, c: char, b: string)
    requires Without(a, c)
    ensures IndexOf(a + ([c] + b), c) == Some(|a|)
    ensures (a + ([c] + b))[..|a|] == a && (a + ([c] + b))[|a| + 1..] == b
  {
    if a == [] {
      SliceAll([c] + b);
    } else {
      ConsAppend(a, [c] + b);
      IndexOfConcat(a[1..], c, b);
    }
  }

  function LastIndexOf(s: string, c: char): (p: Option<nat>)
    ensures p.Some? ==> p.value < |s| && s[p.value] == c && Without(s[p.value + 1..], c)
    ensures p.None? ==> Without(s, c)
  {
    if s == [] then None
    else if s[|s| - 1] == c then Some(|s| - 1)
    else LastIndexOf(s[..|s| - 1], c)
  }

  /** Text before the first slash. */
  function Authority(rest: string): string {
    var p := IndexOf(rest, '/');
    if p.None? then rest else rest[..p.value]
  }

  lemma {:induction false} LastIndexOfConcat(a: string, c: char, b: string)
    requires Without(b, c)
    ensures LastIndexOf(a + [c] + b, c) == Some(|a|)
    ensures (a + [c] + b)[..|a|] == a && (a + [c] + b)[|a| + 1..] == b
  {
    var s := a + [c] + b;
    if b != [] {
      var n := |b| - 1;
      LastIndexOfConcat(a, c, b[..n]);
      assert s[..|s| - 1] == a + [c] + b[..n];
      assert s[|s| - 1] == b[n];
    }
  }

  // ----- Decimals -----

  predicate IsDigit(c: char) {
    '0' <= c <= '9'
  }

  function Digit(n: nat): char
    requires n < 10
  {
    n as char + '0'
  }

  function Dec(n: nat): (s: string)
    ensures s != [] && forall i :: 0 <= i < |s| ==> IsDigit(s[i])
  {
    if n < 10 then [Digit(n)] else Dec(n / 10) + [Digit(n % 10)]
  }

  function DigitsValue(s: string): Option<nat> {
    if s == [] then Some(0)
    else
      var high := DigitsValue(s[..|s| - 1]);
      var c := s[|s| - 1];
      if high.None? || !IsDigit(c) then None else Some(high.value * 10 + (c as int - '0' as int))
  }

  /** An unsigned number below `limit`: an optional `+`, at least one digit, nothing else. */
  function ParseUnsigned(s: string, limit: nat): Option<nat> {
    var digits := if s != [] && s[0] == '+' then s[1..] else s;
    if digits == [] then None
    else
      var v := DigitsValue(digits);
      if v.Some? && v.value < limit then v else None
  }

  lemma {:induction false} DigitsOfDec(n: nat)
    ensures DigitsValue(Dec(n)) == Some(n)
  {
    if n < 10 {
      assert Dec(n)[..0] == [];
    } else {
      DigitsOfDec(n / 10);
      assert Dec(n)[..|Dec(n)| - 1] == Dec(n / 10);
    }
  }

  lemma ParseOfDec(n: nat, limit: nat)
    ensures ParseUnsigned(Dec(n), limit) == if n < limit then Some(n) else None
  {
    DigitsOfDec(n);
    assert IsDigit(Dec(n)[0]);
  }

  lemma DecIsPlain(n: nat)
    ensures Without(Dec(n), ':') && Without(Dec(n), '/')
  {
    forall i | 0 <= i < |Dec(n)|
      ensures Dec(n)[i] != ':' && Dec(n)[i] != '/'
    {
      assert IsDigit(Dec(n)[i]);
    }
  }

  // ----- Letter case -----

  function LowerChar(c: char): char {
    if 'A' <= c <= 'Z' then (c as int + 32) as char else c
  }

  function Lower(s: string): (r: string)
    ensures |r| == |s|
    ensures forall i :: 0 <= i < |s| ==> r[i] == LowerChar(s[i])
  {
    seq(|s|, i requires 0 <= i < |s| => LowerChar(s[i]))
  }

  /** Changing the case of a letter makes it neither a space nor any other kind of character. */
  lemma LowerKeeps(c: char)
    ensures IsSpace(LowerChar(c)) <==> IsSpace(c)
    ensures !('A' <= c <= 'Z') && !('a' <= c <= 'z') ==> LowerChar(c) == c
    ensures 'A' <= c <= 'Z' ==> 'a' <= LowerChar(c) <= 'z'
  {
  }

  /** The same characters, but for the case of the letters A to Z. */
  predicate SameLetters(a: char, b: char) {
    a == b || ('A' <= a <= 'Z' && b as int == a as int + 32) || ('A' <= b <= 'Z' && a as int == b as int + 32)
  }

  /** Two strings agree in lower case exactly when they agree but for letter case. */
  lemma LowerAgreesIff(s: string, t: string)
    ensures Lower(s) == Lower(t) <==> |s| == |t| && forall i :: 0 <= i < |s| ==> SameLetters(s[i], t[i])
  {
    if Lower(s) == Lower(t) {
      forall i | 0 <= i < |s|
        ensures SameLetters(s[i], t[i])
      {
        assert Lower(s)[i] == Lower(t)[i];
        LowerCharAgrees(s[i], t[i]);
      }
    }
    if |s| == |t| && forall i :: 0 <= i < |s| ==> SameLetters(s[i], t[i]) {
      forall i | 0 <= i < |s|
        ensures Lower(s)[i] == Lower(t)[i]
      {
        LowerCharAgrees(s[i], t[i]);
      }
    }
  }

  lemma LowerCharAgrees(a: char, b: char)
    ensures LowerChar(a) == LowerChar(b) <==> SameLetters(a, b)
  {
  }

  lemma LowerTwice(s: string)
    ensures Lower(Lower(s)) == Lower(s)
  {
  }

  lemma LowerStaysTidy(s: string)
    requires Tidy(s)
    ensures Tidy(Lower(s))
  {
    if s != [] {
      LowerKeeps(s[0]);
      LowerKeeps(s[|s| - 1]);
    }
  }
}

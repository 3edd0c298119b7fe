/**
 `redact_creds` of src/proxy/cgi.rs: mask credential values before a string is logged. The
 keys and terminators are ASCII, so byte positions and character positions do the same work.
 */
module Redaction {
  import opened Bytes

  const KEYS: seq<string> := ["pwd", "usrName", "usr", "user"]
  const MASK: string := "***"

  predicate IsTerminator(c: char) {
    c in ['&', ')', ' ', '\t', '"', '\'', '\n', '\r']
  }

  /** `w` stands at position `i` of `s`. */
  predicate At(s: string, i: nat, w: string) {
    i + |w| <= |s| && forall j :: 0 <= j < |w| ==> s[i + j] == w[j]
  }

  predicate StartsWith(s: string, w: string) {
    At(s, 0, w)
  }

  lemma AtSlice(s: string, i: nat, w: string)
    requires i <= |s|
    ensures StartsWith(s[i..], w) <==> At(s, i, w)
  {
    if i + |w| <= |s| {
      forall j | 0 <= j < |w|
        ensures s[i..][j] == s[i + j]
      {
      }
    }
  }

  lemma CharAt(s: string, w: string, j: nat)
    requires StartsWith(s, w) && j < |w|
    ensures s[j] == w[j]
  {
    assert s[0 + j] == w[j];
  }

  // ----- What redaction means -----

  predicate IsCred(s: string, key: string) {
    StartsWith(s, key) && |key| < |s| && s[|key|] == '='
  }

  /** Length of the `key=` at the start of `s`, or zero. */
  function CredLen(s: string): (n: nat)
    ensures n <= |s|
  {
    if IsCred(s, "pwd") || IsCred(s, "usr") then 4
    else if IsCred(s, "user") then 5
    else if IsCred(s, "usrName") then 8
    else 0
  }

  /** Length of the text before the first terminator. */
  function ValueLen(s: string): (n: nat)
    ensures n <= |s|
    ensures n < |s| ==> IsTerminator(s[n])
    ensures forall i :: 0 <= i < n ==> !IsTerminator(s[i])
  {
    if s == "" || IsTerminator(s[0]) then 0 else 1 + ValueLen(s[1..])
  }

  function AfterValue(s: string): (r: string)
    ensures |r| <= |s| && AtBoundary(r)
  {
    s[ValueLen(s)..]
  }

  /** Empty, or starting at a terminator: what is left once a value is skipped. */
  predicate AtBoundary(s: string) {
    s == "" || IsTerminator(s[0])
  }

  /** Left to right: a `key=` loses its value, every other character stays. */
  function Redact(s: string): string
    decreases |s|
  {
    if s == "" then ""
    else
      var n := CredLen(s);
      if n > 0 then s[..n] + (MASK + Redact(AfterValue(s[n..])))
      else [s[0]] + Redact(s[1..])
  }

  // ----- The program's scan -----

  /** `str::find`, from position `i` on: the first position, or `None`. */
  function Find(s: string, w: string, i: nat): (p: Option<nat>)
    requires i <= |s|
    ensures p.Some? ==> i <= p.value && At(s, p.value, w) && forall j :: i <= j < p.value ==> !At(s, j, w)
    ensures p.None? ==> forall j :: i <= j <= |s| ==> !At(s, j, w)
    decreases |s| - i
  {
    if At(s, i, w) then Some(i) else if i == |s| then None else Find(s, w, i + 1)
  }

  method FindTerminator(value: string) returns (end: nat)
    ensures end == ValueLen(value)
  {
    end := 0;
    assert value[0..] == value;
    while end < |value| && !IsTerminator(value[end])
      invariant end <= |value| && ValueLen(value) == end + ValueLen(value[end..])
    {
      assert value[end..][1..] == value[end + 1..];
      end := end + 1;
    }
  }

  /** The earliest key occurrence; of keys at the same place, the first listed. */
  predicate IsEarliest(rest: string, p: nat, key: string) {
    && key in KEYS && At(rest, p, key)
    && (forall i, k :: 0 <= i < p && k in KEYS ==> !At(rest, i, k))
    && (key == "usr" ==> !At(rest, p, "usrName"))
  }

  predicate NoKey(rest: string) {
    forall i, k :: 0 <= i <= |rest| && k in KEYS ==> !At(rest, i, k)
  }

  method FindEarliest(rest: string) returns (earliest: Option<(nat, string)>)
    ensures earliest.Some? ==> IsEarliest(rest, earliest.value.0, earliest.value.1)
    ensures earliest.None? ==> NoKey(rest)
  {
    hide At;
    earliest := None;
    ghost var which := 0;
    for n := 0 to |KEYS|
      invariant earliest.None? ==> forall i, m :: 0 <= i <= |rest| && 0 <= m < n ==> !At(rest, i, KEYS[m])
      invariant earliest.Some? ==>
                  var (p, key) := earliest.value;
                  && p <= |rest| && At(rest, p, key)
                  && 0 <= which < n && KEYS[which] == key && (forall j :: 0 <= j < which ==> !At(rest, p, KEYS[j]))
                  && (forall i, m :: 0 <= i < p && 0 <= m < n ==> !At(rest, i, KEYS[m]))
    {
      var key := KEYS[n];
      var found := Find(rest, key, 0);
      if found.Some? && (earliest.None? || found.value < earliest.value.0) {
        AtFits(rest, found.value, key);
        earliest, which := Some((found.value, key)), n;
      }
    }
    if earliest.Some? && earliest.value.1 == "usr" {
      assert which == 2 && KEYS[1] == "usrName";
    }
  }

  lemma AtFits(s: string, i: nat, w: string)
    requires At(s, i, w)
    ensures i + |w| <= |s|
  {
  }

  method RedactCreds(s: string) returns (out: string)
    ensures out == Redact(s)
  {
    hide Redact, CredLen, IsEarliest, NoKey, ValueLen, AfterValue;
    out := "";
    var rest := s;
    while true
      invariant Redact(s) == out + Redact(rest)
      decreases |rest|
    {
      var earliest := FindEarliest(rest);
      if earliest.None? {
        NoKeyIsVerbatim(rest);
        out := out + rest;
        break;
      }
      var (p, key) := earliest.value;
      VerbatimUpToKey(rest, p, key);
      KeyFits(rest, p, key);
      AppendTwo(out, rest[..p], key, AfterKey(rest[p + |key|..]));
      out := out + rest[..p];
      var afterKey := rest[p + |key|..];
      if afterKey != "" && afterKey[0] == '=' {
        var value := afterKey[1..];
        var end := FindTerminator(value);
        out := out + key;
        Assoc(out, "=***", Redact(value[end..]));
        out := out + "=***";
        rest := value[end..];
        ValueDropped(value);
      } else {
        out := out + key;
        rest := afterKey;
      }
    }
  }

  lemma ValueDropped(value: string)
    ensures AfterValue(value) == value[ValueLen(value)..]
  {
  }

  lemma AppendTwo(out: string, a: string, b: string, more: string)
    ensures out + (a + b + more) == out + a + b + more
  {
    Assoc(a, b, more);
    Assoc(out, a, b + more);
    Assoc(out + a, b, more);
  }

  lemma KeyFits(rest: string, p: nat, key: string)
    requires IsEarliest(rest, p, key)
    ensures p + |key| <= |rest| && |key| >= 3
  {
  }

  lemma CredHasKey(s: string) returns (key: string)
    requires CredLen(s) > 0
    ensures key in KEYS && |key| + 1 == CredLen(s) && IsCred(s, key)
    ensures s[0] == key[0] && (s[0] == 'p' || s[0] == 'u')
  {
    key := if IsCred(s, "pwd") then KEYS[0] else if IsCred(s, "usr") then KEYS[2]
           else if IsCred(s, "user") then KEYS[3] else KEYS[1];
    CharAt(s, key, 0);
  }

  lemma RedactPlain(s: string)
    requires s != "" && CredLen(s) == 0
    ensures Redact(s) == [s[0]] + Redact(s[1..])
  {
    hide CredLen;
  }

  lemma TakeCons(s: string, n: nat)
    requires 0 < n <= |s|
    ensures s[1..][n - 1..] == s[n..] && s[..n] == [s[0]] + s[1..][..n - 1]
  {
  }

  lemma {:induction false} CopiesPlain(s: string, n: nat)
    requires n <= |s| && forall i :: 0 <= i < n ==> CredLen(s[i..]) == 0
    ensures Redact(s) == s[..n] + Redact(s[n..])
    decreases n
  {
    hide *;
    SliceAll(s);
    if n == 0 {
      SliceAll(Redact(s));
    } else {
      var t := s[1..];
      assert CredLen(s[0..]) == 0;
      RedactPlain(s);
      forall i | 0 <= i < n - 1
        ensures CredLen(t[i..]) == 0
      {
        assert t[i..] == s[i + 1..];
      }
      CopiesPlain(t, n - 1);
      TakeCons(s, n);
      Assoc([s[0]], t[..n - 1], Redact(s[n..]));
    }
  }

  lemma NoKeyIsVerbatim(s: string)
    requires NoKey(s)
    ensures Redact(s) == s
  {
    forall i | 0 <= i < |s|
      ensures CredLen(s[i..]) == 0
    {
      if CredLen(s[i..]) > 0 {
        var key := CredHasKey(s[i..]);
        AtSlice(s, i, key);
      }
    }
    hide CredLen, NoKey;
    CopiesPlain(s, |s|);
    assert s[|s|..] == "" && s[..|s|] == s;
  }

  /** No key starts inside another: past its first letter a key has neither a `p` nor a `u`. */
  lemma KeyLetters(key: string, i: nat)
    requires key in KEYS && 0 < i < |key|
    ensures key[i] != 'p' && key[i] != 'u'
  {
    assert key == "pwd" || key == "usrName" || key == "usr" || key == "user";
  }

  /** Up to the earliest key the scan copies; at the key it masks exactly if `=` follows. */
  lemma {:induction false} VerbatimUpToKey(rest: string, p: nat, key: string)
    requires IsEarliest(rest, p, key)
    ensures p + |key| <= |rest|
    ensures var after := rest[p + |key|..];
            Redact(rest) == rest[..p] + key + AfterKey(after)
  {
    var here := rest[p..];
    forall i | 0 <= i < p
      ensures CredLen(rest[i..]) == 0
    {
      if CredLen(rest[i..]) > 0 {
        var k := CredHasKey(rest[i..]);
        AtSlice(rest, i, k);
      }
    }
    AtSlice(rest, p, key);
    AtSlice(rest, p, "usrName");
    hide CredLen, IsEarliest;
    CopiesPlain(rest, p);
    AtKey(here, key);
    assert here[|key|..] == rest[p + |key|..];
    var after := rest[p + |key|..];
    Assoc(rest[..p], key, AfterKey(after));
  }

  /** What follows a key: its value masked, or nothing out of the ordinary. */
  function AfterKey(after: string): string {
    if after != "" && after[0] == '=' then "=***" + Redact(AfterValue(after[1..])) else Redact(after)
  }

  /** The scan at a key. */
  lemma AtKey(here: string, key: string)
    requires key in KEYS && StartsWith(here, key) && (key == "usr" ==> !StartsWith(here, "usrName"))
    ensures |key| <= |here| && Redact(here) == key + AfterKey(here[|key|..])
  {
    KeyIsPrefix(here, key);
    if IsCred(here, key) {
      CredAtKey(here, key);
      KeyNonEmpty(key);
      hide *;
      MaskAtCred(here, key);
    } else {
      NoCredWithinKey(here, key);
      hide CredLen, Redact;
      PlainKey(here, key);
    }
  }

  lemma KeyNonEmpty(key: string)
    requires key in KEYS
    ensures |key| > 0
  {
  }

  lemma PlainKey(here: string, key: string)
    requires |key| <= |here| && here[..|key|] == key && (|key| < |here| ==> here[|key|] != '=')
    requires forall i :: 0 <= i < |key| ==> CredLen(here[i..]) == 0
    ensures Redact(here) == key + AfterKey(here[|key|..])
  {
    hide CredLen, Redact;
    CopiesPlain(here, |key|);
    assert here[|key|..] != "" ==> here[|key|..][0] == here[|key|];
  }

  lemma MaskAtCred(here: string, key: string)
    requires 0 < |key| < |here| && CredLen(here) == |key| + 1 && here[..|key|] == key && here[|key|] == '='
    ensures Redact(here) == key + AfterKey(here[|key|..])
  {
    hide CredLen, AfterValue;
    var n := |key| + 1;
    var more := Redact(AfterValue(here[n..]));
    assert here[|key|..][1..] == here[n..];
    assert here[..n] == key + "=";
    hide Redact;
    MaskSplit(key, more);
  }

  lemma MaskSplit(key: string, more: string)
    ensures key + "=" + (MASK + more) == key + ("=***" + more)
  {
    Assoc(key, "=", MASK + more);
    Assoc("=", MASK, more);
    assert "=" + MASK == "=***";
  }

  lemma KeyIsPrefix(here: string, key: string)
    requires StartsWith(here, key)
    ensures here[..|key|] == key
  {
    forall j | 0 <= j < |key|
      ensures here[..|key|][j] == key[j]
    {
      CharAt(here, key, j);
    }
  }

  lemma NoCredWithinKey(here: string, key: string)
    requires key in KEYS && StartsWith(here, key) && (key == "usr" ==> !StartsWith(here, "usrName"))
    requires !IsCred(here, key)
    ensures forall i :: 0 <= i < |key| ==> CredLen(here[i..]) == 0
  {
    forall i | 0 <= i < |key|
      ensures CredLen(here[i..]) == 0
    {
      if CredLen(here[i..]) > 0 {
        var k := CredHasKey(here[i..]);
        CharAt(here, key, i);
        if i > 0 {
          KeyLetters(key, i);
        } else {
          assert here[0..] == here;
          OnlyCred(here, key, k);
        }
      }
    }
  }

  /** Of the keys that may stand at a place, only the chosen one can be followed by `=`. */
  lemma OnlyCred(here: string, key: string, k: string)
    requires key in KEYS && k in KEYS && StartsWith(here, key) && IsCred(here, k)
    requires key == "usr" ==> !StartsWith(here, "usrName")
    ensures k == key
  {
    assert key == "pwd" || key == "usrName" || key == "usr" || key == "user";
    assert k == "pwd" || k == "usrName" || k == "usr" || k == "user";
    CharAt(here, key, 0);
    CharAt(here, key, 2);
    CharAt(here, k, 0);
    CharAt(here, k, 2);
    if |key| > 3 {
      CharAt(here, key, 3);
    }
    if |k| > 3 {
      CharAt(here, k, 3);
    }
  }

  lemma NotUsrName(s: string)
    ensures IsCred(s, "usr") ==> !StartsWith(s, "usrName")
  {
    if StartsWith(s, "usrName") {
      CharAt(s, "usrName", 3);
    }
  }

  lemma CredAtKey(here: string, key: string)
    requires key in KEYS && IsCred(here, key)
    requires key == "usr" ==> !StartsWith(here, "usrName")
    ensures CredLen(here) == |key| + 1
  {
    assert key == "pwd" || key == "usrName" || key == "usr" || key == "user";
    assert CredLen(here) > 0;
    var k := CredHasKey(here);
    OnlyCred(here, key, k);
  }

  // ----- Laws -----

  /** Letters that occur only past the first position of a `key=`. */
  predicate Inner(w: string) {
    forall i :: 0 <= i < |w| ==> w[i] != 'p' && w[i] != 'u'
  }

  /** The output starts with such letters exactly where the input does. */
  lemma {:induction false} SameInnerStart(s: string, w: string)
    requires Inner(w)
    ensures StartsWith(Redact(s), w) <==> StartsWith(s, w)
    decreases |w|
  {
    if w != "" && s != "" {
      if CredLen(s) > 0 {
        var k := CredHasKey(s);
        FirstChar(Redact(s), w);
        FirstChar(s, w);
      } else {
        var t := Redact(s[1..]);
        SameInnerStart(s[1..], w[1..]);
        StartsWithCons(s[0], s[1..], w);
        StartsWithCons(s[0], t, w);
        assert s == [s[0]] + s[1..];
      }
    }
  }

  lemma FirstChar(s: string, w: string)
    ensures StartsWith(s, w) && w != "" ==> s != "" && s[0] == w[0]
  {
    if StartsWith(s, w) && w != "" {
      CharAt(s, w, 0);
    }
  }

  lemma StartsWithCons(c: char, t: string, w: string)
    requires w != ""
    ensures StartsWith([c] + t, w) <==> c == w[0] && StartsWith(t, w[1..])
  {
    var s := [c] + t;
    if StartsWith(s, w) {
      ConsStart(c, t, w);
    }
    if c == w[0] && StartsWith(t, w[1..]) {
      forall j | 0 <= j < |w|
        ensures s[0 + j] == w[j]
      {
        if j > 0 {
          CharAt(t, w[1..], j - 1);
        }
      }
    }
  }

  lemma ConsStart(c: char, t: string, w: string)
    requires w != "" && StartsWith([c] + t, w)
    ensures c == w[0] && StartsWith(t, w[1..])
  {
    var s := [c] + t;
    CharAt(s, w, 0);
    forall j | 0 <= j < |w[1..]|
      ensures t[0 + j] == w[1..][j]
    {
      CharAt(s, w, j + 1);
    }
  }

  /** Copying a character neither makes nor unmakes a `key=`. */
  lemma SameCred(s: string)
    requires s != "" && CredLen(s) == 0
    ensures CredLen([s[0]] + Redact(s[1..])) == 0
  {
    var r := [s[0]] + Redact(s[1..]);
    if CredLen(r) > 0 {
      var key := CredHasKey(r);
      SameCredAt(s, key);
    }
  }

  lemma SameCredAt(s: string, key: string)
    requires s != "" && key in KEYS && IsCred([s[0]] + Redact(s[1..]), key)
    ensures CredLen(s) > 0
  {
    var t := s[1..];
    var w := key + "=";
    assert s == [s[0]] + t;
    CredIsWord([s[0]] + Redact(t), key);
    TailIsInner(key);
    SameInnerStart(t, w[1..]);
    StartsWithCons(s[0], t, w);
    StartsWithCons(s[0], Redact(t), w);
    CredIsWord(s, key);
    assert key == "pwd" || key == "usrName" || key == "usr" || key == "user";
  }

  lemma CredIsWord(s: string, key: string)
    ensures IsCred(s, key) <==> StartsWith(s, key + "=")
  {
    var w := key + "=";
    if IsCred(s, key) {
      forall j | 0 <= j < |w|
        ensures s[0 + j] == w[j]
      {
        if j < |key| {
          CharAt(s, key, j);
        }
      }
    }
    if StartsWith(s, w) {
      CharAt(s, w, |key|);
      forall j | 0 <= j < |key|
        ensures s[0 + j] == key[j]
      {
        CharAt(s, w, j);
      }
    }
  }

  lemma TailIsInner(key: string)
    requires key in KEYS
    ensures Inner((key + "=")[1..])
  {
    var w := (key + "=")[1..];
    forall i | 0 <= i < |w|
      ensures w[i] != 'p' && w[i] != 'u'
    {
      if i + 1 < |key| {
        KeyLetters(key, i + 1);
      }
    }
  }

  // In the output every `key=` is followed by the mask and then a terminator or the end.

  predicate MaskedHere(s: string) {
    var n := CredLen(s);
    n > 0 ==> StartsWith(s[n..], MASK) && ValueLen(s[n..]) == 3
  }

  predicate Masked(s: string) {
    forall i :: 0 <= i <= |s| ==> MaskedHere(s[i..])
  }

  lemma MaskedCons(s: string)
    requires s != ""
    ensures Masked(s) <==> MaskedHere(s) && Masked(s[1..])
  {
    hide MaskedHere;
    assert s[0..] == s;
    assert forall i :: 0 <= i <= |s[1..]| ==> s[1..][i..] == s[i + 1..];
    if Masked(s) {
      forall i | 0 <= i <= |s[1..]|
        ensures MaskedHere(s[1..][i..])
      {
        assert MaskedHere(s[i + 1..]);
      }
    }
    if MaskedHere(s) && Masked(s[1..]) {
      forall i | 0 <= i <= |s|
        ensures MaskedHere(s[i..])
      {
        if i > 0 {
          assert s[1..][i - 1..] == s[i..];
        }
      }
    }
  }

  lemma MaskedEmpty()
    ensures Masked("")
  {
  }

  /** Text with no `p` or `u` past its front adds nothing to check. */
  lemma {:induction false} MaskedPast(w: string, s: string)
    requires Inner(w) && Masked(s)
    ensures Masked(w + s)
    decreases |w|
  {
    if w == "" {
      assert w + s == s;
    } else {
      assert (w + s)[0] == w[0] && (w + s)[1..] == w[1..] + s;
      MaskedPast(w[1..], s);
      NoCredFrom(w + s);
      MaskedCons(w + s);
    }
  }

  lemma NoCredFrom(s: string)
    requires s != "" && s[0] != 'p' && s[0] != 'u'
    ensures CredLen(s) == 0
  {
    if CredLen(s) > 0 {
      var key := CredHasKey(s);
    }
  }

  lemma BoundaryStays(s: string)
    requires AtBoundary(s)
    ensures AtBoundary(Redact(s))
  {
    if s != "" {
      NoCredFrom(s);
    }
  }

  lemma ValueLenOf(v: string, rest: string)
    requires NoTerminator(v) && AtBoundary(rest)
    ensures ValueLen(v + rest) == |v|
    decreases |v|
  {
    hide IsTerminator;
    if v == "" {
      SliceAll(rest);
    } else {
      ConsAppend(v, rest);
      ValueLenOf(v[1..], rest);
    }
  }

  lemma MaskHidesValue(rest: string)
    requires AtBoundary(rest)
    ensures StartsWith(MASK + rest, MASK) && ValueLen(MASK + rest) == 3 && (MASK + rest)[3..] == rest
  {
    ValueLenOf(MASK, rest);
    forall j | 0 <= j < 3
      ensures (MASK + rest)[0 + j] == MASK[j]
    {
    }
  }

  /** `key=***` in front of a boundary is a `key=` of the same length, and masked. */
  lemma MaskedKey(s: string, rest: string)
    requires CredLen(s) > 0 && AtBoundary(rest)
    ensures var n := CredLen(s);
            && CredLen(s[..n] + (MASK + rest)) == n
            && (s[..n] + (MASK + rest))[n..] == MASK + rest
            && Inner(s[..n][1..] + MASK)
  {
    var n := CredLen(s);
    var key := CredHasKey(s);
    var w := key + "=";
    CredIsWord(s, key);
    KeyIsPrefix(s, w);
    var t := s[..n] + (MASK + rest);
    forall j | 0 <= j < |w|
      ensures t[0 + j] == w[j]
    {
    }
    CredIsWord(t, key);
    TailIsInner(key);
    NotUsrName(t);
    CredAtKey(t, key);
    assert s[..n][1..] == w[1..];
  }

  /** Every output is masked everywhere. */
  lemma {:induction false} OutputIsMasked(s: string)
    ensures Masked(Redact(s))
    decreases |s|
  {
    if s == "" {
      MaskedEmpty();
    } else if CredLen(s) > 0 {
      CredFits(s);
      OutputIsMasked(AfterValue(s[CredLen(s)..]));
      MaskedAfterCred(s);
    } else {
      hide CredLen, Masked;
      OutputIsMasked(s[1..]);
      SameCred(s);
      RedactPlain(s);
      var t := [s[0]] + Redact(s[1..]);
      assert t[1..] == Redact(s[1..]);
      NoCredIsMasked(t);
      MaskedCons(t);
    }
  }

  lemma CredFits(s: string)
    requires CredLen(s) > 0
    ensures CredLen(s) <= |s|
  {
  }

  lemma NoCredIsMasked(s: string)
    requires CredLen(s) == 0
    ensures MaskedHere(s)
  {
  }

  lemma MaskedAfterCred(s: string)
    requires CredLen(s) > 0 && Masked(Redact(AfterValue(s[CredLen(s)..])))
    ensures Masked(Redact(s))
  {
    var n := CredLen(s);
    var left := AfterValue(s[n..]);
    BoundaryStays(left);
    var rest := Redact(left);
    MaskedKey(s, rest);
    MaskHidesValue(rest);
    var t := s[..n] + (MASK + rest);
    hide CredLen, Masked, MASK, AfterValue;
    ConsAppend(s[..n], MASK + rest);
    Assoc(s[..n][1..], MASK, rest);
    MaskedPast(s[..n][1..] + MASK, rest);
    MaskedCons(t);
  }

  /** Redaction leaves a string alone exactly when it is masked already. */
  lemma {:induction false} FixpointIffMasked(s: string)
    ensures Redact(s) == s <==> Masked(s)
    decreases |s|
  {
    if Redact(s) == s {
      OutputIsMasked(s);
    }
    if Masked(s) {
      MaskedIsFixpoint(s);
    }
  }

  lemma {:induction false} MaskedIsFixpoint(s: string)
    requires Masked(s)
    ensures Redact(s) == s
    decreases |s|
  {
    hide Masked, MaskedHere, CredLen, AfterValue;
    if s != "" {
      MaskedCons(s);
      var n := CredLen(s);
      if n > 0 {
        var left := AfterMask(s);
        MaskedSuffix(s, n + 3);
        MaskedIsFixpoint(left);
      } else {
        MaskedIsFixpoint(s[1..]);
        Cons(s);
      }
    }
  }

  /** A masked value is the mask, and what follows it is left. */
  lemma AfterMask(s: string) returns (left: string)
    requires CredLen(s) > 0 && MaskedHere(s)
    ensures var n := CredLen(s);
            && left == AfterValue(s[n..]) && n + 3 <= |s| && left == s[n + 3..] && s == s[..n] + (MASK + left)
  {
    hide CredLen, ValueLen;
    var n := CredLen(s);
    left := AfterValue(s[n..]);
    KeyIsPrefix(s[n..], MASK);
    assert left == s[n..][3..] == s[n + 3..];
    assert s == s[..n] + (s[n..][..3] + s[n..][3..]);
  }

  lemma MaskedSuffix(s: string, n: nat)
    requires Masked(s) && n <= |s|
    ensures Masked(s[n..])
  {
    hide MaskedHere;
    forall i | 0 <= i <= |s[n..]|
      ensures MaskedHere(s[n..][i..])
    {
      assert s[n..][i..] == s[n + i..];
    }
  }

  /** Redacting twice is redacting once. */
  lemma {:induction false} RedactIdempotent(s: string)
    ensures Redact(Redact(s)) == Redact(s)
  {
    OutputIsMasked(s);
    MaskedIsFixpoint(Redact(s));
  }

  /**
   The output does not depend on the secrets: strings that differ only in terminator-free text
   after some `key=`, wherever it stands, are redacted alike.
   */
  lemma {:induction false} SecretsDoNotShow(a: string, key: string, v1: string, v2: string, rest: string)
    requires key in KEYS && AtBoundary(rest)
    requires NoTerminator(v1) && NoTerminator(v2)
    ensures Redact(a + Credential(key, v1, rest)) == Redact(a + Credential(key, v2, rest))
    decreases |a|
  {
    hide Redact, CredLen, AtBoundary, NoTerminator, Credential;
    var (x1, x2) := (Credential(key, v1, rest), Credential(key, v2, rest));
    if a == "" {
      assert a + x1 == x1 && a + x2 == x2;
      SecretAtKey(key, v1, rest);
      SecretAtKey(key, v2, rest);
    } else {
      SameCredBefore(a, key, v1, v2, rest);
      var n := CredLen(a + x1);
      if n == 0 {
        SecretsDoNotShow(a[1..], key, v1, v2, rest);
        RedactPastPlain(a, x1);
        RedactPastPlain(a, x2);
      } else {
        var m := ValueLen(a[n..]);
        if m < |a[n..]| {
          SecretsDoNotShow(a[n..][m..], key, v1, v2, rest);
        }
        RedactPastCred(a, key, v1, rest);
        RedactPastCred(a, key, v2, rest);
      }
    }
  }

  predicate NoTerminator(v: string) {
    forall i :: 0 <= i < |v| ==> !IsTerminator(v[i])
  }

  /** A credential and what follows it. */
  function Credential(key: string, value: string, rest: string): string {
    key + "=" + (value + rest)
  }

  lemma RedactPastPlain(a: string, x: string)
    requires a != "" && CredLen(a + x) == 0
    ensures Redact(a + x) == [a[0]] + Redact(a[1..] + x)
  {
    hide CredLen;
    assert (a + x)[0] == a[0] && (a + x)[1..] == a[1..] + x;
  }

  /** A `key=` at the front of `a`, seen from a later `key=`. */
  lemma RedactPastCred(a: string, key: string, v: string, rest: string)
    requires key in KEYS && AtBoundary(rest) && NoTerminator(v)
    requires 0 < CredLen(a + Credential(key, v, rest)) <= |a|
    ensures var x := Credential(key, v, rest);
            var n := CredLen(a + x);
            var m := ValueLen(a[n..]);
            Redact(a + x) == a[..n] + (MASK + (if m < |a[n..]| then Redact(a[n..][m..] + x) else Redact(rest)))
  {
    var x := Credential(key, v, rest);
    var n := CredLen(a + x);
    hide CredLen, Credential, ValueLen;
    assert (a + x)[n..] == a[n..] + x && (a + x)[..n] == a[..n];
    SecretInValue(a[n..], key, v, rest);
  }

  lemma SecretAtKey(key: string, v: string, rest: string)
    requires key in KEYS && AtBoundary(rest) && NoTerminator(v)
    ensures Redact(Credential(key, v, rest)) == key + ("=***" + Redact(rest))
  {
    var here := Credential(key, v, rest);
    forall j | 0 <= j < |key|
      ensures here[0 + j] == key[j]
    {
    }
    assert IsCred(here, key);
    NotUsrName(here);
    hide CredLen, IsCred, Redact;
    AtKey(here, key);
    var after := here[|key|..];
    assert after[0] == '=' && after[1..] == v + rest;
    ValueLenOf(v, rest);
    assert (v + rest)[|v|..] == rest;
  }

  /** A `key=` that starts in `a` ends in `a`, whatever value follows the next `key=`. */
  lemma SameCredBefore(a: string, key: string, v1: string, v2: string, rest: string)
    requires a != "" && key in KEYS
    ensures CredLen(a + Credential(key, v1, rest)) == CredLen(a + Credential(key, v2, rest)) <= |a|
  {
    hide CredLen;
    CredBefore(a, key, v1 + rest, v2 + rest);
    CredBefore(a, key, v2 + rest, v1 + rest);
  }

  lemma CredBefore(a: string, key: string, y1: string, y2: string)
    requires a != "" && key in KEYS
    ensures var (s1, s2) := (a + (key + "=" + y1), a + (key + "=" + y2));
            CredLen(s1) > 0 ==> CredLen(s1) <= |a| && CredLen(s2) == CredLen(s1)
  {
    var (s1, s2) := (a + (key + "=" + y1), a + (key + "=" + y2));
    if CredLen(s1) > 0 {
      var k := CredHasKey(s1);
      CredIsWord(s1, k);
      var w := k + "=";
      TailIsInner(k);
      assert s1[|a|] == key[0];
      assert key == "pwd" || key == "usrName" || key == "usr" || key == "user";
      InnerAt(s1, w, |a|);
      SameFront(s1, s2, a, w);
      CredIsWord(s2, k);
      NotUsrName(s2);
      CredAtKey(s2, k);
    }
  }

  lemma InnerAt(s: string, w: string, i: nat)
    requires StartsWith(s, w) && w != "" && Inner(w[1..])
    ensures 0 < i < |w| ==> s[i] != 'p' && s[i] != 'u'
  {
    if 0 < i < |w| {
      assert w[1..][i - 1] == w[i];
      CharAt(s, w, i);
    }
  }

  lemma SameFront(s1: string, s2: string, a: string, w: string)
    requires StartsWith(s1, w) && |w| <= |a| <= |s1| && |a| <= |s2| && s1[..|a|] == a && s2[..|a|] == a
    ensures StartsWith(s2, w)
  {
    forall j | 0 <= j < |w|
      ensures s2[0 + j] == w[j]
    {
      CharAt(s1, w, j);
      assert s1[..|a|][j] == s2[..|a|][j];
    }
  }

  /** A value that starts in `b` ends in `b`, or swallows the next `key=` together with its value. */
  lemma {:induction false} SecretInValue(b: string, key: string, v: string, rest: string)
    requires key in KEYS && AtBoundary(rest) && NoTerminator(v)
    ensures var x := Credential(key, v, rest);
            AfterValue(b + x) == if ValueLen(b) < |b| then b[ValueLen(b)..] + x else rest
    decreases |b|
  {
    var x := Credential(key, v, rest);
    if b == "" {
      assert b + x == x;
      CredentialSwallowed(key, v, rest);
    } else {
      SecretInValue(b[1..], key, v, rest);
      hide *;
      AfterValueCons(b[0], b[1..]);
      AfterValueCons(b[0], b[1..] + x);
      ConsAppend(b, x);
      Cons(b);
      SliceAll(b);
    }
  }

  lemma CredentialSwallowed(key: string, v: string, rest: string)
    requires key in KEYS && AtBoundary(rest) && NoTerminator(v)
    ensures AfterValue(Credential(key, v, rest)) == rest
  {
    var w := key + "=" + v;
    KeyHasNoTerminator(key);
    Assoc(key + "=", v, rest);
    ValueLenOf(w, rest);
    assert (w + rest)[|w|..] == rest;
  }

  lemma KeyHasNoTerminator(key: string)
    requires key in KEYS
    ensures NoTerminator(key)
  {
    assert key == "pwd" || key == "usrName" || key == "usr" || key == "user";
  }

  lemma AfterValueCons(c: char, s: string)
    ensures AfterValue([c] + s) == if IsTerminator(c) then [c] + s else AfterValue(s)
    ensures ValueLen([c] + s) == if IsTerminator(c) then 0 else 1 + ValueLen(s)
    ensures !IsTerminator(c) ==> ([c] + s)[ValueLen([c] + s)..] == s[ValueLen(s)..]
  {
    assert ([c] + s)[1..] == s;
    assert ([c] + s)[0..] == [c] + s;
  }

  // ----- What is not masked -----

  /** A string with no `key=` anywhere is returned as it is. */
  lemma {:induction false} NoKeyNoChange(s: string)
    requires forall i :: 0 <= i <= |s| ==> CredLen(s[i..]) == 0
    ensures Redact(s) == s
  {
    hide CredLen;
    forall i | 0 <= i <= |s|
      ensures MaskedHere(s[i..])
    {
      NoCredIsMasked(s[i..]);
    }
    hide MaskedHere;
    FixpointIffMasked(s);
  }

  /** In particular one with no equals sign. */
  lemma NoEqualsNoChange(s: string)
    requires '=' !in s
    ensures Redact(s) == s
  {
    forall i | 0 <= i <= |s|
      ensures CredLen(s[i..]) == 0
    {
      assert forall j :: 0 <= j < |s[i..]| ==> s[i..][j] == s[i + j];
      assert '=' !in s[i..];
    }
    hide CredLen;
    NoKeyNoChange(s);
  }

  /**
   A login command that does not parse, for want of a user name say, is redacted as JSON. There
   a colon follows the key, so the password stays in the clear.
   */
  lemma JsonIsNotMasked(password: string)
    requires '=' !in password
    ensures var json := "{\"pwd\":\"" + password + "\"}"; Redact(json) == json
  {
    var json := "{\"pwd\":\"" + password + "\"}";
    hide Redact;
    assert '=' !in "{\"pwd\":\"" && '=' !in "\"}";
    NoEqualsNoChange(json);
  }

  // ----- Where a secret ends -----

  /** None of the eight characters that end a value. */
  predicate IsSecret(v: string) {
    forall i :: 0 <= i < |v| ==>
      v[i] != '&' && v[i] != ')' && v[i] != ' ' && v[i] != '\t'
      && v[i] != '"' && v[i] != '\'' && v[i] != '\n' && v[i] != '\r'
  }

  lemma SecretHasNoTerminator(v: string)
    ensures IsSecret(v) <==> NoTerminator(v)
  {
  }

  /** A value runs to the end of the string, and nothing of it is left. */
  lemma SecretIsMasked(key: string, v: string)
    requires key == "pwd" || key == "usrName" || key == "usr" || key == "user"
    requires IsSecret(v)
    ensures Redact(key + "=" + v) == key + "=***"
  {
    hide IsSecret, NoTerminator, Redact;
    SecretHasNoTerminator(v);
    OneValue(key, v, "");
    SliceAll(v);
    NothingToRedact();
  }

  /** Or up to the first of the eight characters, which stays, with what follows it redacted in turn. */
  lemma SecretEndsAt(key: string, v: string, t: char, more: string)
    requires key == "pwd" || key == "usrName" || key == "usr" || key == "user"
    requires IsSecret(v)
    requires t == '&' || t == ')' || t == ' ' || t == '\t' || t == '"' || t == '\'' || t == '\n' || t == '\r'
    ensures Redact(key + "=" + (v + ([t] + more))) == key + "=***" + Redact([t] + more)
  {
    hide IsSecret, NoTerminator, Redact;
    SecretHasNoTerminator(v);
    OneValue(key, v, [t] + more);
  }

  lemma NothingToRedact()
    ensures Redact("") == ""
  {
  }

  lemma OneValue(key: string, v: string, rest: string)
    requires key == "pwd" || key == "usrName" || key == "usr" || key == "user"
    requires NoTerminator(v) && AtBoundary(rest)
    ensures Redact(key + "=" + (v + rest)) == key + "=***" + Redact(rest)
  {
    hide NoTerminator, ValueLen, CredLen;
    var s := key + "=" + (v + rest);
    KeyIsCred(key, v + rest);
    ValueLenOf(v, rest);
    SplitValue(key, v, rest);
    RedactCred(s);
    Assoc(key + "=", MASK, Redact(rest));
    assert key + "=" + MASK == key + "=***";
  }

  lemma SplitValue(key: string, v: string, rest: string)
    ensures var (s, n) := (key + "=" + (v + rest), |key| + 1); s[..n] == key + "=" && s[n..] == v + rest
    ensures (v + rest)[|v|..] == rest
  {
  }

  lemma RedactCred(s: string)
    requires CredLen(s) > 0
    ensures Redact(s) == s[..CredLen(s)] + (MASK + Redact(AfterValue(s[CredLen(s)..])))
  {
    hide CredLen, AfterValue;
  }

  lemma KeyIsCred(key: string, after: string)
    requires key == "pwd" || key == "usrName" || key == "usr" || key == "user"
    ensures CredLen(key + "=" + after) == |key| + 1
  {
    var s := key + "=" + after;
    assert forall i :: 0 <= i < |key| ==> s[i] == key[i];
    assert s[|key|] == '=';
  }
}

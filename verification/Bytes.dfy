/** Bytes, big-endian fields and the small sequence vocabulary the other modules share. */
module Bytes {

  type u8 = b: int | 0 <= b < 0x100

  const U16: nat := 0x1_0000
  const U24: nat := 0x100_0000
  const U32: nat := 0x1_0000_0000

  datatype Option<+T> = None | Some(value: T)

  // Writers keep the low bits of `n`, as the casts and shifts of the program do.

  function Be16(n: nat): (r: seq<u8>)
    ensures |r| == 2
  {
    [(n / 0x100) % 0x100, n % 0x100]
  }

  function Be24(n: nat): (r: seq<u8>)
    ensures |r| == 3
  {
    [(n / 0x100 / 0x100) % 0x100] + Be16(n)
  }

  function Be32(n: nat): (r: seq<u8>)
    ensures |r| == 4
  {
    [(n / 0x100 / 0x100 / 0x100) % 0x100] + Be24(n)
  }

  function Value16(b: seq<u8>): (n: nat)
    requires |b| == 2
    ensures n < U16
  {
    var hi: int := b[0];
    hi * 0x100 + b[1]
  }

  function Value24(b: seq<u8>): (n: nat)
    requires |b| == 3
    ensures n < U24
  {
    var hi: int := b[0];
    hi * 0x1_0000 + Value16(b[1..])
  }

  function Value32(b: seq<u8>): (n: nat)
    requires |b| == 4
    ensures n < U32
  {
    var hi: int := b[0];
    hi * 0x100_0000 + Value24(b[1..])
  }

  /** A remainder is fixed by any division of `n`. */
  lemma ModIs(n: nat, m: nat, q: nat, r: nat)
    requires n == q * m + r && r < m
    ensures n % m == r
  {
    var d := n / m;
    assert n == d * m + n % m;
    WholeStep(d, q, m);
    WholeStep(q, d, m);
  }

  lemma WholeStep(a: nat, b: nat, m: nat)
    ensures a < b ==> a * m + m <= b * m
  {
    if a < b {
      MulAtLeast(b - a, m);
      assert b * m == a * m + (b - a) * m;
    }
  }

  lemma {:induction false} MulAtLeast(k: nat, m: nat)
    requires k > 0
    ensures k * m >= m
  {
    if k > 1 {
      MulAtLeast(k - 1, m);
      assert k * m == (k - 1) * m + m;
    }
  }

  /** The low bytes of `n`, one division at a time. */
  lemma LowBytes(n: nat) returns (b0: u8, b1: u8, b2: u8, b3: u8, q: nat)
    ensures b0 == n % 0x100 && b1 == n / 0x100 % 0x100
    ensures b2 == n / 0x100 / 0x100 % 0x100 && b3 == n / 0x100 / 0x100 / 0x100 % 0x100
    ensures n == q * U32 + b3 * U24 + b2 * U16 + b1 * 0x100 + b0
  {
    var (q1, q2, q3) := (n / 0x100, n / 0x100 / 0x100, n / 0x100 / 0x100 / 0x100);
    b0, b1, b2, b3, q := n % 0x100, q1 % 0x100, q2 % 0x100, q3 % 0x100, q3 / 0x100;
    assert n == q1 * 0x100 + b0 && q1 == q2 * 0x100 + b1 && q2 == q3 * 0x100 + b2 && q3 == q * 0x100 + b3;
  }

  lemma Remainders(n: nat, b0: u8, b1: u8, b2: u8, b3: u8, q: nat)
    requires n == q * U32 + b3 * U24 + b2 * U16 + b1 * 0x100 + b0
    ensures n % U16 == b1 * 0x100 + b0
    ensures n % U24 == b2 * U16 + b1 * 0x100 + b0
    ensures n % U32 == b3 * U24 + b2 * U16 + b1 * 0x100 + b0
  {
    var (h3: nat, h2: nat) := (q * 0x100 + b3, (q * 0x100 + b3) * 0x100 + b2);
    ModIs(n, U16, h2, b1 * 0x100 + b0);
    ModIs(n, U24, h3, b2 * U16 + b1 * 0x100 + b0);
    ModIs(n, U32, q, b3 * U24 + b2 * U16 + b1 * 0x100 + b0);
  }

  lemma Value16Be16(n: nat)
    ensures Value16(Be16(n)) == n % U16
  {
    var b0, b1, b2, b3, q := LowBytes(n);
    Remainders(n, b0, b1, b2, b3, q);
  }

  lemma Value24Be24(n: nat)
    ensures Value24(Be24(n)) == n % U24
  {
    hide Be16, Value16;
    Value16Be16(n);
    var b0, b1, b2, b3, q := LowBytes(n);
    Remainders(n, b0, b1, b2, b3, q);
    assert Be24(n)[1..] == Be16(n);
  }

  lemma Value32Be32(n: nat)
    ensures Value32(Be32(n)) == n % U32
  {
    hide Be24, Value24;
    Value24Be24(n);
    var b0, b1, b2, b3, q := LowBytes(n);
    Remainders(n, b0, b1, b2, b3, q);
    assert Be32(n)[1..] == Be24(n);
  }

  lemma Be16Value16(b: seq<u8>)
    requires |b| == 2
    ensures Be16(Value16(b)) == b
  {
  }

  lemma Be24Value24(b: seq<u8>)
    requires |b| == 3
    ensures Be24(Value24(b)) == b
  {
    var n := Value24(b);
    var low := Value16(b[1..]);
    Be16Value16(b[1..]);
    Be16Wraps(b[0], low);
    assert n / 0x100 / 0x100 == b[0];
    assert b == [b[0]] + b[1..];
  }

  lemma Be32Value32(b: seq<u8>)
    requires |b| == 4
    ensures Be32(Value32(b)) == b
  {
    var n := Value32(b);
    var low := Value24(b[1..]);
    Be24Value24(b[1..]);
    Be24Wraps(b[0], low);
    var (b1: int, b2: int, b3: int) := (b[1], b[2], b[3]);
    var k: int := b[0];
    ByteShift(k * U16 + b1 * 0x100 + b2, b3);
    ByteShift(k * 0x100 + b1, b2);
    ByteShift(k, b1);
    assert n / 0x100 / 0x100 / 0x100 == k;
    assert b == [b[0]] + b[1..];
  }

  lemma ByteShift(k: nat, n: nat)
    ensures (k * 0x100 + n) / 0x100 == k + n / 0x100
    ensures (k * 0x100 + n) % 0x100 == n % 0x100
  {
  }

  lemma Be16Wraps(k: nat, n: nat)
    ensures Be16(k * U16 + n) == Be16(n)
  {
    ByteShift(k * 0x100, n);
    ByteShift(k, n / 0x100);
  }

  lemma Be24Wraps(k: nat, n: nat)
    ensures Be24(k * U24 + n) == Be24(n)
  {
    Be16Wraps(k * 0x100, n);
    ByteShift(k * U16, n);
    ByteShift(k * 0x100, n / 0x100);
    ByteShift(k, n / 0x100 / 0x100);
  }

  lemma Assoc<T>(a: seq<T>, b: seq<T>, c: seq<T>)
    ensures (a + b) + c == a + (b + c)
  {
  }

  lemma Cons<T>(a: seq<T>)
    requires a != []
    ensures a == [a[0]] + a[1..]
  {
  }

  lemma ConsAppend<T>(a: seq<T>, b: seq<T>)
    requires a != []
    ensures (a + b)[0] == a[0] && (a + b)[1..] == a[1..] + b
    ensures a + b == [a[0]] + (a[1..] + b)
  {
  }

  lemma SliceAll<T>(a: seq<T>)
    ensures a[0..] == a && a[..|a|] == a && a[|a|..] == [] && [] + a == a && a + [] == a
  {
  }

  lemma TakeDrop<T>(a: seq<T>, k: nat)
    requires k <= |a|
    ensures a == a[..k] + a[k..]
  {
  }

  lemma Snoc<T>(a: seq<T>, k: nat)
    requires k < |a|
    ensures a[..k + 1] == a[..k] + [a[k]]
    ensures a[..|a|] == a
  {
  }

  lemma SliceOfSlice<T>(s: seq<T>, a: nat, b: nat, i: nat, j: nat)
    requires i <= j && a + j <= b <= |s|
    ensures s[a..b][i..j] == s[a + i..a + j]
  {
    forall k | 0 <= k < j - i
      ensures s[a..b][i..j][k] == s[a + i..a + j][k]
    {
      assert s[a..b][i..j][k] == s[a..b][i + k];
    }
  }

  function Flatten<T>(parts: seq<seq<T>>): seq<T> {
    if parts == [] then [] else parts[0] + Flatten(parts[1..])
  }
}

/** Little-endian integers in byte strings. */
module LittleEndian {

  type Byte = x: int | 0 <= x < 0x100
  type Bytes = seq<Byte>
  type U16 = x: int | 0 <= x < 0x1_0000
  type U32 = x: int | 0 <= x < 0x1_0000_0000

  type U64 = x: int | 0 <= x < 0x1_0000_0000_0000_0000

  function Lo(x: nat): Byte { x % 0x100 }

  function Write16(x: U16): Bytes { [Lo(x), Lo(x / 0x100)] }

  function Write32(x: U32): (b: Bytes)
    ensures |b| == 4
  {
    [Lo(x), Lo(x / 0x100), Lo(x / 0x1_0000), Lo(x / 0x100_0000)]
  }

  function Read16(b: Bytes, at: nat): U16
    requires at + 2 <= |b|
  {
    var lo: int, hi: int := b[at], b[at + 1];
    lo + 0x100 * hi
  }

  function Read32(b: Bytes, at: nat): U32
    requires at + 4 <= |b|
  {
    var lo: int, hi: int := Read16(b, at), Read16(b, at + 2);
    lo + 0x1_0000 * hi
  }

  function Write64(x: U64): (b: Bytes)
    ensures |b| == 8
  {
    Write32(x % 0x1_0000_0000) + Write32(x / 0x1_0000_0000)
  }

  function Read64(b: Bytes, at: nat): U64
    requires at + 8 <= |b|
  {
    var lo: int, hi: int := Read32(b, at), Read32(b, at + 4);
    lo + 0x1_0000_0000 * hi
  }

  predicate Holds(b: Bytes, at: nat, part: Bytes) {
    at + |part| <= |b| && forall i :: 0 <= i < |part| ==> b[at + i] == part[i]
  }

  lemma ReadWritten16(b: Bytes, at: nat, x: U16)
    requires Holds(b, at, Write16(x))
    ensures Read16(b, at) == x
  {
    assert b[at + 0] == Write16(x)[0] && b[at + 1] == Write16(x)[1];
  }

  lemma ReadWritten32(b: Bytes, at: nat, x: U32)
    requires Holds(b, at, Write32(x))
    ensures Read32(b, at) == x
  {
    var w := Write32(x);
    assert b[at + 0] == w[0] && b[at + 1] == w[1] && b[at + 2] == w[2] && b[at + 3] == w[3];
    assert x / 0x1_0000 == (x / 0x100) / 0x100 && x / 0x100_0000 == ((x / 0x100) / 0x100) / 0x100;
  }

  /** The number some bytes make up, the least significant first. */
  function Weighed(b: Bytes): nat {
    if b == [] then 0 else var first: int := b[0]; first + 0x100 * Weighed(b[1..])
  }

  lemma WeighedTwo(b: Bytes)
    requires |b| == 2
    ensures Weighed(b) == Read16(b, 0)
  {
    assert b[1..][1..] == [] && b[1..][0] == b[1];
    var last: int := b[1];
    assert Weighed(b[1..]) == last + 0x100 * Weighed(b[1..][1..]);
  }

  lemma {:induction false} WeighedConcat(a: Bytes, b: Bytes, n: nat)
    requires |a| == 2 * n
    ensures Weighed(a + b) == Weighed(a) + Power(n) * Weighed(b)
    decreases n
  {
    if n == 0 {
      assert a + b == b;
    } else {
      var rest := a[1..][1..];
      assert (a + b)[1..] == a[1..] + b && (a[1..] + b)[1..] == rest + b;
      WeighedConcat(rest, b, n - 1);
      MulAssoc(0x1_0000, Power(n - 1), Weighed(b));
    }
  }

  /** 2 to the power of 16 times `n`. */
  function Power(n: nat): nat {
    if n == 0 then 1 else 0x1_0000 * Power(n - 1)
  }

  lemma MulAssoc(a: nat, b: nat, c: nat)
    ensures a * (b * c) == (a * b) * c
  {}

  /** Reading is little-endian. */
  lemma ReadsWeighed(b: Bytes, at: nat)
    ensures at + 2 <= |b| ==> Read16(b, at) == Weighed(b[at..at + 2])
    ensures at + 4 <= |b| ==> Read32(b, at) == Weighed(b[at..at + 4])
    ensures at + 8 <= |b| ==> Read64(b, at) == Weighed(b[at..at + 8])
  {
    if at + 2 <= |b| {
      WeighedTwo(b[at..at + 2]);
    }
    if at + 4 <= |b| {
      Weighs32(b, at);
    }
    if at + 8 <= |b| {
      Weighs32(b, at);
      Weighs32(b, at + 4);
      assert b[at..at + 8] == b[at..at + 4] + b[at + 4..at + 8];
      WeighedConcat(b[at..at + 4], b[at + 4..at + 8], 2);
      assert Power(2) == 0x1_0000_0000;
    }
  }

  lemma Weighs32(b: Bytes, at: nat)
    requires at + 4 <= |b|
    ensures Read32(b, at) == Weighed(b[at..at + 4])
  {
    var lo, hi := b[at..at + 2], b[at + 2..at + 4];
    assert b[at..at + 4] == lo + hi;
    WeighedTwo(lo);
    WeighedTwo(hi);
    WeighedConcat(lo, hi, 1);
    assert Power(1) == 0x1_0000;
  }

  lemma HoldsParts(b: Bytes, at: nat, x: Bytes, y: Bytes)
    requires Holds(b, at, x + y)
    ensures Holds(b, at, x) && Holds(b, at + |x|, y)
  {
    forall i | 0 <= i < |x| ensures b[at + i] == x[i] {
      assert (x + y)[i] == x[i];
    }
    forall i | 0 <= i < |y| ensures b[at + |x| + i] == y[i] {
      assert (x + y)[|x| + i] == y[i];
    }
  }

  lemma ReadWritten64(b: Bytes, at: nat, x: U64)
    requires Holds(b, at, Write64(x))
    ensures Read64(b, at) == x
  {
    HoldsParts(b, at, Write32(x % 0x1_0000_0000), Write32(x / 0x1_0000_0000));
    ReadWritten32(b, at, x % 0x1_0000_0000);
    ReadWritten32(b, at + 4, x / 0x1_0000_0000);
  }

  lemma HoldsSplit(b: Bytes, at: nat, whole: Bytes, x: Bytes, y: Bytes, n: nat)
    requires Holds(b, at, whole) && whole == x + y && n == |x|
    ensures Holds(b, at, x) && Holds(b, at + n, y)
  {
    HoldsParts(b, at, x, y);
  }

  function Zeros(n: nat): (z: Bytes)
    ensures |z| == n && forall i :: 0 <= i < n ==> z[i] == 0
  {
    seq(n, _ => 0)
  }
}

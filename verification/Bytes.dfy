/** Bytes, big-endian fields and exclusive or, shared by the packet formats.

    A byte is an integer from 0 to 255, so a mask with a low-bits constant is a remainder, a right
    shift is a division, and a bit test asks for the parity of a quotient. */
module Bytes {
  datatype Option<+T> = None | Some(value: T)

  type Byte = b: int | 0 <= b < 0x100
  type U16 = n: int | 0 <= n < 0x1_0000
  type U32 = n: int | 0 <= n < 0x1_0000_0000
  type Buffer = seq<Byte>

  /** How far apart two numbers are. */
  function Distance(i: int, j: int): nat
  {
    if i < j then j - i else i - j
  }

  function Min(a: int, b: int): int { if a < b then a else b }

  predicate HasBit(b: Byte, weight: int)
    requires weight in {0x01, 0x10, 0x20, 0x40, 0x80}
  {
    b / weight % 2 == 1
  }

  function SetBit(b: Byte, weight: int): (r: Byte)
    requires weight in {0x10, 0x80}
    ensures HasBit(r, weight)
  {
    if HasBit(b, weight) then b else b + weight
  }

  function ReadU16(b: Buffer, at: nat): U16
    requires at + 2 <= |b|
  {
    var high: int := b[at];
    high * 0x100 + b[at + 1]
  }

  function ReadU32(b: Buffer, at: nat): U32
    requires at + 4 <= |b|
  {
    ReadU16(b, at) * 0x1_0000 + ReadU16(b, at + 2)
  }

  /** The two big-endian bytes of `n`. */
  function Be16(n: U16): (b: Buffer)
    ensures |b| == 2 && ReadU16(b, 0) == n
  {
    [n / 0x100, n % 0x100]
  }

  /** The four big-endian bytes of `n`. */
  function Be32(n: U32): (b: Buffer)
    ensures |b| == 4 && ReadU32(b, 0) == n
  {
    Be16(n / 0x1_0000) + Be16(n % 0x1_0000)
  }

  lemma Be16Read(b: Buffer, at: nat)
    requires at + 2 <= |b|
    ensures Be16(ReadU16(b, at)) == b[at..at + 2]
  {
  }

  lemma Be32Read(b: Buffer, at: nat)
    requires at + 4 <= |b|
    ensures Be32(ReadU32(b, at)) == b[at..at + 4]
  {
    Be16Read(b, at);
    Be16Read(b, at + 2);
    assert ReadU32(b, at) / 0x1_0000 == ReadU16(b, at) && ReadU32(b, at) % 0x1_0000 == ReadU16(b, at + 2);
    assert b[at..at + 4] == b[at..at + 2] + b[at + 2..at + 4];
  }

  /** A field read is the same wherever its bytes stand. */
  lemma ReadSame(a: Buffer, i: nat, b: Buffer, j: nat)
    requires i + 4 <= |a| && j + 4 <= |b| && a[i..i + 4] == b[j..j + 4]
    ensures ReadU16(a, i) == ReadU16(b, j) && ReadU32(a, i) == ReadU32(b, j)
  {
    var (x, y) := (a[i..i + 4], b[j..j + 4]);
    assert x[0] == a[i] && x[1] == a[i + 1] && x[2] == a[i + 2] && x[3] == a[i + 3];
    assert y[0] == b[j] && y[1] == b[j + 1] && y[2] == b[j + 2] && y[3] == b[j + 3];
  }

  lemma ReadsBe16(b: Buffer, at: nat, n: U16)
    requires at + 2 <= |b| && b[at..at + 2] == Be16(n)
    ensures ReadU16(b, at) == n
  {
    var x := b[at..at + 2];
    assert x[0] == b[at] && x[1] == b[at + 1];
  }

  lemma ReadsBe32(b: Buffer, at: nat, n: U32)
    requires at + 4 <= |b| && b[at..at + 4] == Be32(n)
    ensures ReadU32(b, at) == n
  {
    assert b[at..at + 4] == Be32(n)[0..4];
    ReadSame(b, at, Be32(n), 0);
  }

  function WriteU16(b: Buffer, at: nat, n: U16): (r: Buffer)
    requires at + 2 <= |b|
    ensures |r| == |b| && ReadU16(r, at) == n
    ensures r[..at] == b[..at] && r[at + 2..] == b[at + 2..]
  {
    b[at := n / 0x100][at + 1 := n % 0x100]
  }

  function WriteU32(b: Buffer, at: nat, n: U32): (r: Buffer)
    requires at + 4 <= |b|
    ensures |r| == |b| && ReadU32(r, at) == n
    ensures r[..at] == b[..at] && r[at + 4..] == b[at + 4..]
  {
    WriteU16(WriteU16(b, at, n / 0x1_0000), at + 2, n % 0x1_0000)
  }

  function Zeros(n: nat): (z: Buffer)
    ensures |z| == n
    ensures forall i :: 0 <= i < n ==> z[i] == 0
  {
    seq(n, _ => 0)
  }

  // ----- exclusive or -----

  function Xor(a: nat, b: nat): nat {
    if a == 0 && b == 0 then 0 else (a + b) % 2 + 2 * Xor(a / 2, b / 2)
  }

  /** One unfolding of `Xor`, with the low bits apart. */
  lemma XorLowBit(a: nat, p: nat, b: nat, q: nat)
    requires p < 2 && q < 2
    ensures Xor(2 * a + p, 2 * b + q) == (if p == q then 0 else 1) + 2 * Xor(a, b)
  {
    assert (2 * a + p) / 2 == a && (2 * b + q) / 2 == b;
    assert (2 * a + p + (2 * b + q)) % 2 == (p + q) % 2;
  }

  lemma {:induction false} XorCancels(a: nat, b: nat)
    ensures Xor(Xor(a, b), b) == a
  {
    hide Xor;
    if a == 0 && b == 0 {
      XorZero(0);
    } else {
      var (h, p, k, q) := (a / 2, a % 2, b / 2, b % 2);
      XorLowBit(h, p, k, q);
      XorLowBit(Xor(h, k), if p == q then 0 else 1, k, q);
      XorCancels(h, k);
    }
  }

  lemma {:induction false} XorZero(a: nat)
    ensures Xor(a, 0) == a && Xor(0, a) == a
  {
    if a != 0 {
      XorZero(a / 2);
    }
  }

  /** `a` shifted left by `n` bits. */
  function Shl(a: nat, n: nat): nat {
    if n == 0 then a else 2 * Shl(a, n - 1)
  }

  lemma Shl8(a: nat)
    ensures Shl(a, 8) == a * 0x100
  {
    ShlTwo(a, 0);
    ShlTwo(a, 2);
    ShlTwo(a, 4);
    ShlTwo(a, 6);
  }

  lemma ShlTwo(a: nat, n: nat)
    ensures Shl(a, n + 2) == 4 * Shl(a, n)
  {
    assert Shl(a, n + 2) == 2 * Shl(a, n + 1);
  }

  /** Exclusive or acts on the bits above and below any position separately. */
  lemma {:induction false} XorSplits(a: nat, b: nat, c: nat, d: nat, n: nat)
    requires b < Shl(1, n) && d < Shl(1, n)
    ensures Xor(b, d) < Shl(1, n)
    ensures Xor(Shl(a, n) + b, Shl(c, n) + d) == Shl(Xor(a, c), n) + Xor(b, d)
    decreases n
  {
    hide Xor;
    if n == 0 {
      XorZero(0);
    } else {
      var (x, p, y, q) := (b / 2, b % 2, d / 2, d % 2);
      XorSplits(a, x, c, y, n - 1);
      XorLowBit(x, p, y, q);
      XorLowBit(Shl(a, n - 1) + x, p, Shl(c, n - 1) + y, q);
    }
  }

  lemma {:induction false} XorByte(a: Byte, b: Byte)
    ensures Xor(a, b) < 0x100
  {
    assert Shl(1, 8) == 0x100;
    XorSplits(0, a, 0, b, 8);
  }

  function XorBytes(a: Byte, b: Byte): Byte {
    XorByte(a, b);
    Xor(a, b)
  }
}

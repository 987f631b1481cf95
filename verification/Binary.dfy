/**
 Byte strings and fixed-width little-endian integers.  Every on-disk format of the engine
 (vmdirty, commit.intent, ZIP, vmidx) is little-endian, so they all share these two
 functions and the round-trip lemma about them.
 */
module Binary {
  type Byte = x: int | 0 <= x < 256

  type Bytes = seq<Byte>

  /** Entry names, as their UTF-8 bytes. */
  type Name = Bytes

  function Min(a: int, b: int): int {
    if a < b then a else b
  }

  function Max(a: int, b: int): int {
    if a < b then b else a
  }

  function Zeros(n: nat): (z: Bytes)
    ensures |z| == n
    ensures forall i :: 0 <= i < n ==> z[i] == 0
  {
    seq(n, _ => 0)
  }

  /** `data` cut or right-padded with zeros to exactly `n` bytes. */
  function Padded(data: Bytes, n: nat): (z: Bytes)
    ensures |z| == n
    ensures forall i :: 0 <= i < n ==> z[i] == if i < |data| then data[i] else 0
  {
    seq(n, i requires 0 <= i < n => if i < |data| then data[i] else 0)
  }

  function Pow256(n: nat): (p: nat)
    ensures p >= 1
  {
    if n == 0 then 1 else 256 * Pow256(n - 1)
  }

  /** The `n` low-order bytes of `x`, least significant first. */
  function Le(x: nat, n: nat): (s: Bytes)
    ensures |s| == n
  {
    if n == 0 then [] else [x % 256] + Le(x / 256, n - 1)
  }

  /** The number a little-endian byte string stands for. */
  function Num(s: Bytes): nat {
    if s == [] then 0 else s[0] + 256 * Num(s[1..])
  }

  /** Reads back what `Le` wrote, for every number that fits. */
  lemma {:induction false} NumLe(x: nat, n: nat)
    requires x < Pow256(n)
    ensures Num(Le(x, n)) == x
  {
    if n > 0 {
      NumLe(x / 256, n - 1);
      assert Le(x, n)[1..] == Le(x / 256, n - 1);
    }
  }

  /** Every byte string is the encoding of the number it stands for. */
  lemma {:induction false} LeNum(s: Bytes)
    ensures Num(s) < Pow256(|s|)
    ensures Le(Num(s), |s|) == s
  {
    if s != [] {
      LeNum(s[1..]);
      assert Num(s) % 256 == s[0] && Num(s) / 256 == Num(s[1..]);
      assert [s[0]] + s[1..] == s;
    }
  }

  const U16_LIMIT: nat := 0x1_0000
  const U32_LIMIT: nat := 0x1_0000_0000
  const U64_LIMIT: nat := 0x1_0000_0000_0000_0000

  type U32 = x: int | 0 <= x < U32_LIMIT

  /** The CRC-32C of the journal, the intent and the index, abstractly. */
  type Checksum = Bytes -> U32

  lemma Widths()
    ensures Pow256(1) == 0x100 && Pow256(2) == U16_LIMIT && Pow256(4) == U32_LIMIT && Pow256(8) == U64_LIMIT
  {
    assert Pow256(3) == 256 * Pow256(2);
    assert Pow256(4) == 256 * Pow256(3);
    assert Pow256(5) == 256 * Pow256(4);
    assert Pow256(6) == 256 * Pow256(5);
    assert Pow256(7) == 256 * Pow256(6);
  }

  function Le16(x: nat): (s: Bytes)
    ensures |s| == 2
  {
    Le(x, 2)
  }

  function Le32(x: nat): (s: Bytes)
    ensures |s| == 4
  {
    Le(x, 4)
  }

  function Le64(x: nat): (s: Bytes)
    ensures |s| == 8
  {
    Le(x, 8)
  }

  function Rd16(b: Bytes, off: nat): (x: nat)
    requires off + 2 <= |b|
  {
    Num(b[off..off + 2])
  }

  function Rd32(b: Bytes, off: nat): (x: nat)
    requires off + 4 <= |b|
  {
    Num(b[off..off + 4])
  }

  function Rd64(b: Bytes, off: nat): (x: nat)
    requires off + 8 <= |b|
  {
    Num(b[off..off + 8])
  }

  /** A fixed-width field found at `off` in `b` reads back as the number written. */
  lemma RdLe(b: Bytes, off: nat, x: nat, n: nat)
    requires off + n <= |b| && b[off..off + n] == Le(x, n)
    requires x < Pow256(n)
    ensures Num(b[off..off + n]) == x
  {
    NumLe(x, n);
  }

  /** A sequence of byte strings laid end to end. */
  function Flatten(parts: seq<Bytes>): Bytes {
    if parts == [] then [] else parts[0] + Flatten(parts[1..])
  }

  lemma {:induction false} FlattenAppend(a: seq<Bytes>, b: seq<Bytes>)
    ensures Flatten(a + b) == Flatten(a) + Flatten(b)
  {
    if a == [] {
      assert a + b == b;
    } else {
      assert (a + b)[1..] == a[1..] + b;
      FlattenAppend(a[1..], b);
    }
  }

  lemma Regroup(a: Bytes, b: Bytes, c: Bytes)
    ensures a + (b + c) == (a + b) + c
  {
  }

  /** A slice of a block found at `at`. */
  lemma SubSlice(data: Bytes, at: nat, block: Bytes, i: nat, j: nat)
    requires at + |block| <= |data| && data[at..at + |block|] == block && i <= j <= |block|
    ensures data[at + i..at + j] == block[i..j]
  {
    var all, part := data[at..at + |block|], data[at + i..at + j];
    forall k | 0 <= k < j - i
      ensures part[k] == block[i + k]
    {
      assert all[i + k] == data[at + i + k];
    }
  }

  lemma Sandwiched(a: Bytes, b: Bytes, c: Bytes, s: Bytes)
    requires s == a + (b + c)
    ensures |s| == |a| + |b| + |c| && s[|a|..|a| + |b|] == b && s[|a| + |b|..] == c
  {
  }
}

// Bytes, machine integers and their little-endian form, shared by every wire format and register map below.
module Bytes {
  type byte = x: int | 0 <= x < 256

  const TWO64: nat := 0x1_0000_0000_0000_0000

  /** The unsigned C integers. */
  type U16 = x: nat | x < 0x1_0000
  type U32 = x: nat | x < 0x1_0000_0000
  type U64 = x: nat | x < TWO64

  function Pow256(n: nat): (r: nat)
    ensures r >= 1
  {
    if n == 0 then 1 else 256 * Pow256(n - 1)
  }

  /** The n low bytes of v, least significant first; higher bytes are dropped, as a C cast drops them. */
  function PutLe(v: nat, n: nat): (b: seq<byte>)
    ensures |b| == n
  {
    if n == 0 then [] else [v % 256] + PutLe(v / 256, n - 1)
  }

  /** The integer whose little-endian bytes are b. */
  function GetLe(b: seq<byte>): nat {
    if b == [] then 0 else b[0] + 256 * GetLe(b[1..])
  }

  /** Least significant byte first. */
  lemma LittleEndian(a: byte, b: byte, c: byte, d: byte)
    ensures GetLe([a, b]) == a + 0x100 * b
    ensures GetLe([a, b, c, d]) == a + 0x100 * b + 0x1_0000 * c + 0x100_0000 * d
  {
    assert GetLe([b]) == b && GetLe([d]) == d;
    assert [c, d][1..] == [d] && [b, c, d][1..] == [c, d] && [a, b, c, d][1..] == [b, c, d];
    assert GetLe([c, d]) == c + 256 * d;
    assert GetLe([b, c, d]) == b + 256 * (c + 256 * d);
  }

  lemma {:induction false} GetLeBound(b: seq<byte>)
    ensures GetLe(b) < Pow256(|b|)
  {
    if b != [] {
      GetLeBound(b[1..]);
    }
  }

  lemma {:induction false} GetPut(v: nat, n: nat)
    requires v < Pow256(n)
    ensures GetLe(PutLe(v, n)) == v
  {
    if n > 0 {
      GetPut(v / 256, n - 1);
      assert PutLe(v, n)[1..] == PutLe(v / 256, n - 1);
    }
  }

  lemma {:induction false} PutGet(b: seq<byte>)
    ensures PutLe(GetLe(b), |b|) == b
  {
    if b != [] {
      PutGet(b[1..]);
      assert b == [b[0]] + b[1..];
    }
  }

  lemma Widths()
    ensures Pow256(1) == 0x100 && Pow256(2) == 0x1_0000
    ensures Pow256(4) == 0x1_0000_0000 && Pow256(8) == 0x1_0000_0000_0000_0000
  {
    assert Pow256(3) == 0x100_0000;
    assert Pow256(4) == 0x1_0000_0000;
    assert Pow256(5) == 0x100_0000_0000;
    assert Pow256(6) == 0x1_0000_0000_0000;
    assert Pow256(7) == 0x100_0000_0000_0000;
  }

  /** Appending bytes adds a multiple of the next power of 256. */
  lemma {:induction false} GetLeConcat(a: seq<byte>, b: seq<byte>)
    ensures GetLe(a + b) == GetLe(a) + Pow256(|a|) * GetLe(b)
  {
    if a == [] {
      assert a + b == b;
    } else {
      assert (a + b)[1..] == a[1..] + b;
      GetLeConcat(a[1..], b);
      Regroup(GetLe(a[1..]), Pow256(|a| - 1), GetLe(b));
    }
  }

  lemma Regroup(x: nat, p: nat, y: nat)
    ensures 256 * (x + p * y) == 256 * x + (256 * p) * y
  {
  }
}

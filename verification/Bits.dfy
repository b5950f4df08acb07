// Bit streams packed least significant bit first.
module Bits {
  import opened Arith
  import opened Bytes

  type bit = x: int | 0 <= x < 2

  function Pow2(n: nat): (r: nat)
    ensures r >= 1
  {
    if n == 0 then 1 else 2 * Pow2(n - 1)
  }

  /** The n low bits of v, lowest first. */
  function BitsOf(v: nat, n: nat): (b: seq<bit>)
    ensures |b| == n
  {
    if n == 0 then [] else [v % 2] + BitsOf(v / 2, n - 1)
  }

  function ValueOf(b: seq<bit>): nat {
    if b == [] then 0 else b[0] + 2 * ValueOf(b[1..])
  }

  lemma {:induction false} ValueOfBits(v: nat, n: nat)
    requires v < Pow2(n)
    ensures ValueOf(BitsOf(v, n)) == v
  {
    if n > 0 {
      ValueOfBits(v / 2, n - 1);
      assert BitsOf(v, n)[1..] == BitsOf(v / 2, n - 1);
    }
  }

  lemma {:induction false} ValueBound(b: seq<bit>)
    ensures ValueOf(b) < Pow2(|b|)
  {
    if b != [] {
      ValueBound(b[1..]);
    }
  }

  /** One more bit on top. */
  lemma {:induction false} ValueAppend(b: seq<bit>, x: bit)
    ensures ValueOf(b + [x]) == ValueOf(b) + x * Pow2(|b|)
  {
    if b == [] {
      assert b + [x] == [x];
      assert ValueOf([x]) == x + 2 * ValueOf([]);
    } else {
      assert (b + [x])[1..] == b[1..] + [x];
      ValueAppend(b[1..], x);
    }
  }

  /** Bit p of a byte string. */
  function BitAt(data: seq<byte>, p: nat): bit
    requires p < 8 * |data|
  {
    (data[p / 8] / Pow2(p % 8)) % 2
  }

  /** The n bits from position p, as far as the data goes. */
  function BitsFrom(data: seq<byte>, p: nat, n: nat): (b: seq<bit>)
    decreases n
  {
    if n == 0 || p >= 8 * |data| then [] else [BitAt(data, p)] + BitsFrom(data, p + 1, n - 1)
  }

  /** The field a reader gets at position p. */
  function Field(data: seq<byte>, p: nat, n: nat): nat {
    ValueOf(BitsFrom(data, p, n))
  }

  lemma {:induction false} BitsFromAt(data: seq<byte>, p: nat, n: nat)
    requires p + n <= 8 * |data|
    ensures |BitsFrom(data, p, n)| == n
    ensures forall i :: 0 <= i < n ==> BitsFrom(data, p, n)[i] == BitAt(data, p + i)
    decreases n
  {
    if n > 0 {
      BitsFromAt(data, p + 1, n - 1);
    }
  }

  /** Reading one bit further. */
  lemma {:induction false} BitsFromAppend(data: seq<byte>, p: nat, n: nat)
    requires p + n < 8 * |data|
    ensures |BitsFrom(data, p, n)| == n
    ensures BitsFrom(data, p, n + 1) == BitsFrom(data, p, n) + [BitAt(data, p + n)]
    decreases n
  {
    hide BitAt;
    if n > 0 {
      BitsFromAppend(data, p + 1, n - 1);
    } else {
      assert BitsFrom(data, p + 1, 0) == [];
    }
  }

  // ----- the data as one number ------------------------------------------------------------------

  lemma {:induction false} BitAtNumber(data: seq<byte>, p: nat)
    requires p < 8 * |data|
    ensures BitAt(data, p) == (GetLe(data) / Pow2(p)) % 2
    decreases |data|
  {
    var v := GetLe(data);
    if p < 8 {
      LowByteBit(data[0], GetLe(data[1..]), p);
    } else {
      BitAtNumber(data[1..], p - 8);
      assert data[p / 8] == data[1..][(p - 8) / 8];
      EightMore(p - 8);
      DivDiv(v, 256, Pow2(p - 8));
      assert v / 256 == GetLe(data[1..]);
    }
  }

  lemma EightMore(n: nat)
    ensures Pow2(n + 8) == 256 * Pow2(n)
  {
    assert Pow2(n + 2) == 4 * Pow2(n) && Pow2(n + 4) == 4 * Pow2(n + 2);
    assert Pow2(n + 6) == 4 * Pow2(n + 4) && Pow2(n + 8) == 4 * Pow2(n + 6);
  }

  lemma LowByteBit(x: byte, rest: nat, p: nat)
    requires p < 8
    ensures ((x + 256 * rest) / Pow2(p)) % 2 == (x / Pow2(p)) % 2
  {
    hide Pow2;
    TwoPowers(p);
    EvenAbove(x, rest, Pow2(p), Pow2(7 - p));
  }

  lemma EvenAbove(x: nat, rest: nat, m: nat, k: nat)
    requires m > 0 && m * k == 128
    ensures ((x + 256 * rest) / m) % 2 == (x / m) % 2
  {
    var h, q, r := k * rest, x / m, x % m;
    assert h * m == 128 * rest by {
      assert rest * (m * k) == (rest * k) * m;
    }
    assert (q + 2 * h) * m == q * m + 2 * (h * m);
    DivUnique(x + 256 * rest, q + 2 * h, m, r);
  }

  lemma {:induction false} TwoPowers(p: nat)
    requires p < 8
    ensures Pow2(p) * Pow2(7 - p) == 128
  {
    if p == 0 {
      EightMore(0);
    } else {
      TwoPowers(p - 1);
      assert Pow2(8 - p) == 2 * Pow2(7 - p) && Pow2(p) == 2 * Pow2(p - 1);
    }
  }

  /** What a reader gets: the data as one little-endian number, shifted down by the position and cut to the width. */
  lemma {:induction false} FieldNumber(data: seq<byte>, p: nat, n: nat)
    requires p + n <= 8 * |data|
    ensures Field(data, p, n) == (GetLe(data) / Pow2(p)) % Pow2(n)
    decreases n
  {
    hide GetLe, BitAt, Pow2, Field;
    TwiceAs(0);
    if n == 0 {
      NoField(data, p);
    } else {
      BitAtNumber(data, p);
      FieldNumber(data, p + 1, n - 1);
      TwiceAs(p);
      TwiceAs(n - 1);
      FieldStep(data, p, n);
      LowBitFirst(GetLe(data), Pow2(p), Pow2(n - 1));
    }
  }

  lemma NoField(data: seq<byte>, p: nat)
    ensures Field(data, p, 0) == 0
  {
  }

  lemma LowBitFirst(v: nat, a: nat, m: nat)
    requires a > 0 && m > 0
    ensures (v / a) % (m * 2) == (v / a) % 2 + 2 * ((v / (a * 2)) % m)
  {
    DivDiv(v, a, 2);
    LowBits(v / a, m);
  }

  lemma TwiceAs(n: nat)
    ensures Pow2(n + 1) == Pow2(n) * 2 && Pow2(0) == 1
  {
  }

  lemma FieldStep(data: seq<byte>, p: nat, n: nat)
    requires n > 0 && p < 8 * |data|
    ensures Field(data, p, n) == BitAt(data, p) + 2 * Field(data, p + 1, n - 1)
  {
    assert BitsFrom(data, p, n)[1..] == BitsFrom(data, p + 1, n - 1);
  }

  lemma LowBits(y: nat, m: nat)
    requires m > 0
    ensures y % (2 * m) == y % 2 + 2 * ((y / 2) % m)
  {
    var h := y / 2;
    var q, r := h / m, h % m;
    assert y == q * (2 * m) + (2 * r + y % 2);
    DivUnique(y, q, 2 * m, 2 * r + y % 2);
  }

  // ----- packing ---------------------------------------------------------------------------------

  function PackByte(b: seq<bit>): byte
    requires |b| <= 8
  {
    ValueBound(b);
    PowMono(|b|, 8);
    assert Pow2(8) == 256;
    ValueOf(b)
  }

  lemma {:induction false} PowMono(m: nat, n: nat)
    requires m <= n
    ensures Pow2(m) <= Pow2(n)
  {
    if m < n {
      PowMono(m, n - 1);
    }
  }

  /** A bit stream in bytes, the last one padded with zero bits. */
  function Pack(b: seq<bit>): (d: seq<byte>)
    ensures |d| == (|b| + 7) / 8
    decreases |b|
  {
    if b == [] then []
    else if |b| <= 8 then [PackByte(b)]
    else [PackByte(b[..8])] + Pack(b[8..])
  }

  lemma {:induction false} DigitOf(b: seq<bit>, i: nat)
    requires i < |b|
    ensures (ValueOf(b) / Pow2(i)) % 2 == b[i]
  {
    if i > 0 {
      DigitOf(b[1..], i - 1);
      var v, w := ValueOf(b), ValueOf(b[1..]);
      assert v / 2 == w;
      DivTwice(v, Pow2(i - 1));
    }
  }

  lemma DivTwice(v: nat, m: nat)
    requires m > 0
    ensures v / (2 * m) == (v / 2) / m
  {
    DivDiv(v, 2, m);
  }

  /** Packing keeps every bit in its place. */
  lemma {:induction false} PackedBit(b: seq<bit>, p: nat)
    requires p < |b|
    ensures BitAt(Pack(b), p) == b[p]
    decreases |b|
  {
    if |b| <= 8 {
      DigitOf(b, p);
    } else if p < 8 {
      DigitOf(b[..8], p);
    } else {
      PackedBit(b[8..], p - 8);
      assert Pack(b)[p / 8] == Pack(b[8..])[(p - 8) / 8];
    }
  }

  /** A run of bits inside a packed stream reads back as the number it packs. */
  lemma PackedField(b: seq<bit>, p: nat, v: nat, n: nat)
    requires p + n <= |b| && v < Pow2(n) && b[p..p + n] == BitsOf(v, n)
    ensures Field(Pack(b), p, n) == v
  {
    hide Pack, BitAt, ValueOf, Pow2, BitsOf;
    BitsFromAt(Pack(b), p, n);
    var f := BitsFrom(Pack(b), p, n);
    forall i | 0 <= i < n ensures f[i] == BitsOf(v, n)[i] {
      PackedBit(b, p + i);
      assert b[p..p + n][i] == b[p + i];
    }
    assert f == BitsOf(v, n);
    ValueOfBits(v, n);
  }

  // ----- the reader ---------------------------------------------------------------------------------

  class BitReader {
    const data: seq<byte>
    var pos: nat

    ghost predicate Valid()
      reads this
    {
      pos <= 8 * |data|
    }

    constructor (data: seq<byte>)
      ensures Valid() && this.data == data && pos == 0
    {
      this.data := data;
      pos := 0;
    }

    /** The next n bits, fewer at the end of the data. */
    method Read(n: nat) returns (v: nat)
      requires Valid()
      modifies this
      ensures Valid() && v == Field(data, old(pos), n)
      ensures pos == if old(pos) + n <= 8 * |data| then old(pos) + n else 8 * |data|
    {
      v := 0;
      var i := 0;
      while i < n
        invariant 0 <= i <= n && Valid() && pos == old(pos) + i
        invariant |BitsFrom(data, old(pos), i)| == i && v == ValueOf(BitsFrom(data, old(pos), i))
      {
        if pos >= 8 * |data| {
          Exhausted(data, old(pos), i, n);
          return;
        }
        BitsFromAppend(data, old(pos), i);
        var b := BitAt(data, pos);
        ValueAppend(BitsFrom(data, old(pos), i), b);
        v := v + b * Pow2(i);
        pos := pos + 1;
        i := i + 1;
      }
    }
  }

  lemma {:induction false} Exhausted(data: seq<byte>, p: nat, i: nat, n: nat)
    requires i <= n && p + i == 8 * |data|
    ensures BitsFrom(data, p, n) == BitsFrom(data, p, i)
    decreases i
  {
    hide BitAt;
    if i > 0 {
      Exhausted(data, p + 1, i - 1, n - 1);
    }
  }
}

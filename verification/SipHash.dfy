// SipHash-2-4 as the hop schedule computes it, against the definition in section 2 of
// "SipHash: a fast short-input PRF" (Aumasson and Bernstein, 2012).
module SipHash {
  // ----- 64-bit words ------------------------------------------------------------------------
  // Proofs about many steps hide these bodies and use the laws instead.

  function Plus(x: bv64, y: bv64): bv64 { x + y }
  function Minus(x: bv64, y: bv64): bv64 { x - y }
  function Xor(x: bv64, y: bv64): bv64 { x ^ y }
  function Or(x: bv64, y: bv64): bv64 { x | y }

  function Rotl(x: bv64, k: nat): bv64
    requires k < 64
  {
    x.RotateLeft(k)
  }

  function Rotr(x: bv64, k: nat): bv64
    requires k < 64
  {
    x.RotateRight(k)
  }

  /** The code's rotation: two shifts joined by OR. */
  function Rotation(x: bv64, b: bv64): bv64
    requires 0 < b < 64
  {
    (x << b) | (x >> (64 - b))
  }

  lemma PlusMinus(x: bv64, y: bv64)
    ensures Minus(Plus(x, y), y) == x && Plus(Minus(x, y), y) == x
  {
    calc { Minus(Plus(x, y), y); Minus(x + y, y); (x + y) - y; x; }
    calc { Plus(Minus(x, y), y); Plus(x - y, y); (x - y) + y; x; }
  }

  lemma XorTwice(x: bv64, y: bv64)
    ensures Xor(Xor(x, y), y) == x
  {
  }

  lemma OrCommutes(x: bv64, y: bv64)
    ensures Or(x, y) == Or(y, x)
  {
  }

  lemma OrAssociates(x: bv64, y: bv64, z: bv64)
    ensures Or(x, Or(y, z)) == Or(Or(x, y), z)
  {
  }

  lemma OrZero(x: bv64)
    ensures Or(x, 0) == x && Or(0, x) == x
  {
  }

  lemma OrLaws(x: bv64, y: bv64, z: bv64)
    ensures Or(x, y) == Or(y, x) && Or(x, Or(y, z)) == Or(Or(x, y), z)
    ensures Or(x, 0) == x && Or(0, x) == x
  {
    hide Or;
    OrCommutes(x, y);
    OrAssociates(x, y, z);
    OrZero(x);
  }

  lemma Rotate13Back(x: bv64)
    ensures Rotr(Rotl(x, 13), 13) == x && Rotl(Rotr(x, 13), 13) == x
  {
    calc { Rotr(Rotl(x, 13), 13); x.RotateLeft(13).RotateRight(13); x; }
    calc { Rotl(Rotr(x, 13), 13); x.RotateRight(13).RotateLeft(13); x; }
  }

  lemma Rotate16Back(x: bv64)
    ensures Rotr(Rotl(x, 16), 16) == x && Rotl(Rotr(x, 16), 16) == x
  {
    calc { Rotr(Rotl(x, 16), 16); x.RotateLeft(16).RotateRight(16); x; }
    calc { Rotl(Rotr(x, 16), 16); x.RotateRight(16).RotateLeft(16); x; }
  }

  lemma Rotate17Back(x: bv64)
    ensures Rotr(Rotl(x, 17), 17) == x && Rotl(Rotr(x, 17), 17) == x
  {
    calc { Rotr(Rotl(x, 17), 17); x.RotateLeft(17).RotateRight(17); x; }
    calc { Rotl(Rotr(x, 17), 17); x.RotateRight(17).RotateLeft(17); x; }
  }

  lemma Rotate21Back(x: bv64)
    ensures Rotr(Rotl(x, 21), 21) == x && Rotl(Rotr(x, 21), 21) == x
  {
    calc { Rotr(Rotl(x, 21), 21); x.RotateLeft(21).RotateRight(21); x; }
    calc { Rotl(Rotr(x, 21), 21); x.RotateRight(21).RotateLeft(21); x; }
  }

  lemma Rotate32Back(x: bv64)
    ensures Rotr(Rotl(x, 32), 32) == x && Rotl(Rotr(x, 32), 32) == x
  {
    calc { Rotr(Rotl(x, 32), 32); x.RotateLeft(32).RotateRight(32); x; }
    calc { Rotl(Rotr(x, 32), 32); x.RotateRight(32).RotateLeft(32); x; }
  }

  lemma RotationRotates(x: bv64)
    ensures Rotation(x, 13) == Rotl(x, 13) && Rotation(x, 16) == Rotl(x, 16)
    ensures Rotation(x, 17) == Rotl(x, 17) && Rotation(x, 21) == Rotl(x, 21)
    ensures Rotation(x, 32) == Rotl(x, 32)
  {
    calc { Rotation(x, 13); (x << 13) | (x >> 51); x.RotateLeft(13); Rotl(x, 13); }
    calc { Rotation(x, 16); (x << 16) | (x >> 48); x.RotateLeft(16); Rotl(x, 16); }
    calc { Rotation(x, 17); (x << 17) | (x >> 47); x.RotateLeft(17); Rotl(x, 17); }
    calc { Rotation(x, 21); (x << 21) | (x >> 43); x.RotateLeft(21); Rotl(x, 21); }
    calc { Rotation(x, 32); (x << 32) | (x >> 32); x.RotateLeft(32); Rotl(x, 32); }
  }

  // ----- the definition ----------------------------------------------------------------------

  datatype State = State(v0: bv64, v1: bv64, v2: bv64, v3: bv64)

  /** One SipRound, as the paper's figure lays it out: two half-rounds of parallel additions. */
  function SipRound(s: State): State {
    var a0, a2 := Plus(s.v0, s.v1), Plus(s.v2, s.v3);
    var b1, b3 := Xor(Rotl(s.v1, 13), a0), Xor(Rotl(s.v3, 16), a2);
    var c0, c2 := Plus(Rotl(a0, 32), b3), Plus(a2, b1);
    State(c0, Xor(Rotl(b1, 17), c2), Rotl(c2, 32), Xor(Rotl(b3, 21), c0))
  }

  function SipRounds(s: State, n: nat): State
    decreases n
  {
    if n == 0 then s else SipRounds(SipRound(s), n - 1)
  }

  /** Absorb one message word: two rounds between two xors. */
  function Compress(s: State, m: bv64): State {
    var t := SipRounds(s.(v3 := Xor(s.v3, m)), 2);
    t.(v0 := Xor(t.v0, m))
  }

  function Absorb(s: State, ws: seq<bv64>): State
    decreases |ws|
  {
    if ws == [] then s else Absorb(Compress(s, ws[0]), ws[1..])
  }

  /** Byte i of a word in its place: b << 8 * i. */
  function Place(b: bv8, i: nat): bv64
    requires i < 8
  {
    var w := b as bv64;
    match i
    case 0 => w
    case 1 => w << 8
    case 2 => w << 16
    case 3 => w << 24
    case 4 => w << 32
    case 5 => w << 40
    case 6 => w << 48
    case 7 => w << 56
  }

  /** The first n bytes of p, each in its place. */
  function OrBytes(p: seq<bv8>, n: nat): bv64
    requires n <= |p| && n <= 8
  {
    if n == 0 then 0 else Or(OrBytes(p, n - 1), Place(p[n - 1], n - 1))
  }

  /** Eight bytes as a little-endian word. */
  function LeWord(b: seq<bv8>): bv64
    requires |b| == 8
  {
    OrBytes(b, 8)
  }

  /** Little-endian: byte i of the word is b[i]. */
  lemma LeWordBytes(b: seq<bv8>)
    requires |b| == 8
    ensures var w := LeWord(b);
      && w & 0xff == b[0] as bv64 && (w >> 8) & 0xff == b[1] as bv64
      && (w >> 16) & 0xff == b[2] as bv64 && (w >> 24) & 0xff == b[3] as bv64
      && (w >> 32) & 0xff == b[4] as bv64 && (w >> 40) & 0xff == b[5] as bv64
      && (w >> 48) & 0xff == b[6] as bv64 && w >> 56 == b[7] as bv64
  {
    EightBytes(b);
    BytesOfOr(b[0], b[1], b[2], b[3], b[4], b[5], b[6], b[7]);
  }

  function Eight(b0: bv8, b1: bv8, b2: bv8, b3: bv8, b4: bv8, b5: bv8, b6: bv8, b7: bv8): bv64 {
    b0 as bv64 | (b1 as bv64 << 8) | (b2 as bv64 << 16) | (b3 as bv64 << 24) | (b4 as bv64 << 32)
    | (b5 as bv64 << 40) | (b6 as bv64 << 48) | (b7 as bv64 << 56)
  }

  lemma EightBytes(b: seq<bv8>)
    requires |b| == 8
    ensures LeWord(b) == Eight(b[0], b[1], b[2], b[3], b[4], b[5], b[6], b[7])
  {
    hide Or, Place;
    OrBytesFour(b, 0);
    OrBytesFour(b, 4);
    EightPlaces(b[0], b[1], b[2], b[3], b[4], b[5], b[6], b[7]);
  }

  lemma OrBytesFour(b: seq<bv8>, n: nat)
    requires n + 4 <= |b| && n + 4 <= 8
    ensures OrBytes(b, n + 4) ==
      Or(Or(Or(Or(OrBytes(b, n), Place(b[n], n)), Place(b[n + 1], n + 1)), Place(b[n + 2], n + 2)),
         Place(b[n + 3], n + 3))
  {
    hide Or, Place;
    assert OrBytes(b, n + 1) == Or(OrBytes(b, n), Place(b[n], n));
    assert OrBytes(b, n + 2) == Or(OrBytes(b, n + 1), Place(b[n + 1], n + 1));
    assert OrBytes(b, n + 3) == Or(OrBytes(b, n + 2), Place(b[n + 2], n + 2));
    assert OrBytes(b, n + 4) == Or(OrBytes(b, n + 3), Place(b[n + 3], n + 3));
  }

  lemma PlacesAre(b: bv8)
    ensures Place(b, 0) == b as bv64 && Place(b, 1) == b as bv64 << 8 && Place(b, 2) == b as bv64 << 16
    ensures Place(b, 3) == b as bv64 << 24 && Place(b, 4) == b as bv64 << 32 && Place(b, 5) == b as bv64 << 40
    ensures Place(b, 6) == b as bv64 << 48 && Place(b, 7) == b as bv64 << 56
  {
  }

  lemma EightPlaces(b0: bv8, b1: bv8, b2: bv8, b3: bv8, b4: bv8, b5: bv8, b6: bv8, b7: bv8)
    ensures Or(Or(Or(Or(Or(Or(Or(Or(0, Place(b0, 0)), Place(b1, 1)), Place(b2, 2)), Place(b3, 3)), Place(b4, 4)),
               Place(b5, 5)), Place(b6, 6)), Place(b7, 7))
      == Eight(b0, b1, b2, b3, b4, b5, b6, b7)
  {
    hide Place;
    PlacesAre(b0);
    PlacesAre(b1);
    PlacesAre(b2);
    PlacesAre(b3);
    PlacesAre(b4);
    PlacesAre(b5);
    PlacesAre(b6);
    PlacesAre(b7);
  }

  lemma BytesOfOr(b0: bv8, b1: bv8, b2: bv8, b3: bv8, b4: bv8, b5: bv8, b6: bv8, b7: bv8)
    ensures var w := Eight(b0, b1, b2, b3, b4, b5, b6, b7);
      && w & 0xff == b0 as bv64 && (w >> 8) & 0xff == b1 as bv64
      && (w >> 16) & 0xff == b2 as bv64 && (w >> 24) & 0xff == b3 as bv64
      && (w >> 32) & 0xff == b4 as bv64 && (w >> 40) & 0xff == b5 as bv64
      && (w >> 48) & 0xff == b6 as bv64 && w >> 56 == b7 as bv64
  {
  }

  function Zeros(n: nat): (z: seq<bv8>)
    ensures |z| == n && forall k :: 0 <= k < n ==> z[k] == 0
  {
    seq(n, _ => 0)
  }

  /** The low byte of the length. */
  function LengthTag(len: nat): bv8 {
    (len % 256) as bv8
  }

  /** The code's tag: any 64-bit length with that low byte, shifted left by 56. */
  lemma TagIsShift(len: nat, w: bv64)
    requires w & 0xff == LengthTag(len) as bv64
    ensures Place(LengthTag(len), 7) == w << 56
  {
    hide LengthTag;
  }

  /** Zero padding up to the last byte of a word, and that byte holds the length modulo 256. */
  function Padded(msg: seq<bv8>): (p: seq<bv8>)
    ensures |p| % 8 == 0
  {
    msg + Zeros(7 - |msg| % 8) + [LengthTag(|msg|)]
  }

  function Words(p: seq<bv8>): seq<bv64>
    requires |p| % 8 == 0
  {
    if p == [] then [] else [LeWord(p[..8])] + Words(p[8..])
  }

  function Initial(key: seq<bv8>): State
    requires |key| == 16
  {
    var k0, k1 := LeWord(key[..8]), LeWord(key[8..]);
    State(Xor(0x736f6d6570736575, k0), Xor(0x646f72616e646f6d, k1),
          Xor(0x6c7967656e657261, k0), Xor(0x7465646279746573, k1))
  }

  function Finish(s: State): bv64 {
    var t := SipRounds(s.(v2 := Xor(s.v2, 0xff)), 4);
    Xor(Xor(Xor(t.v0, t.v1), t.v2), t.v3)
  }

  /** SipHash-2-4 of msg under a 16-byte key: a fold over the padded message's words. */
  function Hash(key: seq<bv8>, msg: seq<bv8>): bv64
    requires |key| == 16
  {
    Finish(Absorb(Initial(key), Words(Padded(msg))))
  }

  // ----- the code ----------------------------------------------------------------------------

  /** The code's round: fourteen updates in place, in the code's order. */
  method Round(a0: bv64, b0: bv64, c0: bv64, d0: bv64) returns (a: bv64, b: bv64, c: bv64, d: bv64)
    ensures State(a, b, c, d) == SipRound(State(a0, b0, c0, d0))
  {
    hide Plus, Xor, Rotl, Rotation;
    a, b, c, d := a0, b0, c0, d0;
    RotationRotates(b);
    a := Plus(a, b);
    b := Rotation(b, 13);
    b := Xor(b, a);
    RotationRotates(a);
    a := Rotation(a, 32);
    c := Plus(c, d);
    RotationRotates(d);
    d := Rotation(d, 16);
    d := Xor(d, c);
    a := Plus(a, d);
    RotationRotates(d);
    d := Rotation(d, 21);
    d := Xor(d, a);
    c := Plus(c, b);
    RotationRotates(b);
    b := Rotation(b, 17);
    b := Xor(b, c);
    RotationRotates(c);
    c := Rotation(c, 32);
  }

  method Rounds(a0: bv64, b0: bv64, c0: bv64, d0: bv64, n: nat) returns (a: bv64, b: bv64, c: bv64, d: bv64)
    ensures State(a, b, c, d) == SipRounds(State(a0, b0, c0, d0), n)
  {
    hide SipRound;
    a, b, c, d := a0, b0, c0, d0;
    var left := n;
    while left > 0
      invariant SipRounds(State(a, b, c, d), left) == SipRounds(State(a0, b0, c0, d0), n)
    {
      a, b, c, d := Round(a, b, c, d);
      left := left - 1;
    }
  }

  method Load64(p: seq<bv8>) returns (v: bv64)
    requires |p| == 8
    ensures v == LeWord(p)
  {
    hide Or, Place;
    v := 0;
    for i := 0 to 8
      invariant v == OrBytes(p, i)
    {
      v := Or(v, Place(p[i], i));
    }
  }

  /** The bytes after the last whole word, ORed onto the length in the top byte, make the final padded word. */
  lemma TailIsWord(tail: seq<bv8>, tag: bv8)
    requires |tail| < 8
    ensures Or(Place(tag, 7), OrBytes(tail, |tail|)) == LeWord(tail + Zeros(7 - |tail|) + [tag])
  {
    hide Or, Place;
    var w := tail + Zeros(7 - |tail|) + [tag];
    OrBytesPrefix(tail, w, |tail|);
    OrBytesZeros(w, |tail|, 7);
    OrLaws(Place(tag, 7), OrBytes(tail, |tail|), 0);
    assert w[7] == tag;
    assert OrBytes(w, 8) == Or(OrBytes(w, 7), Place(w[7], 7));
  }

  lemma {:induction false} OrBytesPrefix(p: seq<bv8>, q: seq<bv8>, n: nat)
    requires n <= |p| <= |q| && n <= 8 && q[..|p|] == p
    ensures OrBytes(p, n) == OrBytes(q, n)
  {
    hide Or, Place;
    if n > 0 {
      OrBytesPrefix(p, q, n - 1);
      assert q[n - 1] == q[..|p|][n - 1];
    }
  }

  lemma PlaceZero(i: nat)
    requires i < 8
    ensures Place(0, i) == 0
  {
  }

  lemma {:induction false} OrBytesZeros(p: seq<bv8>, m: nat, n: nat)
    requires m <= n <= |p| && n <= 8
    requires forall k :: m <= k < n ==> p[k] == 0
    ensures OrBytes(p, n) == OrBytes(p, m)
  {
    hide Or, Place;
    if m < n {
      OrBytesZeros(p, m, n - 1);
      PlaceZero(n - 1);
      OrLaws(OrBytes(p, n - 1), 0, 0);
    }
  }

  /** One more word at the end of a padded message. */
  lemma {:induction false} WordsAppend(p: seq<bv8>, w: seq<bv8>)
    requires |p| % 8 == 0 && |w| == 8
    ensures Words(p + w) == Words(p) + [LeWord(w)]
  {
    hide LeWord;
    if p == [] {
      assert p + w == w;
      assert w[..8] == w;
    } else {
      assert (p + w)[..8] == p[..8];
      assert (p + w)[8..] == p[8..] + w;
      WordsAppend(p[8..], w);
    }
  }

  lemma {:induction false} AbsorbLast(s: State, ws: seq<bv64>, w: bv64)
    ensures Absorb(s, ws + [w]) == Compress(Absorb(s, ws), w)
    decreases |ws|
  {
    hide Compress;
    if ws == [] {
      assert Absorb(Compress(s, w), []) == Compress(s, w);
    } else {
      assert (ws + [w])[1..] == ws[1..] + [w];
      AbsorbLast(Compress(s, ws[0]), ws[1..], w);
    }
  }

  lemma PaddedSplits(msg: seq<bv8>, end: nat)
    requires end == |msg| - |msg| % 8
    ensures Padded(msg) == msg[..end] + (msg[end..] + Zeros(7 - |msg[end..]|) + [LengthTag(|msg|)])
  {
    hide LengthTag;
    assert msg == msg[..end] + msg[end..];
  }

  lemma LastWord(s: State, head: seq<bv8>, tail: seq<bv8>, tag: bv8)
    requires |head| % 8 == 0 && |tail| < 8
    ensures Absorb(s, Words(head + (tail + Zeros(7 - |tail|) + [tag])))
         == Compress(Absorb(s, Words(head)), Or(Place(tag, 7), OrBytes(tail, |tail|)))
  {
    hide Or, Place, OrBytes, LeWord, Compress, Absorb, Words;
    var w := tail + Zeros(7 - |tail|) + [tag];
    WordsAppend(head, w);
    TailIsWord(tail, tag);
    AbsorbLast(s, Words(head), LeWord(w));
  }

  /** The leftover bytes under the length tag. */
  method TailWord(tail: seq<bv8>, tag: bv8) returns (b: bv64)
    requires |tail| < 8
    ensures b == Or(Place(tag, 7), OrBytes(tail, |tail|))
  {
    hide Or, Place;
    b := Place(tag, 7);
    OrLaws(b, 0, 0);
    for i := 0 to |tail|
      invariant b == Or(Place(tag, 7), OrBytes(tail, i))
    {
      OrLaws(Place(tag, 7), OrBytes(tail, i), Place(tail[i], i));
      b := Or(b, Place(tail[i], i));
    }
  }

  lemma AbsorbNone(s: State, msg: seq<bv8>)
    ensures Absorb(s, Words(msg[..0])) == s
  {
  }

  /** The streaming hash: whole words first, then one word of leftover bytes tagged with the length.
      Shifting a 64-bit length left by 56 keeps only its low byte, hence LengthTag. */
  method Siphash24(key: seq<bv8>, msg: seq<bv8>) returns (h: bv64)
    requires |key| == 16
    ensures h == Hash(key, msg)
  {
    hide Or, Place, OrBytes, Xor, LengthTag, SipRounds, LeWord, Words, Absorb, Padded, Zeros;
    var k0 := Load64(key[..8]);
    var k1 := Load64(key[8..]);
    var v0, v1 := Xor(0x736f6d6570736575, k0), Xor(0x646f72616e646f6d, k1);
    var v2, v3 := Xor(0x6c7967656e657261, k0), Xor(0x7465646279746573, k1);
    ghost var start := Initial(key);
    var end := |msg| - |msg| % 8;
    var pos := 0;
    AbsorbNone(start, msg);
    while pos != end
      invariant 0 <= pos <= end && pos % 8 == 0
      invariant State(v0, v1, v2, v3) == Absorb(start, Words(msg[..pos]))
      decreases end - pos
    {
      var block := msg[pos..pos + 8];
      WordsAppend(msg[..pos], block);
      assert msg[..pos] + block == msg[..pos + 8];
      AbsorbLast(start, Words(msg[..pos]), LeWord(block));
      var m := Load64(block);
      v3 := Xor(v3, m);
      v0, v1, v2, v3 := Rounds(v0, v1, v2, v3, 2);
      v0 := Xor(v0, m);
      pos := pos + 8;
    }
    var tail := msg[end..];
    var b := TailWord(tail, LengthTag(|msg|));
    PaddedSplits(msg, end);
    LastWord(start, msg[..end], tail, LengthTag(|msg|));
    v3 := Xor(v3, b);
    v0, v1, v2, v3 := Rounds(v0, v1, v2, v3, 2);
    v0 := Xor(v0, b);
    v2 := Xor(v2, 0xff);
    v0, v1, v2, v3 := Rounds(v0, v1, v2, v3, 4);
    h := Xor(Xor(Xor(v0, v1), v2), v3);
  }

  // ----- each round loses nothing --------------------------------------------------------------

  /** The SipRound run backwards. */
  function UnRound(t: State): State {
    var c2 := Rotr(t.v2, 32);
    var b1, b3 := Rotr(Xor(t.v1, c2), 17), Rotr(Xor(t.v3, t.v0), 21);
    var a2, a0 := Minus(c2, b1), Rotr(Minus(t.v0, b3), 32);
    var v1, v3 := Rotr(Xor(b1, a0), 13), Rotr(Xor(b3, a2), 16);
    State(Minus(a0, v1), v1, Minus(a2, v3), v3)
  }

  /** The SipRound is a bijection on the 256-bit state. */
  lemma RoundIsBijection(s: State)
    ensures UnRound(SipRound(s)) == s
    ensures SipRound(UnRound(s)) == s
  {
    Forth(s);
    Back(s);
  }

  lemma Forth(s: State)
    ensures UnRound(SipRound(s)) == s
  {
    hide Plus, Minus, Xor, Rotl, Rotr;
    var a0, a2 := Plus(s.v0, s.v1), Plus(s.v2, s.v3);
    var b1, b3 := Xor(Rotl(s.v1, 13), a0), Xor(Rotl(s.v3, 16), a2);
    var c0, c2 := Plus(Rotl(a0, 32), b3), Plus(a2, b1);
    Rotate32Back(c2);
    XorTwice(Rotl(b1, 17), c2);
    XorTwice(Rotl(b3, 21), c0);
    Rotate17Back(b1);
    Rotate21Back(b3);
    PlusMinus(a2, b1);
    PlusMinus(Rotl(a0, 32), b3);
    Rotate32Back(a0);
    XorTwice(Rotl(s.v1, 13), a0);
    XorTwice(Rotl(s.v3, 16), a2);
    Rotate13Back(s.v1);
    Rotate16Back(s.v3);
    PlusMinus(s.v0, s.v1);
    PlusMinus(s.v2, s.v3);
  }

  lemma Back(t: State)
    ensures SipRound(UnRound(t)) == t
  {
    hide Plus, Minus, Xor, Rotl, Rotr;
    var c2 := Rotr(t.v2, 32);
    var b1, b3 := Rotr(Xor(t.v1, c2), 17), Rotr(Xor(t.v3, t.v0), 21);
    var a2, a0 := Minus(c2, b1), Rotr(Minus(t.v0, b3), 32);
    var v1, v3 := Rotr(Xor(b1, a0), 13), Rotr(Xor(b3, a2), 16);
    PlusMinus(a0, v1);
    PlusMinus(a2, v3);
    Rotate13Back(Xor(b1, a0));
    Rotate16Back(Xor(b3, a2));
    XorTwice(b1, a0);
    XorTwice(b3, a2);
    Rotate32Back(Minus(t.v0, b3));
    PlusMinus(t.v0, b3);
    PlusMinus(c2, b1);
    Rotate17Back(Xor(t.v1, c2));
    Rotate21Back(Xor(t.v3, t.v0));
    XorTwice(t.v1, c2);
    XorTwice(t.v3, t.v0);
    Rotate32Back(t.v2);
  }
}

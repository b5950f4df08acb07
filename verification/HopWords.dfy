// The stream of 64-bit words a keyed round draws its swap choices from.
module HopWords {
  import opened Bytes
  import opened SipHash

  /** The same bytes in the type the hash works on. */
  function AsBits(b: seq<byte>): (r: seq<bv8>)
    ensures |r| == |b|
  {
    seq(|b|, i requires 0 <= i < |b| => b[i] as bv8)
  }

  /** 'H', then the round and the counter, each as eight little-endian bytes. */
  function Message(round: nat, counter: nat): (m: seq<byte>)
    ensures |m| == 17
  {
    [0x48] + PutLe(round, 8) + PutLe(counter, 8)
  }

  function AsInt(w: bv64): U64 { w as int }

  function Word(key: seq<byte>, round: nat, counter: nat): U64
    requires |key| == 16
  {
    AsInt(Hash(AsBits(key), AsBits(Message(round, counter))))
  }

  /** Where the message holds what. */
  lemma MessageSays(round: U64, counter: U64)
    ensures var m := Message(round, counter);
      m[0] == 0x48 && GetLe(m[1..9]) == round && GetLe(m[9..17]) == counter
  {
    hide PutLe;
    Widths();
    GetPut(round, 8);
    GetPut(counter, 8);
    var m := Message(round, counter);
    assert m[1..9] == PutLe(round, 8) && m[9..17] == PutLe(counter, 8);
  }

  /** Distinct (round, counter) pairs hash distinct messages. */
  lemma MessagesDistinct(r1: U64, c1: U64, r2: U64, c2: U64)
    requires Message(r1, c1) == Message(r2, c2)
    ensures r1 == r2 && c1 == c2
  {
    hide Message, GetLe;
    MessageSays(r1, c1);
    MessageSays(r2, c2);
  }

  /** The word stream of one round, by counter. */
  function RoundWords(key: seq<byte>, round: nat): nat -> U64
    requires |key| == 16
  {
    counter => Word(key, round, counter)
  }

  lemma WordIsHash(key: seq<byte>, round: U64, counter: U64)
    requires |key| == 16
    ensures RoundWords(key, round)(counter) == AsInt(Hash(AsBits(key), AsBits(Message(round, counter))))
  {
  }

  method ReadWord(key: seq<byte>, round: U64, counter: U64) returns (w: U64)
    requires |key| == 16
    ensures w == RoundWords(key, round)(counter)
  {
    hide Hash, AsBits;
    var h := Siphash24(AsBits(key), AsBits(Message(round, counter)));
    w := AsInt(h);
  }
}

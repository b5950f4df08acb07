// Reading the 128-bit hop key from text.
module HopSeed {
  import opened Bytes
  import opened Wrappers

  datatype SeedError = EmptySeed | BadLength | NonHexDigit

  predicate IsHexDigit(c: char) {
    '0' <= c <= '9' || 'A' <= c <= 'F' || 'a' <= c <= 'f'
  }

  function DigitValue(c: char): (d: nat)
    requires IsHexDigit(c)
    ensures d < 16
  {
    if c <= '9' then c as int - '0' as int
    else if c <= 'F' then c as int - 'A' as int + 10
    else c as int - 'a' as int + 10
  }

  predicate AllHex(s: string) {
    forall i :: 0 <= i < |s| ==> IsHexDigit(s[i])
  }

  /** The number a string of hex digits writes. */
  function HexNumber(s: string): nat
    requires AllHex(s)
  {
    if s == "" then 0 else 16 * HexNumber(s[..|s| - 1]) + DigitValue(s[|s| - 1])
  }

  /** The number a key is, most significant byte first. */
  function BigEndian(b: seq<byte>): nat {
    if b == [] then 0 else 256 * BigEndian(b[..|b| - 1]) + b[|b| - 1]
  }

  /** The digits, without one optional 0x prefix. */
  function Digits(text: string): string {
    if |text| >= 2 && text[0] == '0' && (text[1] == 'x' || text[1] == 'X') then text[2..] else text
  }

  predicate ValidSeed(text: string) {
    1 <= |Digits(text)| <= 32 && AllHex(Digits(text))
  }

  /** The sixteen digits in both cases, and nothing else. */
  lemma DigitsAre(c: char)
    ensures IsHexDigit(c) <==> c in "0123456789abcdefABCDEF"
    ensures IsHexDigit(c) ==>
      c == "0123456789abcdef"[DigitValue(c)] || c == "0123456789ABCDEF"[DigitValue(c)]
  {
    if IsHexDigit(c) {
      var v, all := DigitValue(c), "0123456789abcdefABCDEF";
      assert c == all[v] || c == all[v + 6];
    }
  }

  /** One prefix is taken off, and nothing but a prefix. */
  lemma PrefixOff(s: string)
    ensures Digits("0x" + s) == s && Digits("0X" + s) == s
    ensures !("0x" <= s) && !("0X" <= s) ==> Digits(s) == s
  {
    assert ("0x" + s)[2..] == s && ("0X" + s)[2..] == s;
    if Digits(s) != s {
      assert s[..2] == "0x" || s[..2] == "0X";
    }
  }

  /** Most significant first, in digits and in bytes. */
  lemma MostSignificantFirst(a: byte, b: byte, c: char, d: char)
    requires IsHexDigit(c) && IsHexDigit(d)
    ensures BigEndian([a, b]) == 0x100 * a + b
    ensures HexNumber([c, d]) == 0x10 * DigitValue(c) + DigitValue(d)
  {
    assert [a, b][..1] == [a] && [a][..0] == [];
    assert BigEndian([a]) == 256 * BigEndian([a][..0]) + a;
    assert [c, d][..1] == [c] && [c][..0] == [];
    assert HexNumber([c]) == 16 * HexNumber([c][..0]) + DigitValue(c);
  }

  /** A key of given length is determined by its number. */
  lemma {:induction false} BigEndianInjective(a: seq<byte>, b: seq<byte>)
    requires |a| == |b| && BigEndian(a) == BigEndian(b)
    ensures a == b
  {
    if a != [] {
      BigEndianInjective(a[..|a| - 1], b[..|b| - 1]);
      assert a == a[..|a| - 1] + [a[|a| - 1]];
      assert b == b[..|b| - 1] + [b[|b| - 1]];
    }
  }

  lemma {:induction false} LeadingZeros(b: seq<byte>)
    requires forall i :: 0 <= i < |b| ==> b[i] == 0
    ensures BigEndian(b) == 0
  {
    if b != [] {
      LeadingZeros(b[..|b| - 1]);
    }
  }

  lemma {:induction false} LeadingZeroDigit(s: string)
    requires AllHex(s)
    ensures AllHex("0" + s) && HexNumber("0" + s) == HexNumber(s)
  {
    if s != "" {
      LeadingZeroDigit(s[..|s| - 1]);
      assert ("0" + s)[..|s|] == "0" + s[..|s| - 1];
    } else {
      assert "0" + s == "0";
      assert HexNumber("0") == 16 * HexNumber("") + DigitValue('0');
    }
  }

  lemma TwoDigits(s: string, n: nat)
    requires n + 2 <= |s| && AllHex(s)
    ensures HexNumber(s[..n + 2]) == 256 * HexNumber(s[..n]) + 16 * DigitValue(s[n]) + DigitValue(s[n + 1])
  {
    var t := s[..n + 2];
    assert t[..n + 1] == s[..n + 1] && s[..n + 1][..n] == s[..n];
  }

  lemma AppendByte(b: seq<byte>, x: byte)
    ensures BigEndian(b + [x]) == 256 * BigEndian(b) + x
  {
    assert (b + [x])[..|b|] == b;
  }

  /** Two digits to a byte, ending at the end of the key. */
  method FillKey(s: string) returns (k: seq<byte>)
    requires AllHex(s) && |s| % 2 == 0 && |s| <= 32
    ensures |k| == 16 && BigEndian(k) == HexNumber(s)
  {
    hide DigitValue, BigEndian, HexNumber;
    var key := new byte[16](_ => 0);
    var first := 16 - |s| / 2;
    LeadingZeros(key[..first]);
    NoDigits(s[..0]);
    for i := 0 to |s| / 2
      invariant BigEndian(key[..first + i]) == HexNumber(s[..2 * i])
    {
      TwoDigits(s, 2 * i);
      ghost var before := key[..first + i];
      var x := DigitValue(s[2 * i]) * 16 + DigitValue(s[2 * i + 1]);
      AppendByte(before, x);
      key[first + i] := x;
      assert key[..first + i + 1] == before + [x];
    }
    assert s[..2 * (|s| / 2)] == s;
    assert key[..first + |s| / 2] == key[..];
    k := key[..];
  }

  lemma NoDigits(s: string)
    requires s == ""
    ensures HexNumber(s) == 0
  {
  }

  /** The digits read as a big-endian number fill the low end of a 16-byte key. */
  method ParseSeed(text: Option<string>) returns (r: Result<seq<byte>, SeedError>)
    ensures r.Ok? <==> text.Some? && ValidSeed(text.value)
    ensures r.Ok? ==> |r.value| == 16 && BigEndian(r.value) == HexNumber(Digits(text.value))
    ensures r == Err(EmptySeed) <==> text.None? || text.value == ""
    ensures r == Err(BadLength) <==> text.Some? && text.value != "" && !(1 <= |Digits(text.value)| <= 32)
    ensures r == Err(NonHexDigit) <==>
      text.Some? && text.value != "" && 1 <= |Digits(text.value)| <= 32 && !AllHex(Digits(text.value))
  {
    hide DigitValue, BigEndian, HexNumber;
    if text.None? || text.value == "" {
      return Err(EmptySeed);
    }
    var s := Digits(text.value);
    if s == "" || |s| > 32 {
      return Err(BadLength);
    }
    for i := 0 to |s|
      invariant AllHex(s[..i])
    {
      if !IsHexDigit(s[i]) {
        return Err(NonHexDigit);
      }
    }
    assert s[..|s|] == s;
    if |s| % 2 == 1 {
      LeadingZeroDigit(s);
      s := "0" + s;
    }
    var key := FillKey(s);
    return Ok(key);
  }
}

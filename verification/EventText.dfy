/** How each kind of event field is spelled, and that a JSON reader gets the field back. */
module EventText {
  import opened Bytes
  import Json

  /** The field overloads of the event builder (the integer ones of one kind; no doubles). */
  datatype Payload =
    | Int(n: int)
    | Bool(b: bool)
    | Null
    | Str(s: string)
    | HexNum(h: nat, digits: nat)
    | Hex(p: seq<byte>)
    | Ints(a: seq<int>)

  function DigitChar(d: nat): (c: char)
    requires d < 16
    ensures Json.Digit(c) == d && ' ' < c && c != '"' && c != '\\'
    ensures c as int == if d < 10 then '0' as int + d else 'a' as int + (d - 10)
    ensures d < 10 ==> Json.IsDecimal(c)
    ensures c == '0' <==> d == 0
  {
    "0123456789abcdef"[d]
  }

  /** %llu and %llx. */
  function Digits(n: nat, base: nat): (s: string)
    requires 2 <= base <= 16
    ensures s != ""
  {
    if n < base then [DigitChar(n)] else Digits(n / base, base) + [DigitChar(n % base)]
  }

  /** %lld. */
  function Dec(n: int): (s: string)
    ensures s != ""
  {
    if n < 0 then "-" + Digits(-n, 10) else Digits(n, 10)
  }

  function Zeros(n: nat): (s: string)
    ensures |s| == n
  {
    if n == 0 then "" else "0" + Zeros(n - 1)
  }

  /** %0*llx. */
  function Padded(n: nat, width: nat): string {
    var s := Digits(n, 16);
    if |s| < width then Zeros(width - |s|) + s else s
  }

  function HexBytes(p: seq<byte>): (s: string)
    ensures |s| == 2 * |p|
  {
    if p == [] then "" else [DigitChar(p[0] / 16), DigitChar(p[0] % 16)] + HexBytes(p[1..])
  }

  function EscapeChar(c: char): (s: string)
    ensures 1 <= |s| <= 6
  {
    if c == '"' then "\\\""
    else if c == '\\' then "\\\\"
    else if c == '\n' then "\\n"
    else if c == '\t' then "\\t"
    else if c == '\r' then "\\r"
    else if c < ' ' then "\\u00" + [DigitChar(c as int / 16), DigitChar(c as int % 16)]
    else [c]
  }

  /** The five short escapes and one long one. */
  lemma ShortEscapes()
    ensures EscapeChar('"') == ['\\', '"'] && EscapeChar('\\') == ['\\', '\\'] && EscapeChar('\n') == ['\\', 'n']
    ensures EscapeChar('\t') == ['\\', 't'] && EscapeChar('\r') == ['\\', 'r'] && EscapeChar(31 as char) == "\\u001f"
  {
  }

  function Escape(v: string): (s: string)
    ensures |s| <= 6 * |v|
  {
    if v == "" then "" else EscapeChar(v[0]) + Escape(v[1..])
  }

  /** The elements of an array after the first, each behind its comma. */
  function Tail(a: seq<int>): string {
    if a == [] then "" else "," + Dec(a[0]) + Tail(a[1..])
  }

  function Items(a: seq<int>): string {
    if a == [] then "" else Dec(a[0]) + Tail(a[1..])
  }

  function Print(v: Payload): (s: string)
    ensures s != ""
  {
    match v
    case Int(n) => Dec(n)
    case Bool(b) => if b then "true" else "false"
    case Null => "null"
    case Str(s) => "\"" + Escape(s) + "\""
    case HexNum(h, digits) => "\"0x" + Padded(h, digits) + "\""
    case Hex(p) => "\"" + HexBytes(p) + "\""
    case Ints(a) => "[" + Items(a) + "]"
  }

  /** Numbers, truth values and strings by example. */
  lemma PrintSays()
    ensures Print(Int(-50)) == "-50" && Print(Bool(true)) == "true" && Print(Bool(false)) == "false"
    ensures Print(Null) == "null" && Print(Str("q\n")) == ['"', 'q', '\\', 'n', '"']
  {
    assert Digits(50, 10) == Digits(5, 10) + "0";
    assert "q\n"[1..] == "\n" && Escape("\n") == ['\\', 'n'] + Escape("");
  }

  lemma PrintHexSays()
    ensures Print(HexNum(0xab, 4)) == "\"0x00ab\"" && Print(HexNum(0xab, 1)) == "\"0xab\""
    ensures Print(Hex([0xab, 5])) == "\"ab05\""
  {
    assert Digits(0xab, 16) == Digits(0xa, 16) + "b";
    assert Zeros(2) == "0" + Zeros(1) && Zeros(1) == "0" + Zeros(0);
    assert HexBytes([5]) == "05" && [0xab, 5][1..] == [5];
  }

  lemma PrintIntsSays(a: int, b: int)
    ensures Print(Ints([])) == "[]" && Print(Ints([a])) == "[" + Dec(a) + "]"
    ensures Print(Ints([a, b])) == "[" + Dec(a) + "," + Dec(b) + "]"
  {
    hide Dec, Tail;
    NextItem(b, []);
    assert [b] + [] == [b] && "," + Dec(b) + "" == "," + Dec(b);
    assert [a, b][1..] == [b] && [a][1..] == [];
    assert Items([a, b]) == Dec(a) + ("," + Dec(b));
    assert Items([a]) == Dec(a) + "";
  }

  lemma NextItem(b: int, rest: seq<int>)
    ensures Tail([]) == "" && Tail([b] + rest) == "," + Dec(b) + Tail(rest)
  {
    hide Dec;
    assert ([b] + rest)[1..] == rest;
  }

  /** The JSON number that is the integer n. */
  function Whole(n: int): Json.Value { Json.Num(n < 0, if n < 0 then -n else n, "", "") }

  function Wholes(a: seq<int>): seq<Json.Value> {
    if a == [] then [] else [Whole(a[0])] + Wholes(a[1..])
  }

  /** The JSON value a field stands for. */
  function Meaning(v: Payload): Json.Value {
    match v
    case Int(n) => Whole(n)
    case Bool(b) => Json.Bool(b)
    case Null => Json.Null
    case Str(s) => Json.Str(s)
    case HexNum(h, digits) => Json.Str("0x" + Padded(h, digits))
    case Hex(p) => Json.Str(HexBytes(p))
    case Ints(a) => Json.Arr(Wholes(a))
  }

  // ----- numbers -----

  /** The number a string of digits denotes. */
  function Number(s: string, base: nat): int {
    if s == "" then 0 else Shifted(Number(s[..|s| - 1], base), base, Json.Digit(s[|s| - 1]))
  }

  /** One more digit d behind the number x. */
  function Shifted(x: int, base: nat, d: int): int { x * base + d }

  ghost predicate AllDecimal(s: string) { forall i :: 0 <= i < |s| ==> Json.IsDecimal(s[i]) }

  /** Every character may stand in a string as it is: no control, quote or backslash. */
  ghost predicate Plain(s: string) { forall i :: 0 <= i < |s| ==> ' ' <= s[i] && s[i] != '"' && s[i] != '\\' }

  lemma {:induction false} DigitsPlain(n: nat, base: nat)
    requires 2 <= base <= 16
    ensures Plain(Digits(n, base))
    ensures base == 10 ==> AllDecimal(Digits(n, base))
    ensures Digits(n, base)[0] == '0' <==> n == 0
  {
    hide DigitChar, Json.Digit;
    if n >= base {
      DigitsPlain(n / base, base);
    }
  }

  lemma DigitsSnoc(n: nat, base: nat)
    requires 2 <= base <= 16
    ensures n < base ==> Digits(n, base) == [DigitChar(n)] && Shifted(0, base, n) == n
    ensures n >= base ==> n / base < n && Digits(n, base) == Digits(n / base, base) + [DigitChar(n % base)]
  {
    hide DigitChar;
  }

  lemma DivRem(n: nat, base: nat)
    requires 2 <= base
    ensures Shifted(n / base, base, n % base) == n
  {
  }

  lemma {:induction false} DigitsDenote(n: nat, base: nat)
    requires 2 <= base <= 16
    ensures Number(Digits(n, base), base) == n
  {
    hide Digits, DigitChar, Json.Digit, Number, Shifted;
    DigitsSnoc(n, base);
    DivRem(n, base);
    if n < base {
      NumberSnoc("", DigitChar(n), base);
      assert "" + Digits(n, base) == Digits(n, base);
    } else {
      DigitsDenote(n / base, base);
      NumberSnoc(Digits(n / base, base), DigitChar(n % base), base);
    }
  }

  lemma NumberSnoc(s: string, c: char, base: nat)
    ensures Number("", base) == 0 && Number(s + [c], base) == Shifted(Number(s, base), base, Json.Digit(c))
  {
    hide Json.Digit, Shifted;
    assert (s + [c])[..|s|] == s;
  }

  lemma {:induction false} NumberNonNegative(s: string)
    requires AllDecimal(s)
    ensures Number(s, 10) >= 0
  {
    if s != "" {
      NumberNonNegative(s[..|s| - 1]);
    }
  }

  lemma DecimalsEnd(acc: nat, rest: string)
    requires rest == "" || !Json.IsDecimal(rest[0])
    ensures Json.Decimals(acc, rest) == Json.Got(acc, rest)
  {
  }

  lemma DecimalsStep(acc: nat, c: char, more: string)
    requires Json.IsDecimal(c)
    ensures Shifted(acc, 10, Json.Digit(c)) >= 0
    ensures Json.Decimals(acc, [c] + more) == Json.Decimals(Shifted(acc, 10, Json.Digit(c)), more)
  {
    assert ([c] + more)[1..] == more;
  }

  lemma DecimalDigit(c: char)
    requires Json.IsDecimal(c)
    ensures Shifted(0, 10, Json.Digit(c)) == Json.Digit(c) >= 0
  {
  }

  /** The reader's accumulator over the digits s behind the digits p. */
  lemma {:induction false} DecimalsRead(p: string, s: string, rest: string)
    requires AllDecimal(p) && AllDecimal(s)
    requires rest == "" || !Json.IsDecimal(rest[0])
    ensures Number(p, 10) >= 0
    ensures Json.Decimals(Number(p, 10), s + rest) == Json.Got(Number(p + s, 10), rest)
    decreases |s|
  {
    hide Number, Shifted, Json.Digit, Json.Decimals;
    NumberNonNegative(p);
    if s == "" {
      assert s + rest == rest && p + s == p;
      DecimalsEnd(Number(p, 10), rest);
    } else {
      NumberSnoc(p, s[0], 10);
      DecimalsStep(Number(p, 10), s[0], s[1..] + rest);
      assert s + rest == [s[0]] + (s[1..] + rest);
      assert p + s == p + [s[0]] + s[1..];
      DecimalsRead(p + [s[0]], s[1..], rest);
    }
  }

  lemma NaturalRead(n: nat, rest: string)
    requires rest == "" || !Json.IsDecimal(rest[0])
    ensures Json.Natural(Digits(n, 10) + rest) == Json.Got(n, rest)
    ensures Json.IsDecimal(Digits(n, 10)[0])
  {
    hide Json.Digit, Json.Decimals, DigitChar, Number, Shifted;
    var s := Digits(n, 10);
    DigitsPlain(n, 10);
    DigitsDenote(n, 10);
    DecimalDigit(s[0]);
    assert (s + rest)[1..] == s[1..] + rest;
    if n == 0 {
      assert s == "0" by { assert |s| == 1; }
    } else {
      NumberSnoc("", s[0], 10);
      assert "" + [s[0]] == [s[0]] && [s[0]] + s[1..] == s;
      DecimalsRead([s[0]], s[1..], rest);
    }
  }

  /** What stands behind a value in a line: the next element, field or end. */
  predicate Stops(rest: string) { rest != "" && (rest[0] == ',' || rest[0] == ']' || rest[0] == '}') }

  lemma NumberRead(n: int, rest: string)
    requires Stops(rest)
    ensures Json.Number(Dec(n) + rest) == Json.Got(Whole(n), rest)
    ensures Dec(n)[0] == '-' || Json.IsDecimal(Dec(n)[0])
  {
    hide Json.Natural, Digits;
    NaturalRead(if n < 0 then -n else n, rest);
    if n < 0 {
      assert (Dec(n) + rest)[1..] == Digits(-n, 10) + rest;
    }
  }

  lemma IntRead(n: int, rest: string)
    requires Stops(rest)
    ensures Json.ReadValue(Dec(n) + rest) == Json.Got(Whole(n), rest)
  {
    hide Json.Number, Json.StringTail, Json.Array, Json.Object, Dec;
    NumberRead(n, rest);
    var s := Dec(n) + rest;
    assert s[0] == Dec(n)[0];
  }

  /** Nothing is skipped where no white space stands. */
  lemma SkipNothing(s: string)
    requires s == "" || !Json.IsSpace(s[0])
    ensures Json.Skip(s) == s
  {
  }

  function Pow10(k: nat): nat { if k == 0 then 1 else 10 * Pow10(k - 1) }

  lemma {:induction false} DigitsShort(n: nat, k: nat)
    requires k >= 1 && n < Pow10(k)
    ensures |Digits(n, 10)| <= k
  {
    if n >= 10 {
      if k == 1 {
        assert false;
      }
      DigitsShort(n / 10, k - 1);
    }
  }

  lemma {:induction false} HexDigitsShort(n: nat, k: nat)
    requires k >= 1 && n < Pow256(k)
    ensures |Digits(n, 16)| <= 2 * k
    decreases k
  {
    if n >= 256 {
      if k == 1 {
        assert false;
      }
      HexDigitsShort(n / 256, k - 1);
      assert n / 16 / 16 == n / 256;
    } else if n >= 16 {
      assert n / 16 < 16;
    }
  }

  // ----- strings -----

  lemma {:induction false} EscapeCharRead(c: char, rest: string)
    ensures var s := EscapeChar(c) + rest;
      s[0] != '"' && Json.Character(s) == Json.Got(c, rest)
  {
    var e := EscapeChar(c);
    var s := e + rest;
    assert s[|e|..] == rest;
    if |e| == 1 {
      assert s[1..] == rest;
    } else if |e| == 2 {
      assert s[1..][1..] == rest;
    } else {
      var t := s[1..];
      assert t[0] == 'u' && t[1..] == s[2..];
      var u := s[2..];
      assert u[0] == '0' && u[1] == '0' && u[2] == DigitChar(c as int / 16) && u[3] == DigitChar(c as int % 16);
      assert u[4..] == rest;
      var code := ((0 * 16 + 0) * 16 + c as int / 16) * 16 + c as int % 16;
      assert code == c as int;
      assert Json.CodePoint(u) == Json.Got(c, rest);
    }
  }

  /** Unescaping what was escaped gives every string back, and stops at the closing quote. */
  lemma {:induction false} EscapedRead(v: string, rest: string)
    ensures Json.StringTail(Escape(v) + "\"" + rest) == Json.Got(v, rest)
  {
    hide EscapeChar, Json.Character;
    var s := Escape(v) + "\"" + rest;
    if v == "" {
      assert s[1..] == rest;
    } else {
      var more := Escape(v[1..]) + "\"" + rest;
      assert s == EscapeChar(v[0]) + more;
      EscapeCharRead(v[0], more);
      EscapedRead(v[1..], rest);
      assert [v[0]] + v[1..] == v;
    }
  }

  lemma {:induction false} PlainEscape(v: string)
    requires Plain(v)
    ensures Escape(v) == v
  {
    if v != "" {
      PlainEscape(v[1..]);
      assert [v[0]] + v[1..] == v;
    }
  }

  lemma {:induction false} PlainRead(v: string, rest: string)
    requires Plain(v)
    ensures Json.StringTail(v + "\"" + rest) == Json.Got(v, rest)
  {
    PlainEscape(v);
    EscapedRead(v, rest);
  }

  lemma {:induction false} EscapeSnoc(v: string, c: char)
    ensures Escape(v + [c]) == Escape(v) + EscapeChar(c)
  {
    hide EscapeChar;
    if v == "" {
      assert v + [c] == [c] && [c][1..] == "";
    } else {
      EscapeSnoc(v[1..], c);
      assert (v + [c])[1..] == v[1..] + [c];
    }
  }

  lemma {:induction false} HexSnoc(p: seq<byte>, b: byte)
    ensures HexBytes(p + [b]) == HexBytes(p) + [DigitChar(b / 16), DigitChar(b % 16)]
  {
    if p == [] {
      assert p + [b] == [b];
    } else {
      HexSnoc(p[1..], b);
      assert (p + [b])[1..] == p[1..] + [b];
    }
  }

  lemma {:induction false} HexPlain(p: seq<byte>)
    ensures Plain(HexBytes(p))
  {
    if p != [] {
      HexPlain(p[1..]);
    }
  }

  lemma {:induction false} ZerosPlain(n: nat)
    ensures Plain(Zeros(n))
  {
    if n > 0 {
      ZerosPlain(n - 1);
    }
  }

  lemma PaddedPlain(n: nat, width: nat)
    ensures Plain(Padded(n, width))
  {
    DigitsPlain(n, 16);
    if |Digits(n, 16)| < width {
      ZerosPlain(width - |Digits(n, 16)|);
    }
  }

  lemma {:induction false} LeadingZeros(k: nat, s: string)
    ensures Number(Zeros(k) + s, 16) == Number(s, 16)
    decreases |s|, k
  {
    var t := Zeros(k) + s;
    if s != "" {
      assert t[..|t| - 1] == Zeros(k) + s[..|s| - 1];
      LeadingZeros(k, s[..|s| - 1]);
    } else if k > 0 {
      assert Zeros(k) == Zeros(k - 1) + "0" by { ZerosEnd(k); }
      assert t[..|t| - 1] == Zeros(k - 1) + s;
      LeadingZeros(k - 1, s);
    }
  }

  lemma {:induction false} ZerosEnd(k: nat)
    requires k > 0
    ensures Zeros(k) == Zeros(k - 1) + "0"
  {
    if k > 1 {
      ZerosEnd(k - 1);
    }
  }

  /** A hex number reads back as its value, in at least the digits asked for. */
  lemma HexNumDenotes(h: nat, digits: nat)
    ensures Number(Padded(h, digits), 16) == h && |Padded(h, digits)| >= digits
  {
    DigitsDenote(h, 16);
    if |Digits(h, 16)| < digits {
      LeadingZeros(digits - |Digits(h, 16)|, Digits(h, 16));
    }
  }

  /** With the NUL a 64-bit hex number fits 24 characters exactly for widths up to 19. */
  lemma HexWidthFits(h: nat, digits: nat)
    requires h < 0x1_0000_0000_0000_0000
    ensures |Print(HexNum(h, digits))| + 1 <= 24 <==> digits <= 19
  {
    hide Digits, Zeros;
    HexNumDenotes(h, digits);
    assert Pow256(4) == 0x1_0000_0000;
    assert Pow256(8) == 0x1_0000_0000_0000_0000;
    HexDigitsShort(h, 8);
  }

  /** The bytes a hex blob denotes. */
  function Unhex(s: string): seq<int> {
    if |s| < 2 then [] else [Json.Digit(s[0]) * 16 + Json.Digit(s[1])] + Unhex(s[2..])
  }

  lemma {:induction false} HexRoundTrip(p: seq<byte>)
    ensures Unhex(HexBytes(p)) == p
  {
    if p != [] {
      HexRoundTrip(p[1..]);
      assert HexBytes(p)[2..] == HexBytes(p[1..]);
      assert [p[0]] + p[1..] == p;
    }
  }

  // ----- arrays -----

  lemma {:induction false} TailSnoc(a: seq<int>, n: int)
    ensures Tail(a + [n]) == Tail(a) + "," + Dec(n)
  {
    hide Dec;
    if a == [] {
      assert a + [n] == [n];
    } else {
      TailSnoc(a[1..], n);
      assert (a + [n])[1..] == a[1..] + [n];
    }
  }

  lemma TailStart(a: seq<int>)
    ensures Tail(a) == "" || Tail(a)[0] == ','
  {
    hide Dec;
  }

  lemma {:induction false} TailRead(a: seq<int>, rest: string)
    ensures Json.Elements(Tail(a) + "]" + rest) == Json.Got(Wholes(a), rest)
  {
    hide Json.ReadValue, Json.Skip, Dec;
    var s := Tail(a) + "]" + rest;
    SkipNothing(s);
    if a == [] {
      assert s[1..] == rest;
    } else {
      var more := Tail(a[1..]) + "]" + rest;
      assert s[1..] == Dec(a[0]) + more;
      TailStart(a[1..]);
      SkipDec(a[0], more);
      IntRead(a[0], more);
      TailRead(a[1..], rest);
    }
  }

  lemma SkipDec(n: int, rest: string)
    requires Stops(rest)
    ensures Json.Skip(Dec(n) + rest) == Dec(n) + rest
    ensures (Dec(n) + rest)[0] != ']'
  {
    hide Json.Number, Json.Skip, Dec;
    NumberRead(n, rest);
    assert (Dec(n) + rest)[0] == Dec(n)[0];
    SkipNothing(Dec(n) + rest);
  }

  lemma ArrayRead(a: seq<int>, rest: string)
    ensures Json.Array(Items(a) + "]" + rest) == Json.Got(Wholes(a), rest)
  {
    hide Json.ReadValue, Json.Elements, Json.Skip, Dec, Tail;
    var s := Items(a) + "]" + rest;
    if a == [] {
      SkipNothing(s);
      assert s[1..] == rest;
    } else {
      var more := Tail(a[1..]) + "]" + rest;
      assert s == Dec(a[0]) + more;
      TailStart(a[1..]);
      SkipDec(a[0], more);
      IntRead(a[0], more);
      TailRead(a[1..], rest);
    }
  }

  lemma LiteralRead(v: Payload, rest: string)
    requires v.Bool? || v.Null?
    ensures Json.ReadValue(Print(v) + rest) == Json.Got(Meaning(v), rest)
  {
    hide Json.Number, Json.StringTail, Json.Array, Json.Object;
    var s := Print(v) + rest;
    assert s[|Print(v)|..] == rest;
    assert s[0] == Print(v)[0];
    assert Print(v) <= s;
  }

  lemma QuotedRead(body: string, t: string, rest: string)
    requires Json.StringTail(body + "\"" + rest) == Json.Got(t, rest)
    ensures Json.ReadValue("\"" + body + "\"" + rest) == Json.Got(Json.Str(t), rest)
  {
    hide Json.Number, Json.StringTail, Json.Array, Json.Object;
    var s := "\"" + body + "\"" + rest;
    assert s[1..] == body + "\"" + rest;
  }

  lemma BracketRead(a: seq<int>, rest: string)
    ensures Json.ReadValue(Print(Ints(a)) + rest) == Json.Got(Json.Arr(Wholes(a)), rest)
  {
    hide Json.Number, Json.StringTail, Json.Array, Json.Object, Items;
    ArrayRead(a, rest);
    var s := Print(Ints(a)) + rest;
    assert s[1..] == Items(a) + "]" + rest;
  }

  /** Reading a printed field gives its meaning and leaves what stands behind it. */
  lemma PrintedRead(v: Payload, rest: string)
    requires Stops(rest)
    ensures Json.ReadValue(Print(v) + rest) == Json.Got(Meaning(v), rest)
  {
    hide Json.ReadValue, Json.StringTail, Dec, Items, Padded, Escape, HexBytes;
    match v
    case Int(n) => IntRead(n, rest);
    case Bool(_) => LiteralRead(v, rest);
    case Null => LiteralRead(v, rest);
    case Str(t) =>
      EscapedRead(t, rest);
      QuotedRead(Escape(t), t, rest);
    case HexNum(h, digits) =>
      var t := "0x" + Padded(h, digits);
      PaddedPlain(h, digits);
      PlainRead(t, rest);
      QuotedRead(t, t, rest);
      assert Print(v) == "\"" + t + "\"";
    case Hex(p) =>
      HexPlain(p);
      PlainRead(HexBytes(p), rest);
      QuotedRead(HexBytes(p), HexBytes(p), rest);
    case Ints(a) => BracketRead(a, rest);
  }

  // ----- one line -----

  ghost predicate OneLine(s: string) { '\n' !in s }

  lemma EscapeCharOneLine(c: char)
    ensures OneLine(EscapeChar(c))
  {
  }

  lemma {:induction false} EscapeOneLine(v: string)
    ensures OneLine(Escape(v))
  {
    hide EscapeChar;
    if v != "" {
      EscapeCharOneLine(v[0]);
      EscapeOneLine(v[1..]);
    }
  }

  lemma {:induction false} TailOneLine(a: seq<int>)
    ensures OneLine(Tail(a))
  {
    if a != [] {
      DecOneLine(a[0]);
      TailOneLine(a[1..]);
    }
  }

  lemma DecOneLine(n: int)
    ensures OneLine(Dec(n))
  {
    DigitsPlain(if n < 0 then -n else n, 10);
  }
}

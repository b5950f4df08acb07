/** A reader for JSON (RFC 8259) over a text of characters.  It follows the grammar and knows nothing of the writer;
    all it leaves out are surrogate pairs. */
module Json {
  /** A number keeps its parts: sign, whole part, fraction digits, exponent as written. */
  datatype Value =
    | Null
    | Bool(b: bool)
    | Num(minus: bool, whole: nat, fraction: string, exponent: string)
    | Str(s: string)
    | Arr(items: seq<Value>)
    | Obj(members: seq<Member>)

  datatype Member = Member(key: string, value: Value)

  /** What a reader makes of a text: the value it found and the text behind it, or nothing. */
  datatype Read<T> = Miss | Got(value: T, rest: string)

  /** The value of a hexadecimal digit of either case, -1 for any other character. */
  function Digit(c: char): (d: int)
    ensures -1 <= d < 16
  {
    if '0' <= c <= '9' then c as int - '0' as int
    else if 'a' <= c <= 'f' then c as int - 'a' as int + 10
    else if 'A' <= c <= 'F' then c as int - 'A' as int + 10
    else -1
  }

  predicate IsDecimal(c: char) { '0' <= c <= '9' }

  /** Section 7: what may follow a backslash. */
  function Escaped(s: string): (r: Read<char>)
    ensures r.Got? ==> |r.rest| < |s|
  {
    if s == "" then Miss
    else if s[0] == '"' || s[0] == '\\' || s[0] == '/' then Got(s[0], s[1..])
    else if s[0] == 'b' then Got(8 as char, s[1..])
    else if s[0] == 'f' then Got(12 as char, s[1..])
    else if s[0] == 'n' then Got('\n', s[1..])
    else if s[0] == 'r' then Got('\r', s[1..])
    else if s[0] == 't' then Got('\t', s[1..])
    else if s[0] == 'u' && |s| >= 5 then CodePoint(s[1..])
    else Miss
  }

  /** Section 7: four hexadecimal digits.  Surrogates are not characters on their own. */
  function CodePoint(s: string): (r: Read<char>)
    requires |s| >= 4
    ensures r.Got? ==> r.rest == s[4..]
  {
    var a, b, c, d := Digit(s[0]), Digit(s[1]), Digit(s[2]), Digit(s[3]);
    if a < 0 || b < 0 || c < 0 || d < 0 then Miss
    else
      var code := ((a * 16 + b) * 16 + c) * 16 + d;
      if 0xD800 <= code < 0xE000 then Miss else Got(code as char, s[4..])
  }

  function Character(s: string): (r: Read<char>)
    requires s != ""
    ensures r.Got? ==> |r.rest| < |s|
  {
    if s[0] == '\\' then Escaped(s[1..])
    else if s[0] < ' ' then Miss
    else Got(s[0], s[1..])
  }

  /** Section 7: the rest of a string whose opening quote has been read. */
  function StringTail(s: string): (r: Read<string>)
    ensures r.Got? ==> |r.rest| < |s|
    decreases |s|
  {
    if s == "" then Miss
    else if s[0] == '"' then Got("", s[1..])
    else
      var c := Character(s);
      if c.Miss? then Miss
      else
        var t := StringTail(c.rest);
        if t.Miss? then Miss else Got([c.value] + t.value, t.rest)
  }

  // ----- section 2: white space -----

  predicate IsSpace(c: char) { c == ' ' || c == '\t' || c == '\n' || c == '\r' }

  function Skip(s: string): (r: string)
    ensures |r| <= |s|
  {
    if s != "" && IsSpace(s[0]) then Skip(s[1..]) else s
  }

  // ----- section 6: numbers -----

  /** All further digits of a number whose digits so far make `acc`. */
  function Decimals(acc: nat, s: string): (r: Read<nat>)
    ensures r.Got? && |r.rest| <= |s|
    decreases |s|
  {
    if s != "" && IsDecimal(s[0]) then Decimals(acc * 10 + Digit(s[0]), s[1..]) else Got(acc, s)
  }

  /** The whole part: a leading zero stands alone. */
  function Natural(s: string): (r: Read<nat>)
    ensures r.Got? ==> |r.rest| < |s|
  {
    if s == "" || !IsDecimal(s[0]) then Miss
    else if s[0] == '0' then Got(0, s[1..])
    else Decimals(Digit(s[0]), s[1..])
  }

  /** As many digits as there are. */
  function DigitRun(s: string): (r: Read<string>)
    ensures r.Got? && |r.rest| <= |s|
  {
    if s == "" || !IsDecimal(s[0]) then Got("", s)
    else
      var t := DigitRun(s[1..]);
      Got([s[0]] + t.value, t.rest)
  }

  function SomeDigits(s: string): (r: Read<string>)
    ensures r.Got? ==> |r.rest| <= |s|
  {
    var t := DigitRun(s);
    if t.value == "" then Miss else t
  }

  function Fraction(s: string): (r: Read<string>)
    ensures r.Got? ==> |r.rest| <= |s|
  {
    if s != "" && s[0] == '.' then SomeDigits(s[1..]) else Got("", s)
  }

  function Exponent(s: string): (r: Read<string>)
    ensures r.Got? ==> |r.rest| <= |s|
  {
    if s == "" || (s[0] != 'e' && s[0] != 'E') then Got("", s)
    else if |s| > 1 && (s[1] == '+' || s[1] == '-') then
      var t := SomeDigits(s[2..]);
      if t.Miss? then Miss else Got([s[1]] + t.value, t.rest)
    else SomeDigits(s[1..])
  }

  function Number(s: string): (r: Read<Value>)
    ensures r.Got? ==> |r.rest| < |s|
  {
    var minus := s != "" && s[0] == '-';
    var n := Natural(if minus then s[1..] else s);
    if n.Miss? then Miss
    else
      var f := Fraction(n.rest);
      if f.Miss? then Miss
      else
        var e := Exponent(f.rest);
        if e.Miss? then Miss else Got(Num(minus, n.value, f.value, e.value), e.rest)
  }

  // ----- sections 3, 4 and 5: values, objects, arrays -----

  /** A value, told apart by its first character. */
  function ReadValue(s: string): (r: Read<Value>)
    ensures r.Got? ==> |r.rest| < |s|
    decreases |s|, 0
  {
    if s == "" then Miss
    else if s[0] == '"' then
      var t := StringTail(s[1..]);
      if t.Miss? then Miss else Got(Str(t.value), t.rest)
    else if s[0] == '[' then
      var t := Array(s[1..]);
      if t.Miss? then Miss else Got(Arr(t.value), t.rest)
    else if s[0] == '{' then
      var t := Object(s[1..]);
      if t.Miss? then Miss else Got(Obj(t.value), t.rest)
    else if "true" <= s then Got(Bool(true), s[4..])
    else if "false" <= s then Got(Bool(false), s[5..])
    else if "null" <= s then Got(Null, s[4..])
    else Number(s)
  }

  /** The rest of an array whose bracket has been read. */
  function Array(s: string): (r: Read<seq<Value>>)
    ensures r.Got? ==> |r.rest| < |s|
    decreases |s|, 1
  {
    var u := Skip(s);
    if u != "" && u[0] == ']' then Got([], u[1..])
    else
      var e := ReadValue(u);
      if e.Miss? then Miss
      else
        var t := Elements(e.rest);
        if t.Miss? then Miss else Got([e.value] + t.value, t.rest)
  }

  /** What may follow an element of an array. */
  function Elements(s: string): (r: Read<seq<Value>>)
    ensures r.Got? ==> |r.rest| < |s|
    decreases |s|, 1
  {
    var u := Skip(s);
    if u == "" then Miss
    else if u[0] == ']' then Got([], u[1..])
    else if u[0] != ',' then Miss
    else
      var e := ReadValue(Skip(u[1..]));
      if e.Miss? then Miss
      else
        var t := Elements(e.rest);
        if t.Miss? then Miss else Got([e.value] + t.value, t.rest)
  }

  /** A quoted name, a colon and a value. */
  function ReadMember(s: string): (r: Read<Member>)
    ensures r.Got? ==> |r.rest| < |s|
    decreases |s|, 1
  {
    if s == "" || s[0] != '"' then Miss
    else
      var k := StringTail(s[1..]);
      if k.Miss? then Miss
      else
        var u := Skip(k.rest);
        if u == "" || u[0] != ':' then Miss
        else
          var v := ReadValue(Skip(u[1..]));
          if v.Miss? then Miss else Got(Member(k.value, v.value), v.rest)
  }

  /** The rest of an object whose brace has been read. */
  function Object(s: string): (r: Read<seq<Member>>)
    ensures r.Got? ==> |r.rest| < |s|
    decreases |s|, 2
  {
    var u := Skip(s);
    if u != "" && u[0] == '}' then Got([], u[1..])
    else
      var m := ReadMember(u);
      if m.Miss? then Miss
      else
        var t := Members(m.rest);
        if t.Miss? then Miss else Got([m.value] + t.value, t.rest)
  }

  /** What may follow a member of an object. */
  function Members(s: string): (r: Read<seq<Member>>)
    ensures r.Got? ==> |r.rest| < |s|
    decreases |s|, 2
  {
    var u := Skip(s);
    if u == "" then Miss
    else if u[0] == '}' then Got([], u[1..])
    else if u[0] != ',' then Miss
    else
      var m := ReadMember(Skip(u[1..]));
      if m.Miss? then Miss
      else
        var t := Members(m.rest);
        if t.Miss? then Miss else Got([m.value] + t.value, t.rest)
  }

  /** A line of the stream: one object, then the newline, then nothing. */
  function ReadLine(s: string): (r: Read<seq<Member>>) {
    if s == "" || s[0] != '{' then Miss
    else
      var o := Object(s[1..]);
      if o.Got? && o.rest == "\n" then o else Miss
  }
}

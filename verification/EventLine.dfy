/** The event line as one append-only string with a hard cap, and what a JSON reader makes of it. */
module EventLine {
  import opened EventText
  import Json
  import opened Bytes

  const MAX_LINE: nat := 64 * 1024
  /** Reserved for what closes the line. */
  const SLACK: nat := 32
  const LIMIT: nat := MAX_LINE - SLACK
  /** The one name length that fits while its closing quote does not. */
  const UNLUCKY_NAME: nat := LIMIT - 7

  datatype Line = Line(text: string, truncated: bool) {
    function Room(): int { LIMIT - |text| }
  }

  datatype Field = Field(key: string, value: Payload)

  /** Append p if the cap allows, else only note that something was lost. */
  function Raw(l: Line, p: string): Line {
    if |p| > l.Room() then l.(truncated := true) else l.(text := l.text + p)
  }

  function RawAll(l: Line, ps: seq<string>): Line
    decreases |ps|
  {
    if ps == [] then l else RawAll(Raw(l, ps[0]), ps[1..])
  }

  function Start(name: string): Line {
    Raw(Raw(Raw(Line("", false), "{\"ev\":\""), name), "\"")
  }

  function Key(k: string): string { ",\"" + k + "\":" }

  /** The room asked for before a string or a blob is written. */
  function Need(v: Payload): nat
    requires v.Str? || v.Hex?
  {
    if v.Str? then 6 * |v.s| + 2 else 2 * |v.p| + 2
  }

  /** An array is appended piece by piece, each piece on its own. */
  function Pieces(a: seq<int>): seq<string> {
    ["["] + Inner(a)
  }

  function Inner(a: seq<int>): seq<string> { if a == [] then ["]"] else [Dec(a[0])] + More(a[1..]) }

  function More(a: seq<int>): seq<string> {
    if a == [] then ["]"] else [",", Dec(a[0])] + More(a[1..])
  }

  function PutValue(l: Line, v: Payload): Line {
    match v
    case Str(_) => if Need(v) > l.Room() then Raw(l.(truncated := true), "null") else l.(text := l.text + Print(v))
    case Hex(_) => if Need(v) > l.Room() then Raw(l.(truncated := true), "null") else l.(text := l.text + Print(v))
    case Ints(a) => RawAll(l, Pieces(a))
    case _ => Raw(l, Print(v))
  }

  function Put(l: Line, f: Field): Line {
    if |f.key| + 4 > l.Room() then l.(truncated := true)
    else PutValue(l.(text := l.text + Key(f.key)), f.value)
  }

  function PutAll(l: Line, fs: seq<Field>): Line
    decreases |fs|
  {
    if fs == [] then l else PutAll(Put(l, fs[0]), fs[1..])
  }

  function Closer(truncated: bool): string {
    (if truncated then ",\"truncated\":true" else "") + "}\n"
  }

  function Close(l: Line): string { l.text + Closer(l.truncated) }

  // ----- what becomes of one field -----

  /** Dropped with its key; written; replaced by null; an array of one written as []; or left half written. */
  datatype Fate = Dropped | Whole | Nulled | Emptied | Torn

  function ValueFate(left: nat, v: Payload): Fate {
    match v
    case Str(_) => if Need(v) <= left then Whole else if 4 <= left then Nulled else Torn
    case Hex(_) => if Need(v) <= left then Whole else if 4 <= left then Nulled else Torn
    case Ints(a) =>
      if |Print(v)| <= left then Whole else if |a| == 1 && 2 <= left <= |Dec(a[0])| then Emptied else Torn
    case _ => if |Print(v)| <= left then Whole else Torn
  }

  function FateOf(room: nat, f: Field): Fate {
    if |f.key| + 4 > room then Dropped else ValueFate(room - |f.key| - 4, f.value)
  }

  /** When a field lands whole, in the bytes still free of the line's 65536 less 32: a key takes 4 more than its
      letters, a string is let in if six bytes a character would fit, a blob if two a byte do, the rest if they fit. */
  lemma WholeIff(l: Line, f: Field)
    requires l.Room() >= 0
    ensures var left := 65536 - 32 - |l.text| - |f.key| - 4;
      && (FateOf(l.Room(), f) == Dropped <==> left < 0)
      && (FateOf(l.Room(), f) == Whole <==> left >= 0 && match f.value
                                            case Str(s) => 6 * |s| + 2 <= left
                                            case Hex(p) => 2 * |p| + 2 <= left
                                            case v => |Print(v)| <= left)
  {
    hide Print;
  }

  /** The pieces that fit, each tried in turn. */
  function Kept(room: nat, ps: seq<string>): (s: string)
    ensures |s| <= room
  {
    if ps == [] then ""
    else if |ps[0]| > room then Kept(room, ps[1..])
    else ps[0] + Kept(room - |ps[0]|, ps[1..])
  }

  function Joined(ps: seq<string>): string {
    if ps == [] then "" else ps[0] + Joined(ps[1..])
  }

  function ValueChunk(left: nat, v: Payload): (s: string)
    ensures |s| <= left
  {
    match v
    case Str(s) => if Need(v) <= left then Print(v) else Kept(left, ["null"])
    case Hex(p) => if Need(v) <= left then Print(v) else Kept(left, ["null"])
    case Ints(a) => Kept(left, Pieces(a))
    case _ => Kept(left, [Print(v)])
  }

  function Chunk(room: nat, f: Field): (s: string)
    ensures |s| <= room
  {
    if |f.key| + 4 > room then "" else Key(f.key) + ValueChunk(room - |f.key| - 4, f.value)
  }

  lemma {:induction false} RawAllKeeps(l: Line, ps: seq<string>)
    requires l.Room() >= 0
    ensures RawAll(l, ps) == Line(l.text + Kept(l.Room(), ps), l.truncated || |Joined(ps)| > l.Room())
    decreases |ps|
  {
    if ps == [] {
      assert l.text + "" == l.text;
    } else {
      RawAllKeeps(Raw(l, ps[0]), ps[1..]);
      if |ps[0]| <= l.Room() {
        var r := Kept(l.Room() - |ps[0]|, ps[1..]);
        assert (l.text + ps[0]) + r == l.text + (ps[0] + r);
      }
    }
  }

  lemma {:induction false} KeptWhole(room: nat, ps: seq<string>)
    requires |Joined(ps)| <= room
    ensures Kept(room, ps) == Joined(ps)
  {
    if ps != [] {
      KeptWhole(room - |ps[0]|, ps[1..]);
    }
  }

  lemma {:induction false} MoreJoined(a: seq<int>)
    ensures Joined(More(a)) == Tail(a) + "]"
  {
    hide Dec;
    if a == [] {
      assert ["]"][1..] == [];
    } else {
      MoreJoined(a[1..]);
      var ps := More(a);
      assert ps[1..][1..] == More(a[1..]);
    }
  }

  lemma PiecesJoined(a: seq<int>)
    ensures Joined(Pieces(a)) == Print(Ints(a))
  {
    hide Dec, More, Tail;
    var ps := Pieces(a);
    if a == [] {
      assert ps[1..] == ["]"] && ["]"][1..] == [];
    } else {
      MoreJoined(a[1..]);
      assert ps[1..][1..] == More(a[1..]);
    }
  }

  lemma Single(room: nat, p: string)
    ensures Kept(room, [p]) == (if |p| <= room then p else "") && Joined([p]) == p
  {
    assert [p][1..] == [];
    assert p + "" == p;
  }

  lemma PutValueAdds(l: Line, v: Payload)
    requires l.Room() >= 0
    ensures PutValue(l, v) == Line(l.text + ValueChunk(l.Room(), v), l.truncated || ValueFate(l.Room(), v) != Whole)
  {
    hide Print, Pieces, Dec, Need, Kept;
    match v
    case Str(_) => Single(l.Room(), "null");
    case Hex(_) => Single(l.Room(), "null");
    case Ints(a) =>
      RawAllKeeps(l, Pieces(a));
      PiecesJoined(a);
    case _ => Single(l.Room(), Print(v));
  }

  /** One field adds its chunk, and marks the line unless it landed whole. */
  lemma PutAddsChunk(l: Line, f: Field)
    requires l.Room() >= 0
    ensures Put(l, f) == Line(l.text + Chunk(l.Room(), f), l.truncated || FateOf(l.Room(), f) != Whole)
  {
    hide PutValue, ValueChunk, ValueFate;
    if |f.key| + 4 > l.Room() {
      assert l.text + "" == l.text;
    } else {
      PutValueAdds(l.(text := l.text + Key(f.key)), f.value);
    }
  }

  /** What each fate leaves of the value. */
  lemma ValueByFate(left: nat, v: Payload)
    ensures match ValueFate(left, v)
      case Dropped => false
      case Whole => ValueChunk(left, v) == Print(v)
      case Nulled => ValueChunk(left, v) == "null"
      case Emptied => ValueChunk(left, v) == "[]"
      case Torn => true
  {
    hide Print, Pieces, Dec, Need, Kept;
    match v
    case Str(_) => Single(left, "null");
    case Hex(_) => Single(left, "null");
    case Ints(a) =>
      PiecesJoined(a);
      if |Print(v)| <= left {
        KeptWhole(left, Pieces(a));
      } else if |a| == 1 && 2 <= left <= |Dec(a[0])| {
        KeptEmpty(left, a);
      }
    case _ => Single(left, Print(v));
  }

  /** An array of one whose element does not fit still gets both its brackets. */
  lemma KeptEmpty(room: nat, a: seq<int>)
    requires |a| == 1 && 2 <= room <= |Dec(a[0])|
    ensures Kept(room, Pieces(a)) == "[]"
  {
    hide Dec, Kept;
    assert a[1..] == [];
    KeptFirst(room, "[", [Dec(a[0])] + ["]"]);
    KeptFirst(room - 1, Dec(a[0]), ["]"]);
    Single(room - 1, "]");
  }

  // ----- a field left half written is never JSON again -----

  /** What can stand behind a half-written field: the next key, or the mark's. */
  ghost predicate Follows(t: string) { exists k, more :: Plain(k) && t == Key(k) + more }

  lemma FollowsComma(t: string)
    requires Follows(t)
    ensures t != "" && t[0] == ','
  {
  }

  /** Solid text: nothing to skip in front of it. */
  predicate Solid(s: string) { s == "" || !Json.IsSpace(s[0]) }

  lemma NoValue(t: string)
    requires t == "" || t[0] == ',' || t[0] == ']'
    ensures Json.ReadValue(t).Miss? && Json.Skip(t) == t
  {
  }

  lemma {:induction false} NoRoom(a: seq<int>)
    ensures Kept(0, More(a)) == ""
  {
    hide Dec;
    if a == [] {
      Single(0, "]");
    } else {
      NoRoom(a[1..]);
      assert More(a)[1..][1..] == More(a[1..]);
    }
  }

  /** Behind an element: a comma, a bracket, or no room for either. */
  lemma MoreStarts(room: nat, a: seq<int>, t: string)
    requires Follows(t)
    ensures var s := Kept(room, More(a)) + t; s != "" && (s[0] == ',' || s[0] == ']')
    ensures a != [] || room == 0 ==> (Kept(room, More(a)) + t)[0] == ','
  {
    hide Dec, Follows;
    FollowsComma(t);
    if room == 0 {
      NoRoom(a);
      assert "" + t == t;
    } else if a == [] {
      Single(room, "]");
    }
  }

  lemma {:induction false} TornElements(room: nat, a: seq<int>, t: string)
    requires Follows(t) && |Tail(a)| + 1 > room
    ensures Json.Elements(Kept(room, More(a)) + t).Miss?
    decreases |a|
  {
    hide Dec, Json.ReadValue, Json.Skip, Json.Elements, Follows, Kept, More;
    if room == 0 {
      NoRoom(a);
      assert "" + t == t;
      TornAtMark(t);
    } else if a == [] {
      assert false;
    } else {
      var n, ps := Dec(a[0]), More(a[1..]);
      var s := Kept(room - 1, [n] + ps) + t;
      KeptComma(room, a);
      KeptFirst(room - 1, n, ps);
      assert Kept(room, More(a)) + t == "," + s;
      if |n| <= room - 1 {
        var more := Kept(room - 1 - |n|, ps) + t;
        assert s == n + more;
        TornElements(room - 1 - |n|, a[1..], t);
        MoreStarts(room - 1 - |n|, a[1..], t);
        IntRead(a[0], more);
        SkipDec(a[0], more);
      } else {
        MoreStarts(room - 1, a[1..], t);
        NoValue(s);
      }
      NoElement(s);
    }
  }

  lemma NoElement(s: string)
    requires Json.Skip(s) == s
    requires var e := Json.ReadValue(s); e.Miss? || Json.Elements(e.rest).Miss?
    ensures Json.Elements("," + s).Miss?
  {
    hide Json.ReadValue;
    assert ("," + s)[1..] == s;
    SkipNothing("," + s);
  }

  /** A key read as an element of an array is followed by its colon. */
  lemma TornAtMark(t: string)
    requires Follows(t)
    ensures Json.Elements(t).Miss?
  {
    hide Plain, Json.ReadValue, Json.StringTail;
    var k, more :| Plain(k) && t == Key(k) + more;
    var s := "\"" + k + "\"" + (":" + more);
    assert t == "," + s;
    PlainRead(k, ":" + more);
    QuotedRead(k, k, ":" + more);
    SkipNothing(s);
    SkipNothing(":" + more);
    NoElement(s);
  }

  lemma KeptFirst(room: nat, p: string, ps: seq<string>)
    ensures Kept(room, [p] + ps) == if |p| <= room then p + Kept(room - |p|, ps) else Kept(room, ps)
  {
    assert ([p] + ps)[1..] == ps;
  }

  lemma KeptComma(room: nat, a: seq<int>)
    requires a != [] && room >= 1
    ensures Kept(room, More(a)) == "," + Kept(room - 1, [Dec(a[0])] + More(a[1..]))
  {
    hide Dec;
    assert More(a) == [","] + ([Dec(a[0])] + More(a[1..]));
    KeptFirst(room, ",", [Dec(a[0])] + More(a[1..]));
  }

  lemma TornArray(room: nat, a: seq<int>, t: string)
    requires Follows(t) && |Items(a)| + 2 > room && !(|a| == 1 && 2 <= room <= |Dec(a[0])|)
    ensures Json.ReadValue(Kept(room, Pieces(a)) + t).Miss?
  {
    hide Json.Number, Json.Array, Json.Object, Json.StringTail, Kept, Dec, Items, Inner, Follows;
    if room == 0 {
      NoRoomAtAll(a);
      assert "" + t == t;
      TornValue(t);
    } else {
      var s := Kept(room - 1, Inner(a)) + t;
      KeptFirst(room, "[", Inner(a));
      TornInside(room, a, t);
      assert ("[" + s)[1..] == s;
      assert Kept(room, Pieces(a)) + t == "[" + s;
    }
  }

  lemma NoRoomAtAll(a: seq<int>)
    ensures Kept(0, Pieces(a)) == ""
  {
    hide Dec;
    KeptFirst(0, "[", Inner(a));
    if a == [] {
      Single(0, "]");
    } else {
      KeptFirst(0, Dec(a[0]), More(a[1..]));
      NoRoom(a[1..]);
    }
  }

  lemma TornValue(t: string)
    requires Follows(t)
    ensures Json.ReadValue(t).Miss?
  {
    hide Follows;
    FollowsComma(t);
    NoValue(t);
  }

  lemma TornInside(room: nat, a: seq<int>, t: string)
    requires Follows(t) && |Items(a)| + 2 > room >= 1 && !(|a| == 1 && 2 <= room <= |Dec(a[0])|)
    ensures Json.Array(Kept(room - 1, Inner(a)) + t).Miss?
  {
    hide Dec, Json.ReadValue, Json.Skip, Json.Elements, Kept, More, Tail, Follows;
    if a == [] {
      Single(0, "]");
      assert "" + t == t;
      FollowsComma(t);
      NoValue(t);
    } else {
      TornFirst(room - 1, a, t);
    }
  }

  lemma TornFirst(room: nat, a: seq<int>, t: string)
    requires a != [] && Follows(t) && |Dec(a[0])| + |Tail(a[1..])| + 1 > room
    requires !(|a| == 1 && 1 <= room < |Dec(a[0])|)
    ensures Json.Array(Kept(room, [Dec(a[0])] + More(a[1..])) + t).Miss?
  {
    hide Dec, Json.ReadValue, Json.Skip, Json.Elements, Kept, More, Tail, Follows;
    var n, ps := Dec(a[0]), More(a[1..]);
    KeptFirst(room, n, ps);
    if |n| <= room {
      var more := Kept(room - |n|, ps) + t;
      assert Kept(room, [n] + ps) + t == n + more;
      MoreStarts(room - |n|, a[1..], t);
      IntRead(a[0], more);
      SkipDec(a[0], more);
      TornElements(room - |n|, a[1..], t);
    } else {
      MoreStarts(room, a[1..], t);
      NoValue(Kept(room, ps) + t);
    }
  }

  /** Whatever a torn field left behind its key, no value can be read there. */
  lemma TornBreaks(room: nat, f: Field, t: string)
    requires FateOf(room, f) == Torn && Plain(f.key) && Follows(t)
    ensures Chunk(room, f) != "" && Json.Members(Chunk(room, f) + t).Miss?
  {
    hide Items, Pieces, Plain, Follows, Dec, Json.ReadValue, Json.StringTail, Json.Members;
    var left := room - |f.key| - 4;
    var junk := Chunk(room, f)[|Key(f.key)|..];
    assert Chunk(room, f) == Key(f.key) + junk;
    FollowsComma(t);
    assert Json.ReadValue(junk + t).Miss? && Solid(junk + t) by {
      if f.value.Ints? {
        TornArray(left, f.value.a, t);
        PiecesSolid(left, f.value.a);
      } else {
        Single(left, "null");
        Single(left, Print(f.value));
        assert junk + t == t;
        TornValue(t);
      }
    }
    MemberMisses(f.key, junk + t);
    assert Chunk(room, f) + t == Key(f.key) + (junk + t);
  }

  /** An array starts with its bracket if it starts at all. */
  lemma PiecesSolid(room: nat, a: seq<int>)
    ensures Kept(room, Pieces(a)) == "" || Kept(room, Pieces(a))[0] == '['
  {
    hide Dec, Inner;
    if room == 0 {
      NoRoomAtAll(a);
    } else {
      KeptFirst(room, "[", Inner(a));
    }
  }

  lemma MemberMisses(k: string, s: string)
    requires Plain(k) && Solid(s) && Json.ReadValue(s).Miss?
    ensures Json.Members(Key(k) + s).Miss?
  {
    hide Plain, Json.ReadValue, Json.StringTail, Json.Skip;
    var all, m := Key(k) + s, "\"" + (k + "\"" + (":" + s));
    assert all[1..] == m;
    PlainRead(k, ":" + s);
    assert m[1..] == k + "\"" + (":" + s);
    assert (":" + s)[1..] == s;
    SkipNothing(all);
    SkipNothing(m);
    SkipNothing(":" + s);
    SkipNothing(s);
  }

  lemma MemberReads(k: string, s: string, v: Json.Value, rest: string)
    requires Plain(k) && Solid(s) && Json.ReadValue(s) == Json.Got(v, rest)
    ensures Json.ReadMember("\"" + k + "\":" + s) == Json.Got(Json.Member(k, v), rest)
  {
    hide Plain, Json.ReadValue, Json.StringTail, Json.Skip;
    var all := "\"" + k + "\":" + s;
    PlainRead(k, ":" + s);
    assert all[1..] == k + "\"" + (":" + s);
    assert (":" + s)[1..] == s;
    SkipNothing(":" + s);
    SkipNothing(s);
  }

  lemma MembersStep(k: string, s: string, v: Json.Value, rest: string)
    requires Plain(k) && Solid(s) && Json.ReadValue(s) == Json.Got(v, rest)
    ensures var m := Json.Members(rest);
      Json.Members(Key(k) + s) == if m.Miss? then Json.Miss else Json.Got([Json.Member(k, v)] + m.value, m.rest)
  {
    hide Plain, Json.ReadValue, Json.ReadMember, Json.Skip;
    var all, m := Key(k) + s, "\"" + k + "\":" + s;
    MemberReads(k, s, v, rest);
    assert all[1..] == m;
    SkipNothing(all);
    SkipNothing(m);
  }

  // ----- a whole line -----

  function Body(room: nat, fs: seq<Field>): (s: string)
    ensures |s| <= room
    decreases |fs|
  {
    if fs == [] then "" else
      var c := Chunk(room, fs[0]);
      c + Body(room - |c|, fs[1..])
  }

  predicate AllWhole(room: nat, fs: seq<Field>)
    decreases |fs|
  {
    fs == [] || (FateOf(room, fs[0]) == Whole && AllWhole(room - |Chunk(room, fs[0])|, fs[1..]))
  }

  predicate NoneTorn(room: nat, fs: seq<Field>)
    decreases |fs|
  {
    fs == [] || (FateOf(room, fs[0]) != Torn && NoneTorn(room - |Chunk(room, fs[0])|, fs[1..]))
  }

  /** What a reader is given for one field that was not torn. */
  function Shown(room: nat, f: Field): seq<Json.Member> {
    match FateOf(room, f)
    case Whole => [Json.Member(f.key, Meaning(f.value))]
    case Nulled => [Json.Member(f.key, Json.Null)]
    case Emptied => [Json.Member(f.key, Json.Arr([]))]
    case _ => []
  }

  function AllShown(room: nat, fs: seq<Field>): seq<Json.Member>
    decreases |fs|
  {
    if fs == [] then [] else Shown(room, fs[0]) + AllShown(room - |Chunk(room, fs[0])|, fs[1..])
  }

  ghost predicate PlainKeys(fs: seq<Field>) { forall i :: 0 <= i < |fs| ==> Plain(fs[i].key) }

  lemma {:induction false} PutAllAddsBody(l: Line, fs: seq<Field>)
    requires l.Room() >= 0
    ensures PutAll(l, fs) == Line(l.text + Body(l.Room(), fs), l.truncated || !AllWhole(l.Room(), fs))
    decreases |fs|
  {
    hide Put, Chunk, FateOf;
    if fs == [] {
      assert l.text + "" == l.text;
    } else {
      var c := Chunk(l.Room(), fs[0]);
      PutAddsChunk(l, fs[0]);
      PutAllAddsBody(Put(l, fs[0]), fs[1..]);
      assert (l.text + c) + Body(l.Room() - |c|, fs[1..]) == l.text + (c + Body(l.Room() - |c|, fs[1..]));
    }
  }

  /** The member the mark reads as. */
  function Mark(truncated: bool): seq<Json.Member> {
    if truncated then [Json.Member("truncated", Json.Bool(true))] else []
  }

  lemma CloserReads(truncated: bool)
    ensures Json.Members(Closer(truncated)) == Json.Got(Mark(truncated), "\n")
  {
    hide Json.ReadValue, Json.ReadMember, Plain;
    var e := "}\n";
    assert e[1..] == "\n";
    assert Json.Members(e) == Json.Got([], "\n");
    if truncated {
      var s := "true" + e;
      LiteralRead(Bool(true), e);
      assert Closer(true) == Key("truncated") + s;
      assert Plain("truncated") by { WordsArePlain(); }
      MembersStep("truncated", s, Json.Bool(true), e);
      assert Mark(true) + [] == Mark(true);
    }
  }

  lemma WordsArePlain()
    ensures Plain("truncated") && Plain("ev")
  {
  }

  lemma ChunkFollows(room: nat, f: Field)
    requires Plain(f.key)
    ensures Chunk(room, f) == "" || Follows(Chunk(room, f))
  {
    hide ValueChunk, Plain, Key;
  }

  lemma Followed(t: string, rest: string)
    requires Follows(t)
    ensures Follows(t + rest)
  {
    hide Plain, Key;
    var k, more :| Plain(k) && t == Key(k) + more;
    assert t + rest == Key(k) + (more + rest);
  }

  lemma {:induction false} BodyFollows(room: nat, fs: seq<Field>)
    requires PlainKeys(fs)
    ensures Body(room, fs) == "" || Follows(Body(room, fs))
    decreases |fs|
  {
    hide Chunk, Plain, Follows;
    if fs != [] {
      var c := Chunk(room, fs[0]);
      ChunkFollows(room, fs[0]);
      BodyFollows(room - |c|, fs[1..]);
      if c != "" {
        Followed(c, Body(room - |c|, fs[1..]));
      }
      assert c == "" ==> Body(room, fs) == Body(room - |c|, fs[1..]);
    }
  }

  lemma RestStarts(room: nat, fs: seq<Field>, truncated: bool)
    requires PlainKeys(fs)
    ensures var s := Body(room, fs) + Closer(truncated); (truncated ==> Follows(s)) && Stops(s)
  {
    hide Body, Plain, Follows;
    BodyFollows(room, fs);
    if Body(room, fs) != "" {
      Followed(Body(room, fs), Closer(truncated));
      FollowsComma(Body(room, fs));
    } else {
      assert "" + Closer(truncated) == Closer(truncated);
      MarkFollows();
    }
  }

  lemma MarkFollows()
    ensures Follows(Closer(true))
  {
    WordsArePlain();
    assert Closer(true) == Key("truncated") + "true}\n";
  }

  /** Everything behind the event name, read back: every field as it landed, or nothing at all once one is torn. */
  lemma {:induction false} BodyReads(room: nat, fs: seq<Field>, truncated: bool)
    requires PlainKeys(fs)
    requires !AllWhole(room, fs) ==> truncated
    ensures Json.Members(Body(room, fs) + Closer(truncated))
      == if NoneTorn(room, fs) then Json.Got(AllShown(room, fs) + Mark(truncated), "\n") else Json.Miss
    decreases |fs|
  {
    hide Chunk, FateOf, Closer, Mark, Plain, Follows, Print, Meaning, Json.Members, Json.ReadValue;
    var end := Closer(truncated);
    CloserReads(truncated);
    if fs == [] {
      assert "" + end == end;
      assert [] + Mark(truncated) == Mark(truncated);
    } else {
      var f, c := fs[0], Chunk(room, fs[0]);
      var rest := Body(room - |c|, fs[1..]) + end;
      assert Body(room, fs) + end == c + rest;
      if FateOf(room, f) == Torn {
        RestStarts(room - |c|, fs[1..], true);
        TornBreaks(room, f, rest);
      } else {
        BodyReads(room - |c|, fs[1..], truncated);
        RestStarts(room - |c|, fs[1..], truncated);
        ChunkReads(room, f, rest);
        var more := AllShown(room - |c|, fs[1..]);
        var m := Mark(truncated);
        assert (Shown(room, f) + more) + m == Shown(room, f) + (more + m);
      }
    }
  }

  lemma ChunkReads(room: nat, f: Field, rest: string)
    requires Plain(f.key) && FateOf(room, f) != Torn
    requires Stops(rest)
    ensures var m := Json.Members(rest);
      Json.Members(Chunk(room, f) + rest)
      == if m.Miss? then Json.Miss else Json.Got(Shown(room, f) + m.value, m.rest)
  {
    hide ValueChunk, ValueFate, Plain, Print, Key, Meaning, Json.Members, Json.ReadValue;
    if |f.key| + 4 <= room {
      ValueByFate(room - |f.key| - 4, f.value);
    }
    match FateOf(room, f)
    case Dropped =>
      assert "" + rest == rest;
      var m := Json.Members(rest);
      assert m.Got? ==> [] + m.value == m.value;
    case Whole =>
      PrintedRead(f.value, rest);
      PrintSolid(f.value);
      WrittenReads(f.key, Print(f.value), Meaning(f.value), rest);
    case Nulled =>
      LiteralReadNull(rest);
      WrittenReads(f.key, "null", Json.Null, rest);
    case Emptied =>
      EmptyArrayRead(rest);
      WrittenReads(f.key, "[]", Json.Arr([]), rest);
  }

  lemma WrittenReads(k: string, text: string, v: Json.Value, rest: string)
    requires Plain(k) && text != "" && Solid(text) && Json.ReadValue(text + rest) == Json.Got(v, rest)
    ensures var m := Json.Members(rest);
      Json.Members(Key(k) + text + rest)
      == if m.Miss? then Json.Miss else Json.Got([Json.Member(k, v)] + m.value, m.rest)
  {
    hide Plain, Key, Json.Members, Json.ReadValue;
    assert Key(k) + text + rest == Key(k) + (text + rest);
    MembersStep(k, text + rest, v, rest);
  }

  lemma PrintSolid(v: Payload)
    ensures Solid(Print(v))
  {
    hide Dec, Items, Padded, Escape, HexBytes, Json.Number;
    if v.Int? {
      NumberRead(v.n, ",");
    }
  }

  lemma LiteralReadNull(rest: string)
    ensures Json.ReadValue("null" + rest) == Json.Got(Json.Null, rest)
  {
    hide Json.ReadValue;
    LiteralRead(Null, rest);
  }

  lemma EmptyArrayRead(rest: string)
    ensures Json.ReadValue("[]" + rest) == Json.Got(Json.Arr([]), rest)
  {
    hide Json.ReadValue;
    BracketRead([], rest);
    assert Print(Ints([])) == "[]";
  }

  // ----- main results -----

  lemma StartIs(name: string)
    ensures Start(name) ==
      if |name| < UNLUCKY_NAME then Line("{\"ev\":\"" + name + "\"", false)
      else if |name| == UNLUCKY_NAME then Line("{\"ev\":\"" + name, true)
      else Line("{\"ev\":\"\"", true)
  {
    assert "" + "{\"ev\":\"" == "{\"ev\":\"";
  }

  /** The name a reader sees: an oversized one was dropped, its quotes were not. */
  function ShownName(name: string): string { if |name| < UNLUCKY_NAME then name else "" }

  /** The line of one event. */
  function Event(name: string, fs: seq<Field>): Line { PutAll(Start(name), fs) }

  function Room0(name: string): nat { LIMIT - 8 - |ShownName(name)| }

  /** The head of a line, read back. */
  lemma HeadReads(n: string, rest: string)
    requires Plain(n)
    ensures var m := Json.Members(rest);
      Json.ReadLine("{\"ev\":\"" + n + "\"" + rest) ==
        if m.Got? && m.rest == "\n" then Json.Got([Json.Member("ev", Json.Str(n))] + m.value, "\n") else Json.Miss
  {
    hide Plain, Json.Members, Json.ReadMember, Json.ReadValue, Json.StringTail, Json.Skip;
    var v := "\"" + n + "\"" + rest;
    var s := "{\"ev\":\"" + n + "\"" + rest;
    PlainRead(n, rest);
    QuotedRead(n, n, rest);
    WordsArePlain();
    MemberReads("ev", v, Json.Str(n), rest);
    assert s[1..] == "\"" + "ev" + "\":" + v;
    SkipNothing(s[1..]);
  }

  /** The whole line, read back by an independent reader, for every event whatsoever. */
  lemma LineReads(name: string, fs: seq<Field>)
    requires Plain(name) && PlainKeys(fs)
    ensures var l := Event(name, fs);
      Json.ReadLine(Close(l)) ==
        if |name| == UNLUCKY_NAME || !NoneTorn(Room0(name), fs) then Json.Miss
        else
          var ev := Json.Member("ev", Json.Str(ShownName(name)));
          Json.Got([ev] + (AllShown(Room0(name), fs) + Mark(l.truncated)), "\n")
  {
    hide Plain, Json.ReadLine, Json.Members, Body, AllWhole, NoneTorn, AllShown, Start, PutAll, Mark, Closer;
    var l := Event(name, fs);
    StartIs(name);
    PutAllAddsBody(Start(name), fs);
    if |name| == UNLUCKY_NAME {
      UnluckyName(name, fs);
    } else {
      var n, room := ShownName(name), Room0(name);
      var rest := Body(room, fs) + Closer(l.truncated);
      ShownPlain(name);
      assert Start(name).text == "{\"ev\":\"" + n + "\"";
      assert Start(name).Room() == room;
      assert Close(l) == "{\"ev\":\"" + n + "\"" + rest;
      HeadReads(n, rest);
      BodyReads(room, fs, l.truncated);
    }
  }

  lemma ShownPlain(name: string)
    requires Plain(name)
    ensures Plain(ShownName(name))
  {
  }

  lemma {:induction false} NoRoomForFields(fs: seq<Field>)
    ensures Body(0, fs) == ""
  {
    if fs != [] {
      NoRoomForFields(fs[1..]);
    }
  }

  /** With its closing quote lost, the name swallows the start of the mark. */
  lemma UnluckyName(name: string, fs: seq<Field>)
    requires Plain(name) && |name| == UNLUCKY_NAME
    ensures Json.ReadLine(Close(Event(name, fs))).Miss?
  {
    hide Plain, Json.ReadLine, Json.Members, PutAll, Start, Body, AllWhole;
    StartIs(name);
    PutAllAddsBody(Start(name), fs);
    NoRoomForFields(fs);
    var l := Event(name, fs);
    var head, v, rest := "{\"ev\":\"", name + ",", "truncated\":true}\n";
    assert l == Line(head + name, true) by { assert (head + name) + "" == head + name; }
    assert Closer(true) == "," + "\"" + rest;
    assert Close(l) == head + v + "\"" + rest;
    CommaPlain(name);
    HeadReads(v, rest);
    NoMembers(rest);
  }

  lemma CommaPlain(name: string)
    requires Plain(name)
    ensures Plain(name + ",")
  {
  }

  lemma NoMembers(s: string)
    requires s != "" && s[0] != '}' && s[0] != ',' && Solid(s)
    ensures Json.Members(s).Miss?
  {
    SkipNothing(s);
  }

  /** The fields as JSON members, in order. */
  function AllMeanings(fs: seq<Field>): seq<Json.Member> {
    seq(|fs|, i requires 0 <= i < |fs| => Json.Member(fs[i].key, Meaning(fs[i].value)))
  }

  /** An untruncated line is one JSON object holding exactly the name and the fields given, in order. */
  lemma UntruncatedReads(name: string, fs: seq<Field>)
    requires Plain(name) && PlainKeys(fs) && !Event(name, fs).truncated
    ensures Json.ReadLine(Close(Event(name, fs))) ==
      Json.Got([Json.Member("ev", Json.Str(name))] + AllMeanings(fs), "\n")
  {
    hide Plain, PlainKeys, Json.ReadLine, PutAll, Start, Body, AllWhole, NoneTorn, AllShown, Meaning;
    StartIs(name);
    PutAllAddsBody(Start(name), fs);
    LineReads(name, fs);
    WholeShown(Room0(name), fs);
    var all := AllMeanings(fs);
    assert all + Mark(false) == all;
  }

  /** The fields spelled out one behind the other. */
  function Spelled(fs: seq<Field>): string {
    if fs == [] then "" else ",\"" + fs[0].key + "\":" + Print(fs[0].value) + Spelled(fs[1..])
  }

  lemma {:induction false} WholeSpelled(room: nat, fs: seq<Field>)
    requires AllWhole(room, fs)
    ensures Body(room, fs) == Spelled(fs)
    decreases |fs|
  {
    hide Print, ValueFate, ValueChunk;
    if fs != [] {
      var f := fs[0];
      ValueByFate(room - |f.key| - 4, f.value);
      assert Chunk(room, f) == ",\"" + f.key + "\":" + Print(f.value);
      WholeSpelled(room - |Chunk(room, f)|, fs[1..]);
    }
  }

  /** Such a line, character by character. */
  lemma UntruncatedIs(name: string, fs: seq<Field>)
    requires !Event(name, fs).truncated
    ensures Close(Event(name, fs)) == "{\"ev\":\"" + name + "\"" + Spelled(fs) + "}\n"
  {
    hide Body, AllWhole, PutAll, Start, Spelled;
    StartIs(name);
    PutAllAddsBody(Start(name), fs);
    WholeSpelled(Room0(name), fs);
  }

  lemma {:induction false} WholeShown(room: nat, fs: seq<Field>)
    requires AllWhole(room, fs)
    ensures NoneTorn(room, fs)
    ensures AllShown(room, fs) == AllMeanings(fs)
    decreases |fs|
  {
    hide Chunk, FateOf, Meaning;
    if fs != [] {
      WholeShown(room - |Chunk(room, fs[0])|, fs[1..]);
    }
  }

  /** When a line is a JSON object at all: exactly when no field was left half written. */
  lemma ReadableIff(name: string, fs: seq<Field>)
    requires Plain(name) && PlainKeys(fs)
    ensures Json.ReadLine(Close(Event(name, fs))).Got? <==> |name| != UNLUCKY_NAME && NoneTorn(Room0(name), fs)
  {
    hide Plain, PlainKeys, Json.ReadLine, PutAll, Start, NoneTorn, AllShown;
    LineReads(name, fs);
  }

  /** A truncated line need not be JSON: a blob nearly fills the line, the next key fits behind it, neither its
      value nor null does. */
  lemma TruncatedMayBreak(p: seq<byte>)
    requires |p| == 32741
    ensures Json.ReadLine(Close(Event("x", [Field("d", Hex(p)), Field("k", Str("y"))]))).Miss?
  {
    hide Plain, Json.ReadLine, PutAll, Start, Print, HexBytes;
    var fs := [Field("d", Hex(p)), Field("k", Str("y"))];
    LettersArePlain();
    HexLength(p);
    var room := Room0("x");
    assert FateOf(room, fs[0]) == Whole && |Chunk(room, fs[0])| == 5 + 2 * |p| + 2;
    var left := room - |Chunk(room, fs[0])|;
    assert fs[1..][0] == fs[1] && FateOf(left, fs[1]) == Torn;
    assert !NoneTorn(left, fs[1..]);
    ReadableIff("x", fs);
  }

  lemma HexLength(p: seq<byte>)
    ensures |Print(Hex(p))| == 2 * |p| + 2
  {
  }

  lemma LettersArePlain()
    ensures Plain("x") && Plain("d") && Plain("k")
  {
  }

  /** An event is one line of at most 64 KiB that starts with its name, whatever its fields hold. */
  lemma OneEventOneLine(name: string, fs: seq<Field>)
    requires Plain(name) && PlainKeys(fs)
    ensures var s := Close(Event(name, fs));
      |s| <= 0x1_0000 && s[|s| - 1] == '\n' && OneLine(s[..|s| - 1])
      && (|name| < 65497 ==> "{\"ev\":\"" + name + "\"" <= s)
      && (|name| == 65497 ==> "{\"ev\":\"" + name <= s) && (|name| > 65497 ==> "{\"ev\":\"\"" <= s)
  {
    hide Plain, PlainKeys, OneLine, Body, PutAll, Start, AllWhole;
    StartIs(name);
    PutAllAddsBody(Start(name), fs);
    var l := Event(name, fs);
    BodyOneLine(Start(name).Room(), fs);
    var s := Close(l);
    var end := if l.truncated then ",\"truncated\":true}" else "}";
    assert s[..|s| - 1] == Start(name).text + (Body(Start(name).Room(), fs) + end);
    StartOneLine(name);
    MarkOneLine();
    JoinOneLine(Body(Start(name).Room(), fs), end);
    JoinOneLine(Start(name).text, Body(Start(name).Room(), fs) + end);
  }

  lemma StartOneLine(name: string)
    requires Plain(name)
    ensures OneLine(Start(name).text)
  {
    hide Start;
    StartIs(name);
    JoinOneLine("{\"ev\":\"", name);
    JoinOneLine("{\"ev\":\"" + name, "\"");
  }

  lemma MarkOneLine()
    ensures OneLine(",\"truncated\":true}") && OneLine("}")
  {
  }

  lemma JoinOneLine(a: string, b: string)
    requires OneLine(a) && OneLine(b)
    ensures OneLine(a + b)
  {
  }

  lemma {:induction false} BodyOneLine(room: nat, fs: seq<Field>)
    requires PlainKeys(fs)
    ensures OneLine(Body(room, fs))
    decreases |fs|
  {
    hide Chunk;
    if fs != [] {
      ChunkOneLine(room, fs[0]);
      BodyOneLine(room - |Chunk(room, fs[0])|, fs[1..]);
    }
  }

  lemma ChunkOneLine(room: nat, f: Field)
    requires Plain(f.key)
    ensures OneLine(Chunk(room, f))
  {
    hide Print, Pieces, Kept, Need;
    if |f.key| + 4 <= room {
      var left := room - |f.key| - 4;
      Single(left, "null");
      Single(left, Print(f.value));
      if f.value.Ints? {
        PiecesOneLine(f.value.a);
        KeptOneLine(left, Pieces(f.value.a));
      } else {
        PrintOneLine(f.value);
      }
    }
  }

  ghost predicate OneLines(ps: seq<string>) { forall i :: 0 <= i < |ps| ==> OneLine(ps[i]) }

  lemma {:induction false} KeptOneLine(room: nat, ps: seq<string>)
    requires OneLines(ps)
    ensures OneLine(Kept(room, ps))
    decreases |ps|
  {
    if ps != [] {
      if |ps[0]| > room {
        KeptOneLine(room, ps[1..]);
      } else {
        KeptOneLine(room - |ps[0]|, ps[1..]);
      }
    }
  }

  lemma {:induction false} MoreOneLine(a: seq<int>)
    ensures OneLines(More(a))
  {
    if a != [] {
      DecOneLine(a[0]);
      MoreOneLine(a[1..]);
    }
  }

  lemma PiecesOneLine(a: seq<int>)
    ensures OneLines(Pieces(a))
  {
    if a != [] {
      DecOneLine(a[0]);
      MoreOneLine(a[1..]);
    }
  }

  lemma PrintOneLine(v: Payload)
    requires !v.Ints?
    ensures OneLine(Print(v))
  {
    hide Escape, Padded, HexBytes, Dec;
    match v
    case Int(n) => DecOneLine(n);
    case Str(s) => EscapeOneLine(s);
    case HexNum(h, digits) => PaddedPlain(h, digits);
    case Hex(p) => HexPlain(p);
    case _ =>
  }
}

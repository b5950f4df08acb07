/** The event builder: three buffers, one string.  An event writes into 768 bytes of its own, spills into the
    buffer its thread shares between events, and into a private vector when another event holds that one. */
module Event {
  import opened Bytes
  import opened EventText
  import opened EventLine

  const INLINE: nat := 768

  class EventSink {
    var enabled: bool
    var lines: seq<string>

    constructor (on: bool)
      ensures enabled == on && lines == []
    {
      enabled, lines := on, [];
    }

    method WriteLine(line: string)
      modifies this`lines
      ensures lines == if enabled then old(lines) + [line] else old(lines)
    {
      if enabled {
        lines := lines + [line];
      }
    }
  }

  /** A vector resized: what was there stays, in storage of its own. */
  method Resized(a: array<char>, n: nat) returns (b: array<char>)
    ensures fresh(b) && b.Length == n
    ensures forall i :: 0 <= i < a.Length && i < n ==> b[i] == a[i]
  {
    b := new char[n];
    forall i | 0 <= i < a.Length && i < n {
      b[i] := a[i];
    }
  }

  /** The buffer the events of one thread take turns with. */
  class Scratch {
    var buf: array<char>
    var busy: bool
    /** The event that holds it while it is busy. */
    ghost var owner: Ev?

    constructor ()
      ensures fresh(buf) && buf.Length == 0 && !busy
    {
      buf := new char[0];
      busy, owner := false, null;
    }
  }

  class Ev {
    const sink: EventSink
    const tls: Scratch
    const sbuf: array<char>
    var heap: array<char>
    var buf: array<char>
    var cap: nat
    var len: nat
    var dead: bool
    var truncated: bool
    var scratch: Scratch?

    /** An event on a sink that is switched off is born dead; the others start with their name. */
    constructor (sink: EventSink, tls: Scratch, name: string)
      requires tls.buf.Length <= MAX_LINE
      modifies if tls.busy then {} else {tls, tls.buf}
      ensures this.sink == sink && this.tls == tls
      ensures Valid() && dead == !sink.enabled
      ensures !dead ==> Model() == Start(name)
      ensures fresh(sbuf) && fresh(heap) && (tls.buf == old(tls.buf) || fresh(tls.buf))
      ensures fresh(Writes() - old(if tls.busy then {} else {tls, tls.buf}))
      ensures tls.busy ==> if old(tls.busy) then tls.owner == old(tls.owner) else tls.owner == this
      ensures old(tls.busy) ==> tls.busy
    {
      this.sink, this.tls := sink, tls;
      sbuf := new char[INLINE];
      heap := new char[0];
      buf := sbuf;
      cap := INLINE;
      len := 0;
      dead, truncated, scratch := false, false, null;
      new;
      if !sink.enabled {
        dead := true;
        return;
      }
      assert Model() == Line("", false);
      Head(name);
    }

    /** The buffer in use is this event's own, or the thread's while this event holds it. */
    ghost predicate Owns()
      reads this, tls
    {
      && sbuf.Length == INLINE && tls.buf.Length <= MAX_LINE
      && sbuf != tls.buf && heap != tls.buf && heap != sbuf
      && (dead ==> scratch == null)
      && (!dead ==> len <= cap == buf.Length && INLINE <= cap <= MAX_LINE)
      && (!dead && scratch == null ==> buf == sbuf || buf == heap)
      && (!dead && scratch != null ==> scratch == tls && buf == tls.buf && tls.busy && tls.owner == this)
    }

    ghost predicate Valid()
      reads this, tls
    {
      Owns() && (!dead ==> len <= LIMIT)
    }

    /** All that a call on this event may write: nothing once it is dead. */
    ghost function Writes(): set<object>
      reads this, tls
    {
      if dead then {}
      else {this, buf} + if scratch != null || (buf == sbuf && !tls.busy) then {tls, tls.buf} else {}
    }

    ghost function Text(): string
      requires Owns() && !dead
      reads this, tls, buf
    {
      buf[..len]
    }

    /** The append-only string the buffers stand for. */
    ghost function Model(): Line
      requires Owns() && !dead
      reads this, tls, buf
    {
      Line(Text(), truncated)
    }

    /** Storage is only ever replaced by storage of this call's own. */
    twostate predicate Grows()
      reads this, tls
    {
      (heap == old(heap) || fresh(heap)) && (tls.buf == old(tls.buf) || fresh(tls.buf))
    }

    /** New storage is this call's own, and a buffer another event holds is left to it. */
    twostate predicate Stays()
      reads this, tls
    {
      && Grows() && fresh(Writes() - old(Writes()))
      && (old(tls.busy) ==> tls.busy && tls.owner == old(tls.owner))
      && (tls.busy ==> old(tls.busy) || scratch != null)
      && (if old(scratch) != null then scratch != null else scratch != null ==> !old(tls.busy))
    }

    /** From the inline buffer into the thread's, which is taken. */
    method SpillShared(n: nat)
      requires Owns() && !dead && buf == sbuf && !tls.busy && len <= n && INLINE <= n <= MAX_LINE
      modifies this`scratch, this`buf, this`cap, tls, tls.buf
      ensures Owns() && n <= cap && Text() == old(Text())
      ensures scratch == tls && (tls.buf == old(tls.buf) || fresh(tls.buf))
    {
      tls.busy, tls.owner := true, this;
      scratch := tls;
      if tls.buf.Length < n {
        var b := Resized(tls.buf, n);
        tls.buf := b;
      }
      forall i | 0 <= i < len {
        tls.buf[i] := sbuf[i];
      }
      buf := tls.buf;
      cap := tls.buf.Length;
    }

    /** From the inline buffer into a private vector, the thread's being held by another event. */
    method SpillPrivate(n: nat)
      requires Owns() && !dead && buf == sbuf && len <= n && INLINE <= n <= MAX_LINE
      modifies this`heap, this`buf, this`cap
      ensures Owns() && n <= cap && Text() == old(Text())
      ensures buf == heap && fresh(heap)
    {
      heap := Resized(heap, n);
      forall i | 0 <= i < len {
        heap[i] := sbuf[i];
      }
      buf := heap;
      cap := heap.Length;
    }

    /** The vector in use, wherever it lives, made larger. */
    method Widen(n: nat)
      requires Owns() && !dead && buf != sbuf && cap <= n <= MAX_LINE
      modifies this`heap, this`buf, this`cap, if scratch != null then {tls} else {}
      ensures Owns() && n <= cap && Text() == old(Text())
      ensures fresh(buf) && (heap == old(heap) || heap == buf) && (tls.buf == old(tls.buf) || tls.buf == buf)
      ensures tls.busy == old(tls.busy) && tls.owner == old(tls.owner)
    {
      var b := Resized(buf, n);
      if scratch != null {
        scratch.buf := b;
        buf := scratch.buf;
      } else {
        heap := b;
        buf := heap;
      }
      cap := n;
    }

    method Ensure(n: nat, slack: nat) returns (ok: bool)
      requires Owns() && !dead
      modifies Writes()
      ensures Owns() && !dead && Stays()
      ensures ok <==> old(len) + n + slack <= MAX_LINE
      ensures ok ==> len + n <= cap
      // storage: kept while it is large enough, otherwise at least doubled, and shared if it can be
      ensures !ok || old(len) + n <= old(cap) ==> buf == old(buf) && cap == old(cap)
      ensures ok && old(len) + n > old(cap) ==> cap >= if 2 * old(cap) < MAX_LINE then 2 * old(cap) else MAX_LINE
      ensures ok && old(len) + n > old(cap) && old(buf == sbuf) ==>
        buf == (if old(tls.busy) then heap else tls.buf) && (scratch == null <==> old(tls.busy))
      ensures len == old(len) && Text() == old(Text())
      ensures truncated == (old(truncated) || !ok)
    {
      if len + n + slack > MAX_LINE {
        truncated := true;
        return false;
      }
      if len + n <= cap {
        return true;
      }
      ok := true;
      var want := len + n;
      var newcap := if cap * 2 > want then cap * 2 else want;
      if newcap > MAX_LINE {
        newcap := MAX_LINE;
      }
      if buf == sbuf {
        if !tls.busy {
          SpillShared(newcap);
          return;
        }
        SpillPrivate(newcap);
        return;
      }
      Widen(newcap);
    }

    method Add(c: char)
      requires Owns() && !dead && len < cap
      modifies this`len, buf
      ensures Owns() && len == old(len) + 1 && Text() == old(Text()) + [c]
    {
      buf[len] := c;
      len := len + 1;
    }

    method Append(s: string)
      requires Owns() && !dead && len + |s| <= cap
      modifies this`len, buf
      ensures Owns() && len == old(len) + |s| && Text() == old(Text()) + s
    {
      ghost var t := Text();
      forall j | len <= j < len + |s| {
        buf[j] := s[j - len];
      }
      len := len + |s|;
      assert buf[..len] == t + s;
    }

    /** snprintf into the buffer: the text and the NUL behind it, which the next write covers. */
    method Print(s: string)
      requires Owns() && !dead && len + |s| + 1 <= cap
      modifies this`len, buf
      ensures Owns() && len == old(len) + |s| && Text() == old(Text()) + s
    {
      ghost var t := Text();
      forall j | len <= j < len + |s| {
        buf[j] := s[j - len];
      }
      buf[len + |s|] := '\0';
      len := len + |s|;
      assert buf[..len] == t + s;
    }

    method Raw(p: string)
      requires Valid()
      modifies Writes()
      ensures Valid() && Stays() && dead == old(dead)
      ensures !dead ==> Model() == EventLine.Raw(old(Model()), p)
    {
      if dead {
        return;
      }
      var ok := Ensure(|p|, SLACK);
      if ok {
        Append(p);
      }
    }

    /** The constructor's three writes. */
    method Head(name: string)
      requires Valid() && !dead && Model() == Line("", false)
      modifies Writes()
      ensures Valid() && Stays() && !dead
      ensures Model() == Start(name)
    {
      Raw("{\"ev\":\"");
      Raw(name);
      Raw("\"");
    }

    method BeginField(k: string) returns (ok: bool)
      requires Valid()
      modifies Writes()
      ensures Valid() && Stays() && dead == old(dead)
      ensures dead ==> !ok
      ensures !dead ==> ok == (|k| + 4 <= old(Model()).Room())
      ensures !dead ==>
        Model() == if ok then old(Model()).(text := old(Text()) + Key(k)) else old(Model()).(truncated := true)
    {
      if dead {
        return false;
      }
      ok := Ensure(|k| + 4, SLACK);
      if ok {
        WriteKey(k);
      }
    }

    method WriteKey(k: string)
      requires Owns() && !dead && len + |k| + 4 <= cap
      modifies this`len, buf
      ensures Owns() && len == old(len) + |k| + 4 && Text() == old(Text()) + Key(k)
    {
      hide Owns;
      ghost var t := Text();
      Add(',');
      Add('"');
      Append(k);
      Add('"');
      Add(':');
      assert Text() == t + Key(k);
    }

    /** A printed number goes through a buffer of its own, NUL and all. */
    method RawPrinted(s: string, size: nat)
      requires Valid() && |s| + 1 <= size
      modifies Writes()
      ensures Valid() && Stays() && dead == old(dead)
      ensures !dead ==> Model() == EventLine.Raw(old(Model()), s)
    {
      var tmp := new char[size];
      forall i | 0 <= i < |s| {
        tmp[i] := s[i];
      }
      tmp[|s|] := '\0';
      assert tmp[..|s|] == s;
      Raw(tmp[..|s|]);
    }

    /** One character, escaped where JSON asks for it; snprintf's NUL is why seven bytes must be free. */
    method AddEscaped(c: char)
      requires Owns() && !dead && len + 7 <= cap
      modifies this`len, buf
      ensures Owns() && Text() == old(Text()) + EscapeChar(c) && len <= old(len) + 6
    {
      hide Owns;
      ghost var t := Text();
      if c == '"' {
        Add('\\');
        Add('"');
      } else if c == '\\' {
        Add('\\');
        Add('\\');
      } else if c == '\n' {
        Add('\\');
        Add('n');
      } else if c == '\t' {
        Add('\\');
        Add('t');
      } else if c == '\r' {
        Add('\\');
        Add('r');
      } else if c < ' ' {
        Print(EscapeChar(c));
      } else {
        Add(c);
      }
      assert Text() == t + EscapeChar(c);
    }

    /** The quoted string, written where room for six characters each was made. */
    method Quoted(v: string)
      requires Owns() && !dead && len + 6 * |v| + 2 <= cap
      modifies this`len, buf
      ensures Owns() && Text() == old(Text()) + ("\"" + Escape(v) + "\"")
      ensures len <= old(len) + 6 * |v| + 2
    {
      hide Owns, Escape, EscapeChar;
      ghost var t := Text();
      Add('"');
      assert v[..0] == "" && Escape("") == "" by { EscapeEmpty(); }
      for i := 0 to |v|
        invariant Owns() && len <= old(len) + 1 + 6 * i
        invariant Text() == t + ("\"" + Escape(v[..i]))
      {
        AddEscaped(v[i]);
        EscapeSnoc(v[..i], v[i]);
        assert v[..i + 1] == v[..i] + [v[i]];
      }
      assert v[..|v|] == v;
      Add('"');
    }

    method AddHex(b: byte)
      requires Owns() && !dead && len + 2 <= cap
      modifies this`len, buf
      ensures Owns() && len == old(len) + 2 && Text() == old(Text()) + [DigitChar(b / 16), DigitChar(b % 16)]
    {
      hide Owns, DigitChar;
      Add(DigitChar(b / 16));
      Add(DigitChar(b % 16));
    }

    method HexQuoted(p: seq<byte>)
      requires Owns() && !dead && len + 2 * |p| + 2 <= cap
      modifies this`len, buf
      ensures Owns() && Text() == old(Text()) + ("\"" + HexBytes(p) + "\"")
      ensures len == old(len) + 2 * |p| + 2
    {
      hide Owns, HexBytes, DigitChar;
      ghost var t := Text();
      Add('"');
      assert p[..0] == [] && HexBytes([]) == "";
      for i := 0 to |p|
        invariant Owns() && len == old(len) + 1 + 2 * i
        invariant Text() == t + ("\"" + HexBytes(p[..i]))
      {
        AddHex(p[i]);
        HexSnoc(p[..i], p[i]);
        assert p[..i + 1] == p[..i] + [p[i]];
      }
      assert p[..|p|] == p;
      Add('"');
    }

    method StrValue(v: string)
      requires Valid() && !dead
      modifies Writes()
      ensures Valid() && Stays() && !dead
      ensures Model() == PutValue(old(Model()), Str(v))
    {
      hide Escape;
      var ok := Ensure(6 * |v| + 2, SLACK);
      if ok {
        Quoted(v);
      } else {
        Raw("null");
      }
    }

    method HexValue(p: seq<byte>)
      requires Valid() && !dead
      modifies Writes()
      ensures Valid() && Stays() && !dead
      ensures Model() == PutValue(old(Model()), Hex(p))
    {
      hide HexBytes;
      var ok := Ensure(2 * |p| + 2, SLACK);
      if !ok {
        Raw("null");
        return;
      }
      HexQuoted(p);
    }

    method Element(n: int, first: bool)
      requires Valid() && !dead && -0x8000_0000 <= n < 0x8000_0000
      modifies Writes()
      ensures Valid() && Stays() && !dead
      ensures Model() == EventLine.Raw(if first then old(Model()) else EventLine.Raw(old(Model()), ","), Dec(n))
    {
      hide Owns, EventLine.Raw, Dec;
      if !first {
        Raw(",");
      }
      DecShort(n, 11);
      RawPrinted(Dec(n), 16);
    }

    method ArrValue(a: seq<int>)
      requires Valid() && !dead && Int32s(a)
      modifies Writes()
      ensures Valid() && Stays() && !dead
      ensures Model() == PutValue(old(Model()), Ints(a))
    {
      hide Owns, EventLine.Raw, Dec, Parts, RawAll, Pieces;
      ghost var start := Model();
      Raw("[");
      OpeningBracket(start);
      assert a[..0] == [];
      for i := 0 to |a|
        invariant Valid() && Stays() && !dead
        invariant Model() == RawAll(start, ["["] + Parts(a[..i]))
      {
        Element(a[i], i == 0);
        RawStep(start, a[..i], a[i]);
        assert a[..i + 1] == a[..i] + [a[i]];
      }
      assert a[..|a|] == a;
      Raw("]");
      PartsArePieces(start, a);
    }

    method FInt(k: string, n: int)
      requires Valid() && -0x8000_0000_0000_0000 <= n < 0x1_0000_0000_0000_0000
      modifies Writes()
      ensures Valid() && Stays() && dead == old(dead)
      ensures !dead ==> Model() == EventLine.Put(old(Model()), Field(k, Int(n)))
    {
      hide Owns, Key, Dec, Padded;
      var ok := BeginField(k);
      if ok {
        DecShort(n, 20);
        RawPrinted(Dec(n), 24);
      }
    }

    method FBool(k: string, b: bool)
      requires Valid()
      modifies Writes()
      ensures Valid() && Stays() && dead == old(dead)
      ensures !dead ==> Model() == EventLine.Put(old(Model()), Field(k, Bool(b)))
    {
      hide Owns, Key, Dec, Padded;
      var ok := BeginField(k);
      if ok {
        if b {
          Raw("true");
        } else {
          Raw("false");
        }
      }
    }

    method FNull(k: string)
      requires Valid()
      modifies Writes()
      ensures Valid() && Stays() && dead == old(dead)
      ensures !dead ==> Model() == EventLine.Put(old(Model()), Field(k, Null))
    {
      hide Owns, Key, Dec, Padded;
      var ok := BeginField(k);
      if ok {
        Raw("null");
      }
    }

    method FStr(k: string, v: string)
      requires Valid()
      modifies Writes()
      ensures Valid() && Stays() && dead == old(dead)
      ensures !dead ==> Model() == EventLine.Put(old(Model()), Field(k, Str(v)))
    {
      hide Owns, PutValue, Key;
      var ok := BeginField(k);
      if ok {
        StrValue(v);
      }
    }

    method Hexf(k: string, h: nat, digits: nat)
      requires Valid() && h < 0x1_0000_0000_0000_0000 && digits <= 19
      modifies Writes()
      ensures Valid() && Stays() && dead == old(dead)
      ensures !dead ==> Model() == EventLine.Put(old(Model()), Field(k, HexNum(h, digits)))
    {
      hide Owns, Key, Dec, Padded;
      var ok := BeginField(k);
      if ok {
        HexWidthFits(h, digits);
        RawPrinted(EventText.Print(HexNum(h, digits)), 24);
      }
    }

    method FHex(k: string, p: seq<byte>)
      requires Valid()
      modifies Writes()
      ensures Valid() && Stays() && dead == old(dead)
      ensures !dead ==> Model() == EventLine.Put(old(Model()), Field(k, Hex(p)))
    {
      hide Owns, PutValue, Key;
      var ok := BeginField(k);
      if ok {
        HexValue(p);
      }
    }

    method Arr(k: string, a: seq<int>)
      requires Valid() && Int32s(a)
      modifies Writes()
      ensures Valid() && Stays() && dead == old(dead)
      ensures !dead ==> Model() == EventLine.Put(old(Model()), Field(k, Ints(a)))
    {
      hide Owns, PutValue, Key;
      var ok := BeginField(k);
      if ok {
        ArrValue(a);
      }
    }

    method Put(f: Field)
      requires Valid() && Admissible(f.value)
      modifies Writes()
      ensures Valid() && Stays() && dead == old(dead)
      ensures !dead ==> Model() == EventLine.Put(old(Model()), f)
    {
      match f.value
      case Int(n) => FInt(f.key, n);
      case Bool(b) => FBool(f.key, b);
      case Null => FNull(f.key);
      case Str(s) => FStr(f.key, s);
      case HexNum(h, digits) => Hexf(f.key, h, digits);
      case Hex(p) => FHex(f.key, p);
      case Ints(a) => Arr(f.key, a);
    }

    /** Only the end of a line spends the reserve. */
    method CloseWith(p: string)
      requires Owns() && !dead && len + |p| <= MAX_LINE
      modifies Writes()
      ensures Owns() && !dead && Stays()
      ensures truncated == old(truncated) && len == old(len) + |p| && Text() == old(Text()) + p
    {
      var ok := Ensure(|p|, 0);
      if ok {
        Append(p);
      }
    }

    method Finish()
      requires Valid() && !dead
      modifies Writes()
      ensures Owns() && !dead && Stays()
      ensures truncated == old(truncated) && Text() == old(Text()) + Closer(truncated)
    {
      ghost var t := Text();
      if truncated {
        CloseWith(",\"truncated\":true");
      }
      CloseWith("}\n");
      assert Text() == t + Closer(truncated);
    }

    /** Close the line, hand it over whole, give the thread's buffer back.  A second call does nothing. */
    method Emit()
      requires Valid()
      modifies Writes(), if dead then {} else {sink}
      ensures Valid() && dead
      ensures !old(dead) ==> sink.enabled == old(sink.enabled)
      ensures !old(dead) ==> sink.lines == old(sink.lines) + if sink.enabled then [Close(old(Model()))] else []
      ensures Grows()
      ensures tls.busy ==> old(tls.busy) && tls.owner == old(tls.owner)
      ensures tls.busy == (old(tls.busy) && old(scratch) == null)
    {
      if dead {
        return;
      }
      Finish();
      dead := true;
      sink.WriteLine(buf[..len]);
      if scratch != null {
        scratch.busy := false;
        scratch := null;
      }
    }
  }

  predicate Int32s(a: seq<int>) { forall i :: 0 <= i < |a| ==> -0x8000_0000 <= a[i] < 0x8000_0000 }

  /** The ranges of the C types, and the precision its 24-byte buffer leaves room for. */
  predicate Admissible(v: Payload) {
    match v
    case Int(n) => -0x8000_0000_0000_0000 <= n < 0x1_0000_0000_0000_0000
    case HexNum(h, digits) => h < 0x1_0000_0000_0000_0000 && digits <= 19
    case Ints(a) => Int32s(a)
    case _ => true
  }

  // ----- the pieces of an array, in the order the loop writes them -----

  /** What the loop wrote for the elements a. */
  function Parts(a: seq<int>): seq<string> {
    if a == [] then []
    else Parts(a[..|a| - 1]) + (if |a| == 1 then [] else [","]) + [Dec(a[|a| - 1])]
  }

  lemma {:induction false} RawAllSnoc(l: Line, ps: seq<string>, p: string)
    ensures RawAll(l, ps + [p]) == EventLine.Raw(RawAll(l, ps), p)
    decreases |ps|
  {
    if ps == [] {
      assert ps + [p] == [p] && [p][1..] == [];
    } else {
      RawAllSnoc(EventLine.Raw(l, ps[0]), ps[1..], p);
      assert (ps + [p])[1..] == ps[1..] + [p];
    }
  }

  lemma OpeningBracket(l: Line)
    ensures RawAll(l, ["["] + Parts([])) == EventLine.Raw(l, "[")
  {
    assert ["["] + Parts([]) == ["["] && ["["][1..] == [];
  }

  lemma EscapeEmpty()
    ensures Escape("") == ""
  {
  }

  lemma RawStep(l: Line, a: seq<int>, n: int)
    ensures var ps := ["["] + Parts(a);
      RawAll(l, ["["] + Parts(a + [n])) ==
        EventLine.Raw(if a == [] then RawAll(l, ps) else EventLine.Raw(RawAll(l, ps), ","), Dec(n))
  {
    hide Dec, RawAll, EventLine.Raw;
    var ps := ["["] + Parts(a);
    assert (a + [n])[..|a|] == a;
    if a == [] {
      RawAllSnoc(l, ps, Dec(n));
      assert ["["] + Parts([n]) == ps + [Dec(n)];
    } else {
      RawAllSnoc(l, ps, ",");
      RawAllSnoc(l, ps + [","], Dec(n));
      assert ["["] + Parts(a + [n]) == ps + [","] + [Dec(n)];
    }
  }

  lemma {:induction false} MoreSnoc(a: seq<int>, n: int)
    ensures More(a + [n]) == More(a)[..|More(a)| - 1] + [",", Dec(n), "]"]
    ensures More(a) != [] && More(a)[|More(a)| - 1] == "]"
  {
    hide Dec;
    if a == [] {
      assert More([n]) == [",", Dec(n)] + More([n][1..]);
    } else {
      MoreSnoc(a[1..], n);
      assert (a + [n])[1..] == a[1..] + [n];
    }
  }

  lemma PartsSnoc(a: seq<int>, n: int)
    ensures Parts(a + [n]) == Parts(a) + (if a == [] then [] else [","]) + [Dec(n)]
  {
    hide Dec;
    assert (a + [n])[..|a|] == a;
  }

  lemma InnerSnoc(a: seq<int>, n: int)
    requires a != []
    ensures Inner(a + [n]) == Inner(a)[..|Inner(a)| - 1] + [",", Dec(n), "]"]
    ensures Inner(a)[|Inner(a)| - 1] == "]"
  {
    hide Dec, More;
    MoreSnoc(a[1..], n);
    assert (a + [n])[1..] == a[1..] + [n];
  }

  lemma {:induction false} InnerIsParts(a: seq<int>)
    ensures Inner(a) == Parts(a) + ["]"]
  {
    hide Dec, Inner, Parts, More;
    if |a| <= 1 {
      ShortParts(a);
    } else {
      var b, n := a[..|a| - 1], a[|a| - 1];
      assert a == b + [n];
      InnerIsParts(b);
      InnerSnoc(b, n);
      PartsSnoc(b, n);
      assert (Parts(b) + ["]"])[..|Parts(b)|] == Parts(b);
    }
  }

  lemma ShortParts(a: seq<int>)
    requires |a| <= 1
    ensures Inner(a) == Parts(a) + ["]"]
  {
    hide Dec;
    if |a| == 1 {
      assert a[1..] == [] && a[..0] == [];
    }
  }

  lemma PartsArePieces(l: Line, a: seq<int>)
    ensures RawAll(l, Pieces(a)) == EventLine.Raw(RawAll(l, ["["] + Parts(a)), "]")
  {
    hide Dec, RawAll, EventLine.Raw, Parts, Inner;
    InnerIsParts(a);
    RawAllSnoc(l, ["["] + Parts(a), "]");
    assert Pieces(a) == ["["] + Parts(a) + ["]"];
  }

  /** What the temporary buffers have to hold: 20 digits of a 64-bit number, 11 characters of a 32-bit one. */
  lemma DecShort(n: int, k: nat)
    requires k == 20 || k == 11
    requires k == 20 ==> -0x8000_0000_0000_0000 <= n < 0x1_0000_0000_0000_0000
    requires k == 11 ==> -0x8000_0000 <= n < 0x8000_0000
    ensures |Dec(n)| <= k
  {
    hide Digits;
    assert Pow10(10) == 10_000_000_000 by { PowersOfTen(); }
    PowersOfTen();
    if k == 20 {
      if n < 0 {
        DigitsShort(-n, 19);
      } else {
        DigitsShort(n, 20);
      }
    } else if n < 0 {
      DigitsShort(-n, 10);
    } else {
      DigitsShort(n, 10);
    }
  }

  lemma PowersOfTen()
    ensures Pow10(10) == 10_000_000_000
    ensures Pow10(19) == 10_000_000_000_000_000_000
    ensures Pow10(20) == 100_000_000_000_000_000_000
  {
    assert Pow10(5) == 100_000;
    assert Pow10(10) == 10_000_000_000;
    assert Pow10(15) == 1_000_000_000_000_000;
    assert Pow10(19) == 10_000_000_000_000_000_000;
  }
}

// The cfg_param command format: register writes packed twelve bytes each, and how firmware reads them back.
module CfgParamWire {
  import opened Bytes
  import opened Wrappers

  // ----- registers and direct writes --------------------------------------------------------

  /** Baseband dwords by address, MAC bytes by address, 20-bit RF registers by path and address. */
  datatype Regs = Regs(bb: map<U16, U32>, mac: map<nat, byte>, rf: map<(byte, byte), nat>)

  /** A register write as the caller issues it. */
  datatype Write =
    | BbWrite(addr: U16, value: U32)
    | MacWrite(addr: U16, value: U32, width: byte)
    | RfWrite(path: byte, rfAddr: byte, value: U32)

  function Span(width: byte): nat {
    if width == 1 then 1 else if width == 2 then 2 else 4
  }

  function Store(m: map<nat, byte>, a: nat, b: seq<byte>): map<nat, byte>
    decreases |b|
  {
    if b == [] then m else Store(m[a := b[0]], a + 1, b[1..])
  }

  /** The effect of a write made directly: a MAC write of width 1 or 2 stores its low bytes, any other width
      four; an RF register keeps 20 bits. */
  function Direct(r: Regs, w: Write): Regs {
    match w
    case BbWrite(a, v) => r.(bb := r.bb[a := v])
    case MacWrite(a, v, width) => r.(mac := Store(r.mac, a, PutLe(v, Span(width))))
    case RfWrite(p, a, v) => r.(rf := r.rf[(p, a) := v % 0x10_0000])
  }

  lemma {:induction false} StoreSays(m: map<nat, byte>, a: nat, b: seq<byte>, x: nat)
    ensures var m' := Store(m, a, b);
      if a <= x < a + |b| then x in m' && m'[x] == b[x - a] else (x in m' <==> x in m) && (x in m ==> m'[x] == m[x])
    decreases |b|
  {
    if b != [] {
      StoreSays(m[a := b[0]], a + 1, b[1..], x);
    }
  }

  /** A MAC write reaches one, two or four bytes, least significant first, and nothing else. */
  lemma MacWriteSays(r: Regs, a: U16, v: U32, width: byte, x: nat)
    ensures var r' := Direct(r, MacWrite(a, v, width));
      && r'.bb == r.bb && r'.rf == r.rf
      && (x == a ==> x in r'.mac && r'.mac[x] == v % 0x100)
      && (x == a + 1 && width != 1 ==> x in r'.mac && r'.mac[x] == v / 0x100 % 0x100)
      && (x == a + 2 && width != 1 && width != 2 ==> x in r'.mac && r'.mac[x] == v / 0x1_0000 % 0x100)
      && (x == a + 3 && width != 1 && width != 2 ==> x in r'.mac && r'.mac[x] == v / 0x100_0000)
      && (x < a || x >= a + 4 || (x > a && width == 1) || (x > a + 1 && width == 2) ==>
        (x in r'.mac <==> x in r.mac) && (x in r.mac ==> r'.mac[x] == r.mac[x]))
  {
    hide Store;
    StoreSays(r.mac, a, PutLe(v, Span(width)), x);
    BytesOf(v);
  }

  lemma BytesOf(v: U32)
    ensures PutLe(v, 1) == [v % 0x100] && PutLe(v, 2) == [v % 0x100, v / 0x100 % 0x100]
    ensures PutLe(v, 4) == [v % 0x100, v / 0x100 % 0x100, v / 0x1_0000 % 0x100, v / 0x100_0000]
  {
    var w, x, y := v / 0x100, v / 0x1_0000, v / 0x100_0000;
    assert w / 256 == x && x / 256 == y && y % 256 == y;
    assert PutLe(y, 1) == [y];
    assert PutLe(x, 1) == [x % 256] && PutLe(x, 2) == [x % 256] + PutLe(y, 1);
    assert PutLe(w, 1) == [w % 256] && PutLe(w, 3) == [w % 256] + PutLe(x, 2);
    assert PutLe(v, 1) == [v % 256] && PutLe(v, 2) == [v % 256] + PutLe(w, 1);
    assert PutLe(v, 4) == [v % 256] + PutLe(w, 3);
  }

  function DirectAll(r: Regs, ws: seq<Write>): Regs
    decreases |ws|
  {
    if ws == [] then r else DirectAll(Direct(r, ws[0]), ws[1..])
  }

  lemma {:induction false} DirectAllJoin(r: Regs, a: seq<Write>, b: seq<Write>)
    ensures DirectAll(r, a + b) == DirectAll(DirectAll(r, a), b)
    decreases |a|
  {
    if a == [] {
      assert a + b == b;
    } else {
      assert (a + b)[1..] == a[1..] + b;
      DirectAllJoin(Direct(r, a[0]), a[1..], b);
    }
  }

  function BbAt(r: Regs, a: U16): U32 {
    if a in r.bb then r.bb[a] else 0
  }

  // ----- commands ------------------------------------------------------------------------------

  const CMD_LEN: nat := 12
  const MAC_W8: byte := 0x4
  const MAC_W16: byte := 0x5
  const MAC_W32: byte := 0x6
  const RF_W: byte := 0x7
  const BB_W32: byte := 0xA
  const END: byte := 0xFF

  /** Twelve bytes: length and command, sixteen address bits, data, and an unused mask. */
  function Command(cmd: byte, addrField: U16, data: U32): (b: seq<byte>)
    ensures |b| == CMD_LEN
  {
    PutLe(CMD_LEN + cmd * 0x100 + addrField * 0x1_0000, 4) + PutLe(data, 4) + PutLe(0, 4)
  }

  function CodeOf(w: Write): byte {
    match w
    case BbWrite(_, _) => BB_W32
    case MacWrite(_, _, width) => if width == 1 then MAC_W8 else if width == 2 then MAC_W16 else MAC_W32
    case RfWrite(_, _, _) => RF_W
  }

  function AddrFieldOf(w: Write): U16 {
    match w
    case BbWrite(a, _) => a
    case MacWrite(a, _, _) => a
    case RfWrite(p, a, _) => a + p * 0x100
  }

  function DataOf(w: Write): U32 {
    if w.RfWrite? then w.value % 0x10_0000 else w.value
  }

  function Encode(w: Write): (b: seq<byte>)
    ensures |b| == CMD_LEN
  {
    Command(CodeOf(w), AddrFieldOf(w), DataOf(w))
  }

  function EncodeAll(ws: seq<Write>): (b: seq<byte>)
    ensures |b| == CMD_LEN * |ws|
  {
    if ws == [] then [] else Encode(ws[0]) + EncodeAll(ws[1..])
  }

  function EndCommand(): seq<byte> { Command(END, 0, 0) }

  // ----- the firmware's reading of it -----------------------------------------------------------

  /** The write one command makes; None for END and for commands this stream never carries. */
  function Decode(b: seq<byte>): Option<Write>
    requires |b| == CMD_LEN
  {
    Widths();
    GetLeBound(b[2..4]);
    GetLeBound(b[4..8]);
    var addr, data: U32 := GetLe(b[2..4]), GetLe(b[4..8]);
    if b[0] != CMD_LEN then None
    else if b[1] == MAC_W8 then Some(MacWrite(addr, data, 1))
    else if b[1] == MAC_W16 then Some(MacWrite(addr, data, 2))
    else if b[1] == MAC_W32 then Some(MacWrite(addr, data, 4))
    else if b[1] == RF_W then Some(RfWrite(b[3], b[2], data))
    else if b[1] == BB_W32 then Some(BbWrite(addr, data))
    else None
  }

  /** The first n commands of a page, up to an END or anything unreadable. */
  function Commands(page: seq<byte>, n: nat): seq<Write>
    decreases n
  {
    if n == 0 || |page| < CMD_LEN then []
    else
      var w := Decode(page[..CMD_LEN]);
      if w.None? then [] else [w.value] + Commands(page[CMD_LEN..], n - 1)
  }

  /** The write as it comes back out of a command. */
  function OnChip(w: Write): Write {
    match w
    case BbWrite(_, _) => w
    case MacWrite(a, v, width) => MacWrite(a, v, if width == 1 || width == 2 then width else 4)
    case RfWrite(p, a, v) => RfWrite(p, a, v % 0x10_0000)
  }

  lemma FourBytes(v: nat)
    ensures PutLe(v, 4) == [v % 256] + PutLe(v / 256, 3)
    ensures PutLe(v / 256, 3) == [(v / 256) % 256] + PutLe(v / 256 / 256, 2)
  {
  }

  lemma TwoBytes(v: U16)
    ensures PutLe(v, 2) == [v % 256, v / 256]
  {
    assert PutLe(v / 256, 1) == [v / 256 % 256];
  }

  lemma CommandBytes(cmd: byte, addrField: U16, data: U32)
    ensures var b := Command(cmd, addrField, data);
      && b[0] == CMD_LEN && b[1] == cmd && b[2] == addrField % 0x100 && b[3] == addrField / 0x100
      && b[2..4] == PutLe(addrField, 2) && b[4..8] == PutLe(data, 4)
  {
    hide PutLe;
    var v := CMD_LEN + cmd * 0x100 + addrField * 0x1_0000;
    var b := Command(cmd, addrField, data);
    assert v % 256 == CMD_LEN && v / 256 == cmd + addrField * 0x100;
    assert (v / 256) % 256 == cmd && v / 256 / 256 == addrField;
    FourBytes(v);
    TwoBytes(addrField);
    assert b[4..8] == PutLe(data, 4);
  }

  /** The command of each kind of write, byte by byte, and the command that ends a page. */
  lemma CommandSays(w: Write)
    ensures var e := Encode(w);
      && e[0] == 12 && GetLe(e[4..8]) == (if w.RfWrite? then w.value % 0x10_0000 else w.value)
      && e[1] == (match w
                  case BbWrite(_, _) => 0x0A
                  case MacWrite(_, _, width) => if width == 1 then 0x04 else if width == 2 then 0x05 else 0x06
                  case RfWrite(_, _, _) => 0x07)
      && (if w.RfWrite? then e[2] == w.rfAddr && e[3] == w.path
          else e[2] == w.addr % 0x100 && e[3] == w.addr / 0x100)
      && e[8..12] == [0, 0, 0, 0]
    ensures EndCommand()[0] == 12 && EndCommand()[1] == 0xFF
  {
    hide PutLe, GetLe;
    CommandBytes(CodeOf(w), AddrFieldOf(w), DataOf(w));
    CommandBytes(END, 0, 0);
    Widths();
    GetPut(DataOf(w), 4);
    BytesOf(0);
    assert Encode(w)[8..12] == PutLe(0, 4);
  }

  /** Round trip through the wire. */
  lemma DecodeEncode(w: Write)
    ensures Decode(Encode(w)) == Some(OnChip(w))
    ensures Decode(EndCommand()) == None
  {
    CommandBytes(CodeOf(w), AddrFieldOf(w), DataOf(w));
    CommandBytes(END, 0, 0);
    Widths();
    GetPut(AddrFieldOf(w), 2);
    GetPut(DataOf(w), 4);
    if w.RfWrite? {
      assert AddrFieldOf(w) % 0x100 == w.rfAddr && AddrFieldOf(w) / 0x100 == w.path;
    }
  }

  /** What comes off the wire does to the registers what the original write would have done. */
  lemma OnChipSame(r: Regs, w: Write)
    ensures Direct(r, OnChip(w)) == Direct(r, w)
  {
  }

  function OnChipAll(ws: seq<Write>): (r: seq<Write>)
    ensures |r| == |ws| && forall k :: 0 <= k < |ws| ==> r[k] == OnChip(ws[k])
  {
    seq(|ws|, k requires 0 <= k < |ws| => OnChip(ws[k]))
  }

  lemma {:induction false} OnChipAllSame(r: Regs, ws: seq<Write>)
    ensures DirectAll(r, OnChipAll(ws)) == DirectAll(r, ws)
    decreases |ws|
  {
    if ws != [] {
      OnChipSame(r, ws[0]);
      assert OnChipAll(ws)[1..] == OnChipAll(ws[1..]);
      OnChipAllSame(Direct(r, ws[0]), ws[1..]);
    }
  }

  lemma {:induction false} EncodeAllAppend(ws: seq<Write>, w: Write)
    ensures EncodeAll(ws + [w]) == EncodeAll(ws) + Encode(w)
    decreases |ws|
  {
    hide Encode;
    if ws == [] {
      assert EncodeAll([w]) == Encode(w) + EncodeAll([w][1..]);
    } else {
      assert (ws + [w])[1..] == ws[1..] + [w];
      EncodeAllAppend(ws[1..], w);
    }
  }

  function Taken(ws: seq<Write>, n: nat): seq<Write> {
    if n < |ws| then ws[..n] else ws
  }

  lemma OneCommand(w: Write, rest: seq<byte>, n: nat)
    requires n > 0
    ensures Commands(Encode(w) + rest, n) == [OnChip(w)] + Commands(rest, n - 1)
  {
    hide Encode, Decode;
    var page := Encode(w) + rest;
    DecodeEncode(w);
    assert page[..CMD_LEN] == Encode(w) && page[CMD_LEN..] == rest;
  }

  lemma NoCommand(n: nat)
    ensures Commands(EndCommand(), n) == []
  {
    hide Encode, Decode;
    DecodeEncode(BbWrite(0, 0));
    assert EndCommand()[..CMD_LEN] == EndCommand();
  }

  /** Reading a terminated buffer gives the first n of the writes packed into it. */
  lemma {:induction false} CommandsOfBuffer(ws: seq<Write>, n: nat)
    ensures Commands(EncodeAll(ws) + EndCommand(), n) == OnChipAll(Taken(ws, n))
    decreases |ws|
  {
    hide Encode, Decode, EndCommand, OnChip;
    if ws == [] {
      assert EncodeAll(ws) + EndCommand() == EndCommand();
      NoCommand(n);
    } else if n > 0 {
      var rest := EncodeAll(ws[1..]) + EndCommand();
      assert EncodeAll(ws) + EndCommand() == Encode(ws[0]) + rest;
      OneCommand(ws[0], rest, n);
      CommandsOfBuffer(ws[1..], n - 1);
      assert Taken(ws, n) == [ws[0]] + Taken(ws[1..], n - 1);
      assert OnChipAll(Taken(ws, n)) == [OnChip(ws[0])] + OnChipAll(Taken(ws[1..], n - 1));
    }
  }

  // ----- the trigger packet -----------------------------------------------------------------------

  /** The 32-byte request: offload class, sequence number, command count and page location. */
  function TriggerPacket(num: nat, loc: U16, seqNo: byte): (p: seq<byte>)
    ensures |p| == 32
  {
    [0x01, 0xff, 0x08, 0, 12, 0, seqNo, 0] + PutLe(num % 0x1_0000 + (loc % 0x100) * 0x100_0000, 4)
    + seq(20, _ => 0)
  }

  lemma TriggerSays(num: nat, loc: U16, seqNo: byte)
    ensures var p := TriggerPacket(num, loc, seqNo);
      && p[..8] == [0x01, 0xff, 0x08, 0, 12, 0, seqNo, 0]
      && GetLe(p[8..10]) == num % 0x1_0000 && p[10] == 0 && p[11] == loc % 0x100
      && forall i :: 12 <= i < 32 ==> p[i] == 0
  {
    NumFieldIs(num, loc, seqNo);
    var v := num % 0x1_0000 + (loc % 0x100) * 0x100_0000;
    hide PutLe, GetLe;
    FourBytes(v);
    ThirdByte(v, num % 0x1_0000, loc % 0x100);
  }

  lemma ThirdByte(v: nat, n: U16, l: byte)
    requires v == n + l * 0x100_0000
    ensures PutLe(v, 4)[2] == 0
  {
    assert v / 256 == n / 256 + l * 0x1_0000 && v / 256 / 256 == l * 0x100;
    FourBytes(v);
    assert PutLe(l * 0x100, 2) == [0] + PutLe(l, 1);
  }

  function NumField(p: seq<byte>): nat
    requires |p| == 32
  {
    GetLe(p[8..10])
  }

  /** The count travels in sixteen bits: it is the batch length exactly when that is below 65536. */
  lemma NumFieldIs(num: nat, loc: U16, seqNo: byte)
    ensures NumField(TriggerPacket(num, loc, seqNo)) == num % 0x1_0000
    ensures NumField(TriggerPacket(num, loc, seqNo)) == num <==> num < 0x1_0000
    ensures TriggerPacket(num, loc, seqNo)[11] == loc % 0x100
  {
    var n, l := num % 0x1_0000, loc % 0x100;
    var v := n + l * 0x100_0000;
    var p := TriggerPacket(num, loc, seqNo);
    assert v % 256 == n % 256 && v / 256 == n / 256 + l * 0x1_0000;
    assert (v / 256) % 256 == n / 256 && v / 256 / 256 == l * 0x100;
    assert l * 0x100 / 256 == l;
    assert PutLe(v, 4) == [v % 256] + PutLe(v / 256, 3);
    assert PutLe(v / 256, 3) == [(v / 256) % 256] + PutLe(l * 0x100, 2);
    assert PutLe(l * 0x100, 2) == [0] + PutLe(l, 1);
    assert PutLe(l, 1) == [l];
    assert p[8..10] == [n % 256, n / 256];
    assert GetLe(p[8..10]) == n % 256 + 256 * GetLe([n / 256]);
    assert GetLe([n / 256]) == n / 256 + 256 * GetLe([]);
  }
}

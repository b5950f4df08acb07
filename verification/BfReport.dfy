// Parsing a compressed-beamforming report and unpacking its angles.
module BfReport {
  import opened Arith
  import opened Bytes
  import opened Wrappers

  // ----- the frame -------------------------------------------------------------------------------

  /** Subcarriers per bandwidth code and grouping; 0 for an unknown pair. */
  function ReportNs(bw: nat, ng: nat): nat {
    var table := [[52, 30, 16], [108, 58, 30], [234, 122, 62], [468, 244, 124]];
    if bw > 3 then 0
    else if ng == 1 then table[bw][0]
    else if ng == 2 then table[bw][1]
    else if ng == 4 then table[bw][2]
    else 0
  }

  datatype ReportHdr = ReportHdr(nc: nat, nr: nat, bw: nat, ng: nat, mu: bool, vht: bool, ns: nat,
                                 angles: seq<byte>, perScBits: nat)

  function GroupingOf(code: nat): nat {
    if code == 0 then 1 else if code == 1 then 2 else 4
  }

  /** Grouping codes 0, 1 and 2 are one, two and four subcarriers; the reserved code 3 is read as four. */
  lemma GroupingIs()
    ensures GroupingOf(0) == 1 && GroupingOf(1) == 2 && GroupingOf(2) == 4 && GroupingOf(3) == 4
  {
  }

  /** 20, 40, 80 and 160 MHz by grouping. */
  lemma ReportNsIs()
    ensures ReportNs(0, 1) == 52 && ReportNs(0, 2) == 30 && ReportNs(0, 4) == 16
    ensures ReportNs(1, 1) == 108 && ReportNs(1, 2) == 58 && ReportNs(1, 4) == 30
    ensures ReportNs(2, 1) == 234 && ReportNs(2, 2) == 122 && ReportNs(2, 4) == 62
    ensures ReportNs(3, 1) == 468 && ReportNs(3, 2) == 244 && ReportNs(3, 4) == 124
  {
  }

  // ----- the same frame, said field by field -------------------------------------------------------

  /** The MIMO control field of a report. */
  datatype Control = Control(nc: nat, nr: nat, bw: nat, ngCode: nat, mu: bool, ngSpare: bool, high: nat)

  predicate ValidControl(c: Control) {
    1 <= c.nc <= 8 && 1 <= c.nr <= 8 && c.bw < 4 && c.ngCode < 4 && c.high < 0x1000
  }

  function Bool(b: bool): nat { if b then 1 else 0 }

  /** Streams, antennas, bandwidth, grouping, one bit the parser skips, feedback type, twelve more skipped. */
  function ControlBytes(c: Control): (b: seq<byte>)
    requires ValidControl(c)
    ensures |b| == 3
  {
    PutLe((c.nc - 1) + 8 * (c.nr - 1) + 0x40 * c.bw + 0x100 * c.ngCode + 0x400 * Bool(c.ngSpare)
          + 0x800 * Bool(c.mu) + 0x1000 * c.high, 3)
  }

  function ControlOf(b: seq<byte>): (c: Control)
    requires |b| == 3
    ensures ValidControl(c)
  {
    var mc: nat := b[0] as nat + b[1] as nat * 0x100 + b[2] as nat * 0x1_0000;
    Control(mc % 8 + 1, mc / 8 % 8 + 1, mc / 0x40 % 4, mc / 0x100 % 4, mc / 0x800 % 2 == 1,
            mc / 0x400 % 2 == 1, mc / 0x1000)
  }

  predicate IsReport(d: seq<byte>) {
    |d| >= 30 && (0xD0 <= d[0] < 0xF0) && (d[24] == 0x15 || d[24] == 0x07) && d[25] == 0
  }

  /** Angle bytes available behind the header and the per-stream SNR bytes. */
  function Room(d: seq<byte>, nc: nat, fcsPresent: bool): int {
    |d| - 29 - nc - if fcsPresent then 4 else 0
  }

  /** What a frame carries, if it carries a report that can be decoded. */
  function Parsed(d: seq<byte>, fcsPresent: bool): Option<ReportHdr> {
    if !IsReport(d) then None
    else
      var c := ControlOf(d[26..29]);
      var ng := GroupingOf(c.ngCode);
      NsPositive(c.bw, ng);
      var ns := ReportNs(c.bw, ng);
      var room := Room(d, c.nc, fcsPresent);
      if room < 1 then None
      else
        var len := if c.mu then (ns * 10 + 7) / 8 else room;
        if len > room || (!c.mu && room * 8 % ns != 0) then None
        else
          var per := if c.mu then 10 else room * 8 / ns;
          if per < 2 then None
          else Some(ReportHdr(c.nc, c.nr, c.bw, ng, c.mu, d[24] == 0x15, ns, d[29 + c.nc..29 + c.nc + len], per))
  }

  /** The report in frame d, if d is one; fcsPresent says whether d still ends in its four-byte FCS. */
  method ParseReport(d: seq<byte>, fcsPresent: bool) returns (r: Option<ReportHdr>)
    ensures r == Parsed(d, fcsPresent)
  {
    hide ControlOf, ReportNs;
    if |d| < 30 {
      return None;
    }
    var sub := d[0] - d[0] % 0x10;
    if sub != 0xD0 && sub != 0xE0 {
      return None;
    }
    var vht := d[24] == 0x15 && d[25] == 0x00;
    var ht := d[24] == 0x07 && d[25] == 0x00;
    if !vht && !ht {
      return None;
    }
    var c := ControlOf(d[26..29]);
    var ng := GroupingOf(c.ngCode);
    NsPositive(c.bw, ng);
    var ns := ReportNs(c.bw, ng);
    var fcs := if fcsPresent then 4 else 0;
    if ns <= 0 || |d| < 30 + c.nc + fcs {
      return None;
    }
    var len := |d| - (29 + c.nc) - fcs;
    var per := 10;
    if c.mu {
      var vbytes := (ns * 10 + 7) / 8;
      if vbytes > len {
        return None;
      }
      len := vbytes;
    } else {
      if len * 8 % ns != 0 {
        return None;
      }
      per := len * 8 / ns;
    }
    if per < 2 {
      return None;
    }
    r := Some(ReportHdr(c.nc, c.nr, c.bw, ng, c.mu, vht, ns, d[29 + c.nc..29 + c.nc + len], per));
  }

  lemma NsPositive(bw: nat, ng: nat)
    requires bw < 4 && (ng == 1 || ng == 2 || ng == 4)
    ensures 16 <= ReportNs(bw, ng) <= 468
  {
  }

  /** Any frame put together from a control field, SNR bytes, angle bytes and what follows them. */
  function BuiltFrame(head: seq<byte>, vht: bool, c: Control, snr: seq<byte>, angles: seq<byte>,
                      rest: seq<byte>): seq<byte>
    requires ValidControl(c)
  {
    head + [if vht then 0x15 else 0x07, 0] + ControlBytes(c) + snr + angles + rest
  }

  function LowByte(c: Control): nat
    requires ValidControl(c)
  {
    (c.nc - 1) + 8 * (c.nr - 1) + 0x40 * c.bw
  }

  function HighBytes(c: Control): nat { c.ngCode + 4 * Bool(c.ngSpare) + 8 * Bool(c.mu) + 16 * c.high }

  lemma LowFields(c: Control, mc: nat)
    requires ValidControl(c) && mc == LowByte(c) + 0x100 * HighBytes(c)
    ensures LowByte(c) < 0x100
    ensures mc % 8 == c.nc - 1 && mc / 8 % 8 == c.nr - 1 && mc / 0x40 % 4 == c.bw
  {
    var h := HighBytes(c);
    hide HighBytes;
    DivUnique(mc, (c.nr - 1) + 8 * (c.bw + 4 * h), 8, c.nc - 1);
    DivUnique((c.nr - 1) + 8 * (c.bw + 4 * h), c.bw + 4 * h, 8, c.nr - 1);
    DivUnique(mc, c.bw + 4 * h, 0x40, (c.nc - 1) + 8 * (c.nr - 1));
    DivUnique(c.bw + 4 * h, h, 4, c.bw);
  }

  lemma HighFields(c: Control, mc: nat)
    requires ValidControl(c) && mc == LowByte(c) + 0x100 * HighBytes(c)
    ensures mc / 0x100 % 4 == c.ngCode && mc / 0x400 % 2 == Bool(c.ngSpare)
    ensures mc / 0x800 % 2 == Bool(c.mu) && mc / 0x1000 == c.high
  {
    var low, s, m := LowByte(c), Bool(c.ngSpare), Bool(c.mu);
    LowFields(c, mc);
    DivUnique(mc, HighBytes(c), 0x100, low);
    DivUnique(HighBytes(c), s + 2 * m + 4 * c.high, 4, c.ngCode);
    DivUnique(mc, s + 2 * m + 4 * c.high, 0x400, low + 0x100 * c.ngCode);
    DivUnique(s + 2 * m + 4 * c.high, m + 2 * c.high, 2, s);
    DivUnique(mc, m + 2 * c.high, 0x800, low + 0x100 * c.ngCode + 0x400 * s);
    DivUnique(m + 2 * c.high, c.high, 2, m);
    DivUnique(mc, c.high, 0x1000, low + 0x100 * c.ngCode + 0x400 * s + 0x800 * m);
  }

  lemma ThreeBytes(low: nat, high: nat)
    requires low < 0x100 && high < 0x1_0000
    ensures PutLe(low + 0x100 * high, 3) == [low, high % 0x100, high / 0x100]
  {
    var v := low + 0x100 * high;
    assert v % 256 == low && v / 256 == high;
    assert PutLe(v, 3) == [v % 256] + PutLe(v / 256, 2);
    assert PutLe(high, 2) == [high % 256] + PutLe(high / 256, 1);
    assert PutLe(high / 256, 1) == [high / 256 % 256];
  }

  /** The parts byte by byte; bit 2 of the second byte and all above bit 3 are skipped. */
  lemma ControlBits(b: seq<byte>)
    requires |b| == 3
    ensures var c := ControlOf(b);
      && c.nc == b[0] % 8 + 1 && c.nr == b[0] / 8 % 8 + 1 && c.bw == b[0] / 64
      && c.ngCode == b[1] % 4 && (c.mu <==> b[1] / 8 % 2 == 1)
  {
    hide ControlBytes;
    ByteFields(b[0], b[1], b[2]);
  }

  lemma ByteFields(low: byte, mid: byte, top: byte)
    ensures var mc: nat := low + mid * 0x100 + top * 0x1_0000;
      && mc % 8 == low % 8 && mc / 8 % 8 == low / 8 % 8 && mc / 0x40 % 4 == low / 64
      && mc / 0x100 % 4 == mid % 4 && mc / 0x800 % 2 == mid / 8 % 2
  {
    var high: nat := mid + top * 0x100;
    var mc: nat := low + 0x100 * high;
    DivUnique(mc, high, 0x100, low);
    Above(mc, low, high, 8, 32);
    Above(mc, low, high, 0x40, 4);
    Above(high, mid, top, 8, 32);
    DivDiv(mc, 0x100, 8);
    SameLow(low, high);
    SameLow(mid, top);
  }

  lemma SameLow(low: byte, high: nat)
    ensures (low + 0x100 * high) % 8 == low % 8 && (low + 0x100 * high) % 4 == low % 4
    ensures (low / 8 + 32 * high) % 8 == low / 8 % 8 && (low / 64 + 4 * high) % 4 == low / 64
    ensures (low / 8 + 32 * high) % 2 == low / 8 % 2
  {
    MultipleAdded(low, 8, 32 * high);
    MultipleAdded(low, 4, 64 * high);
    MultipleAdded(low / 8, 8, 4 * high);
    MultipleAdded(low / 64, 4, high);
    MultipleAdded(low / 8, 2, 16 * high);
  }

  lemma MultipleAdded(x: nat, m: nat, q: nat)
    requires m > 0
    ensures (x + m * q) % m == x % m
  {
    DivUnique(x + m * q, x / m + q, m, x % m);
  }

  /** Splitting off the bits below 0x100 = a * b of which a are dropped. */
  lemma Above(v: nat, low: byte, high: nat, a: nat, b: nat)
    requires v == low + 0x100 * high && a > 0 && b > 0 && a * b == 0x100
    ensures v / a == low / a + b * high
  {
    assert b * high * a == 0x100 * high;
    DivUnique(v, low / a + b * high, a, low % a);
  }

  lemma ControlRoundTrip(c: Control)
    requires ValidControl(c)
    ensures ControlOf(ControlBytes(c)) == c
  {
    hide PutLe, LowByte, HighBytes;
    var mc := LowByte(c) + 0x100 * HighBytes(c);
    LowFields(c, mc);
    HighFields(c, mc);
    HighInRange(c);
    ThreeBytes(LowByte(c), HighBytes(c));
  }

  lemma HighInRange(c: Control)
    requires ValidControl(c)
    ensures HighBytes(c) < 0x1_0000
    ensures LowByte(c) + 0x100 * HighBytes(c) == (c.nc - 1) + 8 * (c.nr - 1) + 0x40 * c.bw + 0x100 * c.ngCode
      + 0x400 * Bool(c.ngSpare) + 0x800 * Bool(c.mu) + 0x1000 * c.high
  {
  }

  /** The pieces of a frame put together right. */
  lemma BuiltPieces(head: seq<byte>, vht: bool, c: Control, snr: seq<byte>, angles: seq<byte>, rest: seq<byte>)
    requires |head| == 24 && ValidControl(c) && |snr| == c.nc && angles != []
    ensures var d := BuiltFrame(head, vht, c, snr, angles, rest);
      && |d| == 29 + c.nc + |angles| + |rest| && d[0] == head[0] && d[24] == (if vht then 0x15 else 0x07) && d[25] == 0
      && d[26..29] == ControlBytes(c) && d[29 + c.nc..29 + c.nc + |angles|] == angles
  {
    hide ControlBytes;
  }

  /** The parser finds, in a frame put together right, exactly what was put in. */
  lemma BuiltFrameParses(head: seq<byte>, vht: bool, c: Control, snr: seq<byte>, angles: seq<byte>,
                         rest: seq<byte>, fcsPresent: bool)
    requires |head| == 24 && 0xD0 <= head[0] < 0xF0
    requires ValidControl(c) && |snr| == c.nc && angles != []
    requires fcsPresent ==> |rest| >= 4
    requires var ns := ReportNs(c.bw, GroupingOf(c.ngCode));
      if c.mu then |angles| == (ns * 10 + 7) / 8
      else |rest| == (if fcsPresent then 4 else 0) && ns > 0 && |angles| * 8 % ns == 0 && |angles| * 8 / ns >= 2
    ensures var ns := ReportNs(c.bw, GroupingOf(c.ngCode));
      Parsed(BuiltFrame(head, vht, c, snr, angles, rest), fcsPresent) ==
        Some(ReportHdr(c.nc, c.nr, c.bw, GroupingOf(c.ngCode), c.mu, vht, ns, angles,
                       if c.mu then 10 else |angles| * 8 / ns))
  {
    hide ControlOf, ControlBytes, BuiltFrame, ReportNs;
    ControlRoundTrip(c);
    BuiltPieces(head, vht, c, snr, angles, rest);
    NsPositive(c.bw, GroupingOf(c.ngCode));
  }

  /** A parsed report reads no byte of the FCS, and its angle bytes hold every subcarrier's bits. */
  lemma ParsedFits(d: seq<byte>, fcsPresent: bool)
    requires Parsed(d, fcsPresent).Some?
    ensures var h := Parsed(d, fcsPresent).value;
      && 29 + h.nc + |h.angles| + (if fcsPresent then 4 else 0) <= |d|
      && h.angles == d[29 + h.nc..29 + h.nc + |h.angles|]
      && h.perScBits >= 2 && h.ns > 0 && h.nc >= 1 && h.nr >= 1
      && h.ns * h.perScBits <= 8 * |h.angles|
      && (!h.mu ==> h.ns * h.perScBits == 8 * |h.angles|)
  {
    hide ControlOf, ReportNs;
    var c := ControlOf(d[26..29]);
    NsPositive(c.bw, GroupingOf(c.ngCode));
  }

  /** No control field is lost on the parser: the fields say the three bytes. */
  lemma ControlFieldsSay(b: seq<byte>)
    requires |b| == 3
    ensures ControlBytes(ControlOf(b)) == b
  {
    var mc: nat := b[0] as nat + b[1] as nat * 0x100 + b[2] as nat * 0x1_0000;
    var low: nat, high: nat := b[0] as nat, b[1] as nat + 0x100 * b[2] as nat;
    var c := ControlOf(b);
    FieldsAddUp(mc);
    HighInRange(c);
    ThreeBytes(low, high);
    assert high % 0x100 == b[1] as nat && high / 0x100 == b[2] as nat;
  }

  lemma FieldsAddUp(mc: nat)
    ensures mc == mc % 8 + 8 * (mc / 8 % 8) + 0x40 * (mc / 0x40 % 4) + 0x100 * (mc / 0x100 % 4)
      + 0x400 * (mc / 0x400 % 2) + 0x800 * (mc / 0x800 % 2) + 0x1000 * (mc / 0x1000)
  {
    assert mc / 0x40 == mc / 8 / 8 && mc / 0x100 == mc / 0x40 / 4 && mc / 0x400 == mc / 0x100 / 4;
    assert mc / 0x800 == mc / 0x400 / 2 && mc / 0x1000 == mc / 0x800 / 2;
  }

  /** The converse of BuiltFrameParses: whatever parses was put together that way, from the pieces returned. */
  lemma ParsedWasBuilt(d: seq<byte>, fcsPresent: bool) returns (c: Control, snr: seq<byte>, rest: seq<byte>)
    requires Parsed(d, fcsPresent).Some?
    ensures var h := Parsed(d, fcsPresent).value; var ns := ReportNs(c.bw, GroupingOf(c.ngCode));
      && ValidControl(c) && |snr| == c.nc && h.angles != [] && 0xD0 <= d[0] < 0xF0
      && d == BuiltFrame(d[..24], h.vht, c, snr, h.angles, rest)
      && (fcsPresent ==> |rest| >= 4)
      && if c.mu then |h.angles| == (ns * 10 + 7) / 8
         else |rest| == (if fcsPresent then 4 else 0) && |h.angles| * 8 % ns == 0 && |h.angles| * 8 / ns >= 2
  {
    hide ControlOf, ControlBytes, ReportNs;
    var h := Parsed(d, fcsPresent).value;
    c := ControlOf(d[26..29]);
    NsPositive(c.bw, GroupingOf(c.ngCode));
    snr, rest := d[29..29 + c.nc], d[29 + c.nc + |h.angles|..];
    ControlFieldsSay(d[26..29]);
    assert d == d[..24] + [d[24], d[25]] + d[26..29] + snr + h.angles + rest;
  }
}

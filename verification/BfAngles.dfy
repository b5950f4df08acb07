// From packed bits to Givens angles, and back; and choosing how the bits are split.
module BfAngles {
  import opened Arith
  import opened BfReport
  import opened Bits
  import opened Bytes

  const PI: real := 3.14159265358979323846

  function DequantPhi(q: nat, b: nat): real {
    (2 * q + 1) as real * PI / Pow2(b) as real
  }

  function DequantPsi(q: nat, b: nat): real {
    (2 * q + 1) as real * PI / Pow2(b + 2) as real
  }

  /** The codes of b bits are the midpoints of Pow2(b) equal parts of [0, 2 pi] for phi and of [0, pi / 2] for psi,
      in order: half a part from zero, a whole part from one to the next, and the last half a part from the end. */
  lemma Midpoints(q: nat, b: nat)
    ensures Pow2(b) as real * DequantPhi(0, b) == PI && Pow2(b) as real * DequantPsi(0, b) == PI / 4.0
    ensures DequantPhi(q + 1, b) - DequantPhi(q, b) == DequantPhi(0, b) + DequantPhi(0, b)
    ensures DequantPsi(q + 1, b) - DequantPsi(q, b) == DequantPsi(0, b) + DequantPsi(0, b)
    ensures DequantPhi(0, b) + DequantPhi(Pow2(b) - 1, b) == 2.0 * PI
    ensures DequantPsi(0, b) + DequantPsi(Pow2(b) - 1, b) == PI / 2.0
  {
    hide Pow2;
    FourTimes(b);
    MidpointsOf(q, Pow2(b), PI);
    MidpointsOf(q, Pow2(b + 2), PI);
    MidpointsOf(Pow2(b) - 1, Pow2(b), PI);
    MidpointsOf(Pow2(b) - 1, Pow2(b + 2), PI);
  }

  lemma FourTimes(b: nat)
    ensures Pow2(b + 2) == 4 * Pow2(b)
  {
    assert Pow2(b + 1) == 2 * Pow2(b);
  }

  /** Odd multiples of one n-th. */
  lemma MidpointsOf(q: nat, n: nat, x: real)
    requires n >= 1
    ensures var part := x / n as real;
      && (2 * q + 1) as real * x / n as real == (2.0 * q as real + 1.0) * part && n as real * part == x
      && (2 * (q + 1) + 1) as real * x / n as real == (2.0 * q as real + 3.0) * part
  {
  }

  // ----- how many angles ---------------------------------------------------------------------------

  function Rounds(nr: nat, nc: nat): nat {
    if nr == 0 then 0 else if nc < nr - 1 then nc else nr - 1
  }

  /** (nr - 1) + (nr - 2) + ... over the first m rounds. */
  function PairsUpTo(nr: nat, m: nat): nat
    requires m < nr || m == 0
  {
    if m == 0 then 0 else PairsUpTo(nr, m - 1) + (nr - m)
  }

  /** Angle pairs per subcarrier; a shape with none counts as one pair. */
  function Pairs(nr: nat, nc: nat): (n: nat)
    ensures n >= 1
  {
    var n := PairsUpTo(nr, Rounds(nr, nc));
    if n == 0 then 1 else n
  }

  /** In closed form. */
  lemma {:induction false} PairsClosed(nr: nat, m: nat)
    requires m < nr || m == 0
    ensures 2 * PairsUpTo(nr, m) == m * (2 * nr - m - 1)
  {
    if m > 0 {
      PairsClosed(nr, m - 1);
      assert m * (2 * nr - m - 1) == (m - 1) * (2 * nr - m) + 2 * (nr - m);
    }
  }

  lemma PairsOf(nr: nat, nc: nat)
    requires nr >= 1
    ensures var m := if nc < nr - 1 then nc else nr - 1;
      2 * Pairs(nr, nc) == if m == 0 then 2 else m * (2 * nr - m - 1)
  {
    var m := if nc < nr - 1 then nc else nr - 1;
    PairsClosed(nr, m);
    assert m > 0 ==> PairsUpTo(nr, m) >= nr - m > 0;
  }

  method AngleCounts(nr: nat, nc: nat) returns (nphi: nat, npsi: nat)
    requires nr >= 1
    ensures nphi == npsi == Pairs(nr, nc)
  {
    nphi, npsi := 0, 0;
    var lim := if nc < nr - 1 then nc else nr - 1;
    for i := 1 to lim + 1
      invariant nphi == npsi == PairsUpTo(nr, i - 1)
    {
      for r := i to nr
        invariant nphi == PairsUpTo(nr, i - 1) + (r - i)
      {
        nphi := nphi + 1;
      }
      for r := i to nr
        invariant npsi == PairsUpTo(nr, i - 1) + (r - i)
      {
        npsi := npsi + 1;
      }
    }
    if nphi == 0 && npsi == 0 {
      nphi, npsi := 1, 1;
    }
  }

  // ----- decoding ------------------------------------------------------------------------------------

  /** n angles of b bits each, or n rows of b bits each. */
  function Span(n: nat, b: nat): nat { n * b }

  lemma NextFits(p: nat, n: nat, b: nat)
    requires p < n
    ensures Span(p, b) + b == Span(p + 1, b) <= Span(n, b)
  {
    MulMono(p + 1, n, b);
  }

  function RowSpan(n: nat, bphi: nat, bpsi: nat): nat {
    Span(n, bphi) + Span(n, bpsi)
  }

  function BitsPer(h: ReportHdr, bphi: nat, bpsi: nat): nat {
    RowSpan(Pairs(h.nr, h.nc), bphi, bpsi)
  }

  /** Every subcarrier's bits are there. */
  predicate LongEnough(h: ReportHdr, bphi: nat, bpsi: nat) {
    Span(h.ns, BitsPer(h, bphi, bpsi)) <= 8 * |h.angles|
  }

  function FirstPhi(h: ReportHdr, bphi: nat, bpsi: nat, k: nat): real {
    DequantPhi(Field(h.angles, Span(k, BitsPer(h, bphi, bpsi)), bphi), bphi)
  }

  function FirstPsi(h: ReportHdr, bphi: nat, bpsi: nat, k: nat): real {
    DequantPsi(Field(h.angles, Span(k, BitsPer(h, bphi, bpsi)) + Span(Pairs(h.nr, h.nc), bphi), bpsi), bpsi)
  }

  /** Read n angles of b bits each; only the first is kept. */
  method ReadRun(br: BitReader, n: nat, b: nat) returns (first: nat)
    requires br.Valid() && n >= 1 && br.pos + Span(n, b) <= 8 * |br.data|
    modifies br
    ensures br.Valid() && br.pos == old(br.pos) + Span(n, b)
    ensures first == Field(br.data, old(br.pos), b)
  {
    first := 0;
    for p := 0 to n
      invariant br.Valid() && br.pos == old(br.pos) + Span(p, b)
      invariant p > 0 ==> first == Field(br.data, old(br.pos), b)
    {
      NextFits(p, n, b);
      var v := br.Read(b);
      if p == 0 {
        first := v;
      }
    }
  }

  /** The first phi and the first psi of every subcarrier, or nothing when the stream is too short. */
  method DecodeAngles(h: ReportHdr, bphi: nat, bpsi: nat) returns (ok: bool, phi: seq<real>, psi: seq<real>)
    requires h.nr >= 1
    ensures ok <==> LongEnough(h, bphi, bpsi)
    ensures ok ==> |phi| == h.ns && |psi| == h.ns
    ensures ok ==> forall k :: 0 <= k < h.ns ==> phi[k] == FirstPhi(h, bphi, bpsi, k)
    ensures ok ==> forall k :: 0 <= k < h.ns ==> psi[k] == FirstPsi(h, bphi, bpsi, k)
  {
    phi, psi := [], [];
    var nphi, npsi := AngleCounts(h.nr, h.nc);
    var per := nphi * bphi + npsi * bpsi;
    if h.ns * per > 8 * |h.angles| {
      return false, [], [];
    }
    var br := new BitReader(h.angles);
    for k := 0 to h.ns
      invariant br.Valid() && br.data == h.angles && br.pos == Span(k, per)
      invariant |phi| == k && |psi| == k
      invariant forall i :: 0 <= i < k ==> phi[i] == FirstPhi(h, bphi, bpsi, i)
      invariant forall i :: 0 <= i < k ==> psi[i] == FirstPsi(h, bphi, bpsi, i)
    {
      NextFits(k, h.ns, per);
      var p := ReadRun(br, nphi, bphi);
      var q := ReadRun(br, npsi, bpsi);
      phi, psi := phi + [DequantPhi(p, bphi)], psi + [DequantPsi(q, bpsi)];
    }
    ok := true;
  }

  // ----- packing -------------------------------------------------------------------------------------

  /** The quantised angles of one subcarrier: all phi, then all psi. */
  datatype Row = Row(phis: seq<nat>, psis: seq<nat>)

  predicate Fits(q: seq<nat>, b: nat) {
    forall i :: 0 <= i < |q| ==> q[i] < Pow2(b)
  }

  predicate ValidRow(r: Row, n: nat, bphi: nat, bpsi: nat) {
    |r.phis| == n && |r.psis| == n && Fits(r.phis, bphi) && Fits(r.psis, bpsi)
  }

  /** Angles of b bits each, one after the other. */
  function RunBits(q: seq<nat>, b: nat): (s: seq<bit>)
    ensures |s| == Span(|q|, b)
    decreases |q|
  {
    if q == [] then []
    else
      NextFits(|q| - 1, |q|, b);
      BitsOf(q[0], b) + RunBits(q[1..], b)
  }

  function RowBits(r: Row, bphi: nat, bpsi: nat): (s: seq<bit>)
    ensures |s| == Span(|r.phis|, bphi) + Span(|r.psis|, bpsi)
  {
    RunBits(r.phis, bphi) + RunBits(r.psis, bpsi)
  }

  /** A whole report's angles as one bit stream. */
  function Stream(rows: seq<Row>, bphi: nat, bpsi: nat): seq<bit>
    decreases |rows|
  {
    if rows == [] then [] else Stream(rows[..|rows| - 1], bphi, bpsi) + RowBits(rows[|rows| - 1], bphi, bpsi)
  }

  ghost predicate ValidRows(rows: seq<Row>, n: nat, bphi: nat, bpsi: nat) {
    forall k :: 0 <= k < |rows| ==> ValidRow(rows[k], n, bphi, bpsi)
  }

  predicate Sits(s: seq<bit>, p: nat, part: seq<bit>) {
    p + |part| <= |s| && s[p..p + |part|] == part
  }

  /** Row k sits at bit k times the bits of a row. */
  lemma {:induction false} RowPlace(rows: seq<Row>, n: nat, bphi: nat, bpsi: nat, k: nat)
    requires ValidRows(rows, n, bphi, bpsi) && k < |rows|
    ensures Sits(Stream(rows, bphi, bpsi), Span(k, RowSpan(n, bphi, bpsi)), RowBits(rows[k], bphi, bpsi))
    decreases |rows|
  {
    hide RowBits, Span;
    var front := rows[..|rows| - 1];
    if k < |rows| - 1 {
      RowPlace(front, n, bphi, bpsi, k);
      SitsInFront(Stream(front, bphi, bpsi), RowBits(rows[|rows| - 1], bphi, bpsi), Span(k, RowSpan(n, bphi, bpsi)),
                  RowBits(rows[k], bphi, bpsi));
    } else {
      StreamLength(front, n, bphi, bpsi);
    }
  }

  lemma SitsInFront(s: seq<bit>, t: seq<bit>, p: nat, part: seq<bit>)
    requires Sits(s, p, part)
    ensures Sits(s + t, p, part)
  {
    assert (s + t)[p..p + |part|] == s[p..p + |part|];
  }

  lemma NoSpan(b: nat)
    ensures Span(0, b) == 0
  {
  }

  lemma {:induction false} StreamLength(rows: seq<Row>, n: nat, bphi: nat, bpsi: nat)
    requires ValidRows(rows, n, bphi, bpsi)
    ensures |Stream(rows, bphi, bpsi)| == Span(|rows|, RowSpan(n, bphi, bpsi))
    decreases |rows|
  {
    hide RowBits, Span;
    NoSpan(RowSpan(n, bphi, bpsi));
    if rows != [] {
      StreamLength(rows[..|rows| - 1], n, bphi, bpsi);
      NextFits(|rows| - 1, |rows|, RowSpan(n, bphi, bpsi));
    }
  }

  lemma FirstOfRun(q: seq<nat>, b: nat)
    requires q != []
    ensures Span(|q|, b) >= b && RunBits(q, b)[..b] == BitsOf(q[0], b)
  {
    MulMono(1, |q|, b);
  }

  /** In a row the first phi comes first and the first psi right behind the last phi. */
  lemma RowStarts(r: Row, n: nat, bphi: nat, bpsi: nat)
    requires n >= 1 && ValidRow(r, n, bphi, bpsi)
    ensures var row := RowBits(r, bphi, bpsi);
      && |row| == RowSpan(n, bphi, bpsi) && bphi <= Span(n, bphi) && bpsi <= Span(n, bpsi)
      && row[0..0 + bphi] == BitsOf(r.phis[0], bphi)
      && row[Span(n, bphi)..Span(n, bphi) + bpsi] == BitsOf(r.psis[0], bpsi)
  {
    hide BitsOf, RunBits;
    FirstOfRun(r.phis, bphi);
    FirstOfRun(r.psis, bpsi);
    var row := RowBits(r, bphi, bpsi);
    assert row[0..0 + bphi] == RunBits(r.phis, bphi)[..bphi];
    assert row[Span(n, bphi)..Span(n, bphi) + bpsi] == RunBits(r.psis, bpsi)[..bpsi];
  }

  /** The field of n bits that reads back as v, wherever its bits sit in a packed stream. */
  lemma PackedPart(s: seq<bit>, p: nat, row: seq<bit>, a: nat, v: nat, n: nat)
    requires Sits(s, p, row) && a + n <= |row| && row[a..a + n] == BitsOf(v, n) && v < Pow2(n)
    ensures Field(Pack(s), p + a, n) == v
  {
    hide Pack, Field, BitsOf, Pow2;
    SliceOfSlice(s, p, row, a, n);
    PackedField(s, p + a, v, n);
  }

  /** The bits a decoder looks at for row k of a packed stream. */
  ghost predicate ReadsBack(d: seq<byte>, p: nat, phiBits: nat, r: Row, bphi: nat, bpsi: nat) {
    && r.phis != [] && r.psis != []
    && Field(d, p, bphi) == r.phis[0] && Field(d, p + phiBits, bpsi) == r.psis[0]
  }

  lemma PackedRow(rows: seq<Row>, n: nat, bphi: nat, bpsi: nat, k: nat)
    requires n >= 1 && ValidRows(rows, n, bphi, bpsi) && k < |rows|
    ensures ReadsBack(Pack(Stream(rows, bphi, bpsi)), Span(k, RowSpan(n, bphi, bpsi)), Span(n, bphi), rows[k],
                      bphi, bpsi)
  {
    hide Pack, Field, BitsOf, RowBits, Stream, Pow2, Sits, Span;
    var s, row := Stream(rows, bphi, bpsi), RowBits(rows[k], bphi, bpsi);
    RowPlace(rows, n, bphi, bpsi, k);
    RowStarts(rows[k], n, bphi, bpsi);
    PackedPart(s, Span(k, RowSpan(n, bphi, bpsi)), row, 0, rows[k].phis[0], bphi);
    PackedPart(s, Span(k, RowSpan(n, bphi, bpsi)), row, Span(n, bphi), rows[k].psis[0], bpsi);
  }

  /** Pack any quantised angles, decode the report that carries them, and the first phi and psi of every
      subcarrier come back dequantised. */
  lemma PackedDecodes(h: ReportHdr, rows: seq<Row>, bphi: nat, bpsi: nat, k: nat)
    requires ValidRows(rows, Pairs(h.nr, h.nc), bphi, bpsi)
    requires h.ns == |rows| && h.angles == Pack(Stream(rows, bphi, bpsi)) && k < h.ns
    ensures LongEnough(h, bphi, bpsi)
    ensures rows[k].phis != [] && FirstPhi(h, bphi, bpsi, k) == DequantPhi(rows[k].phis[0], bphi)
    ensures rows[k].psis != [] && FirstPsi(h, bphi, bpsi, k) == DequantPsi(rows[k].psis[0], bpsi)
  {
    hide Pack, Field, DequantPhi, DequantPsi, Stream, ValidRows;
    PackedRow(rows, Pairs(h.nr, h.nc), bphi, bpsi, k);
    StreamLength(rows, Pairs(h.nr, h.nc), bphi, bpsi);
  }

  lemma SliceOfSlice(s: seq<bit>, p: nat, row: seq<bit>, a: nat, n: nat)
    requires Sits(s, p, row) && a + n <= |row|
    ensures p + a + n <= |s| && s[p + a..p + a + n] == row[a..a + n]
  {
    var x, y := s[p + a..p + a + n], row[a..a + n];
    forall i | 0 <= i < n ensures x[i] == y[i] {
      assert s[p..p + |row|][a + i] == s[p + a + i];
    }
  }

  /** Whenever a frame parses, every split that uses exactly its bits per subcarrier decodes. */
  lemma ParsedDecodes(d: seq<byte>, fcsPresent: bool, bphi: nat, bpsi: nat)
    requires Parsed(d, fcsPresent).Some?
    requires BitsPer(Parsed(d, fcsPresent).value, bphi, bpsi) == Parsed(d, fcsPresent).value.perScBits
    ensures LongEnough(Parsed(d, fcsPresent).value, bphi, bpsi)
  {
    ParsedFits(d, fcsPresent);
  }

  // ----- the standard's order --------------------------------------------------------------------------

  datatype Kind = Phi | Psi

  /** One angle of a subcarrier, by its row and column. */
  datatype Angle = Angle(kind: Kind, row: nat, col: nat)

  /** The phi of round m: rows m to nr - 1 of column m. */
  function RoundPhis(nr: nat, m: nat): (s: seq<Angle>)
    requires 1 <= m < nr
    ensures |s| == nr - m
  {
    seq(nr - m, r requires 0 <= r < nr - m => Angle(Phi, m + r, m))
  }

  /** The psi of round m: rows m + 1 to nr of column m. */
  function RoundPsis(nr: nat, m: nat): (s: seq<Angle>)
    requires 1 <= m < nr
    ensures |s| == nr - m
  {
    seq(nr - m, r requires 0 <= r < nr - m => Angle(Psi, m + 1 + r, m))
  }

  /** The order of the standard: round by round, the phi of a round before its psi. */
  function StandardOrder(nr: nat, m: nat): (s: seq<Angle>)
    requires m < nr || m == 0
    ensures |s| == 2 * PairsUpTo(nr, m)
  {
    if m == 0 then [] else StandardOrder(nr, m - 1) + RoundPhis(nr, m) + RoundPsis(nr, m)
  }

  function AllPhis(nr: nat, m: nat): (s: seq<Angle>)
    requires m < nr || m == 0
    ensures |s| == PairsUpTo(nr, m) && forall i :: 0 <= i < |s| ==> s[i].kind == Phi
  {
    if m == 0 then [] else AllPhis(nr, m - 1) + RoundPhis(nr, m)
  }

  function AllPsis(nr: nat, m: nat): (s: seq<Angle>)
    requires m < nr || m == 0
    ensures |s| == PairsUpTo(nr, m) && forall i :: 0 <= i < |s| ==> s[i].kind == Psi
  {
    if m == 0 then [] else AllPsis(nr, m - 1) + RoundPsis(nr, m)
  }

  /** The decoder's order: every phi before every psi. */
  function DecoderOrder(nr: nat, m: nat): seq<Angle>
    requires m < nr || m == 0
  {
    AllPhis(nr, m) + AllPsis(nr, m)
  }

  /** The standard begins with the whole first round. */
  lemma {:induction false} StandardStarts(nr: nat, m: nat)
    requires 1 <= m < nr
    ensures PairsUpTo(nr, m) >= nr - 1 && (m >= 2 ==> PairsUpTo(nr, m) > nr - 1)
    ensures RoundPhis(nr, 1) + RoundPsis(nr, 1) <= StandardOrder(nr, m)
  {
    if m == 1 {
      assert PairsUpTo(nr, 0) == 0 && StandardOrder(nr, 0) == [];
      assert [] + RoundPhis(nr, 1) == RoundPhis(nr, 1);
    } else {
      StandardStarts(nr, m - 1);
    }
  }

  lemma FirstRound(nr: nat)
    requires nr >= 2
    ensures RoundPhis(nr, 1)[0] == Angle(Phi, 1, 1) && RoundPsis(nr, 1)[0] == Angle(Psi, 2, 1)
    ensures forall i :: 0 <= i < nr - 1 ==> RoundPhis(nr, 1)[i].kind == Phi
  {
  }

  /** The decoder reads the angles, row and column included, in the standard's order exactly for the shapes with a
      single round: one stream, or two antennas. */
  lemma OrderAgreesIff(nr: nat, nc: nat)
    requires nr >= 2 && nc >= 1
    ensures DecoderOrder(nr, Rounds(nr, nc)) == StandardOrder(nr, Rounds(nr, nc)) <==> nc == 1 || nr == 2
  {
    hide RoundPhis, RoundPsis;
    var m := Rounds(nr, nc);
    StandardStarts(nr, m);
    FirstRound(nr);
    if m == 1 {
      assert AllPhis(nr, 0) == [] && AllPsis(nr, 0) == [] && StandardOrder(nr, 0) == [];
      assert [] + RoundPhis(nr, 1) == RoundPhis(nr, 1) && [] + RoundPsis(nr, 1) == RoundPsis(nr, 1);
      assert DecoderOrder(nr, 1) == RoundPhis(nr, 1) + RoundPsis(nr, 1) == StandardOrder(nr, 1);
    } else {
      hide StandardOrder, AllPhis, AllPsis;
      assert StandardOrder(nr, m)[nr - 1] == RoundPsis(nr, 1)[0];
      assert DecoderOrder(nr, m)[nr - 1] == AllPhis(nr, m)[nr - 1];
    }
  }

  function Width(a: Angle, bphi: nat, bpsi: nat): nat { if a.kind == Phi then bphi else bpsi }

  /** The bits in front of angle i. */
  function Offset(order: seq<Angle>, i: nat, bphi: nat, bpsi: nat): nat
    requires i <= |order|
  {
    if i == 0 then 0 else Offset(order, i - 1, bphi, bpsi) + Width(order[i - 1], bphi, bpsi)
  }

  lemma LongerSpan(a: nat, b: nat, w: nat)
    requires a < b && w >= 1
    ensures Span(a, w) < Span(b, w)
  {
    MulMono(a + 1, b, w);
    assert (a + 1) * w == a * w + w;
  }

  lemma {:induction false} OffsetOfPhis(order: seq<Angle>, i: nat, bphi: nat, bpsi: nat)
    requires i <= |order| && forall j :: 0 <= j < i ==> order[j].kind == Phi
    ensures Offset(order, i, bphi, bpsi) == Span(i, bphi)
  {
    if i > 0 {
      OffsetOfPhis(order, i - 1, bphi, bpsi);
      assert i * bphi == (i - 1) * bphi + bphi;
    }
  }

  /** The phi the decoder keeps is always the standard's first, of row and column 1.  The psi it keeps, behind as many
      phi as there are pairs, is the standard's first, of row 2 and column 1, exactly for those shapes. */
  lemma FirstAnglesIff(nr: nat, nc: nat, bphi: nat, bpsi: nat)
    requires nr >= 2 && nc >= 1 && bphi >= 1
    ensures var order := StandardOrder(nr, Rounds(nr, nc));
      && |order| > nr - 1 && order[0] == Angle(Phi, 1, 1) && order[nr - 1] == Angle(Psi, 2, 1)
      && (forall i :: 0 <= i < nr - 1 ==> order[i].kind == Phi)
      && (Offset(order, nr - 1, bphi, bpsi) == Span(Pairs(nr, nc), bphi) <==> nc == 1 || nr == 2)
  {
    hide RoundPhis, RoundPsis, StandardOrder, Span;
    var m := Rounds(nr, nc);
    var order := StandardOrder(nr, m);
    StandardStarts(nr, m);
    FirstRound(nr);
    assert forall i :: 0 <= i < nr - 1 ==> order[i] == RoundPhis(nr, 1)[i];
    assert order[nr - 1] == RoundPsis(nr, 1)[0];
    OffsetOfPhis(order, nr - 1, bphi, bpsi);
    if m == 1 {
      assert PairsUpTo(nr, 1) == PairsUpTo(nr, 0) + (nr - 1);
    } else {
      LongerSpan(nr - 1, Pairs(nr, nc), bphi);
    }
  }
}

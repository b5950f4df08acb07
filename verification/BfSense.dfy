// Choosing the bit split of a batch of reports, and the motion measure over a window of them.
module BfSense {
  import opened Arith
  import opened BfAngles
  import opened BfReport
  import opened Bits
  import opened Bytes
  import opened Wrappers

  // ----- the split ---------------------------------------------------------------------------------

  /** Reports as the parser gives them, of one number of tones; streams and antennas may differ. */
  ghost predicate SameTones(batch: seq<ReportHdr>) {
    forall i :: 0 <= i < |batch| ==> batch[i].ns == batch[0].ns > 0 && batch[i].nr > 0
  }

  /** b bits per psi (and b + 2 per phi) use up the budget of the first report and fit in every report. */
  ghost predicate Usable(batch: seq<ReportHdr>, b: nat) {
    && batch != [] && b >= 1 && BitsPer(batch[0], b + 2, b) == batch[0].perScBits
    && forall i :: 0 <= i < |batch| ==> LongEnough(batch[i], b + 2, b)
  }

  /** The budget fixes the split: with N angle pairs it is 2 * N * (b + 1). */
  lemma SplitEquation(h: ReportHdr, b: nat)
    ensures BitsPer(h, b + 2, b) == 2 * Pairs(h.nr, h.nc) * (b + 1)
  {
    var n := Pairs(h.nr, h.nc);
    assert n * (b + 2) + n * b == 2 * n * (b + 1);
  }

  lemma SplitUnique(h: ReportHdr, b1: nat, b2: nat)
    requires BitsPer(h, b1 + 2, b1) == BitsPer(h, b2 + 2, b2)
    ensures b1 == b2
  {
    var n := 2 * Pairs(h.nr, h.nc);
    SplitEquation(h, b1);
    SplitEquation(h, b2);
    if b1 < b2 {
      StrictMul(n, b1 + 1, b2 + 1);
    } else if b2 < b1 {
      StrictMul(n, b2 + 1, b1 + 1);
    }
  }

  lemma StrictMul(n: nat, a: nat, b: nat)
    requires n > 0 && a < b
    ensures n * a < n * b
  {
    MulMono(1, b - a, n);
    assert n * b == n * a + (b - a) * n;
  }

  /** The first report's budget leaves at most one usable split. */
  lemma UsableUnique(batch: seq<ReportHdr>, b1: nat, b2: nat)
    requires Usable(batch, b1) && Usable(batch, b2)
    ensures b1 == b2
  {
    SplitUnique(batch[0], b1, b2);
  }

  lemma UsableInRange(batch: seq<ReportHdr>, b: nat)
    requires Usable(batch, b)
    ensures b <= batch[0].perScBits
  {
    SplitEquation(batch[0], b);
    MulMono(1, 2 * Pairs(batch[0].nr, batch[0].nc), b + 1);
  }

  // ----- the variance that would break ties ------------------------------------------------------------

  const HUGE: real := 1e300

  lemma Quotients(x: real, y: real, c: real)
    requires y > 0.0 && 0.0 <= x <= c * y
    ensures 0.0 <= x / y <= c
  {
    var q := x / y;
    assert q * y == x;
    if q > c {
      PositiveProduct(q - c, y);
    }
    if q < 0.0 {
      PositiveProduct(-q, y);
    }
  }

  lemma PositiveProduct(x: real, y: real)
    requires x > 0.0 && y > 0.0
    ensures x * y > 0.0
  {
  }

  /** A dequantised psi lies between 0 and pi / 2. */
  lemma PsiRange(data: seq<byte>, p: nat, b: nat)
    ensures 0.0 <= DequantPsi(Field(data, p, b), b) <= 2.0
  {
    var q, m := Field(data, p, b), Pow2(b);
    ValueBound(BitsFrom(data, p, b));
    FieldLength(data, p, b);
    PowMono(|BitsFrom(data, p, b)|, b);
    assert Pow2(b + 2) == 2 * Pow2(b + 1) == 4 * m;
    Quotients((2 * q + 1) as real * PI, (4 * m) as real, 2.0);
  }

  lemma {:induction false} FieldLength(data: seq<byte>, p: nat, n: nat)
    ensures |BitsFrom(data, p, n)| <= n
    decreases n
  {
    hide BitAt;
    if n > 0 && p < 8 * |data| {
      FieldLength(data, p + 1, n - 1);
    }
  }

  function Square(x: real): real { x * x }

  lemma Squares(x: real)
    ensures Square(x) == x * x >= 0.0
    ensures 0.0 <= x <= 2.0 ==> Square(x) <= 4.0
  {
    if 0.0 <= x <= 2.0 {
      assert x * x <= 2.0 * x;
    }
  }

  /** The batch's psi at tone k, added up, and their squares. */
  ghost function PsiSum(batch: seq<ReportHdr>, b: nat, k: nat): real
    decreases |batch|
  {
    if batch == [] then 0.0 else PsiSum(batch[..|batch| - 1], b, k) + FirstPsi(batch[|batch| - 1], b + 2, b, k)
  }

  ghost function PsiSquares(batch: seq<ReportHdr>, b: nat, k: nat): real
    decreases |batch|
  {
    if batch == [] then 0.0
    else PsiSquares(batch[..|batch| - 1], b, k) + Square(FirstPsi(batch[|batch| - 1], b + 2, b, k))
  }

  /** Mean of the squares minus square of the mean, across the batch at tone k. */
  ghost function PsiVariance(batch: seq<ReportHdr>, b: nat, k: nat): real
    requires batch != []
  {
    PsiSquares(batch, b, k) / |batch| as real - Square(PsiSum(batch, b, k) / |batch| as real)
  }

  /** Of two reports it is the square of half their difference. */
  lemma PairVariance(batch: seq<ReportHdr>, b: nat, k: nat)
    requires |batch| == 2
    ensures var x, y := FirstPsi(batch[0], b + 2, b, k), FirstPsi(batch[1], b + 2, b, k);
      PsiVariance(batch, b, k) == ((x - y) / 2.0) * ((x - y) / 2.0)
  {
    hide FirstPsi;
    var one := batch[..1];
    assert batch[..|batch| - 1] == one && one[..|one| - 1] == [];
    assert PsiSum(one, b, k) == 0.0 + FirstPsi(batch[0], b + 2, b, k);
    assert PsiSquares(one, b, k) == 0.0 + Square(FirstPsi(batch[0], b + 2, b, k));
    var x, y := FirstPsi(batch[0], b + 2, b, k), FirstPsi(batch[1], b + 2, b, k);
    assert PsiSum(batch, b, k) == x + y && PsiSquares(batch, b, k) == x * x + y * y;
    HalfDifference(x, y);
  }

  lemma HalfDifference(x: real, y: real)
    ensures (x * x + y * y) / 2.0 - ((x + y) / 2.0) * ((x + y) / 2.0) == ((x - y) / 2.0) * ((x - y) / 2.0)
  {
  }

  /** The variances of the first n tones, added up. */
  ghost function TotalPsiVariance(batch: seq<ReportHdr>, b: nat, n: nat): real
    requires batch != []
  {
    if n == 0 then 0.0 else TotalPsiVariance(batch, b, n - 1) + PsiVariance(batch, b, n - 1)
  }

  /** Add one report's psi to the running sums. */
  method Accumulate(psi: seq<real>, sum: array<real>, sumsq: array<real>)
    requires |psi| == sum.Length == sumsq.Length && sum != sumsq
    modifies sum, sumsq
    ensures forall k :: 0 <= k < |psi| ==>
      sum[k] == old(sum[k]) + psi[k] && sumsq[k] == old(sumsq[k]) + Square(psi[k])
  {
    for k := 0 to |psi|
      invariant forall i :: 0 <= i < k ==>
        sum[i] == old(sum[i]) + psi[i] && sumsq[i] == old(sumsq[i]) + Square(psi[i])
      invariant forall i :: k <= i < |psi| ==> sum[i] == old(sum[i]) && sumsq[i] == old(sumsq[i])
    {
      sum[k] := sum[k] + psi[k];
      sumsq[k] := sumsq[k] + psi[k] * psi[k];
    }
  }

  /** Mean over the tones of the cross-report variance of psi; None when a report is too short. */
  method MeanVariance(batch: seq<ReportHdr>, b: nat) returns (r: Option<real>)
    requires batch != [] && SameTones(batch)
    ensures r.Some? <==> forall i :: 0 <= i < |batch| ==> LongEnough(batch[i], b + 2, b)
    ensures r.Some? ==> r.value == TotalPsiVariance(batch, b, batch[0].ns) / batch[0].ns as real < HUGE
  {
    hide LongEnough, FirstPsi, FirstPhi, Square;
    var ns := batch[0].ns;
    var sum, sumsq := new real[ns](_ => 0.0), new real[ns](_ => 0.0);
    for i := 0 to |batch|
      invariant forall j :: 0 <= j < i ==> LongEnough(batch[j], b + 2, b)
      invariant forall k :: 0 <= k < ns ==>
        sum[k] == PsiSum(batch[..i], b, k) && sumsq[k] == PsiSquares(batch[..i], b, k)
    {
      var ok, phi, psi := DecodeAngles(batch[i], b + 2, b);
      if !ok {
        return None;
      }
      Accumulate(psi, sum, sumsq);
      assert batch[..i + 1][..i] == batch[..i] && batch[..i + 1][i] == batch[i];
    }
    assert batch[..|batch|] == batch;
    var total := 0.0;
    for k := 0 to ns
      invariant total == TotalPsiVariance(batch, b, k)
      invariant forall j :: 0 <= j < ns ==> sum[j] == PsiSum(batch, b, j) && sumsq[j] == PsiSquares(batch, b, j)
    {
      var m := sum[k] / |batch| as real;
      Squares(m);
      total := total + (sumsq[k] / |batch| as real - m * m);
    }
    VarianceSmall(batch, b, ns);
    Shrinks(total, ns as real);
    r := Some(total / ns as real);
  }

  lemma {:induction false} SquaresSmall(batch: seq<ReportHdr>, b: nat, k: nat)
    ensures 0.0 <= PsiSquares(batch, b, k) <= 4.0 * |batch| as real
    decreases |batch|
  {
    hide FirstPsi, Square;
    if batch != [] {
      var last := batch[|batch| - 1];
      SquaresSmall(batch[..|batch| - 1], b, k);
      FirstPsiRange(last, b + 2, b, k);
      Squares(FirstPsi(last, b + 2, b, k));
    }
  }

  lemma {:induction false} VarianceSmall(batch: seq<ReportHdr>, b: nat, n: nat)
    requires batch != []
    ensures TotalPsiVariance(batch, b, n) <= 4.0 * n as real
  {
    hide PsiSquares, PsiSum, Square;
    if n > 0 {
      VarianceSmall(batch, b, n - 1);
      SquaresSmall(batch, b, n - 1);
      Quotients(PsiSquares(batch, b, n - 1), |batch| as real, 4.0);
      Squares(PsiSum(batch, b, n - 1) / |batch| as real);
    }
  }

  lemma FirstPsiRange(h: ReportHdr, bphi: nat, bpsi: nat, k: nat)
    ensures 0.0 <= FirstPsi(h, bphi, bpsi, k) <= 2.0
  {
    PsiRange(h.angles, Span(k, BitsPer(h, bphi, bpsi)) + Span(Pairs(h.nr, h.nc), bphi), bpsi);
  }

  lemma Shrinks(x: real, n: real)
    requires n > 0.0 && x <= 4.0 * n
    ensures x / n <= 4.0
  {
    var q := x / n;
    assert q * n == x;
    if q > 4.0 {
      PositiveProduct(q - 4.0, n);
    }
  }

  /** A split is found exactly when a usable one exists, and then it is the only one: the variance never
      decides. */
  method PickSplit(batch: seq<ReportHdr>) returns (r: Option<(nat, nat)>)
    requires SameTones(batch)
    ensures r.Some? <==> exists b :: Usable(batch, b)
    ensures r.Some? ==> Usable(batch, r.value.1) && r.value.0 == r.value.1 + 2
  {
    r := None;
    if batch == [] {
      return;
    }
    var per := batch[0].perScBits;
    var nphi, npsi := AngleCounts(batch[0].nr, batch[0].nc);
    var bestVar := HUGE;
    for bpsi := 1 to per + 1
      invariant r.None? ==> bestVar == HUGE && forall b: nat :: b < bpsi ==> !Usable(batch, b)
      invariant r.Some? ==> Usable(batch, r.value.1) && r.value.0 == r.value.1 + 2 && r.value.1 < bpsi
    {
      var bphi := bpsi + 2;
      if nphi * bphi + npsi * bpsi != per {
        continue;
      }
      var v := MeanVariance(batch, bpsi);
      if v.None? {
        continue;
      }
      assert Usable(batch, bpsi);
      if v.value < bestVar {
        bestVar := v.value;
        r := Some((bphi, bpsi));
      }
    }
    if b :| Usable(batch, b) {
      UsableInRange(batch, b);
    }
  }

  // ----- motion ---------------------------------------------------------------------------------------

  /** Cosine, sine and square root, of which only the laws below are used. */
  datatype Trig = Trig(cos: real -> real, sin: real -> real, sqrt: real -> real)

  ghost predicate Lawful(t: Trig) {
    && (forall x: real :: t.cos(x) * t.cos(x) + t.sin(x) * t.sin(x) == 1.0)
    && (forall x: real :: x >= 0.0 ==> t.sqrt(x) >= 0.0 && t.sqrt(x) * t.sqrt(x) == x)
  }

  /** Adding a unit vector lengthens a vector by at most one. */
  lemma UnitStep(a: real, b: real, c: real, s: real, n: real)
    requires n >= 0.0 && a * a + b * b <= n * n && c * c + s * s == 1.0
    ensures (a + c) * (a + c) + (b + s) * (b + s) <= (n + 1.0) * (n + 1.0)
  {
    var dot, cross := a * c + b * s, a * s - b * c;
    Lagrange(a, b, c, s);
    Squares(cross);
    assert (a * a + b * b) * (c * c + s * s) == (a * a + b * b);
    assert dot * dot <= n * n;
    RootMonotone(dot, n);
    Expand(a, b, c, s);
    assert (n + 1.0) * (n + 1.0) == n * n + 2.0 * n + 1.0;
  }

  lemma Lagrange(a: real, b: real, c: real, s: real)
    ensures (a * a + b * b) * (c * c + s * s) == (a * c + b * s) * (a * c + b * s) + (a * s - b * c) * (a * s - b * c)
  {
    var p, q, r, t := a * c, b * s, a * s, b * c;
    assert (p + q) * (p + q) == p * p + 2.0 * (p * q) + q * q;
    assert (r - t) * (r - t) == r * r - 2.0 * (r * t) + t * t;
    assert p * q == r * t;
    assert p * p == (a * a) * (c * c) && q * q == (b * b) * (s * s);
    assert r * r == (a * a) * (s * s) && t * t == (b * b) * (c * c);
  }

  lemma Expand(a: real, b: real, c: real, s: real)
    ensures (a + c) * (a + c) + (b + s) * (b + s) == (a * a + b * b) + 2.0 * (a * c + b * s) + (c * c + s * s)
  {
  }

  lemma RootMonotone(x: real, y: real)
    requires y >= 0.0 && x * x <= y * y
    ensures x <= y
  {
    if x > y {
      StrictSquare(y, x);
    }
  }

  lemma StrictSquare(y: real, x: real)
    requires 0.0 <= y < x
    ensures y * y < x * x
  {
    PositiveProduct(x - y, x + y);
    assert (x - y) * (x + y) == x * x - y * y;
  }

  predicate ArePhisOf(h: ReportHdr, bphi: nat, bpsi: nat, phi: seq<real>) {
    |phi| == h.ns && forall k :: 0 <= k < h.ns ==> phi[k] == FirstPhi(h, bphi, bpsi, k)
  }

  /** The last n of s, or all of it. */
  function LastOf<T>(s: seq<T>, n: nat): seq<T> {
    if |s| <= n then s else s[|s| - n..]
  }

  class MotionMeter {
    const ns: nat
    const bphi: nat
    const bpsi: nat
    const window: nat
    const trig: Trig
    var buf: seq<seq<real>>
    /** Every report accepted so far, oldest first. */
    ghost var accepted: seq<seq<real>>

    /** The window holds exactly the last accepted reports, in order. */
    ghost predicate Valid()
      reads this
    {
      && Lawful(trig) && buf == LastOf(accepted, window)
      && forall i :: 0 <= i < |accepted| ==> |accepted[i]| == ns
    }

    constructor (ns: nat, bphi: nat, bpsi: nat, window: nat, trig: Trig)
      requires Lawful(trig)
      ensures Valid() && accepted == [] && this.window == window && this.ns == ns
      ensures this.bphi == bphi && this.bpsi == bpsi
    {
      this.ns, this.bphi, this.bpsi, this.window, this.trig := ns, bphi, bpsi, window, trig;
      buf, accepted := [], [];
    }

    /** Drop reports from the front until the window fits. */
    method Trim(w0: seq<seq<real>>, ghost all: seq<seq<real>>) returns (w: seq<seq<real>>)
      requires |w0| <= |all| && w0 == all[|all| - |w0|..] && (|w0| >= window || |w0| == |all|)
      ensures w == LastOf(all, window)
    {
      w := w0;
      while |w| > window
        invariant |w| <= |all| && w == all[|all| - |w|..]
        invariant |w| >= window || |w| == |all|
        decreases |w|
      {
        w := w[1..];
      }
    }

    /** A report of another geometry, or one too short, is refused and changes nothing. */
    method Push(h: ReportHdr) returns (ok: bool)
      requires Valid() && h.nr >= 1
      modifies this
      ensures Valid()
      ensures ok <==> h.ns == ns && LongEnough(h, bphi, bpsi)
      ensures !ok ==> accepted == old(accepted) && buf == old(buf)
      ensures ok ==> |accepted| == |old(accepted)| + 1 && accepted[..|old(accepted)|] == old(accepted)
      ensures ok ==> ArePhisOf(h, bphi, bpsi, accepted[|old(accepted)|])
      ensures |buf| == if |accepted| < window then |accepted| else window
      ensures buf == accepted[|accepted| - |buf|..]
    {
      hide LongEnough, FirstPhi, FirstPsi, Lawful;
      if h.ns != ns {
        return false;
      }
      var phi, psi;
      ok, phi, psi := DecodeAngles(h, bphi, bpsi);
      if !ok {
        return false;
      }
      var w := Trim(buf + [phi], accepted + [phi]);
      buf, accepted := w, accepted + [phi];
    }

    /** The length of a mean of unit vectors is between 0 and 1, so the circular variance is too. */
    method PerToneVar() returns (v: seq<real>)
      requires Valid()
      ensures |v| == ns && forall k :: 0 <= k < ns ==> 0.0 <= v[k] <= 1.0
      ensures |buf| < 2 ==> forall k :: 0 <= k < ns ==> v[k] == 0.0
      ensures |buf| >= 2 ==> forall k :: 0 <= k < ns ==> v[k] == CircularVariance(trig, buf, k)
    {
      hide Lawful, VectorSum, CircularVariance;
      v := seq(ns, _ => 0.0);
      if |buf| < 2 {
        return;
      }
      for k := 0 to ns
        invariant |v| == ns && forall i :: 0 <= i < k ==> v[i] == CircularVariance(trig, buf, i) && 0.0 <= v[i] <= 1.0
      {
        var x := ToneVar(k);
        VarianceBounded(trig, buf, k);
        v := v[k := x];
      }
    }

    method ToneVar(k: nat) returns (x: real)
      requires Valid() && k < ns && |buf| >= 2
      ensures x == CircularVariance(trig, buf, k)
    {
      hide Lawful;
      var cr, ci := 0.0, 0.0;
      for i := 0 to |buf|
        invariant (cr, ci) == VectorSum(trig, buf[..i], k)
      {
        assert buf[..i + 1][..i] == buf[..i];
        cr := cr + trig.cos(buf[i][k]);
        ci := ci + trig.sin(buf[i][k]);
      }
      assert buf[..|buf|] == buf;
      x := 1.0 - trig.sqrt(SquaredLength((cr, ci))) / |buf| as real;
    }

    /** The mean of the tones' variances, in [0, 1] as well. */
    method MotionEnergy() returns (e: real)
      requires Valid()
      ensures 0.0 <= e <= 1.0
      ensures |buf| < 2 || ns == 0 ==> e == 0.0
      ensures |buf| >= 2 && ns > 0 ==> e == TotalVariance(trig, buf, ns) / ns as real
    {
      hide Lawful, CircularVariance;
      var v := PerToneVar();
      if |v| == 0 {
        return 0.0;
      }
      var s := 0.0;
      for i := 0 to |v|
        invariant 0.0 <= s <= i as real
        invariant if |buf| < 2 then s == 0.0 else s == TotalVariance(trig, buf, i)
      {
        s := s + v[i];
      }
      Quotients(s, |v| as real, 1.0);
      e := s / |v| as real;
    }
  }

  /** The circular variances of the first n tones, added up. */
  ghost function TotalVariance(t: Trig, w: seq<seq<real>>, n: nat): real
    requires w != [] && forall i :: 0 <= i < |w| ==> n <= |w[i]|
  {
    if n == 0 then 0.0 else TotalVariance(t, w, n - 1) + CircularVariance(t, w, n - 1)
  }

  function SquaredLength(v: (real, real)): (r: real)
    ensures r >= 0.0
  {
    Squares(v.0);
    Squares(v.1);
    v.0 * v.0 + v.1 * v.1
  }

  /** The sum over the window of the unit vectors at tone k's angles. */
  ghost function VectorSum(t: Trig, w: seq<seq<real>>, k: nat): (real, real)
    requires forall i :: 0 <= i < |w| ==> k < |w[i]|
    decreases |w|
  {
    if w == [] then (0.0, 0.0)
    else
      var (c, s) := VectorSum(t, w[..|w| - 1], k);
      (c + t.cos(w[|w| - 1][k]), s + t.sin(w[|w| - 1][k]))
  }

  lemma OnUnitCircle(t: Trig, x: real)
    requires Lawful(t)
    ensures t.cos(x) * t.cos(x) + t.sin(x) * t.sin(x) == 1.0
  {
  }

  lemma {:induction false} VectorSumBounded(t: Trig, w: seq<seq<real>>, k: nat)
    requires Lawful(t) && forall i :: 0 <= i < |w| ==> k < |w[i]|
    ensures SquaredLength(VectorSum(t, w, k)) <= |w| as real * |w| as real
    decreases |w|
  {
    hide Lawful;
    if w != [] {
      var front, x := w[..|w| - 1], w[|w| - 1][k];
      VectorSumBounded(t, front, k);
      var (c, s) := VectorSum(t, front, k);
      OnUnitCircle(t, x);
      assert |w| as real == |front| as real + 1.0;
      UnitStep(c, s, t.cos(x), t.sin(x), |front| as real);
    }
  }

  /** One minus the length of the mean unit vector. */
  ghost function CircularVariance(t: Trig, w: seq<seq<real>>, k: nat): real
    requires w != [] && forall i :: 0 <= i < |w| ==> k < |w[i]|
  {
    1.0 - t.sqrt(SquaredLength(VectorSum(t, w, k))) / |w| as real
  }

  lemma VarianceBounded(t: Trig, w: seq<seq<real>>, k: nat)
    requires Lawful(t) && w != [] && forall i :: 0 <= i < |w| ==> k < |w[i]|
    ensures 0.0 <= CircularVariance(t, w, k) <= 1.0
  {
    var square, n := SquaredLength(VectorSum(t, w, k)), |w| as real;
    VectorSumBounded(t, w, k);
    LengthSquared(t, square);
    RootMonotone(t.sqrt(square), n);
    Quotients(t.sqrt(square), n, 1.0);
  }

  lemma {:induction false} EqualAnglesAdd(t: Trig, w: seq<seq<real>>, k: nat, x: real)
    requires forall i :: 0 <= i < |w| ==> k < |w[i]| && w[i][k] == x
    ensures VectorSum(t, w, k).0 == |w| as real * t.cos(x) && VectorSum(t, w, k).1 == |w| as real * t.sin(x)
    decreases |w|
  {
    if w != [] {
      var n := |w| - 1;
      EqualAnglesAdd(t, w[..n], k, x);
      assert w[n][k] == x;
      var v := VectorSum(t, w[..n], k);
      assert VectorSum(t, w, k) == (v.0 + t.cos(x), v.1 + t.sin(x));
      OneMoreOf(n, t.cos(x), v.0);
      OneMoreOf(n, t.sin(x), v.1);
    }
  }

  lemma OneMoreOf(n: nat, c: real, v: real)
    requires v == n as real * c
    ensures v + c == (n + 1) as real * c
  {
  }

  lemma Scaled(n: real, c: real, s: real)
    requires c * c + s * s == 1.0
    ensures SquaredLength((n * c, n * s)) == n * n
  {
    assert (n * c) * (n * c) == n * n * (c * c) && (n * s) * (n * s) == n * n * (s * s);
    assert n * n * (c * c) + n * n * (s * s) == n * n * (c * c + s * s);
  }

  /** A tone that stands still has variance zero. */
  lemma EqualAnglesStill(t: Trig, w: seq<seq<real>>, k: nat, x: real)
    requires Lawful(t) && w != [] && forall i :: 0 <= i < |w| ==> k < |w[i]| && w[i][k] == x
    ensures CircularVariance(t, w, k) == 0.0
  {
    hide Lawful;
    var n, c, s := |w| as real, t.cos(x), t.sin(x);
    EqualAnglesAdd(t, w, k, x);
    OnUnitCircle(t, x);
    Scaled(n, c, s);
    LengthSquared(t, n * n);
    RootMonotone(t.sqrt(n * n), n);
    RootMonotone(n, t.sqrt(n * n));
    assert SquaredLength(VectorSum(t, w, k)) == n * n;
    assert t.sqrt(n * n) == n;
  }

  /** Two opposite angles have variance one. */
  lemma OppositeAnglesMove(t: Trig, w: seq<seq<real>>, k: nat)
    requires Lawful(t) && |w| == 2 && k < |w[0]| && k < |w[1]|
    requires t.cos(w[1][k]) == -t.cos(w[0][k]) && t.sin(w[1][k]) == -t.sin(w[0][k])
    ensures CircularVariance(t, w, k) == 1.0
  {
    hide Lawful;
    var one := w[..1];
    assert w[..|w| - 1] == one && one[..|one| - 1] == [];
    assert VectorSum(t, one, k) == (0.0 + t.cos(w[0][k]), 0.0 + t.sin(w[0][k]));
    assert VectorSum(t, w, k) == (0.0, 0.0);
    LengthSquared(t, 0.0);
    RootMonotone(t.sqrt(0.0), 0.0);
  }

  lemma LengthSquared(t: Trig, x: real)
    requires Lawful(t) && x >= 0.0
    ensures t.sqrt(x) >= 0.0 && t.sqrt(x) * t.sqrt(x) == x
  {
  }
}

// The carrier-frequency-offset tracker, and the proof that its loop settles.
module CfoTracker {
  const ENABLE_KHZ: real := 11.0
  const STOP_KHZ: real := 10.0

  /** The controller's memory between ticks. */
  datatype Control = Control(adjust: bool, invert: bool, stepped: bool, prevMag: real)

  const POWER_ON := Control(false, false, false, 0.0)

  function Abs(x: real): real { if x < 0.0 then -x else x }

  function Clamp(x: int, max: int): int {
    if (if x < 0 then 0 else x) > max then max else if x < 0 then 0 else x
  }

  /** One tick with a measured average: the new memory, and the cap to apply or -1. */
  function Decide(c: Control, avg: real, cap: int, max: int): (Control, int) {
    var mag := Abs(avg);
    var invert := if c.stepped && mag > c.prevMag + 1.0 then !c.invert else c.invert;
    if !c.adjust && mag <= ENABLE_KHZ then (Control(false, invert, false, mag), -1)
    else if c.adjust && mag <= STOP_KHZ then (Control(false, invert, false, mag), -1)
    else
      var dir := if (avg > 0.0) != invert then 1 else -1;
      var next := Clamp(cap + dir, max);
      if next == cap then (Control(true, invert, false, mag), -1) else (Control(true, invert, true, mag), next)
  }

  /** The rule in numbers: on above 11 kHz and off again at 10; a growth of more than 1 kHz behind a step turns the
      direction around; then one code up or down unless that is off the rails. */
  lemma DecideSays(c: Control, avg: real, cap: int, max: int)
    requires 0 <= cap <= max
    ensures var (d, r) := Decide(c, avg, cap, max); var mag := if avg < 0.0 then -avg else avg;
      && d.prevMag == mag && (d.adjust <==> mag > if c.adjust then 10.0 else 11.0)
      && d.invert == (if c.stepped && mag - c.prevMag > 1.0 then !c.invert else c.invert)
      && (d.stepped <==> r != -1)
      && r == if !d.adjust then -1
              else if (avg > 0.0) != d.invert then (if cap < max then cap + 1 else -1)
              else if cap > 0 then cap - 1 else -1
  {
  }

  class CfoTracker {
    var sum: int
    var cnt: nat
    var adjust: bool
    var invert: bool
    var stepped: bool
    var prevMag: real

    function Now(): Control
      reads this
    {
      Control(adjust, invert, stepped, prevMag)
    }

    constructor ()
      ensures Now() == POWER_ON && sum == 0 && cnt == 0
    {
      sum, cnt := 0, 0;
      adjust, invert, stepped, prevMag := false, false, false, 0.0;
    }

    method Add(tail: int)
      requires -128 <= tail < 128
      modifies this
      ensures sum == old(sum) + tail && cnt == old(cnt) + 1 && Now() == old(Now())
    {
      sum := sum + tail;
      cnt := cnt + 1;
    }

    /** Without frames nothing happens; with frames the average decides and a new window begins. */
    method Step(cap: int, max: int) returns (r: int, ghost avg: real)
      modifies this
      ensures cnt == 0
      ensures old(cnt) == 0 ==> r == -1 && Now() == old(Now()) && sum == old(sum)
      ensures old(cnt) > 0 ==> avg == old(sum) as real / old(cnt) as real * 2.5 && sum == 0
      ensures old(cnt) > 0 ==> (Now(), r) == Decide(old(Now()), avg, cap, max)
    {
      avg := 0.0;
      if cnt == 0 {
        return -1, 0.0;
      }
      var avgKhz := sum as real / cnt as real * 2.5;
      avg := avgKhz;
      sum := 0;
      cnt := 0;
      var mag := Abs(avgKhz);
      if stepped && mag > prevMag + 1.0 {
        invert := !invert;
      }
      stepped := false;
      if !adjust {
        if mag > ENABLE_KHZ {
          adjust := true;
        } else {
          prevMag := mag;
          return -1, avg;
        }
      } else if mag <= STOP_KHZ {
        adjust := false;
        prevMag := mag;
        return -1, avg;
      }
      var dir := if avgKhz > 0.0 then 1 else -1;
      if invert {
        dir := -dir;
      }
      var nc := cap + dir;
      if nc < 0 {
        nc := 0;
      }
      if nc > max {
        nc := max;
      }
      prevMag := mag;
      if nc == cap {
        return -1, avg;
      }
      stepped := true;
      r := nc;
    }
  }

  // ----- the closed loop -------------------------------------------------------------------------

  /** A crystal whose offset is linear in the cap code: slope kHz per code, zero at code zero. */
  datatype Plant = Plant(slope: real, zero: real, max: int)

  /** Codes move the offset at all, and the zero lies within the rails. */
  predicate Centred(p: Plant) {
    p.slope != 0.0 && 0.0 <= p.zero <= p.max as real
  }

  function Cfo(p: Plant, cap: int): real { p.slope * (cap as real - p.zero) }

  function Mag(p: Plant, cap: int): real { Abs(Cfo(p, cap)) }

  /** The code nearest to the zero. */
  function Nearest(p: Plant): int { (p.zero + 0.5).Floor }

  /** Some code brings the offset within the stop threshold; then the nearest one does. */
  predicate Restable(p: Plant) {
    Centred(p) && Mag(p, Nearest(p)) <= STOP_KHZ
  }

  datatype Loop = Loop(ctl: Control, cap: int)

  function TickLoop(p: Plant, x: Loop): Loop {
    var (c, r) := Decide(x.ctl, Cfo(p, x.cap), x.cap, p.max);
    Loop(c, if r == -1 then x.cap else r)
  }

  function After(p: Plant, x: Loop, n: nat): Loop {
    if n == 0 then x else TickLoop(p, After(p, x, n - 1))
  }

  /** Polarity flips in the first n ticks. */
  function Flips(p: Plant, x: Loop, n: nat): nat {
    if n == 0 then 0
    else Flips(p, x, n - 1) + if After(p, x, n).ctl.invert != After(p, x, n - 1).ctl.invert then 1 else 0
  }

  predicate InRails(p: Plant, cap: int) { 0 <= cap <= p.max }

  /** The learned polarity is the one that reduces the offset. */
  predicate Right(p: Plant, c: Control) { c.invert == (p.slope > 0.0) }

  function Distance(p: Plant, cap: int): real { Abs(cap as real - p.zero) }

  /** A product of two reals; proofs that only compare products hide its body. */
  function Times(x: real, y: real): real { x * y }

  lemma Positive(x: real, y: real)
    requires x > 0.0 && y > 0.0
    ensures x * y > 0.0
  {
  }

  /** The sign of the offset, and its size as slope times distance. */
  lemma Signs(p: Plant, cap: int)
    requires p.slope != 0.0
    ensures Mag(p, cap) == Times(Abs(p.slope), Distance(p, cap))
    ensures cap as real == p.zero ==> Mag(p, cap) == 0.0
    ensures cap as real != p.zero ==> (Cfo(p, cap) > 0.0 <==> (p.slope > 0.0) == (cap as real > p.zero))
  {
    var d := cap as real - p.zero;
    if d != 0.0 {
      Positive(Abs(p.slope), Abs(d));
    }
    assert p.slope * d == (-p.slope) * (-d);
    assert p.slope * d == -((-p.slope) * d) == -(p.slope * (-d));
  }

  /** The loop has work to do: past the stop threshold while correcting, past the enable threshold otherwise. */
  predicate Active(p: Plant, x: Loop) {
    Mag(p, x.cap) > if x.ctl.adjust then STOP_KHZ else ENABLE_KHZ
  }

  /** The polarity this tick will act on, after a flip if the last step made things worse. */
  function Acting(p: Plant, x: Loop): bool {
    if x.ctl.stepped && Mag(p, x.cap) > x.ctl.prevMag + 1.0 then !x.ctl.invert else x.ctl.invert
  }

  predicate NoFlip(p: Plant, x: Loop) { Acting(p, x) == x.ctl.invert }

  predicate Settled(p: Plant, x: Loop) { !Active(p, x) && NoFlip(p, x) }

  /** Where a tick goes: nowhere when there is nothing to do, else one code towards or away from zero. */
  lemma TickMoves(p: Plant, x: Loop)
    requires p.slope != 0.0 && InRails(p, x.cap)
    ensures var y := TickLoop(p, x);
      var up := (x.cap as real > p.zero) == (Acting(p, x) != (p.slope > 0.0));
      if !Active(p, x) then
        y == Loop(Control(false, Acting(p, x), false, Mag(p, x.cap)), x.cap)
      else
        && y.ctl.adjust && y.ctl.invert == Acting(p, x) && y.ctl.prevMag == Mag(p, x.cap)
        && y.cap == Clamp(if up then x.cap + 1 else x.cap - 1, p.max)
        && y.ctl.stepped == (y.cap != x.cap)
  {
    Signs(p, x.cap);
  }

  /** A settled loop never moves and never changes its mind again. */
  lemma SettledStays(p: Plant, x: Loop)
    requires Centred(p) && InRails(p, x.cap) && Settled(p, x)
    ensures var y := TickLoop(p, x);
      Settled(p, y) && y.cap == x.cap && y.ctl.invert == x.ctl.invert && Mag(p, y.cap) <= ENABLE_KHZ
  {
    TickMoves(p, x);
  }

  lemma Scale(a: real, d: real, e: real)
    requires a >= 0.0 && d <= e
    ensures Times(a, d) <= Times(a, e)
  {
  }

  lemma StrictScale(a: real, d: real, e: real)
    requires a > 0.0 && d < e
    ensures Times(a, d) < Times(a, e)
  {
    Positive(a, e - d);
  }

  /** No code is nearer to the zero than the nearest, which is within half a code and within the rails. */
  lemma NearestIs(p: Plant, cap: int)
    requires Centred(p)
    ensures InRails(p, Nearest(p)) && Distance(p, Nearest(p)) <= 0.5
    ensures Distance(p, Nearest(p)) <= Distance(p, cap) && Mag(p, Nearest(p)) <= Mag(p, cap)
  {
    var n := Nearest(p);
    assert n as real <= p.zero + 0.5 < n as real + 1.0;
    assert cap < n ==> cap as real <= n as real - 1.0;
    assert cap > n ==> cap as real >= n as real + 1.0;
    assert Distance(p, n) <= Distance(p, cap);
    hide Mag, Distance, Times;
    Signs(p, n);
    Signs(p, cap);
    Scale(Abs(p.slope), Distance(p, n), Distance(p, cap));
  }

  /** At no more than 20 kHz per code the nearest code is always good enough. */
  lemma GentleSlopeRests(p: Plant)
    requires Centred(p) && Abs(p.slope) <= 20.0
    ensures Restable(p)
  {
    NearestIs(p, 0);
    Signs(p, Nearest(p));
    Scale(Abs(p.slope), Distance(p, Nearest(p)), 0.5);
  }

  /** Codes with a larger offset are farther away. */
  lemma Farther(p: Plant, near: int, far: int)
    requires p.slope != 0.0 && Mag(p, near) < Mag(p, far)
    ensures Distance(p, near) < Distance(p, far)
  {
    hide Mag, Distance, Cfo, Times;
    Signs(p, near);
    Signs(p, far);
    if Distance(p, far) <= Distance(p, near) {
      Scale(Abs(p.slope), Distance(p, far), Distance(p, near));
    }
  }

  /** A code nearer to zero has the smaller offset. */
  lemma NearerIsSmaller(p: Plant, near: int, far: int)
    requires p.slope != 0.0 && Distance(p, near) < Distance(p, far)
    ensures Mag(p, near) < Mag(p, far)
  {
    hide Mag, Distance, Cfo, Times;
    Signs(p, near);
    Signs(p, far);
    StrictScale(Abs(p.slope), Distance(p, near), Distance(p, far));
  }

  /** Within one code of the zero but not the nearest: the nearest is one step across it. */
  lemma AcrossZero(p: Plant, cap: int)
    requires Centred(p) && Distance(p, Nearest(p)) < Distance(p, cap) < 1.0
    ensures Nearest(p) == if cap as real > p.zero then cap - 1 else cap + 1
  {
    NearestIs(p, cap);
    var n := Nearest(p);
    if cap as real > p.zero {
      assert (cap - 1) as real < p.zero;
      assert n <= cap - 1 ==> n as real <= (cap - 1) as real;
      assert n >= cap ==> n as real >= cap as real;
      NearestIs(p, cap - 1);
    } else {
      assert n >= cap + 1 ==> n as real >= (cap + 1) as real;
      assert n <= cap ==> n as real <= cap as real;
      NearestIs(p, cap + 1);
    }
  }

  /** Acting on the right polarity, an active loop steps one code closer and the offset shrinks. */
  lemma StepsCloser(p: Plant, x: Loop)
    requires Restable(p) && InRails(p, x.cap) && Active(p, x) && Acting(p, x) == (p.slope > 0.0)
    ensures var y := TickLoop(p, x);
      && InRails(p, y.cap) && Right(p, y.ctl) && NoFlip(p, y)
      && y.cap == (if x.cap as real > p.zero then x.cap - 1 else x.cap + 1)
      && (Distance(p, x.cap) >= 1.0 ==> Distance(p, y.cap) == Distance(p, x.cap) - 1.0)
      && (Distance(p, x.cap) < 1.0 ==> Settled(p, y))
  {
    hide Mag, Cfo, Decide, TickLoop, Nearest;
    NearestIs(p, x.cap);
    Farther(p, Nearest(p), x.cap);
    TickMoves(p, x);
    if Distance(p, x.cap) < 1.0 {
      AcrossZero(p, x.cap);
    }
    NearerIsSmaller(p, TickLoop(p, x).cap, x.cap);
  }

  lemma {:induction false} AfterFirst(p: Plant, x: Loop, n: nat)
    ensures After(p, x, n + 1) == After(p, TickLoop(p, x), n)
  {
    if n > 0 {
      AfterFirst(p, x, n - 1);
    }
  }

  lemma {:induction false} FlipsFirst(p: Plant, x: Loop, n: nat)
    ensures Flips(p, x, n + 1) ==
      (if TickLoop(p, x).ctl.invert != x.ctl.invert then 1 else 0) + Flips(p, TickLoop(p, x), n)
  {
    hide TickLoop;
    AfterFirst(p, x, n);
    if n > 0 {
      FlipsFirst(p, x, n - 1);
      AfterFirst(p, x, n - 1);
    } else {
      assert After(p, x, 1) == TickLoop(p, x);
      assert Flips(p, x, 0) == 0;
    }
  }

  lemma {:induction false} SettledForever(p: Plant, x: Loop, n: nat)
    requires Centred(p) && InRails(p, x.cap) && Settled(p, x)
    ensures var y := After(p, x, n);
      y.cap == x.cap && Settled(p, y) && y.ctl.invert == x.ctl.invert && Flips(p, x, n) == 0
  {
    if n > 0 {
      SettledForever(p, x, n - 1);
      SettledStays(p, After(p, x, n - 1));
    }
  }

  /** From the right polarity the loop settles within k + 1 ticks when less than k + 1 codes away, flipping nothing. */
  lemma {:induction false} Chase(p: Plant, x: Loop, k: nat) returns (n: nat)
    requires Restable(p) && InRails(p, x.cap) && Right(p, x.ctl) && NoFlip(p, x)
    requires Distance(p, x.cap) < k as real + 1.0
    ensures n <= k + 1 && Settled(p, After(p, x, n)) && InRails(p, After(p, x, n).cap) && Flips(p, x, n) == 0
    decreases k
  {
    n := 0;
    if Active(p, x) {
      var y := TickLoop(p, x);
      StepsCloser(p, x);
      n := 1;
      assert After(p, x, 0) == x && After(p, x, 1) == y && Flips(p, x, 0) == 0;
      if Active(p, y) {
        var m := Chase(p, y, k - 1);
        AfterFirst(p, x, m);
        FlipsFirst(p, x, m);
        n := m + 1;
      }
    }
  }

  /** The next tick will act on the polarity that reduces the offset. */
  predicate ActsRight(p: Plant, x: Loop) { Acting(p, x) == (p.slope > 0.0) }

  /** About to act on the wrong polarity at the very rail it pushes into. */
  predicate Stuck(p: Plant, x: Loop) {
    && Active(p, x) && !ActsRight(p, x)
    && x.cap == (if x.cap as real > p.zero then p.max else 0)
  }

  /** The flip the next tick makes. */
  function FlipNow(p: Plant, x: Loop): nat { if NoFlip(p, x) then 0 else 1 }

  lemma OneAway(a: real, d: real)
    ensures Times(a, d + 1.0) == Times(a, d) + a
  {
  }

  /** Acting on the wrong polarity away from the rail: one step off, one flip, one step back. */
  lemma LearnsPolarity(p: Plant, x: Loop)
    requires Restable(p) && Abs(p.slope) > 1.0
    requires InRails(p, x.cap) && Active(p, x) && !ActsRight(p, x) && !Stuck(p, x)
    ensures var z := After(p, x, 2);
      z.cap == x.cap && Right(p, z.ctl) && NoFlip(p, z) && Flips(p, x, 2) == FlipNow(p, x) + 1
  {
    var y := TickLoop(p, x);
    var a, d := Abs(p.slope), Distance(p, x.cap);
    TickMoves(p, x);
    Signs(p, x.cap);
    Signs(p, y.cap);
    assert Distance(p, y.cap) == d + 1.0;
    OneAway(a, d);
    assert Mag(p, y.cap) > y.ctl.prevMag + 1.0;
    StepsCloser(p, y);
    assert After(p, x, 0) == x && After(p, x, 1) == y && After(p, x, 2) == TickLoop(p, y);
    assert Flips(p, x, 0) == 0 && Flips(p, x, 1) == FlipNow(p, x);
  }

  /** From n on: no step, offset within the enable threshold; over the whole run at most one flip. */
  ghost predicate SettledFrom(p: Plant, x: Loop, n: nat) {
    forall m: nat :: n <= m ==>
      After(p, x, m).cap == After(p, x, n).cap && Mag(p, After(p, x, m).cap) <= ENABLE_KHZ && !Active(p, After(p, x, m))
  }

  lemma SettledAt(p: Plant, x: Loop, n: nat)
    requires Centred(p) && InRails(p, After(p, x, n).cap) && Settled(p, After(p, x, n))
    ensures SettledFrom(p, x, n)
    ensures forall m: nat :: Flips(p, x, m) <= Flips(p, x, n)
  {
    hide TickLoop, Mag, Acting, After, Flips;
    forall m: nat | n <= m
      ensures After(p, x, m).cap == After(p, x, n).cap && Settled(p, After(p, x, m))
      ensures Flips(p, x, m) == Flips(p, x, n)
    {
      Continue(p, x, n, m - n);
      SettledForever(p, After(p, x, n), m - n);
    }
    forall m: nat | m < n ensures Flips(p, x, m) <= Flips(p, x, n) {
      FlipsGrow(p, x, m, n);
    }
    forall m: nat | n <= m ensures Mag(p, After(p, x, m).cap) <= ENABLE_KHZ {
      assert Settled(p, After(p, x, m));
    }
  }

  lemma {:induction false} Continue(p: Plant, x: Loop, n: nat, k: nat)
    ensures After(p, x, n + k) == After(p, After(p, x, n), k)
    ensures Flips(p, x, n + k) == Flips(p, x, n) + Flips(p, After(p, x, n), k)
  {
    hide TickLoop;
    if k > 0 {
      Continue(p, x, n, k - 1);
    }
  }

  lemma FlipsGrow(p: Plant, x: Loop, m: nat, n: nat)
    requires m <= n
    ensures Flips(p, x, m) <= Flips(p, x, n)
  {
    Continue(p, x, m, n - m);
  }

  /** Where the loop can settle from, whatever its memory: it has nothing to do, or the plant has a resting place, the
      polarity acted on is right or can be learned, and the loop is not stuck. */
  predicate CanSettle(p: Plant, x: Loop) {
    !Active(p, x) || (Restable(p) && (ActsRight(p, x) || Abs(p.slope) > 1.0) && !Stuck(p, x))
  }

  /** From there the loop settles within its starting distance, in whole codes, plus three ticks. Besides a flip its
      memory may have pending, it flips at most once, and only to learn a polarity that was wrong. */
  lemma Settles(p: Plant, x: Loop) returns (n: nat)
    requires Centred(p) && InRails(p, x.cap) && CanSettle(p, x)
    ensures n <= Distance(p, x.cap).Floor + 3 && SettledFrom(p, x, n)
    ensures forall m: nat :: Flips(p, x, m) <= FlipNow(p, x) + if Active(p, x) && !ActsRight(p, x) then 1 else 0
  {
    hide TickLoop, Mag, SettledFrom, Acting;
    var k: nat := Distance(p, x.cap).Floor;
    if !Active(p, x) {
      n := 1;
      RestsAtOnce(p, x);
      SettledAt(p, x, 1);
    } else if ActsRight(p, x) {
      n := FirstStep(p, x, k);
      SettledAt(p, x, n);
    } else {
      LearnsPolarity(p, x);
      var z := After(p, x, 2);
      var m := Chase(p, z, k);
      Continue(p, x, 2, m);
      n := m + 2;
      SettledAt(p, x, n);
    }
  }

  /** With nothing to do the loop forgets its last step in one tick. */
  lemma RestsAtOnce(p: Plant, x: Loop)
    requires Centred(p) && InRails(p, x.cap) && !Active(p, x)
    ensures Settled(p, After(p, x, 1)) && After(p, x, 1).cap == x.cap && Flips(p, x, 1) == FlipNow(p, x)
  {
    TickMoves(p, x);
    assert After(p, x, 0) == x && Flips(p, x, 0) == 0;
  }

  /** Acting on the right polarity: one step, and the chase is on. */
  lemma FirstStep(p: Plant, x: Loop, k: nat) returns (n: nat)
    requires Restable(p) && InRails(p, x.cap) && Active(p, x) && ActsRight(p, x) && Distance(p, x.cap) < k as real + 1.0
    ensures n <= k + 2 && Settled(p, After(p, x, n)) && InRails(p, After(p, x, n).cap)
    ensures Flips(p, x, n) == FlipNow(p, x)
  {
    hide TickLoop, Mag;
    var y := TickLoop(p, x);
    StepsCloser(p, x);
    assert After(p, x, 0) == x && After(p, x, 1) == y;
    var m := 0;
    if Distance(p, x.cap) >= 1.0 {
      m := Chase(p, y, k);
    }
    assert After(p, y, 0) == y && Flips(p, y, 0) == 0;
    AfterFirst(p, x, m);
    FlipsFirst(p, x, m);
    n := m + 1;
    assert y.ctl.invert == Acting(p, x) by { TickMoves(p, x); }
  }

  lemma {:induction false} StuckForever(p: Plant, x: Loop, n: nat)
    requires Centred(p) && InRails(p, x.cap) && Stuck(p, x)
    ensures var y := After(p, x, n); y.cap == x.cap && Stuck(p, y)
  {
    if n > 0 {
      StuckForever(p, x, n - 1);
      TickMoves(p, After(p, x, n - 1));
    }
  }

  /** Without a resting place a loop that has started never stops correcting. */
  lemma {:induction false} RestlessForever(p: Plant, x: Loop, n: nat)
    requires Centred(p) && !Restable(p) && InRails(p, x.cap) && Active(p, x)
    ensures Active(p, After(p, x, n)) && InRails(p, After(p, x, n).cap)
  {
    hide Mag, Cfo, Decide, TickLoop, Nearest, Acting;
    if n > 0 {
      RestlessForever(p, x, n - 1);
      var y := After(p, x, n - 1);
      TickMoves(p, y);
      NearestIs(p, TickLoop(p, y).cap);
    }
  }

  /** A wrong polarity that cannot be learned only leads away. */
  lemma {:induction false} DriftsForever(p: Plant, x: Loop, n: nat)
    requires Centred(p) && Abs(p.slope) <= 1.0 && InRails(p, x.cap) && Active(p, x) && !ActsRight(p, x)
    ensures var y := After(p, x, n); InRails(p, y.cap) && Active(p, y) && !ActsRight(p, y)
  {
    hide Decide, TickLoop, Mag, Cfo;
    if n > 0 {
      DriftsForever(p, x, n - 1);
      var y := After(p, x, n - 1);
      var z := TickLoop(p, y);
      TickMoves(p, y);
      OneCodeChange(p, y.cap, z.cap);
      if z.cap != y.cap {
        Signs(p, y.cap);
        NearerIsSmaller(p, y.cap, z.cap);
      }
    }
  }

  /** For every slope but zero and every memory: the loop settles from exactly those states. */
  lemma SettlesIff(p: Plant, x: Loop)
    requires Centred(p) && InRails(p, x.cap)
    ensures (exists n: nat :: SettledFrom(p, x, n)) <==> CanSettle(p, x)
  {
    hide TickLoop, Mag, Nearest, After;
    if CanSettle(p, x) {
      var n := Settles(p, x);
    } else {
      forall n: nat ensures !SettledFrom(p, x, n) {
        if Stuck(p, x) {
          StuckForever(p, x, n);
        } else if !Restable(p) {
          RestlessForever(p, x, n);
        } else {
          DriftsForever(p, x, n);
        }
      }
    }
  }

  /** Between 1 and 20 kHz per code that leaves only the stuck states. */
  lemma SettlesIffNotStuck(p: Plant, x: Loop)
    requires Centred(p) && 1.0 < Abs(p.slope) <= 20.0 && InRails(p, x.cap)
    ensures (exists n: nat :: SettledFrom(p, x, n)) <==> !Stuck(p, x)
  {
    hide SettledFrom;
    GentleSlopeRests(p);
    SettlesIff(p, x);
  }

  /** A right polarity is lost when the offset jumps behind a step's back, as a retune can make it. */
  lemma JumpLosesPolarity()
    ensures var p, x := Plant(10.0, 20.0, 100), Loop(Control(true, true, true, 12.0), 30);
      Right(p, x.ctl) && Active(p, x) && !ActsRight(p, x) && !Right(p, TickLoop(p, x).ctl)
  {
  }

  /** A slope of at most one kHz per code never raises the offset by more than the tolerance, so a wrong
      polarity is never noticed, however long the loop runs. */
  lemma {:induction false} ShallowSlopeNeverLearns(p: Plant, x: Loop, n: nat)
    requires 0.0 < Abs(p.slope) <= 1.0 && InRails(p, x.cap) && NoFlip(p, x)
    ensures var y := After(p, x, n);
      y.ctl.invert == x.ctl.invert && NoFlip(p, y) && InRails(p, y.cap) && Flips(p, x, n) == 0
  {
    hide Decide, TickLoop, Mag, Cfo;
    if n > 0 {
      ShallowSlopeNeverLearns(p, x, n - 1);
      var y := After(p, x, n - 1);
      var z := TickLoop(p, y);
      TickMoves(p, y);
      OneCodeChange(p, y.cap, z.cap);
    }
  }

  lemma OneCodeChange(p: Plant, from: int, to: int)
    requires p.slope != 0.0 && -1 <= to - from <= 1
    ensures Mag(p, to) <= Mag(p, from) + Abs(p.slope)
  {
    Nearby(p, from, to);
    hide Mag, Cfo, Distance, Times;
    OneMore(Abs(p.slope), Distance(p, from), Distance(p, to));
    Signs(p, from);
    Signs(p, to);
  }

  lemma Nearby(p: Plant, from: int, to: int)
    requires -1 <= to - from <= 1
    ensures Distance(p, to) <= Distance(p, from) + 1.0
  {
  }

  lemma OneMore(a: real, d: real, e: real)
    requires a >= 0.0 && e <= d + 1.0
    ensures Times(a, e) <= Times(a, d) + a
  {
    Scale(a, e, d + 1.0);
    assert a * (d + 1.0) == a * d + a;
  }
}

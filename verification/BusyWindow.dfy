// The CLM measurement window: when a busy-airtime reading may be believed.
module BusyWindow {
  import opened Arith
  import opened Bytes

  const TICK_US: nat := 4
  const MAX_PERIOD: nat := 60000
  const MIN_PERIOD: nat := 250

  datatype Spoil = Unspoiled | Interrupted | Retuned | NotElapsed
  datatype Source = NoSource | ClmSource

  datatype ChannelBusy = ChannelBusy(
    valid: bool, source: Source, windowUs: U32, validBusy: bool, busyPct: nat,
    ownTxInWindow: bool, ownTxFrames: U32, spoil: Spoil)

  const NO_READING := ChannelBusy(false, NoSource, 0, false, 0, false, 0, Unspoiled)

  /** What one read of the CLM result register shows. */
  datatype ClmRead = ClmRead(ready: bool, ticks: U16)

  /** The state a window object carries. */
  datatype State = State(armed: bool, period: U16, txAtArm: U64, spoil: Spoil, lastSpoil: Spoil)

  const FRESH := State(false, 0, 0, Unspoiled, Unspoiled)

  /** A period only exists once something was armed, and then lies in the hardware's usable range. */
  predicate Sound(c: State) {
    (c.armed ==> MIN_PERIOD <= c.period <= MAX_PERIOD) && c.spoil != NotElapsed
  }

  function PeriodFor(windowUs: U32): (p: U16)
    ensures MIN_PERIOD <= p <= MAX_PERIOD
    ensures 1000 <= windowUs <= 240000 ==> 0 <= windowUs - p * 4 < 4
    ensures windowUs < 1000 ==> p == 250
    ensures windowUs > 240000 ==> p == 60000
  {
    var ticks := windowUs / TICK_US;
    if ticks < MIN_PERIOD then MIN_PERIOD else if ticks > MAX_PERIOD then MAX_PERIOD else ticks
  }

  // ----- one call at a time, as transitions ------------------------------------------------

  function Armed(c: State, windowUs: U32, tx: U64): State {
    if windowUs == 0 then c
    else c.(period := PeriodFor(windowUs), armed := true, spoil := Unspoiled, txAtArm := tx)
  }

  function Noted(c: State, why: Spoil): State {
    if c.armed && c.spoil == Unspoiled then c.(spoil := why) else c
  }

  function Min(a: nat, b: nat): (m: nat)
    ensures m <= a && m <= b && (m == a || m == b)
  {
    if a <= b then a else b
  }

  function Quotient(x: nat, p: nat): nat
    requires p > 0
  {
    x / p
  }

  function Percent(ticks: nat, period: nat): nat
    requires period > 0
  {
    Quotient(Min(ticks, period) * 100 + period / 2, period)
  }

  /** The reading of a window that completed with the given busy ticks. */
  function Reading(c: State, ticks: U16, tx: U64): ChannelBusy
    requires Sound(c) && c.armed
  {
    var sent: nat := if tx > c.txAtArm then tx - c.txAtArm else 0;
    ChannelBusy(true, ClmSource, c.period * TICK_US, true, Percent(ticks, c.period),
                sent > 0, Min(sent, 0xffff_ffff), Unspoiled)
  }

  /** What a read answers, and what it leaves behind. */
  function ReadOut(c: State, hw: ClmRead, tx: U64): (r: (State, ChannelBusy))
    requires Sound(c)
  {
    if !c.armed then (c, NO_READING)
    else if c.spoil != Unspoiled then (c.(armed := false, lastSpoil := c.spoil), NO_READING.(spoil := c.spoil))
    else if !hw.ready then (c.(lastSpoil := NotElapsed), NO_READING.(spoil := NotElapsed))
    else (c.(armed := false, lastSpoil := Unspoiled), Reading(c, hw.ticks, tx))
  }

  // ----- what a reading says -----------------------------------------------------------------

  /** The percentage is 100 * ticks / period to the nearest whole number, never above 100. */
  lemma PercentNearest(ticks: nat, period: nat)
    requires period > 0
    ensures var q := Percent(ticks, period);
      && q <= 100
      && 200 * Min(ticks, period) - period <= 2 * (q * period) <= 200 * Min(ticks, period) + period
      && (ticks >= period ==> q == 100)
  {
    var t := Min(ticks, period);
    var x: int := t * 100 + period / 2;
    var q := x / period;
    assert x == q * period + x % period;
    if q > 100 {
      MulMono(101, q, period);
    } else if t == period && q < 100 {
      MulMono(q, 99, period);
    }
  }

  /** A reading rounds the busy share of its own period; the transmit count is the growth of the counter,
      held at zero below and at 2^32 - 1 above. */
  lemma ReadingMeans(c: State, ticks: U16, tx: U64)
    requires Sound(c) && c.armed
    ensures var b := Reading(c, ticks, tx);
      && b.busyPct <= 100
      && 200 * Min(ticks, c.period) - c.period <= 2 * (b.busyPct * c.period) <= 200 * Min(ticks, c.period) + c.period
      && b.windowUs == c.period * TICK_US
      && (b.ownTxInWindow <==> tx > c.txAtArm)
      && b.ownTxFrames == if tx <= c.txAtArm then 0 else Min(tx - c.txAtArm, 0xffff_ffff)
  {
    PercentNearest(ticks, c.period);
  }

  // ----- whole runs ---------------------------------------------------------------------------

  datatype Event =
    | ArmFor(windowUs: U32, armTx: U64)
    | Read(hw: ClmRead, readTx: U64)
    | NhmNote
    | RetuneNote
    | Reset

  function Step(c: State, e: Event): (c': State)
    requires Sound(c)
    ensures Sound(c')
  {
    match e
    case ArmFor(us, tx) => Armed(c, us, tx)
    case Read(hw, tx) => ReadOut(c, hw, tx).0
    case NhmNote => Noted(c, Interrupted)
    case RetuneNote => Noted(c, Retuned)
    case Reset => FRESH
  }

  function Answer(c: State, e: Event): seq<ChannelBusy>
    requires Sound(c)
  {
    if e.Read? then [ReadOut(c, e.hw, e.readTx).1] else []
  }

  function Final(c: State, es: seq<Event>): (c': State)
    requires Sound(c)
    ensures Sound(c')
    decreases |es|
  {
    if es == [] then c else Final(Step(c, es[0]), es[1..])
  }

  /** Every answer a run gives, in order. */
  function Answers(c: State, es: seq<Event>): seq<ChannelBusy>
    requires Sound(c)
    decreases |es|
  {
    if es == [] then [] else Answer(c, es[0]) + Answers(Step(c, es[0]), es[1..])
  }

  /** The two states differ at most in the diagnostic of the last read. */
  predicate Alike(c: State, d: State) {
    c == d.(lastSpoil := c.lastSpoil)
  }

  lemma {:induction false} AlikeRuns(c: State, d: State, es: seq<Event>)
    requires Sound(c) && Sound(d) && Alike(c, d)
    ensures Alike(Final(c, es), Final(d, es)) && Answers(c, es) == Answers(d, es)
    decreases |es|
  {
    if es != [] {
      AlikeRuns(Step(c, es[0]), Step(d, es[0]), es[1..]);
    }
  }

  lemma {:induction false} RunsJoin(c: State, es: seq<Event>, fs: seq<Event>)
    requires Sound(c)
    ensures Final(c, es + fs) == Final(Final(c, es), fs)
    ensures Answers(c, es + fs) == Answers(c, es) + Answers(Final(c, es), fs)
    decreases |es|
  {
    if es == [] {
      assert es + fs == fs;
    } else {
      assert (es + fs)[1..] == es[1..] + fs;
      RunsJoin(Step(c, es[0]), es[1..], fs);
    }
  }

  /** A read before the window has elapsed changes no later answer: it adds one NotElapsed to the run. */
  lemma EarlyReadStutters(c: State, before: seq<Event>, ticks: U16, tx: U64, after: seq<Event>)
    requires Sound(c) && Final(c, before).armed && Final(c, before).spoil == Unspoiled
    ensures var early := [Read(ClmRead(false, ticks), tx)];
      && Answers(c, before + early + after) ==
           Answers(c, before) + [NO_READING.(spoil := NotElapsed)] + Answers(Final(c, before), after)
      && Alike(Final(c, before + early + after), Final(c, before + after))
  {
    var early := [Read(ClmRead(false, ticks), tx)];
    var d := Final(c, before);
    RunsJoin(c, before + early, after);
    RunsJoin(c, before, early);
    RunsJoin(c, before, after);
    var d' := Step(d, early[0]);
    assert early[1..] == [];
    assert Final(d, early) == d';
    assert Answers(d, early) == [NO_READING.(spoil := NotElapsed)];
    AlikeRuns(d', d, after);
  }

  /** A read of an unspoiled window that elapsed, whatever came before the arm and however many reads were too early:
      the reading is of the armed period, and its transmit count is the growth of the counter since that arm. */
  lemma ArmedWindowRead(c: State, windowUs: U32, armTx: U64, early: seq<Event>, ticks: U16, tx: U64)
    requires Sound(c) && windowUs > 0
    requires forall k :: 0 <= k < |early| ==> IsEarlyRead(early[k])
    ensures var (after, b) := ReadOut(Final(c, [ArmFor(windowUs, armTx)] + early), ClmRead(true, ticks), tx);
      var p := PeriodFor(windowUs);
      && b.valid && b.validBusy && b.source == ClmSource && b.spoil == Unspoiled && b.windowUs == 4 * p
      && 200 * Min(ticks, p) - p <= 2 * (b.busyPct * p) <= 200 * Min(ticks, p) + p
      && (b.ownTxInWindow <==> tx > armTx)
      && b.ownTxFrames == (if tx <= armTx then 0 else if tx - armTx < 0x1_0000_0000 then tx - armTx else 0xffff_ffff)
      && !after.armed && after.lastSpoil == Unspoiled
  {
    hide Answers, Percent;
    var arm := [ArmFor(windowUs, armTx)];
    RunsJoin(c, arm, early);
    var a := Step(c, arm[0]);
    assert arm[1..] == [];
    assert Final(c, arm) == a;
    EarlyReadsKeep(a, early);
    ReadingMeans(Final(a, early), ticks, tx);
  }

  /** What a read that gives no reading says and leaves: nothing of an unarmed window, why of any other, and only
      a window still running stays armed. */
  lemma NoReadingSays(c: State, hw: ClmRead, tx: U64)
    requires Sound(c)
    ensures var (after, b) := ReadOut(c, hw, tx);
      && (b.valid <==> c.armed && c.spoil == Unspoiled && hw.ready)
      && (!b.valid ==> b == ChannelBusy(false, NoSource, 0, false, 0, false, 0, b.spoil))
      && (!c.armed ==> b.spoil == Unspoiled && after == c)
      && (c.armed && !b.valid ==> after.lastSpoil == b.spoil == if c.spoil != Unspoiled then c.spoil else NotElapsed)
      && (after.armed <==> c.armed && c.spoil == Unspoiled && !hw.ready)
  {
    hide Percent;
  }

  predicate IsNote(e: Event) { e.NhmNote? || e.RetuneNote? }

  predicate IsEarlyRead(e: Event) { e.Read? && !e.hw.ready }

  function WhyOf(e: Event): Spoil
    requires IsNote(e)
  {
    if e.NhmNote? then Interrupted else Retuned
  }

  lemma {:induction false} EarlyReadsKeep(c: State, es: seq<Event>)
    requires Sound(c) && c.armed && c.spoil == Unspoiled
    requires forall k :: 0 <= k < |es| ==> IsEarlyRead(es[k])
    ensures Alike(Final(c, es), c)
    decreases |es|
  {
    if es != [] {
      EarlyReadsKeep(Step(c, es[0]), es[1..]);
    }
  }

  lemma {:induction false} NotesKeepFirst(c: State, es: seq<Event>)
    requires Sound(c) && c.armed && c.spoil != Unspoiled
    requires forall k :: 0 <= k < |es| ==> IsNote(es[k])
    ensures Final(c, es) == c
    decreases |es|
  {
    if es != [] {
      NotesKeepFirst(Step(c, es[0]), es[1..]);
    }
  }

  /** Between an arm and the read that consumes it, early reads change nothing and of all spoils noted the
      first is the one reported, ready or not. */
  lemma FirstSpoilReported(c: State, windowUs: U32, armTx: U64, early: seq<Event>, notes: seq<Event>,
                           hw: ClmRead, tx: U64)
    requires Sound(c) && windowUs > 0
    requires forall k :: 0 <= k < |early| ==> IsEarlyRead(early[k])
    requires notes != [] && forall k :: 0 <= k < |notes| ==> IsNote(notes[k])
    ensures var d := Final(c, [ArmFor(windowUs, armTx)] + early + notes);
      && ReadOut(d, hw, tx).1 == NO_READING.(spoil := WhyOf(notes[0]))
      && !ReadOut(d, hw, tx).0.armed
  {
    hide Answers;
    var arm := [ArmFor(windowUs, armTx)];
    RunsJoin(c, arm + early, notes);
    RunsJoin(c, arm, early);
    var a := Step(c, arm[0]);
    assert arm[1..] == [];
    assert Final(c, arm) == a;
    EarlyReadsKeep(a, early);
    var b := Final(a, early);
    NotesKeepFirst(Step(b, notes[0]), notes[1..]);
  }

  function CountArms(es: seq<Event>): nat {
    if es == [] then 0 else (if es[0].ArmFor? && es[0].windowUs > 0 then 1 else 0) + CountArms(es[1..])
  }

  /** Answers that used up a window: a reading, or the report that it was spoiled. */
  predicate Consumes(b: ChannelBusy) {
    b.valid || b.spoil == Interrupted || b.spoil == Retuned
  }

  function CountConsumed(bs: seq<ChannelBusy>): nat {
    if bs == [] then 0 else (if Consumes(bs[0]) then 1 else 0) + CountConsumed(bs[1..])
  }

  lemma {:induction false} CountConsumedJoin(a: seq<ChannelBusy>, b: seq<ChannelBusy>)
    ensures CountConsumed(a + b) == CountConsumed(a) + CountConsumed(b)
  {
    if a == [] {
      assert a + b == b;
    } else {
      assert (a + b)[1..] == a[1..] + b;
      CountConsumedJoin(a[1..], b);
    }
  }

  /** One arm yields at most one consumed window, over every run. */
  lemma {:induction false} OneReadingPerArm(c: State, es: seq<Event>)
    requires Sound(c)
    ensures CountConsumed(Answers(c, es)) + (if Final(c, es).armed then 1 else 0)
         <= CountArms(es) + (if c.armed then 1 else 0)
    decreases |es|
  {
    if es != [] {
      OneReadingPerArm(Step(c, es[0]), es[1..]);
      CountConsumedJoin(Answer(c, es[0]), Answers(Step(c, es[0]), es[1..]));
    }
  }

  // ----- the object ----------------------------------------------------------------------------

  class ClmWindow {
    var armed: bool
    var period: U16
    var txAtArm: U64
    var spoil: Spoil
    var lastSpoil: Spoil

    function Now(): State
      reads this
    {
      State(armed, period, txAtArm, spoil, lastSpoil)
    }

    constructor ()
      ensures Now() == FRESH
    {
      armed, period, txAtArm, spoil, lastSpoil := false, 0, 0, Unspoiled, Unspoiled;
    }

    /** program is the period to write into the engine before its trigger is pulsed; None arms nothing. */
    method Arm(windowUs: U32, tx: U64) returns (armedUs: U32, program: seq<U16>)
      modifies this
      ensures Now() == Armed(old(Now()), windowUs, tx) && (windowUs == 0 ==> Now() == old(Now()))
      ensures program == if windowUs == 0 then [] else [PeriodFor(windowUs)]
      ensures armedUs == if windowUs == 0 then 0 else PeriodFor(windowUs) * TICK_US
    {
      if windowUs == 0 {
        return 0, [];
      }
      period := PeriodFor(windowUs);
      program := [period];
      armed := true;
      spoil := Unspoiled;
      txAtArm := tx;
      armedUs := period * TICK_US;
    }

    method Read(hw: ClmRead, tx: U64) returns (b: ChannelBusy)
      requires Sound(Now())
      modifies this
      ensures (Now(), b) == ReadOut(old(Now()), hw, tx)
    {
      hide Quotient;
      b := NO_READING;
      if !armed {
        return;
      }
      if spoil != Unspoiled {
        armed := false;
        lastSpoil := spoil;
        b := b.(spoil := spoil);
        return;
      }
      if !hw.ready {
        lastSpoil := NotElapsed;
        b := b.(spoil := NotElapsed);
        return;
      }
      armed := false;
      b := b.(valid := true, source := ClmSource, validBusy := true, windowUs := period * TICK_US);
      var ticks := if hw.ticks > period then period else hw.ticks;
      b := b.(busyPct := Quotient(ticks * 100 + period / 2, period));
      var sent: nat := if tx > txAtArm then tx - txAtArm else 0;
      b := b.(ownTxFrames := if sent > 0xffff_ffff then 0xffff_ffff else sent, ownTxInWindow := sent > 0);
      lastSpoil := Unspoiled;
    }

    method NoteNhmRead()
      modifies this
      ensures Now() == Noted(old(Now()), Interrupted)
    {
      if armed && spoil == Unspoiled {
        spoil := Interrupted;
      }
    }

    method NoteRetune()
      modifies this
      ensures Now() == Noted(old(Now()), Retuned)
    {
      if armed && spoil == Unspoiled {
        spoil := Retuned;
      }
    }
  }
}

// One measurement engine, many threads: arming, reading, histogram reads and retunes interleaved step by
// step, and why a valid reading is still a reading of the window that was armed.
module CcxLocking {
  import opened BusyWindow
  import opened Bytes
  import opened Wrappers

  /** The locks a histogram read holds across its note and its re-arm: none, the CCX lock, or the register lock and
      then the CCX lock. */
  datatype NhmLocks = NoteOnly | Ccx | RegThenCcx

  /** How a chip generation shares the engine. */
  datatype Family = Family(
    regLock: bool,  // a register lock spans every retune and is taken before the CCX lock
    destroys: bool, // a histogram read destroys a running CLM window (otherwise it disturbs it)
    nhm: NhmLocks)
  {
    /** A histogram read holds the CCX lock across its note and its re-arm. */
    predicate Disciplined() { !nhm.NoteOnly? }

    predicate NhmTakesReg() { regLock && nhm.RegThenCcx? }
  }

  // ----- the hardware ------------------------------------------------------------------------

  /** One triggered CLM window, with everything that happened to it. */
  datatype Window = Window(id: nat, period: U16, elapsed: nat, busy: nat, intrusions: nat, retunes: nat)

  /** started counts triggers; latch is the last completed window; ready is cleared by a trigger. */
  datatype Engine = Engine(periodReg: U16, started: nat, running: Option<Window>, ready: bool, latch: Option<Window>)

  function Trigger(e: Engine): Engine {
    e.(started := e.started + 1, running := Some(Window(e.started, e.periodReg, 0, 0, 0, 0)), ready := false)
  }

  const NHM_PERIOD: U16 := 500

  function HistogramRead(f: Family, e: Engine): Engine {
    var e1 := e.(periodReg := NHM_PERIOD);
    if f.destroys || e.running.None? then Trigger(e1)
    else e1.(started := e.started + 1, running := Some(e.running.value.(intrusions := e.running.value.intrusions + 1)))
  }

  function ChangeChannel(e: Engine): Engine {
    if e.running.None? then e
    else e.(running := Some(e.running.value.(retunes := e.running.value.retunes + 1)))
  }

  /** Four microseconds pass, inc of them counted busy. */
  function Pass(e: Engine, inc: nat): Engine {
    if e.running.None? then e
    else
      var w := e.running.value.(elapsed := e.running.value.elapsed + 1, busy := e.running.value.busy + inc);
      if w.elapsed < w.period then e.(running := Some(w))
      else e.(running := None, ready := true, latch := Some(w))
  }

  /** A disturbed window may count more than once per tick. */
  predicate MayCount(e: Engine, inc: nat) {
    inc <= 1 || (e.running.Some? && e.running.value.intrusions > 0)
  }

  function Shown(e: Engine): ClmRead {
    ClmRead(e.ready, if e.latch.Some? then e.latch.value.busy % 0x1_0000 else 0)
  }

  // ----- the threads -------------------------------------------------------------------------

  datatype Pc =
    | Idle
    | ArmWaiting(windowUs: U32, tx: U64) | ArmHasReg(windowUs: U32, tx: U64)
    | ArmProgram(windowUs: U32, tx: U64) | ArmTrigger(windowUs: U32, tx: U64) | ArmCommit(windowUs: U32, tx: U64)
    | ReadWaiting(tx: U64) | ReadHasReg(tx: U64) | ReadInside(tx: U64)
    | NhmWaiting | NhmHasReg | NhmNoted | NhmRearmed
    | RetuneWaiting | RetuneHasReg | RetuneNoted | RetuneChanged
    | ResetWaiting

  /** A reading together with what the hardware knows about it. */
  datatype Entry = Entry(reading: ChannelBusy, window: Option<Window>, armId: nat, started: nat, retunePending: bool)

  datatype Sys = Sys(
    ccx: Option<nat>, reg: Option<nat>, pcs: map<nat, Pc>, clm: State, engine: Engine,
    submitted: U64, armId: nat, log: seq<Entry>)

  function Boot(): Sys {
    Sys(None, None, map[], FRESH, Engine(0, 0, None, false, None), 0, 0, [])
  }

  function PcOf(s: Sys, t: nat): Pc {
    if t in s.pcs then s.pcs[t] else Idle
  }

  datatype Action =
    | CallArm(t: nat, windowUs: U32) | CallRead(t: nat) | CallNhm(t: nat) | CallRetune(t: nat) | CallReset(t: nat)
    | Advance(t: nat)
    | Tick(inc: nat)
    | Submit(tx: U64)

  function At(s: Sys, t: nat, pc: Pc): Sys {
    s.(pcs := s.pcs[t := pc])
  }

  /** A retune without a register lock has changed the channel and not yet taken its second note. */
  ghost predicate RetunePending(f: Family, s: Sys) {
    !f.regLock && exists t :: t in s.pcs && s.pcs[t] == RetuneChanged
  }

  predicate BothFree(f: Family, s: Sys) {
    s.ccx.None? && (f.regLock ==> s.reg.None?)
  }

  /** Wait for the register lock, which always comes first; holding it, the thread goes on at pc. */
  function TakeReg(s: Sys, t: nat, pc: Pc): Option<Sys> {
    if s.reg.Some? then None else Some(At(s.(reg := Some(t)), t, pc))
  }

  function DropReg(f: Family, s: Sys): Sys {
    s.(reg := if f.regLock then None else s.reg)
  }

  function DropBoth(f: Family, s: Sys): Sys {
    s.(ccx := None, reg := if f.regLock then None else s.reg)
  }

  /** Inside both locks at last; a window of zero is nothing to arm. */
  function EnterArm(f: Family, s: Sys, t: nat, us: U32, tx: U64): Option<Sys> {
    if s.ccx.Some? then None
    else if us == 0 then Some(At(DropReg(f, s), t, Idle))
    else Some(At(s.(ccx := Some(t)), t, ArmProgram(us, tx)))
  }

  function ArmStep(f: Family, s: Sys, t: nat): Option<Sys> {
    match PcOf(s, t)
    case ArmWaiting(us, tx) => if f.regLock then TakeReg(s, t, ArmHasReg(us, tx)) else EnterArm(f, s, t, us, tx)
    case ArmHasReg(us, tx) => EnterArm(f, s, t, us, tx)
    case ArmProgram(us, tx) =>
      var p := PeriodFor(us);
      Some(At(s.(clm := s.clm.(period := p), engine := s.engine.(periodReg := p)), t, ArmTrigger(us, tx)))
    case ArmTrigger(us, tx) => Some(At(s.(engine := Trigger(s.engine)), t, ArmCommit(us, tx)))
    case ArmCommit(us, tx) =>
      var id := if s.engine.started > 0 then s.engine.started - 1 else 0;
      Some(At(DropBoth(f, s).(clm := Armed(s.clm, us, tx), armId := id), t, Idle))
    case _ => None
  }

  function EnterRead(s: Sys, t: nat, tx: U64): Option<Sys> {
    if s.ccx.Some? then None else Some(At(s.(ccx := Some(t)), t, ReadInside(tx)))
  }

  ghost function ReadStep(f: Family, s: Sys, t: nat): Option<Sys> {
    match PcOf(s, t)
    case ReadWaiting(tx) => if f.regLock then TakeReg(s, t, ReadHasReg(tx)) else EnterRead(s, t, tx)
    case ReadHasReg(tx) => EnterRead(s, t, tx)
    case ReadInside(tx) =>
      if !Sound(s.clm) then None
      else if !s.clm.armed then Some(At(DropBoth(f, s), t, NhmWaiting))
      else
        var (c, b) := ReadOut(s.clm, Shown(s.engine), tx);
        var entry := Entry(b, s.engine.latch, s.armId, s.engine.started, RetunePending(f, s));
        Some(At(DropBoth(f, s).(clm := c, log := s.log + [entry]), t, Idle))
    case _ => None
  }

  function NhmNote(f: Family, s: Sys, t: nat): Option<Sys> {
    if s.ccx.Some? then None
    else Some(At(s.(ccx := if f.Disciplined() then Some(t) else None, clm := Noted(s.clm, Interrupted)), t, NhmNoted))
  }

  function NhmStep(f: Family, s: Sys, t: nat): Option<Sys> {
    match PcOf(s, t)
    case NhmWaiting => if f.NhmTakesReg() then TakeReg(s, t, NhmHasReg) else NhmNote(f, s, t)
    case NhmHasReg => NhmNote(f, s, t)
    case NhmNoted => Some(At(s.(engine := HistogramRead(f, s.engine)), t, NhmRearmed))
    case NhmRearmed =>
      var ccx := if f.Disciplined() then None else s.ccx;
      var reg := if f.NhmTakesReg() then None else s.reg;
      Some(At(s.(ccx := ccx, reg := reg), t, Idle))
    case _ => None
  }

  /** The CCX lock is held for the note alone. */
  function FirstNote(s: Sys, t: nat): Option<Sys> {
    if s.ccx.Some? then None else Some(At(s.(clm := Noted(s.clm, Retuned)), t, RetuneNoted))
  }

  /** With a register lock: note and change under it. Without: note, change, note again. */
  function RetuneStep(f: Family, s: Sys, t: nat): Option<Sys> {
    match PcOf(s, t)
    case RetuneWaiting => if f.regLock then TakeReg(s, t, RetuneHasReg) else FirstNote(s, t)
    case RetuneHasReg => FirstNote(s, t)
    case RetuneNoted => Some(At(s.(engine := ChangeChannel(s.engine)), t, RetuneChanged))
    case RetuneChanged =>
      if f.regLock then Some(At(s.(reg := None), t, Idle))
      else if s.ccx.Some? then None
      else Some(At(s.(clm := Noted(s.clm, Retuned)), t, Idle))
    case _ => None
  }

  function ResetStep(s: Sys, t: nat): Option<Sys> {
    if PcOf(s, t).ResetWaiting? && s.ccx.None? then Some(At(s.(clm := FRESH), t, Idle)) else None
  }

  function CallStep(s: Sys, t: nat, pc: Pc): Option<Sys> {
    if PcOf(s, t).Idle? then Some(At(s, t, pc)) else None
  }

  /** One step of the system; None when the step is not enabled. */
  ghost function Apply(f: Family, s: Sys, a: Action): Option<Sys> {
    match a
    case CallArm(t, us) => CallStep(s, t, ArmWaiting(us, s.submitted))
    case CallRead(t) => CallStep(s, t, ReadWaiting(s.submitted))
    case CallNhm(t) => CallStep(s, t, NhmWaiting)
    case CallRetune(t) => CallStep(s, t, RetuneWaiting)
    case CallReset(t) => CallStep(s, t, ResetWaiting)
    case Advance(t) =>
      var arm := ArmStep(f, s, t);
      var read := ReadStep(f, s, t);
      var nhm := NhmStep(f, s, t);
      var retune := RetuneStep(f, s, t);
      if arm.Some? then arm else if read.Some? then read else if nhm.Some? then nhm
      else if retune.Some? then retune else ResetStep(s, t)
    case Tick(inc) => if MayCount(s.engine, inc) then Some(s.(engine := Pass(s.engine, inc))) else None
    case Submit(tx) => Some(s.(submitted := tx))
  }

  ghost function Run(f: Family, s: Sys, acts: seq<Action>): Option<Sys>
    decreases |acts|
  {
    if acts == [] then Some(s)
    else
      var s' := Apply(f, s, acts[0]);
      if s'.None? then None else Run(f, s'.value, acts[1..])
  }

  // ----- the invariant -------------------------------------------------------------------------

  /** The window triggered under this number, at this period, that nothing else has touched. */
  ghost predicate Untouched(w: Window, id: nat, period: U16, retuned: bool) {
    w.id == id && w.period == period && w.intrusions == 0 && w.busy <= w.elapsed && (w.retunes == 0 || retuned)
  }

  /** The last trigger was number id, and its window is running or is the one latched. */
  ghost predicate Clean(e: Engine, id: nat, period: U16, retuned: bool) {
    && e.started == id + 1
    && if e.ready then e.latch.Some? && Untouched(e.latch.value, id, period, retuned) && e.latch.value.elapsed == period
       else e.running.Some? && Untouched(e.running.value, id, period, retuned) && e.running.value.elapsed < period
  }

  ghost predicate EngineOk(e: Engine) {
    e.ready ==> e.running.None?
  }

  /** Places inside the CCX lock. */
  predicate InCcx(f: Family, pc: Pc) {
    || pc.ArmProgram? || pc.ArmTrigger? || pc.ArmCommit? || pc.ReadInside?
    || (f.Disciplined() && (pc.NhmNoted? || pc.NhmRearmed?))
  }

  /** Places inside the register lock. */
  predicate InReg(f: Family, pc: Pc) {
    f.regLock &&
      (pc.ArmHasReg? || pc.ArmProgram? || pc.ArmTrigger? || pc.ArmCommit? || pc.ReadHasReg? || pc.ReadInside?
       || pc.RetuneHasReg? || pc.RetuneNoted? || pc.RetuneChanged?
       || (f.NhmTakesReg() && (pc.NhmHasReg? || pc.NhmNoted? || pc.NhmRearmed?)))
  }

  /** Which locks a thread holds is where it is, and the other way round. */
  ghost predicate LocksOk(f: Family, s: Sys) {
    && (forall t :: t in s.pcs && InCcx(f, s.pcs[t]) ==> s.ccx == Some(t))
    && (forall t :: t in s.pcs && InReg(f, s.pcs[t]) ==> s.reg == Some(t))
    && (s.ccx.Some? ==> InCcx(f, PcOf(s, s.ccx.value)))
    && (s.reg.Some? ==> InReg(f, PcOf(s, s.reg.value)))
  }

  /** Who holds a lock after thread t moved between places that are, or are not, inside it. */
  function Handed(lock: Option<nat>, t: nat, was: bool, now: bool): Option<nat> {
    if now then Some(t) else if was then None else lock
  }

  /** A step that takes a lock only when it is free and drops it only by leaving keeps the locks in order. */
  lemma LocksMove(f: Family, s: Sys, s': Sys, t: nat)
    requires LocksOk(f, s) && s'.pcs == s.pcs[t := PcOf(s', t)]
    requires InCcx(f, PcOf(s', t)) && !InCcx(f, PcOf(s, t)) ==> s.ccx.None?
    requires InReg(f, PcOf(s', t)) && !InReg(f, PcOf(s, t)) ==> s.reg.None?
    requires s'.ccx == Handed(s.ccx, t, InCcx(f, PcOf(s, t)), InCcx(f, PcOf(s', t)))
    requires s'.reg == Handed(s.reg, t, InReg(f, PcOf(s, t)), InReg(f, PcOf(s', t)))
    ensures LocksOk(f, s')
  {
    hide InCcx, InReg;
    assert !InCcx(f, Idle) && !InReg(f, Idle) by { IdleHoldsNothing(f); }
    HeldBy(f, s, t);
  }

  lemma IdleHoldsNothing(f: Family)
    ensures !InCcx(f, Idle) && !InReg(f, Idle)
  {
  }

  /** A thread inside a lock is the only one inside it. */
  lemma HeldBy(f: Family, s: Sys, t: nat)
    requires LocksOk(f, s)
    ensures InCcx(f, PcOf(s, t)) <==> s.ccx == Some(t)
    ensures InReg(f, PcOf(s, t)) <==> s.reg == Some(t)
    ensures InReg(f, PcOf(s, t)) ==> forall u :: u in s.pcs && u != t ==> !InReg(f, s.pcs[u])
  {
    hide InCcx, InReg;
    IdleHoldsNothing(f);
  }

  predicate Live(c: State) { c.armed && c.spoil == Unspoiled }

  /** The thread inside the CCX lock, if any. */
  function InsidePc(s: Sys): Pc {
    if s.ccx.Some? then PcOf(s, s.ccx.value) else Idle
  }

  ghost predicate WindowOk(f: Family, s: Sys) {
    match InsidePc(s)
    case ArmTrigger(us, _) => s.clm.period == PeriodFor(us) == s.engine.periodReg
    case ArmCommit(us, _) =>
      s.clm.period == PeriodFor(us) && s.engine.started > 0
      && Clean(s.engine, s.engine.started - 1, s.clm.period, RetunePending(f, s))
    case NhmNoted => !Live(s.clm)
    case _ => Live(s.clm) ==> Clean(s.engine, s.armId, s.clm.period, RetunePending(f, s))
  }

  ghost predicate RetuneOk(f: Family, s: Sys) {
    f.regLock ==> forall t :: t in s.pcs && s.pcs[t].RetuneNoted? ==> !Live(s.clm)
  }

  /** A valid entry is about the window the latest arm triggered, whole, undisturbed, and no later trigger. */
  ghost predicate Genuine(f: Family, e: Entry) {
    e.reading.valid ==>
      && e.window.Some? && e.started == e.armId + 1
      && Untouched(e.window.value, e.armId, e.window.value.period, e.retunePending)
      && e.window.value.elapsed == e.window.value.period
      && e.window.value.period > 0
      && e.reading.windowUs == e.window.value.period * TICK_US
      && e.reading.busyPct == Percent(e.window.value.busy, e.window.value.period)
      && (f.regLock ==> !e.retunePending)
  }

  ghost predicate LogOk(f: Family, log: seq<Entry>) {
    forall k :: 0 <= k < |log| ==> Genuine(f, log[k])
  }

  ghost predicate Inv(f: Family, s: Sys) {
    Sound(s.clm) && EngineOk(s.engine) && LocksOk(f, s) && WindowOk(f, s) && RetuneOk(f, s) && LogOk(f, s.log)
  }

  /** A pending retune stays pending while its own thread does not move. */
  lemma PendingKept(f: Family, s: Sys, s': Sys, t: nat, pc: Pc)
    requires s'.pcs == s.pcs[t := pc] && PcOf(s, t) != RetuneChanged
    ensures RetunePending(f, s) ==> RetunePending(f, s')
  {
    if RetunePending(f, s) {
      var u :| u in s.pcs && s.pcs[u] == RetuneChanged;
      assert u in s'.pcs && s'.pcs[u] == RetuneChanged;
    }
  }

  lemma ArmKeeps(f: Family, s: Sys, t: nat)
    requires f.Disciplined() && Inv(f, s) && ArmStep(f, s, t).Some?
    ensures Inv(f, ArmStep(f, s, t).value)
  {
    hide LocksOk, RetunePending, LogOk;
    HeldBy(f, s, t);
    LocksMove(f, s, ArmStep(f, s, t).value, t);
    var s' := ArmStep(f, s, t).value;
    PendingKept(f, s, s', t, PcOf(s', t));
    if PcOf(s, t).ArmWaiting? && f.regLock {
      TakeRegKeeps(f, s, t, PcOf(s', t));
    }
  }

  /** The reading of a live, completed window is genuine. */
  lemma LiveReadGenuine(f: Family, s: Sys, tx: U64)
    requires Sound(s.clm) && Live(s.clm) && s.engine.ready
    requires Clean(s.engine, s.armId, s.clm.period, RetunePending(f, s))
    ensures var b := ReadOut(s.clm, Shown(s.engine), tx).1;
      Genuine(f, Entry(b, s.engine.latch, s.armId, s.engine.started, RetunePending(f, s)))
  {
    hide Percent;
    var w := s.engine.latch.value;
    assert Shown(s.engine).ticks == w.busy;
    PercentCapped(w.busy, s.clm.period);
  }

  lemma PercentCapped(ticks: nat, period: nat)
    requires 0 < period && ticks <= period
    ensures Percent(Min(ticks, period), period) == Percent(ticks, period)
  {
  }

  lemma ReadKeeps(f: Family, s: Sys, t: nat)
    requires f.Disciplined() && Inv(f, s) && ReadStep(f, s, t).Some?
    ensures Inv(f, ReadStep(f, s, t).value)
  {
    hide LocksOk, RetunePending, Genuine, Percent;
    HeldBy(f, s, t);
    LocksMove(f, s, ReadStep(f, s, t).value, t);
    var s' := ReadStep(f, s, t).value;
    PendingKept(f, s, s', t, PcOf(s', t));
    if PcOf(s, t).ReadInside? {
      if Live(s.clm) && s.engine.ready {
        LiveReadGenuine(f, s, PcOf(s, t).tx);
      } else {
        InvalidGenuine(f, s'.log);
      }
    }
  }

  lemma InvalidGenuine(f: Family, log: seq<Entry>)
    ensures forall k :: 0 <= k < |log| && !log[k].reading.valid ==> Genuine(f, log[k])
  {
  }

  lemma NhmKeeps(f: Family, s: Sys, t: nat)
    requires f.Disciplined() && Inv(f, s) && NhmStep(f, s, t).Some?
    ensures Inv(f, NhmStep(f, s, t).value)
  {
    hide LocksOk, RetunePending, LogOk;
    HeldBy(f, s, t);
    LocksMove(f, s, NhmStep(f, s, t).value, t);
    var s' := NhmStep(f, s, t).value;
    PendingKept(f, s, s', t, PcOf(s', t));
  }

  lemma FirstNoteKeeps(f: Family, s: Sys, t: nat)
    requires f.Disciplined() && Inv(f, s) && (PcOf(s, t).RetuneHasReg? || (PcOf(s, t).RetuneWaiting? && !f.regLock))
    requires FirstNote(s, t).Some?
    ensures Inv(f, FirstNote(s, t).value)
  {
    hide LocksOk, RetunePending, LogOk, Clean;
    HeldBy(f, s, t);
    LocksMove(f, s, FirstNote(s, t).value, t);
    var s' := FirstNote(s, t).value;
    assert !Live(s'.clm);
  }

  lemma TakeRegKeeps(f: Family, s: Sys, t: nat, pc: Pc)
    requires f.regLock && Inv(f, s) && TakeReg(s, t, pc).Some?
    requires pc.ArmHasReg? || pc.ReadHasReg? || pc.RetuneHasReg? || (pc.NhmHasReg? && f.NhmTakesReg())
    requires var was := PcOf(s, t); was.ArmWaiting? || was.ReadWaiting? || was.RetuneWaiting? || was.NhmWaiting?
    ensures Inv(f, TakeReg(s, t, pc).value)
  {
    hide LocksOk, RetunePending, LogOk, Clean;
    HeldBy(f, s, t);
    LocksMove(f, s, TakeReg(s, t, pc).value, t);
    var s' := TakeReg(s, t, pc).value;
    NeverPending(f, s);
    NeverPending(f, s');
    assert InsidePc(s') == InsidePc(s);
  }

  lemma ChangeKeeps(f: Family, s: Sys, t: nat)
    requires f.Disciplined() && Inv(f, s) && PcOf(s, t).RetuneNoted?
    ensures Inv(f, RetuneStep(f, s, t).value)
  {
    hide LocksOk, RetunePending, LogOk, Sound;
    HeldBy(f, s, t);
    LocksMove(f, s, RetuneStep(f, s, t).value, t);
    var s' := RetuneStep(f, s, t).value;
    PendingKept(f, s, s', t, PcOf(s', t));
    NeverPending(f, s);
    if !f.regLock {
      NowPending(f, s', t);
    }
  }

  lemma LastNoteKeeps(f: Family, s: Sys, t: nat)
    requires f.Disciplined() && Inv(f, s) && PcOf(s, t).RetuneChanged? && RetuneStep(f, s, t).Some?
    ensures Inv(f, RetuneStep(f, s, t).value)
  {
    hide LocksOk, RetunePending, LogOk, Clean;
    HeldBy(f, s, t);
    LocksMove(f, s, RetuneStep(f, s, t).value, t);
    var s' := RetuneStep(f, s, t).value;
    NeverPending(f, s);
    NeverPending(f, s');
  }

  lemma RetuneKeeps(f: Family, s: Sys, t: nat)
    requires f.Disciplined() && Inv(f, s) && RetuneStep(f, s, t).Some?
    ensures Inv(f, RetuneStep(f, s, t).value)
  {
    hide Inv;
    match PcOf(s, t)
    case RetuneWaiting =>
      if f.regLock {
        TakeRegKeeps(f, s, t, RetuneHasReg);
      } else {
        FirstNoteKeeps(f, s, t);
      }
    case RetuneHasReg => FirstNoteKeeps(f, s, t);
    case RetuneNoted => ChangeKeeps(f, s, t);
    case RetuneChanged => LastNoteKeeps(f, s, t);
  }

  lemma NeverPending(f: Family, s: Sys)
    ensures f.regLock ==> !RetunePending(f, s)
  {
  }

  lemma NowPending(f: Family, s: Sys, t: nat)
    requires !f.regLock && t in s.pcs && s.pcs[t] == RetuneChanged
    ensures RetunePending(f, s)
  {
  }

  lemma ResetKeeps(f: Family, s: Sys, t: nat)
    requires f.Disciplined() && Inv(f, s) && ResetStep(s, t).Some?
    ensures Inv(f, ResetStep(s, t).value)
  {
    hide LocksOk;
    LocksMove(f, s, ResetStep(s, t).value, t);
  }

  lemma CallKeeps(f: Family, s: Sys, t: nat, pc: Pc)
    requires f.Disciplined() && Inv(f, s) && CallStep(s, t, pc).Some?
    requires pc.ArmWaiting? || pc.ReadWaiting? || pc.NhmWaiting? || pc.RetuneWaiting? || pc.ResetWaiting?
    ensures Inv(f, CallStep(s, t, pc).value)
  {
    hide LocksOk, RetunePending, LogOk;
    LocksMove(f, s, CallStep(s, t, pc).value, t);
    var s' := CallStep(s, t, pc).value;
    PendingKept(f, s, s', t, pc);
    assert InsidePc(s') == InsidePc(s) || InsidePc(s').Idle? || InsidePc(s).Idle?;
  }

  lemma PassKeeps(f: Family, s: Sys, inc: nat)
    requires f.Disciplined() && Inv(f, s) && MayCount(s.engine, inc)
    ensures Inv(f, s.(engine := Pass(s.engine, inc)))
  {
    hide RetunePending, LogOk;
    SamePending(f, s, s.(engine := Pass(s.engine, inc)));
  }

  lemma SamePending(f: Family, s: Sys, s': Sys)
    requires s'.pcs == s.pcs
    ensures RetunePending(f, s') == RetunePending(f, s)
  {
  }

  lemma SubmitKeeps(f: Family, s: Sys, tx: U64)
    requires Inv(f, s)
    ensures Inv(f, s.(submitted := tx))
  {
    hide RetunePending, LogOk, Clean, Sound;
    SamePending(f, s, s.(submitted := tx));
  }

  lemma AdvanceKeeps(f: Family, s: Sys, t: nat)
    requires f.Disciplined() && Inv(f, s) && Apply(f, s, Advance(t)).Some?
    ensures Inv(f, Apply(f, s, Advance(t)).value)
  {
    hide Inv, ArmStep, ReadStep, NhmStep, RetuneStep, ResetStep;
    if ArmStep(f, s, t).Some? {
      ArmKeeps(f, s, t);
    } else if ReadStep(f, s, t).Some? {
      ReadKeeps(f, s, t);
    } else if NhmStep(f, s, t).Some? {
      NhmKeeps(f, s, t);
    } else if RetuneStep(f, s, t).Some? {
      RetuneKeeps(f, s, t);
    } else {
      ResetKeeps(f, s, t);
    }
  }

  lemma StepKeeps(f: Family, s: Sys, a: Action)
    requires f.Disciplined() && Inv(f, s) && Apply(f, s, a).Some?
    ensures Inv(f, Apply(f, s, a).value)
  {
    hide Inv, ArmStep, ReadStep, NhmStep, RetuneStep, ResetStep, CallStep, Pass;
    match a
    case CallArm(t, us) => CallKeeps(f, s, t, ArmWaiting(us, s.submitted));
    case CallRead(t) => CallKeeps(f, s, t, ReadWaiting(s.submitted));
    case CallNhm(t) => CallKeeps(f, s, t, NhmWaiting);
    case CallRetune(t) => CallKeeps(f, s, t, RetuneWaiting);
    case CallReset(t) => CallKeeps(f, s, t, ResetWaiting);
    case Advance(t) => AdvanceKeeps(f, s, t);
    case Tick(inc) => PassKeeps(f, s, inc);
    case Submit(tx) => SubmitKeeps(f, s, tx);
  }

  lemma {:induction false} RunKeeps(f: Family, s: Sys, acts: seq<Action>)
    requires f.Disciplined() && Inv(f, s) && Run(f, s, acts).Some?
    ensures Inv(f, Run(f, s, acts).value)
    decreases |acts|
  {
    hide Inv, Apply;
    if acts != [] {
      StepKeeps(f, s, acts[0]);
      RunKeeps(f, Apply(f, s, acts[0]).value, acts[1..]);
    }
  }

  /** In every interleaving in which histogram reads hold the CCX lock across note and re-arm, every valid
      reading is of the window the latest arm triggered. */
  lemma ReadingsGenuine(f: Family, acts: seq<Action>)
    requires f.Disciplined() && Run(f, Boot(), acts).Some?
    ensures LogOk(f, Run(f, Boot(), acts).value.log)
  {
    RunKeeps(f, Boot(), acts);
  }

  // ----- why the locks are needed ----------------------------------------------------------------

  lemma {:induction false} RunJoins(f: Family, s: Sys, a: seq<Action>, b: seq<Action>)
    requires Run(f, s, a).Some?
    ensures Run(f, s, a + b) == Run(f, Run(f, s, a).value, b)
    decreases |a|
  {
    hide Apply;
    if a == [] {
      assert a + b == b;
    } else {
      assert (a + b)[1..] == a[1..] + b;
      RunJoins(f, Apply(f, s, a[0]).value, a[1..], b);
    }
  }

  /** One more step at the end of a run. */
  lemma Extend(f: Family, acts: seq<Action>, s: Sys, a: Action)
    requires Run(f, Boot(), acts) == Some(s) && Apply(f, s, a).Some?
    ensures Run(f, Boot(), acts + [a]) == Apply(f, s, a)
  {
    hide Apply;
    RunJoins(f, Boot(), acts, [a]);
    assert [a][1..] == [];
    assert Run(f, Apply(f, s, a).value, []) == Apply(f, s, a);
  }

  /** Quiet ticks until the running window completes. */
  lemma {:induction false} Complete(f: Family, acts: seq<Action>, s: Sys) returns (more: seq<Action>)
    requires Run(f, Boot(), acts) == Some(s)
    requires s.engine.running.Some? && s.engine.running.value.elapsed < s.engine.running.value.period
    ensures var w := s.engine.running.value;
      var done := s.engine.(running := None, ready := true, latch := Some(w.(elapsed := w.period)));
      Run(f, Boot(), more) == Some(s.(engine := done))
    decreases s.engine.running.value.period - s.engine.running.value.elapsed
  {
    Extend(f, acts, s, Tick(0));
    var s' := s.(engine := Pass(s.engine, 0));
    more := acts + [Tick(0)];
    if s'.engine.running.Some? {
      more := Complete(f, more, s');
    }
  }

  /** Thread 1 arms a 2 ms window, step by step under the locks. */
  lemma ArmRun(f: Family, acts: seq<Action>, s: Sys) returns (more: seq<Action>, s': Sys)
    requires Run(f, Boot(), acts) == Some(s)
    requires PcOf(s, 1).Idle? && BothFree(f, s)
    ensures Run(f, Boot(), more) == Some(s')
    ensures s'.ccx.None? && s'.reg == s.reg && s'.log == s.log && s'.engine.started == s.engine.started + 1
    ensures s'.engine.running == Some(Window(s.engine.started, 500, 0, 0, 0, 0)) && s'.armId == s.engine.started
    ensures s'.clm.armed && s'.clm.spoil == Unspoiled && s'.clm.period == 500
    ensures PcOf(s', 1).Idle? && forall t :: t != 1 ==> PcOf(s', t) == PcOf(s, t)
  {
    hide Run, Sound;
    assert PeriodFor(2000) == 500;
    Extend(f, acts, s, CallArm(1, 2000));
    var s1 := Apply(f, s, CallArm(1, 2000)).value;
    var a1 := acts + [CallArm(1, 2000)];
    if f.regLock {
      Extend(f, a1, s1, Advance(1));
      a1, s1 := a1 + [Advance(1)], Apply(f, s1, Advance(1)).value;
    }
    Extend(f, a1, s1, Advance(1));
    var s2 := Apply(f, s1, Advance(1)).value;
    var a2 := a1 + [Advance(1)];
    Extend(f, a2, s2, Advance(1));
    var s3 := Apply(f, s2, Advance(1)).value;
    var a3 := a2 + [Advance(1)];
    Extend(f, a3, s3, Advance(1));
    var s4 := Apply(f, s3, Advance(1)).value;
    var a4 := a3 + [Advance(1)];
    Extend(f, a4, s4, Advance(1));
    s' := Apply(f, s4, Advance(1)).value;
    more := a4 + [Advance(1)];
  }

  /** Thread 1 reads a completed, live window. */
  lemma ReadRun(f: Family, acts: seq<Action>, s: Sys) returns (more: seq<Action>, s': Sys)
    requires Run(f, Boot(), acts) == Some(s)
    requires PcOf(s, 1).Idle? && BothFree(f, s) && Sound(s.clm) && Live(s.clm) && s.engine.ready
    ensures Run(f, Boot(), more) == Some(s')
    ensures |s'.log| == |s.log| + 1 && s'.log[|s.log|].reading.valid
    ensures s'.log[|s.log|].window == s.engine.latch && s'.log[|s.log|].armId == s.armId
    ensures s'.log[|s.log|].reading.windowUs == 4 * s.clm.period && !s'.clm.armed
  {
    hide Run;
    Extend(f, acts, s, CallRead(1));
    var s1 := Apply(f, s, CallRead(1)).value;
    var a1 := acts + [CallRead(1)];
    if f.regLock {
      Extend(f, a1, s1, Advance(1));
      a1, s1 := a1 + [Advance(1)], Apply(f, s1, Advance(1)).value;
    }
    Extend(f, a1, s1, Advance(1));
    var s2 := Apply(f, s1, Advance(1)).value;
    var a2 := a1 + [Advance(1)];
    Extend(f, a2, s2, Advance(1));
    s' := Apply(f, s2, Advance(1)).value;
    more := a2 + [Advance(1)];
  }

  /** The guarantees are of something: in every family an arm left alone is read, and the reading is of its window. */
  lemma UndisturbedRun(f: Family) returns (acts: seq<Action>, s: Sys)
    ensures Run(f, Boot(), acts) == Some(s) && |s.log| == 1 && !s.clm.armed
    ensures s.log[0].reading.valid && s.log[0].reading.windowUs == 2000
    ensures s.log[0].window == Some(Window(s.log[0].armId, 500, 500, 0, 0, 0))
  {
    var a1, s1 := ArmRun(f, [], Boot());
    var a2 := Complete(f, a1, s1);
    acts, s := ReadRun(f, a2, Run(f, Boot(), a2).value);
  }

  /** Without the discipline: thread 0 notes, thread 1 arms, thread 0 re-arms, and the reading is believed. */
  lemma UndisciplinedRun(f: Family) returns (acts: seq<Action>, s: Sys)
    requires !f.Disciplined()
    ensures Run(f, Boot(), acts) == Some(s) && !LogOk(f, s.log)
  {
    Extend(f, [], Boot(), CallNhm(0));
    var s1 := Apply(f, Boot(), CallNhm(0)).value;
    var a1 := [] + [CallNhm(0)];
    Extend(f, a1, s1, Advance(0));
    var s2 := Apply(f, s1, Advance(0)).value;
    var a2, s3 := ArmRun(f, a1 + [Advance(0)], s2);
    Extend(f, a2, s3, Advance(0));
    var s4 := Apply(f, s3, Advance(0)).value;
    var a3 := Complete(f, a2 + [Advance(0)], s4);
    var s5 := Run(f, Boot(), a3).value;
    acts, s := ReadRun(f, a3, s5);
    var e := s.log[0];
    assert e.window.value.id != e.armId || e.window.value.intrusions > 0;
    assert !Genuine(f, e);
  }

  /** Every valid reading of a family is genuine, in every interleaving, exactly when its histogram reads
      hold the CCX lock across note and re-arm. */
  lemma GenuineIffDisciplined(f: Family)
    ensures (forall acts :: Run(f, Boot(), acts).Some? ==> LogOk(f, Run(f, Boot(), acts).value.log))
      <==> f.Disciplined()
  {
    if f.Disciplined() {
      forall acts | Run(f, Boot(), acts).Some? ensures LogOk(f, Run(f, Boot(), acts).value.log) {
        ReadingsGenuine(f, acts);
      }
    } else {
      var acts, s := UndisciplinedRun(f);
    }
  }

  /** No valid reading blends two channels. */
  ghost predicate OneChannel(log: seq<Entry>) {
    forall k :: 0 <= k < |log| && log[k].reading.valid && log[k].window.Some? ==> log[k].window.value.retunes == 0
  }

  /** Notes on both sides of a retune are not enough: an arm after the first one, and a read before the
      second, get a valid reading of both channels. */
  lemma BracketedRun(f: Family) returns (acts: seq<Action>, s: Sys)
    requires !f.regLock
    ensures Run(f, Boot(), acts) == Some(s) && !OneChannel(s.log)
  {
    Extend(f, [], Boot(), CallRetune(0));
    var s1 := Apply(f, Boot(), CallRetune(0)).value;
    var a1 := [] + [CallRetune(0)];
    Extend(f, a1, s1, Advance(0));
    var s2 := Apply(f, s1, Advance(0)).value;
    var a2, s3 := ArmRun(f, a1 + [Advance(0)], s2);
    Extend(f, a2, s3, Advance(0));
    var s4 := Apply(f, s3, Advance(0)).value;
    var a3 := Complete(f, a2 + [Advance(0)], s4);
    var s5 := Run(f, Boot(), a3).value;
    acts, s := ReadRun(f, a3, s5);
    assert s.log[0].window.value.retunes == 1;
  }

  // ----- what the register lock alone guarantees ---------------------------------------------------

  /** No window the engine may still report was running while the channel changed. */
  ghost predicate Unblended(e: Engine) {
    (e.running.Some? ==> e.running.value.retunes == 0) && (e.ready ==> e.latch.Some? && e.latch.value.retunes == 0)
  }

  ghost predicate RegInv(f: Family, s: Sys) {
    && Sound(s.clm) && LocksOk(f, s) && RetuneOk(f, s) && OneChannel(s.log)
    && (Live(s.clm) || InsidePc(s).ArmCommit? ==> Unblended(s.engine))
  }

  lemma ArmKeepsReg(f: Family, s: Sys, t: nat)
    requires f.regLock && RegInv(f, s) && ArmStep(f, s, t).Some?
    ensures RegInv(f, ArmStep(f, s, t).value)
  {
    hide LocksOk, OneChannel;
    HeldBy(f, s, t);
    LocksMove(f, s, ArmStep(f, s, t).value, t);
  }

  lemma ReadKeepsReg(f: Family, s: Sys, t: nat)
    requires f.regLock && RegInv(f, s) && ReadStep(f, s, t).Some?
    ensures RegInv(f, ReadStep(f, s, t).value)
  {
    hide LocksOk, RetunePending, Percent;
    HeldBy(f, s, t);
    LocksMove(f, s, ReadStep(f, s, t).value, t);
  }

  lemma HistogramUnblended(f: Family, e: Engine)
    ensures Unblended(e) ==> Unblended(HistogramRead(f, e))
  {
  }

  lemma NhmKeepsReg(f: Family, s: Sys, t: nat)
    requires f.regLock && RegInv(f, s) && NhmStep(f, s, t).Some?
    ensures RegInv(f, NhmStep(f, s, t).value)
  {
    hide LocksOk, OneChannel, HistogramRead, Unblended;
    HeldBy(f, s, t);
    LocksMove(f, s, NhmStep(f, s, t).value, t);
    HistogramUnblended(f, s.engine);
  }

  lemma RetuneKeepsReg(f: Family, s: Sys, t: nat)
    requires f.regLock && RegInv(f, s) && RetuneStep(f, s, t).Some?
    ensures RegInv(f, RetuneStep(f, s, t).value)
  {
    hide LocksOk, OneChannel;
    HeldBy(f, s, t);
    LocksMove(f, s, RetuneStep(f, s, t).value, t);
  }

  lemma CallKeepsReg(f: Family, s: Sys, t: nat, pc: Pc)
    requires f.regLock && RegInv(f, s) && CallStep(s, t, pc).Some?
    requires pc.ArmWaiting? || pc.ReadWaiting? || pc.NhmWaiting? || pc.RetuneWaiting? || pc.ResetWaiting?
    ensures RegInv(f, CallStep(s, t, pc).value)
  {
    hide LocksOk, OneChannel;
    LocksMove(f, s, CallStep(s, t, pc).value, t);
  }

  lemma StepKeepsReg(f: Family, s: Sys, a: Action)
    requires f.regLock && RegInv(f, s) && Apply(f, s, a).Some?
    ensures RegInv(f, Apply(f, s, a).value)
  {
    hide RegInv, ArmStep, ReadStep, NhmStep, RetuneStep, ResetStep, CallStep, Pass;
    match a
    case CallArm(t, us) => CallKeepsReg(f, s, t, ArmWaiting(us, s.submitted));
    case CallRead(t) => CallKeepsReg(f, s, t, ReadWaiting(s.submitted));
    case CallNhm(t) => CallKeepsReg(f, s, t, NhmWaiting);
    case CallRetune(t) => CallKeepsReg(f, s, t, RetuneWaiting);
    case CallReset(t) => CallKeepsReg(f, s, t, ResetWaiting);
    case Advance(t) =>
      if ArmStep(f, s, t).Some? {
        ArmKeepsReg(f, s, t);
      } else if ReadStep(f, s, t).Some? {
        ReadKeepsReg(f, s, t);
      } else if NhmStep(f, s, t).Some? {
        NhmKeepsReg(f, s, t);
      } else if RetuneStep(f, s, t).Some? {
        RetuneKeepsReg(f, s, t);
      } else {
        ResetKeepsReg(f, s, t);
      }
    case Tick(inc) => PassKeepsReg(f, s, inc);
    case Submit(tx) => SubmitKeepsReg(f, s, tx);
  }

  lemma ResetKeepsReg(f: Family, s: Sys, t: nat)
    requires f.regLock && RegInv(f, s) && ResetStep(s, t).Some?
    ensures RegInv(f, ResetStep(s, t).value)
  {
    hide LocksOk;
    LocksMove(f, s, ResetStep(s, t).value, t);
  }

  lemma PassKeepsReg(f: Family, s: Sys, inc: nat)
    requires f.regLock && RegInv(f, s)
    ensures RegInv(f, s.(engine := Pass(s.engine, inc)))
  {
  }

  lemma SubmitKeepsReg(f: Family, s: Sys, tx: U64)
    requires f.regLock && RegInv(f, s)
    ensures RegInv(f, s.(submitted := tx))
  {
    hide Unblended, OneChannel;
  }

  lemma {:induction false} RunKeepsReg(f: Family, s: Sys, acts: seq<Action>)
    requires f.regLock && RegInv(f, s) && Run(f, s, acts).Some?
    ensures RegInv(f, Run(f, s, acts).value)
    decreases |acts|
  {
    hide RegInv, Apply;
    if acts != [] {
      StepKeepsReg(f, s, acts[0]);
      RunKeepsReg(f, Apply(f, s, acts[0]).value, acts[1..]);
    }
  }

  /** Disciplined or not, valid readings are of one channel in every interleaving exactly when a register lock
      spans the retune. */
  lemma OneChannelIffRegLock(f: Family)
    ensures (forall acts :: Run(f, Boot(), acts).Some? ==> OneChannel(Run(f, Boot(), acts).value.log)) <==> f.regLock
  {
    if f.regLock {
      forall acts | Run(f, Boot(), acts).Some? ensures OneChannel(Run(f, Boot(), acts).value.log) {
        RunKeepsReg(f, Boot(), acts);
      }
    } else {
      var acts, s := BracketedRun(f);
    }
  }

  // ----- no deadlock -------------------------------------------------------------------------------

  /** All that the lock order needs to be known about a state. */
  ghost predicate Orderly(f: Family, s: Sys) {
    Sound(s.clm) && LocksOk(f, s)
  }

  lemma ArmOrderly(f: Family, s: Sys, t: nat)
    requires Orderly(f, s) && ArmStep(f, s, t).Some?
    ensures Orderly(f, ArmStep(f, s, t).value)
  {
    hide LocksOk, PeriodFor;
    HeldBy(f, s, t);
    LocksMove(f, s, ArmStep(f, s, t).value, t);
  }

  lemma ReadOrderly(f: Family, s: Sys, t: nat)
    requires Orderly(f, s) && ReadStep(f, s, t).Some?
    ensures Orderly(f, ReadStep(f, s, t).value)
  {
    hide LocksOk, RetunePending, Percent;
    HeldBy(f, s, t);
    LocksMove(f, s, ReadStep(f, s, t).value, t);
  }

  lemma NhmOrderly(f: Family, s: Sys, t: nat)
    requires Orderly(f, s) && NhmStep(f, s, t).Some?
    ensures Orderly(f, NhmStep(f, s, t).value)
  {
    hide LocksOk;
    HeldBy(f, s, t);
    LocksMove(f, s, NhmStep(f, s, t).value, t);
  }

  lemma RetuneOrderly(f: Family, s: Sys, t: nat)
    requires Orderly(f, s) && RetuneStep(f, s, t).Some?
    ensures Orderly(f, RetuneStep(f, s, t).value)
  {
    hide LocksOk;
    HeldBy(f, s, t);
    LocksMove(f, s, RetuneStep(f, s, t).value, t);
  }

  lemma ResetOrderly(f: Family, s: Sys, t: nat)
    requires Orderly(f, s) && ResetStep(s, t).Some?
    ensures Orderly(f, ResetStep(s, t).value)
  {
    hide LocksOk;
    LocksMove(f, s, ResetStep(s, t).value, t);
  }

  lemma AdvanceOrderly(f: Family, s: Sys, t: nat)
    requires Orderly(f, s) && Apply(f, s, Advance(t)).Some?
    ensures Orderly(f, Apply(f, s, Advance(t)).value)
  {
    hide Orderly, ArmStep, ReadStep, NhmStep, RetuneStep, ResetStep;
    if ArmStep(f, s, t).Some? {
      ArmOrderly(f, s, t);
    } else if ReadStep(f, s, t).Some? {
      ReadOrderly(f, s, t);
    } else if NhmStep(f, s, t).Some? {
      NhmOrderly(f, s, t);
    } else if RetuneStep(f, s, t).Some? {
      RetuneOrderly(f, s, t);
    } else {
      ResetOrderly(f, s, t);
    }
  }

  lemma CallOrderly(f: Family, s: Sys, t: nat, pc: Pc)
    requires Orderly(f, s) && CallStep(s, t, pc).Some? && !InCcx(f, pc) && !InReg(f, pc)
    ensures Orderly(f, CallStep(s, t, pc).value)
  {
    hide LocksOk, Sound;
    LocksMove(f, s, CallStep(s, t, pc).value, t);
  }

  lemma StepOrderly(f: Family, s: Sys, a: Action)
    requires Orderly(f, s) && Apply(f, s, a).Some?
    ensures Orderly(f, Apply(f, s, a).value)
  {
    hide ArmStep, ReadStep, NhmStep, RetuneStep, ResetStep, CallStep, Sound, LocksOk, Pass;
    match a
    case CallArm(t, us) => CallOrderly(f, s, t, ArmWaiting(us, s.submitted));
    case CallRead(t) => CallOrderly(f, s, t, ReadWaiting(s.submitted));
    case CallNhm(t) => CallOrderly(f, s, t, NhmWaiting);
    case CallRetune(t) => CallOrderly(f, s, t, RetuneWaiting);
    case CallReset(t) => CallOrderly(f, s, t, ResetWaiting);
    case Advance(t) => AdvanceOrderly(f, s, t);
    case Tick(inc) => SameLocks(f, s, s.(engine := Pass(s.engine, inc)));
    case Submit(tx) => SameLocks(f, s, s.(submitted := tx));
  }

  lemma SameLocks(f: Family, s: Sys, s': Sys)
    requires s'.pcs == s.pcs && s'.ccx == s.ccx && s'.reg == s.reg
    ensures LocksOk(f, s) ==> LocksOk(f, s')
  {
    hide InCcx, InReg;
  }

  lemma {:induction false} RunOrderly(f: Family, s: Sys, acts: seq<Action>)
    requires Orderly(f, s) && Run(f, s, acts).Some?
    ensures Orderly(f, Run(f, s, acts).value)
    decreases |acts|
  {
    hide Orderly, Apply;
    if acts != [] {
      StepOrderly(f, s, acts[0]);
      RunOrderly(f, Apply(f, s, acts[0]).value, acts[1..]);
    }
  }

  /** With the register lock always taken before the CCX lock no interleaving deadlocks: while any thread is
      inside a call, some thread inside one can take its next step. */
  lemma NeverDeadlocked(f: Family, acts: seq<Action>, t: nat) returns (u: nat)
    requires Run(f, Boot(), acts).Some? && !PcOf(Run(f, Boot(), acts).value, t).Idle?
    ensures var s := Run(f, Boot(), acts).value; !PcOf(s, u).Idle? && Apply(f, s, Advance(u)).Some?
  {
    hide Run, RetunePending, Percent;
    RunOrderly(f, Boot(), acts);
    var s := Run(f, Boot(), acts).value;
    u := if s.ccx.Some? then s.ccx.value else if s.reg.Some? then s.reg.value else t;
  }
}

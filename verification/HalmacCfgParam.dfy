// Register writes collected into batches that firmware replays, and what the readback proves about the replay.
module HalmacCfgParam {
  import opened Bytes
  import opened CfgParamWire

  // ----- the firmware side ---------------------------------------------------------------------

  /** How far the replay gets while the host waits once. */
  datatype Progress = Steps(n: nat) | All

  /** How many pages, triggers and waits there have been. */
  datatype Moment = Moment(pages: nat, triggers: nat, waits: nat)

  predicate Later(a: Moment, b: Moment) {
    a.pages <= b.pages && a.triggers <= b.triggers && a.waits <= b.waits
  }

  /** Firmware that replays, in order and at its own pace, some prefix of the batch it was given. */
  class Chip {
    var regs: Regs
    var page: seq<byte>
    var batch: seq<Write>
    var done: nat
    var now: Moment
    ghost var base: Regs
    const dlOk: nat -> bool
    const h2cOk: nat -> bool
    const takes: nat -> bool
    const progress: nat -> Progress

    ghost predicate Valid()
      reads this
    {
      done <= |batch| && regs == DirectAll(base, batch[..done])
    }

    /** Since then every transfer succeeded and every batch was taken and replayed in full when the host waited. */
    ghost predicate Faithful(since: Moment)
      reads this
    {
      && Transferred(since)
      && (forall i :: since.waits <= i < now.waits ==> progress(i).All?)
    }

    /** Since then every transfer succeeded and nothing was replayed. */
    ghost predicate Idle(since: Moment)
      reads this
    {
      && Transferred(since)
      && (forall i :: since.waits <= i < now.waits ==> progress(i) == Steps(0))
    }

    ghost predicate Transferred(since: Moment)
      reads this
    {
      && (forall i :: since.pages <= i < now.pages ==> dlOk(i))
      && (forall i :: since.triggers <= i < now.triggers ==> h2cOk(i) && takes(i))
    }

    constructor (regs: Regs, dlOk: nat -> bool, h2cOk: nat -> bool, takes: nat -> bool, progress: nat -> Progress)
      ensures Valid() && this.regs == regs && now == Moment(0, 0, 0)
      ensures this.dlOk == dlOk && this.h2cOk == h2cOk && this.takes == takes && this.progress == progress
    {
      this.regs, base := regs, regs;
      page, batch, done, now := [], [], 0, Moment(0, 0, 0);
      this.dlOk, this.h2cOk, this.takes, this.progress := dlOk, h2cOk, takes, progress;
    }

    /** A new page: what was left of the old batch is gone. */
    method DlRsvdPage(buf: seq<byte>) returns (ok: bool)
      modifies this
      ensures Valid() && regs == old(regs) && base == regs && batch == [] && done == 0
      ensures ok == dlOk(old(now).pages) && (ok ==> page == buf)
      ensures now == old(now).(pages := old(now).pages + 1)
    {
      ok := dlOk(now.pages);
      if ok { page := buf; }
      now := now.(pages := now.pages + 1);
      batch, done, base := [], 0, regs;
    }

    /** The trigger; firmware may drop it whatever the transfer reported. */
    method SendH2cPkt(pkt: seq<byte>) returns (ok: bool)
      requires |pkt| == 32
      modifies this
      ensures Valid() && regs == old(regs) && base == regs && done == 0 && page == old(page)
      ensures batch == if takes(old(now).triggers) then Commands(page, NumField(pkt)) else []
      ensures ok == h2cOk(old(now).triggers) && now == old(now).(triggers := old(now).triggers + 1)
    {
      ok := h2cOk(now.triggers);
      batch := if takes(now.triggers) then Commands(page, NumField(pkt)) else [];
      now := now.(triggers := now.triggers + 1);
      done, base := 0, regs;
    }

    /** Time passes on the host; the replay moves on. */
    method Elapse()
      requires Valid()
      modifies this
      ensures Valid() && base == old(base) && batch == old(batch) && done >= old(done) && page == old(page)
      ensures now == old(now).(waits := old(now).waits + 1)
      ensures progress(old(now).waits).All? ==> done == |batch|
      ensures progress(old(now).waits) == Steps(0) ==> done == old(done) && regs == old(regs)
    {
      var p := progress(now.waits);
      var target := if p.Steps? && done + p.n < |batch| then done + p.n else |batch|;
      assert batch[..target] == batch[..done] + batch[done..target];
      DirectAllJoin(base, batch[..done], batch[done..target]);
      regs := DirectAll(regs, batch[done..target]);
      done := target;
      now := now.(waits := now.waits + 1);
    }

    method VerifyRead(a: U16) returns (v: U32)
      requires Valid()
      modifies this
      ensures Valid() && base == old(base) && batch == old(batch) && done >= old(done) && page == old(page)
      ensures now == old(now).(waits := old(now).waits + 1)
      ensures progress(old(now).waits).All? ==> done == |batch|
      ensures progress(old(now).waits) == Steps(0) ==> done == old(done) && regs == old(regs)
      ensures v == BbAt(regs, a)
    {
      Elapse();
      v := BbAt(regs, a);
    }
  }

  // ----- what a readback proves -------------------------------------------------------------------

  /** Position of the last baseband write, or -1. */
  function LastBb(ws: seq<Write>): (i: int)
    ensures -1 <= i < |ws|
    ensures i >= 0 ==> ws[i].BbWrite?
    ensures forall k :: i < k < |ws| ==> !ws[k].BbWrite?
    decreases |ws|
  {
    if ws == [] then -1
    else if ws[|ws| - 1].BbWrite? then |ws| - 1
    else LastBb(ws[..|ws| - 1])
  }

  /** A baseband register holds its old value or one written by the replayed part. */
  lemma {:induction false} BbOrigin(r: Regs, ws: seq<Write>, k: nat, a: U16) returns (j: nat)
    requires k <= |ws|
    ensures BbAt(DirectAll(r, ws[..k]), a) == BbAt(r, a)
      || (j < k && ws[j].BbWrite? && ws[j].addr == a && ws[j].value == BbAt(DirectAll(r, ws[..k]), a))
    decreases k
  {
    j := 0;
    if k > 0 {
      StepLast(r, ws, k);
      if ws[k - 1].BbWrite? && ws[k - 1].addr == a {
        j := k - 1;
      } else {
        j := BbOrigin(r, ws, k - 1, a);
      }
    }
  }

  lemma StepLast(r: Regs, ws: seq<Write>, k: nat)
    requires 0 < k <= |ws|
    ensures DirectAll(r, ws[..k]) == Direct(DirectAll(r, ws[..k - 1]), ws[k - 1])
  {
    assert ws[..k] == ws[..k - 1] + [ws[k - 1]];
    DirectAllJoin(r, ws[..k - 1], [ws[k - 1]]);
    assert [ws[k - 1]][1..] == [];
  }

  /** Neither the register beforehand nor an earlier write of the batch shows the value read back for. */
  ghost predicate ValueIsNews(r: Regs, ws: seq<Write>) {
    var i := LastBb(ws);
    i >= 0 ==>
      && BbAt(r, ws[i].addr) != ws[i].value
      && forall j :: 0 <= j < i && ws[j].BbWrite? && ws[j].addr == ws[i].addr ==> ws[j].value != ws[i].value
  }

  /** Seeing the last baseband value proves the replay got past its write. */
  ghost predicate ReadbackCertifies(r: Regs, ws: seq<Write>) {
    var i := LastBb(ws);
    i >= 0 ==>
      forall k: nat :: k <= |ws| && BbAt(DirectAll(r, ws[..k]), ws[i].addr) == ws[i].value ==> k > i
  }

  /** The readback certifies the batch up to its last baseband write exactly when that value is news. */
  lemma CertifiesIffNews(r: Regs, ws: seq<Write>)
    ensures ReadbackCertifies(r, ws) <==> ValueIsNews(r, ws)
  {
    var i := LastBb(ws);
    if i >= 0 {
      var a, v := ws[i].addr, ws[i].value;
      if ValueIsNews(r, ws) {
        forall k: nat | k <= |ws| && BbAt(DirectAll(r, ws[..k]), a) == v ensures k > i {
          var j := BbOrigin(r, ws, k, a);
        }
      }
      if ReadbackCertifies(r, ws) {
        assert BbAt(DirectAll(r, ws[..0]), a) == BbAt(r, a);
        forall j | 0 <= j < i && ws[j].BbWrite? && ws[j].addr == a ensures ws[j].value != v {
          StepLast(r, ws, j + 1);
          assert BbAt(DirectAll(r, ws[..j + 1]), a) == ws[j].value;
        }
      }
    }
  }

  /** After a full replay the last baseband write is what its register shows. */
  lemma FullReplayShowsLast(r: Regs, ws: seq<Write>)
    requires LastBb(ws) >= 0
    ensures BbAt(DirectAll(r, ws), ws[LastBb(ws)].addr) == ws[LastBb(ws)].value
  {
    ShowsLast(r, ws, |ws|);
    assert ws[..|ws|] == ws;
  }

  lemma {:induction false} ShowsLast(r: Regs, ws: seq<Write>, k: nat)
    requires LastBb(ws) >= 0 && LastBb(ws) < k <= |ws|
    ensures BbAt(DirectAll(r, ws[..k]), ws[LastBb(ws)].addr) == ws[LastBb(ws)].value
  {
    StepLast(r, ws, k);
    if k - 1 > LastBb(ws) {
      ShowsLast(r, ws, k - 1);
    }
  }

  /** What the last baseband register shows of a replay that got as far as k. */
  lemma ReadbackOf(r: Regs, ws: seq<Write>, k: nat)
    requires k <= |ws|
    ensures LastBb(ws) >= 0 && ValueIsNews(r, ws) ==>
      BbAt(DirectAll(r, ws[..k]), ws[LastBb(ws)].addr) == ws[LastBb(ws)].value ==> k > LastBb(ws)
    ensures LastBb(ws) >= 0 && k == |ws| ==>
      BbAt(DirectAll(r, ws[..k]), ws[LastBb(ws)].addr) == ws[LastBb(ws)].value
  {
    hide DirectAll, BbAt, ValueIsNews;
    CertifiesIffNews(r, ws);
    assert ws[..|ws|] == ws;
    if LastBb(ws) >= 0 {
      FullReplayShowsLast(r, ws);
    }
  }

  /** Seeing the last baseband value proves the whole batch, and so lets its page be written over, exactly when that
      value is news and nothing follows its write. */
  lemma CertifiesWholeIff(r: Regs, ws: seq<Write>)
    requires LastBb(ws) >= 0
    ensures var i := LastBb(ws);
      (forall k: nat :: k <= |ws| && BbAt(DirectAll(r, ws[..k]), ws[i].addr) == ws[i].value ==> k == |ws|)
      <==> ValueIsNews(r, ws) && i == |ws| - 1
  {
    var i := LastBb(ws);
    CertifiesIffNews(r, ws);
    if forall k: nat :: k <= |ws| && BbAt(DirectAll(r, ws[..k]), ws[i].addr) == ws[i].value ==> k == |ws| {
      ShowsLast(r, ws, i + 1);
      assert ReadbackCertifies(r, ws);
    }
  }

  // ----- batches ------------------------------------------------------------------------------------

  function Flat(batches: seq<seq<Write>>): seq<Write>
    decreases |batches|
  {
    if batches == [] then [] else Flat(batches[..|batches| - 1]) + batches[|batches| - 1]
  }

  function PageOf(batch: seq<Write>): seq<byte> {
    EncodeAll(batch) + EndCommand()
  }

  /** Every page decoded and replayed whole, one after the other. */
  function ReplayPages(r: Regs, pages: seq<seq<byte>>): Regs
    decreases |pages|
  {
    if pages == [] then r
    else
      var last := pages[|pages| - 1];
      DirectAll(ReplayPages(r, pages[..|pages| - 1]), Commands(last, |last|))
  }

  function PagesOf(batches: seq<seq<Write>>): (p: seq<seq<byte>>)
    ensures |p| == |batches|
  {
    seq(|batches|, k requires 0 <= k < |batches| => PageOf(batches[k]))
  }

  /** However the stream was cut, replaying the flushed pages and then the rest is the stream itself. */
  lemma {:induction false} ReplayIsDirect(r: Regs, batches: seq<seq<Write>>)
    ensures ReplayPages(r, PagesOf(batches)) == DirectAll(r, Flat(batches))
    decreases |batches|
  {
    if batches != [] {
      var front, last := batches[..|batches| - 1], batches[|batches| - 1];
      var pages := PagesOf(batches);
      assert pages[..|pages| - 1] == PagesOf(front);
      ReplayIsDirect(r, front);
      CommandsOfBuffer(last, |PageOf(last)|);
      OnChipAllSame(DirectAll(r, Flat(front)), last);
      DirectAllJoin(r, Flat(front), last);
    }
  }

  // ----- the offloader -------------------------------------------------------------------------------

  class Offload {
    var buf: seq<byte>
    var num: nat
    var total: nat
    var ok: bool
    var lastWasBb: bool
    var lastBbAddr: U16
    var lastBbValue: U32
    const chip: Chip
    const maxCmds: U32
    const cfgLoc: U16
    const seqNo: byte
    const hasSettle: bool
    const hasVerify: bool
    /** Everything the caller wrote, the batches handed over, the writes still in the buffer. */
    ghost var issued: seq<Write>
    ghost var sent: seq<seq<Write>>
    ghost var pages: seq<seq<byte>>
    ghost var pending: seq<Write>
    ghost const start: Regs

    /** The remembered readback target is the last baseband write of ws. */
    ghost predicate Remembers(ws: seq<Write>)
      reads this
    {
      && (lastWasBb <==> LastBb(ws) >= 0)
      && (lastWasBb ==> ws[LastBb(ws)] == BbWrite(lastBbAddr, lastBbValue))
    }

    ghost predicate Buffered()
      reads this, chip
    {
      && chip.Valid()
      && num == |pending| && buf == EncodeAll(pending) && (num <= 1 || num <= maxCmds)
      && issued == Flat(sent) + pending
      && pages == PagesOf(sent)
      && (ok ==> total + num == |issued|)
    }

    ghost predicate Valid()
      reads this, chip
    {
      Buffered() && Remembers(pending)
    }

    /** Between calls the buffer is below the threshold. */
    ghost predicate Ready()
      reads this, chip
    {
      Valid() && (num == 0 || num < maxCmds)
    }

    /** The chip has replayed all that was handed over. */
    ghost predicate InStep()
      reads this, chip
    {
      ok && chip.regs == DirectAll(start, Flat(sent))
    }

    constructor (chip: Chip, maxCmds: U32, cfgLoc: U16, seqNo: byte, hasSettle: bool, hasVerify: bool)
      requires chip.Valid()
      ensures Ready() && InStep() && ok && issued == [] && sent == [] && total == 0 && num == 0
      ensures this.chip == chip && this.maxCmds == maxCmds && this.hasVerify == hasVerify
    {
      this.chip, this.maxCmds, this.cfgLoc, this.seqNo := chip, maxCmds, cfgLoc, seqNo;
      this.hasSettle, this.hasVerify := hasSettle, hasVerify;
      buf, num, total, ok, lastWasBb, lastBbAddr, lastBbValue := [], 0, 0, true, false, 0, 0;
      issued, sent, pages, pending := [], [], [], [];
      start := chip.regs;
    }

    /** Hand the page over and ask for its replay. */
    method Transfer(page: seq<byte>, ghost ws: seq<Write>, n: nat) returns (r: bool)
      requires chip.Valid() && page == PageOf(ws) && n == |ws|
      modifies chip
      ensures chip.Valid() && chip.base == old(chip.regs)
      ensures chip.batch == [] || chip.batch == OnChipAll(Taken(ws, n % 0x1_0000))
      ensures r <==> chip.dlOk(old(chip.now).pages) && chip.h2cOk(old(chip.now).triggers)
      ensures !chip.dlOk(old(chip.now).pages) ==> chip.batch == [] && chip.regs == old(chip.regs)
      ensures Later(old(chip.now), chip.now)
      ensures chip.now.waits == old(chip.now).waits + if r && hasSettle then 1 else 0
      ensures chip.Faithful(old(chip.now)) ==> r && chip.batch == OnChipAll(Taken(ws, n % 0x1_0000))
      ensures chip.Idle(old(chip.now)) ==> r && chip.done == 0 && chip.regs == old(chip.regs)
    {
      r := chip.DlRsvdPage(page);
      if r {
        var pkt := TriggerPacket(n, cfgLoc, seqNo);
        NumFieldIs(n, cfgLoc, seqNo);
        CommandsOfBuffer(ws, n % 0x1_0000);
        r := chip.SendH2cPkt(pkt);
        if r && hasSettle {
          chip.Elapse();
        }
      }
    }

    /** Poll the last baseband write back, up to forty times. */
    method Confirm() returns (matched: bool)
      requires chip.Valid()
      modifies chip
      ensures chip.Valid() && chip.base == old(chip.base) && chip.batch == old(chip.batch)
      ensures matched <==> BbAt(chip.regs, lastBbAddr) == lastBbValue
      ensures chip.now == old(chip.now).(waits := chip.now.waits)
      ensures old(chip.now).waits < chip.now.waits <= old(chip.now).waits + 40
      ensures !matched ==> chip.now.waits == old(chip.now).waits + 40
      ensures chip.Faithful(old(chip.now)) ==> chip.done == |chip.batch|
      ensures chip.Idle(old(chip.now)) ==> chip.regs == old(chip.regs) && chip.done == old(chip.done)
    {
      matched := false;
      var got := chip.VerifyRead(lastBbAddr);
      matched := got == lastBbValue;
      var i := 1;
      while i < 40 && !matched
        invariant chip.Valid() && chip.base == old(chip.base) && chip.batch == old(chip.batch)
        invariant got == BbAt(chip.regs, lastBbAddr) && (matched <==> got == lastBbValue)
        invariant 1 <= i <= 40 && chip.now == old(chip.now).(waits := old(chip.now).waits + i)
        invariant chip.Faithful(old(chip.now)) ==> chip.done == |chip.batch|
        invariant chip.Idle(old(chip.now)) ==> chip.regs == old(chip.regs) && chip.done == old(chip.done)
      {
        got := chip.VerifyRead(lastBbAddr);
        matched := got == lastBbValue;
        i := i + 1;
      }
    }

    /** Both transfers of a batch begun at that moment succeeded and, where there is something to read back, regs
        shows it. */
    ghost predicate Confirmed(regs: Regs, began: Moment)
      reads this
    {
      && chip.dlOk(began.pages) && chip.h2cOk(began.triggers)
      && (lastWasBb && hasVerify ==> BbAt(regs, lastBbAddr) == lastBbValue)
    }

    /** Hand a batch over and wait for its replay; k is how far firmware got. */
    method Deliver(page: seq<byte>, ghost ws: seq<Write>) returns (r: bool, ghost k: nat)
      requires chip.Valid() && page == PageOf(ws) && num == |ws| > 0 && Remembers(ws)
      modifies chip
      ensures chip.Valid() && k <= |ws| && chip.regs == DirectAll(old(chip.regs), ws[..k])
      ensures r <==> Confirmed(chip.regs, old(chip.now))
      ensures !chip.dlOk(old(chip.now).pages) ==> chip.regs == old(chip.regs)
      ensures r && hasVerify && ValueIsNews(old(chip.regs), ws) ==> k > LastBb(ws)
      ensures Later(old(chip.now), chip.now)
      ensures chip.Faithful(old(chip.now)) && num < 0x1_0000 ==> r && k == |ws|
      ensures chip.Idle(old(chip.now)) && (lastWasBb ==> BbAt(old(chip.regs), lastBbAddr) == lastBbValue) ==>
        r && chip.regs == old(chip.regs)
    {
      hide DirectAll, PageOf, OnChipAll, ValueIsNews, BbAt, LastBb;
      ghost var r0 := chip.regs;
      r := Transfer(page, ws, num);
      if r && lastWasBb && hasVerify {
        r := Confirm();
      } else if r {
        chip.Elapse();
      }
      k := ReplayedPart(chip, ws, r0, num % 0x1_0000);
      ReadbackOf(r0, ws, k);
    }

    /** A replay that firmware took as far as its k-th write. */
    ghost predicate ReplayedTo(regs: Regs, r0: Regs, ws: seq<Write>, k: nat) {
      k <= |ws| && regs == DirectAll(r0, ws[..k])
    }

    /** Some in-order part of the batch was replayed, past its last baseband write if certified. */
    ghost predicate PrefixReplayed(regs: Regs, r0: Regs, ws: seq<Write>, certified: bool) {
      exists k: nat :: ReplayedTo(regs, r0, ws, k) && (certified && ValueIsNews(r0, ws) ==> k > LastBb(ws))
    }

    /** The books after a delivery: success counted or failure remembered, the buffer empty for the next batch. */
    method Account(r: bool, ghost page: seq<byte>)
      requires Buffered() && page == PageOf(pending)
      modifies this
      ensures Valid() && num == 0 && issued == old(issued)
      ensures ok == (old(ok) && r) && total == old(total) + (if r then old(num) else 0)
      ensures sent == old(sent) + [old(pending)]
    {
      hide DirectAll, Flat, PagesOf, PageOf, EncodeAll, LastBb;
      if !r {
        ok := false;
      } else {
        total := total + num;
      }
      NothingBuffered();
      SentOne(sent, pending);
      ghost var ws := pending;
      sent, pages, pending := sent + [ws], pages + [page], [];
      buf, num, lastWasBb := [], 0, false;
      assert issued == Flat(sent) + pending;
    }

    /** Send what is buffered; the answer is this batch's success, and ok() remembers every failure. */
    method Flush() returns (r: bool)
      requires Valid()
      modifies this, chip
      ensures Valid() && num == 0 && issued == old(issued)
      ensures old(num) == 0 ==>
        r == ok == old(ok) && total == old(total) && sent == old(sent) && chip.regs == old(chip.regs)
      ensures old(num) > 0 ==>
        && ok == (old(ok) && r) && total == old(total) + (if r then old(num) else 0)
        && sent == old(sent) + [old(pending)]
        && PrefixReplayed(chip.regs, old(chip.regs), old(pending), r && hasVerify)
      ensures old(num) > 0 ==> (r <==>
        && chip.dlOk(old(chip.now).pages) && chip.h2cOk(old(chip.now).triggers)
        && (old(lastWasBb) && hasVerify ==> BbAt(chip.regs, old(lastBbAddr)) == old(lastBbValue)))
      ensures old(num) > 0 && !chip.dlOk(old(chip.now).pages) ==> chip.regs == old(chip.regs)
      ensures Later(old(chip.now), chip.now)
      ensures chip.Faithful(old(chip.now)) && 0 < old(num) < 0x1_0000 ==>
        r && chip.regs == DirectAll(old(chip.regs), old(pending))
      // a register that already shows the value is believed though nothing was replayed
      ensures chip.Idle(old(chip.now)) && old(num > 0 && (lastWasBb ==> BbAt(chip.regs, lastBbAddr) == lastBbValue)) ==>
        r && chip.regs == old(chip.regs)
    {
      hide DirectAll, ValueIsNews, Flat, PagesOf, PageOf, EncodeAll, EndCommand, Chip.Faithful, Chip.Idle, LastBb, BbAt;
      assert PageOf(pending) == buf + EndCommand() by { BufferedPage(pending); }
      if num == 0 {
        return ok;
      }
      ghost var ws, r0 := pending, chip.regs;
      var page := buf + EndCommand();
      ghost var k;
      r, k := Deliver(page, ws);
      assert ReplayedTo(chip.regs, r0, ws, k);
      assert k == |ws| ==> ws[..k] == ws;
      Account(r, page);
    }

    /** One more command is in the buffer and nothing else happened. */
    ghost predicate JustBuffered(num0: nat, sent0: seq<seq<Write>>, regs0: Regs, now0: Moment)
      reads this, chip
    {
      num == num0 + 1 && sent == sent0 && chip.regs == regs0 && chip.now == now0
    }

    /** The batch with one more command went out, and is remembered as failed if its transfers failed. */
    ghost predicate JustSent(sent0: seq<seq<Write>>, batch: seq<Write>, now0: Moment)
      reads this
    {
      num == 0 && sent == sent0 + [batch] && (ok ==> chip.dlOk(now0.pages) && chip.h2cOk(now0.triggers))
    }

    /** One command more; at the threshold the batch goes out. */
    method Push(cmd: byte, addrField: U16, value: U32, ghost w: Write)
      requires Buffered() && Remembers(pending + [w]) && (num == 0 || num < maxCmds)
      requires cmd == CodeOf(w) && addrField == AddrFieldOf(w) && value == DataOf(w)
      modifies this, chip
      ensures Ready() && issued == old(issued) + [w]
      ensures ok ==> old(ok)
      ensures chip.Faithful(old(chip.now)) && maxCmds < 0x1_0000 && old(InStep()) ==> InStep()
      ensures old(num) + 1 < maxCmds ==>
        ok == old(ok) && JustBuffered(old(num), old(sent), old(chip.regs), old(chip.now))
      ensures old(num) + 1 >= maxCmds ==>
        JustSent(old(sent), old(pending) + [w], old(chip.now))
    {
      hide CodeOf, AddrFieldOf, DataOf, PutLe, EncodeAll, DirectAll, Flat, PagesOf, LastBb, PrefixReplayed;
      EncodeAllAppend(pending, w);
      buf := buf + (PutLe(CMD_LEN + cmd * 0x100 + addrField * 0x1_0000, 4) + PutLe(value, 4) + PutLe(0, 4));
      num := num + 1;
      issued, pending := issued + [w], pending + [w];
      assert issued == Flat(sent) + pending;
      if num >= maxCmds {
        ghost var before, batch := sent, pending;
        var _ := Flush();
        FlatAppend(start, before, batch);
      }
    }

    method WriteBb(addr: U16, value: U32)
      requires Ready()
      modifies this, chip
      ensures Ready() && issued == old(issued) + [BbWrite(addr, value)]
      ensures ok ==> old(ok)
      ensures chip.Faithful(old(chip.now)) && maxCmds < 0x1_0000 && old(InStep()) ==> InStep()
      ensures old(num) + 1 < maxCmds ==>
        ok == old(ok) && JustBuffered(old(num), old(sent), old(chip.regs), old(chip.now))
      ensures old(num) + 1 >= maxCmds ==>
        JustSent(old(sent), old(pending) + [BbWrite(addr, value)], old(chip.now))
    {
      LastBbAppend(pending, BbWrite(addr, value));
      lastWasBb, lastBbAddr, lastBbValue := true, addr, value;
      Push(BB_W32, addr, value, BbWrite(addr, value));
    }

    method WriteMac(addr: U16, value: U32, width: byte)
      requires Ready()
      modifies this, chip
      ensures Ready() && issued == old(issued) + [MacWrite(addr, value, width)]
      ensures ok ==> old(ok)
      ensures chip.Faithful(old(chip.now)) && maxCmds < 0x1_0000 && old(InStep()) ==> InStep()
      ensures old(num) + 1 < maxCmds ==>
        ok == old(ok) && JustBuffered(old(num), old(sent), old(chip.regs), old(chip.now))
      ensures old(num) + 1 >= maxCmds ==>
        JustSent(old(sent), old(pending) + [MacWrite(addr, value, width)], old(chip.now))
    {
      LastBbAppend(pending, MacWrite(addr, value, width));
      var cmd := if width == 1 then MAC_W8 else if width == 2 then MAC_W16 else MAC_W32;
      Push(cmd, addr, value, MacWrite(addr, value, width));
    }

    method WriteRf(path: byte, addr: byte, value: U32)
      requires Ready()
      modifies this, chip
      ensures Ready() && issued == old(issued) + [RfWrite(path, addr, value)]
      ensures ok ==> old(ok)
      ensures chip.Faithful(old(chip.now)) && maxCmds < 0x1_0000 && old(InStep()) ==> InStep()
      ensures old(num) + 1 < maxCmds ==>
        ok == old(ok) && JustBuffered(old(num), old(sent), old(chip.regs), old(chip.now))
      ensures old(num) + 1 >= maxCmds ==>
        JustSent(old(sent), old(pending) + [RfWrite(path, addr, value)], old(chip.now))
    {
      LastBbAppend(pending, RfWrite(path, addr, value));
      Push(RF_W, addr + path * 0x100, value % 0x10_0000, RfWrite(path, addr, value));
    }
  }

  lemma NothingBuffered()
    ensures EncodeAll([]) == [] && LastBb([]) == -1
  {
  }

  lemma BufferedPage(ws: seq<Write>)
    ensures PageOf(ws) == EncodeAll(ws) + EndCommand()
  {
  }

  lemma LastBbAppend(ws: seq<Write>, w: Write)
    ensures LastBb(ws + [w]) == if w.BbWrite? then |ws| else LastBb(ws)
  {
    assert (ws + [w])[..|ws|] == ws;
  }

  lemma SentOne(batches: seq<seq<Write>>, batch: seq<Write>)
    ensures Flat(batches + [batch]) == Flat(batches) + batch
    ensures PagesOf(batches + [batch]) == PagesOf(batches) + [PageOf(batch)]
  {
    assert (batches + [batch])[..|batches|] == batches;
  }

  lemma FlatAppend(r: Regs, batches: seq<seq<Write>>, batch: seq<Write>)
    ensures DirectAll(r, Flat(batches + [batch])) == DirectAll(DirectAll(r, Flat(batches)), batch)
  {
    SentOne(batches, batch);
    DirectAllJoin(r, Flat(batches), batch);
  }

  /** What the chip replayed of a batch is an in-order part of what was written. */
  lemma ReplayedPart(chip: Chip, ws: seq<Write>, r: Regs, n: nat) returns (k: nat)
    requires chip.Valid() && chip.base == r
    requires chip.batch == [] || chip.batch == OnChipAll(Taken(ws, n))
    ensures k <= |ws| && chip.regs == DirectAll(r, ws[..k])
    ensures |ws| <= n && chip.batch == OnChipAll(ws) && chip.done == |chip.batch| ==> k == |ws|
  {
    k := chip.done;
    if chip.batch != [] {
      assert chip.batch[..k] == OnChipAll(ws[..k]);
      OnChipAllSame(r, ws[..k]);
    }
  }

  /** The pages handed over so far, replayed in order, and then the writes still buffered, make the register
      file that the caller's writes make directly. */
  lemma StreamPreserved(o: Offload, r: Regs)
    requires o.Valid()
    ensures DirectAll(ReplayPages(r, o.pages), o.pending) == DirectAll(r, o.issued)
  {
    ReplayIsDirect(r, o.sent);
    DirectAllJoin(r, Flat(o.sent), o.pending);
  }

  /** A run the read-back does not see: the last write repeats what its register shows, firmware replays nothing,
      and the batch is still reported done, although the write before it is lost. */
  method BelievedUnreplayed(regs: Regs, lost: U16, w: U32, addr: U16) returns (o: Offload, r: bool)
    requires lost != addr && BbAt(regs, lost) != w
    ensures fresh(o) && r && o.ok && o.hasVerify
    ensures o.issued == [BbWrite(lost, w), BbWrite(addr, BbAt(regs, addr))]
    ensures o.chip.regs == regs && BbAt(DirectAll(regs, o.issued), lost) == w
  {
    hide DirectAll, EncodeAll, LastBb, PagesOf, Commands, Offload.PrefixReplayed, Offload.JustSent, Chip.Faithful;
    assert Flat([]) == [];
    var chip := new Chip(regs, _ => true, _ => true, _ => true, _ => Steps(0));
    o := new Offload(chip, 10, 0, 0, false, true);
    var v := BbAt(regs, addr);
    o.WriteBb(lost, w);
    o.WriteBb(addr, v);
    assert [] + o.pending == o.pending;
    assert [] + [BbWrite(lost, w)] + [BbWrite(addr, v)] == [BbWrite(lost, w), BbWrite(addr, v)];
    assert o.pending == [BbWrite(lost, w), BbWrite(addr, v)];
    TwoWrites(regs, lost, w, addr, v);
    r := o.Flush();
  }

  lemma TwoWrites(regs: Regs, a: U16, w: U32, b: U16, v: U32)
    requires a != b
    ensures LastBb([BbWrite(a, w), BbWrite(b, v)]) == 1
    ensures BbAt(DirectAll(regs, [BbWrite(a, w), BbWrite(b, v)]), a) == w
  {
    var ws := [BbWrite(a, w), BbWrite(b, v)];
    assert ws[1..] == [BbWrite(b, v)] && ws[1..][1..] == [];
    var r1 := Direct(regs, ws[0]);
    var r2 := Direct(r1, ws[1]);
    assert DirectAll(regs, ws) == DirectAll(r1, ws[1..]) == DirectAll(r2, []) == r2;
  }

  /** Firmware that goes by the trigger's count reads the whole batch exactly when the count fits sixteen bits. */
  lemma CountCoversBatch(ws: seq<Write>, loc: U16, seqNo: byte)
    ensures Commands(PageOf(ws), NumField(TriggerPacket(|ws|, loc, seqNo))) == OnChipAll(ws) <==> |ws| < 0x1_0000
  {
    var n := |ws| % 0x1_0000;
    NumFieldIs(|ws|, loc, seqNo);
    CommandsOfBuffer(ws, n);
    assert |ws| >= 0x1_0000 ==> |OnChipAll(Taken(ws, n))| < |OnChipAll(ws)|;
  }
}
